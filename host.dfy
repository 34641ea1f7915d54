/** What the autoloader asks of its host, reduced to plain data: the files a
    recursive directory walk yields, and the answers of `realpath`, `is_dir`,
    `preg_match` and `include` of a saved cache file. */
module Host {
  import opened Php
  import opened Scanner
  import opened Cache

  /** One entry of `RecursiveIteratorIterator(RecursiveDirectoryIterator($folder))`:
      `getPathname()`, `getFilename()`, `isFile()`, and `token_get_all` of the file's
      contents (irrelevant for entries that are not files). */
  datatype FileRecord = FileRecord(pathname: string, filename: string, isFile: bool, tokens: seq<Token>)

  /** The host as oracles: `realpath` (None for `false`), `is_dir`, the ordered walk
      below a folder, `preg_match($regex, $filename)`, and the array an existing
      save file returns when included (None when it does not exist). */
  datatype Env = Env(
    realpath: string -> Option<string>,
    isDir: string -> bool,
    walk: string -> seq<FileRecord>,
    pregMatch: (string, string) -> bool,
    savedCache: string -> Option<Cache>)
}
