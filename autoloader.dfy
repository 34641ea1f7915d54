/** The `Autoloader` object: registered folders and exclusions, the registered-classes
    array, the file-name regex, the save file, the scan options, and the methods that
    update them. The host is passed in as an `Env`; the effects on the world are
    appended to `trace`. */
module Autoloader {
  import opened Php
  import opened Scanner
  import opened Cache
  import opened Host
  import opened FolderScan
  import opened Policy

  const DIRECTORY_SEPARATOR: string := "/"
  const DEFAULT_FILES_REGEX: string := "/\\.(inc|php)$/"
  const OPEN_DIR_FAILED: string := "Failed to open dir : "

  /** The argument of `setAllowedFileExtensions`: an array of extensions or a string. */
  datatype Extensions = ExtensionList(items: seq<string>) | ExtensionPattern(pattern: string)

  /** An exception thrown by a registration call, or none. */
  datatype Outcome = Pass | Fail(message: string)

  /** The regex `setAllowedFileExtensions` builds: `/\.(a|b|c)$/` for an array,
      `/\.` + the string + `$/` otherwise. */
  function ExtensionsRegex(e: Extensions): (r: string)
    ensures |r| >= 5 && r[..3] == "/\\." && r[|r| - 2..] == "$/"
    ensures e.ExtensionPattern? ==> r[3..|r| - 2] == e.pattern
  {
    match e
    case ExtensionList(items) => "/\\." + "(" + Implode("|", items) + ")" + "$/"
    case ExtensionPattern(p) => "/\\." + p + "$/"
  }

  /** The extensions a regex of the form `/\.(a|b|c)$/` admits. */
  function Alternatives(regex: string): seq<string> {
    if |regex| >= 7 && regex[..4] == "/\\.(" && regex[|regex| - 3..] == ")$/"
    then Split(regex[4..|regex| - 3], '|')
    else [regex]
  }

  /** The array form round-trips: the built regex lists exactly the given extensions,
      in order, when there is at least one and none contains `|`. */
  lemma ExtensionsRegexListsExtensions(items: seq<string>)
    requires |items| > 0
    requires forall k :: 0 <= k < |items| ==> '|' !in items[k]
    ensures Alternatives(ExtensionsRegex(ExtensionList(items))) == items
  {
    var body := Implode("|", items);
    var r := ExtensionsRegex(ExtensionList(items));
    assert r == "/\\.(" + body + ")$/";
    assert r[4..|r| - 3] == body;
    SplitImplode(items, '|');
  }

  /** The default regex is the one built from `["inc", "php"]`. */
  lemma DefaultRegexIsIncAndPhp()
    ensures ExtensionsRegex(ExtensionList(["inc", "php"])) == DEFAULT_FILES_REGEX
  {
  }

  class Autoloader {
    var folders: seq<string>
    var excludedFolders: seq<string>
    var classes: Cache
    var filesRegex: string
    /** `""` stands for the initial `null`. */
    var saveFile: string
    var scanOptions: bv64
    /** The effects performed so far, oldest first. */
    var trace: seq<Effect>

    /** `new Autoloader($saveFile, $scanOptions)`: loads the save file when it exists.
        The PHP defaults make `new Autoloader()` the call `Autoloader("", SCAN_ONCE, env)`. */
    constructor (saveFile: string, scanOptions: bv64, env: Env)
      ensures this.saveFile == saveFile && this.scanOptions == scanOptions
      ensures classes == if Truthy(saveFile) && env.savedCache(saveFile).Some?
                         then env.savedCache(saveFile).value else map[]
      ensures folders == [] && excludedFolders == [] && filesRegex == DEFAULT_FILES_REGEX
      ensures trace == []
    {
      folders := [];
      excludedFolders := [];
      classes := map[];
      filesRegex := DEFAULT_FILES_REGEX;
      this.saveFile := "";
      this.scanOptions := SCAN_ONCE;
      trace := [];
      new;
      SetSaveFile(saveFile, env);
      SetScanOptions(scanOptions);
    }

    /** `setSaveFile`: a truthy path to an existing file replaces the array by what
        including the file returns. */
    method SetSaveFile(path: string, env: Env)
      modifies this`saveFile, this`classes
      ensures saveFile == path
      ensures classes == if Truthy(path) && env.savedCache(path).Some?
                         then env.savedCache(path).value else old(classes)
    {
      saveFile := path;
      if Truthy(saveFile) && env.savedCache(saveFile).Some? {
        classes := env.savedCache(saveFile).value;
      }
    }

    method SetFileRegex(regex: string)
      modifies this`filesRegex
      ensures filesRegex == regex
    {
      filesRegex := regex;
    }

    method SetAllowedFileExtensions(extensions: Extensions)
      modifies this`filesRegex
      ensures filesRegex == ExtensionsRegex(extensions)
    {
      var regex := "/\\.";
      match extensions {
        case ExtensionList(items) =>
          regex := regex + "(" + Implode("|", items) + ")";
        case ExtensionPattern(p) =>
          regex := regex + p;
      }
      filesRegex := regex + "$/";
    }

    /** `addFolder`: appends the resolved path of an existing directory, or throws. */
    method AddFolder(path: string, env: Env) returns (r: Outcome)
      modifies this`folders
      ensures var rp := env.realpath(path);
        if rp.Some? && Truthy(rp.value) && env.isDir(rp.value)
        then r == Pass && folders == old(folders) + [rp.value]
        else r == Fail(OPEN_DIR_FAILED + path) && folders == old(folders)
    {
      var realpath := env.realpath(path);
      if realpath.Some? && Truthy(realpath.value) && env.isDir(realpath.value) {
        folders := folders + [realpath.value];
        r := Pass;
      } else {
        r := Fail(OPEN_DIR_FAILED + path);
      }
    }

    /** `excludeFolder`: appends the resolved path plus a trailing separator, or throws. */
    method ExcludeFolder(path: string, env: Env) returns (r: Outcome)
      modifies this`excludedFolders
      ensures var rp := env.realpath(path);
        if rp.Some? && Truthy(rp.value) && env.isDir(rp.value)
        then r == Pass && excludedFolders == old(excludedFolders) + [rp.value + DIRECTORY_SEPARATOR]
        else r == Fail(OPEN_DIR_FAILED + path) && excludedFolders == old(excludedFolders)
    {
      var realpath := env.realpath(path);
      if realpath.Some? && Truthy(realpath.value) && env.isDir(realpath.value) {
        excludedFolders := excludedFolders + [realpath.value + DIRECTORY_SEPARATOR];
        r := Pass;
      } else {
        r := Fail(OPEN_DIR_FAILED + path);
      }
    }

    /** `classExists` as written: the name is looked up without lower-casing it. */
    method ClassExists(className: string) returns (b: bool)
      modifies this`trace
      ensures b <==> CheckClass(className, classes) == Exists
      ensures trace == old(trace) + RequireIfFound(className, classes)
    {
      var status := Check(className, classes);
      b := status == Exists;
    }

    /** `classExists` as evidently intended: the name is lower-cased first, as
        `loadClass` does. */
    method ClassExistsIgnoringCase(className: string) returns (b: bool)
      modifies this`trace
      ensures b <==> CheckClass(Lower(className), classes) == Exists
      ensures trace == old(trace) + RequireIfFound(Lower(className), classes)
    {
      var status := Check(Lower(className), classes);
      b := status == Exists;
    }

    method SetScanOptions(options: bv64)
      modifies this`scanOptions
      ensures scanOptions == options
    {
      scanOptions := options;
    }

    /** `loadClass`: the lower-cased name is resolved as `Resolve` says, with what
        `parseFolders` returns as the scan result of a refresh. */
    method LoadClass(className: string, env: Env)
      modifies this
      ensures var r := Resolve(old(classes), old(scanOptions), old(saveFile), Lower(className),
                               RootsMap(old(folders), old(excludedFolders), env, old(filesRegex)));
        classes == r.classes && scanOptions == r.options && trace == old(trace) + r.effects
      ensures folders == old(folders) && excludedFolders == old(excludedFolders)
      ensures filesRegex == old(filesRegex) && saveFile == old(saveFile)
    {
      var name := Lower(className);
      var loaded := Check(name, classes);
      if !loaded.IsTruthy() && ScansOnMiss(scanOptions) {
        RefreshAfterMiss(name, env);
      }
    }

    /** The body of `loadClass`'s miss branch: refresh, look up again, record the
        miss as null under SCAN_CACHE, save, and consume SCAN_ONCE unless bit 2 is set. */
    method RefreshAfterMiss(name: string, env: Env)
      requires name !in classes && ScansOnMiss(scanOptions)
      modifies this`classes, this`trace, this`scanOptions
      ensures var r := Resolve(old(classes), old(scanOptions), saveFile, name,
                               RootsMap(folders, excludedFolders, env, filesRegex));
        classes == r.classes && scanOptions == r.options && trace == old(trace) + r.effects
    {
      Refresh(env);
      ghost var merged := classes;
      var loaded := Check(name, classes);
      ghost var found := RequireIfFound(name, merged);
      assert trace == old(trace) + [Rescan] + found;
      if !loaded.IsTruthy() && CachesMisses(scanOptions) {
        classes := classes[name := None];
      }
      ghost var saved := if Truthy(saveFile) then [Save(saveFile, classes)] else [];
      if Truthy(saveFile) {
        SaveToFile(classes);
      }
      assert trace == old(trace) + [Rescan] + found + saved;
      assert old(trace) + [Rescan] + found + saved == old(trace) + ([Rescan] + found + saved);
      scanOptions := AfterRescan(scanOptions);
    }

    /** `checkClass`: the three-valued lookup, requiring the file on a hit. */
    method Check(name: string, cls: Cache) returns (s: Status)
      modifies this`trace
      ensures s == CheckClass(name, cls)
      ensures trace == old(trace) + RequireIfFound(name, cls)
    {
      if name in cls && cls[name].Some? {
        trace := trace + [Require(cls[name].value)];
        s := Exists;
      } else if name in cls {
        s := IsNull;
      } else {
        s := NotFound;
      }
    }

    /** `parseFolders`: every registered root in order, merged by `array_merge`. */
    method ParseFolders(env: Env) returns (m: map<string, string>)
      ensures m == RootsMap(folders, excludedFolders, env, filesRegex)
    {
      m := map[];
      for i := 0 to |folders|
        invariant m == RootsMap(folders[..i], excludedFolders, env, filesRegex)
      {
        var found := ParseFolder(folders[i], env);
        assert folders[..i + 1][..i] == folders[..i];
        m := m + found;
      }
      assert folders[..|folders|] == folders;
    }

    /** `parseFolder`: the walk's regular files matching the regex and outside every
        excluded folder, each scanned, later files overwriting earlier ones. */
    method ParseFolder(folder: string, env: Env) returns (m: map<string, string>)
      ensures m == FolderMap(env.walk(folder), excludedFolders, env, filesRegex)
    {
      var files := env.walk(folder);
      m := map[];
      for i := 0 to |files|
        invariant m == FolderMap(files[..i], excludedFolders, env, filesRegex)
      {
        FolderMapStep(files, i, excludedFolders, env, filesRegex);
        var file := files[i];
        if file.isFile && env.pregMatch(filesRegex, file.filename) {
          for j := 0 to |excludedFolders|
            invariant forall k :: 0 <= k < j ==> !(excludedFolders[k] <= file.pathname)
          {
            if excludedFolders[j] <= file.pathname {
              break continue;
            }
          }
          var classNames := GetClassesFromFile(file.tokens);
          if classNames != [] {
            ghost var before := m;
            for k := 0 to |classNames|
              invariant m == Record(before, classNames[..k], file.pathname)
            {
              RecordStep(before, classNames, k, file.pathname);
              m := m[classNames[k] := file.pathname];
            }
            assert classNames[..|classNames|] == classNames;
          }
        }
      }
      assert files[..|files|] == files;
    }

    method SaveToFile(cls: Cache)
      modifies this`trace
      ensures trace == old(trace) + [Save(saveFile, cls)]
    {
      trace := trace + [Save(saveFile, cls)];
    }

    /** `refresh`: the null entries survive, overlaid with a full rescan. */
    method Refresh(env: Env)
      modifies this`classes, this`trace
      ensures classes == Merge(old(classes), RootsMap(folders, excludedFolders, env, filesRegex))
      ensures trace == old(trace) + [Rescan]
    {
      var nullClasses := NullEntries(classes);
      var newClasses := ParseFolders(env);
      trace := trace + [Rescan];
      classes := nullClasses + map n | n in newClasses :: Some(newClasses[n]);
    }

    /** `generate`: with a save file set, refresh and save. */
    method Generate(env: Env)
      modifies this`classes, this`trace
      ensures Truthy(saveFile) ==>
        && classes == Merge(old(classes), RootsMap(folders, excludedFolders, env, filesRegex))
        && trace == old(trace) + [Rescan, Save(saveFile, classes)]
      ensures !Truthy(saveFile) ==> classes == old(classes) && trace == old(trace)
    {
      if Truthy(saveFile) {
        Refresh(env);
        SaveToFile(classes);
      }
    }
  }

  // ---------------------------------------------------------------------------
  // classExists and lower-case keys

  /** Every key a scan produces is lower-case. */
  lemma ScannedKeysAreLowerCase(roots: seq<string>, excluded: seq<string>, env: Env, regex: string)
    ensures forall n :: n in RootsMap(roots, excluded, env, regex) ==> IsLowerCase(n)
  {
    forall n | n in RootsMap(roots, excluded, env, regex) ensures IsLowerCase(n) {
      RootsMapIsOneWalk(roots, excluded, env, regex);
      var files := Walks(roots, env);
      FolderMapProvenance(files, excluded, env, regex, n);
      var k :| 0 <= k < |files| && Declares(files[k], n, excluded, env, regex);
      var names := Scan(files[k].tokens);
      ScanLowerCase(files[k].tokens);
      var i :| 0 <= i < |names| && names[i] == n;
    }
  }

  /** As written, `classExists` misses every scanned class whose name has an
      upper-case letter: a refresh of an array with lower-case keys (the keys
      `loadClass` writes) leaves only lower-case keys, so the unfolded name is not
      found, although `loadClass` of the same name requires the file straight from
      the array without rescanning. */
  lemma ClassExistsMissesMixedCaseNames(classes: Cache, roots: seq<string>, excluded: seq<string>, env: Env, regex: string,
                                        options: bv64, saveFile: string, className: string, scanned: map<string, string>)
    requires exists i :: 0 <= i < |className| && IsUpper(className[i])
    requires forall n :: n in classes ==> IsLowerCase(n)
    requires Lower(className) in RootsMap(roots, excluded, env, regex)
    ensures var refreshed := Merge(classes, RootsMap(roots, excluded, env, regex));
      && CheckClass(className, refreshed) == NotFound
      && Resolve(refreshed, options, saveFile, Lower(className), scanned).classes == refreshed
      && NoRescan(Resolve(refreshed, options, saveFile, Lower(className), scanned).effects)
      && Resolve(refreshed, options, saveFile, Lower(className), scanned).effects != []
  {
    ScannedKeysAreLowerCase(roots, excluded, env, regex);
  }

  /** The corrected `classExists` answers true exactly when `loadClass` of the same
      name would require a file straight from the array, without a rescan. */
  lemma CaseInsensitiveClassExistsAgreesWithLoad(classes: Cache, options: bv64, saveFile: string,
                                                className: string, scanned: map<string, string>)
    ensures var r := Resolve(classes, options, saveFile, Lower(className), scanned);
      (CheckClass(Lower(className), classes) == Exists)
        <==> (|r.effects| > 0 && r.effects[0].Require? && r.classes == classes)
  {
  }
}
