# Autoloader, modelled in Dafny

This project models the `Autoloader` class of codeurx/Autoloader, a PHP class autoloader.
The class scans registered source folders and maps every declared class, interface and
trait to the file that declares it. Keys are lower-cased and namespace-qualified, such as
`a\b\c`. The map is kept in the `_classes` array. A name that a scan failed to find can be
stored as `null`, which marks it as known to be absent. The array can be written to a
save file and loaded back. `loadClass` resolves a name from the array and rescans the
folders on a miss, depending on the `_scanOptions` bitmask.

The modules follow the parts of the class:

- `Php`: the PHP built-ins the class relies on. This covers `null` (`Option`), string
  truthiness, ASCII `strtolower`, and `implode` with its inverse `Split`.
- `Scanner` (`getClassesFromFile`): tokens are either lexemes (a kind and a text) or
  single characters. `GetClassesFromFile` is the index-jumping loop, proved equal to the
  function `Scan`. The lemmas state what `Scan` emits.
- `Host`: the filesystem, regex engine and `include`, given as oracles in an `Env`
  value. A walk is an ordered sequence of `FileRecord`s.
- `FolderScan` (`parseFolder`, `parseFolders`): `FolderMap` and `RootsMap` say which
  files are scanned and which path each name gets.
- `Cache` (`checkClass`, `_getNullElements`, `refresh`'s merge): a `Cache` is a
  `map<string, Option<string>>`.
- `Policy` (`loadClass`): the scan-option bits, the effects (`Require`, `Rescan`, `Save`)
  and `Resolve`. `Resolve` gives the state and effects of one `loadClass` call as a
  function of the state before it.
- `Autoloader`: the class itself. Its fields are the PHP fields plus `trace`, the list
  of effects performed so far. Its methods update those fields in place.
- `Scenarios`: concrete cases that run one root and one file through the whole chain.

The null values of `$namespace` and `$_saveFile` are modelled as `""`, which is falsy in
PHP just like `null`. `_scanOptions` is a `bv64` because PHP integers are 64-bit. The miss
branch of `loadClass` is the private method `RefreshAfterMiss`, so that each method stays
small enough for the verifier. Together the two methods do exactly what lines 117-140 do.

Three behaviours of the code are worth naming:
- The array is saved only on the rescan path (lines 130-133).
- The namespace and the name are joined with `\` (line 226).
- `CLASS_IS_NULL` (2) is truthy, so a null entry never triggers a rescan, even under
  SCAN_ALWAYS (line 121, `Policy.NegativeEntrySuppressesRescan`).

## Model

| member | source | states |
|---|---|---|
| `Scanner.GetClassesFromFile` | src/Autoloader.php:196-237 | The loop returns exactly `Scan(tokens)`. The loop has the namespace reset, the two-token jumps, the inner namespace loop, the extra skip from `$i++` and the `::class` skip. |
| `Scanner.QualifiedName` | src/Autoloader.php:224-231 | The name is lower-case. It is `lower(ns) + "\" + lower(name)` when the namespace is truthy, and `lower(name)` otherwise. |
| `Scanner.ScanLowerCase` | src/Autoloader.php:224-231 | Every name the scanner emits is lower-case. |
| `Scanner.ScanBounded` | src/Autoloader.php:215-232 | The scanner emits at most one name per `class`/`interface`/`trait` keyword. `Foo::class` keywords are not counted. |
| `Scanner.ClassConstantsDeclareNothing` | src/Autoloader.php:218-221 | A file with no declaration keyword except `::class` references yields no names. |
| `Scanner.ClassConstantExample` | src/Autoloader.php:218-221 | `$name = Foo::class;` yields no names. |
| `Scanner.ReadNamespaceRun` | src/Autoloader.php:209-213 | The inner loop reads exactly the run of T_STRING/T_NS_SEPARATOR tokens, concatenates their texts, and stops at the first other token. |
| `Scanner.NamespacedDeclaration` | src/Autoloader.php:207-232 | Take `namespace` with a run of name parts, one skipped terminator, plain tokens, then a declaration. It emits `QualifiedName(run text, name)` and continues with that namespace. An empty run gives an unqualified name. |
| `Scanner.GlobalDeclaration` | src/Autoloader.php:223-231 | With no `namespace` before it, a declaration emits its bare lower-cased name. |
| `Scanner.ExampleFileDeclaresABC` | src/Autoloader.php:203-236 | The tokens of `<?php namespace A\B; class C {}` yield exactly `["a\b\c"]`. |
| `FolderScan.FolderMapDomain` | src/Autoloader.php:171-190 | A name is a key of `parseFolder`'s map if and only if some walked regular file declares it. That file must match the regex and lie under no excluded prefix. |
| `FolderScan.FolderMapProvenance` | src/Autoloader.php:184-189 | Every mapped path is the pathname of a scanned file that declares the name. |
| `FolderScan.FolderMapNeverExcluded` | src/Autoloader.php:175-182 | No mapped path starts with an excluded folder. |
| `FolderScan.ExclusionIsBySegment` | src/Autoloader.php:175-182 | Excluding `/foo` is stored as `/foo/` (line 94). It excludes `/foo/x.php` but not `/foo2/x.php`, and not `/foo` itself. |
| `FolderScan.FolderMapLastWins` | src/Autoloader.php:186-188 | Within one walk, a name maps to the pathname of the last scanned file that declares it. |
| `FolderScan.FolderMapAppend` | src/Autoloader.php:166-194 | Scanning two walks one after the other overlays the second map on the first. |
| `FolderScan.RootsMapIsOneWalk` | src/Autoloader.php:156-164 | `parseFolders` equals `parseFolder` over all root walks joined in registration order. |
| `FolderScan.RootsMapLaterRootWins` | src/Autoloader.php:159-161 | If a name is found under root j and under no later root, it maps to root j's path. |
| `FolderScan.TwoRootsSecondWins` | src/Autoloader.php:159-161 | If two roots declare the same name, the root registered second wins. |
| `Cache.CheckClass` | src/Autoloader.php:142-154 | The result is EXISTS for a non-null entry, IS_NULL for a null entry and NOT_FOUND for a missing key. It is truthy exactly when the key is present. |
| `Cache.NullEntries` | src/Autoloader.php:279-282 | `array_filter` with `_getNullElements` keeps exactly the null entries. |
| `Cache.Merge` | src/Autoloader.php:260-268 | After a refresh, every scanned name maps to its scanned path. Every old null entry that was not rescanned stays null. Nothing else is in the result, so stale paths are dropped. |
| `Cache.LookupAfterMerge` | src/Autoloader.php:260-268 | After a refresh, a lookup finds scanned names. It reports a null entry that was not rescanned as known absent, and everything else as not found. |
| `Cache.MergeIdempotent` | src/Autoloader.php:260-268 | Two refreshes against the same scan give the same result as one. |
| `Cache.MergeForgetsPaths` | src/Autoloader.php:262-266 | A refresh depends on the old array only through its null entries. |
| `Policy.RequireIfFound` | src/Autoloader.php:144-148 | `checkClass` requires a file exactly when the entry is non-null, and it requires that entry's path. |
| `Policy.HitOrKnownAbsentChangesNothing` | src/Autoloader.php:117-121 | A non-null or null entry means no rescan, and the array and options stay unchanged. Only a non-null entry requires its file. |
| `Policy.MissWithoutScanBitChangesNothing` | src/Autoloader.php:117-121 | A miss with bit 1 clear changes nothing and has no effect. |
| `Policy.NeverAndCacheAloneNeverRescan` | src/Autoloader.php:13-16 | With options SCAN_NEVER (0) or SCAN_CACHE (4), nothing is ever rescanned and no state changes. |
| `Policy.MissWithScanBitRefreshesOnce` | src/Autoloader.php:121-139 | A miss with bit 1 set rescans exactly once. A scanned name is then mapped and required; in the effect list, that require comes right after the rescan. An unfound name is recorded as null if bit 4 is set and stays absent otherwise. All other entries are the refreshed array. The effect list is exactly the rescan, then the require when the name was scanned, then a save of the final array when a save file is set. Bit 1 is cleared unless bit 2 is set. |
| `Policy.OnceIsConsumedByAMiss` | src/Autoloader.php:135-138 | Under SCAN_ONCE, the first miss leaves the options at 0. After that, no later call rescans. |
| `Policy.AlwaysIsNeverConsumed` | src/Autoloader.php:135-138 | With both bits of SCAN_ALWAYS set, the options never change. |
| `Policy.NegativeEntrySuppressesRescan` | src/Autoloader.php:120-128 | With bits 1 and 4 set, an unfound name is recorded as null. A second lookup of that name then neither rescans nor changes anything. |
| `Policy.WithoutScanBitRepeatable` | src/Autoloader.php:117-140 | Without bit 1, a second call leaves the same state and repeats exactly the first call's effects. |
| `Autoloader.ExtensionsRegex` | src/Autoloader.php:64-76 | The regex starts with `/\.` and ends with `$/`. For a string argument, the part in between is that string. |
| `Autoloader.ExtensionsRegexListsExtensions` | src/Autoloader.php:64-76 | For a non-empty array with no `\|` in any item, the regex lists exactly those extensions in order. |
| `Autoloader.DefaultRegexIsIncAndPhp` | src/Autoloader.php:24 | The default regex is the one built from `["inc", "php"]`. |
| `Autoloader.Autoloader.constructor` | src/Autoloader.php:30-43 | All fields start empty, with the default regex, the given options and the given save file. The array is the save file's contents when that file exists. |
| `Autoloader.Autoloader.SetSaveFile` | src/Autoloader.php:50-57 | The save file is stored. A truthy path to an existing file replaces the array with the file's contents. |
| `Autoloader.Autoloader.SetFileRegex` | src/Autoloader.php:59-62 | The regex is replaced. |
| `Autoloader.Autoloader.SetAllowedFileExtensions` | src/Autoloader.php:64-76 | The regex becomes `ExtensionsRegex` of the argument. |
| `Autoloader.Autoloader.AddFolder` | src/Autoloader.php:78-88 | The resolved path of an existing directory is appended. Otherwise the call fails with `Failed to open dir : <path>` and the folders stay unchanged. |
| `Autoloader.Autoloader.ExcludeFolder` | src/Autoloader.php:90-100 | Like `AddFolder`, but the stored path gets a trailing separator and goes to the excluded folders. |
| `Autoloader.Autoloader.ClassExists` | src/Autoloader.php:102-105 | As written: true exactly for a non-null entry under the name as given, which is not lower-cased. It requires the file as a side effect. |
| `Autoloader.Autoloader.ClassExistsIgnoringCase` | src/Autoloader.php:102-105 | As intended: the same check on the lower-cased name. |
| `Autoloader.Autoloader.SetScanOptions` | src/Autoloader.php:107-110 | The options are replaced. |
| `Autoloader.Autoloader.LoadClass` | src/Autoloader.php:117-140 | The new array, options and effects are `Resolve` of the old state and the lower-cased name. The scan result is `parseFolders` of the registered folders. Folders, exclusions, regex and save file do not change. |
| `Autoloader.Autoloader.RefreshAfterMiss` | src/Autoloader.php:121-139 | The miss branch: a rescan, a second lookup, a null entry under bit 4, a save when a save file is set, and then the option update, all as `Resolve` says. |
| `Autoloader.Autoloader.Check` | src/Autoloader.php:142-154 | The result is `CheckClass`. The path is appended to the trace as required exactly when the entry is non-null. |
| `Autoloader.Autoloader.ParseFolders` | src/Autoloader.php:156-164 | The result is `RootsMap` of the registered folders. |
| `Autoloader.Autoloader.ParseFolder` | src/Autoloader.php:166-194 | The result is `FolderMap` of the walk. The method has the nested loops and the `continue 2` on an excluded prefix. |
| `Autoloader.Autoloader.SaveToFile` | src/Autoloader.php:239-253 | A save of the given array to the save file is recorded. |
| `Autoloader.Autoloader.Refresh` | src/Autoloader.php:260-268 | The array becomes `Merge` of the old array and `parseFolders`, and one rescan is recorded. |
| `Autoloader.Autoloader.Generate` | src/Autoloader.php:270-277 | With a truthy save file: a refresh, then a save of the refreshed array. Otherwise nothing happens. |
| `Autoloader.ScannedKeysAreLowerCase` | src/Autoloader.php:186-188 | Every key that `parseFolders` produces is lower-case. |
| `Autoloader.ClassExistsMissesMixedCaseNames` | src/Autoloader.php:102-105 | Take a refreshed array with lower-case keys. `classExists` as written misses every scanned name that has an upper-case letter, yet `loadClass` of that name requires the file from the array without rescanning. |
| `Autoloader.CaseInsensitiveClassExistsAgreesWithLoad` | src/Autoloader.php:117-121 | The corrected check is true exactly when `loadClass` of the same name requires a file straight from the array and changes nothing. |
| `Scenarios.ScanOfSrc` | src/Autoloader.php:156-194 | Root `/src` holds `C.php` with `namespace A\B; class C {}`. Scanning it gives exactly `{a\b\c: /src/C.php}`. |
| `Scenarios.OnceResolvesDeclaredClass` | src/Autoloader.php:117-140 | Under SCAN_ONCE, `loadClass('A\B\C')` on an empty array rescans once, requires `/src/C.php`, and leaves the options at 0. |
| `Scenarios.OnceCacheRecordsMissingClass` | src/Autoloader.php:121-139 | Under SCAN_ONCE and SCAN_CACHE with a save file, an undeclared name is recorded as null. The array is then saved and the options become SCAN_CACHE. |
| `Scenarios.ClassExistsMissesResolvedClass` | src/Autoloader.php:102-105 | In the array that lookup leaves behind, `classExists('A\B\C')` as written finds nothing, while the lower-cased name is found. |

## Left out

- `require $classes[$className]` (line 146) and `include($this->_saveFile)` (line 55) execute PHP code. They appear as a `Require(path)` effect and as the `savedCache` oracle.
- `token_get_all` and `file_get_contents` (line 200) are the PHP lexer. Each file record carries its token sequence. Only the token kinds the scanner tests are distinguished. PHP 8's single-token qualified names (T_NAME_QUALIFIED) are not in the model; the code would not read them as a namespace either.
- The `RecursiveDirectoryIterator` traversal (line 169) is a filesystem call. Each root's walk is a given ordered sequence of file records, and the walk oracle is total. The exception the iterator throws for a folder that has disappeared is not modelled.
- `realpath` and `is_dir` (lines 80 and 92) are filesystem calls and are modelled as oracles. `DIRECTORY_SEPARATOR` is fixed to `/`.
- `preg_match` (line 173) belongs to the regex engine and is an oracle. Only the regex string built by `setAllowedFileExtensions` is modelled.
- `saveToFile` (lines 239-253) serialises with `var_export`, adds a `date` comment and writes the file. It is recorded only as a `Save(file, array)` effect. The round trip "loading a saved file gives the array back" is therefore not stated, because both halves are foreign.
- `register` and `unregister` (lines 284-292) and the `define` shims for old PHP versions (lines 32-40) are runtime hook plumbing.
- `getSaveFile`, `getScanOptions` and `getRegisteredClasses` only read fields. The model reads the fields directly.
- PHP stores integer-like string keys as integers, and `array_merge` (lines 161, 266) renumbers them. The model keeps every key as a string. Identifier names are never integer-like, but the text after an anonymous `class` keyword can be: `new class(1) {}` in the global namespace emits `"1"`. PHP would key that entry as an integer and renumber it, while the model keeps the key `"1"`.
- Re-entrant autoloading is not modelled. The `require` on line 146 can start a nested `loadClass`, for example to load a parent class. That nested call runs before lines 125-138 of the outer call finish. The outer call then saves the nested call's array and clears bits in the nested call's options. `Require(path)` is an atomic effect in the model, so this interleaving is excluded.
- `strtolower` is modelled on ASCII only, as in PHP 8.2 and later. Older locale-dependent case mapping is not modelled.
- The PHP `switch` compares loosely. A one-character token is never equal to a token-kind constant, so the model treats such a token as matching no kind.
- `setScanOptions` accepts any PHP value. The model accepts 64-bit integers only.

## Findings

| source | as written | input that shows it | evidently intended | confidence | as-written member | corrected member |
|---|---|---|---|---|---|---|
| src/Autoloader.php:102-105 | `classExists` passes the name to `checkClass` without lower-casing it, although every key is lower-cased (lines 119, 226, 230) | Let `loadClass('A\B\C')` under SCAN_ONCE map `a\b\c` to `/src/C.php`. Then `classExists('A\B\C')` is false. | Lower-case the name first, as `loadClass` does on line 119 | medium, not executed | `Autoloader.Autoloader.ClassExists`, shown by `Autoloader.ClassExistsMissesMixedCaseNames` and `Scenarios.ClassExistsMissesResolvedClass` | `Autoloader.Autoloader.ClassExistsIgnoringCase`, with `Autoloader.CaseInsensitiveClassExistsAgreesWithLoad` |
