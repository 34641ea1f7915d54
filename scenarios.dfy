/** Worked end-to-end cases: one root holding one file, resolved under SCAN_ONCE and
    under SCAN_ONCE | SCAN_CACHE. */
module Scenarios {
  import opened Php
  import opened Scanner
  import opened Cache
  import opened Host
  import opened FolderScan
  import opened Policy

  /** `/src/C.php` holding `<?php namespace A\B; class C {}`. */
  function SourceFile(): FileRecord {
    FileRecord("/src/C.php", "C.php", true, ExampleFile())
  }

  /** A host where `/src` is the only directory and every file name matches. */
  function SrcHost(): Env {
    Env(
      p => Some(p),
      p => p == "/src",
      root => if root == "/src" then [SourceFile()] else [],
      (regex, name) => true,
      p => None)
  }

  lemma ScanOfSrc()
    ensures RootsMap(["/src"], [], SrcHost(), "") == map["a\\b\\c" := "/src/C.php"]
  {
    var env := SrcHost();
    var roots: seq<string> := ["/src"];
    assert roots[..0] == [];
    assert env.walk("/src") == [SourceFile()];
    var files := [SourceFile()];
    assert files[..0] == [];
    assert !Excluded("/src/C.php", []);
    assert Selected(SourceFile(), [], env, "");
    ExampleFileDeclaresABC();
    assert FolderMap(files, [], env, "") == Record(map[], ["a\\b\\c"], "/src/C.php");
    assert Record(map[], ["a\\b\\c"], "/src/C.php") == map["a\\b\\c" := "/src/C.php"];
  }

  /** Under SCAN_ONCE, `loadClass('A\B\C')` on an empty array rescans once, requires
      `/src/C.php`, and leaves SCAN_ONCE consumed. */
  lemma OnceResolvesDeclaredClass()
    ensures Resolve(map[], SCAN_ONCE, "", Lower("A\\B\\C"), RootsMap(["/src"], [], SrcHost(), ""))
         == Resolution(map["a\\b\\c" := Some("/src/C.php")], SCAN_NEVER, [Rescan, Require("/src/C.php")])
  {
    ScanOfSrc();
    var scanned := RootsMap(["/src"], [], SrcHost(), "");
    var name := Lower("A\\B\\C");
    assert name == "a\\b\\c";
    assert CheckClass(name, map[]) == NotFound;
    assert ScansOnMiss(SCAN_ONCE);
    var merged := Merge(map[], scanned);
    assert merged == map["a\\b\\c" := Some("/src/C.php")];
    assert CheckClass(name, merged) == Exists;
    assert RequireIfFound(name, merged) == [Require("/src/C.php")];
    assert AfterRescan(SCAN_ONCE) == SCAN_NEVER;
  }

  /** Under SCAN_ONCE | SCAN_CACHE with a save file, a name nobody declares is
      recorded as null next to the scanned class, and the array is saved. */
  lemma OnceCacheRecordsMissingClass()
    ensures Resolve(map[], SCAN_ONCE | SCAN_CACHE, "/tmp/classes.php", "a\\missing",
                    RootsMap(["/src"], [], SrcHost(), ""))
         == var cached := map["a\\b\\c" := Some("/src/C.php"), "a\\missing" := None];
            Resolution(cached, SCAN_CACHE, [Rescan, Save("/tmp/classes.php", cached)])
  {
    ScanOfSrc();
    var merged := Merge(map[], map["a\\b\\c" := "/src/C.php"]);
    assert merged == map["a\\b\\c" := Some("/src/C.php")];
    assert "a\\missing" !in merged;
    assert AfterRescan(SCAN_ONCE | SCAN_CACHE) == SCAN_CACHE;
    assert CachesMisses(SCAN_ONCE | SCAN_CACHE);
  }

  /** After that lookup, `classExists('A\B\C')` as written finds nothing. */
  lemma ClassExistsMissesResolvedClass()
    ensures CheckClass("A\\B\\C", map["a\\b\\c" := Some("/src/C.php")]) == NotFound
    ensures CheckClass(Lower("A\\B\\C"), map["a\\b\\c" := Some("/src/C.php")]) == Exists
  {
    assert "A\\B\\C" != "a\\b\\c" by {
      assert "A\\B\\C"[0] != "a\\b\\c"[0];
    }
    assert Lower("A\\B\\C") == "a\\b\\c";
  }
}
