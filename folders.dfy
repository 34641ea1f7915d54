/** `parseFolder` and `parseFolders` as functions: which files of a walk are scanned,
    and the name-to-path array built from them. */
module FolderScan {
  import opened Php
  import opened Scanner
  import opened Host

  /** `strncmp($folder, $pathname, strlen($folder)) === 0` for some excluded folder:
      the pathname starts with it. */
  predicate Excluded(path: string, excluded: seq<string>) {
    exists k :: 0 <= k < |excluded| && excluded[k] <= path
  }

  /** A walk entry that gets scanned: a regular file whose name matches the regex and
      whose pathname is not under an excluded folder. */
  predicate Selected(f: FileRecord, excluded: seq<string>, env: Env, regex: string) {
    f.isFile && env.pregMatch(regex, f.filename) && !Excluded(f.pathname, excluded)
  }

  /** The file is scanned and declares `name`. */
  predicate Declares(f: FileRecord, name: string, excluded: seq<string>, env: Env, regex: string) {
    Selected(f, excluded, env, regex) && name in Scan(f.tokens)
  }

  /** `$classes[$className] = $pathname` for every name found in one file. */
  function Record(m: map<string, string>, names: seq<string>, path: string): map<string, string> {
    m + map n | n in names :: path
  }

  /** What `parseFolder` returns for a walk yielding `files` in this order. */
  function FolderMap(files: seq<FileRecord>, excluded: seq<string>, env: Env, regex: string): map<string, string>
    decreases |files|
  {
    if files == [] then map[]
    else
      var m := FolderMap(files[..|files| - 1], excluded, env, regex);
      var f := files[|files| - 1];
      if Selected(f, excluded, env, regex) then Record(m, Scan(f.tokens), f.pathname) else m
  }

  /** What `parseFolders` returns: each root's map `array_merge`d over the previous ones. */
  function RootsMap(roots: seq<string>, excluded: seq<string>, env: Env, regex: string): map<string, string>
    decreases |roots|
  {
    if roots == [] then map[]
    else
      RootsMap(roots[..|roots| - 1], excluded, env, regex)
        + FolderMap(env.walk(roots[|roots| - 1]), excluded, env, regex)
  }

  /** The walks of all roots, one after the other. */
  function Walks(roots: seq<string>, env: Env): seq<FileRecord>
    decreases |roots|
  {
    if roots == [] then [] else Walks(roots[..|roots| - 1], env) + env.walk(roots[|roots| - 1])
  }

  /** One more walk entry: scanned and recorded, or passed over. */
  lemma FolderMapStep(files: seq<FileRecord>, i: nat, excluded: seq<string>, env: Env, regex: string)
    requires i < |files|
    ensures FolderMap(files[..i + 1], excluded, env, regex)
         == if Selected(files[i], excluded, env, regex)
            then Record(FolderMap(files[..i], excluded, env, regex), Scan(files[i].tokens), files[i].pathname)
            else FolderMap(files[..i], excluded, env, regex)
  {
    assert files[..i + 1][..i] == files[..i];
  }

  /** One more name of a file: one more key mapped to its path. */
  lemma RecordStep(m: map<string, string>, names: seq<string>, k: nat, path: string)
    requires k < |names|
    ensures Record(m, names[..k + 1], path) == Record(m, names[..k], path)[names[k] := path]
  {
    var l := Record(m, names[..k + 1], path);
    var r := Record(m, names[..k], path)[names[k] := path];
    assert forall n :: n in names[..k + 1] <==> n in names[..k] || n == names[k];
    assert forall n :: n in l <==> n in r;
  }

  // ---------------------------------------------------------------------------
  // Properties

  /** A name is in the map exactly when some scanned file declares it. */
  lemma {:induction false} FolderMapDomain(files: seq<FileRecord>, excluded: seq<string>, env: Env, regex: string, name: string)
    ensures name in FolderMap(files, excluded, env, regex)
        <==> exists k :: 0 <= k < |files| && Declares(files[k], name, excluded, env, regex)
    decreases |files|
  {
    if files != [] {
      var init := files[..|files| - 1];
      FolderMapDomain(init, excluded, env, regex, name);
      assert forall k :: 0 <= k < |init| ==> init[k] == files[k];
      if exists k :: 0 <= k < |files| && Declares(files[k], name, excluded, env, regex) {
        var k :| 0 <= k < |files| && Declares(files[k], name, excluded, env, regex);
        if k < |init| {
          assert Declares(init[k], name, excluded, env, regex);
        }
      }
    }
  }

  /** Every mapped path is the pathname of a scanned file that declares the name. */
  lemma {:induction false} FolderMapProvenance(files: seq<FileRecord>, excluded: seq<string>, env: Env, regex: string, name: string)
    requires name in FolderMap(files, excluded, env, regex)
    ensures exists k :: 0 <= k < |files| && Declares(files[k], name, excluded, env, regex)
                        && FolderMap(files, excluded, env, regex)[name] == files[k].pathname
    decreases |files|
  {
    var init := files[..|files| - 1];
    var f := files[|files| - 1];
    if Declares(f, name, excluded, env, regex) {
      assert FolderMap(files, excluded, env, regex)[name] == f.pathname;
    } else {
      FolderMapProvenance(init, excluded, env, regex, name);
      var k :| 0 <= k < |init| && Declares(init[k], name, excluded, env, regex)
               && FolderMap(init, excluded, env, regex)[name] == init[k].pathname;
      assert files[k] == init[k];
    }
  }

  /** Exclusion: no path under an excluded folder is ever put in the map. */
  lemma FolderMapNeverExcluded(files: seq<FileRecord>, excluded: seq<string>, env: Env, regex: string)
    ensures forall n :: n in FolderMap(files, excluded, env, regex)
              ==> !Excluded(FolderMap(files, excluded, env, regex)[n], excluded)
  {
    forall n | n in FolderMap(files, excluded, env, regex)
      ensures !Excluded(FolderMap(files, excluded, env, regex)[n], excluded)
    {
      FolderMapProvenance(files, excluded, env, regex, n);
    }
  }

  /** Last write wins within a root: a name maps to the last scanned file declaring it. */
  lemma {:induction false} FolderMapLastWins(files: seq<FileRecord>, excluded: seq<string>, env: Env, regex: string, name: string, k: nat)
    requires k < |files| && Declares(files[k], name, excluded, env, regex)
    requires forall j :: k < j < |files| ==> !Declares(files[j], name, excluded, env, regex)
    ensures name in FolderMap(files, excluded, env, regex)
    ensures FolderMap(files, excluded, env, regex)[name] == files[k].pathname
    decreases |files|
  {
    var init := files[..|files| - 1];
    if k < |files| - 1 {
      assert init[k] == files[k];
      assert !Declares(files[|files| - 1], name, excluded, env, regex);
      forall j | k < j < |init| ensures !Declares(init[j], name, excluded, env, regex) {
        assert init[j] == files[j];
      }
      FolderMapLastWins(init, excluded, env, regex, name, k);
    }
  }

  lemma RecordOverlay(a: map<string, string>, b: map<string, string>, names: seq<string>, path: string)
    ensures Record(a + b, names, path) == a + Record(b, names, path)
  {
    var l := Record(a + b, names, path);
    var r := a + Record(b, names, path);
    assert forall n :: n in l <==> n in r;
    assert forall n :: n in l ==> l[n] == r[n];
  }

  /** Scanning two walks one after the other overlays the second result on the first. */
  lemma {:induction false} FolderMapAppend(a: seq<FileRecord>, b: seq<FileRecord>, excluded: seq<string>, env: Env, regex: string)
    ensures FolderMap(a + b, excluded, env, regex)
         == FolderMap(a, excluded, env, regex) + FolderMap(b, excluded, env, regex)
    decreases |b|
  {
    if b == [] {
      assert a + b == a;
      assert FolderMap(a, excluded, env, regex) + map[] == FolderMap(a, excluded, env, regex);
    } else {
      var b' := b[..|b| - 1];
      var f := b[|b| - 1];
      assert (a + b)[..|a + b| - 1] == a + b';
      assert (a + b)[|a + b| - 1] == f;
      FolderMapAppend(a, b', excluded, env, regex);
      if Selected(f, excluded, env, regex) {
        RecordOverlay(FolderMap(a, excluded, env, regex), FolderMap(b', excluded, env, regex), Scan(f.tokens), f.pathname);
      }
    }
  }

  /** `parseFolders` is `parseFolder` over all the roots' walks in registration order. */
  lemma {:induction false} RootsMapIsOneWalk(roots: seq<string>, excluded: seq<string>, env: Env, regex: string)
    ensures RootsMap(roots, excluded, env, regex) == FolderMap(Walks(roots, env), excluded, env, regex)
    decreases |roots|
  {
    if roots != [] {
      var init := roots[..|roots| - 1];
      RootsMapIsOneWalk(init, excluded, env, regex);
      FolderMapAppend(Walks(init, env), env.walk(roots[|roots| - 1]), excluded, env, regex);
    }
  }

  /** Last write wins across roots: a name found under a root and under no root
      registered after it maps to that root's path. */
  lemma {:induction false} RootsMapLaterRootWins(roots: seq<string>, excluded: seq<string>, env: Env, regex: string, name: string, j: nat)
    requires j < |roots|
    requires name in FolderMap(env.walk(roots[j]), excluded, env, regex)
    requires forall i :: j < i < |roots| ==> name !in FolderMap(env.walk(roots[i]), excluded, env, regex)
    ensures name in RootsMap(roots, excluded, env, regex)
    ensures RootsMap(roots, excluded, env, regex)[name] == FolderMap(env.walk(roots[j]), excluded, env, regex)[name]
    decreases |roots|
  {
    var init := roots[..|roots| - 1];
    if j < |roots| - 1 {
      assert init[j] == roots[j];
      forall i | j < i < |init| ensures name !in FolderMap(env.walk(init[i]), excluded, env, regex) {
        assert init[i] == roots[i];
      }
      RootsMapLaterRootWins(init, excluded, env, regex, name, j);
    }
  }

  /** Two roots declaring the same name: the root registered second wins. */
  lemma TwoRootsSecondWins(a: string, b: string, excluded: seq<string>, env: Env, regex: string, name: string)
    requires name in FolderMap(env.walk(a), excluded, env, regex)
    requires name in FolderMap(env.walk(b), excluded, env, regex)
    ensures RootsMap([a, b], excluded, env, regex)[name] == FolderMap(env.walk(b), excluded, env, regex)[name]
  {
    RootsMapLaterRootWins([a, b], excluded, env, regex, name, 1);
  }

  /** The stored trailing separator makes the prefix test a whole-segment test:
      excluding `/foo` (stored as `/foo/`) excludes `/foo/x.php` but not `/foo2/x.php`. */
  lemma ExclusionIsBySegment()
    ensures Excluded("/foo/x.php", ["/foo/"])
    ensures !Excluded("/foo2/x.php", ["/foo/"])
    ensures !Excluded("/foo", ["/foo/"])
  {
    var ex: seq<string> := ["/foo/"];
    assert ex[0] <= "/foo/x.php";
    assert "/foo/"[4] != "/foo2/x.php"[4];
  }
}
