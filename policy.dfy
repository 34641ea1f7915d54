/** The resolution state machine of `loadClass`: the scan-option bitmask, the
    lookups before and after a refresh, negative caching, the save request and the
    consumption of the SCAN_ONCE bit, as one function of the state before the call. */
module Policy {
  import opened Php
  import opened Cache

  /** `_scanOptions` values; PHP integers are 64-bit, so the mask is a `bv64`. */
  const SCAN_NEVER: bv64 := 0
  const SCAN_ONCE: bv64 := 1
  const SCAN_ALWAYS: bv64 := 3
  const SCAN_CACHE: bv64 := 4

  /** Bit 1 (SCAN_ONCE, part of SCAN_ALWAYS): a miss triggers a refresh. */
  predicate ScansOnMiss(options: bv64) {
    options & SCAN_ONCE != 0
  }

  /** Bit 4 (SCAN_CACHE): a miss the refresh does not cure is recorded as null. */
  predicate CachesMisses(options: bv64) {
    options & SCAN_CACHE != 0
  }

  /** The options after a refresh: bit 1 is cleared unless bit 2 is set. */
  function AfterRescan(options: bv64): bv64 {
    if options & 2 == 0 then options & !SCAN_ONCE else options
  }

  /** What a call does to the world outside the object, in order: `require` of a
      resolved file, a full rescan of the registered roots, and a write of the
      array to the save file. */
  datatype Effect = Require(path: string) | Rescan | Save(file: string, snapshot: Cache)

  /** The state `loadClass` leaves behind and the effects it performs. */
  datatype Resolution = Resolution(classes: Cache, options: bv64, effects: seq<Effect>)

  /** `checkClass`'s `require`: performed exactly when the entry is non-null. */
  function RequireIfFound(name: string, classes: Cache): (e: seq<Effect>)
    ensures e != [] <==> CheckClass(name, classes) == Exists
    ensures e != [] ==> e == [Require(classes[name].value)]
  {
    if name in classes && classes[name].Some? then [Require(classes[name].value)] else []
  }

  /** `loadClass` for the already lower-cased `name`, where `scanned` is what
      `parseFolders` would return if a refresh happens. */
  function Resolve(classes: Cache, options: bv64, saveFile: string, name: string, scanned: map<string, string>): Resolution
  {
    var loaded := CheckClass(name, classes);
    if loaded.IsTruthy() || !ScansOnMiss(options) then
      Resolution(classes, options, RequireIfFound(name, classes))
    else
      var merged := Merge(classes, scanned);
      var reloaded := CheckClass(name, merged);
      var cached := if !reloaded.IsTruthy() && CachesMisses(options) then merged[name := None] else merged;
      var saved := if Truthy(saveFile) then [Save(saveFile, cached)] else [];
      Resolution(cached, AfterRescan(options), [Rescan] + RequireIfFound(name, merged) + saved)
  }

  predicate NoRescan(effects: seq<Effect>) {
    forall k :: 0 <= k < |effects| ==> effects[k] != Rescan
  }

  // ---------------------------------------------------------------------------
  // Properties

  /** A hit (non-null entry) or a known-absent entry (null, CLASS_IS_NULL = 2, which is
      truthy): no refresh, the array and the options stay as they were, and only a
      hit requires its file. */
  lemma HitOrKnownAbsentChangesNothing(classes: Cache, options: bv64, saveFile: string, name: string, scanned: map<string, string>)
    requires name in classes
    ensures var r := Resolve(classes, options, saveFile, name, scanned);
      && r.classes == classes && r.options == options
      && NoRescan(r.effects)
      && (classes[name].Some? ==> r.effects == [Require(classes[name].value)])
      && (classes[name].None? ==> r.effects == [])
  {
  }

  /** A miss without the SCAN_ONCE bit (options 0 and 4 among them): nothing at all. */
  lemma MissWithoutScanBitChangesNothing(classes: Cache, options: bv64, saveFile: string, name: string, scanned: map<string, string>)
    requires name !in classes
    requires options & SCAN_ONCE == 0
    ensures Resolve(classes, options, saveFile, name, scanned) == Resolution(classes, options, [])
  {
  }

  /** SCAN_NEVER and SCAN_CACHE alone never rescan and never change the state. */
  lemma NeverAndCacheAloneNeverRescan(classes: Cache, options: bv64, saveFile: string, name: string, scanned: map<string, string>)
    requires options == SCAN_NEVER || options == SCAN_CACHE
    ensures var r := Resolve(classes, options, saveFile, name, scanned);
      NoRescan(r.effects) && r.classes == classes && r.options == options
  {
    assert options & SCAN_ONCE == 0;
  }

  /** A miss with the SCAN_ONCE bit: exactly one refresh, then what the refreshed array
      says about the name, the negative entry when SCAN_CACHE is set, the save when a
      save file is set, and the SCAN_ONCE bit cleared unless bit 2 is set. */
  lemma MissWithScanBitRefreshesOnce(classes: Cache, options: bv64, saveFile: string, name: string, scanned: map<string, string>)
    requires name !in classes
    requires options & SCAN_ONCE != 0
    ensures var r := Resolve(classes, options, saveFile, name, scanned);
      && |r.effects| == 1 + (if name in scanned then 1 else 0) + (if Truthy(saveFile) then 1 else 0)
      && r.effects[0] == Rescan && NoRescan(r.effects[1..])
      && (name in scanned ==> name in r.classes && r.classes[name] == Some(scanned[name])
                              && r.effects[1] == Require(scanned[name]))
      && (name !in scanned && options & SCAN_CACHE != 0 ==> name in r.classes && r.classes[name] == None)
      && (name !in scanned && options & SCAN_CACHE == 0 ==> name !in r.classes)
      && (forall n :: n != name ==> (n in r.classes <==> n in Merge(classes, scanned)))
      && (forall n :: n != name && n in r.classes ==> r.classes[n] == Merge(classes, scanned)[n])
      && (Truthy(saveFile) <==> r.effects[|r.effects| - 1] == Save(saveFile, r.classes))
      && (options & 2 == 0 ==> r.options == options & !SCAN_ONCE && r.options & SCAN_ONCE == 0)
      && (options & 2 != 0 ==> r.options == options)
  {
    var merged := Merge(classes, scanned);
    LookupAfterMerge(name, classes, scanned);
    assert name in merged <==> name in scanned;
  }

  /** SCAN_ONCE is consumed by the first miss: a later miss on any name never rescans. */
  lemma OnceIsConsumedByAMiss(classes: Cache, saveFile: string, a: string, b: string, scanned1: map<string, string>, scanned2: map<string, string>)
    requires a !in classes
    ensures var r1 := Resolve(classes, SCAN_ONCE, saveFile, a, scanned1);
      && r1.options == SCAN_NEVER
      && NoRescan(Resolve(r1.classes, r1.options, saveFile, b, scanned2).effects)
  {
    assert SCAN_ONCE & 2 == 0;
    assert SCAN_ONCE & !SCAN_ONCE == SCAN_NEVER;
  }

  /** With SCAN_ALWAYS the bits are never consumed. */
  lemma AlwaysIsNeverConsumed(classes: Cache, options: bv64, saveFile: string, name: string, scanned: map<string, string>)
    requires options & SCAN_ALWAYS == SCAN_ALWAYS
    ensures Resolve(classes, options, saveFile, name, scanned).options == options
  {
    assert options & 2 != 0;
  }

  /** Negative caching pins a name as absent: after a miss that the refresh does not
      cure, with SCAN_CACHE, a second lookup of that name neither rescans nor changes
      anything, even under SCAN_ALWAYS and even if the name has appeared on disk. */
  lemma NegativeEntrySuppressesRescan(classes: Cache, options: bv64, saveFile: string, name: string, scanned1: map<string, string>, scanned2: map<string, string>)
    requires name !in classes && name !in scanned1
    requires options & SCAN_ONCE != 0 && options & SCAN_CACHE != 0
    ensures var r1 := Resolve(classes, options, saveFile, name, scanned1);
      && name in r1.classes && r1.classes[name] == None
      && Resolve(r1.classes, r1.options, saveFile, name, scanned2) == Resolution(r1.classes, r1.options, [])
  {
    LookupAfterMerge(name, classes, scanned1);
  }

  /** Without the SCAN_ONCE bit a second call returns the same state and repeats
      exactly the first call's effects. */
  lemma WithoutScanBitRepeatable(classes: Cache, options: bv64, saveFile: string, name: string, scanned: map<string, string>)
    requires options & SCAN_ONCE == 0
    ensures var r1 := Resolve(classes, options, saveFile, name, scanned);
      Resolve(r1.classes, r1.options, saveFile, name, scanned) == r1
  {
  }
}
