/** The registered-classes array `_classes`: lower-cased type name to the path of the
    file declaring it, or to `null` for a name a scan already failed to find. A name
    that is not a key at all has never been looked up. */
module Cache {
  import opened Php

  type Cache = map<string, Option<string>>

  /** The three results of `checkClass`: CLASS_NOT_FOUND = 0, CLASS_EXISTS = 1,
      CLASS_IS_NULL = 2. */
  datatype Status = NotFound | Exists | IsNull {
    function Code(): int {
      match this
      case NotFound => 0
      case Exists => 1
      case IsNull => 2
    }

    /** PHP truthiness of the returned integer (`!$loaded`). */
    predicate IsTruthy() {
      Code() != 0
    }
  }

  /** `checkClass` without its `require`: `isset` (a non-null entry), then
      `array_key_exists` (a null entry), else not found. */
  function CheckClass(name: string, classes: Cache): (s: Status)
    ensures s == Exists <==> name in classes && classes[name].Some?
    ensures s == IsNull <==> name in classes && classes[name].None?
    ensures s == NotFound <==> name !in classes
    ensures s.IsTruthy() <==> name in classes
  {
    if name in classes && classes[name].Some? then Exists
    else if name in classes then IsNull
    else NotFound
  }

  /** `_getNullElements`: the `array_filter` callback keeping null entries. */
  predicate IsNullElement(v: Option<string>) {
    v.None?
  }

  /** `array_filter($classes, '_getNullElements')`. */
  function NullEntries(classes: Cache): (r: Cache)
    ensures forall n :: n in r <==> n in classes && IsNullElement(classes[n])
    ensures forall n :: n in r ==> r[n] == None
  {
    map n | n in classes && IsNullElement(classes[n]) :: classes[n]
  }

  /** `refresh`'s `array_merge($nullClasses, $newClasses)`: the null entries of the
      old array, overlaid with the fresh scan. */
  function Merge(classes: Cache, scanned: map<string, string>): (r: Cache)
    // every freshly scanned name maps to its scanned path
    ensures forall n :: n in scanned ==> n in r && r[n] == Some(scanned[n])
    // an old null entry the scan did not find stays null
    ensures forall n :: n in classes && classes[n] == None && n !in scanned ==> n in r && r[n] == None
    // nothing else: no stale path survives unless it was rescanned
    ensures forall n :: n in r ==> n in scanned || (n in classes && classes[n] == None)
  {
    NullEntries(classes) + map n | n in scanned :: Some(scanned[n])
  }

  /** A lookup after a refresh: found if scanned, still known absent if it was null
      and not rescanned, otherwise unknown, whatever the old path was. */
  lemma LookupAfterMerge(name: string, classes: Cache, scanned: map<string, string>)
    ensures CheckClass(name, Merge(classes, scanned))
         == if name in scanned then Exists
            else if name in classes && classes[name] == None then IsNull
            else NotFound
  {
  }

  /** Refreshing twice against the same scan result is the same as refreshing once. */
  lemma MergeIdempotent(classes: Cache, scanned: map<string, string>)
    ensures Merge(Merge(classes, scanned), scanned) == Merge(classes, scanned)
  {
    var once := Merge(classes, scanned);
    var twice := Merge(once, scanned);
    assert forall n :: n in twice <==> n in once;
    assert forall n :: n in twice ==> twice[n] == once[n];
  }

  /** The result of a refresh depends on the old array only through its null entries. */
  lemma MergeForgetsPaths(classes: Cache, scanned: map<string, string>)
    ensures Merge(classes, scanned) == Merge(NullEntries(classes), scanned)
  {
    var a := Merge(classes, scanned);
    var b := Merge(NullEntries(classes), scanned);
    assert forall n :: n in a <==> n in b;
    assert forall n :: n in a ==> a[n] == b[n];
  }
}
