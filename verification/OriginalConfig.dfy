/**
 * configManager.js, the upkeep of the original configuration at the end of get, for db variables and the disk size:
 * classes that require no module.
 */
module OriginalConfig {
  import opened Prelude

  /** The Disk class; it may be present without a size. */
  datatype Disk = Disk(applicationData: Option<nat>)

  type DbVariables = map<string, string>

  /** One reading of the device; `provisioned`: the Provision class was read, too. */
  datatype Reading = Reading(dbVariables: Option<DbVariables>, disk: Option<Disk>, provisioned: bool)

  datatype Original = Original(dbVariables: Option<DbVariables>, disk: Option<Disk>)

  function Variable(db: Option<DbVariables>, v: string): string
  {
    if db.Some? && v in db.value then db.value[v] else ""
  }

  function Filled(original: DbVariables, current: DbVariables): DbVariables
  {
    original + map v | v in current && Variable(Some(original), v) == "" :: current[v]
  }

  predicate HasSize(disk: Option<Disk>)
  {
    disk.Some? && disk.value.applicationData.Some? && disk.value.applicationData.value != 0
  }

  /** A comparison with a missing size is false. */
  predicate Outgrown(original: Option<Disk>, current: Option<Disk>)
    requires HasSize(current)
  {
    || original.None?
    || (&& original.value.applicationData.Some?
        && current.value.applicationData.value > original.value.applicationData.value)
  }

  function KeptDbVariables(original: Option<DbVariables>, r: Reading): Option<DbVariables>
  {
    var filled := if r.dbVariables.None? then original
                  else Some(Filled(if original.Some? then original.value else map[], r.dbVariables.value));
    if r.provisioned && filled.None? then Some(map[]) else filled
  }

  function KeptDisk(original: Option<Disk>, r: Reading): Option<Disk>
  {
    var grown := if HasSize(r.disk) && Outgrown(original, r.disk) then Some(Disk(r.disk.value.applicationData))
                 else original;
    if r.provisioned && grown.None? then (if r.disk.Some? then r.disk else Some(Disk(None))) else grown
  }

  /** The original after one more get; the first one starts from the current configuration itself. */
  function Kept(original: Option<Original>, r: Reading): Original
  {
    var start := if original.Some? then original.value else Original(r.dbVariables, r.disk);
    Original(KeptDbVariables(start.dbVariables, r), KeptDisk(start.disk, r))
  }

  function KeptAll(readings: seq<Reading>): Option<Original>
  {
    if readings == [] then None
    else Some(Kept(KeptAll(readings[..|readings| - 1]), readings[|readings| - 1]))
  }

  /** Filling some of the missing variables leaves the others as they were. */
  lemma StillMissing(original: DbVariables, current: DbVariables, missing: set<string>, names: set<string>, v: string)
    requires v in names && v in current
    requires missing == set x | x in current && Variable(Some(original), x) == ""
    ensures var filled := original + map x | x in current && x !in names && x in missing :: current[x];
      (Variable(Some(filled), v) == "" <==> v in missing)
  {
  }

  class ConfigManager {
    var originalConfig: Option<Original>

    constructor ()
      ensures originalConfig.None?
    {
      originalConfig := None;
    }

    /** Fills in the variables the original has no value for. */
    method FillVariables(original: DbVariables, current: DbVariables) returns (filled: DbVariables)
      ensures filled == Filled(original, current)
    {
      filled := original;
      ghost var missing := set v | v in current && Variable(Some(original), v) == "";
      var names := current.Keys;
      while names != {}
        invariant names <= current.Keys
        invariant filled == original + map v | v in current && v !in names && v in missing :: current[v]
        decreases names
      {
        var dbVar :| dbVar in names;
        StillMissing(original, current, missing, names, dbVar);
        if Variable(Some(filled), dbVar) == "" {
          filled := filled[dbVar := current[dbVar]];
        }
        names := names - {dbVar};
      }
    }

    /** The end of get. */
    method UpdateOriginal(r: Reading)
      modifies this
      ensures originalConfig == Some(Kept(old(originalConfig), r))
    {
      var original := if originalConfig.Some? then originalConfig.value else Original(r.dbVariables, r.disk);
      if r.dbVariables.Some? {
        var current := r.dbVariables.value;
        var filled := FillVariables(if original.dbVariables.Some? then original.dbVariables.value else map[], current);
        original := original.(dbVariables := Some(filled));
      }
      if HasSize(r.disk) && Outgrown(original.disk, r.disk) {
        original := original.(disk := Some(Disk(r.disk.value.applicationData)));
      }
      if r.provisioned {
        if original.dbVariables.None? {
          original := original.(dbVariables := if r.dbVariables.Some? then r.dbVariables else Some(map[]));
        }
        if original.disk.None? {
          original := original.(disk := if r.disk.Some? then r.disk else Some(Disk(None)));
        }
      }
      originalConfig := Some(original);
    }
  }

  // ---------------------------------------------------------------- db variables

  /** The first non-empty value read for a variable. */
  function FirstValue(readings: seq<Reading>, v: string): string
  {
    if readings == [] then ""
    else
      var before := FirstValue(readings[..|readings| - 1], v);
      if before != "" then before else Variable(readings[|readings| - 1].dbVariables, v)
  }

  /** The recorded value of every variable is the first non-empty one ever read. */
  lemma {:induction false} FirstValueKept(readings: seq<Reading>, v: string)
    requires readings != []
    ensures Variable(KeptAll(readings).value.dbVariables, v) == FirstValue(readings, v)
  {
    if |readings| > 1 {
      FirstValueKept(readings[..|readings| - 1], v);
    } else {
      assert readings[..0] == [];
    }
  }

  /** So it never changes once it has been recorded. */
  lemma ValueStays(readings: seq<Reading>, more: seq<Reading>, v: string)
    requires readings != [] && Variable(KeptAll(readings).value.dbVariables, v) != ""
    ensures Variable(KeptAll(readings + more).value.dbVariables, v) == Variable(KeptAll(readings).value.dbVariables, v)
    decreases |more|
  {
    if more == [] {
      assert readings + more == readings;
    } else {
      ValueStays(readings, more[..|more| - 1], v);
      assert (readings + more)[..|readings + more| - 1] == readings + more[..|more| - 1];
      FirstValueKept(readings + more[..|more| - 1], v);
      FirstValueKept(readings + more, v);
    }
  }

  /** The class itself is recorded, be it empty, once it or the provisioning has been read. */
  lemma {:induction false} VariablesRecordedIff(readings: seq<Reading>)
    requires readings != []
    ensures KeptAll(readings).value.dbVariables.Some? <==> exists r <- readings :: r.dbVariables.Some? || r.provisioned
  {
    var n := |readings| - 1;
    assert readings[n] in readings;
    if n > 0 {
      VariablesRecordedIff(readings[..n]);
      assert readings == readings[..n] + [readings[n]];
    } else {
      assert readings[..0] == [];
    }
  }

  // ---------------------------------------------------------------- the disk

  function Size(disk: Option<Disk>): nat
  {
    if disk.Some? && disk.value.applicationData.Some? then disk.value.applicationData.value else 0
  }

  function Largest(readings: seq<Reading>): nat
  {
    if readings == [] then 0
    else
      var before, last := Largest(readings[..|readings| - 1]), Size(readings[|readings| - 1].disk);
      if last > before then last else before
  }

  /** The record becomes an empty class: from then on no size compares as larger. */
  predicate Blocks(r: Reading, first: bool)
  {
    if r.disk.None? then r.provisioned
    else r.disk.value.applicationData.None? && (first || r.provisioned)
  }

  /** Some reading blocks the record before any size has been recorded. */
  predicate Blocked(readings: seq<Reading>)
  {
    if readings == [] then false
    else
      var before := readings[..|readings| - 1];
      || Blocked(before)
      || (Unrecorded(before) && Blocks(readings[|readings| - 1], before == []))
  }

  /** Nothing has been recorded for the disk yet, not even a zero. */
  predicate Unrecorded(readings: seq<Reading>)
  {
    if readings == [] then true
    else
      var before, last := readings[..|readings| - 1], readings[|readings| - 1];
      && Unrecorded(before) && !HasSize(last.disk) && !Blocks(last, before == [])
      && (last.disk.Some? ==> before != [] && !last.provisioned)
  }

  lemma {:induction false} DiskRecord(readings: seq<Reading>)
    requires readings != []
    ensures var disk := KeptAll(readings).value.disk;
      && (Unrecorded(readings) <==> disk.None?)
      && (Blocked(readings) <==> disk == Some(Disk(None)))
      && (!Blocked(readings) && !Unrecorded(readings) ==> disk == Some(Disk(Some(Largest(readings)))))
      && (Unrecorded(readings) ==> Largest(readings) == 0)
  {
    var n := |readings| - 1;
    if n > 0 {
      DiskRecord(readings[..n]);
    } else {
      assert readings[..0] == [];
    }
  }

  /** The largest size ever read is recorded exactly when no reading blocked the record before the first size. */
  lemma LargestKeptIff(readings: seq<Reading>)
    requires Largest(readings) > 0
    ensures readings != []
    ensures Size(KeptAll(readings).value.disk) == Largest(readings) <==> !Blocked(readings)
  {
    DiskRecord(readings);
  }

  /** With the provisioning always read, that is: exactly when the very first reading had the disk class with a size. */
  lemma LargestKeptWhenProvisioned(readings: seq<Reading>)
    requires Largest(readings) > 0 && forall r <- readings :: r.provisioned
    ensures readings != []
    ensures Size(KeptAll(readings).value.disk) == Largest(readings)
      <==> readings[0].disk.Some? && readings[0].disk.value.applicationData.Some?
  {
    LargestKeptIff(readings);
    BlockedFirst(readings);
  }

  lemma {:induction false} BlockedFirst(readings: seq<Reading>)
    requires readings != [] && forall r <- readings :: r.provisioned
    ensures Blocked(readings) <==> !(readings[0].disk.Some? && readings[0].disk.value.applicationData.Some?)
    ensures !Unrecorded(readings)
  {
    var n := |readings| - 1;
    assert readings[n] in readings;
    if n > 0 {
      BlockedFirst(readings[..n]);
    } else {
      assert readings[..0] == [];
    }
  }

  /** A first reading without the Disk class, and a second one with a size: the size is not recorded. */
  lemma LateSizeIsLost()
    ensures var readings := [Reading(None, None, true), Reading(None, Some(Disk(Some(10))), true)];
      Largest(readings) == 10 && Size(KeptAll(readings).value.disk) == 0
  {
    var first, second := Reading(None, None, true), Reading(None, Some(Disk(Some(10))), true);
    assert [first, second][..1] == [first] && [first][..0] == [];
    assert KeptAll([first]) == Some(Kept(None, first));
    assert Largest([first]) == 0;
  }
}
