/**
 * state.js: the saved state, its upgrade from earlier releases, and the results of its tasks.
 */
module State {
  import opened Prelude
  import opened DeepPath
  import opened Ids
  import opened IdsTheorems

  // ---------------------------------------------------------------- recorded configurations

  /** A class of a recorded configuration: one object, or objects by name. */
  datatype ClassConfig = Nameless(item: Item) | Named(items: map<string, Item>)

  datatype Config = Config(version: Option<string>, common: Option<map<string, ClassConfig>>)

  const NO_VERSION := "0.0.0-0"

  /** What the running release brings along; `older` is versionCompare(a, b) < 0. */
  datatype Release = Release(version: string, tables: map<string, seq<Property>>, older: (string, string) -> bool)

  ghost predicate Proper(release: Release)
  {
    forall v :: !release.older(v, v)
  }

  function UpgradedItem(release: Release, c: string, item: Item, name: Option<Value>): Item
  {
    if c in release.tables then UpdateIds(release.tables[c], item, name) else item
  }

  function UpgradedClass(release: Release, c: string, config: ClassConfig): ClassConfig
  {
    match config
    case Nameless(item) => Nameless(UpgradedItem(release, c, item, Lookup(item, NAME)))
    case Named(items) => Named(map n | n in items ::
      UpgradedItem(release, c, items[n], if n != "" then Some(Str(n)) else Lookup(items[n], NAME)))
  }

  /** The version gate: the ids are updated when the recorded version is older, and the version is then recorded. */
  function UpgradedConfig(release: Release, config: Config): Config
  {
    if release.older(if NonEmpty(config.version) then config.version.value else NO_VERSION, release.version)
       && config.common.Some?
    then
      var common := config.common.value;
      Config(Some(release.version), Some(map c | c in common :: UpgradedClass(release, c, common[c])))
    else config
  }

  /** Upgrading what has been upgraded changes nothing, although updateIds by itself need not be idempotent. */
  lemma UpgradeOnce(release: Release, config: Config)
    requires Proper(release) && release.version != ""
    ensures UpgradedConfig(release, UpgradedConfig(release, config)) == UpgradedConfig(release, config)
  {
  }

  /** The name of an object, where the table calls one of its properties that. */
  lemma NamePassedOn(release: Release, c: string, items: map<string, Item>, n: string, i: nat)
    requires c in release.tables && n in items && n != "" && NameRow(release.tables[c], i)
    ensures UpgradedClass(release, c, Named(items)).items[n].Keys >= {"name"}
    ensures UpgradedClass(release, c, Named(items)).items[n]["name"] == Str(n)
  {
    NameAssigned(release.tables[c], items[n], Some(Str(n)), i);
  }

  // ---------------------------------------------------------------- tasks

  /** `lastUpdate` is a Date in a running worker, and text once it has been saved and loaded. */
  datatype Timestamp = Date(ms: int) | Text

  datatype Result = Result(code: nat, status: string, message: string, errors: seq<string>)

  datatype Task = Task(id: string, lastUpdate: Timestamp, result: Result)

  const NO_RESULT := Result(0, "", "", [])
  const RETENTION := 7 * 1000 * 3600 * 24

  /** Arguments of updateResult; the zero and the empty string are falsy. */
  datatype Update = Update(code: nat, status: string, message: string, errors: seq<string>)

  function Updated(r: Result, u: Update): Result
  {
    Result(if u.code != 0 then u.code else r.code, if u.status != "" then u.status else r.status,
           if u.message != "" then u.message else r.message, r.errors + u.errors)
  }

  function UpdatedBy(r: Result, us: seq<Update>): Result
  {
    if us == [] then r else Updated(UpdatedBy(r, us[..|us| - 1]), us[|us| - 1])
  }

  function AllErrors(us: seq<Update>): seq<string>
  {
    if us == [] then [] else us[0].errors + AllErrors(us[1..])
  }

  /** Errors only ever accumulate, in order. */
  lemma {:induction false} ErrorsAccumulate(r: Result, us: seq<Update>)
    ensures UpdatedBy(r, us).errors == r.errors + AllErrors(us)
    decreases |us|
  {
    if us != [] {
      var n := |us| - 1;
      ErrorsAccumulate(r, us[..n]);
      AllErrorsSnoc(us[..n], us[n]);
      assert us[..n] + [us[n]] == us;
    }
  }

  predicate NoCodes(us: seq<Update>) { forall u <- us :: u.code == 0 }

  /** The code is the last one given. */
  lemma {:induction false} LastCodeCounts(r: Result, us: seq<Update>, i: nat)
    requires i < |us| && us[i].code != 0 && NoCodes(us[i + 1..])
    ensures UpdatedBy(r, us).code == us[i].code
    decreases |us|
  {
    var n := |us| - 1;
    if i < n {
      assert us[i + 1..][n - i - 1] == us[n];
      forall u <- us[..n][i + 1..] ensures u.code == 0 {
        var j :| 0 <= j < |us[..n][i + 1..]| && us[..n][i + 1..][j] == u;
        assert us[i + 1..][j] == u;
      }
      LastCodeCounts(r, us[..n], i);
    }
  }

  lemma {:induction false} AllErrorsSnoc(us: seq<Update>, u: Update)
    ensures AllErrors(us + [u]) == AllErrors(us) + u.errors
    decreases |us|
  {
    if us == [] {
      assert us + [u] == [u];
      assert AllErrors([u][1..]) == [];
    } else {
      AllErrorsSnoc(us[1..], u);
      assert (us + [u])[1..] == us[1..] + [u];
    }
  }

  /** The status and the message are the last ones given, too. */
  lemma {:induction false} LastTextCounts(r: Result, us: seq<Update>, i: nat)
    requires i < |us|
    ensures us[i].status != "" && (forall j | i < j < |us| :: us[j].status == "") ==>
      UpdatedBy(r, us).status == us[i].status
    ensures us[i].message != "" && (forall j | i < j < |us| :: us[j].message == "") ==>
      UpdatedBy(r, us).message == us[i].message
    decreases |us|
  {
    if i < |us| - 1 {
      LastTextCounts(r, us[..|us| - 1], i);
    }
  }

  /** Updates that give nothing but errors leave everything else. */
  lemma {:induction false} NothingGiven(r: Result, us: seq<Update>)
    requires forall u <- us :: u.code == 0 && u.status == "" && u.message == ""
    ensures UpdatedBy(r, us) == r.(errors := r.errors + AllErrors(us))
    decreases |us|
  {
    ErrorsAccumulate(r, us);
    if us != [] {
      NothingGiven(r, us[..|us| - 1]);
      assert us[|us| - 1] in us;
    }
  }

  /** `now - lastUpdate > maxAge` is false when the subtraction gives NaN. */
  predicate Expired(t: Task, now: int)
  {
    t.lastUpdate.Date? && now - t.lastUpdate.ms > RETENTION
  }

  function Recent(tasks: map<string, Task>, now: int): map<string, Task>
  {
    map id | id in tasks && !Expired(tasks[id], now) :: tasks[id]
  }

  /** Seven days: tasks that are at most that old, or whose age is not a number, stay; no others do. */
  lemma RetentionIff(tasks: map<string, Task>, now: int, id: string)
    requires id in tasks
    ensures id in Recent(tasks, now) <==> tasks[id].lastUpdate.Text? || now - tasks[id].lastUpdate.ms <= 604_800_000
    ensures id in Recent(tasks, now) ==> Recent(tasks, now)[id] == tasks[id]
  {
  }

  /** What a task looks like once it has been saved and loaded again. */
  function Reloaded(tasks: map<string, Task>): map<string, Task>
  {
    map id | id in tasks :: tasks[id].(lastUpdate := Text)
  }

  /** Retention is forgotten across a restart: a task that was loaded is never cleaned up. */
  lemma ReloadedNeverExpire(tasks: map<string, Task>, now: int)
    ensures Recent(Reloaded(tasks), now) == Reloaded(tasks)
  {
  }

  /** A task of eight days goes at the next clean-up, unless the state has been loaded in between. */
  lemma OldTaskSurvivesReload()
    ensures var task := Task("a", Date(0), NO_RESULT);
      var later := 8 * 24 * 3600 * 1000;
      Recent(map["a" := task], later) == map[] && "a" in Recent(Reloaded(map["a" := task]), later)
  {
    var task := Task("a", Date(0), NO_RESULT);
    assert Expired(task, 8 * 24 * 3600 * 1000);
  }

  // ---------------------------------------------------------------- the state itself

  /** The saved data; a release without tasks saved the data of its only task. */
  datatype Saved = Saved(tasks: Option<map<string, Task>>, originalConfig: Option<map<string, Config>>,
                         mostRecentTask: Option<string>, only: Task)

  /**
   * copyAndUpgradeState, given a fresh id and the time for a state without tasks. The copy goes through JSON, so that
   * every date in it, even the one just set, is text afterwards.
   */
  function CopyAndUpgrade(release: Release, s: Saved, taskId: string, now: int): Saved
  {
    var withTasks := if s.tasks.Some? then s
                     else s.(tasks := Some(map[taskId := s.only.(id := taskId, lastUpdate := Date(now))]),
                             mostRecentTask := Some(taskId));
    var configs := if withTasks.originalConfig.Some? then withTasks.originalConfig.value else map[];
    withTasks.(tasks := Some(Reloaded(withTasks.tasks.value)),
               originalConfig := Some(map id | id in configs :: UpgradedConfig(release, configs[id])))
  }

  /** A state from before there were tasks becomes that of its only task. */
  lemma OnlyTaskUpgraded(release: Release, s: Saved, taskId: string, now: int)
    requires s.tasks.None?
    ensures var after := CopyAndUpgrade(release, s, taskId, now);
      && after.mostRecentTask == Some(taskId) && after.tasks.Some? && after.tasks.value.Keys == {taskId}
      && after.tasks.value[taskId].id == taskId && after.tasks.value[taskId].lastUpdate == Text
      && after.tasks.value[taskId].result == s.only.result
  {
  }

  /** The tasks of any other state stay, with their times as text. */
  lemma TasksUpgraded(release: Release, s: Saved, taskId: string, now: int)
    requires s.tasks.Some?
    ensures var after := CopyAndUpgrade(release, s, taskId, now);
      && after.mostRecentTask == s.mostRecentTask && after.tasks.Some? && after.tasks.value.Keys == s.tasks.value.Keys
      && forall id <- s.tasks.value :: after.tasks.value[id].id == s.tasks.value[id].id
           && after.tasks.value[id].result == s.tasks.value[id].result && after.tasks.value[id].lastUpdate == Text
  {
  }

  /** The version a recorded configuration is compared by; an absent or empty one counts as the lowest. */
  predicate Outdated(release: Release, version: Option<string>)
  {
    release.older(if version.Some? && version.value != "" then version.value else "0.0.0-0", release.version)
  }

  /**
   * The whole upgrade of a recorded configuration: an outdated one has the version of the release afterwards, and in
   * every class, by name or not, what had been recorded from the device reads as the device had it; any other
   * configuration is not touched.
   */
  lemma StateUpgradeRestores(release: Release, s: Saved, taskId: string, now: int, id: string, c: string, device: Item)
    requires s.originalConfig.Some? && id in s.originalConfig.value
    requires c in release.tables && Table(release.tables[c]) && PrefixFree(release.tables[c])
    requires NoDefaults(release.tables[c]) && Clear(release.tables[c], device)
    requires forall i | 0 <= i < |release.tables[c]| ::
      Survives(release.tables[c][i], Lookup(device, release.tables[c][i].id))
    ensures var recorded := MapFirst(release.tables[c], |release.tables[c]|, device);
      var before := s.originalConfig.value[id];
      var configs := CopyAndUpgrade(release, s, taskId, now).originalConfig;
      && recorded.Some? && configs.Some? && configs.value.Keys == s.originalConfig.value.Keys
      && (!Outdated(release, before.version) || before.common.None? ==> configs.value[id] == before)
      && (Outdated(release, before.version) && before.common.Some? ==>
            && configs.value[id].version == Some(release.version)
            && configs.value[id].common.Some? && configs.value[id].common.value.Keys == before.common.value.Keys
            && (c in before.common.value && before.common.value[c] == Nameless(recorded.value) ==>
                  configs.value[id].common.value[c] == Nameless(device))
            && (c in before.common.value && before.common.value[c].Named? ==>
                  && configs.value[id].common.value[c].Named?
                  && configs.value[id].common.value[c].items.Keys == before.common.value[c].items.Keys
                  && forall n <- before.common.value[c].items | before.common.value[c].items[n] == recorded.value ::
                       configs.value[id].common.value[c].items[n] == device))
  {
    hide UpdateIds, Table, PrefixFree, NoDefaults, Clear, Survives, MapFirst;
    var t := release.tables[c];
    RoundTripIff(t, device, None);
    var recorded := MapFirst(t, |t|, device).value;
    forall name ensures UpdateIds(t, recorded, name) == device { RoundTripIff(t, device, name); }
  }

  /** Constructing the state from a state that has already been upgraded changes nothing. */
  lemma ConstructTwice(release: Release, s: Saved, id1: string, now1: int, id2: string, now2: int)
    requires Proper(release) && release.version != ""
    ensures var once := CopyAndUpgrade(release, s, id1, now1);
      CopyAndUpgrade(release, once, id2, now2) == once
  {
    var once := CopyAndUpgrade(release, s, id1, now1);
    var configs := once.originalConfig.value;
    assert Reloaded(once.tasks.value) == once.tasks.value;
    forall id <- configs ensures UpgradedConfig(release, configs[id]) == configs[id] {
      var before := if s.originalConfig.Some? then s.originalConfig.value else map[];
      UpgradeOnce(release, before[id]);
    }
    assert (map id | id in configs :: UpgradedConfig(release, configs[id])) == configs;
  }

  /**
   * What an earlier release recorded under newIds is translated back to ids: an item recorded from the device with
   * mapProperties reads, after the upgrade, exactly as the device had it, if its values survive the renaming.
   */
  lemma UpgradeRestoresIds(release: Release, c: string, device: Item)
    requires c in release.tables && Table(release.tables[c]) && PrefixFree(release.tables[c])
    requires NoDefaults(release.tables[c]) && Clear(release.tables[c], device)
    requires forall i | 0 <= i < |release.tables[c]| ::
      Survives(release.tables[c][i], Lookup(device, release.tables[c][i].id))
    ensures var recorded := MapFirst(release.tables[c], |release.tables[c]|, device);
      recorded.Some? && UpgradedClass(release, c, Nameless(recorded.value)) == Nameless(device)
  {
    var t := release.tables[c];
    RoundTripIff(t, device, None);
    RoundTripIff(t, device, Lookup(MapFirst(t, |t|, device).value, NAME));
  }

  class DoState {
    var tasks: map<string, Task>
    var originalConfig: map<string, Config>
    var mostRecentTask: Option<string>

    constructor (release: Release, existing: Option<Saved>, taskId: string, now: int)
      ensures existing.None? ==> tasks == map[] && originalConfig == map[] && mostRecentTask.None?
      ensures existing.Some? ==>
        var s := CopyAndUpgrade(release, existing.value, taskId, now);
        s.tasks == Some(tasks) && s.originalConfig == Some(originalConfig) && s.mostRecentTask == mostRecentTask
    {
      if existing.Some? {
        var s := CopyAndUpgrade(release, existing.value, taskId, now);
        tasks, originalConfig, mostRecentTask := s.tasks.value, s.originalConfig.value, s.mostRecentTask;
      } else {
        tasks, originalConfig, mostRecentTask := map[], map[], None;
      }
    }

    /** The new task is the most recent one and stays; exactly the expired ones go. */
    method AddTask(taskId: string, now: int)
      requires taskId !in tasks
      modifies this`tasks, this`mostRecentTask
      ensures mostRecentTask == Some(taskId)
      ensures tasks == Recent(old(tasks), now)[taskId := Task(taskId, Date(now), Result(0, "", "", []))]
    {
      tasks := tasks[taskId := Task(taskId, Date(now), NO_RESULT)];
      mostRecentTask := Some(taskId);
      CleanupOldTasks(now);
    }

    method CleanupOldTasks(now: int)
      modifies this`tasks
      ensures tasks == Recent(old(tasks), now)
    {
      ghost var before := tasks;
      var ids := tasks.Keys;
      while ids != {}
        invariant ids <= tasks.Keys
        invariant tasks == map id | id in before && (id in ids || !Expired(before[id], now)) :: before[id]
        decreases ids
      {
        var id :| id in ids;
        if Expired(tasks[id], now) {
          tasks := map x | x in tasks && x != id :: tasks[x];
        }
        ids := ids - {id};
      }
    }

    /** False when the task does not exist. */
    method UpdateResult(taskId: string, u: Update, now: int) returns (ok: bool)
      modifies this`tasks
      ensures ok == (taskId in old(tasks))
      ensures tasks == if ok then old(tasks)[taskId :=
        old(tasks)[taskId].(lastUpdate := Date(now), result := Updated(old(tasks)[taskId].result, u))] else old(tasks)
    {
      ok := taskId in tasks;
      if ok {
        var result := tasks[taskId].result;
        if u.code != 0 { result := result.(code := u.code); }
        if u.status != "" { result := result.(status := u.status); }
        if u.message != "" { result := result.(message := u.message); }
        result := result.(errors := result.errors + u.errors);
        tasks := tasks[taskId := tasks[taskId].(lastUpdate := Date(now), result := result)];
      }
    }
  }
}
