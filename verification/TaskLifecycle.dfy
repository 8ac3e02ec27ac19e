/**
 * restWorker.js: the life of one onboarding task on a BIG-IP, across crashes and restarts of the worker.
 *
 * The worker keeps its tasks in memory and saves it from time to time; a crash loses the memory, and the next start
 * reads the saved task back. One step is one link of a promise chain: what the code does between two awaited calls,
 * together with the outcome of the call. The revoke and the reboot handshakes are single steps.
 */
module TaskLifecycle {
  import opened Prelude

  // ---------------------------------------------------------------- licences

  datatype Kind = RegKey | Pool

  /** The properties of a License object that decide whether the current licence is revoked. */
  datatype License = License(kind: Option<Kind>, revokeCurrent: Option<bool>, revokeFrom: Option<bool>)

  const NO_LICENSE := License(None, None, None)

  function Or<T>(above: Option<T>, below: Option<T>): Option<T> { if above.Some? then above else below }

  /** `Object.assign`, as the parser merges all License objects into one. */
  function Assigned(below: License, above: License): License
  {
    License(Or(above.kind, below.kind), Or(above.revokeCurrent, below.revokeCurrent),
            Or(above.revokeFrom, below.revokeFrom))
  }

  function Merged(licenses: seq<License>): License
  {
    if licenses == [] then NO_LICENSE
    else Assigned(Merged(licenses[..|licenses| - 1]), licenses[|licenses| - 1])
  }

  /** Of every property the last License object that gives it counts. */
  lemma {:induction false} LastGivenCounts(licenses: seq<License>, i: nat)
    requires i < |licenses|
    ensures licenses[i].kind.Some? && (forall j | i < j < |licenses| :: licenses[j].kind.None?) ==>
      Merged(licenses).kind == licenses[i].kind
    ensures licenses[i].revokeCurrent.Some? && (forall j | i < j < |licenses| :: licenses[j].revokeCurrent.None?) ==>
      Merged(licenses).revokeCurrent == licenses[i].revokeCurrent
    ensures licenses[i].revokeFrom.Some? && (forall j | i < j < |licenses| :: licenses[j].revokeFrom.None?) ==>
      Merged(licenses).revokeFrom == licenses[i].revokeFrom
  {
    if i < |licenses| - 1 {
      LastGivenCounts(licenses[..|licenses| - 1], i);
    }
  }

  /** Whether the system handler asks for a revocation. */
  predicate Asks(licenses: seq<License>)
  {
    var license := Merged(licenses);
    if license.kind == Some(RegKey) then license.revokeCurrent == Some(true) else license.revokeFrom == Some(true)
  }

  /** A license by key asks with revokeCurrent, any other one with revokeFrom. */
  lemma AsksIff(l: License)
    ensures Asks([l]) <==>
      (l.kind == Some(RegKey) && l.revokeCurrent == Some(true))
      || (l.kind != Some(RegKey) && l.revokeFrom == Some(true))
  {
    assert [l][..0] == [];
    assert Merged([l]) == Assigned(NO_LICENSE, l);
  }

  /** What a resumed task does to its declaration: only the first License object loses its directives. */
  function Stripped(licenses: seq<License>): seq<License>
  {
    if licenses == [] then []
    else [licenses[0].(revokeCurrent := None, revokeFrom := None)] + licenses[1..]
  }

  // ---------------------------------------------------------------- the task and the worker

  datatype Status = Unset | OK | ERROR | ROLLING_BACK | RUNNING | REBOOTING | REBOOTING_AND_RESUMING | REVOKING

  /** The saved state, as far as one task is concerned; `newest`: it is the most recent task. */
  datatype Task = Task(code: nat, status: Status, rebootRequired: bool, licenses: seq<License>, newest: bool)

  /** State.updateResult: a falsy code leaves the old one. */
  function UpdateResult(task: Task, code: nat, status: Status): Task
  {
    task.(code := if code != 0 then code else task.code, status := status)
  }

  /** Where the promise chain of the task stands. */
  datatype Stage =
    | Added                                            // the request is being validated
    | Refused                                          // an invalid declaration, about to be saved
    | Starting                                         // RUNNING, about to be saved
    | Initializing                                     // setting accounts up, connecting to the device
    | Reading                                          // onboard: reading the current configuration
    | Processing(licensed: bool)                       // DeclarationHandler.process; licensed: past the licence step
    | Revoking                                         // REVOKING is saved, the revocation is about to be requested
    | AwaitingReboot                                   // waiting for a reboot in the middle of process
    | Processed                                        // process resolved; saving the device's configuration
    | RollingBack(canProcess: bool, code: nat)         // ROLLING_BACK because of an error, about to be saved
    | Restoring(canProcess: bool, code: nat)           // ROLLING_BACK is saved; processing the old configuration
    | RolledBack                                       // ERROR after a rollback, about to be saved
    | Finishing                                        // onboard resolved; saving the device's configuration
    | Reporting(failed: bool)                          // setPostOnboardStatus; failed: the status was ERROR on entry
    | Deciding                                         // asking whether a reboot is required
    | Closing                                          // the final status is about to be saved
    | Answering(saved: bool)                           // responding, then rebooting if required; saved: the status is
    | Rebooted                                         // OK after a reboot, about to be saved
    | Done

  datatype Worker = Down | Up(task: Task, stage: Stage)

  /** `revokes` and `processed` are the history of the task: revocations requested, and whether process resolved. */
  datatype System = System(worker: Worker, disk: Option<Task>, revokes: nat, processed: bool)

  /** A request has just been accepted: addTask. */
  function Initial(licenses: seq<License>): System
  {
    System(Up(Task(0, Unset, false, licenses, true), Added), None, 0, false)
  }

  datatype Step =
    | Malformed                                        // the request is not JSON
    | Validate(valid: bool)
    | SaveRefused
    | SaveRunning
    | Connect(ok: bool, code: nat)                     // initBigIp
    | Read(ok: bool, code: nat)                        // onboard's getAndSaveCurrentConfig
    | SkipRevoke                                       // the device already has this registration key
    | PrepareRevoke                                    // LICENSE_WILL_BE_REVOKED and READY_FOR_REVOKE
    | Revoke(announced: bool)                          // the revocation itself; announced: it was prepared for
    | KeepLicense                                      // no revocation asked for
    | RebootNow                                        // a disk change: REBOOT_NOW
    | Resolve(rebootRequired: bool)                    // process resolves
    | Reject(code: nat)                                // process, or saving after it, rejects
    | SaveDevice                                       // bigIp.save and the reboot check after process
    | SaveRollingBack(ok: bool)
    | Rollback(ok: bool)                               // reading, processing the old configuration, reading again
    | SaveRolledBack(ok: bool)
    | Finish
    | Report
    | Decide(prompt: bool)                             // prompt: the device's prompt asks for a reboot
    | Close
    | Answer
    | Fail                                             // a link outside onboard rejects
    | Save                                             // the state is saved on behalf of another task
    | OtherPost                                        // another task becomes the most recent one
    | Crash
    | Restart(early: bool)                             // early: the save overtakes the change of the declaration

  /** From the request to the onboarding. */
  function Beginning(s: System, t: Task, stage: Stage, step: Step): Option<System>
  {
    match (stage, step)
    case (Added, Validate(true)) => Some(s.(worker := Up(UpdateResult(t, 202, RUNNING), Starting)))
    case (Added, Validate(false)) => Some(s.(worker := Up(UpdateResult(t, 400, ERROR), Refused)))
    case (Added, Malformed) => Some(s.(worker := Up(UpdateResult(t, 400, ERROR), Answering(false))))
    case (Refused, SaveRefused) => Some(s.(worker := Up(t, Answering(true)), disk := Some(t)))
    case (Starting, SaveRunning) => Some(s.(worker := Up(t, Initializing), disk := Some(t)))
    case (Initializing, Connect(true, _)) => Some(s.(worker := Up(t, Reading)))
    case (Initializing, Connect(false, code)) =>
      Some(s.(worker := Up(UpdateResult(t, if code != 0 then code else 500, ERROR), Answering(false))))
    case (Reading, Read(true, _)) => Some(s.(worker := Up(t, Processing(false)), disk := Some(t)))
    case (Reading, Read(false, code)) =>
      Some(s.(worker := Up(UpdateResult(t, 202, ROLLING_BACK), RollingBack(false, code))))
    case _ => None
  }

  /** The licence step of DeclarationHandler.process. */
  function Licensing(s: System, t: Task, stage: Stage, step: Step): Option<System>
  {
    match (stage, step)
    case (Processing(false), KeepLicense) =>
      if Asks(t.licenses) then None else Some(s.(worker := Up(t, Processing(true))))
    case (Processing(false), SkipRevoke) =>
      if Asks(t.licenses) then Some(s.(worker := Up(t, Processing(true)))) else None
    case (Processing(false), PrepareRevoke) =>
      var revoking := UpdateResult(t, 202, REVOKING);
      if Asks(t.licenses) then Some(s.(worker := Up(revoking, Revoking), disk := Some(revoking))) else None
    case (Processing(false), Revoke(false)) =>
      if Asks(t.licenses) then Some(s.(worker := Up(t, Processing(true)), revokes := s.revokes + 1)) else None
    case (Revoking, Revoke(true)) => Some(s.(worker := Up(t, Processing(true)), revokes := s.revokes + 1))
    case _ => None
  }

  /** The rest of process, and saving the device's configuration. */
  function Onboarding(s: System, t: Task, stage: Stage, step: Step): Option<System>
  {
    match (stage, step)
    case (Processing(true), RebootNow) =>
      var resuming := UpdateResult(t.(rebootRequired := true), 202, REBOOTING_AND_RESUMING);
      Some(s.(worker := Up(resuming, AwaitingReboot), disk := Some(resuming)))
    case (Processing(true), Resolve(r)) => Some(s.(worker := Up(t.(rebootRequired := r), Processed), processed := true))
    case (Processing(_), Reject(code)) => Some(RollBack(s, t, code))
    case (Revoking, Reject(code)) => Some(RollBack(s, t, code))
    case (Processed, Reject(code)) => Some(RollBack(s, t, code))
    case (Processed, SaveDevice) => Some(s.(worker := Up(t, Finishing)))
    case _ => None
  }

  /** The catch clauses of onboard: save, roll back, and report the error. */
  function Recovering(s: System, t: Task, stage: Stage, step: Step): Option<System>
  {
    match (stage, step)
    case (RollingBack(canProcess, code), SaveRollingBack(true)) =>
      Some(s.(worker := Up(t, Restoring(canProcess, code)), disk := Some(t)))
    case (RollingBack(_, _), SaveRollingBack(false)) => Some(s.(worker := Up(UpdateResult(t, 500, ERROR), Finishing)))
    case (Restoring(canProcess, code), Rollback(ok)) =>
      if ok && canProcess then
        Some(s.(worker := Up(UpdateResult(t, DeconCode(code), ERROR), RolledBack), disk := Some(t)))
      else Some(s.(worker := Up(UpdateResult(t, 500, ERROR), Finishing)))
    case (RolledBack, SaveRolledBack(true)) => Some(s.(worker := Up(t, Finishing), disk := Some(t)))
    case (RolledBack, SaveRolledBack(false)) => Some(s.(worker := Up(UpdateResult(t, 500, ERROR), Finishing)))
    case _ => None
  }

  /** From the end of onboard to the response. */
  function Ending(s: System, t: Task, stage: Stage, step: Step): Option<System>
  {
    match (stage, step)
    case (Finishing, Finish) => Some(s.(worker := Up(t, Reporting(t.status == ERROR))))
    case (Reporting(failed), Report) =>
      Some(s.(worker := Up(t, if failed then Answering(true) else Deciding), disk := Some(t)))
    case (Deciding, Decide(prompt)) =>
      if t.rebootRequired || prompt then Some(s.(worker := Up(UpdateResult(t, 202, REBOOTING), Closing)))
      else Some(s.(worker := Up(UpdateResult(t, 200, OK), Closing)))
    case (Closing, Close) => Some(s.(worker := Up(t, Answering(true)), disk := Some(t)))
    case (Answering(_), Answer) => Some(s.(worker := Up(t, Done)))
    case (Rebooted, Close) => Some(s.(worker := Up(t, Done), disk := Some(t)))
    case _ => None
  }

  /** A step of the worker while it is up: what may happen anywhere, or the next link of the chain. */
  function Link(s: System, t: Task, stage: Stage, step: Step): Option<System>
  {
    match step
    case Fail => if CanFail(stage) then Some(s.(worker := Up(UpdateResult(t, 500, ERROR), Done))) else None
    case Save => Some(s.(disk := Some(t)))
    case OtherPost => Some(s.(worker := Up(t.(newest := false), stage)))
    case Crash => Some(s.(worker := Down))
    case _ =>
      if stage.Added? || stage.Refused? || stage.Starting? || stage.Initializing? || stage.Reading? then
        Beginning(s, t, stage, step)
      else if (stage == Processing(false) || stage.Revoking?) && !step.Reject? then Licensing(s, t, stage, step)
      else if stage.Processing? || stage.Revoking? || stage.Processed? then Onboarding(s, t, stage, step)
      else if stage.RollingBack? || stage.Restoring? || stage.RolledBack? then Recovering(s, t, stage, step)
      else Ending(s, t, stage, step)
  }

  function RollBack(s: System, t: Task, code: nat): System
  {
    s.(worker := Up(UpdateResult(t, 202, ROLLING_BACK), RollingBack(true, code)))
  }

  /** The code reported after a rollback. */
  function DeconCode(code: nat): nat { if code == 400 then 422 else if code == 0 then 500 else code }

  /** The stages whose rejection ends in the outermost handler; onboard itself always resolves. */
  predicate CanFail(stage: Stage)
  {
    stage.Added? || stage.Starting? || stage.Initializing? || stage.Finishing? || stage.Reporting? || stage.Deciding?
    || stage.Closing? || stage.Answering?
  }

  /** handleStartupState. */
  function Started(s: System, t: Task, early: bool): System
  {
    if !t.newest then s.(worker := Up(t, Done))
    else match t.status
      case REBOOTING => s.(worker := Up(UpdateResult(t, 200, OK), Rebooted))
      case RUNNING => Resumed(s, t, early)
      case REVOKING => Resumed(s, t, early)
      case REBOOTING_AND_RESUMING => Resumed(s, t, early)
      case _ => s.(worker := Up(t, Done))
  }

  function Resumed(s: System, t: Task, early: bool): System
  {
    var running := UpdateResult(t, 202, RUNNING);
    s.(worker := Up(running.(licenses := Stripped(t.licenses)), Initializing),
       disk := if early then Some(running) else s.disk)
  }

  function Next(s: System, step: Step): Option<System>
  {
    if s.worker.Up? then Link(s, s.worker.task, s.worker.stage, step)
    else if step.Restart? && s.disk.Some? then Some(Started(s, s.disk.value, step.early))
    else None
  }

  /** A run: every step is possible where it is taken. */
  function Run(s: System, steps: seq<Step>): Option<System>
  {
    if steps == [] then Some(s)
    else
      var before := Run(s, steps[..|steps| - 1]);
      if before.Some? then Next(before.value, steps[|steps| - 1]) else None
  }

  lemma {:induction false} RunConcat(s: System, a: seq<Step>, b: seq<Step>)
    requires Run(s, a).Some?
    ensures Run(s, a + b) == Run(Run(s, a).value, b)
  {
    if b == [] {
      assert a + b == a;
    } else {
      assert (a + b)[..|a + b| - 1] == a + b[..|b| - 1];
      RunConcat(s, a, b[..|b| - 1]);
    }
  }

  // ---------------------------------------------------------------- what holds in every state of every run

  predicate InProgress(status: Status)
  {
    status == ROLLING_BACK || status == RUNNING || status == REBOOTING || status == REBOOTING_AND_RESUMING
    || status == REVOKING
  }

  /** OK carries 200, a task in progress 202, and a failed one has a code. */
  predicate CodeAgrees(t: Task)
  {
    && (t.status == Unset ==> t.code == 0)
    && (t.status == OK ==> t.code == 200)
    && (InProgress(t.status) ==> t.code == 202)
    && (t.status == ERROR ==> t.code != 0)
  }

  /** Success, or waiting for the final reboot. */
  predicate Succeeded(status: Status) { status == OK || status == REBOOTING }

  predicate TaskSound(t: Task, processed: bool)
  {
    CodeAgrees(t) && (Succeeded(t.status) ==> processed)
  }

  /** What the stage says about the status. */
  predicate StageSound(t: Task, stage: Stage, processed: bool)
  {
    match stage
    case Added => t.status == Unset && !processed
    case Refused => t.status == ERROR
    case Starting => t.status == RUNNING
    case Initializing => t.status == RUNNING
    case Reading => t.status == RUNNING
    case Processing(licensed) => t.status == RUNNING || (licensed && t.status == REVOKING)
    case Revoking => t.status == REVOKING
    case AwaitingReboot => t.status == REBOOTING_AND_RESUMING
    case Processed => (t.status == RUNNING || t.status == REVOKING) && processed
    case RollingBack(_, _) => t.status == ROLLING_BACK
    case Restoring(_, _) => t.status == ROLLING_BACK
    case RolledBack => t.status == ERROR
    case Finishing => t.status == ERROR || ((t.status == RUNNING || t.status == REVOKING) && processed)
    case Reporting(failed) =>
      failed == (t.status == ERROR) && (failed || ((t.status == RUNNING || t.status == REVOKING) && processed))
    case Deciding => (t.status == RUNNING || t.status == REVOKING) && processed
    case Closing => Succeeded(t.status)
    case Answering(saved) => t.status == ERROR || (saved && Succeeded(t.status))
    case Rebooted => t.status == OK
    case Done => true
  }

  predicate Sound(s: System)
  {
    && (s.worker.Up? ==>
          TaskSound(s.worker.task, s.processed) && StageSound(s.worker.task, s.worker.stage, s.processed))
    && (s.disk.Some? ==> TaskSound(s.disk.value, s.processed))
    && (SavedAs(s, ERROR) && s.worker.Up? ==> s.worker.task.status == ERROR)
    && (s.worker.Up? && s.worker.stage == Answering(true) ==> SavedAs(s, s.worker.task.status))
  }

  predicate SavedAs(s: System, status: Status) { s.disk.Some? && s.disk.value.status == status }

  /** A step that leads to `next` keeps the state sound and a saved error saved. */
  predicate Keeps(s: System, next: Option<System>)
  {
    next.Some? ==> Sound(next.value) && (SavedAs(s, ERROR) ==> SavedAs(next.value, ERROR))
  }

  /** No save on behalf of another task comes to the rescue. */
  predicate OnItsOwn(steps: seq<Step>) { Save !in steps }

  /** An error answered without having been saved is still not saved. */
  predicate StillUnsaved(s: System)
  {
    s.worker.Up? && s.worker.stage == Answering(false) ==> !SavedAs(s, ERROR)
  }

  predicate StaysUnsaved(s: System, next: Option<System>)
  {
    next.Some? && StillUnsaved(s) ==> StillUnsaved(next.value)
  }

  predicate UpSound(s: System, t: Task, stage: Stage)
  {
    && s.worker == Up(t, stage)
    && TaskSound(t, s.processed) && StageSound(t, stage, s.processed)
    && (s.disk.Some? ==> TaskSound(s.disk.value, s.processed) && (s.disk.value.status == ERROR ==> t.status == ERROR))
    && (stage == Answering(true) ==> SavedAs(s, t.status))
  }

  lemma RequestSound(s: System, t: Task, stage: Stage, step: Step)
    requires UpSound(s, t, stage) && !stage.Initializing? && !stage.Reading?
    ensures Keeps(s, Beginning(s, t, stage, step))
  {
  }

  lemma ConnectionSound(s: System, t: Task, stage: Stage, step: Step)
    requires UpSound(s, t, stage) && (stage.Initializing? || stage.Reading?)
    ensures Keeps(s, Beginning(s, t, stage, step))
  {
  }

  lemma BeginningUnsaved(s: System, t: Task, stage: Stage, step: Step)
    requires UpSound(s, t, stage)
    ensures StaysUnsaved(s, Beginning(s, t, stage, step))
  {
    hide TaskSound;
  }

  lemma LicensingSound(s: System, t: Task, stage: Stage, step: Step)
    requires UpSound(s, t, stage)
    ensures Keeps(s, Licensing(s, t, stage, step)) && StaysUnsaved(s, Licensing(s, t, stage, step))
  {
    hide Asks;
  }

  lemma OnboardingSound(s: System, t: Task, stage: Stage, step: Step)
    requires UpSound(s, t, stage)
    ensures Keeps(s, Onboarding(s, t, stage, step))
  {
  }

  lemma OnboardingUnsaved(s: System, t: Task, stage: Stage, step: Step)
    requires UpSound(s, t, stage)
    ensures StaysUnsaved(s, Onboarding(s, t, stage, step))
  {
    hide TaskSound;
  }

  lemma RollingBackSound(s: System, t: Task, stage: Stage, step: Step)
    requires UpSound(s, t, stage) && stage.RollingBack?
    ensures Keeps(s, Recovering(s, t, stage, step))
  {
  }

  lemma RecoveringSound(s: System, t: Task, stage: Stage, step: Step)
    requires UpSound(s, t, stage) && !stage.RollingBack?
    ensures Keeps(s, Recovering(s, t, stage, step))
  {
  }

  lemma RecoveringUnsaved(s: System, t: Task, stage: Stage, step: Step)
    requires UpSound(s, t, stage)
    ensures StaysUnsaved(s, Recovering(s, t, stage, step))
  {
    hide TaskSound;
  }

  lemma EndingSound(s: System, t: Task, stage: Stage, step: Step)
    requires UpSound(s, t, stage)
    ensures Keeps(s, Ending(s, t, stage, step))
  {
  }

  lemma EndingUnsaved(s: System, t: Task, stage: Stage, step: Step)
    requires UpSound(s, t, stage)
    ensures StaysUnsaved(s, Ending(s, t, stage, step))
  {
    hide TaskSound;
  }

  lemma StartedSound(s: System, t: Task, early: bool)
    requires TaskSound(t, s.processed) && s.disk == Some(t)
    ensures Keeps(s, Some(Started(s, t, early))) && StaysUnsaved(s, Some(Started(s, t, early)))
  {
  }

  lemma StepKeepsSound(s: System, step: Step)
    requires Sound(s) && Next(s, step).Some?
    ensures Keeps(s, Next(s, step)) && (step != Save ==> StaysUnsaved(s, Next(s, step)))
  {
    hide Beginning, Licensing, Onboarding, Recovering, Ending, Started;
    if s.worker.Up? {
      var t, stage := s.worker.task, s.worker.stage;
      if stage.Initializing? || stage.Reading? {
        ConnectionSound(s, t, stage, step);
      } else {
        RequestSound(s, t, stage, step);
      }
      BeginningUnsaved(s, t, stage, step);
      LicensingSound(s, t, stage, step);
      OnboardingSound(s, t, stage, step);
      OnboardingUnsaved(s, t, stage, step);
      if stage.RollingBack? {
        RollingBackSound(s, t, stage, step);
      } else {
        RecoveringSound(s, t, stage, step);
      }
      RecoveringUnsaved(s, t, stage, step);
      EndingSound(s, t, stage, step);
      EndingUnsaved(s, t, stage, step);
    } else {
      StartedSound(s, s.disk.value, step.early);
    }
  }

  lemma {:induction false} RunKeepsSound(s: System, steps: seq<Step>)
    requires Sound(s) && Run(s, steps).Some?
    ensures Sound(Run(s, steps).value)
  {
    hide Next, Sound;
    if steps != [] {
      RunKeepsSound(s, steps[..|steps| - 1]);
      StepKeepsSound(Run(s, steps[..|steps| - 1]).value, steps[|steps| - 1]);
    }
  }

  /** The task as a client sees it, or will see it once the worker is up again. */
  function Visible(s: System): Option<Task>
  {
    if s.worker.Up? then Some(s.worker.task) else s.disk
  }

  /**
   * Over every run with any crashes and restarts: OK and REBOOTING are only reached after process has resolved, OK
   * carries 200 and every status in progress 202. The same holds of what is on disk.
   */
  lemma StatusIsHonest(licenses: seq<License>, steps: seq<Step>)
    requires Run(Initial(licenses), steps).Some?
    ensures var s := Run(Initial(licenses), steps).value;
      && (Visible(s).Some? ==> TaskSound(Visible(s).value, s.processed))
      && (s.disk.Some? ==> TaskSound(s.disk.value, s.processed))
  {
    RunKeepsSound(Initial(licenses), steps);
  }

  /** The steps at which the state is saved. */
  predicate Saves(step: Step, stage: Stage)
  {
    match step
    case SaveRefused => true
    case SaveRunning => true
    case Read(ok, _) => ok
    case PrepareRevoke => true
    case RebootNow => true
    case SaveRollingBack(ok) => ok
    case Rollback(ok) => ok && stage.Restoring? && stage.canProcess
    case SaveRolledBack(ok) => ok
    case Report => true
    case Close => true
    case Save => true
    case _ => false
  }

  /** What is on disk afterwards; the error after a rollback is recorded once its last reading has been saved. */
  predicate SavesOrLeaves(s: System, next: System, step: Step, saves: bool)
  {
    if saves then
      && s.worker.Up? && next.worker.Up?
      && next.disk == Some(if step.Rollback? then s.worker.task else next.worker.task)
    else next.disk == s.disk
  }

  /** While the worker is up, a step that saves puts the task on disk as it then is; every other one leaves the disk. */
  lemma SavedExactly(s: System, step: Step)
    requires s.worker.Up? && Next(s, step).Some?
    ensures SavesOrLeaves(s, Next(s, step).value, step, Saves(step, s.worker.stage))
  {
    hide Beginning, Licensing, Onboarding, Recovering, Ending, Saves;
    LinkSaves(s, s.worker.task, s.worker.stage, step);
    OtherStepsSave(s.worker.stage, step);
  }

  lemma OtherStepsSave(stage: Stage, step: Step)
    ensures Saves(Save, stage)
    ensures step.Fail? || step.OtherPost? || step.Crash? ==> !Saves(step, stage)
  {
  }

  lemma LinkSaves(s: System, t: Task, stage: Stage, step: Step)
    requires s.worker == Up(t, stage)
    ensures var next := Beginning(s, t, stage, step);
      next.Some? ==> SavesOrLeaves(s, next.value, step, Saves(step, stage))
    ensures var next := Licensing(s, t, stage, step);
      next.Some? ==> SavesOrLeaves(s, next.value, step, Saves(step, stage))
    ensures var next := Onboarding(s, t, stage, step);
      next.Some? ==> SavesOrLeaves(s, next.value, step, Saves(step, stage))
    ensures var next := Recovering(s, t, stage, step);
      next.Some? ==> SavesOrLeaves(s, next.value, step, Saves(step, stage))
    ensures var next := Ending(s, t, stage, step);
      next.Some? ==> SavesOrLeaves(s, next.value, step, Saves(step, stage))
  {
    hide Asks, Stripped;
  }

  /** A rejection of process, also while a revocation is awaited, or of the save after it leads to the rollback. */
  lemma RejectionsRollBack(s: System, code: nat)
    requires s.worker.Up?
    requires s.worker.stage.Processing? || s.worker.stage.Revoking? || s.worker.stage.Processed?
    ensures var next := Next(s, Reject(code));
      && next.Some? && next.value.worker.Up? && next.value.worker.stage == RollingBack(true, code)
      && next.value.worker.task == s.worker.task.(code := 202, status := ROLLING_BACK) && next.value.disk == s.disk
  {
  }

  /** An answered task is done: from then on only a crash, another save or another task happens to it. */
  lemma AnsweredIsDone(s: System, step: Step)
    requires s.worker.Up?
    ensures s.worker.stage.Answering? ==> Next(s, Answer) == Some(s.(worker := Up(s.worker.task, Done)))
    ensures s.worker.stage.Done? && Next(s, step).Some? ==> step.Save? || step.OtherPost? || step.Crash?
  {
  }

  /** Another task takes over as the most recent one, and nothing else changes; a crash loses what is in memory. */
  lemma Interruptions(s: System)
    requires s.worker.Up?
    ensures Next(s, OtherPost) == Some(s.(worker := Up(s.worker.task.(newest := false), s.worker.stage)))
    ensures Next(s, Crash) == Some(s.(worker := Down))
  {
  }

  /** A start saves nothing, or RUNNING ahead of the change of the declaration: the directives are then still saved. */
  lemma SavedAtStart(s: System, early: bool)
    requires s.worker.Down? && s.disk.Some?
    ensures var next := Next(s, Restart(early));
      && next.Some? && next.value.worker.Up?
      && (next.value.disk == s.disk || (early && next.value.worker.stage.Initializing?
            && next.value.disk == Some(s.disk.value.(code := 202, status := RUNNING))))
  {
  }

  /** Outside of onboard, which always resolves, a rejection ends the chain with ERROR and 500, and is not saved. */
  lemma OutermostHandler(s: System)
    requires s.worker.Up?
    ensures var stage, next := s.worker.stage, Next(s, Fail);
      && (next.None? <==>
            (stage.Refused? || stage.Reading? || stage.Processing? || stage.Revoking? || stage.AwaitingReboot?
             || stage.Processed? || stage.RollingBack? || stage.Restoring? || stage.RolledBack? || stage.Rebooted?
             || stage.Done?))
      && (next.Some? ==> next.value.disk == s.disk)
      && (next.Some? ==> next.value.worker == Up(s.worker.task.(code := 500, status := ERROR), Done))
  {
  }

  /** A request that is not valid is answered with 400; that is saved, unless it is not even JSON. */
  lemma InvalidRequests(licenses: seq<License>)
    ensures var refused := Run(Initial(licenses), [Validate(false), SaveRefused]);
      && refused.Some? && refused.value.worker.Up? && refused.value.worker.stage.Answering?
      && refused.value.worker.task.status == ERROR && refused.value.worker.task.code == 400
      && refused.value.disk == Some(refused.value.worker.task)
    ensures var malformed := Run(Initial(licenses), [Malformed]);
      && malformed.Some? && malformed.value.worker.Up? && malformed.value.worker.stage.Answering?
      && malformed.value.worker.task.status == ERROR && malformed.value.worker.task.code == 400
      && malformed.value.disk.None?
  {
    RunOne(Initial(licenses), Validate(false));
    RunOne(Initial(licenses), Malformed);
    assert [Validate(false), SaveRefused][..1] == [Validate(false)];
  }

  /** A device that cannot be initialised is reported with the code of the failure, and with 500 when it has none. */
  lemma NoDeviceCode(s: System, code: nat)
    requires s.worker.Up? && s.worker.stage.Initializing?
    ensures var next := Next(s, Connect(false, code));
      && next.Some? && next.value.worker.Up? && next.value.worker.task.status == ERROR
      && (code > 0 ==> next.value.worker.task.code == code) && (code == 0 ==> next.value.worker.task.code == 500)
  {
  }

  // ---------------------------------------------------------------- errors

  ghost predicate AlwaysStatus(s: System, status: Status)
  {
    forall steps :: Run(s, steps).Some? ==>
      Visible(Run(s, steps).value).Some? && Visible(Run(s, steps).value).value.status == status
  }

  lemma {:induction false} SavedErrorStays(s: System, steps: seq<Step>)
    requires Sound(s) && SavedAs(s, ERROR) && Run(s, steps).Some?
    ensures SavedAs(Run(s, steps).value, ERROR)
  {
    hide Next, Sound;
    if steps != [] {
      SavedErrorStays(s, steps[..|steps| - 1]);
      RunKeepsSound(s, steps[..|steps| - 1]);
      StepKeepsSound(Run(s, steps[..|steps| - 1]).value, steps[|steps| - 1]);
    }
  }

  lemma RunOne(s: System, step: Step)
    ensures Run(s, [step]) == Next(s, step)
  {
    assert [step][..0] == [];
    assert Run(s, []) == Some(s);
  }

  /** An error is final - no step, crash or restart changes it - exactly when it has been saved. */
  lemma ErrorIsFinalIff(s: System)
    requires Sound(s) && Visible(s).Some? && Visible(s).value.status == ERROR
    ensures AlwaysStatus(s, ERROR) <==> SavedAs(s, ERROR)
  {
    if SavedAs(s, ERROR) {
      forall steps | Run(s, steps).Some?
        ensures Visible(Run(s, steps).value).Some? && Visible(Run(s, steps).value).value.status == ERROR
      {
        SavedErrorStays(s, steps);
        RunKeepsSound(s, steps);
      }
    } else {
      RunOne(s, Crash);
      assert Visible(Run(s, [Crash]).value) == s.disk;
    }
  }

  lemma {:induction false} AnsweredUnsaved(s: System, steps: seq<Step>)
    requires Sound(s) && StillUnsaved(s) && Run(s, steps).Some? && OnItsOwn(steps)
    ensures StillUnsaved(Run(s, steps).value)
  {
    if steps != [] {
      var n := |steps| - 1;
      assert steps[n] in steps;
      AnsweredUnsaved(s, steps[..n]);
      RunKeepsSound(s, steps[..n]);
      StepKeepsSound(Run(s, steps[..n]).value, steps[n]);
      hide Next, Sound;
    }
  }

  /**
   * The error a client is answered with is final exactly when it was saved before. So is every error of a task whose
   * device was reached; a malformed request and a device that cannot be initialised are answered without a save, and
   * then only a save on behalf of another task can make the error last.
   */
  lemma AnsweredErrorIsFinalIff(licenses: seq<License>, steps: seq<Step>)
    requires Run(Initial(licenses), steps).Some?
    ensures var s := Run(Initial(licenses), steps).value;
      s.worker.Up? && s.worker.stage.Answering? && s.worker.task.status == ERROR ==>
        && (AlwaysStatus(s, ERROR) <==> SavedAs(s, ERROR))
        && (s.worker.stage.saved ==> AlwaysStatus(s, ERROR))
        && (OnItsOwn(steps) ==> (AlwaysStatus(s, ERROR) <==> s.worker.stage.saved))
  {
    RunKeepsSound(Initial(licenses), steps);
    var s := Run(Initial(licenses), steps).value;
    if s.worker.Up? && s.worker.task.status == ERROR {
      ErrorIsFinalIff(s);
    }
    if OnItsOwn(steps) {
      AnsweredUnsaved(Initial(licenses), steps);
    }
  }

  // ---------------------------------------------------------------- building runs

  ghost predicate Reaches(s: System, target: System)
  {
    exists steps :: Run(s, steps) == Some(target)
  }

  lemma ReachesSelf(s: System)
    ensures Reaches(s, s)
  {
    assert Run(s, []) == Some(s);
  }

  /** Taking one more step of a run. */
  lemma Go(s: System, mid: System, step: Step) returns (next: System)
    requires Reaches(s, mid) && Next(mid, step).Some?
    ensures next == Next(mid, step).value && Reaches(s, next)
  {
    next := Next(mid, step).value;
    var steps :| Run(s, steps) == Some(mid);
    assert (steps + [step])[..|steps + [step]| - 1] == steps;
    assert Run(s, steps + [step]) == Some(next);
  }

  /** The task processing its declaration for the first time, saved as running. */
  function FirstProcessing(licenses: seq<License>): System
  {
    var task := Task(202, RUNNING, false, licenses, true);
    System(Up(task, Processing(false)), Some(task), 0, false)
  }

  lemma ReachesProcessing(licenses: seq<License>)
    ensures Reaches(Initial(licenses), FirstProcessing(licenses))
  {
    var s := Initial(licenses);
    ReachesSelf(s);
    var s1 := Go(s, s, Validate(true));
    var s2 := Go(s, s1, SaveRunning);
    var s3 := Go(s, s2, Connect(true, 0));
    var s4 := Go(s, s3, Read(true, 0));
  }

  /** The same after a crash and a restart, `revokes` revocations having been requested before the crash. */
  function SecondProcessing(licenses: seq<License>, revokes: nat): System
  {
    var task := Task(202, RUNNING, false, Stripped(licenses), true);
    System(Up(task, Processing(false)), Some(task), revokes, false)
  }

  lemma ReachesResumed(from: System, s: System, licenses: seq<License>)
    requires Reaches(from, s) && s.worker.Up? && !s.processed
    requires s.disk.Some? && s.disk.value.newest && s.disk.value.licenses == licenses && !s.disk.value.rebootRequired
    requires s.disk.value.status == RUNNING || s.disk.value.status == REVOKING
    ensures Reaches(from, SecondProcessing(licenses, s.revokes))
  {
    var s1 := Go(from, s, Crash);
    var s2 := Go(from, s1, Restart(false));
    var s3 := Go(from, s2, Connect(true, 0));
    var s4 := Go(from, s3, Read(true, 0));
  }

  /** The device could not be initialised, and the error is being reported; on disk the task is still running. */
  function NoDevice(): System
  {
    System(Up(Task(500, ERROR, false, [], true), Answering(false)), Some(Task(202, RUNNING, false, [], true)), 0, false)
  }

  lemma ReachesNoDevice()
    ensures Reaches(Initial([]), NoDevice())
  {
    var s := Initial([]);
    ReachesSelf(s);
    var s1 := Go(s, s, Validate(true));
    var s2 := Go(s, s1, SaveRunning);
    var s3 := Go(s, s2, Connect(false, 0));
  }

  /** The state could not be saved before the rollback, which therefore failed; on disk the task is still running. */
  function UnsavedFailure(): System
  {
    System(Up(Task(500, ERROR, false, [], true), Finishing), Some(Task(202, RUNNING, false, [], true)), 0, false)
  }

  lemma ReachesRollingBack()
    ensures Reaches(Initial([]), System(Up(Task(202, ROLLING_BACK, false, [], true), RollingBack(true, 500)),
                                        Some(Task(202, RUNNING, false, [], true)), 0, false))
  {
    hide Beginning, Recovering, Ending, Started, Reaches;
    var s := Initial([]);
    ReachesProcessing([]);
    var s1 := Go(s, FirstProcessing([]), KeepLicense);
    var s2 := Go(s, s1, Reject(500));
  }

  lemma ReachesUnsavedFailure()
    ensures Reaches(Initial([]), UnsavedFailure())
  {
    hide Beginning, Onboarding, Licensing, Ending, Started, Reaches;
    ReachesRollingBack();
    var s3 := Go(Initial([]), System(Up(Task(202, ROLLING_BACK, false, [], true), RollingBack(true, 500)),
                                     Some(Task(202, RUNNING, false, [], true)), 0, false), SaveRollingBack(false));
  }

  /** A crash in the middle of a rollback, or after one that failed. */
  function CrashedRollback(): System
  {
    System(Down, Some(Task(202, ROLLING_BACK, false, [], true)), 0, false)
  }

  lemma ReachesCrashedRollback()
    ensures Reaches(Initial([]), CrashedRollback())
  {
    hide Beginning, Onboarding, Licensing, Ending, Started, Reaches;
    var s := Initial([]);
    ReachesRollingBack();
    var s3 := Go(s, System(Up(Task(202, ROLLING_BACK, false, [], true), RollingBack(true, 500)),
                           Some(Task(202, RUNNING, false, [], true)), 0, false), SaveRollingBack(true));
    ReachesCrash(s3);
  }

  lemma ReachesCrash(saved: System)
    requires Reaches(Initial([]), saved) && saved.disk == CrashedRollback().disk
    requires saved.revokes == 0 && !saved.processed
    requires saved.worker.Up? && saved.worker.stage.Restoring?
    ensures Reaches(Initial([]), CrashedRollback())
  {
    hide Beginning, Onboarding, Licensing, Ending, Started, Reaches;
    var s4 := Go(Initial([]), saved, Rollback(false));
    var s5 := Go(Initial([]), s4, Crash);
  }

  /** From the licence step to the end of onboard. */
  lemma ReachesFinishing(from: System, t: Task, disk: Option<Task>)
    requires Reaches(from, System(Up(t, Processing(true)), disk, 0, false))
    ensures Reaches(from, System(Up(t.(rebootRequired := false), Finishing), disk, 0, true))
  {
    hide Beginning, Ending, Started, Reaches;
    var s4 := Go(from, System(Up(t, Processing(true)), disk, 0, false), Resolve(false));
    var s5 := Go(from, s4, SaveDevice);
  }

  /** From there to a saved OK. */
  lemma ReachesSuccess(from: System, t: Task, disk: Option<Task>)
    requires Reaches(from, System(Up(t, Processing(true)), disk, 0, false))
    requires t.status == RUNNING
    ensures var ok := t.(code := 200, status := OK, rebootRequired := false);
      Reaches(from, System(Up(ok, Answering(true)), Some(ok), 0, true))
  {
    hide Beginning, Onboarding, Started, Reaches;
    ReachesFinishing(from, t, disk);
    ReachesAnswer(from, t.(rebootRequired := false), disk);
  }

  /** A task that needs no reboot, from the end of onboard to the answer. */
  lemma ReachesAnswer(from: System, t: Task, disk: Option<Task>)
    requires Reaches(from, System(Up(t, Finishing), disk, 0, true)) && t.status == RUNNING && !t.rebootRequired
    ensures var ok := t.(code := 200, status := OK);
      Reaches(from, System(Up(ok, Answering(true)), Some(ok), 0, true))
  {
    hide Beginning, Onboarding, Licensing, Recovering, Started, Reaches;
    var s6 := Go(from, System(Up(t, Finishing), disk, 0, true), Finish);
    var s7 := Go(from, s6, Report);
    ReachesReport(from, t);
  }

  lemma ReachesReport(from: System, t: Task)
    requires Reaches(from, System(Up(t, Deciding), Some(t), 0, true)) && !t.rebootRequired
    ensures var ok := t.(code := 200, status := OK);
      Reaches(from, System(Up(ok, Answering(true)), Some(ok), 0, true))
  {
    hide Beginning, Onboarding, Licensing, Recovering, Started, Reaches;
    var s8 := Go(from, System(Up(t, Deciding), Some(t), 0, true), Decide(false));
    var s9 := Go(from, s8, Close);
  }

  /** The task is in error, and some run takes it from there to a saved OK. */
  ghost predicate LosesError(failed: System, s: System)
  {
    && Reaches(Initial([]), failed) && failed.worker.Up? && failed.worker.task.status == ERROR
    && Reaches(failed, s) && Visible(s).Some? && Visible(s).value.status == OK && SavedAs(s, OK)
  }

  /** From an unsaved error to OK: a crash, a restart, and this time everything goes well. */
  lemma ErrorToSuccess(failed: System)
    requires Reaches(Initial([]), failed) && failed.worker.Up? && failed.worker.task.status == ERROR
    requires failed.disk == Some(Task(202, RUNNING, false, [], true)) && failed.revokes == 0 && !failed.processed
    ensures exists s :: LosesError(failed, s)
  {
    hide Reaches;
    ReachesSelf(failed);
    ReachesResumed(failed, failed, []);
    var licensed := Go(failed, SecondProcessing([], 0), KeepLicense);
    ReachesSuccess(failed, licensed.worker.task, licensed.disk);
    var ok := Task(200, OK, false, [], true);
    assert LosesError(failed, System(Up(ok, Answering(true)), Some(ok), 0, true));
  }

  /** When the state cannot be saved before a rollback, the error that follows can be lost in a crash. */
  lemma UnsavedErrorIsLost()
    ensures exists s :: LosesError(UnsavedFailure(), s)
  {
    ReachesUnsavedFailure();
    ErrorToSuccess(UnsavedFailure());
  }

  /** So can the error a client has been answered with, when the device could not be initialised. */
  lemma AnsweredErrorIsLost()
    ensures NoDevice().worker.stage.Answering? && exists s :: LosesError(NoDevice(), s)
  {
    ReachesNoDevice();
    ErrorToSuccess(NoDevice());
  }

  // ---------------------------------------------------------------- restarts

  /** What a start of the worker picks up again. */
  predicate Resumable(t: Task)
  {
    && t.newest
    && (t.status == REBOOTING || t.status == RUNNING || t.status == REVOKING || t.status == REBOOTING_AND_RESUMING)
  }

  /** The task is saved, and nothing in memory says otherwise. */
  predicate Settled(s: System, status: Status)
  {
    && SavedAs(s, status)
    && (s.worker.Up? ==> s.worker.stage == Done && s.worker.task.status == status)
    && !Resumable(s.disk.value) && (s.worker.Up? ==> !Resumable(s.worker.task))
  }

  lemma {:induction false} SettledStays(s: System, status: Status, steps: seq<Step>)
    requires Settled(s, status) && Run(s, steps).Some?
    ensures Settled(Run(s, steps).value, status)
  {
    if steps != [] {
      SettledStays(s, status, steps[..|steps| - 1]);
    }
  }

  /**
   * After a crash, a task keeps its saved status for good exactly when it is not resumable. So a task that has
   * succeeded or failed stays so; and a rollback that is interrupted reports ROLLING_BACK for ever.
   */
  lemma CrashedStatusIsFinalIff(s: System, t: Task)
    requires s.worker.Down? && s.disk == Some(t)
    ensures AlwaysStatus(s, t.status) <==> !Resumable(t)
  {
    if !Resumable(t) {
      forall steps | Run(s, steps).Some?
        ensures Visible(Run(s, steps).value).Some? && Visible(Run(s, steps).value).value.status == t.status
      {
        SettledStays(s, t.status, steps);
      }
    } else {
      ReachesSelf(s);
      var s1 := Go(s, s, Restart(false));
      if t.status == REBOOTING {
        assert Visible(s1).value.status == OK;
        NotAlways(s, s1, t.status);
      } else {
        var s2 := Go(s, s1, Fail);
        assert Visible(s2).value.status == ERROR;
        NotAlways(s, s2, t.status);
      }
    }
  }

  /** A failed rollback is not reported after a crash: the task says ROLLING_BACK for ever. */
  lemma FailedRollbackStaysRollingBack()
    ensures Reaches(Initial([]), CrashedRollback()) && AlwaysStatus(CrashedRollback(), ROLLING_BACK)
  {
    ReachesCrashedRollback();
    CrashedStatusIsFinalIff(CrashedRollback(), CrashedRollback().disk.value);
  }

  lemma NotAlways(s: System, s1: System, status: Status)
    requires Reaches(s, s1) && Visible(s1).Some? && Visible(s1).value.status != status
    ensures !AlwaysStatus(s, status)
  {
    var steps :| Run(s, steps) == Some(s1);
    assert Run(s, steps).Some?;
  }

  // ---------------------------------------------------------------- revocations

  /** `b` is `a`, possibly without directives. */
  predicate Weaker(a: License, b: License)
  {
    && b.kind == a.kind
    && (b.revokeCurrent.Some? ==> b.revokeCurrent == a.revokeCurrent)
    && (b.revokeFrom.Some? ==> b.revokeFrom == a.revokeFrom)
  }

  lemma AssignedWeaker(a: License, b: License, above: License, weaker: License)
    requires Weaker(a, b) && (above == weaker || (a == b == NO_LICENSE && Weaker(above, weaker)))
    ensures Weaker(Assigned(a, above), Assigned(b, weaker))
  {
  }

  lemma {:induction false} MergedStripped(licenses: seq<License>)
    ensures Weaker(Merged(licenses), Merged(Stripped(licenses)))
  {
    if licenses != [] {
      var n := |licenses| - 1;
      MergedStripped(licenses[..n]);
      if n > 0 {
        assert Stripped(licenses)[..n] == Stripped(licenses[..n]);
        assert Stripped(licenses)[n] == licenses[n];
      } else {
        assert licenses[..0] == [] && Stripped(licenses)[..0] == [];
      }
      AssignedWeaker(Merged(licenses[..n]), Merged(Stripped(licenses)[..n]), licenses[n], Stripped(licenses)[n]);
      hide Assigned, Weaker;
    }
  }

  lemma StrippedTwice(licenses: seq<License>)
    ensures Stripped(Stripped(licenses)) == Stripped(licenses)
  {
  }

  predicate BeforeRevocation(stage: Stage)
  {
    stage.Added? || stage.Starting? || stage.Initializing? || stage.Reading? || stage == Processing(false)
    || stage.Revoking?
  }

  predicate From(t: Task, licenses: seq<License>)
  {
    t.licenses == licenses || t.licenses == Stripped(licenses)
  }

  /** A revocation can only still come if none has been requested, or the declaration does not ask for it any more. */
  predicate AtMostOnce(s: System, licenses: seq<License>)
  {
    && s.revokes <= 1
    && (s.disk.Some? ==> From(s.disk.value, licenses))
    && (s.worker.Up? ==>
          && From(s.worker.task, licenses)
          && (BeforeRevocation(s.worker.stage) ==> s.revokes == 0 || !Asks(s.worker.task.licenses))
          && (s.worker.stage.Revoking? ==> Asks(s.worker.task.licenses)))
  }

  lemma BeginningAtMostOnce(s: System, t: Task, stage: Stage, step: Step, licenses: seq<License>)
    requires AtMostOnce(s, licenses) && s.worker == Up(t, stage)
    ensures Beginning(s, t, stage, step).Some? ==> AtMostOnce(Beginning(s, t, stage, step).value, licenses)
  {
    hide Asks, Merged, Stripped;
  }

  lemma LicensingAtMostOnce(s: System, t: Task, stage: Stage, step: Step, licenses: seq<License>)
    requires AtMostOnce(s, licenses) && s.worker == Up(t, stage)
    ensures Licensing(s, t, stage, step).Some? ==> AtMostOnce(Licensing(s, t, stage, step).value, licenses)
  {
    hide Asks, Merged, Stripped;
  }

  lemma OnboardingAtMostOnce(s: System, t: Task, stage: Stage, step: Step, licenses: seq<License>)
    requires AtMostOnce(s, licenses) && s.worker == Up(t, stage)
    ensures Onboarding(s, t, stage, step).Some? ==> AtMostOnce(Onboarding(s, t, stage, step).value, licenses)
  {
    hide Asks, Merged, Stripped;
  }

  lemma RecoveringAtMostOnce(s: System, t: Task, stage: Stage, step: Step, licenses: seq<License>)
    requires AtMostOnce(s, licenses) && s.worker == Up(t, stage)
    ensures Recovering(s, t, stage, step).Some? ==> AtMostOnce(Recovering(s, t, stage, step).value, licenses)
  {
    hide Asks, Merged, Stripped;
  }

  lemma EndingAtMostOnce(s: System, t: Task, stage: Stage, step: Step, licenses: seq<License>)
    requires AtMostOnce(s, licenses) && s.worker == Up(t, stage)
    ensures Ending(s, t, stage, step).Some? ==> AtMostOnce(Ending(s, t, stage, step).value, licenses)
  {
    hide Asks, Merged, Stripped;
  }

  lemma StepKeepsAtMostOnce(s: System, step: Step, licenses: seq<License>)
    requires AtMostOnce(s, licenses) && !Asks(Stripped(licenses)) && Next(s, step).Some?
    ensures AtMostOnce(Next(s, step).value, licenses)
  {
    hide Asks, Merged, Stripped, Beginning, Licensing, Onboarding, Recovering, Ending;
    if s.worker.Up? {
      var t, stage := s.worker.task, s.worker.stage;
      BeginningAtMostOnce(s, t, stage, step, licenses);
      LicensingAtMostOnce(s, t, stage, step, licenses);
      OnboardingAtMostOnce(s, t, stage, step, licenses);
      RecoveringAtMostOnce(s, t, stage, step, licenses);
      EndingAtMostOnce(s, t, stage, step, licenses);
    } else {
      StrippedTwice(licenses);
    }
  }

  lemma {:induction false} RunKeepsAtMostOnce(s: System, steps: seq<Step>, licenses: seq<License>)
    requires AtMostOnce(s, licenses) && !Asks(Stripped(licenses)) && Run(s, steps).Some?
    ensures AtMostOnce(Run(s, steps).value, licenses)
  {
    if steps != [] {
      RunKeepsAtMostOnce(s, steps[..|steps| - 1], licenses);
      StepKeepsAtMostOnce(Run(s, steps[..|steps| - 1]).value, steps[|steps| - 1], licenses);
    }
  }

  ghost predicate NeverRevokesTwice(licenses: seq<License>)
  {
    forall steps :: Run(Initial(licenses), steps).Some? ==> Run(Initial(licenses), steps).value.revokes <= 1
  }

  /**
   * A task requests at most one revocation over all its crashes and resumptions exactly when its declaration no
   * longer asks for one once the first License object has lost its directives.
   */
  lemma RevokesOnceIff(licenses: seq<License>)
    ensures NeverRevokesTwice(licenses) <==> !Asks(Stripped(licenses))
  {
    var s := Initial(licenses);
    if !Asks(Stripped(licenses)) {
      forall steps | Run(s, steps).Some? ensures Run(s, steps).value.revokes <= 1 {
        RunKeepsAtMostOnce(s, steps, licenses);
      }
    } else {
      var twice := ReachesTwice(licenses);
      var steps :| Run(s, steps) == Some(twice);
      assert Run(s, steps).Some?;
    }
  }

  /** A revocation, a crash, and the same again. */
  lemma ReachesTwice(licenses: seq<License>) returns (twice: System)
    requires Asks(Stripped(licenses))
    ensures Reaches(Initial(licenses), twice) && twice.revokes == 2
  {
    hide Beginning, Onboarding, Recovering, Ending, Started, Reaches, Stripped, Merged;
    var s := Initial(licenses);
    MergedStripped(licenses);
    ReachesProcessing(licenses);
    var s1 := Go(s, FirstProcessing(licenses), PrepareRevoke);
    var s2 := Go(s, s1, Revoke(true));
    ReachesResumed(s, s2, licenses);
    var s3 := Go(s, SecondProcessing(licenses, 1), PrepareRevoke);
    twice := Go(s, s3, Revoke(true));
  }

  /** Two License objects that both ask: the second one does so again after every restart. */
  lemma SecondLicenseRevokesTwice()
    ensures !NeverRevokesTwice([License(Some(RegKey), Some(true), None), License(Some(RegKey), Some(true), None)])
  {
    var asking := License(Some(RegKey), Some(true), None);
    var quiet := License(Some(RegKey), None, None);
    assert Stripped([asking, asking]) == [quiet, asking];
    assert [quiet, asking][..1] == [quiet] && [quiet][..0] == [];
    assert Merged([quiet]) == Assigned(Merged([]), quiet);
    assert Merged([quiet, asking]) == Assigned(Merged([quiet]), asking);
    RevokesOnceIff([asking, asking]);
  }

  /** In particular for a declaration with a single License object. */
  lemma SingleLicenseRevokesOnce(licenses: seq<License>)
    requires |licenses| <= 1
    ensures NeverRevokesTwice(licenses)
  {
    RevokesOnceIff(licenses);
    if licenses != [] {
      var only := licenses[0].(revokeCurrent := None, revokeFrom := None);
      assert Stripped(licenses) == [only];
      assert [only][..0] == [];
      assert Merged([only]) == Assigned(Merged([]), only);
    }
  }
}
