/**
 * restWorker.js: onboard, setPostOnboardStatus and handleStartupState as the methods they are, each proved to be a run
 * of the task's life cycle. The arguments are the outcomes of the calls a method awaits.
 */
module RestWorker {
  import opened Prelude
  import opened TaskLifecycle

  datatype Revocation = Same | Unreachable | Announced

  datatype Outcome = Resolves(rebootRequired: bool, deviceSaved: bool) | Rejects(code: nat) | Reboots

  class RestWorker {
    var system: System

    constructor (licenses: seq<License>)
      ensures system == Initial(licenses)
    {
      system := Initial(licenses);
    }

    ghost predicate At(stage: Stage)
      reads this
    {
      system.worker.Up? && system.worker.stage == stage
    }

    ghost predicate RollsBack(canProcess: bool, code: nat)
      reads this
    {
      At(RollingBack(canProcess, code)) && system.worker.task.status == ROLLING_BACK
    }

    /** A reboot in the middle: the wish for it and what is to be resumed are saved. */
    ghost predicate RebootsFirst()
      reads this
    {
      && At(AwaitingReboot) && system.disk == Some(system.worker.task)
      && system.worker.task.rebootRequired && system.worker.task.status == REBOOTING_AND_RESUMING
    }

    method Take(step: Step, ghost start: System)
      requires Reaches(start, system) && Next(system, step).Some?
      modifies this
      ensures Some(system) == Next(old(system), step) && Reaches(start, system)
    {
      ghost var next := Go(start, system, step);
      system := Next(system, step).value;
    }

    /** The licence step of the system handler. */
    method License(revocation: Revocation, ghost start: System)
      requires Reaches(start, system) && At(Processing(false))
      modifies this
      ensures Reaches(start, system) && At(Processing(true)) && system.processed == old(system).processed
      ensures system.revokes == old(system).revokes
        + if Asks(old(system).worker.task.licenses) && !revocation.Same? then 1 else 0
      ensures system.worker.task.status == old(system).worker.task.status || system.worker.task.status == REVOKING
    {
      hide Reaches;
      if Asks(system.worker.task.licenses) {
        match revocation {
          case Same => Take(SkipRevoke, start);
          case Unreachable => Take(Revoke(false), start);
          case Announced =>
            Take(PrepareRevoke, start);
            Take(Revoke(true), start);
        }
      } else {
        Take(KeepLicense, start);
      }
    }

    /** The catch clauses of onboard: they end in ERROR whatever happens. */
    method RollBack(rollingBackSaved: bool, rolledBack: bool, saved: bool, ghost start: System)
      requires Reaches(start, system) && system.worker.Up? && system.worker.stage.RollingBack?
      modifies this
      ensures Reaches(start, system) && At(Finishing) && system.worker.task.status == ERROR
      ensures system.revokes == old(system).revokes
      ensures var stage := old(system).worker.stage;
        system.worker.task.code ==
          if !(stage.canProcess && rollingBackSaved && rolledBack && saved) || stage.code == 0 then 500
          else if stage.code == 400 then 422 else stage.code
      ensures var before := old(system);
        system.disk == if !rollingBackSaved then before.disk
                       else if rolledBack && before.worker.stage.canProcess && saved then Some(system.worker.task)
                       else Some(before.worker.task)
    {
      hide Beginning, Onboarding, Licensing, Ending, Started, Reaches;
      var canProcess := system.worker.stage.canProcess;
      Take(SaveRollingBack(rollingBackSaved), start);
      if rollingBackSaved {
        Take(Rollback(rolledBack), start);
        if rolledBack && canProcess {
          Take(SaveRolledBack(saved), start);
        }
      }
    }

    /** What becomes of DeclarationHandler.process after the licence step, and of saving the device's configuration. */
    method Process(outcome: Outcome, ghost start: System)
      requires Reaches(start, system) && At(Processing(true))
      modifies this
      ensures Reaches(start, system) && system.worker.Up? && system.revokes == old(system).revokes
      ensures match outcome
        case Reboots => RebootsFirst()
        case Resolves(rebootRequired, true) =>
          && At(Finishing) && system.processed && system.worker.task.status == old(system).worker.task.status
          && system.worker.task.rebootRequired == rebootRequired
        case Resolves(_, false) => RollsBack(true, 0)
        case Rejects(code) => RollsBack(true, code)
    {
      hide Beginning, Licensing, Recovering, Ending, Started, Reaches;
      match outcome {
        case Reboots =>
          Take(RebootNow, start);
        case Resolves(rebootRequired, deviceSaved) =>
          Take(Resolve(rebootRequired), start);
          if deviceSaved { Take(SaveDevice, start); } else { Take(Reject(0), start); }
        case Rejects(code) =>
          Take(Reject(code), start);
      }
    }

    /** From the current configuration to the end of process; on failure the catch clause is next. */
    method Try(read: bool, code: nat, revocation: Revocation, outcome: Outcome, ghost start: System)
      requires Reaches(start, system) && At(Reading) && Sound(system)
      modifies this
      ensures Reaches(start, system) && system.worker.Up?
      ensures if !read then RollsBack(false, code) else match outcome
        case Reboots => RebootsFirst()
        case Resolves(rebootRequired, true) =>
          && At(Finishing) && system.processed && system.worker.task.status != ERROR
          && system.worker.task.rebootRequired == rebootRequired
        case Resolves(_, false) => RollsBack(true, 0)
        case Rejects(failure) => RollsBack(true, failure)
      ensures old(system).revokes <= system.revokes <= old(system).revokes + 1
    {
      hide Asks;
      if read {
        Take(Read(true, 0), start);
        License(revocation, start);
        Process(outcome, start);
      } else {
        Take(Read(false, code), start);
      }
    }

    /**
     * onboard never rejects: unless it is cut short by a reboot, it ends with process resolved or with ERROR, and it
     * requests at most one revocation. After a rollback the error has the code of the rejection, with 422 for 400 and
     * 500 for none; when the rollback fails it has 500.
     */
    method Onboard(read: bool, code: nat, revocation: Revocation, outcome: Outcome,
                   rollingBackSaved: bool, rolledBack: bool, saved: bool)
      requires Sound(system) && At(Reading)
      modifies this
      ensures Reaches(old(system), system)
      ensures if read && outcome.Reboots? then RebootsFirst() else At(Finishing)
      ensures At(Finishing) ==>
        (system.worker.task.status == ERROR <==> !(read && outcome.Resolves? && outcome.deviceSaved))
      ensures At(Finishing) && system.worker.task.status != ERROR ==>
        system.processed && outcome.Resolves? && system.worker.task.rebootRequired == outcome.rebootRequired
      ensures At(Finishing) && system.worker.task.status == ERROR ==>
        system.worker.task.code
        == (if !(read && rollingBackSaved && rolledBack && saved) || !outcome.Rejects? || outcome.code == 0 then 500
            else if outcome.code == 400 then 422 else outcome.code)
      ensures At(Finishing) && system.worker.task.status == ERROR && rollingBackSaved ==>
        system.disk.Some? && (system.disk.value.status == ROLLING_BACK || system.disk == Some(system.worker.task))
      ensures old(system).revokes <= system.revokes <= old(system).revokes + 1
    {
      hide Reaches, Sound, Next, Run;
      ghost var start := system;
      ReachesSelf(system);
      Try(read, code, revocation, outcome, start);
      if system.worker.stage.RollingBack? {
        RollBack(rollingBackSaved, rolledBack, saved, start);
      }
    }

    /** The status reported: ERROR stays, otherwise it says whether a reboot is required; in the end it is saved. */
    method SetPostOnboardStatus(prompt: bool)
      requires At(Finishing)
      modifies this
      ensures Reaches(old(system), system) && At(Answering(true))
      ensures system.disk == Some(system.worker.task)
      ensures var before, after := old(system).worker.task, system.worker.task;
        after.status ==
          if before.status == ERROR then ERROR else if before.rebootRequired || prompt then REBOOTING else OK
      ensures var before, after := old(system).worker.task, system.worker.task;
        after.code == if before.status == ERROR then before.code
                      else if before.rebootRequired || prompt then 202 else 200
    {
      hide Beginning, Licensing, Onboarding, Recovering, Started, Reaches;
      ghost var start := system;
      ReachesSelf(system);
      Take(Finish, start);
      Take(Report, start);
      if system.worker.stage == Deciding {
        Take(Decide(prompt), start);
        Take(Close, start);
      }
    }

    /**
     * The two in sequence: what is reported and saved is REBOOTING with 202 exactly when process resolved and it or the
     * prompt asks for a reboot, OK with 200 when process resolved and neither does, and ERROR when it did not resolve.
     */
    method OnboardAndReport(read: bool, code: nat, revocation: Revocation, outcome: Outcome, rollingBackSaved: bool,
                            rolledBack: bool, saved: bool, prompt: bool)
      requires Sound(system) && At(Reading)
      modifies this
      ensures if read && outcome.Reboots? then RebootsFirst() else At(Answering(true))
      ensures !At(AwaitingReboot) ==> At(Answering(true)) && system.disk == Some(system.worker.task)
      ensures !At(AwaitingReboot) ==>
        var resolved := read && outcome.Resolves? && outcome.deviceSaved;
        var reboot := resolved && (outcome.rebootRequired || prompt);
        && (system.worker.task.status == REBOOTING <==> reboot)
        && (system.worker.task.status == OK <==> resolved && !reboot)
        && (system.worker.task.status == ERROR <==> !resolved)
        && (reboot ==> system.worker.task.code == 202)
        && (resolved && !reboot ==> system.worker.task.code == 200)
        && (!resolved ==>
              system.worker.task.code
              == (if !(read && rollingBackSaved && rolledBack && saved) || !outcome.Rejects? || outcome.code == 0
                  then 500 else if outcome.code == 400 then 422 else outcome.code))
    {
      hide Reaches, Sound, Next, Run;
      Onboard(read, code, revocation, outcome, rollingBackSaved, rolledBack, saved);
      if system.worker.stage == Finishing {
        SetPostOnboardStatus(prompt);
      }
    }

    /** A start of the worker: whatever it resumes, it resumes without the first licence's directives. */
    method HandleStartupState(early: bool)
      requires system.worker.Down? && system.disk.Some?
      modifies this
      ensures Reaches(old(system), system) && system.worker.Up?
      ensures var t := old(system).disk.value;
        if Resumable(t) && t.status != REBOOTING then
          At(Initializing) && system.worker.task == UpdateResult(t, 202, RUNNING).(licenses := Stripped(t.licenses))
        else
          At(Done) && system.worker.task == if Resumable(t) then UpdateResult(t, 200, OK) else t
    {
      hide Beginning, Licensing, Onboarding, Recovering, Reaches, Stripped;
      ghost var start := system;
      ReachesSelf(system);
      Take(Restart(early), start);
      if system.worker.stage == Rebooted {
        Take(Close, start);
      }
    }
  }
}
