/**
 The restore job of internal/restore/job.go, and the triggers of manager.go that check it and start it.

 Every method of the job runs under its mutex, so a run of the server is a sequence of single steps of
 any number of triggers and of the restore runs they start.
 */
module RestoreJob {

  datatype Job = Job(running: bool, done: bool, failed: bool, needsIntervention: bool)

  /** How a restore run ends: Finish, with or without an error, or FinishNeedsIntervention. */
  datatype End = Finished(failed: bool) | Intervened

  /** A trigger reads the status, a trigger starts the job, a run ends. */
  datatype Event = Check(trigger: nat) | Start(trigger: nat) | Ends(how: End)

  /** What has happened to the job. */
  datatype Entry = Started(trigger: nat) | Ended(how: End)

  /** checked are the triggers whose check has passed and that have not tried to start yet. */
  datatype Server = Server(job: Job, checked: set<nat>, log: seq<Entry>)

  /** Start: everything a previous run left is reset. */
  function Begun(job: Job): Job
  {
    if job.running then job else Job(true, false, false, false)
  }

  /** Finish leaves the intervention flag as it is; FinishNeedsIntervention sets it. */
  function Over(job: Job, how: End): Job
  {
    match how
    case Finished(failed) => Job(false, true, failed, job.needsIntervention)
    case Intervened => Job(false, true, true, true)
  }

  function After(s: Server, e: Event): Server
  {
    match e
    case Check(t) => s.(checked := if s.job.needsIntervention then s.checked - {t} else s.checked + {t})
    case Start(t) =>
      if t !in s.checked then s
      else if s.job.running then s.(checked := s.checked - {t})
      else Server(Begun(s.job), s.checked - {t}, s.log + [Started(t)])
    case Ends(how) =>
      if s.job.running then s.(job := Over(s.job, how), log := s.log + [Ended(how)]) else s
  }

  function Run(s: Server, events: seq<Event>): Server
  {
    if events == [] then s else After(Run(s, events[..|events| - 1]), events[|events| - 1])
  }

  /** A start by the trigger would go through now, and wipe out that an intervention is needed. */
  ghost predicate StartsOver(s: Server, t: nat)
  {
    t in s.checked && !s.job.running && s.job.needsIntervention
  }

  /** The job as the log since `since` tells it: the last entry says whether a run goes on and how the last one ended. */
  ghost predicate LogTells(since: Server, now: Server)
  {
    && |since.log| <= |now.log| && (now.job.running ==> !now.job.needsIntervention)
    && if |now.log| == |since.log| then now.job == since.job
       else
         && (now.job.running <==> now.log[|now.log| - 1].Started?)
         && (now.job.needsIntervention <==> now.log[|now.log| - 1] == Ended(Intervened))
         && (now.job.done <==> now.log[|now.log| - 1].Ended?)
         && (now.job.failed <==> now.log[|now.log| - 1] in {Ended(Intervened), Ended(Finished(true))})
  }

  /** Whatever other triggers and runs do in between, the log tells the job; trigger t's check stays as it was. */
  lemma {:induction false} LogTellsJob(s: Server, events: seq<Event>, t: nat)
    requires s.job.running ==> !s.job.needsIntervention
    requires forall i :: 0 <= i < |events| ==> events[i] != Check(t) && events[i] != Start(t)
    ensures LogTells(s, Run(s, events))
    ensures t in Run(s, events).checked <==> t in s.checked
  {
    if events != [] {
      LogTellsJob(s, events[..|events| - 1], t);
    }
  }

  /** Starts and ends alternate, and a run goes on while the last entry is its start. */
  ghost predicate OneAtATime(s: Server)
  {
    && (forall i :: 0 <= i < |s.log| - 1 ==> s.log[i].Started? != s.log[i + 1].Started?)
    && (s.log == [] ==> !s.job.running) && (s.log != [] ==> (s.job.running <==> s.log[|s.log| - 1].Started?))
  }

  /** However the steps of the triggers interleave, no restore is started while another one runs. */
  lemma {:induction false} NoTwoRestores(s: Server, events: seq<Event>)
    requires OneAtATime(s)
    ensures OneAtATime(Run(s, events))
  {
    if events != [] {
      NoTwoRestores(s, events[..|events| - 1]);
      assert OneAtATime(After(Run(s, events[..|events| - 1]), events[|events| - 1]));
    }
  }

  /**
   The check and the start are two steps, and anything may happen between them. A trigger starts a
   restore over a job that needs intervention exactly when its check passed and the last thing that
   happened to the job since then is that a run ended needing intervention - one that was going at the
   check, or one that some other trigger started in between.
   */
  lemma StartOverInterventionIff(s: Server, between: seq<Event>, t: nat)
    requires s.job.running ==> !s.job.needsIntervention
    requires forall i :: 0 <= i < |between| ==> between[i] != Check(t) && between[i] != Start(t)
    ensures
      var now := Run(After(s, Check(t)), between);
      StartsOver(now, t) <==>
        !s.job.needsIntervention && |now.log| > |s.log| && now.log[|now.log| - 1] == Ended(Intervened)
    ensures
      var now := Run(After(s, Check(t)), between);
      StartsOver(now, t) ==> After(now, Start(t)).job == Job(true, false, false, false)
  {
    LogTellsJob(After(s, Check(t)), between, t);
  }

  /** Such a start needs no run to be going at the check: another trigger may start one and see it fail in between. */
  lemma AnotherRunInBetween(s: Server, t: nat, other: nat)
    requires !s.job.running && !s.job.needsIntervention && t != other
    ensures StartsOver(Run(After(s, Check(t)), [Check(other), Start(other), Ends(Intervened)]), t)
  {
    var s0 := After(s, Check(t));
    var es := [Check(other), Start(other), Ends(Intervened)];
    assert es[..2] == [Check(other), Start(other)] && es[..2][..1] == [Check(other)];
    assert Run(s0, [Check(other)]) == After(Run(s0, []), Check(other));
    assert Run(s0, es[..2]) == After(Run(s0, es[..2][..1]), Start(other));
    assert Run(s0, es) == After(Run(s0, es[..2]), Ends(Intervened));
  }
}
