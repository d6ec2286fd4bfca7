/**
What single steps and runs of a registration do, case by case, and what follows for the requests of
the production proof (see Registration).
*/
module RegistrationSteps {
  import opened Registration
  import opened RegistrationResume

  // ------------------------------------------------------------------------------------------
  // Steps r, R and a.

  /**
  From process p, a step has sent tx. The file records it exactly if the transaction was confirmed
  and the process lived to save it and did; the process goes on exactly if it was confirmed and the
  process died neither before nor after saving.
  */
  predicate StepTaken(p: Process, q: Process, plan: StepPlan, tx: Tx, recorded: Progress)
    requires p.Going?
  {
    && q.world.log == p.world.log + [tx]
    && q.world.registered == (p.world.registered || tx.kind.PreRegister?)
    && q.world.production == p.world.production && q.world.polls == p.world.polls
    && q.world.file == (if plan.submission.Landed? && !plan.diesUnsaved && !plan.saveFails then Saved(recorded) else p.world.file)
    && (q.Going? <==> plan.submission.Landed? && !plan.diesUnsaved && !plan.diesSaved)
    && (q.Going? ==> q.mem == recorded)
  }

  /** Step r: skipped if not asked for or recorded; without effect if reverted; else sent once, as a fresh attestation exactly if the machine was found. */
  lemma PreRegisterOutcome(command: string, plan: StepPlan, p: Process)
    requires p.Going?
    ensures var (q, id) := (PreRegisterStep(command, plan, p), |p.world.log| + 1);
            if 'r' !in command then q == p
            else if 'r' in p.mem.steps then q == p.(attestId := p.mem.attestId)
            else if plan.submission.Reverted? then q == Stopped(p.world)
            else
              && StepTaken(p, q, plan, Tx('r', if p.world.registered && !plan.lookupFails then RequestAttestation else PreRegister, 0, id),
                           Progress(p.mem.steps + "r", id, p.mem.instructionId))
              && (q.Going? ==> q.attestId == id && q.instructionId == p.instructionId)
  {
  }

  /** Step R likewise. */
  lemma AttestOutcome(command: string, plan: StepPlan, p: Process)
    requires p.Going?
    ensures var (q, id) := (AttestStep(command, plan, p), |p.world.log| + 1);
            if 'R' !in command then q == p
            else if 'R' in p.mem.steps then q == p.(attestId := p.mem.attestId)
            else if plan.submission.Reverted? then q == Stopped(p.world)
            else
              && StepTaken(p, q, plan, Tx('R', RequestAttestation, 0, id), Progress(p.mem.steps + "R", id, p.mem.instructionId))
              && (q.Going? ==> q.attestId == id && q.instructionId == p.instructionId)
  {
  }

  /** Step a: in addition a failed pre-flight check stops the run before anything is sent. */
  lemma CheckOutcome(command: string, given: Hash, plan: StepPlan, p: Process)
    requires p.Going?
    ensures var (q, id) := (CheckStep(command, given, plan, p), |p.world.log| + 1);
            if 'a' !in command then q == p.(instructionId := given)
            else if 'a' in p.mem.steps then q == p.(instructionId := p.mem.instructionId)
            else if plan.preflightFails || plan.submission.Reverted? then q == Stopped(p.world)
            else
              && StepTaken(p, q, plan, Tx('a', CheckAvailability, p.attestId, id), Progress(p.mem.steps + "a", p.mem.attestId, id))
              && (q.Going? ==> q.attestId == p.attestId && q.instructionId == id)
  {
  }

  /** The first three steps request no proof and send nothing into production. */
  ghost predicate NothingProduced(w: World, v: World) {
    && v.polls == w.polls && w.log <= v.log
    && forall n :: |w.log| <= n < |v.log| ==> !v.log[n].kind.GoToProduction?
  }

  lemma StepsProduceNothing(command: string, given: Hash, plan: StepPlan, p: Process)
    ensures NothingProduced(p.world, PreRegisterStep(command, plan, p).world)
    ensures NothingProduced(p.world, AttestStep(command, plan, p).world)
    ensures NothingProduced(p.world, CheckStep(command, given, plan, p).world)
  {
    if p.Going? {
      PreRegisterOutcome(command, plan, p);
      AttestOutcome(command, plan, p);
      CheckOutcome(command, given, plan, p);
    }
  }

  lemma ThreeStepsProduceNothing(command: string, given: Hash, plan: RunPlan, w: World)
    requires !w.file.Corrupt?
    ensures NothingProduced(w, ThreeSteps(command, given, plan, w).world)
  {
    var p1 := PreRegisterStep(command, plan.preRegister, Load(w));
    var p2 := AttestStep(command, plan.attest, p1);
    StepsProduceNothing(command, given, plan.preRegister, Load(w));
    StepsProduceNothing(command, given, plan.attest, p1);
    StepsProduceNothing(command, given, plan.check, p2);
  }

  // ------------------------------------------------------------------------------------------
  // Step p, and whole runs.

  /** The transaction of step p takes effect: the proof came, the machine was not seen in production, the chain accepted. */
  predicate Produces(plan: ProductionPlan, w: World) {
    !plan.pollFails && (plan.statusUnread || !w.production) && !plan.submission.Reverted?
  }

  /** Step p: one request of the proof, then at most one transaction, with the id that was polled. */
  lemma ProduceOutcome(command: string, plan: ProductionPlan, p: Process)
    requires p.Going?
    ensures var q := ProduceStep(command, plan, p);
            if 'p' !in command then q == p
            else
              && q.world.polls == p.world.polls + [Poll(p.instructionId, |p.world.log|)]
              && q.world.log == p.world.log +
                   (if Produces(plan, p.world) then [Tx('p', GoToProduction, p.instructionId, |p.world.log| + 1)] else [])
              && q.world.file == p.world.file && q.world.registered == p.world.registered
              && q.world.production == (p.world.production || Produces(plan, p.world))
              && (q.Going? <==> !plan.pollFails && (plan.submission.Landed? || (!plan.statusUnread && p.world.production)))
  {
  }

  /** A run requests the proof exactly once if it gets to step p, with the id that is current there, and never otherwise. */
  lemma RunPolls(command: string, given: Hash, plan: RunPlan, w: World)
    requires GoodWorld(command, given, w)
    ensures var (p, e) := (ThreeSteps(command, given, plan, w), RunOnce(command, given, plan, w));
            && e.world.polls == w.polls +
                 (if p.Going? && 'p' in command then
                    [Poll(if 'a' in command then LastCheck(p.world.log) else given, |p.world.log|)]
                  else [])
            && (e.completed ==> p.Going?)
            && (e.completed && 'p' in command ==> |e.world.polls| == |w.polls| + 1)
            && (e.completed && !plan.removeFails ==> e.world.file == Missing)
  {
    var p := ThreeSteps(command, given, plan, w);
    ThreeStepsKeep(command, given, plan, w);
    ThreeStepsProduceNothing(command, given, plan, w);
    if p.Going? {
      ProduceOutcome(command, plan.produce, p);
    }
  }

  /** A progress file that does not parse ends a run before it does anything. */
  lemma CorruptFileStops(command: string, given: Hash, plan: RunPlan, w: World)
    requires w.file.Corrupt?
    ensures RunOnce(command, given, plan, w) == Ended(w, false)
  {
  }

  // ------------------------------------------------------------------------------------------
  // Sessions.

  /** Every entry into production came with a request of the proof made right before it, for the same id. */
  ghost predicate ProductionPolled(w: World) {
    forall n :: 0 <= n < |w.log| && w.log[n].kind.GoToProduction? ==> Poll(w.log[n].arg, n) in w.polls
  }

  lemma RunKeepsPolled(command: string, given: Hash, plan: RunPlan, w: World)
    requires ProductionPolled(w)
    ensures ProductionPolled(RunOnce(command, given, plan, w).world)
  {
    if !w.file.Corrupt? {
      var p := ThreeSteps(command, given, plan, w);
      ThreeStepsProduceNothing(command, given, plan, w);
      assert forall n :: 0 <= n < |w.log| ==> p.world.log[n] == w.log[n];
      assert ProductionPolled(p.world);
      if p.Going? {
        ProduceOutcome(command, plan.produce, p);
      }
    }
  }

  /** The runs of a session that got to step p. */
  function RunsPolling(command: string, given: Hash, plans: seq<RunPlan>, w: World): nat {
    if plans == [] then 0
    else
      var s := Session(command, given, plans[..|plans| - 1], w);
      RunsPolling(command, given, plans[..|plans| - 1], w) +
      One(!s.completed && !s.world.file.Corrupt? && 'p' in command && ThreeSteps(command, given, plans[|plans| - 1], s.world).Going?)
  }

  /**
  Over any session: nothing enters production without a request of the proof of the same
  instruction right before; and there are as many requests as runs that got that far.
  */
  lemma {:induction false} SessionPolls(command: string, given: Hash, plans: seq<RunPlan>, w: World)
    requires FreshWorld(w)
    ensures var s := Session(command, given, plans, w);
            ProductionPolled(s.world) && |s.world.polls| == RunsPolling(command, given, plans, w)
    decreases |plans|
  {
    if plans != [] {
      var before := plans[..|plans| - 1];
      var s := Session(command, given, before, w);
      SessionPolls(command, given, before, w);
      SessionFresh(command, given, before, w);
      if !s.completed {
        RunKeepsPolled(command, given, plans[|plans| - 1], s.world);
        RunPolls(command, given, plans[|plans| - 1], s.world);
      }
    }
  }

  /** The id under which a completed session fetched the proof is that of its last availability check, or the given one. */
  lemma {:induction false} CompletedSessionPolls(command: string, given: Hash, plans: seq<RunPlan>, w: World)
    requires FreshWorld(w) && 'p' in command
    requires Session(command, given, plans, w).completed
    ensures var v := Session(command, given, plans, w).world;
            && v.polls != []
            && v.polls[|v.polls| - 1].id == if 'a' in command then LastCheck(v.log) else given
    decreases |plans|
  {
    var before := plans[..|plans| - 1];
    var s := Session(command, given, before, w);
    if s.completed {
      CompletedSessionPolls(command, given, before, w);
    } else {
      SessionFresh(command, given, before, w);
      RunPolls(command, given, plans[|plans| - 1], s.world);
      var p := ThreeSteps(command, given, plans[|plans| - 1], s.world);
      ProduceOutcome(command, plans[|plans| - 1].produce, p);
      var v := Session(command, given, plans, w).world;
      assert |v.log| > |p.world.log| ==> v.log[..|v.log| - 1] == p.world.log;
    }
  }

  /** In particular a clean session, which has made the requests of its command, fetched the proof of the check among them. */
  lemma CleanSessionPolls(command: string, given: Hash, plans: seq<RunPlan>, w: World)
    requires FreshWorld(w) && 'p' in command
    requires CleanSession(command, given, plans, w) && Session(command, given, plans, w).completed
    ensures var v := Session(command, given, plans, w).world;
            && v.polls != []
            && v.polls[|v.polls| - 1].id == if 'a' in command then One('r' in command) + One('R' in command) + 1 else given
  {
    CompletedSessionPolls(command, given, plans, w);
    CompletedSessionRequests(command, given, plans, w);
    if 'a' in command {
      CheckAmongRequests(command, given, w.registered, w.production);
    }
  }

  lemma CheckAmongRequests(command: string, given: Hash, registered: bool, production: bool)
    requires 'a' in command
    ensures LastCheck(RequestsOf(command, given, registered, production)) == One('r' in command) + One('R' in command) + 1
  {
    var n := One('r' in command) + One('R' in command);
    var requests := RequestsOf(command, given, registered, production);
    assert requests[n].kind.CheckAvailability? && requests[n].id == n + 1 && n + 1 <= |requests| <= n + 2;
    assert |requests| == n + 2 ==> requests[n + 1].kind.GoToProduction?;
    assert requests[..n + 1][n] == requests[n];
    LastCheckOfTwo(requests, n);
  }

  lemma LastCheckOfTwo(log: seq<Tx>, n: nat)
    requires n + 1 <= |log| <= n + 2
    requires log[n].kind.CheckAvailability? && (|log| == n + 2 ==> !log[n + 1].kind.CheckAvailability?)
    ensures LastCheck(log) == log[n].id
  {
    if |log| == n + 2 {
      assert log[..n + 1][n] == log[n];
    }
  }
}
