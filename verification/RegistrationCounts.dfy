/**
How often the transactions of a registration are sent when saves are lost and runs die anywhere
(see Registration).
*/
module RegistrationCounts {
  import opened Registration

  /** How many transactions step x has sent. */
  function Sent(log: seq<Tx>, x: char): nat {
    |set n: nat | n < |log| && log[n].step == x|
  }

  function Count(log: seq<Tx>, kind: Kind): nat {
    |set n: nat | n < |log| && log[n].kind == kind|
  }

  predicate Recorded(w: World, x: char) {
    x in FileSteps(w)
  }

  /** The steps whose completion is recorded. */
  predicate IsRecordable(x: char) {
    x == 'r' || x == 'R' || x == 'a'
  }

  // ------------------------------------------------------------------------------------------
  // One run.

  /**
  A run that began in world w0, with respect to step x. While it goes on, x has been sent in this run exactly
  if memory says so and the file did not say so before. Where it stopped: a recorded step was not
  sent again, and a step that was not sent is not recorded.
  */
  predicate Accounted(w0: World, p: Process, x: char) {
    && (Recorded(w0, x) ==> Recorded(p.world, x))
    && match p
       case Going(mem, _, _, w) =>
         && Sent(w.log, x) == Sent(w0.log, x) + One(x in mem.steps && !Recorded(w0, x))
         && (Recorded(w, x) ==> x in mem.steps)
       case Stopped(w) =>
         if Recorded(w0, x) then Sent(w.log, x) == Sent(w0.log, x)
         else Sent(w.log, x) == Sent(w0.log, x) + 1 || (Sent(w.log, x) == Sent(w0.log, x) && !Recorded(w, x))
  }

  lemma SentGrows(log: seq<Tx>, tx: Tx, x: char)
    ensures Sent(log + [tx], x) == Sent(log, x) + One(tx.step == x)
  {
    var more := log + [tx];
    var was, now := (set n: nat | n < |log| && log[n].step == x), (set n: nat | n < |more| && more[n].step == x);
    assert was <= now;
    assert now <= was + {|log|};
    assert now == if tx.step == x then was + {|log|} else was;
  }

  lemma CountGrows(log: seq<Tx>, tx: Tx, kind: Kind)
    ensures Count(log + [tx], kind) == Count(log, kind) + One(tx.kind == kind)
  {
    var more := log + [tx];
    var was, now := (set n: nat | n < |log| && log[n].kind == kind), (set n: nat | n < |more| && more[n].kind == kind);
    assert was <= now;
    assert now <= was + {|log|};
    assert now == if tx.kind == kind then was + {|log|} else was;
  }

  lemma SendCounts(w: World, step: char, kind: Kind, arg: Hash, x: char, k: Kind)
    ensures Sent(Send(w, step, kind, arg).log, x) == Sent(w.log, x) + One(step == x)
    ensures Count(Send(w, step, kind, arg).log, k) == Count(w.log, k) + One(kind == k)
  {
    SentGrows(w.log, Tx(step, kind, arg, |w.log| + 1), x);
    CountGrows(w.log, Tx(step, kind, arg, |w.log| + 1), k);
  }

  /** Stopping where a process is accounts for what it has done. */
  lemma StopAccounted(w0: World, p: Process, x: char)
    requires Accounted(w0, p, x)
    ensures Accounted(w0, Stopped(p.world), x)
  {
  }

  /** A step not done before is sent, and then saved or not. */
  lemma SendAccounted(
    w0: World, p: Process, x: char, step: char, kind: Kind, arg: Hash, mem: Progress, attestId: Hash, instructionId: Hash, plan: StepPlan)
    requires p.Going? && Accounted(w0, p, x)
    requires step !in p.mem.steps && mem.steps == p.mem.steps + [step]
    ensures var w := Send(p.world, step, kind, arg);
            && Accounted(w0, Going(mem, attestId, instructionId, w), x)
            && Accounted(w0, Stopped(w), x)
            && Accounted(w0, Commit(mem, attestId, instructionId, w, plan), x)
  {
    var w := Send(p.world, step, kind, arg);
    SendCounts(p.world, step, kind, arg, x, kind);
    assert x in mem.steps <==> x in p.mem.steps || x == step;
    assert Recorded(w, x) == Recorded(p.world, x);
    StopAccounted(w0, Going(mem, attestId, instructionId, w), x);
    SaveAccounted(w0, mem, attestId, instructionId, w, x);
  }

  lemma SaveAccounted(w0: World, mem: Progress, attestId: Hash, instructionId: Hash, w: World, x: char)
    requires Accounted(w0, Going(mem, attestId, instructionId, w), x)
    ensures var w' := w.(file := Saved(mem));
            Accounted(w0, Going(mem, attestId, instructionId, w'), x) && Accounted(w0, Stopped(w'), x)
  {
  }

  lemma PreRegisterAccounted(command: string, plan: StepPlan, w0: World, p: Process, x: char)
    requires Accounted(w0, p, x)
    ensures Accounted(w0, PreRegisterStep(command, plan, p), x)
  {
    if p.Going? && 'r' in command && 'r' !in p.mem.steps {
      var kind := if !plan.lookupFails && p.world.registered then RequestAttestation else PreRegister;
      var id := |Send(p.world, 'r', kind, 0).log|;
      StopAccounted(w0, p, x);
      SendAccounted(w0, p, x, 'r', kind, 0, Progress(p.mem.steps + "r", id, p.mem.instructionId), id, p.instructionId, plan);
    }
  }

  lemma AttestAccounted(command: string, plan: StepPlan, w0: World, p: Process, x: char)
    requires Accounted(w0, p, x)
    ensures Accounted(w0, AttestStep(command, plan, p), x)
  {
    if p.Going? && 'R' in command && 'R' !in p.mem.steps {
      var id := |Send(p.world, 'R', RequestAttestation, 0).log|;
      StopAccounted(w0, p, x);
      SendAccounted(w0, p, x, 'R', RequestAttestation, 0, Progress(p.mem.steps + "R", id, p.mem.instructionId), id, p.instructionId, plan);
    }
  }

  lemma CheckAccounted(command: string, given: Hash, plan: StepPlan, w0: World, p: Process, x: char)
    requires Accounted(w0, p, x)
    ensures Accounted(w0, CheckStep(command, given, plan, p), x)
  {
    if p.Going? && 'a' in command && 'a' !in p.mem.steps {
      var id := |Send(p.world, 'a', CheckAvailability, p.attestId).log|;
      StopAccounted(w0, p, x);
      SendAccounted(w0, p, x, 'a', CheckAvailability, p.attestId, Progress(p.mem.steps + "a", p.mem.attestId, id), p.attestId, id, plan);
    }
  }

  lemma ProduceAccounted(command: string, plan: ProductionPlan, w0: World, p: Process, x: char)
    requires Accounted(w0, p, x) && IsRecordable(x)
    ensures Accounted(w0, ProduceStep(command, plan, p), x)
  {
    if p.Going? {
      var w := p.world.(polls := p.world.polls + [Poll(p.instructionId, |p.world.log|)]);
      SendCounts(w, 'p', GoToProduction, p.instructionId, x, GoToProduction);
    }
  }

  lemma ThreeStepsAccounted(command: string, given: Hash, plan: RunPlan, w: World, x: char)
    requires GoodWorld(command, given, w) && IsRecordable(x)
    ensures Accounted(w, ThreeSteps(command, given, plan, w), x)
  {
    var p0 := Load(w);
    var p1 := PreRegisterStep(command, plan.preRegister, p0);
    var p2 := AttestStep(command, plan.attest, p1);
    PreRegisterAccounted(command, plan.preRegister, w, p0, x);
    AttestAccounted(command, plan.attest, w, p1, x);
    CheckAccounted(command, given, plan.check, w, p2, x);
  }

  /** A process past its first three steps remembers exactly the recordable steps of the command. */
  lemma AllRemembered(command: string, given: Hash, p: Process, x: char)
    requires GoodProcess(command, given, p, 3) && IsRecordable(x) && p.Going?
    ensures x in p.mem.steps <==> x in command
  {
    OrderFacts(command, p.mem.steps);
  }

  /** What a run has sent for step x by its end, given whether the file recorded x before it. */
  predicate SentOnce(command: string, w: World, e: Ended, x: char) {
    var sent := Sent(e.world.log, x) - Sent(w.log, x);
    && (e.completed ==> sent == One(x in command && !Recorded(w, x)))
    && (!e.completed && Recorded(w, x) ==> sent == 0 && Recorded(e.world, x))
    && (!e.completed && !Recorded(w, x) ==> sent == 1 || (sent == 0 && !Recorded(e.world, x)))
  }

  lemma EndAccounted(command: string, given: Hash, plan: ProductionPlan, w: World, p: Process, x: char, file: File)
    requires Accounted(w, p, x) && GoodProcess(command, given, p, 3) && IsRecordable(x)
    ensures var end := ProduceStep(command, plan, p);
            SentOnce(command, w, if end.Stopped? then Ended(end.world, false) else Ended(end.world.(file := file), true), x)
  {
    ProduceAccounted(command, plan, w, p, x);
    if p.Going? {
      AllRemembered(command, given, p, x);
    }
  }

  lemma RunAccounted(command: string, given: Hash, plan: RunPlan, w: World, x: char)
    requires GoodWorld(command, given, w) && IsRecordable(x)
    ensures SentOnce(command, w, RunOnce(command, given, plan, w), x)
  {
    var p := ThreeSteps(command, given, plan, w);
    ThreeStepsKeep(command, given, plan, w);
    ThreeStepsAccounted(command, given, plan, w, x);
    EndAccounted(command, given, plan.produce, w, p, x, if plan.removeFails then ProduceStep(command, plan.produce, p).world.file else Missing);
  }

  // ------------------------------------------------------------------------------------------
  // Sessions.

  /** The runs of a session that stopped after sending step x and left a file that does not record it. */
  function Unrecorded(command: string, given: Hash, plans: seq<RunPlan>, w: World, x: char): nat {
    if plans == [] then 0
    else
      var before := Session(command, given, plans[..|plans| - 1], w);
      var after := Session(command, given, plans, w);
      Unrecorded(command, given, plans[..|plans| - 1], w, x) +
      One(!before.completed && !after.completed && Sent(after.world.log, x) > Sent(before.world.log, x) && !Recorded(after.world, x))
  }

  /**
  Bounded repetition, exactly: over any session, each of r, R and a has been sent once for every run
  that stopped after sending it without recording it, and once more if it is recorded, or if the
  session completed and the command asks for it.
  */
  lemma {:induction false} RepeatsAreUnrecorded(command: string, given: Hash, plans: seq<RunPlan>, w: World, x: char)
    requires FreshWorld(w) && IsRecordable(x)
    ensures var s := Session(command, given, plans, w);
            Sent(s.world.log, x) == Unrecorded(command, given, plans, w, x) +
                                    One(if s.completed then x in command else Recorded(s.world, x))
    decreases |plans|
  {
    if plans != [] {
      var before := plans[..|plans| - 1];
      RepeatsAreUnrecorded(command, given, before, w, x);
      SessionFresh(command, given, before, w);
      var s := Session(command, given, before, w);
      if !s.completed {
        RunAccounted(command, given, plans[|plans| - 1], s.world, x);
        if s.world.file.Saved? {
          OrderFacts(command, s.world.file.progress.steps);
        }
      }
    }
  }

  // ------------------------------------------------------------------------------------------
  // Pre-registration and production happen at most once, and again only after a failed read.

  /**
  The chain's two flags are what the log says happened, beyond what held at the start: once, and
  `lookups` further pre-registrations and `statuses` further entries into production.
  */
  predicate FlagsMatch(w0: World, w: World, lookups: nat, statuses: nat) {
    && Count(w.log, PreRegister) == One(w.registered && !w0.registered) + lookups
    && Count(w.log, GoToProduction) == One(w.production && !w0.production) + statuses
    && (w0.registered ==> w.registered) && (w0.production ==> w.production)
  }

  lemma SendMatches(w0: World, w: World, step: char, kind: Kind, arg: Hash, lookups: nat, statuses: nat)
    requires FlagsMatch(w0, w, lookups, statuses)
    ensures FlagsMatch(w0, Send(w, step, kind, arg),
                       lookups + One(kind.PreRegister? && w.registered), statuses + One(kind.GoToProduction? && w.production))
  {
    SendCounts(w, step, kind, arg, step, PreRegister);
    SendCounts(w, step, kind, arg, step, GoToProduction);
  }

  /** The progress file and the polls do not matter to the flags. */
  lemma FlagsMatchElsewhere(w0: World, w: World, v: World, lookups: nat, statuses: nat)
    requires FlagsMatch(w0, w, lookups, statuses)
    requires v.log == w.log && v.registered == w.registered && v.production == w.production
    ensures FlagsMatch(w0, v, lookups, statuses)
  {
  }

  /** Step r is made and its transaction takes effect. */
  predicate PreRegisterSends(command: string, plan: StepPlan, p: Process) {
    p.Going? && 'r' in command && 'r' !in p.mem.steps && !plan.submission.Reverted?
  }

  lemma PreRegisterMatches(command: string, plan: StepPlan, w0: World, p: Process, lookups: nat, statuses: nat)
    requires FlagsMatch(w0, p.world, lookups, statuses)
    ensures FlagsMatch(w0, PreRegisterStep(command, plan, p).world,
                       lookups + One(PreRegisterSends(command, plan, p) && plan.lookupFails && p.world.registered), statuses)
  {
    if PreRegisterSends(command, plan, p) {
      var kind := if !plan.lookupFails && p.world.registered then RequestAttestation else PreRegister;
      SendMatches(w0, p.world, 'r', kind, 0, lookups, statuses);
      FlagsMatchElsewhere(w0, Send(p.world, 'r', kind, 0), PreRegisterStep(command, plan, p).world,
                          lookups + One(plan.lookupFails && p.world.registered), statuses);
    }
  }

  lemma AttestMatches(command: string, plan: StepPlan, w0: World, p: Process, lookups: nat, statuses: nat)
    requires FlagsMatch(w0, p.world, lookups, statuses)
    ensures FlagsMatch(w0, AttestStep(command, plan, p).world, lookups, statuses)
  {
    SendMatches(w0, p.world, 'R', RequestAttestation, 0, lookups, statuses);
    var v := AttestStep(command, plan, p).world;
    FlagsMatchElsewhere(w0, if v == p.world then p.world else Send(p.world, 'R', RequestAttestation, 0), v, lookups, statuses);
  }

  lemma CheckMatches(command: string, given: Hash, plan: StepPlan, w0: World, p: Process, lookups: nat, statuses: nat)
    requires FlagsMatch(w0, p.world, lookups, statuses)
    ensures FlagsMatch(w0, CheckStep(command, given, plan, p).world, lookups, statuses)
  {
    var arg := if p.Going? then p.attestId else 0;
    SendMatches(w0, p.world, 'a', CheckAvailability, arg, lookups, statuses);
    var v := CheckStep(command, given, plan, p).world;
    FlagsMatchElsewhere(w0, if v == p.world then p.world else Send(p.world, 'a', CheckAvailability, arg), v, lookups, statuses);
  }

  /** Step p gets its proof, and its transaction would take effect. */
  predicate ProduceSends(command: string, plan: ProductionPlan, p: Process) {
    p.Going? && 'p' in command && !plan.pollFails && !plan.submission.Reverted?
  }

  lemma ProduceMatches(command: string, plan: ProductionPlan, w0: World, p: Process, lookups: nat, statuses: nat)
    requires FlagsMatch(w0, p.world, lookups, statuses)
    ensures FlagsMatch(w0, ProduceStep(command, plan, p).world, lookups,
                       statuses + One(ProduceSends(command, plan, p) && plan.statusUnread && p.world.production))
  {
    if p.Going? {
      var w := p.world.(polls := p.world.polls + [Poll(p.instructionId, |p.world.log|)]);
      SendMatches(w0, w, 'p', GoToProduction, p.instructionId, lookups, statuses);
    }
  }

  /** The run could not find out that the machine is registered, and pre-registered it again. */
  predicate PreRegistersAgain(command: string, plan: RunPlan, w: World) {
    && !w.file.Corrupt? && w.registered
    && plan.preRegister.lookupFails && PreRegisterSends(command, plan.preRegister, Load(w))
  }

  /** The run could not find out that the machine is in production, and put it there again. */
  predicate ProducesAgain(command: string, given: Hash, plan: RunPlan, w: World) {
    && !w.file.Corrupt? && ThreeSteps(command, given, plan, w).world.production
    && plan.produce.statusUnread && ProduceSends(command, plan.produce, ThreeSteps(command, given, plan, w))
  }

  lemma RunMatches(command: string, given: Hash, plan: RunPlan, w0: World, w: World, lookups: nat, statuses: nat)
    requires FlagsMatch(w0, w, lookups, statuses)
    ensures FlagsMatch(w0, RunOnce(command, given, plan, w).world,
                       lookups + One(PreRegistersAgain(command, plan, w)), statuses + One(ProducesAgain(command, given, plan, w)))
  {
    if !w.file.Corrupt? {
      var n := lookups + One(PreRegistersAgain(command, plan, w));
      var p1 := PreRegisterStep(command, plan.preRegister, Load(w));
      var p2 := AttestStep(command, plan.attest, p1);
      PreRegisterMatches(command, plan.preRegister, w0, Load(w), lookups, statuses);
      AttestMatches(command, plan.attest, w0, p1, n, statuses);
      CheckMatches(command, given, plan.check, w0, p2, n, statuses);
      ProduceMatches(command, plan.produce, w0, CheckStep(command, given, plan.check, p2), n, statuses);
    }
  }

  /** The runs of a session, none begun after completion, that pre-registered the machine again. */
  function RunsPreRegisteringAgain(command: string, given: Hash, plans: seq<RunPlan>, w: World): nat {
    if plans == [] then 0
    else
      var s := Session(command, given, plans[..|plans| - 1], w);
      RunsPreRegisteringAgain(command, given, plans[..|plans| - 1], w) +
      One(!s.completed && PreRegistersAgain(command, plans[|plans| - 1], s.world))
  }

  /** The runs of a session that put the machine into production again. */
  function RunsProducingAgain(command: string, given: Hash, plans: seq<RunPlan>, w: World): nat {
    if plans == [] then 0
    else
      var s := Session(command, given, plans[..|plans| - 1], w);
      RunsProducingAgain(command, given, plans[..|plans| - 1], w) +
      One(!s.completed && ProducesAgain(command, given, plans[|plans| - 1], s.world))
  }

  /**
  Over a whole session the machine is pre-registered once if it has become registered, and not at
  all if it was so from the start, and once more for exactly each run that failed to read that it is
  registered and had its transaction accepted; likewise for production.
  */
  lemma {:induction false} AtMostOnceOnChain(command: string, given: Hash, plans: seq<RunPlan>, w: World)
    requires FreshWorld(w)
    ensures FlagsMatch(w, Session(command, given, plans, w).world,
                       RunsPreRegisteringAgain(command, given, plans, w), RunsProducingAgain(command, given, plans, w))
    decreases |plans|
  {
    if plans != [] {
      var before := plans[..|plans| - 1];
      AtMostOnceOnChain(command, given, before, w);
      var s := Session(command, given, before, w);
      if !s.completed {
        RunMatches(command, given, plans[|plans| - 1], w, s.world,
                   RunsPreRegisteringAgain(command, given, before, w), RunsProducingAgain(command, given, before, w));
      }
    }
  }
}
