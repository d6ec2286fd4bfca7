/**
Resuming equals not having been interrupted (see Registration), and the registration tool as an
object whose one method is RegisterNode.
*/
module RegistrationResume {
  import opened Registration

  const PERFECT_STEP := StepPlan(false, false, Landed, false, false, false)

  /** A run in which nothing fails. */
  const PERFECT := RunPlan(PERFECT_STEP, PERFECT_STEP, PERFECT_STEP, ProductionPlan(false, false, Landed), false)

  /** A step whose progress is saved whenever its transaction takes effect; it may fail before, and the process may die after. */
  predicate CleanStep(plan: StepPlan) {
    !plan.submission.LandedUnread? && !plan.diesUnsaved && !plan.saveFails
  }

  /** A failed read of the chain makes no difference: there was nothing to be found, or the chain refuses to do a thing twice. */
  predicate HarmlessReads(plan: RunPlan, w: World) {
    && (plan.preRegister.lookupFails && w.registered ==> plan.preRegister.submission.Reverted?)
    && (plan.produce.statusUnread && w.production ==> plan.produce.submission.Reverted?)
  }

  /**
  A run on world w that stops, if it stops, at a step boundary: before any of the steps, after what
  it did is saved, or after the entry into production took effect, which is never recorded.
  */
  predicate Clean(plan: RunPlan, w: World) {
    && CleanStep(plan.preRegister) && CleanStep(plan.attest) && CleanStep(plan.check)
    && HarmlessReads(plan, w) && !plan.removeFails
  }

  /** Every run of a session is clean on the world it begins in. */
  predicate CleanSession(command: string, given: Hash, plans: seq<RunPlan>, w: World) {
    plans == [] ||
    (var s := Session(command, given, plans[..|plans| - 1], w);
     CleanSession(command, given, plans[..|plans| - 1], w) && (s.completed || Clean(plans[|plans| - 1], s.world)))
  }

  /** Worlds with the same file and the same chain. Polls for a proof leave no trace in either. */
  predicate SameOutcome(w: World, v: World) {
    w.file == v.file && w.registered == v.registered && w.production == v.production && w.log == v.log
  }

  // ------------------------------------------------------------------------------------------

  /** The file holds what memory holds, and the local attestation id is the recorded one. */
  ghost predicate Reflected(command: string, given: Hash, p: Process, stage: nat)
    requires p.Going?
  {
    && p.world.file == (if p.mem == NO_PROGRESS && p.world.file.Missing? then Missing else Saved(p.mem))
    && (stage >= 1 && 'r' in command ==> 'r' in p.mem.steps)
    && (stage >= 2 && 'R' in command ==> 'R' in p.mem.steps)
    && (stage >= 3 && 'a' in command ==> 'a' in p.mem.steps)
    && p.attestId == (if (stage >= 1 && 'r' in command) || (stage >= 2 && 'R' in command) then p.mem.attestId else 0)
    && p.instructionId == (if stage < 3 then 0 else if 'a' in command then p.mem.instructionId else given)
  }

  /** The process after the first `stage` steps of a perfect run on world w. */
  function PerfectUpTo(command: string, given: Hash, w: World, stage: nat): Process
    requires !w.file.Corrupt?
  {
    if stage == 0 then Load(w)
    else if stage == 1 then PreRegisterStep(command, PERFECT_STEP, PerfectUpTo(command, given, w, 0))
    else if stage == 2 then AttestStep(command, PERFECT_STEP, PerfectUpTo(command, given, w, 1))
    else CheckStep(command, given, PERFECT_STEP, PerfectUpTo(command, given, w, 2))
  }

  /** A new process, started on the file of one that is past `stage` steps, gets to the same point without sending anything. */
  lemma {:induction false} Reloads(command: string, given: Hash, p: Process, stage: nat)
    requires p.Going? && Reflected(command, given, p, stage) && stage <= 3
    ensures !p.world.file.Corrupt? && PerfectUpTo(command, given, p.world, stage) == p
    decreases stage
  {
    if stage > 0 {
      var earlier := Going(p.mem,
        if (stage >= 2 && 'r' in command) || (stage >= 3 && 'R' in command) then p.mem.attestId else 0, 0, p.world);
      Reloads(command, given, earlier, stage - 1);
    }
  }

  lemma {:induction false} PerfectReflects(command: string, given: Hash, w: World, stage: nat)
    requires !w.file.Corrupt? && stage <= 3
    ensures PerfectUpTo(command, given, w, stage).Going?
    ensures Reflected(command, given, PerfectUpTo(command, given, w, stage), stage)
  {
    if stage > 0 {
      PerfectReflects(command, given, w, stage - 1);
      var p := PerfectUpTo(command, given, w, stage - 1);
      assert 'r' in p.mem.steps + "r" && 'R' in p.mem.steps + "R" && 'a' in p.mem.steps + "a";
    }
  }

  /** A clean step after a perfect prefix either does what the perfect step does, or stops where the perfect step has not begun or has ended. */
  lemma CleanStepStops(command: string, given: Hash, plan: StepPlan, p: Process)
    requires p.Going? && CleanStep(plan)
    ensures var (clean, perfect) := (PreRegisterStep(command, plan, p), PreRegisterStep(command, PERFECT_STEP, p));
            (plan.lookupFails && p.world.registered ==> plan.submission.Reverted?) ==>
            clean == perfect || clean == Stopped(p.world) || clean == Stopped(perfect.world)
    ensures var (clean, perfect) := (AttestStep(command, plan, p), AttestStep(command, PERFECT_STEP, p));
            clean == perfect || clean == Stopped(p.world) || clean == Stopped(perfect.world)
    ensures var (clean, perfect) := (CheckStep(command, given, plan, p), CheckStep(command, given, PERFECT_STEP, p));
            clean == perfect || clean == Stopped(p.world) || clean == Stopped(perfect.world)
  {
  }

  /** Process p of a clean run on w, past `stage` steps: it is where the perfect run is, or a perfect run on what it left gets there. */
  ghost predicate Resumable(command: string, given: Hash, w: World, p: Process, stage: nat)
    requires !w.file.Corrupt?
  {
    && !p.world.file.Corrupt?
    && if p.Going? then p == PerfectUpTo(command, given, w, stage)
       else PerfectUpTo(command, given, p.world, stage) == PerfectUpTo(command, given, w, stage)
  }

  /** One more clean step keeps a run resumable. */
  lemma StepKeepsResumable(command: string, given: Hash, w: World, p: Process, next: Process, stage: nat)
    requires !w.file.Corrupt? && 0 < stage <= 3
    requires Resumable(command, given, w, p, stage - 1)
    requires p.Stopped? ==> next == p
    requires p.Going? ==>
      next in {PerfectUpTo(command, given, w, stage), Stopped(p.world), Stopped(PerfectUpTo(command, given, w, stage).world)}
    ensures Resumable(command, given, w, next, stage)
  {
    PerfectReflects(command, given, w, stage - 1);
    PerfectReflects(command, given, w, stage);
    Reloads(command, given, PerfectUpTo(command, given, w, stage - 1), stage - 1);
    Reloads(command, given, PerfectUpTo(command, given, w, stage), stage);
  }

  lemma ThreeStepsResumable(command: string, given: Hash, plan: RunPlan, w: World)
    requires !w.file.Corrupt? && Clean(plan, w)
    ensures Resumable(command, given, w, ThreeSteps(command, given, plan, w), 3)
    ensures ThreeSteps(command, given, PERFECT, w) == PerfectUpTo(command, given, w, 3)
  {
    var p1 := PreRegisterStep(command, plan.preRegister, Load(w));
    var p2 := AttestStep(command, plan.attest, p1);
    CleanStepStops(command, given, plan.preRegister, Load(w));
    StepKeepsResumable(command, given, w, Load(w), p1, 1);
    if p1.Going? {
      CleanStepStops(command, given, plan.attest, p1);
    }
    StepKeepsResumable(command, given, w, p1, p2, 2);
    if p2.Going? {
      CleanStepStops(command, given, plan.check, p2);
    }
    StepKeepsResumable(command, given, w, p2, CheckStep(command, given, plan.check, p2), 3);
  }

  // ------------------------------------------------------------------------------------------

  /** The world an uninterrupted run leaves. */
  function Uninterrupted(command: string, given: Hash, w: World): World {
    RunOnce(command, given, PERFECT, w).world
  }

  /** How the perfect run ends, from where its first three steps got. */
  function PerfectEnd(command: string, p: Process): World {
    ProduceStep(command, PERFECT.produce, p).world.(file := Missing)
  }

  lemma UninterruptedEnds(command: string, given: Hash, w: World)
    requires !w.file.Corrupt?
    ensures RunOnce(command, given, PERFECT, w) == Ended(PerfectEnd(command, PerfectUpTo(command, given, w, 3)), true)
  {
    ThreeStepsResumable(command, given, PERFECT, w);
    PerfectReflects(command, given, w, 3);
  }

  /** The steps before the last do not put the machine into production. */
  lemma ProductionComesLast(command: string, given: Hash, plan: RunPlan, w: World)
    requires !w.file.Corrupt?
    ensures ThreeSteps(command, given, plan, w).world.production == w.production
  {
    var p1 := PreRegisterStep(command, plan.preRegister, Load(w));
    var p2 := AttestStep(command, plan.attest, p1);
    StepsKeepProduction(command, given, plan.preRegister, Load(w));
    StepsKeepProduction(command, given, plan.attest, p1);
    StepsKeepProduction(command, given, plan.check, p2);
  }

  lemma StepsKeepProduction(command: string, given: Hash, plan: StepPlan, p: Process)
    ensures PreRegisterStep(command, plan, p).world.production == p.world.production
    ensures AttestStep(command, plan, p).world.production == p.world.production
    ensures CheckStep(command, given, plan, p).world.production == p.world.production
  {
  }

  /**
  The last step of a clean run that got through the first three: it ends as the perfect run does,
  or stops with the file as it was, and then a perfect last step, which skips what is already in
  production, leads to the same end.
  */
  lemma CleanProduceEnds(command: string, plan: ProductionPlan, p: Process)
    requires p.Going? && (plan.statusUnread && p.world.production ==> plan.submission.Reverted?)
    ensures var end := ProduceStep(command, plan, p);
            if end.Going? then SameOutcome(end.world.(file := Missing), PerfectEnd(command, p))
            else end.world.file == p.world.file && SameOutcome(PerfectEnd(command, p.(world := end.world)), PerfectEnd(command, p))
  {
  }

  /** One clean run: it completes as an uninterrupted run would, or an uninterrupted run on what it leaves does. */
  lemma CleanRunResumes(command: string, given: Hash, plan: RunPlan, w: World)
    requires !w.file.Corrupt? && Clean(plan, w)
    ensures var e := RunOnce(command, given, plan, w);
            && !e.world.file.Corrupt?
            && SameOutcome(if e.completed then e.world else Uninterrupted(command, given, e.world), Uninterrupted(command, given, w))
  {
    var p := ThreeSteps(command, given, plan, w);
    ThreeStepsResumable(command, given, plan, w);
    UninterruptedEnds(command, given, w);
    if p.Stopped? {
      UninterruptedEnds(command, given, p.world);
    } else {
      ProductionComesLast(command, given, plan, w);
      CleanProduceEnds(command, plan.produce, p);
      var end := ProduceStep(command, plan.produce, p);
      if end.Stopped? {
        PerfectReflects(command, given, w, 3);
        Reloads(command, given, p.(world := end.world), 3);
        UninterruptedEnds(command, given, end.world);
      }
    }
  }

  /**
  Resume refines the uninterrupted run. Fix a command, and let any number of runs stop at step
  boundaries, with what was done saved, or after the unrecorded entry into production. When the session completes, the file and the chain, with
  every request, the id it was given and the id it returned, are what one uninterrupted run would
  have left; until then, an uninterrupted run on what is there would still lead to exactly that.
  */
  lemma {:induction false} SessionResumes(command: string, given: Hash, plans: seq<RunPlan>, w: World)
    requires !w.file.Corrupt?
    requires CleanSession(command, given, plans, w)
    ensures var s := Session(command, given, plans, w);
            && (!s.completed ==> !s.world.file.Corrupt?)
            && SameOutcome(if s.completed then s.world else Uninterrupted(command, given, s.world), Uninterrupted(command, given, w))
    decreases |plans|
  {
    if plans != [] {
      var before := plans[..|plans| - 1];
      SessionResumes(command, given, before, w);
      var s := Session(command, given, before, w);
      if !s.completed {
        CleanRunResumes(command, given, plans[|plans| - 1], s.world);
      }
    }
  }

  lemma StepsExtendLog(command: string, given: Hash, plan: StepPlan, p: Process)
    ensures p.world.log <= PreRegisterStep(command, plan, p).world.log
    ensures p.world.log <= AttestStep(command, plan, p).world.log
    ensures p.world.log <= CheckStep(command, given, plan, p).world.log
  {
  }

  lemma ThreeStepsExtendLog(command: string, given: Hash, plan: RunPlan, w: World)
    requires !w.file.Corrupt?
    ensures w.log <= ThreeSteps(command, given, plan, w).world.log
  {
    var p1 := PreRegisterStep(command, plan.preRegister, Load(w));
    var p2 := AttestStep(command, plan.attest, p1);
    StepsExtendLog(command, given, plan.preRegister, Load(w));
    StepsExtendLog(command, given, plan.attest, p1);
    StepsExtendLog(command, given, plan.check, p2);
  }

  lemma ProduceExtendsLog(command: string, plan: ProductionPlan, p: Process)
    ensures p.world.log <= ProduceStep(command, plan, p).world.log
  {
  }

  lemma RunExtendsLog(command: string, given: Hash, plan: RunPlan, w: World)
    ensures w.log <= RunOnce(command, given, plan, w).world.log
  {
    if !w.file.Corrupt? {
      ThreeStepsExtendLog(command, given, plan, w);
      ProduceExtendsLog(command, plan.produce, ThreeSteps(command, given, plan, w));
    }
  }

  /** At every moment of such a session the requests made are the first ones of the uninterrupted run. */
  lemma SessionFollowsUninterrupted(command: string, given: Hash, plans: seq<RunPlan>, w: World)
    requires !w.file.Corrupt?
    requires CleanSession(command, given, plans, w)
    ensures Session(command, given, plans, w).world.log <= Uninterrupted(command, given, w).log
  {
    SessionResumes(command, given, plans, w);
    RunExtendsLog(command, given, PERFECT, Session(command, given, plans, w).world);
  }

  // ------------------------------------------------------------------------------------------
  // What an uninterrupted run requests, written down directly.

  function Asked(command: string, step: char, kind: Kind, arg: Hash, id: Hash): seq<Tx> {
    if step in command then [Tx(step, kind, arg, id)] else []
  }

  /**
  The requests of a command on a fresh world: instructions are numbered from 1, the check gets the
  number of the last attestation before it (0 if there is none), and production the number of the
  check, or the given id.
  */
  function RequestsOf(command: string, given: Hash, registered: bool, production: bool): seq<Tx> {
    var (r, R, a) := (One('r' in command), One('R' in command), One('a' in command));
    Asked(command, 'r', if registered then RequestAttestation else PreRegister, 0, 1) +
    Asked(command, 'R', RequestAttestation, 0, r + 1) +
    Asked(command, 'a', CheckAvailability, r + R, r + R + 1) +
    if production then [] else Asked(command, 'p', GoToProduction, if 'a' in command then r + R + 1 else given, r + R + a + 1)
  }

  /** The perfect process on a fresh world, step by step. */
  lemma PerfectFirstSteps(command: string, given: Hash, w: World)
    requires FreshWorld(w)
    ensures var p := PerfectUpTo(command, given, w, 1);
            && p.Going? && p.world.production == w.production
            && 'R' !in p.mem.steps && 'a' !in p.mem.steps && p.attestId == One('r' in command)
            && p.world.log == Asked(command, 'r', if w.registered then RequestAttestation else PreRegister, 0, 1)
  {
    assert PerfectUpTo(command, given, w, 0) == Going(NO_PROGRESS, 0, 0, w);
  }

  lemma PerfectSecondStep(command: string, given: Hash, w: World)
    requires FreshWorld(w)
    ensures var (p1, p) := (PerfectUpTo(command, given, w, 1), PerfectUpTo(command, given, w, 2));
            && p.Going? && p.world.production == w.production
            && 'a' !in p.mem.steps && p.attestId == One('r' in command) + One('R' in command)
            && p.world.log == p1.world.log + Asked(command, 'R', RequestAttestation, 0, One('r' in command) + 1)
  {
    PerfectFirstSteps(command, given, w);
  }

  lemma PerfectThirdStep(command: string, given: Hash, w: World)
    requires FreshWorld(w)
    ensures var n := One('r' in command) + One('R' in command);
            var (p2, p) := (PerfectUpTo(command, given, w, 2), PerfectUpTo(command, given, w, 3));
            && p.Going? && p.world.production == w.production
            && p.instructionId == (if 'a' in command then n + 1 else given)
            && p.world.log == p2.world.log + Asked(command, 'a', CheckAvailability, n, n + 1)
  {
    PerfectFirstSteps(command, given, w);
    PerfectSecondStep(command, given, w);
    assert |PerfectUpTo(command, given, w, 2).world.log| == One('r' in command) + One('R' in command);
  }

  lemma UninterruptedRequests(command: string, given: Hash, w: World)
    requires FreshWorld(w)
    ensures Uninterrupted(command, given, w).log == RequestsOf(command, given, w.registered, w.production)
    ensures Uninterrupted(command, given, w).file == Missing
  {
    PerfectFirstSteps(command, given, w);
    PerfectSecondStep(command, given, w);
    PerfectThirdStep(command, given, w);
    UninterruptedEnds(command, given, w);
    LastRequest(command, PerfectUpTo(command, given, w, 3));
  }

  lemma LastRequest(command: string, p: Process)
    requires p.Going?
    ensures PerfectEnd(command, p).file == Missing
    ensures PerfectEnd(command, p).log == p.world.log +
            if p.world.production then [] else Asked(command, 'p', GoToProduction, p.instructionId, |p.world.log| + 1)
  {
  }

  /** A clean session that completes has made exactly the requests its command stands for, each once and in order. */
  lemma CompletedSessionRequests(command: string, given: Hash, plans: seq<RunPlan>, w: World)
    requires FreshWorld(w)
    requires CleanSession(command, given, plans, w)
    requires Session(command, given, plans, w).completed
    ensures Session(command, given, plans, w).world.log == RequestsOf(command, given, w.registered, w.production)
    ensures Session(command, given, plans, w).world.file == Missing
  {
    SessionResumes(command, given, plans, w);
    UninterruptedRequests(command, given, w);
  }

  // ------------------------------------------------------------------------------------------
  // The tool.

  /** What a step method reports: the process it leaves, or its end. */
  ghost predicate Leaves(p: Process, alive: bool, mem: Progress, attestId: Hash, instructionId: Hash, w: World) {
    p == if alive then Going(mem, attestId, instructionId, w) else Stopped(w)
  }

  /** The registration tool with its progress file and the chain it works on. */
  class Registrar {
    var world: World

    constructor (world: World)
      ensures this.world == world
    {
      this.world := world;
    }

    /** A transaction takes effect; its instruction id is returned. */
    method Submit(step: char, kind: Kind, arg: Hash) returns (id: Hash)
      modifies this
      ensures world == Send(old(world), step, kind, arg) && id == |world.log|
    {
      id := |world.log| + 1;
      world := World(world.file, world.registered || kind.PreRegister?, world.production || kind.GoToProduction?,
                     world.log + [Tx(step, kind, arg, id)], world.polls);
    }

    /** saveState, and the two places around it where the process may die. A failed save is only logged. */
    method SaveState(state: Progress, plan: StepPlan) returns (alive: bool)
      modifies this
      ensures forall attestId, instructionId ::
        Leaves(Commit(state, attestId, instructionId, old(world), plan), alive, state, attestId, instructionId, world)
    {
      if plan.diesUnsaved {
        return false;
      }
      if !plan.saveFails {
        world := world.(file := Saved(state));
      }
      return !plan.diesSaved;
    }

    method DoPreRegister(command: string, plan: StepPlan, mem: Progress, attest: Hash, instructionId: Hash)
      returns (alive: bool, state: Progress, attestId: Hash)
      requires 'r' in command
      modifies this
      ensures Leaves(PreRegisterStep(command, plan, Going(mem, attest, instructionId, old(world))),
                     alive, state, attestId, instructionId, world)
    {
      state := mem;
      attestId := attest;
      if 'r' in state.steps {
        return true, state, state.attestId;
      }
      if plan.submission.Reverted? {
        return false, state, attestId;
      }
      if !plan.lookupFails && world.registered {
        attestId := Submit('r', RequestAttestation, 0);
      } else {
        attestId := Submit('r', PreRegister, 0);
      }
      if plan.submission.LandedUnread? {
        return false, state, attestId;
      }
      state := Progress(state.steps + "r", attestId, state.instructionId);
      alive := SaveState(state, plan);
    }

    method DoAttest(command: string, plan: StepPlan, mem: Progress, attest: Hash, instructionId: Hash)
      returns (alive: bool, state: Progress, attestId: Hash)
      requires 'R' in command
      modifies this
      ensures Leaves(AttestStep(command, plan, Going(mem, attest, instructionId, old(world))),
                     alive, state, attestId, instructionId, world)
    {
      state := mem;
      attestId := attest;
      if 'R' in state.steps {
        return true, state, state.attestId;
      }
      if plan.submission.Reverted? {
        return false, state, attestId;
      }
      attestId := Submit('R', RequestAttestation, 0);
      if plan.submission.LandedUnread? {
        return false, state, attestId;
      }
      state := Progress(state.steps + "R", attestId, state.instructionId);
      alive := SaveState(state, plan);
    }

    method DoCheck(command: string, given: Hash, plan: StepPlan, mem: Progress, attestId: Hash, instruction: Hash)
      returns (alive: bool, state: Progress, instructionId: Hash)
      requires 'a' in command
      modifies this
      ensures Leaves(CheckStep(command, given, plan, Going(mem, attestId, instruction, old(world))),
                     alive, state, attestId, instructionId, world)
    {
      state := mem;
      instructionId := instruction;
      if 'a' in state.steps {
        return true, state, state.instructionId;
      }
      if plan.preflightFails || plan.submission.Reverted? {
        return false, state, instructionId;
      }
      instructionId := Submit('a', CheckAvailability, attestId);
      if plan.submission.LandedUnread? {
        return false, state, instructionId;
      }
      state := Progress(state.steps + "a", state.attestId, instructionId);
      alive := SaveState(state, plan);
    }

    /** GetFTDCAvailabilityCheckResult and ToProduction. */
    method DoProduce(command: string, plan: ProductionPlan, mem: Progress, attestId: Hash, instructionId: Hash) returns (alive: bool)
      requires 'p' in command
      modifies this
      ensures Leaves(ProduceStep(command, plan, Going(mem, attestId, instructionId, old(world))),
                     alive, mem, attestId, instructionId, world)
    {
      world := world.(polls := world.polls + [Poll(instructionId, |world.log|)]);
      if plan.pollFails {
        return false;
      }
      if !plan.statusUnread && world.production {
        return true;
      }
      if plan.submission.Reverted? {
        return false;
      }
      var id := Submit('p', GoToProduction, instructionId);
      return plan.submission.Landed?;
    }

    /** RegisterNode: false is an error return, or the death of the process. */
    method RegisterNode(command: string, given: Hash, plan: RunPlan) returns (completed: bool)
      modifies this
      ensures Ended(world, completed) == RunOnce(command, given, plan, old(world))
    {
      if world.file.Corrupt? {
        return false;
      }
      var state := if world.file.Missing? then NO_PROGRESS else world.file.progress;
      var attestId, instructionId, alive := 0, 0, true;
      if 'r' in command {
        alive, state, attestId := DoPreRegister(command, plan.preRegister, state, attestId, instructionId);
        if !alive { return false; }
      }
      if 'R' in command {
        alive, state, attestId := DoAttest(command, plan.attest, state, attestId, instructionId);
        if !alive { return false; }
      }
      if 'a' in command {
        alive, state, instructionId := DoCheck(command, given, plan.check, state, attestId, instructionId);
        if !alive { return false; }
      } else {
        instructionId := given;
      }
      if 'p' in command {
        alive := DoProduce(command, plan.produce, state, attestId, instructionId);
        if !alive { return false; }
      }
      if !plan.removeFails {
        world := world.(file := Missing);
      }
      return true;
    }
  }
}
