/**
Resumable TEE registration: RegisterNode, loadState, saveState and ToProduction of
tee/go/tools/pkg/fccutils/registration.go.

One call of RegisterNode is a run. What the environment does to a run is a plan: which lookups,
submissions and saves fail, and where the process dies. A session is a sequence of runs of one
command, each resuming from the file the one before left, until a run completes.
*/
module Registration {
  /** Instruction ids. Zero is the zero hash; the chain numbers its instructions from 1. */
  type Hash = nat

  /** registrationState: what the progress file holds. */
  datatype Progress = Progress(steps: string, attestId: Hash, instructionId: Hash)

  datatype File = Missing | Corrupt | Saved(progress: Progress)

  datatype Kind = PreRegister | RequestAttestation | CheckAvailability | GoToProduction

  /** A transaction that took effect: the step that sent it, the id it was given and the id it returned. */
  datatype Tx = Tx(step: char, kind: Kind, arg: Hash, id: Hash)

  /** A request for the production proof of an instruction, and the length of the log when it was made. */
  datatype Poll = Poll(id: Hash, at: nat)

  /** The progress file and the chain, as far as this registration concerns it. */
  datatype World = World(file: File, registered: bool, production: bool, log: seq<Tx>, polls: seq<Poll>)

  /** LandedUnread: the transaction took effect, but reading its receipt failed and the call returned an error. */
  datatype Submission = Reverted | Landed | LandedUnread

  datatype StepPlan = StepPlan(
    lookupFails: bool, preflightFails: bool, submission: Submission, diesUnsaved: bool, saveFails: bool, diesSaved: bool)

  datatype ProductionPlan = ProductionPlan(pollFails: bool, statusUnread: bool, submission: Submission)

  datatype RunPlan = RunPlan(preRegister: StepPlan, attest: StepPlan, check: StepPlan, produce: ProductionPlan, removeFails: bool)

  /** A running process: the progress in memory and the two local ids; or a process that has ended without completing. */
  datatype Process =
    | Going(mem: Progress, attestId: Hash, instructionId: Hash, world: World)
    | Stopped(world: World)

  function One(b: bool): nat {
    if b then 1 else 0
  }

  const NO_PROGRESS := Progress("", 0, 0)

  // ------------------------------------------------------------------------------------------
  // One run, step by step.

  function Send(w: World, step: char, kind: Kind, arg: Hash): World {
    w.(log := w.log + [Tx(step, kind, arg, |w.log| + 1)],
       registered := w.registered || kind.PreRegister?,
       production := w.production || kind.GoToProduction?)
  }

  /** saveState after a step, with the two places around it where the process may die. */
  function Commit(mem: Progress, attestId: Hash, instructionId: Hash, w: World, plan: StepPlan): Process {
    var w' := if plan.saveFails then w else w.(file := Saved(mem));
    if plan.diesUnsaved then Stopped(w)
    else if plan.diesSaved then Stopped(w')
    else Going(mem, attestId, instructionId, w')
  }

  /** Step r: pre-registration, or a fresh attestation when the machine is found on-chain. */
  function PreRegisterStep(command: string, plan: StepPlan, p: Process): Process {
    if p.Stopped? || 'r' !in command then p
    else if 'r' in p.mem.steps then p.(attestId := p.mem.attestId)
    else if plan.submission.Reverted? then Stopped(p.world)
    else
      var found := !plan.lookupFails && p.world.registered;
      var w := Send(p.world, 'r', if found then RequestAttestation else PreRegister, 0);
      var id := |w.log|;
      if plan.submission.LandedUnread? then Stopped(w)
      else Commit(Progress(p.mem.steps + "r", id, p.mem.instructionId), id, p.instructionId, w, plan)
  }

  /** Step R: an attestation request. */
  function AttestStep(command: string, plan: StepPlan, p: Process): Process {
    if p.Stopped? || 'R' !in command then p
    else if 'R' in p.mem.steps then p.(attestId := p.mem.attestId)
    else if plan.submission.Reverted? then Stopped(p.world)
    else
      var w := Send(p.world, 'R', RequestAttestation, 0);
      var id := |w.log|;
      if plan.submission.LandedUnread? then Stopped(w)
      else Commit(Progress(p.mem.steps + "R", id, p.mem.instructionId), id, p.instructionId, w, plan)
  }

  /** Step a: the availability check of the current attestation; without it, the id given on the command line. */
  function CheckStep(command: string, given: Hash, plan: StepPlan, p: Process): Process {
    if p.Stopped? then p
    else if 'a' !in command then p.(instructionId := given)
    else if 'a' in p.mem.steps then p.(instructionId := p.mem.instructionId)
    else if plan.preflightFails || plan.submission.Reverted? then Stopped(p.world)
    else
      var w := Send(p.world, 'a', CheckAvailability, p.attestId);
      var id := |w.log|;
      if plan.submission.LandedUnread? then Stopped(w)
      else Commit(Progress(p.mem.steps + "a", p.mem.attestId, id), p.attestId, id, w, plan)
  }

  /** Step p: fetch the proof, then ToProduction with its idempotency guard. Nothing is saved. */
  function ProduceStep(command: string, plan: ProductionPlan, p: Process): Process {
    if p.Stopped? || 'p' !in command then p
    else
      var w := p.world.(polls := p.world.polls + [Poll(p.instructionId, |p.world.log|)]);
      if plan.pollFails then Stopped(w)
      else if !plan.statusUnread && w.production then p.(world := w)
      else match plan.submission
        case Reverted => Stopped(w)
        case LandedUnread => Stopped(Send(w, 'p', GoToProduction, p.instructionId))
        case Landed => p.(world := Send(w, 'p', GoToProduction, p.instructionId))
  }

  /** loadState, for a file that parses. */
  function Load(w: World): Process
    requires !w.file.Corrupt?
  {
    Going(if w.file.Missing? then NO_PROGRESS else w.file.progress, 0, 0, w)
  }

  /** The process of a run after steps r, R and a. */
  function ThreeSteps(command: string, given: Hash, plan: RunPlan, w: World): Process
    requires !w.file.Corrupt?
  {
    CheckStep(command, given, plan.check,
      AttestStep(command, plan.attest,
        PreRegisterStep(command, plan.preRegister, Load(w))))
  }

  datatype Ended = Ended(world: World, completed: bool)

  /** RegisterNode. A file that does not parse ends the run before it does anything. */
  function RunOnce(command: string, given: Hash, plan: RunPlan, w: World): Ended {
    if w.file.Corrupt? then Ended(w, false)
    else
      var p := ProduceStep(command, plan.produce, ThreeSteps(command, given, plan, w));
      if p.Stopped? then Ended(p.world, false)
      else Ended(if plan.removeFails then p.world else p.world.(file := Missing), true)
  }

  /** Runs of one command until one completes. */
  function Session(command: string, given: Hash, plans: seq<RunPlan>, w: World): Ended {
    if plans == [] then Ended(w, false)
    else
      var before := Session(command, given, plans[..|plans| - 1], w);
      if before.completed then before else RunOnce(command, given, plans[|plans| - 1], before.world)
  }

  /** A chain on which this registration has done nothing yet, and no progress file. */
  predicate FreshWorld(w: World) {
    w.file.Missing? && w.log == [] && w.polls == []
  }

  // ------------------------------------------------------------------------------------------
  // The order of steps.

  function Letter(command: string, step: char): string {
    if step in command then [step] else ""
  }

  /** What is recorded once the first `stage` of the steps r, R, a that the command asks for are done. */
  function RecordedAfter(command: string, stage: nat): string {
    if stage == 0 then ""
    else if stage == 1 then Letter(command, 'r')
    else if stage == 2 then Letter(command, 'r') + Letter(command, 'R')
    else Letter(command, 'r') + Letter(command, 'R') + Letter(command, 'a')
  }

  /** Steps are recorded in order and without gaps. */
  ghost predicate InOrder(command: string, steps: string) {
    exists stage: nat :: steps == RecordedAfter(command, stage)
  }

  lemma OrderFacts(command: string, steps: string)
    requires InOrder(command, steps)
    ensures 'r' in steps ==> 'r' in command
    ensures 'R' in steps ==> 'R' in command && ('r' in command ==> 'r' in steps)
    ensures 'a' in steps ==> 'a' in command && Attested(command, steps)
    ensures 'r' in command && 'r' !in steps ==> steps == ""
  {
    var stage: nat :| steps == RecordedAfter(command, stage);
  }

  /** The step that comes next in order extends the record in order. */
  lemma NextInOrder(command: string, steps: string)
    requires InOrder(command, steps)
    ensures 'r' in command && 'r' !in steps ==> InOrder(command, steps + "r")
    ensures 'R' in command && 'R' !in steps && ('r' in command ==> 'r' in steps) ==> InOrder(command, steps + "R")
    ensures 'a' in command && 'a' !in steps && Attested(command, steps) ==> InOrder(command, steps + "a")
  {
    OrderFacts(command, steps);
    var stage: nat :| steps == RecordedAfter(command, stage);
    if 'r' in command && 'r' !in steps {
      assert steps + "r" == RecordedAfter(command, 1);
    }
    if 'R' in command && 'R' !in steps && ('r' in command ==> 'r' in steps) {
      assert steps + "R" == RecordedAfter(command, 2);
    }
    if 'a' in command && 'a' !in steps && Attested(command, steps) {
      assert steps + "a" == RecordedAfter(command, 3);
    }
  }

  /** So what is recorded is a prefix of the command's steps in the order r, R, a, without repeats. */
  lemma InOrderIsPrefix(command: string, steps: string)
    requires InOrder(command, steps)
    ensures steps <= RecordedAfter(command, 3)
    ensures forall i, j :: 0 <= i < j < |steps| ==> steps[i] != steps[j]
  {
    var stage: nat :| steps == RecordedAfter(command, stage);
    assert RecordedAfter(command, 3) == RecordedAfter(command, 2) + Letter(command, 'a');
    assert RecordedAfter(command, 2) == RecordedAfter(command, 1) + Letter(command, 'R');
  }

  // ------------------------------------------------------------------------------------------
  // Freshness of ids.

  predicate Attests(tx: Tx) {
    tx.kind.PreRegister? || tx.kind.RequestAttestation?
  }

  /** The id returned by the most recent attestation request, pre-registration included; zero if none. */
  function LastAttestation(log: seq<Tx>): Hash {
    if log == [] then 0 else if Attests(log[|log| - 1]) then log[|log| - 1].id else LastAttestation(log[..|log| - 1])
  }

  /** The id returned by the most recent availability check; zero if none. */
  function LastCheck(log: seq<Tx>): Hash {
    if log == [] then 0
    else if log[|log| - 1].kind.CheckAvailability? then log[|log| - 1].id
    else LastCheck(log[..|log| - 1])
  }

  predicate AsksAttestation(command: string) {
    'r' in command || 'R' in command
  }

  /** Every attestation step of the command is recorded. */
  predicate Attested(command: string, steps: string) {
    ('r' in command ==> 'r' in steps) && ('R' in command ==> 'R' in steps)
  }

  /** Recorded ids are the latest ones. */
  ghost predicate UpToDate(command: string, m: Progress, log: seq<Tx>) {
    && InOrder(command, m.steps)
    && (AsksAttestation(command) && Attested(command, m.steps) ==> m.attestId == LastAttestation(log))
    && ('a' in m.steps ==> m.instructionId == LastCheck(log))
  }

  /** Every availability check was made for the attestation that was the latest at that time. */
  ghost predicate ChecksFresh(command: string, log: seq<Tx>) {
    forall n :: 0 <= n < |log| && log[n].kind.CheckAvailability? ==>
      log[n].arg == if AsksAttestation(command) then LastAttestation(log[..n]) else 0
  }

  /** Every proof was polled for the availability check that was the latest at that time. */
  ghost predicate PollsFresh(command: string, given: Hash, w: World) {
    forall n :: 0 <= n < |w.polls| ==>
      w.polls[n].at <= |w.log| && w.polls[n].id == if 'a' in command then LastCheck(w.log[..w.polls[n].at]) else given
  }

  ghost predicate GoodWorld(command: string, given: Hash, w: World) {
    && !w.file.Corrupt?
    && (w.file.Saved? ==> UpToDate(command, w.file.progress, w.log))
    && ChecksFresh(command, w.log)
    && PollsFresh(command, given, w)
  }

  function FileSteps(w: World): string {
    if w.file.Saved? then w.file.progress.steps else ""
  }

  /** A process that is past its first `stage` steps. */
  ghost predicate GoodProcess(command: string, given: Hash, p: Process, stage: nat) {
    && GoodWorld(command, given, p.world)
    && (p.Going? ==>
          && UpToDate(command, p.mem, p.world.log)
          && FileSteps(p.world) <= p.mem.steps
          && (stage >= 1 && 'r' in command ==> 'r' in p.mem.steps)
          && (stage >= 2 && 'R' in command ==> 'R' in p.mem.steps)
          && (stage >= 3 && 'a' in command ==> 'a' in p.mem.steps)
          && (stage >= 2 ==> p.attestId == if AsksAttestation(command) then LastAttestation(p.world.log) else 0)
          && (stage == 0 || !AsksAttestation(command) ==> p.attestId == 0)
          && (stage >= 1 && 'r' in command && 'R' !in command ==> p.attestId == LastAttestation(p.world.log))
          && (stage >= 3 ==> p.instructionId == if 'a' in command then LastCheck(p.world.log) else given))
  }

  lemma SendKeeps(command: string, given: Hash, w: World, step: char, kind: Kind, arg: Hash)
    requires GoodWorld(command, given, w)
    requires kind.CheckAvailability? ==> arg == if AsksAttestation(command) then LastAttestation(w.log) else 0
    requires kind.PreRegister? || kind.RequestAttestation? ==> AsksAttestation(command) && !Attested(command, FileSteps(w))
    requires kind.CheckAvailability? ==> 'a' !in FileSteps(w)
    ensures var w' := Send(w, step, kind, arg);
            && GoodWorld(command, given, w')
            && LastAttestation(w'.log) == (if kind.PreRegister? || kind.RequestAttestation? then |w'.log| else LastAttestation(w.log))
            && LastCheck(w'.log) == (if kind.CheckAvailability? then |w'.log| else LastCheck(w.log))
  {
    var w' := Send(w, step, kind, arg);
    assert w'.log[..|w.log|] == w.log;
    assert forall n :: 0 <= n <= |w.log| ==> w'.log[..n] == w.log[..n];
  }

  /** Saving, or not, what memory says. */
  lemma CommitKeeps(command: string, given: Hash, mem: Progress, attestId: Hash, instructionId: Hash, w: World, plan: StepPlan, stage: nat)
    requires GoodProcess(command, given, Going(mem, attestId, instructionId, w), stage)
    ensures GoodProcess(command, given, Commit(mem, attestId, instructionId, w, plan), stage)
  {
  }

  /** A step that is next in order, sent and not yet saved. */
  lemma AttestationSent(command: string, given: Hash, p: Process, step: char, kind: Kind, stage: nat)
    requires (stage == 1 && step == 'r') || (stage == 2 && step == 'R')
    requires GoodProcess(command, given, p, stage - 1) && p.Going?
    requires step in command && step !in p.mem.steps && (kind.PreRegister? || kind.RequestAttestation?)
    ensures var w := Send(p.world, step, kind, 0);
            GoodProcess(command, given, Going(Progress(p.mem.steps + [step], |w.log|, p.mem.instructionId), |w.log|, p.instructionId, w), stage)
  {
    OrderFacts(command, p.mem.steps);
    NextInOrder(command, p.mem.steps);
    SendKeeps(command, given, p.world, step, kind, 0);
    OrderFacts(command, p.mem.steps + [step]);
  }

  lemma CheckSent(command: string, given: Hash, p: Process)
    requires GoodProcess(command, given, p, 2) && p.Going?
    requires 'a' in command && 'a' !in p.mem.steps
    ensures var w := Send(p.world, 'a', CheckAvailability, p.attestId);
            GoodProcess(command, given, Going(Progress(p.mem.steps + "a", p.mem.attestId, |w.log|), p.attestId, |w.log|, w), 3)
  {
    OrderFacts(command, p.mem.steps);
    NextInOrder(command, p.mem.steps);
    SendKeeps(command, given, p.world, 'a', CheckAvailability, p.attestId);
  }

  lemma PreRegisterKeeps(command: string, given: Hash, plan: StepPlan, p: Process)
    requires GoodProcess(command, given, p, 0)
    ensures GoodProcess(command, given, PreRegisterStep(command, plan, p), 1)
  {
    if p.Going? && 'r' in command {
      OrderFacts(command, p.mem.steps);
      if 'r' !in p.mem.steps {
        var kind := if !plan.lookupFails && p.world.registered then RequestAttestation else PreRegister;
        var w := Send(p.world, 'r', kind, 0);
        AttestationSent(command, given, p, 'r', kind, 1);
        CommitKeeps(command, given, Progress(p.mem.steps + "r", |w.log|, p.mem.instructionId), |w.log|, p.instructionId, w, plan, 1);
      }
    }
  }

  lemma AttestKeeps(command: string, given: Hash, plan: StepPlan, p: Process)
    requires GoodProcess(command, given, p, 1)
    ensures GoodProcess(command, given, AttestStep(command, plan, p), 2)
  {
    if p.Going? && 'R' in command && 'R' !in p.mem.steps {
      var w := Send(p.world, 'R', RequestAttestation, 0);
      AttestationSent(command, given, p, 'R', RequestAttestation, 2);
      CommitKeeps(command, given, Progress(p.mem.steps + "R", |w.log|, p.mem.instructionId), |w.log|, p.instructionId, w, plan, 2);
    }
  }

  lemma CheckKeeps(command: string, given: Hash, plan: StepPlan, p: Process)
    requires GoodProcess(command, given, p, 2)
    ensures GoodProcess(command, given, CheckStep(command, given, plan, p), 3)
  {
    if p.Going? && 'a' in command && 'a' !in p.mem.steps {
      var w := Send(p.world, 'a', CheckAvailability, p.attestId);
      CheckSent(command, given, p);
      CommitKeeps(command, given, Progress(p.mem.steps + "a", p.mem.attestId, |w.log|), p.attestId, |w.log|, w, plan, 3);
    }
  }

  lemma ProduceKeeps(command: string, given: Hash, plan: ProductionPlan, p: Process)
    requires GoodProcess(command, given, p, 3)
    ensures GoodWorld(command, given, ProduceStep(command, plan, p).world)
  {
    if p.Going? && 'p' in command {
      var w := p.world.(polls := p.world.polls + [Poll(p.instructionId, |p.world.log|)]);
      assert w.log[..|w.log|] == w.log;
      assert GoodWorld(command, given, w);
      SendKeeps(command, given, w, 'p', GoToProduction, p.instructionId);
    }
  }

  lemma ThreeStepsKeep(command: string, given: Hash, plan: RunPlan, w: World)
    requires GoodWorld(command, given, w)
    ensures var p := ThreeSteps(command, given, plan, w);
            GoodProcess(command, given, p, 3)
  {
    var p0 := Load(w);
    assert RecordedAfter(command, 0) == "";
    assert InOrder(command, "");
    assert GoodProcess(command, given, p0, 0);
    PreRegisterKeeps(command, given, plan.preRegister, p0);
    var p1 := PreRegisterStep(command, plan.preRegister, p0);
    AttestKeeps(command, given, plan.attest, p1);
    CheckKeeps(command, given, plan.check, AttestStep(command, plan.attest, p1));
  }

  lemma RunKeeps(command: string, given: Hash, plan: RunPlan, w: World)
    requires GoodWorld(command, given, w)
    ensures GoodWorld(command, given, RunOnce(command, given, plan, w).world)
  {
    ThreeStepsKeep(command, given, plan, w);
    ProduceKeeps(command, given, plan.produce, ThreeSteps(command, given, plan, w));
  }

  /**
  Over any session of one command, whatever fails and wherever runs die: the progress file records
  the steps of the command in order without gaps or repeats; each availability check was made with
  the id of the latest attestation request; each proof was polled with the id of the latest check.
  */
  lemma {:induction false} SessionFresh(command: string, given: Hash, plans: seq<RunPlan>, w: World)
    requires FreshWorld(w)
    ensures var s := Session(command, given, plans, w).world;
            && GoodWorld(command, given, s)
            && ChecksFresh(command, s.log)
            && PollsFresh(command, given, s)
            && FileSteps(s) <= RecordedAfter(command, 3)
    decreases |plans|
  {
    if plans != [] {
      var before := plans[..|plans| - 1];
      SessionFresh(command, given, before, w);
      RunKeeps(command, given, plans[|plans| - 1], Session(command, given, before, w).world);
    }
    var s := Session(command, given, plans, w).world;
    if s.file.Saved? {
      InOrderIsPrefix(command, FileSteps(s));
    }
  }
}
