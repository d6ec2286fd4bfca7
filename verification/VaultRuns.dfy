/**
Whole runs of the vault: the handlers of Vault behind the serializer of Serializer. A run is any
interleaving of arriving requests, handler turns and decrypt replies.
*/
module VaultRuns {
  import opened Prelude
  import opened Bytes
  import opened Hex
  import opened AbiValues
  import opened Signature
  import opened Library
  import opened Serializer
  import opened Dispatch
  import opened Vault
  import opened Gate

  type VaultEvent = Event<Request, Seen>
  type VaultJob = Job<Request, Seen>
  type VaultLink = Link<Request, Suspension, Reply>

  ghost predicate VaultRun(lib: Library, run: seq<VaultEvent>) {
    ValidRun(VaultProgram(lib), EMPTY_CELLS, run)
  }

  ghost function Vaulted(lib: Library, run: seq<VaultEvent>): State<Cells, Request, Suspension, Reply>
    requires VaultRun(lib, run)
  {
    After(VaultProgram(lib), EMPTY_CELLS, run)
  }

  // ------------------------------------------------------------------------------------------
  // What the history of requests says, without running anything.

  /** The key the node delivered to a request, as a 32-byte word. */
  function DeliveredKey(job: VaultJob): Option<seq<Byte>> {
    if |job.inputs| >= 2 && job.inputs[1].reply.Some? then Some(Word(FromBE(job.inputs[1].reply.value))) else None
  }

  /** The key a request loaded: an UPDATE whose decrypt reply was a usable key. */
  function LoadedKey(job: VaultJob): Option<seq<Byte>> {
    match job.request
    case Act(UpdateKey, m) =>
      if Submitted(m).Some? && DeliveredKey(job).Some? && UsableKey(job.inputs[1].reply.value) then DeliveredKey(job) else None
    case _ => None
  }

  /** The policy a request installed: a SET_POLICY that ran on an acceptable policy. */
  function InstalledPolicy(lib: Library, job: VaultJob): Option<RawPolicy> {
    match job.request
    case Act(SetPolicy, m) => if job.inputs != [] then AcceptedPolicy(lib, m) else None
    case _ => None
  }

  /** The key most recently loaded. */
  function CurrentKey(jobs: seq<VaultJob>): Option<seq<Byte>> {
    if jobs == [] then None
    else if LoadedKey(jobs[|jobs| - 1]).Some? then LoadedKey(jobs[|jobs| - 1])
    else CurrentKey(jobs[..|jobs| - 1])
  }

  /** The policy most recently installed. */
  function CurrentPolicy(lib: Library, jobs: seq<VaultJob>): Option<RawPolicy> {
    if jobs == [] then None
    else if InstalledPolicy(lib, jobs[|jobs| - 1]).Some? then InstalledPolicy(lib, jobs[|jobs| - 1])
    else CurrentPolicy(lib, jobs[..|jobs| - 1])
  }

  function Replaced<T>(before: Option<T>, after: Option<T>): Option<T> {
    if after.Some? then after else before
  }

  // ------------------------------------------------------------------------------------------

  lemma AcceptedIsAcceptable(lib: Library, m: Field)
    ensures AcceptedPolicy(lib, m).Some? ==> AcceptablePolicy(AcceptedPolicy(lib, m).value)
  {
  }

  /** UPDATE goes on after its first turn; nothing else does. */
  predicate Suspends(job: VaultJob) {
    job.request.Act? && job.request.op.UpdateKey? && Submitted(job.request.message).Some?
  }

  /** The cells once a request has done what its history says. */
  function Effect(lib: Library, cells: Cells, job: VaultJob): Cells {
    Cells(Replaced(cells.key, LoadedKey(job)), Replaced(cells.policy, ShownOption(lib, InstalledPolicy(lib, job))))
  }

  ghost predicate FirstTurnHasEffect(lib: Library, cells: Cells, job: VaultJob)
    requires |job.inputs| == 1
  {
    var turn := StartTurn(lib, cells, job.request, job.inputs[0]);
    if Suspends(job) then turn.Await? && turn.cells == cells == Effect(lib, cells, job)
    else turn.Return? && turn.cells == Effect(lib, cells, job)
  }

  lemma SetPolicyFirstTurn(lib: Library, cells: Cells, m: Field, seen: Seen)
    requires Lawful(lib)
    ensures FirstTurnHasEffect(lib, cells, Job(Act(SetPolicy, m), [seen]))
  {
    SetPolicyMeans(lib, cells, m);
  }

  lemma UpdateFirstTurn(lib: Library, cells: Cells, m: Field, seen: Seen)
    ensures FirstTurnHasEffect(lib, cells, Job(Act(UpdateKey, m), [seen]))
  {
  }

  lemma SignFirstTurn(lib: Library, cells: Cells, m: Field, seen: Seen)
    ensures FirstTurnHasEffect(lib, cells, Job(Act(Sign, m), [seen]))
  {
    SignChangesNothing(lib, cells, m, seen.now);
  }

  lemma EffectOfFirstTurn(lib: Library, cells: Cells, job: VaultJob)
    requires Lawful(lib) && |job.inputs| == 1 && Reportable(cells)
    ensures FirstTurnHasEffect(lib, cells, job)
  {
    var seen := job.inputs[0];
    assert job == Job(job.request, [seen]);
    match job.request
    case ReadState =>
    case Act(UpdateKey, m) => UpdateFirstTurn(lib, cells, m, seen);
    case Act(SetPolicy, m) => SetPolicyFirstTurn(lib, cells, m, seen);
    case Act(Sign, m) => SignFirstTurn(lib, cells, m, seen);
  }

  /** UPDATE awaits the node, in the cells it found, if it gets that far; nothing else ever awaits anything. */
  lemma StartAwaits(lib: Library, cells: Cells, job: VaultJob, seen: Seen)
    ensures var turn := StartTurn(lib, cells, job.request, seen);
            && (turn.Await? <==> Suspends(job))
            && (turn.Await? ==> turn == Await(cells, AwaitingDecrypt(Submitted(job.request.message).value)))
  {
    match job.request
    case ReadState =>
    case Act(UpdateKey, m) =>
    case Act(SetPolicy, m) =>
    case Act(Sign, m) => SignChangesNothing(lib, cells, m, seen.now);
  }

  lemma ResumeReturns(cells: Cells, reply: Option<seq<Byte>>)
    ensures UpdateResume(cells, reply).Return?
  {
  }

  /** The last turn a request takes when run alone: its second if it suspends and has its reply, else its first. */
  function LastTurn(lib: Library, cells: Cells, job: VaultJob): VaultTurn
    requires job.inputs != []
  {
    if Suspends(job) && |job.inputs| > 1 then UpdateResume(cells, job.inputs[1].reply)
    else StartTurn(lib, cells, job.request, job.inputs[0])
  }

  lemma {:induction false} AloneTakesTurns(lib: Library, cells: Cells, job: VaultJob)
    requires job.inputs != []
    ensures Alone(VaultProgram(lib), cells, job) == LastTurn(lib, cells, job)
    decreases |job.inputs|
  {
    StartAwaits(lib, cells, job, job.inputs[0]);
    if |job.inputs| > 1 {
      AloneTakesTurns(lib, cells, job.(inputs := job.inputs[..|job.inputs| - 1]));
      AloneUnfolds(VaultProgram(lib), cells, job);
      ResumeReturns(cells, job.inputs[1].reply);
    }
  }

  /** The second turn of an UPDATE. */
  lemma EffectOfReply(lib: Library, cells: Cells, job: VaultJob)
    requires |job.inputs| > 1 && Suspends(job)
    ensures var turn := UpdateResume(cells, job.inputs[1].reply);
            turn.Return? && turn.cells == Effect(lib, cells, job)
  {
    if job.inputs[1].reply.Some? {
      KeyAcceptedIffUsable(job.inputs[1].reply.value);
    }
  }

  /** Inputs beyond those a request consumes say nothing about its effect. */
  lemma FirstInputCounts(lib: Library, cells: Cells, job: VaultJob)
    requires job.inputs != [] && (!Suspends(job) || |job.inputs| == 1)
    ensures Effect(lib, cells, job) == Effect(lib, cells, Job(job.request, [job.inputs[0]]))
  {
  }

  /** All the effects one request can have on the cells. */
  lemma EffectOfJob(lib: Library, cells: Cells, job: VaultJob)
    requires Lawful(lib) && job.inputs != [] && Reportable(cells)
    ensures var turn := Alone(VaultProgram(lib), cells, job);
            && (if Suspends(job) && |job.inputs| == 1 then turn.Await? else turn.Return?)
            && turn.cells == Effect(lib, cells, job)
  {
    AloneTakesTurns(lib, cells, job);
    if Suspends(job) && |job.inputs| > 1 {
      EffectOfReply(lib, cells, job);
    } else {
      FirstInputCounts(lib, cells, job);
      EffectOfFirstTurn(lib, cells, Job(job.request, [job.inputs[0]]));
    }
  }

  lemma {:induction false} CurrentIsSound(lib: Library, jobs: seq<VaultJob>)
    ensures CurrentKey(jobs).Some? ==> StoredKey(CurrentKey(jobs).value)
    ensures CurrentPolicy(lib, jobs).Some? ==> AcceptablePolicy(CurrentPolicy(lib, jobs).value)
    decreases |jobs|
  {
    if jobs != [] {
      CurrentIsSound(lib, jobs[..|jobs| - 1]);
      var job := jobs[|jobs| - 1];
      if job.request.Act? {
        AcceptedIsAcceptable(lib, job.request.message);
        if LoadedKey(job).Some? {
          KeyAcceptedIffUsable(job.inputs[1].reply.value);
        }
      }
    }
  }

  /** The cells hold the key most recently loaded and the policy most recently installed. */
  lemma {:induction false} CellsAreCurrent(lib: Library, jobs: seq<VaultJob>)
    requires Lawful(lib)
    ensures CellsAfter(VaultProgram(lib), EMPTY_CELLS, jobs) ==
            Cells(CurrentKey(jobs), ShownOption(lib, CurrentPolicy(lib, jobs)))
    decreases |jobs|
  {
    if jobs != [] {
      var job := jobs[|jobs| - 1];
      CellsAreCurrent(lib, jobs[..|jobs| - 1]);
      CurrentIsSound(lib, jobs[..|jobs| - 1]);
      if job.inputs != [] {
        EffectOfJob(lib, CellsAfter(VaultProgram(lib), EMPTY_CELLS, jobs[..|jobs| - 1]), job);
      }
    }
  }

  // ------------------------------------------------------------------------------------------
  // What the clients were told.

  /** Link i of a run has been answered. */
  ghost predicate Answered(lib: Library, run: seq<VaultEvent>, i: nat, reply: Reply)
    requires VaultRun(lib, run)
  {
    i < |Vaulted(lib, run).links| && Vaulted(lib, run).links[i].phase == Fulfilled(reply)
  }

  /** Request i was an operation `op`, and was told that it is done. */
  ghost predicate Accepted(lib: Library, run: seq<VaultEvent>, i: nat, op: Operation)
    requires VaultRun(lib, run)
  {
    && Answered(lib, run, i, Done)
    && Vaulted(lib, run).links[i].request.Act? && Vaulted(lib, run).links[i].request.op == op
  }

  /** The latest such request before request i. */
  ghost function LastAccepted(lib: Library, run: seq<VaultEvent>, i: nat, op: Operation): Option<nat>
    requires VaultRun(lib, run)
  {
    if i == 0 then None else if Accepted(lib, run, i - 1, op) then Some(i - 1) else LastAccepted(lib, run, i - 1, op)
  }

  /** The key in force for request i: the one delivered to the latest UPDATE before it that was accepted. */
  ghost function KeyInForce(lib: Library, run: seq<VaultEvent>, i: nat): Option<seq<Byte>>
    requires VaultRun(lib, run)
  {
    match LastAccepted(lib, run, i, UpdateKey)
    case Some(k) => if k < |Jobs(run)| then DeliveredKey(Jobs(run)[k]) else None
    case None => None
  }

  /** The policy in force for request i: the one submitted by the latest SET_POLICY before it that was accepted. */
  ghost function PolicyInForce(lib: Library, run: seq<VaultEvent>, i: nat): Option<RawPolicy>
    requires VaultRun(lib, run)
  {
    match LastAccepted(lib, run, i, SetPolicy)
    case Some(k) =>
      if k < |Jobs(run)| && Jobs(run)[k].request.Act? then SubmittedPolicy(lib, Jobs(run)[k].request.message) else None
    case None => None
  }

  /** The reply a request gives if it returns, as far as acceptance goes. */
  predicate TellsTruth(lib: Library, job: VaultJob, reply: Reply) {
    match job.request
    case Act(UpdateKey, _) => if LoadedKey(job).Some? then reply == Done else reply.Refused?
    case Act(SetPolicy, _) => if InstalledPolicy(lib, job).Some? then reply == Done else reply.Refused?
    case _ => reply != Done
  }

  lemma FirstTurnTellsTruth(lib: Library, cells: Cells, job: VaultJob)
    requires Lawful(lib) && job.inputs != [] && !Suspends(job)
    ensures var turn := StartTurn(lib, cells, job.request, job.inputs[0]);
            turn.Return? ==> TellsTruth(lib, job, turn.result)
  {
    match job.request
    case ReadState =>
    case Act(UpdateKey, m) =>
    case Act(SetPolicy, m) => SetPolicyMeans(lib, cells, m);
    case Act(Sign, m) => SignChangesNothing(lib, cells, m, job.inputs[0].now);
  }

  lemma ReplyTellsTruth(lib: Library, cells: Cells, job: VaultJob)
    requires |job.inputs| > 1 && Suspends(job)
    ensures TellsTruth(lib, job, UpdateResume(cells, job.inputs[1].reply).result)
  {
    if job.inputs[1].reply.Some? {
      KeyAcceptedIffUsable(job.inputs[1].reply.value);
    }
  }

  /** A request run alone tells the truth when it returns. */
  lemma AloneTellsTruth(lib: Library, cells: Cells, job: VaultJob)
    requires Lawful(lib) && job.inputs != []
    ensures var turn := Alone(VaultProgram(lib), cells, job);
            turn.Return? ==> TellsTruth(lib, job, turn.result)
  {
    AloneTakesTurns(lib, cells, job);
    StartAwaits(lib, cells, job, job.inputs[0]);
    if Suspends(job) && |job.inputs| > 1 {
      ReplyTellsTruth(lib, cells, job);
    } else if !Suspends(job) {
      FirstTurnTellsTruth(lib, cells, job);
    }
  }

  /** How far request i has got follows from the cells that the requests before it, and only they, left. */
  lemma TurnsExplained(lib: Library, run: seq<VaultEvent>, i: nat)
    requires Lawful(lib) && VaultRun(lib, run) && i < |Vaulted(lib, run).links|
    ensures i < |Jobs(run)| && Jobs(run)[i].request == Vaulted(lib, run).links[i].request
    ensures var earlier := Jobs(run)[..i];
            var cells := Cells(CurrentKey(earlier), ShownOption(lib, CurrentPolicy(lib, earlier)));
            var phase := Vaulted(lib, run).links[i].phase;
            && Reportable(cells)
            && if Jobs(run)[i].inputs == [] then phase.Waiting? || phase.Rejected?
               else phase == PhaseAfter(Alone(VaultProgram(lib), cells, Jobs(run)[i]))
  {
    PhaseExplained(VaultProgram(lib), EMPTY_CELLS, run, i);
    CellsAreCurrent(lib, Jobs(run)[..i]);
    CurrentIsSound(lib, Jobs(run)[..i]);
  }

  /**
  The answer to an UPDATE or SET_POLICY tells what became of it: it is "done" if and only if the
  node delivered a usable key, or the message stood for an acceptable policy. Nothing else is told so.
  */
  lemma AnswersTellTruth(lib: Library, run: seq<VaultEvent>, i: nat, reply: Reply)
    requires Lawful(lib) && VaultRun(lib, run) && Answered(lib, run, i, reply)
    ensures i < |Jobs(run)| && Jobs(run)[i].request == Vaulted(lib, run).links[i].request
    ensures TellsTruth(lib, Jobs(run)[i], reply)
  {
    TurnsExplained(lib, run, i);
    var earlier := Jobs(run)[..i];
    AloneTellsTruth(lib, Cells(CurrentKey(earlier), ShownOption(lib, CurrentPolicy(lib, earlier))), Jobs(run)[i]);
  }

  /** A request that loaded a key, or installed a policy, has been told so, and no other has. */
  lemma AcceptedIff(lib: Library, run: seq<VaultEvent>, i: nat)
    requires Lawful(lib) && VaultRun(lib, run) && i < |Vaulted(lib, run).links|
    ensures i < |Jobs(run)| && Jobs(run)[i].request == Vaulted(lib, run).links[i].request
    ensures Accepted(lib, run, i, UpdateKey) <==> LoadedKey(Jobs(run)[i]).Some?
    ensures Accepted(lib, run, i, SetPolicy) <==> InstalledPolicy(lib, Jobs(run)[i]).Some?
  {
    TurnsExplained(lib, run, i);
    if Jobs(run)[i].inputs != [] {
      var earlier := Jobs(run)[..i];
      var cells := Cells(CurrentKey(earlier), ShownOption(lib, CurrentPolicy(lib, earlier)));
      EffectOfJob(lib, cells, Jobs(run)[i]);
      AloneTellsTruth(lib, cells, Jobs(run)[i]);
    }
  }

  /** What the history says is current is what the clients were told is in force. */
  lemma {:induction false} InForceIsCurrent(lib: Library, run: seq<VaultEvent>, i: nat)
    requires Lawful(lib) && VaultRun(lib, run) && i <= |Vaulted(lib, run).links|
    ensures i <= |Jobs(run)|
    ensures KeyInForce(lib, run, i) == CurrentKey(Jobs(run)[..i])
    ensures PolicyInForce(lib, run, i) == CurrentPolicy(lib, Jobs(run)[..i])
    decreases i
  {
    if i > 0 {
      InForceIsCurrent(lib, run, i - 1);
      AcceptedIff(lib, run, i - 1);
      assert Jobs(run)[..i][..i - 1] == Jobs(run)[..i - 1];
    }
  }

  // ------------------------------------------------------------------------------------------
  // What holds in every run.

  /**
  In every reachable state the cells hold the key and the policy in force; the key is a valid
  32-byte scalar, the policy has 1 to 5 recipients, none of them the zero address.
  */
  lemma StateInvariant(lib: Library, run: seq<VaultEvent>)
    requires Lawful(lib) && VaultRun(lib, run)
    ensures var (cells, n) := (Vaulted(lib, run).cells, |Vaulted(lib, run).links|);
            && cells == Cells(KeyInForce(lib, run, n), ShownOption(lib, PolicyInForce(lib, run, n)))
            && (cells.key.Some? ==> StoredKey(cells.key.value))
            && (cells.policy.Some? ==>
                  1 <= |cells.policy.value.allowedRecipients| <= 5 && ZERO_ADDRESS !in cells.policy.value.allowedRecipients)
  {
    var n := |Vaulted(lib, run).links|;
    Linearizable(VaultProgram(lib), EMPTY_CELLS, run);
    assert Jobs(run)[..n] == Jobs(run);
    CellsExplained(VaultProgram(lib), EMPTY_CELLS, run);
    CellsAreCurrent(lib, Jobs(run));
    CurrentIsSound(lib, Jobs(run));
    InForceIsCurrent(lib, run, n);
    if PolicyInForce(lib, run, n).Some? {
      ZeroAddressListed(lib, PolicyInForce(lib, run, n).value);
    }
  }

  /** A request answered by its first turn got it with the key and the policy in force. */
  lemma AnsweredInForce(lib: Library, run: seq<VaultEvent>, i: nat, reply: Reply)
    requires Lawful(lib) && VaultRun(lib, run) && Answered(lib, run, i, reply)
    requires !(Vaulted(lib, run).links[i].request.Act? && Vaulted(lib, run).links[i].request.op.UpdateKey?)
    ensures i < |Jobs(run)| && Jobs(run)[i].inputs != []
    ensures var (key, policy) := (KeyInForce(lib, run, i), PolicyInForce(lib, run, i));
            var turn := StartTurn(lib, Cells(key, ShownOption(lib, policy)), Vaulted(lib, run).links[i].request, Jobs(run)[i].inputs[0]);
            && turn.Return? && turn.result == reply
            && (key.Some? ==> StoredKey(key.value)) && (policy.Some? ==> AcceptablePolicy(policy.value))
  {
    TurnsExplained(lib, run, i);
    InForceIsCurrent(lib, run, i);
    CurrentIsSound(lib, Jobs(run)[..i]);
    var cells := Cells(KeyInForce(lib, run, i), ShownOption(lib, PolicyInForce(lib, run, i)));
    EffectOfFirstTurn(lib, cells, Job(Jobs(run)[i].request, [Jobs(run)[i].inputs[0]]));
    AloneTakesTurns(lib, cells, Jobs(run)[i]);
  }

  /** The clock value a request read in its first turn. */
  ghost function ClockRead(run: seq<VaultEvent>, i: nat): nat {
    if i < |Jobs(run)| && Jobs(run)[i].inputs != [] then Jobs(run)[i].inputs[0].now else 0
  }

  /**
  Gate safety and completeness over whole runs. However a run interleaves, a SIGN request that has
  been answered released a signature if and only if the gate lets it, given the clock value it read
  and the key and the policy in force: those of the latest UPDATE and SET_POLICY, among the requests
  that arrived before it, that were told they are done. What it released is the submitted bytes with
  that key's signature over them.
  */
  lemma GateHolds(lib: Library, run: seq<VaultEvent>, i: nat, m: Field, reply: Reply)
    requires Lawful(lib) && VaultRun(lib, run) && Answered(lib, run, i, reply)
    requires Vaulted(lib, run).links[i].request == Act(Sign, m)
    ensures var (key, policy) := (KeyInForce(lib, run, i), PolicyInForce(lib, run, i));
            if MaySign(lib, key, policy, m, ClockRead(run, i)) then reply == Signed(Release(lib, key.value, m))
            else reply.Refused?
  {
    AnsweredInForce(lib, run, i, reply);
    SignMeans(lib, KeyInForce(lib, run, i), PolicyInForce(lib, run, i), m, ClockRead(run, i));
  }

  /** An UPDATE that is suspended has asked the node to decrypt exactly the bytes that were submitted. */
  lemma AwaitsSubmitted(lib: Library, run: seq<VaultEvent>, i: nat)
    requires Lawful(lib) && VaultRun(lib, run)
    requires i < |Vaulted(lib, run).links| && Vaulted(lib, run).links[i].phase.Running?
    ensures var link := Vaulted(lib, run).links[i];
            && link.request.Act? && link.request.op == UpdateKey
            && Submitted(link.request.message) == Some(link.phase.at.ciphertext)
  {
    TurnsExplained(lib, run, i);
    var earlier := Jobs(run)[..i];
    var cells := Cells(CurrentKey(earlier), ShownOption(lib, CurrentPolicy(lib, earlier)));
    AloneTakesTurns(lib, cells, Jobs(run)[i]);
    StartAwaits(lib, cells, Jobs(run)[i], Jobs(run)[i].inputs[0]);
  }

  /** No request from i up to j was told that it replaced the key or the policy. */
  ghost predicate NothingReplaced(lib: Library, run: seq<VaultEvent>, i: nat, j: nat)
    requires VaultRun(lib, run)
  {
    forall k :: i <= k < j ==> !Accepted(lib, run, k, UpdateKey) && !Accepted(lib, run, k, SetPolicy)
  }

  lemma {:induction false} NothingReplacedKeeps(lib: Library, run: seq<VaultEvent>, i: nat, j: nat)
    requires VaultRun(lib, run) && i <= j && NothingReplaced(lib, run, i, j)
    ensures KeyInForce(lib, run, j) == KeyInForce(lib, run, i)
    ensures PolicyInForce(lib, run, j) == PolicyInForce(lib, run, i)
    decreases j
  {
    if i < j {
      NothingReplacedKeeps(lib, run, i, j - 1);
    }
  }

  /** Over a run: a message once refused stays refused while neither key nor policy is replaced and the clock does not go back. */
  lemma RefusedStaysRefused(lib: Library, run: seq<VaultEvent>, i: nat, j: nat, m: Field, first: Reply, second: Reply)
    requires Lawful(lib) && VaultRun(lib, run) && i <= j
    requires Answered(lib, run, i, first) && Vaulted(lib, run).links[i].request == Act(Sign, m)
    requires Answered(lib, run, j, second) && Vaulted(lib, run).links[j].request == Act(Sign, m)
    requires NothingReplaced(lib, run, i, j)
    requires ClockRead(run, i) <= ClockRead(run, j)
    requires first.Refused?
    ensures second.Refused?
  {
    GateHolds(lib, run, i, m, first);
    GateHolds(lib, run, j, m, second);
    NothingReplacedKeeps(lib, run, i, j);
  }

  /** A state read answers with the address of the key in force, and the policy in force. */
  lemma StateReadIsCurrent(lib: Library, run: seq<VaultEvent>, i: nat, reply: Reply)
    requires Lawful(lib) && VaultRun(lib, run) && Answered(lib, run, i, reply)
    requires Vaulted(lib, run).links[i].request == ReadState
    ensures var (key, policy) := (KeyInForce(lib, run, i), PolicyInForce(lib, run, i));
            && reply.Snapshot?
            && reply.view.hasKey == key.Some? && reply.view.hasPolicy == reply.view.policy.Some? == policy.Some?
            && reply.view.vaultAddress == (if key.Some? then Some(BytesToHex(lib.address(key.value))) else None)
            && (policy.Some? ==>
                  && reply.view.policy.value.maxAmount == policy.value.maxAmount
                  && reply.view.policy.value.expiresAt == policy.value.expiresAt
                  && |reply.view.policy.value.allowedRecipients| == |policy.value.recipients|
                  && forall k :: 0 <= k < |policy.value.recipients| ==>
                       reply.view.policy.value.allowedRecipients[k] == lib.checksum(policy.value.recipients[k]))
  {
    AnsweredInForce(lib, run, i, reply);
  }

  // ------------------------------------------------------------------------------------------
  // The chain of the vault is never poisoned.

  /**
  No request is ever rejected. A state read on an invalid key would throw, and poison the chain
  for good; but no such key is ever stored.
  */
  lemma {:induction false} NothingRejected(lib: Library, run: seq<VaultEvent>)
    requires Lawful(lib) && VaultRun(lib, run)
    ensures forall i :: 0 <= i < |Vaulted(lib, run).links| ==> !Vaulted(lib, run).links[i].phase.Rejected?
    decreases |run|
  {
    if run != [] {
      var before, ev := run[..|run| - 1], run[|run| - 1];
      var st := Vaulted(lib, before);
      NothingRejected(lib, before);
      StateInvariant(lib, before);
      if ev.Start? {
        ThrowsIff(lib, st.cells, st.links[ev.index].request, ev.seen, AwaitingDecrypt([]));
      }
    }
  }

  /** Requests that arrived and have not been answered. */
  ghost predicate SomeUnanswered(lib: Library, run: seq<VaultEvent>)
    requires VaultRun(lib, run)
  {
    exists i :: 0 <= i < |Vaulted(lib, run).links| && !Vaulted(lib, run).links[i].phase.Fulfilled?
  }

  /**
  The vault is held up by nothing but a decrypt call: while requests are unanswered, the next one
  can start if and only if no UPDATE is waiting for the node; and if one is, its reply lets it go on.
  */
  lemma VaultProgresses(lib: Library, run: seq<VaultEvent>, seen: Seen)
    requires Lawful(lib) && VaultRun(lib, run) && SomeUnanswered(lib, run)
    ensures (exists i: nat {:trigger Event<Request, Seen>.Start(i, seen)} ::
               Enabled(Vaulted(lib, run).links, Event<Request, Seen>.Start(i, seen))) <==>
            forall i: nat {:trigger Event<Request, Seen>.Continue(i, seen)} ::
              !Enabled(Vaulted(lib, run).links, Event<Request, Seen>.Continue(i, seen))
  {
    var links := Vaulted(lib, run).links;
    NothingRejected(lib, run);
    ProgressUnlessHeldUp(VaultProgram(lib), EMPTY_CELLS, run);
    CanStartMeansEnabled(links, seen);
    forall i: nat
      ensures Enabled(links, Event<Request, Seen>.Continue(i, seen)) <==> i < |links| && links[i].phase.Running?
    {
    }
  }

  // ------------------------------------------------------------------------------------------
  // Everybody is answered.

  /** The turns a link can still take. */
  function TurnsLeft(phase: Phase<Suspension, Reply>): nat {
    match phase
    case Waiting => 2
    case Running(_) => 1
    case _ => 0
  }

  /** At most two turns for each request that is not answered. */
  function Work(links: seq<VaultLink>): nat {
    if links == [] then 0 else Work(links[..|links| - 1]) + TurnsLeft(links[|links| - 1].phase)
  }

  lemma {:induction false} WorkUpdated(links: seq<VaultLink>, i: nat, link: VaultLink)
    requires i < |links|
    ensures Work(links[i := link]) == Work(links) - TurnsLeft(links[i].phase) + TurnsLeft(link.phase)
    decreases |links|
  {
    var n := |links|;
    assert links[i := link][..n - 1] == if i == n - 1 then links[..n - 1] else links[..n - 1][i := link];
    if i < n - 1 {
      WorkUpdated(links[..n - 1], i, link);
    }
  }

  /** Every turn uses up some of the work. */
  lemma TurnUsesWork(lib: Library, run: seq<VaultEvent>, ev: VaultEvent)
    requires Lawful(lib) && VaultRun(lib, run) && !ev.Arrive?
    requires Enabled(Vaulted(lib, run).links, ev)
    ensures Work(Next(VaultProgram(lib), Vaulted(lib, run), ev).links) < Work(Vaulted(lib, run).links)
    ensures |Next(VaultProgram(lib), Vaulted(lib, run), ev).links| == |Vaulted(lib, run).links|
  {
    var st := Vaulted(lib, run);
    NothingRejected(lib, run);
    var next := Next(VaultProgram(lib), st, ev);
    WorkUpdated(st.links, ev.index, next.links[ev.index]);
    if ev.Continue? {
      ResumeReturns(st.cells, ev.seen.reply);
    }
  }

  /** Without new arrivals a run has only so many turns left, however they are scheduled and whatever the environment shows. */
  lemma {:induction false} TurnsAreBounded(lib: Library, run: seq<VaultEvent>, more: seq<VaultEvent>)
    requires Lawful(lib) && VaultRun(lib, run) && VaultRun(lib, run + more)
    requires forall k :: 0 <= k < |more| ==> !more[k].Arrive?
    ensures |more| + Work(Vaulted(lib, run + more).links) <= Work(Vaulted(lib, run).links)
    ensures |Vaulted(lib, run + more).links| == |Vaulted(lib, run).links|
    decreases |more|
  {
    if more == [] {
      assert run + more == run;
    } else {
      var fewer := more[..|more| - 1];
      assert (run + more)[..|run + more| - 1] == run + fewer;
      TurnsAreBounded(lib, run, fewer);
      TurnUsesWork(lib, run + fewer, more[|more| - 1]);
    }
  }

  /** A run goes on with any enabled event. */
  lemma RunGoesOn(lib: Library, run: seq<VaultEvent>, ev: VaultEvent)
    requires VaultRun(lib, run) && Enabled(Vaulted(lib, run).links, ev)
    ensures VaultRun(lib, run + [ev])
    ensures Vaulted(lib, run + [ev]) == Next(VaultProgram(lib), Vaulted(lib, run), ev)
  {
    assert (run + [ev])[..|run + [ev]| - 1] == run;
  }

  /** While somebody is unanswered, some turn can be taken. */
  lemma SomeTurn(lib: Library, run: seq<VaultEvent>, seen: Seen) returns (ev: VaultEvent)
    requires Lawful(lib) && VaultRun(lib, run) && SomeUnanswered(lib, run)
    ensures Enabled(Vaulted(lib, run).links, ev) && !ev.Arrive?
  {
    VaultProgresses(lib, run, seen);
    if i: nat {:trigger Event<Request, Seen>.Start(i, seen)} :| Enabled(Vaulted(lib, run).links, Event<Request, Seen>.Start(i, seen)) {
      ev := Event<Request, Seen>.Start(i, seen);
    } else {
      var i: nat :| Enabled(Vaulted(lib, run).links, Event<Request, Seen>.Continue(i, seen));
      ev := Event<Request, Seen>.Continue(i, seen);
    }
  }

  ghost predicate AllAnswered(lib: Library, run: seq<VaultEvent>)
    requires VaultRun(lib, run)
  {
    forall i :: 0 <= i < |Vaulted(lib, run).links| ==> Vaulted(lib, run).links[i].phase.Fulfilled?
  }

  /**
  Nobody waits forever for anything but the node. Once no more requests arrive, any schedule of
  turns ends after at most two turns for each unanswered request, and it can only end with all
  requests answered.
  */
  lemma EveryScheduleAnswersAll(lib: Library, run: seq<VaultEvent>, more: seq<VaultEvent>)
    requires Lawful(lib) && VaultRun(lib, run) && VaultRun(lib, run + more)
    requires forall k :: 0 <= k < |more| ==> !more[k].Arrive?
    ensures |more| <= Work(Vaulted(lib, run).links)
    ensures |Vaulted(lib, run + more).links| == |Vaulted(lib, run).links|
    ensures (forall ev: VaultEvent :: Enabled(Vaulted(lib, run + more).links, ev) ==> ev.Arrive?) <==> AllAnswered(lib, run + more)
  {
    TurnsAreBounded(lib, run, more);
    if SomeUnanswered(lib, run + more) {
      var ev := SomeTurn(lib, run + more, Seen(0, None));
    }
  }

  /** And from every reachable state there is such a schedule. */
  lemma {:induction false} AllCanBeAnswered(lib: Library, run: seq<VaultEvent>, seen: Seen) returns (all: seq<VaultEvent>)
    requires Lawful(lib) && VaultRun(lib, run)
    ensures run <= all && forall k :: |run| <= k < |all| ==> !all[k].Arrive?
    ensures VaultRun(lib, all) && AllAnswered(lib, all)
    decreases Work(Vaulted(lib, run).links)
  {
    if SomeUnanswered(lib, run) {
      var ev := SomeTurn(lib, run, seen);
      TurnUsesWork(lib, run, ev);
      RunGoesOn(lib, run, ev);
      all := AllCanBeAnswered(lib, run + [ev], seen);
      assert all[|run|] == (run + [ev])[|run|];
    } else {
      all := run;
    }
  }
}
