/**
The on-chain entry contract: tee/contracts/InstructionSender.sol. The extension registry is
external; it appears as the list of instruction senders of the public extensions, which only grows.
*/
module InstructionSender {
  import opened Prelude
  import opened Bytes
  import opened Hex
  import opened Dispatch

  type Address = nat

  const FIRST_PUBLIC_EXTENSION_ID: nat := 0x10000

  /** The contract's own constants: words with the names left-aligned. */
  const OP_TYPE_KEY: seq<Byte> := [0x4B, 0x45, 0x59] + Zeros(29)
  const OP_COMMAND_UPDATE: seq<Byte> := [0x55, 0x50, 0x44, 0x41, 0x54, 0x45] + Zeros(26)
  const OP_COMMAND_SET_POLICY: seq<Byte> := [0x53, 0x45, 0x54, 0x5F, 0x50, 0x4F, 0x4C, 0x49, 0x43, 0x59] + Zeros(22)
  const OP_COMMAND_SIGN: seq<Byte> := [0x53, 0x49, 0x47, 0x4E] + Zeros(28)

  /** The command that updateKey, setPolicy or sign hands to _send. */
  function OpCommand(op: Operation): seq<Byte> {
    match op
    case UpdateKey => OP_COMMAND_UPDATE
    case SetPolicy => OP_COMMAND_SET_POLICY
    case Sign => OP_COMMAND_SIGN
  }

  /** senders[k] is the instructions sender of extension FIRST_PUBLIC_EXTENSION_ID + k. */
  datatype Registry = Registry(senders: seq<Address>)

  function NextPublicExtensionId(r: Registry): nat {
    FIRST_PUBLIC_EXTENSION_ID + |r.senders|
  }

  /** The zero address for an id that is not registered. */
  function InstructionsSender(r: Registry, id: nat): Address {
    if FIRST_PUBLIC_EXTENSION_ID <= id < NextPublicExtensionId(r) then r.senders[id - FIRST_PUBLIC_EXTENSION_ID] else 0
  }

  /** An instruction that reached the registry. */
  datatype Instruction = Instruction(
    drawnFrom: nat, teeIds: seq<Address>, opType: seq<Byte>, opCommand: seq<Byte>, message: seq<Byte>,
    claimBack: Address, value: nat)

  /**
  One external event: the registry grows, or somebody calls the contract. Both registries may revert
  a send: the machine registry then yields no TEE ids, the extension registry does not take the instruction.
  */
  datatype Call =
    | Register(sender: Address)
    | SetExtensionId
    | Send(op: Operation, message: seq<Byte>, sender: Address, value: nat, teeIds: Option<seq<Address>>, taken: bool)

  datatype State = State(extensionId: nat, registry: Registry, sent: seq<Instruction>)

  const DEPLOYED: State := State(0, Registry([]), [])

  /** id is the least public id registered to the contract. */
  predicate IsLeastOwn(r: Registry, self: Address, id: nat) {
    && FIRST_PUBLIC_EXTENSION_ID <= id < NextPublicExtensionId(r)
    && InstructionsSender(r, id) == self
    && forall j :: FIRST_PUBLIC_EXTENSION_ID <= j < id ==> InstructionsSender(r, j) != self
  }

  /** The search, from id i on. */
  function FindOwn(r: Registry, self: Address, i: nat): Option<nat>
    decreases NextPublicExtensionId(r) - i
  {
    if i >= NextPublicExtensionId(r) then None
    else if InstructionsSender(r, i) == self then Some(i)
    else FindOwn(r, self, i + 1)
  }

  lemma {:induction false} FindOwnIsLeast(r: Registry, self: Address, i: nat)
    requires FIRST_PUBLIC_EXTENSION_ID <= i
    requires forall j :: FIRST_PUBLIC_EXTENSION_ID <= j < i ==> InstructionsSender(r, j) != self
    ensures FindOwn(r, self, i).Some? ==> IsLeastOwn(r, self, FindOwn(r, self, i).value)
    ensures FindOwn(r, self, i).None? ==>
              forall j :: FIRST_PUBLIC_EXTENSION_ID <= j < NextPublicExtensionId(r) ==> InstructionsSender(r, j) != self
    decreases NextPublicExtensionId(r) - i
  {
    if i < NextPublicExtensionId(r) && InstructionsSender(r, i) != self {
      FindOwnIsLeast(r, self, i + 1);
    }
  }

  /** Neither registry reverts the send. */
  predicate GoesThrough(c: Call) {
    c.Send? && c.teeIds.Some? && c.taken
  }

  function InstructionFor(extensionId: nat, c: Call): Instruction
    requires GoesThrough(c)
  {
    Instruction(extensionId, c.teeIds.value, OP_TYPE_KEY, OpCommand(c.op), c.message, c.sender, c.value)
  }

  /** A call that reverts leaves the state as it was. */
  function Next(self: Address, s: State, c: Call): State {
    match c
    case Register(sender) => s.(registry := Registry(s.registry.senders + [sender]))
    case SetExtensionId =>
      var found := FindOwn(s.registry, self, FIRST_PUBLIC_EXTENSION_ID);
      if s.extensionId != 0 || found.None? then s else s.(extensionId := found.value)
    case Send(_, _, _, _, _, _) =>
      if s.extensionId == 0 || !GoesThrough(c) then s else s.(sent := s.sent + [InstructionFor(s.extensionId, c)])
  }

  function After(self: Address, calls: seq<Call>): State {
    if calls == [] then DEPLOYED else Next(self, After(self, calls[..|calls| - 1]), calls[|calls| - 1])
  }

  // ------------------------------------------------------------------------------------------

  /** Registering another extension does not change which own id is the least. */
  lemma GrowthKeepsLeast(r: Registry, self: Address, id: nat, sender: Address)
    requires IsLeastOwn(r, self, id)
    ensures IsLeastOwn(Registry(r.senders + [sender]), self, id)
  {
    var grown := Registry(r.senders + [sender]);
    forall j | FIRST_PUBLIC_EXTENSION_ID <= j <= id
      ensures InstructionsSender(grown, j) == InstructionsSender(r, j)
    {
    }
  }

  /** Extensions are numbered from 65536 in the order of their registration; the least own id is the first of the contract. */
  lemma LeastOwnMeans(r: Registry, self: Address, id: nat)
    requires IsLeastOwn(r, self, id)
    ensures var k := id - 65536;
            0 <= k < |r.senders| && r.senders[k] == self && self !in r.senders[..k]
  {
    forall j | 0 <= j < id - FIRST_PUBLIC_EXTENSION_ID
      ensures r.senders[j] != self
    {
      assert InstructionsSender(r, FIRST_PUBLIC_EXTENSION_ID + j) == r.senders[j];
    }
  }

  /**
  Set-once binding, over every sequence of calls: the id is unset, and then nothing has been sent;
  or it is the least public id registered to this contract, and every instruction sent drew its
  TEE from that id.
  */
  lemma {:induction false} Binding(self: Address, calls: seq<Call>)
    ensures var s := After(self, calls);
            && (s.extensionId == 0 ==> s.sent == [])
            && (s.extensionId != 0 ==>
                  && IsLeastOwn(s.registry, self, s.extensionId)
                  && var k := s.extensionId - 65536;
                     0 <= k < |s.registry.senders| && s.registry.senders[k] == self && self !in s.registry.senders[..k])
            && forall k :: 0 <= k < |s.sent| ==> s.sent[k].drawnFrom == s.extensionId
    decreases |calls|
  {
    if calls != [] {
      var before := After(self, calls[..|calls| - 1]);
      var c := calls[|calls| - 1];
      Binding(self, calls[..|calls| - 1]);
      FindOwnIsLeast(before.registry, self, FIRST_PUBLIC_EXTENSION_ID);
      if c.Register? && before.extensionId != 0 {
        GrowthKeepsLeast(before.registry, self, before.extensionId, c.sender);
      }
    }
    if After(self, calls).extensionId != 0 {
      LeastOwnMeans(After(self, calls).registry, self, After(self, calls).extensionId);
    }
  }

  /** Once set, the id never changes, whatever is registered or called afterwards. */
  lemma {:induction false} NeverRebound(self: Address, calls: seq<Call>, more: seq<Call>)
    requires After(self, calls).extensionId != 0
    ensures After(self, calls + more).extensionId == After(self, calls).extensionId
    ensures After(self, calls).sent <= After(self, calls + more).sent
    decreases |more|
  {
    if more == [] {
      assert calls + more == calls;
    } else {
      assert (calls + more)[..|calls + more| - 1] == calls + more[..|more| - 1];
      NeverRebound(self, calls, more[..|more| - 1]);
    }
  }

  /** The sends among `calls` for which a TEE was found and whose instruction was taken, oldest first. */
  function Forwarded(calls: seq<Call>): seq<Call> {
    if calls == [] then []
    else
      var before := Forwarded(calls[..|calls| - 1]);
      var c := calls[|calls| - 1];
      if c.Send? && c.teeIds.Some? && c.taken then before + [c] else before
  }

  /** An instruction does what its call asks for: all of it, with the full value, for the caller. */
  predicate CarriesCall(i: Instruction, id: nat, c: Call) {
    && c.Send? && c.teeIds.Some?
    && i.drawnFrom == id && i.teeIds == c.teeIds.value
    && i.opType == Bytes32(KEY) && i.opCommand == Bytes32(Command(c.op))
    && i.message == c.message && i.claimBack == c.sender && i.value == c.value
  }

  /** Both sides of the bridge write the same names into 32 bytes. */
  lemma NamesCoincide(op: Operation)
    ensures OP_TYPE_KEY == Bytes32(KEY) && OpCommand(op) == Bytes32(Command(op))
  {
  }

  /**
  From a bound contract every send that neither registry reverts is forwarded, and no other call
  adds anything: one instruction each, in order, with the operation, message, caller, TEE ids and
  full value of its call.
  */
  lemma {:induction false} SendsForwarded(self: Address, calls: seq<Call>, more: seq<Call>)
    requires After(self, calls).extensionId != 0
    ensures var (id, before, after) := (After(self, calls).extensionId, After(self, calls).sent, After(self, calls + more).sent);
            && |after| == |before| + |Forwarded(more)|
            && after[..|before|] == before
            && forall k :: 0 <= k < |Forwarded(more)| ==> CarriesCall(after[|before| + k], id, Forwarded(more)[k])
    decreases |more|
  {
    if more == [] {
      assert calls + more == calls;
    } else {
      var fewer, c := more[..|more| - 1], more[|more| - 1];
      assert (calls + more)[..|calls + more| - 1] == calls + fewer;
      SendsForwarded(self, calls, fewer);
      NeverRebound(self, calls, fewer);
      if c.Send? {
        NamesCoincide(c.op);
      }
    }
  }

  /** An unbound contract can be bound exactly when some extension is registered to it, and then to the earliest. */
  lemma BindsIffRegistered(self: Address, calls: seq<Call>)
    requires After(self, calls).extensionId == 0
    ensures var r := After(self, calls).registry;
            After(self, calls + [SetExtensionId]).extensionId != 0 <==> self in r.senders
  {
    var s := After(self, calls);
    assert (calls + [SetExtensionId])[..|calls|] == calls;
    FindOwnIsLeast(s.registry, self, FIRST_PUBLIC_EXTENSION_ID);
    forall k | 0 <= k < |s.registry.senders|
      ensures InstructionsSender(s.registry, FIRST_PUBLIC_EXTENSION_ID + k) == s.registry.senders[k]
    {
    }
  }

  /** What a contract entry point sends reaches its own handler in the extension, and no other. */
  lemma EntryPointReachesHandler(id: nat, c: Call, op: Operation)
    requires GoesThrough(c)
    ensures var i := InstructionFor(id, c);
            IsEarliest(TABLE, BytesToHex(i.opType), BytesToHex(i.opCommand), op) <==> op == c.op
  {
    var i := InstructionFor(id, c);
    NamesCoincide(c.op);
    EachOperationReachesItsHandler(BytesToHex(i.opType), BytesToHex(i.opCommand), op);
    CommandsDiffer(c.op, op);
  }

  // ------------------------------------------------------------------------------------------
  // The contract.

  class Contract {
    const self: Address
    var extensionId: nat
    var registry: Registry
    var sent: seq<Instruction>

    ghost function Abs(): State
      reads this
    {
      State(extensionId, registry, sent)
    }

    constructor (self: Address)
      ensures this.self == self && Abs() == DEPLOYED
    {
      this.self := self;
      extensionId := 0;
      registry := Registry([]);
      sent := [];
    }

    /** setExtensionId; false is a revert. */
    method DoSetExtensionId() returns (ok: bool)
      modifies this`extensionId
      ensures Abs() == Next(self, old(Abs()), SetExtensionId)
      ensures ok <==> old(extensionId) == 0 && extensionId != 0
    {
      if extensionId != 0 {
        return false;
      }
      var c := NextPublicExtensionId(registry);
      var i := FIRST_PUBLIC_EXTENSION_ID;
      while i < c
        invariant FIRST_PUBLIC_EXTENSION_ID <= i <= c
        invariant FindOwn(registry, self, i) == FindOwn(registry, self, FIRST_PUBLIC_EXTENSION_ID)
        invariant extensionId == 0
      {
        if InstructionsSender(registry, i) == self {
          extensionId := i;
          return true;
        }
        i := i + 1;
      }
      return false;
    }

    /** _send, behind updateKey, setPolicy and sign; false is a revert. */
    method DoSend(op: Operation, message: seq<Byte>, sender: Address, value: nat, teeIds: Option<seq<Address>>, taken: bool)
      returns (ok: bool)
      modifies this`sent
      ensures Abs() == Next(self, old(Abs()), Send(op, message, sender, value, teeIds, taken))
      ensures ok <==> |sent| == |old(sent)| + 1
    {
      if extensionId == 0 || teeIds.None? {
        return false;
      }
      if !taken {
        return false;
      }
      sent := sent + [Instruction(extensionId, teeIds.value, OP_TYPE_KEY, OpCommand(op), message, sender, value)];
      return true;
    }
  }
}
