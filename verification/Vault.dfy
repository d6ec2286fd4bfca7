/**
The CipherSign handlers: tee/typescript/src/app/handlers.ts. Two module-level cells, the private
key and the policy, are read and written by three operations and by the state report.

Each handler is specified by the turns it takes (see Serializer) and implemented by a method of
the class Vault that is proved to take exactly those turns.
*/
module Vault {
  import opened Prelude
  import opened Bytes
  import opened Hex
  import opened AbiPair
  import opened AbiValues
  import opened Signature
  import opened Library
  import opened Serializer
  import opened Dispatch

  // ------------------------------------------------------------------------------------------
  // Requests.

  /** A JSON field: missing or falsy, a string, or some other truthy value. */
  datatype Field = Absent | Text(text: string) | NotText

  predicate Truthy(f: Field) {
    f != Absent && f != Text("")
  }

  /** `df.originalMessage || df.message || ""`. */
  function MessageOf(originalMessage: Field, message: Field): Field {
    if Truthy(originalMessage) then originalMessage else if Truthy(message) then message else Text("")
  }

  /** hexToBytes, which throws on anything but a string. */
  function BytesOf(m: Field): Option<seq<Byte>> {
    if m.Text? then Some(NodeHexToBytes(m.text)) else None
  }

  datatype Request = Act(op: Operation, message: Field) | ReadState

  /** One turn's view of the environment: the clock in seconds, and the node's reply to a decrypt call. */
  datatype Seen = Seen(now: nat, reply: Option<seq<Byte>>)

  // ------------------------------------------------------------------------------------------
  // State and replies.

  datatype SignPolicy = SignPolicy(allowedRecipients: seq<string>, maxAmount: nat, expiresAt: nat)

  datatype SignIntent = SignIntent(recipient: string, amount: nat, deadline: nat, payloadHash: string)

  datatype Cells = Cells(key: Option<seq<Byte>>, policy: Option<SignPolicy>)

  const EMPTY_CELLS := Cells(None, None)

  datatype Refusal =
    | EmptyMessage | InvalidHex
    | DecryptionFailed | InvalidKey
    | InvalidPolicyEncoding | NoRecipients | TooManyRecipients | ZeroRecipient
    | NoKeyStored | NoPolicySet | InvalidIntentEncoding
    | PolicyExpired | DeadlinePassed | RecipientNotAllowed | AmountTooLarge | SigningFailed

  datatype StateView = StateView(hasKey: bool, hasPolicy: bool, vaultAddress: Option<string>, policy: Option<SignPolicy>)

  /** Refused is status 0; Done and Signed are status 1; Snapshot answers a state read. */
  datatype Reply = Refused(reason: Refusal) | Done | Signed(data: string) | Snapshot(view: StateView)

  /** Where a suspended UPDATE goes on. */
  datatype Suspension = AwaitingDecrypt(ciphertext: seq<Byte>)

  type VaultTurn = Turn<Cells, Suspension, Reply>

  // ------------------------------------------------------------------------------------------
  // UPDATE.

  function UpdateStart(cells: Cells, m: Field): VaultTurn {
    if !Truthy(m) then Return(cells, Refused(EmptyMessage))
    else match BytesOf(m)
      case None => Return(cells, Refused(InvalidHex))
      case Some(ciphertext) => Await(cells, AwaitingDecrypt(ciphertext))
  }

  function UpdateResume(cells: Cells, reply: Option<seq<Byte>>): VaultTurn {
    match reply
    case None => Return(cells, Refused(DecryptionFailed))
    case Some(keyBytes) =>
      match ParsedKey(keyBytes)
      case BadKey(_) => Return(cells, Refused(InvalidKey))
      case Key(key) => Return(cells.(key := Some(key)), Done)
  }

  // ------------------------------------------------------------------------------------------
  // SET_POLICY.

  const ZERO_ADDRESS: string := BytesToHex(Zeros(20))

  /** How a decoded policy looks to the extension: its addresses as checksum texts. */
  function Shown(lib: Library, p: RawPolicy): SignPolicy {
    SignPolicy(seq(|p.recipients|, i requires 0 <= i < |p.recipients| => lib.checksum(p.recipients[i])), p.maxAmount, p.expiresAt)
  }

  function AbiDecodePolicy(lib: Library, data: seq<Byte>): Option<SignPolicy> {
    match lib.decodePolicy(BytesToHex(data))
    case None => None
    case Some(raw) => Some(Shown(lib, raw))
  }

  function SetPolicyTurn(lib: Library, cells: Cells, m: Field): VaultTurn {
    if !Truthy(m) then Return(cells, Refused(EmptyMessage))
    else match BytesOf(m)
      case None => Return(cells, Refused(InvalidHex))
      case Some(data) =>
        match AbiDecodePolicy(lib, data)
        case None => Return(cells, Refused(InvalidPolicyEncoding))
        case Some(next) =>
          if next.allowedRecipients == [] then Return(cells, Refused(NoRecipients))
          else if |next.allowedRecipients| > 5 then Return(cells, Refused(TooManyRecipients))
          else if ZERO_ADDRESS in next.allowedRecipients then Return(cells, Refused(ZeroRecipient))
          else Return(cells.(policy := Some(next)), Done)
  }

  // ------------------------------------------------------------------------------------------
  // SIGN.

  function AbiDecodeIntent(lib: Library, data: seq<Byte>): Option<SignIntent> {
    match lib.decodeIntent(BytesToHex(data))
    case None => None
    case Some(raw) => Some(SignIntent(lib.checksum(raw.recipient), raw.amount, raw.deadline, BytesToHex(raw.payloadHash)))
  }

  /** Some address of the allowlist is the recipient, letter case aside. */
  predicate Listed(list: seq<string>, recipient: string) {
    exists i :: 0 <= i < |list| && Lower(list[i]) == Lower(recipient)
  }

  /** The gate: the first rule an intent breaks, if any. */
  function Objection(policy: SignPolicy, intent: SignIntent, now: nat): Option<Refusal> {
    if policy.expiresAt != 0 && now > policy.expiresAt then Some(PolicyExpired)
    else if intent.deadline != 0 && now > intent.deadline then Some(DeadlinePassed)
    else if !Listed(policy.allowedRecipients, intent.recipient) then Some(RecipientNotAllowed)
    else if intent.amount > policy.maxAmount then Some(AmountTooLarge)
    else None
  }

  function SignECDSA(lib: Library, key: seq<Byte>, message: seq<Byte>): Option<RawSignature> {
    lib.sign(lib.keccak(message), key)
  }

  function SignTurn(lib: Library, cells: Cells, m: Field, now: nat): VaultTurn {
    if cells.key.None? then Return(cells, Refused(NoKeyStored))
    else if cells.policy.None? then Return(cells, Refused(NoPolicySet))
    else if !Truthy(m) then Return(cells, Refused(EmptyMessage))
    else match BytesOf(m)
      case None => Return(cells, Refused(InvalidHex))
      case Some(msgBytes) =>
        match AbiDecodeIntent(lib, msgBytes)
        case None => Return(cells, Refused(InvalidIntentEncoding))
        case Some(intent) =>
          match Objection(cells.policy.value, intent, now)
          case Some(reason) => Return(cells, Refused(reason))
          case None =>
            match SignECDSA(lib, cells.key.value, msgBytes)
            case None => Return(cells, Refused(SigningFailed))
            case Some(sig) => Return(cells, Signed(BytesToHex(EncodePair(msgBytes, Packed(sig)))))
  }

  // ------------------------------------------------------------------------------------------
  // State report, and the program the server runs.

  function VaultAddress(lib: Library, key: Option<seq<Byte>>): Option<string> {
    if key.Some? then Some(BytesToHex(lib.address(key.value))) else None
  }

  /** getPublicKey, on which the address of a key depends, throws on an invalid scalar; nothing catches that. */
  predicate Reportable(cells: Cells) {
    cells.key.Some? ==> ValidScalar(cells.key.value)
  }

  function Report(lib: Library, cells: Cells): StateView {
    StateView(cells.key.Some?, cells.policy.Some?, VaultAddress(lib, cells.key), cells.policy)
  }

  function StateTurn(lib: Library, cells: Cells): VaultTurn {
    if Reportable(cells) then Return(cells, Snapshot(Report(lib, cells))) else Throw(cells)
  }

  function StartTurn(lib: Library, cells: Cells, q: Request, seen: Seen): VaultTurn {
    match q
    case ReadState => StateTurn(lib, cells)
    case Act(UpdateKey, m) => UpdateStart(cells, m)
    case Act(SetPolicy, m) => SetPolicyTurn(lib, cells, m)
    case Act(Sign, m) => SignTurn(lib, cells, m, seen.now)
  }

  function VaultProgram(lib: Library): Program<Cells, Request, Seen, Suspension, Reply> {
    Program((cells, q, seen) => StartTurn(lib, cells, q, seen), (cells, k, seen: Seen) => UpdateResume(cells, seen.reply))
  }

  // ------------------------------------------------------------------------------------------
  // The handlers themselves.

  class Vault {
    const lib: Library
    var privateKey: Option<seq<Byte>>
    var policy: Option<SignPolicy>

    ghost function Abs(): Cells
      reads this
    {
      Cells(privateKey, policy)
    }

    constructor (lib: Library)
      ensures this.lib == lib && Abs() == EMPTY_CELLS
    {
      this.lib := lib;
      privateKey := None;
      policy := None;
    }

    /** handleKeyUpdate up to the await: a refusal, or the ciphertext sent to the node. */
    method HandleKeyUpdate(m: Field) returns (turn: VaultTurn)
      ensures turn == UpdateStart(Abs(), m)
    {
      if !Truthy(m) {
        return Return(Cells(privateKey, policy), Refused(EmptyMessage));
      }
      match BytesOf(m)
      case None =>
        return Return(Cells(privateKey, policy), Refused(InvalidHex));
      case Some(ciphertext) =>
        return Await(Cells(privateKey, policy), AwaitingDecrypt(ciphertext));
    }

    /** handleKeyUpdate after the await, in whatever state the cells are then. */
    method FinishKeyUpdate(reply: Option<seq<Byte>>) returns (r: Reply)
      modifies this`privateKey
      ensures Return(Abs(), r) == UpdateResume(old(Abs()), reply)
    {
      if reply.None? {
        return Refused(DecryptionFailed);
      }
      var validated := ParsePrivateKey(reply.value);
      match validated
      case BadKey(_) =>
        return Refused(InvalidKey);
      case Key(key) =>
        privateKey := Some(key);
        return Done;
    }

    method HandleSetPolicy(m: Field) returns (r: Reply)
      modifies this`policy
      ensures Return(Abs(), r) == SetPolicyTurn(lib, old(Abs()), m)
    {
      if !Truthy(m) {
        return Refused(EmptyMessage);
      }
      var raw := BytesOf(m);
      if raw.None? {
        return Refused(InvalidHex);
      }
      var decoded := AbiDecodePolicy(lib, raw.value);
      if decoded.None? {
        return Refused(InvalidPolicyEncoding);
      }
      var next := decoded.value;
      if |next.allowedRecipients| == 0 {
        return Refused(NoRecipients);
      }
      if |next.allowedRecipients| > 5 {
        return Refused(TooManyRecipients);
      }
      for i := 0 to |next.allowedRecipients|
        invariant ZERO_ADDRESS !in next.allowedRecipients[..i]
        invariant policy == old(policy)
      {
        if next.allowedRecipients[i] == ZERO_ADDRESS {
          return Refused(ZeroRecipient);
        }
      }
      assert next.allowedRecipients[..|next.allowedRecipients|] == next.allowedRecipients;
      policy := Some(next);
      return Done;
    }

    method HandleKeySign(m: Field, now: nat) returns (r: Reply)
      ensures Return(Abs(), r) == SignTurn(lib, Abs(), m, now)
    {
      if privateKey.None? {
        return Refused(NoKeyStored);
      }
      if policy.None? {
        return Refused(NoPolicySet);
      }
      if !Truthy(m) {
        return Refused(EmptyMessage);
      }
      var msgBytes := BytesOf(m);
      if msgBytes.None? {
        return Refused(InvalidHex);
      }
      var intent := AbiDecodeIntent(lib, msgBytes.value);
      if intent.None? {
        return Refused(InvalidIntentEncoding);
      }
      if policy.value.expiresAt != 0 && now > policy.value.expiresAt {
        return Refused(PolicyExpired);
      }
      if intent.value.deadline != 0 && now > intent.value.deadline {
        return Refused(DeadlinePassed);
      }
      var allowed := SomeEqual(policy.value.allowedRecipients, intent.value.recipient);
      if !allowed {
        return Refused(RecipientNotAllowed);
      }
      if intent.value.amount > policy.value.maxAmount {
        return Refused(AmountTooLarge);
      }
      var sig := SignECDSA(lib, privateKey.value, msgBytes.value);
      if sig.None? {
        return Refused(SigningFailed);
      }
      var packed := PackSignature(sig.value);
      return Signed(BytesToHex(EncodePair(msgBytes.value, packed)));
    }

    /** `allowedRecipients.some(a => a.toLowerCase() === recipient.toLowerCase())`. */
    static method SomeEqual(list: seq<string>, recipient: string) returns (found: bool)
      ensures found <==> exists i :: 0 <= i < |list| && Lower(list[i]) == Lower(recipient)
    {
      for i := 0 to |list|
        invariant forall j :: 0 <= j < i ==> Lower(list[j]) != Lower(recipient)
      {
        if Lower(list[i]) == Lower(recipient) {
          return true;
        }
      }
      return false;
    }

    /** reportState; None if it throws. */
    method ReportState() returns (r: Option<Reply>)
      ensures StateTurn(lib, Abs()) == if r.Some? then Return(Abs(), r.value) else Throw(Abs())
    {
      var vaultAddress: Option<string> := None;
      if privateKey.Some? {
        if !ValidScalar(privateKey.value) {
          return None;
        }
        vaultAddress := Some(BytesToHex(lib.address(privateKey.value)));
      }
      return Some(Snapshot(StateView(privateKey.Some?, policy.Some?, vaultAddress, policy)));
    }

    /** The first turn of any request, as the server's queue runs it: the cells are left as the turn says. */
    method StartRequest(q: Request, seen: Seen) returns (turn: VaultTurn)
      modifies this
      ensures turn == VaultProgram(lib).start(old(Abs()), q, seen) && Abs() == turn.cells
    {
      var r: Reply;
      match q
      case ReadState =>
        var view := ReportState();
        turn := if view.Some? then Return(Cells(privateKey, policy), view.value) else Throw(Cells(privateKey, policy));
      case Act(UpdateKey, m) =>
        turn := HandleKeyUpdate(m);
      case Act(SetPolicy, m) =>
        r := HandleSetPolicy(m);
        turn := Return(Cells(privateKey, policy), r);
      case Act(Sign, m) =>
        r := HandleKeySign(m, seen.now);
        turn := Return(Cells(privateKey, policy), r);
    }

    /** The turn after the await. */
    method ResumeRequest(k: Suspension, seen: Seen) returns (turn: VaultTurn)
      modifies this
      ensures turn == VaultProgram(lib).resume(old(Abs()), k, seen) && Abs() == turn.cells
    {
      var r := FinishKeyUpdate(seen.reply);
      turn := Return(Cells(privateKey, policy), r);
    }
  }

  /**
  The part of processAction before the queue: the operation pair selects the handler, and the
  request carries the message the handler will get. None is the reply 501.
  */
  method ProcessAction(framework: Framework<Operation>, opType: string, opCommand: string, originalMessage: Field, message: Field)
    returns (request: Option<Request>)
    requires framework.handlers == TABLE
    ensures forall op :: (request.Some? && request.value.Act? && request.value.op == op) <==>
              opType == Bytes32Hex(KEY) && opCommand == Bytes32Hex(Command(op))
    ensures request.Some? ==> request.value.Act?
    ensures request.Some? && Truthy(originalMessage) ==> request.value.message == originalMessage
    ensures request.Some? && !Truthy(originalMessage) && Truthy(message) ==> request.value.message == message
    ensures request.Some? && !Truthy(originalMessage) && !Truthy(message) ==> request.value.message == Text("")
  {
    var handler := framework.Lookup(opType, opCommand);
    forall op
      ensures handler == Some(op) <==> opType == Bytes32Hex(KEY) && opCommand == Bytes32Hex(Command(op))
    {
      EachOperationReachesItsHandler(opType, opCommand, op);
      if handler.Some? {
        EachOperationReachesItsHandler(opType, opCommand, handler.value);
        CommandsDiffer(op, handler.value);
      }
    }
    if handler.None? {
      return None;
    }
    return Some(Act(handler.value, MessageOf(originalMessage, message)));
  }

  // ------------------------------------------------------------------------------------------
  // Properties of single turns.

  /** The operations catch whatever they call; only a state read can throw, and only on a stored key that is no valid scalar. */
  lemma ThrowsIff(lib: Library, cells: Cells, q: Request, seen: Seen, k: Suspension)
    ensures VaultProgram(lib).start(cells, q, seen).Throw? <==> q.ReadState? && cells.key.Some? && !ValidScalar(cells.key.value)
    ensures !VaultProgram(lib).resume(cells, k, seen).Throw?
  {
    match q
    case ReadState =>
    case Act(op, m) =>
      assert op.UpdateKey? || op.SetPolicy? || op.Sign?;
  }

  lemma SignChangesNothing(lib: Library, cells: Cells, m: Field, now: nat)
    ensures SignTurn(lib, cells, m, now).Return? && SignTurn(lib, cells, m, now).cells == cells
  {
  }

  /** A turn that refuses or suspends leaves both cells alone; UPDATE touches the key only, SET_POLICY the policy only, SIGN and state reads nothing. */
  lemma Framing(lib: Library, cells: Cells, q: Request, seen: Seen)
    ensures var turn := StartTurn(lib, cells, q, seen);
            && ((turn.Await? || (turn.Return? && turn.result.Refused?)) ==> turn.cells == cells)
            && (!(q.Act? && q.op.SetPolicy?) ==> turn.cells == cells)
            && turn.cells.key == cells.key
    ensures var turn := UpdateResume(cells, seen.reply);
            && (turn.Return? && turn.result.Refused? ==> turn.cells == cells)
            && turn.cells.policy == cells.policy
  {
    match q
    case ReadState =>
    case Act(UpdateKey, m) =>
    case Act(SetPolicy, m) =>
    case Act(Sign, m) =>
  }
}
