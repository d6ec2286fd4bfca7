/**
The policy gate stated on decoded values instead of texts, and proved to be what the handlers
enforce. Addresses are their 20 bytes here; letter case and checksums have disappeared.
*/
module Gate {
  import opened Prelude
  import opened Bytes
  import opened Hex
  import opened AbiPair
  import opened AbiValues
  import opened Signature
  import opened Library
  import opened Serializer
  import opened Vault

  /** now is within a limit of which 0 means none. */
  predicate InTime(limit: nat, now: nat) {
    limit == 0 || now <= limit
  }

  /** What a policy allows. */
  predicate Admits(p: RawPolicy, i: RawIntent, now: nat) {
    && InTime(p.expiresAt, now)
    && InTime(i.deadline, now)
    && i.recipient in p.recipients
    && i.amount <= p.maxAmount
  }

  /** The policies SET_POLICY takes: 1 to 5 recipients, none of them the zero address. */
  predicate AcceptablePolicy(p: RawPolicy) {
    TypedPolicy(p) && 1 <= |p.recipients| <= 5 && Zeros(20) !in p.recipients
  }

  /** The bytes a request submits, if its message is a non-empty string. */
  function Submitted(m: Field): Option<seq<Byte>> {
    if m.Text? && m.text != "" then Some(NodeHexToBytes(m.text)) else None
  }

  /** The policy a SET_POLICY message stands for, if it stands for one. */
  function SubmittedPolicy(lib: Library, m: Field): Option<RawPolicy> {
    if Submitted(m).None? then None else lib.decodePolicy(BytesToHex(Submitted(m).value))
  }

  /** The policy that a SET_POLICY message installs, if it installs one. */
  function AcceptedPolicy(lib: Library, m: Field): Option<RawPolicy> {
    match SubmittedPolicy(lib, m)
    case Some(p) => if AcceptablePolicy(p) then Some(p) else None
    case None => None
  }

  /** The intent a SIGN message stands for, if it stands for one. */
  function SubmittedIntent(lib: Library, m: Field): Option<RawIntent> {
    if Submitted(m).None? then None else lib.decodeIntent(BytesToHex(Submitted(m).value))
  }

  // ------------------------------------------------------------------------------------------
  // Addresses as texts and as bytes.

  /** Comparing checksum texts without regard to case is comparing addresses. */
  lemma SameTextSameAddress(lib: Library, a: seq<Byte>, b: seq<Byte>)
    requires ChecksumLaw(lib) && |a| == 20 && |b| == 20
    ensures Lower(lib.checksum(a)) == Lower(lib.checksum(b)) <==> a == b
  {
    if Lower(lib.checksum(a)) == Lower(lib.checksum(b)) {
      BytesToHexInjective(a, b);
    }
  }

  /** The search through the allowlist does not see letter case, on either side. */
  lemma ListedIgnoresCase(list: seq<string>, list': seq<string>, recipient: string, recipient': string)
    requires Lower(recipient) == Lower(recipient')
    requires |list| == |list'| && forall i :: 0 <= i < |list| ==> Lower(list[i]) == Lower(list'[i])
    ensures Listed(list, recipient) <==> Listed(list', recipient')
  {
  }

  lemma ZeroAddressDigits()
    ensures |ZERO_ADDRESS| == 42 && "0x" <= ZERO_ADDRESS && forall i :: 2 <= i < 42 ==> ZERO_ADDRESS[i] == '0'
  {
    forall i | 2 <= i < 42
      ensures ZERO_ADDRESS[i] == '0'
    {
      assert ZERO_ADDRESS[i] == Digits(Zeros(20))[i - 2];
    }
  }

  /** A text that lower-casing turns into the zero address has no letters to change but those of the prefix. */
  lemma ZeroTextHasNoCase(text: string)
    requires "0x" <= text && Lower(text) == ZERO_ADDRESS
    ensures text == ZERO_ADDRESS
  {
    ZeroAddressDigits();
    assert |text| == |Lower(text)|;
    forall i | 2 <= i < 42
      ensures text[i] == ZERO_ADDRESS[i]
    {
      assert LowerChar(text[i]) == Lower(text)[i] == '0';
    }
  }

  /** The zero address, and no other, has the text the handler compares with. */
  lemma ZeroAddressText(lib: Library, a: seq<Byte>)
    requires ChecksumLaw(lib) && |a| == 20
    ensures lib.checksum(a) == ZERO_ADDRESS <==> a == Zeros(20)
  {
    if lib.checksum(a) == ZERO_ADDRESS {
      HexIsLower(Zeros(20));
      BytesToHexInjective(a, Zeros(20));
    }
    if a == Zeros(20) {
      ZeroTextHasNoCase(lib.checksum(a));
    }
  }

  lemma ZeroAddressListed(lib: Library, p: RawPolicy)
    requires ChecksumLaw(lib) && TypedPolicy(p)
    ensures ZERO_ADDRESS in Shown(lib, p).allowedRecipients <==> Zeros(20) in p.recipients
  {
    var texts := Shown(lib, p).allowedRecipients;
    forall i | 0 <= i < |p.recipients|
      ensures texts[i] == ZERO_ADDRESS <==> p.recipients[i] == Zeros(20)
    {
      ZeroAddressText(lib, p.recipients[i]);
    }
    if Zeros(20) in p.recipients {
      var i :| 0 <= i < |p.recipients| && p.recipients[i] == Zeros(20);
      assert texts[i] == ZERO_ADDRESS;
    }
  }

  // ------------------------------------------------------------------------------------------
  // The handlers enforce the gate.

  function ShownOption(lib: Library, p: Option<RawPolicy>): Option<SignPolicy> {
    if p.Some? then Some(Shown(lib, p.value)) else None
  }

  /** The checks on a decoded policy. */
  lemma PolicyChecks(lib: Library, cells: Cells, m: Field)
    requires Lawful(lib) && SubmittedPolicy(lib, m).Some?
    ensures var p := SubmittedPolicy(lib, m).value;
            SetPolicyTurn(lib, cells, m) ==
            if |p.recipients| == 0 then Return(cells, Refused(NoRecipients))
            else if |p.recipients| > 5 then Return(cells, Refused(TooManyRecipients))
            else if Zeros(20) in p.recipients then Return(cells, Refused(ZeroRecipient))
            else Return(cells.(policy := Some(Shown(lib, p))), Done)
  {
    ZeroAddressListed(lib, SubmittedPolicy(lib, m).value);
  }

  lemma NoPolicyChecks(lib: Library, cells: Cells, m: Field)
    requires SubmittedPolicy(lib, m).None?
    ensures SetPolicyTurn(lib, cells, m) == Return(cells, Refused(
              if m.NotText? then InvalidHex else if Submitted(m).None? then EmptyMessage else InvalidPolicyEncoding))
  {
  }

  /** SET_POLICY installs exactly the acceptable policies; otherwise it refuses and changes nothing. */
  lemma SetPolicyMeans(lib: Library, cells: Cells, m: Field)
    requires Lawful(lib)
    ensures var turn := SetPolicyTurn(lib, cells, m);
            if AcceptedPolicy(lib, m).Some? then
              turn == Return(cells.(policy := Some(Shown(lib, AcceptedPolicy(lib, m).value))), Done)
            else turn.Return? && turn.cells == cells && turn.result.Refused?
  {
    if SubmittedPolicy(lib, m).Some? {
      PolicyChecks(lib, cells, m);
    } else {
      NoPolicyChecks(lib, cells, m);
    }
  }

  /** The case-insensitive search through the allowlist texts finds exactly the listed addresses. */
  lemma AllowedIffListed(lib: Library, p: RawPolicy, a: seq<Byte>)
    requires ChecksumLaw(lib) && TypedPolicy(p) && |a| == 20
    ensures Listed(Shown(lib, p).allowedRecipients, lib.checksum(a)) <==> a in p.recipients
  {
    var texts := Shown(lib, p).allowedRecipients;
    forall k | 0 <= k < |p.recipients|
      ensures Lower(texts[k]) == Lower(lib.checksum(a)) <==> p.recipients[k] == a
    {
      SameTextSameAddress(lib, p.recipients[k], a);
    }
  }

  /** The rules the handler checks on texts raise no objection exactly when the policy admits the intent. */
  lemma NoObjectionIffAdmitted(lib: Library, p: RawPolicy, i: RawIntent, now: nat)
    requires ChecksumLaw(lib) && TypedPolicy(p) && TypedIntent(i)
    ensures Objection(Shown(lib, p), SignIntent(lib.checksum(i.recipient), i.amount, i.deadline, BytesToHex(i.payloadHash)), now).None?
            <==> Admits(p, i, now)
  {
    AllowedIffListed(lib, p, i.recipient);
  }

  /** A signature is released for message m at time now. */
  predicate MaySign(lib: Library, key: Option<seq<Byte>>, policy: Option<RawPolicy>, m: Field, now: nat) {
    && key.Some? && policy.Some? && SubmittedIntent(lib, m).Some?
    && Admits(policy.value, SubmittedIntent(lib, m).value, now)
    && lib.sign(lib.keccak(Submitted(m).value), key.value).Some?
  }

  /** What is released: exactly the submitted bytes, and the signature of the key over them. */
  function Release(lib: Library, key: seq<Byte>, m: Field): string
    requires Submitted(m).Some? && lib.sign(lib.keccak(Submitted(m).value), key).Some?
  {
    BytesToHex(EncodePair(Submitted(m).value, Packed(lib.sign(lib.keccak(Submitted(m).value), key).value)))
  }

  /** SIGN releases a signature if and only if the gate lets it, and changes nothing either way. */
  lemma SignMeans(lib: Library, key: Option<seq<Byte>>, policy: Option<RawPolicy>, m: Field, now: nat)
    requires Lawful(lib) && (policy.Some? ==> TypedPolicy(policy.value))
    ensures var cells := Cells(key, ShownOption(lib, policy));
            var turn := SignTurn(lib, cells, m, now);
            && turn.Return? && turn.cells == cells
            && if MaySign(lib, key, policy, m, now) then turn.result == Signed(Release(lib, key.value, m))
               else turn.result.Refused?
  {
    if policy.Some? && SubmittedIntent(lib, m).Some? {
      NoObjectionIffAdmitted(lib, policy.value, SubmittedIntent(lib, m).value, now);
    }
  }

  /** Which of the checks an operation makes, in order, leads to a refusal with this reason. */
  function CheckNumber(reason: Refusal): nat {
    match reason
    case NoKeyStored => 0
    case NoPolicySet => 1
    case EmptyMessage => 2
    case InvalidHex => 3
    case InvalidIntentEncoding => 4
    case InvalidPolicyEncoding => 4
    case DecryptionFailed => 4
    case PolicyExpired => 5
    case NoRecipients => 5
    case InvalidKey => 5
    case DeadlinePassed => 6
    case TooManyRecipients => 6
    case RecipientNotAllowed => 7
    case ZeroRecipient => 7
    case AmountTooLarge => 8
    case SigningFailed => 9
  }

  /** The rules about the message alone, which all operations share. */
  predicate BadMessage(m: Field, reason: Refusal) {
    (reason == EmptyMessage && (m.Absent? || m == Text(""))) || (reason == InvalidHex && m.NotText?)
  }

  /** SIGN breaks the rule that a refusal names, on decoded values. */
  predicate SignBreaks(lib: Library, key: Option<seq<Byte>>, policy: Option<RawPolicy>, m: Field, now: nat, reason: Refusal) {
    var intent := SubmittedIntent(lib, m);
    match reason
    case NoKeyStored => key.None?
    case NoPolicySet => policy.None?
    case InvalidIntentEncoding => Submitted(m).Some? && intent.None?
    case PolicyExpired => policy.Some? && !InTime(policy.value.expiresAt, now)
    case DeadlinePassed => intent.Some? && !InTime(intent.value.deadline, now)
    case RecipientNotAllowed => policy.Some? && intent.Some? && intent.value.recipient !in policy.value.recipients
    case AmountTooLarge => policy.Some? && intent.Some? && intent.value.amount > policy.value.maxAmount
    case SigningFailed => key.Some? && Submitted(m).Some? && lib.sign(lib.keccak(Submitted(m).value), key.value).None?
    case _ => BadMessage(m, reason)
  }

  /** SET_POLICY breaks the rule that a refusal names. */
  predicate SetPolicyBreaks(lib: Library, m: Field, reason: Refusal) {
    var policy := SubmittedPolicy(lib, m);
    match reason
    case InvalidPolicyEncoding => Submitted(m).Some? && policy.None?
    case NoRecipients => policy.Some? && |policy.value.recipients| == 0
    case TooManyRecipients => policy.Some? && |policy.value.recipients| > 5
    case ZeroRecipient => policy.Some? && Zeros(20) in policy.value.recipients
    case _ => BadMessage(m, reason)
  }

  /** The reply of the node to an UPDATE breaks the rule that a refusal names. */
  predicate ReplyBreaks(reply: Option<seq<Byte>>, reason: Refusal) {
    match reason
    case DecryptionFailed => reply.None?
    case InvalidKey => reply.Some? && !UsableKey(reply.value)
    case _ => false
  }

  /** The first fault in a message itself, if any. */
  function MessageFault(m: Field): Option<Refusal> {
    if m.NotText? then Some(InvalidHex) else if Submitted(m).None? then Some(EmptyMessage) else None
  }

  /** The first rule of a policy that an intent breaks. */
  function IntentFault(p: RawPolicy, i: RawIntent, now: nat): Option<Refusal> {
    if !InTime(p.expiresAt, now) then Some(PolicyExpired)
    else if !InTime(i.deadline, now) then Some(DeadlinePassed)
    else if i.recipient !in p.recipients then Some(RecipientNotAllowed)
    else if i.amount > p.maxAmount then Some(AmountTooLarge)
    else None
  }

  /** The first fault of a SIGN that is not released. */
  function SignFault(lib: Library, key: Option<seq<Byte>>, policy: Option<RawPolicy>, m: Field, now: nat): Refusal {
    if key.None? then NoKeyStored
    else if policy.None? then NoPolicySet
    else if MessageFault(m).Some? then MessageFault(m).value
    else if SubmittedIntent(lib, m).None? then InvalidIntentEncoding
    else if IntentFault(policy.value, SubmittedIntent(lib, m).value, now).Some? then
      IntentFault(policy.value, SubmittedIntent(lib, m).value, now).value
    else SigningFailed
  }

  /** The first fault of a SET_POLICY that is not accepted. */
  function PolicyFault(lib: Library, m: Field): Refusal {
    if MessageFault(m).Some? then MessageFault(m).value
    else match SubmittedPolicy(lib, m)
      case None => InvalidPolicyEncoding
      case Some(p) => if |p.recipients| == 0 then NoRecipients else if |p.recipients| > 5 then TooManyRecipients else ZeroRecipient
  }

  lemma ObjectionIsFirst(lib: Library, p: RawPolicy, i: RawIntent, now: nat)
    requires ChecksumLaw(lib) && TypedPolicy(p) && TypedIntent(i)
    ensures Objection(Shown(lib, p), SignIntent(lib.checksum(i.recipient), i.amount, i.deadline, BytesToHex(i.payloadHash)), now) ==
            IntentFault(p, i, now)
  {
    AllowedIffListed(lib, p, i.recipient);
  }

  lemma SignFaultFound(lib: Library, key: Option<seq<Byte>>, policy: Option<RawPolicy>, m: Field, now: nat)
    requires Lawful(lib) && (policy.Some? ==> TypedPolicy(policy.value))
    ensures var turn := SignTurn(lib, Cells(key, ShownOption(lib, policy)), m, now);
            turn.Return? && turn.result.Refused? ==>
              && turn.result.reason == SignFault(lib, key, policy, m, now)
              && !MaySign(lib, key, policy, m, now)
  {
    SignMeans(lib, key, policy, m, now);
    if policy.Some? && SubmittedIntent(lib, m).Some? {
      ObjectionIsFirst(lib, policy.value, SubmittedIntent(lib, m).value, now);
    }
  }

  lemma PolicyFaultFound(lib: Library, cells: Cells, m: Field)
    requires Lawful(lib)
    ensures var turn := SetPolicyTurn(lib, cells, m);
            turn.Return? && turn.result.Refused? ==>
              turn.result.reason == PolicyFault(lib, m) && AcceptedPolicy(lib, m).None?
  {
    if SubmittedPolicy(lib, m).Some? {
      PolicyChecks(lib, cells, m);
    } else {
      NoPolicyChecks(lib, cells, m);
    }
  }

  lemma SignFaultIsFirst(lib: Library, key: Option<seq<Byte>>, policy: Option<RawPolicy>, m: Field, now: nat, other: Refusal)
    requires !MaySign(lib, key, policy, m, now)
    ensures var fault := SignFault(lib, key, policy, m, now);
            && SignBreaks(lib, key, policy, m, now, fault)
            && (SignBreaks(lib, key, policy, m, now, other) ==> CheckNumber(fault) <= CheckNumber(other))
  {
  }

  lemma PolicyFaultIsFirst(lib: Library, m: Field, other: Refusal)
    requires DecodingLaw(lib) && AcceptedPolicy(lib, m).None?
    ensures SetPolicyBreaks(lib, m, PolicyFault(lib, m))
    ensures SetPolicyBreaks(lib, m, other) ==> CheckNumber(PolicyFault(lib, m)) <= CheckNumber(other)
  {
  }

  /** A refusal of SIGN names the first rule that is broken, in the order of the checks. */
  lemma SignRefusalIsTruthful(lib: Library, key: Option<seq<Byte>>, policy: Option<RawPolicy>, m: Field, now: nat, other: Refusal)
    requires Lawful(lib) && (policy.Some? ==> TypedPolicy(policy.value))
    ensures var turn := SignTurn(lib, Cells(key, ShownOption(lib, policy)), m, now);
            turn.Return? && turn.result.Refused? ==>
              && SignBreaks(lib, key, policy, m, now, turn.result.reason)
              && (SignBreaks(lib, key, policy, m, now, other) ==> CheckNumber(turn.result.reason) <= CheckNumber(other))
  {
    SignFaultFound(lib, key, policy, m, now);
    if !MaySign(lib, key, policy, m, now) {
      SignFaultIsFirst(lib, key, policy, m, now, other);
    }
  }

  /** So does a refusal of SET_POLICY ... */
  lemma SetPolicyRefusalIsTruthful(lib: Library, cells: Cells, m: Field, other: Refusal)
    requires Lawful(lib)
    ensures var turn := SetPolicyTurn(lib, cells, m);
            turn.Return? && turn.result.Refused? ==>
              && SetPolicyBreaks(lib, m, turn.result.reason)
              && (SetPolicyBreaks(lib, m, other) ==> CheckNumber(turn.result.reason) <= CheckNumber(other))
  {
    PolicyFaultFound(lib, cells, m);
    if AcceptedPolicy(lib, m).None? {
      PolicyFaultIsFirst(lib, m, other);
    }
  }

  /** ... and of UPDATE, in its first turn by the message and in its second by the reply. */
  lemma UpdateRefusalIsTruthful(cells: Cells, m: Field, reply: Option<seq<Byte>>)
    ensures var turn := UpdateStart(cells, m);
            match turn
            case Await(c, k) => c == cells && Submitted(m) == Some(k.ciphertext)
            case Return(_, r) => r.Refused? && BadMessage(m, r.reason)
            case Throw(_) => false
    ensures var turn := UpdateResume(cells, reply);
            match turn
            case Return(c, Refused(reason)) => c == cells && ReplyBreaks(reply, reason)
            case Return(c, r) => r == Done && reply.Some? && c == cells.(key := Some(Word(FromBE(reply.value))))
            case _ => false
  {
    if reply.Some? {
      KeyAcceptedIffUsable(reply.value);
    }
  }

  /** With the same cells, a message refused once is refused at every later time. */
  lemma RefusalPersists(lib: Library, cells: Cells, m: Field, now: nat, later: nat)
    requires now <= later
    requires SignTurn(lib, cells, m, now).Return? && SignTurn(lib, cells, m, now).result.Refused?
    ensures SignTurn(lib, cells, m, later).Return? && SignTurn(lib, cells, m, later).result.Refused?
  {
  }

  // ------------------------------------------------------------------------------------------
  // Comparing policies.

  /** A limit that ends no earlier, 0 being no limit at all. */
  predicate LaterLimit(limit: nat, limit': nat) {
    limit' == 0 || (limit != 0 && limit <= limit')
  }

  predicate Looser(p: RawPolicy, p': RawPolicy) {
    && (forall a <- p.recipients :: a in p'.recipients)
    && p.maxAmount <= p'.maxAmount
    && LaterLimit(p.expiresAt, p'.expiresAt)
  }

  /** One policy is looser than another if and only if it admits, at every time, all that the other admits. */
  lemma LooserIffAdmitsMore(p: RawPolicy, p': RawPolicy)
    requires AcceptablePolicy(p) && AcceptablePolicy(p')
    ensures Looser(p, p') <==>
            forall i, now: nat {:trigger Admits(p, i, now)} :: TypedIntent(i) && Admits(p, i, now) ==> Admits(p', i, now)
  {
    if forall i, now: nat {:trigger Admits(p, i, now)} :: TypedIntent(i) && Admits(p, i, now) ==> Admits(p', i, now) {
      var ask := (a, amount) => RawIntent(a, amount, 0, Zeros(32));
      forall a | a in p.recipients
        ensures a in p'.recipients
      {
        assert Admits(p, ask(a, 0), 0);
      }
      assert Admits(p, ask(p.recipients[0], p.maxAmount), 0);
      if !LaterLimit(p.expiresAt, p'.expiresAt) {
        assert Admits(p, ask(p.recipients[0], 0), p'.expiresAt + 1);
        assert false;
      }
    }
  }

  /** Comparing expiry numbers alone is wrong: replacing "no expiry" by a date is numerically later and yet refuses more. */
  lemma NumericallyLaterCanRefuseMore()
    ensures exists p, p', i, now ::
      && AcceptablePolicy(p) && AcceptablePolicy(p') && TypedIntent(i)
      && p.recipients == p'.recipients && p.maxAmount == p'.maxAmount && p.expiresAt <= p'.expiresAt
      && Admits(p, i, now) && !Admits(p', i, now)
  {
    var a: seq<Byte> := Zeros(19) + [1];
    assert a[19] != Zeros(20)[19];
    var p, p', i := RawPolicy([a], 5, 0), RawPolicy([a], 5, 100), RawIntent(a, 5, 0, Zeros(32));
    assert Admits(p, i, 101) && !Admits(p', i, 101);
  }

  /** Hence loosening the stored policy never turns a released signature into a refusal. */
  lemma LooserPolicyKeepsApproval(lib: Library, key: Option<seq<Byte>>, p: RawPolicy, p': RawPolicy, m: Field, now: nat, data: string)
    requires Lawful(lib) && AcceptablePolicy(p) && AcceptablePolicy(p') && Looser(p, p')
    requires SignTurn(lib, Cells(key, Some(Shown(lib, p))), m, now) == Return(Cells(key, Some(Shown(lib, p))), Signed(data))
    ensures SignTurn(lib, Cells(key, Some(Shown(lib, p'))), m, now) == Return(Cells(key, Some(Shown(lib, p'))), Signed(data))
  {
    SignMeans(lib, key, Some(p), m, now);
    SignMeans(lib, key, Some(p'), m, now);
    LooserIffAdmitsMore(p, p');
  }
}
