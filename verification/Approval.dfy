/**
The consumer of an approval: web/src/verify.ts, and the way from a client's intent through the
vault's gate to a verdict that names the vault's address.
*/
module Approval {
  import opened Prelude
  import opened Bytes
  import opened Hex
  import opened AbiPair
  import opened AbiValues
  import opened Signature
  import opened Library
  import opened Dispatch
  import opened Vault
  import opened Gate
  import opened VaultRuns

  datatype ParsedApproval = ParsedApproval(
    intentHex: string, signature: string, recipient: string, amount: nat, deadline: nat, payloadHash: string)

  /** Threw stands for a rejected promise: getAddress of something that is no address. */
  datatype Verdict =
    | Verdict(ok: bool, recovered: Option<string>, matchesVault: Option<bool>, parsed: Option<ParsedApproval>)
    | Threw

  predicate IsAddressText(t: string) {
    IsHexOf(t, 40)
  }

  /** viem's getAddress: the checksum form of an address text of any letter case. */
  function GetAddress(lib: Library, t: string): Option<string> {
    if IsAddressText(t) then Some(lib.checksum(NodeHexToBytes(t))) else None
  }

  function ParseApprovalPayload(lib: Library, data: string): Option<ParsedApproval> {
    match lib.decodePair(data)
    case None => None
    case Some((intent, signature)) =>
      match lib.decodeIntent(BytesToHex(intent))
      case None => None
      case Some(raw) =>
        match GetAddress(lib, lib.checksum(raw.recipient))
        case None => None
        case Some(recipient) =>
          Some(ParsedApproval(BytesToHex(intent), BytesToHex(signature), recipient, raw.amount, raw.deadline, BytesToHex(raw.payloadHash)))
  }

  function VerifyApproval(lib: Library, data: string, expectedVault: Option<string>): Verdict {
    match ParseApprovalPayload(lib, data)
    case None => Verdict(false, None, None, None)
    case Some(parsed) =>
      if |parsed.signature| != 132 then Verdict(false, None, None, Some(parsed))
      else match RecoveredSigner(lib, parsed)
        case None => Verdict(false, None, None, Some(parsed))
        case Some(signer) => Compared(lib, parsed, lib.checksum(signer), expectedVault)
  }

  /** recoverAddress over the hash of the parsed intent. */
  function RecoveredSigner(lib: Library, parsed: ParsedApproval): Option<seq<Byte>> {
    lib.recover(lib.keccak(NodeHexToBytes(parsed.intentHex)), NodeHexToBytes(parsed.signature))
  }

  function Compared(lib: Library, parsed: ParsedApproval, recovered: string, expectedVault: Option<string>): Verdict {
    if expectedVault.None? || expectedVault.value == "" then Verdict(true, Some(recovered), None, Some(parsed))
    else match GetAddress(lib, expectedVault.value)
      case None => Threw
      case Some(vault) =>
        var matches := Lower(recovered) == Lower(vault);
        Verdict(matches, Some(recovered), Some(matches), Some(parsed))
  }

  // ------------------------------------------------------------------------------------------
  // Address texts.

  /** A text that is the plain hex of an address but for letter case is an address text for it. */
  lemma AddressText(t: string, a: seq<Byte>)
    requires |a| == 20 && "0x" <= t && Lower(t) == BytesToHex(a)
    ensures IsAddressText(t) && NodeHexToBytes(t) == a
  {
    assert |t| == |Lower(t)| == 42;
    assert Lower(t[2..]) == Lower(t)[2..] == Digits(a);
    DigitsAreLower(a);
    LowerIsHexToo(t[2..]);
    LowerKeepsPairs(t[2..]);
    DigitsDecode(a);
    assert TrimPrefix(t) == t[2..];
  }

  lemma GetAddressOfAddress(lib: Library, a: seq<Byte>)
    requires ChecksumLaw(lib) && |a| == 20
    ensures GetAddress(lib, lib.checksum(a)) == Some(lib.checksum(a))
    ensures GetAddress(lib, BytesToHex(a)) == Some(lib.checksum(a))
  {
    AddressText(lib.checksum(a), a);
    HexIsLower(a);
    AddressText(BytesToHex(a), a);
  }

  lemma PairsOfAllHex(s: string)
    requires AllHex(s) && |s| % 2 == 0
    ensures 2 * |DecodePairs(s)| == |s|
  {
    DecodersOnDigits(s);
  }

  // ------------------------------------------------------------------------------------------
  // End to end.

  /** The hex a client sends is truthy text that decodes to the bytes it encoded. */
  lemma ClientBytes(b: seq<Byte>)
    ensures Submitted(Text(BytesToHex(b))) == Some(b)
  {
    HexRoundTrip(b);
  }

  /** The vault understands an intent exactly as the client encoded it ... */
  lemma ClientIntentUnderstood(lib: Library, i: RawIntent)
    requires Lawful(lib) && TypedIntent(i)
    ensures SubmittedIntent(lib, Text(BytesToHex(EncodeIntent(i)))) == Some(i)
  {
    ClientBytes(EncodeIntent(i));
  }

  /** ... and installs a client's policy, unchanged, exactly when it is acceptable. */
  lemma ClientPolicyUnderstood(lib: Library, p: RawPolicy)
    requires Lawful(lib) && TypedPolicy(p)
    ensures AcceptedPolicy(lib, Text(BytesToHex(EncodePolicy(p)))) == if AcceptablePolicy(p) then Some(p) else None
  {
    ClientBytes(EncodePolicy(p));
  }

  /** The approval as the consumer should see it. */
  function Expected(lib: Library, m: Field): ParsedApproval
    requires Submitted(m).Some? && SubmittedIntent(lib, m).Some?
  {
    var i := SubmittedIntent(lib, m).value;
    ParsedApproval(BytesToHex(Submitted(m).value), "", lib.checksum(i.recipient), i.amount, i.deadline, BytesToHex(i.payloadHash))
  }

  /** The released payload parses back to exactly the submitted bytes and the intent the gate decided on. */
  lemma ReleaseParses(lib: Library, key: seq<Byte>, m: Field)
    requires Lawful(lib) && StoredKey(key)
    requires Submitted(m).Some? && |Submitted(m).value| < TWO63 / 2
    requires SubmittedIntent(lib, m).Some? && lib.sign(lib.keccak(Submitted(m).value), key).Some?
    ensures var sig := lib.sign(lib.keccak(Submitted(m).value), key).value;
            ParseApprovalPayload(lib, Release(lib, key, m)) == Some(Expected(lib, m).(signature := BytesToHex(Packed(sig))))
  {
    var sig := lib.sign(lib.keccak(Submitted(m).value), key).value;
    assert Representable(Submitted(m).value, Packed(sig));
    GetAddressOfAddress(lib, SubmittedIntent(lib, m).value.recipient);
  }

  /** From the packed bytes of a release, the consumer recovers the address of the signing key. */
  lemma ReleaseRecovers(lib: Library, key: seq<Byte>, submitted: seq<Byte>)
    requires SigningLaw(lib) && StoredKey(key) && lib.sign(lib.keccak(submitted), key).Some?
    ensures var packed := Packed(lib.sign(lib.keccak(submitted), key).value);
            && |BytesToHex(packed)| == 132
            && lib.recover(lib.keccak(NodeHexToBytes(BytesToHex(submitted))), NodeHexToBytes(BytesToHex(packed))) == Some(lib.address(key))
  {
    var sig := lib.sign(lib.keccak(submitted), key).value;
    HexRoundTrip(submitted);
    HexRoundTrip(Packed(sig));
    PackingKeepsValues(sig);
    assert Carries(Packed(sig), sig);
  }

  /**
  What a payload says, in terms of bytes: the two strings in it, the intent in the first of them, and
  the signer recovered from the second, if that has 65 bytes.
  */
  function Contents(lib: Library, data: string): Option<(seq<Byte>, seq<Byte>, RawIntent)> {
    match lib.decodePair(data)
    case None => None
    case Some((intent, signature)) =>
      match lib.decodeIntent(BytesToHex(intent))
      case None => None
      case Some(raw) => Some((intent, signature, raw))
  }

  function Signer(lib: Library, data: string): Option<seq<Byte>> {
    match Contents(lib, data)
    case Some((intent, signature, _)) => if |signature| == 65 then lib.recover(lib.keccak(intent), signature) else None
    case None => None
  }

  /** Parsing finds exactly that, on any data. */
  lemma ParseMeans(lib: Library, data: string)
    requires Lawful(lib)
    ensures match Contents(lib, data)
            case None => ParseApprovalPayload(lib, data).None?
            case Some((intent, signature, raw)) =>
              && ParseApprovalPayload(lib, data).Some?
              && var p := ParseApprovalPayload(lib, data).value;
                 && NodeHexToBytes(p.intentHex) == intent && NodeHexToBytes(p.signature) == signature
                 && |p.intentHex| == 2 + 2 * |intent| && |p.signature| == 2 + 2 * |signature|
                 && p.recipient == lib.checksum(raw.recipient) && p.amount == raw.amount && p.deadline == raw.deadline
                 && NodeHexToBytes(p.payloadHash) == raw.payloadHash
  {
    if Contents(lib, data).Some? {
      var (intent, signature, raw) := Contents(lib, data).value;
      HexRoundTrip(intent);
      HexRoundTrip(signature);
      HexRoundTrip(raw.payloadHash);
      GetAddressOfAddress(lib, raw.recipient);
    }
  }

  lemma SignerParsed(lib: Library, data: string)
    requires Lawful(lib)
    ensures var parsed := ParseApprovalPayload(lib, data);
            Signer(lib, data) == if parsed.Some? && |parsed.value.signature| == 132 then RecoveredSigner(lib, parsed.value) else None
    ensures Signer(lib, data).Some? ==> |Signer(lib, data).value| == 20
  {
    ParseMeans(lib, data);
  }

  /** What a caller that names no vault leaves out. */
  predicate NoVault(expectedVault: Option<string>) {
    expectedVault.None? || expectedVault.value == ""
  }

  /** Comparing the recovered address with an expected vault text is comparing bytes. */
  lemma VaultTextCompared(lib: Library, parsed: ParsedApproval, a: seq<Byte>, t: string)
    requires ChecksumLaw(lib) && |a| == 20 && IsAddressText(t)
    ensures var ok := NodeHexToBytes(t) == a;
            Compared(lib, parsed, lib.checksum(a), Some(t)) == Verdict(ok, Some(lib.checksum(a)), Some(ok), Some(parsed))
  {
    PairsOfAllHex(t[2..]);
    assert TrimPrefix(t) == t[2..];
    SameTextSameAddress(lib, a, NodeHexToBytes(t));
  }

  /**
  What a verdict is worth, on any data and any expected vault: it throws exactly if there is a
  signer to be compared with a text that is no address; it is positive exactly if there is a signer,
  and he is the expected vault, or no vault is expected.
  */
  lemma VerdictMeans(lib: Library, data: string, expectedVault: Option<string>)
    requires Lawful(lib)
    ensures var (verdict, signer) := (VerifyApproval(lib, data, expectedVault), Signer(lib, data));
            && (verdict.Threw? <==> signer.Some? && !NoVault(expectedVault) && !IsAddressText(expectedVault.value))
            && (verdict.Verdict? ==>
                  && (verdict.ok <==> signer.Some? && (NoVault(expectedVault) || signer.value == NodeHexToBytes(expectedVault.value)))
                  && verdict.parsed == ParseApprovalPayload(lib, data)
                  && verdict.recovered == (if signer.Some? then Some(lib.checksum(signer.value)) else None)
                  && verdict.matchesVault == (if signer.Some? && !NoVault(expectedVault) then Some(verdict.ok) else None))
  {
    SignerParsed(lib, data);
    var signer := Signer(lib, data);
    if signer.Some? && !NoVault(expectedVault) && IsAddressText(expectedVault.value) {
      VaultTextCompared(lib, ParseApprovalPayload(lib, data).value, signer.value, expectedVault.value);
    }
  }

  /**
  The verdict on a released payload: the recovered signer is the key's address, and it is accepted
  exactly when the expected vault, in whatever letter case, is that address, or none is expected.
  */
  lemma ReleaseVerifies(lib: Library, key: seq<Byte>, m: Field, expectedVault: Option<string>)
    requires Lawful(lib) && StoredKey(key)
    requires Submitted(m).Some? && |Submitted(m).value| < TWO63 / 2
    requires SubmittedIntent(lib, m).Some? && lib.sign(lib.keccak(Submitted(m).value), key).Some?
    ensures var verdict := VerifyApproval(lib, Release(lib, key, m), expectedVault);
            var sig := lib.sign(lib.keccak(Submitted(m).value), key).value;
            && (verdict.Threw? <==> !NoVault(expectedVault) && !IsAddressText(expectedVault.value))
            && (verdict.Verdict? ==>
                  && (verdict.ok <==> NoVault(expectedVault) || NodeHexToBytes(expectedVault.value) == lib.address(key))
                  && verdict.recovered == Some(lib.checksum(lib.address(key)))
                  && verdict.matchesVault == (if NoVault(expectedVault) then None else Some(verdict.ok))
                  && verdict.parsed == Some(Expected(lib, m).(signature := BytesToHex(Packed(sig)))))
  {
    ReleaseParses(lib, key, m);
    ReleaseRecovers(lib, key, Submitted(m).value);
    SignerParsed(lib, Release(lib, key, m));
    assert Signer(lib, Release(lib, key, m)) == Some(lib.address(key));
    VerdictMeans(lib, Release(lib, key, m), expectedVault);
  }

  /**
  The whole way, over any run of the vault: if request i was a SIGN that released a payload, and
  request j a state read with no key loaded in between, then the consumer, given that payload and
  the address the state read reported, accepts it and sees the intent that was submitted.
  */
  lemma ApprovalEndToEnd(lib: Library, run: seq<VaultEvent>, i: nat, m: Field, data: string, j: nat, view: StateView)
    requires Lawful(lib) && VaultRun(lib, run)
    requires Answered(lib, run, i, Signed(data)) && Vaulted(lib, run).links[i].request == Act(Sign, m)
    requires Answered(lib, run, j, Snapshot(view)) && Vaulted(lib, run).links[j].request == ReadState
    requires KeyInForce(lib, run, i) == KeyInForce(lib, run, j)
    requires Submitted(m).Some? ==> |Submitted(m).value| < TWO63 / 2
    ensures SubmittedIntent(lib, m).Some? && view.vaultAddress.Some?
    ensures var verdict := VerifyApproval(lib, data, view.vaultAddress);
            && verdict.Verdict? && verdict.ok && verdict.matchesVault == Some(true)
            && verdict.parsed.Some? && verdict.parsed.value.(signature := "") == Expected(lib, m)
  {
    GateHolds(lib, run, i, m, Signed(data));
    StateReadIsCurrent(lib, run, j, Snapshot(view));
    AnsweredInForce(lib, run, i, Signed(data));
    var key := KeyInForce(lib, run, i).value;
    var text := BytesToHex(lib.address(key));
    HexIsLower(lib.address(key));
    AddressText(text, lib.address(key));
    ReleaseVerifies(lib, key, m, Some(text));
  }
}
