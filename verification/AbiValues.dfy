/**
The policy and intent layouts of tee/typescript/src/app/abi.ts, after the Solidity Contract ABI
Specification, section "Formal Specification of the Encoding": addresses are right-aligned in a
word, an array is an offset in the head and a length word followed by its elements in the tail.
*/
module AbiValues {
  import opened Prelude
  import opened Bytes

  /** (address[] allowedRecipients, uint256 maxAmount, uint256 expiresAt), addresses as 20 bytes. */
  datatype RawPolicy = RawPolicy(recipients: seq<seq<Byte>>, maxAmount: nat, expiresAt: nat)

  /** (address recipient, uint256 amount, uint256 deadline, bytes32 payloadHash). */
  datatype RawIntent = RawIntent(recipient: seq<Byte>, amount: nat, deadline: nat, payloadHash: seq<Byte>)

  predicate TypedPolicy(p: RawPolicy) {
    && |p.recipients| < UINT256_LIMIT && p.maxAmount < UINT256_LIMIT && p.expiresAt < UINT256_LIMIT
    && forall i :: 0 <= i < |p.recipients| ==> |p.recipients[i]| == 20
  }

  predicate TypedIntent(i: RawIntent) {
    && |i.recipient| == 20 && |i.payloadHash| == 32
    && i.amount < UINT256_LIMIT && i.deadline < UINT256_LIMIT
  }

  // ------------------------------------------------------------------------------------------

  function EncodeAddress(a: seq<Byte>): (r: seq<Byte>)
    requires |a| == 20
    ensures |r| == 32
  {
    Zeros(12) + a
  }

  function EncodeIntent(i: RawIntent): (r: seq<Byte>)
    requires TypedIntent(i)
    ensures |r| == 128
  {
    EncodeAddress(i.recipient) + Word(i.amount) + Word(i.deadline) + i.payloadHash
  }

  function EncodeAddresses(list: seq<seq<Byte>>): (r: seq<Byte>)
    requires forall i :: 0 <= i < |list| ==> |list[i]| == 20
    ensures |r| == 32 * |list|
  {
    if list == [] then [] else EncodeAddress(list[0]) + EncodeAddresses(list[1..])
  }

  function EncodePolicy(p: RawPolicy): (r: seq<Byte>)
    requires TypedPolicy(p)
    ensures |r| == 128 + 32 * |p.recipients|
  {
    Word(96) + Word(p.maxAmount) + Word(p.expiresAt) + Word(|p.recipients|) + EncodeAddresses(p.recipients)
  }

  // ------------------------------------------------------------------------------------------
  // A reference decoder for each layout.

  function DecodeIntent(data: seq<Byte>): Option<RawIntent> {
    if |data| < 128 then None
    else Some(RawIntent(data[12..32], FromBE(data[32..64]), FromBE(data[64..96]), data[96..128]))
  }

  function DecodeAddresses(data: seq<Byte>, n: nat): (r: seq<seq<Byte>>)
    requires 32 * n <= |data|
    ensures |r| == n && forall i :: 0 <= i < n ==> |r[i]| == 20
  {
    if n == 0 then [] else [data[12..32]] + DecodeAddresses(data[32..], n - 1)
  }

  function DecodePolicy(data: seq<Byte>): Option<RawPolicy> {
    if |data| < 128 then None
    else
      var n := FromBE(data[96..128]);
      if FromBE(data[0..32]) != 96 || 128 + 32 * n > |data| then None
      else Some(RawPolicy(DecodeAddresses(data[128..], n), FromBE(data[32..64]), FromBE(data[64..96])))
  }

  lemma WordBound(data: seq<Byte>)
    requires |data| == 32
    ensures FromBE(data) < UINT256_LIMIT
  {
    FromBEBound(data);
    LimitIsPower();
  }

  lemma DecodedIsTyped(data: seq<Byte>)
    ensures DecodeIntent(data).Some? ==> TypedIntent(DecodeIntent(data).value)
    ensures DecodePolicy(data).Some? ==> TypedPolicy(DecodePolicy(data).value)
  {
    if |data| >= 128 {
      WordBound(data[0..32]);
      WordBound(data[32..64]);
      WordBound(data[64..96]);
      WordBound(data[96..128]);
    }
  }

  /** Four 32-byte parts, found again in their concatenation. */
  lemma FourParts(w: seq<Byte>, x: seq<Byte>, y: seq<Byte>, z: seq<Byte>, tail: seq<Byte>)
    requires |w| == |x| == |y| == |z| == 32
    ensures var d := w + x + y + z + tail;
            d[0..32] == w && d[32..64] == x && d[64..96] == y && d[96..128] == z && d[128..] == tail && d[12..32] == w[12..]
  {
  }

  /** An address in a word stands behind twelve zero bytes. */
  predicate IsAddressWord(w: seq<Byte>, a: seq<Byte>) {
    |w| == 32 && w[12..] == a && forall k :: 0 <= k < 12 ==> w[k] == 0
  }

  /** Where the parts of an encoded intent lie. */
  lemma IntentLayout(i: RawIntent)
    requires TypedIntent(i)
    ensures var e := EncodeIntent(i);
            && |e| == 128 && IsAddressWord(e[0..32], i.recipient)
            && FromBE(e[32..64]) == i.amount && FromBE(e[64..96]) == i.deadline && e[96..128] == i.payloadHash
  {
    FourParts(EncodeAddress(i.recipient), Word(i.amount), Word(i.deadline), i.payloadHash, []);
    assert EncodeIntent(i) == EncodeAddress(i.recipient) + Word(i.amount) + Word(i.deadline) + i.payloadHash + [];
    WordRoundTrip(i.amount);
    WordRoundTrip(i.deadline);
  }

  lemma {:induction false} AddressesLayout(list: seq<seq<Byte>>, k: nat)
    requires forall i :: 0 <= i < |list| ==> |list[i]| == 20
    requires k < |list|
    ensures IsAddressWord(EncodeAddresses(list)[32 * k..32 * k + 32], list[k])
  {
    var e, rest := EncodeAddresses(list), EncodeAddresses(list[1..]);
    if k == 0 {
      assert e[0..32] == EncodeAddress(list[0]);
    } else {
      AddressesLayout(list[1..], k - 1);
      assert e[32..] == rest;
      assert e[32 * k..32 * k + 32] == rest[32 * (k - 1)..32 * (k - 1) + 32];
    }
  }

  /** Where the parts of an encoded policy lie: the offset of the list, the two numbers, the length of the list, its elements. */
  lemma PolicyLayout(p: RawPolicy)
    requires TypedPolicy(p)
    ensures var e := EncodePolicy(p);
            && FromBE(e[0..32]) == 96 && FromBE(e[32..64]) == p.maxAmount && FromBE(e[64..96]) == p.expiresAt
            && FromBE(e[96..128]) == |p.recipients|
            && forall k :: 0 <= k < |p.recipients| ==> IsAddressWord(e[128..][32 * k..32 * k + 32], p.recipients[k])
  {
    FourParts(Word(96), Word(p.maxAmount), Word(p.expiresAt), Word(|p.recipients|), EncodeAddresses(p.recipients));
    WordRoundTrip(96);
    WordRoundTrip(p.maxAmount);
    WordRoundTrip(p.expiresAt);
    WordRoundTrip(|p.recipients|);
    forall k | 0 <= k < |p.recipients|
      ensures IsAddressWord(EncodeAddresses(p.recipients)[32 * k..32 * k + 32], p.recipients[k])
    {
      AddressesLayout(p.recipients, k);
    }
  }

  lemma IntentRoundTrip(i: RawIntent)
    requires TypedIntent(i)
    ensures DecodeIntent(EncodeIntent(i)) == Some(i)
  {
    FourParts(EncodeAddress(i.recipient), Word(i.amount), Word(i.deadline), i.payloadHash, []);
    assert EncodeIntent(i) == EncodeAddress(i.recipient) + Word(i.amount) + Word(i.deadline) + i.payloadHash + [];
    WordRoundTrip(i.amount);
    WordRoundTrip(i.deadline);
  }

  lemma {:induction false} AddressesRoundTrip(list: seq<seq<Byte>>)
    requires forall i :: 0 <= i < |list| ==> |list[i]| == 20
    ensures DecodeAddresses(EncodeAddresses(list), |list|) == list
  {
    if list != [] {
      AddressesRoundTrip(list[1..]);
      var e := EncodeAddresses(list);
      assert e[32..] == EncodeAddresses(list[1..]);
      assert e[12..32] == EncodeAddress(list[0])[12..] == list[0];
    }
  }

  /** A policy with any number of recipients decodes to itself. */
  lemma PolicyRoundTrip(p: RawPolicy)
    requires TypedPolicy(p)
    ensures DecodePolicy(EncodePolicy(p)) == Some(p)
  {
    FourParts(Word(96), Word(p.maxAmount), Word(p.expiresAt), Word(|p.recipients|), EncodeAddresses(p.recipients));
    WordRoundTrip(96);
    WordRoundTrip(p.maxAmount);
    WordRoundTrip(p.expiresAt);
    WordRoundTrip(|p.recipients|);
    AddressesRoundTrip(p.recipients);
  }
}
