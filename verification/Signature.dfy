/**
Signature packing and key parsing: tee/typescript/src/app/crypto.ts, the Go signer of
tee/go/internal/app/crypto.go, and normalizeV of tee/go/tools/cmd/run-test/main.go.
The elliptic curve itself is outside the model; a signature is a pair of numbers and a recovery bit.
*/
module Signature {
  import opened Prelude
  import opened Bytes
  import opened Hex

  /** The order of the secp256k1 group. */
  const CURVE_ORDER: nat := 0xFFFFFFFF_FFFFFFFF_FFFFFFFF_FFFFFFFE_BAAEDCE6_AF48A03B_BFD25E8C_D0364141

  /** What the curve library returns; the recovery bit may be missing. */
  datatype RawSignature = RawSignature(r: nat, s: nat, recovery: Option<nat>)

  function RecoveryBit(sig: RawSignature): nat {
    if sig.recovery.Some? then sig.recovery.value else 0
  }

  /** r and s are field-sized numbers, the recovery id is a bit. */
  predicate WellFormed(sig: RawSignature) {
    sig.r < UINT256_LIMIT && sig.s < UINT256_LIMIT && RecoveryBit(sig) <= 1
  }

  // ------------------------------------------------------------------------------------------
  // Numbers as hex text.

  /** n.toString(16). */
  function NatToHex(n: nat): (r: string)
    ensures |r| > 0
  {
    if n < 16 then [HexDigit(n)] else NatToHex(n / 16) + [HexDigit(n % 16)]
  }

  function HexNumber(s: string): nat
    requires AllHex(s)
  {
    if s == [] then 0 else 16 * HexNumber(s[..|s| - 1]) + HexValue(s[|s| - 1]).value
  }

  /** padStart(2, "0"), then one more zero if the length is odd. */
  function EvenHex(hex: string): string {
    var padded := if |hex| == 0 then "00" else if |hex| == 1 then "0" + hex else hex;
    if |padded| % 2 != 0 then "0" + padded else padded
  }

  lemma {:induction false} NatToHexValue(n: nat)
    ensures AllHex(NatToHex(n)) && HexNumber(NatToHex(n)) == n
  {
    if n >= 16 {
      NatToHexValue(n / 16);
      assert NatToHex(n)[..|NatToHex(n)| - 1] == NatToHex(n / 16);
    }
  }

  lemma {:induction false} LeadingZeroKeepsNumber(s: string)
    requires AllHex(s)
    ensures AllHex("0" + s) && HexNumber("0" + s) == HexNumber(s)
  {
    if s == [] {
      assert ("0" + s)[..0] == [];
    } else {
      LeadingZeroKeepsNumber(s[..|s| - 1]);
      assert ("0" + s)[..|s|] == "0" + s[..|s| - 1];
    }
  }

  lemma EvenHexShape(hex: string)
    requires |hex| > 0
    ensures |EvenHex(hex)| % 2 == 0 && (EvenHex(hex) == hex || EvenHex(hex) == "0" + hex)
  {
  }

  lemma EvenHexKeepsNumber(hex: string)
    requires AllHex(hex) && |hex| > 0
    ensures AllHex(EvenHex(hex)) && |EvenHex(hex)| % 2 == 0 && HexNumber(EvenHex(hex)) == HexNumber(hex)
  {
    EvenHexShape(hex);
    LeadingZeroKeepsNumber(hex);
  }

  /** bigintToBytes: the hex digits of n, made even, read in pairs. The bytes denote n. */
  method BigintToBytes(n: nat) returns (r: seq<Byte>)
    ensures FromBE(r) == n
  {
    var paddedHex := EvenHex(NatToHex(n));
    NatToHexValue(n);
    EvenHexKeepsNumber(NatToHex(n));
    r := ReadPairs(paddedHex);
  }

  /** The loop of bigintToBytes. */
  method ReadPairs(paddedHex: string) returns (r: seq<Byte>)
    requires AllHex(paddedHex) && |paddedHex| % 2 == 0
    ensures FromBE(r) == HexNumber(paddedHex)
  {
    var bytes := new Byte[|paddedHex| / 2](_ => 0);
    for i := 0 to bytes.Length
      invariant FromBE(bytes[..i]) == HexNumber(paddedHex[..2 * i])
    {
      var pair := paddedHex[2 * i..2 * i + 2];
      PairExtends(paddedHex, 2 * i, bytes[..i]);
      ghost var grown := bytes[..i] + [PairValue(pair)];
      bytes[i] := PairValue(pair);
      assert bytes[..i + 1] == grown;
    }
    assert paddedHex[..2 * bytes.Length] == paddedHex;
    assert bytes[..bytes.Length] == bytes[..];
    r := bytes[..];
  }

  lemma FromBEAppendByte(b: seq<Byte>, last: Byte)
    ensures FromBE(b + [last]) == 256 * FromBE(b) + last
  {
    assert (b + [last])[..|b|] == b;
  }

  lemma HexNumberOfPair(s: string, i: nat)
    requires i + 2 <= |s| && AllHex(s)
    ensures HexNumber(s[..i + 2]) == 256 * HexNumber(s[..i]) + PairValue(s[i..i + 2])
  {
    assert s[..i + 2][..i + 1] == s[..i + 1] && s[..i + 1][..i] == s[..i];
  }

  /** The bytes read so far, with one more pair of digits. */
  lemma PairExtends(s: string, i: nat, done: seq<Byte>)
    requires i + 2 <= |s| && AllHex(s) && FromBE(done) == HexNumber(s[..i])
    ensures FromBE(done + [PairValue(s[i..i + 2])]) == HexNumber(s[..i + 2])
  {
    HexNumberOfPair(s, i);
    FromBEAppendByte(done, PairValue(s[i..i + 2]));
  }

  // ------------------------------------------------------------------------------------------
  // Packing.

  /** r || s || v, with v = recovery + 27. Storing a number in a Uint8Array keeps its low byte. */
  function Packed(sig: RawSignature): (r: seq<Byte>)
    ensures |r| == 65
  {
    Word(sig.r) + Word(sig.s) + [(RecoveryBit(sig) + 27) % 256]
  }

  /** Reads a packed signature back; the v byte as recoverAddress reads it. */
  function Unpacked(b: seq<Byte>): Option<RawSignature> {
    if |b| == 65 && 27 <= b[64] <= 28 then
      Some(RawSignature(FromBE(b[0..32]), FromBE(b[32..64]), Some(b[64] - 27)))
    else None
  }

  /** The buffer of signECDSA after the curve library returned. */
  method PackSignature(sig: RawSignature) returns (packed: seq<Byte>)
    ensures packed == Packed(sig)
  {
    var rBytes := BigintToBytes(sig.r);
    var r := PadLeft(rBytes, 32);
    var sBytes := BigintToBytes(sig.s);
    var s := PadLeft(sBytes, 32);
    var v := RecoveryBit(sig) + 27;
    var result := new Byte[65](_ => 0);
    forall i | 0 <= i < 32 { result[i] := r[i]; }
    forall i | 0 <= i < 32 { result[32 + i] := s[i]; }
    result[64] := v % 256;
    packed := result[..];
    assert packed == r + s + [v % 256];
  }

  /** The Go signer's rotation of the library's compact form v || r || s. */
  method RotateCompact(compact: seq<Byte>) returns (packed: seq<Byte>)
    requires |compact| == 65
    ensures packed == compact[1..] + compact[..1]
  {
    var result := new Byte[65](_ => 0);
    forall i | 0 <= i < 32 { result[i] := compact[1 + i]; }
    forall i | 0 <= i < 32 { result[32 + i] := compact[33 + i]; }
    result[64] := compact[0];
    packed := result[..];
    assert packed == compact[1..] + compact[..1];
  }

  /** normalizeV: what the end-to-end tool hands to key recovery. */
  function Normalized(sig: seq<Byte>): seq<Byte> {
    if |sig| == 65 && sig[64] >= 27 then sig[..64] + [sig[64] - 27] else sig
  }

  method NormalizeV(sig: seq<Byte>) returns (r: seq<Byte>)
    ensures r == Normalized(sig)
    ensures |sig| != 65 ==> r == sig
    ensures |sig| == 65 ==> |r| == 65 && r[..64] == sig[..64] && r[64] == if sig[64] >= 27 then sig[64] - 27 else sig[64]
  {
    if |sig| != 65 {
      return sig;
    }
    var out := new Byte[65](i requires 0 <= i < 65 => sig[i]);
    if out[64] >= 27 {
      out[64] := out[64] - 27;
    }
    r := out[..];
    assert r == Normalized(sig);
  }

  /** Packing keeps the values: the two slices denote r and s, and the last byte holds the bit. */
  lemma PackingKeepsValues(sig: RawSignature)
    requires WellFormed(sig)
    ensures FromBE(Packed(sig)[0..32]) == sig.r && FromBE(Packed(sig)[32..64]) == sig.s
    ensures Packed(sig)[64] == if sig.recovery == Some(1) then 28 else 27
    ensures Unpacked(Packed(sig)) == Some(RawSignature(sig.r, sig.s, Some(RecoveryBit(sig))))
  {
    WordRoundTrip(sig.r);
    WordRoundTrip(sig.s);
    PackedParts(Word(sig.r), Word(sig.s), RecoveryBit(sig) + 27);
  }

  lemma PackedParts(r: seq<Byte>, s: seq<Byte>, v: Byte)
    requires |r| == |s| == 32
    ensures var p := r + s + [v]; p[0..32] == r && p[32..64] == s && p[64] == v
  {
  }

  /** The Go signer and the TypeScript signer put the same signature into the same 65 bytes. */
  lemma RotationGivesPacking(sig: RawSignature, compact: seq<Byte>)
    requires WellFormed(sig)
    requires |compact| == 65 && compact[0] == 27 + RecoveryBit(sig)
    requires FromBE(compact[1..33]) == sig.r && FromBE(compact[33..65]) == sig.s
    ensures compact[1..] + compact[..1] == Packed(sig)
  {
    BEOfFromBE(compact[1..33]);
    BEOfFromBE(compact[33..65]);
    assert compact[1..] == compact[1..33] + compact[33..65];
  }

  /** Normalizing a packed signature takes the 27 off again and nothing else. */
  lemma NormalizeUndoesOffset(sig: RawSignature)
    requires WellFormed(sig)
    ensures Normalized(Packed(sig)) == Word(sig.r) + Word(sig.s) + [RecoveryBit(sig)]
    ensures Normalized(Normalized(Packed(sig))) == Normalized(Packed(sig))
  {
    assert Packed(sig)[..64] == Word(sig.r) + Word(sig.s);
  }

  // ------------------------------------------------------------------------------------------
  // Key parsing.

  datatype KeyError = KeyEmpty | KeyTooLong | KeyZero | KeyNotBelowOrder

  datatype KeyResult = Key(key: seq<Byte>) | BadKey(error: KeyError)

  /** The scalar check of the curve library: getPublicKey throws exactly on scalars outside [1, order - 1]. */
  predicate ValidScalar(key: seq<Byte>) {
    1 <= FromBE(key) < CURVE_ORDER
  }

  /** A usable private key: 1 to 32 bytes denoting a scalar in [1, order - 1]. */
  predicate UsableKey(b: seq<Byte>) {
    1 <= |b| <= 32 && 1 <= FromBE(b) < CURVE_ORDER
  }

  function ParsedKey(b: seq<Byte>): KeyResult {
    if |b| == 0 then BadKey(KeyEmpty)
    else if |b| > 32 then BadKey(KeyTooLong)
    else if b == Zeros(|b|) then BadKey(KeyZero)
    else if !ValidScalar(LeftPadded(b, 32)) then BadKey(KeyNotBelowOrder)
    else Key(LeftPadded(b, 32))
  }

  /** parsePrivateKey, with its flag and early exit. */
  method ParsePrivateKey(b: seq<Byte>) returns (r: KeyResult)
    ensures r == ParsedKey(b)
  {
    if |b| == 0 {
      return BadKey(KeyEmpty);
    }
    if |b| > 32 {
      return BadKey(KeyTooLong);
    }
    var allZero := true;
    var i := 0;
    while i < |b| && allZero
      invariant 0 <= i <= |b|
      invariant allZero <==> forall j :: 0 <= j < i ==> b[j] == 0
    {
      if b[i] != 0 {
        allZero := false;
      }
      i := i + 1;
    }
    if allZero {
      assert b == Zeros(|b|);
      return BadKey(KeyZero);
    }
    var key := PadLeft(b, 32);
    LeftPaddedIsBE(b, 32);
    if !ValidScalar(key) {
      return BadKey(KeyNotBelowOrder);
    }
    return Key(key);
  }

  /** A key is accepted exactly when it is usable, and what is stored is its scalar as a 32-byte word. */
  lemma KeyAcceptedIffUsable(b: seq<Byte>)
    ensures ParsedKey(b).Key? <==> UsableKey(b)
    ensures ParsedKey(b) == BadKey(KeyEmpty) <==> |b| == 0
    ensures ParsedKey(b) == BadKey(KeyTooLong) <==> |b| > 32
    ensures ParsedKey(b) == BadKey(KeyZero) <==> 1 <= |b| <= 32 && FromBE(b) == 0
    ensures ParsedKey(b) == BadKey(KeyNotBelowOrder) <==> 1 <= |b| <= 32 && FromBE(b) >= CURVE_ORDER
    ensures ParsedKey(b).Key? ==> ParsedKey(b).key == Word(FromBE(b)) && FromBE(ParsedKey(b).key) == FromBE(b)
  {
    FromBEZero(b);
    if 1 <= |b| <= 32 {
      LeftPaddedIsBE(b, 32);
      FromBEBound(b);
      Pow256Mono(|b|, 32);
      LimitIsPower();
      WordRoundTrip(FromBE(b));
    }
  }
}
