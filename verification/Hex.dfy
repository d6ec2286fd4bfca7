/**
Hex text: tee/typescript/src/base/encoding.ts (Node's Buffer) and tee/go/internal/base/encoding.go.
The two decoders treat malformed text differently; this module says exactly how.
*/
module Hex {
  import opened Prelude
  import opened Bytes

  type Nibble = x: int | 0 <= x < 16

  function HexDigit(d: Nibble): (c: char)
    ensures HexValue(c) == Some(d) && !('A' <= c <= 'Z')
  {
    if d < 10 then '0' + d as char else 'a' + (d - 10) as char
  }

  /** The value of a hex digit of either case. */
  function HexValue(c: char): Option<Nibble> {
    if '0' <= c <= '9' then Some(c as int - '0' as int)
    else if 'a' <= c <= 'f' then Some(c as int - 'a' as int + 10)
    else if 'A' <= c <= 'F' then Some(c as int - 'A' as int + 10)
    else None
  }

  /** Two digits for each byte, the high half first. */
  function Digits(b: seq<Byte>): (r: string)
    ensures |r| == 2 * |b|
  {
    seq(2 * |b|, i requires 0 <= i < 2 * |b| => HexDigit(if i % 2 == 0 then b[i / 2] / 16 else b[i / 2] % 16))
  }

  /** bytesToHex, and Go's BytesToHex. */
  function BytesToHex(b: seq<Byte>): (r: string)
    ensures |r| == 2 + 2 * |b|
  {
    "0x" + Digits(b)
  }

  function TrimPrefix(h: string): (r: string)
    ensures if "0x" <= h then h == "0x" + r else r == h
  {
    if |h| >= 2 && h[..2] == "0x" then h[2..] else h
  }

  predicate IsPair(s: string) {
    |s| >= 2 && HexValue(s[0]).Some? && HexValue(s[1]).Some?
  }

  function PairValue(s: string): Byte
    requires IsPair(s)
  {
    16 * HexValue(s[0]).value + HexValue(s[1]).value
  }

  /** Node's Buffer.from(text, "hex"): decodes whole pairs and stops silently at the first that is none. */
  function DecodePairs(s: string): seq<Byte> {
    if IsPair(s) then [PairValue(s)] + DecodePairs(s[2..]) else []
  }

  /** hexToBytes of the TypeScript extension. */
  function NodeHexToBytes(h: string): seq<Byte> {
    DecodePairs(TrimPrefix(h))
  }

  /** Go's hex.DecodeString: an error for an odd length or a character that is no hex digit. */
  function DecodeString(s: string): Option<seq<Byte>> {
    if s == [] then Some([])
    else if !IsPair(s) then None
    else match DecodeString(s[2..])
      case Some(rest) => Some([PairValue(s)] + rest)
      case None => None
  }

  /** HexToBytes of the Go extension. */
  function GoHexToBytes(h: string): Option<seq<Byte>> {
    DecodeString(TrimPrefix(h))
  }

  predicate AllHex(s: string) {
    forall i :: 0 <= i < |s| ==> HexValue(s[i]).Some?
  }

  lemma {:induction false} DigitsDecode(b: seq<Byte>)
    ensures DecodePairs(Digits(b)) == b && DecodeString(Digits(b)) == Some(b)
  {
    if b != [] {
      DigitsDecode(b[1..]);
      assert Digits(b)[2..] == Digits(b[1..]);
      assert Digits(b)[0] == HexDigit(b[0] / 16) && Digits(b)[1] == HexDigit(b[0] % 16);
    }
  }

  /** Both decoders undo the encoder. */
  lemma HexRoundTrip(b: seq<Byte>)
    ensures NodeHexToBytes(BytesToHex(b)) == b
    ensures GoHexToBytes(BytesToHex(b)) == Some(b)
  {
    assert TrimPrefix(BytesToHex(b)) == Digits(b);
    DigitsDecode(b);
  }

  lemma BytesToHexInjective(a: seq<Byte>, b: seq<Byte>)
    requires BytesToHex(a) == BytesToHex(b)
    ensures a == b
  {
    HexRoundTrip(a);
    HexRoundTrip(b);
  }

  lemma {:induction false} DecodersOnDigits(s: string)
    ensures DecodeString(s).Some? <==> |s| % 2 == 0 && AllHex(s)
    ensures DecodeString(s).Some? ==> DecodeString(s).value == DecodePairs(s)
    ensures DecodeString(s).Some? <==> 2 * |DecodePairs(s)| == |s|
    ensures 2 * |DecodePairs(s)| <= |s|
  {
    if s != [] {
      if IsPair(s) {
        DecodersOnDigits(s[2..]);
        assert forall i :: 2 <= i < |s| ==> s[i] == s[2..][i - 2];
        assert AllHex(s) <==> AllHex(s[2..]);
      }
    }
  }

  /**
  The Go decoder accepts exactly the even-length, all-hex texts, and then the two decoders agree.
  On every other text Go reports an error while Node returns the pairs before the fault.
  */
  lemma DecodersAgreeWhenGoAccepts(h: string)
    ensures GoHexToBytes(h).Some? <==> |TrimPrefix(h)| % 2 == 0 && AllHex(TrimPrefix(h))
    ensures GoHexToBytes(h).Some? ==> GoHexToBytes(h).value == NodeHexToBytes(h)
    ensures GoHexToBytes(h).None? <==> 2 * |NodeHexToBytes(h)| < |TrimPrefix(h)|
  {
    DecodersOnDigits(TrimPrefix(h));
  }

  /** A malformed text that Node accepts, dropping its tail. */
  lemma NodeDropsMalformedTail()
    ensures NodeHexToBytes("0xabzz") == [0xab] && GoHexToBytes("0xabzz") == None
  {
    assert TrimPrefix("0xabzz") == "abzz";
    assert "abzz"[2..] == "zz";
    assert DecodePairs("zz") == [] && DecodeString("zz") == None;
  }

  // ------------------------------------------------------------------------------------------
  // Letter case.

  function LowerChar(c: char): char {
    if 'A' <= c <= 'Z' then 'a' + (c - 'A') else c
  }

  /** String.prototype.toLowerCase on ASCII text. */
  function Lower(s: string): (r: string)
    ensures |r| == |s| && forall i :: 0 <= i < |s| ==> r[i] == LowerChar(s[i])
  {
    seq(|s|, i requires 0 <= i < |s| => LowerChar(s[i]))
  }

  lemma DigitsAreLower(b: seq<Byte>)
    ensures Lower(Digits(b)) == Digits(b)
    ensures AllHex(Digits(b))
  {
    forall i | 0 <= i < |Digits(b)|
      ensures LowerChar(Digits(b)[i]) == Digits(b)[i] && HexValue(Digits(b)[i]).Some?
    {
      var d: Nibble := if i % 2 == 0 then b[i / 2] / 16 else b[i / 2] % 16;
      assert Digits(b)[i] == HexDigit(d);
    }
  }

  lemma LowerIsHexToo(s: string)
    requires AllHex(Lower(s))
    ensures AllHex(s)
  {
    forall i | 0 <= i < |s|
      ensures HexValue(s[i]).Some?
    {
      assert Lower(s)[i] == LowerChar(s[i]);
    }
  }

  lemma DigitsStep(x: Byte, rest: seq<Byte>)
    ensures Digits([x] + rest) == [HexDigit(x / 16), HexDigit(x % 16)] + Digits(rest)
  {
    var b := [x] + rest;
    forall i | 2 <= i < |Digits(b)|
      ensures Digits(b)[i] == Digits(rest)[i - 2]
    {
      assert b[i / 2] == rest[(i - 2) / 2];
    }
  }

  lemma DigitOfValue(c: char)
    requires HexValue(c).Some?
    ensures HexDigit(HexValue(c).value) == LowerChar(c)
  {
  }

  /** Decoding well-formed digits and encoding the bytes again gives the digits in lower case. */
  lemma {:induction false} DigitsOfDecoded(s: string)
    requires AllHex(s) && |s| % 2 == 0
    ensures Digits(DecodePairs(s)) == Lower(s)
  {
    if s != "" {
      DigitsOfDecoded(s[2..]);
      DigitsStep(PairValue(s), DecodePairs(s[2..]));
      DigitOfValue(s[0]);
      DigitOfValue(s[1]);
      assert PairValue(s) / 16 == HexValue(s[0]).value && PairValue(s) % 16 == HexValue(s[1]).value;
      assert Lower(s) == [LowerChar(s[0]), LowerChar(s[1])] + Lower(s[2..]);
    }
  }

  /** "0x" and exactly n hex digits. */
  predicate IsHexOf(s: string, n: nat) {
    |s| == n + 2 && s[..2] == "0x" && AllHex(s[2..])
  }

  /** A text has that form exactly if it is, letter case aside, the hex of some bytes, and then of those it decodes to. */
  lemma HexFormMeans(s: string, n: nat)
    ensures IsHexOf(s, 2 * n) <==> "0x" <= s && |NodeHexToBytes(s)| == n && Lower(s) == BytesToHex(NodeHexToBytes(s))
  {
    if "0x" <= s {
      assert s == "0x" + s[2..] && TrimPrefix(s) == s[2..];
      assert Lower(s)[2..] == Lower(s[2..]);
      if IsHexOf(s, 2 * n) {
        DecodersOnDigits(s[2..]);
        DigitsOfDecoded(s[2..]);
        assert Lower(s) == "0x" + Lower(s[2..]);
      } else if Lower(s) == BytesToHex(NodeHexToBytes(s)) {
        assert Lower(s[2..]) == Digits(NodeHexToBytes(s));
        DigitsAreLower(NodeHexToBytes(s));
        LowerIsHexToo(s[2..]);
      }
    }
  }

  lemma HexIsLower(b: seq<Byte>)
    ensures Lower(BytesToHex(b)) == BytesToHex(b)
  {
    DigitsAreLower(b);
    assert forall i :: 2 <= i < |BytesToHex(b)| ==> BytesToHex(b)[i] == Digits(b)[i - 2];
    assert forall i :: 2 <= i < |BytesToHex(b)| ==> LowerChar(BytesToHex(b)[i]) == Lower(Digits(b))[i - 2];
  }

  lemma {:induction false} LowerKeepsPairs(s: string)
    ensures DecodePairs(Lower(s)) == DecodePairs(s)
  {
    if IsPair(s) {
      LowerKeepsPairs(s[2..]);
      assert Lower(s)[2..] == Lower(s[2..]);
    } else {
      assert !IsPair(Lower(s));
    }
  }
}
