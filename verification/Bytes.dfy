/** Bytes, big-endian numbers and the two left paddings (Go and TypeScript). */
module Bytes {
  type Byte = x: int | 0 <= x < 256

  const WORD := 32

  function Pow256(k: nat): (r: nat)
    ensures r >= 1
  {
    if k == 0 then 1 else 256 * Pow256(k - 1)
  }

  function Zeros(n: nat): (r: seq<Byte>)
    ensures |r| == n && forall i :: 0 <= i < n ==> r[i] == 0
  {
    seq(n, _ => 0)
  }

  /** The number a byte string denotes, most significant byte first. */
  function FromBE(b: seq<Byte>): nat {
    if b == [] then 0 else 256 * FromBE(b[..|b| - 1]) + b[|b| - 1]
  }

  /** Byte j of n, counted from the least significant. */
  function ByteAt(n: nat, j: nat): Byte {
    if j == 0 then n % 256 else ByteAt(n / 256, j - 1)
  }

  /** The low k bytes of n, most significant byte first. */
  function BE(n: nat, k: nat): (r: seq<Byte>)
    ensures |r| == k
  {
    seq(k, i requires 0 <= i < k => ByteAt(n, k - 1 - i))
  }

  lemma BEStep(n: nat, k: nat)
    requires k > 0
    ensures BE(n, k) == BE(n / 256, k - 1) + [n % 256]
  {
    forall i | 0 <= i < k
      ensures BE(n, k)[i] == (BE(n / 256, k - 1) + [n % 256])[i]
    {
      assert i < k - 1 ==> ByteAt(n, k - 1 - i) == ByteAt(n / 256, k - 1 - i - 1);
    }
  }

  /** A 32-byte big-endian word, as the ABI writes a uint256. */
  function Word(n: nat): (r: seq<Byte>)
    ensures |r| == 32
  {
    BE(n, WORD)
  }

  lemma {:induction false} FromBEBound(b: seq<Byte>)
    ensures FromBE(b) < Pow256(|b|)
  {
    if b != [] {
      FromBEBound(b[..|b| - 1]);
    }
  }

  lemma DivBelow(n: nat, m: nat)
    requires n < 256 * m
    ensures n / 256 < m
  {
  }

  /** k bytes hold exactly the numbers below 256^k. */
  lemma {:induction false} BERoundTrip(n: nat, k: nat)
    requires n < Pow256(k)
    ensures FromBE(BE(n, k)) == n
  {
    if k > 0 {
      DivBelow(n, Pow256(k - 1));
      BERoundTrip(n / 256, k - 1);
      BEStep(n, k);
      assert BE(n, k)[..k - 1] == BE(n / 256, k - 1);
    }
  }

  /** A uint256 is a number below 2^256. */
  const UINT256_LIMIT: nat := 0x1_00000000_00000000_00000000_00000000_00000000_00000000_00000000_00000000

  lemma LimitIsPower()
    ensures Pow256(32) == UINT256_LIMIT
  {
    assert Pow256(8) == 0x1_00000000_00000000;
    assert Pow256(16) == 0x1_00000000_00000000_00000000_00000000;
    assert Pow256(24) == 0x1_00000000_00000000_00000000_00000000_00000000_00000000;
  }

  /** A word holds every uint256. */
  lemma WordRoundTrip(n: nat)
    requires n < UINT256_LIMIT
    ensures FromBE(Word(n)) == n
  {
    LimitIsPower();
    BERoundTrip(n, 32);
  }

  lemma {:induction false} BEOfFromBE(b: seq<Byte>)
    ensures BE(FromBE(b), |b|) == b
  {
    if b != [] {
      BEOfFromBE(b[..|b| - 1]);
      BEStep(FromBE(b), |b|);
      assert b == b[..|b| - 1] + [b[|b| - 1]];
    }
  }

  /** Byte strings of one length are equal when their values are. */
  lemma SameValueSameBytes(a: seq<Byte>, b: seq<Byte>)
    requires |a| == |b| && FromBE(a) == FromBE(b)
    ensures a == b
  {
    BEOfFromBE(a);
    BEOfFromBE(b);
  }

  lemma {:induction false} FromBEZero(b: seq<Byte>)
    ensures FromBE(b) == 0 <==> b == Zeros(|b|)
  {
    if b != [] {
      FromBEZero(b[..|b| - 1]);
      assert b == b[..|b| - 1] + [b[|b| - 1]];
    }
  }

  /** The minimal big-endian bytes of a number, none for zero: Go's big.Int.Bytes. */
  function MinimalBE(n: nat): seq<Byte> {
    if n == 0 then [] else MinimalBE(n / 256) + [n % 256]
  }

  lemma {:induction false} MinimalBEValue(n: nat)
    ensures FromBE(MinimalBE(n)) == n
  {
    if n != 0 {
      MinimalBEValue(n / 256);
      assert MinimalBE(n)[..|MinimalBE(n)| - 1] == MinimalBE(n / 256);
    }
  }

  /** The last `size` bytes of b, after filling up with zeros on the left where b is shorter. */
  function LeftPadded(b: seq<Byte>, size: nat): (r: seq<Byte>)
    ensures |r| == size
  {
    if |b| >= size then b[|b| - size..] else Zeros(size - |b|) + b
  }

  /**
  Padding keeps the value modulo 256^size, whatever the length of the input: the padded string is
  the `size`-byte big-endian form of that value.
  */
  lemma {:induction false} LeftPaddedIsBE(b: seq<Byte>, size: nat)
    ensures LeftPadded(b, size) == BE(FromBE(b), size)
    decreases size
  {
    if size > 0 {
      var (rest, last) := if b == [] then ([], 0) else (b[..|b| - 1], b[|b| - 1]);
      assert b != [] ==> b == rest + [last];
      LeftPaddedStep(b, size, rest, last);
      LeftPaddedIsBE(rest, size - 1);
      assert FromBE(b) == 256 * FromBE(rest) + last;
      assert FromBE(b) / 256 == FromBE(rest) && FromBE(b) % 256 == last;
      BEStep(FromBE(b), size);
    }
  }

  lemma LeftPaddedStep(b: seq<Byte>, size: nat, rest: seq<Byte>, last: Byte)
    requires size > 0
    requires if b == [] then rest == [] && last == 0 else b == rest + [last]
    ensures LeftPadded(b, size) == LeftPadded(rest, size - 1) + [last]
  {
    if |b| >= size {
      var k := |b| - size;
      assert b[k..] == rest[k..] + [last];
    } else if b != [] {
      assert Zeros(size - |b|) + b == (Zeros(size - |b|) + rest) + [last];
    } else {
      assert Zeros(size) == Zeros(size - 1) + [last];
      assert LeftPadded(b, size) == Zeros(size) && LeftPadded(rest, size - 1) == Zeros(size - 1);
    }
  }

  /** padLeft: a fresh zeroed buffer, the input copied to its right end. */
  method PadLeft(b: seq<Byte>, size: nat) returns (r: seq<Byte>)
    ensures r == BE(FromBE(b), size)
  {
    LeftPaddedIsBE(b, size);
    if |b| >= size {
      return b[|b| - size..];
    }
    var result := new Byte[size](_ => 0);
    var at := size - |b|;
    for i := 0 to |b|
      invariant result[..at] == Zeros(at)
      invariant forall j :: 0 <= j < i ==> result[at + j] == b[j]
    {
      result[at + i] := b[i];
    }
    r := result[..];
    assert r == Zeros(at) + b;
  }

  lemma {:induction false} Pow256Mono(j: nat, k: nat)
    requires j <= k
    ensures Pow256(j) <= Pow256(k)
    decreases k - j
  {
    if j < k {
      Pow256Mono(j + 1, k);
    }
  }
}
