/**
The hand-written ABI codec for (bytes, bytes): tee/go/internal/app/abi.go, and the second decoder
of tee/go/tools/cmd/run-test/main.go. The layout is that of the Solidity Contract ABI
Specification, section "Formal Specification of the Encoding".

Go integers are modelled with their width: offsets and lengths read from the data are narrowed to
64 bits and sums wrap around. A slice expression outside its bounds is the outcome Panic. (Go
bounds a slice expression by the capacity; every bound that gets past the decoders' checks is
either within the length, negative, or at least 2^63, so the length serves as well.)
*/
module AbiPair {
  import opened Bytes

  const TWO63: int := 0x8000_0000_0000_0000
  const TWO64: int := 0x1_0000_0000_0000_0000

  datatype Outcome<+T> = Ok(value: T) | Error | Panic

  // ------------------------------------------------------------------------------------------
  // Go integers.

  function Low64(n: int): nat {
    n % TWO64
  }

  /** Two's complement reading of the low 64 bits: Int64 of a big.Int, int(x) of a uint64, int64 sums. */
  function Signed64(n: int): (r: int)
    ensures -TWO63 <= r < TWO63
  {
    if Low64(n) < TWO63 then Low64(n) else Low64(n) - TWO64
  }

  /** Within one turn of the 64-bit range, narrowing is the identity or one subtraction or addition. */
  lemma Narrowing(n: int)
    ensures 0 <= n < TWO64 ==> Low64(n) == n
    ensures TWO64 <= n < 2 * TWO64 ==> Low64(n) == n - TWO64
    ensures -TWO64 <= n < 0 ==> Low64(n) == n + TWO64
    ensures Signed64(Low64(n)) == Signed64(n) && Low64(Signed64(n)) == Low64(n)
  {
  }

  function Slice(data: seq<Byte>, lo: int, hi: int): Outcome<seq<Byte>> {
    if 0 <= lo <= hi <= |data| then Ok(data[lo..hi]) else Panic
  }

  // ------------------------------------------------------------------------------------------
  // Encoding.

  /** Trailing zeros up to the next multiple of 32. */
  function PadTo32(data: seq<Byte>): (r: seq<Byte>)
    ensures |r| % 32 == 0 && |data| <= |r| < |data| + 32 && r[..|data|] == data
    ensures forall i :: |data| <= i < |r| ==> r[i] == 0
  {
    data + Zeros((32 - |data| % 32) % 32)
  }

  method PadToMultipleOf32(data: seq<Byte>) returns (r: seq<Byte>)
    ensures r == PadTo32(data)
  {
    if |data| == 0 {
      return [];
    }
    var remainder := |data| % 32;
    if remainder == 0 {
      r := CopiedInto(data, |data|);
    } else {
      r := CopiedInto(data, |data| + 32 - remainder);
    }
  }

  /** make([]byte, size), then copy: the data, and zeros behind it. */
  method CopiedInto(data: seq<Byte>, size: nat) returns (r: seq<Byte>)
    requires |data| <= size
    ensures r == data + Zeros(size - |data|)
  {
    var padded := new Byte[size](_ => 0);
    for i := 0 to |data|
      invariant forall j :: 0 <= j < i ==> padded[j] == data[j]
      invariant forall j :: i <= j < size ==> padded[j] == 0
    {
      padded[i] := data[i];
    }
    r := padded[..];
  }

  /** Head (two offsets), then each tail: length word and padded data. */
  function EncodePair(a: seq<Byte>, b: seq<Byte>): (r: seq<Byte>)
    ensures |r| == 128 + |PadTo32(a)| + |PadTo32(b)|
  {
    Word(64) + Word(96 + |PadTo32(a)|) + Word(|a|) + PadTo32(a) + Word(|b|) + PadTo32(b)
  }

  /** Both strings fit in memory together with their encoding: its length is a Go int. */
  predicate Representable(a: seq<Byte>, b: seq<Byte>) {
    128 + |PadTo32(a)| + |PadTo32(b)| < TWO63
  }

  method AbiEncodeTwo(a: seq<Byte>, b: seq<Byte>) returns (buf: seq<Byte>)
    requires Representable(a, b)
    ensures buf == EncodePair(a, b)
  {
    var aPadded := PadToMultipleOf32(a);
    var bPadded := PadToMultipleOf32(b);

    buf := [];
    var offsetA := Int64Word(64);
    buf := buf + offsetA;
    var offsetB := Int64Word(64 + 32 + |aPadded|);
    buf := buf + offsetB;
    var lengthA := Int64Word(|a|);
    buf := buf + lengthA;
    buf := buf + aPadded;
    var lengthB := Int64Word(|b|);
    buf := buf + lengthB;
    buf := buf + bPadded;
  }

  /** padLeft(big.NewInt(int64(n)).Bytes(), 32). */
  method Int64Word(n: nat) returns (w: seq<Byte>)
    requires n < TWO63
    ensures w == Word(n)
  {
    Narrowing(n);
    MinimalBEValue(n);
    w := PadLeft(MinimalBE(Signed64(n)), 32);
  }

  // ------------------------------------------------------------------------------------------
  // The two decoders.

  /** abiReadBytes: int64 arithmetic. */
  function AbiReadBytes(data: seq<Byte>, offset: int): Outcome<seq<Byte>> {
    var start := Signed64(offset + 32);
    if start > |data| then Error
    else match Slice(data, offset, start)
      case Ok(word) =>
        var length := Signed64(FromBE(word));
        if Signed64(start + length) > |data| then Error
        else Slice(data, start, Signed64(start + length))
      case failed => failed
  }

  /** abiDecodeTwo of the extension. */
  function AbiDecodeTwo(data: seq<Byte>): Outcome<(seq<Byte>, seq<Byte>)> {
    if |data| < 128 then Error
    else
      Both(AbiReadBytes(data, Signed64(FromBE(data[0..32]))), AbiReadBytes(data, Signed64(FromBE(data[32..64]))))
  }

  /** readBytes of the end-to-end tool: uint64 arithmetic, compared after conversion to int. */
  function ToolReadBytes(data: seq<Byte>, offset: nat): Outcome<seq<Byte>> {
    if Signed64(Signed64(offset) + 32) > |data| then Error
    else
      var start := Low64(offset + 32);
      match Slice(data, offset, start)
      case Ok(word) =>
        var length := Low64(FromBE(word));
        if Signed64(Low64(start + length)) > |data| then Error
        else Slice(data, start, Low64(start + length))
      case failed => failed
  }

  /** abiDecodeTwo of the end-to-end tool. */
  function ToolDecodeTwo(data: seq<Byte>): Outcome<(seq<Byte>, seq<Byte>)> {
    if |data| < 64 then Error
    else Both(ToolReadBytes(data, Low64(FromBE(data[0..32]))), ToolReadBytes(data, Low64(FromBE(data[32..64]))))
  }

  /** The first failure wins, as the reads are made in order. */
  function Both(a: Outcome<seq<Byte>>, b: Outcome<seq<Byte>>): Outcome<(seq<Byte>, seq<Byte>)> {
    match (a, b)
    case (Ok(x), Ok(y)) => Ok((x, y))
    case (Ok(_), Error) => Error
    case (Ok(_), Panic) => Panic
    case (Error, _) => Error
    case (Panic, _) => Panic
  }

  // ------------------------------------------------------------------------------------------
  // What a read does: it narrows the length word to 64 bits and goes by that.

  /** The length word at offset o. */
  function LengthWord(data: seq<Byte>, o: nat): nat
    requires o + 32 <= |data|
  {
    FromBE(data[o..o + 32])
  }

  /** What is left of it after narrowing. */
  function LengthRead(data: seq<Byte>, o: nat): nat
    requires o + 32 <= |data|
  {
    Low64(LengthWord(data, o))
  }

  /** x is what lies behind the word at offset o, as far as the narrowed length goes, all inside the data. */
  predicate ReadAt(data: seq<Byte>, o: nat, x: seq<Byte>) {
    && o + 32 + |x| <= |data|
    && LengthRead(data, o) == |x|
    && data[o + 32..o + 32 + |x|] == x
  }

  /** The sums of a read do not leave the range of an int64. */
  predicate SumsFit(data: seq<Byte>, o: nat) {
    o + 32 < TWO63 && (o + 32 <= |data| ==> o + 32 + LengthRead(data, o) < TWO63)
  }

  /** A read succeeds exactly if word and string lie inside the data, and panics exactly when a sum overflows. */
  predicate ReadsRight(data: seq<Byte>, o: nat, outcome: Outcome<seq<Byte>>) {
    && (outcome.Panic? <==> !SumsFit(data, o))
    && (outcome.Ok? <==> o + 32 <= |data| && o + 32 + LengthRead(data, o) <= |data|)
    && (outcome.Ok? ==> ReadAt(data, o, outcome.value))
  }

  lemma AppReadsRight(data: seq<Byte>, w: nat)
    requires 64 <= |data| < TWO63
    ensures ReadsRight(data, Low64(w), AbiReadBytes(data, Signed64(w)))
  {
    var o, offset := Low64(w), Signed64(w);
    Narrowing(offset + 32);
    if o + 32 <= |data| {
      assert offset == o && Signed64(offset + 32) == o + 32;
      var length := Signed64(FromBE(data[o..o + 32]));
      Narrowing(o + 32 + length);
      assert LengthRead(data, o) < TWO63 ==> length == LengthRead(data, o);
    }
  }

  lemma ToolReadsRight(data: seq<Byte>, w: nat)
    requires 64 <= |data| < TWO63
    ensures ReadsRight(data, Low64(w), ToolReadBytes(data, Low64(w)))
  {
    var o := Low64(w);
    Narrowing(o);
    Narrowing(Signed64(o) + 32);
    Narrowing(o + 32);
    if o + 32 <= |data| {
      Narrowing(o + 32 + LengthRead(data, o));
      ToolReadsWord(data, o);
    }
  }

  /** The second half of a read by the tool, once the length word lies inside the data. */
  lemma ToolReadsWord(data: seq<Byte>, o: nat)
    requires o + 32 <= |data| < TWO63
    ensures ToolReadBytes(data, o) ==
            var sum := Low64(o + 32 + LengthRead(data, o));
            if Signed64(sum) > |data| then Error else Slice(data, o + 32, sum)
  {
    Narrowing(o);
    Narrowing(o + 32);
  }

  /** ReadsRight leaves no choice. */
  lemma ReadsRightDetermines(data: seq<Byte>, o: nat, x: Outcome<seq<Byte>>, y: Outcome<seq<Byte>>)
    requires ReadsRight(data, o, x) && ReadsRight(data, o, y)
    ensures x == y
  {
  }

  /** On data of at least 128 bytes the two independently written decoders have the same outcome, whatever the words are. */
  lemma DecodersAgree(data: seq<Byte>)
    requires 128 <= |data| < TWO63
    ensures AbiDecodeTwo(data) == ToolDecodeTwo(data)
  {
    var (wa, wb) := (FromBE(data[0..32]), FromBE(data[32..64]));
    AppReadsRight(data, wa);
    AppReadsRight(data, wb);
    ToolReadsRight(data, wa);
    ToolReadsRight(data, wb);
    ReadsRightDetermines(data, Low64(wa), AbiReadBytes(data, Signed64(wa)), ToolReadBytes(data, Low64(wa)));
    ReadsRightDetermines(data, Low64(wb), AbiReadBytes(data, Signed64(wb)), ToolReadBytes(data, Low64(wb)));
  }

  /** A whole string lies at offset o, going by its narrowed length. */
  predicate Inside(data: seq<Byte>, o: nat) {
    o + 32 <= |data| && o + 32 + LengthRead(data, o) <= |data|
  }

  /** The offset of the first string, and of the second, after narrowing. */
  function OffsetA(data: seq<Byte>): nat
    requires 64 <= |data|
  {
    Low64(FromBE(data[0..32]))
  }

  function OffsetB(data: seq<Byte>): nat
    requires 64 <= |data|
  {
    Low64(FromBE(data[32..64]))
  }

  /** What a decoder accepts, and exactly when it does not return at all. */
  ghost predicate DecodesRight(data: seq<Byte>, outcome: Outcome<(seq<Byte>, seq<Byte>)>)
    requires 64 <= |data|
  {
    && (forall a, b :: outcome == Ok((a, b)) <==> ReadAt(data, OffsetA(data), a) && ReadAt(data, OffsetB(data), b))
    && (outcome.Panic? <==> !SumsFit(data, OffsetA(data)) || (Inside(data, OffsetA(data)) && !SumsFit(data, OffsetB(data))))
  }

  /** Two reads that are right, combined. */
  lemma BothMeans(data: seq<Byte>, x: Outcome<seq<Byte>>, y: Outcome<seq<Byte>>)
    requires 64 <= |data| && ReadsRight(data, OffsetA(data), x) && ReadsRight(data, OffsetB(data), y)
    ensures DecodesRight(data, Both(x, y))
    ensures Both(x, y) == Error <==>
            && SumsFit(data, OffsetA(data))
            && (!Inside(data, OffsetA(data)) || (SumsFit(data, OffsetB(data)) && !Inside(data, OffsetB(data))))
  {
  }

  /** Both decoders decode right, on all data they do not turn away for its length. */
  lemma DecodeMeans(data: seq<Byte>)
    requires 64 <= |data| < TWO63
    ensures 128 <= |data| ==> DecodesRight(data, AbiDecodeTwo(data))
    ensures DecodesRight(data, ToolDecodeTwo(data))
  {
    var (wa, wb) := (FromBE(data[0..32]), FromBE(data[32..64]));
    AppReadsRight(data, wa);
    AppReadsRight(data, wb);
    BothMeans(data, AbiReadBytes(data, Signed64(wa)), AbiReadBytes(data, Signed64(wb)));
    ToolReadsRight(data, wa);
    ToolReadsRight(data, wb);
    BothMeans(data, ToolReadBytes(data, OffsetA(data)), ToolReadBytes(data, OffsetB(data)));
  }

  /** The tool's decoder reports an error too: some string is not inside, and no sum overflows before that is noticed. */
  predicate ToolErrs(data: seq<Byte>) {
    |data| < 64 ||
    (&& SumsFit(data, OffsetA(data))
     && (!Inside(data, OffsetA(data)) || (SumsFit(data, OffsetB(data)) && !Inside(data, OffsetB(data)))))
  }

  /**
  Exactly when the two decoders have the same outcome: on all data of 128 bytes and more, and on
  shorter data, which the extension's decoder turns away, if the offsets and lengths in it make the
  tool's decoder fail as well.
  */
  lemma DecodersAgreeIff(data: seq<Byte>)
    requires |data| < TWO63
    ensures AbiDecodeTwo(data) == ToolDecodeTwo(data) <==> 128 <= |data| || ToolErrs(data)
  {
    if 128 <= |data| {
      DecodersAgree(data);
    } else if 64 <= |data| {
      ToolReadsRight(data, FromBE(data[0..32]));
      ToolReadsRight(data, FromBE(data[32..64]));
      BothMeans(data, ToolReadBytes(data, OffsetA(data)), ToolReadBytes(data, OffsetB(data)));
    }
  }

  // ------------------------------------------------------------------------------------------
  // Compared with the standard layout, over unbounded integers.

  /** x is the byte string stored at offset o: a length word and that many bytes, all inside the data. */
  predicate StoredAt(data: seq<Byte>, o: nat, x: seq<Byte>) {
    && o + 32 + |x| <= |data|
    && LengthWord(data, o) == |x|
    && data[o + 32..o + 32 + |x|] == x
  }

  /** The data stores the two strings, at the offsets its first two words state. */
  predicate StoresPair(data: seq<Byte>, a: seq<Byte>, b: seq<Byte>)
    requires 64 <= |data|
  {
    StoredAt(data, FromBE(data[0..32]), a) && StoredAt(data, FromBE(data[32..64]), b)
  }

  /** The offset word w fits in 64 bits, and so does the length word it leads to, narrowed or not. */
  predicate WordsFit(data: seq<Byte>, w: nat) {
    w < TWO64 && (w + 32 <= |data| ==> LengthWord(data, w) < TWO64)
  }

  /** Narrowing loses nothing. */
  predicate Untruncated(data: seq<Byte>)
    requires 64 <= |data|
  {
    WordsFit(data, FromBE(data[0..32])) && WordsFit(data, FromBE(data[32..64]))
  }

  /** One string: it is stored as the layout says if and only if it is what the decoders read and no word was cut. */
  lemma StoredIffRead(data: seq<Byte>, w: nat, x: seq<Byte>)
    requires |data| < TWO63
    ensures StoredAt(data, w, x) <==> ReadAt(data, Low64(w), x) && WordsFit(data, w)
  {
    if w < TWO64 {
      Narrowing(w);
      if w + 32 <= |data| && LengthWord(data, w) < TWO64 {
        Narrowing(LengthWord(data, w));
      }
    }
  }

  /**
  What decoding means in terms of the layout. Every stored pair is decoded; and what is decoded is
  stored if and only if none of the four words was cut to 64 bits. So the decoders are right exactly
  on untruncated data, and accept some other data as well.
  */
  lemma StoredIffDecoded(data: seq<Byte>, a: seq<Byte>, b: seq<Byte>)
    requires 128 <= |data| < TWO63
    ensures StoresPair(data, a, b) <==> AbiDecodeTwo(data) == Ok((a, b)) && Untruncated(data)
    ensures StoresPair(data, a, b) <==> ToolDecodeTwo(data) == Ok((a, b)) && Untruncated(data)
  {
    DecodeMeans(data);
    DecodersAgree(data);
    StoredIffRead(data, FromBE(data[0..32]), a);
    StoredIffRead(data, FromBE(data[32..64]), b);
  }

  /** The offset o, and the length word found there, are below 2^62. */
  predicate SmallWords(data: seq<Byte>, o: nat) {
    o < TWO63 / 2 && (o + 32 <= |data| ==> LengthWord(data, o) < TWO63 / 2)
  }

  lemma SmallWordsFit(data: seq<Byte>, o: nat)
    requires |data| <= TWO63 / 2 && SmallWords(data, o)
    ensures Low64(o) == o && SumsFit(data, o) && WordsFit(data, o)
  {
    Narrowing(o);
    if o + 32 <= |data| {
      Narrowing(LengthWord(data, o));
    }
  }

  /**
  In data of at most 2^62 bytes with offsets and length words below 2^62, both decoders return: the
  pair that is stored in the data, each string with the length its length word states, or an error
  if no pair is.
  */
  lemma BoundedWordsDecode(data: seq<Byte>)
    requires 128 <= |data| <= TWO63 / 2
    requires SmallWords(data, FromBE(data[0..32])) && SmallWords(data, FromBE(data[32..64]))
    ensures AbiDecodeTwo(data) == ToolDecodeTwo(data)
    ensures match AbiDecodeTwo(data)
            case Ok((a, b)) => StoresPair(data, a, b)
            case Error => !exists a, b :: StoresPair(data, a, b)
            case Panic => false
  {
    SmallWordsFit(data, FromBE(data[0..32]));
    SmallWordsFit(data, FromBE(data[32..64]));
    DecodeMeans(data);
    DecodersAgree(data);
    forall a, b
      ensures StoresPair(data, a, b) <==> AbiDecodeTwo(data) == Ok((a, b))
    {
      StoredIffDecoded(data, a, b);
    }
  }

  // ------------------------------------------------------------------------------------------
  // Inputs on which the decoders differ from each other, or from the layout.

  /** Four words in a row, read back. */
  lemma FourWords(n: seq<nat>)
    requires |n| == 4 && forall i :: 0 <= i < 4 ==> n[i] < UINT256_LIMIT
    ensures var data := Word(n[0]) + Word(n[1]) + Word(n[2]) + Word(n[3]);
            && FromBE(data[0..32]) == n[0] && FromBE(data[32..64]) == n[1]
            && LengthWord(data, 64) == n[2] && LengthWord(data, 96) == n[3]
  {
    var data := Word(n[0]) + Word(n[1]) + Word(n[2]) + Word(n[3]);
    forall i | 0 <= i < 4
      ensures FromBE(Word(n[i])) == n[i]
    {
      WordRoundTrip(n[i]);
    }
    assert data[0..32] == Word(n[0]) && data[32..64] == Word(n[1]);
    assert data[64..96] == Word(n[2]) && data[96..128] == Word(n[3]);
  }

  /** A length of 2^64 passes for 0: the decoders return two empty strings that the data does not store. */
  lemma TruncatedLengthAccepted()
    ensures exists data: seq<Byte> :: |data| == 128 && LengthWord(data, 64) == TWO64
              && AbiDecodeTwo(data) == ToolDecodeTwo(data) == Ok(([], [])) && !StoresPair(data, [], [])
  {
    var n: seq<nat> := [64, 96, TWO64, 0];
    var data := Word(n[0]) + Word(n[1]) + Word(n[2]) + Word(n[3]);
    FourWords(n);
    Narrowing(64);
    Narrowing(96);
    assert ReadAt(data, 64, []) && ReadAt(data, 96, []);
    DecodeMeans(data);
    DecodersAgree(data);
  }

  /** An offset of 2^63 - 1 makes both decoders panic. */
  lemma LargeOffsetPanics()
    ensures exists data: seq<Byte> :: |data| == 128 && FromBE(data[0..32]) == TWO63 - 1
              && AbiDecodeTwo(data) == ToolDecodeTwo(data) == Panic
  {
    var n: seq<nat> := [TWO63 - 1, 0, 0, 0];
    var data := Word(n[0]) + Word(n[1]) + Word(n[2]) + Word(n[3]);
    FourWords(n);
    Narrowing(TWO63 - 1);
    assert !SumsFit(data, OffsetA(data));
    DecodeMeans(data);
    DecodersAgree(data);
  }

  /** On 96 bytes the decoders can differ: two empty strings sharing one length word. */
  lemma DecodersDifferBelow128()
    ensures exists data: seq<Byte> :: |data| == 96 && AbiDecodeTwo(data) == Error && ToolDecodeTwo(data) == Ok(([], []))
  {
    SharedLengthWord(64, 0);
  }

  lemma SharedLengthWord(o: nat, zero: nat)
    requires o == 64 && zero == 0
    ensures var data := Word(o) + Word(o) + Word(zero);
            |data| == 96 && AbiDecodeTwo(data) == Error && ToolDecodeTwo(data) == Ok(([], []))
  {
    var data := Word(o) + Word(o) + Word(zero);
    WordValue(o);
    WordValue(zero);
    assert data[0..32] == Word(o) && data[32..64] == Word(o) && data[o..o + 32] == Word(zero);
    assert ReadAt(data, o, []);
    ToolReadsRight(data, o);
  }

  // ------------------------------------------------------------------------------------------
  // Round trip.

  lemma WordValue(n: nat)
    requires n < TWO63
    ensures FromBE(Word(n)) == n && Low64(FromBE(Word(n))) == n
  {
    WordRoundTrip(n);
    Narrowing(n);
  }

  /**
  Where the parts of an encoding lie: the head with the two offsets, and each string behind its
  length word, followed by zeros up to a multiple of 32.
  */
  lemma EncodingParts(a: seq<Byte>, b: seq<Byte>)
    ensures var e, p := EncodePair(a, b), 96 + |PadTo32(a)|;
            && e[0..32] == Word(64) && e[32..64] == Word(p)
            && e[64..96] == Word(|a|) && e[96..96 + |a|] == a && (forall k :: 96 + |a| <= k < p ==> e[k] == 0)
            && e[p..p + 32] == Word(|b|) && e[p + 32..p + 32 + |b|] == b && (forall k :: p + 32 + |b| <= k < |e| ==> e[k] == 0)
  {
    var e, p := EncodePair(a, b), 96 + |PadTo32(a)|;
    var front := Word(64) + Word(p) + Word(|a|);
    assert e == front + PadTo32(a) + Word(|b|) + PadTo32(b);
    assert e[96..p] == PadTo32(a);
    assert e[96..96 + |a|] == e[96..p][..|a|];
    assert e[p + 32..] == PadTo32(b);
    assert e[p + 32..p + 32 + |b|] == e[p + 32..][..|b|];
  }

  /** The encoding of a pair stores it. */
  lemma EncodingStores(a: seq<Byte>, b: seq<Byte>)
    requires Representable(a, b)
    ensures StoresPair(EncodePair(a, b), a, b)
  {
    EncodingParts(a, b);
    WordValue(64);
    WordValue(96 + |PadTo32(a)|);
    WordValue(|a|);
    WordValue(|b|);
  }

  /** Decoding an encoding gives the two strings back, for all strings of representable size. */
  lemma PairRoundTrip(a: seq<Byte>, b: seq<Byte>)
    requires Representable(a, b)
    ensures AbiDecodeTwo(EncodePair(a, b)) == Ok((a, b))
    ensures ToolDecodeTwo(EncodePair(a, b)) == Ok((a, b))
  {
    EncodingStores(a, b);
    StoredIffDecoded(EncodePair(a, b), a, b);
  }

  /** Different pairs have different encodings. */
  lemma EncodingInjective(a: seq<Byte>, b: seq<Byte>, a': seq<Byte>, b': seq<Byte>)
    requires Representable(a, b) && Representable(a', b')
    requires EncodePair(a, b) == EncodePair(a', b')
    ensures a == a' && b == b'
  {
    PairRoundTrip(a, b);
    PairRoundTrip(a', b');
  }
}
