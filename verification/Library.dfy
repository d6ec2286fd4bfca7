/**
The libraries CipherSign calls and the model does not look into: viem's decoders and address
checksums, Keccak-256, ECDSA on secp256k1. They are arbitrary functions; Lawful lists what the
proofs use about them, and LawsAreSatisfiable shows that the laws do not contradict each other.
What `address` says about keys that are no valid scalars is never used: there the library throws.
*/
module Library {
  import opened Prelude
  import opened Bytes
  import opened Hex
  import opened AbiPair
  import opened AbiValues
  import opened Signature

  datatype Library = Library(
    decodePolicy: string -> Option<RawPolicy>,
    decodeIntent: string -> Option<RawIntent>,
    decodePair: string -> Option<(seq<Byte>, seq<Byte>)>,
    checksum: seq<Byte> -> string,
    keccak: seq<Byte> -> seq<Byte>,
    sign: (seq<Byte>, seq<Byte>) -> Option<RawSignature>,
    address: seq<Byte> -> seq<Byte>,
    recover: (seq<Byte>, seq<Byte>) -> Option<seq<Byte>>)

  /** A checksum address is the plain hex address with some of its letters in upper case. */
  ghost predicate ChecksumLaw(lib: Library) {
    forall a :: |a| == 20 ==> "0x" <= lib.checksum(a) && Lower(lib.checksum(a)) == BytesToHex(a)
  }

  /** Decoders yield typed values, and read back what the standard encoding of a value says. */
  ghost predicate DecodingLaw(lib: Library) {
    && (forall h :: lib.decodePolicy(h).Some? ==> TypedPolicy(lib.decodePolicy(h).value))
    && (forall h :: lib.decodeIntent(h).Some? ==> TypedIntent(lib.decodeIntent(h).value))
    && (forall p :: TypedPolicy(p) ==> lib.decodePolicy(BytesToHex(EncodePolicy(p))) == Some(p))
    && (forall i :: TypedIntent(i) ==> lib.decodeIntent(BytesToHex(EncodeIntent(i))) == Some(i))
    && (forall a, b :: Representable(a, b) ==> lib.decodePair(BytesToHex(EncodePair(a, b))) == Some((a, b)))
  }

  /** A private key as the vault stores it. */
  predicate StoredKey(key: seq<Byte>) {
    |key| == 32 && ValidScalar(key)
  }

  /** b is a 65-byte form of sig: its slices denote r and s, its last byte is the recovery bit plus 27. */
  predicate Carries(b: seq<Byte>, sig: RawSignature) {
    Unpacked(b) == Some(RawSignature(sig.r, sig.s, Some(RecoveryBit(sig))))
  }

  /** Signatures by a stored key are well formed, and recovering from any 65-byte form of one yields the key's address. */
  ghost predicate SigningLaw(lib: Library) {
    && (forall k :: |lib.address(k)| == 20)
    && (forall h, b :: lib.recover(h, b).Some? ==> |lib.recover(h, b).value| == 20)
    && (forall h, k :: StoredKey(k) && lib.sign(h, k).Some? ==> WellFormed(lib.sign(h, k).value))
    && (forall h, k, b {:trigger lib.sign(h, k), lib.recover(h, b)} ::
          StoredKey(k) && lib.sign(h, k).Some? && Carries(b, lib.sign(h, k).value) ==>
          lib.recover(h, b) == Some(lib.address(k)))
  }

  ghost predicate Lawful(lib: Library) {
    ChecksumLaw(lib) && DecodingLaw(lib) && SigningLaw(lib)
  }

  // ------------------------------------------------------------------------------------------

  function ToyAddress(key: seq<Byte>): (a: seq<Byte>)
    ensures |a| == 20
  {
    if |key| == 32 then key[12..] else Zeros(20)
  }

  /** A library without any cryptography, built from the decoders of this project. */
  const TOY: Library := Library(
    h => DecodePolicy(NodeHexToBytes(h)),
    h => DecodeIntent(NodeHexToBytes(h)),
    h => (match AbiDecodeTwo(NodeHexToBytes(h)) case Ok(pair) => Some(pair) case _ => None),
    a => BytesToHex(a),
    m => m,
    (h, k) => Some(RawSignature(FromBE(k), 0, None)),
    k => ToyAddress(k),
    (h, b) => if |b| == 65 then Some(ToyAddress(b[0..32])) else None)

  lemma ToyDecodes()
    ensures DecodingLaw(TOY)
  {
    forall h
      ensures TOY.decodePolicy(h).Some? ==> TypedPolicy(TOY.decodePolicy(h).value)
      ensures TOY.decodeIntent(h).Some? ==> TypedIntent(TOY.decodeIntent(h).value)
    {
      DecodedIsTyped(NodeHexToBytes(h));
    }
    forall p | TypedPolicy(p)
      ensures TOY.decodePolicy(BytesToHex(EncodePolicy(p))) == Some(p)
    {
      HexRoundTrip(EncodePolicy(p));
      PolicyRoundTrip(p);
    }
    forall i | TypedIntent(i)
      ensures TOY.decodeIntent(BytesToHex(EncodeIntent(i))) == Some(i)
    {
      HexRoundTrip(EncodeIntent(i));
      IntentRoundTrip(i);
    }
    forall a, b | Representable(a, b)
      ensures TOY.decodePair(BytesToHex(EncodePair(a, b))) == Some((a, b))
    {
      HexRoundTrip(EncodePair(a, b));
      PairRoundTrip(a, b);
    }
  }

  lemma ToySigns()
    ensures SigningLaw(TOY)
  {
    forall h, k | StoredKey(k)
      ensures WellFormed(TOY.sign(h, k).value)
      ensures forall b :: Carries(b, TOY.sign(h, k).value) ==> TOY.recover(h, b) == Some(TOY.address(k))
    {
      forall b | Carries(b, TOY.sign(h, k).value)
        ensures b[0..32] == k
      {
        SameValueSameBytes(b[0..32], k);
      }
    }
  }

  /** The laws are consistent. */
  lemma LawsAreSatisfiable()
    ensures exists lib: Library :: Lawful(lib)
  {
    forall a | |a| == 20
      ensures "0x" <= TOY.checksum(a) && Lower(TOY.checksum(a)) == BytesToHex(a)
    {
      HexIsLower(a);
    }
    ToyDecodes();
    ToySigns();
    assert Lawful(TOY);
  }
}
