/**
Operation names and handler lookup: tee/typescript/src/base/types.ts, tee/go/internal/base/types.go,
and the registrations of tee/typescript/src/app/handlers.ts. A name is given by its UTF-8 bytes.
*/
module Dispatch {
  import opened Prelude
  import opened Bytes
  import opened Hex

  // ------------------------------------------------------------------------------------------
  // bytes32 names.

  /** A name in a zeroed 32-byte buffer: cut at 32 bytes, filled up with zeros on the right. */
  function Bytes32(name: seq<Byte>): (r: seq<Byte>)
    ensures |r| == 32 && forall i :: 0 <= i < 32 ==> r[i] == if i < |name| then name[i] else 0
  {
    if |name| >= 32 then name[..32] else name + Zeros(32 - |name|)
  }

  /** stringToBytes32Hex. */
  function Bytes32Hex(name: seq<Byte>): string {
    BytesToHex(Bytes32(name))
  }

  /** Without the trailing zero bytes. */
  function Trimmed(b: seq<Byte>): seq<Byte> {
    if b != [] && b[|b| - 1] == 0 then Trimmed(b[..|b| - 1]) else b
  }

  /** bytes32HexToString, and OpTypeToString on well-formed hex: an index walks back over the zeros. */
  method Bytes32HexToString(h: string) returns (name: seq<Byte>)
    ensures name == Trimmed(NodeHexToBytes(h))
  {
    var buf := NodeHexToBytes(h);
    var end := |buf|;
    assert buf[..end] == buf;
    while end > 0 && buf[end - 1] == 0
      invariant 0 <= end <= |buf|
      invariant Trimmed(buf[..end]) == Trimmed(buf)
    {
      assert buf[..end][..end - 1] == buf[..end - 1];
      end := end - 1;
    }
    name := buf[..end];
  }

  predicate EndsInZero(name: seq<Byte>) {
    name != [] && name[|name| - 1] == 0
  }

  lemma {:induction false} TrimZeros(name: seq<Byte>, n: nat)
    ensures Trimmed(name + Zeros(n)) == Trimmed(name)
  {
    if n == 0 {
      assert name + Zeros(n) == name;
    } else {
      TrimZeros(name, n - 1);
      assert (name + Zeros(n))[..|name| + n - 1] == name + Zeros(n - 1);
    }
  }

  lemma {:induction false} TrimmedShape(b: seq<Byte>)
    ensures |Trimmed(b)| <= |b| && !EndsInZero(Trimmed(b))
    ensures b == Trimmed(b) + Zeros(|b| - |Trimmed(b)|)
    ensures !EndsInZero(b) ==> Trimmed(b) == b
  {
    if EndsInZero(b) {
      TrimmedShape(b[..|b| - 1]);
      assert b == b[..|b| - 1] + [0];
    }
  }

  /** The decoded name of an encoded name is that name exactly when it has at most 32 bytes and no trailing NUL. */
  lemma NameRoundTripIff(name: seq<Byte>)
    ensures Trimmed(NodeHexToBytes(Bytes32Hex(name))) == name <==> |name| <= 32 && !EndsInZero(name)
  {
    HexRoundTrip(Bytes32(name));
    TrimmedShape(Bytes32(name));
    if |name| <= 32 {
      assert Bytes32(name) == name + Zeros(32 - |name|);
      TrimZeros(name, 32 - |name|);
      TrimmedShape(name);
    }
  }

  /** Hence such names are told apart by their encodings. */
  lemma NamesInjective(a: seq<Byte>, b: seq<Byte>)
    requires |a| <= 32 && !EndsInZero(a) && |b| <= 32 && !EndsInZero(b)
    requires Bytes32Hex(a) == Bytes32Hex(b)
    ensures a == b
  {
    NameRoundTripIff(a);
    NameRoundTripIff(b);
  }

  // ------------------------------------------------------------------------------------------
  // Lookup.

  datatype Entry<H> = Entry(opType: string, opCommand: string, handler: H)

  predicate Matches<H>(e: Entry<H>, opType: string, opCommand: string) {
    e.opType == opType && (e.opCommand == Bytes32Hex([]) || e.opCommand == opCommand)
  }

  /** An entry registered with the empty command takes any command of its type, any other only its own. */
  lemma MatchesMeans<H>(name: seq<Byte>, command: seq<Byte>, handler: H, opType: string, opCommand: string)
    requires |command| <= 32 && !EndsInZero(command)
    ensures Matches(Entry(Bytes32Hex(name), Bytes32Hex(command), handler), opType, opCommand) <==>
            opType == Bytes32Hex(name) && (command == [] || opCommand == Bytes32Hex(command))
  {
    if Bytes32Hex(command) == Bytes32Hex([]) {
      NamesInjective(command, []);
    }
  }

  /** h is the handler of the earliest entry that matches. */
  ghost predicate IsEarliest<H>(entries: seq<Entry<H>>, opType: string, opCommand: string, h: H) {
    exists i :: 0 <= i < |entries| && Matches(entries[i], opType, opCommand) && entries[i].handler == h
      && forall j :: 0 <= j < i ==> !Matches(entries[j], opType, opCommand)
  }

  class Framework<H> {
    var handlers: seq<Entry<H>>

    constructor ()
      ensures handlers == []
    {
      handlers := [];
    }

    method Handle(opType: seq<Byte>, opCommand: seq<Byte>, handler: H)
      modifies this
      ensures handlers == old(handlers) + [Entry(Bytes32Hex(opType), Bytes32Hex(opCommand), handler)]
    {
      handlers := handlers + [Entry(Bytes32Hex(opType), Bytes32Hex(opCommand), handler)];
    }

    /** The earliest matching entry, or nothing if no entry matches. */
    method Lookup(opType: string, opCommand: string) returns (h: Option<H>)
      ensures h.Some? ==> IsEarliest(handlers, opType, opCommand, h.value)
      ensures h.None? <==> forall i :: 0 <= i < |handlers| ==> !Matches(handlers[i], opType, opCommand)
    {
      var emptyCmd := Bytes32Hex([]);
      for i := 0 to |handlers|
        invariant forall j :: 0 <= j < i ==> !Matches(handlers[j], opType, opCommand)
      {
        var entry := handlers[i];
        if entry.opType != opType {
          continue;
        }
        if entry.opCommand == emptyCmd || entry.opCommand == opCommand {
          return Some(entry.handler);
        }
      }
      return None;
    }
  }

  // ------------------------------------------------------------------------------------------
  // The operations of CipherSign.

  datatype Operation = UpdateKey | SetPolicy | Sign

  const KEY: seq<Byte> := [0x4B, 0x45, 0x59]
  const UPDATE: seq<Byte> := [0x55, 0x50, 0x44, 0x41, 0x54, 0x45]
  const SET_POLICY: seq<Byte> := [0x53, 0x45, 0x54, 0x5F, 0x50, 0x4F, 0x4C, 0x49, 0x43, 0x59]
  const SIGN: seq<Byte> := [0x53, 0x49, 0x47, 0x4E]

  function Command(op: Operation): (r: seq<Byte>)
    ensures 0 < |r| <= 32 && !EndsInZero(r)
  {
    match op
    case UpdateKey => UPDATE
    case SetPolicy => SET_POLICY
    case Sign => SIGN
  }

  function Registration(op: Operation): Entry<Operation> {
    Entry(Bytes32Hex(KEY), Bytes32Hex(Command(op)), op)
  }

  /** register: the handler table of the extension. */
  method Register(framework: Framework<Operation>)
    modifies framework
    ensures framework.handlers == old(framework.handlers) + TABLE
  {
    framework.Handle(KEY, UPDATE, UpdateKey);
    framework.Handle(KEY, SET_POLICY, SetPolicy);
    framework.Handle(KEY, SIGN, Sign);
  }

  lemma CommandsDiffer(a: Operation, b: Operation)
    ensures Bytes32Hex(Command(a)) == Bytes32Hex(Command(b)) <==> a == b
    ensures Bytes32Hex(Command(a)) != Bytes32Hex([])
  {
    if Bytes32Hex(Command(a)) == Bytes32Hex(Command(b)) {
      NamesInjective(Command(a), Command(b));
    }
    if Bytes32Hex(Command(a)) == Bytes32Hex([]) {
      NamesInjective(Command(a), []);
    }
  }

  /** The table the extension registers. */
  const TABLE: seq<Entry<Operation>> := [Registration(UpdateKey), Registration(SetPolicy), Registration(Sign)]

  lemma RegistrationMatches(op: Operation, opType: string, opCommand: string)
    ensures Matches(Registration(op), opType, opCommand) <==>
            opType == Bytes32Hex(KEY) && opCommand == Bytes32Hex(Command(op))
  {
    MatchesMeans(KEY, Command(op), op, opType, opCommand);
  }

  lemma EarliestOfThree<H>(entries: seq<Entry<H>>, opType: string, opCommand: string, h: H)
    requires |entries| == 3
    ensures var m := (i: nat) requires i < 3 => Matches(entries[i], opType, opCommand);
            IsEarliest(entries, opType, opCommand, h) <==>
            if m(0) then entries[0].handler == h
            else if m(1) then entries[1].handler == h
            else m(2) && entries[2].handler == h
  {
  }

  /** Exactly the pair (KEY, own command) reaches a handler of the extension; every other pair of texts reaches none. */
  lemma EachOperationReachesItsHandler(opType: string, opCommand: string, op: Operation)
    ensures IsEarliest(TABLE, opType, opCommand, op) <==>
            opType == Bytes32Hex(KEY) && opCommand == Bytes32Hex(Command(op))
  {
    EarliestOfThree(TABLE, opType, opCommand, op);
    forall o: Operation
      ensures Matches(Registration(o), opType, opCommand) <==>
              opType == Bytes32Hex(KEY) && opCommand == Bytes32Hex(Command(o))
      ensures Bytes32Hex(Command(o)) == Bytes32Hex(Command(op)) <==> o == op
    {
      RegistrationMatches(o, opType, opCommand);
      CommandsDiffer(o, op);
    }
  }
}
