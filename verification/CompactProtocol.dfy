/** The Thrift compact protocol (Apache Thrift, doc/specs/thrift-compact-protocol.md,
    sections "Integer encoding", "Binary encoding", "Message", "Struct", "List and Set"
    and "Map") as functions between values and bytes.

    Each `...Bytes` function says what a writer emits; each `Read...` function says what
    a reader takes from the front of its input.  The round-trip lemmas connect the two. */
module CompactProtocol {

  import opened ByteStrings

  const TWO_31: int := 0x8000_0000
  const TWO_32: int := 0x1_0000_0000
  const TWO_63: int := 0x8000_0000_0000_0000
  const TWO_64: int := 0x1_0000_0000_0000_0000

  function Mod32(n: int): (r: nat)
    ensures r < TWO_32
    ensures 0 <= n < TWO_32 ==> r == n
  {
    n % 0x1_0000_0000
  }

  function Mod64(n: int): (r: nat)
    ensures r < TWO_64
    ensures 0 <= n < TWO_64 ==> r == n
  {
    n % 0x1_0000_0000_0000_0000
  }

  type Int64 = x: int | -TWO_63 <= x < TWO_63

  /** A double is opaque on the wire: its eight bytes. */
  type Double = b: Bytes | |b| == 8 witness [0, 0, 0, 0, 0, 0, 0, 0]

  /** What a reader returns: a value and the unread rest, or a protocol exception. */
  datatype Parse<+T> = Got(value: T, rest: Bytes) | Malformed {

    predicate IsFailure() {
      Malformed?
    }

    function PropagateFailure<U>(): Parse<U>
      requires Malformed?
    {
      Malformed
    }

    function Extract(): (T, Bytes)
      requires Got?
    {
      (value, rest)
    }
  }

  // Type codes of the compact protocol; STOP ends a struct.
  const STOP: Byte := 0
  const C_BOOL_TRUE: Byte := 1
  const C_BOOL_FALSE: Byte := 2
  const C_BYTE: Byte := 3
  const C_I16: Byte := 4
  const C_I32: Byte := 5
  const C_I64: Byte := 6
  const C_DOUBLE: Byte := 7
  const C_BINARY: Byte := 8
  const C_LIST: Byte := 9
  const C_SET: Byte := 10
  const C_MAP: Byte := 11
  const C_STRUCT: Byte := 12

  type TypeCode = c: Byte | 1 <= c <= 12 witness 1

  // ---------------------------------------------------------------- integers

  /** Unsigned LEB128: seven bits a byte, least significant first. */
  function Varint(n: nat): (r: Bytes)
    ensures 1 <= |r|
  {
    if n < 128 then [n] else [128 + n % 128] + Varint(n / 128)
  }

  /** Reads a variable-length integer of at most `room` bytes. */
  function ReadVarint(input: Bytes, room: nat): (r: Parse<nat>)
    ensures r.Got? ==> |r.rest| < |input|
  {
    if |input| == 0 || room == 0 then Malformed
    else if input[0] < 128 then Got(input[0], input[1..])
    else
      var (high, rest) :- ReadVarint(input[1..], room - 1);
      Got(input[0] - 128 + 128 * high, rest)
  }

  function ReadVarint64(input: Bytes): (r: Parse<nat>)
    ensures r.Got? ==> |r.rest| < |input| && r.value < TWO_64
  {
    var (n, rest) :- ReadVarint(input, 10);
    Got(Mod64(n), rest)
  }

  /** A length or element count: 32 bits, and negative ones are refused. */
  function ReadSize(input: Bytes): (r: Parse<nat>)
    ensures r.Got? ==> |r.rest| < |input| && r.value < TWO_31
  {
    var (n, rest) :- ReadVarint64(input);
    if Mod32(n) < TWO_31 then Got(Mod32(n), rest) else Malformed
  }

  function ZigZag(v: int): (u: nat) {
    if v < 0 then -2 * v - 1 else 2 * v
  }

  function UnZigZag(u: nat): int {
    if u % 2 == 0 then u / 2 else -((u + 1) / 2)
  }

  function I64Bytes(v: Int64): Bytes {
    Varint(ZigZag(v))
  }

  function ReadI64(input: Bytes): (r: Parse<Int64>)
    ensures r.Got? ==> |r.rest| < |input|
  {
    var (u, rest) :- ReadVarint64(input);
    Got(UnZigZag(u), rest)
  }

  function Pow128(k: nat): nat {
    if k == 0 then 1 else 128 * Pow128(k - 1)
  }

  lemma {:induction false} VarintLength(n: nat, k: nat)
    requires 1 <= k && n < Pow128(k)
    ensures |Varint(n)| <= k
  {
    if n >= 128 {
      assert Pow128(k) == 128 * Pow128(k - 1);
      assert Pow128(0) == 1;
      VarintLength(n / 128, k - 1);
    }
  }

  lemma Pow128Values()
    ensures Pow128(1) == 0x80 && Pow128(2) == 0x4000 && Pow128(3) == 0x20_0000
    ensures Pow128(5) == 0x8_0000_0000
    ensures Pow128(10) == 0x40_0000_0000_0000_0000
  {
    assert Pow128(1) == 128 * Pow128(0);
    assert Pow128(2) == 128 * Pow128(1);
    assert Pow128(3) == 128 * Pow128(2);
    assert Pow128(4) == 128 * Pow128(3);
    assert Pow128(5) == 128 * Pow128(4);
    assert Pow128(6) == 128 * Pow128(5);
    assert Pow128(7) == 128 * Pow128(6);
    assert Pow128(8) == 128 * Pow128(7);
    assert Pow128(9) == 128 * Pow128(8);
    assert Pow128(10) == 128 * Pow128(9);
  }

  lemma {:induction false} VarintRoundTrip(n: nat, room: nat, rest: Bytes)
    requires |Varint(n)| <= room
    ensures ReadVarint(Varint(n) + rest, room) == Got(n, rest)
  {
    var bytes := Varint(n) + rest;
    if n < 128 {
      assert bytes[1..] == rest;
    } else {
      assert bytes[1..] == Varint(n / 128) + rest;
      VarintRoundTrip(n / 128, room - 1, rest);
    }
  }

  lemma Varint64RoundTrip(n: nat, rest: Bytes)
    requires n < TWO_64
    ensures ReadVarint64(Varint(n) + rest) == Got(n, rest)
  {
    Pow128Values();
    VarintLength(n, 10);
    VarintRoundTrip(n, 10, rest);
  }

  lemma SizeRoundTrip(n: nat, rest: Bytes)
    requires n < TWO_31
    ensures ReadSize(Varint(n) + rest) == Got(n, rest)
  {
    Varint64RoundTrip(n, rest);
  }

  lemma I64RoundTrip(v: Int64, rest: Bytes)
    ensures ReadI64(I64Bytes(v) + rest) == Got(v, rest)
  {
    Varint64RoundTrip(ZigZag(v), rest);
  }

  // ------------------------------------------------------- doubles and strings

  function ReadDouble(input: Bytes): (r: Parse<Double>)
    ensures r.Got? ==> |r.rest| < |input|
  {
    if |input| < 8 then Malformed else Got(input[..8], input[8..])
  }

  lemma DoubleRoundTrip(d: Double, rest: Bytes)
    ensures ReadDouble(d + rest) == Got(d, rest)
  {
    assert (d + rest)[..8] == d;
    assert (d + rest)[8..] == rest;
  }

  function BinaryBytes(s: Bytes): Bytes {
    Varint(|s|) + s
  }

  function ReadBinary(input: Bytes): (r: Parse<Bytes>)
    ensures r.Got? ==> |r.rest| < |input|
  {
    var (n, rest) :- ReadSize(input);
    if n <= |rest| then Got(rest[..n], rest[n..]) else Malformed
  }

  lemma BinaryRoundTrip(s: Bytes, rest: Bytes)
    requires |s| < TWO_31
    ensures ReadBinary(BinaryBytes(s) + rest) == Got(s, rest)
  {
    assert BinaryBytes(s) + rest == Varint(|s|) + (s + rest);
    SizeRoundTrip(|s|, s + rest);
    assert (s + rest)[..|s|] == s;
    assert (s + rest)[|s|..] == rest;
  }

  // ------------------------------------------------------ fields and containers

  /** A field header holds the distance to the previous field of the struct when that is
      between 1 and 15, and the whole field identifier otherwise. */
  function FieldHeader(last: int, id: int, code: TypeCode): (r: Bytes)
    ensures 1 <= |r|
  {
    if last < id <= last + 15 then [16 * (id - last) + code]
    else [code] + Varint(ZigZag(id))
  }

  datatype Header = Stop | Field(code: TypeCode, id: int)

  function ToInt16(n: int): int {
    (n + 0x8000) % 0x1_0000 - 0x8000
  }

  function ReadFieldHeader(last: int, input: Bytes): (r: Parse<Header>)
    ensures r.Got? ==> |r.rest| < |input|
  {
    if |input| == 0 then Malformed
    else
      var code, delta := input[0] % 16, input[0] / 16;
      if code == 0 then Got(Stop, input[1..])
      else if code > 12 then Malformed
      else if delta == 0 then
        var (u, rest) :- ReadVarint64(input[1..]);
        Got(Field(code, ToInt16(UnZigZag(Mod32(u)))), rest)
      else Got(Field(code, ToInt16(last + delta)), input[1..])
  }

  lemma Nibbles(high: nat, low: nat)
    requires low < 16
    ensures (16 * high + low) / 16 == high && (16 * high + low) % 16 == low
  {
  }

  lemma Int16Fits(n: int)
    requires -0x8000 <= n < 0x8000
    ensures ToInt16(n) == n
  {
  }

  lemma ZigZagRoundTrip(v: int)
    ensures UnZigZag(ZigZag(v)) == v
  {
  }

  lemma ShortFieldHeader(last: int, id: int, code: TypeCode, rest: Bytes)
    requires -0x8000 <= id < 0x8000 && last < id <= last + 15
    ensures ReadFieldHeader(last, [16 * (id - last) + code] + rest) == Got(Field(code, id), rest)
  {
    var bytes := [16 * (id - last) + code] + rest;
    Nibbles(id - last, code);
    Int16Fits(id);
    assert bytes[0] == 16 * (id - last) + code && bytes[1..] == rest;
  }

  lemma ZigZagOfInt16(id: int)
    requires -0x8000 <= id < 0x8000
    ensures Mod32(ZigZag(id)) == ZigZag(id) < TWO_64
  {
  }

  lemma LongFieldHeader(last: int, id: int, code: TypeCode, rest: Bytes)
    requires -0x8000 <= id < 0x8000
    ensures ReadFieldHeader(last, [code] + (Varint(ZigZag(id)) + rest)) == Got(Field(code, id), rest)
  {
    var bytes := [code] + (Varint(ZigZag(id)) + rest);
    Nibbles(0, code);
    Int16Fits(id);
    ZigZagOfInt16(id);
    ZigZagRoundTrip(id);
    Varint64RoundTrip(ZigZag(id), rest);
    assert bytes[0] == code && bytes[1..] == Varint(ZigZag(id)) + rest;
  }

  lemma FieldHeaderRoundTrip(last: int, id: int, code: TypeCode, rest: Bytes)
    requires -0x8000 <= last < 0x8000 && -0x8000 <= id < 0x8000
    ensures ReadFieldHeader(last, FieldHeader(last, id, code) + rest) == Got(Field(code, id), rest)
  {
    if last < id <= last + 15 {
      ShortFieldHeader(last, id, code, rest);
    } else {
      assert FieldHeader(last, id, code) + rest == [code] + (Varint(ZigZag(id)) + rest);
      LongFieldHeader(last, id, code, rest);
    }
  }

  lemma StopRoundTrip(last: int, rest: Bytes)
    ensures ReadFieldHeader(last, [STOP] + rest) == Got(Stop, rest)
  {
    assert ([STOP] + rest)[1..] == rest;
  }

  /** The header of a list or a set: up to 14 elements fit in its first byte. */
  function ListHeader(n: nat, code: TypeCode): Bytes {
    if n <= 14 then [16 * n + code] else [240 + code] + Varint(n)
  }

  /** The element type of a container: the runtime also lets zero pass, the code of T_STOP. */
  type ElementCode = c: Byte | c <= 12

  function ReadListHeader(input: Bytes): (r: Parse<(ElementCode, nat)>)
    ensures r.Got? ==> |r.rest| < |input| && r.value.1 < TWO_31
  {
    if |input| == 0 || input[0] % 16 > 12 then Malformed
    else if input[0] / 16 == 15 then
      var (n, rest) :- ReadSize(input[1..]);
      Got((input[0] % 16, n), rest)
    else Got((input[0] % 16, input[0] / 16), input[1..])
  }

  lemma LongListHeader(n: nat, code: TypeCode, rest: Bytes)
    requires n < TWO_31
    ensures ReadListHeader([240 + code] + (Varint(n) + rest)) == Got((code, n), rest)
  {
    Nibbles(15, code);
    SizeRoundTrip(n, rest);
    var bytes := [240 + code] + (Varint(n) + rest);
    assert bytes[0] == 240 + code && bytes[1..] == Varint(n) + rest;
  }

  lemma ListHeaderRoundTrip(n: nat, code: TypeCode, rest: Bytes)
    requires n < TWO_31
    ensures ReadListHeader(ListHeader(n, code) + rest) == Got((code, n), rest)
  {
    var bytes := ListHeader(n, code) + rest;
    if n <= 14 {
      Nibbles(n, code);
      assert bytes[1..] == rest;
    } else {
      Nibbles(15, code);
      assert bytes == [240 + code] + (Varint(n) + rest);
      LongListHeader(n, code, rest);
    }
  }

  // ------------------------------------------------------------------ skipping

  function Drop(n: nat, input: Bytes): (r: Parse<()>)
    ensures r.Got? ==> |r.rest| <= |input|
  {
    if n <= |input| then Got((), input[n..]) else Malformed
  }

  /** Skips one value.  A boolean field has its value in its header, so it has no bytes
      of its own; a boolean element of a container is one byte. */
  function Skip(code: TypeCode, isField: bool, input: Bytes): (r: Parse<()>)
    ensures r.Got? ==> |r.rest| <= |input|
    ensures r.Got? && !isField ==> |r.rest| < |input|
    decreases |input|, 1, 0
  {
    if code == C_BOOL_TRUE || code == C_BOOL_FALSE then
      if isField then Got((), input) else Drop(1, input)
    else if code == C_BYTE then Drop(1, input)
    else if code == C_I16 || code == C_I32 || code == C_I64 then
      var (_, rest) :- ReadVarint64(input);
      Got((), rest)
    else if code == C_DOUBLE then Drop(8, input)
    else if code == C_BINARY then
      var (_, rest) :- ReadBinary(input);
      Got((), rest)
    else if code == C_LIST || code == C_SET then
      var (header, rest) :- ReadListHeader(input);
      SkipElements(header.1, header.0, rest)
    else if code == C_MAP then
      var (n, rest) :- ReadSize(input);
      if n == 0 then Got((), rest)
      else if |rest| == 0 then Malformed
      else
        var key, val := rest[0] / 16, rest[0] % 16;
        if 1 <= key <= 12 && 1 <= val <= 12 then SkipEntries(n, key, val, rest[1..])
        else Malformed
    else SkipFields(0, input)
  }

  function SkipElements(n: nat, code: ElementCode, input: Bytes): (r: Parse<()>)
    ensures r.Got? ==> |r.rest| <= |input|
    decreases |input|, 2, n
  {
    if n == 0 then Got((), input)
    else if code == STOP then Malformed
    else
      var (_, rest) :- Skip(code, false, input);
      SkipElements(n - 1, code, rest)
  }

  function SkipEntries(n: nat, key: TypeCode, val: TypeCode, input: Bytes): (r: Parse<()>)
    ensures r.Got? ==> |r.rest| <= |input|
    decreases |input|, 2, n
  {
    if n == 0 then Got((), input)
    else
      var (_, rest) :- Skip(key, false, input);
      var (_, rest') :- Skip(val, false, rest);
      SkipEntries(n - 1, key, val, rest')
  }

  function SkipFields(last: int, input: Bytes): (r: Parse<()>)
    ensures r.Got? ==> |r.rest| < |input|
    decreases |input|, 0, 0
  {
    var (header, rest) :- ReadFieldHeader(last, input);
    match header
    case Stop => Got((), rest)
    case Field(code, id) =>
      var (_, rest') :- Skip(code, true, rest);
      SkipFields(id, rest')
  }

  // ------------------------------------------------------------------- message

  const PROTOCOL_ID: Byte := 0x82
  const VERSION: int := 1
  const T_ONEWAY: int := 4

  /** A message header: protocol id, version and kind, sequence number, method name. */
  function MessageHeader(name: Bytes, kind: int, seqid: nat): Bytes
    requires 0 <= kind < 8
  {
    [PROTOCOL_ID, 32 * kind + VERSION] + Varint(seqid) + BinaryBytes(name)
  }

  datatype Message = Message(name: Bytes, kind: int, seqid: nat)

  function ReadMessageHeader(input: Bytes): (r: Parse<Message>)
    ensures r.Got? ==> |r.rest| < |input|
  {
    if |input| < 2 || input[0] != PROTOCOL_ID || input[1] % 32 != VERSION then Malformed
    else
      var (seqid, rest) :- ReadVarint64(input[2..]);
      var (name, rest') :- ReadBinary(rest);
      Got(Message(name, input[1] / 32, Mod32(seqid)), rest')
  }

  lemma MessageHeaderRoundTrip(name: Bytes, kind: int, seqid: nat, rest: Bytes)
    requires 0 <= kind < 8 && seqid < TWO_32 && |name| < TWO_31
    ensures ReadMessageHeader(MessageHeader(name, kind, seqid) + rest) == Got(Message(name, kind, seqid), rest)
  {
    var bytes := MessageHeader(name, kind, seqid) + rest;
    assert bytes[2..] == Varint(seqid) + (BinaryBytes(name) + rest);
    Varint64RoundTrip(seqid, BinaryBytes(name) + rest);
    BinaryRoundTrip(name, rest);
  }
}
