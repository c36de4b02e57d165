/** Decoding integers from bytes and guessing their byte order
    (src/io/endianness.cpp, src/psql_proxy/endianness.cpp). */
module Endianness {
  import opened Common

  datatype Order = LE | BE

  /** Four bytes, most significant first. Shifted bytes occupy disjoint bits, so their bitwise or is a sum. */
  function Word(a: int, b: int, c: int, d: int): int {
    a * 0x100_0000 + b * 0x1_0000 + c * 0x100 + d
  }

  function DecodeUint32LE(b: seq<Byte>): nat
    requires |b| == 4
  {
    Word(b[3], b[2], b[1], b[0])
  }

  function DecodeUint32BE(b: seq<Byte>): nat
    requires |b| == 4
  {
    Word(b[0], b[1], b[2], b[3])
  }

  function DecodeUint32(b: seq<Byte>, order: Order): nat
    requires |b| == 4
  {
    if order == LE then DecodeUint32LE(b) else DecodeUint32BE(b)
  }

  function DecodeUint16(b: seq<Byte>, order: Order): nat
    requires |b| == 2
  {
    if order == LE then Word(0, 0, b[1], b[0]) else Word(0, 0, b[0], b[1])
  }

  function CheckEndiannessByUint32(b: seq<Byte>): Order
    requires |b| == 4
  {
    if DecodeUint32LE(b) <= DecodeUint32BE(b) then LE else BE
  }

  /** The length the handler reads: decoded in the guessed order. */
  function GuessedUint32(b: seq<Byte>): nat
    requires |b| == 4
  {
    DecodeUint32(b, CheckEndiannessByUint32(b))
  }

  type Uint32 = x: int | 0 <= x < 0x1_0000_0000

  function EncodeUint32(v: Uint32, order: Order): (b: seq<Byte>)
    ensures |b| == 4
  {
    var q1 := v / 0x100;
    var q2 := q1 / 0x100;
    var be: seq<Byte> := [q2 / 0x100, q2 % 0x100, q1 % 0x100, v % 0x100];
    if order == BE then be else [be[3], be[2], be[1], be[0]]
  }

  function EncodeUint16(v: nat, order: Order): (b: seq<Byte>)
    requires v < 0x1_0000
    ensures |b| == 2
  {
    if order == BE then [v / 0x100, v % 0x100] else [v % 0x100, v / 0x100]
  }

  lemma EncodeDecode(v: Uint32, order: Order)
    ensures DecodeUint32(EncodeUint32(v, order), order) == v
  {
  }

  lemma DecodeEncode(b: seq<Byte>, order: Order)
    requires |b| == 4
    ensures DecodeUint32(b, order) < 0x1_0000_0000 && EncodeUint32(DecodeUint32(b, order), order) == b
  {
    hide Word;
    var c := if order == BE then b else [b[3], b[2], b[1], b[0]];
    assert DecodeUint32(b, order) == Word(c[0], c[1], c[2], c[3]);
    LowByte(c[0], c[1], c[2], c[3]);
    LowByte(0, c[0], c[1], c[2]);
    LowByte(0, 0, c[0], c[1]);
    OneByte(c[0]);
  }

  /** Shifting a word by a byte drops the least significant one. */
  lemma LowByte(a: Byte, b: Byte, c: Byte, d: Byte)
    ensures Word(a, b, c, d) / 0x100 == Word(0, a, b, c) && Word(a, b, c, d) % 0x100 == d
    ensures 0 <= Word(a, b, c, d) < 0x1_0000_0000
  {
    assert Word(a, b, c, d) == Word(0, a, b, c) * 0x100 + d;
  }

  lemma OneByte(d: Byte)
    ensures Word(0, 0, 0, d) == d
  {
  }

  /** The two outer bytes decide whether a value is at most its byte-reversed reading, and the two inner ones
      break the tie. */
  predicate SurvivesGuess(v: Uint32) {
    var b := EncodeUint32(v, BE);
    b[0] < b[3] || (b[0] == b[3] && b[1] <= b[2])
  }

  /** The guess returns the smaller of the two readings; a value written in either order is recovered exactly
      when its high bytes do not exceed its low bytes mirrored. */
  lemma GuessExactly(v: Uint32, order: Order)
    ensures GuessedUint32(EncodeUint32(v, order)) <= v
    ensures GuessedUint32(EncodeUint32(v, order)) == v <==> SurvivesGuess(v)
  {
    EncodeDecode(v, order);
  }

  /** Every length below 65536 is recovered, and in the order it was written in unless both orders agree. */
  lemma ShortLengthsSurvive(v: Uint32, order: Order)
    requires v < 0x1_0000
    ensures GuessedUint32(EncodeUint32(v, order)) == v
    ensures v > 0 ==> CheckEndiannessByUint32(EncodeUint32(v, order)) == order
  {
    GuessExactly(v, order);
  }

  /** The bound is tight: the first length above it is read as 256. */
  lemma BoundIsTight()
    ensures GuessedUint32(EncodeUint32(0x1_0000, BE)) == 256
    ensures !SurvivesGuess(0x1_0000)
  {
    assert EncodeUint32(0x1_0000, BE) == [0, 1, 0, 0];
  }

  /** In numbers: big-endian puts the most significant byte first, and on a tie the guess is little-endian. */
  lemma ByteOrders()
    ensures DecodeUint32([1, 2, 3, 4], BE) == 0x0102_0304 && DecodeUint32([1, 2, 3, 4], LE) == 0x0403_0201
    ensures DecodeUint16([1, 2], BE) == 0x0102 && DecodeUint16([1, 2], LE) == 0x0201
    ensures CheckEndiannessByUint32([0, 0, 0, 8]) == BE && CheckEndiannessByUint32([8, 0, 0, 0]) == LE
    ensures CheckEndiannessByUint32([1, 0, 0, 1]) == LE
  {
  }
}
