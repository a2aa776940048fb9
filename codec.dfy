/**
 * The register value codec: conversions between a typed value and the
 * 16-bit register words that carry it (modbus_tcp_mcp.py, `_decode_register_value`
 * and `_encode_register_value`).
 *
 * Python integers are unbounded two's-complement numbers, so `x & 0xFFFF` is
 * `x % 0x1_0000` and `x >> 16` is `x / 0x1_0000` with Dafny's Euclidean operators
 * (for a positive divisor they agree with Python's floor division and modulo).
 */
module Codec {

  const WordModulus: int := 0x1_0000
  const PairModulus: int := 0x1_0000_0000

  /** A register word as a device returns it: an unsigned 16-bit number. */
  type Word = w: int | 0 <= w < 0x1_0000

  /** How a run of register words is interpreted. */
  datatype DataType = UInt16 | Int16 | UInt32 | Int32 | Float32 | Bool

  /** A value handed to the write tools: a Python int, or a bool (a subtype of int). */
  datatype Value = IntVal(n: int) | BoolVal(b: bool)

  /** What a read decodes to. A float32 is kept as its 32-bit IEEE-754 pattern. */
  datatype Decoded = DInt(i: int) | DBool(b: bool) | DFloatBits(bits: int)

  /** Python's `int(value)`. */
  function AsInt(v: Value): int {
    match v
    case IntVal(n) => n
    case BoolVal(b) => if b then 1 else 0
  }

  /** Python's `bool(value)`. */
  function Truthy(v: Value): bool {
    match v
    case IntVal(n) => n != 0
    case BoolVal(b) => b
  }

  /** The number of register words one value of type `t` occupies. */
  function Span(t: DataType): nat {
    if t == UInt32 || t == Int32 || t == Float32 then 2 else 1
  }

  /**
   * Where the k-th run of `w` words starts, `k * w`, written out for the two spans
   * so that offsets stay linear.
   */
  function BlockStart(k: nat, w: nat): nat {
    if w == 1 then k else 2 * k
  }

  /** For a type's span, `BlockStart` is the product `k * Span(t)`. */
  lemma SpanTimes(k: nat, t: DataType)
    ensures k * Span(t) == BlockStart(k, Span(t))
  {
  }

  /** `n` whole runs of `w` words fit in `len` words, and a further run does not: `n` is `len / w`. */
  lemma BlockCount(n: nat, len: nat, w: nat)
    requires w == 1 || w == 2
    requires BlockStart(n, w) <= len < BlockStart(n, w) + w
    ensures n == len / w
  {
  }

  /** The integers a numeric type can hold. */
  predicate InRange(n: int, t: DataType) {
    match t
    case UInt16 => 0 <= n < 0x1_0000
    case Int16 => -0x8000 <= n < 0x8000
    case UInt32 => 0 <= n < 0x1_0000_0000
    case Int32 => -0x8000_0000 <= n < 0x8000_0000
    case Float32 => false
    case Bool => n == 0 || n == 1
  }

  /** The width of a numeric type's two's-complement encoding, as a modulus. */
  function Modulus(t: DataType): int {
    if Span(t) == 2 then PairModulus else WordModulus
  }

  /** A value that `t` can carry without loss. */
  predicate Representable(v: Value, t: DataType) {
    t == Bool || (t != Float32 && InRange(AsInt(v), t))
  }

  /** The decoded form a caller means when writing `v` as type `t`. */
  function Meaning(v: Value, t: DataType): Decoded {
    if t == Bool then DBool(Truthy(v)) else DInt(AsInt(v))
  }

  /** `x & 0xFFFF` */
  function Low16(x: int): Word {
    x % WordModulus
  }

  /** `(x >> 16) & 0xFFFF` */
  function High16(x: int): Word {
    (x / WordModulus) % WordModulus
  }

  /** `(hi << 16) | lo` for 16-bit words. */
  function Join(hi: Word, lo: Word): (u: int)
    ensures 0 <= u < PairModulus
  {
    hi * WordModulus + lo
  }

  /**
   * `_encode_register_value` for every type but float32: one word for the
   * 16-bit types and bool, two words, high word first, for the 32-bit types.
   */
  function Encode(v: Value, t: DataType): (ws: seq<Word>)
    requires t != Float32
    ensures |ws| == Span(t)
    ensures t == Bool ==> ws == [if Truthy(v) then 1 else 0]
  {
    match t
    case UInt16 => [Low16(AsInt(v))]
    case Int16 => [Low16(AsInt(v))]
    case UInt32 => [High16(AsInt(v)), Low16(AsInt(v))]
    case Int32 => [High16(AsInt(v)), Low16(AsInt(v))]
    case Bool => [if Truthy(v) then 1 else 0]
  }

  /**
   * `_decode_register_value`: reads the first `Span(t)` words. The source indexes
   * `registers[0]` (and `registers[1]`), so a shorter list is an error its callers
   * never cause.
   */
  function Decode(ws: seq<Word>, t: DataType): (d: Decoded)
    requires |ws| >= Span(t)
    ensures t != Float32 && t != Bool ==> d.DInt? && InRange(d.i, t)
    ensures t == Bool ==> d == DBool(ws[0] != 0)
    ensures t == Float32 ==> d.DFloatBits? && 0 <= d.bits < PairModulus
  {
    match t
    case UInt16 => DInt(ws[0])
    case Int16 => DInt(if ws[0] < 0x8000 then ws[0] else ws[0] - WordModulus)
    case UInt32 => DInt(Join(ws[0], ws[1]))
    case Int32 =>
      var u := Join(ws[0], ws[1]);
      DInt(if u < 0x8000_0000 then u else u - PairModulus)
    case Float32 => DFloatBits(Join(ws[0], ws[1]))
    case Bool => DBool(ws[0] != 0)
  }

  /** The two words of a 32-bit encoding put back together give the number modulo 2^32. */
  lemma JoinSplit(x: int)
    ensures Join(High16(x), Low16(x)) == x % PairModulus
  {
    var q := x / WordModulus;
    assert x == q * WordModulus + Low16(x);
    var q2 := q / WordModulus;
    assert q == q2 * WordModulus + High16(x);
    assert x == q2 * PairModulus + Join(High16(x), Low16(x));
  }

  /** Two numbers in the same window of width `m` that agree modulo `m` are equal. */
  lemma SameResidue(a: int, b: int, lo: int, m: int)
    requires m > 0
    requires lo <= a < lo + m && lo <= b < lo + m
    requires (a - b) % m == 0
    ensures a == b
  {
    var d := a - b;
    assert d == m * (d / m);
  }

  /** `EncodeWraps` for the one-word types int16 and uint16. */
  lemma WrapsOneWord(n: int, t: DataType)
    requires t == UInt16 || t == Int16
    ensures Decode(Encode(IntVal(n), t), t).DInt?
    ensures var m := Decode(Encode(IntVal(n), t), t).i;
      InRange(m, t) && (n - m) % WordModulus == 0
  {
    var m := Decode(Encode(IntVal(n), t), t).i;
    var u := Low16(n);
    assert n == (n / WordModulus) * WordModulus + u;
    assert m == u || m == u - WordModulus;
    assert n - m == (n / WordModulus) * WordModulus || n - m == (n / WordModulus + 1) * WordModulus;
  }

  /** `EncodeWraps` for the two-word types int32 and uint32. */
  lemma WrapsTwoWords(n: int, t: DataType)
    requires t == UInt32 || t == Int32
    ensures Decode(Encode(IntVal(n), t), t).DInt?
    ensures var m := Decode(Encode(IntVal(n), t), t).i;
      InRange(m, t) && (n - m) % PairModulus == 0
  {
    var m := Decode(Encode(IntVal(n), t), t).i;
    JoinSplit(n);
    var u := Join(High16(n), Low16(n));
    assert n == (n / PairModulus) * PairModulus + u;
    assert m == u || m == u - PairModulus;
    assert n - m == (n / PairModulus) * PairModulus || n - m == (n / PairModulus + 1) * PairModulus;
  }

  /**
   * Encoding an arbitrary integer and decoding it again yields the number of
   * the type's range that agrees with it modulo 2^16 (or 2^32): out-of-range
   * values wrap around rather than fail.
   */
  lemma {:induction false} EncodeWraps(n: int, t: DataType)
    requires t != Float32 && t != Bool
    ensures Decode(Encode(IntVal(n), t), t).DInt?
    ensures var m := Decode(Encode(IntVal(n), t), t).i;
      InRange(m, t) && (n - m) % Modulus(t) == 0
  {
    if Span(t) == 2 {
      WrapsTwoWords(n, t);
    } else {
      WrapsOneWord(n, t);
    }
  }

  /** decode(encode(v)) == v for every value the type can carry. */
  lemma {:induction false} DecodeEncode(v: Value, t: DataType)
    requires t != Float32 && Representable(v, t)
    ensures Decode(Encode(v, t), t) == Meaning(v, t)
  {
    if t != Bool {
      var n := AsInt(v);
      assert Encode(v, t) == Encode(IntVal(n), t);
      EncodeWraps(n, t);
      var m := Decode(Encode(IntVal(n), t), t).i;
      var lo := if t == UInt16 || t == UInt32 then 0 else -(Modulus(t) / 2);
      SameResidue(n, m, lo, Modulus(t));
    }
  }

  /** The value a decoded integer or bool stands for. */
  function ValueOf(d: Decoded): Value
    requires !d.DFloatBits?
  {
    match d
    case DInt(i) => IntVal(i)
    case DBool(b) => BoolVal(b)
  }

  /**
   * encode(decode(ws)) == ws: every word pattern of a numeric type is the encoding
   * of exactly one value; for bool only the canonical words 0 and 1 come back.
   */
  lemma {:induction false} EncodeDecode(ws: seq<Word>, t: DataType)
    requires t != Float32 && |ws| == Span(t)
    requires t == Bool ==> ws[0] <= 1
    ensures Encode(ValueOf(Decode(ws, t)), t) == ws
  {
    var d := Decode(ws, t);
    if Span(t) == 2 {
      var u := Join(ws[0], ws[1]);
      var n := d.i;
      assert n == u || n == u - PairModulus;
      JoinSplit(n);
      assert n % PairModulus == u;
      assert High16(n) == ws[0] && Low16(n) == ws[1] by {
        assert Join(High16(n), Low16(n)) == Join(ws[0], ws[1]);
      }
    }
  }

  /**
   * `regs_needed` is the decoder's width: only the first `Span(t)` words are read,
   * and the second word of a 32-bit type does count.
   */
  lemma SpanIsDecodeWidth(ws: seq<Word>, t: DataType)
    requires |ws| >= Span(t)
    ensures Decode(ws, t) == Decode(ws[..Span(t)], t)
    ensures Span(t) == 2 ==> Decode([0, 0], t) != Decode([0, 1], t)
  {
  }

  /** Concrete cases: -1 as int16 is 0xFFFF and back; [1, 2] as uint32 is 65538. */
  lemma CodecExamples()
    ensures Encode(IntVal(-1), Int16) == [0xFFFF]
    ensures Decode([0xFFFF], Int16) == DInt(-1)
    ensures Decode([1, 2], UInt32) == DInt(65538)
    ensures Encode(IntVal(65538), UInt32) == [1, 2]
    ensures Decode(Encode(BoolVal(true), Bool), Bool) == DBool(true)
  {
  }
}
