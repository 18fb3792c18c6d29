/**
 The machine arithmetic of the interpreter: 32-bit two's complement integers
 with wrap-around, and the NaN-boxed 64-bit words that carry them at run time.
 */
module Values {

  type I32 = x: int | -0x8000_0000 <= x < 0x8000_0000

  /** What a node, a register or a term evaluates to. `Undef` stands for every
      ill-typed, out-of-range or unimplemented operation; floats are only carried
      along, as their bit pattern. */
  datatype Value = Int(i: I32) | Bool(b: bool) | Float(bits: Word) | Undef

  /** `v` may be replaced by `w`: a defined value is kept exactly. */
  predicate Refines(v: Value, w: Value) {
    v == Undef || v == w
  }

  // ----- 32-bit arithmetic -----

  /** The conversion to `int32_t`: the representative of `n` modulo 2^32. */
  function Wrap(n: int): I32 {
    if -0x8000_0000 <= n < 0x8000_0000 then n else (n + 0x8000_0000) % 0x1_0000_0000 - 0x8000_0000
  }

  lemma {:induction false} WrapMod(n: int)
    ensures Wrap(n) == (n + 0x8000_0000) % 0x1_0000_0000 - 0x8000_0000
  {
  }

  /** The conversion to `uint32_t`. */
  function Low32(n: int): nat {
    n % 0x1_0000_0000
  }

  lemma {:induction false} WrapShift(n: int, k: int)
    ensures Wrap(n + k * 0x1_0000_0000) == Wrap(n)
  {
    WrapMod(n);
    WrapMod(n + k * 0x1_0000_0000);
  }

  /** Wrapping an operand first does not change a sum. */
  lemma {:induction false} WrapAdd(a: int, b: int)
    ensures Wrap(a + Wrap(b)) == Wrap(a + b)
  {
    WrapMod(b);
    var k := (b + 0x8000_0000) / 0x1_0000_0000;
    assert Wrap(b) == b - k * 0x1_0000_0000;
    WrapShift(a + b, -k);
  }

  lemma {:induction false} WrapLow(n: int)
    ensures Wrap(Low32(n)) == Wrap(n)
    ensures Low32(Wrap(n)) == Low32(n)
  {
    var k := n / 0x1_0000_0000;
    assert Low32(n) == n - k * 0x1_0000_0000;
    WrapShift(n, -k);
    WrapMod(n);
  }

  function AbsInt(x: int): nat {
    if x < 0 then -x else x
  }

  /** Truncated signed division; the interpreter answers 0 for a zero divisor. */
  function SDiv(a: I32, b: I32): I32 {
    if b == 0 then 0
    else
      var q := AbsInt(a) / AbsInt(b);
      Wrap(if (a < 0) != (b < 0) then -q else q)
  }

  /** The C remainder, with the sign of the dividend and 0 for a zero divisor. */
  function SRem(a: I32, b: I32): I32 {
    if b == 0 then 0
    else
      var r := AbsInt(a) % AbsInt(b);
      Wrap(if a < 0 then -r else r)
  }

  function Pow2(s: nat): nat {
    if s == 0 then 1 else 2 * Pow2(s - 1)
  }

  function Shl32(a: I32, s: nat): I32
    requires s < 32
  {
    Wrap(a * Pow2(s))
  }

  lemma PowPositive(s: nat)
    ensures Pow2(s) >= 1
  {
  }

  /** Arithmetic shift right rounds towards minus infinity. */
  function Sar32(a: I32, s: nat): I32
    requires s < 32
  {
    PowPositive(s);
    Wrap(a / Pow2(s))
  }

  datatype BitOp = AndBits | OrBits | XorBits

  function Bit(op: BitOp, x: bool, y: bool): bool {
    match op
    case AndBits => x && y
    case OrBits => x || y
    case XorBits => x != y
  }

  /** A bitwise operation on the `width` low bits of two's complement numbers;
      the last bit is the sign. */
  function Bitwise(op: BitOp, a: int, b: int, width: nat): int
    decreases width
  {
    var bit := if Bit(op, a % 2 == 1, b % 2 == 1) then 1 else 0;
    if width <= 1 then -bit else bit + 2 * Bitwise(op, a / 2, b / 2, width - 1)
  }

  lemma {:induction false} BitwiseRange(op: BitOp, a: int, b: int, width: nat)
    requires width >= 1
    ensures 0 - Pow2(width - 1) <= Bitwise(op, a, b, width) < Pow2(width - 1)
    decreases width
  {
    if width > 1 {
      BitwiseRange(op, a / 2, b / 2, width - 1);
    }
  }

  lemma {:induction false} Pow31()
    ensures Pow2(31) == 0x8000_0000
  {
    assert Pow2(8) == 256;
    assert Pow2(16) == 65536 by { assert Pow2(12) == 4096; }
    assert Pow2(24) == 0x100_0000 by { assert Pow2(20) == 0x10_0000; }
    assert Pow2(28) == 0x1000_0000;
  }

  function Bits32(op: BitOp, a: I32, b: I32): I32 {
    Pow31();
    BitwiseRange(op, a, b, 32);
    Bitwise(op, a, b, 32)
  }

  /** Any number inside the width is its own bit pattern. */
  lemma {:induction false} BitwiseSelf(op: BitOp, a: int, width: nat)
    requires width >= 1 && 0 - Pow2(width - 1) <= a < Pow2(width - 1) && op != XorBits
    ensures Bitwise(op, a, a, width) == a
    decreases width
  {
    if width > 1 {
      BitwiseSelf(op, a / 2, width - 1);
    }
  }

  lemma {:induction false} BitsSelf(op: BitOp, a: I32)
    requires op != XorBits
    ensures Bits32(op, a, a) == a
  {
    Pow31();
    BitwiseSelf(op, a, 32);
  }

  /** Zero is neutral for or and exclusive or, and absorbs and. */
  lemma {:induction false} BitwiseZero(op: BitOp, a: int, width: nat)
    requires width >= 1 && 0 - Pow2(width - 1) <= a < Pow2(width - 1)
    ensures Bitwise(op, a, 0, width) == if op == AndBits then 0 else a
    decreases width
  {
    if width > 1 {
      BitwiseZero(op, a / 2, width - 1);
    }
  }

  lemma {:induction false} BitsZero(op: BitOp, a: I32)
    ensures Bits32(op, a, 0) == if op == AndBits then 0 else a
  {
    Pow31();
    BitwiseZero(op, a, 32);
  }

  /** Exclusive or is or exactly when the operands share no set bit. */
  lemma {:induction false} XorIsOr(a: int, b: int, width: nat)
    ensures Bitwise(XorBits, a, b, width) == Bitwise(OrBits, a, b, width) <==> Bitwise(AndBits, a, b, width) == 0
    decreases width
  {
    if width > 1 {
      XorIsOr(a / 2, b / 2, width - 1);
    }
  }

  // ----- NaN-boxed words -----

  const WORD_NIL := 0x7FFD_0000_0000_0000
  const WORD_FALSE := 0x7FFE_0000_0000_0000
  const WORD_TRUE := 0x7FFF_0000_0000_0000

  /** The integer tag: its bits are those of the bare quiet-NaN pattern. */
  const TAG_INT := 0x7FFC_0000_0000_0000

  /** A 64-bit word. */
  type Word = w: int | 0 <= w < 0x1_0000_0000_0000_0000

  function BoxInt(i: int): Word {
    TAG_INT + Low32(i)
  }

  /** The tag is the top 16 bits. */
  predicate IsInt(w: Word) {
    w / 0x1_0000_0000_0000 == 0x7FFC
  }

  function AsInt(w: Word): I32 {
    Wrap(Low32(w))
  }

  predicate IsBool(w: Word) {
    w == WORD_TRUE || w == WORD_FALSE
  }

  predicate IsTruthy(w: Word) {
    w != WORD_NIL && w != WORD_FALSE
  }

  /** The run-time word of a defined value; undefined values have none. */
  function Box(v: Value): Word
    requires v != Undef
  {
    match v
    case Int(i) => BoxInt(i)
    case Bool(b) => if b then WORD_TRUE else WORD_FALSE
    case Float(bits) => bits
  }

  /** Not every bit of the tag's base is set, so the word is a float. */
  predicate IsFloatWord(w: Word) {
    w / 0x4_0000_0000_0000 % 0x2000 != 0x1FFF
  }

  lemma {:induction false} BoxIntTag(i: int)
    ensures IsInt(BoxInt(i)) && !IsBool(BoxInt(i))
  {
  }

  lemma {:induction false} BoxIntPayload(i: int)
    ensures AsInt(BoxInt(i)) == Wrap(i)
  {
    assert TAG_INT == 0x7FFC_0000 * 0x1_0000_0000;
    assert Low32(TAG_INT + Low32(i)) == Low32(i);
    WrapLow(i);
  }

  /** Tagged words are not floats. */
  lemma {:induction false} TaggedNotFloat(w: Word)
    requires IsInt(w) || IsBool(w) || w == WORD_NIL
    ensures !IsFloatWord(w)
  {
    assert w / 0x4_0000_0000_0000 == 0x1FFF;
  }

  lemma {:induction false} FloatKept(w: Word)
    requires IsFloatWord(w)
    ensures !IsInt(w) && !IsBool(w)
  {
    if IsInt(w) || IsBool(w) {
      TaggedNotFloat(w);
    }
  }

  /** Boxing is invertible, if the bits of floats are not those of a tag: tags
      never collide and payloads survive. */
  lemma {:induction false} BoxRoundTrip(v: Value, w: Value)
    requires v != Undef && w != Undef && (v.Float? ==> IsFloatWord(v.bits)) && (w.Float? ==> IsFloatWord(w.bits))
    ensures v.Int? <==> IsInt(Box(v))
    ensures v.Bool? <==> IsBool(Box(v))
    ensures v.Float? <==> IsFloatWord(Box(v))
    ensures v.Int? ==> AsInt(Box(v)) == v.i
    ensures Box(v) == Box(w) ==> v == w
  {
    BoxedKind(v);
    BoxedKind(w);
  }

  lemma {:induction false} BoxedKind(v: Value)
    requires v != Undef && (v.Float? ==> IsFloatWord(v.bits))
    ensures (v.Int? <==> IsInt(Box(v))) && (v.Bool? <==> IsBool(Box(v))) && (v.Float? <==> IsFloatWord(Box(v)))
    ensures v.Int? ==> AsInt(Box(v)) == v.i
  {
    if v.Int? {
      BoxIntTag(v.i);
      BoxIntPayload(v.i);
      TaggedNotFloat(Box(v));
    } else if v.Bool? {
      TaggedNotFloat(Box(v));
    } else {
      FloatKept(v.bits);
    }
  }
}
