/**
 What the integer operations compute, said without the functions that model
 them: sums and products modulo 2^32, quotients and remainders by the division
 equation, shifts by their inequality, bitwise operations bit by bit.
 */
module Arithmetic {
  import opened Values
  import opened Terms
  import opened Bytecode

  // ----- Facts about division -----

  lemma {:induction false} TimesOrdered(x: int, y: int, d: int)
    requires x <= y && d >= 1
    ensures x * d <= y * d && (y >= 0 ==> y <= y * d) && (x <= 0 ==> x * d <= x)
  {
    assert (y - x) * d >= 0;
    assert y >= 0 ==> y * (d - 1) >= 0;
    assert x <= 0 ==> x * (d - 1) <= 0;
  }

  lemma {:induction false} QuotientBounds(a: int, d: int)
    requires d >= 1
    ensures a / d * d <= a < (a / d + 1) * d
    ensures a >= 0 ==> 0 <= a / d <= a
    ensures a < 0 ==> a <= a / d < 0
  {
    var q := a / d;
    assert a == d * q + a % d;
    assert q * d <= a < (q + 1) * d;
    QuotientSign(a, d, q);
  }

  lemma {:induction false} QuotientSign(a: int, d: int, q: int)
    requires d >= 1 && q * d <= a < (q + 1) * d
    ensures a >= 0 ==> 0 <= q <= a
    ensures a < 0 ==> a <= q < 0
  {
    TimesOrdered(q, q, d);
    TimesOrdered(q + 1, q + 1, d);
  }

  /** Halving first and dividing by the rest divides by the whole. */
  lemma {:induction false} HalfFirst(x: int, d: int)
    requires d >= 1
    ensures x / (2 * d) == x / 2 / d
  {
    var q := x / 2 / d;
    QuotientBounds(x / 2, d);
    assert q * d <= x / 2 < (q + 1) * d;
    assert 2 * (x / 2) <= x <= 2 * (x / 2) + 1;
    assert q * (2 * d) <= x < (q + 1) * (2 * d);
    QuotientUnique(x, 2 * d, q);
  }

  lemma {:induction false} QuotientUnique(x: int, d: int, q: int)
    requires d >= 1 && q * d <= x < (q + 1) * d
    ensures x / d == q
  {
    var p := x / d;
    QuotientBounds(x, d);
    if p < q {
      TimesOrdered(p + 1, q, d);
    } else if p > q {
      TimesOrdered(q + 1, p, d);
    }
  }

  // ----- Shifts -----

  /** An arithmetic shift right is the quotient by a power of two, rounded down. */
  lemma {:induction false} ShiftRightMeans(a: I32, s: nat)
    requires s < 32
    ensures Sar32(a, s) * Pow2(s) <= a < (Sar32(a, s) + 1) * Pow2(s)
  {
    PowPositive(s);
    QuotientBounds(a, Pow2(s));
  }

  /** A shift left is the product with a power of two, modulo 2^32. */
  lemma {:induction false} ShiftLeftMeans(a: I32, s: nat)
    requires s < 32
    ensures (Shl32(a, s) - a * Pow2(s)) % 0x1_0000_0000 == 0
  {
    WrapCongruent(a * Pow2(s));
  }

  lemma {:induction false} WrapCongruent(n: int)
    ensures (Wrap(n) - n) % 0x1_0000_0000 == 0
  {
    WrapMod(n);
  }

  // ----- Division -----

  /** The one quotient that does not fit. */
  predicate Overflows(a: I32, b: I32) {
    a == -0x8000_0000 && b == -1
  }

  /** Smaller than the divisor, with the sign of the dividend. */
  predicate IsRemainder(a: int, b: int, r: int) {
    0 - AbsInt(b) < r < AbsInt(b) && (r > 0 ==> a > 0) && (r < 0 ==> a < 0)
  }

  /** The quotient leaves a remainder; it is 0 for a zero divisor and wraps around
      in the one case where it does not fit. */
  ghost predicate IsQuotient(a: I32, b: I32, q: int) {
    if b == 0 then q == 0 else if Overflows(a, b) then q == a else IsRemainder(a, b, a - b * q)
  }

  ghost predicate IsModulus(a: I32, b: I32, r: int) {
    if b == 0 || Overflows(a, b) then r == 0 else IsRemainder(a, b, r) && exists q :: a == b * q + r
  }

  /** Quotient and remainder satisfy the division equation; the remainder is
      smaller than the divisor and has the sign of the dividend. */
  lemma {:induction false} DivisionMeans(a: I32, b: I32)
    ensures b != 0 && !Overflows(a, b) ==> a == b * SDiv(a, b) + SRem(a, b)
    ensures b != 0 ==> IsRemainder(a, b, SRem(a, b))
    ensures Overflows(a, b) ==> SDiv(a, b) == a && SRem(a, b) == 0
    ensures b == 0 ==> SDiv(a, b) == 0 && SRem(a, b) == 0
  {
    if Overflows(a, b) {
      MinusOne();
    } else if b != 0 {
      RemainderMeans(a, b);
      QuotientMeans(a, b);
    }
  }

  lemma {:induction false} MinusOne()
    ensures SDiv(-0x8000_0000, -1) == -0x8000_0000 && SRem(-0x8000_0000, -1) == 0
  {
    assert AbsInt(-0x8000_0000) == 0x8000_0000 && AbsInt(-1) == 1;
  }

  /** Magnitudes divide with a remainder below the divisor. */
  lemma {:induction false} Magnitudes(m: nat, d: nat) returns (q: nat, r: nat)
    requires d > 0
    ensures q == m / d && r == m % d && m == d * q + r && r < d && q <= m
  {
    q, r := m / d, m % d;
    QuotientBounds(m, d);
  }

  lemma {:induction false} RemainderMeans(a: I32, b: I32)
    requires b != 0
    ensures SRem(a, b) == (if a < 0 then 0 - AbsInt(a) % AbsInt(b) else AbsInt(a) % AbsInt(b)) && IsRemainder(a, b, SRem(a, b))
  {
    var q, r := Magnitudes(AbsInt(a), AbsInt(b));
  }

  lemma {:induction false} QuotientMeans(a: I32, b: I32)
    requires b != 0 && !Overflows(a, b)
    ensures a == b * SDiv(a, b) + SRem(a, b)
  {
    RemainderMeans(a, b);
    var q, r := Magnitudes(AbsInt(a), AbsInt(b));
    QuotientFits(a, b, q);
    SignedEquation(a, b, q, r);
  }

  lemma {:induction false} HalfOf(q: nat, d: nat)
    requires d >= 2 && q * d <= 0x8000_0000
    ensures q < 0x8000_0000
  {
    TimesOrdered(2, d, 1);
    assert q * d >= q * 2 by { assert q * (d - 2) >= 0; }
  }

  lemma {:induction false} QuotientFits(a: I32, b: I32, q: nat)
    requires b != 0 && q == AbsInt(a) / AbsInt(b) && q <= AbsInt(a) && !Overflows(a, b)
    ensures SDiv(a, b) == if (a < 0) != (b < 0) then 0 - q else q
  {
    if AbsInt(b) >= 2 {
      QuotientBounds(AbsInt(a), AbsInt(b));
      HalfOf(q, AbsInt(b));
    }
  }

  lemma {:induction false} SignedEquation(a: int, b: int, q: int, r: int)
    requires b != 0 && AbsInt(a) == AbsInt(b) * q + r
    ensures a == b * (if (a < 0) != (b < 0) then 0 - q else q) + (if a < 0 then 0 - r else r)
  {
    assert b * (0 - q) == 0 - b * q && (0 - b) * q == 0 - b * q;
  }

  // ----- Bits -----

  /** Bit `i` of a two's complement number. */
  predicate BitAt(x: int, i: nat) {
    PowPositive(i);
    x / Pow2(i) % 2 == 1
  }

  lemma {:induction false} BitAbove(x: int, i: nat)
    requires i > 0
    ensures BitAt(x, i) <==> BitAt(x / 2, i - 1)
  {
    PowPositive(i - 1);
    HalfFirst(x, Pow2(i - 1));
  }

  /** Bit `i` of `r` is that of a bitwise operation on `a` and `b`. */
  predicate BitLaw(op: BitOp, a: int, b: int, r: int, i: nat) {
    BitAt(r, i) <==>
      match op
      case AndBits => BitAt(a, i) && BitAt(b, i)
      case OrBits => BitAt(a, i) || BitAt(b, i)
      case XorBits => BitAt(a, i) != BitAt(b, i)
  }

  ghost predicate AllBits(op: BitOp, a: int, b: int, r: int) {
    forall i: nat :: i < 32 ==> BitLaw(op, a, b, r, i)
  }

  lemma {:induction false} BitwiseMeans(op: BitOp, a: int, b: int, width: nat, i: nat)
    requires i < width
    ensures BitLaw(op, a, b, Bitwise(op, a, b, width), i)
    decreases width
  {
    var r := Bitwise(op, a, b, width);
    if i > 0 {
      BitwiseMeans(op, a / 2, b / 2, width - 1, i - 1);
      BitAbove(a, i);
      BitAbove(b, i);
      BitAbove(r, i);
    } else {
      assert Pow2(0) == 1;
    }
  }

  lemma {:induction false} BitsMean(op: BitOp, a: I32, b: I32)
    ensures AllBits(op, a, b, Bits32(op, a, b))
  {
    forall i: nat | i < 32
      ensures BitLaw(op, a, b, Bits32(op, a, b), i)
    {
      BitwiseMeans(op, a, b, 32, i);
    }
  }

  /** The operands have a set bit in common. */
  ghost predicate ShareBit(a: int, b: int, width: nat) {
    exists i: nat :: i < width && BitAt(a, i) && BitAt(b, i)
  }

  lemma {:induction false} SharedBits(a: int, b: int, width: nat)
    requires width >= 1
    ensures Bitwise(AndBits, a, b, width) != 0 <==> ShareBit(a, b, width)
    decreases width
  {
    assert Pow2(0) == 1;
    assert BitAt(a, 0) <==> a % 2 == 1;
    assert BitAt(b, 0) <==> b % 2 == 1;
    if width > 1 {
      SharedBits(a / 2, b / 2, width - 1);
      SharedAbove(a, b, width);
    }
  }

  lemma {:induction false} SharedAbove(a: int, b: int, width: nat)
    requires width > 1
    ensures ShareBit(a, b, width) <==> (BitAt(a, 0) && BitAt(b, 0)) || ShareBit(a / 2, b / 2, width - 1)
  {
    if i: nat :| i < width - 1 && BitAt(a / 2, i) && BitAt(b / 2, i) {
      BitAbove(a, i + 1);
      BitAbove(b, i + 1);
    }
    if i: nat :| i < width && BitAt(a, i) && BitAt(b, i) {
      if i > 0 {
        BitAbove(a, i);
        BitAbove(b, i);
      }
    }
  }

  // ----- The operations of a graph -----

  /** What a two-operand operation on integers yields, where it has a value. */
  ghost predicate Computes(k: Kind, a: I32, b: I32, v: Value) {
    match k
    case Add => v.Int? && (v.i - (a + b)) % 0x1_0000_0000 == 0
    case Sub => v.Int? && (v.i - (a - b)) % 0x1_0000_0000 == 0
    case Mul => v.Int? && (v.i - a * b) % 0x1_0000_0000 == 0
    case Div => v.Int? && IsQuotient(a, b, v.i)
    case Mod => v.Int? && IsModulus(a, b, v.i)
    case And => v.Int? && AllBits(AndBits, a, b, v.i)
    case Or => v.Int? && AllBits(OrBits, a, b, v.i)
    case Xor => v.Int? && AllBits(XorBits, a, b, v.i)
    case Shl => v.Int? && 0 <= b < 32 && (v.i - a * Pow2(b)) % 0x1_0000_0000 == 0
    case Shr => v.Int? && 0 <= b < 32 && v.i * Pow2(b) <= a < (v.i + 1) * Pow2(b)
    case Eq => v == Bool(a == b)
    case Ne => v == Bool(a < b || b < a)
    case Lt => v == Bool(a < b)
    case Le => v == Bool(!(b < a))
    case Gt => v == Bool(b < a)
    case Ge => v == Bool(!(a < b))
    case _ => false
  }

  /** Every operation that has a value computes what it should. It has none for a
      shift amount outside 0..31, for a division by zero that traps, and for an
      exclusive or of operands that share a bit where those are ruled out. */
  lemma {:induction false} BinaryComputes(k: Kind, a: I32, b: I32, sem: Sem)
    requires IsBinary(k)
    ensures BinaryInt(k, a, b, sem) != Undef ==> Computes(k, a, b, BinaryInt(k, a, b, sem))
    ensures BinaryInt(k, a, b, sem) == Undef <==>
              || ((k == Shl || k == Shr) && !(0 <= b < 32))
              || ((k == Div || k == Mod) && b == 0 && sem == Source(true))
              || (k == Xor && sem == Machine(true) && ShareBit(a, b, 32))
  {
    if k == Add || k == Sub || k == Mul {
      SumsCompute(k, a, b, sem);
    } else if k == Div || k == Mod {
      DivisionComputes(k, a, b, sem);
    } else if k == And || k == Or || k == Xor {
      BitsCompute(k, a, b, sem);
    } else if k == Shl || k == Shr {
      ShiftsCompute(k, a, b, sem);
    } else {
      ComparisonsCompute(k, a, b, sem);
    }
  }

  lemma {:induction false} SumsCompute(k: Kind, a: I32, b: I32, sem: Sem)
    requires k == Add || k == Sub || k == Mul
    ensures Computes(k, a, b, BinaryInt(k, a, b, sem))
  {
    WrapCongruent(a + b);
    WrapCongruent(a - b);
    WrapCongruent(a * b);
  }

  lemma {:induction false} DivisionComputes(k: Kind, a: I32, b: I32, sem: Sem)
    requires k == Div || k == Mod
    ensures if b == 0 && sem == Source(true) then BinaryInt(k, a, b, sem) == Undef else Computes(k, a, b, BinaryInt(k, a, b, sem))
  {
    DivisionFits(a, b);
  }

  lemma {:induction false} DivisionFits(a: I32, b: I32)
    ensures IsQuotient(a, b, SDiv(a, b)) && IsModulus(a, b, SRem(a, b))
  {
    DivisionMeans(a, b);
  }

  lemma {:induction false} BitsCompute(k: Kind, a: I32, b: I32, sem: Sem)
    requires k == And || k == Or || k == Xor
    ensures BinaryInt(k, a, b, sem) != Undef ==> Computes(k, a, b, BinaryInt(k, a, b, sem))
    ensures BinaryInt(k, a, b, sem) == Undef <==> k == Xor && sem == Machine(true) && ShareBit(a, b, 32)
  {
    if k == And {
      BitsMean(AndBits, a, b);
    } else if k == Or {
      BitsMean(OrBits, a, b);
    } else {
      BitsMean(XorBits, a, b);
      SharedBits(a, b, 32);
    }
  }

  lemma {:induction false} ShiftsCompute(k: Kind, a: I32, b: I32, sem: Sem)
    requires k == Shl || k == Shr
    ensures if 0 <= b < 32 then Computes(k, a, b, BinaryInt(k, a, b, sem)) else BinaryInt(k, a, b, sem) == Undef
  {
    if 0 <= b < 32 {
      ShiftLeftMeans(a, b);
      ShiftRightMeans(a, b);
    }
  }

  lemma {:induction false} ComparisonsCompute(k: Kind, a: I32, b: I32, sem: Sem)
    requires k == Eq || k == Ne || k == Lt || k == Le || k == Gt || k == Ge
    ensures BinaryInt(k, a, b, sem) != Undef && Computes(k, a, b, BinaryInt(k, a, b, sem))
  {
  }

  /** Negation and complement, modulo 2^32, and the absolute value. */
  lemma {:induction false} UnaryComputes(a: I32, sem: Sem)
    ensures var v := Unary(Neg, Int(a), sem); v.Int? && (v.i + a) % 0x1_0000_0000 == 0
    ensures var v := Unary(Not, Int(a), sem); v.Int? && v.i + a == -1
    ensures sem.Source? ==>
              var v := Unary(Abs, Int(a), sem);
              v.Int? && ((v.i - a) % 0x1_0000_0000 == 0 || (v.i + a) % 0x1_0000_0000 == 0) && (v.i >= 0 || v.i == -0x8000_0000)
  {
    WrapCongruent(0 - a);
    WrapCongruent(AbsInt(a));
  }

  /** Boolean operations by their truth tables, as a graph reads them. */
  lemma {:induction false} BooleansCompute(a: bool, b: bool, trap: bool)
    ensures Binary(And, Bool(a), Bool(b), Source(trap)) == Bool(if a then b else false)
    ensures Binary(Or, Bool(a), Bool(b), Source(trap)) == Bool(if a then true else b)
    ensures Binary(Xor, Bool(a), Bool(b), Source(trap)) == Bool(if a then !b else b)
    ensures Binary(Eq, Bool(a), Bool(b), Source(trap)) == Bool(if a then b else !b)
    ensures Binary(Ne, Bool(a), Bool(b), Source(trap)) == Bool(if a then !b else b)
    ensures Unary(Not, Bool(a), Source(trap)) == Bool(if a then false else true)
  {
  }

  /** Leaves and selection: constants are their payload, parameters come from the
      environment, and the condition picks an input. */
  lemma {:induction false} LeavesCompute(n: int, b: bool, f: Word, i: nat, v: Value, w: Value, env: Env, trap: bool)
    ensures var r := Apply(ConstInt, IntPayload(n), [], env, Source(trap)); r.Int? && (r.i - n) % 0x1_0000_0000 == 0
    ensures Apply(ConstBool, BoolPayload(b), [], env, Source(trap)) == Bool(b)
    ensures Apply(ConstFloat, FloatPayload(f), [], env, Source(trap)) == Float(f)
    ensures Apply(Param, IndexPayload(i), [], env, Source(trap)) == env(i)
    ensures Apply(Select, NoPayload, [Bool(true), v, w], env, Source(trap)) == v
    ensures Apply(Select, NoPayload, [Bool(false), v, w], env, Source(trap)) == w
  {
    WrapCongruent(n);
  }

  // ----- The words of the machine -----

  /** What an integer instruction leaves in its register. */
  ghost predicate Yields(op: Byte, x: I32, y: I32, w: Word) {
    if op == ADD then w == TAG_INT + (x + y) % 0x1_0000_0000
    else if op == SUB then w == TAG_INT + (x - y) % 0x1_0000_0000
    else if op == MUL then w == TAG_INT + x * y % 0x1_0000_0000
    else if op == DIV then IsInt(w) && IsQuotient(x, y, AsInt(w))
    else if op == MOD then IsInt(w) && IsModulus(x, y, AsInt(w))
    else if op == AND then IsInt(w) && AllBits(AndBits, x, y, AsInt(w))
    else if op == OR then IsInt(w) && AllBits(OrBits, x, y, AsInt(w))
    else if op == XOR then IsInt(w) && AllBits(XorBits, x, y, AsInt(w))
    else if op == SHL then 0 <= y < 32 ==> w == TAG_INT + x * Pow2(y) % 0x1_0000_0000
    else if op == SHR then 0 <= y < 32 ==> IsInt(w) && AsInt(w) * Pow2(y) <= x < (AsInt(w) + 1) * Pow2(y)
    else if op == EQ then w == (if x == y then WORD_TRUE else WORD_FALSE)
    else if op == NE then w == (if x == y then WORD_FALSE else WORD_TRUE)
    else if op == LT then w == (if x < y then WORD_TRUE else WORD_FALSE)
    else if op == LE then w == (if y < x then WORD_FALSE else WORD_TRUE)
    else if op == GT then w == (if y < x then WORD_TRUE else WORD_FALSE)
    else op == GE && w == (if x < y then WORD_FALSE else WORD_TRUE)
  }

  lemma {:induction false} BoxCongruent(i: int, n: int)
    requires (i - n) % 0x1_0000_0000 == 0
    ensures BoxInt(i) == TAG_INT + n % 0x1_0000_0000
  {
  }

  /** Each opcode computes its own operation. */
  lemma {:induction false} WordYields(op: Byte, x: I32, y: I32, shifts: Shifts)
    requires IsArithmetic(op)
    ensures Yields(op, x, y, ArithmeticWord(op, x, y, shifts))
  {
    if op == ADD || op == SUB || op == MUL {
      SumWord(op, x, y, shifts);
    } else if op == DIV || op == MOD {
      DivisionWord(op, x, y, shifts);
    } else if op == AND || op == OR || op == XOR {
      BitsWord(op, x, y, shifts);
    } else if op == SHL || op == SHR {
      ShiftWord(op, x, y, shifts);
    } else {
      ComparisonWord(op, x, y, shifts);
    }
  }

  lemma {:induction false} SumWord(op: Byte, x: I32, y: I32, shifts: Shifts)
    requires op == ADD || op == SUB || op == MUL
    ensures Yields(op, x, y, ArithmeticWord(op, x, y, shifts))
  {
    SumsCompute(KindOfOp(op), x, y, Source(false));
    var v := BinaryInt(KindOfOp(op), x, y, Source(false));
    BoxCongruent(v.i, if op == ADD then x + y else if op == SUB then x - y else x * y);
  }

  lemma {:induction false} DivisionWord(op: Byte, x: I32, y: I32, shifts: Shifts)
    requires op == DIV || op == MOD
    ensures Yields(op, x, y, ArithmeticWord(op, x, y, shifts))
  {
    DivisionFits(x, y);
    var v := BinaryInt(KindOfOp(op), x, y, Source(false));
    BoxIntTag(v.i);
    BoxIntPayload(v.i);
  }

  lemma {:induction false} BitsWord(op: Byte, x: I32, y: I32, shifts: Shifts)
    requires op == AND || op == OR || op == XOR
    ensures Yields(op, x, y, ArithmeticWord(op, x, y, shifts))
  {
    BitsCompute(KindOfOp(op), x, y, Source(false));
    var v := BinaryInt(KindOfOp(op), x, y, Source(false));
    BoxIntTag(v.i);
    BoxIntPayload(v.i);
  }

  lemma {:induction false} ShiftWord(op: Byte, x: I32, y: I32, shifts: Shifts)
    requires op == SHL || op == SHR
    ensures Yields(op, x, y, ArithmeticWord(op, x, y, shifts))
  {
    if 0 <= y < 32 {
      ShiftsCompute(KindOfOp(op), x, y, Source(false));
      var v := BinaryInt(KindOfOp(op), x, y, Source(false));
      if op == SHL {
        BoxCongruent(v.i, x * Pow2(y));
      } else {
        BoxIntTag(v.i);
        BoxIntPayload(v.i);
      }
    }
  }

  lemma {:induction false} ComparisonWord(op: Byte, x: I32, y: I32, shifts: Shifts)
    requires EQ <= op <= GE
    ensures Yields(op, x, y, ArithmeticWord(op, x, y, shifts))
  {
  }
}
