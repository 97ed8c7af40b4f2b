// Immediate values of the constant-expression evaluator and the binary
// operator semantics of GenParser::evalBinExpr.
//
// An ImmVal is a kind tag plus one 64-bit storage word.  The C++ union views
// (u64, s64, f64, u32, s8, ...) all read and write that one word, so the model
// keeps only the word (`bits`, the unsigned number 0 <= bits < 2^64) and
// defines each view on it.  Floating point arithmetic is not modelled: it is
// supplied as opaque functions on bit patterns (FloatOps).
module ImmVals {
  import opened Diags

  const WORD_MOD: int := 0x1_0000_0000_0000_0000

  /** A 64-bit storage word, read as an unsigned number. */
  type Word = x: int | 0 <= x < 0x1_0000_0000_0000_0000

  /** The tag of an immediate value (ImmVal::Kind).  Undef is the tag of a
    * default-constructed value, which is neither integral nor floating. */
  datatype Kind = Undef | S8 | U8 | S16 | U16 | S32 | U32 | S64 | U64 | F16 | F32 | F64

  datatype ImmVal = ImmVal(kind: Kind, bits: Word)

  /** IEEE 754-2008 binary64 fields (section 3.4): a sign bit, 11 exponent
    * bits and 52 mantissa bits; the quiet bit is the most significant
    * mantissa bit (section 6.2.1). */
  const F64_SIGN_BIT: Word := 0x8000_0000_0000_0000
  const F64_EXP_MASK: Word := 0x7FF0_0000_0000_0000
  const F64_QNAN_BIT: Word := 0x0008_0000_0000_0000
  const F64_MANT_LIMIT: int := 0x0010_0000_0000_0000
  /** numeric_limits<double>::infinity() */
  const F64_INF_BITS: Word := 0x7FF0_0000_0000_0000
  /** numeric_limits<double>::signaling_NaN() as libstdc++ gives it on x86-64 */
  const F64_SNAN_BITS: Word := 0x7FF4_0000_0000_0000

  predicate IsFloating(v: ImmVal) {
    v.kind == F16 || v.kind == F32 || v.kind == F64
  }
  predicate IsSignedInt(v: ImmVal) {
    v.kind == S8 || v.kind == S16 || v.kind == S32 || v.kind == S64
  }
  predicate IsUnsignedInt(v: ImmVal) {
    v.kind == U8 || v.kind == U16 || v.kind == U32 || v.kind == U64
  }
  predicate IsIntegral(v: ImmVal) {
    IsSignedInt(v) || IsUnsignedInt(v)
  }

  /** The kind predicates partition the tags: no value is both floating and
    * integral, and only Undef is neither. */
  lemma KindPartition(v: ImmVal)
    ensures !(IsFloating(v) && IsIntegral(v))
    ensures !(IsSignedInt(v) && IsUnsignedInt(v))
    ensures !IsFloating(v) && !IsIntegral(v) <==> v.kind == Undef
  {
  }

  /** The exponent and mantissa fields of a binary64 pattern. */
  function Exponent64(b: Word): int { (b / F64_MANT_LIMIT) % 0x800 }
  function Mantissa64(b: Word): int { b % F64_MANT_LIMIT }

  /** A binary64 pattern is a NaN when its exponent is all ones and its
    * mantissa is non-zero (IEEE 754-2008 section 3.4). */
  predicate IsNaN64(b: Word) {
    Exponent64(b) == 0x7FF && Mantissa64(b) != 0
  }
  /** A NaN is quiet when the first mantissa bit is set (section 6.2.1). */
  predicate IsQuietNaN64(b: Word) {
    IsNaN64(b) && Mantissa64(b) >= F64_QNAN_BIT
  }

  // ---- two's complement views of the 64-bit word ----

  /** The word a mathematical integer wraps to (two's complement). */
  function Wrap(x: int): Word { x % WORD_MOD }

  /** The s64 view of a word. */
  function ToSigned(b: Word): (r: int)
    ensures -0x8000_0000_0000_0000 <= r < 0x8000_0000_0000_0000
    ensures Wrap(r) == b
  {
    if b < F64_SIGN_BIT then b else b - WORD_MOD
  }

  /** The s64 view is negative when the sign bit is set. */
  predicate IsNegative(b: Word) { b >= F64_SIGN_BIT }

  /** Signed comparison s64(a) < s64(c). */
  predicate SignedLess(a: Word, c: Word) { ToSigned(a) < ToSigned(c) }

  function Abs(x: int): nat { if x < 0 then -x else x }

  /** C++ integer division: the quotient truncated toward zero. */
  function TruncDiv(x: int, y: int): int
    requires y != 0
  {
    var q := Abs(x) / Abs(y);
    if (x < 0) != (y < 0) then -q else q
  }

  /** C++ remainder: it takes the sign of the dividend. */
  function TruncRem(x: int, y: int): int
    requires y != 0
  {
    var m := Abs(x) % Abs(y);
    if x < 0 then -m else m
  }

  /** C++ guarantees (a / b) * b + a % b == a, with |a % b| < |b|. */
  lemma TruncDivRem(x: int, y: int)
    requires y != 0
    ensures TruncDiv(x, y) * y + TruncRem(x, y) == x
    ensures Abs(TruncRem(x, y)) < Abs(y)
    ensures TruncRem(x, y) != 0 ==> (TruncRem(x, y) < 0 <==> x < 0)
  {
    var n, d := Abs(x), Abs(y);
    EuclidFacts(n, d);
    SignedProduct(n / d, d, x < 0, y < 0);
  }

  lemma EuclidFacts(n: nat, d: nat)
    requires d > 0
    ensures (n / d) * d + n % d == n && 0 <= n % d < d && n / d >= 0
  {
  }

  /** The product of a signed quotient and a signed divisor. */
  lemma SignedProduct(q: int, d: int, sx: bool, sy: bool)
    ensures (if sx != sy then -q else q) * (if sy then -d else d) == (if sx then -(q * d) else q * d)
  {
    if sx != sy {
      if sy { assert -q * -d == q * d; } else { assert -q * d == -(q * d); }
    } else if sy {
      assert q * -d == -(q * d);
    }
  }

  function Pow2(n: nat): (r: nat)
    ensures r >= 1
  {
    if n == 0 then 1 else 2 * Pow2(n - 1)
  }

  /** The 64-bit bitwise operations, through the bit-vector view. */
  function BitAnd(a: Word, c: Word): Word { ((a as bv64) & (c as bv64)) as int }
  function BitOr(a: Word, c: Word): Word { ((a as bv64) | (c as bv64)) as int }
  function BitXor(a: Word, c: Word): Word { ((a as bv64) ^ (c as bv64)) as int }

  /** ~b: every bit flipped. */
  function BitNot(b: Word): (r: Word)
    ensures r + b == WORD_MOD - 1
  {
    WORD_MOD - 1 - b
  }

  /** The operators of the expression grammar (the token that names them). */
  datatype BinOp = And | Xor | Or | Shl | Shr | Mod | Add | Sub | Mul | Div
  {
    /** the operators evalBinExpr checks with checkIntTypes */
    predicate IsIntegralOnly() { And? || Xor? || Or? || Shl? || Shr? || Mod? }
  }

  /** Binary64 arithmetic on bit patterns, supplied from outside the model. */
  datatype FloatOps = FloatOps(
    add: (Word, Word) -> Word,
    sub: (Word, Word) -> Word,
    mul: (Word, Word) -> Word,
    div: (Word, Word) -> Word)

  /** The result of evaluating one operator: a value, a SyntaxError, or an
    * operation whose C++ behaviour is undefined. */
  datatype EvalRes = Value(v: ImmVal) | Error(d: Diag) | Undefined

  datatype Option<T> = None | Some(value: T)

  /** The one value an option holds, as a sequence of zero or one. */
  function OptSeq<T>(o: Option<T>): seq<T> { if o.Some? then [o.value] else [] }

  /** u64 << c or s64 << c: None for a count outside [0, 63], which for both
    * views is exactly a word of 64 or more. */
  function ShiftLeftWord(a: Word, c: Word): Option<Word> {
    if c >= 64 then None else Some(Wrap(a * Pow2(c)))
  }

  /** u64 >> c (a logical shift) or s64 >> c (an arithmetic shift, copying
    * the sign: the floor of the quotient). */
  function ShiftRightWord(isU: bool, a: Word, c: Word): Option<Word> {
    if c >= 64 then None
    else if isU then Some(Wrap(a / Pow2(c)))
    else Some(Wrap(ToSigned(a) / Pow2(c)))
  }

  /** INT64_MIN op -1, which overflows s64 / and s64 %. */
  predicate SignedOverflow(a: Word, c: Word) {
    a == F64_SIGN_BIT && c == WORD_MOD - 1
  }

  /** u64 % or s64 %: None where C++ leaves it undefined (a zero divisor,
    * INT64_MIN % -1). */
  function RemWord(isU: bool, a: Word, c: Word): Option<Word> {
    if c == 0 then None
    else if isU then Some(a % c)
    else if SignedOverflow(a, c) then None
    else Some(Wrap(TruncRem(ToSigned(a), ToSigned(c))))
  }

  /** u64 / or s64 /: None where C++ leaves it undefined. */
  function DivWord(isU: bool, a: Word, c: Word): Option<Word> {
    if c == 0 then None
    else if isU then Some(a / c)
    else if SignedOverflow(a, c) then None
    else Some(Wrap(TruncDiv(ToSigned(a), ToSigned(c))))
  }

  /** The ImmVal helpers of Types.hpp the parser calls (Negate, Abs, isS64,
    * isI64), the float conversions of Floats.hpp, and the value a
    * default-constructed ImmVal holds.  None of them is shown, so each is an
    * input of the model. */
  datatype ImmOps = ImmOps(
    negate: ImmVal -> ImmVal,
    abs: ImmVal -> ImmVal,
    isS64: ImmVal -> bool,
    isI64: ImmVal -> bool,
    fops: FloatOps,
    doubleToHalf: Word -> Word,
    doubleToFloatBits: Word -> Word,
    initial: ImmVal)

  /** GenParser::evalBinExpr: the type checks, then the operation in the
    * floating, unsigned or signed domain; the result keeps v1's kind.  The
    * unsigned and the signed domain give the same word for & ^ | + - * and
    * <<, so only >> / % look at the domain. */
  function EvalBinExpr(v1: ImmVal, op: BinOp, v2: ImmVal, fops: FloatOps): EvalRes
  {
    var a, c := v1.bits, v2.bits;
    var isU := IsUnsignedInt(v1) || IsUnsignedInt(v2);
    match op
    case And => IntegralOnly(v1, v2, Some(BitAnd(a, c)))
    case Xor => IntegralOnly(v1, v2, Some(BitXor(a, c)))
    case Or => IntegralOnly(v1, v2, Some(BitOr(a, c)))
    case Shl => IntegralOnly(v1, v2, ShiftLeftWord(a, c))
    case Shr => IntegralOnly(v1, v2, ShiftRightWord(isU, a, c))
    case Mod => IntegralOnly(v1, v2, RemWord(isU, a, c))
    case Add => Numeric(v1, v2, fops.add(a, c), Some(Wrap(a + c)))
    case Sub => Numeric(v1, v2, fops.sub(a, c), Some(Wrap(a - c)))
    case Mul => Numeric(v1, v2, fops.mul(a, c), Some(Wrap(a * c)))
    case Div =>
      if !IsFloating(v1) && !IsFloating(v2) && c == 0 then Error(IntegralDivisionByZero)
      else Numeric(v1, v2, fops.div(a, c), DivWord(isU, a, c))
  }

  /** The operators checked by checkIntTypes: a floating operand is an error,
    * the left one reported first; otherwise the integral result `w` (None
    * where C++ leaves it undefined), tagged with v1's kind. */
  function IntegralOnly(v1: ImmVal, v2: ImmVal, w: Option<Word>): EvalRes {
    if IsFloating(v1) then Error(LeftOperandMustBeIntegral)
    else if IsFloating(v2) then Error(RightOperandMustBeIntegral)
    else if w.None? then Undefined
    else Value(ImmVal(v1.kind, w.value))
  }

  /** The operators checked by checkNumTypes: mixing a floating and a
    * non-floating operand is an error; two floating operands give the float
    * result `f`, two integral ones the integral result `w`. */
  function Numeric(v1: ImmVal, v2: ImmVal, f: Word, w: Option<Word>): EvalRes {
    if IsFloating(v1) && !IsFloating(v2) then Error(RightOperandMustBeFloating)
    else if IsFloating(v2) && !IsFloating(v1) then Error(LeftOperandMustBeFloating)
    else if IsFloating(v1) then Value(ImmVal(v1.kind, f))
    else if w.None? then Undefined
    else Value(ImmVal(v1.kind, w.value))
  }

  /** What evalBinExpr reports: the type errors of checkIntTypes and
    * checkNumTypes (in both directions), integral division by zero, and where
    * undefined behaviour can arise. */
  lemma EvalBinExprOutcomes(v1: ImmVal, op: BinOp, v2: ImmVal, fops: FloatOps)
    // integral-only operators reject a floating operand, naming the left first
    ensures op.IsIntegralOnly() ==>
      (EvalBinExpr(v1, op, v2, fops) == Error(LeftOperandMustBeIntegral) <==> IsFloating(v1))
    ensures op.IsIntegralOnly() ==>
      (EvalBinExpr(v1, op, v2, fops) == Error(RightOperandMustBeIntegral) <==>
         !IsFloating(v1) && IsFloating(v2))
    // arithmetic operators reject mixing a floating and a non-floating operand
    ensures !op.IsIntegralOnly() ==>
      (EvalBinExpr(v1, op, v2, fops) == Error(RightOperandMustBeFloating) <==>
         IsFloating(v1) && !IsFloating(v2))
    ensures !op.IsIntegralOnly() ==>
      (EvalBinExpr(v1, op, v2, fops) == Error(LeftOperandMustBeFloating) <==>
         IsFloating(v2) && !IsFloating(v1))
    // integral division by zero is reported; every other failure is a type error
    ensures EvalBinExpr(v1, op, v2, fops) == Error(IntegralDivisionByZero) <==>
      op == Div && !IsFloating(v1) && !IsFloating(v2) && v2.bits == 0
    ensures EvalBinExpr(v1, op, v2, fops).Error? ==>
      EvalBinExpr(v1, op, v2, fops).d in {LeftOperandMustBeIntegral, RightOperandMustBeIntegral,
        LeftOperandMustBeFloating, RightOperandMustBeFloating, IntegralDivisionByZero}
    // the result is a copy of the left operand: it keeps its kind
    ensures EvalBinExpr(v1, op, v2, fops).Value? ==> EvalBinExpr(v1, op, v2, fops).v.kind == v1.kind
  {
    match op
    case And => case Xor => case Or => case Shl => case Shr =>
    case Mod => case Add => case Sub => case Mul => case Div =>
  }

  /** Where evalBinExpr reaches C++ undefined behaviour: out-of-range shift
    * counts, % by zero, and INT64_MIN / -1 or % -1, all on integral
    * operands. */
  lemma EvalBinExprUndefined(v1: ImmVal, op: BinOp, v2: ImmVal, fops: FloatOps)
    ensures EvalBinExpr(v1, op, v2, fops).Undefined? <==>
      && !IsFloating(v1) && !IsFloating(v2)
      && match op
         case Shl => v2.bits >= 64
         case Shr => v2.bits >= 64
         case Mod => v2.bits == 0 || (!IsUnsignedInt(v1) && !IsUnsignedInt(v2) && SignedOverflow(v1.bits, v2.bits))
         case Div => !IsUnsignedInt(v1) && !IsUnsignedInt(v2) && SignedOverflow(v1.bits, v2.bits)
         case _ => false
  {
    match op
    case And => case Xor => case Or => case Shl => case Shr =>
    case Mod => case Add => case Sub => case Mul => case Div =>
  }

  /** Two floating operands of + - * / give the float operation's result. */
  lemma EvalBinExprFloating(v1: ImmVal, op: BinOp, v2: ImmVal, fops: FloatOps)
    requires IsFloating(v1) && IsFloating(v2) && !op.IsIntegralOnly()
    ensures EvalBinExpr(v1, op, v2, fops) == Value(ImmVal(v1.kind,
      match op
      case Add => fops.add(v1.bits, v2.bits)
      case Sub => fops.sub(v1.bits, v2.bits)
      case Mul => fops.mul(v1.bits, v2.bits)
      case _ => fops.div(v1.bits, v2.bits)))
  {
  }

  /** Integral + - * wrap modulo 2^64, and the unsigned and the signed view
    * agree: the result is the s64 operation wrapped, which is the
    * mathematical result whenever that fits in s64. */
  lemma EvalBinExprWraps(v1: ImmVal, op: BinOp, v2: ImmVal, fops: FloatOps)
    requires IsIntegral(v1) && IsIntegral(v2) && op in {Add, Sub, Mul}
    ensures EvalBinExpr(v1, op, v2, fops).Value?
    ensures var x, y, r := ToSigned(v1.bits), ToSigned(v2.bits), EvalBinExpr(v1, op, v2, fops).v.bits;
      var m := match op case Add => x + y case Sub => x - y case _ => x * y;
      && r == Wrap(m)
      && (-0x8000_0000_0000_0000 <= m < 0x8000_0000_0000_0000 ==> ToSigned(r) == m)
  {
    var a: int, c: int := v1.bits, v2.bits;
    var u: int := match op case Add => a + c case Sub => a - c case _ => a * c;
    assert EvalBinExpr(v1, op, v2, fops) == Value(ImmVal(v1.kind, Wrap(u)));
    SignedViewAgrees(a, c, op);
  }

  /** The word of a + c, a - c or a * c is that of the same operation on the
    * s64 views. */
  lemma SignedViewAgrees(a: Word, c: Word, op: BinOp)
    requires op in {Add, Sub, Mul}
    ensures var x, y := ToSigned(a), ToSigned(c);
      var m := match op case Add => x + y case Sub => x - y case _ => x * y;
      && Wrap(match op case Add => a as int + c case Sub => a as int - c case _ => a as int * c) == Wrap(m)
      && (-0x8000_0000_0000_0000 <= m < 0x8000_0000_0000_0000 ==> ToSigned(Wrap(m)) == m)
  {
    var x, y := ToSigned(a), ToSigned(c);
    var ka, kc := if a < F64_SIGN_BIT then 0 else 1, if c < F64_SIGN_BIT then 0 else 1;
    assert a == x + ka * WORD_MOD && c == y + kc * WORD_MOD;
    var m: int := match op case Add => x + y case Sub => x - y case _ => x * y;
    var u: int := match op case Add => a + c case Sub => a - c case _ => a * c;
    var t: int := match op
      case Add => ka + kc
      case Sub => ka - kc
      case _ => x * kc + y * ka + ka * kc * WORD_MOD;
    if op == Mul {
      MulExpand(x, y, ka, kc);
    }
    assert u == m + t * WORD_MOD;
    WrapShift(m, t);
    if -0x8000_0000_0000_0000 <= m < 0x8000_0000_0000_0000 {
      SignedRoundTrip(m);
    }
  }

  lemma MulExpand(x: int, y: int, ka: int, kc: int)
    ensures (x + ka * WORD_MOD) * (y + kc * WORD_MOD)
         == x * y + (x * kc + y * ka + ka * kc * WORD_MOD) * WORD_MOD
  {
  }

  /** An s64 value survives the round trip through its word. */
  lemma SignedRoundTrip(m: int)
    requires -0x8000_0000_0000_0000 <= m < 0x8000_0000_0000_0000
    ensures ToSigned(Wrap(m)) == m
  {
  }

  /** Adding a multiple of 2^64 does not change the word. */
  lemma WrapShift(m: int, t: int)
    ensures Wrap(m + t * WORD_MOD) == Wrap(m)
  {
  }

  /** Integral / and % on the same operands obey C++'s
    * (a / b) * b + a % b == a, in the unsigned or the signed domain. */
  lemma EvalBinExprDivMod(v1: ImmVal, v2: ImmVal, fops: FloatOps)
    requires IsIntegral(v1) && IsIntegral(v2) && v2.bits != 0
    requires IsUnsignedInt(v1) || IsUnsignedInt(v2) || !SignedOverflow(v1.bits, v2.bits)
    ensures EvalBinExpr(v1, Div, v2, fops).Value? && EvalBinExpr(v1, Mod, v2, fops).Value?
    ensures var q, r := EvalBinExpr(v1, Div, v2, fops).v.bits, EvalBinExpr(v1, Mod, v2, fops).v.bits;
      if IsUnsignedInt(v1) || IsUnsignedInt(v2) then q * v2.bits + r == v1.bits && r < v2.bits
      else ToSigned(q) * ToSigned(v2.bits) + ToSigned(r) == ToSigned(v1.bits)
  {
    if !(IsUnsignedInt(v1) || IsUnsignedInt(v2)) {
      var x, y := ToSigned(v1.bits), ToSigned(v2.bits);
      TruncDivRem(x, y);
      // the quotient and the remainder fit in s64, so their words read back
      TruncDivFits(x, y);
      SignedRoundTrip(TruncDiv(x, y));
      SignedRoundTrip(TruncRem(x, y));
    }
  }

  /** A truncated s64 quotient and remainder fit in s64, except for
    * INT64_MIN / -1. */
  lemma TruncDivFits(x: int, y: int)
    requires -0x8000_0000_0000_0000 <= x < 0x8000_0000_0000_0000
    requires -0x8000_0000_0000_0000 <= y < 0x8000_0000_0000_0000 && y != 0
    requires !(x == -0x8000_0000_0000_0000 && y == -1)
    ensures -0x8000_0000_0000_0000 <= TruncDiv(x, y) < 0x8000_0000_0000_0000
    ensures -0x8000_0000_0000_0000 <= TruncRem(x, y) < 0x8000_0000_0000_0000
  {
    var n, d := Abs(x), Abs(y);
    EuclidFacts(n, d);
    QuotientBound(n, d, n / d, n % d);
  }

  /** A quotient by 1 is the dividend; by 2 or more, at most half of it. */
  lemma QuotientBound(n: nat, d: nat, q: nat, m: nat)
    requires d > 0 && q * d + m == n
    ensures d == 1 ==> q + m == n
    ensures d >= 2 ==> 2 * q <= n
  {
    if d >= 2 {
      assert q * d == 2 * q + q * (d - 2);
    }
  }
}
