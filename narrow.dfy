// The conversion of a parsed immediate to the type written after it
// (KernelParser::FinishSrcOpImmValue, less the type parsing and the builder
// callback): the literal checks of the first switch, then the narrowing of
// the second switch.  The ImmVal views are those of the one storage word:
// writing a narrower view (u32, s8, ...) overwrites only its own low bytes.
module Narrowing {
  import opened ImmVals
  import opened Diags
  import opened Lexer
  import opened Target

  /** A conversion either throws, or gives the narrowed value with at most
    * one error recorded (ErrorAtT, which does not stop the parse) and at
    * most one warning. */
  datatype Narrowed =
    | Failed(d: Diag)
    | Narrowed(val: ImmVal, err: Option<Diag>, warn: Option<Warn>)

  /** The mantissa limits of binary16 and binary32 (1 << mantissa bits). */
  const F16_MANT_LIMIT: nat := 0x400
  const F32_MANT_LIMIT: nat := 0x80_0000
  /** The payload bits of a binary64 NaN below its quiet bit (F64_MANT_MASK >> 1). */
  const F64_PAYLOAD_LIMIT: int := 0x8_0000_0000_0000

  /** v.u64 & (~MANT_MASK & (F64_MANT_MASK >> 1)) != 0: some payload bit at
    * or above the narrower format's mantissa width is set. */
  predicate DropsPayload(b: Word, mantLimit: nat) {
    b % F64_PAYLOAD_LIMIT >= mantLimit
  }

  /** The moduli of the narrower integer views: 2^8, 2^16 and 2^32. */
  predicate IsViewModulus(m: nat) { m == 0x100 || m == 0x1_0000 || m == 0x1_0000_0000 }

  /** The low bits of a word below the view's modulus, zero extended (u8,
    * u16, u32). */
  function Low(b: Word, m: nat): (r: Word)
    requires IsViewModulus(m)
    ensures r < m
  {
    b % m
  }

  /** The low bits of a word below the view's modulus, sign extended to 64
    * bits (s8, s16, s32). */
  function SignExtend(b: Word, m: nat): Word
    requires IsViewModulus(m)
  {
    var lo := Low(b, m);
    if lo < m / 2 then lo else WORD_MOD - m + lo
  }

  /** The integral types whose literal must be integral (the first switch). */
  predicate IsIntegralType(t: Type) {
    t in {B, UB, W, UW, D, UD, Q, UQ, V, UV, VF}
  }

  /** The first switch: the literal checks, and the float narrowing. */
  function Convert(imm: ImmOps, sty: Type, first: Lexeme, val: ImmVal): Narrowed {
    if IsIntegralType(sty) then
      Narrowed(val, if imm.isS64(val) then None else Some(LiteralMustBeIntegral), None)
    else if sty == HF then
      if imm.isS64(val) then
        if first == INTLIT10 && val.bits != 0 then Failed(IntegerFloatLiteralMustBeHex)
        else Narrowed(val, if val.bits >= 0x1_0000 then Some(HexLiteralTooBig) else None, None)
      else if IsNaN64(val.bits) && DropsPayload(val.bits, F16_MANT_LIMIT) then Failed(NanPayloadOverflows)
      else Narrowed(ImmVal(F16, imm.doubleToHalf(val.bits)), None, None)
    else if sty == F || sty == DF then
      if imm.isS64(val) then
        if first == INTLIT10 && val.bits != 0 then Failed(IntegerFloatLiteralMustBeHex)
        // `val.u32 = (uint32_t)val.s64` rewrites the low half with itself
        else Narrowed(ImmVal(if sty == F then F32 else F64, val.bits), None, None)
      else if sty == DF then Narrowed(val, None, None)
      else if IsNaN64(val.bits) && DropsPayload(val.bits, F32_MANT_LIMIT) then Failed(NanPayloadOverflows)
      else Narrowed(ImmVal(F32, imm.doubleToFloatBits(val.bits)), None, None)
    else Narrowed(val, None, None)
  }

  /** CheckLiteralBounds: a warning when the s64 view lies outside [mn, mx]. */
  function Bounds(val: ImmVal, mn: int, mx: int): Option<Warn> {
    var s := ToSigned(val.bits);
    if s < mn || s > mx then Some(LiteralOutOfBounds) else None
  }

  /** The second switch: the bounds checks and the narrowing to the type. */
  function Narrow(sty: Type, val: ImmVal): (ImmVal, Option<Warn>) {
    var b := val.bits;
    match sty
    case B => (ImmVal(S8, SignExtend(b, 0x100)), Bounds(val, -128, 127))
    case UB => (ImmVal(U8, Low(b, 0x100)), None)
    case W =>
      var w := ImmVal(S16, SignExtend(b, 0x1_0000));
      (w, Bounds(w, -32768, 32767))
    case UW => (ImmVal(U16, Low(b, 0x1_0000)), None)
    case D =>
      var w := ImmVal(S32, SignExtend(b, 0x1_0000_0000));
      (w, Bounds(w, -2147483648, 2147483647))
    case UD => (ImmVal(U32, Low(b, 0x1_0000_0000)), None)
    case Q => (ImmVal(S64, b), Bounds(val, -0x8000_0000_0000_0000, 0x7FFF_FFFF_FFFF_FFFF))
    case UQ => (ImmVal(U64, b), None)
    case HF => (ImmVal(F16, b), None)
    case F => (ImmVal(F32, b), None)
    case DF => (ImmVal(F64, b), None)
    case UV => (ImmVal(U32, b), None)
    case V => (ImmVal(U32, b), None)
    case VF => (ImmVal(U32, b), None)
    case _ => (val, None)
  }

  /** Both switches in turn.  `first` is the lexeme of the operand's first
    * token. */
  function ConvertImm(imm: ImmOps, sty: Type, first: Lexeme, val: ImmVal): Narrowed {
    match Convert(imm, sty, first, val)
    case Failed(d) => Failed(d)
    case Narrowed(v, err, _) =>
      var (nv, warn) := Narrow(sty, v);
      Narrowed(nv, err, warn)
  }

  // ---- properties ----

  /** The s64 view of a sign-extended value is the two's complement reading
    * of its low bits, so it lies in the narrow view's range. */
  lemma SignExtendRange(b: Word, m: nat)
    requires IsViewModulus(m)
    ensures var s := ToSigned(SignExtend(b, m));
      -(m / 2) <= s < m / 2 &&
      s == if Low(b, m) < m / 2 then Low(b, m) else Low(b, m) - m
  {
  }

  /** :b warns exactly when the s64 value lies outside [-128, 127], and then
    * keeps the low 8 bits, sign extended. */
  lemma ByteLiteral(imm: ImmVal, ops: ImmOps, first: Lexeme)
    ensures ConvertImm(ops, B, first, imm) ==
      Narrowed(ImmVal(S8, SignExtend(imm.bits, 0x100)),
               if ops.isS64(imm) then None else Some(LiteralMustBeIntegral),
               if -128 <= ToSigned(imm.bits) <= 127 then None else Some(LiteralOutOfBounds))
    ensures -128 <= ToSigned(SignExtend(imm.bits, 0x100)) <= 127
  {
    SignExtendRange(imm.bits, 0x100);
  }

  /** The :b bounds warning is given exactly when narrowing changes the
    * value: a literal in [-128, 127] passes through unchanged. */
  lemma ByteWarnsIffTruncated(v: ImmVal)
    ensures var (nv, warn) := Narrow(B, v);
      warn.None? <==> nv.bits == v.bits
  {
    SignExtendRange(v.bits, 0x100);
    var s := ToSigned(v.bits);
    if -128 <= s <= 127 {
      if s >= 0 {
        assert v.bits == s;
      } else {
        assert v.bits == WORD_MOD + s;
        assert Low(v.bits, 0x100) == 0x100 + s;
      }
    }
  }

  /** The unsigned views keep a literal unchanged exactly when it fits. */
  lemma UnsignedKeepsIffFits(v: ImmVal, sty: Type)
    requires sty == UB || sty == UW || sty == UD
    ensures var m := match sty case UB => 0x100 case UW => 0x1_0000 case _ => 0x1_0000_0000;
      Narrow(sty, v).0.bits == v.bits <==> v.bits < m
  {
  }

  /** :w and :d sign extend before the bounds check, so the check never
    * fires: a too-large literal is silently truncated. */
  lemma WordAndDwordNeverWarn(imm: ImmVal, ops: ImmOps, first: Lexeme, sty: Type)
    requires sty == W || sty == D
    ensures var m := if sty == W then 0x1_0000 else 0x1_0000_0000;
      ConvertImm(ops, sty, first, imm) ==
        Narrowed(ImmVal(if sty == W then S16 else S32, SignExtend(imm.bits, m)),
                 if ops.isS64(imm) then None else Some(LiteralMustBeIntegral), None)
  {
    if sty == W {
      SignExtendRange(imm.bits, 0x1_0000);
    } else {
      SignExtendRange(imm.bits, 0x1_0000_0000);
    }
  }

  /** :ub, :uw and :ud keep the low 8, 16 or 32 bits with no check; :q and
    * :uq keep all 64 bits, and :q's check cannot fire either. */
  lemma UnsignedAndQuadLiterals(imm: ImmVal, ops: ImmOps, first: Lexeme, sty: Type)
    requires sty == UB || sty == UW || sty == UD || sty == Q || sty == UQ
    ensures var m := match sty case UB => 0x100 case UW => 0x1_0000 case UD => 0x1_0000_0000 case _ => WORD_MOD;
      ConvertImm(ops, sty, first, imm) ==
        Narrowed(ImmVal(match sty case UB => U8 case UW => U16 case UD => U32 case Q => S64 case _ => U64,
                        imm.bits % m),
                 if ops.isS64(imm) then None else Some(LiteralMustBeIntegral), None)
  {
  }

  /** An integral literal written in decimal cannot give a floating type's
    * bits, unless it is 0; in hex or binary its bits are kept, and for :hf
    * they must fit in 16 bits. */
  lemma FloatBitLiterals(imm: ImmVal, ops: ImmOps, first: Lexeme, sty: Type)
    requires sty in {HF, F, DF} && ops.isS64(imm)
    ensures first == INTLIT10 && imm.bits != 0 ==>
      ConvertImm(ops, sty, first, imm) == Failed(IntegerFloatLiteralMustBeHex)
    ensures first != INTLIT10 || imm.bits == 0 ==>
      ConvertImm(ops, sty, first, imm) ==
        Narrowed(ImmVal(match sty case HF => F16 case F => F32 case _ => F64, imm.bits),
                 if sty == HF && imm.bits > 0xFFFF then Some(HexLiteralTooBig) else None, None)
  {
  }

  /** A floating literal narrowed to :hf or :f must not be a NaN with payload
    * bits the narrower format cannot hold. */
  lemma NanNarrowing(imm: ImmVal, ops: ImmOps, first: Lexeme, sty: Type)
    requires sty in {HF, F} && !ops.isS64(imm) && IsNaN64(imm.bits)
    ensures var m := if sty == HF then F16_MANT_LIMIT else F32_MANT_LIMIT;
      ConvertImm(ops, sty, first, imm) ==
        if DropsPayload(imm.bits, m) then Failed(NanPayloadOverflows)
        else Narrowed(ImmVal(if sty == HF then F16 else F32,
                             if sty == HF then ops.doubleToHalf(imm.bits) else ops.doubleToFloatBits(imm.bits)),
                      None, None)
  {
  }

  /** Every conversion that does not throw gives a value of the kind the type
    * names (packed vectors are carried as u32); no type is left untagged. */
  lemma NarrowedKind(imm: ImmVal, ops: ImmOps, first: Lexeme, sty: Type)
    requires sty != INVALID && sty != NF
    ensures var r := ConvertImm(ops, sty, first, imm);
      r.Narrowed? ==> r.val.kind == KindOf(sty)
  {
  }

  /** The ImmVal kind a type narrows to. */
  function KindOf(t: Type): Kind {
    match t
    case B => S8 case UB => U8 case W => S16 case UW => U16
    case D => S32 case UD => U32 case Q => S64 case UQ => U64
    case HF => F16 case F => F32 case DF => F64
    case _ => U32
  }
}
