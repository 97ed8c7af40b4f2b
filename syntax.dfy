// The token-level grammar of the operand fields, as functions of the token
// sequence and a position: what each piece accepts, what it yields, where it
// stops, and which check fails otherwise.  The parser's methods are proved
// to follow these; the lemmas here state what the grammar accepts.
module Syntax {
  import opened ImmVals
  import opened Diags
  import opened Lexer
  import opened Target
  import opened Registers

  /** An integer literal at p (ConsumeIntLitOrFail): its value and the
    * position after it, or the diagnostic d. */
  function IntLitAt(toks: seq<Token>, p: nat, d: Diag): (r: Res<(nat, nat)>)
    ensures r.Ok? <==> IsIntLit(Peek(toks, p).lexeme)
    ensures r.Ok? ==> r.value == (Peek(toks, p).value, p + 1) && p < |toks|
    ensures r.Fail? ==> r.d == d
  {
    if IsIntLit(Peek(toks, p).lexeme) then Ok((Peek(toks, p).value, p + 1)) else Fail(d)
  }

  /** The token lx at p (ConsumeOrFail): the position after it, or d. */
  function TokAt(toks: seq<Token>, p: nat, lx: Lexeme, d: Diag): Res<nat> {
    if Peek(toks, p).lexeme == lx then Ok(p + 1) else Fail(d)
  }

  // ---- execution size and channel offset ----

  /** The spelling of an execution-mask offset. */
  function ChOffName(c: ChannelOffset): string {
    match c
    case M0 => "M0"   case M4 => "M4"   case M8 => "M8"   case M12 => "M12"
    case M16 => "M16" case M20 => "M20" case M24 => "M24" case M28 => "M28"
  }

  /** The execution size named by a literal value, or the width check. */
  function SizeOf(n: int): Res<ExecSize> {
    match ExecSizeOf(n)
    case Some(e) => Ok(e)
    case None => Fail(InvalidSimdWidth)
  }

  /** ParseExecInfo: "(N)" or "(N|Mk)" when token 0 is '(' and token 2 is
    * ')' or '|'; otherwise SIMD1 for an operation with an implicit mask, the
    * legacy default size when legacy directives are on, or a failure.  The
    * result is the size, the offset and the position after the info. */
  function ExecInfoAt(toks: seq<Token>, p: nat, implicitEm: bool, legacy: bool, dft: ExecSize)
    : Res<(ExecSize, ChannelOffset, nat)>
  {
    if Peek(toks, p).lexeme == LPAREN && Peek(toks, p + 2).lexeme in {RPAREN, PIPE} then
      var x :- ExecParensAt(toks, p + 1);
      var e :- SizeOf(x.0);
      Ok((e, x.1, x.2))
    else if implicitEm then Ok((SIMD1, M0, p))
    else if legacy then Ok((dft, M0, p))
    else Fail(ExpectedExecInfo)
  }

  /** The inside of "(N)" or "(N|Mk)", after the '(', up to and including
    * the ')': the width as written, the offset and the position after. */
  function ExecParensAt(toks: seq<Token>, p: nat): Res<(nat, ChannelOffset, nat)> {
    var n :- IntLitAt(toks, p, ExpectedSimdWidth);
    if Peek(toks, p + 1).lexeme == PIPE then
      var c := Peek(toks, p + 2);
      if c.lexeme != IDENT then Fail(ExpectedChOff)
      else if ChOffOf(c.text).None? then Fail(InvalidChOff)
      else if Peek(toks, p + 3).lexeme != RPAREN then Fail(ExpectedRParen)
      else Ok((n.0, ChOffOf(c.text).value, p + 4))
    else if Peek(toks, p + 1).lexeme != RPAREN then Fail(ExpectedRParen)
    else Ok((n.0, M0, p + 2))
  }

  /** "(N|Mk)" spelled with a size's lane count and an offset's name parses
    * back to that size and offset; "(N)" gives offset M0. */
  lemma ExecInfoRoundTrip(toks: seq<Token>, p: nat, e: ExecSize, c: ChannelOffset, implicitEm: bool, legacy: bool, dft: ExecSize)
    requires p + 2 < |toks| && toks[p].lexeme == LPAREN
    requires IsIntLit(toks[p + 1].lexeme) && toks[p + 1].value == Lanes(e)
    ensures toks[p + 2].lexeme == RPAREN ==>
      ExecInfoAt(toks, p, implicitEm, legacy, dft) == Ok((e, M0, p + 3))
    ensures toks[p + 2].lexeme == PIPE && p + 4 < |toks| && toks[p + 3].lexeme == IDENT &&
            toks[p + 3].text == ChOffName(c) && toks[p + 4].lexeme == RPAREN ==>
      ExecInfoAt(toks, p, implicitEm, legacy, dft) == Ok((e, c, p + 5))
  {
    ExecSizeOfLanes(e);
  }

  /** A width that is not a power of two up to 32 fails, whichever form it is
    * written in, once the rest of the info is well formed. */
  lemma ExecInfoBadWidth(toks: seq<Token>, p: nat, implicitEm: bool, legacy: bool, dft: ExecSize)
    requires p + 2 < |toks| && toks[p].lexeme == LPAREN && toks[p + 2].lexeme == RPAREN
    requires IsIntLit(toks[p + 1].lexeme) && toks[p + 1].value !in {1, 2, 4, 8, 16, 32}
    ensures ExecInfoAt(toks, p, implicitEm, legacy, dft) == Fail(InvalidSimdWidth)
  {
  }

  // ---- regions ----

  /** ParseRegionVert, ParseRegionWidth, ParseRegionHorz. */
  function VertAt(toks: seq<Token>, p: nat): Res<(Vert, nat)> {
    var n :- IntLitAt(toks, p, ExpectedVertStride);
    if VertOf(n.0).Some? then Ok((VertOf(n.0).value, n.1)) else Fail(InvalidRegionVertStride)
  }

  function WidthAt(toks: seq<Token>, p: nat): Res<(Width, nat)> {
    var n :- IntLitAt(toks, p, ExpectedWidth);
    if WidthOf(n.0).Some? then Ok((WidthOf(n.0).value, n.1)) else Fail(InvalidRegionWidth)
  }

  function HorzAt(toks: seq<Token>, p: nat): Res<(Horz, nat)> {
    var n :- IntLitAt(toks, p, ExpectedHorzStride);
    if HorzOf(n.0).Some? then Ok((HorzOf(n.0).value, n.1)) else Fail(InvalidRegionHorzStride)
  }

  /** The body of an explicit "<V;W,H>" region, after its '<'. */
  function VWHAt(toks: seq<Token>, p: nat): Res<(Region, nat)> {
    var v :- VertAt(toks, p);
    var q1 :- TokAt(toks, v.1, SEMI, ExpectedSemi);
    WHAt(toks, q1, v.0)
  }

  /** "w,h>" after the ';' of a "<v;w,h>" region whose vertical stride is v. */
  function WHAt(toks: seq<Token>, p: nat, v: Vert): Res<(Region, nat)> {
    var w :- WidthAt(toks, p);
    var q2 :- TokAt(toks, w.1, COMMA, ExpectedComma);
    var h :- HorzAt(toks, q2);
    var q3 :- TokAt(toks, h.1, RANGLE, ExpectedRAngle);
    Ok((Region(v, w.0, h.0), q3))
  }

  /** The body of a ternary "<V;H>" region, after its '<'. */
  function VHAt(toks: seq<Token>, p: nat): Res<(Region, nat)> {
    var v :- VertAt(toks, p);
    var q1 :- TokAt(toks, v.1, SEMI, ExpectedSemi);
    var h :- HorzAt(toks, q1);
    var q2 :- TokAt(toks, h.1, RANGLE, ExpectedRAngle);
    Ok((Region(v.0, WI_INVALID, h.0), q2))
  }

  /** The body of a ternary src2 "<H>" region, after its '<'. */
  function HAt(toks: seq<Token>, p: nat): Res<(Region, nat)> {
    var h :- HorzAt(toks, p);
    var q :- TokAt(toks, h.1, RANGLE, ExpectedRAngle);
    Ok((Region(VT_INVALID, WI_INVALID, h.0), q))
  }

  /** The body of an indirect source region, after its '<': "<W,H>" (the
    * VxH form) or "<V;W,H>". */
  function IndRegionAt(toks: seq<Token>, p: nat): Res<(Region, nat)> {
    var a :- IntLitAt(toks, p, ExpectedSrcRegion);
    if Peek(toks, a.1).lexeme == COMMA then IndVxHAt(toks, a.1 + 1, a.0)
    else IndVWHAt(toks, a.1, a.0)
  }

  /** "<w,h>" after its ',': w is the literal already read. */
  function IndVxHAt(toks: seq<Token>, p: nat, w: nat): Res<(Region, nat)> {
    if WidthOf(w).None? then Fail(InvalidRegionWidth)
    else
      var h :- HorzAt(toks, p);
      var q :- TokAt(toks, h.1, RANGLE, ExpectedRAngle);
      Ok((Region(VT_VxH, WidthOf(w).value, h.0), q))
  }

  /** "<v;w,h>" from its ';': v is the literal already read. */
  function IndVWHAt(toks: seq<Token>, p: nat, v: nat): Res<(Region, nat)> {
    var q1 :- TokAt(toks, p, SEMI, ExpectedSemi);
    if VertOf(v).None? then Fail(InvalidRegionVertStride)
    else WHAt(toks, q1, VertOf(v).value)
  }

  /** ParseDstOpRegion: "<1>", "<2>" or "<4>", or the given default when no
    * '<' follows. */
  function DstRegionAt(toks: seq<Token>, p: nat, dflt: Horz): Res<(Horz, nat)> {
    if Peek(toks, p).lexeme != LANGLE then Ok((dflt, p))
    else
      var n :- IntLitAt(toks, p + 1, ExpectedDstRegion);
      if DstHorzOf(n.0).None? then Fail(InvalidDstRegion)
      else
        var q :- TokAt(toks, n.1, RANGLE, ExpectedRAngle);
        Ok((DstHorzOf(n.0).value, q))
  }

  /** Three literals in region brackets: "<v;w,h>" is accepted exactly when
    * v is a vertical stride (0, 1, 2, 4, 8, 16, 32), w a width (1, 2, 4, 8,
    * 16) and h a horizontal stride (0, 1, 2, 4), and the first value out of
    * its set names the failure. */
  lemma RegionStrides(toks: seq<Token>, p: nat)
    requires p + 5 < |toks|
    requires IsIntLit(toks[p].lexeme) && toks[p + 1].lexeme == SEMI
    requires IsIntLit(toks[p + 2].lexeme) && toks[p + 3].lexeme == COMMA
    requires IsIntLit(toks[p + 4].lexeme) && toks[p + 5].lexeme == RANGLE
    ensures var v, w, h := toks[p].value, toks[p + 2].value, toks[p + 4].value;
      VWHAt(toks, p) ==
        if v !in {0, 1, 2, 4, 8, 16, 32} then Fail(InvalidRegionVertStride)
        else if w !in {1, 2, 4, 8, 16} then Fail(InvalidRegionWidth)
        else if h !in {0, 1, 2, 4} then Fail(InvalidRegionHorzStride)
        else Ok((Region(VtStride(v), WiSize(w), HzStride(h)), p + 6))
  {
  }

  /** A destination region is one of 1, 2, 4; 0 and any other value fail. */
  lemma DstRegionStrides(toks: seq<Token>, p: nat, dflt: Horz)
    requires p + 2 < |toks| && toks[p].lexeme == LANGLE
    requires IsIntLit(toks[p + 1].lexeme) && toks[p + 2].lexeme == RANGLE
    ensures var h := toks[p + 1].value;
      DstRegionAt(toks, p, dflt) ==
        if h in {1, 2, 4} then Ok((HzStride(h), p + 3)) else Fail(InvalidDstRegion)
  {
  }

  /** defaultSendOperandRegion: for the destination its implicit region, if
    * any; for a source, when the source has an implicit region, that of
    * source 0 (whatever the index), else <0;1,0> for null and <1;1,0>
    * otherwise. */
  function DefaultSendRegion(os: OpSpec, rn: RegName, ix: int, es: ExecSize, mac: bool): Region {
    if ix < 0 then
      if os.hasImplicitDstRegion(mac) then os.implicitDstRegion(mac) else REGION_INVALID
    else if os.hasImplicitSrcRegion(ix, es, mac) then os.implicitSrcRegion(0, es, mac)
    else if rn == ARF_NULL then SRC010
    else SRC110
  }

  /** ParseSrcOpRegionVWH's region when none is written and the source has
    * no implicit one. */
  function DefaultVWH(os: OpSpec, ri: RegInfo, ix: int, es: ExecSize, mac: bool, explicitSub: bool): Region {
    if os.isSendOrSendsFamily then DefaultSendRegion(os, ri.regName, ix, es, mac)
    else if ri.supportsRegioning then (if explicitSub || es == SIMD1 then SRC010 else SRC110)
    else SRC010
  }

  /** ParseSrcOpRegionVH's: a scalar access, or the packed access the
    * platform muxes most conservatively. */
  function DefaultVH(pf: Platform, es: ExecSize, explicitSub: bool): Region {
    if explicitSub || es == SIMD1 then SRC0X0
    else if pf.Ord() >= XE.Ord() then SRC1X0
    else SRC2X1
  }

  /** ParseSrcOpRegionH's. */
  function DefaultH(es: ExecSize, explicitSub: bool): Region {
    if explicitSub || es == SIMD1 then SRCXX0 else SRCXX1
  }

  /** A source reached through ParseSrcOpRegionVWH has no implicit region, so
    * the send default never takes src0's implicit region there: it is
    * <0;1,0> for null and <1;1,0> for any other register. */
  lemma SendSourceDefaultRegion(os: OpSpec, ri: RegInfo, ix: nat, es: ExecSize, mac: bool, explicitSub: bool)
    requires os.isSendOrSendsFamily && !os.hasImplicitSrcRegion(ix, es, mac)
    ensures DefaultVWH(os, ri, ix, es, mac, explicitSub) == if ri.regName == ARF_NULL then SRC010 else SRC110
  {
  }

  /** With an explicit subregister or one channel, every unwritten
    * non-send region is scalar: its horizontal stride is 0. */
  lemma ScalarDefaultRegions(os: OpSpec, ri: RegInfo, ix: int, es: ExecSize, mac: bool, pf: Platform)
    ensures !os.isSendOrSendsFamily ==> DefaultVWH(os, ri, ix, es, mac, true).hz == HzStride(0)
    ensures DefaultVH(pf, es, true).hz == HzStride(0) && DefaultH(es, true).hz == HzStride(0)
    ensures es == SIMD1 ==> DefaultVH(pf, es, false) == SRC0X0 && DefaultH(es, false) == SRCXX0
    ensures es != SIMD1 ==> DefaultH(es, false).hz == HzStride(1) && DefaultVH(pf, es, false).vt != VtStride(0)
  {
  }

  // ---- indirect operands ----

  /** The offset of an indirect operand, after the address subregister and
    * up to and including the ']': ", k", ", -k", "+ k", "- k", or nothing;
    * it must lie in [-512, 511]. */
  function IndOffsetAt(toks: seq<Token>, q: nat): (r: Res<(int, nat)>)
    ensures r.Ok? ==> -512 <= r.value.0 <= 511
  {
    var o :- OffsetAt(toks, q);
    if o.0 < -512 || o.0 > 511 then Fail(IndirectOffsetOutOfRange)
    else
      var r :- TokAt(toks, o.1, RBRACK, ExpectedRBrack);
      Ok((o.0, r))
  }

  /** The offset as written, before the range check: ", k", ", -k", "+ k",
    * "- k", or nothing (0). */
  function OffsetAt(toks: seq<Token>, q: nat): Res<(int, nat)> {
    if Peek(toks, q).lexeme == COMMA then
      var neg := Peek(toks, q + 1).lexeme == SUB;
      var n :- IntLitAt(toks, if neg then q + 2 else q + 1, ExpectedIndirectOffset);
      Ok((if neg then -(n.0 as int) else n.0, n.1))
    else if Peek(toks, q).lexeme == ADD then
      var n :- IntLitAt(toks, q + 1, ExpectedIndirectOffset);
      Ok((n.0, n.1))
    else if Peek(toks, q).lexeme == SUB then
      var n :- IntLitAt(toks, q + 1, ExpectedIndirectOffset);
      Ok((-(n.0 as int), n.1))
    else Ok((0, q))
  }

  /** ParseAddrRegRefOpt after the register (of file rn, number n): the
    * check for a0, which only fails for a register that is neither in the
    * address file nor numbered 0, then '.' and the subregister. */
  function AddrRegAt(toks: seq<Token>, p: nat, rn: RegName, n: int): Res<(RegRef, nat)> {
    if rn != ARF_A && n != 0 then Fail(ExpectedA0)
    else
      var q :- TokAt(toks, p, DOT, ExpectedAddrDot);
      var sub :- IntLitAt(toks, q, ExpectedAddrSubregNum);
      Ok((RegRef(0, sub.0), sub.1))
  }

  /** The register an identifier at p names (PeekReg), if any. */
  function RegAt(m: Model, toks: seq<Token>, p: nat): Option<(RegInfo, int)> {
    if Peek(toks, p).lexeme == IDENT then PeekRegOf(m, Peek(toks, p).text) else None
  }

  /** The warnings looking up the register at p gives. */
  function RegAtWarnings(m: Model, toks: seq<Token>, p: nat): seq<Warn> {
    if Peek(toks, p).lexeme == IDENT then PeekRegWarnings(m, Peek(toks, p).text) else []
  }

  /** ParseIndOpArgs: "[" address-subregister offset "]", giving the address
    * subregister, the offset and the position after the ']'. */
  function IndArgsAt(m: Model, toks: seq<Token>, p: nat): (r: Res<(RegRef, int, nat)>)
    ensures r.Ok? ==> -512 <= r.value.1 <= 511
  {
    if Peek(toks, p).lexeme != LBRACK then Fail(ExpectedLBrack) else IndAddrOffsetAt(m, toks, p + 1)
  }

  /** What follows the '[' of an indirect operand: the address register
    * (which must be there), its subregister, and the offset. */
  function IndAddrOffsetAt(m: Model, toks: seq<Token>, q: nat): (r: Res<(RegRef, int, nat)>)
    ensures r.Ok? ==> -512 <= r.value.1 <= 511
  {
    match RegAt(m, toks, q)
    case None => Fail(ExpectedAddrSubregister)
    case Some((ri, n)) =>
      match AddrRegAt(toks, q + 1, ri.regName, n)
      case Fail(d) => Fail(d)
      case Ok((a, q1)) =>
        match IndOffsetAt(toks, q1)
        case Fail(d) => Fail(d)
        case Ok((o, q2)) => Ok((a, o, q2))
  }

  /** The address check lets through any register numbered 0, so "[r0.2]"
    * and "[null0.2]" parse as if a0 were written. */
  lemma AddressCheckAcceptsRegisterZero(toks: seq<Token>, p: nat, rn: RegName)
    requires p + 1 < |toks| && toks[p].lexeme == DOT && IsIntLit(toks[p + 1].lexeme)
    ensures AddrRegAt(toks, p, rn, 0) == Ok((RegRef(0, toks[p + 1].value), p + 2))
    ensures rn != ARF_A ==> forall n :: n != 0 ==> AddrRegAt(toks, p, rn, n) == Fail(ExpectedA0)
  {
  }

  /** The four spellings of an offset k give +k or -k, a missing offset gives
    * 0, and an offset outside [-512, 511] fails. */
  lemma IndirectOffsets(toks: seq<Token>, q: nat)
    requires q + 3 < |toks|
    ensures toks[q].lexeme == RBRACK ==> IndOffsetAt(toks, q) == Ok((0, (q + 1) as nat))
    ensures toks[q].lexeme in {ADD, SUB} && IsIntLit(toks[q + 1].lexeme) && toks[q + 2].lexeme == RBRACK ==>
      var k := if toks[q].lexeme == ADD then toks[q + 1].value else -(toks[q + 1].value as int);
      IndOffsetAt(toks, q) == if -512 <= k <= 511 then Ok((k, (q + 3) as nat)) else Fail(IndirectOffsetOutOfRange)
    ensures toks[q].lexeme == COMMA && IsIntLit(toks[q + 1].lexeme) && toks[q + 2].lexeme == RBRACK ==>
      var k := toks[q + 1].value;
      IndOffsetAt(toks, q) == if k <= 511 then Ok((k, (q + 3) as nat)) else Fail(IndirectOffsetOutOfRange)
    ensures toks[q].lexeme == COMMA && toks[q + 1].lexeme == SUB && IsIntLit(toks[q + 2].lexeme) &&
            toks[q + 3].lexeme == RBRACK ==>
      var k := toks[q + 2].value;
      IndOffsetAt(toks, q) == if k <= 512 then Ok((-(k as int), (q + 4) as nat)) else Fail(IndirectOffsetOutOfRange)
  {
  }

  // ---- operand types ----

  /** TryParseOpType: ':' and a type name from the destination or source
    * table, or INVALID with nothing consumed. */
  function TypeAt(toks: seq<Token>, p: nat, src: bool): (Type, nat) {
    var t := Peek(toks, p + 1);
    var ty := if src then SrcTypeOf(t.text) else DstTypeOf(t.text);
    if Peek(toks, p).lexeme == COLON && t.lexeme == IDENT && ty.Some? then (ty.value, p + 2)
    else (INVALID, p)
  }

  /** ParseOpTypeWithDefault's fallbacks when no type is written, in order:
    * the legacy default register type, UD for sends, UD for branches on
    * platforms with simplified branches, UB for sync; otherwise none. */
  function TypeDefault(dftReg: Type, os: OpSpec, m: Model): Option<Type> {
    if dftReg != INVALID then Some(dftReg)
    else if os.isSendOrSendsFamily then Some(UD)
    else if os.isBranching && m.supportsSimplifiedBranches then Some(UD)
    else if os.op == SYNC then Some(UB)
    else None
  }

  /** A written type always wins; the fallbacks only apply when none is
    * written, and the legacy default register type comes first. */
  lemma TypeDefaultOrder(toks: seq<Token>, p: nat, src: bool, dftReg: Type, os: OpSpec, m: Model)
    ensures TypeAt(toks, p, src).0 != INVALID ==> TypeAt(toks, p, src).1 == p + 2
    ensures TypeAt(toks, p, src).0 == INVALID ==> TypeAt(toks, p, src).1 == p
    ensures dftReg != INVALID ==> TypeDefault(dftReg, os, m) == Some(dftReg)
    ensures TypeDefault(dftReg, os, m).None? <==>
      dftReg == INVALID && !os.isSendOrSendsFamily && !(os.isBranching && m.supportsSimplifiedBranches) && os.op != SYNC
  {
    SourceTypesExtendDestinationTypes(Peek(toks, p + 1).text);
  }

  /** SendOperandDefaultType: a send operand with no type written is :ud,
    * except src1, which has none, unless the operation gives the operand an
    * implicit type. */
  function SendDefaultType(os: OpSpec, ix: int): Type {
    if ix < 0 then (if os.implicitDstType.Some? then os.implicitDstType.value else UD)
    else if os.hasImplicitSrcType(ix, false) then os.implicitSrcType(ix, false)
    else if ix == 1 then INVALID
    else UD
  }

  // ---- flag registers ----

  /** ParseFlagRegRef: f0 or f1, then an optional ".0" or ".1" (a decimal
    * literal); a larger subregister is reported but kept.  The result is
    * the register, whether the subregister is out of bounds, and the
    * position after. */
  function FlagRegAt(toks: seq<Token>, p: nat): Res<(RegRef, bool, nat)> {
    var t := Peek(toks, p);
    if t.lexeme != IDENT then Fail(ExpectedFlagRegister)
    else if t.text != "f0" && t.text != "f1" then Fail(UnexpectedFlagRegister)
    else
      var n := if t.text == "f0" then 0 else 1;
      if Peek(toks, p + 1).lexeme == DOT && Peek(toks, p + 2).lexeme == INTLIT10 then
        var sub := Peek(toks, p + 2).value;
        Ok((RegRef(n, sub), sub > 1, p + 3))
      else Ok((RegRef(n, 0), false, p + 1))
  }

  /** Only f0 and f1 are flag registers, and a parsed flag register is
    * always register 0 or 1; its subregister is flagged unless it is 0 or 1. */
  lemma FlagRegisters(toks: seq<Token>, p: nat)
    ensures var r := FlagRegAt(toks, p);
      (r.Ok? ==> IdentAt(toks, p, "f0") || IdentAt(toks, p, "f1")) &&
      (r.Ok? ==> r.value.0.regNum in {0, 1} && r.value.0.subRegNum >= 0 &&
                 (r.value.1 <==> r.value.0.subRegNum > 1)) &&
      (IdentAt(toks, p, "f1") ==> r.Ok? && r.value.0.regNum == 1)
  {
  }

  // ---- labels and recovery ----

  /** LookingAtLabelDef: an identifier and ':' not followed by an identifier
    * on the same line (which would make it a mnemonic with a type, as in
    * "mov:ud"). */
  predicate IsLabelDefAt(toks: seq<Token>, p: nat) {
    Peek(toks, p).lexeme == IDENT && Peek(toks, p + 1).lexeme == COLON &&
    (Peek(toks, p + 2).lexeme != IDENT || Peek(toks, p).line != Peek(toks, p + 2).line)
  }

  /** RecoverFromSyntaxError's resync: the position just past the next
    * newline, or the end of file if none comes first. */
  function SkipPastNewline(toks: seq<Token>, p: nat): (q: nat)
    requires p <= |toks|
    ensures p <= q <= |toks|
    ensures Peek(toks, p).lexeme != END_OF_FILE ==> p < q
    decreases |toks| - p
  {
    if Peek(toks, p).lexeme == NEWLINE then p + 1
    else if Peek(toks, p).lexeme == END_OF_FILE then p
    else SkipPastNewline(toks, p + 1)
  }

  /** The resync stops just past the first newline, having crossed no end of
    * file, or at the first end of file, having crossed no newline. */
  lemma {:induction false} SkipPastNewlineStops(toks: seq<Token>, p: nat)
    requires p <= |toks|
    decreases |toks| - p
    ensures var q := SkipPastNewline(toks, p);
      (forall i :: p <= i < q - 1 ==> toks[i].lexeme != NEWLINE && toks[i].lexeme != END_OF_FILE) &&
      ((q > p && toks[q - 1].lexeme == NEWLINE) ||
       (Peek(toks, q).lexeme == END_OF_FILE && forall i :: p <= i < q ==> toks[i].lexeme != NEWLINE))
  {
    if Peek(toks, p).lexeme != NEWLINE && Peek(toks, p).lexeme != END_OF_FILE {
      SkipPastNewlineStops(toks, p + 1);
    }
  }

  // ---- source modifiers and math macro registers ----

  /** ParseSrcModifierOpt: '-' or '~' negates, then '(abs)' or '|' takes the
    * absolute value.  The result is the modifier, whether the operand opens
    * with '|' (so that a closing '|' is due), and the position after. */
  function SrcModsAt(toks: seq<Token>, p: nat): (r: (SrcModifier, bool, nat))
    ensures r.0 == NONE <==> r.2 == p
    ensures r.1 ==> r.0 == SrcModifier.ABS || r.0 == NEG_ABS
    ensures r.0 == NEG || r.0 == NEG_ABS <==> Peek(toks, p).lexeme == SUB || Peek(toks, p).lexeme == TILDE
    ensures p <= r.2 <= p + 2
  {
    var neg := Peek(toks, p).lexeme == SUB || Peek(toks, p).lexeme == TILDE;
    var q := if neg then p + 1 else p;
    var pipe := Peek(toks, q).lexeme == PIPE;
    var abs := Peek(toks, q).lexeme == Lexeme.ABS || pipe;
    (if abs then (if neg then NEG_ABS else SrcModifier.ABS) else if neg then NEG else NONE,
     pipe,
     if abs then q + 1 else q)
  }

  /** ParseMathMacroReg: '.' and mme0..mme7 or nomme; before XE also the old
    * spellings acc2..acc9 and noacc, which warn.  The result is the register,
    * whether the old spelling was used, and the position after. */
  function MathMacroAt(pf: Platform, toks: seq<Token>, p: nat): (r: Res<(MathMacroExt, bool, nat)>)
    ensures r.Ok? ==> r.value.2 == p + 2 && Peek(toks, p).lexeme == DOT
    ensures r.Ok? && r.value.1 ==> pf.Ord() < XE.Ord()
    ensures r.Fail? ==> r.d == ExpectedMathMacroReg
  {
    var t := Peek(toks, p + 1);
    if Peek(toks, p).lexeme != DOT || t.lexeme != IDENT then Fail(ExpectedMathMacroReg)
    else if MathMacroRegOf(t.text).Some? then Ok((MathMacroRegOf(t.text).value, false, p + 2))
    else if pf.Ord() < XE.Ord() && MathMacroRegOldStyleOf(t.text).Some? then
      Ok((MathMacroRegOldStyleOf(t.text).value, true, p + 2))
    else Fail(ExpectedMathMacroReg)
  }

  /** The math macro register k. */
  function MmeReg(k: nat): MathMacroExt
    requires k < 8
  {
    [MME0, MME1, MME2, MME3, MME4, MME5, MME6, MME7][k]
  }

  /** The old spelling acc(k+2) names the register mmek, the same as the new
    * spelling, but is refused from XE on. */
  lemma OldStyleMathMacroRegs(pf: Platform, toks: seq<Token>, p: nat, k: nat)
    requires k < 8 && Peek(toks, p).lexeme == DOT && Peek(toks, p + 1).lexeme == IDENT
    requires Peek(toks, p + 1).text == "acc" + [('2' as int + k) as char]
    ensures MathMacroRegOf("mme" + [('0' as int + k) as char]) == Some(MmeReg(k))
    ensures pf.Ord() < XE.Ord() ==> MathMacroAt(pf, toks, p) == Ok((MmeReg(k), true, p + 2))
    ensures pf.Ord() >= XE.Ord() ==> MathMacroAt(pf, toks, p) == Fail(ExpectedMathMacroReg)
  {
    var s := Peek(toks, p + 1).text;
    assert MathMacroRegOf(s).None? by {
      assert s[0] == 'a';
    }
    var mme := "mme" + [('0' as int + k) as char];
    if k == 0 {
      assert s == "acc2" && mme == "mme0";
    } else if k == 1 {
      assert s == "acc3" && mme == "mme1";
    } else if k == 2 {
      assert s == "acc4" && mme == "mme2";
    } else if k == 3 {
      assert s == "acc5" && mme == "mme3";
    } else if k == 4 {
      assert s == "acc6" && mme == "mme4";
    } else if k == 5 {
      assert s == "acc7" && mme == "mme5";
    } else if k == 6 {
      assert s == "acc8" && mme == "mme6";
    } else {
      assert s == "acc9" && mme == "mme7";
    }
  }

  // ---- subregister bounds ----

  /** The destination's subregister check, once its type is known: a byte
    * offset the register file does not have is a recorded error on a GRF and
    * a warning on any other file; otherwise a type narrower than the file's
    * access granularity warns.  No type, no check.  The result is the error
    * recorded and the warning given. */
  function DstSubregCheck(m: Model, ri: RegInfo, regNum: int, sub: int, ty: Type): (r: (Option<Diag>, Option<Warn>))
    ensures ty == INVALID ==> r == (None, None)
    ensures r.0.Some? ==> ri.regName == GRF_R && r.0 == Some(SubregOutOfBoundsForType) && r.1.None?
    ensures r.1 == Some(DstSubregOutOfBounds) ==> ri.regName != GRF_R
    ensures ty != INVALID && !ri.isSubRegByteOffsetValid(regNum, sub * (m.typeSizeInBits(ty) / 8), m.grfBytes) ==>
      r.0.Some? || r.1 == Some(DstSubregOutOfBounds)
  {
    if ty == INVALID then (None, None)
    else
      var size := m.typeSizeInBits(ty) / 8;
      if !ri.isSubRegByteOffsetValid(regNum, sub * size, m.grfBytes) then
        if ri.regName == GRF_R then (Some(SubregOutOfBoundsForType), None) else (None, Some(DstSubregOutOfBounds))
      else if size < ri.accGran then (None, Some(DstAccessGranularity))
      else (None, None)
  }

  /** The source's subregister check: only warnings, and none about the
    * subregister when the register number itself is out of bounds. */
  function SrcSubregCheck(m: Model, ri: RegInfo, regNum: int, sub: int, ty: Type): (w: Option<Warn>)
    ensures ty == INVALID ==> w.None?
    ensures w == Some(SrcSubregOutOfBounds) ==> ri.isRegNumberValid(regNum)
    ensures w == Some(SrcAccessGranularity) ==> m.typeSizeInBits(ty) / 8 < ri.accGran
  {
    if ty == INVALID then None
    else
      var size := m.typeSizeInBits(ty) / 8;
      if ri.isRegNumberValid(regNum) && !ri.isSubRegByteOffsetValid(regNum, sub * size, m.grfBytes) then
        Some(SrcSubregOutOfBounds)
      else if size < ri.accGran then Some(SrcAccessGranularity)
      else None
  }

  // ---- predication and flag modifiers ----

  /** ParsePred's control after the flag register: '.' and a control name,
    * or SEQ when there is no '.'. */
  function PredCtrlAt(toks: seq<Token>, p: nat): (r: Res<(PredCtrl, nat)>)
    ensures r.Ok? && Peek(toks, p).lexeme != DOT ==> r.value == (SEQ, p)
    ensures r.Ok? ==> r.value.1 <= p + 2
  {
    if Peek(toks, p).lexeme != DOT then Ok((SEQ, p))
    else
      var t := Peek(toks, p + 1);
      if t.lexeme != IDENT then Fail(ExpectedPredCtrl)
      else if PredCtrlOf(t.text).None? then Fail(InvalidPredCtrl)
      else Ok((PredCtrlOf(t.text).value, p + 2))
  }

  /** TryParseFlagModFlag: "(f)" with f a condition-modifier function; the
    * legacy one-letter spellings are taken too, and flagged.  None when the
    * tokens are no flag modifier (nothing is consumed then). */
  function FlagModFuncAt(toks: seq<Token>, p: nat): (r: Res<Option<(FlagModifier, bool, nat)>>)
    ensures r.Ok? && r.value.Some? ==> r.value.value.2 == p + 3
    ensures Peek(toks, p).lexeme != LPAREN ==> r == Ok(None)
    ensures r.Ok? && r.value.Some? && r.value.value.1 ==> FlagModOf(Peek(toks, p + 1).text).None?
  {
    var t := Peek(toks, p + 1);
    if Peek(toks, p).lexeme != LPAREN || t.lexeme != IDENT then Ok(None)
    else
      var fm := if FlagModOf(t.text).Some? then FlagModOf(t.text) else FlagModLegacyOf(t.text);
      if fm.None? then Ok(None)
      else if Peek(toks, p + 2).lexeme != RPAREN then Fail(ExpectedRParen)
      else Ok(Some((fm.value, FlagModOf(t.text).None?, p + 3)))
  }

  /** ParseFlagModFlagReg's check: with predication on a flag register, the
    * flag modifier must name the same register. */
  predicate FlagRegConflict(pred: RegRef, fr: RegRef) {
    pred.regNum != -1 && pred != fr
  }

  // ---- subfunctions ----

  /** ParseSubfunctionFromBxmlEnum: '.' and a subfunction name, or a decimal
    * or hex number taken as the encoding. */
  function SubfunctionAt(toks: seq<Token>, p: nat, fromSyntax: string -> Option<nat>): (r: Res<(nat, nat)>)
    ensures r.Ok? ==> r.value.1 == p + 2
    ensures Peek(toks, p).lexeme != DOT ==> r == Fail(ExpectedSubfunction)
  {
    var t := Peek(toks, p + 1);
    if Peek(toks, p).lexeme != DOT then Fail(ExpectedSubfunction)
    else if t.lexeme == IDENT then
      if fromSyntax(t.text).None? then Fail(InvalidSubfunction) else Ok((fromSyntax(t.text).value, p + 2))
    else if t.lexeme == INTLIT10 || t.lexeme == INTLIT16 then Ok((t.value, p + 2))
    else Fail(InvalidSubfunction)
  }

  // ---- legacy directives ----

  datatype Directive = DefaultExecSize(e: ExecSize) | DefaultRegisterType(t: Type)

  /** The position after an optional token lx. */
  function SkipOpt(toks: seq<Token>, p: nat, lx: Lexeme): nat {
    if Peek(toks, p).lexeme == lx then p + 1 else p
  }

  /** One legacy directive, after its '.': "default_execution_size(N)" with
    * N a SIMD width, or "default_register_type :t"; the parentheses and the
    * trailing newline are optional. */
  function DirectiveAt(toks: seq<Token>, p: nat): (r: Res<(Directive, nat)>)
    requires p <= |toks|
    ensures r.Ok? ==> p < r.value.1 <= |toks|
    ensures r.Ok? && r.value.0.DefaultRegisterType? ==> r.value.0.t != INVALID
    ensures !IdentAt(toks, p, "default_execution_size") && !IdentAt(toks, p, "default_register_type") ==>
      r == Fail(UnexpectedDirective)
  {
    if IdentAt(toks, p, "default_execution_size") then ExecSizeDirectiveAt(toks, p + 1)
    else if IdentAt(toks, p, "default_register_type") then RegTypeDirectiveAt(toks, p + 1)
    else Fail(UnexpectedDirective)
  }

  /** "(N)" after "default_execution_size". */
  function ExecSizeDirectiveAt(toks: seq<Token>, p: nat): (r: Res<(Directive, nat)>)
    requires p <= |toks|
    ensures r.Ok? ==> r.value.0.DefaultExecSize? && p < r.value.1 <= |toks|
  {
    var q := SkipOpt(toks, p, LPAREN);
    var t := Peek(toks, q);
    if !IsIntLit(t.lexeme) then Fail(ExpectedDefaultSimdWidth)
    else ExecSizeTailAt(toks, q + 1, t.value)
  }

  /** The width read after "default_execution_size (", checked, then the
    * closing parenthesis and the end of the line, both optional. */
  function ExecSizeTailAt(toks: seq<Token>, p: nat, n: int): (r: Res<(Directive, nat)>)
    requires p <= |toks|
    ensures r.Ok? ==> r.value.0.DefaultExecSize? && p <= r.value.1 <= |toks|
  {
    if ExecSizeOf(n).None? then Fail(InvalidDefaultExecSize)
    else Ok((DefaultExecSize(ExecSizeOf(n).value), SkipOpt(toks, SkipOpt(toks, p, RPAREN), NEWLINE)))
  }

  /** ":t" after "default_register_type", t a destination type. */
  function RegTypeDirectiveAt(toks: seq<Token>, p: nat): (r: Res<(Directive, nat)>)
    requires p <= |toks|
    ensures r.Ok? ==> r.value.0.DefaultRegisterType? && r.value.0.t != INVALID && p < r.value.1 <= |toks|
  {
    var (t, q) := TypeAt(toks, p, false);
    if t == INVALID then Fail(ExpectedDefaultRegisterType)
    else Ok((DefaultRegisterType(t), SkipOpt(toks, q, NEWLINE)))
  }

  /** ParseLegacyDirectives' loop: each ".ident" is a directive, and the last
    * one of each kind sets the default.  The result is the two defaults and
    * the position after the directives, or the first failure. */
  function DirectivesAt(toks: seq<Token>, p: nat, es: ExecSize, rt: Type): (r: Res<(ExecSize, Type, nat)>)
    requires p <= |toks|
    ensures r.Ok? ==> p <= r.value.2 <= |toks|
    ensures r.Ok? && r.value.2 == p ==> r.value.0 == es && r.value.1 == rt
    ensures r.Ok? ==> (r.value.2 == p <==> !(Peek(toks, p).lexeme == DOT && Peek(toks, p + 1).lexeme == IDENT))
    decreases |toks| - p
  {
    if Peek(toks, p).lexeme == DOT && Peek(toks, p + 1).lexeme == IDENT then
      var d := DirectiveAt(toks, p + 1);
      if d.Fail? then Fail(d.d)
      else if d.value.0.DefaultExecSize? then DirectivesAt(toks, d.value.1, d.value.0.e, rt)
      else DirectivesAt(toks, d.value.1, es, d.value.0.t)
    else Ok((es, rt, p))
  }

  // ---- the instruction prefix ----

  /** A predication as ParsePred reads it: inverted or not, the flag
    * register, whether that register's subregister is out of bounds (an
    * error recorded, not thrown), and the control. */
  datatype Pred = Pred(inverted: bool, reg: RegRef, oob: bool, ctrl: PredCtrl)

  /** ParsePred: '~'?, a flag register, and its control. */
  function PredAt(toks: seq<Token>, p: nat): (r: Res<(Pred, nat)>)
    ensures r.Ok? ==> p < r.value.1 && r.value.0.reg.regNum in {0, 1}
    ensures r.Ok? ==> (r.value.0.inverted <==> Peek(toks, p).lexeme == TILDE)
  {
    var inv := Peek(toks, p).lexeme == TILDE;
    match FlagRegAt(toks, if inv then p + 1 else p)
    case Fail(d) => Fail(d)
    case Ok((rr, oob, q)) =>
      match PredCtrlAt(toks, q)
      case Fail(d) => Fail(d)
      case Ok((pc, q')) => Ok((Pred(inv, rr, oob, pc), q'))
  }

  /** ParseWrEnPred: nothing, or '(' then "W", "W&" and a predication, or a
    * predication alone, then ')'.  The result is whether W was written, the
    * predication, and the position after. */
  function WrEnPredAt(toks: seq<Token>, p: nat): (r: Res<(bool, Option<Pred>, nat)>)
    ensures Peek(toks, p).lexeme != LPAREN ==> r == Ok((false, None, p))
    ensures r.Ok? && r.value.2 != p ==> (r.value.0 || r.value.1.Some?) && p < r.value.2 &&
                                        Peek(toks, r.value.2 - 1).lexeme == RPAREN
  {
    if Peek(toks, p).lexeme != LPAREN then Ok((false, None, p)) else WrEnPredBodyAt(toks, p + 1)
  }

  /** ParseWrEnPred after its '('. */
  function WrEnPredBodyAt(toks: seq<Token>, q: nat): (r: Res<(bool, Option<Pred>, nat)>)
    ensures r.Ok? ==> (r.value.0 || r.value.1.Some?) && q < r.value.2 && Peek(toks, r.value.2 - 1).lexeme == RPAREN
  {
    if IdentAt(toks, q, "W") then WrEnTailAt(toks, q + 1)
    else
      match PredCloseAt(toks, q)
      case Fail(d) => Fail(d)
      case Ok((pd, q')) => Ok((false, Some(pd), q'))
  }

  /** ParseWrEnPred after "(W": ')' alone, or '&', a predication and ')'. */
  function WrEnTailAt(toks: seq<Token>, q: nat): (r: Res<(bool, Option<Pred>, nat)>)
    ensures r.Ok? ==> r.value.0 && q < r.value.2 && Peek(toks, r.value.2 - 1).lexeme == RPAREN
  {
    if Peek(toks, q).lexeme != AMP then
      if Peek(toks, q).lexeme == RPAREN then Ok((true, None, q + 1)) else Fail(ExpectedRParen)
    else
      var pc := PredCloseAt(toks, q + 1);
      if pc.Fail? then Fail(pc.d) else Ok((true, Some(pc.value.0), pc.value.1))
  }

  /** A predication and the ')' after it. */
  function PredCloseAt(toks: seq<Token>, p: nat): (r: Res<(Pred, nat)>)
    ensures r.Ok? ==> p + 1 < r.value.1 && Peek(toks, r.value.1 - 1).lexeme == RPAREN
  {
    match PredAt(toks, p)
    case Fail(d) => Fail(d)
    case Ok((pd, q)) => if Peek(toks, q).lexeme == RPAREN then Ok((pd, q + 1)) else Fail(ExpectedRParen)
  }

  /** "(W)" is write-enable alone; "(W&" with a predication is both; a
    * predication alone leaves write-enable off. */
  lemma WrEnPredForms(toks: seq<Token>, p: nat)
    requires Peek(toks, p).lexeme == LPAREN
    ensures var q: nat := p + 3;
      IdentAt(toks, p + 1, "W") && Peek(toks, p + 2).lexeme == RPAREN ==> WrEnPredAt(toks, p) == Ok((true, None, q))
    ensures IdentAt(toks, p + 1, "W") && Peek(toks, p + 2).lexeme == AMP ==>
      match PredAt(toks, p + 3)
      case Fail(d) => WrEnPredAt(toks, p) == Fail(d)
      case Ok((pd, q)) =>
        var q': nat := q + 1;
        WrEnPredAt(toks, p) == if Peek(toks, q).lexeme == RPAREN then Ok((true, Some(pd), q')) else Fail(ExpectedRParen)
    ensures !IdentAt(toks, p + 1, "W") ==> (WrEnPredAt(toks, p).Ok? ==> !WrEnPredAt(toks, p).value.0 && WrEnPredAt(toks, p).value.1.Some?)
  {
  }

  /** A predication without '.' after its flag register has control SEQ, and
    * it ends there. */
  lemma PredDefaultsToSeq(toks: seq<Token>, p: nat)
    ensures var q0 := if Peek(toks, p).lexeme == TILDE then p + 1 else p;
      var f := FlagRegAt(toks, q0);
      f.Ok? && Peek(toks, f.value.2).lexeme != DOT ==>
        PredAt(toks, p) == Ok((Pred(q0 > p, f.value.0, f.value.1, SEQ), f.value.2))
  {
  }

  /** The subfunction ParseMnemonic reads after an operation's name: branch
    * control ".b" (none means off) for operations that take one; '.' and a
    * math or sync function; '.' and a shared function for send and sendc
    * from XE on.  The others read none (before XE a send's shared function
    * comes from its extended descriptor). */
  function SubfunctionSuffixAt(m: Model, os: OpSpec, toks: seq<Token>, p: nat): (r: Res<(Option<Subfunction>, nat)>)
    ensures r.Ok? ==> p <= r.value.1 <= p + 2
    ensures r.Ok? && r.value.0.None? ==> r.value.1 == p
  {
    if os.supportsBranchCtrl then
      if Peek(toks, p).lexeme != DOT then Ok((Some(BranchCtrl(false)), p))
      else if IdentAt(toks, p + 1, "b") then Ok((Some(BranchCtrl(true)), p + 2))
      else Fail(ExpectedBranchCtrl)
    else if os.op == MATH then
      match SubfunctionAt(toks, p, m.mathFromSyntax)
      case Fail(d) => Fail(d)
      case Ok((n, q)) => Ok((Some(MathFc(n)), q))
    else if os.op == SYNC then
      match SubfunctionAt(toks, p, m.syncFromSyntax)
      case Fail(d) => Fail(d)
      case Ok((n, q)) => Ok((Some(SyncFc(n)), q))
    else if (os.op == SEND || os.op == SENDC) && m.platform.Ord() >= XE.Ord() then
      match SubfunctionAt(toks, p, m.sfidFromSyntax)
      case Fail(d) => Fail(d)
      case Ok((n, q)) => Ok((Some(SendSfid(n)), q))
    else Ok((None, p))
  }

  /** ParseMnemonic's last check: a '.' still after the mnemonic fails,
    * named after the likely mistake: a saturation or a flag modifier written
    * where older syntax put it. */
  function DotAfterMnemonic(toks: seq<Token>, p: nat): (d: Option<Diag>)
    ensures d.Some? <==> Peek(toks, p).lexeme == DOT
  {
    var t := Peek(toks, p + 1);
    if Peek(toks, p).lexeme != DOT then None
    else if IdentAt(toks, p + 1, "sat") then Some(SaturationAfterMnemonic)
    else if t.lexeme == IDENT && (FlagModOf(t.text).Some? || FlagModLegacyOf(t.text).Some?) then
      Some(FlagModifierAfterMnemonic)
    else Some(UnexpectedDotAfterMnemonic)
  }

  /** Branch control is off unless ".b" is written; math and sync always
    * need a '.' and a function; send and sendc read one only from XE on,
    * and before XE a '.' after them is left over and fails. */
  lemma SubfunctionSuffixes(m: Model, os: OpSpec, toks: seq<Token>, p: nat)
    ensures os.supportsBranchCtrl ==>
      (Peek(toks, p).lexeme != DOT <==> SubfunctionSuffixAt(m, os, toks, p) == Ok((Some(BranchCtrl(false)), p)))
    ensures !os.supportsBranchCtrl && (os.op == MATH || os.op == SYNC) && Peek(toks, p).lexeme != DOT ==>
      SubfunctionSuffixAt(m, os, toks, p) == Fail(ExpectedSubfunction)
    ensures !os.supportsBranchCtrl && (os.op == SEND || os.op == SENDC) && m.platform.Ord() < XE.Ord() ==>
      SubfunctionSuffixAt(m, os, toks, p) == Ok((None, p)) &&
      (Peek(toks, p).lexeme == DOT ==> DotAfterMnemonic(toks, p).Some?)
  {
  }

  /** A flag modifier as ParseFlagModOpt reads it: the function, whether it
    * was spelled the legacy way, the flag register, whether that register's
    * subregister is out of bounds, and whether the deprecated brackets were
    * written. */
  datatype FlagMod = FlagMod(fm: FlagModifier, legacy: bool, reg: RegRef, oob: bool, bracketed: bool)

  /** ParseFlagModFlagReg: a flag register, which must be the predication's
    * when the instruction is predicated. */
  function FlagModRegAt(toks: seq<Token>, p: nat, pred: RegRef): Res<(RegRef, bool, nat)> {
    match FlagRegAt(toks, p)
    case Fail(d) => Fail(d)
    case Ok((fr, oob, q)) => if FlagRegConflict(pred, fr) then Fail(FlagRegisterMismatch) else Ok((fr, oob, q))
  }

  /** ParseFlagModOpt: "[(f)fN.n]" (deprecated), "(f)fN.n", or nothing (a
    * '(' that does not open a flag modifier function is left alone: it may
    * be "(sat)").  pred is the predication's flag register. */
  function FlagModOptAt(toks: seq<Token>, p: nat, pred: RegRef): (r: Res<(Option<FlagMod>, nat)>)
    ensures r.Ok? && r.value.0.None? ==> r.value.1 == p
    ensures r.Ok? && r.value.0.Some? ==>
      p < r.value.1 && r.value.0.value.reg.regNum in {0, 1} && !FlagRegConflict(pred, r.value.0.value.reg) &&
      (r.value.0.value.bracketed <==> Peek(toks, p).lexeme == LBRACK)
  {
    var br := Peek(toks, p).lexeme == LBRACK;
    FlagModOptFrom(toks, if br then p + 1 else p, br, pred)
  }

  /** FlagModOptAt after the optional '[': br says it was there and p is
    * just past it. */
  function FlagModOptFrom(toks: seq<Token>, p: nat, br: bool, pred: RegRef): (r: Res<(Option<FlagMod>, nat)>)
    ensures r.Ok? && r.value.0.None? ==> !br && r.value.1 == p
    ensures r.Ok? && r.value.0.Some? ==>
      p < r.value.1 && r.value.0.value.reg.regNum in {0, 1} && !FlagRegConflict(pred, r.value.0.value.reg) &&
      r.value.0.value.bracketed == br
  {
    match FlagModFuncAt(toks, p)
    case Fail(d) => Fail(d)
    case Ok(None) => if br then Fail(ExpectedFlagModifier) else Ok((None, p))
    case Ok(Some((fm, legacy, q))) =>
      match FlagModRegAt(toks, q, pred)
      case Fail(d) => Fail(d)
      case Ok((fr, oob, q')) =>
        if !br then Ok((Some(FlagMod(fm, legacy, fr, oob, false)), q'))
        else if Peek(toks, q').lexeme != RBRACK then Fail(ExpectedRBrack)
        else Ok((Some(FlagMod(fm, legacy, fr, oob, true)), q' + 1))
  }

  /** With predication, a flag modifier's register is the predication's
    * register; without, any flag register is taken.  A '[' must open a flag
    * modifier. */
  lemma FlagModRegisters(toks: seq<Token>, p: nat, pred: RegRef)
    ensures var r := FlagModOptAt(toks, p, pred);
      r.Ok? && r.value.0.Some? && pred.regNum != -1 ==> r.value.0.value.reg == pred
    ensures pred.regNum == -1 ==> FlagModOptAt(toks, p, pred) != Fail(FlagRegisterMismatch)
    ensures Peek(toks, p).lexeme == LBRACK && FlagModFuncAt(toks, p + 1) == Ok(None) ==>
      FlagModOptAt(toks, p, pred) == Fail(ExpectedFlagModifier)
  {
  }

  // ---- send descriptors ----

  /** The extended descriptor's effect on the subfunction before XE: a
    * register descriptor marks it as held in a0, an immediate one names the
    * shared function in its low four bits. */
  function ExDescSubfunction(m: Model, ex: SendDesc): Subfunction {
    match ex
    case DescReg(_) => SfidA0Reg
    case DescImm(imm) => SendSfid(m.sfidFromEncoding(imm % 16))
  }

  /** An immediate descriptor keeps the low 32 bits of the expression's
    * 64-bit value (the cast to uint32_t). */
  function DescImmOf(bits: Word): (imm: nat)
    ensures imm < 0x1_0000_0000
    ensures bits < 0x1_0000_0000 ==> imm == bits
  {
    bits % 0x1_0000_0000
  }
}
