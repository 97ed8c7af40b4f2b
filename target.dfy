// The target description the parser consults (the IGA Model, OpSpec and
// RegInfo queries) and the fixed syntax tables and mappings of the parser.
// Every platform query is an input: its tables are not part of this model.
module Target {
  import opened ImmVals

  /** Operand data types (iga::Type). */
  datatype Type = INVALID | B | UB | W | UW | D | UD | Q | UQ | HF | F | DF | V | UV | VF | NF

  /** Type suffixes accepted after ':' on a source operand (SRC_TYPES). */
  function SrcTypeOf(s: string): Option<Type> {
    match s
    case "v" => Some(V)
    case "uv" => Some(UV)
    case "vf" => Some(VF)
    case _ => DstTypeOf(s)
  }

  /** Type suffixes accepted after ':' on a destination operand (DST_TYPES). */
  function DstTypeOf(s: string): Option<Type> {
    match s
    case "b" => Some(B)   case "ub" => Some(UB)
    case "w" => Some(W)   case "uw" => Some(UW)
    case "d" => Some(D)   case "ud" => Some(UD)
    case "q" => Some(Q)   case "uq" => Some(UQ)
    case "hf" => Some(HF) case "f" => Some(F)   case "df" => Some(DF)
    case "nf" => Some(NF)
    case "u8" => Some(UB) case "u16" => Some(UW) case "u32" => Some(UD) case "u64" => Some(UQ)
    case "s8" => Some(B)  case "s16" => Some(W)  case "s32" => Some(D)  case "s64" => Some(Q)
    case "f16" => Some(HF) case "f32" => Some(F) case "f64" => Some(DF)
    case _ => None
  }

  /** Sources accept exactly the destination suffixes plus the packed vector
    * types v, uv and vf, and the shared suffixes name the same types; the
    * packed vector types are never destination types. */
  lemma SourceTypesExtendDestinationTypes(s: string)
    ensures DstTypeOf(s).Some? ==> SrcTypeOf(s) == DstTypeOf(s)
    ensures SrcTypeOf(s).Some? && DstTypeOf(s).None? <==> s in {"v", "uv", "vf"}
    ensures DstTypeOf(s).Some? ==> DstTypeOf(s).value !in {V, UV, VF, INVALID}
    ensures SrcTypeOf(s).Some? ==> SrcTypeOf(s).value != INVALID
  {
  }

  datatype ExecSize = SIMD1 | SIMD2 | SIMD4 | SIMD8 | SIMD16 | SIMD32

  function Lanes(e: ExecSize): nat {
    match e
    case SIMD1 => 1 case SIMD2 => 2 case SIMD4 => 4
    case SIMD8 => 8 case SIMD16 => 16 case SIMD32 => 32
  }

  /** The SIMD-width switch: only 1, 2, 4, 8, 16 and 32 name an execution
    * size, and the size named has that many lanes. */
  function ExecSizeOf(n: int): (r: Option<ExecSize>)
    ensures r.Some? <==> n in {1, 2, 4, 8, 16, 32}
    ensures r.Some? ==> Lanes(r.value) == n
  {
    if n == 1 then Some(SIMD1) else if n == 2 then Some(SIMD2)
    else if n == 4 then Some(SIMD4) else if n == 8 then Some(SIMD8)
    else if n == 16 then Some(SIMD16) else if n == 32 then Some(SIMD32)
    else None
  }

  lemma ExecSizeOfLanes(e: ExecSize)
    ensures ExecSizeOf(Lanes(e)) == Some(e)
  {
  }

  datatype ChannelOffset = M0 | M4 | M8 | M12 | M16 | M20 | M24 | M28

  /** EM_OFFS: the execution-mask offsets. */
  function ChOffOf(s: string): Option<ChannelOffset> {
    match s
    case "M0" => Some(M0)   case "M4" => Some(M4)   case "M8" => Some(M8)   case "M12" => Some(M12)
    case "M16" => Some(M16) case "M20" => Some(M20) case "M24" => Some(M24) case "M28" => Some(M28)
    case _ => None
  }

  datatype PredCtrl = SEQ | ANYV | ALLV | ANY2H | ALL2H | ANY4H | ALL4H
                    | ANY8H | ALL8H | ANY16H | ALL16H | ANY32H | ALL32H

  /** PREDCTRLS: the predication controls written after '.'. */
  function PredCtrlOf(s: string): Option<PredCtrl> {
    match s
    case "xyzw" => Some(SEQ)   case "anyv" => Some(ANYV)  case "allv" => Some(ALLV)
    case "any2h" => Some(ANY2H) case "all2h" => Some(ALL2H)
    case "any4h" => Some(ANY4H) case "all4h" => Some(ALL4H)
    case "any8h" => Some(ANY8H) case "all8h" => Some(ALL8H)
    case "any16h" => Some(ANY16H) case "all16h" => Some(ALL16H)
    case "any32h" => Some(ANY32H) case "all32h" => Some(ALL32H)
    case _ => None
  }

  datatype FlagModifier = LT | LE | GT | GE | EQ | NE | OV | UN | EO

  /** FLAGMODS: the condition-modifier functions; ze and nz alias eq and ne. */
  function FlagModOf(s: string): Option<FlagModifier> {
    match s
    case "lt" => Some(LT) case "le" => Some(LE) case "gt" => Some(GT) case "ge" => Some(GE)
    case "eq" => Some(EQ) case "ne" => Some(NE) case "ov" => Some(OV) case "un" => Some(UN)
    case "eo" => Some(EO) case "ze" => Some(EQ) case "nz" => Some(NE)
    case _ => None
  }

  /** FLAGMODS_LEGACY: the deprecated one-letter spellings. */
  function FlagModLegacyOf(s: string): Option<FlagModifier> {
    match s
    case "l" => Some(LT) case "g" => Some(GT) case "e" => Some(EQ)
    case "o" => Some(OV) case "u" => Some(UN) case "z" => Some(EQ)
    case _ => None
  }

  datatype MathMacroExt = MME0 | MME1 | MME2 | MME3 | MME4 | MME5 | MME6 | MME7 | NOMME | MME_INVALID

  /** MATHMACROREGS: the math macro registers mme0..mme7 and nomme. */
  function MathMacroRegOf(s: string): Option<MathMacroExt> {
    match s
    case "mme0" => Some(MME0) case "mme1" => Some(MME1) case "mme2" => Some(MME2)
    case "mme3" => Some(MME3) case "mme4" => Some(MME4) case "mme5" => Some(MME5)
    case "mme6" => Some(MME6) case "mme7" => Some(MME7) case "nomme" => Some(NOMME)
    case _ => None
  }

  /** MATHMACROREGS_OLDSTYLE: acc2..acc9 name mme0..mme7, noacc names nomme. */
  function MathMacroRegOldStyleOf(s: string): Option<MathMacroExt> {
    match s
    case "acc2" => Some(MME0) case "acc3" => Some(MME1) case "acc4" => Some(MME2)
    case "acc5" => Some(MME3) case "acc6" => Some(MME4) case "acc7" => Some(MME5)
    case "acc8" => Some(MME6) case "acc9" => Some(MME7) case "noacc" => Some(NOMME)
    case _ => None
  }

  // ---- regions ----

  datatype Vert = VtStride(v: nat) | VT_VxH | VT_INVALID
  datatype Width = WiSize(w: nat) | WI_INVALID
  datatype Horz = HzStride(h: nat) | HZ_INVALID
  datatype Region = Region(vt: Vert, wi: Width, hz: Horz)

  const SRC010: Region := Region(VtStride(0), WiSize(1), HzStride(0))
  const SRC110: Region := Region(VtStride(1), WiSize(1), HzStride(0))
  const SRC0X0: Region := Region(VtStride(0), WI_INVALID, HzStride(0))
  const SRC1X0: Region := Region(VtStride(1), WI_INVALID, HzStride(0))
  const SRC2X1: Region := Region(VtStride(2), WI_INVALID, HzStride(1))
  const SRCXX0: Region := Region(VT_INVALID, WI_INVALID, HzStride(0))
  const SRCXX1: Region := Region(VT_INVALID, WI_INVALID, HzStride(1))
  const REGION_INVALID: Region := Region(VT_INVALID, WI_INVALID, HZ_INVALID)

  /** ParseRegionVert's switch: the vertical strides are 0, 1, 2, 4, 8, 16, 32. */
  function VertOf(x: int): (r: Option<Vert>)
    ensures r.Some? <==> x in {0, 1, 2, 4, 8, 16, 32}
    ensures r.Some? ==> r.value == VtStride(x)
  {
    if x in {0, 1, 2, 4, 8, 16, 32} then Some(VtStride(x)) else None
  }

  /** ParseRegionWidth's switch: the widths are 1, 2, 4, 8, 16. */
  function WidthOf(x: int): (r: Option<Width>)
    ensures r.Some? <==> x in {1, 2, 4, 8, 16}
    ensures r.Some? ==> r.value == WiSize(x)
  {
    if x in {1, 2, 4, 8, 16} then Some(WiSize(x)) else None
  }

  /** ParseRegionHorz's switch: the horizontal strides are 0, 1, 2, 4. */
  function HorzOf(x: int): (r: Option<Horz>)
    ensures r.Some? <==> x in {0, 1, 2, 4}
    ensures r.Some? ==> r.value == HzStride(x)
  {
    if x in {0, 1, 2, 4} then Some(HzStride(x)) else None
  }

  /** ParseDstOpRegion's switch: a destination stride is 1, 2 or 4 (never 0). */
  function DstHorzOf(x: int): (r: Option<Horz>)
    ensures r.Some? <==> x in {1, 2, 4}
    ensures r.Some? ==> r.value == HzStride(x) && HorzOf(x) == r
  {
    if x in {1, 2, 4} then Some(HzStride(x)) else None
  }

  // ---- registers ----

  datatype RegName = GRF_R | ARF_A | ARF_ACC | ARF_MME | ARF_NULL | ARF_F | ARF_OTHER(id: nat)

  /** A register number and subregister number. */
  datatype RegRef = RegRef(regNum: int, subRegNum: int)

  /** A register file description (RegInfo); the two validity queries are
    * platform tables. */
  datatype RegInfo = RegInfo(
    regName: RegName,
    syntax: string,
    numRegs: nat,
    regNumBase: int,
    accGran: nat,
    supportsRegioning: bool,
    isRegNumberValid: int -> bool,
    isSubRegByteOffsetValid: (int, int, nat) -> bool)

  // ---- operations ----

  /** The syntax classes FinishNonLdStInstBody dispatches on. */
  datatype Format =
    | NULLARY | BASIC_UNARY_REG | BASIC_UNARY_REGIMM | SYNC_UNARY
    | SEND_UNARY | SEND_BINARY
    | BASIC_BINARY_REG_IMM | BASIC_BINARY_REG_REG | BASIC_BINARY_REG_REGIMM
    | MATH_BINARY_REG_REGIMM | TERNARY_REGIMM_REG_REGIMM
    | JUMP_UNARY_IMM | JUMP_UNARY_REGIMM | JUMP_UNARY_REG | JUMP_BINARY_BRC
    | JUMP_UNARY_CALL_REGIMM | JUMP_BINARY_IMM_IMM

  /** The operations the parser singles out by identity. */
  datatype Op = MOV | JMPI | MATH | SYNC | SEND | SENDC | OTHER_OP

  datatype Platform = PRE_GEN7 | GEN7_TO_GEN11 | XE | POST_XE
  {
    function Ord(): nat {
      match this case PRE_GEN7 => 0 case GEN7_TO_GEN11 => 1 case XE => 2 case POST_XE => 3
    }
  }

  /** An operation's subfunction as the builder records it. */
  datatype Subfunction =
    | BranchCtrl(on: bool) | MathFc(fc: nat) | SyncFc(fc: nat)
    | SendSfid(sfid: nat) | SfidA0Reg

  /** An operation description (OpSpec); the implicit-operand queries are
    * platform tables. */
  datatype OpSpec = OpSpec(
    mnemonic: string,
    op: Op,
    format: Format,
    isBranching: bool,
    isJipAbsolute: bool,
    isSendOrSendsFamily: bool,
    isTernary: bool,
    supportsBranchCtrl: bool,
    supportsSourceModifiers: bool,
    hasImplicitEm: bool,
    implicitDstType: Option<Type>,
    hasImplicitSrcType: (int, bool) -> bool,
    implicitSrcType: (int, bool) -> Type,
    hasImplicitDstRegion: bool -> bool,
    implicitDstRegion: bool -> Region,
    hasImplicitSrcRegion: (int, ExecSize, bool) -> bool,
    implicitSrcRegion: (int, ExecSize, bool) -> Region,
    sourceCount: Option<Subfunction> -> nat)

  /** The platform model (iga::Model) as far as the parser queries it. */
  datatype Model = Model(
    platform: Platform,
    ops: map<string, OpSpec>,
    regs: map<string, RegInfo>,
    mme: Option<RegInfo>,
    grfBytes: nat,
    supportsWait: bool,
    supportsUnarySend: bool,
    supportsSimplifiedBranches: bool,
    supportsHwDeps: bool,
    supportsNoPreempt: bool,
    supportNoSrcDepSet: bool,
    typeSizeInBits: Type -> nat,
    mathFromSyntax: string -> Option<nat>,
    syncFromSyntax: string -> Option<nat>,
    sfidFromSyntax: string -> Option<nat>,
    sfidFromEncoding: nat -> nat)

  datatype ParseOpts = ParseOpts(
    supportLegacyDirectives: bool,
    deprecatedSyntaxWarnings: bool,
    maxSyntaxErrors: nat)

  /** Everything the parser reads but never changes: the model, the options,
    * the ImmVal helpers and the builder's macro-op query. */
  datatype Env = Env(
    model: Model,
    opts: ParseOpts,
    imm: ImmOps,
    isMacroOp: (Op, Option<Subfunction>) -> bool)

  // ---- operands ----

  datatype OperandKind = KIND_INVALID | DIRECT | INDIRECT | IMMEDIATE | LABEL
  datatype SrcModifier = NONE | NEG | ABS | NEG_ABS

  /** A send descriptor: an a0 subregister or a 32-bit immediate. */
  datatype SendDesc = DescReg(reg: RegRef) | DescImm(imm: nat)

  datatype InstOpt =
    | ACCWREN | ATOMIC | BREAKPOINT | COMPACTED | EOT | NOCOMPACT | SERIALIZE
    | NODDCHK | NODDCLR | NOPREEMPT | NOSRCDEPSET | SWITCH
}
