// The InstBuilder callbacks the parser makes, as an append-only log.  The
// builder's own bookkeeping is not part of this model; the log says which
// callback was made, in which order, with which arguments (less source
// locations).
module Events {
  import opened ImmVals
  import opened Target

  datatype Event =
    | ProgramStart | ProgramEnd
    | BlockStart(name: string) | BlockEnd
    | InstStart | InstEnd
    | InstOp(mnemonic: string)
    | InstNoMask
    | InstExecInfo(execSize: ExecSize, chOff: ChannelOffset)
    | InstPredication(inverted: bool, flagReg: RegRef, predCtrl: PredCtrl)
    | InstSubfunction(sf: Subfunction)
    | InstFlagModifier(flagReg: RegRef, flagMod: FlagModifier)
    | InstDstOpSaturate
    | InstDstOpRegDirect(reg: RegName, rr: RegRef, hz: Horz, ty: Type)
    | InstDstOpRegMathMacroExtReg(reg: RegName, regNum: int, mme: MathMacroExt, hz: Horz, ty: Type)
    | InstDstOpRegIndirect(addr: RegRef, addrOff: int, hz: Horz, ty: Type)
    | InstSrcOpRegDirect(ix: nat, mods: SrcModifier, reg: RegName, rr: RegRef, rgn: Region, ty: Type)
    | InstSrcOpRegMathMacroExtReg(ix: nat, mods: SrcModifier, reg: RegName, regNum: int,
                                  mme: MathMacroExt, rgn: Region, ty: Type)
    | InstSrcOpRegIndirect(ix: nat, mods: SrcModifier, addr: RegRef, addrOff: int, rgn: Region, ty: Type)
    | InstSrcOpImmValue(ix: nat, val: ImmVal, ty: Type)
    | InstSrcOpImmLabelAbsolute(ix: nat, pc: int, ty: Type)
    | InstSrcOpImmLabelRelative(ix: nat, pc: int, ty: Type)
    | InstSrcOpImmLabel(ix: nat, symbol: string, ty: Type)
    | InstSendDescs(exDesc: SendDesc, desc: SendDesc)
    | InstOptsAdd(opts: set<InstOpt>)
    | InstDepInfoSBidDst(sbid: nat)
    | InstDepInfoSBidSrc(sbid: nat)
    | InstDepInfoSBidAlloc(sbid: nat)
    | InstDepInfoDist(dist: nat)

  /** The source slot and operand kind a source-operand callback reports. */
  function SrcOperandOf(e: Event): Option<(nat, OperandKind)> {
    match e
    case InstSrcOpRegDirect(ix, _, _, _, _, _) => Some((ix, DIRECT))
    case InstSrcOpRegMathMacroExtReg(ix, _, _, _, _, _, _) => Some((ix, DIRECT))
    case InstSrcOpRegIndirect(ix, _, _, _, _, _) => Some((ix, INDIRECT))
    case InstSrcOpImmValue(ix, _, _) => Some((ix, IMMEDIATE))
    case InstSrcOpImmLabelAbsolute(ix, _, _) => Some((ix, IMMEDIATE))
    case InstSrcOpImmLabelRelative(ix, _, _) => Some((ix, IMMEDIATE))
    case InstSrcOpImmLabel(ix, _, _) => Some((ix, LABEL))
    case _ => None
  }

  /** The destination-operand callbacks. */
  predicate IsDstOperand(e: Event) {
    e.InstDstOpRegDirect? || e.InstDstOpRegMathMacroExtReg? || e.InstDstOpRegIndirect?
  }
}
