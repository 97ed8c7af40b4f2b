// Which check of the parser fired.  The model records which diagnostic is
// raised, and whether it aborts the instruction (a thrown SyntaxError), is
// recorded as an error, or is only a warning; not its text or location.
module Diags {
  /** Failures: a SyntaxError thrown by Fail*, or an error recorded without
    * throwing (ErrorT/ErrorAtT). */
  datatype Diag =
    // expression evaluation
    | LeftOperandMustBeIntegral | RightOperandMustBeIntegral
    | LeftOperandMustBeFloating | RightOperandMustBeFloating
    | IntegralDivisionByZero | ArgumentMustBeIntegral
    | UndefinedBehaviour
    | NanPayloadOverflows | NanPayloadMustBeNonzero
    | LabelArithmetic | NonBranchingSymbol | ConstExprSyntax
    // token-level expectations (ConsumeOrFail, ConsumeIntLitOrFail, ...)
    | ExpectedRParen | ExpectedRBrack | ExpectedRBrace | ExpectedLBrack
    | ExpectedRAngle | ExpectedSemi | ExpectedComma | ExpectedPipe | ExpectedDot
    | ExpectedSimdWidth | InvalidSimdWidth | ExpectedExecInfo
    | ExpectedChOff | InvalidChOff
    // program structure and directives
    | ExpectedInstBlockOrEof | ExpectedDefaultSimdWidth | InvalidDefaultExecSize
    | ExpectedDefaultRegisterType | UnexpectedDirective
    | InvalidMnemonic | ExpectedNewlineSemiOrEof
    // instruction prefix, mnemonic and subfunction
    | ExpectedPredCtrl | InvalidPredCtrl
    | ExpectedBranchCtrl | SaturationAfterMnemonic | FlagModifierAfterMnemonic
    | UnexpectedDotAfterMnemonic | ExpectedSubfunction | InvalidSubfunction
    // flag modifiers and flag registers
    | ExpectedFlagModifier | FlagRegisterMismatch
    | ExpectedFlagRegister | UnexpectedFlagRegister | ExpectedFlagSubregister
    | FlagSubregisterOutOfBounds
    // operands
    | Src0MustBeRegister | Src0MustBeNotificationRegister | SrcMustBeLabel
    | InvalidDstRegister | InvalidDstRegisterNumber
    | InvalidSendDstRegister | SendDstIndirectForm
    | ExpectedMathMacroReg | ExpectedSubregister
    | SubregOutOfBoundsForType
    | ExpectedAddrSubregister | ExpectedIndirectOffset | IndirectOffsetOutOfRange
    | ExpectedA0 | ExpectedAddrDot | ExpectedAddrSubregNum
    | ExpectedDstRegion | InvalidDstRegion
    | SourceModifierNotSupported | UnexpectedPipe | UnboundIdentifier
    | ExpectedSourceOperand
    | ExpectedSrcRegion | InvalidRegionVertStride | InvalidRegionWidth | InvalidRegionHorzStride
    | ExpectedVertStride | ExpectedWidth | ExpectedHorzStride
    | LiteralMustBeIntegral | IntegerFloatLiteralMustBeHex | HexLiteralTooBig
    // types
    | ExpectedSendOperandType | UnexpectedSendOperandType
    | ExpectedDstType | ExpectedSrcType
    // send descriptors
    | ExpectedExDesc | DescMustBeIntegral | ExDescLowBitsNonzero
    | ExDescTypeless | DescTypeless
    // instruction options
    | InvalidInstOpt | AtomicUnsupported | AtomicWithSwitch | AtomicWithNoPreempt
    | CompactedWithNoCompact | NoCompactWithCompacted | EotOnNonSend
    | NoMaskOption | ObsoleteMaskOption | DuplicateInstOpt
    | NoDDChkUnsupported | NoDDClrUnsupported | NoPreemptUnsupported | NoSrcDepSetUnsupported
    | SwDepsUnsupported | ExpectedSbid | InvalidSbidDirective | SbidSyntax | ExpectedDistance

  /** Warnings (WarningT/WarningS/WarningAtT). */
  datatype Warn =
    | NanDeprecated | BareNanDeprecated
    | MmeViaAcc | RegisterNumberOutOfBounds
    | JmpiWithoutWrEn
    | DeprecatedFlagModBrackets | DeprecatedFlagModSpelling
    | OldStyleMathMacroReg
    | SendSubregDeprecated | SendRegionDeprecated
    | DstSubregOutOfBounds | DstAccessGranularity
    | SrcSubregOutOfBounds | SrcAccessGranularity
    | RegionShouldBeImplicit
    | LiteralOutOfBounds
    | ImplicitDstTypeShouldBeOmitted | ImplicitSrcTypeShouldBeOmitted
    | IgnoringSwitch

  /** The result of a parse step: a value, or the SyntaxError that unwinds. */
  datatype Res<T> = Ok(value: T) | Fail(d: Diag)
  {
    predicate IsFailure() { Fail? }
    function PropagateFailure<U>(): Res<U> requires Fail? { Fail(d) }
    function Extract(): T requires Ok? { value }
  }

  type Status = Res<()>
}
