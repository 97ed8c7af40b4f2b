# IGA kernel parser and zeBinary builder, modelled in Dafny

This project models two parts of the Intel Graphics Compiler.

**The IGA assembler front end** (`GenParser` and `KernelParser` in
`KernelParser.cpp`). It reads a token stream of GEN assembly and drives an
instruction builder with callbacks: ProgramStart, BlockStart, InstStart, the
predication, the mnemonic and subfunction, the execution size, the flag
modifier, the operands, the options, InstEnd, BlockEnd and ProgramEnd. The
model is split into modules:

- `ImmVals` (imm.dfy): 64-bit immediate values and `evalBinExpr`, including
  C++ truncating division and the points where C++ behaviour is undefined.
- `Exprs` (exprs.dfy): the constant-expression grammar, from
  `parseBitwiseExpr` down to `parsePrimary`, as functions.
- `Narrowing` (narrow.dfy): how `FinishSrcOpImmValue` converts and narrows a
  literal to the operand type.
- `Registers` (regs.dfy): register-name splitting (`LookupReg`, `PeekReg`).
- `Target` (target.dfy): the fixed syntax tables and the platform queries.
- `Syntax` (syntax.dfy): one grammar function per syntactic form (regions,
  indirect operands, types, predication, flag modifiers, subfunctions,
  directives).
- `InstOptions` (options.dfy): `InstOptSet` and the instruction-option
  grammar.
- `Parser` (parser.dfy): a `KernelParser` class. It holds the token cursor,
  the per-instruction fields, the builder callback log, and the errors and
  warnings. Each parse method is proved to do what the matching grammar
  function in `Syntax`, `Exprs` or `InstOptions` says.
- `Kernels` (kernel.dfy): `ParseGenKernel`, which runs the parser and then
  numbers the kernel's blocks.

A C++ `SyntaxError` is a `Fail(diag)` result. Class state changed before
the throw stays changed, as in C++. Errors recorded without a throw
(`ErrorT`) and caught syntax errors share the `errors` log. Parsing stops
once that log holds `maxSyntaxErrors` entries.

**The zeBinary builder** (`ZEBinaryBuilder` in `zebin_builder.cpp`, module
`ZeBinary` in zebin.dfy). It covers:

- the ELF type and binding of each symbol;
- the symbol table that `addSymbols` builds;
- the data and bss sections of the constant and global buffers
  (`addGlobalConstants`, `addGlobals`);
- the local-ID payload argument (`addLocalIds`);
- the per-thread memory buffers (`addMemoryBuffer`).

The builder is a class. Its section list, symbol list and section-ID fields
change in place. A section's ID is its index in the list of sections added.

## Model

Source paths are relative to the repository root.

| member | source | states |
|---|---|---|
| ImmVals.KindPartition | visa/iga/IGALibrary/Frontend/KernelParser.cpp:355-389 | the kind predicates partition the tags: no value is both floating and integral, or both signed and unsigned, and only Undef is neither |
| ImmVals.BitNot | visa/iga/IGALibrary/Frontend/KernelParser.cpp:628-649 | `~` flips all 64 bits: the result plus the operand is 2^64-1 |
| ImmVals.TruncDivRem | visa/iga/IGALibrary/Frontend/KernelParser.cpp:520-570 | C++ signed / and % truncate toward zero: q*y + r == x, abs(r) < abs(y), and a nonzero r has the dividend's sign |
| ImmVals.EvalBinExprOutcomes | visa/iga/IGALibrary/Frontend/KernelParser.cpp:424-570 | in both directions: the integral-only operators reject a floating operand, naming the left one first; the arithmetic operators reject mixing floating and integral operands, in either order; integral division by zero is reported; every other error is one of these; a value keeps the left operand's kind |
| ImmVals.EvalBinExprUndefined | visa/iga/IGALibrary/Frontend/KernelParser.cpp:453-570 | evaluation reaches C++ undefined behaviour exactly for a shift count of 64 or more, % by zero, and signed INT64_MIN / -1 or % -1 |
| ImmVals.EvalBinExprFloating | visa/iga/IGALibrary/Frontend/KernelParser.cpp:453-520 | two floating operands of + - * / give the floating operation's result, tagged with the left kind |
| ImmVals.EvalBinExprWraps | visa/iga/IGALibrary/Frontend/KernelParser.cpp:453-570 | integral + - * wrap modulo 2^64, and the result equals the mathematical s64 result whenever that result fits |
| ImmVals.SignedViewAgrees | visa/iga/IGALibrary/Frontend/KernelParser.cpp:453-570 | the unsigned and the signed evaluation of + - * give the same 64-bit word |
| ImmVals.SignedRoundTrip | visa/iga/IGALibrary/Frontend/KernelParser.cpp:453-570 | an s64 value survives being stored in the word and read back |
| ImmVals.EvalBinExprDivMod | visa/iga/IGALibrary/Frontend/KernelParser.cpp:520-570 | integral / and % on the same operands satisfy (a / b) * b + a % b == a, in the unsigned or the signed domain as C++ picks it |
| Exprs.Bitwise | visa/iga/IGALibrary/Frontend/KernelParser.cpp:574-585 | parseBitwiseExpr never moves the cursor back or past the end; returning true consumes a token; backing off consumes nothing and changes neither the value nor the warnings; its value over any number of operands is stated by Exprs.BitwiseIsRightFold |
| Exprs.BitwiseTail | visa/iga/IGALibrary/Frontend/KernelParser.cpp:574-585 | the `&`/`|` loop never backs off and keeps the cursor within the tokens; its value over any number of operands is stated by Exprs.BitwiseTailIsRightFold |
| Exprs.Shift | visa/iga/IGALibrary/Frontend/KernelParser.cpp:587-598 | parseShiftExpr keeps the cursor and back-off contract; its value over any number of operands is stated by Exprs.ShiftIsLeftFold |
| Exprs.ShiftTail | visa/iga/IGALibrary/Frontend/KernelParser.cpp:587-598 | the `<<`/`>>` loop never backs off and keeps the cursor within the tokens; its value is stated by Exprs.ShiftTailIsLeftFold |
| Exprs.Additive | visa/iga/IGALibrary/Frontend/KernelParser.cpp:600-611 | parseAddExpr keeps the cursor and back-off contract; its value over any number of operands is stated by Exprs.AdditiveIsLeftFold |
| Exprs.AdditiveTail | visa/iga/IGALibrary/Frontend/KernelParser.cpp:600-611 | the `+`/`-` loop never backs off and keeps the cursor within the tokens; its value is stated by Exprs.AdditiveTailIsLeftFold |
| Exprs.Multiplicative | visa/iga/IGALibrary/Frontend/KernelParser.cpp:614-625 | parseMulExpr keeps the cursor and back-off contract; its value over any number of operands is stated by Exprs.MultiplicativeIsLeftFold |
| Exprs.MultiplicativeTail | visa/iga/IGALibrary/Frontend/KernelParser.cpp:614-625 | the `*`/`/`/`%` loop never backs off and keeps the cursor within the tokens; its value is stated by Exprs.MultiplicativeTailIsLeftFold |
| Exprs.Unary | visa/iga/IGALibrary/Frontend/KernelParser.cpp:628-649 | parseUnExpr keeps the cursor and back-off contract |
| Exprs.NanSymbol | visa/iga/IGALibrary/Frontend/KernelParser.cpp:662-697 | after qnan or snan the result never backs off, and the cursor stays within the tokens |
| Exprs.NanPayload | visa/iga/IGALibrary/Frontend/KernelParser.cpp:667-684 | a payload never backs off, and the cursor stays within the tokens and moves past the '(' on success |
| Exprs.Primary | visa/iga/IGALibrary/Frontend/KernelParser.cpp:654-773 | parsePrimary keeps the cursor and back-off contract |
| Exprs.LiteralOperand | visa/iga/IGALibrary/Frontend/KernelParser.cpp:654-773 | an integer literal operand reads as its 64-bit pattern tagged s64, one token consumed |
| Exprs.TailsStop | visa/iga/IGALibrary/Frontend/KernelParser.cpp:574-625 | a token that is no operator of a level ends that level's loop with the value unchanged |
| Exprs.Levels | visa/iga/IGALibrary/Frontend/KernelParser.cpp:574-625 | an operand that parses is followed by each precedence level's loop in turn |
| Exprs.LiteralExpression | visa/iga/IGALibrary/Frontend/KernelParser.cpp:574-773 | a single literal followed by no operator is a whole expression with the literal's value |
| Exprs.MultiplicativeFold | visa/iga/IGALibrary/Frontend/KernelParser.cpp:614-625 | an operand, an operator and a right operand, none of them warning, make the first turn of the loop |
| Exprs.AdditiveFold | visa/iga/IGALibrary/Frontend/KernelParser.cpp:600-611 | as MultiplicativeFold, for `+` and `-` |
| Exprs.ShiftFold | visa/iga/IGALibrary/Frontend/KernelParser.cpp:587-598 | as MultiplicativeFold, for the shifts |
| Exprs.BitwiseFold | visa/iga/IGALibrary/Frontend/KernelParser.cpp:574-585 | as MultiplicativeFold, for `&` and `|` |
| Exprs.MultiplicativeOnly | visa/iga/IGALibrary/Frontend/KernelParser.cpp:600-625 | a multiplicative result followed by no additive operator is the additive result too |
| Exprs.AdditiveOnly | visa/iga/IGALibrary/Frontend/KernelParser.cpp:587-611 | an additive result followed by no shift operator is the shift result too |
| Exprs.ShiftOnly | visa/iga/IGALibrary/Frontend/KernelParser.cpp:574-598 | a shift result followed by no bitwise operator is the bitwise result too |
| Exprs.BitwiseOnly | visa/iga/IGALibrary/Frontend/KernelParser.cpp:574-585 | a bitwise result followed by no bitwise operator is the whole expression |
| Exprs.MultiplicativeTailIsLeftFold | visa/iga/IGALibrary/Frontend/KernelParser.cpp:614-625 | for any number of `*`, `/`, `%` operators each followed by a unary operand that parses, the loop gives the left fold ((x op1 y1) op2 y2)... of the operands' values with the cursor and warnings after the last operand, or stops with the first failing evaluation's error or undefined behaviour |
| Exprs.AdditiveTailIsLeftFold | visa/iga/IGALibrary/Frontend/KernelParser.cpp:600-611 | the same left fold for any number of `+`, `-` operators whose operands are whole multiplicative expressions |
| Exprs.ShiftTailIsLeftFold | visa/iga/IGALibrary/Frontend/KernelParser.cpp:587-598 | the same left fold for any number of `<<`, `>>` operators whose operands are whole additive expressions |
| Exprs.BitwiseTailIsRightFold | visa/iga/IGALibrary/Frontend/KernelParser.cpp:574-585 | for any number of `&`, `|` operators each followed by a shift operand that parses, the loop gives the right fold x op1 (y1 op2 (y2 ...)), innermost operator first, or stops with the first failure |
| Exprs.MultiplicativeIsLeftFold | visa/iga/IGALibrary/Frontend/KernelParser.cpp:614-625 | parseMulExpr is its first operand followed by the left fold of the rest |
| Exprs.AdditiveIsLeftFold | visa/iga/IGALibrary/Frontend/KernelParser.cpp:600-611 | parseAddExpr folds whole multiplicative operands to the left, so `*`, `/`, `%` bind tighter than `+`, `-` |
| Exprs.ShiftIsLeftFold | visa/iga/IGALibrary/Frontend/KernelParser.cpp:587-598 | parseShiftExpr folds whole additive operands to the left, so `+`, `-` bind tighter than the shifts |
| Exprs.BitwiseIsRightFold | visa/iga/IGALibrary/Frontend/KernelParser.cpp:574-585 | parseBitwiseExpr folds whole shift operands to the right, so the shifts bind tighter than `&`, `|`, which group to the right |
| Exprs.MultiplicationBindsTighter | visa/iga/IGALibrary/Frontend/KernelParser.cpp:574-625 | `a + b * c` evaluates b * c first, whatever the evaluator |
| Exprs.SubtractionFoldsLeft | visa/iga/IGALibrary/Frontend/KernelParser.cpp:600-611 | `a - b - c` is (a - b) - c |
| Exprs.BitwiseGroupsRight | visa/iga/IGALibrary/Frontend/KernelParser.cpp:574-585 | `a & b | c` is a & (b | c): the right operand is a whole bitwise expression |
| Exprs.LiteralShift | visa/iga/IGALibrary/Frontend/KernelParser.cpp:587-625 | a literal followed by no arithmetic or shift operator is a whole shift expression |
| Exprs.ShiftBindsLooser | visa/iga/IGALibrary/Frontend/KernelParser.cpp:587-611 | `a << b + c` shifts by the sum |
| Exprs.ShiftCount | visa/iga/IGALibrary/Frontend/KernelParser.cpp:600-625 | the shift count `b + c` of ShiftBindsLooser is the evaluated sum |
| Exprs.UndefinedStops | visa/iga/IGALibrary/Frontend/KernelParser.cpp:453-625 | an operator whose evaluation is undefined behaviour stops the parse at that operator |
| Exprs.CaretEndsExpression | visa/iga/IGALibrary/Frontend/KernelParser.cpp:574-625 | `^` is no operator of the grammar: `a ^ b` ends after a |
| Exprs.DoubleNegationRejected | visa/iga/IGALibrary/Frontend/KernelParser.cpp:628-649 | a unary operator applies to a primary only, so `--a` is a syntax error |
| Exprs.ComplementOfLiteral | visa/iga/IGALibrary/Frontend/KernelParser.cpp:628-649 | `~a` complements all 64 bits of a literal |
| Exprs.ComplementOfFloatRejected | visa/iga/IGALibrary/Frontend/KernelParser.cpp:628-649 | `~` on a floating value fails |
| Exprs.UnclosedGroupAccepted | visa/iga/IGALibrary/Frontend/KernelParser.cpp:654-773 | a group missing its `)` is accepted, with the inner expression's value and the cursor after it |
| Exprs.UnparsedOperand | visa/iga/IGALibrary/Frontend/KernelParser.cpp:574-625 | an operand that backs off, throws or reaches undefined behaviour decides the whole expression |
| Exprs.IdentifierOperand | visa/iga/IGALibrary/Frontend/KernelParser.cpp:654-773 | an identifier opening an expression backs off in a branching op or mov (it is a label) and fails elsewhere; after an operator it fails in a branching op or mov and backs off elsewhere |
| Exprs.BackedOffOperand | visa/iga/IGALibrary/Frontend/KernelParser.cpp:574-625 | a right operand that backs off leaves the operator applied to a default-constructed value, with the cursor just past the operator |
| Exprs.IdentifierAfterOperator | visa/iga/IGALibrary/Frontend/KernelParser.cpp:574-773 | in a non-branching op, `a + x` with x an identifier applies + to a default value and ends before x |
| Exprs.QuietNanPayload | visa/iga/IGALibrary/Frontend/KernelParser.cpp:662-697 | qnan(x) with x < 2^51 is the quiet NaN with payload x; a larger payload fails as an overflow |
| Exprs.SignalingNanPayload | visa/iga/IGALibrary/Frontend/KernelParser.cpp:662-697 | snan(x) with 0 < x < 2^51 is the signaling NaN with payload x; a zero payload or an overflowing one fails |
| Exprs.BareNans | visa/iga/IGALibrary/Frontend/KernelParser.cpp:656-697 | nan, and qnan and snan without a payload, are binary64 NaNs, quiet exactly for qnan, each with its deprecation warning appended |
| Narrowing.ByteLiteral | visa/iga/IGALibrary/Frontend/KernelParser.cpp:2476-2500 | :b warns exactly when the s64 value is outside [-128, 127], then keeps the low 8 bits sign-extended |
| Narrowing.ByteWarnsIffTruncated | visa/iga/IGALibrary/Frontend/KernelParser.cpp:2346-2500 | the :b bounds warning is given exactly when narrowing changes the value |
| Narrowing.UnsignedKeepsIffFits | visa/iga/IGALibrary/Frontend/KernelParser.cpp:2476-2525 | :ub, :uw and :ud keep a literal unchanged exactly when it fits in 8, 16 or 32 bits |
| Narrowing.WordAndDwordNeverWarn | visa/iga/IGALibrary/Frontend/KernelParser.cpp:2476-2525 | :w and :d sign-extend before the bounds check, so the check never fires and a too-large literal is truncated silently |
| Narrowing.UnsignedAndQuadLiterals | visa/iga/IGALibrary/Frontend/KernelParser.cpp:2476-2540 | :ub, :uw and :ud keep the low bits unchecked; :q and :uq keep all 64 bits, and :q's check cannot fire |
| Narrowing.FloatBitLiterals | visa/iga/IGALibrary/Frontend/KernelParser.cpp:2370-2473 | a decimal integer literal cannot give a floating type's bits unless it is 0; a hex or binary one keeps its bits, which must fit in 16 bits for :hf |
| Narrowing.NanNarrowing | visa/iga/IGALibrary/Frontend/KernelParser.cpp:2370-2473 | a floating literal narrowed to :hf or :f fails when it is a NaN whose payload the narrower format cannot hold |
| Narrowing.NarrowedKind | visa/iga/IGALibrary/Frontend/KernelParser.cpp:2360-2553 | every conversion that does not throw tags the value with the kind its type names (packed vectors as u32) |
| Registers.NonDigitPrefix | visa/iga/IGALibrary/Frontend/KernelParser.cpp:266-306 | the register-file name is the longest prefix without a digit: the character after it, if any, is a digit |
| Registers.DecimalRoundTrip | visa/iga/IGALibrary/Frontend/KernelParser.cpp:266-306 | writing a register number in decimal and reading it back gives the number |
| Registers.PrefixOfNameAndDigits | visa/iga/IGALibrary/Frontend/KernelParser.cpp:266-306 | the name part of a digit-free name followed by digits is that name |
| Registers.LookupRegRoundTrip | visa/iga/IGALibrary/Frontend/KernelParser.cpp:266-306 | the spelling of a file's name plus a number looks up as that file and number; an unnumbered file's bare name looks up as register 0 |
| Registers.NotARegister | visa/iga/IGALibrary/Frontend/KernelParser.cpp:266-306 | a token with a leading digit, or with letters after a numbered file's number, is no register |
| Registers.AccNamesMme | visa/iga/IGALibrary/Frontend/KernelParser.cpp:308-340 | an accumulator number k past the mme base names mme register k |
| Target.SourceTypesExtendDestinationTypes | visa/iga/IGALibrary/Frontend/KernelParser.cpp:65-122 | SRC_TYPES is DST_TYPES plus exactly v, uv and vf; shared suffixes name the same type; no suffix names INVALID |
| Target.ExecSizeOf | visa/iga/IGALibrary/Frontend/KernelParser.cpp:223-230 | a width names an execution size exactly when it is 1, 2, 4, 8, 16 or 32, and that size has that many lanes |
| Target.ExecSizeOfLanes | visa/iga/IGALibrary/Frontend/KernelParser.cpp:223-230 | every execution size is named by its own lane count |
| Target.VertOf | visa/iga/IGALibrary/Frontend/KernelParser.cpp:2288-2306 | vertical strides are exactly 0, 1, 2, 4, 8, 16, 32 |
| Target.WidthOf | visa/iga/IGALibrary/Frontend/KernelParser.cpp:2309-2325 | widths are exactly 1, 2, 4, 8, 16 |
| Target.HorzOf | visa/iga/IGALibrary/Frontend/KernelParser.cpp:2328-2343 | horizontal strides are exactly 0, 1, 2, 4 |
| Target.DstHorzOf | visa/iga/IGALibrary/Frontend/KernelParser.cpp:1805-1830 | a destination stride is exactly 1, 2 or 4, and is the same stride as for a source |
| Syntax.IntLitAt | visa/iga/IGALibrary/Frontend/KernelParser.cpp:180-181 | an integer literal is accepted exactly when the token is one, giving its value and the next position; otherwise the given diagnostic |
| Syntax.ExecInfoRoundTrip | visa/iga/IGALibrary/Frontend/KernelParser.cpp:165-235 | "(N\|Mk)" spelled from a size's lane count and an offset's name parses back to that size and offset; "(N)" gives M0 |
| Syntax.ExecInfoBadWidth | visa/iga/IGALibrary/Frontend/KernelParser.cpp:165-235 | a well-formed execution info whose width is not 1, 2, 4, 8, 16 or 32 fails with "invalid SIMD width" |
| Syntax.RegionStrides | visa/iga/IGALibrary/Frontend/KernelParser.cpp:2097-2132 | "<v;w,h>" is accepted exactly when v, w and h are a vertical stride, a width and a horizontal stride; the first out-of-set value names the failure |
| Syntax.DstRegionStrides | visa/iga/IGALibrary/Frontend/KernelParser.cpp:1805-1830 | a destination region "<h>" is accepted exactly for 1, 2, 4; 0 and any other value fail |
| Syntax.SendSourceDefaultRegion | visa/iga/IGALibrary/Frontend/KernelParser.cpp:2202-2220 | a send source with no implicit region defaults to <0;1,0> for null and <1;1,0> for any other register |
| Syntax.ScalarDefaultRegions | visa/iga/IGALibrary/Frontend/KernelParser.cpp:2097-2200 | with an explicit subregister or one channel, every unwritten non-send region has horizontal stride 0 |
| Syntax.IndOffsetAt | visa/iga/IGALibrary/Frontend/KernelParser.cpp:1751-1782 | an accepted indirect offset lies in [-512, 511] |
| Syntax.IndArgsAt | visa/iga/IGALibrary/Frontend/KernelParser.cpp:1751-1782 | the offset of accepted indirect arguments lies in [-512, 511] |
| Syntax.IndAddrOffsetAt | visa/iga/IGALibrary/Frontend/KernelParser.cpp:1751-1782 | after '[', the accepted offset lies in [-512, 511] |
| Syntax.AddressCheckAcceptsRegisterZero | visa/iga/IGALibrary/Frontend/KernelParser.cpp:1834-1851 | the a0 check accepts any register numbered 0, so "[r0.2]" parses as if a0.2 were written |
| Syntax.IndirectOffsets | visa/iga/IGALibrary/Frontend/KernelParser.cpp:1751-1782 | ", k", ", -k", "+ k" and "- k" give +k or -k, no offset gives 0, and an offset outside [-512, 511] fails |
| Syntax.TypeDefaultOrder | visa/iga/IGALibrary/Frontend/KernelParser.cpp:2722-2744 | a written type consumes its two tokens and none written consumes nothing; the legacy default register type is the first fallback; there is no fallback exactly when that is unset and the operation is no send, no simplified-branch branch and not sync |
| Syntax.FlagRegisters | visa/iga/IGALibrary/Frontend/KernelParser.cpp:3032-3060 | only f0 and f1 are flag registers; a parsed one is register 0 or 1, and its subregister is flagged unless it is 0 or 1 |
| Syntax.SkipPastNewline | visa/iga/IGALibrary/Frontend/KernelParser.cpp:915-937 | the resync never moves back or past the end, and moves forward unless at the end of file |
| Syntax.SkipPastNewlineStops | visa/iga/IGALibrary/Frontend/KernelParser.cpp:915-937 | the resync stops just past the first newline, crossing no end of file, or at the first end of file, crossing no newline |
| Syntax.SrcModsAt | visa/iga/IGALibrary/Frontend/KernelParser.cpp:2588-2599 | no modifier exactly when nothing is consumed; negation exactly when '-' or '~' comes first; an opening '\|' means an absolute value |
| Syntax.MathMacroAt | visa/iga/IGALibrary/Frontend/KernelParser.cpp:1626-1651 | an accepted math macro register is '.' and one identifier; the old acc spelling is accepted only before XE; failure is "expected math macro register" |
| Syntax.OldStyleMathMacroRegs | visa/iga/IGALibrary/Frontend/KernelParser.cpp:123-145 | acc(k+2) names the same register as mmek but warns, and is refused from XE on |
| Syntax.DstSubregCheck | visa/iga/IGALibrary/Frontend/KernelParser.cpp:1716-1734 | no type, no check; a subregister the file does not have is an error on a GRF and a warning elsewhere; otherwise a type narrower than the access granularity warns |
| Syntax.SrcSubregCheck | visa/iga/IGALibrary/Frontend/KernelParser.cpp:2058-2070 | no type, no warning; the subregister warning only when the register number itself is valid; the granularity warning only for a type narrower than the file's granularity |
| Syntax.PredCtrlAt | visa/iga/IGALibrary/Frontend/KernelParser.cpp:1228-1259 | no '.' after the flag register means SEQ and nothing consumed |
| Syntax.FlagModFuncAt | visa/iga/IGALibrary/Frontend/KernelParser.cpp:1509-1527 | no '(' is no flag modifier; an accepted one spans three tokens; the legacy mark is set only for names outside FLAGMODS |
| Syntax.SubfunctionAt | visa/iga/IGALibrary/Frontend/KernelParser.cpp:1454-1478 | a subfunction needs a '.', else "expected subfunction"; an accepted one spans two tokens |
| Syntax.DirectiveAt | visa/iga/IGALibrary/Frontend/KernelParser.cpp:870-913 | an accepted directive consumes tokens and never sets the register type to INVALID; an unknown directive name fails |
| Syntax.ExecSizeDirectiveAt | visa/iga/IGALibrary/Frontend/KernelParser.cpp:880-895 | an accepted ".default_execution_size" sets an execution size and consumes tokens |
| Syntax.ExecSizeTailAt | visa/iga/IGALibrary/Frontend/KernelParser.cpp:880-895 | the width after the '(' gives an execution-size directive, and the cursor stays within the tokens |
| Syntax.RegTypeDirectiveAt | visa/iga/IGALibrary/Frontend/KernelParser.cpp:895-905 | an accepted ".default_register_type" gives a real (non-INVALID) type and consumes tokens |
| Syntax.DirectivesAt | visa/iga/IGALibrary/Frontend/KernelParser.cpp:870-913 | the loop consumes nothing exactly when no '.' and identifier follow, and then keeps both defaults |
| Syntax.PredAt | visa/iga/IGALibrary/Frontend/KernelParser.cpp:1228-1259 | a predication consumes tokens, is on f0 or f1, and is inverted exactly when '~' comes first |
| Syntax.WrEnPredAt | visa/iga/IGALibrary/Frontend/KernelParser.cpp:1209-1224 | no '(' means neither write-enable nor predication and nothing consumed; otherwise at least one of them, ending at ')' |
| Syntax.WrEnPredBodyAt | visa/iga/IGALibrary/Frontend/KernelParser.cpp:1209-1224 | after '(', write-enable or a predication, ending at ')' |
| Syntax.WrEnTailAt | visa/iga/IGALibrary/Frontend/KernelParser.cpp:1209-1224 | after "(W", write-enable is on, ending at ')' |
| Syntax.PredCloseAt | visa/iga/IGALibrary/Frontend/KernelParser.cpp:1209-1224 | a predication followed by ')' |
| Syntax.WrEnPredForms | visa/iga/IGALibrary/Frontend/KernelParser.cpp:1209-1224 | "(W)" is write-enable alone; "(W&" with a predication is both; a predication alone leaves write-enable off |
| Syntax.PredDefaultsToSeq | visa/iga/IGALibrary/Frontend/KernelParser.cpp:1228-1259 | a predication with no '.' after its flag register has control SEQ and ends there |
| Syntax.SubfunctionSuffixAt | visa/iga/IGALibrary/Frontend/KernelParser.cpp:1386-1451 | the subfunction suffix consumes at most two tokens, and none when there is no subfunction |
| Syntax.DotAfterMnemonic | visa/iga/IGALibrary/Frontend/KernelParser.cpp:1430-1450 | a leftover '.' after the mnemonic fails exactly when it is there |
| Syntax.SubfunctionSuffixes | visa/iga/IGALibrary/Frontend/KernelParser.cpp:1386-1451 | branch control is off exactly when ".b" is missing; math and sync need '.' and a function; send and sendc before XE read no suffix |
| Syntax.FlagModOptAt | visa/iga/IGALibrary/Frontend/KernelParser.cpp:1480-1507 | no flag modifier consumes nothing; an accepted one gives its function, register and the legacy and bracket marks |
| Syntax.FlagModOptFrom | visa/iga/IGALibrary/Frontend/KernelParser.cpp:1480-1507 | after the optional '[': an absent modifier is accepted only without '[' and consumes nothing; an accepted one names f0 or f1, agrees with the predication's register, and is bracketed exactly when '[' was there |
| Syntax.FlagModRegisters | visa/iga/IGALibrary/Frontend/KernelParser.cpp:1480-1542 | with predication the flag modifier's register must be the predication's; without, any flag register is taken; a '[' must open a flag modifier |
| Syntax.DescImmOf | visa/iga/IGALibrary/Frontend/KernelParser.cpp:2760-2822 | an immediate descriptor keeps the low 32 bits: below 2^32, and unchanged when it already fits |
| InstOptions.InstOptSet.constructor | visa/iga/IGALibrary/Frontend/KernelParser.cpp:2828-2843 | a fresh option set is empty |
| InstOptions.InstOptSet.Add | visa/iga/IGALibrary/Frontend/KernelParser.cpp:2845-2852 | add puts the option in the set and reports whether it was new |
| InstOptions.IdentOptAt | visa/iga/IGALibrary/Frontend/KernelParser.cpp:2854-3029 | an accepted named option consumes exactly its identifier and makes no builder callback |
| InstOptions.SwsbAt | visa/iga/IGALibrary/Frontend/KernelParser.cpp:2948-3029 | an accepted scoreboard annotation leaves the option set and the warnings unchanged and moves the cursor forward |
| InstOptions.DistAt | visa/iga/IGALibrary/Frontend/KernelParser.cpp:2948-3029 | an accepted "@n" leaves the option set and the warnings unchanged and moves the cursor forward |
| InstOptions.SbidAt | visa/iga/IGALibrary/Frontend/KernelParser.cpp:2948-3029 | an accepted "$n" leaves the option set and the warnings unchanged and moves the cursor forward |
| InstOptions.SbidTailAt | visa/iga/IGALibrary/Frontend/KernelParser.cpp:2948-3029 | ".dst", ".src" or nothing after the scoreboard id leaves the option set and the warnings unchanged |
| InstOptions.InstOptAt | visa/iga/IGALibrary/Frontend/KernelParser.cpp:2845-2852 | an accepted option moves the cursor forward, within the tokens |
| InstOptions.InstOptsTail | visa/iga/IGALibrary/Frontend/KernelParser.cpp:2828-2843 | the ','-separated options never move the cursor back or past the end |
| InstOptions.InstOptsAt | visa/iga/IGALibrary/Frontend/KernelParser.cpp:2828-2843 | an accepted option list never moves the cursor back or past the end |
| InstOptions.BracedOptsAt | visa/iga/IGALibrary/Frontend/KernelParser.cpp:2828-2843 | an accepted list after '{' consumes at least its '}' |
| InstOptions.FirstOptAt | visa/iga/IGALibrary/Frontend/KernelParser.cpp:2828-2843 | the first option, if any, never moves the cursor back or past the end |
| InstOptions.DuplicateOptionFails | visa/iga/IGALibrary/Frontend/KernelParser.cpp:2854-2946 | an option already in the set fails as a duplicate once its own checks pass |
| InstOptions.ExclusiveOptions | visa/iga/IGALibrary/Frontend/KernelParser.cpp:2854-2946 | Compacted and NoCompact exclude each other in either order; Atomic fails after Switch or NoPreempt, but Switch after Atomic is accepted |
| InstOptions.RejectedOptions | visa/iga/IGALibrary/Frontend/KernelParser.cpp:2854-2946 | EOT outside a send fails; NoMask and the obsolete mask options always fail |
| InstOptions.InstOptKeepsCoherent | visa/iga/IGALibrary/Frontend/KernelParser.cpp:2845-2946 | one accepted option keeps the set coherent: never Compacted with NoCompact, EOT only on a send |
| InstOptions.InstOptsTailCoherent | visa/iga/IGALibrary/Frontend/KernelParser.cpp:2828-2843 | the loop keeps the set coherent |
| InstOptions.AcceptedOptionsCoherent | visa/iga/IGALibrary/Frontend/KernelParser.cpp:2828-2946 | every option list the parser accepts is coherent, whatever order the options come in |
| InstOptions.EmptyBraces | visa/iga/IGALibrary/Frontend/KernelParser.cpp:2828-2843 | "{}" is an empty option list |
| Parser.KernelParser.constructor | visa/iga/IGALibrary/Frontend/KernelParser.cpp:147-159 | a new parser is at the first token with empty logs, SIMD1 as the default execution size, and no default register type |
| Parser.KernelParser.ParseBitwiseExpr | visa/iga/IGALibrary/Frontend/KernelParser.cpp:574-585 | outcome, value, cursor and warnings are exactly Exprs.Bitwise's |
| Parser.KernelParser.ParseBitwiseTurn | visa/iga/IGALibrary/Frontend/KernelParser.cpp:578-583 | one turn of the loop: the cursor moves, and either Exprs.BitwiseTail is unchanged from the new cursor and value or the loop ends with exactly its outcome |
| Parser.KernelParser.ParseShiftExpr | visa/iga/IGALibrary/Frontend/KernelParser.cpp:587-598 | outcome, value, cursor and warnings are exactly Exprs.Shift's |
| Parser.KernelParser.ParseShiftTurn | visa/iga/IGALibrary/Frontend/KernelParser.cpp:591-596 | one turn of the loop: the cursor moves, and either Exprs.ShiftTail is unchanged from the new cursor and value or the loop ends with exactly its outcome |
| Parser.KernelParser.ParseAddExpr | visa/iga/IGALibrary/Frontend/KernelParser.cpp:600-611 | outcome, value, cursor and warnings are exactly Exprs.Additive's |
| Parser.KernelParser.ParseAddTurn | visa/iga/IGALibrary/Frontend/KernelParser.cpp:604-609 | one turn of the loop: the cursor moves, and either Exprs.AdditiveTail is unchanged from the new cursor and value or the loop ends with exactly its outcome |
| Parser.KernelParser.ParseMulExpr | visa/iga/IGALibrary/Frontend/KernelParser.cpp:614-625 | outcome, value, cursor and warnings are exactly Exprs.Multiplicative's |
| Parser.KernelParser.ParseMulTurn | visa/iga/IGALibrary/Frontend/KernelParser.cpp:618-623 | one turn of the loop: the cursor moves, and either Exprs.MultiplicativeTail is unchanged from the new cursor and value or the loop ends with exactly its outcome |
| Parser.KernelParser.ParseUnExpr | visa/iga/IGALibrary/Frontend/KernelParser.cpp:628-649 | outcome, value, cursor and warnings are exactly Exprs.Unary's |
| Parser.KernelParser.ParseNanSymbol | visa/iga/IGALibrary/Frontend/KernelParser.cpp:662-697 | outcome, value, cursor and warnings are exactly Exprs.NanSymbol's |
| Parser.KernelParser.ParseNanPayload | visa/iga/IGALibrary/Frontend/KernelParser.cpp:667-684 | outcome, value, cursor and warnings are exactly Exprs.NanPayload's |
| Parser.KernelParser.ParsePrimary | visa/iga/IGALibrary/Frontend/KernelParser.cpp:654-773 | outcome, value, cursor and warnings are exactly Exprs.Primary's |
| Parser.KernelParser.LookupReg | visa/iga/IGALibrary/Frontend/KernelParser.cpp:266-306 | the register found is Registers.RegLookup's, whose round trip LookupRegRoundTrip proves |
| Parser.KernelParser.PeekReg | visa/iga/IGALibrary/Frontend/KernelParser.cpp:308-340 | the register the next token names and the warnings, with the cursor unchanged |
| Parser.KernelParser.ConsumeReg | visa/iga/IGALibrary/Frontend/KernelParser.cpp:342-353 | as PeekReg, and the register token is consumed exactly when there is a register |
| Parser.KernelParser.TryParseConstExpr | visa/iga/IGALibrary/Frontend/KernelParser.cpp:398-422 | an expression that consumes nothing is none; undefined behaviour is a failure; a parsed one makes source ix an immediate |
| Parser.KernelParser.ParseExecInfo | visa/iga/IGALibrary/Frontend/KernelParser.cpp:165-235 | on failure no callback and the execution size unchanged; otherwise the size and offset of Syntax.ExecInfoAt, set and reported once |
| Parser.KernelParser.ParseExecInfoParens | visa/iga/IGALibrary/Frontend/KernelParser.cpp:177-234 | the width and offset of Syntax.ExecParensAt, the width checked by Syntax.SizeOf, set and reported once; any failure leaves the size and callbacks unchanged |
| Parser.KernelParser.SetExecInfo | visa/iga/IGALibrary/Frontend/KernelParser.cpp:223-234 | an invalid width fails with nothing changed; a valid one becomes the execution size and is reported with the offset |
| Parser.KernelParser.ParseExecParens | visa/iga/IGALibrary/Frontend/KernelParser.cpp:176-211 | the width, offset and position of Syntax.ExecParensAt, or its failure |
| Parser.KernelParser.ParseRegionVert | visa/iga/IGALibrary/Frontend/KernelParser.cpp:2288-2306 | the result and cursor follow Syntax.VertAt |
| Parser.KernelParser.ParseRegionWidth | visa/iga/IGALibrary/Frontend/KernelParser.cpp:2309-2325 | the result and cursor follow Syntax.WidthAt |
| Parser.KernelParser.ParseRegionHorz | visa/iga/IGALibrary/Frontend/KernelParser.cpp:2328-2343 | the result and cursor follow Syntax.HorzAt |
| Parser.KernelParser.ParseDstOpRegion | visa/iga/IGALibrary/Frontend/KernelParser.cpp:1805-1830 | "<h>" or the implicit or unit default, following Syntax.DstRegionAt |
| Parser.KernelParser.ParseRegionVWHBody | visa/iga/IGALibrary/Frontend/KernelParser.cpp:2097-2132 | an explicit "<v;w,h>" follows Syntax.VWHAt |
| Parser.KernelParser.ParseRegionWH | visa/iga/IGALibrary/Frontend/KernelParser.cpp:2097-2132 | "w,h>" after the ';' follows Syntax.WHAt |
| Parser.KernelParser.ParseSrcOpRegionVWH | visa/iga/IGALibrary/Frontend/KernelParser.cpp:2097-2132 | no '<' gives the implicit region or the default with nothing consumed; a written region follows VWHAt and warns when one is implicit |
| Parser.KernelParser.ParseSrcOpRegionVH | visa/iga/IGALibrary/Frontend/KernelParser.cpp:2135-2167 | as ParseSrcOpRegionVWH for the ternary "<v;h>" form and its default |
| Parser.KernelParser.ParseRegionVHBody | visa/iga/IGALibrary/Frontend/KernelParser.cpp:2135-2167 | an explicit "<v;h>" follows Syntax.VHAt |
| Parser.KernelParser.ParseSrcOpRegionH | visa/iga/IGALibrary/Frontend/KernelParser.cpp:2171-2200 | as ParseSrcOpRegionVWH for the ternary src2 "<h>" form and its default |
| Parser.KernelParser.ParseRegionHBody | visa/iga/IGALibrary/Frontend/KernelParser.cpp:2171-2200 | an explicit "<h>" follows Syntax.HAt |
| Parser.KernelParser.ParseSrcOpRegionInd | visa/iga/IGALibrary/Frontend/KernelParser.cpp:2224-2285 | "<w,h>" or "<v;w,h>" per Syntax.IndRegionAt, else the implicit region, else <1;1,0>; a written implicit region warns |
| Parser.KernelParser.ParseRegionIndBody | visa/iga/IGALibrary/Frontend/KernelParser.cpp:2224-2285 | an explicit indirect region follows Syntax.IndRegionAt |
| Parser.KernelParser.ParseIndVxHTail | visa/iga/IGALibrary/Frontend/KernelParser.cpp:2240-2260 | "<w,h>" after the ',' follows Syntax.IndVxHAt |
| Parser.KernelParser.ParseIndVWHTail | visa/iga/IGALibrary/Frontend/KernelParser.cpp:2260-2280 | "<v;w,h>" from the ';' follows Syntax.IndVWHAt |
| Parser.KernelParser.ParseAddrRegRefOpt | visa/iga/IGALibrary/Frontend/KernelParser.cpp:1834-1851 | no register gives no address with nothing consumed; otherwise Syntax.AddrRegAt's a0 check and subregister |
| Parser.KernelParser.ParseIndOpArgs | visa/iga/IGALibrary/Frontend/KernelParser.cpp:1751-1782 | the address subregister, offset and position of Syntax.IndArgsAt, or its failure |
| Parser.KernelParser.ParseIndAddrOffset | visa/iga/IGALibrary/Frontend/KernelParser.cpp:1755-1782 | after '[', the result of Syntax.IndAddrOffsetAt |
| Parser.KernelParser.ParseIndOffsetClose | visa/iga/IGALibrary/Frontend/KernelParser.cpp:1760-1782 | the offset, its range check and ']', as Syntax.IndOffsetAt |
| Parser.KernelParser.ParseIndOffset | visa/iga/IGALibrary/Frontend/KernelParser.cpp:1760-1780 | the offset as written, as Syntax.OffsetAt |
| Parser.KernelParser.TryParseOpType | visa/iga/IGALibrary/Frontend/KernelParser.cpp:2745-2754 | a written type from the destination or source table, else INVALID with nothing consumed |
| Parser.KernelParser.ParseOpTypeWithDefault | visa/iga/IGALibrary/Frontend/KernelParser.cpp:2722-2744 | the written type, else the first fallback, else the failure |
| Parser.KernelParser.ParseDstOpTypeWithDefault | visa/iga/IGALibrary/Frontend/KernelParser.cpp:2665-2677 | an implicit destination type wins over a written one, which is still parsed and warns when deprecated-syntax warnings are on |
| Parser.KernelParser.ParseSrcOpTypeWithDefault | visa/iga/IGALibrary/Frontend/KernelParser.cpp:2680-2700 | as for the destination; a mov of a label with no implicit type is :ud |
| Parser.KernelParser.ParseSrcOpTypeWithoutDefault | visa/iga/IGALibrary/Frontend/KernelParser.cpp:2701-2721 | an implicit source type wins (a written one warns); otherwise the written type, and none fails with "expected source type" unless the operation branches on a platform without simplified branches |
| Parser.KernelParser.ParseSendOperandTypeWithDefault | visa/iga/IGALibrary/Frontend/KernelParser.cpp:249-264 | ":t" needs an identifier naming a destination type; with no ':' the send default, with nothing consumed |
| Parser.KernelParser.ParseSrcModifierOpt | visa/iga/IGALibrary/Frontend/KernelParser.cpp:2588-2599 | the modifier, the pipe mark and the position of Syntax.SrcModsAt |
| Parser.KernelParser.ParseMathMacroReg | visa/iga/IGALibrary/Frontend/KernelParser.cpp:1626-1651 | the register of Syntax.MathMacroAt, with the old-spelling warning exactly when it was used |
| Parser.KernelParser.ParseSubregOpt | visa/iga/IGALibrary/Frontend/KernelParser.cpp:2024-2033 | no '.' is subregister 0, not written, nothing consumed; '.' needs an integer literal, else "expected subregister" |
| Parser.KernelParser.ParseSrcRegionByShape | visa/iga/IGALibrary/Frontend/KernelParser.cpp:2036-2046 | with no '<', the implicit region if any, else for non-ternary ops the VWH default |
| Parser.KernelParser.ParseSrcOpTypeFor | visa/iga/IGALibrary/Frontend/KernelParser.cpp:2050-2056 | a send's source with no written type gets the send default type |
| Parser.KernelParser.FinishSrcOpRgnTy | visa/iga/IGALibrary/Frontend/KernelParser.cpp:2036-2093 | on success one callback, the direct or math macro form for slot ix, with the subregister check's warning last |
| Parser.KernelParser.DirectSrcEvent | visa/iga/IGALibrary/Frontend/KernelParser.cpp:2072-2093 | the direct source callback is a direct operand of slot ix carrying the region and type |
| Parser.KernelParser.EmitSrcOpDirect | visa/iga/IGALibrary/Frontend/KernelParser.cpp:2050-2093 | on success one direct callback for slot ix, with the subregister check's warning last; on failure no callback |
| Parser.KernelParser.FinishSrcOpRegDirSubRegRgnTy | visa/iga/IGALibrary/Frontend/KernelParser.cpp:2002-2093 | one direct callback for slot ix; a macro op gets subregister 0 and its mme register; otherwise the 8-bit register and subregister; '.' without a literal fails |
| Parser.KernelParser.ParseSrcSubregPart | visa/iga/IGALibrary/Frontend/KernelParser.cpp:2013-2033 | a macro op reads its mme register (subregister 0, not explicit); otherwise '.' without a literal fails |
| Parser.KernelParser.FinishSrcOpInd | visa/iga/IGALibrary/Frontend/KernelParser.cpp:1967-1989 | one indirect callback with the modifiers, address and offset; with no '<' and no implicit region the region is <1;1,0> |
| Parser.KernelParser.EmitSrcOpInd | visa/iga/IGALibrary/Frontend/KernelParser.cpp:1967-1989 | the type and one indirect callback with the region given |
| Parser.KernelParser.ParseSrcOpInd | visa/iga/IGALibrary/Frontend/KernelParser.cpp:1967-1989 | source ix becomes indirect even on failure; the address and the offset (plus baseOff) are Syntax.IndArgsAt's |
| Parser.KernelParser.ParseSrcOpIndBody | visa/iga/IGALibrary/Frontend/KernelParser.cpp:1975-1988 | the one InstSrcOpRegIndirect callback carries Syntax.IndArgsAt's address and its offset plus baseOff; a failed argument parse logs nothing |
| Parser.KernelParser.EmitSrcOpImm | visa/iga/IGALibrary/Frontend/KernelParser.cpp:2360-2572 | a failed conversion changes nothing; otherwise the narrowed value's callback, the recorded error and the warning of Narrowing.ConvertImm |
| Parser.KernelParser.ImmSrcEvent | visa/iga/IGALibrary/Frontend/KernelParser.cpp:2553-2572 | the callback is an immediate of slot ix, and for a non-branch it is the value with its type |
| Parser.KernelParser.FinishSrcOpImmValue | visa/iga/IGALibrary/Frontend/KernelParser.cpp:2360-2572 | one immediate callback on success; a missing type, where none is implicit and the branch exception does not apply, fails with "expected source type" |
| Parser.KernelParser.ClosePipe | visa/iga/IGALibrary/Frontend/KernelParser.cpp:1885-1887 | with no '\|' open nothing happens; otherwise success exactly when a '\|' follows |
| Parser.KernelParser.FinishSrcOpImm | visa/iga/IGALibrary/Frontend/KernelParser.cpp:1921-1934 | on success one immediate callback for slot ix |
| Parser.KernelParser.FinishSrcOpImmLabel | visa/iga/IGALibrary/Frontend/KernelParser.cpp:2575-2583 | source ix becomes a label with the identifier's text; a mov with no implicit type gets :ud |
| Parser.KernelParser.ParseSrcOpImmOrLabel | visa/iga/IGALibrary/Frontend/KernelParser.cpp:1913-1958 | when no expression parses: "unexpected \|" after a pipe, "expected source operand" for a non-identifier, "unbound identifier" outside branches and mov, else a label |
| Parser.KernelParser.ParseSrcOpIndPath | visa/iga/IGALibrary/Frontend/KernelParser.cpp:1879-1892 | source ix is indirect; modifiers on an operation that does not take them fail |
| Parser.KernelParser.ParseSrcOpDirectPath | visa/iga/IGALibrary/Frontend/KernelParser.cpp:1893-1912 | source ix is direct; modifiers on an operation that does not take them fail before anything is consumed |
| Parser.KernelParser.ParseSrcOpAfterMods | visa/iga/IGALibrary/Frontend/KernelParser.cpp:1879-1958 | "r" makes the source indirect, a register makes it direct, and either with unsupported modifiers fails |
| Parser.KernelParser.ParseSrcOp | visa/iga/IGALibrary/Frontend/KernelParser.cpp:1866-1964 | after the modifiers, "r" is indirect and a register is direct, unsupported modifiers fail, and success logs one callback for slot ix |
| Parser.KernelParser.ParseSrcOpLabel | visa/iga/IGALibrary/Frontend/KernelParser.cpp:1855-1863 | on success the source is an immediate or a label |
| Parser.KernelParser.ParseSendSrcOp | visa/iga/IGALibrary/Frontend/KernelParser.cpp:2604-2660 | with the implicit operand on, a missing or address register is a null source <0;1,0> with nothing consumed; otherwise a regular source |
| Parser.KernelParser.ParseDstOpRgnTy | visa/iga/IGALibrary/Frontend/KernelParser.cpp:1704-1714 | with no '<' the destination's region is the default stride |
| Parser.KernelParser.FinishDstOpRgnTy | visa/iga/IGALibrary/Frontend/KernelParser.cpp:1704-1744 | on success one direct destination callback, with the subregister check's error recorded and warning last; on failure nothing logged |
| Parser.KernelParser.DirectDstEvent | visa/iga/IGALibrary/Frontend/KernelParser.cpp:1736-1744 | the destination callback is direct (macro or plain) with the stride and type given |
| Parser.KernelParser.ParseSendDstSubreg | visa/iga/IGALibrary/Frontend/KernelParser.cpp:1673-1689 | a send subregister needs a literal; it warns as deprecated exactly when deprecated-syntax warnings are on |
| Parser.KernelParser.FinishDstOpRegDirSubRegRgnTy | visa/iga/IGALibrary/Frontend/KernelParser.cpp:1658-1745 | one direct destination callback with the register and subregister; a send's '.' gives the literal after it; a macro op gets subregister 0 |
| Parser.KernelParser.ParseDstSubregPart | visa/iga/IGALibrary/Frontend/KernelParser.cpp:1673-1702 | send '.', macro op and plain subregister forms; '.' without a literal fails |
| Parser.KernelParser.ParseDstSubregOrMacro | visa/iga/IGALibrary/Frontend/KernelParser.cpp:1688-1702 | a macro op reads its accumulator register with subregister 0; otherwise '.' without a literal fails |
| Parser.KernelParser.FinishDstOpInd | visa/iga/IGALibrary/Frontend/KernelParser.cpp:1787-1801 | one indirect destination callback with the address and offset |
| Parser.KernelParser.ParseDstOpRegInd | visa/iga/IGALibrary/Frontend/KernelParser.cpp:1787-1801 | the address and offset (plus baseOff) of Syntax.IndArgsAt, or its failure |
| Parser.KernelParser.ParseDstOpAfterReg | visa/iga/IGALibrary/Frontend/KernelParser.cpp:1570-1587 | an invalid register number fails; "[" after the register is the rM[...] form, refused for sends |
| Parser.KernelParser.ParseDstOpReg | visa/iga/IGALibrary/Frontend/KernelParser.cpp:1555-1587 | "r[" is indirect; no register fails (with the send message for sends); an invalid number fails |
| Parser.KernelParser.ParseDstOp | visa/iga/IGALibrary/Frontend/KernelParser.cpp:1549-1587 | "(sat)" gives its own callback first; success adds exactly one more, a destination |
| Parser.KernelParser.ParseSendDstOp | visa/iga/IGALibrary/Frontend/KernelParser.cpp:1593-1615 | on success exactly one destination callback; on failure none |
| Parser.KernelParser.ParseFlagRegRef | visa/iga/IGALibrary/Frontend/KernelParser.cpp:3032-3060 | the register of Syntax.FlagRegAt, with an out-of-bounds subregister recorded as an error |
| Parser.KernelParser.ParsePredCtrl | visa/iga/IGALibrary/Frontend/KernelParser.cpp:1228-1259 | the control follows Syntax.PredCtrlAt |
| Parser.KernelParser.ParsePred | visa/iga/IGALibrary/Frontend/KernelParser.cpp:1228-1259 | the flag register is set as soon as it is read, even if the control fails; success gives the predication callback of Syntax.PredAt |
| Parser.KernelParser.ParseWrEnPred | visa/iga/IGALibrary/Frontend/KernelParser.cpp:1209-1224 | write-enable is on exactly for "(W"; callbacks, errors and flag register follow Syntax.WrEnPredAt |
| Parser.KernelParser.ParseWrEnPredBody | visa/iga/IGALibrary/Frontend/KernelParser.cpp:1211-1222 | after '(', follows Syntax.WrEnPredBodyAt |
| Parser.KernelParser.ParseWrEnTail | visa/iga/IGALibrary/Frontend/KernelParser.cpp:1213-1220 | after "(W", follows Syntax.WrEnTailAt |
| Parser.KernelParser.ParsePredClose | visa/iga/IGALibrary/Frontend/KernelParser.cpp:1218-1222 | a predication and ')', following Syntax.PredCloseAt |
| Parser.KernelParser.TryConsumeMnemonic | visa/iga/IGALibrary/Frontend/KernelParser.cpp:1262-1280 | an identifier naming an operation is consumed and gives it; anything else gives none with nothing consumed |
| Parser.KernelParser.ParseSubfunctionFromBxmlEnum | visa/iga/IGALibrary/Frontend/KernelParser.cpp:1454-1478 | follows Syntax.SubfunctionAt |
| Parser.KernelParser.ParseSubfunctionSuffix | visa/iga/IGALibrary/Frontend/KernelParser.cpp:1386-1451 | the subfunction of Syntax.SubfunctionSuffixAt, reported and recorded when there is one |
| Parser.KernelParser.ParseMnemonic | visa/iga/IGALibrary/Frontend/KernelParser.cpp:1386-1451 | no operation name gives none with nothing changed; otherwise the callbacks, the jmpi write-enable warning and the subfunction |
| Parser.KernelParser.FinishMnemonic | visa/iga/IGALibrary/Frontend/KernelParser.cpp:1395-1451 | what ParseMnemonic does after the operation name |
| Parser.KernelParser.TryParseFlagModFlag | visa/iga/IGALibrary/Frontend/KernelParser.cpp:1509-1527 | follows Syntax.FlagModFuncAt; a legacy spelling warns exactly when deprecated-syntax warnings are on |
| Parser.KernelParser.ParseFlagModFlagReg | visa/iga/IGALibrary/Frontend/KernelParser.cpp:1529-1542 | a register differing from the predication's fails; otherwise it becomes the instruction's flag register |
| Parser.KernelParser.ParseFlagModOpt | visa/iga/IGALibrary/Frontend/KernelParser.cpp:1480-1507 | no flag modifier changes nothing; otherwise the flag register, the callback, the recorded error and the legacy and bracket warnings |
| Parser.KernelParser.ParseFlagModAfterBracket | visa/iga/IGALibrary/Frontend/KernelParser.cpp:1484-1506 | after the optional '[', the flag register, callback, error and warnings are those of Syntax.FlagModOptFrom's result |
| Parser.KernelParser.FinishFlagModOpt | visa/iga/IGALibrary/Frontend/KernelParser.cpp:1490-1507 | the register, the ']' of the bracketed form, its warning and the callback |
| Parser.KernelParser.FinishNonLdStInstBody | visa/iga/IGALibrary/Frontend/KernelParser.cpp:1043-1187 | the execution info of Syntax.ExecInfoAt, then operands whose kinds fit the syntax class |
| Parser.KernelParser.ParseFlagModOnly | visa/iga/IGALibrary/Frontend/KernelParser.cpp:1058 | the flag modifier keeps the parser valid and moves forward |
| Parser.KernelParser.ParseSrc | visa/iga/IGALibrary/Frontend/KernelParser.cpp:1059-1187 | a source parse that succeeds logs slot ix |
| Parser.KernelParser.ParseDst | visa/iga/IGALibrary/Frontend/KernelParser.cpp:1059-1187 | a destination parse keeps the parser valid and moves forward |
| Parser.KernelParser.ParseOperands | visa/iga/IGALibrary/Frontend/KernelParser.cpp:1059-1187 | the switch on the syntax class leaves source kinds that fit it, with execution size and operation unchanged |
| Parser.KernelParser.ParseJumpOperands | visa/iga/IGALibrary/Frontend/KernelParser.cpp:1118-1183 | the branching classes leave source kinds that fit them |
| Parser.KernelParser.ParseDstAndSrc0 | visa/iga/IGALibrary/Frontend/KernelParser.cpp:1064-1067 | only src0 parsed |
| Parser.KernelParser.ParseBinary | visa/iga/IGALibrary/Frontend/KernelParser.cpp:1097-1103 | src0 and src1 parsed, src2 not |
| Parser.KernelParser.ParseMath | visa/iga/IGALibrary/Frontend/KernelParser.cpp:1104-1111 | src1 parsed exactly when the math function takes two sources |
| Parser.KernelParser.ParseTernary | visa/iga/IGALibrary/Frontend/KernelParser.cpp:1112-1117 | all three sources parsed |
| Parser.KernelParser.ParseBrc | visa/iga/IGALibrary/Frontend/KernelParser.cpp:1134-1172 | src1 follows an immediate or label src0; a missing src1 is never "null" |
| Parser.KernelParser.ParseSendUnary | visa/iga/IGALibrary/Frontend/KernelParser.cpp:1084-1089 | only src0 parsed |
| Parser.KernelParser.ParseSendInstructionLegacy | visa/iga/IGALibrary/Frontend/KernelParser.cpp:1191-1198 | src0 parsed; src1 is left implicit only when unary sends and legacy directives are both supported |
| Parser.KernelParser.ParseSendDesc | visa/iga/IGALibrary/Frontend/KernelParser.cpp:2760-2822 | a register descriptor follows Syntax.AddrRegAt; otherwise a constant expression that must be integral, keeping its low 32 bits |
| Parser.KernelParser.ParseSendDescOnly | visa/iga/IGALibrary/Frontend/KernelParser.cpp:2760-2822 | a descriptor parse leaves the source kinds unchanged |
| Parser.KernelParser.ParseExDescLegacy | visa/iga/IGALibrary/Frontend/KernelParser.cpp:2760-2800 | no type may follow; on XE an immediate leaves bits [3:0] zero; before XE it names the subfunction, reported |
| Parser.KernelParser.ParseSendDescsLegacy | visa/iga/IGALibrary/Frontend/KernelParser.cpp:2760-2822 | the callback with both descriptors, and the same checks on the extended descriptor |
| Parser.KernelParser.ParseOptToken | visa/iga/IGALibrary/Frontend/KernelParser.cpp:2854-2946 | the option set and cursor of InstOptions.IdentOptAt |
| Parser.KernelParser.ParseOptDepInfoIdent | visa/iga/IGALibrary/Frontend/KernelParser.cpp:2948-3029 | the option set, cursor and warnings of InstOptions.IdentOptAt |
| Parser.KernelParser.ParseSwsbOpt | visa/iga/IGALibrary/Frontend/KernelParser.cpp:2948-3029 | callbacks and cursor of InstOptions.SwsbAt |
| Parser.KernelParser.ParseDist | visa/iga/IGALibrary/Frontend/KernelParser.cpp:2948-3029 | callbacks and cursor of InstOptions.DistAt |
| Parser.KernelParser.ParseSbid | visa/iga/IGALibrary/Frontend/KernelParser.cpp:2948-3029 | callbacks and cursor of InstOptions.SbidAt |
| Parser.KernelParser.ParseSbidTail | visa/iga/IGALibrary/Frontend/KernelParser.cpp:2948-3029 | callbacks and cursor of InstOptions.SbidTailAt |
| Parser.KernelParser.ParseInstOptOrFail | visa/iga/IGALibrary/Frontend/KernelParser.cpp:2845-2852 | option set, cursor, callbacks and warnings of InstOptions.InstOptAt |
| Parser.KernelParser.ParseCommaOpt | visa/iga/IGALibrary/Frontend/KernelParser.cpp:2836-2840 | one loop turn moves forward and keeps what remains of InstOptions.InstOptsTail's outcome |
| Parser.KernelParser.ParseInstOptsTail | visa/iga/IGALibrary/Frontend/KernelParser.cpp:2836-2840 | option set, cursor, callbacks and warnings of InstOptions.InstOptsTail |
| Parser.KernelParser.ParseFirstOpt | visa/iga/IGALibrary/Frontend/KernelParser.cpp:2832-2836 | as InstOptions.FirstOptAt |
| Parser.KernelParser.ParseBracedOpts | visa/iga/IGALibrary/Frontend/KernelParser.cpp:2830-2842 | as InstOptions.BracedOptsAt |
| Parser.KernelParser.ParseInstOpts | visa/iga/IGALibrary/Frontend/KernelParser.cpp:2828-2843 | the outcome of InstOptions.InstOptsAt, then one callback with the whole option set |
| Parser.KernelParser.ResetInstState | visa/iga/IGALibrary/Frontend/KernelParser.cpp:983-995 | no sources, no send lengths, no flag register, operation or subfunction at the start of an instruction |
| Parser.KernelParser.ParseWrEnPredOnly | visa/iga/IGALibrary/Frontend/KernelParser.cpp:1209-1224 | the cursor follows Syntax.WrEnPredAt |
| Parser.KernelParser.ParseMnemonicOnly | visa/iga/IGALibrary/Frontend/KernelParser.cpp:1386-1451 | no operation name gives none; an operation consumes tokens |
| Parser.KernelParser.ParseInstHead | visa/iga/IGALibrary/Frontend/KernelParser.cpp:995-1030 | a missing mnemonic after the predication fails as an invalid mnemonic; success has an operation and source kinds that fit it |
| Parser.KernelParser.ParseInstCanThrowException | visa/iga/IGALibrary/Frontend/KernelParser.cpp:983-1036 | a missing mnemonic fails; success ends at a newline, ';' or end of file with InstEnd last |
| Parser.KernelParser.ParseInstBody | visa/iga/IGALibrary/Frontend/KernelParser.cpp:1006-1036 | a missing mnemonic fails; success ends at a newline, ';' or end of file with InstEnd last and the operands fitting the operation |
| Parser.KernelParser.FinishInst | visa/iga/IGALibrary/Frontend/KernelParser.cpp:1025-1036 | success ends at a newline, ';' or end of file with InstEnd last |
| Parser.KernelParser.RecoverFromSyntaxError | visa/iga/IGALibrary/Frontend/KernelParser.cpp:915-937 | the error is recorded; at the error limit it is raised again with the cursor kept, otherwise the cursor skips past the next newline |
| Parser.KernelParser.ParseInst | visa/iga/IGALibrary/Frontend/KernelParser.cpp:967-976 | a failure means the error limit was reached; success away from the end of file consumes a token |
| Parser.KernelParser.ParseDirective | visa/iga/IGALibrary/Frontend/KernelParser.cpp:875-905 | the default set by Syntax.DirectiveAt's directive; a bad register type leaves the default INVALID |
| Parser.KernelParser.ParseRegTypeDirective | visa/iga/IGALibrary/Frontend/KernelParser.cpp:897-905 | without "default_execution_size", the register type of Syntax.DirectiveAt's directive becomes the default; a bad type leaves INVALID, and any other name fails with the default untouched |
| Parser.KernelParser.ParseDefaultExecSize | visa/iga/IGALibrary/Frontend/KernelParser.cpp:880-895 | follows Syntax.ExecSizeDirectiveAt; failure keeps the default |
| Parser.KernelParser.ParseExecSizeTail | visa/iga/IGALibrary/Frontend/KernelParser.cpp:884-895 | follows Syntax.ExecSizeTailAt; failure keeps the default |
| Parser.KernelParser.ParseDefaultRegisterType | visa/iga/IGALibrary/Frontend/KernelParser.cpp:895-905 | follows Syntax.RegTypeDirectiveAt; failure leaves the default INVALID |
| Parser.KernelParser.ParseLegacyDirectives | visa/iga/IGALibrary/Frontend/KernelParser.cpp:870-913 | the defaults and cursor of Syntax.DirectivesAt; a failure is recovered from below the error limit and re-raised at it |
| Parser.KernelParser.ParseDirectiveStep | visa/iga/IGALibrary/Frontend/KernelParser.cpp:876-910 | one loop turn moves forward and keeps what remains of DirectivesAt's outcome |
| Parser.KernelParser.ConsumeLabelDef | visa/iga/IGALibrary/Frontend/KernelParser.cpp:3074-3081 | the label's name, and the cursor past its ':' |
| Parser.KernelParser.ParseBlock | visa/iga/IGALibrary/Frontend/KernelParser.cpp:940-964 | success stops at a label or the end of file with BlockEnd last; failure means the error limit was reached |
| Parser.KernelParser.ParseBlockTurn | visa/iga/IGALibrary/Frontend/KernelParser.cpp:944-959 | a turn that goes on moves the cursor; one that stops is at a label or the end of file; failure means the error limit was reached |
| Parser.KernelParser.ParseProgramPrefix | visa/iga/IGALibrary/Frontend/KernelParser.cpp:842-858 | after the directives and the unnamed first block, the cursor is at a label or the end of file, or the error limit was reached |
| Parser.KernelParser.ParseProgram | visa/iga/IGALibrary/Frontend/KernelParser.cpp:842-867 | success reads the whole input with ProgramEnd last; failure means the error limit was reached |
| Kernels.Block.constructor | visa/iga/IGALibrary/Frontend/KernelParser.cpp:3160-3169 | a block starts with its pc and ID 0 |
| Kernels.Kernel.constructor | visa/iga/IGALibrary/Frontend/KernelParser.cpp:3139-3203 | a new kernel has no blocks |
| Kernels.Kernel.AppendBlock | visa/iga/IGALibrary/Frontend/KernelParser.cpp:3165-3169 | appendBlock adds the block at the end |
| Kernels.Kernel.NumberBlocks | visa/iga/IGALibrary/Frontend/KernelParser.cpp:3165-3169 | block i gets ID i+1, and the kernel's blocks become the old ones followed by these, in order |
| Kernels.ParseGenKernel | visa/iga/IGALibrary/Frontend/KernelParser.cpp:3139-3203 | no kernel exactly when the listing's parse fails (at the syntax-error limit), and then block IDs are left alone; otherwise the parse read to end of file, and a fresh kernel holds the inferred blocks numbered from 1 |
| ZeBinary.Sub32 | IGC/AdaptorOCL/OCL/sp/zebin_builder.cpp:151-151 | uint32 subtraction: a - b when it fits, else it wraps modulo 2^32 |
| ZeBinary.SymbolElfType | IGC/AdaptorOCL/OCL/sp/zebin_builder.cpp:317-338 | in both directions: FUNC exactly for functions and kernels, OBJECT exactly for the three global kinds, NOTYPE for every other kind |
| ZeBinary.SymbolElfBinding | IGC/AdaptorOCL/OCL/sp/zebin_builder.cpp:340-360 | LOCAL exactly for the kernel symbol; every other kind, unlisted ones included, is GLOBAL |
| ZeBinary.SymbolsFor | IGC/AdaptorOCL/OCL/sp/zebin_builder.cpp:366-377 | any compiled SIMD size other than 8, 16 and 32 takes SIMD1's lists |
| ZeBinary.PlacedSymbols | IGC/AdaptorOCL/OCL/sp/zebin_builder.cpp:379-409 | one addSymbols loop gives exactly one ELF symbol per symbol of its list |
| ZeBinary.SymbolTableEntries | IGC/AdaptorOCL/OCL/sp/zebin_builder.cpp:362-413 | one entry per symbol in loop order, carrying name, offset, size, binding and type; an entry is unplaced exactly when it is an undefined non-local symbol |
| ZeBinary.LocalSymbolsAreKernels | IGC/AdaptorOCL/OCL/sp/zebin_builder.cpp:317-360 | every locally bound entry of the table is code (FUNC) |
| ZeBinary.SymbolTableEntry | IGC/AdaptorOCL/OCL/sp/zebin_builder.cpp:362-413 | entry i of the table is the ELF symbol of symbol i, in some section |
| ZeBinary.BufferSections | IGC/AdaptorOCL/OCL/sp/zebin_builder.cpp:146-178 | one or two sections whose footprint is the data plus the bss size (AllocSize when that covers the data); only the last has the alignment; data first unless in bss with no inline data; bss exactly when enabled with a nonzero tail |
| ZeBinary.RoundUpToGrf | IGC/AdaptorOCL/OCL/sp/zebin_builder.cpp:504-507 | the rounded size is a multiple of the GRF size, at least n and less than n plus a GRF |
| ZeBinary.IdCount | IGC/AdaptorOCL/OCL/sp/zebin_builder.cpp:509-510 | at most three IDs, and none exactly when x, y and z are all unused |
| ZeBinary.LocalIdsArg | IGC/AdaptorOCL/OCL/sp/zebin_builder.cpp:487-514 | offset 0; SIMD1 takes packed IDs in 6 bytes; otherwise local_id whose size is the number of used IDs times the per-ID size 2*simd rounded up to whole GRFs, so GRF-aligned and between 2*simd and 2*simd+grf-1 bytes per used ID |
| ZeBinary.LocalIdSize | IGC/AdaptorOCL/OCL/sp/zebin_builder.cpp:509-510 | up to three IDs of a GRF-aligned size take a GRF-aligned size |
| ZeBinary.MemoryBuffers | IGC/AdaptorOCL/OCL/sp/zebin_builder.cpp:269-315 | slot 0 alone is the single space when it is the only need; the sizes add up to the three needs; no buffer is empty; scratch slots increase; no buffer exactly when nothing is needed |
| ZeBinary.TotalSizeAppend | IGC/AdaptorOCL/OCL/sp/zebin_builder.cpp:295-314 | appended buffers add their sizes |
| ZeBinary.ZeInfoKernel.constructor | IGC/AdaptorOCL/OCL/sp/zebin_builder.cpp:487-514 | a kernel's zeInfo starts with no payload arguments and no memory buffers |
| ZeBinary.ZeBinaryBuilder.constructor | IGC/AdaptorOCL/OCL/sp/zebin_builder.cpp:39-63 | a new builder holds no symbols and exactly the program-scope sections (constants, string literals, then globals); each section ID names its first section when that buffer is present and keeps its initial value otherwise |
| ZeBinary.ZeBinaryBuilder.AddSectionData | IGC/AdaptorOCL/OCL/sp/zebin_builder.cpp:162-163 | appends a data section and returns its ID, the old section count |
| ZeBinary.ZeBinaryBuilder.AddSectionBss | IGC/AdaptorOCL/OCL/sp/zebin_builder.cpp:165-166 | appends a bss section and returns its ID, the old section count |
| ZeBinary.ZeBinaryBuilder.AddBuffer | IGC/AdaptorOCL/OCL/sp/zebin_builder.cpp:146-178 | appends BufferSections and returns the first section's ID |
| ZeBinary.ZeBinaryBuilder.AddGlobalConstants | IGC/AdaptorOCL/OCL/sp/zebin_builder.cpp:136-197 | appends ConstSections; the constant ID is the first new section when AllocSize is nonzero; the string ID is the last section when the second buffer has data; constants come before strings |
| ZeBinary.ZeBinaryBuilder.AddGlobals | IGC/AdaptorOCL/OCL/sp/zebin_builder.cpp:199-238 | appends the global buffer's sections when AllocSize is nonzero; the global ID is the first new section, which is data unless bss is on and there is no inline data |
| ZeBinary.ZeBinaryBuilder.AddProgramScopeInfo | IGC/AdaptorOCL/OCL/sp/zebin_builder.cpp:130-134 | the constant sections, then the global sections; the constant, string and global IDs are the positions of their first new sections, or unchanged when absent |
| ZeBinary.ZeBinaryBuilder.AddSymbols | IGC/AdaptorOCL/OCL/sp/zebin_builder.cpp:362-413 | appends SymbolTable for the compiled SIMD size's lists, in the sections the builder recorded |
| ZeBinary.ZeBinaryBuilder.AddDataSymbols | IGC/AdaptorOCL/OCL/sp/zebin_builder.cpp:393-409 | appends the constant, string and global symbols, each list in its section |
| ZeBinary.ZeBinaryBuilder.AddSymbolList | IGC/AdaptorOCL/OCL/sp/zebin_builder.cpp:379-391 | one loop of addSymbols appends PlacedSymbols of its list, in order |
| ZeBinary.ZeBinaryBuilder.AddLocalIds | IGC/AdaptorOCL/OCL/sp/zebin_builder.cpp:487-514 | appends LocalIdsArg to the kernel's payload arguments: 6 packed bytes for SIMD1, else the used-ID count times the GRF-rounded per-ID size |
| ZeBinary.ZeBinaryBuilder.AddMemoryBuffer | IGC/AdaptorOCL/OCL/sp/zebin_builder.cpp:269-315 | appends MemoryBuffers to the kernel's memory buffers |

## Left out

- The lexer (`BufferedLexer`) and `Parser.hpp` are not part of this model. The parser reads a sequence of tokens that carry their lexeme, their text and the lexer's literal conversions. `Skip`, `Consume`, `ConsumeIdentEq`, `ConsumeOrFail` and `ConsumeIntLitOrFail` are the cursor primitives as KernelParser.cpp uses them.
- Floating point arithmetic and conversions (`ConvertDoubleToFloat`, `ConvertDoubleToHalf`) and `ImmVal::Negate`, `Abs`, `isS64` and `isI64` are inputs of the model. Their code (`Floats.hpp`, `Types.hpp`) is not part of this model.
- The value of `std::numeric_limits<double>::signaling_NaN()` is taken as 0x7FF4000000000000, the pattern x86-64 compilers give.
- C++ undefined behaviour in `evalBinExpr` is a failure (`UndefinedBehaviour`) rather than a value: shift counts outside [0, 63], % by zero, and INT64_MIN / -1 or % -1. The other undefined cases are given a value instead: signed `+`, `-` and `*` that overflow s64, `<<` of a negative s64, and `<<` of a non-negative s64 whose result does not fit (such as `3 << 63`, undefined before C++20), are modelled as two's-complement wrap-around modulo 2^64 (`Wrap` in `EvalBinExpr` and `ShiftLeftWord`; `EvalBinExprWraps` states it).
- Source locations (`Loc`) and message texts are not modelled. Each error or warning is a `Diag` or `Warn` constant.
- The platform tables (the `Model` and `OpSpec` queries, `RegInfo` bounds, type sizes) are inputs.
- `Block::inferBlocks` is not part of this model. `ParseGenKernel` takes the blocks it finds as a parameter.
- The instruction builder's own processing of callbacks is not modelled; the parser logs the callbacks in order. `InstBuilder::isMacroOp` is an input of the model: a function of the operation and its subfunction held in `Env` (field `isMacroOp`), with no constraint tying it to math macro functions; InstBuilder.hpp is not part of this model.
- `IGA_ASSERT` and `IGC_ASSERT` checks are not preconditions. `LocalIdsArg` requires `grfSize > 0` only where the source divides by it. The local-symbol assertion (no undefined local symbol) and the sampler assertion (no sampler symbols) are not checked.
- Parser.KernelParser.ParseLegacyDirectives: after a recovered error it states the errors and the result, not the cursor. The cursor is wherever `RecoverFromSyntaxError` leaves it.
- Parser.KernelParser.ParseProgram: the "expected instruction, block, or EOF" failure cannot be reached, because the loop only ends at the end of file; the model has no branch for it.
- Parser.KernelParser.ParseInstHead: the mnemonic callback is logged twice, as the source does; the contract states the outcome and the operands, not the callback order.
- Parser.KernelParser.ParseFlagModOnly, Parser.KernelParser.ParseSrc, Parser.KernelParser.ParseDst, Parser.KernelParser.ParseSendDescOnly, Parser.KernelParser.ParseWrEnPredOnly, Parser.KernelParser.ParseMnemonicOnly: these wrappers state only what the instruction dispatch needs. The full contracts are on the methods they call.
- Parser.KernelParser.ParseOperands and its per-class methods state which sources were parsed and their kinds, not each operand's callback. Those are stated by the operand methods.
- Parser.KernelParser.ParseSrcOpTypeFor, Parser.KernelParser.ParseDstOpRgnTy and Parser.KernelParser.FinishSrcOpImm state only the default cases; the full behaviour is on the type and region methods they call.
- Send instructions after XE (`ParseSendInstructionXe`), load/store syntax, `ParseSendDescsWithOptBraces` and the branch-label fix-ups are outside the modelled core.
- ZeBinary: the ELF object builder (`ZEELFObjectBuilder`) is not part of this model. A section's ID is its index among the sections this builder added, and the initial value of the section-ID fields is a constructor parameter.
- Exprs.Bitwise: the function's own contract is the cursor contract; its value is stated by BitwiseIsRightFold for operands that all parse, and BackedOffOperand and UnparsedOperand cover operands that do not.
- Exprs.BitwiseTail: the function's own contract is the cursor contract; its value is stated by BitwiseTailIsRightFold for right operands that all parse.
- Exprs.Shift: the function's own contract is the cursor contract; its value is stated by ShiftIsLeftFold for operands that all parse.
- Exprs.ShiftTail: the function's own contract is the cursor contract; its value is stated by ShiftTailIsLeftFold for right operands that all parse.
- Exprs.Additive: the function's own contract is the cursor contract; its value is stated by AdditiveIsLeftFold for operands that all parse.
- Exprs.AdditiveTail: the function's own contract is the cursor contract; its value is stated by AdditiveTailIsLeftFold for right operands that all parse, and BackedOffOperand covers one that backs off.
- Exprs.Multiplicative: the function's own contract is the cursor contract; its value is stated by MultiplicativeIsLeftFold for operands that all parse.
- Exprs.MultiplicativeTail: the function's own contract is the cursor contract; its value is stated by MultiplicativeTailIsLeftFold for right operands that all parse.
- Parser.KernelParser.ParseSubfunctionFromBxmlEnum: the `(uint32_t)` cast of an integer-literal subfunction is not modelled; the literal's value is kept unbounded.
- Registers.RegLookup: the register number is accumulated as an unbounded integer; the `int` overflow of a very long digit string is not modelled.
- ZeBinary.DataSize: `InlineData` longer than 4 GiB would wrap in the uint32 conversion; the model keeps that wrap but proves nothing about it.
- ZeBinary.LocalIdsArg: the int32 arithmetic of `per_id_size` is not modelled; SIMD sizes large enough to overflow it are out of scope.
- `createKernel`, `addKernelRelocations`, `addKernelExecEnv`, `addGTPinInfo`, `addSPIRV`, `addElfSections` and the stream output of the zeBinary builder are outside the modelled core.
