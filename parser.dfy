// KernelParser: the recursive-descent parser for the GEN assembly syntax.
//
// The parser object holds a cursor into the token sequence (with the one
// mark/reset snapshot of the lexer), the per-instruction fields it resets and
// updates, the program-wide defaults set by legacy directives, and three
// append-only logs: the InstBuilder callbacks, the errors reported to the
// ErrorHandler, and the warnings.  A thrown SyntaxError is a `Fail` result
// that the callers pass on unchanged, as the C++ unwinds; whatever the parser
// changed before the throw stays changed.
module Parser {
  import opened ImmVals
  import opened Diags
  import opened Lexer
  import opened Target
  import opened Events
  import opened Exprs
  import opened Registers
  import opened Syntax
  import opened Narrowing
  import opened InstOptions

  /** REGREF_INVALID: the flag register before any predication names one. */
  const REGREF_INVALID: RegRef := RegRef(-1, -1)

  class KernelParser {
    /** The platform model, the parse options and the ImmVal helpers. */
    const env: Env
    /** The lexer's output. */
    const toks: seq<Token>
    /** evalBinExpr, which the grammar methods apply to each operator.  It is
      * a field so that their proofs need only the grammar's own properties;
      * the constructor sets it to EvalBinExpr over the model's float ops. */
    const evaluator: (ImmVal, BinOp, ImmVal) -> EvalRes
    /** The cursor and the lexer's one saved position (Mark/Reset). */
    var pos: nat
    var mark: nat

    /** The InstBuilder callbacks made so far, the errors reported and the
      * warnings issued. */
    var events: seq<Event>
    var errors: seq<Diag>
    var warnings: seq<Warn>

    /** Set by the legacy directives; one per program. */
    var defaultExecSize: ExecSize
    var defaultRegisterType: Type

    /** Per-instruction state. */
    var hasWrEn: bool
    var opSpec: Option<OpSpec>
    var flagReg: RegRef
    var unifType: Type
    var execSize: ExecSize
    var srcKinds: seq<OperandKind>
    var sendSrcLens: seq<int>
    /** The subfunction the builder holds for the current instruction
      * (InstBuilder::getSubfunction). */
    var subfunction: Option<Subfunction>

    predicate Valid()
      reads this`pos, this`mark, this`srcKinds, this`sendSrcLens
    {
      pos <= |toks| && mark <= |toks| && |srcKinds| == 3 && |sendSrcLens| == 2
    }

    /** Every field but the cursor and the logs is as it was. */
    twostate predicate Kept()
      reads this
    {
      mark == old(mark) &&
      defaultExecSize == old(defaultExecSize) && defaultRegisterType == old(defaultRegisterType) &&
      hasWrEn == old(hasWrEn) && opSpec == old(opSpec) && flagReg == old(flagReg) &&
      unifType == old(unifType) && execSize == old(execSize) && srcKinds == old(srcKinds) &&
      sendSrcLens == old(sendSrcLens) && subfunction == old(subfunction)
    }

    /** No callback, error or warning was added. */
    twostate predicate Quiet()
      reads this
    {
      events == old(events) && errors == old(errors) && warnings == old(warnings)
    }

    constructor (env: Env, toks: seq<Token>)
      ensures this.env == env && this.toks == toks && Valid()
      ensures evaluator == Evaluator(env.imm.fops)
      ensures pos == 0 && events == [] && errors == [] && warnings == []
      ensures defaultExecSize == SIMD1 && defaultRegisterType == INVALID
    {
      this.env := env;
      this.toks := toks;
      evaluator := Evaluator(env.imm.fops);
      pos := 0;
      mark := 0;
      events := [];
      errors := [];
      warnings := [];
      defaultExecSize := SIMD1;
      defaultRegisterType := INVALID;
      hasWrEn := false;
      opSpec := None;
      flagReg := REGREF_INVALID;
      unifType := INVALID;
      execSize := SIMD1;
      srcKinds := [KIND_INVALID, KIND_INVALID, KIND_INVALID];
      sendSrcLens := [-1, -1];
      subfunction := None;
    }

    // ---- lexer primitives (Parser.hpp) ----

    /** The token k places ahead of the cursor. */
    function Next(k: nat): Token
      reads this`pos
    {
      Peek(toks, pos + k)
    }

    predicate LookingAt(lx: Lexeme)
      reads this`pos
    {
      Next(0).lexeme == lx
    }

    method Skip()
      requires Valid()
      modifies this`pos
      ensures Valid() && pos == Advance(toks, old(pos))
    {
      pos := Advance(toks, pos);
    }

    /** Consume(lx): skips the next token if it is an lx. */
    method Consume(lx: Lexeme) returns (b: bool)
      requires Valid()
      modifies this`pos
      ensures Valid()
      ensures b == (Peek(toks, old(pos)).lexeme == lx)
      ensures pos == if b then Advance(toks, old(pos)) else old(pos)
    {
      b := LookingAt(lx);
      if b {
        Skip();
      }
    }

    /** ConsumeIdentEq(s): skips the next token if it is the identifier s. */
    method ConsumeIdentEq(s: string) returns (b: bool)
      requires Valid()
      modifies this`pos
      ensures Valid()
      ensures b == IdentAt(toks, old(pos), s)
      ensures pos == if b then old(pos) + 1 else old(pos)
    {
      b := IdentAt(toks, pos, s);
      if b {
        Skip();
      }
    }

    method ConsumeOrFail(lx: Lexeme, d: Diag) returns (s: Status)
      requires Valid()
      modifies this`pos
      ensures Valid()
      ensures s == if Peek(toks, old(pos)).lexeme == lx then Ok(()) else Fail(d)
      ensures pos == if s.Ok? then Advance(toks, old(pos)) else old(pos)
    {
      var b := Consume(lx);
      s := if b then Ok(()) else Fail(d);
    }

    /** ConsumeIntLitOrFail: the value of a binary, decimal or hex literal. */
    method ConsumeIntLitOrFail(d: Diag) returns (r: Res<nat>)
      requires Valid()
      modifies this`pos
      ensures Valid()
      ensures r == if IsIntLit(Peek(toks, old(pos)).lexeme) then Ok(Peek(toks, old(pos)).value) else Fail(d)
      ensures pos == if r.Ok? then old(pos) + 1 else old(pos)
    {
      var t := Next(0);
      if IsIntLit(t.lexeme) {
        Skip();
        return Ok(t.value);
      }
      return Fail(d);
    }

    // ---- constant expressions (GenParser) ----

    /** The grammar's environment for the current instruction: identifiers
      * back off as labels for branching operations and mov. */
    function XEnv(): ExprEnv
      reads this`opSpec
    {
      ExprEnv(opSpec.Some? && (opSpec.value.isBranching || opSpec.value.op == MOV),
              env.imm.initial, env.imm.negate, evaluator)
    }

    /** parseBitwiseExpr: a shift expression, then `&` or `|` and a whole bitwise
      * expression, any number of times. */
    method ParseBitwiseExpr(consumed: bool, v: ImmVal) returns (out: Outcome, w: ImmVal)
      requires Valid()
      modifies this`pos, this`warnings
      ensures Valid()
      ensures var r := Bitwise(XEnv(), toks, old(pos), consumed, v, old(warnings));
        out == r.out && w == r.v && pos == r.next && warnings == r.log
      decreases |toks| - pos, 6
    {
      ghost var e := XEnv();
      ghost var goal := Bitwise(e, toks, pos, consumed, v, warnings);
      out, w := ParseShiftExpr(consumed, v);
      if out != Ret(true) {
        return;
      }
      while BitwiseOp(Next(0).lexeme).Some?
        invariant Valid()
        invariant goal == BitwiseTail(e, toks, pos, w, warnings)
        decreases |toks| - pos
      {
        var o, nw := ParseBitwiseTurn(w, BitwiseOp(Next(0).lexeme).value);
        if o != Ret(true) {
          return o, nw;
        }
        w := nw;
      }
      out := Ret(true);
    }

    /** One turn of parseBitwiseExpr's loop: the operator `&` or `|` at the
      * cursor is skipped, a whole bitwise expression parsed and folded into
      * x; a result other than Ret(true) ends the loop with that outcome. */
    method ParseBitwiseTurn(x: ImmVal, op: BinOp) returns (out: Outcome, w: ImmVal)
      requires Valid() && BitwiseOp(Next(0).lexeme) == Some(op)
      modifies this`pos, this`warnings
      ensures Valid() && old(pos) < pos
      ensures var r := BitwiseTail(XEnv(), toks, old(pos), x, old(warnings));
        if out == Ret(true) then r == BitwiseTail(XEnv(), toks, pos, w, warnings)
        else out == r.out && w == r.v && pos == r.next && warnings == r.log
      decreases |toks| - pos, 5
    {
      BitwiseTurn(XEnv(), toks, pos, x, op, warnings);
      Skip();
      var rout, rv := ParseBitwiseExpr(true, env.imm.initial);
      if rout.Throw? || rout.UB? {
        return rout, x;
      }
      match evaluator(x, op, rv)
      case Error(d) => return Throw(d), x;
      case Undefined => return Outcome.UB, x;
      case Value(nv) => return Ret(true), nv;
    }

    /** parseShiftExpr: additive expressions separated by `<<` or `>>`. */
    method ParseShiftExpr(consumed: bool, v: ImmVal) returns (out: Outcome, w: ImmVal)
      requires Valid()
      modifies this`pos, this`warnings
      ensures Valid()
      ensures var r := Shift(XEnv(), toks, old(pos), consumed, v, old(warnings));
        out == r.out && w == r.v && pos == r.next && warnings == r.log
      decreases |toks| - pos, 5
    {
      ghost var e := XEnv();
      ghost var goal := Shift(e, toks, pos, consumed, v, warnings);
      out, w := ParseAddExpr(consumed, v);
      if out != Ret(true) {
        return;
      }
      while ShiftOp(Next(0).lexeme).Some?
        invariant Valid()
        invariant goal == ShiftTail(e, toks, pos, w, warnings)
        decreases |toks| - pos
      {
        var o, nw := ParseShiftTurn(w, ShiftOp(Next(0).lexeme).value);
        if o != Ret(true) {
          return o, nw;
        }
        w := nw;
      }
      out := Ret(true);
    }

    /** One turn of parseShiftExpr's loop: the operator `<<` or `>>` at the cursor is
      * skipped, the next operand parsed and folded into x; a result other
      * than Ret(true) ends the loop with that outcome. */
    method ParseShiftTurn(x: ImmVal, op: BinOp) returns (out: Outcome, w: ImmVal)
      requires Valid() && ShiftOp(Next(0).lexeme) == Some(op)
      modifies this`pos, this`warnings
      ensures Valid() && old(pos) < pos
      ensures var r := ShiftTail(XEnv(), toks, old(pos), x, old(warnings));
        if out == Ret(true) then r == ShiftTail(XEnv(), toks, pos, w, warnings)
        else out == r.out && w == r.v && pos == r.next && warnings == r.log
      decreases |toks| - pos, 4
    {
      ShiftTurn(XEnv(), toks, pos, x, op, warnings);
      Skip();
      var rout, rv := ParseAddExpr(true, env.imm.initial);
      if rout.Throw? || rout.UB? {
        return rout, x;
      }
      match evaluator(x, op, rv)
      case Error(d) => return Throw(d), x;
      case Undefined => return Outcome.UB, x;
      case Value(nv) => return Ret(true), nv;
    }

    /** parseAddExpr: multiplicative expressions separated by `+` or `-`. */
    method ParseAddExpr(consumed: bool, v: ImmVal) returns (out: Outcome, w: ImmVal)
      requires Valid()
      modifies this`pos, this`warnings
      ensures Valid()
      ensures var r := Additive(XEnv(), toks, old(pos), consumed, v, old(warnings));
        out == r.out && w == r.v && pos == r.next && warnings == r.log
      decreases |toks| - pos, 4
    {
      ghost var e := XEnv();
      ghost var goal := Additive(e, toks, pos, consumed, v, warnings);
      out, w := ParseMulExpr(consumed, v);
      if out != Ret(true) {
        return;
      }
      while AdditiveOp(Next(0).lexeme).Some?
        invariant Valid()
        invariant goal == AdditiveTail(e, toks, pos, w, warnings)
        decreases |toks| - pos
      {
        var o, nw := ParseAddTurn(w, AdditiveOp(Next(0).lexeme).value);
        if o != Ret(true) {
          return o, nw;
        }
        w := nw;
      }
      out := Ret(true);
    }

    /** One turn of parseAddExpr's loop: the operator `+` or `-` at the cursor is
      * skipped, the next operand parsed and folded into x; a result other
      * than Ret(true) ends the loop with that outcome. */
    method ParseAddTurn(x: ImmVal, op: BinOp) returns (out: Outcome, w: ImmVal)
      requires Valid() && AdditiveOp(Next(0).lexeme) == Some(op)
      modifies this`pos, this`warnings
      ensures Valid() && old(pos) < pos
      ensures var r := AdditiveTail(XEnv(), toks, old(pos), x, old(warnings));
        if out == Ret(true) then r == AdditiveTail(XEnv(), toks, pos, w, warnings)
        else out == r.out && w == r.v && pos == r.next && warnings == r.log
      decreases |toks| - pos, 3
    {
      AdditiveTurn(XEnv(), toks, pos, x, op, warnings);
      Skip();
      var rout, rv := ParseMulExpr(true, env.imm.initial);
      if rout.Throw? || rout.UB? {
        return rout, x;
      }
      match evaluator(x, op, rv)
      case Error(d) => return Throw(d), x;
      case Undefined => return Outcome.UB, x;
      case Value(nv) => return Ret(true), nv;
    }

    /** parseMulExpr: unary expressions separated by `*`, `/` or `%`. */
    method ParseMulExpr(consumed: bool, v: ImmVal) returns (out: Outcome, w: ImmVal)
      requires Valid()
      modifies this`pos, this`warnings
      ensures Valid()
      ensures var r := Multiplicative(XEnv(), toks, old(pos), consumed, v, old(warnings));
        out == r.out && w == r.v && pos == r.next && warnings == r.log
      decreases |toks| - pos, 3
    {
      ghost var e := XEnv();
      ghost var goal := Multiplicative(e, toks, pos, consumed, v, warnings);
      out, w := ParseUnExpr(consumed, v);
      if out != Ret(true) {
        return;
      }
      while MultiplicativeOp(Next(0).lexeme).Some?
        invariant Valid()
        invariant goal == MultiplicativeTail(e, toks, pos, w, warnings)
        decreases |toks| - pos
      {
        var o, nw := ParseMulTurn(w, MultiplicativeOp(Next(0).lexeme).value);
        if o != Ret(true) {
          return o, nw;
        }
        w := nw;
      }
      out := Ret(true);
    }

    /** One turn of parseMulExpr's loop: the operator `*`, `/` or `%` at the cursor is
      * skipped, the next operand parsed and folded into x; a result other
      * than Ret(true) ends the loop with that outcome. */
    method ParseMulTurn(x: ImmVal, op: BinOp) returns (out: Outcome, w: ImmVal)
      requires Valid() && MultiplicativeOp(Next(0).lexeme) == Some(op)
      modifies this`pos, this`warnings
      ensures Valid() && old(pos) < pos
      ensures var r := MultiplicativeTail(XEnv(), toks, old(pos), x, old(warnings));
        if out == Ret(true) then r == MultiplicativeTail(XEnv(), toks, pos, w, warnings)
        else out == r.out && w == r.v && pos == r.next && warnings == r.log
      decreases |toks| - pos, 2
    {
      MultiplicativeTurn(XEnv(), toks, pos, x, op, warnings);
      Skip();
      var rout, rv := ParseUnExpr(true, env.imm.initial);
      if rout.Throw? || rout.UB? {
        return rout, x;
      }
      match evaluator(x, op, rv)
      case Error(d) => return Throw(d), x;
      case Undefined => return Outcome.UB, x;
      case Value(nv) => return Ret(true), nv;
    }

    /** parseUnExpr: `-` or `~` before a primary, or a primary alone. */
    method ParseUnExpr(consumed: bool, v: ImmVal) returns (out: Outcome, w: ImmVal)
      requires Valid()
      modifies this`pos, this`warnings
      ensures Valid()
      ensures var r := Unary(XEnv(), toks, old(pos), consumed, v, old(warnings));
        out == r.out && w == r.v && pos == r.next && warnings == r.log
      decreases |toks| - pos, 2
    {
      var t := Next(0).lexeme;
      if t != SUB && t != TILDE {
        out, w := ParsePrimary(consumed, v);
        return;
      }
      Skip();
      out, w := ParsePrimary(true, v);
      if out.Throw? || out.UB? {
        return;
      }
      if t == SUB {
        w := env.imm.negate(w);
      } else if !IsIntegral(w) {
        return Throw(ArgumentMustBeIntegral), w;
      } else {
        w := ImmVal(w.kind, BitNot(w.bits));
      }
      out := Ret(true);
    }

    /** The rest of a qnan or snan symbol, whose token was just skipped: an
      * optional parenthesised payload. */
    method ParseNanSymbol(quiet: bool, v: ImmVal) returns (out: Outcome, w: ImmVal)
      requires Valid() && 0 < pos
      modifies this`pos, this`warnings
      ensures Valid()
      ensures var r := NanSymbol(XEnv(), toks, old(pos), quiet, v, old(warnings));
        out == r.out && w == r.v && pos == r.next && warnings == r.log
      decreases |toks| - pos, 0
    {
      var paren := Consume(LPAREN);
      if !paren {
        warnings := warnings + [BareNanDeprecated];
        var bits := if quiet then F64_EXP_MASK + F64_QNAN_BIT else F64_EXP_MASK + 1;
        return Ret(true), ImmVal(F64, bits);
      }
      out, w := ParseNanPayload(quiet, v);
    }

    /** The payload of qnan or snan after its '(', checked, and the ')'. */
    method ParseNanPayload(quiet: bool, v: ImmVal) returns (out: Outcome, w: ImmVal)
      requires Valid() && 0 < pos
      modifies this`pos, this`warnings
      ensures Valid()
      ensures var r := NanPayload(XEnv(), toks, old(pos), quiet, v, old(warnings));
        out == r.out && w == r.v && pos == r.next && warnings == r.log
      decreases |toks| - pos, 7
    {
      var pout, payload := ParseBitwiseExpr(true, ImmVal(env.imm.initial.kind, 0));
      if pout.Throw? || pout.UB? {
        return pout, v;
      } else if payload.bits >= F64_QNAN_BIT {
        return Throw(NanPayloadOverflows), v;
      } else if payload.bits == 0 && !quiet {
        return Throw(NanPayloadMustBeNonzero), v;
      }
      var closed := ConsumeOrFail(RPAREN, ExpectedRParen);
      if closed.Fail? {
        return Throw(closed.d), v;
      }
      return Ret(true), ImmVal(F64, NanBits(payload.bits, quiet));
    }

    /** parsePrimary: nan, qnan, snan and inf, a literal, a grouped
      * expression, or an identifier, which backs off or fails. */
    method ParsePrimary(consumed: bool, v: ImmVal) returns (out: Outcome, w: ImmVal)
      requires Valid()
      modifies this`pos, this`warnings
      ensures Valid()
      ensures var r := Primary(XEnv(), toks, old(pos), consumed, v, old(warnings));
        out == r.out && w == r.v && pos == r.next && warnings == r.log
      decreases |toks| - pos, 1
    {
      var t := Next(0);
      if IdentAt(toks, pos, "nan") {
        warnings := warnings + [NanDeprecated];
        Skip();
        return Ret(true), ImmVal(F64, F64_SNAN_BITS);
      } else if IdentAt(toks, pos, "qnan") || IdentAt(toks, pos, "snan") {
        var quiet := IdentAt(toks, pos, "qnan");
        Skip();
        out, w := ParseNanSymbol(quiet, v);
        return;
      } else if IdentAt(toks, pos, "inf") {
        Skip();
        return Ret(true), ImmVal(F64, F64_INF_BITS);
      } else if t.lexeme == FLTLIT {
        Skip();
        return Ret(true), ImmVal(F64, t.bits);
      } else if IsIntLit(t.lexeme) {
        // read as unsigned, tagged as signed
        Skip();
        return Ret(true), ImmVal(S64, t.bits);
      } else if t.lexeme == LPAREN {
        // the inner result is ignored, and so is a missing ')'
        Skip();
        out, w := ParseBitwiseExpr(true, v);
        if out.Throw? || out.UB? {
          return;
        }
        var _ := Consume(RPAREN);
        return Ret(true), w;
      } else if t.lexeme == IDENT {
        if XEnv().branchOrMov {
          out := if consumed then Throw(LabelArithmetic) else Ret(false);
        } else {
          out := if consumed then Ret(false) else Throw(NonBranchingSymbol);
        }
        return out, v;
      }
      out := if consumed then Throw(ConstExprSyntax) else Ret(false);
      w := v;
    }

    // ---- registers (GenParser) ----

    /** LookupReg: the register file named by the token's non-digit prefix
      * and, for a numbered file, the decimal number after it. */
    method LookupReg(s: string) returns (r: Option<(RegInfo, int)>)
      ensures r == RegLookup(env.model.regs, s)
    {
      var len := 0;
      while len < |s| && !IsDigit(s[len])
        invariant len <= |s|
        invariant forall i :: 0 <= i < len ==> !IsDigit(s[i])
      {
        len := len + 1;
      }
      assert len == NonDigitPrefix(s);
      if len == 0 || s[..len] !in env.model.regs {
        return None;
      }
      var ri := env.model.regs[s[..len]];
      if ri.numRegs == 0 {
        return Some((ri, 0));
      }
      var reg := 0;
      var off := len;
      while off < |s| && IsDigit(s[off])
        invariant len <= off <= |s|
        invariant AllDigits(s[len..off])
        invariant reg == DecimalValue(s[len..off])
      {
        assert s[len..off + 1][..off - len] == s[len..off];
        reg := 10 * reg + DigitValue(s[off]);
        off := off + 1;
      }
      if off < |s| {
        assert s[len..][off - len] == s[off];
        return None;
      }
      assert s[len..off] == s[len..];
      return Some((ri, reg));
    }

    /** PeekReg: the register the next token names, with the acc-to-mme
      * translation, and its warnings; the cursor stays. */
    method PeekReg() returns (r: Option<(RegInfo, int)>)
      requires Valid()
      modifies this`warnings
      ensures r == RegAt(env.model, toks, pos)
      ensures warnings == old(warnings) + RegAtWarnings(env.model, toks, pos)
    {
      var t := Next(0);
      if t.lexeme != IDENT {
        return None;
      }
      var found := LookupReg(t.text);
      if found.None? {
        return None;
      }
      var ri, n := found.value.0, found.value.1;
      if ri.regName == ARF_ACC && n >= ri.numRegs && env.model.mme.Some? {
        var mme := env.model.mme.value;
        ri, n := mme, n - mme.regNumBase;
        warnings := warnings + [MmeViaAcc];
      }
      if !ri.isRegNumberValid(n) {
        warnings := warnings + [RegisterNumberOutOfBounds];
      }
      return Some((ri, n));
    }

    /** ConsumeReg: PeekReg, skipping the register when there is one. */
    method ConsumeReg() returns (r: Option<(RegInfo, int)>)
      requires Valid()
      modifies this`pos, this`warnings
      ensures Valid()
      ensures r == RegAt(env.model, toks, old(pos))
      ensures warnings == old(warnings) + RegAtWarnings(env.model, toks, old(pos))
      ensures pos == if r.Some? then old(pos) + 1 else old(pos)
    {
      if Next(0).lexeme != IDENT {
        return None;
      }
      r := PeekReg();
      if r.Some? {
        Skip();
      }
    }

    /** TryParseConstExpr: a constant expression that consumes nothing is no
      * expression; a parsed one makes source ix (when ix >= 0) an
      * immediate.  Undefined behaviour in the evaluator is a failure here. */
    method TryParseConstExpr(ix: int, v: ImmVal) returns (r: Res<Option<ImmVal>>)
      requires Valid() && ix < 3
      modifies this`pos, this`warnings, this`srcKinds
      ensures Valid()
      ensures var x := Bitwise(XEnv(), toks, old(pos), false, v, old(warnings));
        pos == x.next && warnings == x.log &&
        r == (match x.out
              case Ret(b) => if b then Ok(Some(x.v)) else Ok(None)
              case Throw(d) => Fail(d)
              case UB => Fail(UndefinedBehaviour)) &&
        srcKinds == if x.out == Ret(true) && ix >= 0 then old(srcKinds)[ix := IMMEDIATE] else old(srcKinds)
    {
      var out, w := ParseBitwiseExpr(false, v);
      match out
      case Ret(b) =>
        if b {
          if ix >= 0 {
            srcKinds := srcKinds[ix := IMMEDIATE];
          }
          return Ok(Some(w));
        }
        return Ok(None);
      case Throw(d) => return Fail(d);
      case UB => return Fail(UndefinedBehaviour);
    }

    // ---- execution size ----

    /** ParseExecInfo: sets the instruction's execution size and reports it
      * with the channel offset. */
    method ParseExecInfo(dft: ExecSize) returns (r: Res<ChannelOffset>)
      requires Valid()
      modifies this`pos, this`execSize, this`events
      ensures Valid() && old(pos) <= pos
      ensures var x := ExecInfoAt(toks, old(pos), opSpec.Some? && opSpec.value.hasImplicitEm,
                                  env.opts.supportLegacyDirectives, dft);
        (x.Fail? ==> r == Fail(x.d) && events == old(events) && execSize == old(execSize)) &&
        (x.Ok? ==> r == Ok(x.value.1) && execSize == x.value.0 && pos == x.value.2 &&
                   events == old(events) + [InstExecInfo(x.value.0, x.value.1)])
    {
      var n: nat := 1;
      if LookingAt(LPAREN) && (Next(2).lexeme == RPAREN || Next(2).lexeme == PIPE) {
        r := ParseExecInfoParens();
        return;
      } else if opSpec.Some? && opSpec.value.hasImplicitEm {
        n := 1;
      } else if env.opts.supportLegacyDirectives {
        ExecSizeOfLanes(dft);
        n := Lanes(dft);
      } else {
        return Fail(ExpectedExecInfo);
      }
      r := SetExecInfo(n, M0);
    }

    /** ParseExecInfo's "(N)" or "(N|Mk)" form: the '(', the width and the
      * offset, the checked width made the execution size, and the callback. */
    method ParseExecInfoParens() returns (r: Res<ChannelOffset>)
      requires Valid() && LookingAt(LPAREN)
      modifies this`pos, this`execSize, this`events
      ensures Valid() && old(pos) <= pos
      ensures match ExecParensAt(toks, old(pos) + 1)
        case Fail(d) => r == Fail(d) && events == old(events) && execSize == old(execSize)
        case Ok((n, c, q)) =>
          match SizeOf(n)
          case Fail(d) => r == Fail(d) && events == old(events) && execSize == old(execSize)
          case Ok(e) => r == Ok(c) && execSize == e && pos == q && events == old(events) + [InstExecInfo(e, c)]
    {
      Skip();
      var parens := ParseExecParens();
      if parens.Fail? {
        return Fail(parens.d);
      }
      r := SetExecInfo(parens.value.0, parens.value.1);
    }

    /** The width n checked and made the instruction's execution size, and
      * reported with the channel offset. */
    method SetExecInfo(n: nat, chOff: ChannelOffset) returns (r: Res<ChannelOffset>)
      requires Valid()
      modifies this`execSize, this`events
      ensures Valid()
      ensures match SizeOf(n)
        case Fail(d) => r == Fail(d) && events == old(events) && execSize == old(execSize)
        case Ok(e) => r == Ok(chOff) && execSize == e && events == old(events) + [InstExecInfo(e, chOff)]
    {
      var es := ExecSizeOf(n);
      if es.None? {
        return Fail(InvalidSimdWidth);
      }
      execSize := es.value;
      events := events + [InstExecInfo(execSize, chOff)];
      return Ok(chOff);
    }

    /** The width and offset inside the parentheses, and the ')'. */
    method ParseExecParens() returns (r: Res<(nat, ChannelOffset)>)
      requires Valid()
      modifies this`pos
      ensures Valid() && old(pos) <= pos
      ensures var x := ExecParensAt(toks, old(pos));
        (x.Ok? ==> r.Ok? && r.value == (x.value.0, x.value.1) && pos == x.value.2) &&
        (x.Fail? ==> r.Fail? && r.d == x.d)
    {
      ghost var p0 := pos;
      var n := ConsumeIntLitOrFail(ExpectedSimdWidth);
      if n.Fail? {
        return Fail(n.d);
      }
      assert pos == p0 + 1;
      var chOff := M0;
      var pipe := Consume(PIPE);
      if pipe {
        var t := Next(0);
        if t.lexeme != IDENT {
          return Fail(ExpectedChOff);
        } else if ChOffOf(t.text).None? {
          return Fail(InvalidChOff);
        }
        Skip();
        chOff := ChOffOf(t.text).value;
        assert pos == p0 + 3;
      }
      var closeParen := ConsumeOrFail(RPAREN, ExpectedRParen);
      if closeParen.Fail? {
        return Fail(closeParen.d);
      }
      return Ok((n.value, chOff));
    }

    // ---- regions ----

    /** r and the cursor are what the grammar function's result x says. */
    ghost predicate Follows<T>(r: Res<T>, x: Res<(T, nat)>)
      reads this`pos
    {
      match x
      case Ok((v, q)) => r == Ok(v) && pos == q
      case Fail(d) => r == Fail(d)
    }

    ghost predicate RegionFollows(r: Res<Region>, x: Res<(Region, nat)>)
      reads this`pos
    {
      (x.Ok? ==> r.Ok? && r.value == x.value.0 && pos == x.value.1) && (x.Fail? ==> r.Fail? && r.d == x.d)
    }

    /** InstBuilder::isMacroOp for the current instruction. */
    function MacroOp(): bool
      reads this`opSpec, this`subfunction
    {
      opSpec.Some? && env.isMacroOp(opSpec.value.op, subfunction)
    }

    /** The current instruction's implicit region for source ix, if any. */
    function ImplicitSrcRegion(ix: int): Option<Region>
      requires opSpec.Some?
      reads this`opSpec, this`subfunction, this`execSize
    {
      if opSpec.value.hasImplicitSrcRegion(ix, execSize, MacroOp())
      then Some(opSpec.value.implicitSrcRegion(ix, execSize, MacroOp()))
      else None
    }

    method ParseRegionVert() returns (r: Res<Vert>)
      requires Valid()
      modifies this`pos
      ensures Valid() && old(pos) <= pos
      ensures Follows(r, VertAt(toks, old(pos)))
    {
      var xRes := ConsumeIntLitOrFail(ExpectedVertStride);
      if xRes.Fail? {
        return Fail(xRes.d);
      }
      var x := xRes.value;
      if VertOf(x).None? {
        return Fail(InvalidRegionVertStride);
      }
      return Ok(VertOf(x).value);
    }

    method ParseRegionWidth() returns (r: Res<Width>)
      requires Valid()
      modifies this`pos
      ensures Valid() && old(pos) <= pos
      ensures Follows(r, WidthAt(toks, old(pos)))
    {
      var xRes := ConsumeIntLitOrFail(ExpectedWidth);
      if xRes.Fail? {
        return Fail(xRes.d);
      }
      var x := xRes.value;
      if WidthOf(x).None? {
        return Fail(InvalidRegionWidth);
      }
      return Ok(WidthOf(x).value);
    }

    method ParseRegionHorz() returns (r: Res<Horz>)
      requires Valid()
      modifies this`pos
      ensures Valid() && old(pos) <= pos
      ensures Follows(r, HorzAt(toks, old(pos)))
    {
      var xRes := ConsumeIntLitOrFail(ExpectedHorzStride);
      if xRes.Fail? {
        return Fail(xRes.d);
      }
      var x := xRes.value;
      if HorzOf(x).None? {
        return Fail(InvalidRegionHorzStride);
      }
      return Ok(HorzOf(x).value);
    }

    /** The destination's stride when no region is written: that of its
      * implicit region, or 1. */
    function DstRegionDefault(): Horz
      requires opSpec.Some?
      reads this`opSpec, this`subfunction
    {
      if opSpec.value.hasImplicitDstRegion(MacroOp()) then opSpec.value.implicitDstRegion(MacroOp()).hz
      else HzStride(1)
    }

    /** ParseDstOpRegion: "<h>" or the default stride. */
    method ParseDstOpRegion() returns (r: Res<Horz>)
      requires Valid() && opSpec.Some?
      modifies this`pos
      ensures Valid() && old(pos) <= pos
      ensures Follows(r, DstRegionAt(toks, old(pos), DstRegionDefault()))
    {
      if !LookingAt(LANGLE) {
        return Ok(DstRegionDefault());
      }
      Skip();
      var xRes := ConsumeIntLitOrFail(ExpectedDstRegion);
      if xRes.Fail? {
        return Fail(xRes.d);
      }
      var x := xRes.value;
      if DstHorzOf(x).None? {
        return Fail(InvalidDstRegion);
      }
      var closeAngle := ConsumeOrFail(RANGLE, ExpectedRAngle);
      if closeAngle.Fail? {
        return Fail(closeAngle.d);
      }
      return Ok(DstHorzOf(x).value);
    }

    /** An explicit "<v;w,h>" region. */
    method ParseRegionVWHBody() returns (r: Res<Region>)
      requires Valid() && LookingAt(LANGLE)
      modifies this`pos
      ensures Valid() && old(pos) <= pos
      ensures RegionFollows(r, VWHAt(toks, old(pos) + 1))
    {
      Skip();
      var v := ParseRegionVert();
      if v.Fail? {
        return Fail(v.d);
      }
      var s := ConsumeOrFail(SEMI, ExpectedSemi);
      if s.Fail? {
        return Fail(s.d);
      }
      r := ParseRegionWH(v.value);
    }

    /** "w,h>" of an explicit region, after its ';'. */
    method ParseRegionWH(v: Vert) returns (r: Res<Region>)
      requires Valid()
      modifies this`pos
      ensures Valid() && old(pos) <= pos
      ensures RegionFollows(r, WHAt(toks, old(pos), v))
    {
      ghost var wx := WidthAt(toks, pos);
      var w := ParseRegionWidth();
      if w.Fail? {
        return Fail(w.d);
      }
      assert wx == Ok((w.value, pos));
      var comma := ConsumeOrFail(COMMA, ExpectedComma);
      if comma.Fail? {
        return Fail(comma.d);
      }
      ghost var hx := HorzAt(toks, pos);
      var h := ParseRegionHorz();
      if h.Fail? {
        return Fail(h.d);
      }
      assert hx == Ok((h.value, pos));
      var closeAngle := ConsumeOrFail(RANGLE, ExpectedRAngle);
      if closeAngle.Fail? {
        return Fail(closeAngle.d);
      }
      return Ok(Region(v, w.value, h.value));
    }

    /** ParseSrcOpRegionVWH: "<v;w,h>", else the implicit region, else the
      * default.  Writing a region the operation implies always warns. */
    method ParseSrcOpRegionVWH(ri: RegInfo, ix: int, explicitSub: bool) returns (r: Res<Region>)
      requires Valid() && opSpec.Some?
      modifies this`pos, this`warnings
      ensures Valid() && old(pos) <= pos
      ensures var imp := ImplicitSrcRegion(ix);
        var lt := Peek(toks, old(pos)).lexeme == LANGLE;
        (imp.Some? && !lt ==> r == Ok(imp.value) && pos == old(pos)) &&
        warnings == old(warnings) + (if imp.Some? && lt then [RegionShouldBeImplicit] else []) &&
        (lt ==> RegionFollows(r, VWHAt(toks, old(pos) + 1))) &&
        (imp.None? && !lt ==>
           r == Ok(DefaultVWH(opSpec.value, ri, ix, execSize, MacroOp(), explicitSub)) && pos == old(pos))
    {
      var imp := ImplicitSrcRegion(ix);
      if !LookingAt(LANGLE) {
        return if imp.Some? then Ok(imp.value) else Ok(DefaultVWH(opSpec.value, ri, ix, execSize, MacroOp(), explicitSub));
      }
      r := ParseRegionVWHBody();
      if imp.Some? {
        warnings := warnings + [RegionShouldBeImplicit];
      }
    }

    /** The deprecated-syntax warning for a written region the operation
      * implies. */
    function ImplicitRegionWarning(ix: int, lt: bool): seq<Warn>
      requires opSpec.Some?
      reads this`opSpec, this`subfunction, this`execSize
    {
      if ImplicitSrcRegion(ix).Some? && lt && env.opts.deprecatedSyntaxWarnings then [RegionShouldBeImplicit] else []
    }

    /** ParseSrcOpRegionVH (ternary src0 and src1): "<v;h>". */
    method ParseSrcOpRegionVH(ix: int, explicitSub: bool) returns (r: Res<Region>)
      requires Valid() && opSpec.Some?
      modifies this`pos, this`warnings
      ensures Valid() && old(pos) <= pos
      ensures var imp := ImplicitSrcRegion(ix);
        var lt := Peek(toks, old(pos)).lexeme == LANGLE;
        (imp.Some? && !lt ==> r == Ok(imp.value) && pos == old(pos)) &&
        warnings == old(warnings) + ImplicitRegionWarning(ix, lt) &&
        (lt ==> RegionFollows(r, VHAt(toks, old(pos) + 1))) &&
        (imp.None? && !lt ==> r == Ok(DefaultVH(env.model.platform, execSize, explicitSub)) && pos == old(pos))
    {
      var imp := ImplicitSrcRegion(ix);
      if !LookingAt(LANGLE) {
        return if imp.Some? then Ok(imp.value) else Ok(DefaultVH(env.model.platform, execSize, explicitSub));
      }
      r := ParseRegionVHBody();
      warnings := warnings + ImplicitRegionWarning(ix, true);
    }

    /** An explicit "<v;h>" region. */
    method ParseRegionVHBody() returns (r: Res<Region>)
      requires Valid() && LookingAt(LANGLE)
      modifies this`pos
      ensures Valid() && old(pos) <= pos
      ensures RegionFollows(r, VHAt(toks, old(pos) + 1))
    {
      Skip();
      ghost var vx := VertAt(toks, pos);
      var vRes := ParseRegionVert();
      if vRes.Fail? {
        return Fail(vRes.d);
      }
      var v := vRes.value;
      assert vx == Ok((v, pos));
      var semi := ConsumeOrFail(SEMI, ExpectedSemi);
      if semi.Fail? {
        return Fail(semi.d);
      }
      ghost var hx := HorzAt(toks, pos);
      var hRes := ParseRegionHorz();
      if hRes.Fail? {
        return Fail(hRes.d);
      }
      var h := hRes.value;
      assert hx == Ok((h, pos));
      var closeAngle := ConsumeOrFail(RANGLE, ExpectedRAngle);
      if closeAngle.Fail? {
        return Fail(closeAngle.d);
      }
      return Ok(Region(v, WI_INVALID, h));
    }

    /** ParseSrcOpRegionH (ternary src2): "<h>". */
    method ParseSrcOpRegionH(ix: int, explicitSub: bool) returns (r: Res<Region>)
      requires Valid() && opSpec.Some?
      modifies this`pos, this`warnings
      ensures Valid() && old(pos) <= pos
      ensures var imp := ImplicitSrcRegion(ix);
        var lt := Peek(toks, old(pos)).lexeme == LANGLE;
        (imp.Some? && !lt ==> r == Ok(imp.value) && pos == old(pos)) &&
        warnings == old(warnings) + ImplicitRegionWarning(ix, lt) &&
        (lt ==> RegionFollows(r, HAt(toks, old(pos) + 1))) &&
        (imp.None? && !lt ==> r == Ok(DefaultH(execSize, explicitSub)) && pos == old(pos))
    {
      var imp := ImplicitSrcRegion(ix);
      if !LookingAt(LANGLE) {
        return if imp.Some? then Ok(imp.value) else Ok(DefaultH(execSize, explicitSub));
      }
      r := ParseRegionHBody();
      warnings := warnings + ImplicitRegionWarning(ix, true);
    }

    /** An explicit "<h>" source region. */
    method ParseRegionHBody() returns (r: Res<Region>)
      requires Valid() && LookingAt(LANGLE)
      modifies this`pos
      ensures Valid() && old(pos) <= pos
      ensures RegionFollows(r, HAt(toks, old(pos) + 1))
    {
      Skip();
      var hRes := ParseRegionHorz();
      if hRes.Fail? {
        return Fail(hRes.d);
      }
      var h := hRes.value;
      var closeAngle := ConsumeOrFail(RANGLE, ExpectedRAngle);
      if closeAngle.Fail? {
        return Fail(closeAngle.d);
      }
      return Ok(Region(VT_INVALID, WI_INVALID, h));
    }

    /** ParseSrcOpRegionInd: "<w,h>" (VxH) or "<v;w,h>", else the implicit
      * region, else <1;1,0>. */
    method ParseSrcOpRegionInd(ix: int) returns (r: Res<Region>)
      requires Valid() && opSpec.Some?
      modifies this`pos, this`warnings
      ensures Valid() && old(pos) <= pos
      ensures warnings == old(warnings) + ImplicitRegionWarning(ix, Peek(toks, old(pos)).lexeme == LANGLE)
      ensures Peek(toks, old(pos)).lexeme == LANGLE ==> RegionFollows(r, IndRegionAt(toks, old(pos) + 1))
      ensures Peek(toks, old(pos)).lexeme != LANGLE ==>
        pos == old(pos) && r == Ok(if ImplicitSrcRegion(ix).Some? then ImplicitSrcRegion(ix).value else SRC110)
    {
      var imp := ImplicitSrcRegion(ix);
      if !LookingAt(LANGLE) {
        return Ok(if imp.Some? then imp.value else SRC110);
      }
      r := ParseRegionIndBody();
      warnings := warnings + ImplicitRegionWarning(ix, true);
    }

    /** An explicit indirect source region, "<w,h>" or "<v;w,h>". */
    method ParseRegionIndBody() returns (r: Res<Region>)
      requires Valid() && LookingAt(LANGLE)
      modifies this`pos
      ensures Valid() && old(pos) <= pos
      ensures RegionFollows(r, IndRegionAt(toks, old(pos) + 1))
    {
      Skip();
      var a := ConsumeIntLitOrFail(ExpectedSrcRegion);
      if a.Fail? {
        return Fail(a.d);
      }
      var comma := Consume(COMMA);
      if comma {
        r := ParseIndVxHTail(a.value);
      } else {
        r := ParseIndVWHTail(a.value);
      }
    }

    /** "<w,h>" after the ',': the width w was read first. */
    method ParseIndVxHTail(w: nat) returns (r: Res<Region>)
      requires Valid()
      modifies this`pos
      ensures Valid() && old(pos) <= pos
      ensures RegionFollows(r, IndVxHAt(toks, old(pos), w))
    {
      if WidthOf(w).None? {
        return Fail(InvalidRegionWidth);
      }
      var h := ParseRegionHorz();
      if h.Fail? {
        return Fail(h.d);
      }
      var closeAngle := ConsumeOrFail(RANGLE, ExpectedRAngle);
      if closeAngle.Fail? {
        return Fail(closeAngle.d);
      }
      return Ok(Region(VT_VxH, WidthOf(w).value, h.value));
    }

    /** "<v;w,h>" from the ';': the vertical stride v was read first. */
    method ParseIndVWHTail(v: nat) returns (r: Res<Region>)
      requires Valid()
      modifies this`pos
      ensures Valid() && old(pos) <= pos
      ensures RegionFollows(r, IndVWHAt(toks, old(pos), v))
    {
      var semi := ConsumeOrFail(SEMI, ExpectedSemi);
      if semi.Fail? {
        return Fail(semi.d);
      }
      if VertOf(v).None? {
        return Fail(InvalidRegionVertStride);
      }
      r := ParseRegionWH(VertOf(v).value);
    }

    // ---- indirect operands ----

    /** ParseAddrRegRefOpt: no register is no address (nothing consumed);
      * otherwise the a0 check, '.', and the subregister. */
    method ParseAddrRegRefOpt() returns (r: Res<Option<RegRef>>)
      requires Valid()
      modifies this`pos, this`warnings
      ensures Valid() && old(pos) <= pos
      ensures warnings == old(warnings) + RegAtWarnings(env.model, toks, old(pos))
      ensures var reg := RegAt(env.model, toks, old(pos));
        (reg.None? ==> r == Ok(None) && pos == old(pos)) &&
        (reg.Some? ==> match AddrRegAt(toks, old(pos) + 1, reg.value.0.regName, reg.value.1)
                       case Ok((rr, q)) => r == Ok(Some(rr)) && pos == q
                       case Fail(d) => r == Fail(d))
    {
      var reg := ConsumeReg();
      if reg.None? {
        return Ok(None);
      }
      if reg.value.0.regName != ARF_A && reg.value.1 != 0 {
        return Fail(ExpectedA0);
      }
      var dot := ConsumeOrFail(DOT, ExpectedAddrDot);
      if dot.Fail? {
        return Fail(dot.d);
      }
      var subRes := ConsumeIntLitOrFail(ExpectedAddrSubregNum);
      if subRes.Fail? {
        return Fail(subRes.d);
      }
      var sub := subRes.value;
      return Ok(Some(RegRef(0, sub)));
    }

    /** ParseIndOpArgs: "[a0.n]" with an optional offset in [-512, 511]. */
    method ParseIndOpArgs() returns (r: Res<(RegRef, int)>)
      requires Valid()
      modifies this`pos, this`warnings
      ensures Valid() && old(pos) <= pos
      ensures warnings == old(warnings) +
        (if Peek(toks, old(pos)).lexeme == LBRACK then RegAtWarnings(env.model, toks, old(pos) + 1) else [])
      ensures match IndArgsAt(env.model, toks, old(pos))
        case Ok((a, o, q)) => r == Ok((a, o)) && pos == q
        case Fail(d) => r == Fail(d)
    {
      var openBrack := ConsumeOrFail(LBRACK, ExpectedLBrack);
      if openBrack.Fail? {
        return Fail(openBrack.d);
      }
      r := ParseIndAddrOffset();
    }

    /** The address register, its subregister and the offset, after '['. */
    method ParseIndAddrOffset() returns (r: Res<(RegRef, int)>)
      requires Valid()
      modifies this`pos, this`warnings
      ensures Valid() && old(pos) <= pos
      ensures warnings == old(warnings) + RegAtWarnings(env.model, toks, old(pos))
      ensures match IndAddrOffsetAt(env.model, toks, old(pos))
        case Ok((a, o, q)) => r == Ok((a, o)) && pos == q
        case Fail(d) => r == Fail(d)
    {
      var aRes := ParseAddrRegRefOpt();
      if aRes.Fail? {
        return Fail(aRes.d);
      }
      if aRes.value.None? {
        return Fail(ExpectedAddrSubregister);
      }
      var o := ParseIndOffsetClose();
      if o.Fail? {
        return Fail(o.d);
      }
      return Ok((aRes.value.value, o.value));
    }

    /** The offset, its range check and the closing ']'. */
    method ParseIndOffsetClose() returns (r: Res<int>)
      requires Valid()
      modifies this`pos
      ensures Valid() && old(pos) <= pos
      ensures var x := IndOffsetAt(toks, old(pos));
        (x.Ok? ==> r == Ok(x.value.0) && pos == x.value.1) && (x.Fail? ==> r == Fail(x.d))
    {
      var o := ParseIndOffset();
      if o.Fail? {
        return Fail(o.d);
      }
      if o.value < -512 || o.value > 511 {
        return Fail(IndirectOffsetOutOfRange);
      }
      var closeBrack := ConsumeOrFail(RBRACK, ExpectedRBrack);
      if closeBrack.Fail? {
        return Fail(closeBrack.d);
      }
      return Ok(o.value);
    }

    /** The offset of an indirect operand as written. */
    method ParseIndOffset() returns (r: Res<int>)
      requires Valid()
      modifies this`pos
      ensures Valid() && old(pos) <= pos
      ensures var x := OffsetAt(toks, old(pos));
        (x.Ok? ==> r.Ok? && r.value == x.value.0 && pos == x.value.1) && (x.Fail? ==> r.Fail? && r.d == x.d)
    {
      ghost var p0 := pos;
      var comma := Consume(COMMA);
      if comma {
        var neg := Consume(SUB);
        assert pos == if neg then p0 + 2 else p0 + 1;
        var k := ConsumeIntLitOrFail(ExpectedIndirectOffset);
        if k.Fail? {
          return Fail(k.d);
        }
        return Ok(if neg then -(k.value as int) else k.value);
      }
      var add := Consume(ADD);
      if add {
        assert pos == p0 + 1;
        var k := ConsumeIntLitOrFail(ExpectedIndirectOffset);
        if k.Fail? {
          return Fail(k.d);
        }
        return Ok(k.value);
      }
      var sub := Consume(SUB);
      if sub {
        assert pos == p0 + 1;
        var k := ConsumeIntLitOrFail(ExpectedIndirectOffset);
        if k.Fail? {
          return Fail(k.d);
        }
        return Ok(-(k.value as int));
      }
      return Ok(0);
    }

    // ---- operand types ----

    /** TryParseOpType: a written type, or INVALID with nothing consumed. */
    method TryParseOpType(src: bool) returns (t: Type)
      requires Valid()
      modifies this`pos
      ensures Valid()
      ensures (t, pos) == TypeAt(toks, old(pos), src)
    {
      var n := Next(1);
      var ty := if src then SrcTypeOf(n.text) else DstTypeOf(n.text);
      if LookingAt(COLON) && n.lexeme == IDENT && ty.Some? {
        Skip();
        Skip();
        return ty.value;
      }
      return INVALID;
    }

    /** ParseOpTypeWithDefault at p: the written type, else the first
      * fallback, else the failure d; and the position after. */
    function TypeWithDefaultAt(p: nat, src: bool, d: Diag): (Res<Type>, nat)
      requires opSpec.Some?
      reads this`opSpec, this`defaultRegisterType
    {
      var (t, q) := TypeAt(toks, p, src);
      if t != INVALID then (Ok(t), q)
      else match TypeDefault(defaultRegisterType, opSpec.value, env.model)
        case Some(t') => (Ok(t'), q)
        case None => (Fail(d), q)
    }

    method ParseOpTypeWithDefault(src: bool, d: Diag) returns (r: Res<Type>)
      requires Valid() && opSpec.Some?
      modifies this`pos
      ensures Valid()
      ensures (r, pos) == TypeWithDefaultAt(old(pos), src, d)
    {
      ghost var p0 := pos;
      var t := TryParseOpType(src);
      assert TypeWithDefaultAt(p0, src, d).1 == pos;
      if t != INVALID {
        return Ok(t);
      }
      var os := opSpec.value;
      if defaultRegisterType != INVALID {
        return Ok(defaultRegisterType);
      } else if os.isSendOrSendsFamily {
        return Ok(UD);
      } else if os.isBranching && env.model.supportsSimplifiedBranches {
        return Ok(UD);
      } else if os.op == SYNC {
        return Ok(Type.UB);
      }
      return Fail(d);
    }

    /** ParseDstOpTypeWithDefault: an operation's implicit destination type
      * wins over a written one, which is still parsed (and can still fail)
      * and draws a deprecated-syntax warning. */
    method ParseDstOpTypeWithDefault() returns (r: Res<Type>)
      requires Valid() && opSpec.Some?
      modifies this`pos, this`warnings
      ensures Valid() && old(pos) <= pos
      ensures var implicitTy := opSpec.value.implicitDstType;
        var colon := Peek(toks, old(pos)).lexeme == COLON;
        var (pr, q) := TypeWithDefaultAt(old(pos), false, ExpectedDstType);
        if implicitTy.Some? then
          warnings == old(warnings) +
            (if colon && env.opts.deprecatedSyntaxWarnings then [ImplicitDstTypeShouldBeOmitted] else []) &&
          (colon ==> pos == q && r == (if pr.Fail? then Fail(pr.d) else Ok(implicitTy.value))) &&
          (!colon ==> pos == old(pos) && r == Ok(implicitTy.value))
        else warnings == old(warnings) && pos == q && r == pr
    {
      var implicitTy := opSpec.value.implicitDstType;
      if implicitTy.Some? {
        if LookingAt(COLON) {
          if env.opts.deprecatedSyntaxWarnings {
            warnings := warnings + [ImplicitDstTypeShouldBeOmitted];
          }
          var ignored := ParseOpTypeWithDefault(false, ExpectedDstType);
          if ignored.Fail? {
            return Fail(ignored.d);
          }
        }
        return Ok(implicitTy.value);
      }
      r := ParseOpTypeWithDefault(false, ExpectedDstType);
    }

    /** ParseSrcOpTypeWithDefault: as for the destination; a mov of a label
      * with no implicit type is :ud. */
    method ParseSrcOpTypeWithDefault(ix: int, immOrLbl: bool, isLabel: bool) returns (r: Res<Type>)
      requires Valid() && opSpec.Some?
      modifies this`pos, this`warnings
      ensures Valid() && old(pos) <= pos
      ensures var os := opSpec.value;
        var colon := Peek(toks, old(pos)).lexeme == COLON;
        var (pr, q) := TypeWithDefaultAt(old(pos), true, ExpectedSrcType);
        if os.hasImplicitSrcType(ix, immOrLbl) then
          warnings == old(warnings) +
            (if colon && env.opts.deprecatedSyntaxWarnings then [ImplicitSrcTypeShouldBeOmitted] else []) &&
          (colon ==> pos == q && r == (if pr.Fail? then Fail(pr.d) else Ok(os.implicitSrcType(ix, immOrLbl)))) &&
          (!colon ==> pos == old(pos) && r == Ok(os.implicitSrcType(ix, immOrLbl)))
        else if os.op == MOV && immOrLbl && isLabel then warnings == old(warnings) && pos == old(pos) && r == Ok(UD)
        else warnings == old(warnings) && pos == q && r == pr
    {
      var os := opSpec.value;
      if os.hasImplicitSrcType(ix, immOrLbl) {
        if LookingAt(COLON) {
          if env.opts.deprecatedSyntaxWarnings {
            warnings := warnings + [ImplicitSrcTypeShouldBeOmitted];
          }
          var ignored := ParseOpTypeWithDefault(true, ExpectedSrcType);
          if ignored.Fail? {
            return Fail(ignored.d);
          }
        }
        return Ok(os.implicitSrcType(ix, immOrLbl));
      } else if os.op == MOV && immOrLbl && isLabel {
        return Ok(UD);
      }
      r := ParseOpTypeWithDefault(true, ExpectedSrcType);
    }

    /** ParseSrcOpTypeWithoutDefault (immediates): a type must be written,
      * except on a branch where the platform still types branch operands
      * (there INVALID passes). */
    method ParseSrcOpTypeWithoutDefault(ix: int, immOrLbl: bool) returns (r: Res<Type>)
      requires Valid() && opSpec.Some?
      modifies this`pos, this`warnings
      ensures Valid()
      ensures var os := opSpec.value;
        var colon := Peek(toks, old(pos)).lexeme == COLON;
        var (t, q) := TypeAt(toks, old(pos), true);
        pos == q &&
        if os.hasImplicitSrcType(ix, immOrLbl) then
          warnings == old(warnings) +
            (if colon && env.opts.deprecatedSyntaxWarnings then [ImplicitSrcTypeShouldBeOmitted] else []) &&
          r == Ok(os.implicitSrcType(ix, immOrLbl))
        else
          warnings == old(warnings) &&
          r == if t == INVALID && !(os.isBranching && !env.model.supportsSimplifiedBranches) then Fail(ExpectedSrcType) else Ok(t)
    {
      var os := opSpec.value;
      if os.hasImplicitSrcType(ix, immOrLbl) {
        if LookingAt(COLON) {
          if env.opts.deprecatedSyntaxWarnings {
            warnings := warnings + [ImplicitSrcTypeShouldBeOmitted];
          }
          var _ := TryParseOpType(true);
        }
        return Ok(os.implicitSrcType(ix, immOrLbl));
      }
      var t := TryParseOpType(true);
      if t == INVALID && !(os.isBranching && !env.model.supportsSimplifiedBranches) {
        return Fail(ExpectedSrcType);
      }
      return Ok(t);
    }

    /** ParseSendOperandTypeWithDefault: ":t" with t a destination type name,
      * or the send default. */
    method ParseSendOperandTypeWithDefault(ix: int) returns (r: Res<Type>)
      requires Valid() && opSpec.Some?
      modifies this`pos
      ensures Valid() && old(pos) <= pos
      ensures var t := Peek(toks, old(pos) + 1);
        if Peek(toks, old(pos)).lexeme == COLON then
          (t.lexeme != IDENT ==> r == Fail(ExpectedSendOperandType)) &&
          (t.lexeme == IDENT && DstTypeOf(t.text).None? ==> r == Fail(UnexpectedSendOperandType)) &&
          (t.lexeme == IDENT && DstTypeOf(t.text).Some? ==> r == Ok(DstTypeOf(t.text).value) && pos == old(pos) + 2)
        else r == Ok(SendDefaultType(opSpec.value, ix)) && pos == old(pos)
    {
      var colon := Consume(COLON);
      if !colon {
        return Ok(SendDefaultType(opSpec.value, ix));
      }
      var t := Next(0);
      if t.lexeme != IDENT {
        return Fail(ExpectedSendOperandType);
      } else if DstTypeOf(t.text).None? {
        return Fail(UnexpectedSendOperandType);
      }
      Skip();
      return Ok(DstTypeOf(t.text).value);
    }

    // ---- operands ----

    /** Exactly one builder callback was added. */
    twostate predicate LoggedOne()
      reads this`events
    {
      |events| == |old(events)| + 1 && events[..|old(events)|] == old(events)
    }

    /** The last builder callback. */
    function LastEvent(): Event
      requires |events| > 0
      reads this`events
    {
      events[|events| - 1]
    }

    /** The warning w, if there is one, is the last one issued. */
    predicate LastWarned(w: Option<Warn>)
      reads this`warnings
    {
      w.Some? ==> |warnings| > 0 && warnings[|warnings| - 1] == w.value
    }

    /** Source ix was parsed: one callback for slot ix, of the kind now
      * recorded for it, and no other slot's kind changed. */
    twostate predicate SrcLogged(ix: nat)
      reads this`events, this`srcKinds
    {
      LoggedOne() && ix < |srcKinds| == |old(srcKinds)| && srcKinds[ix] != KIND_INVALID &&
      srcKinds == old(srcKinds)[ix := srcKinds[ix]] && SrcOperandOf(LastEvent()) == Some((ix, srcKinds[ix]))
    }

    /** ParseSrcModifierOpt: '-' or '~' negates; "(abs)" or an opening '|'
      * takes the absolute value.  pipeAbs says the '|' form was used, so a
      * closing '|' is due. */
    method ParseSrcModifierOpt() returns (mods: SrcModifier, pipeAbs: bool)
      requires Valid()
      modifies this`pos
      ensures Valid() && (mods, pipeAbs, pos) == SrcModsAt(toks, old(pos))
    {
      var neg := LookingAt(SUB) || LookingAt(TILDE);
      if neg {
        Skip();
      }
      pipeAbs := LookingAt(PIPE);
      var abs := LookingAt(Lexeme.ABS) || pipeAbs;
      if abs {
        Skip();
      }
      mods := if abs then (if neg then NEG_ABS else SrcModifier.ABS) else if neg then NEG else NONE;
    }

    /** ParseMathMacroReg: the implicit accumulator operand of a math macro. */
    method ParseMathMacroReg() returns (r: Res<MathMacroExt>)
      requires Valid()
      modifies this`pos, this`warnings
      ensures Valid() && old(pos) <= pos && old(warnings) <= warnings
      ensures var x := MathMacroAt(env.model.platform, toks, old(pos));
        (x.Ok? ==> r == Ok(x.value.0) && pos == x.value.2 &&
                   warnings == old(warnings) + (if x.value.1 then [OldStyleMathMacroReg] else [])) &&
        (x.Fail? ==> r == Fail(x.d) && warnings == old(warnings))
    {
      var dot := ConsumeOrFail(DOT, ExpectedMathMacroReg);
      if dot.Fail? {
        return Fail(dot.d);
      }
      var t := Next(0);
      if t.lexeme == IDENT && MathMacroRegOf(t.text).Some? {
        Skip();
        return Ok(MathMacroRegOf(t.text).value);
      }
      if env.model.platform.Ord() < XE.Ord() && t.lexeme == IDENT && MathMacroRegOldStyleOf(t.text).Some? {
        Skip();
        warnings := warnings + [OldStyleMathMacroReg];
        return Ok(MathMacroRegOldStyleOf(t.text).value);
      }
      return Fail(ExpectedMathMacroReg);
    }

    /** The subregister after '.', if there is one (0 otherwise), and
      * whether it was written. */
    method ParseSubregOpt() returns (r: Res<(nat, bool)>)
      requires Valid()
      modifies this`pos
      ensures Valid() && old(pos) <= pos
      ensures Peek(toks, old(pos)).lexeme != DOT ==> r == Ok((0, false)) && pos == old(pos)
      ensures Peek(toks, old(pos)).lexeme == DOT ==>
        r == (if IsIntLit(Peek(toks, old(pos) + 1).lexeme) then Ok((Peek(toks, old(pos) + 1).value, true))
              else Fail(ExpectedSubregister))
    {
      var dot := Consume(DOT);
      if !dot {
        return Ok((0, false));
      }
      var s := ConsumeIntLitOrFail(ExpectedSubregister);
      if s.Fail? {
        return Fail(s.d);
      }
      return Ok((s.value, true));
    }

    /** The source region by operation shape: <v;h> for ternary src0 and
      * src1, <h> for ternary src2, <v;w,h> otherwise.  With no region
      * written, the operation's implicit region, else the default. */
    method ParseSrcRegionByShape(ri: RegInfo, ix: nat, explicitSub: bool) returns (r: Res<Region>)
      requires Valid() && opSpec.Some?
      modifies this`pos, this`warnings
      ensures Valid() && old(pos) <= pos && old(warnings) <= warnings
      ensures Peek(toks, old(pos)).lexeme != LANGLE && ImplicitSrcRegion(ix).Some? ==>
        r == Ok(ImplicitSrcRegion(ix).value)
      ensures Peek(toks, old(pos)).lexeme != LANGLE && ImplicitSrcRegion(ix).None? && !opSpec.value.isTernary ==>
        r == Ok(DefaultVWH(opSpec.value, ri, ix, execSize, MacroOp(), explicitSub))
    {
      if opSpec.value.isTernary {
        if ix < 2 {
          r := ParseSrcOpRegionVH(ix, explicitSub);
        } else {
          r := ParseSrcOpRegionH(ix, explicitSub);
        }
      } else {
        r := ParseSrcOpRegionVWH(ri, ix, explicitSub);
      }
    }

    /** A direct or immediate source's type: a send's operand type, else the
      * source type with its defaults. */
    method ParseSrcOpTypeFor(ix: nat) returns (r: Res<Type>)
      requires Valid() && opSpec.Some?
      modifies this`pos, this`warnings
      ensures Valid() && old(pos) <= pos && old(warnings) <= warnings
      ensures r.Ok? && Peek(toks, old(pos)).lexeme != COLON && opSpec.value.isSendOrSendsFamily ==>
        r.value == SendDefaultType(opSpec.value, ix)
    {
      if opSpec.value.isSendOrSendsFamily {
        r := ParseSendOperandTypeWithDefault(ix);
      } else {
        r := ParseSrcOpTypeWithDefault(ix, false, false);
      }
    }

    /** The region, type, subregister check and callback of a direct source
      * whose register and subregister (or math macro register) are known;
      * the register number and subregister are reported truncated to 8
      * bits. */
    method FinishSrcOpRgnTy(ix: nat, mods: SrcModifier, ri: RegInfo, regNum: int, sub: nat, explicitSub: bool,
                            mme: MathMacroExt) returns (r: Status)
      requires Valid() && opSpec.Some?
      modifies this`pos, this`warnings, this`events
      ensures Valid() && old(pos) <= pos && old(warnings) <= warnings
      ensures r.Fail? ==> events == old(events)
      ensures r.Ok? ==> (LoggedOne() && (LastEvent().InstSrcOpRegDirect? || LastEvent().InstSrcOpRegMathMacroExtReg?) &&
        LastEvent() == DirectSrcEvent(ix, mods, ri, regNum, sub, mme, LastEvent().rgn, LastEvent().ty) &&
        LastWarned(SrcSubregCheck(env.model, ri, regNum, sub, LastEvent().ty)))
    {
      var rgn := ParseSrcRegionByShape(ri, ix, explicitSub);
      if rgn.Fail? {
        return Fail(rgn.d);
      }
      r := EmitSrcOpDirect(ix, mods, ri, regNum, sub, mme, rgn.value);
    }

    /** The callback for a direct source: the math macro form for a macro
      * operation, else the register with its number and subregister
      * truncated to 8 bits. */
    function DirectSrcEvent(ix: nat, mods: SrcModifier, ri: RegInfo, regNum: int, sub: nat, mme: MathMacroExt,
                            rgn: Region, ty: Type): (e: Event)
      reads this`opSpec, this`subfunction
      ensures SrcOperandOf(e) == Some((ix, DIRECT)) && e.rgn == rgn && e.ty == ty
    {
      if MacroOp() then InstSrcOpRegMathMacroExtReg(ix, mods, ri.regName, regNum, mme, rgn, ty)
      else InstSrcOpRegDirect(ix, mods, ri.regName, RegRef(regNum % 256, sub % 256), rgn, ty)
    }

    /** The type of a direct source, the subregister check, and the
      * callback. */
    method EmitSrcOpDirect(ix: nat, mods: SrcModifier, ri: RegInfo, regNum: int, sub: nat, mme: MathMacroExt,
                           rgn: Region) returns (r: Status)
      requires Valid() && opSpec.Some?
      modifies this`pos, this`warnings, this`events
      ensures Valid() && old(pos) <= pos && old(warnings) <= warnings
      ensures r.Fail? ==> events == old(events)
      ensures r.Ok? ==> (LoggedOne() && (LastEvent().InstSrcOpRegDirect? || LastEvent().InstSrcOpRegMathMacroExtReg?) &&
        LastEvent() == DirectSrcEvent(ix, mods, ri, regNum, sub, mme, rgn, LastEvent().ty) &&
        LastWarned(SrcSubregCheck(env.model, ri, regNum, sub, LastEvent().ty)))
    {
      var ty := ParseSrcOpTypeFor(ix);
      if ty.Fail? {
        return Fail(ty.d);
      }
      warnings := warnings + OptSeq(SrcSubregCheck(env.model, ri, regNum, sub, ty.value));
      events := events + [DirectSrcEvent(ix, mods, ri, regNum, sub, mme, rgn, ty.value)];
      return Ok(());
    }

    /** FinishSrcOpRegDirSubRegRgnTy: the rest of a direct source after its
      * register: a math macro names its accumulator register, any other
      * operation may write a subregister; then the region, the type and the
      * check.  The result is the subregister (0 for a macro). */
    method FinishSrcOpRegDirSubRegRgnTy(ix: nat, mods: SrcModifier, ri: RegInfo, regNum: int)
      returns (r: Res<nat>)
      requires Valid() && opSpec.Some?
      modifies this`pos, this`warnings, this`events
      ensures Valid() && old(pos) <= pos && old(warnings) <= warnings
      ensures r.Fail? ==> events == old(events)
      ensures r.Ok? ==> (LoggedOne() && SrcOperandOf(LastEvent()) == Some((ix, DIRECT)) &&
        (MacroOp() ==> r.value == 0 && LastEvent().InstSrcOpRegMathMacroExtReg? && LastEvent().regNum == regNum) &&
        (!MacroOp() ==> LastEvent().InstSrcOpRegDirect? && LastEvent().rr == RegRef(regNum % 256, r.value % 256)) &&
        LastWarned(SrcSubregCheck(env.model, ri, regNum, r.value, LastEvent().ty)))
      ensures !MacroOp() && Peek(toks, old(pos)).lexeme == DOT && !IsIntLit(Peek(toks, old(pos) + 1).lexeme) ==>
        r == Fail(ExpectedSubregister)
    {
      var part := ParseSrcSubregPart();
      if part.Fail? {
        return Fail(part.d);
      }
      var (sub, explicitSub, mme) := part.value;
      var f := FinishSrcOpRgnTy(ix, mods, ri, regNum, sub, explicitSub, mme);
      return if f.Fail? then Fail(f.d) else Ok(sub);
    }

    /** What follows a direct source's register before its region: a math
      * macro's accumulator register, or an optional subregister (and
      * whether it was written). */
    method ParseSrcSubregPart() returns (r: Res<(nat, bool, MathMacroExt)>)
      requires Valid() && opSpec.Some?
      modifies this`pos, this`warnings
      ensures Valid() && old(pos) <= pos && old(warnings) <= warnings
      ensures r.Ok? && MacroOp() ==> r.value.0 == 0 && !r.value.1
      ensures MacroOp() && MathMacroAt(env.model.platform, toks, old(pos)).Fail? ==> r.Fail?
      ensures !MacroOp() && Peek(toks, old(pos)).lexeme == DOT && !IsIntLit(Peek(toks, old(pos) + 1).lexeme) ==>
        r == Fail(ExpectedSubregister)
    {
      if MacroOp() {
        var m := ParseMathMacroReg();
        if m.Fail? {
          return Fail(m.d);
        }
        return Ok((0, false, m.value));
      }
      var s := ParseSubregOpt();
      if s.Fail? {
        return Fail(s.d);
      }
      return Ok((s.value.0, s.value.1, MME_INVALID));
    }

    /** The indirect region, the type and the callback of "r[a0.n, off]". */
    method FinishSrcOpInd(ix: nat, mods: SrcModifier, a: RegRef, off: int) returns (r: Status)
      requires Valid() && opSpec.Some?
      modifies this`pos, this`warnings, this`events
      ensures Valid() && old(pos) <= pos && old(warnings) <= warnings
      ensures r.Fail? ==> events == old(events)
      ensures r.Ok? ==> (LoggedOne() && LastEvent().InstSrcOpRegIndirect? &&
        LastEvent().ix == ix && LastEvent().mods == mods && LastEvent().addr == a && LastEvent().addrOff == off)
      ensures r.Ok? && Peek(toks, old(pos)).lexeme != LANGLE && ImplicitSrcRegion(ix).None? ==>
        LastEvent().InstSrcOpRegIndirect? && LastEvent().rgn == SRC110
    {
      var rgn := ParseSrcOpRegionInd(ix);
      if rgn.Fail? {
        return Fail(rgn.d);
      }
      r := EmitSrcOpInd(ix, mods, a, off, rgn.value);
    }

    /** The type of an indirect source, and its callback. */
    method EmitSrcOpInd(ix: nat, mods: SrcModifier, a: RegRef, off: int, rgn: Region) returns (r: Status)
      requires Valid() && opSpec.Some?
      modifies this`pos, this`warnings, this`events
      ensures Valid() && old(pos) <= pos && old(warnings) <= warnings
      ensures r.Fail? ==> events == old(events)
      ensures r.Ok? ==> (LoggedOne() && LastEvent().InstSrcOpRegIndirect? &&
        LastEvent() == InstSrcOpRegIndirect(ix, mods, a, off, rgn, LastEvent().ty))
    {
      var ty := ParseSrcOpTypeWithDefault(ix, true, false);
      if ty.Fail? {
        return Fail(ty.d);
      }
      events := events + [InstSrcOpRegIndirect(ix, mods, a, off, rgn, ty.value)];
      return Ok(());
    }

    /** ParseSrcOpInd: "[a0.n, off]" after "r", the indirect region and the
      * type; baseOff is added after the offset's range check.  The operand
      * is indirect from the start, even when the parse then fails. */
    method ParseSrcOpInd(ix: nat, mods: SrcModifier, baseOff: int) returns (r: Status)
      requires Valid() && opSpec.Some? && ix < 3
      modifies this`pos, this`warnings, this`events, this`srcKinds
      ensures Valid() && old(pos) <= pos && old(warnings) <= warnings
      ensures srcKinds == old(srcKinds)[ix := INDIRECT]
      ensures r.Fail? ==> events == old(events)
      ensures var x := IndArgsAt(env.model, toks, old(pos));
        (x.Fail? ==> r == Fail(x.d)) &&
        (r.Ok? ==> x.Ok? && LoggedOne() && LastEvent().InstSrcOpRegIndirect? && LastEvent().ix == ix &&
                   LastEvent().mods == mods && LastEvent().addr == x.value.0 &&
                   LastEvent().addrOff == x.value.1 + baseOff)
    {
      srcKinds := srcKinds[ix := INDIRECT];
      r := ParseSrcOpIndBody(ix, mods, baseOff);
    }

    /** The address, the offset, the region, the type and the callback of an indirect source. */
    method ParseSrcOpIndBody(ix: nat, mods: SrcModifier, baseOff: int) returns (r: Status)
      requires Valid() && opSpec.Some?
      modifies this`pos, this`warnings, this`events
      ensures Valid() && old(pos) <= pos && old(warnings) <= warnings
      ensures r.Fail? ==> events == old(events)
      ensures var x := IndArgsAt(env.model, toks, old(pos));
        (x.Fail? ==> r == Fail(x.d)) &&
        (r.Ok? ==> x.Ok? && LoggedOne() && LastEvent().InstSrcOpRegIndirect? && LastEvent().ix == ix &&
                   LastEvent().mods == mods && LastEvent().addr == x.value.0 &&
                   LastEvent().addrOff == x.value.1 + baseOff)
    {
      var args := ParseIndOpArgs();
      if args.Fail? {
        return Fail(args.d);
      }
      r := FinishSrcOpInd(ix, mods, args.value.0, args.value.1 + baseOff);
    }

    /** ConvertImm applied for source ix, its error and warning logged, and
      * the callback made: a branch's immediate is a jump target, absolute or
      * relative, given as the s64 view of the value. */
    method EmitSrcOpImm(ix: nat, first: Lexeme, v: ImmVal, ty: Type) returns (r: Status)
      requires Valid() && opSpec.Some?
      modifies this`warnings, this`errors, this`events
      ensures Valid() && old(warnings) <= warnings
      ensures match ConvertImm(env.imm, ty, first, v)
        case Failed(d) => r == Fail(d) && events == old(events) && errors == old(errors)
        case Narrowed(val, err, w) =>
          r.Ok? && events == old(events) + [ImmSrcEvent(ix, val, ty)] &&
          errors == old(errors) + OptSeq(err) && warnings == old(warnings) + OptSeq(w)
    {
      var n := ConvertImm(env.imm, ty, first, v);
      if n.Failed? {
        return Fail(n.d);
      }
      errors := errors + OptSeq(n.err);
      warnings := warnings + OptSeq(n.warn);
      events := events + [ImmSrcEvent(ix, n.val, ty)];
      return Ok(());
    }

    /** The callback for an immediate source: a value, or for a branch a
      * jump target, absolute or relative, as the s64 view of the value. */
    function ImmSrcEvent(ix: nat, val: ImmVal, ty: Type): (e: Event)
      requires opSpec.Some?
      reads this`opSpec
      ensures SrcOperandOf(e) == Some((ix, IMMEDIATE))
      ensures !opSpec.value.isBranching ==> e == InstSrcOpImmValue(ix, val, ty)
    {
      if !opSpec.value.isBranching then InstSrcOpImmValue(ix, val, ty)
      else if opSpec.value.isJipAbsolute then InstSrcOpImmLabelAbsolute(ix, ToSigned(val.bits), ty)
      else InstSrcOpImmLabelRelative(ix, ToSigned(val.bits), ty)
    }

    /** FinishSrcOpImmValue: the type written after an immediate (it must be
      * written unless the operation implies one), then the conversion. */
    method FinishSrcOpImmValue(ix: nat, first: Lexeme, v: ImmVal) returns (r: Status)
      requires Valid() && opSpec.Some?
      modifies this`pos, this`warnings, this`errors, this`events
      ensures Valid() && old(pos) <= pos && old(warnings) <= warnings
      ensures r.Fail? ==> events == old(events) && errors == old(errors)
      ensures r.Ok? ==> LoggedOne() && SrcOperandOf(LastEvent()) == Some((ix, IMMEDIATE))
      ensures TypeAt(toks, old(pos), true).0 == INVALID && !opSpec.value.hasImplicitSrcType(ix, true) &&
              !(opSpec.value.isBranching && !env.model.supportsSimplifiedBranches) ==>
        r == Fail(ExpectedSrcType)
    {
      var ty := ParseSrcOpTypeWithoutDefault(ix, true);
      if ty.Fail? {
        return Fail(ty.d);
      }
      r := EmitSrcOpImm(ix, first, v, ty.value);
    }

    /** The closing '|' of a "|src|" operand, when one is due. */
    method ClosePipe(pipeAbs: bool) returns (r: Status)
      requires Valid()
      modifies this`pos
      ensures Valid() && old(pos) <= pos
      ensures !pipeAbs ==> r.Ok? && pos == old(pos)
      ensures pipeAbs ==> (r.Ok? <==> Peek(toks, old(pos)).lexeme == PIPE) && (r.Fail? ==> r.d == ExpectedPipe)
    {
      if !pipeAbs {
        return Ok(());
      }
      r := ConsumeOrFail(PIPE, ExpectedPipe);
    }

    /** An immediate source: |v| inside pipes, the type and conversion, then
      * the closing pipe. */
    method FinishSrcOpImm(ix: nat, pipeAbs: bool, first: Lexeme, v: ImmVal) returns (r: Status)
      requires Valid() && opSpec.Some?
      modifies this`pos, this`warnings, this`errors, this`events
      ensures Valid() && old(pos) <= pos && old(warnings) <= warnings
      ensures r.Ok? ==> LoggedOne() && SrcOperandOf(LastEvent()) == Some((ix, IMMEDIATE))
    {
      var w := if pipeAbs then env.imm.abs(v) else v;
      r := FinishSrcOpImmValue(ix, first, w);
      if r.Fail? {
        return;
      }
      r := ClosePipe(pipeAbs);
    }

    /** FinishSrcOpImmLabel: a label (an identifier the expression grammar
      * did not resolve) as the source of a branch or a mov. */
    method FinishSrcOpImmLabel(ix: nat) returns (r: Status)
      requires Valid() && opSpec.Some? && ix < 3 && Peek(toks, pos).lexeme == IDENT
      modifies this`pos, this`warnings, this`events, this`srcKinds
      ensures Valid() && old(pos) <= pos && old(warnings) <= warnings
      ensures srcKinds == old(srcKinds)[ix := LABEL]
      ensures r.Ok? ==> (LoggedOne() && LastEvent().InstSrcOpImmLabel? && LastEvent().ix == ix &&
        LastEvent().symbol == Peek(toks, old(pos)).text)
      ensures r.Ok? && opSpec.value.op == MOV && !opSpec.value.hasImplicitSrcType(ix, true) ==> LastEvent().ty == UD
    {
      srcKinds := srcKinds[ix := LABEL];
      var sym := Next(0).text;
      Skip();
      var ty := ParseSrcOpTypeWithDefault(ix, true, true);
      if ty.Fail? {
        return Fail(ty.d);
      }
      events := events + [InstSrcOpImmLabel(ix, sym, ty.value)];
      return Ok(());
    }

    /** ParseSrcOp's last resort, from the operand's start (past a leading
      * '|'): a constant expression, else a label for branches and mov.
      * `first` is the lexeme the operand began with. */
    method ParseSrcOpImmOrLabel(ix: nat, pipeAbs: bool, first: Lexeme) returns (r: Status)
      requires Valid() && opSpec.Some? && ix < 3
      modifies this`pos, this`warnings, this`errors, this`events, this`srcKinds
      ensures Valid() && old(pos) <= pos
      ensures r.Ok? ==> SrcLogged(ix)
      ensures var x := Bitwise(XEnv(), toks, old(pos), false, env.imm.initial, old(warnings));
        x.out == Ret(false) ==>
          (pipeAbs ==> r == Fail(UnexpectedPipe)) &&
          (!pipeAbs && Peek(toks, old(pos)).lexeme != IDENT ==> r == Fail(ExpectedSourceOperand)) &&
          (!pipeAbs && Peek(toks, old(pos)).lexeme == IDENT && !XEnv().branchOrMov ==> r == Fail(UnboundIdentifier)) &&
          (!pipeAbs && Peek(toks, old(pos)).lexeme == IDENT && XEnv().branchOrMov && r.Ok? ==> srcKinds[ix] == LABEL)
    {
      var c := TryParseConstExpr(ix, env.imm.initial);
      if c.Fail? {
        return Fail(c.d);
      }
      if c.value.Some? {
        r := FinishSrcOpImm(ix, pipeAbs, first, c.value.value);
        return;
      }
      if pipeAbs {
        return Fail(UnexpectedPipe);
      }
      if !LookingAt(IDENT) {
        return Fail(ExpectedSourceOperand);
      }
      if !(opSpec.value.isBranching || opSpec.value.op == MOV) {
        return Fail(UnboundIdentifier);
      }
      r := FinishSrcOpImmLabel(ix);
    }

    /** The "r[...]" form of a source: indirect, then the closing pipe, then
      * the modifier check. */
    method ParseSrcOpIndPath(ix: nat, mods: SrcModifier, pipeAbs: bool) returns (r: Status)
      requires Valid() && opSpec.Some? && ix < 3
      modifies this`pos, this`warnings, this`events, this`srcKinds
      ensures Valid() && old(pos) <= pos
      ensures srcKinds == old(srcKinds)[ix := INDIRECT]
      ensures r.Ok? ==> SrcLogged(ix)
      ensures mods != NONE && !opSpec.value.supportsSourceModifiers ==> r.Fail?
    {
      var s := ParseSrcOpInd(ix, mods, 0);
      if s.Fail? {
        return s;
      }
      assert SrcLogged(ix);
      var closing := ClosePipe(pipeAbs);
      if closing.Fail? {
        return closing;
      }
      if !opSpec.value.supportsSourceModifiers && mods != NONE {
        return Fail(SourceModifierNotSupported);
      }
      return Ok(());
    }

    /** A register source: direct; the modifier check, the rest of the
      * operand, then the closing pipe. */
    method ParseSrcOpDirectPath(ix: nat, mods: SrcModifier, pipeAbs: bool, ri: RegInfo, regNum: int)
      returns (r: Status)
      requires Valid() && opSpec.Some? && ix < 3
      modifies this`pos, this`warnings, this`events, this`srcKinds
      ensures Valid() && old(pos) <= pos
      ensures srcKinds == old(srcKinds)[ix := DIRECT]
      ensures r.Ok? ==> SrcLogged(ix)
      ensures mods != NONE && !opSpec.value.supportsSourceModifiers ==>
        r == Fail(SourceModifierNotSupported) && pos == old(pos)
    {
      srcKinds := srcKinds[ix := DIRECT];
      if !opSpec.value.supportsSourceModifiers && mods != NONE {
        return Fail(SourceModifierNotSupported);
      }
      var f := FinishSrcOpRegDirSubRegRgnTy(ix, mods, ri, regNum);
      if f.Fail? {
        return Fail(f.d);
      }
      r := ClosePipe(pipeAbs);
    }

    /** The source after its modifiers: "r[...]", a register, or else, from
      * `start` again (past a leading '|'), an immediate or a label. */
    method ParseSrcOpAfterMods(ix: nat, mods: SrcModifier, pipeAbs: bool, start: nat, first: Lexeme)
      returns (r: Status)
      requires Valid() && opSpec.Some? && ix < 3 && start <= pos
      modifies this`pos, this`warnings, this`errors, this`events, this`srcKinds
      ensures Valid() && start <= pos
      ensures r.Ok? ==> SrcLogged(ix)
      ensures IdentAt(toks, old(pos), "r") ==> srcKinds == old(srcKinds)[ix := INDIRECT]
      ensures !IdentAt(toks, old(pos), "r") && RegAt(env.model, toks, old(pos)).Some? ==>
        srcKinds == old(srcKinds)[ix := DIRECT]
      ensures (IdentAt(toks, old(pos), "r") || RegAt(env.model, toks, old(pos)).Some?) &&
                mods != NONE && !opSpec.value.supportsSourceModifiers ==>
              r.Fail?
    {
      var ind := ConsumeIdentEq("r");
      if ind {
        r := ParseSrcOpIndPath(ix, mods, pipeAbs);
        return;
      }
      var reg := ConsumeReg();
      if reg.Some? {
        r := ParseSrcOpDirectPath(ix, mods, pipeAbs, reg.value.0, reg.value.1);
        return;
      }
      pos := start;
      if pipeAbs {
        Skip();
      }
      r := ParseSrcOpImmOrLabel(ix, pipeAbs, first);
    }

    /** ParseSrcOp: a source operand with its modifiers: "r[...]" indirect,
      * a register direct, else (from the operand's start, past a leading
      * '|') a constant expression or a label.  A '|' opened before the
      * operand must close after it, and only operations that take source
      * modifiers may have them. */
    method ParseSrcOp(ix: nat) returns (r: Status)
      requires Valid() && opSpec.Some? && ix < 3
      modifies this`pos, this`mark, this`warnings, this`errors, this`events, this`srcKinds
      ensures Valid() && old(pos) <= pos
      ensures r.Ok? ==> SrcLogged(ix)
      ensures var (mods, _, q) := SrcModsAt(toks, old(pos));
        (IdentAt(toks, q, "r") ==> srcKinds == old(srcKinds)[ix := INDIRECT]) &&
        (!IdentAt(toks, q, "r") && RegAt(env.model, toks, q).Some? ==> srcKinds == old(srcKinds)[ix := DIRECT]) &&
        (((IdentAt(toks, q, "r") || RegAt(env.model, toks, q).Some?) &&
          mods != NONE && !opSpec.value.supportsSourceModifiers) ==> r.Fail?)
    {
      var first := Next(0).lexeme;
      mark := pos;
      var mods, pipeAbs := ParseSrcModifierOpt();
      r := ParseSrcOpAfterMods(ix, mods, pipeAbs, mark, first);
    }

    /** ParseSrcOpLabel: a source that must be an immediate or a label. */
    method ParseSrcOpLabel(ix: nat) returns (r: Status)
      requires Valid() && opSpec.Some? && ix < 3
      modifies this`pos, this`mark, this`warnings, this`errors, this`events, this`srcKinds
      ensures Valid() && old(pos) <= pos
      ensures r.Ok? ==> SrcLogged(ix) && srcKinds[ix] in {IMMEDIATE, LABEL}
    {
      r := ParseSrcOp(ix);
      if r.Ok? && srcKinds[ix] != LABEL && srcKinds[ix] != IMMEDIATE {
        return Fail(SrcMustBeLabel);
      }
    }

    /** ParseSendSrcOp: with the implicit operand enabled, a missing register
      * (or an address register) stands for a null src, reported without
      * consuming anything; otherwise a regular source. */
    method ParseSendSrcOp(ix: nat, enableImplicitOperand: bool) returns (r: Status)
      requires Valid() && opSpec.Some? && ix < 3
      modifies this`pos, this`mark, this`warnings, this`errors, this`events, this`srcKinds
      ensures Valid() && old(pos) <= pos
      ensures var reg := RegAt(env.model, toks, old(pos));
        if enableImplicitOperand && (reg.None? || reg.value.0.regName == ARF_A) then
          r.Ok? && pos == old(pos) && srcKinds == old(srcKinds) &&
          events == old(events) + [InstSrcOpRegDirect(ix, NONE, ARF_NULL, RegRef(0, 0), SRC010, INVALID)]
        else r.Ok? ==> SrcLogged(ix)
    {
      if enableImplicitOperand {
        var reg := PeekReg();
        if reg.None? || reg.value.0.regName == ARF_A {
          events := events + [InstSrcOpRegDirect(ix, NONE, ARF_NULL, RegRef(0, 0), SRC010, INVALID)];
          return Ok(());
        }
      }
      r := ParseSrcOp(ix);
    }

    // ---- destination operands ----

    /** A destination's region and type: a send's operand type, else the
      * destination type with its defaults. */
    method ParseDstOpRgnTy() returns (r: Res<(Horz, Type)>)
      requires Valid() && opSpec.Some?
      modifies this`pos, this`warnings
      ensures Valid() && old(pos) <= pos && old(warnings) <= warnings
      ensures r.Ok? && Peek(toks, old(pos)).lexeme != LANGLE ==> r.value.0 == DstRegionDefault()
    {
      var hz := ParseDstOpRegion();
      if hz.Fail? {
        return Fail(hz.d);
      }
      var ty: Res<Type>;
      if opSpec.value.isSendOrSendsFamily {
        ty := ParseSendOperandTypeWithDefault(-1);
      } else {
        ty := ParseDstOpTypeWithDefault();
      }
      if ty.Fail? {
        return Fail(ty.d);
      }
      return Ok((hz.value, ty.value));
    }

    /** The destination's region, type, subregister check and callback. */
    method FinishDstOpRgnTy(ri: RegInfo, regNum: int, sub: nat, mme: MathMacroExt) returns (r: Status)
      requires Valid() && opSpec.Some?
      modifies this`pos, this`warnings, this`errors, this`events
      ensures Valid() && old(pos) <= pos && old(warnings) <= warnings
      ensures r.Fail? ==> events == old(events) && errors == old(errors)
      ensures r.Ok? ==> (LoggedOne() && IsDstOperand(LastEvent()) &&
        LastEvent() == DirectDstEvent(ri, regNum, sub, mme, LastEvent().hz, LastEvent().ty) &&
        var (err, w) := DstSubregCheck(env.model, ri, regNum, sub, LastEvent().ty);
        errors == old(errors) + OptSeq(err) && LastWarned(w))
    {
      var rt := ParseDstOpRgnTy();
      if rt.Fail? {
        return Fail(rt.d);
      }
      var (hz, ty) := rt.value;
      var (err, w) := DstSubregCheck(env.model, ri, regNum, sub, ty);
      errors := errors + OptSeq(err);
      warnings := warnings + OptSeq(w);
      events := events + [DirectDstEvent(ri, regNum, sub, mme, hz, ty)];
      return Ok(());
    }

    /** The callback for a direct destination: the math macro form for a
      * macro operation, else the register and subregister. */
    function DirectDstEvent(ri: RegInfo, regNum: int, sub: nat, mme: MathMacroExt, hz: Horz, ty: Type): (e: Event)
      reads this`opSpec, this`subfunction
      ensures IsDstOperand(e) && !e.InstDstOpRegIndirect? && e.hz == hz && e.ty == ty
    {
      if MacroOp() then InstDstOpRegMathMacroExtReg(ri.regName, regNum, mme, hz, ty)
      else InstDstOpRegDirect(ri.regName, RegRef(regNum, sub), hz, ty)
    }

    /** The deprecated ".sub<h>" a send destination may still carry: the
      * subregister, the warnings, and a region that is parsed and dropped. */
    method ParseSendDstSubreg() returns (r: Res<nat>)
      requires Valid() && opSpec.Some?
      modifies this`pos, this`warnings
      ensures Valid() && old(pos) <= pos && old(warnings) <= warnings
      ensures !IsIntLit(Peek(toks, old(pos)).lexeme) ==> r == Fail(ExpectedSubregister)
      ensures r.Ok? ==> (r.value == Peek(toks, old(pos)).value &&
        warnings[..|old(warnings)|] == old(warnings) &&
        (env.opts.deprecatedSyntaxWarnings ==> |warnings| > |old(warnings)| && warnings[|old(warnings)|] == SendSubregDeprecated) &&
        (!env.opts.deprecatedSyntaxWarnings ==> warnings == old(warnings)))
    {
      var s := ConsumeIntLitOrFail(ExpectedSubregister);
      if s.Fail? {
        return Fail(s.d);
      }
      if env.opts.deprecatedSyntaxWarnings {
        warnings := warnings + [SendSubregDeprecated];
        if LookingAt(LANGLE) {
          warnings := warnings + [SendRegionDeprecated];
        }
      }
      var ignored := ParseDstOpRegion();
      if ignored.Fail? {
        return Fail(ignored.d);
      }
      return Ok(s.value);
    }

    /** FinishDstOpRegDirSubRegRgnTy: the rest of a direct destination after
      * its register: a send's deprecated subregister and region, a math
      * macro's accumulator register, or an optional subregister; then the
      * region, the type and the subregister check.  The result is the
      * subregister. */
    method FinishDstOpRegDirSubRegRgnTy(ri: RegInfo, regNum: int) returns (r: Res<nat>)
      requires Valid() && opSpec.Some?
      modifies this`pos, this`warnings, this`errors, this`events
      ensures Valid() && old(pos) <= pos && old(warnings) <= warnings
      ensures r.Fail? ==> events == old(events) && errors == old(errors)
      ensures r.Ok? ==> (LoggedOne() && IsDstOperand(LastEvent()) && !LastEvent().InstDstOpRegIndirect? &&
        (!MacroOp() ==> LastEvent() == InstDstOpRegDirect(ri.regName, RegRef(regNum, r.value), LastEvent().hz, LastEvent().ty)) &&
        var (err, w) := DstSubregCheck(env.model, ri, regNum, r.value, LastEvent().ty);
        errors == old(errors) + OptSeq(err) && LastWarned(w))
      ensures var sendDot := opSpec.value.isSendOrSendsFamily && Peek(toks, old(pos)).lexeme == DOT;
        (sendDot && r.Ok? ==> r.value == Peek(toks, old(pos) + 1).value) &&
        (!sendDot && MacroOp() && r.Ok? ==> r.value == 0)
    {
      var part := ParseDstSubregPart();
      if part.Fail? {
        return Fail(part.d);
      }
      var (sub, mme) := part.value;
      var f := FinishDstOpRgnTy(ri, regNum, sub, mme);
      return if f.Fail? then Fail(f.d) else Ok(sub);
    }

    /** What follows a direct destination's register before its region: a
      * send's deprecated subregister and region, a math macro's accumulator
      * register, or an optional subregister. */
    method ParseDstSubregPart() returns (r: Res<(nat, MathMacroExt)>)
      requires Valid() && opSpec.Some?
      modifies this`pos, this`warnings
      ensures Valid() && old(pos) <= pos && old(warnings) <= warnings
      ensures var sendDot := opSpec.value.isSendOrSendsFamily && Peek(toks, old(pos)).lexeme == DOT;
        (sendDot && r.Ok? ==> r.value.0 == Peek(toks, old(pos) + 1).value) &&
        (!sendDot && MacroOp() && r.Ok? ==> r.value.0 == 0) &&
        (!sendDot && !MacroOp() && Peek(toks, old(pos)).lexeme == DOT && !IsIntLit(Peek(toks, old(pos) + 1).lexeme) ==>
           r == Fail(ExpectedSubregister))
    {
      var sendDot := false;
      if opSpec.value.isSendOrSendsFamily {
        sendDot := Consume(DOT);
      }
      if sendDot {
        var s := ParseSendDstSubreg();
        if s.Fail? {
          return Fail(s.d);
        }
        return Ok((s.value, MME_INVALID));
      }
      r := ParseDstSubregOrMacro();
    }

    /** ParseDstSubregPart other than a send's ".n": the math macro's
      * accumulator register, or an optional subregister. */
    method ParseDstSubregOrMacro() returns (r: Res<(nat, MathMacroExt)>)
      requires Valid() && opSpec.Some?
      modifies this`pos, this`warnings
      ensures Valid() && old(pos) <= pos && old(warnings) <= warnings
      ensures MacroOp() && r.Ok? ==> r.value.0 == 0
      ensures !MacroOp() && Peek(toks, old(pos)).lexeme == DOT && !IsIntLit(Peek(toks, old(pos) + 1).lexeme) ==>
        r == Fail(ExpectedSubregister)
    {
      if MacroOp() {
        var m := ParseMathMacroReg();
        if m.Fail? {
          return Fail(m.d);
        }
        return Ok((0, m.value));
      }
      var s := ParseSubregOpt();
      if s.Fail? {
        return Fail(s.d);
      }
      return Ok((s.value.0, MME_INVALID));
    }

    /** The region, type and callback of an indirect destination. */
    method FinishDstOpInd(a: RegRef, off: int) returns (r: Status)
      requires Valid() && opSpec.Some?
      modifies this`pos, this`warnings, this`events
      ensures Valid() && old(pos) <= pos && old(warnings) <= warnings
      ensures r.Fail? ==> events == old(events)
      ensures r.Ok? ==> (LoggedOne() && LastEvent().InstDstOpRegIndirect? &&
        LastEvent().addr == a && LastEvent().addrOff == off)
    {
      var hz := ParseDstOpRegion();
      if hz.Fail? {
        return Fail(hz.d);
      }
      var ty := ParseDstOpTypeWithDefault();
      if ty.Fail? {
        return Fail(ty.d);
      }
      events := events + [InstDstOpRegIndirect(a, off, hz.value, ty.value)];
      return Ok(());
    }

    /** ParseDstOpRegInd: "[a0.n, off]", the region and the type; baseOff
      * (32 times M in the rM[...] form) is added after the offset's range
      * check. */
    method ParseDstOpRegInd(baseOff: int) returns (r: Status)
      requires Valid() && opSpec.Some?
      modifies this`pos, this`warnings, this`events
      ensures Valid() && old(pos) <= pos && old(warnings) <= warnings
      ensures r.Fail? ==> events == old(events)
      ensures var x := IndArgsAt(env.model, toks, old(pos));
        (x.Fail? ==> r == Fail(x.d)) &&
        (r.Ok? ==> x.Ok? && LoggedOne() && LastEvent().InstDstOpRegIndirect? &&
                   LastEvent().addr == x.value.0 && LastEvent().addrOff == x.value.1 + baseOff)
    {
      var args := ParseIndOpArgs();
      if args.Fail? {
        return Fail(args.d);
      }
      r := FinishDstOpInd(args.value.0, args.value.1 + baseOff);
    }

    /** A direct destination once its register is consumed: the register
      * number must be in range; "[...]" after it is the rM[...] indirect
      * form (refused for sends). */
    method ParseDstOpAfterReg(ri: RegInfo, regNum: int, send: bool) returns (r: Status)
      requires Valid() && opSpec.Some?
      modifies this`pos, this`warnings, this`errors, this`events
      ensures Valid() && old(pos) <= pos
      ensures r.Fail? ==> events == old(events)
      ensures r.Ok? ==> LoggedOne() && IsDstOperand(LastEvent())
      ensures !ri.isRegNumberValid(regNum) ==> r == Fail(InvalidDstRegisterNumber)
      ensures ri.isRegNumberValid(regNum) && send && Peek(toks, old(pos)).lexeme == LBRACK ==>
        r == Fail(SendDstIndirectForm)
      ensures ri.isRegNumberValid(regNum) && !send && Peek(toks, old(pos)).lexeme == LBRACK && r.Ok? ==>
        LastEvent().InstDstOpRegIndirect?
      ensures Peek(toks, old(pos)).lexeme != LBRACK && r.Ok? ==> !LastEvent().InstDstOpRegIndirect?
    {
      if !ri.isRegNumberValid(regNum) {
        return Fail(InvalidDstRegisterNumber);
      }
      if LookingAt(LBRACK) {
        if send {
          return Fail(SendDstIndirectForm);
        }
        r := ParseDstOpRegInd(regNum * 32);
        return;
      }
      var f := FinishDstOpRegDirSubRegRgnTy(ri, regNum);
      if f.Fail? {
        return Fail(f.d);
      }
      return Ok(());
    }

    /** A destination without "(sat)": "r[...]", or a register, which must
      * exist. */
    method ParseDstOpReg(send: bool) returns (r: Status)
      requires Valid() && opSpec.Some?
      modifies this`pos, this`warnings, this`errors, this`events
      ensures Valid() && old(pos) <= pos
      ensures r.Fail? ==> events == old(events)
      ensures r.Ok? ==> LoggedOne() && IsDstOperand(LastEvent())
      ensures var reg := RegAt(env.model, toks, old(pos));
        (IdentAt(toks, old(pos), "r") && r.Ok? ==> LastEvent().InstDstOpRegIndirect?) &&
        (!IdentAt(toks, old(pos), "r") && reg.None? ==>
           r == Fail(if send then InvalidSendDstRegister else InvalidDstRegister)) &&
        (!IdentAt(toks, old(pos), "r") && reg.Some? && !reg.value.0.isRegNumberValid(reg.value.1) ==>
           r == Fail(InvalidDstRegisterNumber))
    {
      var ind := ConsumeIdentEq("r");
      if ind {
        r := ParseDstOpRegInd(0);
        return;
      }
      var reg := ConsumeReg();
      if reg.None? {
        return Fail(if send then InvalidSendDstRegister else InvalidDstRegister);
      }
      r := ParseDstOpAfterReg(reg.value.0, reg.value.1, send);
    }

    /** ParseDstOp: "(sat)" (its own callback, first), then the operand. */
    method ParseDstOp() returns (r: Status)
      requires Valid() && opSpec.Some?
      modifies this`pos, this`warnings, this`errors, this`events
      ensures Valid() && old(pos) <= pos
      ensures var sat := Peek(toks, old(pos)).lexeme == SAT;
        |events| >= |old(events)| && events[..|old(events)|] == old(events) &&
        (sat ==> |events| > |old(events)| && events[|old(events)|] == InstDstOpSaturate) &&
        (r.Ok? ==> |events| == |old(events)| + (if sat then 2 else 1) && IsDstOperand(LastEvent()))
    {
      var sat := Consume(SAT);
      if sat {
        events := events + [InstDstOpSaturate];
      }
      r := ParseDstOpReg(false);
    }

    /** ParseSendDstOp: a destination without "(sat)", and without the
      * rM[...] form. */
    method ParseSendDstOp() returns (r: Status)
      requires Valid() && opSpec.Some?
      modifies this`pos, this`warnings, this`errors, this`events
      ensures Valid() && old(pos) <= pos
      ensures r.Fail? ==> events == old(events)
      ensures r.Ok? ==> LoggedOne() && IsDstOperand(LastEvent())
    {
      r := ParseDstOpReg(true);
    }
  

    // ---- predication, mnemonic and flag modifier ----

    /** ParseFlagRegRef: f0 or f1 and an optional subregister; one out of
      * bounds is recorded as an error and kept. */
    method ParseFlagRegRef() returns (r: Res<RegRef>)
      requires Valid()
      modifies this`pos, this`errors
      ensures Valid() && old(pos) <= pos
      ensures match FlagRegAt(toks, old(pos))
        case Ok((rr, oob, q)) =>
          r == Ok(rr) && pos == q && errors == old(errors) + (if oob then [FlagSubregisterOutOfBounds] else [])
        case Fail(d) => r == Fail(d) && errors == old(errors)
    {
      if !LookingAt(IDENT) {
        return Fail(ExpectedFlagRegister);
      }
      var n := 0;
      var f0 := ConsumeIdentEq("f0");
      if !f0 {
        var f1 := ConsumeIdentEq("f1");
        if !f1 {
          return Fail(UnexpectedFlagRegister);
        }
        n := 1;
      }
      if LookingAt(DOT) && Next(1).lexeme == INTLIT10 {
        Skip();
        var sub := ConsumeIntLitOrFail(ExpectedFlagSubregister);
        errors := errors + (if sub.value > 1 then [FlagSubregisterOutOfBounds] else []);
        return Ok(RegRef(n, sub.value));
      }
      return Ok(RegRef(n, 0));
    }

    /** ParsePred's control: '.' and a control name, or SEQ without '.'. */
    method ParsePredCtrl() returns (r: Res<PredCtrl>)
      requires Valid()
      modifies this`pos
      ensures Valid() && old(pos) <= pos
      ensures Follows(r, PredCtrlAt(toks, old(pos)))
    {
      var dot := Consume(DOT);
      if !dot {
        return Ok(SEQ);
      }
      var t := Next(0);
      if t.lexeme != IDENT {
        return Fail(ExpectedPredCtrl);
      } else if PredCtrlOf(t.text).None? {
        return Fail(InvalidPredCtrl);
      }
      Skip();
      return Ok(PredCtrlOf(t.text).value);
    }

    /** ParsePred: the flag register becomes the instruction's as soon as it
      * is read, before the control; then the callback. */
    method ParsePred() returns (s: Status)
      requires Valid()
      modifies this`pos, this`errors, this`flagReg, this`events
      ensures Valid() && old(pos) <= pos
      ensures match FlagRegAt(toks, if Peek(toks, old(pos)).lexeme == TILDE then old(pos) + 1 else old(pos))
        case Fail(d) => s == Fail(d) && events == old(events) && flagReg == old(flagReg) && errors == old(errors)
        case Ok((rr, oob, _)) => flagReg == rr && errors == old(errors) + (if oob then [FlagSubregisterOutOfBounds] else [])
      ensures match PredAt(toks, old(pos))
        case Ok((pd, q)) => s == Ok(()) && pos == q && events == old(events) + [InstPredication(pd.inverted, pd.reg, pd.ctrl)]
        case Fail(d) => s == Fail(d) && events == old(events)
    {
      var inv := Consume(TILDE);
      var fr := ParseFlagRegRef();
      if fr.Fail? {
        return Fail(fr.d);
      }
      flagReg := fr.value;
      var pc := ParsePredCtrl();
      if pc.Fail? {
        return Fail(pc.d);
      }
      events := events + [InstPredication(inv, flagReg, pc.value)];
      return Ok(());
    }

    /** ParseWrEnPred: write-enable (reported first) and the predication, as
      * WrEnPredAt reads them.  hasWrEn is cleared first, '(' or not. */
    method ParseWrEnPred() returns (s: Status)
      requires Valid()
      modifies this`pos, this`errors, this`flagReg, this`events, this`hasWrEn
      ensures Valid() && old(pos) <= pos
      ensures hasWrEn <==> Peek(toks, old(pos)).lexeme == LPAREN && IdentAt(toks, old(pos) + 1, "W")
      ensures match WrEnPredAt(toks, old(pos))
        case Fail(d) => s == Fail(d)
        case Ok((w, pd, q)) => s == Ok(()) && pos == q && WrEnPredLogged(w, pd)
    {
      hasWrEn := false;
      var open := Consume(LPAREN);
      if !open {
        return Ok(());
      }
      s := ParseWrEnPredBody();
    }

    /** The callbacks, errors and flag register a parsed write-enable and
      * predication leave, given what they were before. */
    twostate predicate WrEnPredLogged(w: bool, pd: Option<Pred>)
      reads this`events, this`errors, this`flagReg
    {
      events == old(events) + (if w then [InstNoMask] else []) +
                (if pd.Some? then [InstPredication(pd.value.inverted, pd.value.reg, pd.value.ctrl)] else []) &&
      errors == old(errors) + (if pd.Some? && pd.value.oob then [FlagSubregisterOutOfBounds] else []) &&
      flagReg == (if pd.Some? then pd.value.reg else old(flagReg))
    }

    /** ParseWrEnPred after its '('. */
    method ParseWrEnPredBody() returns (s: Status)
      requires Valid()
      modifies this`pos, this`errors, this`flagReg, this`events, this`hasWrEn
      ensures Valid() && old(pos) <= pos
      ensures hasWrEn <==> IdentAt(toks, old(pos), "W")
      ensures match WrEnPredBodyAt(toks, old(pos))
        case Fail(d) => s == Fail(d)
        case Ok((w, pd, q)) => s == Ok(()) && pos == q && WrEnPredLogged(w, pd)
    {
      var w := ConsumeIdentEq("W");
      hasWrEn := w;
      if w {
        s := ParseWrEnTail();
      } else {
        s := ParsePredClose();
      }
    }

    /** ParseWrEnPred after "(W": write-enable is reported, then ')' or '&'
      * and a predication. */
    method ParseWrEnTail() returns (s: Status)
      requires Valid()
      modifies this`pos, this`errors, this`flagReg, this`events
      ensures Valid() && old(pos) <= pos
      ensures match WrEnTailAt(toks, old(pos))
        case Fail(d) => s == Fail(d)
        case Ok((w, pd, q)) => s == Ok(()) && pos == q && WrEnPredLogged(w, pd)
    {
      events := events + [InstNoMask];
      var amp := Consume(AMP);
      if !amp {
        s := ConsumeOrFail(RPAREN, ExpectedRParen);
        return;
      }
      ghost var e1 := events;
      s := ParsePredClose();
      assert e1 + [] == e1;
    }

    /** ParsePred and the ')' after it. */
    method ParsePredClose() returns (s: Status)
      requires Valid()
      modifies this`pos, this`errors, this`flagReg, this`events
      ensures Valid() && old(pos) <= pos
      ensures match PredCloseAt(toks, old(pos))
        case Fail(d) => s == Fail(d)
        case Ok((pd, q)) => s == Ok(()) && pos == q && WrEnPredLogged(false, Some(pd))
    {
      s := ParsePred();
      if s.Fail? {
        return;
      }
      s := ConsumeOrFail(RPAREN, ExpectedRParen);
    }

    /** TryConsumeMnemonic: an identifier naming one of the model's
      * operations is consumed and gives that operation. */
    method TryConsumeMnemonic() returns (r: Option<OpSpec>)
      requires Valid()
      modifies this`pos
      ensures Valid()
      ensures var t := Peek(toks, old(pos));
        if t.lexeme == IDENT && t.text in env.model.ops then r == Some(env.model.ops[t.text]) && pos == old(pos) + 1
        else r.None? && pos == old(pos)
    {
      var t := Next(0);
      if t.lexeme != IDENT || t.text !in env.model.ops {
        return None;
      }
      Skip();
      return Some(env.model.ops[t.text]);
    }

    /** ParseSubfunctionFromBxmlEnum: '.' then a name the table knows, or a
      * decimal or hex encoding. */
    method ParseSubfunctionFromBxmlEnum(fromSyntax: string -> Option<nat>) returns (r: Res<nat>)
      requires Valid()
      modifies this`pos
      ensures Valid() && old(pos) <= pos
      ensures Follows(r, SubfunctionAt(toks, old(pos), fromSyntax))
    {
      var dot := Consume(DOT);
      if !dot {
        return Fail(ExpectedSubfunction);
      }
      var t := Next(0);
      if t.lexeme == IDENT {
        Skip();
        if fromSyntax(t.text).None? {
          return Fail(InvalidSubfunction);
        }
        return Ok(fromSyntax(t.text).value);
      } else if t.lexeme == INTLIT10 || t.lexeme == INTLIT16 {
        Skip();
        return Ok(t.value);
      }
      return Fail(InvalidSubfunction);
    }

    /** The subfunction after the mnemonic, as SubfunctionSuffixAt reads it,
      * given to the builder. */
    method ParseSubfunctionSuffix(os: OpSpec) returns (s: Status)
      requires Valid()
      modifies this`pos, this`events, this`subfunction
      ensures Valid() && old(pos) <= pos
      ensures match SubfunctionSuffixAt(env.model, os, toks, old(pos))
        case Fail(d) => s == Fail(d) && events == old(events) && subfunction == old(subfunction)
        case Ok((sf, q)) =>
          s == Ok(()) && pos == q && events == old(events) + (if sf.Some? then [InstSubfunction(sf.value)] else []) &&
          subfunction == (if sf.Some? then sf else old(subfunction))
    {
      var sf: Option<Subfunction> := None;
      if os.supportsBranchCtrl {
        var dot := Consume(DOT);
        var on := false;
        if dot {
          on := ConsumeIdentEq("b");
          if !on {
            return Fail(ExpectedBranchCtrl);
          }
        }
        sf := Some(BranchCtrl(on));
      } else if os.op == MATH {
        var n := ParseSubfunctionFromBxmlEnum(env.model.mathFromSyntax);
        if n.Fail? {
          return Fail(n.d);
        }
        sf := Some(MathFc(n.value));
      } else if os.op == SYNC {
        var n := ParseSubfunctionFromBxmlEnum(env.model.syncFromSyntax);
        if n.Fail? {
          return Fail(n.d);
        }
        sf := Some(SyncFc(n.value));
      } else if (os.op == SEND || os.op == SENDC) && env.model.platform.Ord() >= XE.Ord() {
        var n := ParseSubfunctionFromBxmlEnum(env.model.sfidFromSyntax);
        if n.Fail? {
          return Fail(n.d);
        }
        sf := Some(SendSfid(n.value));
      }
      if sf.Some? {
        events := events + [InstSubfunction(sf.value)];
        subfunction := sf;
      }
      return Ok(());
    }

    /** ParseMnemonic: the operation, reported; a jmpi written without (W)
      * warns and gets write-enable; then the subfunction, and no '.' may be
      * left after it.  None, with nothing consumed, when the next token names
      * no operation. */
    method ParseMnemonic() returns (r: Res<Option<OpSpec>>)
      requires Valid()
      modifies this`pos, this`events, this`warnings, this`subfunction
      ensures Valid() && old(pos) <= pos
      ensures var t := Peek(toks, old(pos));
        !(t.lexeme == IDENT && t.text in env.model.ops) ==>
          r == Ok(None) && pos == old(pos) && events == old(events) && warnings == old(warnings)
      ensures var t := Peek(toks, old(pos));
        t.lexeme == IDENT && t.text in env.model.ops ==>
          var os := env.model.ops[t.text];
          MnemonicFollows(os, old(pos) + 1, old(events), old(warnings), old(hasWrEn), r)
    {
      var os := TryConsumeMnemonic();
      if os.None? {
        return Ok(None);
      }
      r := FinishMnemonic(os.value);
    }

    /** What ParseMnemonic does once it has consumed the operation os and
      * the cursor is at p: the callbacks and warnings it adds to evs and ws,
      * and its result. */
    ghost predicate MnemonicFollows(os: OpSpec, p: nat, evs: seq<Event>, ws: seq<Warn>, wrEn: bool,
                                    r: Res<Option<OpSpec>>)
      reads this`pos, this`events, this`warnings
    {
      var jmpi := !wrEn && os.op == JMPI;
      var head := evs + [InstOp(os.mnemonic)] + (if jmpi then [InstNoMask] else []);
      warnings == ws + (if jmpi then [JmpiWithoutWrEn] else []) &&
      match SubfunctionSuffixAt(env.model, os, toks, p)
      case Fail(d) => r == Fail(d) && events == head
      case Ok((sf, q)) =>
        events == head + (if sf.Some? then [InstSubfunction(sf.value)] else []) &&
        if DotAfterMnemonic(toks, q).Some? then r == Fail(DotAfterMnemonic(toks, q).value)
        else r == Ok(Some(os)) && pos == q
    }

    /** ParseMnemonic after the operation's name. */
    method FinishMnemonic(os: OpSpec) returns (r: Res<Option<OpSpec>>)
      requires Valid()
      modifies this`pos, this`events, this`warnings, this`subfunction
      ensures Valid() && old(pos) <= pos
      ensures MnemonicFollows(os, old(pos), old(events), old(warnings), hasWrEn, r)
    {
      events := events + [InstOp(os.mnemonic)];
      if !hasWrEn && os.op == JMPI {
        warnings := warnings + [JmpiWithoutWrEn];
        events := events + [InstNoMask];
      }
      var sf := ParseSubfunctionSuffix(os);
      if sf.Fail? {
        return Fail(sf.d);
      }
      var dot := DotAfterMnemonic(toks, pos);
      if dot.Some? {
        return Fail(dot.value);
      }
      return Ok(Some(os));
    }

    /** TryParseFlagModFlag: "(f)"; a legacy spelling warns when deprecated
      * syntax warnings are on. */
    method TryParseFlagModFlag() returns (r: Res<Option<(FlagModifier, bool)>>)
      requires Valid()
      modifies this`pos, this`warnings
      ensures Valid() && old(pos) <= pos
      ensures match FlagModFuncAt(toks, old(pos))
        case Fail(d) => r == Fail(d)
        case Ok(None) => r == Ok(None) && pos == old(pos) && warnings == old(warnings)
        case Ok(Some((fm, legacy, q))) =>
          r == Ok(Some((fm, legacy))) && pos == q &&
          warnings == old(warnings) + (if legacy && env.opts.deprecatedSyntaxWarnings then [DeprecatedFlagModSpelling] else [])
    {
      ghost var p0 := pos;
      var t := Next(1);
      if !LookingAt(LPAREN) || t.lexeme != IDENT {
        return Ok(None);
      }
      var fm := FlagModOf(t.text);
      var legacy := false;
      if fm.None? {
        fm := FlagModLegacyOf(t.text);
        if fm.None? {
          return Ok(None);
        }
        legacy := true;
      }
      Skip();
      Skip();
      assert pos == p0 + 2;
      var close := ConsumeOrFail(RPAREN, ExpectedRParen);
      if legacy && env.opts.deprecatedSyntaxWarnings {
        warnings := warnings + [DeprecatedFlagModSpelling];
      }
      if close.Fail? {
        return Fail(close.d);
      }
      return Ok(Some((fm.value, legacy)));
    }

    /** ParseFlagModFlagReg: the flag register, which must be the
      * predication's when there is one; it becomes the instruction's. */
    method ParseFlagModFlagReg() returns (s: Status)
      requires Valid()
      modifies this`pos, this`errors, this`flagReg
      ensures Valid() && old(pos) <= pos
      ensures match FlagRegAt(toks, old(pos))
        case Fail(d) => s == Fail(d) && flagReg == old(flagReg) && errors == old(errors)
        case Ok((fr, oob, q)) =>
          errors == old(errors) + (if oob then [FlagSubregisterOutOfBounds] else []) &&
          if FlagRegConflict(old(flagReg), fr) then s == Fail(FlagRegisterMismatch) && flagReg == old(flagReg)
          else s == Ok(()) && pos == q && flagReg == fr
    {
      var fr := ParseFlagRegRef();
      if fr.Fail? {
        return Fail(fr.d);
      }
      if FlagRegConflict(flagReg, fr.value) {
        return Fail(FlagRegisterMismatch);
      }
      flagReg := fr.value;
      return Ok(());
    }

    /** ParseFlagModOpt: the flag modifier as FlagModOptAt reads it, with the
      * callback; the bracketed form warns when deprecated syntax warnings
      * are on. */
    method ParseFlagModOpt() returns (s: Status)
      requires Valid()
      modifies this`pos, this`errors, this`flagReg, this`warnings, this`events
      ensures Valid() && old(pos) <= pos
      ensures match FlagModOptAt(toks, old(pos), old(flagReg))
        case Fail(d) => s == Fail(d)
        case Ok((None, _)) =>
          s == Ok(()) && pos == old(pos) && flagReg == old(flagReg) &&
          events == old(events) && errors == old(errors) && warnings == old(warnings)
        case Ok((Some(f), q)) =>
          var dep := env.opts.deprecatedSyntaxWarnings;
          s == Ok(()) && pos == q && flagReg == f.reg &&
          events == old(events) + [InstFlagModifier(f.reg, f.fm)] &&
          errors == old(errors) + (if f.oob then [FlagSubregisterOutOfBounds] else []) &&
          warnings == old(warnings) + (if f.legacy && dep then [DeprecatedFlagModSpelling] else []) +
                      (if f.bracketed && dep then [DeprecatedFlagModBrackets] else [])
    {
      var br := Consume(LBRACK);
      s := ParseFlagModAfterBracket(br);
    }

    /** ParseFlagModOpt after the optional '[' (br says it was there): the
      * function, then the register, as FlagModOptFrom reads them. */
    method ParseFlagModAfterBracket(br: bool) returns (s: Status)
      requires Valid()
      modifies this`pos, this`errors, this`flagReg, this`warnings, this`events
      ensures Valid() && old(pos) <= pos
      ensures match FlagModOptFrom(toks, old(pos), br, old(flagReg))
        case Fail(d) => s == Fail(d)
        case Ok((None, _)) =>
          s == Ok(()) && pos == old(pos) && flagReg == old(flagReg) &&
          events == old(events) && errors == old(errors) && warnings == old(warnings)
        case Ok((Some(f), q)) =>
          var dep := env.opts.deprecatedSyntaxWarnings;
          s == Ok(()) && pos == q && flagReg == f.reg &&
          events == old(events) + [InstFlagModifier(f.reg, f.fm)] &&
          errors == old(errors) + (if f.oob then [FlagSubregisterOutOfBounds] else []) &&
          warnings == old(warnings) + (if f.legacy && dep then [DeprecatedFlagModSpelling] else []) +
                      (if f.bracketed && dep then [DeprecatedFlagModBrackets] else [])
    {
      var f := TryParseFlagModFlag();
      if f.Fail? {
        return Fail(f.d);
      }
      if f.value.None? {
        if br {
          return Fail(ExpectedFlagModifier);
        }
        return Ok(());
      }
      s := FinishFlagModOpt(br, f.value.value.0);
    }

    /** ParseFlagModOpt after the function: the register, the ']' of the
      * bracketed form, the warning and the callback. */
    method FinishFlagModOpt(br: bool, fm: FlagModifier) returns (s: Status)
      requires Valid()
      modifies this`pos, this`errors, this`flagReg, this`warnings, this`events
      ensures Valid() && old(pos) <= pos
      ensures match FlagModRegAt(toks, old(pos), old(flagReg))
        case Fail(d) => s == Fail(d)
        case Ok((fr, oob, q)) =>
          errors == old(errors) + (if oob then [FlagSubregisterOutOfBounds] else []) && flagReg == fr &&
          if br && Peek(toks, q).lexeme != RBRACK then s == Fail(ExpectedRBrack)
          else
            s == Ok(()) && pos == (if br then q + 1 else q) &&
            events == old(events) + [InstFlagModifier(fr, fm)] &&
            warnings == old(warnings) + (if br && env.opts.deprecatedSyntaxWarnings then [DeprecatedFlagModBrackets] else [])
    {
      s := ParseFlagModFlagReg();
      if s.Fail? {
        return;
      }
      if br {
        s := ConsumeOrFail(RBRACK, ExpectedRBrack);
        if s.Fail? {
          return;
        }
        if env.opts.deprecatedSyntaxWarnings {
          warnings := warnings + [DeprecatedFlagModBrackets];
        }
      }
      events := events + [InstFlagModifier(flagReg, fm)];
    }
  

    // ---- the instruction body ----

    /** The source kinds a successful parse of the operands leaves, by syntax
      * class, starting from none: which sources were parsed, and the kinds
      * the class demands of them.  sf is the instruction's subfunction. */
    predicate OperandsFit(os: OpSpec, sf: Option<Subfunction>, kinds: seq<OperandKind>)
      requires |kinds| == 3
    {
      var parsed := set ix | 0 <= ix < 3 && kinds[ix] != KIND_INVALID;
      var labels := {IMMEDIATE, LABEL};
      match os.format
      case NULLARY => parsed == {}
      case BASIC_UNARY_REG => parsed == {0} && kinds[0] in {DIRECT, INDIRECT}
      case BASIC_UNARY_REGIMM => parsed == {0}
      case SYNC_UNARY => parsed == {0} && (env.model.supportsWait ==> kinds[0] == DIRECT)
      case SEND_UNARY => parsed == {0}
      case SEND_BINARY =>
        env.model.platform.Ord() <= XE.Ord() ==> (parsed == {0} || parsed == {0, 1})
      case BASIC_BINARY_REG_IMM => parsed == {0, 1}
      case BASIC_BINARY_REG_REG => parsed == {0, 1}
      case BASIC_BINARY_REG_REGIMM => parsed == {0, 1}
      case MATH_BINARY_REG_REGIMM => parsed == (if os.sourceCount(sf) > 1 then {0, 1} else {0})
      case TERNARY_REGIMM_REG_REGIMM => parsed == {0, 1, 2}
      case JUMP_UNARY_IMM => parsed == {0} && kinds[0] in labels
      case JUMP_UNARY_REGIMM => parsed == {0}
      case JUMP_UNARY_REG => parsed == {0} && kinds[0] in {DIRECT, INDIRECT}
      case JUMP_BINARY_BRC => (parsed == {0} || parsed == {0, 1}) && (kinds[0] in labels ==> parsed == {0, 1})
      case JUMP_UNARY_CALL_REGIMM => parsed == {0}
      case JUMP_BINARY_IMM_IMM => parsed == {0, 1} && kinds[0] in labels && kinds[1] in labels
    }

    /** No source parsed yet. */
    predicate NoSources()
      reads this`srcKinds
    {
      srcKinds == [KIND_INVALID, KIND_INVALID, KIND_INVALID]
    }

    /** FinishNonLdStInstBody: the execution size (the legacy default when it
      * is omitted), the flag modifier, then the operands the operation's
      * syntax class calls for. */
    method FinishNonLdStInstBody() returns (s: Status)
      requires Valid() && opSpec.Some? && NoSources()
      modifies this`pos, this`mark, this`execSize, this`events, this`errors, this`warnings, this`flagReg, this`srcKinds
      modifies this`subfunction
      ensures Valid() && old(pos) <= pos
      ensures var x := ExecInfoAt(toks, old(pos), opSpec.value.hasImplicitEm, env.opts.supportLegacyDirectives,
                                  defaultExecSize);
        (x.Fail? ==> s == Fail(x.d)) &&
        (s.Ok? ==> x.Ok? && execSize == x.value.0 && OperandsFit(opSpec.value, subfunction, srcKinds))
    {
      var ei := ParseExecInfo(defaultExecSize);
      if ei.Fail? {
        return Fail(ei.d);
      }
      s := ParseFlagModOnly();
      if s.Fail? {
        return;
      }
      s := ParseOperands();
    }

    /** The flag modifier, with only what the instruction body needs of it. */
    method ParseFlagModOnly() returns (s: Status)
      requires Valid()
      modifies this`pos, this`errors, this`flagReg, this`warnings, this`events
      ensures Valid() && old(pos) <= pos
    {
      s := ParseFlagModOpt();
    }

    /** A source operand, with only what the dispatch needs of it. */
    method ParseSrc(ix: nat) returns (s: Status)
      requires Valid() && opSpec.Some? && ix < 3
      modifies this`pos, this`mark, this`warnings, this`errors, this`events, this`srcKinds
      ensures Valid() && old(pos) <= pos
      ensures s.Ok? ==> SrcLogged(ix)
    {
      s := ParseSrcOp(ix);
    }

    /** A destination operand, with only what the dispatch needs of it. */
    method ParseDst() returns (s: Status)
      requires Valid() && opSpec.Some?
      modifies this`pos, this`warnings, this`errors, this`events
      ensures Valid() && old(pos) <= pos
    {
      s := ParseDstOp();
    }

    /** The switch on the syntax class. */
    method ParseOperands() returns (s: Status)
      requires Valid() && opSpec.Some? && NoSources()
      modifies this`pos, this`mark, this`events, this`errors, this`warnings, this`srcKinds, this`subfunction
      ensures Valid() && old(pos) <= pos && execSize == old(execSize) && opSpec == old(opSpec)
      ensures s.Ok? ==> OperandsFit(opSpec.value, subfunction, srcKinds)
    {
      match opSpec.value.format
      case NULLARY =>
        return Ok(());
      case BASIC_UNARY_REG =>
        s := ParseDstAndSrc0();
        if s.Ok? && srcKinds[0] != DIRECT && srcKinds[0] != INDIRECT {
          return Fail(Src0MustBeRegister);
        }
      case BASIC_UNARY_REGIMM =>
        s := ParseDstAndSrc0();
      case SYNC_UNARY =>
        s := ParseSrc(0);
        if s.Ok? && env.model.supportsWait && srcKinds[0] != DIRECT {
          return Fail(Src0MustBeNotificationRegister);
        }
      case SEND_UNARY =>
        s := ParseSendUnary();
      case SEND_BINARY =>
        if env.model.platform.Ord() <= XE.Ord() {
          s := ParseSendInstructionLegacy();
        } else {
          s := Ok(());
        }
      case BASIC_BINARY_REG_IMM =>
        s := ParseBinary();
      case BASIC_BINARY_REG_REG =>
        s := ParseBinary();
      case BASIC_BINARY_REG_REGIMM =>
        s := ParseBinary();
      case MATH_BINARY_REG_REGIMM =>
        s := ParseMath();
      case TERNARY_REGIMM_REG_REGIMM =>
        s := ParseTernary();
      case JUMP_UNARY_IMM | JUMP_UNARY_REGIMM | JUMP_UNARY_REG | JUMP_BINARY_BRC | JUMP_UNARY_CALL_REGIMM
         | JUMP_BINARY_IMM_IMM =>
        s := ParseJumpOperands();
    }

    /** The branching syntax classes of the switch. */
    method ParseJumpOperands() returns (s: Status)
      requires Valid() && opSpec.Some? && NoSources()
      modifies this`pos, this`mark, this`events, this`errors, this`warnings, this`srcKinds
      ensures Valid() && old(pos) <= pos
      ensures (s.Ok? && opSpec.value.format in {JUMP_UNARY_IMM, JUMP_UNARY_REGIMM, JUMP_UNARY_REG, JUMP_BINARY_BRC,
                                               JUMP_UNARY_CALL_REGIMM, JUMP_BINARY_IMM_IMM}) ==>
        OperandsFit(opSpec.value, subfunction, srcKinds)
    {
      match opSpec.value.format
      case JUMP_UNARY_IMM =>
        s := ParseSrcOpLabel(0);
      case JUMP_UNARY_REGIMM =>
        s := ParseSrc(0);
      case JUMP_UNARY_REG =>
        s := ParseSrc(0);
        if s.Ok? && srcKinds[0] != DIRECT && srcKinds[0] != INDIRECT {
          return Fail(Src0MustBeRegister);
        }
      case JUMP_BINARY_BRC =>
        s := ParseBrc();
      case JUMP_UNARY_CALL_REGIMM =>
        s := ParseDstAndSrc0();
      case JUMP_BINARY_IMM_IMM =>
        s := ParseSrcOpLabel(0);
        if s.Ok? {
          s := ParseSrcOpLabel(1);
        }
      case _ =>
        s := Ok(());
    }

    /** A destination, then src0. */
    method ParseDstAndSrc0() returns (s: Status)
      requires Valid() && opSpec.Some? && NoSources()
      modifies this`pos, this`mark, this`events, this`errors, this`warnings, this`srcKinds
      ensures Valid() && old(pos) <= pos
      ensures s.Ok? ==> srcKinds == [srcKinds[0], KIND_INVALID, KIND_INVALID] && srcKinds[0] != KIND_INVALID
    {
      s := ParseDst();
      if s.Fail? {
        return;
      }
      s := ParseSrc(0);
    }

    /** A destination, src0 and src1. */
    method ParseBinary() returns (s: Status)
      requires Valid() && opSpec.Some? && NoSources()
      modifies this`pos, this`mark, this`events, this`errors, this`warnings, this`srcKinds
      ensures Valid() && old(pos) <= pos
      ensures s.Ok? ==> srcKinds[0] != KIND_INVALID && srcKinds[1] != KIND_INVALID && srcKinds[2] == KIND_INVALID
    {
      s := ParseDstAndSrc0();
      if s.Fail? {
        return;
      }
      s := ParseSrc(1);
    }

    /** math: src1 only when the function takes two sources. */
    method ParseMath() returns (s: Status)
      requires Valid() && opSpec.Some? && NoSources()
      modifies this`pos, this`mark, this`events, this`errors, this`warnings, this`srcKinds
      ensures Valid() && old(pos) <= pos
      ensures s.Ok? ==> srcKinds[0] != KIND_INVALID && srcKinds[2] == KIND_INVALID &&
                        (srcKinds[1] != KIND_INVALID <==> opSpec.value.sourceCount(subfunction) > 1)
    {
      s := ParseDstAndSrc0();
      if s.Fail? {
        return;
      }
      if opSpec.value.sourceCount(subfunction) > 1 {
        s := ParseSrc(1);
      }
    }

    /** A destination and three sources. */
    method ParseTernary() returns (s: Status)
      requires Valid() && opSpec.Some? && NoSources()
      modifies this`pos, this`mark, this`events, this`errors, this`warnings, this`srcKinds
      ensures Valid() && old(pos) <= pos
      ensures s.Ok? ==> forall ix :: 0 <= ix < 3 ==> srcKinds[ix] != KIND_INVALID
    {
      s := ParseBinary();
      if s.Fail? {
        return;
      }
      s := ParseSrc(2);
    }

    /** brc: src1 follows an immediate or label src0, or when it is "null";
      * otherwise the legacy one-source form. */
    method ParseBrc() returns (s: Status)
      requires Valid() && opSpec.Some? && NoSources()
      modifies this`pos, this`mark, this`events, this`errors, this`warnings, this`srcKinds
      ensures Valid() && old(pos) <= pos
      ensures s.Ok? ==> srcKinds[0] != KIND_INVALID && srcKinds[2] == KIND_INVALID &&
                        (srcKinds[0] in {IMMEDIATE, LABEL} ==> srcKinds[1] != KIND_INVALID)
      ensures s.Ok? && srcKinds[1] == KIND_INVALID ==> !IdentAt(toks, pos, "null")
    {
      s := ParseSrc(0);
      if s.Fail? {
        return;
      }
      if srcKinds[0] == IMMEDIATE || srcKinds[0] == LABEL || IdentAt(toks, pos, "null") {
        s := ParseSrc(1);
      }
    }

    /** send (up to Gen11): destination, src0, and the descriptors. */
    method ParseSendUnary() returns (s: Status)
      requires Valid() && opSpec.Some? && NoSources()
      modifies this`pos, this`mark, this`events, this`errors, this`warnings, this`srcKinds, this`subfunction
      ensures Valid() && old(pos) <= pos
      ensures s.Ok? ==> srcKinds == [srcKinds[0], KIND_INVALID, KIND_INVALID] && srcKinds[0] != KIND_INVALID
    {
      s := ParseSendDstOp();
      if s.Fail? {
        return;
      }
      s := ParseSendSrcOp(0, false);
      if s.Fail? {
        return;
      }
      s := ParseSendDescsLegacy();
    }

    /** ParseSendInstructionLegacy: sends and sendsc up to XE: destination,
      * src0, src1 (which may be left implicit when unary sends and legacy
      * directives are both supported), and the descriptors. */
    method ParseSendInstructionLegacy() returns (s: Status)
      requires Valid() && opSpec.Some? && NoSources()
      modifies this`pos, this`mark, this`events, this`errors, this`warnings, this`srcKinds, this`subfunction
      ensures Valid() && old(pos) <= pos
      ensures s.Ok? ==> (srcKinds[0] != KIND_INVALID && srcKinds[2] == KIND_INVALID &&
        (srcKinds[1] == KIND_INVALID ==> env.model.supportsUnarySend && env.opts.supportLegacyDirectives))
    {
      s := ParseSendDstOp();
      if s.Fail? {
        return;
      }
      s := ParseSendSrcOp(0, false);
      if s.Fail? {
        return;
      }
      s := ParseSendSrcOp(1, env.model.supportsUnarySend && env.opts.supportLegacyDirectives);
      if s.Fail? {
        return;
      }
      s := ParseSendDescsLegacy();
    }

    /** One legacy send descriptor: an address register a0.n, else a
      * constant expression, which must be integral and of which the low 32
      * bits are kept. */
    method ParseSendDesc() returns (r: Res<SendDesc>)
      requires Valid()
      modifies this`pos, this`warnings, this`srcKinds
      ensures Valid() && old(pos) <= pos && srcKinds == old(srcKinds)
      ensures var reg := RegAt(env.model, toks, old(pos));
        (reg.Some? ==> match AddrRegAt(toks, old(pos) + 1, reg.value.0.regName, reg.value.1)
                       case Ok((rr, q)) => r == Ok(DescReg(rr)) && pos == q
                       case Fail(d) => r == Fail(d))
      ensures var x := Bitwise(XEnv(), toks, old(pos), false, env.imm.initial, old(warnings));
        RegAt(env.model, toks, old(pos)).None? ==>
          r == match x.out
               case Ret(b) =>
                 if !b then Fail(ExpectedExDesc)
                 else if !env.imm.isI64(x.v) then Fail(DescMustBeIntegral)
                 else Ok(DescImm(DescImmOf(x.v.bits)))
               case Throw(d) => Fail(d)
               case UB => Fail(UndefinedBehaviour)
    {
      var a := ParseAddrRegRefOpt();
      if a.Fail? {
        return Fail(a.d);
      } else if a.value.Some? {
        return Ok(DescReg(a.value.value));
      }
      assert warnings == old(warnings) + RegAtWarnings(env.model, toks, old(pos)) == old(warnings);
      var v := TryParseConstExpr(-1, env.imm.initial);
      if v.Fail? {
        return Fail(v.d);
      } else if v.value.None? {
        return Fail(ExpectedExDesc);
      } else if !env.imm.isI64(v.value.value) {
        return Fail(DescMustBeIntegral);
      }
      return Ok(DescImm(DescImmOf(v.value.value.bits)));
    }

    /** A send descriptor, with only what the callers need of it. */
    method ParseSendDescOnly() returns (r: Res<SendDesc>)
      requires Valid()
      modifies this`pos, this`warnings, this`srcKinds
      ensures Valid() && old(pos) <= pos && srcKinds == old(srcKinds)
    {
      r := ParseSendDesc();
    }

    /** The extended descriptor of ParseSendDescsLegacy, which on XE must
      * leave the shared-function bits [3:0] zero and before XE names the
      * subfunction; it may not be followed by a type. */
    method ParseExDescLegacy() returns (r: Res<SendDesc>)
      requires Valid()
      modifies this`pos, this`warnings, this`srcKinds, this`events, this`subfunction
      ensures Valid() && old(pos) <= pos && srcKinds == old(srcKinds)
      ensures r.Ok? ==> (
        Peek(toks, pos).lexeme != COLON &&
        (env.model.platform.Ord() >= XE.Ord() && r.value.DescImm? ==> r.value.imm % 16 == 0) &&
        (env.model.platform.Ord() < XE.Ord() ==>
           subfunction == Some(ExDescSubfunction(env.model, r.value)) &&
           events == old(events) + [InstSubfunction(ExDescSubfunction(env.model, r.value))]) &&
        (env.model.platform.Ord() >= XE.Ord() ==> events == old(events) && subfunction == old(subfunction)))
    {
      r := ParseSendDescOnly();
      if r.Fail? {
        return;
      }
      if r.value.DescImm? && env.model.platform.Ord() >= XE.Ord() && r.value.imm % 16 != 0 {
        return Fail(ExDescLowBitsNonzero);
      }
      if env.model.platform.Ord() < XE.Ord() {
        var sf := ExDescSubfunction(env.model, r.value);
        events := events + [InstSubfunction(sf)];
        subfunction := Some(sf);
      }
      if LookingAt(COLON) {
        return Fail(ExDescTypeless);
      }
    }

    /** ParseSendDescsLegacy: the extended descriptor, then the descriptor
      * and the callback with both; the descriptor may not be followed by a
      * type either. */
    method ParseSendDescsLegacy() returns (s: Status)
      requires Valid()
      modifies this`pos, this`warnings, this`srcKinds, this`events, this`subfunction
      ensures Valid() && old(pos) <= pos && srcKinds == old(srcKinds)
      ensures s.Ok? ==> (
        |events| > 0 && LastEvent().InstSendDescs? && Peek(toks, pos).lexeme != COLON &&
        (env.model.platform.Ord() >= XE.Ord() && LastEvent().exDesc.DescImm? ==> LastEvent().exDesc.imm % 16 == 0) &&
        (env.model.platform.Ord() < XE.Ord() ==> subfunction == Some(ExDescSubfunction(env.model, LastEvent().exDesc))))
    {
      var ex := ParseExDescLegacy();
      if ex.Fail? {
        return Fail(ex.d);
      }
      var desc := ParseSendDescOnly();
      if desc.Fail? {
        return Fail(desc.d);
      }
      events := events + [InstSendDescs(ex.value, desc.value)];
      if LookingAt(COLON) {
        return Fail(DescTypeless);
      }
      return Ok(());
    }
  

    // ---- instruction options ----

    /** Whether the current operation is of the send family, for EOT. */
    predicate IsSendOp()
      reads this`opSpec
    {
      opSpec.Some? && opSpec.value.isSendOrSendsFamily
    }

    /** tryParseInstOptToken, for an identifier that spells one of its
      * options: the option's own checks, then the duplicate check of
      * InstOptSet::add. */
    method ParseOptToken(opts: InstOptSet) returns (s: Status)
      requires Valid() && LookingAt(IDENT) && OptToken(env.model, IsSendOp(), opts.elems, Next(0).text).Some?
      modifies this`pos, opts
      ensures Valid() && old(pos) <= pos
      ensures match IdentOptAt(env.model, IsSendOp(), old(opts.elems), toks, old(pos), events, warnings).res
        case Fail(d) => s == Fail(d)
        case Ok((o, q)) => s.Ok? && opts.elems == o && pos == q
    {
      var res := OptToken(env.model, IsSendOp(), opts.elems, Next(0).text).value;
      Skip();
      if res.Fail? {
        return Fail(res.d);
      }
      var added := opts.Add(res.value);
      if !added {
        return Fail(DuplicateInstOpt);
      }
      return Ok(());
    }

    /** The named options of tryParseInstOptDepInfo; Switch on a platform
      * without hardware dependencies is accepted with a warning. */
    method ParseOptDepInfoIdent(opts: InstOptSet) returns (s: Status)
      requires Valid() && LookingAt(IDENT) && OptToken(env.model, IsSendOp(), opts.elems, Next(0).text).None?
      modifies this`pos, this`warnings, opts
      ensures Valid() && old(pos) <= pos
      ensures var st := IdentOptAt(env.model, IsSendOp(), old(opts.elems), toks, old(pos), events, old(warnings));
        warnings == st.warns &&
        match st.res
        case Fail(d) => s == Fail(d)
        case Ok((o, q)) => s.Ok? && opts.elems == o && pos == q
    {
      var dep := DepInfoOpt(env.model, Next(0).text);
      if dep.None? {
        return Fail(InvalidInstOpt);
      }
      Skip();
      if dep.value.Fail? {
        return Fail(dep.value.d);
      }
      if dep.value.value == SWITCH && !env.model.supportsHwDeps {
        warnings := warnings + [IgnoringSwitch];
      }
      var added := opts.Add(dep.value.value);
      if !added {
        return Fail(DuplicateInstOpt);
      }
      return Ok(());
    }

    /** The software scoreboard annotations of tryParseInstOptDepInfo: $n,
      * $n.dst and $n.src, and the minimum distance @n; none is allowed
      * where the hardware tracks dependencies. */
    method ParseSwsbOpt(ghost opts: set<InstOpt>) returns (s: Status)
      requires Valid() && (LookingAt(DOLLAR) || LookingAt(AT))
      modifies this`pos, this`events
      ensures Valid() && old(pos) <= pos
      ensures var st := SwsbAt(env.model, opts, toks, old(pos), old(events), warnings);
        events == st.events &&
        match st.res
        case Fail(d) => s == Fail(d)
        case Ok((o, q)) => s.Ok? && pos == q
    {
      var dollar := Consume(DOLLAR);
      if !dollar {
        Skip();
      }
      if env.model.supportsHwDeps {
        return Fail(SwDepsUnsupported);
      }
      if dollar {
        s := ParseSbid(opts);
      } else {
        s := ParseDist(opts);
      }
    }

    /** The minimum distance after '@'. */
    method ParseDist(ghost opts: set<InstOpt>) returns (s: Status)
      requires Valid()
      modifies this`pos, this`events
      ensures Valid() && old(pos) <= pos
      ensures var st := DistAt(opts, toks, old(pos), old(events), warnings);
        events == st.events &&
        match st.res
        case Fail(d) => s == Fail(d)
        case Ok((o, q)) => s.Ok? && pos == q
    {
      var dist := ConsumeIntLitOrFail(ExpectedDistance);
      if dist.Fail? {
        return Fail(dist.d);
      }
      events := events + [InstDepInfoDist(dist.value)];
      return Ok(());
    }

    /** The scoreboard id after '$' and what follows it. */
    method ParseSbid(ghost opts: set<InstOpt>) returns (s: Status)
      requires Valid()
      modifies this`pos, this`events
      ensures Valid() && old(pos) <= pos
      ensures var st := SbidAt(opts, toks, old(pos), old(events), warnings);
        events == st.events &&
        match st.res
        case Fail(d) => s == Fail(d)
        case Ok((o, q)) => s.Ok? && pos == q
    {
      var sbid := ConsumeIntLitOrFail(ExpectedSbid);
      if sbid.Fail? {
        return Fail(sbid.d);
      }
      s := ParseSbidTail(opts, sbid.value);
    }

    /** ".dst", ".src" or nothing after the scoreboard id. */
    method ParseSbidTail(ghost opts: set<InstOpt>, sbid: nat) returns (s: Status)
      requires Valid()
      modifies this`pos, this`events
      ensures Valid() && old(pos) <= pos
      ensures var st := SbidTailAt(opts, toks, old(pos), sbid, old(events), warnings);
        events == st.events &&
        match st.res
        case Fail(d) => s == Fail(d)
        case Ok((o, q)) => s.Ok? && pos == q
    {
      var dot := Consume(DOT);
      if dot {
        var dst := ConsumeIdentEq("dst");
        if dst {
          events := events + [InstDepInfoSBidDst(sbid)];
          return Ok(());
        }
        var src := ConsumeIdentEq("src");
        if src {
          events := events + [InstDepInfoSBidSrc(sbid)];
          return Ok(());
        }
        return Fail(InvalidSbidDirective);
      } else if !LookingAt(COMMA) && !LookingAt(RBRACE) {
        return Fail(SbidSyntax);
      }
      events := events + [InstDepInfoSBidAlloc(sbid)];
      return Ok(());
    }

    /** ParseInstOptOrFail: an option or dependency annotation, added to
      * opts, or "invalid instruction option". */
    method ParseInstOptOrFail(opts: InstOptSet) returns (s: Status)
      requires Valid()
      modifies this`pos, this`events, this`warnings, opts
      ensures Valid() && old(pos) <= pos
      ensures var st := InstOptAt(env.model, IsSendOp(), old(opts.elems), toks, old(pos), old(events), old(warnings));
        events == st.events && warnings == st.warns &&
        match st.res
        case Fail(d) => s == Fail(d)
        case Ok((o, q)) => s.Ok? && opts.elems == o && pos == q
    {
      if LookingAt(IDENT) && OptToken(env.model, IsSendOp(), opts.elems, Next(0).text).Some? {
        s := ParseOptToken(opts);
      } else if LookingAt(IDENT) {
        s := ParseOptDepInfoIdent(opts);
      } else if LookingAt(DOLLAR) || LookingAt(AT) {
        s := ParseSwsbOpt(opts.elems);
      } else {
        s := Fail(InvalidInstOpt);
      }
    }

    /** One round of the loop of ParseInstOpts: the ',' and the option after
      * it; the options still to parse are those of the same list. */
    method ParseCommaOpt(opts: InstOptSet, ghost goal: OptStep) returns (s: Status)
      requires Valid() && LookingAt(COMMA)
      requires InstOptsTail(env.model, IsSendOp(), opts.elems, toks, pos, events, warnings) == goal
      modifies this`pos, this`events, this`warnings, opts
      ensures Valid() && old(pos) < pos
      ensures s.Ok? ==> InstOptsTail(env.model, IsSendOp(), opts.elems, toks, pos, events, warnings) == goal
      ensures s.Fail? ==> goal == OptStep(Fail(s.d), events, warnings)
    {
      Skip();
      s := ParseInstOptOrFail(opts);
    }

    /** The loop of ParseInstOpts: options for as long as a ',' follows. */
    method ParseInstOptsTail(opts: InstOptSet) returns (s: Status)
      requires Valid()
      modifies this`pos, this`events, this`warnings, opts
      ensures Valid() && old(pos) <= pos
      ensures var st := InstOptsTail(env.model, IsSendOp(), old(opts.elems), toks, old(pos), old(events), old(warnings));
        events == st.events && warnings == st.warns &&
        match st.res
        case Fail(d) => s == Fail(d)
        case Ok((o, q)) => s.Ok? && opts.elems == o && pos == q
    {
      ghost var goal := InstOptsTail(env.model, IsSendOp(), opts.elems, toks, pos, events, warnings);
      while LookingAt(COMMA)
        invariant Valid() && old(pos) <= pos
        invariant InstOptsTail(env.model, IsSendOp(), opts.elems, toks, pos, events, warnings) == goal
        decreases |toks| - pos
      {
        s := ParseCommaOpt(opts, goal);
        if s.Fail? {
          return;
        }
      }
      return Ok(());
    }

    /** The first option of the list, unless the list is empty. */
    method ParseFirstOpt(opts: InstOptSet) returns (s: Status)
      requires Valid() && opts.elems == {}
      modifies this`pos, this`events, this`warnings, opts
      ensures Valid() && old(pos) <= pos
      ensures var st := FirstOptAt(env.model, IsSendOp(), toks, old(pos), old(events), old(warnings));
        events == st.events && warnings == st.warns &&
        match st.res
        case Fail(d) => s == Fail(d)
        case Ok((o, q)) => s.Ok? && opts.elems == o && pos == q
    {
      if LookingAt(RBRACE) {
        return Ok(());
      }
      s := ParseInstOptOrFail(opts);
    }

    /** The list after the '{': its options, then the '}'. */
    method ParseBracedOpts(opts: InstOptSet) returns (s: Status)
      requires Valid() && opts.elems == {}
      modifies this`pos, this`events, this`warnings, opts
      ensures Valid() && old(pos) <= pos
      ensures var st := BracedOptsAt(env.model, IsSendOp(), toks, old(pos), old(events), old(warnings));
        events == st.events && warnings == st.warns &&
        match st.res
        case Fail(d) => s == Fail(d)
        case Ok((o, q)) => s.Ok? && opts.elems == o && pos == q
    {
      s := ParseFirstOpt(opts);
      if s.Fail? {
        return;
      }
      s := ParseInstOptsTail(opts);
      if s.Fail? {
        return;
      }
      s := ConsumeOrFail(RBRACE, ExpectedRBrace);
    }

    /** ParseInstOpts: the optional "{...}" list, gathered in a fresh
      * InstOptSet, then the callback with the whole set (empty when there
      * is no list). */
    method ParseInstOpts() returns (s: Status)
      requires Valid()
      modifies this`pos, this`events, this`warnings
      ensures Valid() && old(pos) <= pos
      ensures var st := InstOptsAt(env.model, IsSendOp(), toks, old(pos), old(events), old(warnings));
        warnings == st.warns &&
        match st.res
        case Fail(d) => s == Fail(d) && events == st.events
        case Ok((o, q)) => s.Ok? && pos == q && events == st.events + [InstOptsAdd(o)]
    {
      var opts := new InstOptSet();
      var open := Consume(LBRACE);
      if open {
        s := ParseBracedOpts(opts);
        if s.Fail? {
          return;
        }
      }
      events := events + [InstOptsAdd(opts.elems)];
      return Ok(());
    }
  

    // ---- instructions, blocks and the program ----

    /** The identifier at p names an operation of the model. */
    predicate MnemonicAt(p: nat) {
      Peek(toks, p).lexeme == IDENT && Peek(toks, p).text in env.model.ops
    }

    /** The reset at the start of ParseInstCanThrowException; the builder's
      * InstStart clears the subfunction it holds. */
    method ResetInstState()
      requires Valid()
      modifies this`flagReg, this`opSpec, this`unifType, this`srcKinds, this`sendSrcLens, this`subfunction
      ensures Valid() && NoSources() && sendSrcLens == [-1, -1]
      ensures flagReg == REGREF_INVALID && opSpec.None? && unifType == INVALID && subfunction.None?
    {
      flagReg := REGREF_INVALID;
      opSpec := None;
      unifType := INVALID;
      srcKinds := [KIND_INVALID, KIND_INVALID, KIND_INVALID];
      sendSrcLens := [-1, -1];
      subfunction := None;
    }

    /** The predication, with only what the instruction needs of it. */
    method ParseWrEnPredOnly() returns (s: Status)
      requires Valid()
      modifies this`pos, this`errors, this`flagReg, this`events, this`hasWrEn
      ensures Valid() && old(pos) <= pos
      ensures match WrEnPredAt(toks, old(pos))
        case Fail(d) => s == Fail(d)
        case Ok((_, _, q)) => s.Ok? && pos == q
    {
      s := ParseWrEnPred();
    }

    /** The mnemonic, with only what the instruction needs of it. */
    method ParseMnemonicOnly() returns (r: Res<Option<OpSpec>>)
      requires Valid()
      modifies this`pos, this`events, this`warnings, this`subfunction
      ensures Valid() && old(pos) <= pos
      ensures !MnemonicAt(old(pos)) ==> r == Ok(None)
      ensures r.Ok? && r.value.Some? ==> old(pos) < pos
    {
      r := ParseMnemonic();
    }

    /** ParseInstCanThrowException up to the options: the predication, the
      * mnemonic (the callback for it is made a second time here), and the
      * rest of the body. */
    method ParseInstHead() returns (s: Status)
      requires Valid() && NoSources() && opSpec.None?
      modifies this
      ensures Valid() && old(pos) <= pos
      ensures match WrEnPredAt(toks, old(pos))
        case Fail(d) => s == Fail(d)
        case Ok((_, _, q)) => !MnemonicAt(q) ==> s == Fail(InvalidMnemonic)
      ensures s.Ok? ==> old(pos) < pos && opSpec.Some? && OperandsFit(opSpec.value, subfunction, srcKinds)
    {
      s := ParseWrEnPredOnly();
      if s.Fail? {
        return;
      }
      var os := ParseMnemonicOnly();
      if os.Fail? {
        return Fail(os.d);
      } else if os.value.None? {
        return Fail(InvalidMnemonic);
      }
      opSpec := os.value;
      events := events + [InstOp(os.value.value.mnemonic)];
      s := FinishNonLdStInstBody();
    }

    /** ParseInstCanThrowException: one instruction, from the InstStart
      * callback to the InstEnd callback, which must end at a newline, a ';'
      * or the end of file. */
    method ParseInstCanThrowException() returns (s: Status)
      requires Valid()
      modifies this
      ensures Valid() && old(pos) <= pos
      ensures match WrEnPredAt(toks, old(pos))
        case Fail(d) => s == Fail(d)
        case Ok((_, _, q)) => !MnemonicAt(q) ==> s == Fail(InvalidMnemonic)
      ensures s.Ok? ==> (
        old(pos) < pos && Peek(toks, pos).lexeme in {NEWLINE, SEMI, END_OF_FILE} &&
        opSpec.Some? && OperandsFit(opSpec.value, subfunction, srcKinds) &&
        |events| > 0 && LastEvent() == InstEnd)
    {
      events := events + [InstStart];
      ResetInstState();
      s := ParseInstBody();
    }

    /** ParseInstCanThrowException after the InstStart callback and the
      * reset: the head, the options and the end of the statement. */
    method ParseInstBody() returns (s: Status)
      requires Valid() && NoSources() && opSpec.None?
      modifies this
      ensures Valid() && old(pos) <= pos
      ensures match WrEnPredAt(toks, old(pos))
        case Fail(d) => s == Fail(d)
        case Ok((_, _, q)) => !MnemonicAt(q) ==> s == Fail(InvalidMnemonic)
      ensures s.Ok? ==> (
        old(pos) < pos && Peek(toks, pos).lexeme in {NEWLINE, SEMI, END_OF_FILE} &&
        opSpec.Some? && OperandsFit(opSpec.value, subfunction, srcKinds) &&
        |events| > 0 && LastEvent() == InstEnd)
    {
      s := ParseInstHead();
      if s.Fail? {
        return;
      }
      s := FinishInst();
    }

    /** The end of ParseInstCanThrowException: the options, the end of the
      * statement, and the InstEnd callback. */
    method FinishInst() returns (s: Status)
      requires Valid()
      modifies this`pos, this`events, this`warnings
      ensures Valid() && old(pos) <= pos
      ensures s.Ok? ==> Peek(toks, pos).lexeme in {NEWLINE, SEMI, END_OF_FILE} && |events| > 0 && LastEvent() == InstEnd
    {
      s := ParseInstOpts();
      if s.Fail? {
        return;
      }
      if !LookingAt(NEWLINE) && !LookingAt(SEMI) && !LookingAt(END_OF_FILE) {
        return Fail(ExpectedNewlineSemiOrEof);
      }
      events := events + [InstEnd];
    }

    /** RecoverFromSyntaxError: the error is recorded; once there are as
      * many errors as allowed it is raised again, otherwise the tokens up to
      * and including the next newline are skipped. */
    method RecoverFromSyntaxError(d: Diag) returns (s: Status)
      requires Valid()
      modifies this`pos, this`errors
      ensures Valid() && errors == old(errors) + [d]
      ensures s == if |errors| >= env.opts.maxSyntaxErrors then Fail(d) else Ok(())
      ensures s.Fail? ==> pos == old(pos)
      ensures s.Ok? ==> pos == SkipPastNewline(toks, old(pos))
    {
      errors := errors + [d];
      if |errors| >= env.opts.maxSyntaxErrors {
        return Fail(d);
      }
      ghost var goal := SkipPastNewline(toks, pos);
      var nl := Consume(NEWLINE);
      while !nl && !LookingAt(END_OF_FILE)
        invariant Valid() && errors == old(errors) + [d]
        invariant nl ==> pos == goal
        invariant !nl ==> SkipPastNewline(toks, pos) == goal && Peek(toks, pos).lexeme != NEWLINE
        decreases |toks| - pos
      {
        Skip();
        nl := Consume(NEWLINE);
      }
      return Ok(());
    }

    /** ParseInst: an instruction, or on a syntax error the recovery. */
    method ParseInst() returns (s: Status)
      requires Valid()
      modifies this
      ensures Valid() && old(pos) <= pos
      ensures s.Fail? ==> |errors| >= env.opts.maxSyntaxErrors
      ensures s.Ok? && Peek(toks, old(pos)).lexeme != END_OF_FILE ==> old(pos) < pos
    {
      s := ParseInstCanThrowException();
      if s.Fail? {
        s := RecoverFromSyntaxError(s.d);
      }
    }

    /** One legacy directive, after its '.': the default it sets.  A
      * misspelt register type leaves the default register type INVALID
      * before the failure. */
    method ParseDirective() returns (s: Status)
      requires Valid()
      modifies this`pos, this`defaultExecSize, this`defaultRegisterType
      ensures Valid() && old(pos) <= pos
      ensures match DirectiveAt(toks, old(pos))
        case Fail(d) =>
          s == Fail(d) && defaultExecSize == old(defaultExecSize) &&
          defaultRegisterType == if IdentAt(toks, old(pos), "default_register_type") then INVALID
                                 else old(defaultRegisterType)
        case Ok((DefaultExecSize(e), q)) =>
          s.Ok? && pos == q && defaultExecSize == e && defaultRegisterType == old(defaultRegisterType)
        case Ok((DefaultRegisterType(t), q)) =>
          s.Ok? && pos == q && defaultRegisterType == t && defaultExecSize == old(defaultExecSize)
    {
      var es := ConsumeIdentEq("default_execution_size");
      if es {
        assert DirectiveAt(toks, old(pos)) == ExecSizeDirectiveAt(toks, pos);
        s := ParseDefaultExecSize();
        return;
      }
      s := ParseRegTypeDirective();
    }

    /** ParseDirective when the directive is not "default_execution_size":
      * "default_register_type" and its type, or an unexpected directive. */
    method ParseRegTypeDirective() returns (s: Status)
      requires Valid() && !IdentAt(toks, pos, "default_execution_size")
      modifies this`pos, this`defaultRegisterType
      ensures Valid() && old(pos) <= pos
      ensures match DirectiveAt(toks, old(pos))
        case Fail(d) =>
          s == Fail(d) &&
          defaultRegisterType == if IdentAt(toks, old(pos), "default_register_type") then INVALID
                                 else old(defaultRegisterType)
        case Ok((DefaultExecSize(e), q)) => false
        case Ok((DefaultRegisterType(t), q)) => s.Ok? && pos == q && defaultRegisterType == t
    {
      var rt := ConsumeIdentEq("default_register_type");
      if !rt {
        return Fail(UnexpectedDirective);
      }
      assert DirectiveAt(toks, old(pos)) == RegTypeDirectiveAt(toks, pos);
      s := ParseDefaultRegisterType();
    }

    /** The SIMD width after ".default_execution_size". */
    method ParseDefaultExecSize() returns (s: Status)
      requires Valid()
      modifies this`pos, this`defaultExecSize
      ensures Valid() && old(pos) <= pos
      ensures match ExecSizeDirectiveAt(toks, old(pos))
        case Fail(d) => s == Fail(d) && defaultExecSize == old(defaultExecSize)
        case Ok((dv, q)) => s.Ok? && pos == q && DefaultExecSize(defaultExecSize) == dv
    {
      var lp := Consume(LPAREN);
      assert pos == SkipOpt(toks, old(pos), LPAREN);
      var n := ConsumeIntLitOrFail(ExpectedDefaultSimdWidth);
      if n.Fail? {
        s := Fail(n.d);
      } else {
        s := ParseExecSizeTail(n.value);
      }
    }

    /** The width read, checked and made the default, then ')' and the end of
      * the line. */
    method ParseExecSizeTail(n: int) returns (s: Status)
      requires Valid()
      modifies this`pos, this`defaultExecSize
      ensures Valid() && old(pos) <= pos
      ensures match ExecSizeTailAt(toks, old(pos), n)
        case Fail(d) => s == Fail(d) && defaultExecSize == old(defaultExecSize)
        case Ok((dv, q)) => s.Ok? && pos == q && DefaultExecSize(defaultExecSize) == dv
    {
      var e := ExecSizeOf(n);
      if e.None? {
        return Fail(InvalidDefaultExecSize);
      }
      defaultExecSize := e.value;
      var rp := Consume(RPAREN);
      var nl := Consume(NEWLINE);
      return Ok(());
    }

    /** The type after ".default_register_type"; the default is set to what
      * was read, INVALID included, before the check. */
    method ParseDefaultRegisterType() returns (s: Status)
      requires Valid()
      modifies this`pos, this`defaultRegisterType
      ensures Valid() && old(pos) <= pos
      ensures match RegTypeDirectiveAt(toks, old(pos))
        case Fail(d) => s == Fail(d) && defaultRegisterType == INVALID
        case Ok((dv, q)) => s.Ok? && pos == q && DefaultRegisterType(defaultRegisterType) == dv
    {
      defaultRegisterType := TryParseOpType(false);
      if defaultRegisterType == INVALID {
        return Fail(ExpectedDefaultRegisterType);
      }
      var nl := Consume(NEWLINE);
      return Ok(());
    }

    /** ParseLegacyDirectives: directives for as long as a '.' and an
      * identifier follow.  The result says whether any was read; a syntax
      * error in one is recovered from (and then counts as read) unless it is
      * one too many. */
    method ParseLegacyDirectives() returns (r: Res<bool>)
      requires Valid()
      modifies this`pos, this`defaultExecSize, this`defaultRegisterType, this`errors
      ensures Valid() && old(pos) <= pos
      ensures r == Ok(true) ==> old(pos) < pos
      ensures match DirectivesAt(toks, old(pos), old(defaultExecSize), old(defaultRegisterType))
        case Ok((es, rt, q)) =>
          r == Ok(q != old(pos)) && pos == q && defaultExecSize == es && defaultRegisterType == rt &&
          errors == old(errors)
        case Fail(d) =>
          errors == old(errors) + [d] &&
          r == if |errors| >= env.opts.maxSyntaxErrors then Fail(d) else Ok(true)
    {
      var parsed := 0;
      ghost var goal := DirectivesAt(toks, pos, defaultExecSize, defaultRegisterType);
      while LookingAt(DOT) && Next(1).lexeme == IDENT
        invariant Valid() && old(pos) <= pos && errors == old(errors)
        invariant DirectivesAt(toks, pos, defaultExecSize, defaultRegisterType) == goal
        invariant parsed == 0 <==> pos == old(pos)
        decreases |toks| - pos
      {
        parsed := parsed + 1;
        var s := ParseDirectiveStep(goal);
        if s.Fail? {
          s := RecoverFromSyntaxError(s.d);
          if s.Fail? {
            return Fail(s.d);
          }
          return Ok(true);
        }
      }
      return Ok(parsed > 0);
    }

    /** One pass of ParseLegacyDirectives' loop: the '.' and the directive
      * after it, keeping what is left of the loop's outcome. */
    method ParseDirectiveStep(ghost goal: Res<(ExecSize, Type, nat)>) returns (s: Status)
      requires Valid() && LookingAt(DOT) && Next(1).lexeme == IDENT
      requires DirectivesAt(toks, pos, defaultExecSize, defaultRegisterType) == goal
      modifies this`pos, this`defaultExecSize, this`defaultRegisterType
      ensures Valid() && old(pos) < pos
      ensures s.Ok? ==> DirectivesAt(toks, pos, defaultExecSize, defaultRegisterType) == goal
      ensures s.Fail? ==> goal == Fail(s.d)
    {
      Skip();
      s := ParseDirective();
    }

    /** ConsumeLabelDef: the label's name, and the position past its ':'. */
    method ConsumeLabelDef() returns (name: string)
      requires Valid() && IsLabelDefAt(toks, pos)
      modifies this`pos
      ensures Valid() && pos == old(pos) + 2 && name == Peek(toks, old(pos)).text
    {
      name := Next(0).text;
      Skip();
      Skip();
    }

    /** ParseBlock: the BlockStart callback, then empty statements,
      * directives and instructions up to the next label or the end of file,
      * then the BlockEnd callback. */
    method ParseBlock(name: string) returns (s: Status)
      requires Valid()
      modifies this
      ensures Valid() && old(pos) <= pos
      ensures s.Ok? ==> (IsLabelDefAt(toks, pos) || Peek(toks, pos).lexeme == END_OF_FILE) &&
                        |events| > 0 && LastEvent() == BlockEnd
      ensures s.Fail? ==> |errors| >= env.opts.maxSyntaxErrors
    {
      events := events + [BlockStart(name)];
      while true
        invariant Valid() && old(pos) <= pos
        decreases |toks| - pos
      {
        var more := ParseBlockTurn();
        if more.Fail? {
          return Fail(more.d);
        } else if !more.value {
          break;
        }
      }
      events := events + [BlockEnd];
      return Ok(());
    }

    /** One turn of ParseBlock's loop: an empty statement, the legacy
      * directives, or one instruction.  False when a label or the end of
      * the file ends the block; a turn that goes on moves the cursor. */
    method ParseBlockTurn() returns (r: Res<bool>)
      requires Valid()
      modifies this
      ensures Valid() && old(pos) <= pos
      ensures r == Ok(true) ==> old(pos) < pos
      ensures r == Ok(false) ==> IsLabelDefAt(toks, pos) || Peek(toks, pos).lexeme == END_OF_FILE
      ensures r.Fail? ==> |errors| >= env.opts.maxSyntaxErrors
    {
      if LookingAt(NEWLINE) || LookingAt(SEMI) {
        Skip();
        return Ok(true);
      }
      if env.opts.supportLegacyDirectives {
        var d := ParseLegacyDirectives();
        if d.Fail? {
          return Fail(d.d);
        } else if d.value {
          return Ok(true);
        }
      }
      if IsLabelDefAt(toks, pos) || LookingAt(END_OF_FILE) {
        return Ok(false);
      }
      var s := ParseInst();
      if s.Fail? {
        return Fail(s.d);
      }
      return Ok(true);
    }

    /** The start of ParseProgram, after ProgramStart: the legacy directives
      * where they are supported, then an unnamed first block unless a label
      * or the end comes first. */
    method ParseProgramPrefix() returns (s: Status)
      requires Valid()
      modifies this
      ensures Valid()
      ensures s.Ok? ==> IsLabelDefAt(toks, pos) || LookingAt(END_OF_FILE)
      ensures s.Fail? ==> |errors| >= env.opts.maxSyntaxErrors
    {
      if env.opts.supportLegacyDirectives {
        var d := ParseLegacyDirectives();
        if d.Fail? {
          return Fail(d.d);
        }
      }
      if !IsLabelDefAt(toks, pos) && !LookingAt(END_OF_FILE) {
        s := ParseBlock("");
        return;
      }
      return Ok(());
    }

    /** ParseProgram: the ProgramStart callback, the legacy directives, an
      * unnamed first block unless a label or the end comes first, then a
      * block per label; the whole input is read. */
    method ParseProgram() returns (s: Status)
      requires Valid()
      modifies this
      ensures Valid()
      ensures s.Ok? ==> Peek(toks, pos).lexeme == END_OF_FILE && |events| > 0 && LastEvent() == ProgramEnd
      ensures s.Fail? ==> |errors| >= env.opts.maxSyntaxErrors
    {
      events := events + [ProgramStart];
      s := ParseProgramPrefix();
      if s.Fail? {
        return;
      }
      while IsLabelDefAt(toks, pos)
        invariant Valid()
        invariant IsLabelDefAt(toks, pos) || LookingAt(END_OF_FILE)
        decreases |toks| - pos
      {
        var name := ConsumeLabelDef();
        s := ParseBlock(name);
        if s.Fail? {
          return;
        }
      }
      // the loop ends at the end of file, so "expected instruction, block,
      // or EOF" cannot be raised
      assert LookingAt(END_OF_FILE);
      events := events + [ProgramEnd];
      return Ok(());
    }
  }
}
