// The constant-expression grammar of GenParser (parseBitwiseExpr down to
// parsePrimary) as functions over the token sequence.  Each function takes
// the cursor position and the in/out value `v` exactly as the C++ takes its
// ImmVal reference, and says what the call does: returns true (parsed) or
// false (backed off without consuming anything), throws a SyntaxError, or
// reaches C++ undefined behaviour; plus the resulting value, the cursor
// position afterwards and the warning log afterwards (the log before the
// call with the call's own warnings appended).  The parser class's methods
// are proved to behave exactly as these functions say.
module Exprs {
  import opened ImmVals
  import opened Diags
  import opened Lexer

  datatype Outcome = Ret(parsed: bool) | Throw(d: Diag) | UB

  datatype ExprRes = ExprRes(out: Outcome, v: ImmVal, next: nat, log: seq<Warn>)

  /** What the grammar reads besides the tokens: whether the current
    * operation is branching or a mov (such operations may name a label), the
    * value of a default-constructed ImmVal, ImmVal::Negate, and the
    * evaluation of one binary operator.  The parser instantiates `eval` with
    * EvalBinExpr (see Evaluator); the grammar's own properties hold whatever
    * it is. */
  datatype ExprEnv = ExprEnv(
    branchOrMov: bool,
    initial: ImmVal,
    negate: ImmVal -> ImmVal,
    eval: (ImmVal, BinOp, ImmVal) -> EvalRes)

  /** evalBinExpr as the grammar's evaluator. */
  function Evaluator(fops: FloatOps): (ImmVal, BinOp, ImmVal) -> EvalRes {
    (v1: ImmVal, op: BinOp, v2: ImmVal) => EvalBinExpr(v1, op, v2, fops)
  }

  /** The contract every grammar function keeps: the cursor never moves
    * backwards or past the end; returning true consumed at least one token;
    * backing off consumed nothing, left the value alone and warned of
    * nothing. */
  predicate Sane(toks: seq<Token>, p: nat, v: ImmVal, log: seq<Warn>, r: ExprRes) {
    p <= r.next <= |toks| &&
    (r.out == Ret(true) ==> r.next > p) &&
    (r.out == Ret(false) ==> r.next == p && r.v == v && r.log == log)
  }

  predicate Aborted(r: ExprRes) { r.out.Throw? || r.out.UB? }

  function BitwiseOp(lx: Lexeme): Option<BinOp> {
    if lx == AMP then Some(And) else if lx == PIPE then Some(Or) else None
  }
  function ShiftOp(lx: Lexeme): Option<BinOp> {
    if lx == LSH then Some(Shl) else if lx == RSH then Some(Shr) else None
  }
  function AdditiveOp(lx: Lexeme): Option<BinOp> {
    if lx == ADD then Some(Add) else if lx == SUB then Some(Sub) else None
  }
  function MultiplicativeOp(lx: Lexeme): Option<BinOp> {
    if lx == MUL then Some(Mul) else if lx == DIV then Some(Div)
    else if lx == MOD then Some(Mod) else None
  }

  /** Applies the evaluator to the folded value and a right operand that was
    * parsed (or backed off, leaving a default-constructed value). */
  function Combine(e: ExprEnv, v: ImmVal, op: BinOp, r: ExprRes): EvalRes {
    e.eval(v, op, r.v)
  }

  /** The result of a fold step that stops the expression. */
  function Stop(out: Outcome, v: ImmVal, r: ExprRes): ExprRes {
    ExprRes(out, v, r.next, r.log)
  }

  // ---- E -> E (('&'|'|') E)* ----

  function Bitwise(e: ExprEnv, toks: seq<Token>, p: nat, consumed: bool, v: ImmVal, log: seq<Warn>): (r: ExprRes)
    requires p <= |toks|
    ensures Sane(toks, p, v, log, r)
    decreases |toks| - p, 6
  {
    var s := Shift(e, toks, p, consumed, v, log);
    if s.out != Ret(true) then s
    else BitwiseTail(e, toks, s.next, s.v, s.log)
  }

  /** The while loop of parseBitwiseExpr.  Its right operand is a whole
    * bitwise expression, so & and | group to the right. */
  function BitwiseTail(e: ExprEnv, toks: seq<Token>, p: nat, v: ImmVal, log: seq<Warn>): (r: ExprRes)
    requires p <= |toks|
    ensures p <= r.next <= |toks| && r.out != Ret(false)
    decreases |toks| - p, 0
  {
    match BitwiseOp(Peek(toks, p).lexeme)
    case None => ExprRes(Ret(true), v, p, log)
    case Some(op) =>
      var r := Bitwise(e, toks, p + 1, true, e.initial, log);
      if Aborted(r) then Stop(r.out, v, r)
      else match Combine(e, v, op, r)
        case Error(d) => Stop(Throw(d), v, r)
        case Undefined => Stop(UB, v, r)
        case Value(nv) => BitwiseTail(e, toks, r.next, nv, r.log)
  }

  // ---- E -> E (('<<'|'>>') E)* ----

  function Shift(e: ExprEnv, toks: seq<Token>, p: nat, consumed: bool, v: ImmVal, log: seq<Warn>): (r: ExprRes)
    requires p <= |toks|
    ensures Sane(toks, p, v, log, r)
    decreases |toks| - p, 5
  {
    var s := Additive(e, toks, p, consumed, v, log);
    if s.out != Ret(true) then s
    else ShiftTail(e, toks, s.next, s.v, s.log)
  }

  function ShiftTail(e: ExprEnv, toks: seq<Token>, p: nat, v: ImmVal, log: seq<Warn>): (r: ExprRes)
    requires p <= |toks|
    ensures p <= r.next <= |toks| && r.out != Ret(false)
    decreases |toks| - p, 0
  {
    match ShiftOp(Peek(toks, p).lexeme)
    case None => ExprRes(Ret(true), v, p, log)
    case Some(op) =>
      var r := Additive(e, toks, p + 1, true, e.initial, log);
      if Aborted(r) then Stop(r.out, v, r)
      else match Combine(e, v, op, r)
        case Error(d) => Stop(Throw(d), v, r)
        case Undefined => Stop(UB, v, r)
        case Value(nv) => ShiftTail(e, toks, r.next, nv, r.log)
  }

  // ---- E -> E (('+'|'-') E)* ----

  function Additive(e: ExprEnv, toks: seq<Token>, p: nat, consumed: bool, v: ImmVal, log: seq<Warn>): (r: ExprRes)
    requires p <= |toks|
    ensures Sane(toks, p, v, log, r)
    decreases |toks| - p, 4
  {
    var s := Multiplicative(e, toks, p, consumed, v, log);
    if s.out != Ret(true) then s
    else AdditiveTail(e, toks, s.next, s.v, s.log)
  }

  function AdditiveTail(e: ExprEnv, toks: seq<Token>, p: nat, v: ImmVal, log: seq<Warn>): (r: ExprRes)
    requires p <= |toks|
    ensures p <= r.next <= |toks| && r.out != Ret(false)
    decreases |toks| - p, 0
  {
    match AdditiveOp(Peek(toks, p).lexeme)
    case None => ExprRes(Ret(true), v, p, log)
    case Some(op) =>
      var r := Multiplicative(e, toks, p + 1, true, e.initial, log);
      if Aborted(r) then Stop(r.out, v, r)
      else match Combine(e, v, op, r)
        case Error(d) => Stop(Throw(d), v, r)
        case Undefined => Stop(UB, v, r)
        case Value(nv) => AdditiveTail(e, toks, r.next, nv, r.log)
  }

  // ---- E -> E (('*'|'/'|'%') E)* ----

  function Multiplicative(e: ExprEnv, toks: seq<Token>, p: nat, consumed: bool, v: ImmVal, log: seq<Warn>): (r: ExprRes)
    requires p <= |toks|
    ensures Sane(toks, p, v, log, r)
    decreases |toks| - p, 3
  {
    var s := Unary(e, toks, p, consumed, v, log);
    if s.out != Ret(true) then s
    else MultiplicativeTail(e, toks, s.next, s.v, s.log)
  }

  function MultiplicativeTail(e: ExprEnv, toks: seq<Token>, p: nat, v: ImmVal, log: seq<Warn>): (r: ExprRes)
    requires p <= |toks|
    ensures p <= r.next <= |toks| && r.out != Ret(false)
    decreases |toks| - p, 0
  {
    match MultiplicativeOp(Peek(toks, p).lexeme)
    case None => ExprRes(Ret(true), v, p, log)
    case Some(op) =>
      var r := Unary(e, toks, p + 1, true, e.initial, log);
      if Aborted(r) then Stop(r.out, v, r)
      else match Combine(e, v, op, r)
        case Error(d) => Stop(Throw(d), v, r)
        case Undefined => Stop(UB, v, r)
        case Value(nv) => MultiplicativeTail(e, toks, r.next, nv, r.log)
  }

  // ---- E -> ('-'|'~') Primary | Primary ----

  /** parseUnExpr: a unary operator applies to a primary only, and its
    * operand's own result is ignored. */
  function Unary(e: ExprEnv, toks: seq<Token>, p: nat, consumed: bool, v: ImmVal, log: seq<Warn>): (r: ExprRes)
    requires p <= |toks|
    ensures Sane(toks, p, v, log, r)
    decreases |toks| - p, 2
  {
    var t := Peek(toks, p).lexeme;
    if t != SUB && t != TILDE then Primary(e, toks, p, consumed, v, log)
    else
      var r := Primary(e, toks, p + 1, true, v, log);
      if Aborted(r) then r
      else if t == SUB then ExprRes(Ret(true), e.negate(r.v), r.next, r.log)
      else if !IsIntegral(r.v) then ExprRes(Throw(ArgumentMustBeIntegral), r.v, r.next, r.log)
      else ExprRes(Ret(true), ImmVal(r.v.kind, BitNot(r.v.bits)), r.next, r.log)
  }

  /** The NaN bit pattern qnan(payload) or snan(payload) denotes: the
    * payload or'ed with the exponent field, and with the quiet bit for qnan.
    * The payload lies below the quiet bit, so the fields are disjoint and
    * or-ing them adds them. */
  function NanBits(payload: Word, quiet: bool): Word
    requires payload < F64_QNAN_BIT
  {
    if quiet then F64_EXP_MASK + F64_QNAN_BIT + payload else F64_EXP_MASK + payload
  }

  /** What follows the symbol qnan or snan (whose token ends before p): a
    * parenthesised payload, or nothing, which is deprecated. */
  function NanSymbol(e: ExprEnv, toks: seq<Token>, p: nat, quiet: bool, v: ImmVal, log: seq<Warn>): (r: ExprRes)
    requires 0 < p <= |toks|
    ensures Sane(toks, p - 1, v, log, r) && r.out != Ret(false)
    decreases |toks| - p, 0
  {
    if Peek(toks, p).lexeme == LPAREN then NanPayload(e, toks, p + 1, quiet, v, log)
    else
      var bits := if quiet then F64_EXP_MASK + F64_QNAN_BIT else F64_EXP_MASK + 1;
      ExprRes(Ret(true), ImmVal(F64, bits), p, log + [BareNanDeprecated])
  }

  /** A NaN's payload after its '(': a bitwise expression below the quiet
    * bit, and not zero for snan, then ')'. */
  function NanPayload(e: ExprEnv, toks: seq<Token>, p: nat, quiet: bool, v: ImmVal, log: seq<Warn>): (r: ExprRes)
    requires 0 < p <= |toks|
    ensures Sane(toks, p - 1, v, log, r) && r.out != Ret(false)
    decreases |toks| - p, 7
  {
    var pl := Bitwise(e, toks, p, true, ImmVal(e.initial.kind, 0), log);
    if Aborted(pl) then Stop(pl.out, v, pl)
    else if pl.v.bits >= F64_QNAN_BIT then Stop(Throw(NanPayloadOverflows), v, pl)
    else if pl.v.bits == 0 && !quiet then Stop(Throw(NanPayloadMustBeNonzero), v, pl)
    else if Peek(toks, pl.next).lexeme != RPAREN then Stop(Throw(ExpectedRParen), v, pl)
    else ExprRes(Ret(true), ImmVal(F64, NanBits(pl.v.bits, quiet)), pl.next + 1, pl.log)
  }

  /** parsePrimary: the special symbols nan, qnan, snan and inf, literals,
    * a grouped expression, and an identifier that is a label (back off) or
    * an error. */
  function Primary(e: ExprEnv, toks: seq<Token>, p: nat, consumed: bool, v: ImmVal, log: seq<Warn>): (r: ExprRes)
    requires p <= |toks|
    ensures Sane(toks, p, v, log, r)
    decreases |toks| - p, 1
  {
    var t := Peek(toks, p);
    if IdentAt(toks, p, "nan") then
      ExprRes(Ret(true), ImmVal(F64, F64_SNAN_BITS), p + 1, log + [NanDeprecated])
    else if IdentAt(toks, p, "qnan") || IdentAt(toks, p, "snan") then
      NanSymbol(e, toks, p + 1, IdentAt(toks, p, "qnan"), v, log)
    else if IdentAt(toks, p, "inf") then
      ExprRes(Ret(true), ImmVal(F64, F64_INF_BITS), p + 1, log)
    else if t.lexeme == FLTLIT then
      ExprRes(Ret(true), ImmVal(F64, t.bits), p + 1, log)
    else if IsIntLit(t.lexeme) then
      // parsed as unsigned, tagged as signed
      ExprRes(Ret(true), ImmVal(S64, t.bits), p + 1, log)
    else if t.lexeme == LPAREN then
      // the result of the inner parse is ignored, and so is a missing ')'
      var g := Bitwise(e, toks, p + 1, true, v, log);
      if Aborted(g) then g
      else
        var q := if Peek(toks, g.next).lexeme == RPAREN then g.next + 1 else g.next;
        ExprRes(Ret(true), g.v, q, g.log)
    else if t.lexeme == IDENT then
      if e.branchOrMov then
        if consumed then ExprRes(Throw(LabelArithmetic), v, p, log)
        else ExprRes(Ret(false), v, p, log)
      else
        if !consumed then ExprRes(Throw(NonBranchingSymbol), v, p, log)
        else ExprRes(Ret(false), v, p, log)
    else if consumed then ExprRes(Throw(ConstExprSyntax), v, p, log)
    else ExprRes(Ret(false), v, p, log)
  }
  // ---- properties of the grammar ----

  /** Token builders for the statements below. */
  function Tok(lx: Lexeme): Token { Token(lx, "", 0, 0, 0) }
  function Lit(x: Word): Token { Token(INTLIT10, "", 0, 0, x) }
  function Ident(s: string): Token { Token(IDENT, s, 0, 0, 0) }

  /** An integer literal operand reads as its 64-bit pattern tagged s64. */
  lemma LiteralOperand(e: ExprEnv, toks: seq<Token>, p: nat, consumed: bool, v: ImmVal, L: seq<Warn>)
    requires p < |toks| && IsIntLit(toks[p].lexeme)
    ensures Unary(e, toks, p, consumed, v, L) == ExprRes(Ret(true), ImmVal(S64, toks[p].bits), p + 1, L)
  {
  }

  /** A token that is no operator of a level ends that level's loop. */
  lemma TailsStop(e: ExprEnv, toks: seq<Token>, p: nat, v: ImmVal, L: seq<Warn>)
    requires p <= |toks|
    ensures MultiplicativeOp(Peek(toks, p).lexeme).None? ==>
      MultiplicativeTail(e, toks, p, v, L) == ExprRes(Ret(true), v, p, L)
    ensures AdditiveOp(Peek(toks, p).lexeme).None? ==>
      AdditiveTail(e, toks, p, v, L) == ExprRes(Ret(true), v, p, L)
    ensures ShiftOp(Peek(toks, p).lexeme).None? ==>
      ShiftTail(e, toks, p, v, L) == ExprRes(Ret(true), v, p, L)
    ensures BitwiseOp(Peek(toks, p).lexeme).None? ==>
      BitwiseTail(e, toks, p, v, L) == ExprRes(Ret(true), v, p, L)
  {
  }

  /** An operand that parses is followed by each level's loop in turn. */
  lemma Levels(e: ExprEnv, toks: seq<Token>, p: nat, consumed: bool, v: ImmVal, L: seq<Warn>)
    requires p <= |toks|
    ensures var u := Unary(e, toks, p, consumed, v, L);
      u.out == Ret(true) ==>
        Multiplicative(e, toks, p, consumed, v, L) == MultiplicativeTail(e, toks, u.next, u.v, u.log)
    ensures var m := Multiplicative(e, toks, p, consumed, v, L);
      m.out == Ret(true) ==>
        Additive(e, toks, p, consumed, v, L) == AdditiveTail(e, toks, m.next, m.v, m.log)
    ensures var a := Additive(e, toks, p, consumed, v, L);
      a.out == Ret(true) ==>
        Shift(e, toks, p, consumed, v, L) == ShiftTail(e, toks, a.next, a.v, a.log)
    ensures var s := Shift(e, toks, p, consumed, v, L);
      s.out == Ret(true) ==>
        Bitwise(e, toks, p, consumed, v, L) == BitwiseTail(e, toks, s.next, s.v, s.log)
  {
  }

  /** A single literal is a whole expression. */
  lemma LiteralExpression(e: ExprEnv, toks: seq<Token>, p: nat, consumed: bool, v: ImmVal, L: seq<Warn>)
    requires p < |toks| && IsIntLit(toks[p].lexeme)
    requires Peek(toks, p + 1).lexeme !in {AMP, PIPE, LSH, RSH, ADD, SUB, MUL, DIV, MOD}
    ensures Bitwise(e, toks, p, consumed, v, L) == ExprRes(Ret(true), ImmVal(S64, toks[p].bits), p + 1, L)
  {
    var w := ImmVal(S64, toks[p].bits);
    LiteralOperand(e, toks, p, consumed, v, L);
    TailsStop(e, toks, p + 1, w, L);
    Levels(e, toks, p, consumed, v, L);
    assert Multiplicative(e, toks, p, consumed, v, L) == ExprRes(Ret(true), w, p + 1, L);
    assert Additive(e, toks, p, consumed, v, L) == ExprRes(Ret(true), w, p + 1, L);
    assert Shift(e, toks, p, consumed, v, L) == ExprRes(Ret(true), w, p + 1, L);
  }

  /** One turn of each level's loop: an operator, a right operand that
    * parsed, and a value the evaluator accepted. */
  lemma MultiplicativeStep(e: ExprEnv, toks: seq<Token>, p: nat, v: ImmVal, op: BinOp, w: ImmVal, nv: ImmVal, L: seq<Warn>)
    requires p < |toks| && MultiplicativeOp(toks[p].lexeme) == Some(op)
    requires var r := Unary(e, toks, p + 1, true, e.initial, L); r.out == Ret(true) && r.v == w
    requires e.eval(v, op, w) == Value(nv)
    ensures var r := Unary(e, toks, p + 1, true, e.initial, L);
      MultiplicativeTail(e, toks, p, v, L) == MultiplicativeTail(e, toks, r.next, nv, r.log)
  {
  }

  lemma AdditiveStep(e: ExprEnv, toks: seq<Token>, p: nat, v: ImmVal, op: BinOp, w: ImmVal, nv: ImmVal, L: seq<Warn>)
    requires p < |toks| && AdditiveOp(toks[p].lexeme) == Some(op)
    requires var r := Multiplicative(e, toks, p + 1, true, e.initial, L); r.out == Ret(true) && r.v == w
    requires e.eval(v, op, w) == Value(nv)
    ensures var r := Multiplicative(e, toks, p + 1, true, e.initial, L);
      AdditiveTail(e, toks, p, v, L) == AdditiveTail(e, toks, r.next, nv, r.log)
  {
  }

  lemma ShiftStep(e: ExprEnv, toks: seq<Token>, p: nat, v: ImmVal, op: BinOp, w: ImmVal, nv: ImmVal, L: seq<Warn>)
    requires p < |toks| && ShiftOp(toks[p].lexeme) == Some(op)
    requires var r := Additive(e, toks, p + 1, true, e.initial, L); r.out == Ret(true) && r.v == w
    requires e.eval(v, op, w) == Value(nv)
    ensures var r := Additive(e, toks, p + 1, true, e.initial, L);
      ShiftTail(e, toks, p, v, L) == ShiftTail(e, toks, r.next, nv, r.log)
  {
  }

  lemma BitwiseStep(e: ExprEnv, toks: seq<Token>, p: nat, v: ImmVal, op: BinOp, w: ImmVal, nv: ImmVal, L: seq<Warn>)
    requires p < |toks| && BitwiseOp(toks[p].lexeme) == Some(op)
    requires var r := Bitwise(e, toks, p + 1, true, e.initial, L); r.out == Ret(true) && r.v == w
    requires e.eval(v, op, w) == Value(nv)
    ensures var r := Bitwise(e, toks, p + 1, true, e.initial, L);
      BitwiseTail(e, toks, p, v, L) == BitwiseTail(e, toks, r.next, nv, r.log)
  {
  }

  /** One turn of each level's loop, whatever the right operand does: these
    * are the steps the parser's while loops take. */
  lemma BitwiseTurn(e: ExprEnv, toks: seq<Token>, p: nat, v: ImmVal, op: BinOp, L: seq<Warn>)
    requires p < |toks| && BitwiseOp(toks[p].lexeme) == Some(op)
    ensures var r := Bitwise(e, toks, p + 1, true, e.initial, L);
      BitwiseTail(e, toks, p, v, L) ==
        if Aborted(r) then Stop(r.out, v, r)
        else match e.eval(v, op, r.v)
          case Error(d) => Stop(Throw(d), v, r)
          case Undefined => Stop(UB, v, r)
          case Value(nv) => BitwiseTail(e, toks, r.next, nv, r.log)
  {
  }

  lemma ShiftTurn(e: ExprEnv, toks: seq<Token>, p: nat, v: ImmVal, op: BinOp, L: seq<Warn>)
    requires p < |toks| && ShiftOp(toks[p].lexeme) == Some(op)
    ensures var r := Additive(e, toks, p + 1, true, e.initial, L);
      ShiftTail(e, toks, p, v, L) ==
        if Aborted(r) then Stop(r.out, v, r)
        else match e.eval(v, op, r.v)
          case Error(d) => Stop(Throw(d), v, r)
          case Undefined => Stop(UB, v, r)
          case Value(nv) => ShiftTail(e, toks, r.next, nv, r.log)
  {
  }

  lemma AdditiveTurn(e: ExprEnv, toks: seq<Token>, p: nat, v: ImmVal, op: BinOp, L: seq<Warn>)
    requires p < |toks| && AdditiveOp(toks[p].lexeme) == Some(op)
    ensures var r := Multiplicative(e, toks, p + 1, true, e.initial, L);
      AdditiveTail(e, toks, p, v, L) ==
        if Aborted(r) then Stop(r.out, v, r)
        else match e.eval(v, op, r.v)
          case Error(d) => Stop(Throw(d), v, r)
          case Undefined => Stop(UB, v, r)
          case Value(nv) => AdditiveTail(e, toks, r.next, nv, r.log)
  {
  }

  lemma MultiplicativeTurn(e: ExprEnv, toks: seq<Token>, p: nat, v: ImmVal, op: BinOp, L: seq<Warn>)
    requires p < |toks| && MultiplicativeOp(toks[p].lexeme) == Some(op)
    ensures var r := Unary(e, toks, p + 1, true, e.initial, L);
      MultiplicativeTail(e, toks, p, v, L) ==
        if Aborted(r) then Stop(r.out, v, r)
        else match e.eval(v, op, r.v)
          case Error(d) => Stop(Throw(d), v, r)
          case Undefined => Stop(UB, v, r)
          case Value(nv) => MultiplicativeTail(e, toks, r.next, nv, r.log)
  {
  }

  /** An operand, an operator and a right operand, none of them warning, make
    * the first turn of a level's loop. */
  lemma MultiplicativeFold(e: ExprEnv, toks: seq<Token>, p: nat, consumed: bool, v: ImmVal,
                           x: ImmVal, q: nat, op: BinOp, y: ImmVal, r: nat, s: ImmVal, L: seq<Warn>)
    requires p <= |toks| && Unary(e, toks, p, consumed, v, L) == ExprRes(Ret(true), x, q, L)
    requires q < |toks| && MultiplicativeOp(toks[q].lexeme) == Some(op)
    requires Unary(e, toks, q + 1, true, e.initial, L) == ExprRes(Ret(true), y, r, L)
    requires e.eval(x, op, y) == Value(s)
    ensures Multiplicative(e, toks, p, consumed, v, L) == MultiplicativeTail(e, toks, r, s, L)
  {
    MultiplicativeStep(e, toks, q, x, op, y, s, L);
  }

  lemma AdditiveFold(e: ExprEnv, toks: seq<Token>, p: nat, consumed: bool, v: ImmVal,
                     x: ImmVal, q: nat, op: BinOp, y: ImmVal, r: nat, s: ImmVal, L: seq<Warn>)
    requires p <= |toks| && Multiplicative(e, toks, p, consumed, v, L) == ExprRes(Ret(true), x, q, L)
    requires q < |toks| && AdditiveOp(toks[q].lexeme) == Some(op)
    requires Multiplicative(e, toks, q + 1, true, e.initial, L) == ExprRes(Ret(true), y, r, L)
    requires e.eval(x, op, y) == Value(s)
    ensures Additive(e, toks, p, consumed, v, L) == AdditiveTail(e, toks, r, s, L)
  {
    AdditiveStep(e, toks, q, x, op, y, s, L);
  }

  lemma ShiftFold(e: ExprEnv, toks: seq<Token>, p: nat, consumed: bool, v: ImmVal,
                  x: ImmVal, q: nat, op: BinOp, y: ImmVal, r: nat, s: ImmVal, L: seq<Warn>)
    requires p <= |toks| && Additive(e, toks, p, consumed, v, L) == ExprRes(Ret(true), x, q, L)
    requires q < |toks| && ShiftOp(toks[q].lexeme) == Some(op)
    requires Additive(e, toks, q + 1, true, e.initial, L) == ExprRes(Ret(true), y, r, L)
    requires e.eval(x, op, y) == Value(s)
    ensures Shift(e, toks, p, consumed, v, L) == ShiftTail(e, toks, r, s, L)
  {
    ShiftStep(e, toks, q, x, op, y, s, L);
  }

  lemma BitwiseFold(e: ExprEnv, toks: seq<Token>, p: nat, consumed: bool, v: ImmVal,
                    x: ImmVal, q: nat, op: BinOp, y: ImmVal, r: nat, s: ImmVal, L: seq<Warn>)
    requires p <= |toks| && Shift(e, toks, p, consumed, v, L) == ExprRes(Ret(true), x, q, L)
    requires q < |toks| && BitwiseOp(toks[q].lexeme) == Some(op)
    requires Bitwise(e, toks, q + 1, true, e.initial, L) == ExprRes(Ret(true), y, r, L)
    requires e.eval(x, op, y) == Value(s)
    ensures Bitwise(e, toks, p, consumed, v, L) == BitwiseTail(e, toks, r, s, L)
  {
    BitwiseStep(e, toks, q, x, op, y, s, L);
  }

  /** A result of one level followed by no operator of the next level is
    * that level's result too. */
  lemma MultiplicativeOnly(e: ExprEnv, toks: seq<Token>, p: nat, consumed: bool, v: ImmVal, x: ImmVal, q: nat, L: seq<Warn>)
    requires p <= |toks| && Unary(e, toks, p, consumed, v, L) == ExprRes(Ret(true), x, q, L)
    requires MultiplicativeOp(Peek(toks, q).lexeme).None?
    ensures Multiplicative(e, toks, p, consumed, v, L) == ExprRes(Ret(true), x, q, L)
  {
    TailsStop(e, toks, q, x, L);
  }

  lemma AdditiveOnly(e: ExprEnv, toks: seq<Token>, p: nat, consumed: bool, v: ImmVal, x: ImmVal, q: nat, L: seq<Warn>)
    requires p <= |toks| && Multiplicative(e, toks, p, consumed, v, L) == ExprRes(Ret(true), x, q, L)
    requires AdditiveOp(Peek(toks, q).lexeme).None?
    ensures Additive(e, toks, p, consumed, v, L) == ExprRes(Ret(true), x, q, L)
  {
    TailsStop(e, toks, q, x, L);
  }

  lemma ShiftOnly(e: ExprEnv, toks: seq<Token>, p: nat, consumed: bool, v: ImmVal, x: ImmVal, q: nat, L: seq<Warn>)
    requires p <= |toks| && Additive(e, toks, p, consumed, v, L) == ExprRes(Ret(true), x, q, L)
    requires ShiftOp(Peek(toks, q).lexeme).None?
    ensures Shift(e, toks, p, consumed, v, L) == ExprRes(Ret(true), x, q, L)
  {
    TailsStop(e, toks, q, x, L);
  }

  lemma BitwiseOnly(e: ExprEnv, toks: seq<Token>, p: nat, consumed: bool, v: ImmVal, x: ImmVal, q: nat, L: seq<Warn>)
    requires p <= |toks| && Shift(e, toks, p, consumed, v, L) == ExprRes(Ret(true), x, q, L)
    requires BitwiseOp(Peek(toks, q).lexeme).None?
    ensures Bitwise(e, toks, p, consumed, v, L) == ExprRes(Ret(true), x, q, L)
  {
    TailsStop(e, toks, q, x, L);
  }

  // ---- each level as a fold over any number of operands ----

  /** The four binary precedence levels, loosest first. */
  datatype Level = BitwiseLevel | ShiftLevel | AdditiveLevel | MultiplicativeLevel

  function LevelOp(lv: Level, lx: Lexeme): Option<BinOp> {
    match lv
    case BitwiseLevel => BitwiseOp(lx)
    case ShiftLevel => ShiftOp(lx)
    case AdditiveLevel => AdditiveOp(lx)
    case MultiplicativeLevel => MultiplicativeOp(lx)
  }

  /** A level's operand: a whole expression of the next tighter level. */
  function Operand(lv: Level, e: ExprEnv, toks: seq<Token>, p: nat, consumed: bool, v: ImmVal, log: seq<Warn>): ExprRes
    requires p <= |toks|
  {
    match lv
    case BitwiseLevel => Shift(e, toks, p, consumed, v, log)
    case ShiftLevel => Additive(e, toks, p, consumed, v, log)
    case AdditiveLevel => Multiplicative(e, toks, p, consumed, v, log)
    case MultiplicativeLevel => Unary(e, toks, p, consumed, v, log)
  }

  /** An operator of a level and the right operand after it, as parsed: its
    * value, the cursor after it and the warning log after it. */
  datatype Link = Link(op: BinOp, val: ImmVal, next: nat, log: seq<Warn>)

  /** From cursor q, the tokens hold the operators of `ch`, each followed by
    * a right operand that parses as a whole expression of the next tighter
    * level, and then a token that is no operator of the level. */
  predicate ChainAt(lv: Level, e: ExprEnv, toks: seq<Token>, q: nat, log: seq<Warn>, ch: seq<Link>)
    decreases |ch|
  {
    q <= |toks| &&
    if ch == [] then LevelOp(lv, Peek(toks, q).lexeme).None?
    else
      q < |toks| && LevelOp(lv, toks[q].lexeme) == Some(ch[0].op) &&
      Operand(lv, e, toks, q + 1, true, e.initial, log) == ExprRes(Ret(true), ch[0].val, ch[0].next, ch[0].log) &&
      ChainAt(lv, e, toks, ch[0].next, ch[0].log, ch[1..])
  }

  /** The cursor and the warning log after the last operand of a chain. */
  function EndPos(q: nat, ch: seq<Link>): nat {
    if ch == [] then q else ch[|ch| - 1].next
  }
  function EndLog(log: seq<Warn>, ch: seq<Link>): seq<Warn> {
    if ch == [] then log else ch[|ch| - 1].log
  }

  /** x op1 y1 op2 y2 ... grouped to the left, ((x op1 y1) op2 y2) ...,
    * stopping at the first evaluation that fails. */
  function LeftFold(eval: (ImmVal, BinOp, ImmVal) -> EvalRes, x: ImmVal, ch: seq<Link>): EvalRes
    decreases |ch|
  {
    if ch == [] then Value(x)
    else match eval(x, ch[0].op, ch[0].val)
      case Value(nv) => LeftFold(eval, nv, ch[1..])
      case Error(d) => Error(d)
      case Undefined => Undefined
  }

  /** x op1 y1 op2 y2 ... grouped to the right, x op1 (y1 op2 (y2 ...)),
    * the innermost operator evaluated first. */
  function RightFold(eval: (ImmVal, BinOp, ImmVal) -> EvalRes, x: ImmVal, ch: seq<Link>): EvalRes
    decreases |ch|
  {
    if ch == [] then Value(x)
    else match RightFold(eval, ch[0].val, ch[1..])
      case Value(w) => eval(x, ch[0].op, w)
      case Error(d) => Error(d)
      case Undefined => Undefined
  }

  /** A parse result as a fold predicts it: the folded value, with the
    * cursor and log after the last operand, or the failure the fold stops
    * with. */
  predicate Folded(r: ExprRes, f: EvalRes, next: nat, log: seq<Warn>) {
    match f
    case Value(s) => r == ExprRes(Ret(true), s, next, log)
    case Error(d) => r.out == Throw(d)
    case Undefined => r.out == UB
  }

  /** A chain ends within the tokens, at no operator of its level. */
  lemma {:induction false} ChainEnds(lv: Level, e: ExprEnv, toks: seq<Token>, q: nat, log: seq<Warn>, ch: seq<Link>)
    requires ChainAt(lv, e, toks, q, log, ch)
    ensures EndPos(q, ch) <= |toks| && LevelOp(lv, Peek(toks, EndPos(q, ch)).lexeme).None?
    decreases |ch|
  {
    if ch != [] {
      ChainEnds(lv, e, toks, ch[0].next, ch[0].log, ch[1..]);
      assert EndPos(ch[0].next, ch[1..]) == EndPos(q, ch);
    }
  }

  /** The `*`, `/`, `%` loop over any number of operands is the left fold of
    * its operands' values. */
  lemma {:induction false} MultiplicativeTailIsLeftFold(e: ExprEnv, toks: seq<Token>, q: nat, x: ImmVal, log: seq<Warn>, ch: seq<Link>)
    requires ChainAt(MultiplicativeLevel, e, toks, q, log, ch)
    ensures Folded(MultiplicativeTail(e, toks, q, x, log), LeftFold(e.eval, x, ch), EndPos(q, ch), EndLog(log, ch))
    decreases |ch|
  {
    if ch != [] {
      var c := ch[0];
      assert EndPos(c.next, ch[1..]) == EndPos(q, ch) && EndLog(c.log, ch[1..]) == EndLog(log, ch);
      match e.eval(x, c.op, c.val)
      case Value(nv) =>
        MultiplicativeTailIsLeftFold(e, toks, c.next, nv, c.log, ch[1..]);
      case Error(d) =>
      case Undefined =>
    }
  }

  /** The `+`, `-` loop is the left fold of whole multiplicative operands. */
  lemma {:induction false} AdditiveTailIsLeftFold(e: ExprEnv, toks: seq<Token>, q: nat, x: ImmVal, log: seq<Warn>, ch: seq<Link>)
    requires ChainAt(AdditiveLevel, e, toks, q, log, ch)
    ensures Folded(AdditiveTail(e, toks, q, x, log), LeftFold(e.eval, x, ch), EndPos(q, ch), EndLog(log, ch))
    decreases |ch|
  {
    if ch != [] {
      var c := ch[0];
      assert EndPos(c.next, ch[1..]) == EndPos(q, ch) && EndLog(c.log, ch[1..]) == EndLog(log, ch);
      match e.eval(x, c.op, c.val)
      case Value(nv) =>
        AdditiveTailIsLeftFold(e, toks, c.next, nv, c.log, ch[1..]);
      case Error(d) =>
      case Undefined =>
    }
  }

  /** The `<<`, `>>` loop is the left fold of whole additive operands. */
  lemma {:induction false} ShiftTailIsLeftFold(e: ExprEnv, toks: seq<Token>, q: nat, x: ImmVal, log: seq<Warn>, ch: seq<Link>)
    requires ChainAt(ShiftLevel, e, toks, q, log, ch)
    ensures Folded(ShiftTail(e, toks, q, x, log), LeftFold(e.eval, x, ch), EndPos(q, ch), EndLog(log, ch))
    decreases |ch|
  {
    if ch != [] {
      var c := ch[0];
      assert EndPos(c.next, ch[1..]) == EndPos(q, ch) && EndLog(c.log, ch[1..]) == EndLog(log, ch);
      match e.eval(x, c.op, c.val)
      case Value(nv) =>
        ShiftTailIsLeftFold(e, toks, c.next, nv, c.log, ch[1..]);
      case Error(d) =>
      case Undefined =>
    }
  }

  /** The `&`, `|` loop is the right fold of whole shift operands: its right
    * operand is a whole bitwise expression. */
  lemma {:induction false} BitwiseTailIsRightFold(e: ExprEnv, toks: seq<Token>, q: nat, x: ImmVal, log: seq<Warn>, ch: seq<Link>)
    requires ChainAt(BitwiseLevel, e, toks, q, log, ch)
    ensures Folded(BitwiseTail(e, toks, q, x, log), RightFold(e.eval, x, ch), EndPos(q, ch), EndLog(log, ch))
    decreases |ch|
  {
    if ch != [] {
      var c := ch[0];
      var end, endLog := EndPos(q, ch), EndLog(log, ch);
      assert EndPos(c.next, ch[1..]) == end && EndLog(c.log, ch[1..]) == endLog;
      BitwiseTailIsRightFold(e, toks, c.next, c.val, c.log, ch[1..]);
      var inner := Bitwise(e, toks, q + 1, true, e.initial, log);
      assert inner == BitwiseTail(e, toks, c.next, c.val, c.log);
      var f := RightFold(e.eval, c.val, ch[1..]);
      if f.Value? {
        assert inner == ExprRes(Ret(true), f.v, end, endLog);
        var g := e.eval(x, c.op, f.v);
        if g.Value? {
          ChainEnds(BitwiseLevel, e, toks, q, log, ch);
          TailsStop(e, toks, end, g.v, endLog);
        }
      }
    }
  }

  /** parseMulExpr over any number of operands: the first operand, then the
    * left fold. */
  lemma MultiplicativeIsLeftFold(e: ExprEnv, toks: seq<Token>, p: nat, consumed: bool, v: ImmVal, L: seq<Warn>,
                                 x: ImmVal, q: nat, L0: seq<Warn>, ch: seq<Link>)
    requires p <= |toks| && Unary(e, toks, p, consumed, v, L) == ExprRes(Ret(true), x, q, L0)
    requires ChainAt(MultiplicativeLevel, e, toks, q, L0, ch)
    ensures Folded(Multiplicative(e, toks, p, consumed, v, L), LeftFold(e.eval, x, ch), EndPos(q, ch), EndLog(L0, ch))
  {
    MultiplicativeTailIsLeftFold(e, toks, q, x, L0, ch);
  }

  /** parseAddExpr: multiplicative operands folded to the left, so `*`, `/`
    * and `%` bind tighter than `+` and `-`. */
  lemma AdditiveIsLeftFold(e: ExprEnv, toks: seq<Token>, p: nat, consumed: bool, v: ImmVal, L: seq<Warn>,
                           x: ImmVal, q: nat, L0: seq<Warn>, ch: seq<Link>)
    requires p <= |toks| && Multiplicative(e, toks, p, consumed, v, L) == ExprRes(Ret(true), x, q, L0)
    requires ChainAt(AdditiveLevel, e, toks, q, L0, ch)
    ensures Folded(Additive(e, toks, p, consumed, v, L), LeftFold(e.eval, x, ch), EndPos(q, ch), EndLog(L0, ch))
  {
    AdditiveTailIsLeftFold(e, toks, q, x, L0, ch);
  }

  /** parseShiftExpr: additive operands folded to the left, so `+` and `-`
    * bind tighter than the shifts. */
  lemma ShiftIsLeftFold(e: ExprEnv, toks: seq<Token>, p: nat, consumed: bool, v: ImmVal, L: seq<Warn>,
                        x: ImmVal, q: nat, L0: seq<Warn>, ch: seq<Link>)
    requires p <= |toks| && Additive(e, toks, p, consumed, v, L) == ExprRes(Ret(true), x, q, L0)
    requires ChainAt(ShiftLevel, e, toks, q, L0, ch)
    ensures Folded(Shift(e, toks, p, consumed, v, L), LeftFold(e.eval, x, ch), EndPos(q, ch), EndLog(L0, ch))
  {
    ShiftTailIsLeftFold(e, toks, q, x, L0, ch);
  }

  /** parseBitwiseExpr: shift operands folded to the right, so the shifts
    * bind tighter than `&` and `|`, and `&`, `|` group to the right. */
  lemma BitwiseIsRightFold(e: ExprEnv, toks: seq<Token>, p: nat, consumed: bool, v: ImmVal, L: seq<Warn>,
                           x: ImmVal, q: nat, L0: seq<Warn>, ch: seq<Link>)
    requires p <= |toks| && Shift(e, toks, p, consumed, v, L) == ExprRes(Ret(true), x, q, L0)
    requires ChainAt(BitwiseLevel, e, toks, q, L0, ch)
    ensures Folded(Bitwise(e, toks, p, consumed, v, L), RightFold(e.eval, x, ch), EndPos(q, ch), EndLog(L0, ch))
  {
    BitwiseTailIsRightFold(e, toks, q, x, L0, ch);
  }

  /** `a + b * c` evaluates b * c first: multiplication binds tighter than
    * addition, whatever the evaluator. */
  lemma MultiplicationBindsTighter(e: ExprEnv, toks: seq<Token>, v: ImmVal, m: ImmVal, s: ImmVal, L: seq<Warn>)
    requires |toks| == 5 && IsIntLit(toks[0].lexeme) && toks[1].lexeme == ADD
    requires IsIntLit(toks[2].lexeme) && toks[3].lexeme == MUL && IsIntLit(toks[4].lexeme)
    requires e.eval(ImmVal(S64, toks[2].bits), Mul, ImmVal(S64, toks[4].bits)) == Value(m)
    requires e.eval(ImmVal(S64, toks[0].bits), Add, m) == Value(s)
    ensures Bitwise(e, toks, 0, false, v, L) == ExprRes(Ret(true), s, 5, L)
  {
    var init := e.initial;
    var a, b, c := ImmVal(S64, toks[0].bits), ImmVal(S64, toks[2].bits), ImmVal(S64, toks[4].bits);
    LiteralOperand(e, toks, 2, true, init, L);
    LiteralOperand(e, toks, 4, true, init, L);
    MultiplicativeFold(e, toks, 2, true, init, b, 3, Mul, c, 5, m, L);
    TailsStop(e, toks, 5, m, L);
    LiteralOperand(e, toks, 0, false, v, L);
    MultiplicativeOnly(e, toks, 0, false, v, a, 1, L);
    AdditiveFold(e, toks, 0, false, v, a, 1, Add, m, 5, s, L);
    TailsStop(e, toks, 5, s, L);
    ShiftOnly(e, toks, 0, false, v, s, 5, L);
    BitwiseOnly(e, toks, 0, false, v, s, 5, L);
  }

  /** `a - b - c` is (a - b) - c: the additive loop folds to the left. */
  lemma SubtractionFoldsLeft(e: ExprEnv, toks: seq<Token>, v: ImmVal, d: ImmVal, r: ImmVal, L: seq<Warn>)
    requires |toks| == 5 && IsIntLit(toks[0].lexeme) && toks[1].lexeme == SUB
    requires IsIntLit(toks[2].lexeme) && toks[3].lexeme == SUB && IsIntLit(toks[4].lexeme)
    requires e.eval(ImmVal(S64, toks[0].bits), Sub, ImmVal(S64, toks[2].bits)) == Value(d)
    requires e.eval(d, Sub, ImmVal(S64, toks[4].bits)) == Value(r)
    ensures Bitwise(e, toks, 0, false, v, L) == ExprRes(Ret(true), r, 5, L)
  {
    var init := e.initial;
    var a, b, c := ImmVal(S64, toks[0].bits), ImmVal(S64, toks[2].bits), ImmVal(S64, toks[4].bits);
    LiteralOperand(e, toks, 0, false, v, L);
    MultiplicativeOnly(e, toks, 0, false, v, a, 1, L);
    LiteralOperand(e, toks, 2, true, init, L);
    MultiplicativeOnly(e, toks, 2, true, init, b, 3, L);
    AdditiveFold(e, toks, 0, false, v, a, 1, Sub, b, 3, d, L);
    LiteralOperand(e, toks, 4, true, init, L);
    MultiplicativeOnly(e, toks, 4, true, init, c, 5, L);
    AdditiveStep(e, toks, 3, d, Sub, c, r, L);
    TailsStop(e, toks, 5, r, L);
    ShiftOnly(e, toks, 0, false, v, r, 5, L);
    BitwiseOnly(e, toks, 0, false, v, r, 5, L);
  }

  /** `a & b | c` is a & (b | c): the bitwise loop takes a whole bitwise
    * expression on its right, so & and | share one level and group to the
    * right. */
  lemma BitwiseGroupsRight(e: ExprEnv, toks: seq<Token>, v: ImmVal, o: ImmVal, r: ImmVal, L: seq<Warn>)
    requires |toks| == 5 && IsIntLit(toks[0].lexeme) && toks[1].lexeme == AMP
    requires IsIntLit(toks[2].lexeme) && toks[3].lexeme == PIPE && IsIntLit(toks[4].lexeme)
    requires e.eval(ImmVal(S64, toks[2].bits), Or, ImmVal(S64, toks[4].bits)) == Value(o)
    requires e.eval(ImmVal(S64, toks[0].bits), And, o) == Value(r)
    ensures Bitwise(e, toks, 0, false, v, L) == ExprRes(Ret(true), r, 5, L)
  {
    var init := e.initial;
    var a, b, c := ImmVal(S64, toks[0].bits), ImmVal(S64, toks[2].bits), ImmVal(S64, toks[4].bits);
    // the operand b | c
    LiteralShift(e, toks, 2, true, init, L);
    LiteralExpression(e, toks, 4, true, init, L);
    BitwiseFold(e, toks, 2, true, init, b, 3, Or, c, 5, o, L);
    TailsStop(e, toks, 5, o, L);
    // then a & (b | c)
    LiteralShift(e, toks, 0, false, v, L);
    BitwiseFold(e, toks, 0, false, v, a, 1, And, o, 5, r, L);
    TailsStop(e, toks, 5, r, L);
  }

  /** A literal followed by no arithmetic or shift operator is a whole shift
    * expression. */
  lemma LiteralShift(e: ExprEnv, toks: seq<Token>, p: nat, consumed: bool, v: ImmVal, L: seq<Warn>)
    requires p < |toks| && IsIntLit(toks[p].lexeme)
    requires Peek(toks, p + 1).lexeme !in {LSH, RSH, ADD, SUB, MUL, DIV, MOD}
    ensures Shift(e, toks, p, consumed, v, L) == ExprRes(Ret(true), ImmVal(S64, toks[p].bits), p + 1, L)
  {
    var x := ImmVal(S64, toks[p].bits);
    LiteralOperand(e, toks, p, consumed, v, L);
    MultiplicativeOnly(e, toks, p, consumed, v, x, p + 1, L);
    AdditiveOnly(e, toks, p, consumed, v, x, p + 1, L);
    ShiftOnly(e, toks, p, consumed, v, x, p + 1, L);
  }

  /** `a << b + c` shifts by the sum: shifts bind looser than addition. */
  lemma ShiftBindsLooser(e: ExprEnv, toks: seq<Token>, v: ImmVal, n: ImmVal, r: ImmVal, L: seq<Warn>)
    requires |toks| == 5 && IsIntLit(toks[0].lexeme) && toks[1].lexeme == LSH
    requires IsIntLit(toks[2].lexeme) && toks[3].lexeme == ADD && IsIntLit(toks[4].lexeme)
    requires e.eval(ImmVal(S64, toks[2].bits), Add, ImmVal(S64, toks[4].bits)) == Value(n)
    requires e.eval(ImmVal(S64, toks[0].bits), Shl, n) == Value(r)
    ensures Bitwise(e, toks, 0, false, v, L) == ExprRes(Ret(true), r, 5, L)
  {
    var init := e.initial;
    var a, b, c := ImmVal(S64, toks[0].bits), ImmVal(S64, toks[2].bits), ImmVal(S64, toks[4].bits);
    ShiftCount(e, toks, init, n, L);
    // the shift
    LiteralOperand(e, toks, 0, false, v, L);
    MultiplicativeOnly(e, toks, 0, false, v, a, 1, L);
    AdditiveOnly(e, toks, 0, false, v, a, 1, L);
    ShiftFold(e, toks, 0, false, v, a, 1, Shl, n, 5, r, L);
    TailsStop(e, toks, 5, r, L);
    BitwiseOnly(e, toks, 0, false, v, r, 5, L);
  }

  /** The count `b + c` of ShiftBindsLooser. */
  lemma ShiftCount(e: ExprEnv, toks: seq<Token>, init: ImmVal, n: ImmVal, L: seq<Warn>)
    requires |toks| == 5 && IsIntLit(toks[2].lexeme) && toks[3].lexeme == ADD && IsIntLit(toks[4].lexeme)
    requires e.eval(ImmVal(S64, toks[2].bits), Add, ImmVal(S64, toks[4].bits)) == Value(n)
    ensures Additive(e, toks, 2, true, init, L) == ExprRes(Ret(true), n, 5, L)
  {
    var b, c := ImmVal(S64, toks[2].bits), ImmVal(S64, toks[4].bits);
    LiteralOperand(e, toks, 2, true, init, L);
    MultiplicativeOnly(e, toks, 2, true, init, b, 3, L);
    LiteralOperand(e, toks, 4, true, e.initial, L);
    MultiplicativeOnly(e, toks, 4, true, e.initial, c, 5, L);
    AdditiveFold(e, toks, 2, true, init, b, 3, Add, c, 5, n, L);
    TailsStop(e, toks, 5, n, L);
  }

  /** An operator whose evaluation is undefined behaviour stops the parse
    * there. */
  lemma UndefinedStops(e: ExprEnv, toks: seq<Token>, v: ImmVal, L: seq<Warn>)
    requires |toks| == 3 && IsIntLit(toks[0].lexeme) && toks[1].lexeme == LSH && IsIntLit(toks[2].lexeme)
    requires e.eval(ImmVal(S64, toks[0].bits), Shl, ImmVal(S64, toks[2].bits)).Undefined?
    ensures Bitwise(e, toks, 0, false, v, L).out == UB
  {
    var init := e.initial;
    var a, b := ImmVal(S64, toks[0].bits), ImmVal(S64, toks[2].bits);
    LiteralOperand(e, toks, 0, false, v, L);
    MultiplicativeOnly(e, toks, 0, false, v, a, 1, L);
    AdditiveOnly(e, toks, 0, false, v, a, 1, L);
    LiteralOperand(e, toks, 2, true, init, L);
    MultiplicativeOnly(e, toks, 2, true, init, b, 3, L);
    AdditiveOnly(e, toks, 2, true, init, b, 3, L);
    Levels(e, toks, 0, false, v, L);
  }

  /** `^` is no operator of the grammar: it ends the expression after `a`. */
  lemma CaretEndsExpression(e: ExprEnv, toks: seq<Token>, v: ImmVal, L: seq<Warn>)
    requires |toks| == 3 && IsIntLit(toks[0].lexeme) && toks[1].lexeme == CIRC && IsIntLit(toks[2].lexeme)
    ensures Bitwise(e, toks, 0, false, v, L) == ExprRes(Ret(true), ImmVal(S64, toks[0].bits), 1, L)
  {
    LiteralExpression(e, toks, 0, false, v, L);
  }

  /** A unary operator applies to a primary only, so `--a` is a syntax
    * error. */
  lemma DoubleNegationRejected(e: ExprEnv, toks: seq<Token>, v: ImmVal, L: seq<Warn>)
    requires |toks| == 3 && toks[0].lexeme == SUB && toks[1].lexeme == SUB && IsIntLit(toks[2].lexeme)
    ensures Bitwise(e, toks, 0, false, v, L).out == Throw(ConstExprSyntax)
  {
    assert Primary(e, toks, 1, true, v, L).out == Throw(ConstExprSyntax);
    assert Unary(e, toks, 0, false, v, L).out == Throw(ConstExprSyntax);
    UnparsedOperand(e, toks, 0, false, v, L);
  }

  /** `~a` complements all 64 bits of a literal. */
  lemma ComplementOfLiteral(e: ExprEnv, toks: seq<Token>, v: ImmVal, L: seq<Warn>)
    requires |toks| == 2 && toks[0].lexeme == TILDE && IsIntLit(toks[1].lexeme)
    ensures var r := Bitwise(e, toks, 0, false, v, L);
      r == ExprRes(Ret(true), ImmVal(S64, BitNot(toks[1].bits)), 2, L)
      && r.v.bits + toks[1].bits == WORD_MOD - 1
  {
    var w := ImmVal(S64, BitNot(toks[1].bits));
    assert Primary(e, toks, 1, true, v, L) == ExprRes(Ret(true), ImmVal(S64, toks[1].bits), 2, L);
    assert Unary(e, toks, 0, false, v, L) == ExprRes(Ret(true), w, 2, L);
    MultiplicativeOnly(e, toks, 0, false, v, w, 2, L);
    AdditiveOnly(e, toks, 0, false, v, w, 2, L);
    ShiftOnly(e, toks, 0, false, v, w, 2, L);
    BitwiseOnly(e, toks, 0, false, v, w, 2, L);
  }

  /** `~` on a floating value is rejected. */
  lemma ComplementOfFloatRejected(e: ExprEnv, toks: seq<Token>, v: ImmVal, L: seq<Warn>)
    requires |toks| == 2 && toks[0].lexeme == TILDE && toks[1].lexeme == FLTLIT
    ensures Bitwise(e, toks, 0, false, v, L).out == Throw(ArgumentMustBeIntegral)
  {
    assert Primary(e, toks, 1, true, v, L) == ExprRes(Ret(true), ImmVal(F64, toks[1].bits), 2, L);
    assert Unary(e, toks, 0, false, v, L).out == Throw(ArgumentMustBeIntegral);
    UnparsedOperand(e, toks, 0, false, v, L);
  }

  /** A group missing its `)` is accepted all the same. */
  lemma UnclosedGroupAccepted(e: ExprEnv, toks: seq<Token>, v: ImmVal, L: seq<Warn>)
    requires |toks| == 2 && toks[0].lexeme == LPAREN && IsIntLit(toks[1].lexeme)
    ensures Bitwise(e, toks, 0, false, v, L) == ExprRes(Ret(true), ImmVal(S64, toks[1].bits), 2, L)
  {
    var w := ImmVal(S64, toks[1].bits);
    LiteralExpression(e, toks, 1, true, v, L);
    assert Unary(e, toks, 0, false, v, L) == ExprRes(Ret(true), w, 2, L);
    MultiplicativeOnly(e, toks, 0, false, v, w, 2, L);
    AdditiveOnly(e, toks, 0, false, v, w, 2, L);
    ShiftOnly(e, toks, 0, false, v, w, 2, L);
    BitwiseOnly(e, toks, 0, false, v, w, 2, L);
  }

  /** An operand that does not parse (it backs off, throws or reaches
    * undefined behaviour) is what the whole expression does. */
  lemma UnparsedOperand(e: ExprEnv, toks: seq<Token>, p: nat, consumed: bool, v: ImmVal, L: seq<Warn>)
    requires p <= |toks| && Unary(e, toks, p, consumed, v, L).out != Ret(true)
    ensures Bitwise(e, toks, p, consumed, v, L) == Unary(e, toks, p, consumed, v, L)
  {
    assert Multiplicative(e, toks, p, consumed, v, L) == Unary(e, toks, p, consumed, v, L);
    assert Additive(e, toks, p, consumed, v, L) == Unary(e, toks, p, consumed, v, L);
    assert Shift(e, toks, p, consumed, v, L) == Unary(e, toks, p, consumed, v, L);
  }

  /** An identifier at the start of an operand backs off in a branching op or
    * a mov (it is a label) and is an error elsewhere; after an operator it
    * is an error in a branching op or a mov. */
  lemma IdentifierOperand(e: ExprEnv, toks: seq<Token>, p: nat, consumed: bool, v: ImmVal, L: seq<Warn>)
    requires p < |toks| && toks[p].lexeme == IDENT
    requires toks[p].text !in {"nan", "qnan", "snan", "inf"}
    ensures var r := Bitwise(e, toks, p, consumed, v, L);
      if e.branchOrMov then
        r == if consumed then ExprRes(Throw(LabelArithmetic), v, p, L) else ExprRes(Ret(false), v, p, L)
      else
        r == if consumed then ExprRes(Ret(false), v, p, L) else ExprRes(Throw(NonBranchingSymbol), v, p, L)
  {
    assert Unary(e, toks, p, consumed, v, L) == Primary(e, toks, p, consumed, v, L);
    UnparsedOperand(e, toks, p, consumed, v, L);
  }

  /** A right operand that backs off leaves the operator applied to the
    * default-constructed value, with the cursor just past the operator. */
  lemma BackedOffOperand(e: ExprEnv, toks: seq<Token>, p: nat, v: ImmVal, op: BinOp, L: seq<Warn>)
    requires p < |toks| && AdditiveOp(toks[p].lexeme) == Some(op)
    requires Multiplicative(e, toks, p + 1, true, e.initial, L).out == Ret(false)
    ensures AdditiveTail(e, toks, p, v, L) ==
      match e.eval(v, op, e.initial)
      case Value(w) => AdditiveTail(e, toks, p + 1, w, L)
      case Error(d) => ExprRes(Throw(d), v, p + 1, L)
      case Undefined => ExprRes(UB, v, p + 1, L)
  {
  }

  /** After an operator, an identifier in a non-branching operation backs the
    * right operand off, so the operator is applied to a default-constructed
    * value and the expression ends before the identifier. */
  lemma IdentifierAfterOperator(e: ExprEnv, toks: seq<Token>, v: ImmVal, L: seq<Warn>)
    requires |toks| == 3 && IsIntLit(toks[0].lexeme) && toks[1].lexeme == ADD
    requires toks[2].lexeme == IDENT && toks[2].text !in {"nan", "qnan", "snan", "inf"}
    requires !e.branchOrMov
    ensures var a := ImmVal(S64, toks[0].bits);
      Bitwise(e, toks, 0, false, v, L)
         == match e.eval(a, Add, e.initial)
            case Value(w) => ExprRes(Ret(true), w, 2, L)
            case Error(d) => ExprRes(Throw(d), a, 2, L)
            case Undefined => ExprRes(UB, a, 2, L)
  {
    var a := ImmVal(S64, toks[0].bits);
    LiteralOperand(e, toks, 0, false, v, L);
    MultiplicativeOnly(e, toks, 0, false, v, a, 1, L);
    IdentifierOperand(e, toks, 2, true, e.initial, L);
    assert Unary(e, toks, 2, true, e.initial, L).out == Ret(false);
    BackedOffOperand(e, toks, 1, a, Add, L);
    Levels(e, toks, 0, false, v, L);
    match e.eval(a, Add, e.initial)
    case Value(w) =>
      TailsStop(e, toks, 2, w, L);
      ShiftOnly(e, toks, 0, false, v, w, 2, L);
      BitwiseOnly(e, toks, 0, false, v, w, 2, L);
    case Error(d) =>
    case Undefined =>
  }

  /** The fields of a NaN pattern: an all-ones exponent, and the payload
    * below the quiet bit when that is set. */
  lemma NanFields(x: Word, quiet: bool)
    requires x < F64_QNAN_BIT
    ensures Exponent64(NanBits(x, quiet)) == 0x7FF
    ensures Mantissa64(NanBits(x, quiet)) == if quiet then F64_QNAN_BIT + x else x
  {
  }

  /** qnan(x) with 0 <= x < 2^51 is the quiet NaN with payload x; a larger
    * payload overflows into the quiet bit and is rejected. */
  lemma QuietNanPayload(e: ExprEnv, toks: seq<Token>, p: nat, consumed: bool, v: ImmVal, L: seq<Warn>)
    requires p + 3 < |toks|
    requires toks[p] == Ident("qnan") && toks[p + 1].lexeme == LPAREN
    requires IsIntLit(toks[p + 2].lexeme) && toks[p + 3].lexeme == RPAREN
    ensures var x := toks[p + 2].bits;
      var r := Primary(e, toks, p, consumed, v, L);
      && (x < F64_QNAN_BIT ==> r == ExprRes(Ret(true), ImmVal(F64, NanBits(x, true)), p + 4, L))
      && (x < F64_QNAN_BIT ==> IsQuietNaN64(r.v.bits) && Mantissa64(r.v.bits) == F64_QNAN_BIT + x)
      && (x >= F64_QNAN_BIT ==> r.out == Throw(NanPayloadOverflows))
  {
    var x := toks[p + 2].bits;
    LiteralExpression(e, toks, p + 2, true, ImmVal(e.initial.kind, 0), L);
    assert Primary(e, toks, p, consumed, v, L) == NanSymbol(e, toks, p + 1, true, v, L)
      == NanPayload(e, toks, p + 2, true, v, L);
    if x < F64_QNAN_BIT {
      NanFields(x, true);
    }
  }

  /** snan(x) with 0 < x < 2^51 is the signaling NaN with payload x; a zero
    * payload would spell infinity and is rejected, as is an overflowing one. */
  lemma SignalingNanPayload(e: ExprEnv, toks: seq<Token>, p: nat, consumed: bool, v: ImmVal, L: seq<Warn>)
    requires p + 3 < |toks|
    requires toks[p] == Ident("snan") && toks[p + 1].lexeme == LPAREN
    requires IsIntLit(toks[p + 2].lexeme) && toks[p + 3].lexeme == RPAREN
    ensures var x := toks[p + 2].bits;
      var r := Primary(e, toks, p, consumed, v, L);
      && (0 < x < F64_QNAN_BIT ==> r == ExprRes(Ret(true), ImmVal(F64, NanBits(x, false)), p + 4, L))
      && (0 < x < F64_QNAN_BIT ==> IsNaN64(r.v.bits) && !IsQuietNaN64(r.v.bits) && Mantissa64(r.v.bits) == x)
      && (x == 0 ==> r.out == Throw(NanPayloadMustBeNonzero))
      && (x >= F64_QNAN_BIT ==> r.out == Throw(NanPayloadOverflows))
  {
    var x := toks[p + 2].bits;
    LiteralExpression(e, toks, p + 2, true, ImmVal(e.initial.kind, 0), L);
    assert Primary(e, toks, p, consumed, v, L) == NanSymbol(e, toks, p + 1, false, v, L)
      == NanPayload(e, toks, p + 2, false, v, L);
    if 0 < x < F64_QNAN_BIT {
      NanFields(x, false);
    }
  }

  /** The bare spellings are NaNs too, each with its deprecation warning
    * appended to the log. */
  lemma BareNans(e: ExprEnv, toks: seq<Token>, p: nat, consumed: bool, v: ImmVal, L: seq<Warn>)
    requires p < |toks| && toks[p].lexeme == IDENT
    requires toks[p].text in {"nan", "qnan", "snan"} && Peek(toks, p + 1).lexeme != LPAREN
    ensures var r := Primary(e, toks, p, consumed, v, L);
      && r.out == Ret(true) && r.next == p + 1 && r.v.kind == F64 && IsNaN64(r.v.bits)
      && (IsQuietNaN64(r.v.bits) <==> toks[p].text == "qnan")
      && r.log == L + [if toks[p].text == "nan" then NanDeprecated else BareNanDeprecated]
  {
  }
}
