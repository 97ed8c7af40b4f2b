// Instruction options and dependency annotations: the "{...}" list after an
// instruction's operands (ParseInstOpts, ParseInstOptOrFail,
// tryParseInstOptToken, tryParseInstOptDepInfo), and the option set the
// parser fills in.
module InstOptions {
  import opened ImmVals
  import opened Diags
  import opened Lexer
  import opened Target
  import opened Events
  import opened Syntax

  /** InstOptSet: a set of instruction options whose `add` says whether the
    * option was new. */
  class InstOptSet {
    var elems: set<InstOpt>

    constructor ()
      ensures elems == {}
    {
      elems := {};
    }

    method Add(o: InstOpt) returns (added: bool)
      modifies this
      ensures elems == old(elems) + {o}
      ensures added <==> o !in old(elems)
    {
      added := o !in elems;
      elems := elems + {o};
    }

    predicate Contains(o: InstOpt)
      reads this
    {
      o in elems
    }
  }

  /** tryParseInstOptToken's options, by spelling: None when s is not one of
    * them; otherwise the option, or the check it fails (before the
    * duplicate check). */
  function OptToken(m: Model, isSend: bool, opts: set<InstOpt>, s: string): Option<Res<InstOpt>> {
    match s
    case "AccWrEn" => Some(Ok(ACCWREN))
    case "Atomic" =>
      Some(if m.platform == PRE_GEN7 then Fail(AtomicUnsupported)
           else if SWITCH in opts then Fail(AtomicWithSwitch)
           else if NOPREEMPT in opts then Fail(AtomicWithNoPreempt)
           else Ok(ATOMIC))
    case "Breakpoint" => Some(Ok(BREAKPOINT))
    case "Compacted" => Some(if NOCOMPACT in opts then Fail(CompactedWithNoCompact) else Ok(COMPACTED))
    case "EOT" => Some(if isSend then Ok(EOT) else Fail(EotOnNonSend))
    case "NoCompact" => Some(if COMPACTED in opts then Fail(NoCompactWithCompacted) else Ok(NOCOMPACT))
    case "Uncompacted" => Some(if COMPACTED in opts then Fail(NoCompactWithCompacted) else Ok(NOCOMPACT))
    case "Serialize" => Some(Ok(SERIALIZE))
    case "NoMask" => Some(Fail(NoMaskOption))
    case _ => if IsObsoleteMask(s) then Some(Fail(ObsoleteMaskOption)) else None
  }

  /** The pre-Gen8 mask options, replaced by the execution offset. */
  predicate IsObsoleteMask(s: string) {
    s in {"H1", "H2", "Q1", "Q2", "Q3", "Q4", "N1", "N2", "N3", "N4", "N5", "N6", "N7", "N8"}
  }

  /** tryParseInstOptDepInfo's named options: None when s is not one of them. */
  function DepInfoOpt(m: Model, s: string): Option<Res<InstOpt>> {
    match s
    case "NoDDChk" => Some(if m.supportsHwDeps then Ok(NODDCHK) else Fail(NoDDChkUnsupported))
    case "NoDDClr" => Some(if m.supportsHwDeps then Ok(NODDCLR) else Fail(NoDDClrUnsupported))
    case "NoPreempt" => Some(if m.supportsNoPreempt then Ok(NOPREEMPT) else Fail(NoPreemptUnsupported))
    case "NoSrcDepSet" => Some(if m.supportNoSrcDepSet then Ok(NOSRCDEPSET) else Fail(NoSrcDepSetUnsupported))
    case "Switch" => Some(Ok(SWITCH))
    case _ => None
  }

  /** The outcome of parsing options: the option set and the position after
    * them, or the failure; with the builder callbacks and the warnings made
    * along the way, which stand whether or not a later check fails. */
  datatype OptStep = OptStep(res: Res<(set<InstOpt>, nat)>, events: seq<Event>, warns: seq<Warn>)

  /** The option set with o added, unless it is already there. */
  function AddOpt(opts: set<InstOpt>, o: InstOpt, next: nat): Res<(set<InstOpt>, nat)> {
    if o in opts then Fail(DuplicateInstOpt) else Ok((opts + {o}, next))
  }

  /** tryParseInstOptToken, then the named options of
    * tryParseInstOptDepInfo, for the identifier at p. */
  function IdentOptAt(m: Model, isSend: bool, opts: set<InstOpt>, toks: seq<Token>, p: nat,
                      evs: seq<Event>, ws: seq<Warn>): (r: OptStep)
    requires Peek(toks, p).lexeme == IDENT
    ensures r.res.Ok? ==> r.res.value.1 == p + 1 && r.events == evs
  {
    var t := Peek(toks, p);
    match OptToken(m, isSend, opts, t.text)
    case Some(Fail(d)) => OptStep(Fail(d), evs, ws)
    case Some(Ok(o)) => OptStep(AddOpt(opts, o, p + 1), evs, ws)
    case None =>
      match DepInfoOpt(m, t.text)
      case None => OptStep(Fail(InvalidInstOpt), evs, ws)
      case Some(Fail(d)) => OptStep(Fail(d), evs, ws)
      case Some(Ok(o)) =>
        var ws' := if o == SWITCH && !m.supportsHwDeps then ws + [IgnoringSwitch] else ws;
        OptStep(AddOpt(opts, o, p + 1), evs, ws')
  }

  /** The software scoreboard annotations of tryParseInstOptDepInfo at p (a
    * '$' or an '@'), which leave the option set as it is. */
  function SwsbAt(m: Model, opts: set<InstOpt>, toks: seq<Token>, p: nat, evs: seq<Event>, ws: seq<Warn>): (r: OptStep)
    requires Peek(toks, p).lexeme in {DOLLAR, AT}
    ensures r.warns == ws
    ensures r.res.Ok? ==> r.res.value.0 == opts && p < r.res.value.1 <= |toks|
  {
    if m.supportsHwDeps then OptStep(Fail(SwDepsUnsupported), evs, ws)
    else if Peek(toks, p).lexeme == DOLLAR then SbidAt(opts, toks, p + 1, evs, ws)
    else DistAt(opts, toks, p + 1, evs, ws)
  }

  /** The minimum distance after an '@'. */
  function DistAt(opts: set<InstOpt>, toks: seq<Token>, p: nat, evs: seq<Event>, ws: seq<Warn>): (r: OptStep)
    ensures r.warns == ws
    ensures r.res.Ok? ==> r.res.value.0 == opts && p < r.res.value.1 <= |toks|
  {
    match IntLitAt(toks, p, ExpectedDistance)
    case Fail(d) => OptStep(Fail(d), evs, ws)
    case Ok((dist, q)) => OptStep(Ok((opts, q)), evs + [InstDepInfoDist(dist)], ws)
  }

  /** The scoreboard id after a '$': $n allocates, $n.dst and $n.src wait. */
  function SbidAt(opts: set<InstOpt>, toks: seq<Token>, p: nat, evs: seq<Event>, ws: seq<Warn>): (r: OptStep)
    ensures r.warns == ws
    ensures r.res.Ok? ==> r.res.value.0 == opts && p < r.res.value.1 <= |toks|
  {
    match IntLitAt(toks, p, ExpectedSbid)
    case Fail(d) => OptStep(Fail(d), evs, ws)
    case Ok((sbid, q)) => SbidTailAt(opts, toks, q, sbid, evs, ws)
  }

  /** What follows the scoreboard id: ".dst", ".src", or nothing before the
    * next ',' or the '}'. */
  function SbidTailAt(opts: set<InstOpt>, toks: seq<Token>, q: nat, sbid: nat, evs: seq<Event>, ws: seq<Warn>): (r: OptStep)
    ensures r.warns == ws
    ensures r.res.Ok? ==> r.res.value.0 == opts && q <= r.res.value.1 <= |toks|
  {
    if Peek(toks, q).lexeme == DOT then
      if IdentAt(toks, q + 1, "dst") then OptStep(Ok((opts, q + 2)), evs + [InstDepInfoSBidDst(sbid)], ws)
      else if IdentAt(toks, q + 1, "src") then OptStep(Ok((opts, q + 2)), evs + [InstDepInfoSBidSrc(sbid)], ws)
      else OptStep(Fail(InvalidSbidDirective), evs, ws)
    else if Peek(toks, q).lexeme != COMMA && Peek(toks, q).lexeme != RBRACE then
      OptStep(Fail(SbidSyntax), evs, ws)
    else OptStep(Ok((opts, q)), evs + [InstDepInfoSBidAlloc(sbid)], ws)
  }

  /** ParseInstOptOrFail at p, given the options so far and the callbacks and
    * warnings made so far. */
  function InstOptAt(m: Model, isSend: bool, opts: set<InstOpt>, toks: seq<Token>, p: nat,
                     evs: seq<Event>, ws: seq<Warn>): (r: OptStep)
    ensures r.res.Ok? ==> p < r.res.value.1 <= |toks|
  {
    var lx := Peek(toks, p).lexeme;
    if lx == IDENT then IdentOptAt(m, isSend, opts, toks, p, evs, ws)
    else if lx == DOLLAR || lx == AT then SwsbAt(m, opts, toks, p, evs, ws)
    else OptStep(Fail(InvalidInstOpt), evs, ws)
  }

  /** The options after the first: each introduced by ','. */
  function InstOptsTail(m: Model, isSend: bool, opts: set<InstOpt>, toks: seq<Token>, p: nat,
                        evs: seq<Event>, ws: seq<Warn>): (r: OptStep)
    requires p <= |toks|
    ensures r.res.Ok? ==> p <= r.res.value.1 <= |toks|
    decreases |toks| - p
  {
    if Peek(toks, p).lexeme != COMMA then OptStep(Ok((opts, p)), evs, ws)
    else
      var st := InstOptAt(m, isSend, opts, toks, p + 1, evs, ws);
      if st.res.Fail? then st
      else InstOptsTail(m, isSend, st.res.value.0, toks, st.res.value.1, st.events, st.warns)
  }

  /** ParseInstOpts' grammar: nothing, or '{' then an optional first option
    * and ','-separated options, then '}'.  An empty "{}" is allowed. */
  function InstOptsAt(m: Model, isSend: bool, toks: seq<Token>, p: nat, evs: seq<Event>, ws: seq<Warn>): (r: OptStep)
    requires p <= |toks|
    ensures r.res.Ok? ==> p <= r.res.value.1 <= |toks|
  {
    if Peek(toks, p).lexeme != LBRACE then OptStep(Ok(({}, p)), evs, ws)
    else BracedOptsAt(m, isSend, toks, p + 1, evs, ws)
  }

  /** The list after the '{'. */
  function BracedOptsAt(m: Model, isSend: bool, toks: seq<Token>, p: nat, evs: seq<Event>, ws: seq<Warn>): (r: OptStep)
    requires p <= |toks|
    ensures r.res.Ok? ==> p < r.res.value.1 <= |toks|
  {
    var first := FirstOptAt(m, isSend, toks, p, evs, ws);
    if first.res.Fail? then first
    else
      var rest := InstOptsTail(m, isSend, first.res.value.0, toks, first.res.value.1, first.events, first.warns);
      if rest.res.Fail? then rest
      else if Peek(toks, rest.res.value.1).lexeme != RBRACE then OptStep(Fail(ExpectedRBrace), rest.events, rest.warns)
      else OptStep(Ok((rest.res.value.0, rest.res.value.1 + 1)), rest.events, rest.warns)
  }

  /** The first option of the list, unless the list is empty. */
  function FirstOptAt(m: Model, isSend: bool, toks: seq<Token>, p: nat, evs: seq<Event>, ws: seq<Warn>): (r: OptStep)
    requires p <= |toks|
    ensures r.res.Ok? ==> p <= r.res.value.1 <= |toks|
  {
    if Peek(toks, p).lexeme == RBRACE then OptStep(Ok(({}, p)), evs, ws)
    else InstOptAt(m, isSend, {}, toks, p, evs, ws)
  }

  // ---- properties ----

  /** An option already in the set fails as a duplicate, once its own checks
    * pass. */
  lemma DuplicateOptionFails(m: Model, isSend: bool, opts: set<InstOpt>, toks: seq<Token>, p: nat,
                             evs: seq<Event>, ws: seq<Warn>, o: InstOpt)
    requires p < |toks| && toks[p].lexeme == IDENT && o in opts
    requires OptToken(m, isSend, opts, toks[p].text) == Some(Ok(o)) ||
             (OptToken(m, isSend, opts, toks[p].text).None? && DepInfoOpt(m, toks[p].text) == Some(Ok(o)))
    ensures InstOptAt(m, isSend, opts, toks, p, evs, ws).res == Fail(DuplicateInstOpt)
  {
  }

  /** Compacted and NoCompact (or Uncompacted) exclude each other in either
    * order; Atomic fails after Switch or NoPreempt, but Switch after Atomic
    * is accepted. */
  lemma ExclusiveOptions(m: Model, isSend: bool, opts: set<InstOpt>, s: string)
    ensures NOCOMPACT in opts ==> OptToken(m, isSend, opts, "Compacted") == Some(Fail(CompactedWithNoCompact))
    ensures COMPACTED in opts && s in {"NoCompact", "Uncompacted"} ==>
      OptToken(m, isSend, opts, s) == Some(Fail(NoCompactWithCompacted))
    ensures m.platform != PRE_GEN7 && SWITCH in opts ==> OptToken(m, isSend, opts, "Atomic") == Some(Fail(AtomicWithSwitch))
    ensures m.platform != PRE_GEN7 && SWITCH !in opts && NOPREEMPT in opts ==>
      OptToken(m, isSend, opts, "Atomic") == Some(Fail(AtomicWithNoPreempt))
    ensures OptToken(m, isSend, opts, "Switch").None? && DepInfoOpt(m, "Switch") == Some(Ok(SWITCH))
  {
  }

  /** EOT is only for sends; NoMask and the obsolete mask options always fail. */
  lemma RejectedOptions(m: Model, isSend: bool, opts: set<InstOpt>, s: string)
    ensures !isSend ==> OptToken(m, isSend, opts, "EOT") == Some(Fail(EotOnNonSend))
    ensures s == "NoMask" || IsObsoleteMask(s) ==> OptToken(m, isSend, opts, s).Some? && OptToken(m, isSend, opts, s).value.Fail?
  {
  }

  /** The options an instruction may carry together: never both Compacted and
    * NoCompact, and EOT only on a send. */
  predicate Coherent(isSend: bool, opts: set<InstOpt>) {
    !(COMPACTED in opts && NOCOMPACT in opts) && (EOT in opts ==> isSend)
  }

  lemma InstOptKeepsCoherent(m: Model, isSend: bool, opts: set<InstOpt>, toks: seq<Token>, p: nat,
                             evs: seq<Event>, ws: seq<Warn>)
    requires Coherent(isSend, opts)
    ensures var r := InstOptAt(m, isSend, opts, toks, p, evs, ws);
      r.res.Ok? ==> Coherent(isSend, r.res.value.0) && opts <= r.res.value.0
  {
  }

  lemma {:induction false} InstOptsTailCoherent(m: Model, isSend: bool, opts: set<InstOpt>, toks: seq<Token>, p: nat,
                                                 evs: seq<Event>, ws: seq<Warn>)
    requires p <= |toks| && Coherent(isSend, opts)
    ensures var r := InstOptsTail(m, isSend, opts, toks, p, evs, ws);
      r.res.Ok? ==> Coherent(isSend, r.res.value.0) && opts <= r.res.value.0
    decreases |toks| - p
  {
    if Peek(toks, p).lexeme == COMMA {
      InstOptKeepsCoherent(m, isSend, opts, toks, p + 1, evs, ws);
      var st := InstOptAt(m, isSend, opts, toks, p + 1, evs, ws);
      if st.res.Ok? {
        InstOptsTailCoherent(m, isSend, st.res.value.0, toks, st.res.value.1, st.events, st.warns);
      }
    }
  }

  /** Every option list the parser accepts is coherent: the exclusion checks
    * hold for the whole list, whatever order the options come in. */
  lemma AcceptedOptionsCoherent(m: Model, isSend: bool, toks: seq<Token>, p: nat, evs: seq<Event>, ws: seq<Warn>)
    requires p <= |toks|
    ensures var r := InstOptsAt(m, isSend, toks, p, evs, ws);
      r.res.Ok? ==> Coherent(isSend, r.res.value.0)
  {
    if Peek(toks, p).lexeme == LBRACE {
      if Peek(toks, p + 1).lexeme != RBRACE {
        InstOptKeepsCoherent(m, isSend, {}, toks, p + 1, evs, ws);
      }
      var first := FirstOptAt(m, isSend, toks, p + 1, evs, ws);
      if first.res.Ok? {
        InstOptsTailCoherent(m, isSend, first.res.value.0, toks, first.res.value.1, first.events, first.warns);
      }
    }
  }

  /** "{}" is an empty option list. */
  lemma EmptyBraces(m: Model, isSend: bool, toks: seq<Token>, p: nat, evs: seq<Event>, ws: seq<Warn>)
    requires p + 1 < |toks| && toks[p].lexeme == LBRACE && toks[p + 1].lexeme == RBRACE
    ensures InstOptsAt(m, isSend, toks, p, evs, ws) == OptStep(Ok(({}, p + 2)), evs, ws)
  {
  }
}
