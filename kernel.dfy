// ParseGenKernel: a kernel is built by running the parser over the whole
// listing; a syntax error gives no kernel.  The blocks the parsed
// instructions start (Block::inferBlocks) are then numbered from 1 in order
// and appended to the kernel.
module Kernels {
  import opened ImmVals
  import opened Diags
  import opened Lexer
  import opened Events
  import opened Target
  import opened Parser

  /** A basic block: where it starts, and the ID the kernel gives it. */
  class Block {
    const pc: int
    var id: int

    constructor (pc: int)
      ensures this.pc == pc && id == 0
    {
      this.pc := pc;
      id := 0;
    }
  }

  /** A kernel holds its blocks in order. */
  class Kernel {
    var blocks: seq<Block>

    constructor ()
      ensures blocks == []
    {
      blocks := [];
    }

    /** Kernel::appendBlock. */
    method AppendBlock(b: Block)
      modifies this`blocks
      ensures blocks == old(blocks) + [b]
    {
      blocks := blocks + [b];
    }

    /** The numbering loop of ParseGenKernel: each block in turn gets the
      * next ID, starting from 1, and is appended. */
    method NumberBlocks(starts: seq<Block>)
      requires forall i, j :: 0 <= i < j < |starts| ==> starts[i] != starts[j]
      modifies this`blocks, set b | b in starts
      ensures blocks == old(blocks) + starts
      ensures forall i :: 0 <= i < |starts| ==> starts[i].id == i + 1
    {
      var id := 1;
      for k := 0 to |starts|
        invariant id == k + 1
        invariant blocks == old(blocks) + starts[..k]
        invariant forall i :: 0 <= i < k ==> starts[i].id == i + 1
      {
        starts[k].id := id;
        id := id + 1;
        AppendBlock(starts[k]);
      }
      assert starts[..|starts|] == starts;
    }
  }

  /** ParseGenKernel: no kernel exactly when the parse throws (its status
    * `s` fails); otherwise a new kernel whose blocks are the given block
    * starts, numbered 1, 2, ... in order.  `starts` stands for what
    * Block::inferBlocks finds in the parsed instructions; `p` is the parser
    * that read the listing, whose logs the error handler would hold. */
  method ParseGenKernel(env: Env, toks: seq<Token>, starts: seq<Block>)
    returns (k: Option<Kernel>, s: Status, p: KernelParser)
    requires forall i, j :: 0 <= i < j < |starts| ==> starts[i] != starts[j]
    modifies set b | b in starts
    ensures fresh(p) && p.Valid() && p.env == env && p.toks == toks
    ensures k.None? <==> s.Fail?
    ensures s.Fail? ==> |p.errors| >= env.opts.maxSyntaxErrors
    ensures s.Ok? ==> Peek(toks, p.pos).lexeme == END_OF_FILE && |p.events| > 0 && p.LastEvent() == ProgramEnd
    ensures k.Some? ==> fresh(k.value) && k.value.blocks == starts
    ensures k.Some? ==> forall i :: 0 <= i < |starts| ==> starts[i].id == i + 1
    ensures k.None? ==> forall b :: b in starts ==> b.id == old(b.id)
  {
    var kernel := new Kernel();
    p := new KernelParser(env, toks);
    s := p.ParseProgram();
    if s.Fail? {
      return None, s, p;
    }
    kernel.NumberBlocks(starts);
    return Some(kernel), s, p;
  }
}
