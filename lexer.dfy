// The token stream the parser reads.  The lexer itself (BufferedLexer) is
// not part of this model: its output is a sequence of tokens, and the parser
// state holds a cursor into it.
module Lexer {
  import opened ImmVals

  datatype Lexeme =
    | IDENT | INTLIT02 | INTLIT10 | INTLIT16 | FLTLIT
    | LPAREN | RPAREN | LBRACK | RBRACK | LBRACE | RBRACE | LANGLE | RANGLE
    | PIPE | AMP | CIRC | LSH | RSH | ADD | SUB | MUL | DIV | MOD | TILDE
    | DOT | COMMA | SEMI | COLON | DOLLAR | AT | SAT | ABS
    | NEWLINE | END_OF_FILE | OTHER

  /** A token: its lexeme, its text, the source line it starts on, and the
    * lexer's conversions of a literal: `value` is the integer a literal
    * denotes (ParseIntFrom<int>), `bits` the 64-bit pattern of an integer
    * literal read as uint64_t or of a floating literal read as a double. */
  datatype Token = Token(lexeme: Lexeme, text: string, line: nat, value: nat, bits: Word)

  const EOF_TOKEN: Token := Token(END_OF_FILE, "", 0, 0, 0)

  /** The token k places after the cursor; past the end the lexer keeps
    * returning END_OF_FILE. */
  function Peek(toks: seq<Token>, p: nat): (t: Token)
    ensures p < |toks| ==> t == toks[p]
    ensures p >= |toks| ==> t.lexeme == END_OF_FILE
  {
    if p < |toks| then toks[p] else EOF_TOKEN
  }

  predicate IsIntLit(lx: Lexeme) {
    lx == INTLIT02 || lx == INTLIT10 || lx == INTLIT16
  }

  /** Identifier lookahead: token p is an identifier spelled s. */
  predicate IdentAt(toks: seq<Token>, p: nat, s: string) {
    Peek(toks, p).lexeme == IDENT && Peek(toks, p).text == s
  }

  /** Skip(): the cursor moves one token forward, but never past the end. */
  function Advance(toks: seq<Token>, p: nat): (q: nat)
    requires p <= |toks|
    ensures q <= |toks|
    ensures Peek(toks, p).lexeme != END_OF_FILE ==> q == p + 1
  {
    if p < |toks| then p + 1 else p
  }
}
