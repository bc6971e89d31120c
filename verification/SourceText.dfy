/**
  Source text: the tokens of whole lines, and their spelling, each token
  followed by a space.
 */
module SourceText {
  import opened Words
  import opened Lexer
  import opened Symbols
  import opened Printer
  import opened Expressions
  import opened Statements
  import opened Lines

  predicate SpelledStmt(s: Stmt)
    decreases s, 0
  {
    match s
    case PokeStmt(a, v) => Spelled(a) && Spelled(v)
    case PeekStmt(a) => Spelled(a)
    case LoopStmt(c, body) => Spelled(c) && SpelledAll(body)
    case CallStmt(n) => IsName(n)
    case BareStmt(e) => Spelled(e)
  }

  predicate SpelledAll(ss: seq<Stmt>)
    decreases ss, 0
  {
    ss == [] || (SpelledStmt(ss[0]) && SpelledAll(ss[1..]))
  }

  predicate AllPrintable(ts: seq<Token>) {
    forall t :: t in ts ==> Printable(t)
  }

  lemma {:induction false} StmtPrintable(s: Stmt)
    requires IsStmt(s) && SpelledStmt(s)
    ensures AllPrintable(StmtTokens(s))
    decreases s, 0
  {
    match s
    case PokeStmt(a, v) => ExprPrintable(a); ExprPrintable(v);
    case PeekStmt(a) => ExprPrintable(a);
    case LoopStmt(c, body) => ExprPrintable(c); StmtsPrintable(body);
    case CallStmt(n) =>
    case BareStmt(e) => ExprPrintable(e);
  }

  lemma {:induction false} StmtsPrintable(ss: seq<Stmt>)
    requires AreStmts(ss) && SpelledAll(ss)
    ensures AllPrintable(StmtsTokens(ss))
    decreases ss, 0
  {
    if ss != [] {
      StmtPrintable(ss[0]);
      StmtsPrintable(ss[1..]);
    }
  }

  /** fn NAME ( ) { STATEMENTS } */
  function FnTokens(n: Name, ss: seq<Stmt>): seq<Token> {
    [KwFn, Identifier(n), LParen, RParen, LBrace] + (StmtsTokens(ss) + [RBrace])
  }

  /** NAME ( ) ; */
  function CallTokens(n: Name): seq<Token> {
    [Identifier(n), LParen, RParen, Semicolon]
  }

  function FnText(n: Name, ss: seq<Stmt>): seq<Byte>
    requires IsName(n) && AreStmts(ss) && SpelledAll(ss)
  {
    StmtsPrintable(ss);
    Render(FnTokens(n, ss))
  }

  function CallText(n: Name): seq<Byte>
    requires IsName(n)
  {
    Render(CallTokens(n))
  }

  lemma TextTokens(ts: seq<Token>)
    requires AllPrintable(ts)
    ensures Tokens(Render(ts), 0) == ts
  {
    LexRender([], ts);
    assert [] + Render(ts) == Render(ts);
  }

  /** let NAME = EXPR, and what follows */
  function LetTokens(n: Name, e: Expr, tail: seq<Token>): seq<Token> {
    [KwLet, Identifier(n), Operator('=' as int)] + (ExprTokens(e) + tail)
  }

  /** The statement may end here: at a semicolon, whatever follows it, or at the end of the line. */
  predicate EndsLine(tail: seq<Token>) {
    tail == [] || tail[0] == Semicolon
  }

  /** A value that is followed by `tail`, which must end the statement. */
  function EndedBy<T>(r: Result<T, ParseError>, tail: seq<Token>): Result<T, ParseError> {
    if r.Ok? && !EndsLine(tail) then Err(MissingSemicolon) else r
  }
}
