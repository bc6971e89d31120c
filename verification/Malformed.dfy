/**
  Lines that break off or go wrong (src/compiler/parser.rs:302-358, 532-582,
  608-643): which error each reports.  A failed line changes nothing.
 */
module Malformed {
  import opened Words
  import opened Lexer
  import opened Symbols
  import opened Expressions
  import opened Statements
  import opened Lines
  import opened Sessions
  import opened SourceText
  import opened Prompt

  /** No operand starts with such a token; a lexical error is reported as such. */
  lemma BadOperand(env: Env, t: Token, tail: seq<Token>)
    requires env.Valid() && !t.Literal? && !t.Identifier? && t != LParen
    ensures AtomicTerm(env, [t] + tail) == Fail(if t.Error? then LexFailure(t.kind) else UnexpectedToken)
    ensures AtomicTerm(env, []) == Fail(UnexpectedToken)
  {
    TermIs(env, t, tail);
    assert AtomicTerm(env, []) == Operand(env, Eof, []) == ResolveTerm(env, Eof, []);
  }

  /** A parenthesis that is not closed. */
  lemma OpenGroup(env: Env, m: map<Name, Word>, e: Expr, tail: seq<Token>)
    requires Binds(env, m) && WellFormed(e) && Ends(tail) && First(tail) != RParen
    ensures var r := Evaluate(m, env.peek, e);
            AtomicTerm(env, [LParen] + (ExprTokens(e) + tail)) == Fail(if r.Err? then r.error else UnexpectedToken)
  {
    EvalRoundTrip(env, m, e, tail);
    GroupReads(env, ExprTokens(e) + tail);
  }

  /** `let` without a name, with a long name, or without its `=`. */
  lemma MalformedLet(hash: Hash, t: Tables, e: Entry)
    requires |t.symbols| == SLOTS
    ensures var ts, r := Tokens(e.text, 0), Answer(hash, t, e);
            First(ts) == KwLet ==>
              && (|ts| < 2 || !ts[1].Identifier? ==> r == (Err(UnexpectedToken), t))
              && (|ts| >= 2 && ts[1].Identifier? && |ts[1].name| > 16 ==> r == (Err(NameTooLong), t))
              && (|ts| >= 2 && ts[1].Identifier? && |ts[1].name| <= 16 && (|ts| < 3 || ts[2] != Operator('=' as int))
                  ==> r == (Err(UnexpectedToken), t))
  {
    var ts := Tokens(e.text, 0);
    if |ts| >= 2 {
      assert First(Rest(ts)) == ts[1];
      assert First(Rest(Rest(ts))) == if |ts| == 2 then Eof else ts[2];
    }
  }

  /** The tokens after the name of a function. */
  predicate OpensBody(ts: seq<Token>) {
    |ts| >= 3 && ts[0] == LParen && ts[1] == RParen && ts[2] == LBrace
  }

  /** `fn` without a name, with a long name, or without `( ) {`. */
  lemma MalformedFn(hash: Hash, t: Tables, e: Entry)
    requires |t.symbols| == SLOTS
    ensures var ts, r := Tokens(e.text, 0), Answer(hash, t, e);
            First(ts) == KwFn ==>
              && (|ts| < 2 || !ts[1].Identifier? ==> r == (Err(UnexpectedToken), t))
              && (|ts| >= 2 && ts[1].Identifier? && |ts[1].name| > 16 ==> r == (Err(NameTooLong), t))
              && (|ts| >= 2 && ts[1].Identifier? && |ts[1].name| <= 16 && !OpensBody(ts[2..])
                  ==> r == (Err(UnexpectedToken), t))
  {
    var ts := Tokens(e.text, 0);
    if |ts| >= 2 && ts[1].Identifier? && |ts[1].name| <= 16 {
      HeaderFails(ts[1..]);
      assert ts[1..][1..] == ts[2..];
    }
  }

  lemma HeaderFails(ts: seq<Token>)
    requires ts != [] && ts[0].Identifier? && |ts[0].name| <= 16
    ensures OpensBody(ts[1..]) <==> FnHeader(ts).Got?
    ensures !OpensBody(ts[1..]) ==> FnHeader(ts) == Fail(UnexpectedToken)
  {
    var more := ts[1..];
    assert Rest(ts) == more;
    assert First(more) == if |more| < 1 then Eof else more[0];
    assert First(Rest(more)) == if |more| < 2 then Eof else more[1];
    assert First(Rest(Rest(more))) == if |more| < 3 then Eof else more[2];
  }

  /** A definition whose body breaks off reports the first error of the body, or else where it breaks off. */
  lemma OpenDefinition(hash: Hash, t: Tables, m: map<Name, Word>, codes: seq<seq<Code>>, srcs: seq<Origin>,
                       n: Name, ss: seq<Stmt>, bad: seq<Token>, e: Entry)
    requires Inv(hash, t, m, codes, srcs) && |n| <= 16 && AreStmts(ss)
    requires !First(bad).Identifier? && First(bad) != RBrace
    requires Tokens(e.text, 0) == [KwFn, Identifier(n), LParen, RParen, LBrace] + (StmtsTokens(ss) + bad)
    ensures var r := ElaborateAll(Scope(m, e.peek, e.bits, t.fns, codes), ss, 0);
            Answer(hash, t, e) == (Err(StopError(r)), t)
  {
    var env := Env(hash, t.symbols, e.peek, e.bits);
    var body := StmtsTokens(ss) + bad;
    InvSees(env, t, m, codes, srcs);
    BlockStops(env, Scope(m, e.peek, e.bits, t.fns, codes), ss, [], bad);
    HeaderReads(n, body);
    OpenFnLine(env, t, n, body, Tokens(e.text, 0));
  }

  lemma HeaderReads(n: Name, body: seq<Token>)
    requires |n| <= 16
    ensures FnHeader([Identifier(n), LParen, RParen, LBrace] + body) == Got(n, body)
  {
    var ts := [Identifier(n), LParen, RParen, LBrace] + body;
    assert Rest(ts) == [LParen, RParen, LBrace] + body;
    assert Rest(Rest(ts)) == [RParen, LBrace] + body;
    assert Rest(Rest(Rest(ts))) == [LBrace] + body;
    assert Rest(Rest(Rest(Rest(ts)))) == body;
  }

  lemma OpenFnLine(env: Env, t: Tables, n: Name, body: seq<Token>, ts: seq<Token>)
    requires env.Valid() && |t.symbols| == SLOTS && ts == [KwFn, Identifier(n), LParen, RParen, LBrace] + body
    requires FnHeader([Identifier(n), LParen, RParen, LBrace] + body) == Got(n, body)
    requires ParseBlock(env, t.fns, [], body).Fail?
    ensures ParseLine(env, t, ts) == (Err(ParseBlock(env, t.fns, [], body).error), t)
  {
    assert Rest(ts) == [Identifier(n), LParen, RParen, LBrace] + body;
  }

  /** `NAME(` that goes on wrongly, and a call of a function that does not exist. */
  lemma MalformedCall(hash: Hash, t: Tables, e: Entry)
    requires |t.symbols| == SLOTS
    ensures var ts, r := Tokens(e.text, 0), Answer(hash, t, e);
            |ts| >= 2 && ts[0].Identifier? && ShapeOf(ts[0].name) == Other && ts[1] == LParen ==>
              && (|ts| < 3 || ts[2] != RParen ==> r == (Err(UnexpectedToken), t))
              && (|ts| >= 3 && ts[2] == RParen && !EndsLine(ts[3..]) ==> r == (Err(MissingSemicolon), t))
              && (|ts| >= 3 && ts[2] == RParen && EndsLine(ts[3..]) && FindFn(t.fns, ts[0].name, 0).None?
                  ==> r == (Err(UnknownSymbol), t))
  {
    var ts := Tokens(e.text, 0);
    if |ts| >= 2 {
      assert First(Rest(Rest(ts))) == if |ts| == 2 then Eof else ts[2];
      assert |ts| >= 3 ==> Rest(Rest(Rest(ts))) == ts[3..];
    }
  }

  /** `loop COUNT` without its brace; the count is checked first. */
  lemma MalformedLoop(env: Env, t: Tables, m: map<Name, Word>, c: Expr, tail: seq<Token>)
    requires Binds(env, m) && |t.symbols| == SLOTS && IsOperand(c) && First(tail) != LBrace
    ensures var n := Evaluate(m, env.peek, c);
            ParseLine(env, t, [Identifier(LOOP)] + (ExprTokens(c) + tail)) ==
            (Err(if n.Err? then n.error else if n.value == 0 || n.value > 64 then LoopTooLarge else UnexpectedToken), t)
  {
    OperandReads(env, m, c, tail);
    FailedHead(env, t, ExprTokens(c) + tail);
  }

  lemma FailedHead(env: Env, t: Tables, ts: seq<Token>)
    requires env.Valid() && |t.symbols| == SLOTS && LoopHead(env, ts).Fail?
    ensures ParseLine(env, t, [Identifier(LOOP)] + ts) == (Err(LoopHead(env, ts).error), t)
  {
    var all := [Identifier(LOOP)] + ts;
    assert First(all) == Identifier(LOOP) && Rest(all) == ts;
  }

  /** Nothing in `ts` is compiled by a loop at the prompt, nor closes it. */
  predicate Skipped(ts: seq<Token>) {
    forall k :: 0 <= k < |ts| ==> ts[k] != RBrace && ts[k] != Identifier(POKE) && ts[k] != Identifier(PEEK)
  }

  lemma {:induction false} TopLoopBreaksOff(env: Env, stream: seq<Word>, ts: seq<Token>)
    requires env.Valid() && Skipped(ts)
    ensures TopLoop(env, stream, ts) == Fail(UnexpectedToken)
    decreases |ts|
  {
    if ts != [] {
      TopLoopBreaksOff(env, stream, ts[1..]);
    }
  }

  /** A loop at the prompt that is not closed. */
  lemma OpenLoop(env: Env, t: Tables, m: map<Name, Word>, c: Expr, ts: seq<Token>)
    requires Binds(env, m) && |t.symbols| == SLOTS && IsOperand(c) && Skipped(ts)
    requires var n := Evaluate(m, env.peek, c); n.Ok? && 1 <= n.value <= 64
    ensures ParseLine(env, t, [Identifier(LOOP)] + (ExprTokens(c) + ([LBrace] + ts))) == (Err(UnexpectedToken), t)
  {
    OperandReads(env, m, c, [LBrace] + ts);
    assert Rest([LBrace] + ts) == ts;
    TopLoopBreaksOff(env, [], ts);
    BrokenLoop(env, t, ExprTokens(c) + ([LBrace] + ts));
  }

  lemma BrokenLoop(env: Env, t: Tables, ts: seq<Token>)
    requires env.Valid() && |t.symbols| == SLOTS && LoopHead(env, ts).Got?
    requires TopLoop(env, [], LoopHead(env, ts).rest) == Fail(UnexpectedToken)
    ensures ParseLine(env, t, [Identifier(LOOP)] + ts) == (Err(UnexpectedToken), t)
  {
    var all := [Identifier(LOOP)] + ts;
    assert First(all) == Identifier(LOOP) && Rest(all) == ts;
  }
}
