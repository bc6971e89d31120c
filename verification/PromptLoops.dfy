/**
  Loops typed at the prompt (src/compiler/parser.rs:532-582).  Their body is
  not parsed as statements: pokes and peeks are compiled, every other token is
  skipped, and the first closing brace ends the loop.  Here is what that does
  to any statements, and exactly when it is what the source means.
 */
module PromptLoops {
  import opened Words
  import opened Lexer
  import opened Symbols
  import opened Printer
  import opened Expressions
  import opened Streams
  import opened Capability
  import opened Statements
  import opened Lines
  import opened Sessions
  import opened SourceText
  import VM = ThreadedVm

  // ---------------------------------------------------------------------
  // Expressions seen as mere tokens
  // ---------------------------------------------------------------------

  /** The first `poke` or `peek` among the tokens of an expression, and whether that peek is its last operand. */
  datatype Stray = NoStray | BadPoke | MidPeek(addr: Expr) | EndPeek(addr: Expr)

  /** More tokens of the same expression follow. */
  function Enclosed(x: Stray): Stray {
    if x.EndPeek? then MidPeek(x.addr) else x
  }

  predicate HasAddr(x: Stray) {
    x.MidPeek? || x.EndPeek?
  }

  function StrayOf(e: Expr): (x: Stray)
    ensures WellFormed(e) && HasAddr(x) ==> IsOperand(x.addr)
  {
    match e
    case Lit(_) => NoStray
    case Var(n) => if n == POKE then BadPoke else NoStray
    case Group(e1) => Enclosed(StrayOf(e1))
    case PeekAt(a) => EndPeek(a)
    case Bin(_, l, r) => var x := Enclosed(StrayOf(l)); if x.NoStray? then StrayOf(r) else x
  }

  /** How a peek that does not end its statement fails. */
  function PeekError(sc: Scope, a: Expr): ParseError
    requires WellFormed(a)
  {
    match Evaluate(sc.m, sc.peek, a)
    case Err(x) => x
    case Ok(_) => MissingSemicolon
  }

  /** What can follow an expression. */
  predicate Follows(ts: seq<Token>) {
    First(ts).Operator? || First(ts) == RParen || First(ts) == Semicolon || First(ts) == LBrace
  }

  /** The prompt's parser on a peek and what follows, or past an expression without one. */
  function TopExpr(env: Env, sc: Scope, x: Stray, stream: seq<Word>, more: seq<Token>): Parsed<seq<Word>>
    requires env.Valid() && (HasAddr(x) ==> WellFormed(x.addr))
  {
    match x
    case NoStray => TopLoop(env, stream, more)
    case BadPoke => Fail(UnexpectedToken)
    case MidPeek(a) => Fail(PeekError(sc, a))
    case EndPeek(a) => TopLoop(env, stream, [Identifier(PEEK)] + (ExprTokens(a) + more))
  }

  /** Any token that is no brace, poke or peek is skipped. */
  lemma SkipToken(env: Env, stream: seq<Word>, t: Token, ts: seq<Token>)
    requires env.Valid() && t != RBrace && t != Identifier(POKE) && t != Identifier(PEEK)
    ensures TopLoop(env, stream, [t] + ts) == TopLoop(env, stream, ts)
  {
    assert ([t] + ts)[1..] == ts;
  }

  /** A poke or peek is compiled as in a function body. */
  lemma TopMemory(env: Env, stream: seq<Word>, id: Name, ts: seq<Token>)
    requires env.Valid() && (id == POKE || id == PEEK)
    ensures var r := ParseMemory(env, stream, if id == POKE then PokeArgs(env, ts) else PeekArgs(env, ts));
            TopLoop(env, stream, [Identifier(id)] + ts) ==
            if r.Got? && |r.rest| < |ts| + 1 && |stream| <= |r.value| then TopLoop(env, r.value, r.rest) else r
  {
    assert ([Identifier(id)] + ts)[1..] == ts;
    assert TopStmt(env, stream, [Identifier(id)] + ts) ==
           ParseMemory(env, stream, if id == POKE then PokeArgs(env, ts) else PeekArgs(env, ts));
  }

  lemma PokeNeedsOperand(env: Env, stream: seq<Word>, more: seq<Token>)
    requires env.Valid() && Follows(more)
    ensures TopLoop(env, stream, [Identifier(POKE)] + more) == Fail(UnexpectedToken)
  {
    assert more == [more[0]] + Rest(more);
    TermIs(env, more[0], Rest(more));
    TopMemory(env, stream, POKE, more);
  }

  lemma PeekNotLast(env: Env, sc: Scope, a: Expr, stream: seq<Word>, more: seq<Token>)
    requires Sees(env, sc) && IsOperand(a) && Follows(more) && First(more) != Semicolon
    ensures TopLoop(env, stream, [Identifier(PEEK)] + (ExprTokens(a) + more)) == Fail(PeekError(sc, a))
  {
    OperandReads(env, sc.m, a, more);
    TopMemory(env, stream, PEEK, ExprTokens(a) + more);
  }

  /** An expression, token by token. */
  lemma {:induction false} ExprScans(env: Env, sc: Scope, e: Expr, stream: seq<Word>, more: seq<Token>)
    requires Sees(env, sc) && WellFormed(e) && Follows(more)
    ensures TopLoop(env, stream, ExprTokens(e) + more) == TopExpr(env, sc, StrayOf(e), stream, more)
    decreases e, 1
  {
    match e
    case Lit(v) => SkipToken(env, stream, Literal(v), more);
    case Var(n) =>
      if n == POKE {
        PokeNeedsOperand(env, stream, more);
      } else {
        SkipToken(env, stream, Identifier(n), more);
      }
    case Group(e1) => GroupScans(env, sc, e1, stream, more);
    case PeekAt(a) => Assoc([Identifier(PEEK)], ExprTokens(a), more);
    case Bin(op, l, r) => BinScans(env, sc, op, l, r, stream, more);
  }

  lemma {:induction false} GroupScans(env: Env, sc: Scope, e: Expr, stream: seq<Word>, more: seq<Token>)
    requires Sees(env, sc) && WellFormed(e) && Follows(more)
    ensures TopLoop(env, stream, ExprTokens(Group(e)) + more) == TopExpr(env, sc, Enclosed(StrayOf(e)), stream, more)
    decreases Group(e), 0
  {
    var close := [RParen] + more;
    Assoc([LParen], ExprTokens(e) + [RParen], more);
    Assoc(ExprTokens(e), [RParen], more);
    SkipToken(env, stream, LParen, ExprTokens(e) + close);
    ExprScans(env, sc, e, stream, close);
    match StrayOf(e)
    case NoStray => SkipToken(env, stream, RParen, more);
    case EndPeek(a) => PeekNotLast(env, sc, a, stream, close);
    case _ =>
  }

  lemma {:induction false} BinScans(env: Env, sc: Scope, op: Byte, l: Expr, r: Expr, stream: seq<Word>,
                                    more: seq<Token>)
    requires Sees(env, sc) && WellFormed(Bin(op, l, r)) && Follows(more)
    ensures TopLoop(env, stream, ExprTokens(Bin(op, l, r)) + more) ==
            TopExpr(env, sc, StrayOf(Bin(op, l, r)), stream, more)
    decreases Bin(op, l, r), 0
  {
    var rest := [Operator(op)] + (ExprTokens(r) + more);
    Assoc(ExprTokens(l), [Operator(op)] + ExprTokens(r), more);
    Assoc([Operator(op)], ExprTokens(r), more);
    ExprScans(env, sc, l, stream, rest);
    match StrayOf(l)
    case NoStray =>
      SkipToken(env, stream, Operator(op), ExprTokens(r) + more);
      ExprScans(env, sc, r, stream, more);
    case EndPeek(a) => PeekNotLast(env, sc, a, stream, rest);
    case _ =>
  }

  // ---------------------------------------------------------------------
  // Statements
  // ---------------------------------------------------------------------

  /** What the prompt compiles, and whether it has met its closing brace. */
  datatype Scanned = Scanned(blocks: seq<Block>, ended: bool)

  function Emits(r: Result<Code, ParseError>): Result<Scanned, ParseError> {
    match r
    case Ok(c) => Ok(Scanned(Blocks(c), false))
    case Err(x) => Err(x)
  }

  function ScanBare(sc: Scope, x: Stray, used: nat): Result<Scanned, ParseError>
    requires HasAddr(x) ==> WellFormed(x.addr)
  {
    match x
    case NoStray => Ok(Scanned([], false))
    case BadPoke => Err(UnexpectedToken)
    case MidPeek(a) => Err(PeekError(sc, a))
    case EndPeek(a) => Emits(MemoryCode(sc, PeekBlock(sc, a), used))
  }

  /** The count of an inner loop; None when it is skipped without harm. */
  function ScanCount(sc: Scope, x: Stray): Option<ParseError>
    requires HasAddr(x) ==> WellFormed(x.addr)
  {
    match x
    case NoStray => None
    case BadPoke => Some(UnexpectedToken)
    case MidPeek(a) => Some(PeekError(sc, a))
    case EndPeek(a) => Some(PeekError(sc, a))
  }

  function ScanStmt(sc: Scope, s: Stmt, used: nat): Result<Scanned, ParseError>
    requires IsStmt(s)
    decreases s, 0
  {
    match s
    case PokeStmt(a, v) => Emits(MemoryCode(sc, PokeBlock(sc, a, v), used))
    case PeekStmt(a) => Emits(MemoryCode(sc, PeekBlock(sc, a), used))
    case CallStmt(_) => Ok(Scanned([], false))
    case BareStmt(e) => ScanBare(sc, StrayOf(e), used)
    case LoopStmt(c, body) =>
      if ScanCount(sc, StrayOf(c)).Some? then Err(ScanCount(sc, StrayOf(c)).value)
      else
        match ScanAll(sc, body, used)
        case Err(x) => Err(x)
        case Ok(x) => Ok(x.(ended := true))
  }

  function ScanAll(sc: Scope, ss: seq<Stmt>, used: nat): Result<Scanned, ParseError>
    requires AreStmts(ss)
    decreases ss, 0
  {
    if ss == [] then Ok(Scanned([], false))
    else
      var r := ScanStmt(sc, ss[0], used);
      if Goes(r) then Join(r.value.blocks, ScanAll(sc, ss[1..], used + |Flatten(r.value.blocks)|)) else r
  }

  /** The prompt goes on after this. */
  predicate Goes(r: Result<Scanned, ParseError>) {
    r.Ok? && !r.value.ended
  }

  function Join(bs: seq<Block>, r: Result<Scanned, ParseError>): Result<Scanned, ParseError> {
    match r
    case Err(x) => Err(x)
    case Ok(y) => Ok(Scanned(bs + y.blocks, y.ended))
  }

  /** `p` is what the prompt's parser makes of tokens that scan as `r` and are followed by `more`. */
  ghost predicate Resumes(env: Env, stream: seq<Word>, r: Result<Scanned, ParseError>, more: seq<Token>,
                          p: Parsed<seq<Word>>)
    requires env.Valid()
  {
    match r
    case Err(x) => p == Fail(x)
    case Ok(x) =>
      if x.ended then p.Got? && p.value == stream + Flatten(x.blocks)
      else p == TopLoop(env, stream + Flatten(x.blocks), more)
  }

  lemma MemoryScans(env: Env, sc: Scope, stream: seq<Word>, id: Name, ts: seq<Token>, b: Result<Block, ParseError>,
                    more: seq<Token>)
    requires Sees(env, sc) && (id == POKE || id == PEEK)
    requires (if id == POKE then PokeArgs(env, ts) else PeekArgs(env, ts)) == Then(b, more)
    ensures Resumes(env, stream, Emits(MemoryCode(sc, b, |stream|)), more, TopLoop(env, stream, [Identifier(id)] + ts))
  {
    TopMemory(env, stream, id, ts);
    MemoryCompiles(env, sc, stream, b, more);
  }

  lemma PokeScans(env: Env, sc: Scope, a: Expr, v: Expr, stream: seq<Word>, more: seq<Token>)
    requires Sees(env, sc) && IsOperand(a) && WellFormed(v)
    ensures Resumes(env, stream, ScanStmt(sc, PokeStmt(a, v), |stream|), more,
                    TopLoop(env, stream, StmtTokens(PokeStmt(a, v)) + more))
  {
    var rest := ExprTokens(a) + (ExprTokens(v) + ([Semicolon] + more));
    PokeTokens(a, v, more);
    PokeReads(env, sc, a, v, more);
    MemoryScans(env, sc, stream, POKE, rest, PokeBlock(sc, a, v), more);
  }

  lemma PeekScans(env: Env, sc: Scope, a: Expr, stream: seq<Word>, more: seq<Token>)
    requires Sees(env, sc) && IsOperand(a)
    ensures Resumes(env, stream, Emits(MemoryCode(sc, PeekBlock(sc, a), |stream|)), more,
                    TopLoop(env, stream, [Identifier(PEEK)] + (ExprTokens(a) + ([Semicolon] + more))))
  {
    PeekReadsArgs(env, sc, a, more);
    MemoryScans(env, sc, stream, PEEK, ExprTokens(a) + ([Semicolon] + more), PeekBlock(sc, a), more);
  }

  lemma NothingScanned(env: Env, stream: seq<Word>, more: seq<Token>)
    requires env.Valid()
    ensures Resumes(env, stream, Ok(Scanned([], false)), more, TopLoop(env, stream, more))
  {
    assert stream + Flatten([]) == stream;
  }

  lemma CallScans(env: Env, n: Name, stream: seq<Word>, more: seq<Token>)
    requires env.Valid() && !IsKeyword(n)
    ensures TopLoop(env, stream, StmtTokens(CallStmt(n)) + more) == TopLoop(env, stream, more)
  {
    CallSpelling(n, more);
    SkipToken(env, stream, Identifier(n), [LParen] + ([RParen] + ([Semicolon] + more)));
    SkipToken(env, stream, LParen, [RParen] + ([Semicolon] + more));
    SkipToken(env, stream, RParen, [Semicolon] + more);
    SkipToken(env, stream, Semicolon, more);
  }

  lemma BareScans(env: Env, sc: Scope, e: Expr, stream: seq<Word>, more: seq<Token>)
    requires Sees(env, sc) && WellFormed(e)
    ensures Resumes(env, stream, ScanBare(sc, StrayOf(e), |stream|), more,
                    TopLoop(env, stream, ExprTokens(e) + ([Semicolon] + more)))
  {
    ExprScans(env, sc, e, stream, [Semicolon] + more);
    match StrayOf(e)
    case NoStray =>
      SkipToken(env, stream, Semicolon, more);
      NothingScanned(env, stream, more);
    case EndPeek(a) => PeekScans(env, sc, a, stream, more);
    case _ =>
  }

  /** Past the head of an inner loop, its body is scanned as if it were ours. */
  lemma HeadScans(env: Env, sc: Scope, c: Expr, body: seq<Stmt>, stream: seq<Word>, more: seq<Token>)
    requires Sees(env, sc) && IsOperand(c)
    ensures var r := ScanCount(sc, StrayOf(c));
            TopLoop(env, stream, StmtTokens(LoopStmt(c, body)) + more) ==
            if r.Some? then Fail(r.value) else TopLoop(env, stream, StmtsTokens(body) + ([RBrace] + more))
  {
    var inside := StmtsTokens(body) + ([RBrace] + more);
    LoopTokens(c, body, more);
    SkipToken(env, stream, Identifier(LOOP), ExprTokens(c) + ([LBrace] + inside));
    ExprScans(env, sc, c, stream, [LBrace] + inside);
    match StrayOf(c)
    case NoStray => SkipToken(env, stream, LBrace, inside);
    case EndPeek(a) => PeekNotLast(env, sc, a, stream, [LBrace] + inside);
    case _ =>
  }

  /** What the prompt's parser makes of any statement. */
  lemma {:induction false} StmtScans(env: Env, sc: Scope, s: Stmt, stream: seq<Word>, more: seq<Token>)
    requires Sees(env, sc) && IsStmt(s)
    ensures Resumes(env, stream, ScanStmt(sc, s, |stream|), more, TopLoop(env, stream, StmtTokens(s) + more))
    decreases s, 0
  {
    match s
    case PokeStmt(a, v) => PokeScans(env, sc, a, v, stream, more);
    case PeekStmt(a) =>
      PeekTokens(a, more);
      PeekScans(env, sc, a, stream, more);
    case CallStmt(n) =>
      CallScans(env, n, stream, more);
      NothingScanned(env, stream, more);
    case BareStmt(e) =>
      Assoc(ExprTokens(e), [Semicolon], more);
      BareScans(env, sc, e, stream, more);
    case LoopStmt(c, body) =>
      HeadScans(env, sc, c, body, stream, more);
      if ScanCount(sc, StrayOf(c)).None? {
        BlockScans(env, sc, body, stream, more);
      }
  }

  /** `p` is a finished body that scans as `r`. */
  ghost predicate Finishes(stream: seq<Word>, r: Result<Scanned, ParseError>, p: Parsed<seq<Word>>) {
    match r
    case Err(x) => p == Fail(x)
    case Ok(x) => p.Got? && p.value == stream + Flatten(x.blocks)
  }

  lemma FinishesJoin(stream: seq<Word>, bs: seq<Block>, r: Result<Scanned, ParseError>, p: Parsed<seq<Word>>)
    requires Finishes(stream + Flatten(bs), r, p)
    ensures Finishes(stream, Join(bs, r), p)
  {
    if r.Ok? {
      FlattenConcat(bs, r.value.blocks);
      Assoc(stream, Flatten(bs), Flatten(r.value.blocks));
    }
  }

  /** A block ends at its brace, or before. */
  lemma {:induction false} BlockScans(env: Env, sc: Scope, ss: seq<Stmt>, stream: seq<Word>, tail: seq<Token>)
    requires Sees(env, sc) && AreStmts(ss)
    ensures Finishes(stream, ScanAll(sc, ss, |stream|), TopLoop(env, stream, StmtsTokens(ss) + ([RBrace] + tail)))
    decreases ss, 1
  {
    if ss == [] {
      EmptyBlockScans(env, stream, tail);
    } else {
      var more := StmtsTokens(ss[1..]) + ([RBrace] + tail);
      Assoc(StmtTokens(ss[0]), StmtsTokens(ss[1..]), [RBrace] + tail);
      StmtScans(env, sc, ss[0], stream, more);
      ScanStep(sc, ss, |stream|);
      StepScans(env, sc, ss[1..], stream, ScanStmt(sc, ss[0], |stream|), tail,
                TopLoop(env, stream, StmtTokens(ss[0]) + more), ScanAll(sc, ss, |stream|));
    }
  }

  lemma ScanStep(sc: Scope, ss: seq<Stmt>, low: nat)
    requires AreStmts(ss) && ss != []
    ensures ScanAll(sc, ss, low) == ScanOn(sc, ScanStmt(sc, ss[0], low), ss[1..], low)
  {
  }

  /** The scan of statements after one that scans as `r`. */
  function ScanOn(sc: Scope, r: Result<Scanned, ParseError>, ss: seq<Stmt>, low: nat): Result<Scanned, ParseError>
    requires AreStmts(ss)
  {
    if Goes(r) then Join(r.value.blocks, ScanAll(sc, ss, low + |Flatten(r.value.blocks)|)) else r
  }

  lemma {:induction false} StepScans(env: Env, sc: Scope, ss: seq<Stmt>, stream: seq<Word>,
                                     r: Result<Scanned, ParseError>, tail: seq<Token>, p: Parsed<seq<Word>>,
                                     all: Result<Scanned, ParseError>)
    requires Sees(env, sc) && AreStmts(ss) && all == ScanOn(sc, r, ss, |stream|)
    requires Resumes(env, stream, r, StmtsTokens(ss) + ([RBrace] + tail), p)
    ensures Finishes(stream, all, p)
    decreases ss, 3
  {
    if Goes(r) {
      RestScans(env, sc, ss, stream, r.value.blocks, tail, p);
    }
  }

  /** After the blocks `xs` of the first statement, the rest of the block is scanned. */
  lemma {:induction false} RestScans(env: Env, sc: Scope, ss: seq<Stmt>, stream: seq<Word>, xs: seq<Block>,
                                     tail: seq<Token>, p: Parsed<seq<Word>>)
    requires Sees(env, sc) && AreStmts(ss)
    requires p == TopLoop(env, stream + Flatten(xs), StmtsTokens(ss) + ([RBrace] + tail))
    ensures Finishes(stream, Join(xs, ScanAll(sc, ss, |stream| + |Flatten(xs)|)), p)
    decreases ss, 2
  {
    var next := stream + Flatten(xs);
    assert |next| == |stream| + |Flatten(xs)|;
    BlockScans(env, sc, ss, next, tail);
    FinishesJoin(stream, xs, ScanAll(sc, ss, |next|), p);
  }

  lemma ScanStops(sc: Scope, ss: seq<Stmt>, low: nat)
    requires AreStmts(ss) && ss != [] && !Goes(ScanStmt(sc, ss[0], low))
    ensures ScanAll(sc, ss, low) == ScanStmt(sc, ss[0], low)
  {
  }

  lemma ScanCons(sc: Scope, ss: seq<Stmt>, low: nat, xs: seq<Block>)
    requires AreStmts(ss) && ss != [] && ScanStmt(sc, ss[0], low) == Ok(Scanned(xs, false))
    ensures ScanAll(sc, ss, low) == Join(xs, ScanAll(sc, ss[1..], low + |Flatten(xs)|))
  {
  }

  lemma EmptyBlockScans(env: Env, stream: seq<Word>, tail: seq<Token>)
    requires env.Valid()
    ensures Finishes(stream, Ok(Scanned([], false)), TopLoop(env, stream, [] + ([RBrace] + tail)))
  {
    assert [] + ([RBrace] + tail) == [RBrace] + tail;
    assert stream + Flatten([]) == stream;
  }

  // ---------------------------------------------------------------------
  // Whole loops
  // ---------------------------------------------------------------------

  /** Blocks repeated, with a halt, if they fit. */
  function Repeated(bs: seq<Block>, n: nat): Result<Outcome, ParseError> {
    match Push([], Flatten(Copies(bs, n)))
    case Err(x) => Err(x)
    case Ok(words) => Halted(words)
  }

  /** What a loop typed at the prompt returns, whatever its body. */
  function PromptLoop(sc: Scope, c: Expr, ss: seq<Stmt>): Result<Outcome, ParseError>
    requires IsStmt(LoopStmt(c, ss))
  {
    match CountOf(sc, c)
    case Err(x) => Err(x)
    case Ok(n) =>
      match ScanAll(sc, ss, 0)
      case Err(x) => Err(x)
      case Ok(x) => Repeated(x.blocks, n)
  }

  /** What is scanned fits. */
  lemma {:induction false} ScanFits(sc: Scope, ss: seq<Stmt>, used: nat)
    requires AreStmts(ss) && used <= 128 && ScanAll(sc, ss, used).Ok?
    ensures used + |Flatten(ScanAll(sc, ss, used).value.blocks)| <= 128
    decreases ss, 0
  {
    if ss != [] {
      ScanStmtFits(sc, ss[0], used);
      var x := ScanStmt(sc, ss[0], used).value;
      if !x.ended {
        ScanFits(sc, ss[1..], used + |Flatten(x.blocks)|);
        FlattenConcat(x.blocks, ScanAll(sc, ss[1..], used + |Flatten(x.blocks)|).value.blocks);
      }
    }
  }

  lemma {:induction false} ScanStmtFits(sc: Scope, s: Stmt, used: nat)
    requires IsStmt(s) && used <= 128 && ScanStmt(sc, s, used).Ok?
    ensures used + |Flatten(ScanStmt(sc, s, used).value.blocks)| <= 128
    decreases s, 0
  {
    assert Flatten([]) == [];
    if s.LoopStmt? {
      ScanFits(sc, s.body, used);
    }
  }

  lemma UnrolledAre(bs: seq<Block>, n: nat, rest: seq<Token>)
    requires n >= 1 && |Flatten(bs)| <= 128
    ensures ParseLoopEnd([], n, Got(Flatten(bs), rest)) == Then(Push([], Flatten(Copies(bs, n))), rest)
  {
    var body := Flatten(bs);
    assert body[0..] == body;
    UnrollIs(body, body, n - 1);
    FlattenCopies(bs, n);
    assert Copies(body, n) == body + Copies(body, n - 1);
    assert [] + Copies(body, n) == Copies(body, n);
  }

  /** Every loop typed at the prompt, exactly. */
  lemma LoopScans(env: Env, sc: Scope, c: Expr, ss: seq<Stmt>, tail: seq<Token>)
    requires Sees(env, sc) && IsStmt(LoopStmt(c, ss))
    ensures LoopCommand(env, ExprTokens(c) + ([LBrace] + (StmtsTokens(ss) + ([RBrace] + tail)))) ==
            PromptLoop(sc, c, ss)
  {
    var inside := StmtsTokens(ss) + ([RBrace] + tail);
    LoopHeadReads(env, sc, c, inside);
    BlockScans(env, sc, ss, [], tail);
    var r := ScanAll(sc, ss, 0);
    if CountOf(sc, c).Ok? && r.Ok? {
      ScanFits(sc, ss, 0);
      var words := Flatten(r.value.blocks);
      assert [] + words == words;
      UnrolledAre(r.value.blocks, CountOf(sc, c).value, TopLoop(env, [], inside).rest);
    }
  }

  lemma LoopLineTokens(c: Expr, ss: seq<Stmt>)
    ensures StmtTokens(LoopStmt(c, ss)) ==
            [Identifier(LOOP)] + (ExprTokens(c) + ([LBrace] + (StmtsTokens(ss) + ([RBrace] + []))))
  {
    assert StmtTokens(LoopStmt(c, ss)) + [] == StmtTokens(LoopStmt(c, ss));
    LoopTokens(c, ss, []);
  }

  lemma LoopLineReads(env: Env, t: Tables, ts: seq<Token>)
    requires env.Valid() && |t.symbols| == SLOTS
    ensures ParseLine(env, t, [Identifier(LOOP)] + ts) == (LoopCommand(env, ts), t)
  {
    assert Rest([Identifier(LOOP)] + ts) == ts;
    assert ShapeOf(LOOP) == LoopShape;
  }

  /** The same, from text. */
  lemma PromptLoopAnswer(hash: Hash, t: Tables, m: map<Name, Word>, codes: seq<seq<Code>>, srcs: seq<Origin>,
                         c: Expr, ss: seq<Stmt>, mc: Machine)
    requires Inv(hash, t, m, codes, srcs) && IsStmt(LoopStmt(c, ss)) && SpelledStmt(LoopStmt(c, ss))
    ensures AllPrintable(StmtTokens(LoopStmt(c, ss)))
    ensures Answer(hash, t, Entry(Render(StmtTokens(LoopStmt(c, ss))), mc.peek, mc.bits)) ==
            (PromptLoop(Scope(m, mc.peek, mc.bits, t.fns, codes), c, ss), t)
  {
    var env := Env(hash, t.symbols, mc.peek, mc.bits);
    StmtPrintable(LoopStmt(c, ss));
    TextTokens(StmtTokens(LoopStmt(c, ss)));
    InvSees(env, t, m, codes, srcs);
    LoopScans(env, Scope(m, mc.peek, mc.bits, t.fns, codes), c, ss, []);
    LoopLineTokens(c, ss);
    LoopLineReads(env, t, ExprTokens(c) + ([LBrace] + (StmtsTokens(ss) + ([RBrace] + []))));
  }

  // ---------------------------------------------------------------------
  // When it is what the source means
  // ---------------------------------------------------------------------

  /** A stream of blocks can be read back: no two lists of blocks share their words. */
  lemma {:induction false} FlattenInjective(xs: seq<Block>, ys: seq<Block>)
    requires Flatten(xs) == Flatten(ys)
    ensures xs == ys
    decreases |xs|
  {
    if xs != [] && ys != [] {
      var u, v := Flatten(xs), Flatten(ys);
      FirstBlock(xs);
      FirstBlock(ys);
      assert xs[0] == ys[0];
      var k := |BlockWords(xs[0])|;
      assert u[k..] == Flatten(xs[1..]) && v[k..] == Flatten(ys[1..]);
      FlattenInjective(xs[1..], ys[1..]);
      assert xs == [xs[0]] + xs[1..] && ys == [ys[0]] + ys[1..];
    } else if xs != [] {
      FirstBlock(xs);
    } else if ys != [] {
      FirstBlock(ys);
    }
  }

  /** The first block, read off its words. */
  lemma FirstBlock(bs: seq<Block>)
    requires bs != []
    ensures var w := Flatten(bs);
            && |w| >= 3
            && (w[2] == VM.LIT ==> |w| >= 5 && bs[0] == Poke(w[1], w[3]))
            && (w[2] != VM.LIT ==> bs[0] == Block.Peek(w[1]))
  {
    var w, first := Flatten(bs), BlockWords(bs[0]);
    assert w == first + Flatten(bs[1..]);
    assert forall k :: 0 <= k < |first| ==> w[k] == first[k];
  }

  lemma {:induction false} CopiesLength<T>(xs: seq<T>, n: nat)
    ensures |Copies(xs, n)| == n * |xs|
  {
    if n > 0 {
      CopiesLength(xs, n - 1);
      assert n * |xs| == (n - 1) * |xs| + |xs|;
    }
  }

  lemma CopiesInjective<T>(xs: seq<T>, ys: seq<T>, n: nat)
    requires n >= 1 && Copies(xs, n) == Copies(ys, n)
    ensures xs == ys
  {
    CopiesLength(xs, n);
    CopiesLength(ys, n);
    if |xs| < |ys| {
      TimesGrows(n, |xs|, |ys|);
    } else if |ys| < |xs| {
      TimesGrows(n, |ys|, |xs|);
    }
    assert Copies(xs, n)[..|xs|] == xs && Copies(ys, n)[..|xs|] == ys;
  }

  /** The program of a loop is the source's exactly when its blocks are. */
  lemma SameProgram(bs: seq<Block>, n: nat, cs: seq<Code>)
    requires n >= 1
    ensures var words := CodeWords(Repeat(n, cs));
            Repeated(bs, n) == Ok(Run(words + [VM.HALT], false)) <==> |words| < 128 && bs == AllBlocks(cs)
  {
    var words, got := CodeWords(Repeat(n, cs)), Flatten(Copies(bs, n));
    assert [] + got == got;
    if Repeated(bs, n) == Ok(Run(words + [VM.HALT], false)) {
      assert got + [VM.HALT] == words + [VM.HALT];
      assert got == (got + [VM.HALT])[..|got|] && words == (words + [VM.HALT])[..|words|];
      FlattenInjective(Copies(bs, n), Copies(AllBlocks(cs), n));
      CopiesInjective(bs, AllBlocks(cs), n);
    }
  }

  /** The prompt compiles the statements to the blocks of their code. */
  predicate ScansAs(sc: Scope, ss: seq<Stmt>, cs: seq<Code>)
    requires AreStmts(ss)
  {
    var r := ScanAll(sc, ss, 0);
    r.Ok? && r.value.blocks == AllBlocks(cs)
  }

  /** What a loop of these statements should return: its first error, or the program of its code if that fits. */
  function MeantBy(sc: Scope, c: Expr, ss: seq<Stmt>): Result<Outcome, ParseError>
    requires IsStmt(LoopStmt(c, ss)) && |sc.fns| == |sc.codes|
  {
    match Elaborate(sc, LoopStmt(c, ss), 0)
    case Err(x) => Err(x)
    case Ok(code) => Halted(CodeWords(code))
  }

  /** What the prompt scans does not fit, or leaves no room for the halt. */
  predicate Overflows(sc: Scope, n: nat, ss: seq<Stmt>)
    requires AreStmts(ss)
  {
    match ScanAll(sc, ss, 0)
    case Err(x) => x == StreamFull
    case Ok(x) => |Flatten(Copies(x.blocks, n))| >= 128
  }

  /** The prompt reports the error x. */
  predicate Reports(sc: Scope, c: Expr, ss: seq<Stmt>, x: ParseError)
    requires IsStmt(LoopStmt(c, ss))
  {
    match CountOf(sc, c)
    case Err(y) => y == x
    case Ok(n) => ScanAll(sc, ss, 0) == Err(x) || (x == StreamFull && Overflows(sc, n, ss))
  }

  /**
    Any body whatever.  If the source has a program, the prompt returns it
    exactly when it scans the blocks of the code; if the source is an error, the
    prompt reports that error exactly when its scan meets it.
   */
  lemma LoopMeans(sc: Scope, c: Expr, ss: seq<Stmt>)
    requires |sc.fns| == |sc.codes| && IsStmt(LoopStmt(c, ss))
    ensures var source := Elaborate(sc, LoopStmt(c, ss), 0);
            PromptLoop(sc, c, ss) == MeantBy(sc, c, ss) <==>
            if source.Err? then Reports(sc, c, ss, source.error)
            else if |CodeWords(source.value)| < 128 then ScansAs(sc, ss, source.value.body)
            else Reports(sc, c, ss, StreamFull)
  {
    var source := Elaborate(sc, LoopStmt(c, ss), 0);
    ReportsIs(sc, c, ss, if source.Err? then source.error else StreamFull);
    if source.Ok? && ScanAll(sc, ss, 0).Ok? {
      SameProgram(ScanAll(sc, ss, 0).value.blocks, source.value.count, source.value.body);
    }
  }

  lemma ReportsIs(sc: Scope, c: Expr, ss: seq<Stmt>, x: ParseError)
    requires IsStmt(LoopStmt(c, ss))
    ensures PromptLoop(sc, c, ss) == Err(x) <==> Reports(sc, c, ss, x)
  {
    if CountOf(sc, c).Ok? && ScanAll(sc, ss, 0).Ok? {
      RepeatedFails(ScanAll(sc, ss, 0).value.blocks, CountOf(sc, c).value);
    }
  }

  lemma RepeatedFails(bs: seq<Block>, n: nat)
    ensures Repeated(bs, n).Err? <==> |Flatten(Copies(bs, n))| >= 128
    ensures Repeated(bs, n).Err? ==> Repeated(bs, n) == Err(StreamFull)
  {
    assert [] + Flatten(Copies(bs, n)) == Flatten(Copies(bs, n));
  }

  /** No `poke` or `peek` among the tokens the prompt would skip. */
  predicate Quiet(ss: seq<Stmt>)
    decreases ss, 0
  {
    ss == [] ||
    (match ss[0]
     case BareStmt(e) => StrayOf(e).NoStray? && Quiet(ss[1..])
     case LoopStmt(c, body) => StrayOf(c).NoStray? && Quiet(body)
     case _ => Quiet(ss[1..]))
  }

  /** All that the prompt drops is empty: calls, further rounds of an inner loop, and what follows that loop. */
  predicate NothingLost(ss: seq<Stmt>, cs: seq<Code>)
    decreases ss, 0
  {
    ss == [] || cs == [] ||
    (match ss[0]
     case CallStmt(_) => Blocks(cs[0]) == [] && NothingLost(ss[1..], cs[1..])
     case LoopStmt(_, body) =>
       && AllBlocks(cs[1..]) == []
       && (cs[0].Repeat? ==> AllBlocks(cs[0].body) == [] || (cs[0].count == 1 && NothingLost(body, cs[0].body)))
     case _ => NothingLost(ss[1..], cs[1..]))
  }

  /** The prompt keeps the blocks of the code, or drops some. */
  ghost predicate Keeps(r: Result<Scanned, ParseError>, bs: seq<Block>, all: bool) {
    r.Ok? && (if all then r.value.blocks == bs else |Flatten(r.value.blocks)| < |Flatten(bs)|)
  }

  lemma ConsElaborated(sc: Scope, ss: seq<Stmt>, used: nat, cs: seq<Code>) returns (c: Code, rest: seq<Code>)
    requires AreStmts(ss) && ss != [] && |sc.fns| == |sc.codes| && ElaborateAll(sc, ss, used) == Ok(cs)
    ensures Elaborate(sc, ss[0], used) == Ok(c) && ElaborateAll(sc, ss[1..], used + |CodeWords(c)|) == Ok(rest)
    ensures cs != [] && cs[0] == c && cs[1..] == rest && AllBlocks(cs) == Blocks(c) + AllBlocks(rest)
  {
    c := Elaborate(sc, ss[0], used).value;
    rest := ElaborateAll(sc, ss[1..], used + |CodeWords(c)|).value;
    assert cs == [c] + rest;
  }

  /** A quiet body keeps everything, or loses some block. */
  lemma {:induction false} QuietScan(sc: Scope, ss: seq<Stmt>, used: nat, low: nat, cs: seq<Code>)
    requires AreStmts(ss) && Quiet(ss) && |sc.fns| == |sc.codes| && low <= used
    requires ElaborateAll(sc, ss, used) == Ok(cs)
    ensures Keeps(ScanAll(sc, ss, low), AllBlocks(cs), NothingLost(ss, cs))
    decreases ss, 1
  {
    if ss != [] {
      if ss[0].LoopStmt? {
        QuietLoop(sc, ss, used, low, cs);
      } else {
        QuietNext(sc, ss, used, low, cs);
      }
    }
  }

  lemma {:induction false} QuietNext(sc: Scope, ss: seq<Stmt>, used: nat, low: nat, cs: seq<Code>)
    requires AreStmts(ss) && Quiet(ss) && |sc.fns| == |sc.codes| && low <= used
    requires ElaborateAll(sc, ss, used) == Ok(cs) && ss != [] && !ss[0].LoopStmt?
    ensures Keeps(ScanAll(sc, ss, low), AllBlocks(cs), NothingLost(ss, cs))
    decreases ss, 0
  {
    var c, rest := ConsElaborated(sc, ss, used, cs);
    var xs := if ss[0].CallStmt? then [] else Blocks(c);
    KeptWords(ss[0], c, xs);
    QuietCons(ss);
    QuietScan(sc, ss[1..], used + |CodeWords(c)|, low + |Flatten(xs)|, rest);
    QuietFirst(sc, ss[0], used, low, c);
    QuietStep(sc, ss, low, cs, xs);
  }

  lemma KeptWords(s: Stmt, c: Code, xs: seq<Block>)
    requires xs == if s.CallStmt? then [] else Blocks(c)
    ensures |Flatten(xs)| <= |CodeWords(c)|
  {
    assert Flatten([]) == [];
  }

  lemma QuietCons(ss: seq<Stmt>)
    requires ss != [] && Quiet(ss) && !ss[0].LoopStmt?
    ensures Quiet(ss[1..]) && (ss[0].BareStmt? ==> StrayOf(ss[0].e).NoStray?)
  {
  }

  lemma NothingLostCons(ss: seq<Stmt>, cs: seq<Code>, xs: seq<Block>)
    requires ss != [] && cs != [] && !ss[0].LoopStmt? && xs == if ss[0].CallStmt? then [] else Blocks(cs[0])
    ensures NothingLost(ss, cs) == (xs == Blocks(cs[0]) && NothingLost(ss[1..], cs[1..]))
  {
  }

  lemma QuietStep(sc: Scope, ss: seq<Stmt>, low: nat, cs: seq<Code>, xs: seq<Block>)
    requires AreStmts(ss) && ss != [] && !ss[0].LoopStmt? && cs != []
    requires xs == if ss[0].CallStmt? then [] else Blocks(cs[0])
    requires ScanStmt(sc, ss[0], low) == Ok(Scanned(xs, false))
    requires Keeps(ScanAll(sc, ss[1..], low + |Flatten(xs)|), AllBlocks(cs[1..]), NothingLost(ss[1..], cs[1..]))
    ensures Keeps(ScanAll(sc, ss, low), Blocks(cs[0]) + AllBlocks(cs[1..]), NothingLost(ss, cs))
  {
    var rs := ScanAll(sc, ss[1..], low + |Flatten(xs)|);
    JoinKeeps(xs, rs, Blocks(cs[0]), AllBlocks(cs[1..]), NothingLost(ss[1..], cs[1..]));
    ScanCons(sc, ss, low, xs);
    NothingLostCons(ss, cs, xs);
  }

  /** A quiet statement that is no loop: a call is dropped, anything else kept. */
  lemma QuietFirst(sc: Scope, s: Stmt, used: nat, low: nat, c: Code)
    requires IsStmt(s) && !s.LoopStmt? && (s.BareStmt? ==> StrayOf(s.e).NoStray?)
    requires |sc.fns| == |sc.codes| && low <= used
    requires Elaborate(sc, s, used) == Ok(c)
    ensures ScanStmt(sc, s, low) == Ok(Scanned(if s.CallStmt? then [] else Blocks(c), false))
  {
  }

  lemma JoinKeeps(xs: seq<Block>, r: Result<Scanned, ParseError>, first: seq<Block>, rest: seq<Block>, all: bool)
    requires Keeps(r, rest, all) && (xs == first || xs == [])
    ensures Keeps(Join(xs, r), first + rest, xs == first && all)
  {
    FlattenConcat(xs, r.value.blocks);
    FlattenConcat(first, rest);
    PeeksFit(first);
    assert Flatten([]) == [];
  }

  lemma {:induction false} QuietLoop(sc: Scope, ss: seq<Stmt>, used: nat, low: nat, cs: seq<Code>)
    requires AreStmts(ss) && Quiet(ss) && |sc.fns| == |sc.codes| && low <= used
    requires ElaborateAll(sc, ss, used) == Ok(cs) && ss != [] && ss[0].LoopStmt?
    ensures Keeps(ScanAll(sc, ss, low), AllBlocks(cs), NothingLost(ss, cs))
    decreases ss, 0
  {
    var c, rest := ConsElaborated(sc, ss, used, cs);
    var body := ss[0].body;
    var inner := AllBlocks(c.body);
    QuietScan(sc, body, used, low, c.body);
    var got := ScanAll(sc, body, low).value.blocks;
    assert ScanAll(sc, ss, low).Ok? && ScanAll(sc, ss, low).value.blocks == got;
    RoundsLost(got, inner, c.count, AllBlocks(rest), NothingLost(body, c.body));
  }

  /** Words of repeated blocks. */
  lemma CopiesWords(bs: seq<Block>, n: nat)
    ensures |Flatten(Copies(bs, n))| == n * |Flatten(bs)|
  {
    FlattenCopies(bs, n);
    CopiesLength(Flatten(bs), n);
  }

  lemma RoundsLost(got: seq<Block>, inner: seq<Block>, n: nat, rest: seq<Block>, all: bool)
    requires n >= 1 && (if all then got == inner else |Flatten(got)| < |Flatten(inner)|)
    ensures var kept := rest == [] && (inner == [] || (n == 1 && all));
            if kept then got == Copies(inner, n) + rest
            else |Flatten(got)| < |Flatten(Copies(inner, n) + rest)|
  {
    FlattenConcat(Copies(inner, n), rest);
    CopiesWords(inner, n);
    NoWords(rest);
    NoWords(inner);
    if rest == [] && (inner == [] || (n == 1 && all)) {
      RoundsKept(got, inner, n);
    } else {
      FewerInAll(|Flatten(got)|, |Flatten(inner)|, n, |Flatten(rest)|);
    }
  }

  lemma NoWords(bs: seq<Block>)
    ensures Flatten(bs) == [] <==> bs == []
  {
    PeeksFit(bs);
  }

  lemma RoundsKept(got: seq<Block>, inner: seq<Block>, n: nat)
    requires got == inner && (inner == [] || n == 1)
    ensures got == Copies(inner, n) + []
  {
    CopiesLength(inner, n);
    if n == 1 {
      assert Copies(inner, 1) == inner + Copies(inner, 0);
    }
  }

  lemma FewerInAll(got: nat, inner: nat, n: nat, rest: nat)
    requires n >= 1 && got <= inner && (rest > 0 || (inner > 0 && (n > 1 || got < inner)))
    ensures got < n * inner + rest
  {
    if n > 1 {
      TimesGrows(inner, 1, n);
      assert n * inner == inner * n;
    }
  }

  // ---------------------------------------------------------------------
  // What the prompt keeps of a body
  // ---------------------------------------------------------------------

  /** Pokes and peeks up to the first inner loop, and then what is kept of that loop. */
  function Kept(ss: seq<Stmt>): seq<Stmt>
    decreases ss, 0
  {
    if ss == [] then []
    else
      match ss[0]
      case PokeStmt(_, _) => [ss[0]] + Kept(ss[1..])
      case PeekStmt(_) => [ss[0]] + Kept(ss[1..])
      case LoopStmt(_, body) => Kept(body)
      case _ => Kept(ss[1..])
  }

  lemma {:induction false} KeptAreStmts(ss: seq<Stmt>)
    requires AreStmts(ss)
    ensures AreStmts(Kept(ss))
    decreases ss, 0
  {
    if ss != [] {
      if ss[0].LoopStmt? {
        KeptAreStmts(ss[0].body);
      } else {
        KeptAreStmts(ss[1..]);
        assert ([ss[0]] + Kept(ss[1..]))[1..] == Kept(ss[1..]);
      }
    }
  }

  /** A scan and an elaboration with the same blocks or the same error. */
  ghost predicate SameBlocks(r: Result<Scanned, ParseError>, e: Result<seq<Code>, ParseError>) {
    match e
    case Err(x) => r == Err(x)
    case Ok(cs) => r.Ok? && r.value.blocks == AllBlocks(cs)
  }

  lemma SameBlocksCons(c: Code, r: Result<Scanned, ParseError>, e: Result<seq<Code>, ParseError>)
    requires SameBlocks(r, e)
    ensures SameBlocks(Join(Blocks(c), r), Cons(c, e))
  {
    if e.Ok? {
      assert ([c] + e.value)[1..] == e.value;
    }
  }

  /** A quiet body is scanned exactly as what is kept of it elaborates, errors included. */
  lemma {:induction false} KeptScan(sc: Scope, ss: seq<Stmt>, used: nat)
    requires AreStmts(ss) && Quiet(ss) && |sc.fns| == |sc.codes|
    ensures AreStmts(Kept(ss)) && SameBlocks(ScanAll(sc, ss, used), ElaborateAll(sc, Kept(ss), used))
    decreases ss, 1
  {
    KeptAreStmts(ss);
    if ss != [] {
      if ss[0].LoopStmt? {
        KeptScan(sc, ss[0].body, used);
        ScanStops(sc, ss, used);
      } else if ss[0].PokeStmt? || ss[0].PeekStmt? {
        KeptMemory(sc, ss, used);
      } else {
        KeptSkip(sc, ss, used);
      }
    }
  }

  lemma {:induction false} KeptMemory(sc: Scope, ss: seq<Stmt>, used: nat)
    requires AreStmts(ss) && Quiet(ss) && |sc.fns| == |sc.codes| && ss != [] && (ss[0].PokeStmt? || ss[0].PeekStmt?)
    ensures AreStmts(Kept(ss)) && SameBlocks(ScanAll(sc, ss, used), ElaborateAll(sc, Kept(ss), used))
    decreases ss, 0
  {
    var ks := Kept(ss);
    KeptAreStmts(ss);
    QuietCons(ss);
    assert ks[0] == ss[0] && ks[1..] == Kept(ss[1..]);
    var e := Elaborate(sc, ss[0], used);
    MemoryScan(sc, ss[0], used);
    if e.Ok? {
      var next := used + |CodeWords(e.value)|;
      KeptScan(sc, ss[1..], next);
      KeptStep(sc, ss, ks, used, e.value);
    } else {
      ScanStops(sc, ss, used);
      ElaborateStops(sc, ks, used);
    }
  }

  lemma KeptStep(sc: Scope, ss: seq<Stmt>, ks: seq<Stmt>, used: nat, c: Code)
    requires AreStmts(ss) && AreStmts(ks) && |sc.fns| == |sc.codes| && ss != [] && ks != []
    requires ScanStmt(sc, ss[0], used) == Ok(Scanned(Blocks(c), false)) && Elaborate(sc, ks[0], used) == Ok(c)
    requires var next := used + |CodeWords(c)|;
             SameBlocks(ScanAll(sc, ss[1..], next), ElaborateAll(sc, ks[1..], next))
    ensures SameBlocks(ScanAll(sc, ss, used), ElaborateAll(sc, ks, used))
  {
    var rs := ScanTail(sc, ss, used, c);
    var es := ElaborateTail(sc, ks, used, c);
    SameBlocksCons(c, rs, es);
  }

  lemma ScanTail(sc: Scope, ss: seq<Stmt>, low: nat, c: Code) returns (rs: Result<Scanned, ParseError>)
    requires AreStmts(ss) && ss != [] && ScanStmt(sc, ss[0], low) == Ok(Scanned(Blocks(c), false))
    ensures rs == ScanAll(sc, ss[1..], low + |CodeWords(c)|) && ScanAll(sc, ss, low) == Join(Blocks(c), rs)
  {
    ScanCons(sc, ss, low, Blocks(c));
    rs := ScanAll(sc, ss[1..], low + |CodeWords(c)|);
  }

  lemma MemoryScan(sc: Scope, s: Stmt, used: nat)
    requires IsStmt(s) && |sc.fns| == |sc.codes| && (s.PokeStmt? || s.PeekStmt?)
    ensures ScanStmt(sc, s, used) == Emits(Elaborate(sc, s, used))
  {
  }

  lemma ElaborateStops(sc: Scope, ss: seq<Stmt>, used: nat)
    requires AreStmts(ss) && ss != [] && |sc.fns| == |sc.codes| && Elaborate(sc, ss[0], used).Err?
    ensures ElaborateAll(sc, ss, used) == Err(Elaborate(sc, ss[0], used).error)
  {
  }

  lemma {:induction false} KeptSkip(sc: Scope, ss: seq<Stmt>, used: nat)
    requires AreStmts(ss) && Quiet(ss) && |sc.fns| == |sc.codes| && ss != [] && (ss[0].CallStmt? || ss[0].BareStmt?)
    ensures AreStmts(Kept(ss)) && SameBlocks(ScanAll(sc, ss, used), ElaborateAll(sc, Kept(ss), used))
    decreases ss, 0
  {
    QuietCons(ss);
    KeptScan(sc, ss[1..], used);
    assert Flatten([]) == [];
    ScanCons(sc, ss, used, []);
    var r := ScanAll(sc, ss[1..], used);
    assert r.Ok? ==> [] + r.value.blocks == r.value.blocks;
  }

  /** At the prompt a quiet body stands for what is kept of it. */
  lemma KeptLoop(sc: Scope, c: Expr, ss: seq<Stmt>)
    requires |sc.fns| == |sc.codes| && IsStmt(LoopStmt(c, ss)) && Quiet(ss)
    ensures AreStmts(Kept(ss)) && PromptLoop(sc, c, ss) == MeantBy(sc, c, Kept(ss))
  {
    KeptScan(sc, ss, 0);
    var e := ElaborateAll(sc, Kept(ss), 0);
    if CountOf(sc, c).Ok? && e.Ok? {
      var words := CodeWords(Repeat(CountOf(sc, c).value, e.value));
      assert [] + words == words;
    }
  }

  /** From text: a loop typed at the prompt, its body quiet, is answered as the loop of what is kept of it. */
  lemma KeptLoopAnswer(hash: Hash, t: Tables, m: map<Name, Word>, codes: seq<seq<Code>>, srcs: seq<Origin>,
                       c: Expr, ss: seq<Stmt>, mc: Machine)
    requires Inv(hash, t, m, codes, srcs) && IsStmt(LoopStmt(c, ss)) && SpelledStmt(LoopStmt(c, ss)) && Quiet(ss)
    ensures AllPrintable(StmtTokens(LoopStmt(c, ss))) && AreStmts(Kept(ss))
    ensures Answer(hash, t, Entry(Render(StmtTokens(LoopStmt(c, ss))), mc.peek, mc.bits)) ==
            (MeantBy(Scope(m, mc.peek, mc.bits, t.fns, codes), c, Kept(ss)), t)
  {
    PromptLoopAnswer(hash, t, m, codes, srcs, c, ss, mc);
    KeptLoop(Scope(m, mc.peek, mc.bits, t.fns, codes), c, ss);
  }

  /**
    When a loop typed at the prompt is answered as its source means, for every
    body that has no `poke` or `peek` in an expression or count.  If the source
    has a program: exactly when all that the prompt drops is empty.  If the
    source is an error: exactly when what is kept of it is that error.
   */
  lemma PromptLoopMeans(hash: Hash, t: Tables, m: map<Name, Word>, codes: seq<seq<Code>>, srcs: seq<Origin>,
                        c: Expr, ss: seq<Stmt>, mc: Machine)
    requires Inv(hash, t, m, codes, srcs) && IsStmt(LoopStmt(c, ss)) && SpelledStmt(LoopStmt(c, ss)) && Quiet(ss)
    ensures AllPrintable(StmtTokens(LoopStmt(c, ss))) && AreStmts(Kept(ss))
    ensures var sc := Scope(m, mc.peek, mc.bits, t.fns, codes);
            var source := Elaborate(sc, LoopStmt(c, ss), 0);
            var r := Answer(hash, t, Entry(Render(StmtTokens(LoopStmt(c, ss))), mc.peek, mc.bits));
            r == (MeantBy(sc, c, ss), t) <==>
            if source.Ok? then NothingLost(ss, source.value.body) else MeantBy(sc, c, Kept(ss)) == Err(source.error)
  {
    PromptLoopAnswer(hash, t, m, codes, srcs, c, ss, mc);
    QuietLoopMeans(Scope(m, mc.peek, mc.bits, t.fns, codes), c, ss);
  }

  lemma QuietLoopMeans(sc: Scope, c: Expr, ss: seq<Stmt>)
    requires |sc.fns| == |sc.codes| && IsStmt(LoopStmt(c, ss)) && Quiet(ss)
    ensures AreStmts(Kept(ss))
    ensures var source := Elaborate(sc, LoopStmt(c, ss), 0);
            PromptLoop(sc, c, ss) == MeantBy(sc, c, ss) <==>
            if source.Ok? then NothingLost(ss, source.value.body) else MeantBy(sc, c, Kept(ss)) == Err(source.error)
  {
    KeptLoop(sc, c, ss);
    var source := Elaborate(sc, LoopStmt(c, ss), 0);
    if source.Ok? {
      var n, cs := source.value.count, source.value.body;
      LoopBody(sc, c, ss, 0, n, cs);
      QuietScan(sc, ss, 0, 0, cs);
      FewerWords(ScanAll(sc, ss, 0).value.blocks, n, cs, NothingLost(ss, cs));
    }
  }

  /** The same blocks give the source's program, fewer words another one. */
  lemma FewerWords(bs: seq<Block>, n: nat, cs: seq<Code>, all: bool)
    requires n >= 1 && |CodeWords(Repeat(n, cs))| <= 128
    requires if all then bs == AllBlocks(cs) else |Flatten(bs)| < |Flatten(AllBlocks(cs))|
    ensures Repeated(bs, n) == Halted(CodeWords(Repeat(n, cs))) <==> all
  {
    var got, words := Flatten(Copies(bs, n)), CodeWords(Repeat(n, cs));
    assert [] + got == got;
    CopiesWords(bs, n);
    CopiesWords(AllBlocks(cs), n);
    if !all {
      TimesGrows(n, |Flatten(bs)|, |Flatten(AllBlocks(cs))|);
      assert |got + [VM.HALT]| < |words + [VM.HALT]|;
    }
  }

  lemma LoopBody(sc: Scope, c: Expr, ss: seq<Stmt>, used: nat, n: nat, cs: seq<Code>)
    requires |sc.fns| == |sc.codes| && IsStmt(LoopStmt(c, ss))
    requires Elaborate(sc, LoopStmt(c, ss), used) == Ok(Repeat(n, cs))
    ensures CountOf(sc, c) == Ok(n) && ElaborateAll(sc, ss, used) == Ok(cs)
  {
  }

  // ---------------------------------------------------------------------
  // Three kinds of body
  // ---------------------------------------------------------------------

  /** Pokes, peeks and calls. */
  predicate IsPlain(ss: seq<Stmt>) {
    forall s :: s in ss ==> s.PokeStmt? || s.PeekStmt? || s.CallStmt?
  }

  /** Every call in the body is of a function without words. */
  predicate CallsAreEmpty(ss: seq<Stmt>, cs: seq<Code>)
    requires |ss| == |cs|
  {
    forall i :: 0 <= i < |ss| && ss[i].CallStmt? ==> Blocks(cs[i]) == []
  }

  lemma {:induction false} ElaboratedLength(sc: Scope, ss: seq<Stmt>, used: nat, cs: seq<Code>)
    requires AreStmts(ss) && |sc.fns| == |sc.codes| && ElaborateAll(sc, ss, used) == Ok(cs)
    ensures |ss| == |cs|
    decreases |ss|
  {
    if ss != [] {
      var c, rest := ConsElaborated(sc, ss, used, cs);
      ElaboratedLength(sc, ss[1..], used + |CodeWords(c)|, rest);
    }
  }

  lemma {:induction false} PlainLost(ss: seq<Stmt>, cs: seq<Code>)
    requires IsPlain(ss) && |ss| == |cs|
    ensures Quiet(ss) && (NothingLost(ss, cs) <==> CallsAreEmpty(ss, cs))
    decreases |ss|
  {
    if ss != [] {
      assert ss[0] in ss;
      PlainLost(ss[1..], cs[1..]);
      if CallsAreEmpty(ss[1..], cs[1..]) && (ss[0].CallStmt? ==> Blocks(cs[0]) == []) {
        forall i | 0 <= i < |ss| && ss[i].CallStmt? ensures Blocks(cs[i]) == [] {
          assert i > 0 ==> ss[i] == ss[1..][i - 1] && cs[i] == cs[1..][i - 1];
        }
      }
      if CallsAreEmpty(ss, cs) {
        forall i | 0 <= i < |ss| - 1 && ss[1..][i].CallStmt? ensures Blocks(cs[1..][i]) == [] {
          assert ss[i + 1] == ss[1..][i];
        }
      }
    }
  }

  lemma {:induction false} PlainQuiet(ss: seq<Stmt>)
    requires IsPlain(ss)
    ensures Quiet(ss)
    decreases |ss|
  {
    if ss != [] {
      assert ss[0] in ss;
      PlainQuiet(ss[1..]);
    }
  }

  /**
    A body of pokes, peeks and calls: a source with a program is answered as
    meant exactly when every function it calls is empty.
   */
  lemma PlainLoopMeans(sc: Scope, c: Expr, ss: seq<Stmt>)
    requires |sc.fns| == |sc.codes| && IsStmt(LoopStmt(c, ss)) && IsPlain(ss)
    ensures AreStmts(Kept(ss))
    ensures var source := Elaborate(sc, LoopStmt(c, ss), 0);
            && (source.Ok? ==> |ss| == |source.value.body|)
            && (PromptLoop(sc, c, ss) == MeantBy(sc, c, ss) <==>
                if source.Ok? then CallsAreEmpty(ss, source.value.body)
                else MeantBy(sc, c, Kept(ss)) == Err(source.error))
  {
    PlainQuiet(ss);
    QuietLoopMeans(sc, c, ss);
    var source := Elaborate(sc, LoopStmt(c, ss), 0);
    if source.Ok? {
      LoopBody(sc, c, ss, 0, source.value.count, source.value.body);
      ElaboratedLength(sc, ss, 0, source.value.body);
      PlainLost(ss, source.value.body);
    }
  }

  /** Only pokes and peeks. */
  predicate IsFlat(ss: seq<Stmt>) {
    forall s :: s in ss ==> s.PokeStmt? || s.PeekStmt?
  }

  lemma {:induction false} FlatPrefix(pre: seq<Stmt>, more: seq<Stmt>, cs: seq<Code>)
    requires IsFlat(pre) && |pre| <= |cs|
    ensures Quiet(pre + more) == Quiet(more) && NothingLost(pre + more, cs) == NothingLost(more, cs[|pre|..])
    decreases |pre|
  {
    if pre == [] {
      assert pre + more == more && cs[0..] == cs;
    } else {
      assert pre[0] in pre && (pre + more)[0] == pre[0] && (pre + more)[1..] == pre[1..] + more;
      FlatPrefix(pre[1..], more, cs[1..]);
      assert cs[1..][|pre| - 1..] == cs[|pre|..];
    }
  }

  lemma {:induction false} ElaboratedFrom(sc: Scope, pre: seq<Stmt>, more: seq<Stmt>, used: nat, cs: seq<Code>)
    returns (at: nat)
    requires AreStmts(pre + more) && |sc.fns| == |sc.codes| && ElaborateAll(sc, pre + more, used) == Ok(cs)
    ensures AreStmts(more) && |pre| <= |cs| && ElaborateAll(sc, more, at) == Ok(cs[|pre|..])
    decreases |pre|
  {
    if pre == [] {
      assert pre + more == more && cs[0..] == cs;
      at := used;
    } else {
      assert (pre + more)[1..] == pre[1..] + more;
      var c, rest := ConsElaborated(sc, pre + more, used, cs);
      at := ElaboratedFrom(sc, pre[1..], more, used + |CodeWords(c)|, rest);
      assert rest[|pre| - 1..] == cs[|pre|..];
    }
  }

  /** Flat code has a block for every statement, and the prompt keeps them all. */
  lemma {:induction false} FlatBlocks(sc: Scope, ss: seq<Stmt>, used: nat, cs: seq<Code>)
    requires AreStmts(ss) && IsFlat(ss) && |sc.fns| == |sc.codes| && ElaborateAll(sc, ss, used) == Ok(cs)
    ensures |AllBlocks(cs)| == |ss| && NothingLost(ss, cs) && Quiet(ss)
    decreases |ss|
  {
    if ss != [] {
      assert ss[0] in ss;
      var c, rest := ConsElaborated(sc, ss, used, cs);
      assert |Blocks(c)| == 1;
      FlatBlocks(sc, ss[1..], used + |CodeWords(c)|, rest);
    }
  }

  lemma {:induction false} FlatKept(pre: seq<Stmt>, more: seq<Stmt>)
    requires IsFlat(pre)
    ensures Kept(pre + more) == pre + Kept(more) && Quiet(pre + more) == Quiet(more)
    decreases |pre|
  {
    if pre == [] {
      assert pre + more == more && pre + Kept(more) == Kept(more);
    } else {
      assert pre[0] in pre && (pre + more)[0] == pre[0] && (pre + more)[1..] == pre[1..] + more;
      FlatKept(pre[1..], more);
      assert [pre[0]] + (pre[1..] + Kept(more)) == pre + Kept(more);
    }
  }

  lemma NestedKept(pre: seq<Stmt>, c: Expr, inner: seq<Stmt>, post: seq<Stmt>)
    requires IsFlat(pre) && IsFlat(inner) && StrayOf(c).NoStray?
    ensures var ss := pre + ([LoopStmt(c, inner)] + post); Kept(ss) == pre + inner && Quiet(ss)
  {
    var more := [LoopStmt(c, inner)] + post;
    FlatKept(pre, more);
    FlatKept(inner, []);
    assert inner + [] == inner;
    assert more[0] == LoopStmt(c, inner);
  }

  /**
    A body with an inner loop between flat statements and anything at all: a
    source with a program is answered as meant exactly when the inner loop runs
    once or is empty, and nothing that follows it has words; a source that is an
    error, exactly when the flat statements alone are that error.
   */
  lemma NestedPromptLoop(sc: Scope, c: Expr, pre: seq<Stmt>, k: Word, inner: seq<Stmt>, post: seq<Stmt>)
    requires |sc.fns| == |sc.codes| && IsFlat(pre) && IsFlat(inner)
    requires IsStmt(LoopStmt(c, pre + ([LoopStmt(Lit(k), inner)] + post)))
    ensures var ss := pre + ([LoopStmt(Lit(k), inner)] + post);
            var source := Elaborate(sc, LoopStmt(c, ss), 0);
            && AreStmts(pre + inner)
            && (source.Ok? ==> |pre| < |source.value.body|)
            && (PromptLoop(sc, c, ss) == MeantBy(sc, c, ss) <==>
                if source.Ok? then (k == 1 || inner == []) && AllBlocks(source.value.body[|pre| + 1..]) == []
                else MeantBy(sc, c, pre + inner) == Err(source.error))
  {
    var more := [LoopStmt(Lit(k), inner)] + post;
    NestedKept(pre, Lit(k), inner, post);
    QuietLoopMeans(sc, c, pre + more);
    var source := Elaborate(sc, LoopStmt(c, pre + more), 0);
    if source.Ok? {
      NestedLost(sc, c, pre, k, inner, post, source.value.count, source.value.body);
    }
  }

  lemma NestedLost(sc: Scope, c: Expr, pre: seq<Stmt>, k: Word, inner: seq<Stmt>, post: seq<Stmt>,
                   n: nat, cs: seq<Code>)
    requires |sc.fns| == |sc.codes| && IsFlat(pre) && IsFlat(inner)
    requires IsStmt(LoopStmt(c, pre + ([LoopStmt(Lit(k), inner)] + post)))
    requires Elaborate(sc, LoopStmt(c, pre + ([LoopStmt(Lit(k), inner)] + post)), 0) == Ok(Repeat(n, cs))
    ensures |pre| < |cs|
    ensures NothingLost(pre + ([LoopStmt(Lit(k), inner)] + post), cs) <==>
            (k == 1 || inner == []) && AllBlocks(cs[|pre| + 1..]) == []
  {
    var more := [LoopStmt(Lit(k), inner)] + post;
    LoopBody(sc, c, pre + more, 0, n, cs);
    var at := ElaboratedFrom(sc, pre, more, 0, cs);
    FlatPrefix(pre, more, cs);
    InnerLost(sc, k, inner, post, at, cs[|pre|..]);
    assert cs[|pre|..][1..] == cs[|pre| + 1..];
  }

  lemma InnerLost(sc: Scope, k: Word, inner: seq<Stmt>, post: seq<Stmt>, used: nat, cs: seq<Code>)
    requires |sc.fns| == |sc.codes| && IsFlat(inner) && AreStmts([LoopStmt(Lit(k), inner)] + post)
    requires ElaborateAll(sc, [LoopStmt(Lit(k), inner)] + post, used) == Ok(cs)
    ensures cs != [] && Quiet([LoopStmt(Lit(k), inner)] + post)
    ensures NothingLost([LoopStmt(Lit(k), inner)] + post, cs) <==> (k == 1 || inner == []) && AllBlocks(cs[1..]) == []
  {
    var ss := [LoopStmt(Lit(k), inner)] + post;
    var c, rest := ConsElaborated(sc, ss, used, cs);
    assert ss[0] == LoopStmt(Lit(k), inner);
    LoopBody(sc, Lit(k), inner, used, c.count, c.body);
    FlatBlocks(sc, inner, used, c.body);
    assert c.count == k;
  }

  /** Pokes, peeks and expressions. */
  predicate IsStraight(ss: seq<Stmt>) {
    forall s :: s in ss ==> s.PokeStmt? || s.PeekStmt? || s.BareStmt?
  }

  /** Expressions with a `poke` or `peek` among their tokens. */
  function Strays(ss: seq<Stmt>): nat {
    if ss == [] then 0 else StrayIn(ss[0]) + Strays(ss[1..])
  }

  function StrayIn(s: Stmt): nat {
    if s.BareStmt? && !StrayOf(s.e).NoStray? then 1 else 0
  }

  /** A scan that succeeds yields `k` blocks too many. */
  ghost predicate Exceeds(r: Result<Scanned, ParseError>, bs: seq<Block>, k: nat) {
    r.Ok? ==> |r.value.blocks| == |bs| + k
  }

  /** A stray peek that does not fail is compiled, as a block the source does not have. */
  lemma StraightFirst(sc: Scope, s: Stmt, used: nat, low: nat, c: Code)
    requires IsStmt(s) && (s.PokeStmt? || s.PeekStmt? || s.BareStmt?) && |sc.fns| == |sc.codes|
    requires Elaborate(sc, s, used) == Ok(c)
    ensures var r := ScanStmt(sc, s, low); Exceeds(r, Blocks(c), StrayIn(s)) && (r.Ok? ==> Goes(r))
  {
  }

  lemma {:induction false} StraightScan(sc: Scope, ss: seq<Stmt>, used: nat, cs: seq<Code>)
    requires AreStmts(ss) && IsStraight(ss) && |sc.fns| == |sc.codes| && ElaborateAll(sc, ss, used) == Ok(cs)
    ensures forall low: nat :: Exceeds(ScanAll(sc, ss, low), AllBlocks(cs), Strays(ss))
    decreases |ss|
  {
    if ss != [] {
      var c, rest := ConsElaborated(sc, ss, used, cs);
      StraightTail(ss);
      StraightScan(sc, ss[1..], used + |CodeWords(c)|, rest);
      forall low: nat ensures Exceeds(ScanAll(sc, ss, low), AllBlocks(cs), Strays(ss)) {
        StraightCons(sc, ss, used, low, c, AllBlocks(rest));
      }
    }
  }

  lemma StraightCons(sc: Scope, ss: seq<Stmt>, used: nat, low: nat, c: Code, rest: seq<Block>)
    requires AreStmts(ss) && ss != [] && (ss[0].PokeStmt? || ss[0].PeekStmt? || ss[0].BareStmt?)
    requires |sc.fns| == |sc.codes| && Elaborate(sc, ss[0], used) == Ok(c)
    requires forall next: nat :: Exceeds(ScanAll(sc, ss[1..], next), rest, Strays(ss[1..]))
    ensures Exceeds(ScanAll(sc, ss, low), Blocks(c) + rest, Strays(ss))
  {
    var r := ScanStmt(sc, ss[0], low);
    StraightFirst(sc, ss[0], used, low, c);
    StraysCons(ss);
    if Goes(r) {
      var rs := ScanAll(sc, ss[1..], low + |Flatten(r.value.blocks)|);
      ScanCons(sc, ss, low, r.value.blocks);
      ExceedsJoin(r, rs, Blocks(c), StrayIn(ss[0]), rest, Strays(ss[1..]));
    } else {
      ScanStops(sc, ss, low);
    }
  }

  lemma ExceedsJoin(r: Result<Scanned, ParseError>, rs: Result<Scanned, ParseError>,
                    first: seq<Block>, j: nat, rest: seq<Block>, k: nat)
    requires r.Ok? && Exceeds(r, first, j) && Exceeds(rs, rest, k)
    ensures Exceeds(Join(r.value.blocks, rs), first + rest, j + k)
  {
  }

  lemma StraightTail(ss: seq<Stmt>)
    requires ss != [] && IsStraight(ss)
    ensures IsStraight(ss[1..]) && (ss[0].PokeStmt? || ss[0].PeekStmt? || ss[0].BareStmt?)
  {
    assert ss[0] in ss;
  }

  lemma StraysCons(ss: seq<Stmt>)
    requires ss != []
    ensures Strays(ss) == StrayIn(ss[0]) + Strays(ss[1..])
  {
  }

  lemma {:induction false} StraightQuiet(ss: seq<Stmt>, cs: seq<Code>)
    requires IsStraight(ss) && Strays(ss) == 0
    ensures Quiet(ss) && NothingLost(ss, cs)
    decreases |ss|
  {
    if ss != [] {
      assert ss[0] in ss;
      StraightQuiet(ss[1..], if cs == [] then [] else cs[1..]);
    }
  }

  /**
    A body of pokes, peeks and expressions: a source with a program is answered
    as meant exactly when no expression holds a `poke` or `peek`.
   */
  lemma StraightLoopMeans(sc: Scope, c: Expr, ss: seq<Stmt>)
    requires |sc.fns| == |sc.codes| && IsStmt(LoopStmt(c, ss)) && IsStraight(ss)
    ensures var source := Elaborate(sc, LoopStmt(c, ss), 0);
            PromptLoop(sc, c, ss) == MeantBy(sc, c, ss) <==>
            if source.Err? then Reports(sc, c, ss, source.error)
            else if |CodeWords(source.value)| < 128 then Strays(ss) == 0
            else Reports(sc, c, ss, StreamFull)
  {
    LoopMeans(sc, c, ss);
    var source := Elaborate(sc, LoopStmt(c, ss), 0);
    if source.Ok? {
      StraightScansAs(sc, c, ss, source.value.count, source.value.body);
    }
  }

  lemma StraightScansAs(sc: Scope, c: Expr, ss: seq<Stmt>, n: nat, cs: seq<Code>)
    requires |sc.fns| == |sc.codes| && IsStmt(LoopStmt(c, ss)) && IsStraight(ss)
    requires Elaborate(sc, LoopStmt(c, ss), 0) == Ok(Repeat(n, cs))
    ensures ScansAs(sc, ss, cs) <==> Strays(ss) == 0
  {
    LoopBody(sc, c, ss, 0, n, cs);
    if Strays(ss) == 0 {
      StraightQuiet(ss, cs);
      QuietScan(sc, ss, 0, 0, cs);
    } else {
      StraightScan(sc, ss, 0, cs);
    }
  }

  // ---------------------------------------------------------------------
  // Lines that go wrong
  // ---------------------------------------------------------------------

  /** poke 0x20000000 1; which every registry lets through */
  const POKE_RAM := PokeStmt(Lit(0x2000_0000), Lit(1))
  const RAM_BLOCK := Poke(0x2000_0000, 1)

  lemma OneStmt(sc: Scope, s: Stmt, c: Code, x: Scanned)
    requires |sc.fns| == |sc.codes| && IsStmt(s) && Elaborate(sc, s, 0) == Ok(c) && ScanStmt(sc, s, 0) == Ok(x)
    ensures AreStmts([s]) && ElaborateAll(sc, [s], 0) == Ok([c]) && ScanAll(sc, [s], 0) == Ok(x)
  {
    var one := [s];
    assert one[1..] == [] && x.blocks + [] == x.blocks && [c] + [] == [c];
    ElaborateCons(sc, one, 0, c);
    assert ElaborateAll(sc, one[1..], 0 + |CodeWords(c)|) == Ok([]);
  }

  lemma OneSpelled(s: Stmt)
    requires SpelledStmt(s)
    ensures SpelledAll([s])
  {
    assert [s][1..] == [];
  }

  lemma OneCode(c: Code)
    ensures AllBlocks([c]) == Blocks(c)
  {
    assert [c][1..] == [] && Blocks(c) + [] == Blocks(c);
  }

  lemma RamBody(sc: Scope)
    requires |sc.fns| == |sc.codes|
    ensures AreStmts([POKE_RAM]) && ElaborateAll(sc, [POKE_RAM], 0) == Ok([Memory(RAM_BLOCK)])
    ensures ScanAll(sc, [POKE_RAM], 0) == Ok(Scanned([RAM_BLOCK], false))
  {
    MemoryWords(RAM_BLOCK);
    assert IsStmt(POKE_RAM) && PokeBlock(sc, Lit(0x2000_0000), Lit(1)) == Ok(RAM_BLOCK);
    assert CheckAccess(sc.bits, 0x2000_0000);
    assert Elaborate(sc, POKE_RAM, 0) == Ok(Memory(RAM_BLOCK));
    OneStmt(sc, POKE_RAM, Memory(RAM_BLOCK), Scanned([RAM_BLOCK], false));
  }

  /** loop 3 { poke 0x20000000 1; } */
  const INNER := LoopStmt(Lit(3), [POKE_RAM])

  lemma InnerBody(sc: Scope)
    requires |sc.fns| == |sc.codes|
    ensures AreStmts([INNER]) && ElaborateAll(sc, [INNER], 0) == Ok([Repeat(3, [Memory(RAM_BLOCK)])])
    ensures ScanAll(sc, [INNER], 0) == Ok(Scanned([RAM_BLOCK], true))
  {
    var body := [Memory(RAM_BLOCK)];
    RamBody(sc);
    RamWords(3);
    OneCode(Memory(RAM_BLOCK));
    assert IsStmt(INNER) && CountOf(sc, Lit(3)) == Ok(3);
    assert Elaborate(sc, INNER, 0) == Ok(Repeat(3, body));
    OneStmt(sc, INNER, Repeat(3, body), Scanned([RAM_BLOCK], true));
  }

  lemma RamWords(n: nat)
    ensures |Flatten(Copies([RAM_BLOCK], n))| == 5 * n
  {
    MemoryWords(RAM_BLOCK);
    FlattenCopies([RAM_BLOCK], n);
    CopiesLength(Flatten([RAM_BLOCK]), n);
  }

  lemma OuterLoop(sc: Scope)
    requires |sc.fns| == |sc.codes|
    ensures IsStmt(LoopStmt(Lit(2), [INNER])) && SpelledStmt(LoopStmt(Lit(2), [INNER]))
    ensures Elaborate(sc, LoopStmt(Lit(2), [INNER]), 0) == Ok(Repeat(2, [Repeat(3, [Memory(RAM_BLOCK)])]))
    ensures PromptLoop(sc, Lit(2), [INNER]) == Repeated([RAM_BLOCK], 2)
  {
    InnerBody(sc);
    SixPokes();
    assert CountOf(sc, Lit(2)) == Ok(2);
    OneSpelled(POKE_RAM);
    OneSpelled(INNER);
  }

  /**
    loop 2 { loop 3 { poke 0x20000000 1; } } is accepted at the prompt and pokes
    twice; its source means six pokes.
   */
  lemma NestedLineLoses(hash: Hash, t: Tables, m: map<Name, Word>, codes: seq<seq<Code>>, srcs: seq<Origin>,
                        mc: Machine)
    requires Inv(hash, t, m, codes, srcs)
    ensures var line := LoopStmt(Lit(2), [INNER]);
            var sc := Scope(m, mc.peek, mc.bits, t.fns, codes);
            && IsStmt(line) && AllPrintable(StmtTokens(line))
            && Answer(hash, t, Entry(Render(StmtTokens(line)), mc.peek, mc.bits)).0 ==
               Ok(Run(Flatten([RAM_BLOCK, RAM_BLOCK]) + [VM.HALT], false))
            && Elaborate(sc, line, 0) == Ok(Repeat(2, [Repeat(3, [Memory(RAM_BLOCK)])]))
            && |CodeWords(Repeat(2, [Repeat(3, [Memory(RAM_BLOCK)])]))| == 30
  {
    OuterLoop(Scope(m, mc.peek, mc.bits, t.fns, codes));
    PromptLoopAnswer(hash, t, m, codes, srcs, Lit(2), [INNER], mc);
    TwoPokes();
    SixPokes();
  }

  lemma TwoPokes()
    ensures Repeated([RAM_BLOCK], 2) == Ok(Run(Flatten([RAM_BLOCK, RAM_BLOCK]) + [VM.HALT], false))
  {
    RamWords(2);
    var bs := [RAM_BLOCK];
    assert Copies(bs, 2) == bs + Copies(bs, 1) == bs + (bs + Copies(bs, 0)) == [RAM_BLOCK, RAM_BLOCK];
    assert [] + Flatten([RAM_BLOCK, RAM_BLOCK]) == Flatten([RAM_BLOCK, RAM_BLOCK]);
  }

  lemma SixPokes()
    ensures |CodeWords(Repeat(2, [Repeat(3, [Memory(RAM_BLOCK)])]))| == 30
  {
    OneCode(Memory(RAM_BLOCK));
    OneCode(Repeat(3, [Memory(RAM_BLOCK)]));
    var bs := Copies([RAM_BLOCK], 3);
    RamWords(3);
    FlattenCopies(bs, 2);
    CopiesLength(Flatten(bs), 2);
  }

  lemma UnknownCallBody(sc: Scope, n: Name)
    requires |sc.fns| == |sc.codes| && !IsKeyword(n) && FindFn(sc.fns, n, 0).None?
    ensures AreStmts([CallStmt(n)]) && Quiet([CallStmt(n)]) && Kept([CallStmt(n)]) == []
    ensures Elaborate(sc, LoopStmt(Lit(2), [CallStmt(n)]), 0) == Err(UnknownSymbol)
  {
    var ss := [CallStmt(n)];
    assert ss[1..] == [];
    assert Elaborate(sc, ss[0], 0) == Err(UnknownSymbol);
    ElaborateStops(sc, ss, 0);
  }

  /** A loop of no statements is a program of no accesses. */
  lemma EmptyLoop(sc: Scope)
    requires |sc.fns| == |sc.codes|
    ensures MeantBy(sc, Lit(2), []) == Ok(Run([VM.HALT], false))
  {
    var none: seq<Block> := [];
    CopiesLength(none, 2);
    assert CodeWords(Repeat(2, [])) == [];
    assert [] + [VM.HALT] == [VM.HALT];
  }

  /** loop 2 { NAME(); } with no such function is an error, and accepted at the prompt as an empty program. */
  lemma UnknownCallAccepted(hash: Hash, t: Tables, m: map<Name, Word>, codes: seq<seq<Code>>, srcs: seq<Origin>,
                            n: Name, mc: Machine)
    requires Inv(hash, t, m, codes, srcs) && IsName(n) && !IsKeyword(n) && FindFn(t.fns, n, 0).None?
    ensures var line := LoopStmt(Lit(2), [CallStmt(n)]);
            && IsStmt(line) && AllPrintable(StmtTokens(line))
            && Elaborate(Scope(m, mc.peek, mc.bits, t.fns, codes), line, 0) == Err(UnknownSymbol)
            && Answer(hash, t, Entry(Render(StmtTokens(line)), mc.peek, mc.bits)) == (Ok(Run([VM.HALT], false)), t)
  {
    var sc := Scope(m, mc.peek, mc.bits, t.fns, codes);
    UnknownCallBody(sc, n);
    OneSpelled(CallStmt(n));
    KeptLoopAnswer(hash, t, m, codes, srcs, Lit(2), [CallStmt(n)], mc);
    EmptyLoop(sc);
  }
}
