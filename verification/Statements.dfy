/**
  Statements of a function body (src/compiler/parser.rs:361-440): compiled in
  one pass into the stream, loops unrolled and calls spliced as they are read.

  `ParseStmt` is that pass as a function of the tokens still to come.  Beside
  it stand the grammar (`Stmt`), structured code that is executed directly
  (`Code`), and the theorems that connect the three.
 */
module Statements {
  import opened Words
  import opened Lexer
  import opened Symbols
  import opened Expressions
  import opened Streams
  import opened Capability
  import ThreadedVm

  const MAX_STREAM_WORDS := 128
  const MAX_LOOP_UNROLL := 64

  const POKE: Name := [0x70, 0x6F, 0x6B, 0x65]
  const LOOP: Name := [0x6C, 0x6F, 0x6F, 0x70]

  /** A slot of the function table; an empty name marks a free slot. */
  datatype Fn = Fn(name: Name, body: seq<Word>)

  /** First live function of that name, from slot `i` on. */
  function FindFn(fns: seq<Fn>, name: Name, i: nat): (r: Option<nat>)
    requires i <= |fns|
    ensures r.Some? ==> i <= r.value < |fns| && fns[r.value].name == name != []
    ensures r.Some? ==> forall k :: i <= k < r.value ==> fns[k].name != name
    ensures r.None? ==> name == [] || forall k :: i <= k < |fns| ==> fns[k].name != name
    decreases |fns| - i
  {
    if i == |fns| then None
    else if fns[i].name != [] && fns[i].name == name then Some(i)
    else FindFn(fns, name, i + 1)
  }

  // ---------------------------------------------------------------------
  // The one-pass compiler
  // ---------------------------------------------------------------------

  /** Append to the stream, which holds 128 words. */
  function Push(stream: seq<Word>, words: seq<Word>): Result<seq<Word>, ParseError> {
    if |stream| + |words| <= MAX_STREAM_WORDS then Ok(stream + words) else Err(StreamFull)
  }

  /** Append `n` copies of `body`, each checked first. */
  function Unroll(stream: seq<Word>, body: seq<Word>, n: nat): (r: Result<seq<Word>, ParseError>)
    ensures r.Ok? ==> |stream| <= |r.value|
    decreases n
  {
    if n == 0 then Ok(stream)
    else if |stream| + |body| > MAX_STREAM_WORDS then Err(StreamFull)
    else Unroll(stream + body, body, n - 1)
  }

  /** A statement ends at a semicolon or at the end of the line. */
  function Semi<T>(value: T, ts: seq<Token>): Parsed<T> {
    if ts == [] then Got(value, [])
    else if ts[0] == Semicolon then Got(value, ts[1..])
    else Fail(MissingSemicolon)
  }

  /** Append the block of a finished statement, if its address passes the gate. */
  function Emit(env: Env, stream: seq<Word>, b: Block, rest: seq<Token>): Parsed<seq<Word>> {
    if CheckAccess(env.bits, b.addr) then Then(Push(stream, BlockWords(b)), rest) else Fail(CapabilityViolation)
  }

  /** `poke ADDR EXPR;` */
  function PokeArgs(env: Env, ts: seq<Token>): (r: Parsed<Block>)
    requires env.Valid()
    ensures r.Got? ==> |r.rest| < |ts|
  {
    match AtomicTerm(env, ts)
    case Fail(x) => Fail(x)
    case Got(addr, ts1) =>
      match EvalExpr(env, ts1)
      case Fail(x) => Fail(x)
      case Got(val, ts2) => Semi(Poke(addr, val), ts2)
  }

  /** `peek ADDR;` */
  function PeekArgs(env: Env, ts: seq<Token>): (r: Parsed<Block>)
    requires env.Valid()
    ensures r.Got? ==> |r.rest| < |ts|
  {
    match AtomicTerm(env, ts)
    case Fail(x) => Fail(x)
    case Got(addr, ts1) => Semi(Peek(addr), ts1)
  }

  function ParseMemory(env: Env, stream: seq<Word>, args: Parsed<Block>): Parsed<seq<Word>> {
    match args
    case Fail(x) => Fail(x)
    case Got(b, rest) => Emit(env, stream, b, rest)
  }

  /** `( ) ;` after the name of a call. */
  function CallEnd(ts: seq<Token>): (r: Parsed<()>)
    ensures r.Got? ==> |r.rest| < |ts|
  {
    if First(Rest(ts)) != RParen then Fail(UnexpectedToken) else Semi((), Rest(Rest(ts)))
  }

  /** `NAME();`, from the opening parenthesis on. */
  function ParseCall(fns: seq<Fn>, name: Name, stream: seq<Word>, ts: seq<Token>): Parsed<seq<Word>> {
    match CallEnd(ts)
    case Fail(x) => Fail(x)
    case Got(_, rest) =>
      match FindFn(fns, name, 0)
      case None => Fail(UnknownSymbol)
      case Some(i) => Then(Push(stream, fns[i].body), rest)
  }

  /** An expression statement is evaluated and dropped. */
  function ParseBare(env: Env, head: Token, stream: seq<Word>, ts: seq<Token>): Parsed<seq<Word>>
    requires env.Valid()
  {
    match EvalFrom(env, head, ts)
    case Fail(x) => Fail(x)
    case Got(_, rest) => Semi(stream, rest)
  }

  /** A call or an expression, after its first name. */
  function ParseWord(env: Env, fns: seq<Fn>, id: Name, stream: seq<Word>, ts: seq<Token>): (r: Parsed<seq<Word>>)
    requires env.Valid()
    ensures r.Got? ==> |r.rest| <= |ts| && |stream| <= |r.value|
  {
    if First(ts) == LParen then ParseCall(fns, id, stream, ts) else ParseBare(env, Identifier(id), stream, ts)
  }

  /** `loop COUNT {`: the count and what follows the brace. */
  function LoopHead(env: Env, ts: seq<Token>): (r: Parsed<nat>)
    requires env.Valid()
    ensures r.Got? ==> 1 <= r.value <= 64 && |r.rest| < |ts|
  {
    match AtomicTerm(env, ts)
    case Fail(x) => Fail(x)
    case Got(count, rest) =>
      if count == 0 || count > MAX_LOOP_UNROLL then Fail(LoopTooLarge)
      else if First(rest) != LBrace then Fail(UnexpectedToken)
      else Got(count, Rest(rest))
  }

  /** The loop's body has been appended to `stream`; repeat it. */
  function ParseLoopEnd(stream: seq<Word>, count: nat, body: Parsed<seq<Word>>): (r: Parsed<seq<Word>>)
    requires count >= 1 && (body.Got? ==> |stream| <= |body.value|)
    ensures r.Got? ==> body.Got? && r.rest == body.rest && |stream| <= |r.value|
  {
    match body
    case Fail(x) => Fail(x)
    case Got(more, rest) => Then(Unroll(more, more[|stream|..], count - 1), rest)
  }

  function ParseStmt(env: Env, fns: seq<Fn>, stream: seq<Word>, ts: seq<Token>): (r: Parsed<seq<Word>>)
    requires env.Valid()
    ensures r.Got? ==> |r.rest| < |ts| && |stream| <= |r.value|
    decreases |ts|, 0
  {
    if !First(ts).Identifier? then Fail(UnexpectedToken)
    else
      var id, rest := First(ts).name, Rest(ts);
      if id == POKE then ParseMemory(env, stream, PokeArgs(env, rest))
      else if id == PEEK then ParseMemory(env, stream, PeekArgs(env, rest))
      else if id == LOOP then ParseLoop(env, fns, stream, rest)
      else ParseWord(env, fns, id, stream, rest)
  }

  /** A loop, after its keyword. */
  function ParseLoop(env: Env, fns: seq<Fn>, stream: seq<Word>, ts: seq<Token>): (r: Parsed<seq<Word>>)
    requires env.Valid()
    ensures r.Got? ==> |r.rest| < |ts| && |stream| <= |r.value|
    decreases |ts|, 2
  {
    match LoopHead(env, ts)
    case Fail(x) => Fail(x)
    case Got(count, body) => ParseLoopEnd(stream, count, ParseBlock(env, fns, stream, body))
  }

  /** Statements up to a closing brace. */
  function ParseBlock(env: Env, fns: seq<Fn>, stream: seq<Word>, ts: seq<Token>): (r: Parsed<seq<Word>>)
    requires env.Valid()
    ensures r.Got? ==> |r.rest| < |ts| && |stream| <= |r.value|
    decreases |ts|, 1
  {
    if ts == [] then Fail(UnexpectedToken)
    else if ts[0] == RBrace then Got(stream, ts[1..])
    else
      match ParseStmt(env, fns, stream, ts)
      case Fail(x) => Fail(x)
      case Got(more, rest) => ParseBlock(env, fns, more, rest)
  }

  // ---------------------------------------------------------------------
  // Structured code, executed directly
  // ---------------------------------------------------------------------

  /** A function body with its constants resolved and its structure kept. */
  datatype Code =
    | Nothing
    | Memory(block: Block)
    | Repeat(count: nat, body: seq<Code>)
    | Enter(name: Name, callee: seq<Code>)

  function Exec(c: Code, s: ThreadedVm.State): ThreadedVm.State
    decreases c, 0
  {
    match c
    case Nothing => s
    case Memory(b) => ExecBlock(b, s)
    case Repeat(n, body) => ExecTimes(body, n, s)
    case Enter(_, callee) => ExecAll(callee, s)
  }

  function ExecAll(cs: seq<Code>, s: ThreadedVm.State): ThreadedVm.State
    decreases cs, 0
  {
    if cs == [] then s else ExecAll(cs[1..], Exec(cs[0], s))
  }

  /** Run the body again and again. */
  function ExecTimes(cs: seq<Code>, n: nat, s: ThreadedVm.State): ThreadedVm.State
    decreases cs, n + 1
  {
    if n == 0 then s else ExecTimes(cs, n - 1, ExecAll(cs, s))
  }

  /** The same code unrolled and inlined. */
  function Blocks(c: Code): seq<Block>
    decreases c, 0
  {
    match c
    case Nothing => []
    case Memory(b) => [b]
    case Repeat(n, body) => Copies(AllBlocks(body), n)
    case Enter(_, callee) => AllBlocks(callee)
  }

  function AllBlocks(cs: seq<Code>): seq<Block>
    decreases cs, 0
  {
    if cs == [] then [] else Blocks(cs[0]) + AllBlocks(cs[1..])
  }

  function Copies<T>(bs: seq<T>, n: nat): seq<T> {
    if n == 0 then [] else bs + Copies(bs, n - 1)
  }

  /** Unrolling and inlining preserve meaning. */
  lemma {:induction false} ExecIsBlocks(c: Code, s: ThreadedVm.State)
    ensures Exec(c, s) == ExecBlocks(Blocks(c), s)
    decreases c, 0
  {
    match c
    case Nothing =>
    case Memory(b) =>
      assert [b][1..] == [];
    case Repeat(n, body) => ExecTimesIsBlocks(body, n, s);
    case Enter(_, callee) => ExecAllIsBlocks(callee, s);
  }

  lemma {:induction false} ExecAllIsBlocks(cs: seq<Code>, s: ThreadedVm.State)
    ensures ExecAll(cs, s) == ExecBlocks(AllBlocks(cs), s)
    decreases cs, 0
  {
    if cs != [] {
      ExecIsBlocks(cs[0], s);
      ExecAllIsBlocks(cs[1..], Exec(cs[0], s));
      ExecBlocksConcat(Blocks(cs[0]), AllBlocks(cs[1..]), s);
    }
  }

  lemma {:induction false} ExecTimesIsBlocks(cs: seq<Code>, n: nat, s: ThreadedVm.State)
    ensures ExecTimes(cs, n, s) == ExecBlocks(Copies(AllBlocks(cs), n), s)
    decreases cs, n + 1
  {
    if n > 0 {
      ExecAllIsBlocks(cs, s);
      ExecTimesIsBlocks(cs, n - 1, ExecAll(cs, s));
      ExecBlocksConcat(AllBlocks(cs), Copies(AllBlocks(cs), n - 1), s);
    }
  }

  /** The words of code. */
  function CodeWords(c: Code): seq<Word> {
    Flatten(Blocks(c))
  }

  function AllWords(cs: seq<Code>): seq<Word> {
    Flatten(AllBlocks(cs))
  }

  lemma MemoryWords(b: Block)
    ensures CodeWords(Memory(b)) == BlockWords(b)
  {
    var one := [b];
    assert Blocks(Memory(b)) == one && one[1..] == [];
    assert Flatten(one) == BlockWords(b) + [];
  }

  lemma AllWordsCons(c: Code, cs: seq<Code>)
    ensures AllWords([c] + cs) == CodeWords(c) + AllWords(cs)
  {
    assert ([c] + cs)[1..] == cs;
    FlattenConcat(Blocks(c), AllBlocks(cs));
  }

  lemma {:induction false} FlattenCopies(bs: seq<Block>, n: nat)
    ensures Flatten(Copies(bs, n)) == Copies(Flatten(bs), n)
  {
    if n > 0 {
      FlattenCopies(bs, n - 1);
      FlattenConcat(bs, Copies(bs, n - 1));
    }
  }

  /** The checked unrolling loop appends the copies if they all fit. */
  lemma {:induction false} UnrollIs(stream: seq<Word>, body: seq<Word>, n: nat)
    requires |stream| <= 128
    ensures Unroll(stream, body, n) == Push(stream, Copies(body, n))
    decreases n
  {
    if n == 0 {
      assert stream + [] == stream;
    } else if |stream| + |body| <= 128 {
      UnrollIs(stream + body, body, n - 1);
      assert stream + body + Copies(body, n - 1) == stream + Copies(body, n);
    }
  }

  /**
    A function body runs in the VM exactly as its source executes directly:
    same memory traffic, same operand stack, and cleanly.
   */
  lemma CodeRuns(cs: seq<Code>, bus: Bus)
    requires |AllWords(cs)| < 128
    ensures var s := ThreadedVm.State([], bus);
            && ThreadedVm.Run(AllWords(cs) + [ThreadedVm.HALT], 0, s) == Some(ExecAll(cs, s))
            && ThreadedVm.RunsClean(AllWords(cs) + [ThreadedVm.HALT], 0, s)
  {
    var s := ThreadedVm.State([], bus);
    var words := AllWords(cs) + [ThreadedVm.HALT];
    PeeksFit(AllBlocks(cs));
    assert Sits(words, 0, words);
    RunBlocks(words, 0, AllBlocks(cs), s);
    ExecAllIsBlocks(cs, s);
  }

  // ---------------------------------------------------------------------
  // The grammar of statements, and what each compiles to
  // ---------------------------------------------------------------------

  datatype Stmt =
    | PokeStmt(addr: Expr, val: Expr)
    | PeekStmt(addr: Expr)
    | LoopStmt(count: Expr, body: seq<Stmt>)
    | CallStmt(name: Name)
    | BareStmt(e: Expr)

  predicate IsKeyword(n: Name) {
    n == POKE || n == PEEK || n == LOOP
  }

  /** The name an expression starts with. */
  function Leftmost(e: Expr): Option<Name> {
    match e
    case Var(n) => Some(n)
    case Bin(_, l, _) => Leftmost(l)
    case _ => None
  }

  predicate IsOperand(e: Expr) {
    WellFormed(e) && !e.Bin?
  }

  predicate IsStmt(s: Stmt)
    decreases s, 0
  {
    match s
    case PokeStmt(a, v) => IsOperand(a) && WellFormed(v)
    case PeekStmt(a) => IsOperand(a)
    case LoopStmt(c, body) => IsOperand(c) && AreStmts(body)
    case CallStmt(n) => !IsKeyword(n)
    case BareStmt(e) => WellFormed(e) && Leftmost(e).Some? && !IsKeyword(Leftmost(e).value)
  }

  predicate AreStmts(ss: seq<Stmt>)
    decreases ss, 0
  {
    ss == [] || (IsStmt(ss[0]) && AreStmts(ss[1..]))
  }

  function StmtTokens(s: Stmt): (ts: seq<Token>)
    decreases s, 0
  {
    match s
    case PokeStmt(a, v) => [Identifier(POKE)] + (ExprTokens(a) + (ExprTokens(v) + [Semicolon]))
    case PeekStmt(a) => [Identifier(PEEK)] + (ExprTokens(a) + [Semicolon])
    case LoopStmt(c, body) => [Identifier(LOOP)] + (ExprTokens(c) + ([LBrace] + (StmtsTokens(body) + [RBrace])))
    case CallStmt(n) => [Identifier(n), LParen, RParen, Semicolon]
    case BareStmt(e) => ExprTokens(e) + [Semicolon]
  }

  function StmtsTokens(ss: seq<Stmt>): seq<Token>
    decreases ss, 0
  {
    if ss == [] then [] else StmtTokens(ss[0]) + StmtsTokens(ss[1..])
  }

  /** What a definition sees: bindings, reads, the gate, and the functions so far with their code. */
  datatype Scope = Scope(m: map<Name, Word>, peek: Word -> Word, bits: seq<Bits>, fns: seq<Fn>, codes: seq<seq<Code>>) {
    ghost predicate Built() {
      |fns| == |codes| && forall i :: 0 <= i < |fns| && fns[i].name != [] ==> fns[i].body == AllWords(codes[i])
    }
  }

  /** Code whose words still fit after `used`. */
  function Fit(c: Code, used: nat): Result<Code, ParseError> {
    if used + |CodeWords(c)| <= 128 then Ok(c) else Err(StreamFull)
  }

  function Gate(sc: Scope, b: Block, used: nat): Result<Code, ParseError> {
    if CheckAccess(sc.bits, b.addr) then Fit(Memory(b), used) else Err(CapabilityViolation)
  }

  function PokeBlock(sc: Scope, a: Expr, v: Expr): Result<Block, ParseError>
    requires WellFormed(a) && WellFormed(v)
  {
    match Evaluate(sc.m, sc.peek, a)
    case Err(x) => Err(x)
    case Ok(addr) =>
      match Evaluate(sc.m, sc.peek, v)
      case Err(x) => Err(x)
      case Ok(val) => Ok(Poke(addr, val))
  }

  function PeekBlock(sc: Scope, a: Expr): Result<Block, ParseError>
    requires WellFormed(a)
  {
    match Evaluate(sc.m, sc.peek, a)
    case Err(x) => Err(x)
    case Ok(addr) => Ok(Peek(addr))
  }

  function MemoryCode(sc: Scope, b: Result<Block, ParseError>, used: nat): Result<Code, ParseError> {
    match b
    case Err(x) => Err(x)
    case Ok(block) => Gate(sc, block, used)
  }

  function CountOf(sc: Scope, c: Expr): (r: Result<nat, ParseError>)
    requires WellFormed(c)
    ensures r.Ok? ==> 1 <= r.value <= 64
  {
    match Evaluate(sc.m, sc.peek, c)
    case Err(x) => Err(x)
    case Ok(n) => if n == 0 || n > 64 then Err(LoopTooLarge) else Ok(n)
  }

  function Called(sc: Scope, n: Name, used: nat): Result<Code, ParseError>
    requires |sc.fns| == |sc.codes|
  {
    match FindFn(sc.fns, n, 0)
    case None => Err(UnknownSymbol)
    case Some(i) => Fit(Enter(n, sc.codes[i]), used)
  }

  /** The meaning of a statement at definition time: its code, or the first error. */
  function Elaborate(sc: Scope, s: Stmt, used: nat): Result<Code, ParseError>
    requires IsStmt(s) && |sc.fns| == |sc.codes|
    decreases s, 0
  {
    match s
    case PokeStmt(a, v) => MemoryCode(sc, PokeBlock(sc, a, v), used)
    case PeekStmt(a) => MemoryCode(sc, PeekBlock(sc, a), used)
    case LoopStmt(c, body) =>
      (match CountOf(sc, c)
       case Err(x) => Err(x)
       case Ok(n) =>
         match ElaborateAll(sc, body, used)
         case Err(x) => Err(x)
         case Ok(cs) => Fit(Repeat(n, cs), used))
    case CallStmt(n) => Called(sc, n, used)
    case BareStmt(e) => (match Evaluate(sc.m, sc.peek, e) case Err(x) => Err(x) case Ok(_) => Ok(Nothing))
  }

  function ElaborateAll(sc: Scope, ss: seq<Stmt>, used: nat): Result<seq<Code>, ParseError>
    requires AreStmts(ss) && |sc.fns| == |sc.codes|
    decreases ss, 0
  {
    if ss == [] then Ok([])
    else
      match Elaborate(sc, ss[0], used)
      case Err(x) => Err(x)
      case Ok(c) =>
        Cons(c, ElaborateAll(sc, ss[1..], used + |CodeWords(c)|))
  }

  /** The environment of the parser is this scope. */
  ghost predicate Sees(env: Env, sc: Scope) {
    Binds(env, sc.m) && env.peek == sc.peek && env.bits == sc.bits && sc.Built()
  }

  /** The stream after code, as the parser reports it. */
  function Appends(stream: seq<Word>, r: Result<Code, ParseError>, tail: seq<Token>): Parsed<seq<Word>> {
    match r
    case Ok(c) => Got(stream + CodeWords(c), tail)
    case Err(x) => Fail(x)
  }

  function AppendsAll(stream: seq<Word>, r: Result<seq<Code>, ParseError>, tail: seq<Token>): Parsed<seq<Word>> {
    match r
    case Ok(cs) => Got(stream + AllWords(cs), tail)
    case Err(x) => Fail(x)
  }

  // How the parser takes each kind of statement apart.

  lemma LoopStmtIs(env: Env, fns: seq<Fn>, stream: seq<Word>, rest: seq<Token>)
    requires env.Valid()
    ensures var head := LoopHead(env, rest);
            ParseStmt(env, fns, stream, [Identifier(LOOP)] + rest) ==
            if head.Fail? then Fail(head.error)
            else ParseLoopEnd(stream, head.value, ParseBlock(env, fns, stream, head.rest))
  {
    assert Rest([Identifier(LOOP)] + rest) == rest;
    assert ParseStmt(env, fns, stream, [Identifier(LOOP)] + rest) == ParseLoop(env, fns, stream, rest);
  }

  lemma MemoryStmtIs(env: Env, fns: seq<Fn>, stream: seq<Word>, id: Name, rest: seq<Token>)
    requires env.Valid() && (id == POKE || id == PEEK)
    ensures ParseStmt(env, fns, stream, [Identifier(id)] + rest) ==
            ParseMemory(env, stream, if id == POKE then PokeArgs(env, rest) else PeekArgs(env, rest))
  {
    assert Rest([Identifier(id)] + rest) == rest;
  }

  lemma CallStmtIs(env: Env, fns: seq<Fn>, stream: seq<Word>, id: Name, rest: seq<Token>)
    requires env.Valid() && !IsKeyword(id) && First(rest) == LParen
    ensures ParseStmt(env, fns, stream, [Identifier(id)] + rest) == ParseCall(fns, id, stream, rest)
  {
    assert Rest([Identifier(id)] + rest) == rest;
  }

  lemma BareStmtIs(env: Env, fns: seq<Fn>, stream: seq<Word>, ts: seq<Token>)
    requires env.Valid() && First(ts).Identifier? && !IsKeyword(First(ts).name) && First(Rest(ts)) != LParen
    ensures var r := EvalExpr(env, ts);
            ParseStmt(env, fns, stream, ts) == if r.Fail? then Fail(r.error) else Semi(stream, r.rest)
  {
    assert EvalExpr(env, ts) == EvalFrom(env, First(ts), Rest(ts));
  }

  lemma BlockIs(env: Env, fns: seq<Fn>, stream: seq<Word>, ts: seq<Token>)
    requires env.Valid() && ts != [] && ts[0] != RBrace
    ensures var r := ParseStmt(env, fns, stream, ts);
            ParseBlock(env, fns, stream, ts) == if r.Fail? then r else ParseBlock(env, fns, r.value, r.rest)
  {
  }

  lemma MemoryCompiles(env: Env, sc: Scope, stream: seq<Word>, b: Result<Block, ParseError>, tail: seq<Token>)
    requires env.bits == sc.bits
    ensures ParseMemory(env, stream, Then(b, tail)) == Appends(stream, MemoryCode(sc, b, |stream|), tail)
  {
    if b.Ok? {
      MemoryWords(b.value);
    }
  }

  lemma PokeReads(env: Env, sc: Scope, a: Expr, v: Expr, tail: seq<Token>)
    requires Sees(env, sc) && IsOperand(a) && WellFormed(v)
    ensures PokeArgs(env, ExprTokens(a) + (ExprTokens(v) + ([Semicolon] + tail))) == Then(PokeBlock(sc, a, v), tail)
  {
    var more := [Semicolon] + tail;
    OperandReads(env, sc.m, a, ExprTokens(v) + more);
    EvalRoundTrip(env, sc.m, v, more);
  }

  lemma PeekReadsArgs(env: Env, sc: Scope, a: Expr, tail: seq<Token>)
    requires Sees(env, sc) && IsOperand(a)
    ensures PeekArgs(env, ExprTokens(a) + ([Semicolon] + tail)) == Then(PeekBlock(sc, a), tail)
  {
    OperandReads(env, sc.m, a, [Semicolon] + tail);
  }

  lemma LoopHeadReads(env: Env, sc: Scope, c: Expr, tail: seq<Token>)
    requires Sees(env, sc) && IsOperand(c)
    ensures LoopHead(env, ExprTokens(c) + ([LBrace] + tail)) == Then(CountOf(sc, c), tail)
  {
    OperandReads(env, sc.m, c, [LBrace] + tail);
    assert Rest([LBrace] + tail) == tail;
  }

  lemma CallCompiles(sc: Scope, n: Name, stream: seq<Word>, tail: seq<Token>)
    requires sc.Built()
    ensures ParseCall(sc.fns, n, stream, [LParen, RParen, Semicolon] + tail) ==
            Appends(stream, Called(sc, n, |stream|), tail)
  {
    var ts := [LParen, RParen, Semicolon] + tail;
    assert Rest(ts) == [RParen, Semicolon] + tail;
    assert Rest(Rest(ts)) == [Semicolon] + tail;
  }

  /** An expression that starts with a name spells that name first, and no parenthesis right after it. */
  lemma {:induction false} LeftmostFirst(e: Expr, tail: seq<Token>)
    requires WellFormed(e) && Leftmost(e).Some? && First(tail) != LParen
    ensures First(ExprTokens(e) + tail) == Identifier(Leftmost(e).value)
    ensures First(Rest(ExprTokens(e) + tail)) != LParen
  {
    match e
    case Var(n) =>
      assert Rest(ExprTokens(e) + tail) == tail;
    case Bin(op, l, r) =>
      LeftmostFirst(l, [Operator(op)] + ExprTokens(r) + tail);
      assert ExprTokens(e) + tail == ExprTokens(l) + ([Operator(op)] + ExprTokens(r) + tail);
  }

  lemma BareCompiles(env: Env, sc: Scope, e: Expr, stream: seq<Word>, tail: seq<Token>)
    requires Sees(env, sc) && IsStmt(BareStmt(e))
    ensures ParseStmt(env, sc.fns, stream, ExprTokens(e) + ([Semicolon] + tail)) ==
            Appends(stream, Elaborate(sc, BareStmt(e), |stream|), tail)
  {
    var more := [Semicolon] + tail;
    LeftmostFirst(e, more);
    EvalRoundTrip(env, sc.m, e, more);
    BareStmtIs(env, sc.fns, stream, ExprTokens(e) + more);
    assert stream + CodeWords(Nothing) == stream;
  }

  /** Unrolling the freshly appended body gives the words of the loop. */
  lemma LoopEndIs(stream: seq<Word>, n: nat, cs: seq<Code>, tail: seq<Token>)
    requires n >= 1 && |stream| + |AllWords(cs)| <= 128
    ensures ParseLoopEnd(stream, n, Got(stream + AllWords(cs), tail)) ==
            Appends(stream, Fit(Repeat(n, cs), |stream|), tail)
  {
    var body := AllWords(cs);
    var more := stream + body;
    assert more[|stream|..] == body;
    UnrollIs(more, body, n - 1);
    FlattenCopies(AllBlocks(cs), n);
    assert CodeWords(Repeat(n, cs)) == Copies(body, n) == body + Copies(body, n - 1);
    assert more + Copies(body, n - 1) == stream + Copies(body, n);
  }

  lemma ElaboratedFits(sc: Scope, s: Stmt, used: nat)
    requires IsStmt(s) && |sc.fns| == |sc.codes| && used <= 128 && Elaborate(sc, s, used).Ok?
    ensures used + |CodeWords(Elaborate(sc, s, used).value)| <= 128
  {
    assert CodeWords(Nothing) == [];
  }

  /** Code that elaborates fits. */
  lemma {:induction false} Fits(sc: Scope, ss: seq<Stmt>, used: nat)
    requires AreStmts(ss) && |sc.fns| == |sc.codes| && used <= 128
    requires ElaborateAll(sc, ss, used).Ok?
    ensures used + |AllWords(ElaborateAll(sc, ss, used).value)| <= 128
    decreases |ss|
  {
    if ss != [] {
      var c := Elaborate(sc, ss[0], used).value;
      ElaboratedFits(sc, ss[0], used);
      Fits(sc, ss[1..], used + |CodeWords(c)|);
      AllWordsCons(c, ElaborateAll(sc, ss[1..], used + |CodeWords(c)|).value);
    }
  }

  /**
    Compiling the spelling of a statement appends exactly the words of its
    unrolled, inlined code, or fails with exactly its first error.
   */
  lemma {:induction false} StmtCompiles(env: Env, sc: Scope, s: Stmt, stream: seq<Word>, tail: seq<Token>)
    requires Sees(env, sc) && IsStmt(s) && |stream| <= 128
    ensures ParseStmt(env, sc.fns, stream, StmtTokens(s) + tail) == Appends(stream, Elaborate(sc, s, |stream|), tail)
    decreases s, 0
  {
    match s
    case PokeStmt(a, v) => PokeCompiles(env, sc, a, v, stream, tail);
    case PeekStmt(a) => PeekCompiles(env, sc, a, stream, tail);
    case LoopStmt(c, body) =>
      BlockCompiles(env, sc, body, stream, tail);
      LoopCompiles(env, sc, c, body, stream, tail);
    case CallStmt(n) =>
      var rest := [LParen, RParen, Semicolon] + tail;
      assert StmtTokens(s) + tail == [Identifier(n)] + rest;
      CallStmtIs(env, sc.fns, stream, n, rest);
      CallCompiles(sc, n, stream, tail);
    case BareStmt(e) =>
      assert StmtTokens(s) + tail == ExprTokens(e) + ([Semicolon] + tail);
      BareCompiles(env, sc, e, stream, tail);
  }

  lemma PokeTokens(a: Expr, v: Expr, tail: seq<Token>)
    ensures StmtTokens(PokeStmt(a, v)) + tail ==
            [Identifier(POKE)] + (ExprTokens(a) + (ExprTokens(v) + ([Semicolon] + tail)))
  {
    Assoc([Identifier(POKE)], ExprTokens(a) + (ExprTokens(v) + [Semicolon]), tail);
    Assoc(ExprTokens(a), ExprTokens(v) + [Semicolon], tail);
    Assoc(ExprTokens(v), [Semicolon], tail);
  }

  lemma PeekTokens(a: Expr, tail: seq<Token>)
    ensures StmtTokens(PeekStmt(a)) + tail == [Identifier(PEEK)] + (ExprTokens(a) + ([Semicolon] + tail))
  {
    Assoc([Identifier(PEEK)], ExprTokens(a) + [Semicolon], tail);
    Assoc(ExprTokens(a), [Semicolon], tail);
  }

  lemma PokeCompiles(env: Env, sc: Scope, a: Expr, v: Expr, stream: seq<Word>, tail: seq<Token>)
    requires Sees(env, sc) && IsOperand(a) && WellFormed(v)
    ensures ParseStmt(env, sc.fns, stream, StmtTokens(PokeStmt(a, v)) + tail) ==
            Appends(stream, MemoryCode(sc, PokeBlock(sc, a, v), |stream|), tail)
  {
    var rest := ExprTokens(a) + (ExprTokens(v) + ([Semicolon] + tail));
    PokeTokens(a, v, tail);
    MemoryStmtIs(env, sc.fns, stream, POKE, rest);
    PokeReads(env, sc, a, v, tail);
    MemoryCompiles(env, sc, stream, PokeBlock(sc, a, v), tail);
  }

  lemma PeekCompiles(env: Env, sc: Scope, a: Expr, stream: seq<Word>, tail: seq<Token>)
    requires Sees(env, sc) && IsOperand(a)
    ensures ParseStmt(env, sc.fns, stream, StmtTokens(PeekStmt(a)) + tail) ==
            Appends(stream, MemoryCode(sc, PeekBlock(sc, a), |stream|), tail)
  {
    var rest := ExprTokens(a) + ([Semicolon] + tail);
    PeekTokens(a, tail);
    MemoryStmtIs(env, sc.fns, stream, PEEK, rest);
    PeekReadsArgs(env, sc, a, tail);
    MemoryCompiles(env, sc, stream, PeekBlock(sc, a), tail);
  }

  lemma LoopCompiles(env: Env, sc: Scope, c: Expr, body: seq<Stmt>, stream: seq<Word>, tail: seq<Token>)
    requires Sees(env, sc) && IsStmt(LoopStmt(c, body)) && |stream| <= 128
    requires ParseBlock(env, sc.fns, stream, StmtsTokens(body) + ([RBrace] + tail)) ==
             AppendsAll(stream, ElaborateAll(sc, body, |stream|), tail)
    ensures ParseStmt(env, sc.fns, stream, StmtTokens(LoopStmt(c, body)) + tail) ==
            Appends(stream, Elaborate(sc, LoopStmt(c, body), |stream|), tail)
  {
    LoopTokens(c, body, tail);
    LoopReadsAs(env, sc, c, StmtsTokens(body) + ([RBrace] + tail), stream);
    LoopEnds(sc, c, body, stream, tail);
  }

  lemma LoopReadsAs(env: Env, sc: Scope, c: Expr, inside: seq<Token>, stream: seq<Word>)
    requires Sees(env, sc) && IsOperand(c)
    ensures var count := CountOf(sc, c);
            ParseStmt(env, sc.fns, stream, [Identifier(LOOP)] + (ExprTokens(c) + ([LBrace] + inside))) ==
            if count.Err? then Fail(count.error)
            else ParseLoopEnd(stream, count.value, ParseBlock(env, sc.fns, stream, inside))
  {
    LoopStmtIs(env, sc.fns, stream, ExprTokens(c) + ([LBrace] + inside));
    LoopHeadReads(env, sc, c, inside);
  }

  lemma LoopTokens(c: Expr, body: seq<Stmt>, tail: seq<Token>)
    ensures StmtTokens(LoopStmt(c, body)) + tail ==
            [Identifier(LOOP)] + (ExprTokens(c) + ([LBrace] + (StmtsTokens(body) + ([RBrace] + tail))))
  {
    var inner := StmtsTokens(body) + [RBrace];
    Assoc([Identifier(LOOP)], ExprTokens(c) + ([LBrace] + inner), tail);
    Assoc(ExprTokens(c), [LBrace] + inner, tail);
    Assoc([LBrace], inner, tail);
    Assoc(StmtsTokens(body), [RBrace], tail);
  }

  lemma LoopEnds(sc: Scope, c: Expr, body: seq<Stmt>, stream: seq<Word>, tail: seq<Token>)
    requires |sc.fns| == |sc.codes| && IsStmt(LoopStmt(c, body)) && |stream| <= 128
    ensures Appends(stream, Elaborate(sc, LoopStmt(c, body), |stream|), tail) ==
            if CountOf(sc, c).Err? then Fail(CountOf(sc, c).error)
            else ParseLoopEnd(stream, CountOf(sc, c).value, AppendsAll(stream, ElaborateAll(sc, body, |stream|), tail))
  {
    if CountOf(sc, c).Ok? && ElaborateAll(sc, body, |stream|).Ok? {
      Fits(sc, body, |stream|);
      LoopEndIs(stream, CountOf(sc, c).value, ElaborateAll(sc, body, |stream|).value, tail);
    }
  }

  lemma {:induction false} BlockCompiles(env: Env, sc: Scope, ss: seq<Stmt>, stream: seq<Word>, tail: seq<Token>)
    requires Sees(env, sc) && AreStmts(ss) && |stream| <= 128
    ensures ParseBlock(env, sc.fns, stream, StmtsTokens(ss) + ([RBrace] + tail)) ==
            AppendsAll(stream, ElaborateAll(sc, ss, |stream|), tail)
    decreases ss, 0
  {
    if ss == [] {
      assert stream + AllWords([]) == stream;
    } else {
      var more := StmtsTokens(ss[1..]) + ([RBrace] + tail);
      Assoc(StmtTokens(ss[0]), StmtsTokens(ss[1..]), [RBrace] + tail);
      StmtCompiles(env, sc, ss[0], stream, more);
      var r := Elaborate(sc, ss[0], |stream|);
      if r.Ok? {
        ElaboratedFits(sc, ss[0], |stream|);
        BlockCompiles(env, sc, ss[1..], stream + CodeWords(r.value), tail);
      }
      StmtStarts(ss[0], more);
      BlockCons(env, sc, ss, stream, StmtTokens(ss[0]) + more, more, tail);
    }
  }

  /** The error of statements that are not followed by what they should be. */
  function StopError(r: Result<seq<Code>, ParseError>): ParseError {
    if r.Err? then r.error else UnexpectedToken
  }

  /** A block that breaks off, or goes on with something that starts no statement, is an error at that place. */
  lemma {:induction false} BlockStops(env: Env, sc: Scope, ss: seq<Stmt>, stream: seq<Word>, bad: seq<Token>)
    requires Sees(env, sc) && AreStmts(ss) && |stream| <= 128
    requires !First(bad).Identifier? && First(bad) != RBrace
    ensures ParseBlock(env, sc.fns, stream, StmtsTokens(ss) + bad) == Fail(StopError(ElaborateAll(sc, ss, |stream|)))
    decreases ss, 0
  {
    if ss == [] {
      assert StmtsTokens(ss) + bad == bad;
    } else {
      var more := StmtsTokens(ss[1..]) + bad;
      Assoc(StmtTokens(ss[0]), StmtsTokens(ss[1..]), bad);
      StmtCompiles(env, sc, ss[0], stream, more);
      var r := Elaborate(sc, ss[0], |stream|);
      if r.Ok? {
        ElaboratedFits(sc, ss[0], |stream|);
        BlockStops(env, sc, ss[1..], stream + CodeWords(r.value), bad);
      }
      StmtStarts(ss[0], more);
      StopsLater(env, sc, ss, stream, StmtTokens(ss[0]) + more, more);
    }
  }

  lemma StopsLater(env: Env, sc: Scope, ss: seq<Stmt>, stream: seq<Word>, ts: seq<Token>, more: seq<Token>)
    requires env.Valid() && |sc.fns| == |sc.codes| && AreStmts(ss) && ss != [] && ts != [] && ts[0] != RBrace
    requires ParseStmt(env, sc.fns, stream, ts) == Appends(stream, Elaborate(sc, ss[0], |stream|), more)
    requires var r := Elaborate(sc, ss[0], |stream|);
             r.Ok? ==> var next := stream + CodeWords(r.value);
                       ParseBlock(env, sc.fns, next, more) == Fail(StopError(ElaborateAll(sc, ss[1..], |next|)))
    ensures ParseBlock(env, sc.fns, stream, ts) == Fail(StopError(ElaborateAll(sc, ss, |stream|)))
  {
    match Elaborate(sc, ss[0], |stream|)
    case Err(_) => BlockIs(env, sc.fns, stream, ts);
    case Ok(c) =>
      var rest := ElaborateTail(sc, ss, |stream|, c);
      StopStep(env, sc.fns, stream, ts, c, rest, more);
  }

  lemma StopStep(env: Env, fns: seq<Fn>, stream: seq<Word>, ts: seq<Token>, c: Code,
                 r: Result<seq<Code>, ParseError>, more: seq<Token>)
    requires env.Valid() && ts != [] && ts[0] != RBrace
    requires ParseStmt(env, fns, stream, ts) == Got(stream + CodeWords(c), more)
    requires ParseBlock(env, fns, stream + CodeWords(c), more) == Fail(StopError(r))
    ensures ParseBlock(env, fns, stream, ts) == Fail(StopError(Cons(c, r)))
  {
    BlockIs(env, fns, stream, ts);
  }

  lemma BlockCons(env: Env, sc: Scope, ss: seq<Stmt>, stream: seq<Word>, ts: seq<Token>, more: seq<Token>,
                  tail: seq<Token>)
    requires env.Valid() && |sc.fns| == |sc.codes| && AreStmts(ss) && ss != [] && ts != [] && ts[0] != RBrace
    requires ParseStmt(env, sc.fns, stream, ts) == Appends(stream, Elaborate(sc, ss[0], |stream|), more)
    requires var r := Elaborate(sc, ss[0], |stream|);
             r.Ok? ==> var next := stream + CodeWords(r.value);
                       ParseBlock(env, sc.fns, next, more) == AppendsAll(next, ElaborateAll(sc, ss[1..], |next|), tail)
    ensures ParseBlock(env, sc.fns, stream, ts) == AppendsAll(stream, ElaborateAll(sc, ss, |stream|), tail)
  {
    match Elaborate(sc, ss[0], |stream|)
    case Err(_) => BlockIs(env, sc.fns, stream, ts);
    case Ok(c) =>
      ElaborateCons(sc, ss, |stream|, c);
      BlockStep(env, sc.fns, stream, ts, c, ElaborateAll(sc, ss[1..], |stream + CodeWords(c)|), more, tail);
  }

  lemma ElaborateCons(sc: Scope, ss: seq<Stmt>, used: nat, c: Code)
    requires AreStmts(ss) && ss != [] && |sc.fns| == |sc.codes| && Elaborate(sc, ss[0], used) == Ok(c)
    ensures ElaborateAll(sc, ss, used) == Cons(c, ElaborateAll(sc, ss[1..], used + |CodeWords(c)|))
  {
  }

  lemma ElaborateTail(sc: Scope, ss: seq<Stmt>, used: nat, c: Code) returns (es: Result<seq<Code>, ParseError>)
    requires AreStmts(ss) && ss != [] && |sc.fns| == |sc.codes| && Elaborate(sc, ss[0], used) == Ok(c)
    ensures es == ElaborateAll(sc, ss[1..], used + |CodeWords(c)|) && ElaborateAll(sc, ss, used) == Cons(c, es)
  {
    ElaborateCons(sc, ss, used, c);
    es := ElaborateAll(sc, ss[1..], used + |CodeWords(c)|);
  }

  lemma BlockStep(env: Env, fns: seq<Fn>, stream: seq<Word>, ts: seq<Token>, c: Code,
                  r: Result<seq<Code>, ParseError>, more: seq<Token>, tail: seq<Token>)
    requires env.Valid() && ts != [] && ts[0] != RBrace
    requires ParseStmt(env, fns, stream, ts) == Got(stream + CodeWords(c), more)
    requires ParseBlock(env, fns, stream + CodeWords(c), more) == AppendsAll(stream + CodeWords(c), r, tail)
    ensures ParseBlock(env, fns, stream, ts) == AppendsAll(stream, Cons(c, r), tail)
  {
    BlockIs(env, fns, stream, ts);
    AppendsCons(stream, c, r, tail);
  }

  function Cons(c: Code, r: Result<seq<Code>, ParseError>): Result<seq<Code>, ParseError> {
    match r
    case Err(x) => Err(x)
    case Ok(cs) => Ok([c] + cs)
  }

  lemma AppendsCons(stream: seq<Word>, c: Code, r: Result<seq<Code>, ParseError>, tail: seq<Token>)
    ensures AppendsAll(stream + CodeWords(c), r, tail) == AppendsAll(stream, Cons(c, r), tail)
  {
    if r.Ok? {
      AllWordsCons(c, r.value);
      assert stream + CodeWords(c) + AllWords(r.value) == stream + (CodeWords(c) + AllWords(r.value));
    }
  }

  lemma StmtStarts(s: Stmt, tail: seq<Token>)
    requires IsStmt(s)
    ensures StmtTokens(s) + tail != [] && (StmtTokens(s) + tail)[0].Identifier?
  {
    if s.BareStmt? {
      LeftmostFirst(s.e, [Semicolon] + tail);
      assert StmtTokens(s) + tail == ExprTokens(s.e) + ([Semicolon] + tail);
    }
  }

  // ---------------------------------------------------------------------
  // Conversely, whatever the parser accepts is a sequence of statements
  // ---------------------------------------------------------------------

  lemma {:induction false} LeftmostOf(e: Expr, n: Name)
    requires WellFormed(e) && ExprTokens(e)[0] == Identifier(n) && n != PEEK
    ensures Leftmost(e) == Some(n)
  {
    match e
    case Bin(_, l, _) => LeftmostOf(l, n);
    case _ =>
  }

  lemma PokeTree(env: Env, sc: Scope, ts: seq<Token>) returns (a: Expr, v: Expr)
    requires Sees(env, sc) && PokeArgs(env, ts).Got? && PokeArgs(env, ts).rest != []
    ensures IsOperand(a) && WellFormed(v)
    ensures ts == ExprTokens(a) + (ExprTokens(v) + ([Semicolon] + PokeArgs(env, ts).rest))
  {
    var ts1 := AtomicTerm(env, ts).rest;
    a := OperandTree(env, sc.m, ts);
    v := PokeValueTree(env, sc, ts1, PokeArgs(env, ts));
  }

  lemma PokeValueTree(env: Env, sc: Scope, ts: seq<Token>, r: Parsed<Block>) returns (v: Expr)
    requires Sees(env, sc) && EvalExpr(env, ts).Got? && r.Got? && r.rest != []
    requires exists addr :: r == Semi(Poke(addr, EvalExpr(env, ts).value), EvalExpr(env, ts).rest)
    ensures WellFormed(v) && ts == ExprTokens(v) + ([Semicolon] + r.rest)
  {
    v := ExprTree(env, sc.m, ts);
    assert EvalExpr(env, ts).rest == [Semicolon] + r.rest;
  }

  lemma PeekTree(env: Env, sc: Scope, ts: seq<Token>) returns (a: Expr)
    requires Sees(env, sc) && PeekArgs(env, ts).Got? && PeekArgs(env, ts).rest != []
    ensures IsOperand(a) && ts == ExprTokens(a) + ([Semicolon] + PeekArgs(env, ts).rest)
  {
    a := OperandTree(env, sc.m, ts);
    assert AtomicTerm(env, ts).rest == [Semicolon] + PeekArgs(env, ts).rest;
  }

  lemma LoopHeadTree(env: Env, sc: Scope, ts: seq<Token>) returns (c: Expr)
    requires Sees(env, sc) && LoopHead(env, ts).Got?
    ensures IsOperand(c) && ts == ExprTokens(c) + ([LBrace] + LoopHead(env, ts).rest)
  {
    c := OperandTree(env, sc.m, ts);
    assert AtomicTerm(env, ts).rest == [LBrace] + LoopHead(env, ts).rest;
  }

  lemma CallEndIs(ts: seq<Token>)
    requires CallEnd(ts).Got? && First(ts) == LParen && CallEnd(ts).rest != []
    ensures ts == [LParen] + ([RParen] + ([Semicolon] + CallEnd(ts).rest))
  {
    var end := CallEnd(ts).rest;
    assert Rest(Rest(ts)) == [Semicolon] + end;
    assert Rest(ts) == [RParen] + ([Semicolon] + end);
  }

  lemma CallSpelling(n: Name, end: seq<Token>)
    ensures [Identifier(n)] + ([LParen] + ([RParen] + ([Semicolon] + end))) == StmtTokens(CallStmt(n)) + end
  {
    var call := StmtTokens(CallStmt(n));
    assert call == [Identifier(n)] + ([LParen] + ([RParen] + [Semicolon]));
    Assoc([Identifier(n)], [LParen] + ([RParen] + [Semicolon]), end);
    Assoc([LParen], [RParen] + [Semicolon], end);
    Assoc([RParen], [Semicolon], end);
  }

  lemma CallTree(fns: seq<Fn>, n: Name, stream: seq<Word>, ts: seq<Token>)
    requires ParseCall(fns, n, stream, ts).Got? && First(ts) == LParen && ParseCall(fns, n, stream, ts).rest != []
    ensures [Identifier(n)] + ts == StmtTokens(CallStmt(n)) + ParseCall(fns, n, stream, ts).rest
  {
    CallEndIs(ts);
    CallSpelling(n, CallEnd(ts).rest);
  }

  lemma BareTree(env: Env, sc: Scope, stream: seq<Word>, ts: seq<Token>) returns (e: Expr)
    requires Sees(env, sc) && First(ts).Identifier? && !IsKeyword(First(ts).name) && First(Rest(ts)) != LParen
    requires ParseStmt(env, sc.fns, stream, ts).Got? && ParseStmt(env, sc.fns, stream, ts).rest != []
    ensures IsStmt(BareStmt(e)) && ts == ExprTokens(e) + ([Semicolon] + ParseStmt(env, sc.fns, stream, ts).rest)
  {
    BareStmtIs(env, sc.fns, stream, ts);
    e := ExprTree(env, sc.m, ts);
    LeftmostOf(e, First(ts).name);
  }

  /** An accepted statement that does not end the line is the spelling of a statement. */
  lemma {:induction false} StmtTree(env: Env, sc: Scope, stream: seq<Word>, ts: seq<Token>) returns (s: Stmt)
    requires Sees(env, sc)
    requires ParseStmt(env, sc.fns, stream, ts).Got? && ParseStmt(env, sc.fns, stream, ts).rest != []
    ensures IsStmt(s) && ts == StmtTokens(s) + ParseStmt(env, sc.fns, stream, ts).rest
    decreases |ts|, 0
  {
    var id, rest := First(ts).name, Rest(ts);
    assert ts == [Identifier(id)] + rest;
    if id == POKE || id == PEEK {
      s := MemoryTree(env, sc, stream, id, rest);
    } else if id == LOOP {
      s := LoopTree(env, sc, stream, rest);
    } else if First(rest) == LParen {
      s := CallStmt(id);
      CallStmtIs(env, sc.fns, stream, id, rest);
      CallTree(sc.fns, id, stream, rest);
    } else {
      var e := BareTree(env, sc, stream, ts);
      s := BareStmt(e);
      Assoc(ExprTokens(e), [Semicolon], ParseStmt(env, sc.fns, stream, ts).rest);
    }
  }

  lemma MemoryTree(env: Env, sc: Scope, stream: seq<Word>, id: Name, rest: seq<Token>) returns (s: Stmt)
    requires Sees(env, sc) && (id == POKE || id == PEEK)
    requires var r := ParseStmt(env, sc.fns, stream, [Identifier(id)] + rest); r.Got? && r.rest != []
    ensures IsStmt(s)
    ensures [Identifier(id)] + rest == StmtTokens(s) + ParseStmt(env, sc.fns, stream, [Identifier(id)] + rest).rest
  {
    MemoryStmtIs(env, sc.fns, stream, id, rest);
    if id == POKE {
      var a, v := PokeTree(env, sc, rest);
      s := PokeStmt(a, v);
      PokeTokens(a, v, PokeArgs(env, rest).rest);
    } else {
      var a := PeekTree(env, sc, rest);
      s := PeekStmt(a);
      PeekTokens(a, PeekArgs(env, rest).rest);
    }
  }

  lemma LoopTree(env: Env, sc: Scope, stream: seq<Word>, rest: seq<Token>) returns (s: Stmt)
    requires Sees(env, sc) && ParseStmt(env, sc.fns, stream, [Identifier(LOOP)] + rest).Got?
    ensures IsStmt(s)
    ensures [Identifier(LOOP)] + rest == StmtTokens(s) + ParseStmt(env, sc.fns, stream, [Identifier(LOOP)] + rest).rest
    decreases |rest|, 2
  {
    LoopStmtIs(env, sc.fns, stream, rest);
    var c := LoopHeadTree(env, sc, rest);
    var body := BlockTree(env, sc, stream, LoopHead(env, rest).rest);
    s := LoopStmt(c, body);
    LoopTokens(c, body, ParseBlock(env, sc.fns, stream, LoopHead(env, rest).rest).rest);
  }

  /** An accepted block is the spelling of statements and a closing brace. */
  lemma {:induction false} BlockTree(env: Env, sc: Scope, stream: seq<Word>, ts: seq<Token>) returns (ss: seq<Stmt>)
    requires Sees(env, sc) && ParseBlock(env, sc.fns, stream, ts).Got?
    ensures AreStmts(ss) && ts == StmtsTokens(ss) + ([RBrace] + ParseBlock(env, sc.fns, stream, ts).rest)
    decreases |ts|, 1
  {
    if ts[0] == RBrace {
      ss := [];
    } else {
      BlockIs(env, sc.fns, stream, ts);
      var r := ParseStmt(env, sc.fns, stream, ts);
      var s := StmtTree(env, sc, stream, ts);
      var more := BlockTree(env, sc, r.value, r.rest);
      ss := [s] + more;
      assert ss[1..] == more;
      Assoc(StmtTokens(s), StmtsTokens(more), [RBrace] + ParseBlock(env, sc.fns, stream, ts).rest);
    }
  }

  /** Accepted input, read as source: its statements elaborate to code whose words were appended. */
  lemma BlockMeans(env: Env, sc: Scope, stream: seq<Word>, ts: seq<Token>) returns (ss: seq<Stmt>, cs: seq<Code>)
    requires Sees(env, sc) && |stream| <= 128 && ParseBlock(env, sc.fns, stream, ts).Got?
    ensures AreStmts(ss) && ts == StmtsTokens(ss) + ([RBrace] + ParseBlock(env, sc.fns, stream, ts).rest)
    ensures ElaborateAll(sc, ss, |stream|) == Ok(cs)
    ensures ParseBlock(env, sc.fns, stream, ts).value == stream + AllWords(cs)
  {
    ss := BlockTree(env, sc, stream, ts);
    BlockCompiles(env, sc, ss, stream, ParseBlock(env, sc.fns, stream, ts).rest);
    cs := ElaborateAll(sc, ss, |stream|).value;
  }

  // ---------------------------------------------------------------------
  // The definition-time gate
  // ---------------------------------------------------------------------

  /**
    Every access of the code passed the gate under `bits`, except inside calls,
    and every call is of a live function, with the code that function has.
   */
  ghost predicate Gated(c: Code, bits: seq<Bits>, fns: seq<Fn>, codes: seq<seq<Code>>)
    decreases c, 0
  {
    match c
    case Nothing => true
    case Memory(b) => CheckAccess(bits, b.addr)
    case Repeat(_, body) => AllGated(body, bits, fns, codes)
    case Enter(n, callee) => IsCodeOf(n, callee, fns, codes)
  }

  ghost predicate AllGated(cs: seq<Code>, bits: seq<Bits>, fns: seq<Fn>, codes: seq<seq<Code>>)
    decreases cs, 0
  {
    cs == [] || (Gated(cs[0], bits, fns, codes) && AllGated(cs[1..], bits, fns, codes))
  }

  /** `cs` is the code of the live function that a call of `n` finds. */
  predicate IsCodeOf(n: Name, cs: seq<Code>, fns: seq<Fn>, codes: seq<seq<Code>>) {
    var r := FindFn(fns, n, 0);
    r.Some? && r.value < |codes| && codes[r.value] == cs
  }

  lemma {:induction false} InCopies<T>(bs: seq<T>, n: nat, b: T)
    requires b in Copies(bs, n)
    ensures b in bs
  {
    if b !in bs {
      InCopies(bs, n - 1, b);
    }
  }

  lemma {:induction false} GateHolds(sc: Scope, s: Stmt, used: nat)
    requires IsStmt(s) && |sc.fns| == |sc.codes| && Elaborate(sc, s, used).Ok?
    ensures Gated(Elaborate(sc, s, used).value, sc.bits, sc.fns, sc.codes)
    decreases s, 0
  {
    if s.LoopStmt? {
      GateHoldsAll(sc, s.body, used);
    }
  }

  /**
    Every access that a body compiles itself passed the gate at this definition;
    the rest belongs to the functions it calls.
   */
  lemma {:induction false} GateHoldsAll(sc: Scope, ss: seq<Stmt>, used: nat)
    requires AreStmts(ss) && |sc.fns| == |sc.codes| && ElaborateAll(sc, ss, used).Ok?
    ensures AllGated(ElaborateAll(sc, ss, used).value, sc.bits, sc.fns, sc.codes)
    decreases ss, 0
  {
    if ss != [] {
      var c := Elaborate(sc, ss[0], used).value;
      var cs := ElaborateAll(sc, ss[1..], used + |CodeWords(c)|).value;
      GateHolds(sc, ss[0], used);
      GateHoldsAll(sc, ss[1..], used + |CodeWords(c)|);
      assert ([c] + cs)[1..] == cs;
    }
  }
}
