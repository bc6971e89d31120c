/**
  Expressions of the one-pass parser (src/compiler/parser.rs:628-722): folded
  left to right with no precedence while they are read.

  A cursor is the sequence of tokens still to come; the end of the sequence is
  the end of input.
 */
module Expressions {
  import opened Words
  import opened Lexer
  import opened Symbols
  import opened Printer
  import Capability

  datatype ParseError =
    | LexFailure(kind: LexError)
    | UnexpectedToken
    | UnknownSymbol
    | DuplicateFn
    | SymbolTableFull
    | FnTableFull
    | StreamFull
    | NameTooLong
    | DivByZero
    | MissingSemicolon
    | EmptyLine
    | CapabilityViolation
    | LoopTooLarge

  /** A value and the tokens left, or the first error. */
  datatype Parsed<+T> = Got(value: T, rest: seq<Token>) | Fail(error: ParseError)

  /**
    What a line can see while it is compiled: the symbol table, what a read of
    each address returns, and the capability registry.
   */
  datatype Env = Env(hash: Hash, symbols: seq<Slot>, peek: Word -> Word, bits: seq<Capability.Bits>) {
    predicate Valid() {
      |symbols| == SLOTS
    }
  }

  function First(ts: seq<Token>): Token {
    if ts == [] then Eof else ts[0]
  }

  function Rest(ts: seq<Token>): seq<Token> {
    if ts == [] then [] else ts[1..]
  }

  /** Tokens in hand and to come; the end of input counts for nothing. */
  function Weight(t: Token, ts: seq<Token>): nat {
    |ts| + if t == Eof then 0 else 1
  }

  const PLUS: Byte := 0x2B
  const MINUS: Byte := 0x2D
  const STAR: Byte := 0x2A
  const SLASH: Byte := 0x2F
  const PERCENT: Byte := 0x25

  predicate IsArithmetic(b: Byte) {
    b == PLUS || b == MINUS || b == STAR || b == SLASH || b == PERCENT
  }

  /** Wrapping arithmetic; unsigned division that refuses zero. */
  function Apply(op: Byte, a: Word, b: Word): Result<Word, ParseError>
    requires IsArithmetic(op)
  {
    if op == PLUS then Ok((a + b) % WORD_SPAN)
    else if op == MINUS then Ok((a - b) % WORD_SPAN)
    else if op == STAR then Ok((a * b) % WORD_SPAN)
    else if b == 0 then Err(DivByZero)
    else if op == SLASH then Ok(a / b)
    else Ok(a % b)
  }

  /** A sum wraps at most once, and a difference borrows at most once. */
  lemma SumMeans(a: Word, b: Word)
    ensures (a + b) % 0x1_0000_0000 == if a + b < 0x1_0000_0000 then a + b else a + b - 0x1_0000_0000
    ensures (a - b) % 0x1_0000_0000 == if a >= b then a - b else a - b + 0x1_0000_0000
  {
  }

  lemma ProductMeans(p: nat) returns (k: nat)
    ensures p % 0x1_0000_0000 + k * 0x1_0000_0000 == p
  {
    k := p / 0x1_0000_0000;
  }

  lemma DivisionLaw(a: nat, b: nat)
    requires b > 0
    ensures a == b * (a / b) + a % b && 0 <= a % b < b
  {
  }

  /** Folding fails exactly on a zero divisor. */
  lemma ApplyFails(op: Byte, a: Word, b: Word)
    requires IsArithmetic(op)
    ensures Apply(op, a, b).Err? <==> (op == '/' as int || op == '%' as int) && b == 0
    ensures Apply(op, a, b).Err? ==> Apply(op, a, b) == Err(DivByZero)
  {
  }

  /** Sums wrap once at 2^32 and differences borrow once. */
  lemma SumsWrap(a: Word, b: Word)
    ensures Apply('+' as int, a, b) == Ok(if a + b < 0x1_0000_0000 then a + b else a + b - 0x1_0000_0000)
    ensures Apply('-' as int, a, b) == Ok(if a >= b then a - b else a - b + 0x1_0000_0000)
  {
    SumMeans(a, b);
  }

  /** A product is right up to `k` times 2^32. */
  lemma ProductsWrap(a: Word, b: Word) returns (k: nat)
    ensures Apply('*' as int, a, b).Ok? && Apply('*' as int, a, b).value + k * 0x1_0000_0000 == a * b
  {
    k := ProductMeans(a * b);
  }

  /** Quotient and remainder satisfy the division law. */
  lemma DivisionHolds(a: Word, b: Word)
    requires b > 0
    ensures var q, r := Apply('/' as int, a, b), Apply('%' as int, a, b);
            q.Ok? && r.Ok? && a == b * q.value + r.value && r.value < b
  {
    DivisionLaw(a, b);
  }

  const PEEK: Name := [0x70, 0x65, 0x65, 0x6B]

  /** `eval_expr` with no token in hand. */
  function EvalExpr(env: Env, ts: seq<Token>): (r: Parsed<Word>)
    requires env.Valid()
    ensures r.Got? ==> |r.rest| < |ts|
    decreases |ts|, 3
  {
    EvalFrom(env, First(ts), Rest(ts))
  }

  /** `eval_expr` with its leading token already consumed. */
  function EvalFrom(env: Env, head: Token, ts: seq<Token>): (r: Parsed<Word>)
    requires env.Valid()
    ensures r.Got? ==> |r.rest| <= |ts| && head != Eof
    decreases Weight(head, ts), 2
  {
    match Operand(env, head, ts)
    case Got(v, rest) => EvalLoop(env, v, rest)
    case Fail(e) => Fail(e)
  }

  /** A parenthesised expression, or a single term. */
  function Operand(env: Env, head: Token, ts: seq<Token>): (r: Parsed<Word>)
    requires env.Valid()
    ensures r.Got? ==> |r.rest| <= |ts| && head != Eof
    decreases Weight(head, ts), 1
  {
    if head == LParen then
      match EvalExpr(env, ts)
      case Got(v, rest) => if First(rest) == RParen then Got(v, Rest(rest)) else Fail(UnexpectedToken)
      case Fail(e) => Fail(e)
    else ResolveTerm(env, head, ts)
  }

  /** Fold operators into `acc` as long as one follows. */
  function EvalLoop(env: Env, acc: Word, ts: seq<Token>): (r: Parsed<Word>)
    requires env.Valid()
    ensures r.Got? ==> |r.rest| <= |ts|
    decreases |ts|, 1
  {
    match First(ts)
    case Operator(op) =>
      if !IsArithmetic(op) then Got(acc, ts)
      else
        var ts1 := Rest(ts);
        (match Operand(env, First(ts1), Rest(ts1))
         case Fail(e) => Fail(e)
         case Got(rhs, rest) =>
           match Apply(op, acc, rhs)
           case Ok(v) => EvalLoop(env, v, rest)
           case Err(e) => Fail(e))
    case _ => Got(acc, ts)
  }

  /** `peek ADDR` is a term: the read happens now. */
  function ResolveTerm(env: Env, t: Token, ts: seq<Token>): (r: Parsed<Word>)
    requires env.Valid()
    ensures r.Got? ==> |r.rest| <= |ts| && t != Eof
    decreases Weight(t, ts), 0
  {
    match t
    case Literal(v) => Got(v, ts)
    case Identifier(id) =>
      if id == PEEK then
        match AtomicTerm(env, ts)
        case Got(addr, rest) => Got(env.peek(addr), rest)
        case Fail(e) => Fail(e)
      else (
        match Lookup(env.hash, env.symbols, id)
        case Some(v) => Got(v, ts)
        case None => Fail(UnknownSymbol))
    case Error(kind) => Fail(LexFailure(kind))
    case _ => Fail(UnexpectedToken)
  }

  /** One term or a parenthesised expression, leaving trailing operators alone. */
  function AtomicTerm(env: Env, ts: seq<Token>): (r: Parsed<Word>)
    requires env.Valid()
    ensures r.Got? ==> |r.rest| < |ts|
    decreases |ts|, 2
  {
    Operand(env, First(ts), Rest(ts))
  }

  // ---------------------------------------------------------------------
  // The grammar and its meaning
  // ---------------------------------------------------------------------

  /**
    Expression trees.  Operators associate to the left and have one precedence,
    so a compound right operand is always a `Group`.
   */
  datatype Expr =
    | Lit(value: Word)
    | Var(name: Name)
    | Group(inner: Expr)
    | PeekAt(addr: Expr)
    | Bin(op: Byte, left: Expr, right: Expr)

  predicate WellFormed(e: Expr) {
    match e
    case Lit(_) => true
    case Var(n) => n != PEEK
    case Group(e1) => WellFormed(e1)
    case PeekAt(a) => WellFormed(a) && !a.Bin?
    case Bin(op, l, r) => IsArithmetic(op) && WellFormed(l) && WellFormed(r) && !r.Bin?
  }

  function ExprTokens(e: Expr): (ts: seq<Token>)
    ensures ts != []
  {
    match e
    case Lit(v) => [Literal(v)]
    case Var(n) => [Identifier(n)]
    case Group(e1) => [LParen] + (ExprTokens(e1) + [RParen])
    case PeekAt(a) => [Identifier(PEEK)] + ExprTokens(a)
    case Bin(op, l, r) => ExprTokens(l) + ([Operator(op)] + ExprTokens(r))
  }

  /** The meaning of a tree over a finite map of bindings; the first error, left to right, wins. */
  function Evaluate(m: map<Name, Word>, peek: Word -> Word, e: Expr): Result<Word, ParseError>
    requires WellFormed(e)
  {
    match e
    case Lit(v) => Ok(v)
    case Var(n) => if n in m then Ok(m[n]) else Err(UnknownSymbol)
    case Group(e1) => Evaluate(m, peek, e1)
    case PeekAt(a) => (match Evaluate(m, peek, a) case Ok(v) => Ok(peek(v)) case Err(x) => Err(x))
    case Bin(op, l, r) =>
      match Evaluate(m, peek, l)
      case Err(x) => Err(x)
      case Ok(a) =>
        match Evaluate(m, peek, r)
        case Err(x) => Err(x)
        case Ok(b) => Apply(op, a, b)
  }

  /** No operator follows: where an expression may end. */
  predicate Ends(ts: seq<Token>) {
    First(ts).Operator? ==> !IsArithmetic(First(ts).op)
  }

  /** A value followed by more input, as the parser reports it. */
  function Then<T>(r: Result<T, ParseError>, rest: seq<Token>): Parsed<T> {
    match r
    case Ok(v) => Got(v, rest)
    case Err(x) => Fail(x)
  }

  /** The symbol table of `env` is the map `m`. */
  ghost predicate Binds(env: Env, m: map<Name, Word>) {
    env.Valid() && Represents(env.hash, env.symbols, m)
  }

  /** Whatever the loop makes of the value of `e` and what follows it. */
  function Continue(env: Env, r: Result<Word, ParseError>, tail: seq<Token>): Parsed<Word>
    requires env.Valid()
  {
    match r
    case Ok(v) => EvalLoop(env, v, tail)
    case Err(x) => Fail(x)
  }

  /** A lone token that is not a parenthesis is a term. */
  lemma TermIs(env: Env, t: Token, tail: seq<Token>)
    requires env.Valid() && t != LParen
    ensures AtomicTerm(env, [t] + tail) == ResolveTerm(env, t, tail)
  {
    assert First([t] + tail) == t && Rest([t] + tail) == tail;
    assert AtomicTerm(env, [t] + tail) == Operand(env, t, tail);
  }

  lemma VarReads(env: Env, m: map<Name, Word>, n: Name, tail: seq<Token>)
    requires Binds(env, m) && n != PEEK
    ensures AtomicTerm(env, [Identifier(n)] + tail) == Then(if n in m then Ok(m[n]) else Err(UnknownSymbol), tail)
  {
    TermIs(env, Identifier(n), tail);
    RepresentsAnswers(env.hash, env.symbols, m, n);
  }

  lemma PeekReads(env: Env, ts: seq<Token>)
    requires env.Valid()
    ensures var r := AtomicTerm(env, ts);
            AtomicTerm(env, [Identifier(PEEK)] + ts) ==
            if r.Got? then Got(env.peek(r.value), r.rest) else r
  {
    TermIs(env, Identifier(PEEK), ts);
  }

  lemma GroupReads(env: Env, ts: seq<Token>)
    requires env.Valid()
    ensures var r := EvalExpr(env, ts);
            AtomicTerm(env, [LParen] + ts) ==
            if r.Got? && First(r.rest) == RParen then Got(r.value, Rest(r.rest))
            else if r.Got? then Fail(UnexpectedToken)
            else r
  {
    assert First([LParen] + ts) == LParen && Rest([LParen] + ts) == ts;
    assert AtomicTerm(env, [LParen] + ts) == Operand(env, LParen, ts);
  }

  lemma LoopReads(env: Env, acc: Word, op: Byte, ts: seq<Token>)
    requires env.Valid() && IsArithmetic(op)
    ensures var r := AtomicTerm(env, ts);
            EvalLoop(env, acc, [Operator(op)] + ts) ==
            if r.Got? then Continue(env, Apply(op, acc, r.value), r.rest) else r
  {
    assert First([Operator(op)] + ts) == Operator(op) && Rest([Operator(op)] + ts) == ts;
    assert AtomicTerm(env, ts) == Operand(env, First(ts), Rest(ts));
  }

  /** A tree that is not compound is read as one operand. */
  lemma {:induction false} OperandReads(env: Env, m: map<Name, Word>, e: Expr, tail: seq<Token>)
    requires Binds(env, m) && WellFormed(e) && !e.Bin?
    ensures AtomicTerm(env, ExprTokens(e) + tail) == Then(Evaluate(m, env.peek, e), tail)
    decreases e, 0
  {
    match e
    case Lit(v) => TermIs(env, Literal(v), tail);
    case Var(n) => VarReads(env, m, n, tail);
    case Group(e1) =>
      var more := [RParen] + tail;
      Assoc([LParen], ExprTokens(e1) + [RParen], tail);
      Assoc(ExprTokens(e1), [RParen], tail);
      GroupReads(env, ExprTokens(e1) + more);
      ExprReads(env, m, e1, more);
      assert Rest(more) == tail;
    case PeekAt(a) =>
      Assoc([Identifier(PEEK)], ExprTokens(a), tail);
      PeekReads(env, ExprTokens(a) + tail);
      OperandReads(env, m, a, tail);
  }

  lemma {:induction false} ExprReads(env: Env, m: map<Name, Word>, e: Expr, tail: seq<Token>)
    requires Binds(env, m) && WellFormed(e)
    ensures EvalExpr(env, ExprTokens(e) + tail) == Continue(env, Evaluate(m, env.peek, e), tail)
    decreases e, 1
  {
    if e.Bin? {
      var more := ExprTokens(e.right) + tail;
      Assoc(ExprTokens(e.left), [Operator(e.op)] + ExprTokens(e.right), tail);
      Assoc([Operator(e.op)], ExprTokens(e.right), tail);
      ExprReads(env, m, e.left, [Operator(e.op)] + more);
      OperandReads(env, m, e.right, tail);
      match Evaluate(m, env.peek, e.left)
      case Ok(a) => LoopReads(env, a, e.op, more);
      case Err(_) =>
    } else {
      OperandReads(env, m, e, tail);
    }
  }

  /** The parser computes the meaning of every tree. */
  lemma EvalRoundTrip(env: Env, m: map<Name, Word>, e: Expr, tail: seq<Token>)
    requires Binds(env, m) && WellFormed(e) && Ends(tail)
    ensures EvalExpr(env, ExprTokens(e) + tail) == Then(Evaluate(m, env.peek, e), tail)
  {
    ExprReads(env, m, e, tail);
  }

  // ---------------------------------------------------------------------
  // Conversely, whatever the parser accepts is a tree
  // ---------------------------------------------------------------------

  /** `e` was read from the front of `ts`, leaving `rest`, and is worth `v`. */
  ghost predicate ReadAs(env: Env, m: map<Name, Word>, e: Expr, ts: seq<Token>, v: Word, rest: seq<Token>) {
    WellFormed(e) && ts == ExprTokens(e) + rest && Evaluate(m, env.peek, e) == Ok(v)
  }

  /** Only three kinds of token start an operand. */
  lemma OperandStarts(env: Env, ts: seq<Token>)
    requires env.Valid() && AtomicTerm(env, ts).Got?
    ensures ts != [] && ts == [ts[0]] + Rest(ts)
    ensures StartsOperand(ts[0])
  {
    if !StartsOperand(First(ts)) {
      OperandFails(env, ts);
    }
  }

  predicate StartsOperand(t: Token) {
    t.LParen? || t.Literal? || t.Identifier?
  }

  lemma OperandFails(env: Env, ts: seq<Token>)
    requires env.Valid() && !StartsOperand(First(ts))
    ensures AtomicTerm(env, ts).Fail?
  {
    var t := First(ts);
    assert AtomicTerm(env, ts) == Operand(env, t, Rest(ts));
    assert Operand(env, t, Rest(ts)) == ResolveTerm(env, t, Rest(ts));
    TermFails(env, t, Rest(ts));
  }

  lemma TermFails(env: Env, t: Token, ts: seq<Token>)
    requires env.Valid() && !t.Literal? && !t.Identifier?
    ensures ResolveTerm(env, t, ts).Fail?
  {
  }

  lemma GroupTree(env: Env, m: map<Name, Word>, e: Expr, ts: seq<Token>, more: seq<Token>)
    requires Binds(env, m) && EvalExpr(env, more).Got? && First(EvalExpr(env, more).rest) == RParen
    requires ReadAs(env, m, e, more, EvalExpr(env, more).value, EvalExpr(env, more).rest) && ts == [LParen] + more
    ensures ReadAs(env, m, Group(e), ts, EvalExpr(env, more).value, Rest(EvalExpr(env, more).rest))
  {
    var rest := Rest(EvalExpr(env, more).rest);
    assert EvalExpr(env, more).rest == [RParen] + rest;
    Assoc([LParen], ExprTokens(e) + [RParen], rest);
    Assoc(ExprTokens(e), [RParen], rest);
  }

  lemma {:induction false} OperandTree(env: Env, m: map<Name, Word>, ts: seq<Token>) returns (e: Expr)
    requires Binds(env, m) && AtomicTerm(env, ts).Got?
    ensures ReadAs(env, m, e, ts, AtomicTerm(env, ts).value, AtomicTerm(env, ts).rest) && !e.Bin?
    decreases |ts|, 0
  {
    OperandStarts(env, ts);
    var more := Rest(ts);
    match ts[0] {
      case LParen =>
        GroupReads(env, more);
        var e1 := ExprTree(env, m, more);
        e := Group(e1);
        GroupTree(env, m, e1, ts, more);
      case Literal(v) =>
        TermIs(env, ts[0], more);
        e := Lit(v);
      case Identifier(n) =>
        if n == PEEK {
          PeekReads(env, more);
          var a := OperandTree(env, m, more);
          e := PeekAt(a);
          Assoc([Identifier(PEEK)], ExprTokens(a), AtomicTerm(env, more).rest);
        } else {
          VarReads(env, m, n, more);
          e := Var(n);
        }
      case _ =>
    }
  }

  /** The loop goes on to fold its next operand into a larger tree. */
  lemma LoopGrows(env: Env, m: map<Name, Word>, e0: Expr, acc: Word, ts: seq<Token>)
    returns (e1: Expr, v: Word, rest: seq<Token>)
    requires Binds(env, m) && WellFormed(e0) && Evaluate(m, env.peek, e0) == Ok(acc) && EvalLoop(env, acc, ts).Got?
    requires !Ends(ts)
    ensures WellFormed(e1) && Evaluate(m, env.peek, e1) == Ok(v) && ExprTokens(e1) + rest == ExprTokens(e0) + ts
    ensures EvalLoop(env, v, rest) == EvalLoop(env, acc, ts) && |rest| < |ts|
    decreases |ts|, 0
  {
    var op, more := ts[0].op, Rest(ts);
    assert ts == [Operator(op)] + more;
    LoopReads(env, acc, op, more);
    var right := OperandTree(env, m, more);
    rest := AtomicTerm(env, more).rest;
    v := Apply(op, acc, AtomicTerm(env, more).value).value;
    e1 := Bin(op, e0, right);
    BinTokens(op, e0, right, ts, rest);
  }

  lemma BinTokens(op: Byte, l: Expr, r: Expr, ts: seq<Token>, rest: seq<Token>)
    requires ts == [Operator(op)] + (ExprTokens(r) + rest)
    ensures ExprTokens(Bin(op, l, r)) + rest == ExprTokens(l) + ts
  {
    Assoc(ExprTokens(l), [Operator(op)] + ExprTokens(r), rest);
    Assoc([Operator(op)], ExprTokens(r), rest);
  }

  lemma {:induction false} LoopTree(env: Env, m: map<Name, Word>, e0: Expr, acc: Word, ts: seq<Token>) returns (e: Expr)
    requires Binds(env, m) && WellFormed(e0) && Evaluate(m, env.peek, e0) == Ok(acc) && EvalLoop(env, acc, ts).Got?
    ensures ReadAs(env, m, e, ExprTokens(e0) + ts, EvalLoop(env, acc, ts).value, EvalLoop(env, acc, ts).rest)
    ensures Ends(EvalLoop(env, acc, ts).rest)
    decreases |ts|, 1
  {
    if Ends(ts) {
      e := e0;
    } else {
      var e1, v, rest := LoopGrows(env, m, e0, acc, ts);
      e := LoopTree(env, m, e1, v, rest);
    }
  }

  /** Everything accepted is the spelling of a tree worth what was returned, and no shorter one. */
  lemma {:induction false} ExprTree(env: Env, m: map<Name, Word>, ts: seq<Token>) returns (e: Expr)
    requires Binds(env, m) && EvalExpr(env, ts).Got?
    ensures ReadAs(env, m, e, ts, EvalExpr(env, ts).value, EvalExpr(env, ts).rest)
    ensures Ends(EvalExpr(env, ts).rest)
    decreases |ts|, 2
  {
    var r := AtomicTerm(env, ts);
    assert EvalExpr(env, ts) == EvalFrom(env, First(ts), Rest(ts));
    var e0 := OperandTree(env, m, ts);
    e := LoopTree(env, m, e0, r.value, r.rest);
  }

  // ---------------------------------------------------------------------
  // From text
  // ---------------------------------------------------------------------

  /** Every name of the tree is one the lexer can produce. */
  predicate Spelled(e: Expr) {
    match e
    case Lit(_) => true
    case Var(n) => IsName(n)
    case Group(e1) => Spelled(e1)
    case PeekAt(a) => Spelled(a)
    case Bin(_, l, r) => Spelled(l) && Spelled(r)
  }

  lemma {:induction false} ExprPrintable(e: Expr)
    requires WellFormed(e) && Spelled(e)
    ensures forall t :: t in ExprTokens(e) ==> Printable(t)
  {
    match e
    case Lit(_) =>
    case Var(_) =>
    case Group(e1) => ExprPrintable(e1);
    case PeekAt(a) => ExprPrintable(a);
    case Bin(_, l, r) => ExprPrintable(l); ExprPrintable(r);
  }

  /** Rendering, lexing and evaluating a tree gives its left-to-right value or its first error. */
  lemma TextRoundTrip(env: Env, m: map<Name, Word>, e: Expr)
    requires Binds(env, m) && WellFormed(e) && Spelled(e)
    ensures (forall t :: t in ExprTokens(e) ==> Printable(t))
    ensures EvalExpr(env, Tokens(Render(ExprTokens(e)), 0)) == Then(Evaluate(m, env.peek, e), [])
  {
    ExprPrintable(e);
    LexRender([], ExprTokens(e));
    assert [] + Render(ExprTokens(e)) == Render(ExprTokens(e));
    assert ExprTokens(e) + [] == ExprTokens(e);
    EvalRoundTrip(env, m, e, []);
  }
}
