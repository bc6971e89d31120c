/**
  Calls, expressions and bindings typed at the prompt
  (src/compiler/parser.rs:289-316, 608-624): what each means, and exactly when
  the first word is taken for a command instead.
 */
module Prompt {
  import opened Words
  import opened Lexer
  import opened Symbols
  import opened Printer
  import opened Expressions
  import opened Statements
  import opened Lines
  import opened Sessions
  import opened SourceText
  import VM = ThreadedVm

  // ---------------------------------------------------------------------
  // Calls
  // ---------------------------------------------------------------------

  /** The only live function of its name. */
  lemma FindsIt(fns: seq<Fn>, i: nat)
    requires Distinct(fns) && i < |fns| && fns[i].name != []
    ensures FindFn(fns, fns[i].name, 0) == Some(i)
  {
    assert FindFn(fns, fns[i].name, 0).Some?;
  }

  /** What `NAME();` returns for a live function: its body, unless the name is that of a command. */
  function CallAnswer(f: Fn): Result<Outcome, ParseError> {
    match ShapeOf(f.name)
    case Other => Ok(Run(f.body + [VM.HALT], false))
    case NoArgs => Ok(Plain(f.name))
    case _ => Err(UnexpectedToken)
  }

  /** `()` is no operand. */
  lemma NoOperand(env: Env)
    requires env.Valid()
    ensures AtomicTerm(env, [LParen, RParen, Semicolon]) == Fail(UnexpectedToken)
  {
    var ts := [RParen, Semicolon];
    GroupReads(env, ts);
    assert [LParen] + ts == [LParen, RParen, Semicolon];
    assert EvalExpr(env, ts) == EvalFrom(env, RParen, Rest(ts));
    assert Operand(env, RParen, Rest(ts)) == ResolveTerm(env, RParen, Rest(ts));
  }

  lemma CallReads(env: Env, fns: seq<Fn>, i: nat)
    requires env.Valid() && Distinct(fns) && i < |fns| && fns[i].name != [] && |fns[i].body| < 128
    ensures Command(env, fns, fns[i].name, [LParen, RParen, Semicolon]) == CallAnswer(fns[i])
  {
    var ts := [LParen, RParen, Semicolon];
    NoOperand(env);
    FindsIt(fns, i);
    assert Rest(ts) == [RParen, Semicolon] && Rest(Rest(ts)) == [Semicolon];
    assert [] + fns[i].body == fns[i].body;
  }

  /**
    Calling a live function at the prompt returns its body and a halt if and
    only if its name is not that of a command; the tables stay.
   */
  lemma CallExact(hash: Hash, t: Tables, i: nat, mc: Machine)
    requires |t.symbols| == SLOTS && Distinct(t.fns) && i < |t.fns| && IsName(t.fns[i].name)
    requires |t.fns[i].body| < 128
    ensures var f := t.fns[i];
            var r := Answer(hash, t, Entry(CallText(f.name), mc.peek, mc.bits));
            && r == (CallAnswer(f), t)
            && (r.0 == Ok(Run(f.body + [VM.HALT], false)) <==> ShapeOf(f.name) == Other)
  {
    var ts := CallTokens(t.fns[i].name);
    TextTokens(ts);
    assert Rest(ts) == [LParen, RParen, Semicolon];
    CallReads(Env(hash, t.symbols, mc.peek, mc.bits), t.fns, i);
  }

  // ---------------------------------------------------------------------
  // Expressions
  // ---------------------------------------------------------------------

  /** The leaf an expression starts with. */
  function HeadOf(e: Expr): (h: Expr)
    ensures !h.Bin?
  {
    if e.Bin? then HeadOf(e.left) else e
  }

  /** It does not start with the name of a command. */
  predicate StartsPlain(e: Expr) {
    var h := HeadOf(e);
    h.Lit? || h.Group? || (h.Var? && ShapeOf(h.name) == Other)
  }

  lemma {:induction false} HeadFirst(e: Expr)
    ensures ExprTokens(e)[0] == ExprTokens(HeadOf(e))[0]
  {
    if e.Bin? {
      HeadFirst(e.left);
    }
  }

  lemma {:induction false} PlainFirst(e: Expr, tail: seq<Token>)
    requires WellFormed(e) && StartsPlain(e) && First(tail) != LParen
    ensures var ts := ExprTokens(e) + tail;
            || First(ts).Literal? || First(ts) == LParen
            || (First(ts).Identifier? && ShapeOf(First(ts).name) == Other && First(Rest(ts)) != LParen)
  {
    HeadFirst(e);
    if HeadOf(e).Var? {
      HeadIsLeftmost(e);
      LeftmostFirst(e, tail);
    }
  }

  lemma {:induction false} HeadIsLeftmost(e: Expr)
    requires HeadOf(e).Var?
    ensures Leftmost(e) == Some(HeadOf(e).name)
  {
    if e.Bin? {
      HeadIsLeftmost(e.left);
    }
  }

  /** The answer to an expression worth `r`. */
  function Valued(r: Result<Word, ParseError>): Result<Outcome, ParseError> {
    match r
    case Ok(v) => Ok(Run(ValueProgram(v), true))
    case Err(x) => Err(x)
  }

  lemma ValueLineReads(env: Env, t: Tables, m: map<Name, Word>, e: Expr, tail: seq<Token>)
    requires Binds(env, m) && |t.symbols| == SLOTS && WellFormed(e) && StartsPlain(e)
    requires Ends(tail) && First(tail) != LParen
    ensures ParseLine(env, t, ExprTokens(e) + tail) == (Valued(EndedBy(Evaluate(m, env.peek, e), tail)), t)
  {
    var ts := ExprTokens(e) + tail;
    PlainFirst(e, tail);
    EvalRoundTrip(env, m, e, tail);
    assert EvalExpr(env, ts) == EvalFrom(env, First(ts), Rest(ts));
    assert OtherLine(env, t.fns, ts) == ValueCommand(env, First(ts), Rest(ts));
  }

  /** An expression that does not start with a command's name, and whatever may follow it on the line. */
  lemma ExpressionEnds(hash: Hash, t: Tables, m: map<Name, Word>, e: Expr, tail: seq<Token>, mc: Machine)
    requires Represents(hash, t.symbols, m) && WellFormed(e) && Spelled(e) && StartsPlain(e)
    requires AllPrintable(tail) && Ends(tail) && First(tail) != LParen
    ensures AllPrintable(ExprTokens(e) + tail)
    ensures Answer(hash, t, Entry(Render(ExprTokens(e) + tail), mc.peek, mc.bits)) ==
            (Valued(EndedBy(Evaluate(m, mc.peek, e), tail)), t)
  {
    ExprPrintable(e);
    TextTokens(ExprTokens(e) + tail);
    ValueLineReads(Env(hash, t.symbols, mc.peek, mc.bits), t, m, e, tail);
  }

  /** After a leading name comes an operator or the end. */
  lemma {:induction false} AfterHead(e: Expr, tail: seq<Token>)
    requires WellFormed(e) && HeadOf(e).Var? && (First(tail).Operator? || First(tail) == Semicolon)
    ensures First(Rest(ExprTokens(e) + tail)).Operator? || First(Rest(ExprTokens(e) + tail)) == Semicolon
  {
    if e.Bin? {
      var more := [Operator(e.op)] + ExprTokens(e.right);
      Assoc(ExprTokens(e.left), more, tail);
      AfterHead(e.left, more + tail);
    } else {
      assert Rest(ExprTokens(e) + tail) == tail;
    }
  }

  /** Evaluation knows two errors. */
  lemma {:induction false} EvaluateErrors(m: map<Name, Word>, peek: Word -> Word, e: Expr)
    requires WellFormed(e)
    ensures Evaluate(m, peek, e).Err? ==>
            Evaluate(m, peek, e) == Err(UnknownSymbol) || Evaluate(m, peek, e) == Err(DivByZero)
  {
    match e
    case Lit(_) =>
    case Var(_) =>
    case Group(e1) => EvaluateErrors(m, peek, e1);
    case PeekAt(a) => EvaluateErrors(m, peek, a);
    case Bin(op, l, r) =>
      EvaluateErrors(m, peek, l);
      EvaluateErrors(m, peek, r);
      if Evaluate(m, peek, l).Ok? && Evaluate(m, peek, r).Ok? {
        ApplyFails(op, Evaluate(m, peek, l).value, Evaluate(m, peek, r).value);
      }
  }

  /** A command that wants an operand or a name refuses anything else. */
  lemma CommandRefuses(env: Env, fns: seq<Fn>, id: Name, ts: seq<Token>)
    requires env.Valid() && ShapeOf(id) != Other && (First(ts).Operator? || First(ts) == Semicolon)
    ensures Command(env, fns, id, ts) == if ShapeOf(id) == NoArgs then Ok(Plain(id)) else Err(UnexpectedToken)
  {
    assert ts == [ts[0]] + Rest(ts);
    TermIs(env, ts[0], Rest(ts));
  }

  /** The line goes to the command its first name stands for. */
  lemma CommandLine(env: Env, t: Tables, e: Expr, id: Name)
    requires env.Valid() && |t.symbols| == SLOTS && ExprTokens(HeadOf(e))[0] == Identifier(id)
    ensures var ts := ExprTokens(e) + [Semicolon];
            ParseLine(env, t, ts) == (Command(env, t.fns, id, Rest(ts)), t)
  {
    HeadFirst(e);
    assert First(ExprTokens(e) + [Semicolon]) == Identifier(id);
  }

  /** A name that is a command's is never evaluated. */
  lemma NameNotValue(env: Env, t: Tables, m: map<Name, Word>, e: Expr)
    requires env.Valid() && |t.symbols| == SLOTS && WellFormed(e) && HeadOf(e).Var? && ShapeOf(HeadOf(e).name) != Other
    ensures var r := ParseLine(env, t, ExprTokens(e) + [Semicolon]);
            r.1 == t && r.0 != Valued(Evaluate(m, env.peek, e)) && !(r.0.Ok? && r.0.value.Run?)
  {
    AfterHead(e, [Semicolon]);
    CommandRefuses(env, t.fns, HeadOf(e).name, Rest(ExprTokens(e) + [Semicolon]));
    CommandLine(env, t, e, HeadOf(e).name);
    EvaluateErrors(m, env.peek, e);
  }

  /** The tokens of an expression that starts with a peek. */
  lemma {:induction false} HeadPeek(e: Expr, tail: seq<Token>) returns (after: seq<Token>)
    requires HeadOf(e).PeekAt?
    ensures ExprTokens(e) + tail == [Identifier(PEEK)] + (ExprTokens(HeadOf(e).addr) + after)
    ensures if e.Bin? then First(after).Operator? else after == tail
  {
    if e.Bin? {
      var more := [Operator(e.op)] + ExprTokens(e.right);
      Assoc(ExprTokens(e.left), more, tail);
      after := HeadPeek(e.left, more + tail);
    } else {
      Assoc([Identifier(PEEK)], ExprTokens(e.addr), tail);
      after := tail;
    }
  }

  /** What fails in the leading peek fails the expression. */
  lemma {:induction false} HeadFails(m: map<Name, Word>, peek: Word -> Word, e: Expr)
    requires WellFormed(e) && HeadOf(e).PeekAt?
    ensures WellFormed(HeadOf(e).addr) && !HeadOf(e).addr.Bin?
    ensures Evaluate(m, peek, HeadOf(e).addr).Err? ==> Evaluate(m, peek, e) == Evaluate(m, peek, HeadOf(e).addr)
  {
    if e.Bin? {
      HeadFails(m, peek, e.left);
    }
  }

  /** A leading `peek` is a command, which fails as the expression does when its address does. */
  lemma PeekNotValue(env: Env, t: Tables, m: map<Name, Word>, e: Expr)
    requires Binds(env, m) && |t.symbols| == SLOTS && WellFormed(e) && HeadOf(e).PeekAt?
    ensures WellFormed(HeadOf(e).addr)
    ensures var r := ParseLine(env, t, ExprTokens(e) + [Semicolon]);
            && r.1 == t && !(r.0.Ok? && r.0.value.Run?)
            && (r.0 == Valued(Evaluate(m, env.peek, e)) <==> Evaluate(m, env.peek, HeadOf(e).addr).Err?)
  {
    var a := HeadOf(e).addr;
    HeadFails(m, env.peek, e);
    EvaluateErrors(m, env.peek, e);
    var after := HeadPeek(e, [Semicolon]);
    CommandLine(env, t, e, PEEK);
    assert Rest(ExprTokens(e) + [Semicolon]) == ExprTokens(a) + after;
    OperandReads(env, m, a, after);
    assert ShapeOf(PEEK) == Terms(false, FirstArg);
    assert Command(env, t.fns, PEEK, ExprTokens(a) + after) ==
           TermsCommand(env, PEEK, false, FirstArg, ExprTokens(a) + after);
  }

  /** The expression starts with a peek whose address cannot be evaluated. */
  predicate PeekFails(m: map<Name, Word>, peek: Word -> Word, e: Expr)
    requires WellFormed(e)
  {
    var h := HeadOf(e);
    h.PeekAt? && WellFormed(h.addr) && Evaluate(m, peek, h.addr).Err?
  }

  /**
    An expression typed at the prompt is answered with a program for its
    left-to-right value, or with its first error, if and only if it does not
    start with the name of a command, or starts with a peek whose address fails.
    Otherwise the command answers, and never with a program.  The tables stay.
   */
  lemma PromptExpression(hash: Hash, t: Tables, m: map<Name, Word>, e: Expr, mc: Machine)
    requires Represents(hash, t.symbols, m) && WellFormed(e) && Spelled(e)
    ensures AllPrintable(ExprTokens(e) + [Semicolon])
    ensures var r := Answer(hash, t, Entry(Render(ExprTokens(e) + [Semicolon]), mc.peek, mc.bits));
            && r.1 == t
            && (r.0 == Valued(Evaluate(m, mc.peek, e)) <==> StartsPlain(e) || PeekFails(m, mc.peek, e))
            && (!StartsPlain(e) ==> !(r.0.Ok? && r.0.value.Run?))
  {
    var env := Env(hash, t.symbols, mc.peek, mc.bits);
    ExprPrintable(e);
    TextTokens(ExprTokens(e) + [Semicolon]);
    if StartsPlain(e) {
      ValueLineReads(env, t, m, e, [Semicolon]);
    } else if HeadOf(e).Var? {
      NameNotValue(env, t, m, e);
    } else {
      PeekNotValue(env, t, m, e);
    }
  }

  // ---------------------------------------------------------------------
  // Bindings
  // ---------------------------------------------------------------------

  lemma LetReads(env: Env, m: map<Name, Word>, n: Name, e: Expr, tail: seq<Token>)
    requires Binds(env, m) && WellFormed(e) && Ends(tail)
    ensures var r := EndedBy(Evaluate(m, env.peek, e), tail);
            LetArgs(env, Rest(LetTokens(n, e, tail))) ==
            if |n| > 16 then Err(NameTooLong) else if r.Ok? then Ok(Binding(n, r.value)) else Err(r.error)
  {
    var body := ExprTokens(e) + tail;
    var ts := Rest(LetTokens(n, e, tail));
    assert ts == [Identifier(n), Operator('=' as int)] + body;
    assert Rest(ts) == [Operator('=' as int)] + body;
    assert Rest(Rest(ts)) == body;
    EvalRoundTrip(env, m, e, tail);
  }

  /** What a binding of `n` to an expression worth `v` does. */
  ghost predicate BindsTo(hash: Hash, t: Tables, m: map<Name, Word>, n: Name, v: Result<Word, ParseError>,
                          r: Result<Outcome, ParseError>, u: Tables) {
    if |n| > 16 then r == Err(NameTooLong) && u == t
    else if v.Err? then r == Err(v.error) && u == t
    else if n in m || |m| < 32
    then r == Ok(Bound(n, v.value)) && u.fns == t.fns && Represents(hash, u.symbols, m[n := v.value])
    else r == Err(SymbolTableFull) && u == t
  }

  lemma LetLineBinds(env: Env, t: Tables, m: map<Name, Word>, n: Name, e: Expr, tail: seq<Token>)
    requires Binds(env, m) && env.symbols == t.symbols && WellFormed(e) && Ends(tail)
    ensures var r := LetLine(env, t, Rest(LetTokens(n, e, tail)));
            BindsTo(env.hash, t, m, n, EndedBy(Evaluate(m, env.peek, e), tail), r.0, r.1)
  {
    LetReads(env, m, n, e, tail);
    var v := EndedBy(Evaluate(m, env.peek, e), tail);
    if |n| <= 16 && v.Ok? {
      InsertIsUpdate(env.hash, t.symbols, m, n, v.value);
    }
  }

  /** A binding typed at the prompt updates the map with the value of its expression, exactly while it fits. */
  lemma LetExact(hash: Hash, t: Tables, m: map<Name, Word>, n: Name, e: Expr, tail: seq<Token>, mc: Machine)
    requires Represents(hash, t.symbols, m) && WellFormed(e) && Spelled(e) && IsName(n)
    requires AllPrintable(tail) && Ends(tail)
    ensures AllPrintable(LetTokens(n, e, tail))
    ensures var r := Answer(hash, t, Entry(Render(LetTokens(n, e, tail)), mc.peek, mc.bits));
            BindsTo(hash, t, m, n, EndedBy(Evaluate(m, mc.peek, e), tail), r.0, r.1)
  {
    ExprPrintable(e);
    TextTokens(LetTokens(n, e, tail));
    LetLineBinds(Env(hash, t.symbols, mc.peek, mc.bits), t, m, n, e, tail);
  }

  lemma InsertIsUpdate(hash: Hash, t: seq<Slot>, m: map<Name, Word>, n: Name, v: Word)
    requires Represents(hash, t, m)
    ensures var r := Insert(hash, t, n, v);
            if n in m || |m| < 32 then r.Some? && Represents(hash, r.value, m[n := v]) else r == None
  {
    InsertFits(hash, t, m, n, v);
    if Insert(hash, t, n, v).Some? {
      InsertRepresents(hash, t, m, n, v);
    }
  }
}
