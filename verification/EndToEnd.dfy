/**
  From source text to both back ends: a function is typed in, any number of
  other lines and imports follow, it is called, and the call runs on the
  dispatch loop or as Thumb-2 code; or it goes through the program store first
  (src/compiler/parser.rs:100-121, 240-267, 318-358, 775-786).
 */
module EndToEnd {
  import opened Words
  import opened Lexer
  import opened Symbols
  import opened Printer
  import opened Expressions
  import opened Streams
  import opened Statements
  import opened Lines
  import opened Sessions
  import opened SourceText
  import opened Prompt
  import opened Agreement
  import VM = ThreadedVm
  import Thumb2
  import Native
  import ProgramStore

  // ---------------------------------------------------------------------
  // Definitions
  // ---------------------------------------------------------------------

  lemma HeaderReads(n: Name, rest: seq<Token>)
    requires |n| <= 16
    ensures FnHeader([Identifier(n), LParen, RParen, LBrace] + rest) == Got(n, rest)
  {
    var ts := [Identifier(n), LParen, RParen, LBrace] + rest;
    assert Rest(ts) == [LParen, RParen, LBrace] + rest;
    assert Rest(Rest(ts)) == [RParen, LBrace] + rest;
    assert Rest(Rest(Rest(ts))) == [LBrace] + rest;
    assert Rest(Rest(Rest(Rest(ts)))) == rest;
  }

  lemma BodyReads(env: Env, sc: Scope, ss: seq<Stmt>)
    requires Sees(env, sc) && AreStmts(ss)
    ensures ParseBlock(env, sc.fns, [], StmtsTokens(ss) + [RBrace]) == AppendsAll([], ElaborateAll(sc, ss, 0), [])
  {
    BlockCompiles(env, sc, ss, [], []);
    assert [RBrace] + [] == [RBrace];
  }

  /** The function a definition stores, or its first error. */
  function Stored(n: Name, r: Result<seq<Code>, ParseError>): Result<Fn, ParseError> {
    if |n| > 16 then Err(NameTooLong)
    else
      match r
      case Err(x) => Err(x)
      case Ok(cs) => if |AllWords(cs)| > 32 then Err(StreamFull) else Ok(Fn(n, AllWords(cs)))
  }

  /** What defining code under a name does to the function table. */
  function Define(fns: seq<Fn>, n: Name, r: Result<seq<Code>, ParseError>): Result<seq<Fn>, ParseError> {
    match Stored(n, r)
    case Err(x) => Err(x)
    case Ok(f) => AddFn(fns, f)
  }

  lemma FnReads(env: Env, sc: Scope, n: Name, ss: seq<Stmt>)
    requires Sees(env, sc) && AreStmts(ss)
    ensures FnArgs(env, sc.fns, Rest(FnTokens(n, ss))) == Stored(n, ElaborateAll(sc, ss, 0))
  {
    var body := StmtsTokens(ss) + [RBrace];
    assert Rest(FnTokens(n, ss)) == [Identifier(n), LParen, RParen, LBrace] + body;
    if |n| <= 16 {
      HeaderReads(n, body);
      BodyReads(env, sc, ss);
      if ElaborateAll(sc, ss, 0).Ok? {
        var words := AllWords(ElaborateAll(sc, ss, 0).value);
        assert [] + words == words;
      }
    }
  }

  /** Typing a definition stores exactly its unrolled, inlined code, or reports exactly its first error. */
  lemma DefinitionExact(hash: Hash, t: Tables, m: map<Name, Word>, codes: seq<seq<Code>>, srcs: seq<Origin>,
                        n: Name, ss: seq<Stmt>, mc: Machine)
    requires Inv(hash, t, m, codes, srcs) && IsName(n) && AreStmts(ss) && SpelledAll(ss)
    ensures var r := Define(t.fns, n, ElaborateAll(Scope(m, mc.peek, mc.bits, t.fns, codes), ss, 0));
            Answer(hash, t, Entry(FnText(n, ss), mc.peek, mc.bits)) ==
            if r.Ok? then (Ok(FnDefined(n)), t.(fns := r.value)) else (Err(r.error), t)
  {
    var env := Env(hash, t.symbols, mc.peek, mc.bits);
    InvSees(env, t, m, codes, srcs);
    FnReads(env, Scope(m, mc.peek, mc.bits, t.fns, codes), n, ss);
    DefinitionText(hash, t, n, ss, mc);
  }

  lemma DefinitionText(hash: Hash, t: Tables, n: Name, ss: seq<Stmt>, mc: Machine)
    requires |t.symbols| == SLOTS && IsName(n) && AreStmts(ss) && SpelledAll(ss)
    ensures Answer(hash, t, Entry(FnText(n, ss), mc.peek, mc.bits)) ==
            FnLine(Env(hash, t.symbols, mc.peek, mc.bits), t, Rest(FnTokens(n, ss)))
  {
    StmtsPrintable(ss);
    TextTokens(FnTokens(n, ss));
    assert First(FnTokens(n, ss)) == KwFn;
  }

  // ---------------------------------------------------------------------
  // Calls
  // ---------------------------------------------------------------------

  /** The tables after more lines and imports. */
  function AfterMore(hash: Hash, t: Tables, es: seq<Event>): (u: Tables)
    requires |t.symbols| == SLOTS
    ensures |u.symbols| == SLOTS && |u.fns| == |t.fns|
    decreases |es|
  {
    if es == [] then t else AfterMore(hash, Happens(hash, t, es[0]), es[1..])
  }

  /** No sequence of lines and imports moves or changes a live function. */
  lemma {:induction false} LinesKeepFns(hash: Hash, t: Tables, es: seq<Event>, i: nat)
    requires |t.symbols| == SLOTS && i < |t.fns| && t.fns[i].name != []
    ensures AfterMore(hash, t, es).fns[i] == t.fns[i]
    decreases |es|
  {
    if es != [] {
      EventKeepsFns(hash, t, es[0], i);
      LinesKeepFns(hash, Happens(hash, t, es[0]), es[1..], i);
    }
  }

  lemma AddKeepsDistinct(fns: seq<Fn>, f: Fn)
    requires Distinct(fns) && AddFn(fns, f).Ok?
    ensures Distinct(AddFn(fns, f).value)
  {
  }

  lemma EventKeepsDistinct(hash: Hash, t: Tables, ev: Event)
    requires |t.symbols| == SLOTS && Distinct(t.fns)
    ensures Distinct(Happens(hash, t, ev).fns)
  {
    match ev
    case Import(n, words, _) =>
      if ImportFn(t.fns, n, words).Ok? {
        AddKeepsDistinct(t.fns, Fn(n, words));
      }
    case Line(e) => LineKeepsDistinct(Env(hash, t.symbols, e.peek, e.bits), t, Tokens(e.text, 0));
  }

  lemma LineKeepsDistinct(env: Env, t: Tables, ts: seq<Token>)
    requires env.Valid() && |t.symbols| == SLOTS && Distinct(t.fns)
    ensures Distinct(ParseLine(env, t, ts).1.fns)
  {
    if First(ts) == KwFn && FnArgs(env, t.fns, Rest(ts)).Ok? && AddFn(t.fns, FnArgs(env, t.fns, Rest(ts)).value).Ok? {
      AddKeepsDistinct(t.fns, FnArgs(env, t.fns, Rest(ts)).value);
    }
  }

  lemma {:induction false} LinesKeepDistinct(hash: Hash, t: Tables, es: seq<Event>)
    requires |t.symbols| == SLOTS && Distinct(t.fns)
    ensures Distinct(AfterMore(hash, t, es).fns)
    decreases |es|
  {
    if es != [] {
      EventKeepsDistinct(hash, t, es[0]);
      LinesKeepDistinct(hash, Happens(hash, t, es[0]), es[1..]);
    }
  }

  /** A live function is what a call finds, any number of lines and imports later. */
  lemma DefinedCall(hash: Hash, t: Tables, i: nat, more: seq<Event>, call: Machine)
    requires |t.symbols| == SLOTS && Distinct(t.fns) && i < |t.fns|
    requires IsName(t.fns[i].name) && |t.fns[i].body| < 128
    ensures var f := t.fns[i];
            Answer(hash, AfterMore(hash, t, more), Entry(CallText(f.name), call.peek, call.bits)).0 == CallAnswer(f)
  {
    LinesKeepDistinct(hash, t, more);
    LinesKeepFns(hash, t, more, i);
    CallExact(hash, AfterMore(hash, t, more), i, call);
  }

  /** A function that an event has just added can be called from then on. */
  lemma AddedCall(hash: Hash, t: Tables, ev: Event, f: Fn, more: seq<Event>, call: Machine)
    requires |t.symbols| == SLOTS && Distinct(t.fns) && IsName(f.name) && |f.body| < 128
    requires AddFn(t.fns, f).Ok? && Happens(hash, t, ev).fns == AddFn(t.fns, f).value
    ensures var u := AfterMore(hash, Happens(hash, t, ev), more);
            Answer(hash, u, Entry(CallText(f.name), call.peek, call.bits)).0 == CallAnswer(f)
  {
    EventKeepsDistinct(hash, t, ev);
    DefinedCall(hash, Happens(hash, t, ev), FreeSlot(t.fns, 0).value, more, call);
  }

  /**
    Statement compilation preserves meaning, from text to run: define a
    function after any session, let any lines and imports follow, call it.  The
    call returns the function's program, if and only if its name is not that of
    a command, and the program runs as executing the defining source directly,
    with the constants the definition saw: same accesses, same operand stack,
    and cleanly.
   */
  lemma DefineThenCall(hash: Hash, es: seq<Event>, n: Name, ss: seq<Stmt>, def: Machine,
                       more: seq<Event>, call: Machine, bus: Bus)
    returns (m: map<Name, Word>, codes: seq<seq<Code>>)
    requires ImportsVetted(hash, es)
    requires IsName(n) && AreStmts(ss) && SpelledAll(ss)
    ensures Inv(hash, After(hash, es), m, codes, Origins(hash, es))
    ensures var t := After(hash, es);
            var source := ElaborateAll(Scope(m, def.peek, def.bits, t.fns, codes), ss, 0);
            Answer(hash, t, Entry(FnText(n, ss), def.peek, def.bits)).0.Ok? ==>
              source.Ok? && CallMeans(hash, t, n, ss, def, source.value, more, call) && SourceRuns(source.value, bus)
  {
    m, codes := EverySession(hash, es);
    DefinedMeans(hash, After(hash, es), m, codes, Origins(hash, es), n, ss, def, more, call, bus);
  }

  /** After the definition and more events, a call returns the words of `cs` exactly when the name is no command's. */
  ghost predicate CallMeans(hash: Hash, t: Tables, n: Name, ss: seq<Stmt>, def: Machine, cs: seq<Code>,
                            more: seq<Event>, call: Machine)
    requires |t.symbols| == SLOTS && IsName(n) && AreStmts(ss) && SpelledAll(ss)
  {
    var t1 := Answer(hash, t, Entry(FnText(n, ss), def.peek, def.bits)).1;
    var r := Answer(hash, AfterMore(hash, t1, more), Entry(CallText(n), call.peek, call.bits)).0;
    r == Ok(Run(AllWords(cs) + [VM.HALT], false)) <==> ShapeOf(n) == Other
  }

  /** The words of `cs` run in the VM as `cs` executes directly, and cleanly. */
  ghost predicate SourceRuns(cs: seq<Code>, bus: Bus) {
    var words, s := AllWords(cs) + [VM.HALT], VM.State([], bus);
    VM.Run(words, 0, s) == Some(ExecAll(cs, s)) && VM.RunsClean(words, 0, s)
  }

  lemma DefinedMeans(hash: Hash, t: Tables, m: map<Name, Word>, codes: seq<seq<Code>>, srcs: seq<Origin>,
                     n: Name, ss: seq<Stmt>, def: Machine, more: seq<Event>, call: Machine, bus: Bus)
    requires Inv(hash, t, m, codes, srcs) && IsName(n) && AreStmts(ss) && SpelledAll(ss)
    ensures var source := ElaborateAll(Scope(m, def.peek, def.bits, t.fns, codes), ss, 0);
            Answer(hash, t, Entry(FnText(n, ss), def.peek, def.bits)).0.Ok? ==>
              source.Ok? && CallMeans(hash, t, n, ss, def, source.value, more, call) && SourceRuns(source.value, bus)
  {
    DefinitionExact(hash, t, m, codes, srcs, n, ss, def);
    var e := Entry(FnText(n, ss), def.peek, def.bits);
    if Answer(hash, t, e).0.Ok? {
      var cs := ElaborateAll(Scope(m, def.peek, def.bits, t.fns, codes), ss, 0).value;
      AddedCall(hash, t, Line(e), Fn(n, AllWords(cs)), more, call);
      CodeRuns(cs, bus);
    }
  }

  // ---------------------------------------------------------------------
  // Both back ends
  // ---------------------------------------------------------------------

  /**
    Every function body compiles to Thumb-2 code, so a call always runs
    natively; what it does is what the source does, on every bus, exactly when
    the unrolled body pokes a single address before any peek.
   */
  lemma NativeCallMeans(cs: seq<Code>)
    requires |AllWords(cs)| <= 32
    ensures Native.Compiled(AllWords(cs) + [VM.HALT]).Some?
    ensures (forall regs, bus :: NativeMatches(cs, regs, bus)) <==> SingleTarget(AllBlocks(cs))
  {
    var bs := AllBlocks(cs);
    assert Program(bs) == AllWords(cs) + [VM.HALT];
    AgreeOnEveryBus(bs);
    forall regs, bus ensures NativeMatches(cs, regs, bus) <==> BackEndsAgree(bs, regs, bus) {
      CodeRuns(cs, bus);
    }
    if forall regs, bus :: NativeMatches(cs, regs, bus) {
      forall regs, bus ensures BackEndsAgree(bs, regs, bus) {
        assert NativeMatches(cs, regs, bus);
      }
    }
    if SingleTarget(bs) {
      forall regs, bus ensures NativeMatches(cs, regs, bus) {
        assert BackEndsAgree(bs, regs, bus);
      }
    }
  }

  /** The generated code for a body makes the accesses its source makes. */
  ghost predicate NativeMatches(cs: seq<Code>, regs: map<nat, Word>, bus: Bus) {
    var code := Native.Compiled(AllWords(cs) + [VM.HALT]);
    && code.Some?
    && var end := Thumb2.RunCode(code.value, Thumb2.Cpu(regs, bus));
       end.Some? && end.value.bus == ExecAll(cs, VM.State([], bus)).bus
  }

  /** The operator symbol of a primitive. */
  function Symbol(op: VM.BinOp): Byte {
    match op
    case Plus => PLUS
    case Minus => MINUS
    case Times => STAR
    case Over => SLASH
  }

  /** Folding in the parser and computing in the VM agree, except that a zero divisor is an error only in the parser. */
  lemma FoldMatchesVm(op: VM.BinOp, a: Word, b: Word)
    ensures Expressions.Apply(Symbol(op), a, b) == if op.Over? && b == 0 then Err(DivByZero) else Ok(VM.Apply(op, a, b))
  {
  }

  /** The tree of a chain of terms, left to right. */
  function ChainTree(e: Expr, ts: seq<Term>): Expr
    decreases |ts|
  {
    if ts == [] then e else ChainTree(Bin(Symbol(ts[0].op), e, Lit(ts[0].arg)), ts[1..])
  }

  predicate DividesByZero(ts: seq<Term>) {
    exists t :: t in ts && t.op.Over? && t.arg == 0
  }

  /**
    Folding a chain at compile time gives what running it in the VM gives, and
    is refused exactly when the chain divides by a literal zero.
   */
  lemma {:induction false} FoldedChain(m: map<Name, Word>, peek: Word -> Word, e: Expr, a: Word, ts: seq<Term>)
    requires WellFormed(e) && Evaluate(m, peek, e) == Ok(a)
    ensures WellFormed(ChainTree(e, ts))
    ensures Evaluate(m, peek, ChainTree(e, ts)) == if DividesByZero(ts) then Err(DivByZero) else Ok(ChainValue(a, ts))
    decreases |ts|
  {
    if ts != [] {
      var t, rest := ts[0], ts[1..];
      var e1 := Bin(Symbol(t.op), e, Lit(t.arg));
      FoldMatchesVm(t.op, a, t.arg);
      if t.op.Over? && t.arg == 0 {
        FailedChain(m, peek, e1, rest);
        assert t in ts;
      } else {
        FoldedChain(m, peek, e1, VM.Apply(t.op, a, t.arg), rest);
        assert forall u :: u in ts <==> u == t || u in rest;
      }
    }
  }

  lemma {:induction false} FailedChain(m: map<Name, Word>, peek: Word -> Word, e: Expr, ts: seq<Term>)
    requires WellFormed(e) && Evaluate(m, peek, e) == Err(DivByZero)
    ensures WellFormed(ChainTree(e, ts)) && Evaluate(m, peek, ChainTree(e, ts)) == Err(DivByZero)
    decreases |ts|
  {
    if ts != [] {
      FailedChain(m, peek, Bin(Symbol(ts[0].op), e, Lit(ts[0].arg)), ts[1..]);
    }
  }

  /** A value program returns its value on either back end. */
  lemma NativeValueMeans(v: Word, regs: map<nat, Word>, bus: Bus)
    ensures Native.Compiled(ValueProgram(v)).Some?
    ensures var end := Thumb2.RunCode(Native.Compiled(ValueProgram(v)).value, Thumb2.Cpu(regs, bus));
            end.Some? && end.value.Reg(0) == v && end.value.bus == bus
    ensures VM.Run(ValueProgram(v), 0, VM.State([], bus)) == Some(VM.State([v], bus))
  {
    assert ChainWords(v, []) == ValueProgram(v);
    ChainsAgree(v, [], regs, bus);
    assert ChainValue(v, []) == v;
  }

  /** `run`: generated code when the stream compiles, the dispatch loop otherwise. */
  ghost function RunProgram(p: Outcome, regs: map<nat, Word>, bus: Bus): Option<(Option<Word>, Bus)>
    requires p.Run?
  {
    match Native.Compiled(p.words)
    case Some(code) =>
      (match Thumb2.RunCode(code, Thumb2.Cpu(regs, bus))
       case Some(cpu) => Some((if p.yieldsValue then Some(cpu.Reg(0)) else None, cpu.bus))
       case None => None)
    case None => Threaded(p, bus)
  }

  /** The reference: the dispatch loop and a final pop. */
  ghost function Threaded(p: Outcome, bus: Bus): Option<(Option<Word>, Bus)>
    requires p.Run?
  {
    match VM.Run(p.words, 0, VM.State([], bus))
    case Some(s) => Some((if p.yieldsValue then Some(s.Top()) else None, s.bus))
    case None => None
  }

  /**
    After any session with vetted imports, running whatever program a line returns gives what the
    dispatch loop gives: always for a value, and for a block program exactly
    when every poke finds its own address in the accumulator.
   */
  lemma EveryRunAgrees(hash: Hash, es: seq<Event>, e: Entry, regs: map<nat, Word>, bus: Bus) returns (bs: seq<Block>)
    requires ImportsVetted(hash, es)
    ensures var r := Answer(hash, After(hash, es), e).0;
            r.Ok? && r.value.Run? ==>
              var p := r.value;
              && Native.Compiled(p.words).Some? && Threaded(p, bus).Some?
              && (if p.yieldsValue then RunProgram(p, regs, bus) == Threaded(p, bus)
                  else && p.words == Program(bs)
                       && (RunProgram(p, regs, bus) == Threaded(p, bus) <==> OnTarget(bs, Core(None, bus))))
  {
    bs := [];
    var t := After(hash, es);
    var r := Answer(hash, t, e).0;
    if r.Ok? && r.value.Run? {
      var m, codes := EverySession(hash, es);
      var env := Env(hash, t.symbols, e.peek, e.bits);
      bs := ProgramShape(env, t, m, codes, Origins(hash, es), Tokens(e.text, 0));
      if r.value.yieldsValue {
        var v :| r.value.words == ValueProgram(v);
        NativeValueMeans(v, regs, bus);
      } else {
        AgreeOnBus(bs, regs, bus);
        NativeRunOfBlocks(bs, regs, bus);
        ThreadedRunOfBlocks(bs, bus);
      }
    }
  }

  // ---------------------------------------------------------------------
  // Through the program store
  // ---------------------------------------------------------------------

  /** Importing a record into a free slot makes its call available. */
  lemma ImportThenCall(hash: Hash, u: Tables, f: Fn, mc: Machine)
    requires |u.symbols| == SLOTS && Distinct(u.fns) && FindFn(u.fns, f.name, 0).None? && FreeSlot(u.fns, 0).Some?
    requires IsName(f.name) && |f.name| <= 16 && |f.body| <= 32
    ensures var r := ImportFn(u.fns, f.name, f.body);
            r.Ok? && Answer(hash, u.(fns := r.value), Entry(CallText(f.name), mc.peek, mc.bits)).0 == CallAnswer(f)
  {
    var ev := Import(f.name, f.body, {});
    AddedCall(hash, u, ev, f, [], mc);
    assert Happens(hash, u, ev) == u.(fns := ImportFn(u.fns, f.name, f.body).value);
  }

  /** A live function, as the table's invariant describes it. */
  lemma LiveFn(hash: Hash, t: Tables, m: map<Name, Word>, codes: seq<seq<Code>>, srcs: seq<Origin>, i: nat)
    requires Inv(hash, t, m, codes, srcs) && i < 2 && IsName(t.fns[i].name)
    ensures |t.fns[i].name| <= 16 && |t.fns[i].body| <= 32
    ensures ExportFn(t.fns, t.fns[i].name, 128) == Some(t.fns[i].body)
  {
    assert SlotOk(t.fns[i], codes[i], srcs[i], t.fns, codes);
    FindsIt(t.fns, i);
  }

  /**
    Export, save, load, import into a table with a free slot and no such name:
    a later call answers as it did before.
   */
  lemma StoreRoundTrip(hash: Hash, t: Tables, m: map<Name, Word>, codes: seq<seq<Code>>, srcs: seq<Origin>, i: nat,
                       mem: Memory, addr: nat, nameBuf: seq<Byte>, wordBuf: seq<Word>, u: Tables, mc: Machine)
    requires Inv(hash, t, m, codes, srcs) && i < 2 && IsName(t.fns[i].name)
    requires ProgramStore.Holds(mem, addr, t.fns[i].name, t.fns[i].body)
    requires |nameBuf| == 16 && |wordBuf| == 64
    requires |u.symbols| == SLOTS && Distinct(u.fns)
    requires FindFn(u.fns, t.fns[i].name, 0).None? && FreeSlot(u.fns, 0).Some?
    ensures ExportFn(t.fns, t.fns[i].name, 128) == Some(t.fns[i].body)
    ensures var l := ProgramStore.LoadAt(mem, addr, nameBuf, wordBuf);
            var e := Entry(CallText(t.fns[i].name), mc.peek, mc.bits);
            && l.result.Ok? && l.result.value <= |l.words|
            && l.name[..|t.fns[i].name|] == t.fns[i].name
            && var r := ImportFn(u.fns, t.fns[i].name, l.words[..l.result.value]);
               r.Ok? && Answer(hash, u.(fns := r.value), e).0 == Answer(hash, t, e).0 == CallAnswer(t.fns[i])
  {
    LiveFn(hash, t, m, codes, srcs, i);
    CallExact(hash, t, i, mc);
    ProgramStore.LoadAfterSave(mem, addr, t.fns[i].name, t.fns[i].body, nameBuf, wordBuf);
    ImportThenCall(hash, u, t.fns[i], mc);
  }
}
