/**
  What holds after every sequence of lines and imports, and of every program a
  line returns (src/compiler/parser.rs:254-440, 758-853).
 */
module Sessions {
  import opened Words
  import opened Lexer
  import opened Symbols
  import opened Expressions
  import opened Streams
  import opened Capability
  import opened Statements
  import opened Lines
  import VM = ThreadedVm

  // ---------------------------------------------------------------------
  // The invariant
  // ---------------------------------------------------------------------

  /** States of the capability registry. */
  type Registries = set<seq<Bits>>

  /** The address passed the gate under one of these registries. */
  ghost predicate Passed(log: Registries, a: Word) {
    exists bits :: bits in log && CheckAccess(bits, a)
  }

  /** That is: its owner's bit was set in one of them, or the super-user's, or the address is flash or SRAM. */
  lemma PassedMeans(log: Registries, a: Word)
    ensures Passed(log, a) <==> exists bits :: bits in log && Permitted(bits, a)
  {
    forall bits | bits in log ensures CheckAccess(bits, a) <==> Permitted(bits, a) {
      GateExact(bits, a);
    }
    if Passed(log, a) {
      var bits :| bits in log && CheckAccess(bits, a);
      assert Permitted(bits, a);
    }
  }

  ghost predicate AllPassed(bs: seq<Block>, log: Registries) {
    forall b :: b in bs ==> Passed(log, b.addr)
  }

  /**
    Where the function in a slot comes from: a definition, which saw one
    registry, or the program store, with the registries its stored words are
    held to.
   */
  datatype Origin = Vacant | Defined(bits: seq<Bits>) | Loaded(log: Registries)

  /** The registries of the origin itself. */
  ghost function OwnLog(o: Origin): Registries {
    match o
    case Vacant => {}
    case Defined(bits) => {bits}
    case Loaded(log) => log
  }

  /** The code passed the gate where it came from. */
  ghost predicate FromOrigin(cs: seq<Code>, o: Origin, fns: seq<Fn>, codes: seq<seq<Code>>) {
    match o
    case Vacant => false
    case Defined(bits) => AllGated(cs, bits, fns, codes)
    case Loaded(log) => AllPassed(AllBlocks(cs), log)
  }

  /**
    A live slot holds the words of structured code; a definition's own accesses
    all passed the gate under the registry that definition saw, and its calls
    are of live functions, with the code those have.
   */
  ghost predicate SlotOk(f: Fn, cs: seq<Code>, o: Origin, fns: seq<Fn>, codes: seq<seq<Code>>) {
    && |f.name| <= 16 && |f.body| <= 32
    && (f.name != [] ==> f.body == AllWords(cs) && FromOrigin(cs, o, fns, codes))
  }

  predicate Distinct(fns: seq<Fn>) {
    forall i, j :: 0 <= i < j < |fns| && fns[i].name != [] ==> fns[i].name != fns[j].name
  }

  ghost predicate FnsOk(fns: seq<Fn>, codes: seq<seq<Code>>, srcs: seq<Origin>) {
    && |fns| == 2 && |codes| == 2 && |srcs| == 2 && Distinct(fns)
    && forall i :: 0 <= i < 2 ==> SlotOk(fns[i], codes[i], srcs[i], fns, codes)
  }

  /** The tables are a finite map and a library of structured code. */
  ghost predicate Inv(hash: Hash, t: Tables, m: map<Name, Word>, codes: seq<seq<Code>>, srcs: seq<Origin>) {
    Represents(hash, t.symbols, m) && FnsOk(t.fns, codes, srcs)
  }

  /** The scope in which a line is compiled. */
  ghost function ScopeOf(env: Env, fns: seq<Fn>, m: map<Name, Word>, codes: seq<seq<Code>>): Scope {
    Scope(m, env.peek, env.bits, fns, codes)
  }

  lemma InvSees(env: Env, t: Tables, m: map<Name, Word>, codes: seq<seq<Code>>, srcs: seq<Origin>)
    requires Inv(env.hash, t, m, codes, srcs) && env.symbols == t.symbols
    ensures Sees(env, ScopeOf(env, t.fns, m, codes))
  {
    assert env.Valid();
    forall i | 0 <= i < 2 && t.fns[i].name != [] ensures t.fns[i].body == AllWords(codes[i]) {
      assert SlotOk(t.fns[i], codes[i], srcs[i], t.fns, codes);
    }
  }

  lemma HeaderIs(ts: seq<Token>)
    requires FnHeader(ts).Got?
    ensures ts == [Identifier(FnHeader(ts).value), LParen, RParen, LBrace] + FnHeader(ts).rest
  {
    var ts1 := Rest(ts);
    var ts2 := Rest(ts1);
    var ts3 := Rest(ts2);
    assert ts3 == [LBrace] + Rest(ts3) && ts2 == [RParen] + ts3 && ts1 == [LParen] + ts2 && ts == [ts[0]] + ts1;
  }

  /**
    An accepted definition is the source text of structured code; its body is
    that code, unrolled and inlined, and the code passed the gate.
   */
  lemma DefinitionMeans(env: Env, t: Tables, m: map<Name, Word>, codes: seq<seq<Code>>, srcs: seq<Origin>,
                        ts: seq<Token>)
    returns (ss: seq<Stmt>, cs: seq<Code>)
    requires Inv(env.hash, t, m, codes, srcs) && env.symbols == t.symbols
    requires env.Valid() && FnArgs(env, t.fns, ts).Ok?
    ensures AreStmts(ss) && ElaborateAll(ScopeOf(env, t.fns, m, codes), ss, 0) == Ok(cs)
    ensures SlotOk(FnArgs(env, t.fns, ts).value, cs, Defined(env.bits), t.fns, codes)
    ensures var n := FnArgs(env, t.fns, ts).value.name;
            exists tail :: ts == [Identifier(n), LParen, RParen, LBrace] + (StmtsTokens(ss) + ([RBrace] + tail))
  {
    InvSees(env, t, m, codes, srcs);
    var sc := ScopeOf(env, t.fns, m, codes);
    ss, cs := BlockMeans(env, sc, [], FnHeader(ts).rest);
    assert [] + AllWords(cs) == AllWords(cs);
    GateHoldsAll(sc, ss, 0);
    HeaderIs(ts);
  }

  /** A function found stays found when another name takes a free slot. */
  lemma {:induction false} FindFnKept(fns: seq<Fn>, n: Name, i: nat, j: nat, f: Fn)
    requires i <= |fns| && j < |fns| && fns[j].name == [] && f.name != n && FindFn(fns, n, i).Some?
    ensures FindFn(fns[j := f], n, i) == FindFn(fns, n, i)
    decreases |fns| - i
  {
    if i < |fns| && !(fns[i].name != [] && fns[i].name == n) {
      FindFnKept(fns, n, i + 1, j, f);
    }
  }

  lemma {:induction false} GatedKept(c: Code, bits: seq<Bits>, fns: seq<Fn>, codes: seq<seq<Code>>,
                                     j: nat, f: Fn, cs: seq<Code>)
    requires Gated(c, bits, fns, codes) && |fns| == |codes| && j < |fns| && fns[j].name == []
    requires FindFn(fns, f.name, 0).None?
    ensures Gated(c, bits, fns[j := f], codes[j := cs])
    decreases c, 0
  {
    match c
    case Repeat(_, body) => AllGatedKept(body, bits, fns, codes, j, f, cs);
    case Enter(n, _) => FindFnKept(fns, n, 0, j, f);
    case _ =>
  }

  /** Adding a function does not disturb what the others call. */
  lemma {:induction false} AllGatedKept(ds: seq<Code>, bits: seq<Bits>, fns: seq<Fn>, codes: seq<seq<Code>>,
                                        j: nat, f: Fn, cs: seq<Code>)
    requires AllGated(ds, bits, fns, codes) && |fns| == |codes| && j < |fns| && fns[j].name == []
    requires FindFn(fns, f.name, 0).None?
    ensures AllGated(ds, bits, fns[j := f], codes[j := cs])
    decreases ds, 0
  {
    if ds != [] {
      GatedKept(ds[0], bits, fns, codes, j, f, cs);
      AllGatedKept(ds[1..], bits, fns, codes, j, f, cs);
    }
  }

  lemma SlotKept(g: Fn, ds: seq<Code>, o: Origin, fns: seq<Fn>, codes: seq<seq<Code>>, j: nat, f: Fn, cs: seq<Code>)
    requires SlotOk(g, ds, o, fns, codes) && |fns| == |codes| && j < |fns| && fns[j].name == []
    requires FindFn(fns, f.name, 0).None?
    ensures SlotOk(g, ds, o, fns[j := f], codes[j := cs])
  {
    if g.name != [] && o.Defined? {
      AllGatedKept(ds, o.bits, fns, codes, j, f, cs);
    }
  }

  /** A function that is ready for a slot keeps the table in order when it takes the first free one. */
  lemma AddKeepsOk(fns: seq<Fn>, codes: seq<seq<Code>>, srcs: seq<Origin>, f: Fn, cs: seq<Code>, o: Origin)
    requires FnsOk(fns, codes, srcs) && SlotOk(f, cs, o, fns, codes) && AddFn(fns, f).Ok?
    ensures FreeSlot(fns, 0).Some? && var i := FreeSlot(fns, 0).value;
            AddFn(fns, f).value == fns[i := f] && FnsOk(fns[i := f], codes[i := cs], srcs[i := o])
  {
    var i := FreeSlot(fns, 0).value;
    var fns1, codes1, srcs1 := fns[i := f], codes[i := cs], srcs[i := o];
    SlotKept(f, cs, o, fns, codes, i, f, cs);
    forall k | 0 <= k < 2 ensures SlotOk(fns1[k], codes1[k], srcs1[k], fns1, codes1) {
      assert SlotOk(fns[k], codes[k], srcs[k], fns, codes);
      SlotKept(fns[k], codes[k], srcs[k], fns, codes, i, f, cs);
    }
  }

  /** The origins after a line: an accepted definition belongs to the registry it saw. */
  function LineOrigins(env: Env, t: Tables, srcs: seq<Origin>, ts: seq<Token>): (srcs1: seq<Origin>)
    requires env.Valid() && |t.symbols| == SLOTS && |t.fns| == |srcs|
    ensures |srcs1| == |srcs|
  {
    if First(ts) == KwFn && FnLine(env, t, Rest(ts)).0.Ok? && FreeSlot(t.fns, 0).Some?
    then srcs[FreeSlot(t.fns, 0).value := Defined(env.bits)]
    else srcs
  }

  /** One line keeps the invariant, whatever its tokens. */
  lemma LineKeepsInv(env: Env, t: Tables, m: map<Name, Word>, codes: seq<seq<Code>>, srcs: seq<Origin>, ts: seq<Token>)
    returns (m1: map<Name, Word>, codes1: seq<seq<Code>>)
    requires Inv(env.hash, t, m, codes, srcs) && env.symbols == t.symbols
    ensures env.Valid() && Inv(env.hash, ParseLine(env, t, ts).1, m1, codes1, LineOrigins(env, t, srcs, ts))
  {
    m1, codes1 := m, codes;
    if First(ts) == KwLet {
      m1 := LetKeepsInv(env, t, m, Rest(ts));
    } else if First(ts) == KwFn {
      codes1 := FnKeepsInv(env, t, m, codes, srcs, ts);
    }
  }

  lemma LetKeepsInv(env: Env, t: Tables, m: map<Name, Word>, ts: seq<Token>) returns (m1: map<Name, Word>)
    requires Represents(env.hash, t.symbols, m) && env.symbols == t.symbols
    ensures env.Valid() && Represents(env.hash, LetLine(env, t, ts).1.symbols, m1)
  {
    m1 := m;
    if LetLine(env, t, ts).0.Ok? {
      var b := LetArgs(env, ts).value;
      InsertRepresents(env.hash, t.symbols, m, b.name, b.value);
      m1 := m[b.name := b.value];
    }
  }

  lemma FnKeepsInv(env: Env, t: Tables, m: map<Name, Word>, codes: seq<seq<Code>>, srcs: seq<Origin>, ts: seq<Token>)
    returns (codes1: seq<seq<Code>>)
    requires Inv(env.hash, t, m, codes, srcs) && env.symbols == t.symbols && First(ts) == KwFn
    ensures env.Valid() && FnsOk(FnLine(env, t, Rest(ts)).1.fns, codes1, LineOrigins(env, t, srcs, ts))
  {
    codes1 := codes;
    if FnLine(env, t, Rest(ts)).0.Ok? {
      var ss, cs := DefinitionMeans(env, t, m, codes, srcs, Rest(ts));
      AddKeepsOk(t.fns, codes, srcs, FnArgs(env, t.fns, Rest(ts)).value, cs, Defined(env.bits));
      codes1 := codes[FreeSlot(t.fns, 0).value := cs];
    }
  }

  // ---------------------------------------------------------------------
  // Imports
  // ---------------------------------------------------------------------

  /** Words that a definition could have produced: blocks whose accesses all passed the gate. */
  ghost predicate Vetted(words: seq<Word>, log: Registries) {
    exists bs :: words == Flatten(bs) && AllPassed(bs, log)
  }

  /** Blocks as straight-line code. */
  function Straight(bs: seq<Block>): seq<Code> {
    if bs == [] then [] else [Memory(bs[0])] + Straight(bs[1..])
  }

  lemma {:induction false} StraightBlocks(bs: seq<Block>)
    ensures AllBlocks(Straight(bs)) == bs
  {
    if bs != [] {
      StraightBlocks(bs[1..]);
      assert Straight(bs)[1..] == Straight(bs[1..]);
      assert bs == [bs[0]] + bs[1..];
    }
  }

  /** The import puts words in a live slot. */
  predicate Takes(t: Tables, name: Name, words: seq<Word>) {
    name != [] && ImportFn(t.fns, name, words).Ok?
  }

  /** `load` puts words in the function table that no gate has seen; a refused import changes nothing. */
  function Imported(t: Tables, name: Name, words: seq<Word>): Tables {
    match ImportFn(t.fns, name, words)
    case Ok(fns) => t.(fns := fns)
    case Err(_) => t
  }

  /** The origins after an import. */
  function ImportOrigins(t: Tables, srcs: seq<Origin>, name: Name, words: seq<Word>, log: Registries)
    : (srcs1: seq<Origin>)
    requires |t.fns| == |srcs|
    ensures |srcs1| == |srcs|
  {
    if Takes(t, name, words) && FreeSlot(t.fns, 0).Some? then srcs[FreeSlot(t.fns, 0).value := Loaded(log)] else srcs
  }

  lemma ImportKeepsInv(hash: Hash, t: Tables, m: map<Name, Word>, codes: seq<seq<Code>>, srcs: seq<Origin>,
                       name: Name, words: seq<Word>, log: Registries) returns (codes1: seq<seq<Code>>)
    requires Inv(hash, t, m, codes, srcs) && (Takes(t, name, words) ==> Vetted(words, log))
    ensures Inv(hash, Imported(t, name, words), m, codes1, ImportOrigins(t, srcs, name, words, log))
  {
    codes1 := codes;
    if ImportFn(t.fns, name, words).Ok? {
      var i := FreeSlot(t.fns, 0).value;
      var cs, o := codes[i], srcs[i];
      if name != [] {
        var bs :| words == Flatten(bs) && AllPassed(bs, log);
        StraightBlocks(bs);
        cs, o := Straight(bs), Loaded(log);
      }
      AddKeepsOk(t.fns, codes, srcs, Fn(name, words), cs, o);
      codes1 := codes[i := cs];
    }
  }

  // ---------------------------------------------------------------------
  // Every sequence of lines and imports
  // ---------------------------------------------------------------------

  /** A line as typed, with the registry and the reads it sees. */
  datatype Entry = Entry(text: seq<Byte>, peek: Word -> Word, bits: seq<Bits>)

  /** A line, or an import of stored words that are held to the registries in `log`. */
  datatype Event = Line(entry: Entry) | Import(name: Name, words: seq<Word>, log: Registries)

  function Start(): (t: Tables)
    ensures |t.symbols| == SLOTS
  {
    Tables(EmptyTable(), [Fn([], []), Fn([], [])])
  }

  /** A line typed when the tables are `t`. */
  function Answer(hash: Hash, t: Tables, e: Entry): (r: (Result<Outcome, ParseError>, Tables))
    requires |t.symbols| == SLOTS
    ensures |r.1.symbols| == SLOTS
    ensures r.0.Err? ==> r.1 == t
  {
    ParseLine(Env(hash, t.symbols, e.peek, e.bits), t, Tokens(e.text, 0))
  }

  function Happens(hash: Hash, t: Tables, ev: Event): (u: Tables)
    requires |t.symbols| == SLOTS
    ensures |u.symbols| == SLOTS && |u.fns| == |t.fns|
  {
    match ev
    case Line(e) => Answer(hash, t, e).1
    case Import(name, words, _) => Imported(t, name, words)
  }

  /** The tables after a session. */
  function After(hash: Hash, es: seq<Event>): (t: Tables)
    ensures |t.symbols| == SLOTS && |t.fns| == 2
  {
    if es == [] then Start() else Happens(hash, After(hash, es[..|es| - 1]), es[|es| - 1])
  }

  function EventOrigins(hash: Hash, t: Tables, srcs: seq<Origin>, ev: Event): (srcs1: seq<Origin>)
    requires |t.symbols| == SLOTS && |t.fns| == |srcs|
    ensures |srcs1| == |srcs|
  {
    match ev
    case Line(e) => LineOrigins(Env(hash, t.symbols, e.peek, e.bits), t, srcs, Tokens(e.text, 0))
    case Import(name, words, log) => ImportOrigins(t, srcs, name, words, log)
  }

  /** Where each function comes from, after a session. */
  function Origins(hash: Hash, es: seq<Event>): (srcs: seq<Origin>)
    ensures |srcs| == 2
  {
    if es == [] then [Vacant, Vacant]
    else
      var front := es[..|es| - 1];
      EventOrigins(hash, After(hash, front), Origins(hash, front), es[|es| - 1])
  }

  /** Every import that the table took is vetted. */
  ghost predicate ImportsVetted(hash: Hash, es: seq<Event>) {
    es == [] ||
    (var front, ev := es[..|es| - 1], es[|es| - 1];
     && ImportsVetted(hash, front)
     && (ev.Import? && Takes(After(hash, front), ev.name, ev.words) ==> Vetted(ev.words, ev.log)))
  }

  lemma {:induction false} LinesAreVetted(hash: Hash, es: seq<Event>)
    requires forall ev :: ev in es ==> ev.Line?
    ensures ImportsVetted(hash, es)
    decreases |es|
  {
    if es != [] {
      assert es[|es| - 1] in es;
      LinesAreVetted(hash, es[..|es| - 1]);
    }
  }

  lemma StartHolds(hash: Hash)
    ensures Inv(hash, Start(), map[], [[], []], [Vacant, Vacant])
  {
    EmptyRepresents(hash);
  }

  lemma AnswerKeepsInv(hash: Hash, t: Tables, m: map<Name, Word>, codes: seq<seq<Code>>, srcs: seq<Origin>, e: Entry)
    returns (m1: map<Name, Word>, codes1: seq<seq<Code>>)
    requires Inv(hash, t, m, codes, srcs)
    ensures Inv(hash, Answer(hash, t, e).1, m1, codes1, EventOrigins(hash, t, srcs, Line(e)))
  {
    m1, codes1 := LineKeepsInv(Env(hash, t.symbols, e.peek, e.bits), t, m, codes, srcs, Tokens(e.text, 0));
  }

  /**
    After every session whose imports are vetted: the symbol table is a finite
    map, live function names are distinct, and every live body is at most 32
    words and the unrolled form of structured code.  The accesses that a
    definition makes itself all passed the gate under the registry that very
    definition saw; the others belong to live functions it calls.
   */
  lemma {:induction false} EverySession(hash: Hash, es: seq<Event>)
    returns (m: map<Name, Word>, codes: seq<seq<Code>>)
    requires ImportsVetted(hash, es)
    ensures Inv(hash, After(hash, es), m, codes, Origins(hash, es))
    decreases |es|
  {
    if es == [] {
      m, codes := map[], [[], []];
      StartHolds(hash);
    } else {
      var front, ev := es[..|es| - 1], es[|es| - 1];
      m, codes := EverySession(hash, front);
      var t, srcs := After(hash, front), Origins(hash, front);
      match ev
      case Line(e) => m, codes := AnswerKeepsInv(hash, t, m, codes, srcs, e);
      case Import(n, words, log) => codes := ImportKeepsInv(hash, t, m, codes, srcs, n, words, log);
    }
  }

  /** In particular after every sequence of lines. */
  lemma EveryLineSequence(hash: Hash, es: seq<Event>) returns (m: map<Name, Word>, codes: seq<seq<Code>>)
    requires forall ev :: ev in es ==> ev.Line?
    ensures Inv(hash, After(hash, es), m, codes, Origins(hash, es))
  {
    LinesAreVetted(hash, es);
    m, codes := EverySession(hash, es);
  }

  /** A `Defined` origin is the registry of a line of the session that was accepted as a definition. */
  lemma {:induction false} DefinedByLine(hash: Hash, es: seq<Event>, i: nat) returns (k: nat)
    requires i < 2 && Origins(hash, es)[i].Defined?
    ensures k < |es| && es[k].Line? && es[k].entry.bits == Origins(hash, es)[i].bits
    ensures var r := Answer(hash, After(hash, es[..k]), es[k].entry).0; r.Ok? && r.value.FnDefined?
    decreases |es|
  {
    var front, ev := es[..|es| - 1], es[|es| - 1];
    if Origins(hash, front)[i] == Origins(hash, es)[i] {
      k := DefinedByLine(hash, front, i);
      assert es[..k] == front[..k];
    } else {
      k := |es| - 1;
    }
  }

  /** No event moves or changes a live function. */
  lemma EventKeepsFns(hash: Hash, t: Tables, ev: Event, i: nat)
    requires |t.symbols| == SLOTS && i < |t.fns| && t.fns[i].name != []
    ensures Happens(hash, t, ev).fns[i] == t.fns[i]
  {
    if ev.Line? {
      LineKeepsFns(Env(hash, t.symbols, ev.entry.peek, ev.entry.bits), t, Tokens(ev.entry.text, 0), i);
    }
  }

  lemma LineKeepsFns(env: Env, t: Tables, ts: seq<Token>, i: nat)
    requires env.Valid() && |t.symbols| == SLOTS && i < |t.fns| && t.fns[i].name != []
    ensures ParseLine(env, t, ts).1.fns[i] == t.fns[i]
  {
  }

  /** Nor where it came from. */
  lemma EventKeepsOrigin(hash: Hash, t: Tables, srcs: seq<Origin>, ev: Event, i: nat)
    requires |t.symbols| == SLOTS && |t.fns| == |srcs| && i < |t.fns| && t.fns[i].name != []
    ensures EventOrigins(hash, t, srcs, ev)[i] == srcs[i]
  {
  }

  /** Every live body from the store is vetted. */
  ghost predicate LoadedVetted(fns: seq<Fn>, srcs: seq<Origin>)
    requires |fns| == |srcs|
  {
    forall i :: 0 <= i < |fns| && fns[i].name != [] && srcs[i].Loaded? ==> Vetted(fns[i].body, srcs[i].log)
  }

  lemma LoadedBefore(hash: Hash, t: Tables, srcs: seq<Origin>, ev: Event)
    requires |t.symbols| == SLOTS && |t.fns| == |srcs|
    requires LoadedVetted(Happens(hash, t, ev).fns, EventOrigins(hash, t, srcs, ev))
    ensures LoadedVetted(t.fns, srcs)
    ensures ev.Import? && Takes(t, ev.name, ev.words) ==> Vetted(ev.words, ev.log)
  {
    forall i | 0 <= i < |t.fns| && t.fns[i].name != [] && srcs[i].Loaded? ensures Vetted(t.fns[i].body, srcs[i].log) {
      EventKeepsFns(hash, t, ev, i);
      EventKeepsOrigin(hash, t, srcs, ev, i);
    }
    if ev.Import? && Takes(t, ev.name, ev.words) {
      var i := FreeSlot(t.fns, 0).value;
      assert Happens(hash, t, ev).fns[i] == Fn(ev.name, ev.words);
      assert EventOrigins(hash, t, srcs, ev)[i] == Loaded(ev.log);
    }
  }

  /** What is vetted at the end was vetted when it came in. */
  lemma {:induction false} VettedAllAlong(hash: Hash, es: seq<Event>)
    requires LoadedVetted(After(hash, es).fns, Origins(hash, es))
    ensures ImportsVetted(hash, es)
    decreases |es|
  {
    if es != [] {
      var front, ev := es[..|es| - 1], es[|es| - 1];
      LoadedBefore(hash, After(hash, front), Origins(hash, front), ev);
      VettedAllAlong(hash, front);
    }
  }

  lemma OkIsVetted(fns: seq<Fn>, codes: seq<seq<Code>>, srcs: seq<Origin>)
    requires FnsOk(fns, codes, srcs)
    ensures LoadedVetted(fns, srcs)
  {
    forall i | 0 <= i < |fns| && fns[i].name != [] && srcs[i].Loaded? ensures Vetted(fns[i].body, srcs[i].log) {
      assert SlotOk(fns[i], codes[i], srcs[i], fns, codes);
      assert fns[i].body == Flatten(AllBlocks(codes[i]));
    }
  }

  /** The tables satisfy the invariant, for some map and some code. */
  ghost predicate Sound(hash: Hash, t: Tables, srcs: seq<Origin>) {
    exists m, codes :: Inv(hash, t, m, codes, srcs)
  }

  lemma SoundIsVetted(hash: Hash, es: seq<Event>)
    requires Sound(hash, After(hash, es), Origins(hash, es))
    ensures ImportsVetted(hash, es)
  {
    var m, codes :| Inv(hash, After(hash, es), m, codes, Origins(hash, es));
    OkIsVetted(After(hash, es).fns, codes, Origins(hash, es));
    VettedAllAlong(hash, es);
  }

  /** The invariant holds after a session if and only if every import it took is vetted. */
  lemma SessionExact(hash: Hash, es: seq<Event>)
    ensures Sound(hash, After(hash, es), Origins(hash, es)) <==> ImportsVetted(hash, es)
  {
    if Sound(hash, After(hash, es), Origins(hash, es)) {
      SoundIsVetted(hash, es);
    } else if ImportsVetted(hash, es) {
      var m, codes := EverySession(hash, es);
    }
  }

  /** For instance the word 7 under the name f: it is taken, and no origins at all justify the table. */
  lemma UnvettedImport(hash: Hash, log: Registries, srcs: seq<Origin>)
    ensures After(hash, [Import([0x66], [7], log)]).fns[0] == Fn([0x66], [7])
    ensures !Sound(hash, After(hash, [Import([0x66], [7], log)]), srcs)
  {
    var es := [Import([0x66], [7], log)];
    assert es[..0] == [] && After(hash, es) == Imported(Start(), [0x66], [7]);
    var f := Fn([0x66], [7]);
    forall m, codes ensures !Inv(hash, After(hash, es), m, codes, srcs) {
      if |codes| == 2 && |srcs| == 2 {
        PeeksFit(AllBlocks(codes[0]));
        assert !SlotOk(f, codes[0], srcs[0], After(hash, es).fns, codes);
      }
    }
  }

  // ---------------------------------------------------------------------
  // Which registry answers for an access
  // ---------------------------------------------------------------------

  /** The registries of the functions that code calls, directly or not. */
  ghost function CalledLogs(cs: seq<Code>, fns: seq<Fn>, srcs: seq<Origin>): Registries
    decreases cs, 0
  {
    if cs == [] then {} else CalledLog(cs[0], fns, srcs) + CalledLogs(cs[1..], fns, srcs)
  }

  ghost function CalledLog(c: Code, fns: seq<Fn>, srcs: seq<Origin>): Registries
    decreases c, 0
  {
    match c
    case Nothing => {}
    case Memory(_) => {}
    case Repeat(_, body) => CalledLogs(body, fns, srcs)
    case Enter(n, callee) => FoundLog(n, fns, srcs) + CalledLogs(callee, fns, srcs)
  }

  ghost function FoundLog(n: Name, fns: seq<Fn>, srcs: seq<Origin>): Registries {
    var r := FindFn(fns, n, 0);
    if r.Some? && r.value < |srcs| then OwnLog(srcs[r.value]) else {}
  }

  lemma PassedMore(log: Registries, more: Registries, a: Word)
    requires Passed(log, a) && log <= more
    ensures Passed(more, a)
  {
  }

  /** Every access of code in a sound table passed under its own registry or under that of a function it calls. */
  lemma {:induction false} OriginAnswers(cs: seq<Code>, o: Origin, fns: seq<Fn>, codes: seq<seq<Code>>,
                                         srcs: seq<Origin>, b: Block)
    requires FnsOk(fns, codes, srcs) && FromOrigin(cs, o, fns, codes) && b in AllBlocks(cs)
    ensures Passed(OwnLog(o) + CalledLogs(cs, fns, srcs), b.addr)
    decreases cs, 1
  {
    if o.Defined? {
      AllAnswer(cs, o.bits, fns, codes, srcs, b);
    }
  }

  lemma {:induction false} AllAnswer(cs: seq<Code>, bits: seq<Bits>, fns: seq<Fn>, codes: seq<seq<Code>>,
                                     srcs: seq<Origin>, b: Block)
    requires FnsOk(fns, codes, srcs) && AllGated(cs, bits, fns, codes) && b in AllBlocks(cs)
    ensures Passed({bits} + CalledLogs(cs, fns, srcs), b.addr)
    decreases cs, 0
  {
    var log := {bits} + CalledLogs(cs, fns, srcs);
    if b in Blocks(cs[0]) {
      CodeAnswers(cs[0], bits, fns, codes, srcs, b);
      PassedMore({bits} + CalledLog(cs[0], fns, srcs), log, b.addr);
    } else {
      AllAnswer(cs[1..], bits, fns, codes, srcs, b);
      PassedMore({bits} + CalledLogs(cs[1..], fns, srcs), log, b.addr);
    }
  }

  lemma {:induction false} CodeAnswers(c: Code, bits: seq<Bits>, fns: seq<Fn>, codes: seq<seq<Code>>,
                                       srcs: seq<Origin>, b: Block)
    requires FnsOk(fns, codes, srcs) && Gated(c, bits, fns, codes) && b in Blocks(c)
    ensures Passed({bits} + CalledLog(c, fns, srcs), b.addr)
    decreases c, 0
  {
    match c
    case Nothing =>
    case Memory(_) => assert CheckAccess(bits, b.addr);
    case Repeat(n, body) =>
      InCopies(AllBlocks(body), n, b);
      AllAnswer(body, bits, fns, codes, srcs, b);
    case Enter(n, callee) =>
      var k := FindFn(fns, n, 0).value;
      assert SlotOk(fns[k], codes[k], srcs[k], fns, codes);
      OriginAnswers(callee, srcs[k], fns, codes, srcs, b);
      PassedMore(OwnLog(srcs[k]) + CalledLogs(callee, fns, srcs), {bits} + CalledLog(c, fns, srcs), b.addr);
  }

  /** The registries that answer for the function in a slot. */
  ghost function SlotLog(i: nat, fns: seq<Fn>, codes: seq<seq<Code>>, srcs: seq<Origin>): Registries
    requires i < |codes| && i < |srcs|
  {
    OwnLog(srcs[i]) + CalledLogs(codes[i], fns, srcs)
  }

  // ---------------------------------------------------------------------
  // Every program
  // ---------------------------------------------------------------------

  /** A stream of blocks whose accesses all passed, with a halt. */
  ghost predicate BlockProgram(words: seq<Word>, bs: seq<Block>, log: Registries) {
    words == Flatten(bs) + [VM.HALT] && |words| <= 128 && AllPassed(bs, log)
  }

  /** The body of a loop at the prompt is a stream of blocks that pass the gate. */
  lemma {:induction false} TopLoopBlocks(env: Env, done: seq<Block>, ts: seq<Token>) returns (bs: seq<Block>)
    requires env.Valid() && |Flatten(done)| <= 128 && TopLoop(env, Flatten(done), ts).Got?
    requires forall b :: b in done ==> CheckAccess(env.bits, b.addr)
    ensures TopLoop(env, Flatten(done), ts).value == Flatten(bs) && |Flatten(bs)| <= 128
    ensures forall b :: b in bs ==> CheckAccess(env.bits, b.addr)
    decreases |ts|
  {
    bs := done;
    if ts[0] != RBrace {
      var r := TopStmt(env, Flatten(done), ts);
      var next := done;
      if ts[0] == Identifier(POKE) || ts[0] == Identifier(PEEK) {
        var args := if ts[0] == Identifier(POKE) then PokeArgs(env, ts[1..]) else PeekArgs(env, ts[1..]);
        next := EmitBlocks(env, done, args);
      }
      bs := TopLoopBlocks(env, next, r.rest);
    }
  }

  lemma EmitBlocks(env: Env, done: seq<Block>, args: Parsed<Block>) returns (bs: seq<Block>)
    requires ParseMemory(env, Flatten(done), args).Got?
    requires forall b :: b in done ==> CheckAccess(env.bits, b.addr)
    ensures ParseMemory(env, Flatten(done), args).value == Flatten(bs) && |Flatten(bs)| <= 128
    ensures forall b :: b in bs ==> CheckAccess(env.bits, b.addr)
  {
    bs := done + [args.value];
    FlattenConcat(done, [args.value]);
    MemoryWords(args.value);
  }

  lemma UnrolledBlocks(bs: seq<Block>, count: nat, rest: seq<Token>)
    requires count >= 1 && |Flatten(bs)| <= 128 && ParseLoopEnd([], count, Got(Flatten(bs), rest)).Got?
    ensures ParseLoopEnd([], count, Got(Flatten(bs), rest)).value == Flatten(Copies(bs, count))
  {
    assert Flatten(bs)[0..] == Flatten(bs);
    UnrollIs(Flatten(bs), Flatten(bs), count - 1);
    FlattenCopies(bs, count);
  }

  /** Loops at the prompt return block programs that the registry of this line lets through. */
  lemma LoopProgram(env: Env, ts: seq<Token>) returns (bs: seq<Block>)
    requires env.Valid() && LoopCommand(env, ts).Ok?
    ensures LoopCommand(env, ts).value.Run? && !LoopCommand(env, ts).value.yieldsValue
    ensures BlockProgram(LoopCommand(env, ts).value.words, bs, {env.bits})
  {
    var head := LoopHead(env, ts);
    var body := TopLoop(env, [], head.rest);
    var once := TopLoopBlocks(env, [], head.rest);
    UnrolledBlocks(once, head.value, body.rest);
    bs := Copies(once, head.value);
    forall b | b in bs ensures Passed({env.bits}, b.addr) {
      InCopies(once, head.value, b);
      assert CheckAccess(env.bits, b.addr);
    }
  }

  /** Calls return the body of a live function. */
  lemma CallProgram(hash: Hash, t: Tables, m: map<Name, Word>, codes: seq<seq<Code>>, srcs: seq<Origin>,
                    id: Name, ts: seq<Token>)
    returns (bs: seq<Block>)
    requires Inv(hash, t, m, codes, srcs) && CallCommand(t.fns, id, ts).Ok?
    ensures CallCommand(t.fns, id, ts).value.Run? && !CallCommand(t.fns, id, ts).value.yieldsValue
    ensures FindFn(t.fns, id, 0).Some?
    ensures BlockProgram(CallCommand(t.fns, id, ts).value.words, bs,
                         SlotLog(FindFn(t.fns, id, 0).value, t.fns, codes, srcs))
  {
    var i := FindFn(t.fns, id, 0).value;
    assert SlotOk(t.fns[i], codes[i], srcs[i], t.fns, codes);
    bs := AllBlocks(codes[i]);
    forall b | b in bs ensures Passed(SlotLog(i, t.fns, codes, srcs), b.addr) {
      OriginAnswers(codes[i], srcs[i], t.fns, codes, srcs, b);
    }
    assert [] + t.fns[i].body == t.fns[i].body;
  }

  /** The registries that answer for the program of a line: a loop's own, or those of the function called. */
  ghost function ProgramLog(bits: seq<Bits>, fns: seq<Fn>, codes: seq<seq<Code>>, srcs: seq<Origin>, ts: seq<Token>)
    : Registries
    requires |fns| == |codes| == |srcs|
  {
    if !First(ts).Identifier? then {}
    else if ShapeOf(First(ts).name) == LoopShape then {bits}
    else
      var r := FindFn(fns, First(ts).name, 0);
      if r.Some? then SlotLog(r.value, fns, codes, srcs) else {}
  }

  /** Every program a line returns is a value program or a block program. */
  lemma ProgramShape(env: Env, t: Tables, m: map<Name, Word>, codes: seq<seq<Code>>, srcs: seq<Origin>, ts: seq<Token>)
    returns (bs: seq<Block>)
    requires Inv(env.hash, t, m, codes, srcs) && env.symbols == t.symbols
    requires env.Valid() && ParseLine(env, t, ts).0.Ok? && ParseLine(env, t, ts).0.value.Run?
    ensures var p := ParseLine(env, t, ts).0.value;
            if p.yieldsValue then exists v :: p.words == ValueProgram(v)
            else BlockProgram(p.words, bs, ProgramLog(env.bits, t.fns, codes, srcs, ts))
  {
    bs := [];
    if First(ts).Identifier? {
      var id, rest := First(ts).name, Rest(ts);
      match ShapeOf(id)
      case LoopShape => bs := LoopProgram(env, rest);
      case Other =>
        if First(rest) == LParen {
          bs := CallProgram(env.hash, t, m, codes, srcs, id, rest);
        }
      case _ =>
    }
  }

  /** Where an access went. */
  predicate Touched(bus0: Bus, bus1: Bus, a: Word) {
    exists k :: |bus0.trace| <= k < |bus1.trace| && bus1.trace[k].addr == a
  }

  lemma {:induction false} BlocksTouch(bs: seq<Block>, s: VM.State, k: nat)
    ensures s.bus.trace <= ExecBlocks(bs, s).bus.trace
    ensures |s.bus.trace| <= k < |ExecBlocks(bs, s).bus.trace| ==>
            exists b :: b in bs && b.addr == ExecBlocks(bs, s).bus.trace[k].addr
    decreases |bs|
  {
    if bs != [] {
      var s1 := ExecBlock(bs[0], s);
      BlocksTouch(bs[1..], s1, k);
      if k == |s.bus.trace| {
        assert bs[0] in bs && s1.bus.trace[k].addr == bs[0].addr;
      } else if |s.bus.trace| < k < |ExecBlocks(bs, s).bus.trace| {
        var b :| b in bs[1..] && b.addr == ExecBlocks(bs, s).bus.trace[k].addr;
        assert b in bs;
      }
    }
  }

  lemma BlockProgramRuns(words: seq<Word>, bs: seq<Block>, log: Registries, bus: Bus)
    requires BlockProgram(words, bs, log)
    ensures VM.RunsClean(words, 0, VM.State([], bus)) && VM.Run(words, 0, VM.State([], bus)).Some?
    ensures forall a :: Touched(bus, VM.Run(words, 0, VM.State([], bus)).value.bus, a) ==> Passed(log, a)
  {
    var s := VM.State([], bus);
    PeeksFit(bs);
    assert Sits(words, 0, Flatten(bs) + [VM.HALT]);
    RunBlocks(words, 0, bs, s);
    forall a | Touched(bus, ExecBlocks(bs, s).bus, a) ensures Passed(log, a) {
      var k :| |bus.trace| <= k < |ExecBlocks(bs, s).bus.trace| && ExecBlocks(bs, s).bus.trace[k].addr == a;
      BlocksTouch(bs, s, k);
    }
  }

  lemma ValueProgramRuns(v: Word, bus: Bus)
    ensures VM.RunsClean(ValueProgram(v), 0, VM.State([], bus))
    ensures VM.Run(ValueProgram(v), 0, VM.State([], bus)) == Some(VM.State([v], bus))
  {
    assert ChainWords(v, []) == ValueProgram(v);
    RunChain(v, [], bus);
  }

  /**
    Dispatch safety: after any session with vetted imports, any line that
    returns a program returns one that fits the stream, runs to its own halt
    inside it, never pops an empty stack and never drops a push; a yielding
    program leaves exactly one value.  A run touches only addresses that passed
    the gate: a loop's under the registry of its line, a function's under the
    registry its definition saw or that of a function it calls.
   */
  lemma EveryProgramRuns(hash: Hash, es: seq<Event>, e: Entry, bus: Bus)
    returns (m: map<Name, Word>, codes: seq<seq<Code>>)
    requires ImportsVetted(hash, es)
    ensures Inv(hash, After(hash, es), m, codes, Origins(hash, es))
    ensures var r := Answer(hash, After(hash, es), e).0;
            r.Ok? && r.value.Run? ==>
              var p := r.value;
              var end := VM.Run(p.words, 0, VM.State([], bus));
              var log := ProgramLog(e.bits, After(hash, es).fns, codes, Origins(hash, es), Tokens(e.text, 0));
              && |p.words| <= 128
              && VM.RunsClean(p.words, 0, VM.State([], bus))
              && end.Some?
              && (p.yieldsValue ==> |end.value.stack| == 1 && end.value.bus == bus)
              && (!p.yieldsValue ==> forall a :: Touched(bus, end.value.bus, a) ==> Passed(log, a))
  {
    var t, srcs := After(hash, es), Origins(hash, es);
    m, codes := EverySession(hash, es);
    var r := Answer(hash, t, e).0;
    if r.Ok? && r.value.Run? {
      var env := Env(hash, t.symbols, e.peek, e.bits);
      var bs := ProgramShape(env, t, m, codes, srcs, Tokens(e.text, 0));
      if r.value.yieldsValue {
        var v :| r.value.words == ValueProgram(v);
        ValueProgramRuns(v, bus);
      } else {
        BlockProgramRuns(r.value.words, bs, ProgramLog(e.bits, t.fns, codes, srcs, Tokens(e.text, 0)), bus);
      }
    }
  }
}
