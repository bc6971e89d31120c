/**
  Do the two back ends agree?

  A function body or loop is a block stream; the source runs it natively
  whenever it compiles, and in the dispatch loop otherwise
  (src/compiler/parser.rs:100-121).  The two runs are compared on the bus: the
  sequence of volatile reads and writes they perform.  `acc_loaded` is never
  cleared (src/compiler/native.rs:68-132), so after the first poke, or after a
  peek, a poke no longer loads its address; agreement therefore holds exactly
  for the streams that never need it to.
 */
module Agreement {
  import opened Words
  import opened ThreadedVm
  import opened Streams
  import opened Thumb2
  import opened Emitter
  import opened Native

  // ---------------------------------------------------------------------
  // Code generation fits
  // ---------------------------------------------------------------------

  /** A `lit` stands last in the stream, without its argument. */
  predicate DanglingLit(words: seq<Word>, ip: nat)
    decreases |words| - ip
  {
    ip < |words| && words[ip] != 0 && words[ip] != HALT &&
    if words[ip] == LIT then ip + 1 == |words| || DanglingLit(words, ip + 2)
    else DanglingLit(words, ip + 1)
  }

  lemma {:induction false} PlanExists(words: seq<Word>, ip: nat, seen: bool, loaded: bool)
    requires Compilable(words, ip, seen)
    ensures Plan(words, ip, loaded).Some? <==> !DanglingLit(words, ip)
    decreases |words| - ip
  {
    if ip < |words| && words[ip] != 0 && words[ip] != HALT {
      var w := words[ip];
      if w == LIT {
        PlanExists(words, ip + 2, true, loaded || !AddressContext(WordAt(words, ip + 2)));
      } else {
        PlanExists(words, ip + 1, true, if w == WRITE then loaded else true);
      }
    }
  }

  /** No call costs more than two halfwords per stream word it came from. */
  lemma {:induction false} PlanLength(words: seq<Word>, ip: nat, loaded: bool)
    requires Plan(words, ip, loaded).Some?
    ensures var cs := Plan(words, ip, loaded).value;
            && AllUnits(cs).Some?
            && |Halves(AllUnits(cs).value)| <= if ip < |words| then 2 * (|words| - ip) else 0
    decreases |words| - ip
  {
    if ip < |words| && words[ip] != 0 && words[ip] != HALT {
      var w := words[ip];
      var ip1 := if w == LIT then ip + 2 else ip + 1;
      var loaded1 := if w == LIT then loaded || !AddressContext(WordAt(words, ip + 2))
                     else if w == WRITE then loaded else true;
      PlanLength(words, ip1, loaded1);
      var rest := Plan(words, ip1, loaded1).value;
      var c := Plan(words, ip, loaded).value[0];
      assert Plan(words, ip, loaded) == Some([c] + rest);
      CallLength(c);
      HalvesConcat(Units(c).value, AllUnits(rest).value);
      assert ([c] + rest)[1..] == rest;
    }
  }

  lemma CallLength(c: Call)
    requires Units(c).Some? && !c.Ret?
    ensures |Halves(Units(c).value)| <= if c.MovImm? then 4 else 2
  {
    var us := Units(c).value;
    if |us| == 1 {
      OneUnit(us[0]);
    } else {
      assert us == [us[0], us[1]];
      TwoUnits(us[0], us[1]);
    }
  }

  /**
    A stream of at most 128 words compiles exactly when the
    complexity check accepts it and no literal is cut off at its end; then the
    code takes at most 257 halfwords, well inside the 2048 of the buffer.
   */
  lemma CompilesAndFits(words: seq<Word>)
    requires |words| <= 128
    ensures Compiled(words).Some? <==> Compilable(words, 0, false) && !DanglingLit(words, 0)
    ensures Compiled(words).Some? ==> |Compiled(words).value| <= 257
  {
    if Compilable(words, 0, false) {
      PlanExists(words, 0, false, false);
      if Plan(words, 0, false).Some? {
        PlanLength(words, 0, false);
        var us := AllUnits(Plan(words, 0, false).value).value;
        HalvesConcat(us, [Narrow(BX_LR)]);
        OneUnit(Narrow(BX_LR));
      }
    }
  }

  // ---------------------------------------------------------------------
  // Block streams
  // ---------------------------------------------------------------------

  /** The emitter calls for one block; `loaded` is `acc_loaded` before it. */
  function BlockCalls(b: Block, loaded: bool): seq<Call> {
    match b
    case Poke(a, v) =>
      [MovImm(if loaded then SCRATCH else ACC, a), MovImm(SCRATCH, v), StoreU32(SCRATCH, ACC)]
    case Peek(a) => [MovImm(SCRATCH, a), LoadU32(ACC, SCRATCH)]
  }

  function BlocksCalls(bs: seq<Block>, loaded: bool): seq<Call> {
    if bs == [] then [] else BlockCalls(bs[0], loaded) + BlocksCalls(bs[1..], true)
  }

  lemma PlanOfBlock(words: seq<Word>, ip: nat, b: Block, loaded: bool)
    requires Sits(words, ip, BlockWords(b))
    ensures Plan(words, ip, loaded) ==
            Prepend(BlockCalls(b, loaded), Plan(words, ip + |BlockWords(b)|, true))
  {
    BlockAt(words, ip, b);
    var end := ip + |BlockWords(b)|;
    var rest := Plan(words, end, true);
    match b
    case Poke(a, v) =>
      assert Plan(words, ip + 4, true) == Prepend([StoreU32(SCRATCH, ACC)], rest);
      assert Plan(words, ip + 2, true) == Prepend([MovImm(SCRATCH, v)], Plan(words, ip + 4, true));
      assert Plan(words, ip, loaded) == Prepend([BlockCalls(b, loaded)[0]], Plan(words, ip + 2, true));
      ThreeCalls(BlockCalls(b, loaded), rest);
    case Peek(a) =>
      assert Plan(words, ip + 2, loaded) == Prepend([LoadU32(ACC, SCRATCH)], rest);
      assert Plan(words, ip, loaded) == Prepend([MovImm(SCRATCH, a)], Plan(words, ip + 2, loaded));
      TwoCalls(BlockCalls(b, loaded), rest);
  }

  lemma TwoCalls(cs: seq<Call>, rest: Option<seq<Call>>)
    requires |cs| == 2
    ensures Prepend([cs[0]], Prepend([cs[1]], rest)) == Prepend(cs, rest)
  {
    PrependTwice([cs[0]], cs[1], rest);
    assert [cs[0]] + [cs[1]] == cs;
  }

  lemma ThreeCalls(cs: seq<Call>, rest: Option<seq<Call>>)
    requires |cs| == 3
    ensures Prepend([cs[0]], Prepend([cs[1]], Prepend([cs[2]], rest))) == Prepend(cs, rest)
  {
    PrependTwice([cs[0]], cs[1], Prepend([cs[2]], rest));
    PrependTwice([cs[0]] + [cs[1]], cs[2], rest);
    assert [cs[0]] + [cs[1]] + [cs[2]] == cs;
  }

  lemma {:induction false} PlanOfBlocks(words: seq<Word>, ip: nat, bs: seq<Block>, loaded: bool)
    requires Sits(words, ip, Flatten(bs) + [HALT])
    ensures Plan(words, ip, loaded) == Some(BlocksCalls(bs, loaded))
    decreases |bs|
  {
    if bs == [] {
      SitsAt(words, ip, Flatten(bs) + [HALT], 0);
    } else {
      assert Flatten(bs) + [HALT] == BlockWords(bs[0]) + (Flatten(bs[1..]) + [HALT]);
      SitsSplit(words, ip, BlockWords(bs[0]), Flatten(bs[1..]) + [HALT]);
      PlanOfBlock(words, ip, bs[0], loaded);
      PlanOfBlocks(words, ip + |BlockWords(bs[0])|, bs[1..], true);
    }
  }

  /** What the generated code keeps of the machine: the accumulator, once loaded. */
  datatype Core = Core(acc: Option<Word>, bus: Bus)

  /** What the generated code does for one block. */
  function NativeBlock(b: Block, n: Core): Core {
    match b
    case Poke(a, v) =>
      var target := if n.acc.Some? then n.acc.value else a;
      Core(Some(target), n.bus.AfterWrite(target, v))
    case Peek(a) => Core(Some(n.bus.Peek(a)), n.bus.AfterRead(a))
  }

  function NativeBlocks(bs: seq<Block>, n: Core): Core
    decreases |bs|
  {
    if bs == [] then n else NativeBlocks(bs[1..], NativeBlock(bs[0], n))
  }

  ghost predicate Tracks(s: Cpu, n: Core) {
    s.bus == n.bus && (n.acc.Some? ==> s.Reg(ACC) == n.acc.value)
  }

  lemma {:induction false} AllMeaningConcat(cs: seq<Call>, ds: seq<Call>, s: Cpu)
    ensures AllMeaning(cs + ds, s) == AllMeaning(ds, AllMeaning(cs, s))
    decreases |cs|
  {
    if cs == [] {
      assert cs + ds == ds;
    } else {
      assert (cs + ds)[1..] == cs[1..] + ds;
      AllMeaningConcat(cs[1..], ds, Meaning(cs[0], s));
    }
  }

  lemma MeaningOfBlock(b: Block, s: Cpu, n: Core)
    requires Tracks(s, n)
    ensures Tracks(AllMeaning(BlockCalls(b, n.acc.Some?), s), NativeBlock(b, n))
  {
    var cs := BlockCalls(b, n.acc.Some?);
    var s1 := Meaning(cs[0], s);
    var s2 := Meaning(cs[1], s1);
    assert cs[1..][0] == cs[1] && cs[1..][1..] == cs[2..];
    if b.Poke? {
      var s3 := Meaning(cs[2], s2);
      assert cs[2..][0] == cs[2] && cs[2..][1..] == [];
      assert AllMeaning(cs[2..], s2) == s3;
    }
    assert AllMeaning(cs, s) == AllMeaning(cs[1..], s1) == AllMeaning(cs[2..], s2);
  }

  lemma {:induction false} MeaningOfBlocks(bs: seq<Block>, s: Cpu, n: Core)
    requires Tracks(s, n)
    ensures AllMeaning(BlocksCalls(bs, n.acc.Some?), s).bus == NativeBlocks(bs, n).bus
    decreases |bs|
  {
    if bs != [] {
      AllMeaningConcat(BlockCalls(bs[0], n.acc.Some?), BlocksCalls(bs[1..], true), s);
      MeaningOfBlock(bs[0], s, n);
      MeaningOfBlocks(bs[1..], AllMeaning(BlockCalls(bs[0], n.acc.Some?), s), NativeBlock(bs[0], n));
    }
  }

  lemma {:induction false} BlocksCallsSound(bs: seq<Block>, loaded: bool)
    ensures forall c :: c in BlocksCalls(bs, loaded) ==> Sound(c)
  {
    if bs != [] {
      BlocksCallsSound(bs[1..], true);
    }
  }

  /** The stream built for a list of blocks. */
  function Program(bs: seq<Block>): seq<Word> {
    Flatten(bs) + [HALT]
  }

  /** Such a stream always passes the complexity check. */
  lemma {:induction false} BlocksCompilable(words: seq<Word>, ip: nat, bs: seq<Block>, seen: bool)
    requires Sits(words, ip, Program(bs))
    ensures Compilable(words, ip, seen)
    decreases |bs|
  {
    if bs == [] {
      SitsAt(words, ip, Program(bs), 0);
    } else {
      var b := bs[0];
      assert Program(bs) == BlockWords(b) + Program(bs[1..]);
      SitsSplit(words, ip, BlockWords(b), Program(bs[1..]));
      SitsAt(words, ip, BlockWords(b), 0);
      SitsAt(words, ip, BlockWords(b), 2);
      var end := ip + |BlockWords(b)|;
      BlocksCompilable(words, end, bs[1..], true);
      if b.Poke? {
        SitsAt(words, ip, BlockWords(b), 4);
        assert Compilable(words, ip + 4, true) && Compilable(words, ip + 2, true);
      } else {
        assert Compilable(words, ip + 2, true);
      }
    }
  }

  /**
    Running the generated machine code of a block stream, halfword by halfword
    and from any register contents, has exactly the bus effect `NativeBlocks`.
   */
  lemma NativeRunOfBlocks(bs: seq<Block>, regs: map<nat, Word>, bus: Bus)
    requires |Program(bs)| <= 128
    ensures Compiled(Program(bs)).Some?
    ensures var end := RunCode(Compiled(Program(bs)).value, Cpu(regs, bus));
            end.Some? && end.value.bus == NativeBlocks(bs, Core(None, bus)).bus
  {
    var words := Program(bs);
    assert Sits(words, 0, words);
    BlocksCompilable(words, 0, bs, false);
    PlanOfBlocks(words, 0, bs, false);
    PlanExists(words, 0, false, false);
    CompilesAndFits(words);
    BlocksCallsSound(bs, false);
    AssemblyRuns(BlocksCalls(bs, false), Cpu(regs, bus));
    MeaningOfBlocks(bs, Cpu(regs, bus), Core(None, bus));
  }

  /** The bus effect of a block in the dispatch loop. */
  function ThreadedBlock(b: Block, bus: Bus): Bus {
    match b
    case Poke(a, v) => bus.AfterWrite(a, v)
    case Peek(a) => bus.AfterRead(a)
  }

  function ThreadedBlocks(bs: seq<Block>, bus: Bus): Bus
    decreases |bs|
  {
    if bs == [] then bus else ThreadedBlocks(bs[1..], ThreadedBlock(bs[0], bus))
  }

  lemma {:induction false} ExecBlocksBus(bs: seq<Block>, s: State)
    ensures ExecBlocks(bs, s).bus == ThreadedBlocks(bs, s.bus)
    decreases |bs|
  {
    if bs != [] {
      ExecBlocksBus(bs[1..], ExecBlock(bs[0], s));
    }
  }

  /** The dispatch loop runs a block stream cleanly, with that bus effect. */
  lemma ThreadedRunOfBlocks(bs: seq<Block>, bus: Bus)
    requires |Program(bs)| <= 128
    ensures RunsClean(Program(bs), 0, State([], bus))
    ensures var end := Run(Program(bs), 0, State([], bus));
            end.Some? && end.value.bus == ThreadedBlocks(bs, bus)
  {
    PeeksFit(bs);
    assert Sits(Program(bs), 0, Flatten(bs) + [HALT]);
    RunBlocks(Program(bs), 0, bs, State([], bus));
    ExecBlocksBus(bs, State([], bus));
  }

  /** Both runs of the stream, on the same bus, perform the same accesses. */
  ghost predicate BackEndsAgree(bs: seq<Block>, regs: map<nat, Word>, bus: Bus)
    requires Compiled(Program(bs)).Some?
  {
    var native := RunCode(Compiled(Program(bs)).value, Cpu(regs, bus));
    var threaded := Run(Program(bs), 0, State([], bus));
    native.Some? && threaded.Some? && native.value.bus == threaded.value.bus
  }

  /** Every poke, when its turn comes, finds its address in the accumulator. */
  ghost predicate OnTarget(bs: seq<Block>, n: Core)
    decreases |bs|
  {
    bs == [] ||
    (&& (bs[0].Poke? && n.acc.Some? ==> n.acc.value == bs[0].addr)
     && OnTarget(bs[1..], NativeBlock(bs[0], n)))
  }

  lemma {:induction false} TracesGrow(bs: seq<Block>, n: Core, bus: Bus)
    ensures n.bus.trace <= NativeBlocks(bs, n).bus.trace
    ensures bus.trace <= ThreadedBlocks(bs, bus).trace
    decreases |bs|
  {
    if bs != [] {
      TracesGrow(bs[1..], NativeBlock(bs[0], n), ThreadedBlock(bs[0], bus));
    }
  }

  lemma {:induction false} SameAccesses(bs: seq<Block>, n: Core)
    ensures NativeBlocks(bs, n).bus == ThreadedBlocks(bs, n.bus) <==> OnTarget(bs, n)
    decreases |bs|
  {
    if bs != [] {
      var b := bs[0];
      var n1 := NativeBlock(b, n);
      if b.Poke? && n.acc.Some? && n.acc.value != b.addr {
        TracesGrow(bs[1..], n1, ThreadedBlock(b, n.bus));
        var k := |n.bus.trace|;
        assert n1.bus.trace[k] == Write(n.acc.value, b.val);
        assert ThreadedBlock(b, n.bus).trace[k] == Write(b.addr, b.val);
        assert NativeBlocks(bs, n).bus.trace[k] != ThreadedBlocks(bs, n.bus).trace[k];
      } else {
        assert n1.bus == ThreadedBlock(b, n.bus);
        SameAccesses(bs[1..], n1);
      }
    }
  }

  /**
    On one given bus the back ends agree exactly when every poke is on target.
   */
  lemma AgreeOnBus(bs: seq<Block>, regs: map<nat, Word>, bus: Bus)
    requires |Program(bs)| <= 128
    ensures Compiled(Program(bs)).Some?
    ensures BackEndsAgree(bs, regs, bus) <==> OnTarget(bs, Core(None, bus))
  {
    NativeRunOfBlocks(bs, regs, bus);
    ThreadedRunOfBlocks(bs, bus);
    SameAccesses(bs, Core(None, bus));
  }

  /** Nothing but pokes to the same address comes before a poke. */
  predicate SingleTarget(bs: seq<Block>) {
    forall i, j :: 0 <= i < j < |bs| && bs[j].Poke? ==> bs[i].Poke? && bs[i].addr == bs[j].addr
  }

  lemma {:induction false} SingleTargetHits(bs: seq<Block>, n: Core)
    requires SingleTarget(bs)
    requires forall j :: 0 <= j < |bs| && bs[j].Poke? && n.acc.Some? ==> bs[j].addr == n.acc.value
    ensures OnTarget(bs, n)
    decreases |bs|
  {
    if bs != [] {
      var rest, n1 := bs[1..], NativeBlock(bs[0], n);
      forall j | 0 <= j < |rest| && rest[j].Poke? ensures bs[0].Poke? && rest[j].addr == n1.acc.value {
        assert rest[j] == bs[j + 1];
      }
      forall i, j | 0 <= i < j < |rest| && rest[j].Poke? ensures rest[i].Poke? && rest[i].addr == rest[j].addr {
        assert rest[i] == bs[i + 1] && rest[j] == bs[j + 1];
      }
      SingleTargetHits(rest, n1);
    }
  }

  /** A device that answers every read with `v`. */
  function Constant(v: Word): Device {
    (_, _) => v
  }

  /** On target whatever a peek returned means there was no poke to aim. */
  lemma {:induction false} NoPokeLeft(bs: seq<Block>, n: Core, m: Core)
    requires n.acc == Some(0) && n.bus.dev == Constant(0) && m.acc == Some(1) && m.bus.dev == Constant(1)
    requires OnTarget(bs, n) && OnTarget(bs, m)
    ensures forall j :: 0 <= j < |bs| ==> !bs[j].Poke?
    decreases |bs|
  {
    if bs != [] && !bs[0].Poke? {
      NoPokeLeft(bs[1..], NativeBlock(bs[0], n), NativeBlock(bs[0], m));
      forall j | 0 <= j < |bs| ensures !bs[j].Poke? {
        assert j > 0 ==> bs[j] == bs[1..][j - 1];
      }
    }
  }

  lemma {:induction false} HitsMeanSingleTarget(bs: seq<Block>, n: Core, m: Core)
    requires n.acc == m.acc && n.bus.dev == Constant(0) && m.bus.dev == Constant(1)
    requires OnTarget(bs, n) && OnTarget(bs, m)
    ensures SingleTarget(bs)
    ensures forall j :: 0 <= j < |bs| && bs[j].Poke? && n.acc.Some? ==> bs[j].addr == n.acc.value
    decreases |bs|
  {
    if bs != [] {
      var rest := bs[1..];
      if bs[0].Poke? {
        HitsMeanSingleTarget(rest, NativeBlock(bs[0], n), NativeBlock(bs[0], m));
      } else {
        NoPokeLeft(rest, NativeBlock(bs[0], n), NativeBlock(bs[0], m));
      }
      forall j | 0 < j < |bs| && bs[j].Poke? ensures bs[0].Poke? && bs[j].addr == bs[0].addr {
        assert bs[j] == rest[j - 1];
      }
      forall i, j | 0 <= i < j < |bs| && bs[j].Poke? ensures bs[i].Poke? && bs[i].addr == bs[j].addr {
        assert bs[j] == rest[j - 1];
        assert i > 0 ==> bs[i] == rest[i - 1];
      }
    }
  }

  /**
    The back ends agree on every bus, whatever devices are attached and
    whatever the registers held, if and only if nothing but pokes to the same
    address comes before any poke.
   */
  lemma AgreeOnEveryBus(bs: seq<Block>)
    requires |Program(bs)| <= 128
    ensures Compiled(Program(bs)).Some?
    ensures (forall regs, bus :: BackEndsAgree(bs, regs, bus)) <==> SingleTarget(bs)
  {
    AgreeOnBus(bs, map[], Bus(Constant(0), []));
    forall regs, bus ensures BackEndsAgree(bs, regs, bus) <==> OnTarget(bs, Core(None, bus)) {
      AgreeOnBus(bs, regs, bus);
    }
    if SingleTarget(bs) {
      forall regs, bus ensures BackEndsAgree(bs, regs, bus) {
        SingleTargetHits(bs, Core(None, bus));
      }
    }
    if forall regs, bus :: BackEndsAgree(bs, regs, bus) {
      var b0, b1 := Bus(Constant(0), []), Bus(Constant(1), []);
      assert BackEndsAgree(bs, map[], b0) && BackEndsAgree(bs, map[], b1);
      HitsMeanSingleTarget(bs, Core(None, b0), Core(None, b1));
    }
  }

  /** Memory after the pokes, in order. */
  function PokedInto(bs: seq<Block>, m: Memory): Memory
    decreases |bs|
  {
    if bs == [] then m
    else
      match bs[0]
      case Poke(a, v) => PokedInto(bs[1..], Store32(m, a, v))
      case Peek(_) => PokedInto(bs[1..], m)
  }

  /** What the dispatch loop's accesses make of memory. */
  lemma {:induction false} ReplayBlocks(bs: seq<Block>, m: Memory, bus: Bus)
    ensures Replay(m, ThreadedBlocks(bs, bus).trace) == PokedInto(bs, Replay(m, bus.trace))
    decreases |bs|
  {
    if bs != [] {
      var next := ThreadedBlock(bs[0], bus);
      assert next.trace[..|next.trace| - 1] == bus.trace;
      ReplayBlocks(bs[1..], m, next);
    }
  }

  /** On plain memory both back ends leave what the pokes, in order, make of it. */
  lemma AgreeOnMemory(bs: seq<Block>, regs: map<nat, Word>, m: Memory)
    requires |Program(bs)| <= 128 && SingleTarget(bs)
    ensures Compiled(Program(bs)).Some?
    ensures var bus := Bus(Ram(m), []);
            var native := RunCode(Compiled(Program(bs)).value, Cpu(regs, bus));
            var threaded := Run(Program(bs), 0, State([], bus));
            && native.Some? && threaded.Some?
            && Replay(m, native.value.bus.trace) == Replay(m, threaded.value.bus.trace) == PokedInto(bs, m)
  {
    var bus := Bus(Ram(m), []);
    AgreeOnBus(bs, regs, bus);
    SingleTargetHits(bs, Core(None, bus));
    ThreadedRunOfBlocks(bs, bus);
    ReplayBlocks(bs, m, bus);
    assert Replay(m, []) == m;
  }

  /** Two addresses are enough: the second poke lands on the first address. */
  lemma TwoAddressesDisagree(a: Word, b: Word, v: Word, w: Word, regs: map<nat, Word>, bus: Bus)
    requires a != b
    ensures var bs := [Poke(a, v), Poke(b, w)];
            && Compiled(Program(bs)).Some?
            && RunCode(Compiled(Program(bs)).value, Cpu(regs, bus)).Some?
            && RunCode(Compiled(Program(bs)).value, Cpu(regs, bus)).value.bus.trace ==
                 bus.trace + [Write(a, v), Write(a, w)]
            && Run(Program(bs), 0, State([], bus)).Some?
            && Run(Program(bs), 0, State([], bus)).value.bus.trace == bus.trace + [Write(a, v), Write(b, w)]
  {
    var bs := [Poke(a, v), Poke(b, w)];
    assert bs[1..] == [Poke(b, w)] && [Poke(b, w)][1..] == [];
    assert Flatten(bs[1..]) == BlockWords(Poke(b, w)) + Flatten([]);
    NativeRunOfBlocks(bs, regs, bus);
    ThreadedRunOfBlocks(bs, bus);
    TwoPokes(bs[0], bs[1], bus);
  }

  lemma TwoPokes(p: Block, q: Block, bus: Bus)
    requires p.Poke? && q.Poke?
    ensures NativeBlocks([p, q], Core(None, bus)).bus.trace ==
            bus.trace + [Write(p.addr, p.val), Write(p.addr, q.val)]
    ensures ThreadedBlocks([p, q], bus).trace == bus.trace + [Write(p.addr, p.val), Write(q.addr, q.val)]
  {
    assert [p, q][1..] == [q] && [q][1..] == [];
    var n1 := NativeBlock(p, Core(None, bus));
    assert NativeBlocks([q], n1) == NativeBlock(q, n1);
    assert ThreadedBlocks([q], ThreadedBlock(p, bus)) == ThreadedBlock(q, ThreadedBlock(p, bus));
    assert NativeBlocks([p, q], Core(None, bus)) == NativeBlock(q, n1);
    assert ThreadedBlocks([p, q], bus) == ThreadedBlock(q, ThreadedBlock(p, bus));
  }

  // ---------------------------------------------------------------------
  // Arithmetic chains
  // ---------------------------------------------------------------------

  function TermCalls(t: Term): seq<Call> {
    [MovImm(SCRATCH, t.arg), Arith(t.op, ACC, ACC, SCRATCH)]
  }

  function TermsCalls(ts: seq<Term>): seq<Call> {
    if ts == [] then [] else TermCalls(ts[0]) + TermsCalls(ts[1..])
  }

  lemma {:induction false} PlanOfTerms(words: seq<Word>, ip: nat, ts: seq<Term>)
    requires Sits(words, ip, TermsWords(ts) + [HALT])
    ensures Plan(words, ip, true) == Some(TermsCalls(ts)) && Compilable(words, ip, true)
    ensures !AddressContext(words[ip])
    decreases |ts|
  {
    if ts == [] {
      SitsAt(words, ip, TermsWords(ts) + [HALT], 0);
    } else {
      var t := ts[0];
      assert TermsWords(ts) + [HALT] == TermWords(t) + (TermsWords(ts[1..]) + [HALT]);
      SitsSplit(words, ip, TermWords(t), TermsWords(ts[1..]) + [HALT]);
      SitsAt(words, ip, TermWords(t), 0);
      SitsAt(words, ip, TermWords(t), 1);
      SitsAt(words, ip, TermWords(t), 2);
      PlanOfTerms(words, ip + 3, ts[1..]);
      var rest := Plan(words, ip + 3, true);
      assert BinOpOf(Primitive(t.op)) == Some(t.op) && !AddressContext(Primitive(t.op));
      assert Plan(words, ip + 2, true) == Prepend([TermCalls(t)[1]], rest);
      assert Plan(words, ip, true) == Prepend([TermCalls(t)[0]], Plan(words, ip + 2, true));
      TwoCalls(TermCalls(t), rest);
      assert Compilable(words, ip + 2, true);
    }
  }

  lemma PlanOfChain(a: Word, ts: seq<Term>)
    ensures Compilable(ChainWords(a, ts), 0, false)
    ensures Plan(ChainWords(a, ts), 0, false) == Some([MovImm(ACC, a)] + TermsCalls(ts))
  {
    var words := ChainWords(a, ts);
    assert Sits(words, 2, TermsWords(ts) + [HALT]);
    PlanOfTerms(words, 2, ts);
    assert words[0] == LIT && words[1] == a;
  }

  lemma MeaningOfTerm(t: Term, s: Cpu)
    ensures var s1 := AllMeaning(TermCalls(t), s);
            s1.Reg(ACC) == Apply(t.op, s.Reg(ACC), t.arg) && s1.bus == s.bus
  {
    var cs := TermCalls(t);
    var s1 := Meaning(cs[0], s);
    assert cs[1..] == [cs[1]] && [cs[1]][1..] == [];
    assert AllMeaning(cs, s) == AllMeaning(cs[1..], s1) == Meaning(cs[1], s1);
  }

  lemma {:induction false} MeaningOfTerms(ts: seq<Term>, s: Cpu)
    ensures var s1 := AllMeaning(TermsCalls(ts), s);
            s1.Reg(ACC) == ChainValue(s.Reg(ACC), ts) && s1.bus == s.bus
    decreases |ts|
  {
    if ts != [] {
      AllMeaningConcat(TermCalls(ts[0]), TermsCalls(ts[1..]), s);
      MeaningOfTerm(ts[0], s);
      MeaningOfTerms(ts[1..], AllMeaning(TermCalls(ts[0]), s));
    }
  }

  predicate NoDivision(ts: seq<Term>) {
    forall t :: t in ts ==> !t.op.Over?
  }

  lemma {:induction false} TermsCallsSound(ts: seq<Term>)
    requires NoDivision(ts)
    ensures forall c :: c in TermsCalls(ts) ==> Sound(c)
  {
    if ts != [] {
      TermsCallsSound(ts[1..]);
    }
  }

  /** The calls before the first divide, the divide, and those after it. */
  lemma {:induction false} SplitAtDivide(ts: seq<Term>) returns (before: seq<Call>, d: Call, after: seq<Call>)
    requires !NoDivision(ts)
    ensures TermsCalls(ts) == before + ([d] + after)
    ensures d.Arith? && d.op.Over? && forall c :: c in before ==> Sound(c)
  {
    var cs := TermCalls(ts[0]);
    if ts[0].op.Over? {
      before, d, after := [cs[0]], cs[1], TermsCalls(ts[1..]);
      assert cs + after == before + ([d] + after);
    } else {
      assert !NoDivision(ts[1..]);
      before, d, after := SplitAtDivide(ts[1..]);
      assert cs + (before + ([d] + after)) == (cs + before) + ([d] + after);
      before := cs + before;
    }
  }

  /**
    For every chain `lit a (lit b op)* halt` the generated code returns what
    the dispatch loop leaves on the stack, touching the bus in neither case, if
    and only if the chain does not divide; a chain that divides traps.
   */
  lemma ChainsAgree(a: Word, ts: seq<Term>, regs: map<nat, Word>, bus: Bus)
    requires |ChainWords(a, ts)| <= 128
    ensures Compiled(ChainWords(a, ts)).Some?
    ensures Run(ChainWords(a, ts), 0, State([], bus)) == Some(State([ChainValue(a, ts)], bus))
    ensures var end := RunCode(Compiled(ChainWords(a, ts)).value, Cpu(regs, bus));
            if NoDivision(ts)
            then end.Some? && end.value.Reg(0) == ChainValue(a, ts) && end.value.bus == bus
            else end == None
  {
    var words, cs := ChainWords(a, ts), [MovImm(ACC, a)] + TermsCalls(ts);
    RunChain(a, ts, bus);
    PlanOfChain(a, ts);
    PlanExists(words, 0, false, false);
    CompilesAndFits(words);
    var s := Cpu(regs, bus);
    if NoDivision(ts) {
      TermsCallsSound(ts);
      AssemblyRuns(cs, s);
      assert cs[1..] == TermsCalls(ts);
      MeaningOfTerms(ts, Meaning(MovImm(ACC, a), s));
    } else {
      var before, d, after := SplitAtDivide(ts);
      assert cs == ([MovImm(ACC, a)] + before) + ([d] + after);
      AssemblyTraps([MovImm(ACC, a)] + before, d, after, s);
    }
  }

  // ---------------------------------------------------------------------
  // Calling convention
  // ---------------------------------------------------------------------

  /** A call of the translation: it writes no register but r0 and r1, and unless it divides it is sound. */
  predicate Tame(c: Call) {
    match c
    case MovImm(reg, _) => reg < 2
    case LoadU32(dst, _) => dst < 2
    case StoreU32(_, _) => true
    case Arith(op, dst, a, b) => dst < 2 && a == dst
    case Ret => false
  }

  lemma {:induction false} PlanIsTame(words: seq<Word>, ip: nat, loaded: bool)
    requires Plan(words, ip, loaded).Some?
    ensures forall c :: c in Plan(words, ip, loaded).value ==> Tame(c)
    decreases |words| - ip
  {
    if ip < |words| && words[ip] != 0 && words[ip] != HALT {
      var w := words[ip];
      if w == LIT {
        PlanIsTame(words, ip + 2, loaded || !AddressContext(WordAt(words, ip + 2)));
      } else {
        PlanIsTame(words, ip + 1, if w == WRITE then loaded else true);
      }
    }
  }

  lemma {:induction false} TameKeeps(cs: seq<Call>, s: Cpu, r: Half)
    requires r >= 2 && forall c :: c in cs ==> Tame(c)
    ensures AllMeaning(cs, s).Reg(r) == s.Reg(r)
    decreases |cs|
  {
    if cs != [] {
      assert cs[0] in cs;
      TameKeeps(cs[1..], Meaning(cs[0], s), r);
    }
  }

  /** Generated code that does not divide returns, and leaves every register but r0 and r1 as it was. */
  lemma OtherRegistersKept(words: seq<Word>, s: Cpu, r: Half)
    requires Compiled(words).Some? && r >= 2
    requires forall c :: c in Plan(words, 0, false).value ==> !(c.Arith? && c.op.Over?)
    ensures var end := RunCode(Compiled(words).value, s); end.Some? && end.value.Reg(r) == s.Reg(r)
  {
    var cs := Plan(words, 0, false).value;
    PlanIsTame(words, 0, false);
    forall c | c in cs ensures Sound(c) {
      assert Tame(c);
    }
    AssemblyRuns(cs, s);
    TameKeeps(cs, s, r);
  }
}
