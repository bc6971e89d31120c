/**
  The two kinds of stream the system builds, and what the dispatch loop does
  with each: straight-line poke/peek blocks (function bodies and loops,
  src/compiler/parser.rs:361-440) and left-to-right arithmetic chains (the
  value programs and the benchmark stream, src/kernel/bench.rs:40-50).
 */
module Streams {
  import opened Words
  import opened ThreadedVm

  /** One compiled memory statement. */
  datatype Block = Poke(addr: Word, val: Word) | Peek(addr: Word)

  function BlockWords(b: Block): seq<Word> {
    match b
    case Poke(a, v) => [LIT, a, LIT, v, WRITE]
    case Peek(a) => [LIT, a, LOAD]
  }

  function Flatten(bs: seq<Block>): seq<Word> {
    if bs == [] then [] else BlockWords(bs[0]) + Flatten(bs[1..])
  }

  /** What a block means: a poke stores, a peek leaves the value it read. */
  function ExecBlock(b: Block, s: State): State {
    match b
    case Poke(a, v) => s.(bus := s.bus.AfterWrite(a, v))
    case Peek(a) => State(s.stack + [s.bus.Peek(a)], s.bus.AfterRead(a))
  }

  function ExecBlocks(bs: seq<Block>, s: State): State {
    if bs == [] then s else ExecBlocks(bs[1..], ExecBlock(bs[0], s))
  }

  function Peeks(bs: seq<Block>): nat {
    if bs == [] then 0 else (if bs[0].Peek? then 1 else 0) + Peeks(bs[1..])
  }

  lemma {:induction false} FlattenConcat(xs: seq<Block>, ys: seq<Block>)
    ensures Flatten(xs + ys) == Flatten(xs) + Flatten(ys)
  {
    if xs == [] {
      assert xs + ys == ys;
    } else {
      assert (xs + ys)[1..] == xs[1..] + ys;
      FlattenConcat(xs[1..], ys);
    }
  }

  lemma {:induction false} ExecBlocksConcat(xs: seq<Block>, ys: seq<Block>, s: State)
    ensures ExecBlocks(xs + ys, s) == ExecBlocks(ys, ExecBlocks(xs, s))
  {
    if xs == [] {
      assert xs + ys == ys;
    } else {
      assert (xs + ys)[1..] == xs[1..] + ys;
      ExecBlocksConcat(xs[1..], ys, ExecBlock(xs[0], s));
    }
  }

  /** A block stream is at least three words long per peek. */
  lemma {:induction false} PeeksFit(bs: seq<Block>)
    ensures 3 * Peeks(bs) <= 3 * |bs| <= |Flatten(bs)|
  {
    if bs != [] {
      PeeksFit(bs[1..]);
    }
  }

  /** From `(ip, s)` the dispatch loop goes on, cleanly, from `(ip1, s1)`. */
  ghost predicate Leads(words: seq<Word>, ip: nat, s: State, ip1: nat, s1: State) {
    && Run(words, ip, s) == Run(words, ip1, s1)
    && (RunsClean(words, ip1, s1) ==> RunsClean(words, ip, s))
  }

  lemma StepLit(words: seq<Word>, ip: nat, s: State)
    requires ip + 1 < |words| && words[ip] == LIT && |s.stack| < 64
    ensures Leads(words, ip, s, ip + 2, State(s.stack + [words[ip + 1]], s.bus))
  {
  }

  lemma StepLoad(words: seq<Word>, ip: nat, stack: seq<Word>, a: Word, bus: Bus)
    requires ip < |words| && words[ip] == LOAD && |stack| < 64
    ensures Leads(words, ip, State(stack + [a], bus), ip + 1, State(stack + [bus.Peek(a)], bus.AfterRead(a)))
  {
    assert (stack + [a])[..|stack|] == stack;
  }

  lemma StepWrite(words: seq<Word>, ip: nat, stack: seq<Word>, a: Word, v: Word, bus: Bus)
    requires ip < |words| && words[ip] == WRITE && |stack| + 2 <= 64
    ensures Leads(words, ip, State(stack + [a] + [v], bus), ip + 1, State(stack, bus.AfterWrite(a, v)))
  {
    assert (stack + [a] + [v])[..|stack| + 1] == stack + [a];
    assert (stack + [a])[..|stack|] == stack;
  }

  lemma StepHalt(words: seq<Word>, ip: nat, s: State)
    requires Sits(words, ip, [HALT])
    requires |s.stack| <= 64
    ensures Run(words, ip, s) == Some(s)
    ensures RunsClean(words, ip, s)
  {
    SitsAt(words, ip, [HALT], 0);
  }

  /** The words of a block, one by one. */
  lemma BlockAt(words: seq<Word>, ip: nat, b: Block)
    requires Sits(words, ip, BlockWords(b))
    ensures ip + |BlockWords(b)| <= |words| && words[ip] == LIT && words[ip + 1] == b.addr
    ensures b.Poke? ==> words[ip + 2] == LIT && words[ip + 3] == b.val && words[ip + 4] == WRITE
    ensures b.Peek? ==> words[ip + 2] == LOAD
  {
    var code := BlockWords(b);
    SitsAt(words, ip, code, 0);
    SitsAt(words, ip, code, 1);
    SitsAt(words, ip, code, 2);
    if b.Poke? {
      SitsAt(words, ip, code, 3);
      SitsAt(words, ip, code, 4);
    }
  }

  lemma RunBlock(words: seq<Word>, ip: nat, b: Block, s: State)
    requires Sits(words, ip, BlockWords(b))
    requires |s.stack| + 2 <= 64
    ensures Leads(words, ip, s, ip + |BlockWords(b)|, ExecBlock(b, s))
  {
    BlockAt(words, ip, b);
    StepLit(words, ip, s);
    match b
    case Poke(a, v) =>
      StepLit(words, ip + 2, State(s.stack + [a], s.bus));
      StepWrite(words, ip + 4, s.stack, a, v, s.bus);
    case Peek(a) =>
      StepLoad(words, ip + 2, s.stack, a, s.bus);
  }

  lemma BlockRoom(b: Block, s: State)
    ensures |ExecBlock(b, s).stack| == |s.stack| + if b.Peek? then 1 else 0
  {
  }

  /**
    Running a halt-terminated block stream is executing its blocks, cleanly,
    whenever the operand stack has room for the peeks plus one poke.
   */
  lemma {:induction false} RunBlocks(words: seq<Word>, ip: nat, bs: seq<Block>, s: State)
    requires Sits(words, ip, Flatten(bs) + [HALT])
    requires |s.stack| + Peeks(bs) + 2 <= 64
    ensures Run(words, ip, s) == Some(ExecBlocks(bs, s))
    ensures RunsClean(words, ip, s)
    decreases |bs|
  {
    if bs == [] {
      assert Flatten(bs) + [HALT] == [HALT];
      StepHalt(words, ip, s);
    } else {
      var b := bs[0];
      Assoc(BlockWords(b), Flatten(bs[1..]), [HALT]);
      SitsSplit(words, ip, BlockWords(b), Flatten(bs[1..]) + [HALT]);
      RunBlock(words, ip, b, s);
      BlockRoom(b, s);
      RunBlocks(words, ip + |BlockWords(b)|, bs[1..], ExecBlock(b, s));
    }
  }

  // ---------------------------------------------------------------------
  // Arithmetic chains: lit a (lit b op)* halt
  // ---------------------------------------------------------------------

  datatype Term = Term(op: BinOp, arg: Word)

  function TermWords(t: Term): seq<Word> {
    [LIT, t.arg, Primitive(t.op)]
  }

  function TermsWords(ts: seq<Term>): seq<Word> {
    if ts == [] then [] else TermWords(ts[0]) + TermsWords(ts[1..])
  }

  function ChainWords(a: Word, ts: seq<Term>): seq<Word> {
    [LIT, a] + (TermsWords(ts) + [HALT])
  }

  /** The left-to-right value of a chain. */
  function ChainValue(a: Word, ts: seq<Term>): Word
    decreases |ts|
  {
    if ts == [] then a else ChainValue(Apply(ts[0].op, a, ts[0].arg), ts[1..])
  }

  lemma StepBinary(words: seq<Word>, ip: nat, op: BinOp, a: Word, b: Word, bus: Bus)
    requires ip < |words| && words[ip] == Primitive(op)
    ensures Leads(words, ip, State([a, b], bus), ip + 1, State([Apply(op, a, b)], bus))
  {
    var s := State([a, b], bus);
    assert s.Drop() == State([a], bus) && s.Drop().Drop() == State([], bus);
    assert BinaryTop(s, op) == State([Apply(op, a, b)], bus);
    assert Dispatch(words, ip, s) == Next(ip + 1, BinaryTop(s, op));
  }

  lemma RunTerm(words: seq<Word>, ip: nat, a: Word, t: Term, bus: Bus)
    requires Sits(words, ip, TermWords(t))
    ensures Leads(words, ip, State([a], bus), ip + 3, State([Apply(t.op, a, t.arg)], bus))
  {
    SitsAt(words, ip, TermWords(t), 0);
    SitsAt(words, ip, TermWords(t), 1);
    SitsAt(words, ip, TermWords(t), 2);
    StepLit(words, ip, State([a], bus));
    assert [a] + [t.arg] == [a, t.arg];
    StepBinary(words, ip + 2, t.op, a, t.arg, bus);
  }

  lemma {:induction false} RunTerms(words: seq<Word>, ip: nat, a: Word, ts: seq<Term>, bus: Bus)
    requires Sits(words, ip, TermsWords(ts) + [HALT])
    ensures Run(words, ip, State([a], bus)) == Some(State([ChainValue(a, ts)], bus))
    ensures RunsClean(words, ip, State([a], bus))
    decreases |ts|
  {
    if ts == [] {
      assert TermsWords(ts) + [HALT] == [HALT];
      StepHalt(words, ip, State([a], bus));
    } else {
      assert TermsWords(ts) + [HALT] == TermWords(ts[0]) + (TermsWords(ts[1..]) + [HALT]);
      SitsSplit(words, ip, TermWords(ts[0]), TermsWords(ts[1..]) + [HALT]);
      RunTerm(words, ip, a, ts[0], bus);
      RunTerms(words, ip + 3, Apply(ts[0].op, a, ts[0].arg), ts[1..], bus);
    }
  }

  /** The dispatch loop leaves exactly the chain's value on the stack. */
  lemma RunChain(a: Word, ts: seq<Term>, bus: Bus)
    ensures Run(ChainWords(a, ts), 0, State([], bus)) == Some(State([ChainValue(a, ts)], bus))
    ensures RunsClean(ChainWords(a, ts), 0, State([], bus))
  {
    var words := ChainWords(a, ts);
    assert Sits(words, 2, TermsWords(ts) + [HALT]);
    assert Dispatch(words, 0, State([], bus)) == Next(2, State([a], bus));
    RunTerms(words, 2, a, ts, bus);
  }

  /** The VM does not stop at a zero divisor: the quotient is 0. */
  lemma ZeroDivisor(a: Word, bus: Bus)
    ensures Run(ChainWords(a, [Term(Over, 0)]), 0, State([], bus)) == Some(State([0], bus))
  {
    RunChain(a, [Term(Over, 0)], bus);
  }

  /** On plain RAM, a poke and a peek of the same address leave the value poked. */
  lemma PokeThenPeek(a: Word, v: Word, m: Memory)
    ensures Run(Flatten([Poke(a, v), Peek(a)]) + [HALT], 0, State([], Bus(Ram(m), []))) ==
            Some(State([v], Bus(Ram(m), [Write(a, v), Read(a)])))
  {
    var bs, s := [Poke(a, v), Peek(a)], State([], Bus(Ram(m), []));
    var words := Flatten(bs) + [HALT];
    PeeksOfTwo(bs);
    assert Sits(words, 0, words);
    RunBlocks(words, 0, bs, s);
    RamReadsBack(m, [], a, v);
    var s1 := ExecBlock(bs[0], s);
    var s2 := ExecBlock(bs[1], s1);
    assert bs[1..][0] == Peek(a) && bs[1..][1..] == [];
    assert ExecBlocks(bs, s) == ExecBlocks(bs[1..], s1) == s2;
    assert s1.bus == s.bus.AfterWrite(a, v) && s1.bus.Peek(a) == v;
    assert s2.bus.trace == [Write(a, v), Read(a)] && s2.stack == [v];
  }

  lemma PeeksOfTwo(bs: seq<Block>)
    requires |bs| == 2
    ensures Peeks(bs) <= 2
  {
    assert Peeks(bs[1..][1..]) == 0;
  }
}
