/**
  The threaded micro-primitives and the dispatch loop that runs them
  (src/compiler/primitives.rs, src/kernel/exec.rs).

  A stream is a sequence of words: addresses of primitives, with the argument
  of `lit` inline.  Jumping through a word that is no primitive, or fetching
  past the end of the stream, is undefined in the source; here it is `Crash`,
  and the compiler is proved never to build a stream that reaches it.
 */
module ThreadedVm {
  import opened Words

  // Link-time addresses of the primitives; all that matters is that they are
  // distinct and not null.
  const LIT: Word := 0x0800_0101
  const LOAD: Word := 0x0800_0121
  const WRITE: Word := 0x0800_0141
  const ADD: Word := 0x0800_0161
  const SUB: Word := 0x0800_0181
  const MUL: Word := 0x0800_01A1
  const DIV: Word := 0x0800_01C1
  const HALT: Word := 0x0800_01E1

  const VM_STACK_SIZE := 64

  /** Operand stack (top last) and the bus the primitives touch. */
  datatype State = State(stack: seq<Word>, bus: Bus) {

    /** A push onto a full stack is silently dropped. */
    function Push(v: Word): State {
      if |stack| >= VM_STACK_SIZE then this else this.(stack := stack + [v])
    }

    /** Popping an empty stack yields 0. */
    function Top(): Word {
      if stack == [] then 0 else stack[|stack| - 1]
    }

    function Drop(): State {
      if stack == [] then this else this.(stack := stack[..|stack| - 1])
    }
  }

  /** The operand stack holds 64 words. */
  lemma StackHolds64(s: State, v: Word)
    ensures s.Push(v) == if |s.stack| < 64 then State(s.stack + [v], s.bus) else s
  {
  }

  datatype Step = Next(ip: nat, state: State) | Stop(state: State) | Crash

  datatype BinOp = Plus | Minus | Times | Over

  /** Wrapping arithmetic; dividing by zero yields 0. */
  function Apply(op: BinOp, a: Word, b: Word): Word {
    match op
    case Plus => (a + b) % WORD_SPAN
    case Minus => (a - b) % WORD_SPAN
    case Times => (a * b) % WORD_SPAN
    case Over => if b == 0 then 0 else a / b
  }

  /** Address of the primitive for `op`. */
  function Primitive(op: BinOp): Word {
    match op
    case Plus => ADD
    case Minus => SUB
    case Times => MUL
    case Over => DIV
  }

  function BinOpOf(w: Word): Option<BinOp> {
    if w == ADD then Some(Plus)
    else if w == SUB then Some(Minus)
    else if w == MUL then Some(Times)
    else if w == DIV then Some(Over)
    else None
  }

  function BinaryTop(s: State, op: BinOp): State {
    var b := s.Top();
    var s1 := s.Drop();
    s1.Drop().Push(Apply(op, s1.Top(), b))
  }

  function LoadTop(s: State): State {
    var a := s.Top();
    s.Drop().(bus := s.bus.AfterRead(a)).Push(s.bus.Peek(a))
  }

  function WriteTop(s: State): State {
    var v := s.Top();
    var s1 := s.Drop();
    s1.Drop().(bus := s.bus.AfterWrite(s1.Top(), v))
  }

  /** One turn of the dispatch loop. */
  function Dispatch(words: seq<Word>, ip: nat, s: State): Step {
    if ip >= |words| then Crash
    else
      var w := words[ip];
      if w == 0 || w == HALT then Stop(s)
      else if w == LIT then
        if ip + 1 >= |words| then Crash else Next(ip + 2, s.Push(words[ip + 1]))
      else if w == LOAD then Next(ip + 1, LoadTop(s))
      else if w == WRITE then Next(ip + 1, WriteTop(s))
      else match BinOpOf(w)
        case Some(op) => Next(ip + 1, BinaryTop(s, op))
        case None => Crash
  }

  /** A whole run from `ip`: the state at the halt, or nothing after a crash. */
  function Run(words: seq<Word>, ip: nat, s: State): Option<State>
    decreases |words| - ip
  {
    match Dispatch(words, ip, s)
    case Next(ip1, s1) => Run(words, ip1, s1)
    case Stop(s1) => Some(s1)
    case Crash => None
  }

  /** A null word stops the run, as a halt does. */
  lemma NullStops(words: seq<Word>, ip: nat, s: State)
    requires ip < |words| && words[ip] == 0
    ensures Run(words, ip, s) == Some(s)
  {
  }

  /** Operands a primitive takes off the stack. */
  function Pops(w: Word): nat {
    if w == LOAD then 1
    else if w == WRITE || w == ADD || w == SUB || w == MUL || w == DIV then 2
    else 0
  }

  /** Results a primitive leaves on the stack. */
  function Pushes(w: Word): nat {
    if w == LIT || w == LOAD || w == ADD || w == SUB || w == MUL || w == DIV then 1 else 0
  }

  /**
    The run from `ip` reaches its halt inside the stream, and on the way no
    primitive pops an empty stack and no push is dropped.
   */
  ghost predicate RunsClean(words: seq<Word>, ip: nat, s: State)
    decreases |words| - ip
  {
    ip < |words| &&
    var w := words[ip];
    Pops(w) <= |s.stack| &&
    |s.stack| - Pops(w) + Pushes(w) <= 64 &&
    match Dispatch(words, ip, s)
    case Next(ip1, s1) => RunsClean(words, ip1, s1)
    case Stop(_) => w == HALT
    case Crash => false
  }

  /**
    What a clean run means: it ends, and its next primitive finds its operands
    on the stack and room for its result.
   */
  lemma {:induction false} CleanMeans(words: seq<Word>, ip: nat, s: State)
    requires RunsClean(words, ip, s)
    ensures ip < |words| && Run(words, ip, s).Some?
    ensures var w := words[ip];
            && w != 0
            && (w == LIT ==> ip + 1 < |words| && s.Push(words[ip + 1]).stack == s.stack + [words[ip + 1]])
            && (w == LOAD ==> |s.stack| >= 1 && |LoadTop(s).stack| == |s.stack|)
            && (w == WRITE ==> |s.stack| >= 2 && |WriteTop(s).stack| == |s.stack| - 2)
            && (BinOpOf(w).Some? ==> |s.stack| >= 2 && |BinaryTop(s, BinOpOf(w).value).stack| == |s.stack| - 1)
    decreases |words| - ip
  {
    var step := Dispatch(words, ip, s);
    if step.Next? {
      CleanMeans(words, step.ip, step.state);
    }
  }

  /** The kernel's operand stack, changed in place by the primitives. */
  class Vm {
    const slots: array<Word>
    var sp: nat
    var bus: Bus

    ghost predicate Valid()
      reads this
    {
      slots.Length == VM_STACK_SIZE && sp <= VM_STACK_SIZE
    }

    ghost function Model(): State
      requires Valid()
      reads this, slots
    {
      State(slots[..sp], bus)
    }

    constructor (b: Bus)
      ensures Valid() && fresh(slots)
      ensures Model() == State([], b)
    {
      slots := new Word[VM_STACK_SIZE](_ => 0);
      sp := 0;
      bus := b;
    }

    method Push(v: Word) returns (kept: bool)
      requires Valid()
      modifies this`sp, slots
      ensures Valid()
      ensures Model() == old(Model()).Push(v)
      ensures kept <==> old(sp) < 64
    {
      if sp >= VM_STACK_SIZE {
        return false;
      }
      slots[sp] := v;
      sp := sp + 1;
      assert slots[..sp] == old(slots[..sp]) + [v];
      return true;
    }

    method Pop() returns (v: Word)
      requires Valid()
      modifies this`sp
      ensures Valid()
      ensures v == old(Model()).Top() && Model() == old(Model()).Drop()
    {
      if sp == 0 {
        return 0;
      }
      sp := sp - 1;
      assert slots[..sp] == old(slots[..sp])[..sp];
      return slots[sp];
    }

    method Binary(op: BinOp)
      requires Valid()
      modifies this`sp, slots
      ensures Valid()
      ensures Model() == BinaryTop(old(Model()), op)
    {
      var b := Pop();
      var a := Pop();
      var kept := Push(Apply(op, a, b));
    }

    method LoadReg()
      requires Valid()
      modifies this, slots
      ensures Valid()
      ensures Model() == LoadTop(old(Model()))
    {
      var a := Pop();
      var v := bus.Peek(a);
      bus := bus.AfterRead(a);
      var kept := Push(v);
    }

    method WriteReg()
      requires Valid()
      modifies this
      ensures Valid()
      ensures Model() == WriteTop(old(Model()))
    {
      var v := Pop();
      var a := Pop();
      bus := bus.AfterWrite(a, v);
    }

    /** The dispatch loop; `halted` is false where the source would run wild. */
    method RunThreadedStream(words: seq<Word>) returns (halted: bool)
      requires Valid()
      modifies this, slots
      ensures Valid()
      ensures halted <==> Run(words, 0, old(Model())).Some?
      ensures halted ==> Run(words, 0, old(Model())) == Some(Model())
    {
      var ip := 0;
      while true
        invariant Valid()
        invariant Run(words, ip, Model()) == Run(words, 0, old(Model()))
        decreases |words| - ip
      {
        if ip >= |words| {
          return false;
        }
        var w := words[ip];
        if w == 0 || w == HALT {
          return true;
        } else if w == LIT {
          if ip + 1 >= |words| {
            return false;
          }
          var kept := Push(words[ip + 1]);
          ip := ip + 2;
        } else if w == LOAD {
          LoadReg();
          ip := ip + 1;
        } else if w == WRITE {
          WriteReg();
          ip := ip + 1;
        } else {
          var op := BinOpOf(w);
          if op.None? {
            return false;
          }
          Binary(op.value);
          ip := ip + 1;
        }
      }
    }
  }
}
