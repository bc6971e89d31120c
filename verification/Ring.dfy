/**
  Single-producer/single-consumer rings: the task queue
  (crates/hros-kernel/src/scheduler.rs:41-112), the DMA descriptor ring
  (src/drivers/pcie.rs:105-162) and the UART receive ring
  (src/drivers/uart.rs:163-200, where the two indices trade names).

  Each operation is split into its atomic loads and stores, and the two sides
  take steps in any order, on sequentially consistent memory.
 */
module Ring {
  import opened Words

  function Succ(i: nat, n: nat): nat
    requires n >= 1
  {
    (i + 1) % n
  }

  lemma ModWrap(x: nat, n: nat)
    requires n >= 1 && x < 2 * n
    ensures x % n == if x < n then x else x - n
  {
    if x >= n {
      var q := x / n;
      assert x == q * n + x % n;
      assert q >= 2 ==> q * n >= 2 * n;
      assert q == 0 ==> q * n == 0;
    }
  }

  lemma SuccIs(i: nat, n: nat)
    requires i < n
    ensures Succ(i, n) == if i + 1 == n then 0 else i + 1
  {
  }

  /** Entries between head and tail, oldest first. */
  function Queued<T>(slots: seq<T>, head: nat, tail: nat): seq<T>
    requires head < |slots| && tail < |slots|
  {
    if head <= tail then slots[head..tail] else slots[head..] + slots[..tail]
  }

  // ---------------------------------------------------------------------
  // The protocol
  // ---------------------------------------------------------------------

  /** Where the producer stands: `tail` is the index it loaded. */
  datatype Producer<T> = Resting | LoadedTail(v: T, tail: nat) | HasRoom(v: T, tail: nat) | Wrote(v: T, tail: nat)

  /** Where the consumer stands: `head` is the index it loaded. */
  datatype Consumer<T> = Waiting | LoadedHead(head: nat) | HasEntry(head: nat) | Took(v: T, head: nat)

  /**
    Shared memory, both program counters, and the history: entries whose push
    succeeded and entries whose pop returned.
   */
  datatype State<T> = State(
    slots: seq<T>, head: nat, tail: nat, p: Producer<T>, c: Consumer<T>, accepted: seq<T>, popped: seq<T>)

  datatype Action<T> =
    | LoadTail(v: T)    // push(v) begins
    | CheckRoom         // loads head; fails when the ring is full
    | WriteSlot
    | StoreTail         // push succeeds
    | LoadHead          // pop begins
    | CheckEntry        // loads tail; returns None when the ring is empty
    | ReadSlot
    | StoreHead         // pop returns its entry

  predicate Shaped<T>(s: State<T>) {
    && s.head < |s.slots| && s.tail < |s.slots|
    && (!s.p.Resting? ==> s.p.tail < |s.slots|)
    && (!s.c.Waiting? ==> s.c.head < |s.slots|)
  }

  /** One atomic step; a step whose side is elsewhere changes nothing. */
  function Next<T>(s: State<T>, a: Action<T>): State<T>
    requires Shaped(s)
  {
    var n := |s.slots|;
    match a
    case LoadTail(v) => if s.p.Resting? then s.(p := LoadedTail(v, s.tail)) else s
    case CheckRoom =>
      if !s.p.LoadedTail? then s
      else if Succ(s.p.tail, n) == s.head then s.(p := Resting)
      else s.(p := HasRoom(s.p.v, s.p.tail))
    case WriteSlot =>
      if !s.p.HasRoom? then s
      else s.(slots := s.slots[s.p.tail := s.p.v], p := Wrote(s.p.v, s.p.tail))
    case StoreTail =>
      if !s.p.Wrote? then s
      else s.(tail := Succ(s.p.tail, n), p := Resting, accepted := s.accepted + [s.p.v])
    case LoadHead => if s.c.Waiting? then s.(c := LoadedHead(s.head)) else s
    case CheckEntry =>
      if !s.c.LoadedHead? then s
      else if s.c.head == s.tail then s.(c := Waiting)
      else s.(c := HasEntry(s.c.head))
    case ReadSlot =>
      if !s.c.HasEntry? then s else s.(c := Took(s.slots[s.c.head], s.c.head))
    case StoreHead =>
      if !s.c.Took? then s
      else s.(head := Succ(s.c.head, n), c := Waiting, popped := s.popped + [s.c.v])
  }

  /** What every step keeps. */
  ghost predicate Inv<T>(s: State<T>) {
    && Shaped(s)
    && s.accepted == s.popped + Queued(s.slots, s.head, s.tail)
    && (!s.p.Resting? ==> s.p.tail == s.tail)
    && (s.p.HasRoom? || s.p.Wrote? ==> Succ(s.tail, |s.slots|) != s.head)
    && (s.p.Wrote? ==> s.slots[s.tail] == s.p.v)
    && (!s.c.Waiting? ==> s.c.head == s.head)
    && (s.c.HasEntry? || s.c.Took? ==> s.head != s.tail)
    && (s.c.Took? ==> s.slots[s.head] == s.c.v)
  }

  lemma WriteOutside<T>(slots: seq<T>, head: nat, tail: nat, v: T)
    requires head < |slots| && tail < |slots|
    ensures Queued(slots[tail := v], head, tail) == Queued(slots, head, tail)
  {
  }

  lemma QueuedGrows<T>(slots: seq<T>, head: nat, tail: nat)
    requires head < |slots| && tail < |slots| && Succ(tail, |slots|) != head
    ensures Queued(slots, head, Succ(tail, |slots|)) == Queued(slots, head, tail) + [slots[tail]]
  {
    SuccIs(tail, |slots|);
  }

  lemma QueuedShrinks<T>(slots: seq<T>, head: nat, tail: nat)
    requires head < |slots| && tail < |slots| && head != tail
    ensures Queued(slots, head, tail) == [slots[head]] + Queued(slots, Succ(head, |slots|), tail)
  {
    SuccIs(head, |slots|);
  }

  lemma SuccInjective(i: nat, j: nat, n: nat)
    requires i < n && j < n && i != j
    ensures Succ(i, n) != Succ(j, n)
  {
    SuccIs(i, n);
    SuccIs(j, n);
  }

  lemma StoreTailKeepsInv<T>(s: State<T>)
    requires Inv(s) && s.p.Wrote?
    ensures Inv(Next(s, StoreTail))
  {
    QueuedGrows(s.slots, s.head, s.tail);
    assert s.popped + (Queued(s.slots, s.head, s.tail) + [s.p.v]) ==
           s.popped + Queued(s.slots, s.head, s.tail) + [s.p.v];
  }

  lemma StoreHeadKeepsInv<T>(s: State<T>)
    requires Inv(s) && s.c.Took?
    ensures Inv(Next(s, StoreHead))
  {
    QueuedShrinks(s.slots, s.head, s.tail);
    SuccInjective(s.head, s.tail, |s.slots|);
    var rest := Queued(s.slots, Succ(s.head, |s.slots|), s.tail);
    assert s.popped + ([s.c.v] + rest) == (s.popped + [s.c.v]) + rest;
  }

  lemma StepKeepsInv<T>(s: State<T>, a: Action<T>)
    requires Inv(s)
    ensures Inv(Next(s, a)) && |Next(s, a).slots| == |s.slots|
  {
    if a.WriteSlot? && s.p.HasRoom? {
      WriteOutside(s.slots, s.head, s.tail, s.p.v);
    } else if a.StoreTail? && s.p.Wrote? {
      StoreTailKeepsInv(s);
    } else if a.StoreHead? && s.c.Took? {
      StoreHeadKeepsInv(s);
    }
  }

  /** State after a whole interleaving. */
  function After<T>(s: State<T>, acts: seq<Action<T>>): State<T>
    requires Inv(s)
    ensures Inv(After(s, acts)) && |After(s, acts).slots| == |s.slots|
    decreases |acts|
  {
    if acts == [] then s
    else
      StepKeepsInv(s, acts[0]);
      After(Next(s, acts[0]), acts[1..])
  }

  /** An empty ring with both sides at rest. */
  ghost predicate Init<T>(s: State<T>) {
    s.slots != [] && s.head == s.tail == 0 && s.p == Resting && s.c == Waiting && s.accepted == s.popped == []
  }

  /**
    Over every interleaving: what was popped is a prefix of what was accepted,
    the rest is queued in order, and at most n-1 entries are queued.
   */
  lemma EveryInterleaving<T>(s: State<T>, acts: seq<Action<T>>)
    requires Init(s)
    ensures Inv(s)
    ensures var t := After(s, acts);
            && t.popped <= t.accepted
            && t.accepted[|t.popped|..] == Queued(t.slots, t.head, t.tail)
            && |t.accepted| - |t.popped| <= |s.slots| - 1
  {
  }

  /**
    Seen through the queue, only the two commits do anything: storing the tail
    appends the pushed entry and storing the head removes the oldest.  No step,
    in particular no slot write, disturbs an entry that is still to be read.
   */
  lemma StepRefinesQueue<T>(s: State<T>, a: Action<T>)
    requires Inv(s)
    ensures Inv(Next(s, a))
    ensures var q := Queued(s.slots, s.head, s.tail);
            var q1 := Queued(Next(s, a).slots, Next(s, a).head, Next(s, a).tail);
            if a.StoreTail? && s.p.Wrote? then q1 == q + [s.p.v]
            else if a.StoreHead? && s.c.Took? then q == [s.c.v] + q1
            else q1 == q
  {
    StepKeepsInv(s, a);
    if a.WriteSlot? && s.p.HasRoom? {
      WriteOutside(s.slots, s.head, s.tail, s.p.v);
    } else if a.StoreTail? && s.p.Wrote? {
      QueuedGrows(s.slots, s.head, s.tail);
    } else if a.StoreHead? && s.c.Took? {
      QueuedShrinks(s.slots, s.head, s.tail);
    }
  }

  lemma QueuedLength<T>(slots: seq<T>, head: nat, tail: nat)
    requires head < |slots| && tail < |slots|
    ensures |Queued(slots, head, tail)| == if tail >= head then tail - head else |slots| - head + tail
    ensures Succ(tail, |slots|) == head <==> |Queued(slots, head, tail)| == |slots| - 1
    ensures head == tail <==> Queued(slots, head, tail) == []
  {
    SuccIs(tail, |slots|);
  }

  /** A push fails exactly when the ring is full at the moment head is read. */
  lemma PushFailsIffFull<T>(s: State<T>)
    requires Inv(s) && s.p.LoadedTail?
    ensures Next(s, CheckRoom).p.Resting? <==> |Queued(s.slots, s.head, s.tail)| == |s.slots| - 1
  {
    QueuedLength(s.slots, s.head, s.tail);
  }

  /** A pop returns None exactly when the ring is empty at the moment tail is read. */
  lemma PopNoneIffEmpty<T>(s: State<T>)
    requires Inv(s) && s.c.LoadedHead?
    ensures Next(s, CheckEntry).c.Waiting? <==> Queued(s.slots, s.head, s.tail) == []
  {
    QueuedLength(s.slots, s.head, s.tail);
  }

  // ---------------------------------------------------------------------
  // What the actions alone say
  // ---------------------------------------------------------------------

  /** How far the push under way has come, and what it was called with. */
  datatype Pushing<T> = NoPush | Begun(v: T) | Cleared(v: T) | Placed(v: T)

  /** How far the pop under way has come. */
  datatype Popping = NoPop | Looking | Sure | Holding

  /** The books on a ring of n slots, kept without slots or indices: what was sent, and how much of it was taken. */
  datatype Ledger<T> = Ledger(push: Pushing<T>, pop: Popping, sent: seq<T>, taken: nat)

  function Enter<T>(l: Ledger<T>, n: nat, a: Action<T>): Ledger<T> {
    match a
    case LoadTail(v) => if l.push.NoPush? then l.(push := Begun(v)) else l
    case CheckRoom =>
      if !l.push.Begun? then l
      else if |l.sent| - l.taken == n - 1 then l.(push := NoPush)
      else l.(push := Cleared(l.push.v))
    case WriteSlot => if l.push.Cleared? then l.(push := Placed(l.push.v)) else l
    case StoreTail => if l.push.Placed? then l.(push := NoPush, sent := l.sent + [l.push.v]) else l
    case LoadHead => if l.pop.NoPop? then l.(pop := Looking) else l
    case CheckEntry => if !l.pop.Looking? then l else if l.taken == |l.sent| then l.(pop := NoPop) else l.(pop := Sure)
    case ReadSlot => if l.pop.Sure? then l.(pop := Holding) else l
    case StoreHead => if l.pop.Holding? then l.(pop := NoPop, taken := l.taken + 1) else l
  }

  function EnterAll<T>(l: Ledger<T>, n: nat, acts: seq<Action<T>>): Ledger<T>
    decreases |acts|
  {
    if acts == [] then l else EnterAll(Enter(l, n, acts[0]), n, acts[1..])
  }

  predicate IsProducer<T>(a: Action<T>) {
    a.LoadTail? || a.CheckRoom? || a.WriteSlot? || a.StoreTail?
  }

  /** The producer is where the books say, with the argument of its push in hand. */
  ghost predicate SamePush<T>(p: Producer<T>, l: Pushing<T>) {
    match p
    case Resting => l.NoPush?
    case LoadedTail(v, _) => l == Begun(v)
    case HasRoom(v, _) => l == Cleared(v)
    case Wrote(v, _) => l == Placed(v)
  }

  predicate SamePop<T>(c: Consumer<T>, l: Popping) {
    match c
    case Waiting => l.NoPop?
    case LoadedHead(_) => l.Looking?
    case HasEntry(_) => l.Sure?
    case Took(_, _) => l.Holding?
  }

  ghost predicate Tracks<T>(s: State<T>, l: Ledger<T>) {
    && Inv(s) && SamePush(s.p, l.push) && SamePop(s.c, l.pop)
    && s.accepted == l.sent && |s.popped| == l.taken
  }

  /** Full and empty, seen from the books. */
  lemma CountsAgree<T>(s: State<T>)
    requires Inv(s)
    ensures Succ(s.tail, |s.slots|) == s.head <==> |s.accepted| - |s.popped| == |s.slots| - 1
    ensures s.head == s.tail <==> |s.popped| == |s.accepted|
  {
    QueuedLength(s.slots, s.head, s.tail);
  }

  lemma StepTracks<T>(s: State<T>, l: Ledger<T>, a: Action<T>)
    requires Tracks(s, l)
    ensures Inv(Next(s, a)) && Tracks(Next(s, a), Enter(l, |s.slots|, a))
  {
    StepKeepsInv(s, a);
    CountsAgree(s);
    if IsProducer(a) {
      PushStepsSame(s, l, a);
    } else {
      PopStepsSame(s, l, a);
    }
  }

  lemma PushStepsSame<T>(s: State<T>, l: Ledger<T>, a: Action<T>)
    requires Shaped(s) && IsProducer(a) && SamePush(s.p, l.push) && s.accepted == l.sent
    requires !s.p.Resting? ==> s.p.tail == s.tail
    requires Succ(s.tail, |s.slots|) == s.head <==> |l.sent| - l.taken == |s.slots| - 1
    ensures var t, k := Next(s, a), Enter(l, |s.slots|, a);
            && SamePush(t.p, k.push) && t.accepted == k.sent
            && t.c == s.c && k.pop == l.pop && t.popped == s.popped && k.taken == l.taken
  {
  }

  lemma PopStepsSame<T>(s: State<T>, l: Ledger<T>, a: Action<T>)
    requires Shaped(s) && !IsProducer(a) && SamePop(s.c, l.pop) && |s.popped| == l.taken
    requires !s.c.Waiting? ==> s.c.head == s.head
    requires s.head == s.tail <==> l.taken == |l.sent|
    ensures var t, k := Next(s, a), Enter(l, |s.slots|, a);
            && SamePop(t.c, k.pop) && |t.popped| == k.taken
            && t.p == s.p && k.push == l.push && t.accepted == s.accepted && k.sent == l.sent
  {
  }

  lemma {:induction false} RunTracks<T>(s: State<T>, l: Ledger<T>, acts: seq<Action<T>>)
    requires Tracks(s, l)
    ensures Tracks(After(s, acts), EnterAll(l, |s.slots|, acts))
    decreases |acts|
  {
    if acts != [] {
      StepTracks(s, l, acts[0]);
      RunTracks(Next(s, acts[0]), Enter(l, |s.slots|, acts[0]), acts[1..]);
    }
  }

  /**
    Over every interleaving the ring does what the books say, and the books are
    read off the actions: accepted are exactly the arguments of the pushes that
    reached their tail store, in that order, and popped the oldest of them.
   */
  lemma ReadOffActions<T>(s: State<T>, acts: seq<Action<T>>)
    requires Init(s)
    ensures Inv(s)
    ensures var t, l := After(s, acts), EnterAll(Ledger(NoPush, NoPop, [], 0), |s.slots|, acts);
            t.accepted == l.sent && l.taken <= |l.sent| && t.popped == l.sent[..l.taken]
  {
    RunTracks(s, Ledger(NoPush, NoPop, [], 0), acts);
  }

  /** The actions of the producer among `acts`. */
  function ProducerOf<T>(acts: seq<Action<T>>): seq<Action<T>> {
    if acts == [] then []
    else (if IsProducer(acts[0]) then [acts[0]] else []) + ProducerOf(acts[1..])
  }

  /** What a push of `v` has still to do, and room for it while that is undecided. */
  ghost predicate Remaining<T>(s: State<T>, v: T, todo: seq<Action<T>>)
    requires Inv(s)
  {
    var room := |Queued(s.slots, s.head, s.tail)| < |s.slots| - 1;
    match s.p
    case Resting => todo == [LoadTail(v), CheckRoom, WriteSlot, StoreTail] && room
    case LoadedTail(x, _) => x == v && todo == [CheckRoom, WriteSlot, StoreTail] && room
    case HasRoom(x, _) => x == v && todo == [WriteSlot, StoreTail]
    case Wrote(x, _) => x == v && todo == [StoreTail]
  }

  lemma ConsumerStep<T>(s: State<T>, v: T, todo: seq<Action<T>>, a: Action<T>)
    requires Inv(s) && Remaining(s, v, todo) && !IsProducer(a)
    ensures Inv(Next(s, a)) && Remaining(Next(s, a), v, todo) && Next(s, a).accepted == s.accepted
  {
    StepRefinesQueue(s, a);
  }

  lemma ProducerStep<T>(s: State<T>, v: T, todo: seq<Action<T>>)
    requires Inv(s) && Remaining(s, v, todo)
    ensures var t := Next(s, todo[0]);
            && Inv(t)
            && if |todo| == 1 then t.p.Resting? && t.accepted == s.accepted + [v]
               else Remaining(t, v, todo[1..]) && t.accepted == s.accepted
  {
    StepRefinesQueue(s, todo[0]);
    QueuedLength(s.slots, s.head, s.tail);
  }

  /** While the producer rests and has nothing to do, nothing is accepted. */
  lemma {:induction false} NothingPushed<T>(s: State<T>, acts: seq<Action<T>>)
    requires Inv(s) && s.p.Resting? && ProducerOf(acts) == []
    ensures After(s, acts).p.Resting? && After(s, acts).accepted == s.accepted
    decreases |acts|
  {
    if acts != [] {
      StepKeepsInv(s, acts[0]);
      NothingPushed(Next(s, acts[0]), acts[1..]);
    }
  }

  lemma {:induction false} PushGoesOn<T>(s: State<T>, v: T, acts: seq<Action<T>>)
    requires Inv(s) && Remaining(s, v, ProducerOf(acts))
    ensures After(s, acts).p.Resting? && After(s, acts).accepted == s.accepted + [v]
    decreases |acts|
  {
    var todo, rest := ProducerOf(acts), ProducerOf(acts[1..]);
    if IsProducer(acts[0]) {
      assert todo[0] == acts[0] && todo[1..] == rest;
      ProducerStep(s, v, todo);
      if |todo| == 1 {
        NothingPushed(Next(s, acts[0]), acts[1..]);
      } else {
        PushGoesOn(Next(s, acts[0]), v, acts[1..]);
      }
    } else {
      assert todo == rest;
      ConsumerStep(s, v, todo, acts[0]);
      PushGoesOn(Next(s, acts[0]), v, acts[1..]);
    }
  }

  /**
    A push of `v` that starts on an idle producer and a ring with room appends
    `v`, wherever the consumer's steps fall.
   */
  lemma PushLands<T>(s: State<T>, v: T, acts: seq<Action<T>>)
    requires Inv(s) && s.p.Resting? && |Queued(s.slots, s.head, s.tail)| < |s.slots| - 1
    requires ProducerOf(acts) == [LoadTail(v), CheckRoom, WriteSlot, StoreTail]
    ensures After(s, acts).p.Resting? && After(s, acts).accepted == s.accepted + [v]
  {
    PushGoesOn(s, v, acts);
  }

  /** The actions of the consumer among `acts`. */
  function ConsumerOf<T>(acts: seq<Action<T>>): seq<Action<T>> {
    if acts == [] then []
    else (if IsProducer(acts[0]) then [] else [acts[0]]) + ConsumerOf(acts[1..])
  }

  /** What a pop of the oldest entry `v` has still to do. */
  ghost predicate PopRemaining<T>(s: State<T>, v: T, todo: seq<Action<T>>)
    requires Inv(s)
  {
    && s.head != s.tail && s.slots[s.head] == v
    && match s.c
       case Waiting => todo == [LoadHead, CheckEntry, ReadSlot, StoreHead]
       case LoadedHead(_) => todo == [CheckEntry, ReadSlot, StoreHead]
       case HasEntry(_) => todo == [ReadSlot, StoreHead]
       case Took(_, _) => todo == [StoreHead]
  }

  lemma PopUndisturbed<T>(s: State<T>, v: T, todo: seq<Action<T>>, a: Action<T>)
    requires Inv(s) && PopRemaining(s, v, todo) && IsProducer(a)
    ensures Inv(Next(s, a)) && PopRemaining(Next(s, a), v, todo) && Next(s, a).popped == s.popped
  {
    StepKeepsInv(s, a);
  }

  lemma PopStep<T>(s: State<T>, v: T, todo: seq<Action<T>>)
    requires Inv(s) && PopRemaining(s, v, todo)
    ensures var t := Next(s, todo[0]);
            && Inv(t)
            && if |todo| == 1 then t.c.Waiting? && t.popped == s.popped + [v]
               else PopRemaining(t, v, todo[1..]) && t.popped == s.popped
  {
    StepKeepsInv(s, todo[0]);
  }

  lemma {:induction false} NothingPopped<T>(s: State<T>, acts: seq<Action<T>>)
    requires Inv(s) && s.c.Waiting? && ConsumerOf(acts) == []
    ensures After(s, acts).c.Waiting? && After(s, acts).popped == s.popped
    decreases |acts|
  {
    if acts != [] {
      StepKeepsInv(s, acts[0]);
      NothingPopped(Next(s, acts[0]), acts[1..]);
    }
  }

  lemma {:induction false} PopGoesOn<T>(s: State<T>, v: T, acts: seq<Action<T>>)
    requires Inv(s) && PopRemaining(s, v, ConsumerOf(acts))
    ensures After(s, acts).c.Waiting? && After(s, acts).popped == s.popped + [v]
    decreases |acts|
  {
    var todo, rest := ConsumerOf(acts), ConsumerOf(acts[1..]);
    if !IsProducer(acts[0]) {
      assert todo[0] == acts[0] && todo[1..] == rest;
      PopStep(s, v, todo);
      if |todo| == 1 {
        NothingPopped(Next(s, acts[0]), acts[1..]);
      } else {
        PopGoesOn(Next(s, acts[0]), v, acts[1..]);
      }
    } else {
      assert todo == rest;
      PopUndisturbed(s, v, todo, acts[0]);
      PopGoesOn(Next(s, acts[0]), v, acts[1..]);
    }
  }

  /**
    A pop that starts on an idle consumer and a ring that is not empty returns
    the oldest entry, wherever the producer's steps fall.
   */
  lemma PopTakesOldest<T>(s: State<T>, acts: seq<Action<T>>)
    requires Inv(s) && s.c.Waiting? && Queued(s.slots, s.head, s.tail) != []
    requires ConsumerOf(acts) == [LoadHead, CheckEntry, ReadSlot, StoreHead]
    ensures var t := After(s, acts); t.c.Waiting? && t.popped == s.popped + [Queued(s.slots, s.head, s.tail)[0]]
  {
    QueuedLength(s.slots, s.head, s.tail);
    QueuedShrinks(s.slots, s.head, s.tail);
    PopGoesOn(s, s.slots[s.head], acts);
  }

  // ---------------------------------------------------------------------
  // The queue used from one side at a time
  // ---------------------------------------------------------------------

  class TaskQueue<T(0)> {
    const tasks: array<T>
    var head: nat
    var tail: nat

    ghost predicate Valid()
      reads this
    {
      head < tasks.Length && tail < tasks.Length
    }

    ghost function Contents(): seq<T>
      requires Valid()
      reads this, tasks
    {
      Queued(tasks[..], head, tail)
    }

    constructor (n: nat)
      requires n >= 1
      ensures Valid() && fresh(tasks) && tasks.Length == n && Contents() == []
    {
      tasks := new T[n];
      head, tail := 0, 0;
    }

    method PushTask(v: T) returns (ok: bool)
      requires Valid()
      modifies this`tail, tasks
      ensures Valid()
      ensures ok <==> |old(Contents())| < tasks.Length - 1
      ensures Contents() == if ok then old(Contents()) + [v] else old(Contents())
    {
      QueuedLength(tasks[..], head, tail);
      var nextTail := (tail + 1) % tasks.Length;
      if nextTail == head {
        return false;
      }
      WriteOutside(tasks[..], head, tail, v);
      tasks[tail] := v;
      assert tasks[..] == old(tasks[..])[tail := v];
      QueuedGrows(tasks[..], head, tail);
      tail := nextTail;
      return true;
    }

    method PopTask() returns (r: Option<T>)
      requires Valid()
      modifies this`head
      ensures Valid()
      ensures r.None? <==> old(Contents()) == []
      ensures r.Some? ==> old(Contents()) == [r.value] + Contents()
      ensures r.None? ==> Contents() == []
    {
      QueuedLength(tasks[..], head, tail);
      if head == tail {
        return None;
      }
      QueuedShrinks(tasks[..], head, tail);
      var v := tasks[head];
      head := (head + 1) % tasks.Length;
      return Some(v);
    }

    method Len() returns (n: nat)
      requires Valid()
      ensures n == |Contents()|
    {
      QueuedLength(tasks[..], head, tail);
      n := if tail >= head then tail - head else tasks.Length - head + tail;
    }

    method IsFull() returns (b: bool)
      requires Valid()
      ensures b <==> |Contents()| == tasks.Length - 1
    {
      QueuedLength(tasks[..], head, tail);
      b := (tail + 1) % tasks.Length == head;
    }

    /** Entries that can still be pushed: (head + n - tail - 1) mod n. */
    method Capacity() returns (room: nat)
      requires Valid()
      ensures room == tasks.Length - 1 - |Contents()|
    {
      QueuedLength(tasks[..], head, tail);
      var n := tasks.Length;
      ModWrap(head + n - tail - 1, n);
      room := (head + n - tail - 1) % n;
    }
  }
}
