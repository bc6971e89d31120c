/**
  Response-time analysis (crates/hros-kernel/src/wcet.rs:38-57): a capped
  fixed-point iteration over R = W + sum of ceil(R / P_j) * W_j.
 */
module ResponseTime {
  import opened Words

  /** A higher-priority task: worst-case execution time and period. */
  datatype Task = Task(w: nat, p: nat)

  ghost predicate Periodic(hs: seq<Task>) {
    forall h :: h in hs ==> h.p >= 1
  }

  /** Number of releases of a task with period `p` in a window of length `t`. */
  function Ceil(t: nat, p: nat): nat
    requires p >= 1
  {
    (t + p - 1) / p
  }

  /** Work the higher-priority tasks can ask for in a window of length `t`. */
  function Interference(hs: seq<Task>, t: nat): nat
    requires Periodic(hs)
  {
    if hs == [] then 0 else Ceil(t, hs[0].p) * hs[0].w + Interference(hs[1..], t)
  }

  /** Right-hand side of the recurrence. */
  function Demand(w: nat, hs: seq<Task>, t: nat): nat
    requires Periodic(hs)
  {
    w + Interference(hs, t)
  }

  /** R^(k) of the recurrence. */
  function Iterate(w: nat, hs: seq<Task>, k: nat): nat
    requires Periodic(hs)
  {
    if k == 0 then w else Demand(w, hs, Iterate(w, hs, k - 1))
  }

  // ---------------------------------------------------------------------
  // Monotonicity
  // ---------------------------------------------------------------------

  lemma TimesMonotone(x: nat, y: nat, w: nat)
    requires x <= y
    ensures x * w <= y * w
  {
  }

  lemma TimesCancel(x: nat, y: nat, p: nat)
    requires x * p < y * p
    ensures x < y
  {
    if y <= x {
      TimesMonotone(y, x, p);
    }
  }

  lemma DivMonotone(a: nat, b: nat, p: nat)
    requires p >= 1 && a <= b
    ensures a / p <= b / p
  {
    var x, y := a / p, b / p;
    assert x * p <= a;
    assert b < (y + 1) * p by {
      assert (y + 1) * p == y * p + p;
    }
    TimesCancel(x, y + 1, p);
  }

  lemma {:induction false} InterferenceMonotone(hs: seq<Task>, s: nat, t: nat)
    requires Periodic(hs) && s <= t
    ensures Interference(hs, s) <= Interference(hs, t)
  {
    if hs != [] {
      DivMonotone(s + hs[0].p - 1, t + hs[0].p - 1, hs[0].p);
      TimesMonotone(Ceil(s, hs[0].p), Ceil(t, hs[0].p), hs[0].w);
      InterferenceMonotone(hs[1..], s, t);
    }
  }

  lemma {:induction false} IterateGrows(w: nat, hs: seq<Task>, k: nat)
    requires Periodic(hs)
    ensures Iterate(w, hs, k) <= Iterate(w, hs, k + 1)
  {
    if k > 0 {
      IterateGrows(w, hs, k - 1);
      InterferenceMonotone(hs, Iterate(w, hs, k - 1), Iterate(w, hs, k));
    }
  }

  lemma {:induction false} IterateMonotone(w: nat, hs: seq<Task>, j: nat, k: nat)
    requires Periodic(hs) && j <= k
    ensures Iterate(w, hs, j) <= Iterate(w, hs, k)
    decreases k
  {
    if j < k {
      IterateMonotone(w, hs, j, k - 1);
      IterateGrows(w, hs, k - 1);
    }
  }

  /** Once two successive iterates are equal the iteration stands still. */
  lemma {:induction false} IterateStable(w: nat, hs: seq<Task>, j: nat, k: nat)
    requires Periodic(hs) && j <= k && Iterate(w, hs, j + 1) == Iterate(w, hs, j)
    ensures Iterate(w, hs, k) == Iterate(w, hs, j)
    decreases k
  {
    if j < k {
      IterateStable(w, hs, j, k - 1);
    }
  }

  /** Every iterate stays below every t the tasks can be served in. */
  lemma {:induction false} IterateBelow(w: nat, hs: seq<Task>, k: nat, t: nat)
    requires Periodic(hs) && Demand(w, hs, t) <= t
    ensures Iterate(w, hs, k) <= t
  {
    if k > 0 {
      IterateBelow(w, hs, k - 1, t);
      InterferenceMonotone(hs, Iterate(w, hs, k - 1), t);
    }
  }

  // ---------------------------------------------------------------------
  // The analysis
  // ---------------------------------------------------------------------

  /**
    Outcome of the analysis.  The source returns None for both `Exceeds` (some
    iterate passed the deadline) and `CapReached` (100 iterations were not
    enough), and panics on a zero period or an overflowing intermediate.
   */
  datatype Outcome = Found(r: nat) | Exceeds | CapReached | Panic

  const CAP := 100

  /** The verdict read off the last two iterates the cap allows. */
  function Verdict(w: nat, hs: seq<Task>, deadline: nat): Outcome
    requires Periodic(hs)
  {
    if Iterate(w, hs, CAP) > deadline then Exceeds
    else if Iterate(w, hs, CAP) == Iterate(w, hs, CAP - 1) then Found(Iterate(w, hs, CAP - 1))
    else CapReached
  }

  /** No intermediate passes `max` when the demand of a window of length `t` is computed. */
  ghost predicate Representable(w: nat, hs: seq<Task>, t: nat, max: nat)
    requires Periodic(hs)
  {
    hs == [] || (Demand(w, hs, t) <= max && forall h :: h in hs ==> t + h.p <= max)
  }

  /** One pass over the tasks: the next iterate, unless a period is zero or an intermediate passes `max`. */
  method NextIterate(w: nat, hs: seq<Task>, r: nat, max: nat) returns (ok: bool, next: nat)
    ensures ok <==> Periodic(hs) && Representable(w, hs, r, max)
    ensures ok ==> next == Demand(w, hs, r)
  {
    next := w;
    var j := 0;
    ghost var left := hs;
    while j < |hs|
      invariant j <= |hs| && left == hs[j..] && (j > 0 ==> next <= max)
      invariant forall h :: h in hs[..j] ==> h.p >= 1 && r + h.p <= max
      invariant Periodic(hs) ==> next + Interference(left, r) == Demand(w, hs, r)
    {
      var h := hs[j];
      assert left[0] == h && left[1..] == hs[j + 1..] && h in hs;
      if h.p == 0 || r + h.p > max {
        return false, next;
      }
      var add := (r + h.p - 1) / h.p * h.w;
      if add > max || next + add > max {
        return false, next;
      }
      next := next + add;
      assert hs[..j + 1] == hs[..j] + [h];
      left := left[1..];
      j := j + 1;
    }
    assert hs[..j] == hs;
    return true, next;
  }

  /** The iteration goes on after step j: it has not settled and is in time. */
  ghost predicate GoesOn(w: nat, hs: seq<Task>, deadline: nat, j: nat)
    requires Periodic(hs)
  {
    Iterate(w, hs, j) != Iterate(w, hs, j + 1) <= deadline
  }

  /** The analysis gets to computing iterate i + 1. */
  ghost predicate Reached(w: nat, hs: seq<Task>, deadline: nat, i: nat)
    requires Periodic(hs)
  {
    forall j :: 0 <= j < i ==> GoesOn(w, hs, deadline, j)
  }

  /** Iterate i + 1 can be computed in `max`. */
  ghost predicate Computes(w: nat, hs: seq<Task>, max: nat, i: nat)
    requires Periodic(hs)
  {
    Representable(w, hs, Iterate(w, hs, i), max)
  }

  /** Some iterate that the analysis gets to cannot be computed in `max`. */
  ghost predicate Overflows(w: nat, hs: seq<Task>, deadline: nat, max: nat)
    requires Periodic(hs)
  {
    exists i :: 0 <= i < 100 && Reached(w, hs, deadline, i) && !Computes(w, hs, max, i)
  }

  /** An analysis that is over before step k does not get to it. */
  lemma NoOverflow(w: nat, hs: seq<Task>, deadline: nat, max: nat, i: nat)
    requires Periodic(hs) && (forall k :: 0 <= k < i ==> Computes(w, hs, max, k))
    requires i >= 100 || (Computes(w, hs, max, i) && !GoesOn(w, hs, deadline, i))
    ensures !Overflows(w, hs, deadline, max)
  {
  }

  /**
    The analysis.  `max` is the largest `usize`.  It panics exactly when a
    period is zero or an iterate it gets to does not fit; otherwise the answer
    is the verdict.
   */
  method RtaResponseTime(w: nat, hs: seq<Task>, deadline: nat, max: nat) returns (out: Outcome)
    ensures out.Panic? <==> !Periodic(hs) || Overflows(w, hs, deadline, max)
    ensures !out.Panic? ==> out == Verdict(w, hs, deadline)
  {
    var r: nat := w;
    var i: nat := 0;
    while i < CAP
      invariant i <= CAP && (i > 0 ==> Periodic(hs) && r <= deadline && Iterate(w, hs, i) != Iterate(w, hs, i - 1))
      invariant Periodic(hs) ==> r == Iterate(w, hs, i) && Reached(w, hs, deadline, i)
      invariant Periodic(hs) ==> forall k :: 0 <= k < i ==> Computes(w, hs, max, k)
    {
      var ok, next := NextIterate(w, hs, r, max);
      if !ok {
        assert Periodic(hs) ==> !Computes(w, hs, max, i);
        return Panic;
      }
      assert Computes(w, hs, max, i) && next == Iterate(w, hs, i + 1);
      if next > deadline {
        Ending(w, hs, deadline, max, i);
        return Exceeds;
      }
      if next == r {
        Ending(w, hs, deadline, max, i);
        return Found(r);
      }
      assert GoesOn(w, hs, deadline, i);
      r := next;
      i := i + 1;
    }
    NoOverflow(w, hs, deadline, max, i);
    return CapReached;
  }

  /** The verdict, read off the first step that does not go on. */
  lemma Ending(w: nat, hs: seq<Task>, deadline: nat, max: nat, i: nat)
    requires Periodic(hs) && i < CAP && !GoesOn(w, hs, deadline, i)
    requires forall k :: 0 <= k <= i ==> Computes(w, hs, max, k)
    ensures Verdict(w, hs, deadline) == if Iterate(w, hs, i + 1) > deadline then Exceeds else Found(Iterate(w, hs, i))
    ensures !Overflows(w, hs, deadline, max)
  {
    NoOverflow(w, hs, deadline, max, i);
    IterateMonotone(w, hs, i + 1, CAP);
    if Iterate(w, hs, i + 1) <= deadline {
      IterateStable(w, hs, i, CAP);
      IterateStable(w, hs, i, CAP - 1);
    }
  }

  // ---------------------------------------------------------------------
  // What the verdict means
  // ---------------------------------------------------------------------

  ghost predicate Solves(w: nat, hs: seq<Task>, r: nat)
    requires Periodic(hs)
  {
    Demand(w, hs, r) == r
  }

  /** r solves the recurrence, and no smaller window serves all the work. */
  ghost predicate LeastSolution(w: nat, hs: seq<Task>, r: nat)
    requires Periodic(hs)
  {
    Solves(w, hs, r) && forall t :: 0 <= t < r ==> Demand(w, hs, t) > t
  }

  ghost predicate Schedulable(w: nat, hs: seq<Task>, deadline: nat)
    requires Periodic(hs)
  {
    exists r :: 0 <= r <= deadline && Solves(w, hs, r)
  }

  /** Found is the least solution, within the deadline. */
  lemma FoundIsLeast(w: nat, hs: seq<Task>, deadline: nat)
    requires Periodic(hs) && Verdict(w, hs, deadline).Found?
    ensures var r := Verdict(w, hs, deadline).r; LeastSolution(w, hs, r) && r <= deadline
  {
    var r := Iterate(w, hs, CAP - 1);
    assert Iterate(w, hs, CAP) == Demand(w, hs, r);
    forall t | 0 <= t < r ensures Demand(w, hs, t) > t {
      if Demand(w, hs, t) <= t {
        IterateBelow(w, hs, CAP - 1, t);
      }
    }
  }

  /** Exceeds means no solution up to the deadline exists. */
  lemma ExceedsIsRight(w: nat, hs: seq<Task>, deadline: nat)
    requires Periodic(hs) && Verdict(w, hs, deadline).Exceeds?
    ensures !Schedulable(w, hs, deadline)
  {
    forall r | 0 <= r <= deadline ensures !Solves(w, hs, r) {
      if Solves(w, hs, r) {
        IterateBelow(w, hs, CAP, r);
      }
    }
  }

  /**
    "Some if schedulable, None if not" is what the documentation promises.  Some
    is always right; None is right exactly when the set is not schedulable, so
    the promise is kept exactly when a schedulable set settles within the cap.
   */
  lemma AnswerExact(w: nat, hs: seq<Task>, deadline: nat)
    requires Periodic(hs)
    ensures Verdict(w, hs, deadline).Found? <==>
            Schedulable(w, hs, deadline) && Iterate(w, hs, 100) == Iterate(w, hs, 99)
    ensures (Verdict(w, hs, deadline).Found? <==> Schedulable(w, hs, deadline)) <==>
            (Schedulable(w, hs, deadline) ==> Iterate(w, hs, 100) == Iterate(w, hs, 99))
    ensures !Verdict(w, hs, deadline).CapReached? ==>
            (Verdict(w, hs, deadline).Found? <==> Schedulable(w, hs, deadline))
  {
    var v := Verdict(w, hs, deadline);
    if v.Found? {
      FoundIsLeast(w, hs, deadline);
      assert Solves(w, hs, v.r);
    } else if v.Exceeds? {
      ExceedsIsRight(w, hs, deadline);
    }
  }

  /** The iteration moves up to step k and stands still from there. */
  ghost predicate SettlesAt(w: nat, hs: seq<Task>, k: nat)
    requires Periodic(hs)
  {
    && Iterate(w, hs, k + 1) == Iterate(w, hs, k)
    && forall j :: 0 <= j < k ==> Iterate(w, hs, j + 1) != Iterate(w, hs, j)
  }

  /** A set that settles at step k is answered, with its last iterate, if and only if k <= 99 and it is in time. */
  lemma SettledExact(w: nat, hs: seq<Task>, deadline: nat, k: nat)
    requires Periodic(hs) && SettlesAt(w, hs, k)
    ensures Verdict(w, hs, deadline).Found? <==> k <= 99 && Iterate(w, hs, k) <= deadline
    ensures Verdict(w, hs, deadline).Found? ==> Verdict(w, hs, deadline).r == Iterate(w, hs, k)
    ensures Schedulable(w, hs, deadline) <==> Iterate(w, hs, k) <= deadline
  {
    var last := Iterate(w, hs, k);
    assert Solves(w, hs, last);
    if k <= 99 {
      IterateStable(w, hs, k, 99);
      IterateStable(w, hs, k, 100);
    } else {
      assert Iterate(w, hs, 99 + 1) != Iterate(w, hs, 99);
    }
    forall r | 0 <= r <= deadline && Solves(w, hs, r) ensures last <= r {
      IterateBelow(w, hs, k, r);
    }
  }

  /** Every schedulable set settles at some step, no later than its solution less the work of the task. */
  lemma SchedulableSettles(w: nat, hs: seq<Task>, r: nat) returns (k: nat)
    requires Periodic(hs) && Solves(w, hs, r)
    ensures SettlesAt(w, hs, k) && w + k <= r
  {
    k := 0;
    IterateBelow(w, hs, 0, r);
    while Iterate(w, hs, k + 1) != Iterate(w, hs, k)
      invariant w + k <= Iterate(w, hs, k) <= r
      invariant forall j :: 0 <= j < k ==> Iterate(w, hs, j + 1) != Iterate(w, hs, j)
      decreases r - k
    {
      IterateGrows(w, hs, k);
      IterateBelow(w, hs, k + 1, r);
      k := k + 1;
    }
  }

  /** `m` does not exceed the execution time of any task that has one. */
  ghost predicate Granule(hs: seq<Task>, m: nat) {
    forall h :: h in hs && h.w > 0 ==> m <= h.w
  }

  lemma TimesStep(x: nat, y: nat, w: nat, m: nat)
    requires x < y && (w > 0 ==> m <= w)
    ensures w > 0 ==> x * w + m <= y * w
    ensures w == 0 ==> x * w == y * w
  {
    if w > 0 {
      assert (x + 1) * w <= y * w;
    }
  }

  /** Interference grows in steps of at least the granule. */
  lemma {:induction false} InterferenceJumps(hs: seq<Task>, s: nat, t: nat, m: nat)
    requires Periodic(hs) && Granule(hs, m) && s <= t
    ensures Interference(hs, s) == Interference(hs, t) || Interference(hs, s) + m <= Interference(hs, t)
  {
    if hs != [] {
      var h := hs[0];
      InterferenceJumps(hs[1..], s, t, m);
      InterferenceMonotone(hs[1..], s, t);
      DivMonotone(s + h.p - 1, t + h.p - 1, h.p);
      if Ceil(s, h.p) < Ceil(t, h.p) {
        TimesStep(Ceil(s, h.p), Ceil(t, h.p), h.w, m);
      }
    }
  }

  lemma InterferenceAtZero(hs: seq<Task>)
    requires Periodic(hs)
    ensures Interference(hs, 0) == 0
  {
    if hs != [] {
      assert (0 + hs[0].p - 1) / hs[0].p == 0;
      InterferenceAtZero(hs[1..]);
    }
  }

  /** A step that does not stand still climbs by at least the granule. */
  lemma IterateStep(w: nat, hs: seq<Task>, k: nat, m: nat)
    requires Periodic(hs) && Granule(hs, m) && k > 0 && Iterate(w, hs, k) != Iterate(w, hs, k - 1)
    ensures Iterate(w, hs, k) >= Iterate(w, hs, k - 1) + m
  {
    if k == 1 {
      InterferenceAtZero(hs);
      InterferenceJumps(hs, 0, w, m);
    } else {
      IterateGrows(w, hs, k - 2);
      InterferenceJumps(hs, Iterate(w, hs, k - 2), Iterate(w, hs, k - 1), m);
    }
  }

  /** An iteration that moves at step k moved at every step before. */
  lemma StillMoving(w: nat, hs: seq<Task>, k: nat)
    requires Periodic(hs) && k > 1 && Iterate(w, hs, k) != Iterate(w, hs, k - 1)
    ensures Iterate(w, hs, k - 1) != Iterate(w, hs, k - 2)
  {
  }

  /** While the iteration has not settled, k steps climb at least k granules. */
  lemma {:induction false} IterateClimbs(w: nat, hs: seq<Task>, k: nat, m: nat)
    requires Periodic(hs) && Granule(hs, m)
    requires k > 0 ==> Iterate(w, hs, k) != Iterate(w, hs, k - 1)
    ensures Iterate(w, hs, k) >= w + k * m
  {
    if k > 0 {
      if k > 1 {
        StillMoving(w, hs, k);
      }
      IterateClimbs(w, hs, k - 1, m);
      IterateStep(w, hs, k, m);
      assert k * m == (k - 1) * m + m;
    }
  }

  /** The cap is never reached when deadline < w + 100 * m. */
  lemma CapNotReached(w: nat, hs: seq<Task>, deadline: nat, m: nat)
    requires Periodic(hs) && Granule(hs, m) && deadline < w + 100 * m
    ensures !Verdict(w, hs, deadline).CapReached?
  {
    if Iterate(w, hs, 100) != Iterate(w, hs, 99) {
      IterateClimbs(w, hs, 100, m);
    }
  }

  // ---------------------------------------------------------------------
  // Where the cap bites: a staircase that takes p steps
  // ---------------------------------------------------------------------

  /** One tick of slack per period, and one tick more than a period to do. */
  function Stairs(p: nat): (hs: seq<Task>)
    requires p >= 1
    ensures Periodic(hs)
  {
    [Task(p - 1, p)]
  }

  lemma CeilIs(r: nat, p: nat, n: nat)
    requires p >= 1 && n >= 1 && p * (n - 1) < r <= p * n
    ensures Ceil(r, p) == n
  {
    var rem := r - 1 - p * (n - 1);
    assert p * n == p * (n - 1) + p;
    SplitAt(p, n, rem);
    assert r + p - 1 == p * n + rem;
  }

  lemma StairsDemand(p: nat, r: nat, n: nat)
    requires p >= 1 && n >= 1 && p * (n - 1) < r <= p * n
    ensures Demand(p + 1, Stairs(p), r) == p + 1 + n * (p - 1)
  {
    CeilIs(r, p, n);
    assert Stairs(p)[1..] == [] && Interference(Stairs(p)[1..], r) == 0;
    assert Interference(Stairs(p), r) == Ceil(r, p) * (p - 1);
  }

  /** Where step k of the staircase lies. */
  lemma StairsBounds(p: nat, k: nat)
    requires 1 <= k <= p + 1
    ensures p + 1 + k * (p - 1) == p * k + (p + 1 - k) && p * (k + 1) == p * k + p
  {
    assert k * (p - 1) == k * p - k;
  }

  lemma {:induction false} StairsIterates(p: nat, k: nat)
    requires p >= 1 && 1 <= k <= p + 1
    ensures Iterate(p + 1, Stairs(p), k) == if k <= p then p + 1 + (k + 1) * (p - 1) else p * (p + 1)
  {
    if k == 1 {
      StairsDemand(p, p + 1, 2);
      assert Iterate(p + 1, Stairs(p), 0) == p + 1;
    } else {
      StairsIterates(p, k - 1);
      StairsBounds(p, k);
      StairsDemand(p, p + 1 + k * (p - 1), if k <= p then k + 1 else p + 1);
    }
  }

  /** The staircase settles at step p exactly, at p (p + 1). */
  lemma StairsSettle(p: nat)
    requires p >= 2
    ensures SettlesAt(p + 1, Stairs(p), p) && Iterate(p + 1, Stairs(p), p) == p * (p + 1)
  {
    StairsIterates(p, p);
    StairsIterates(p, p + 1);
    assert p + 1 + (p + 1) * (p - 1) == p * (p + 1);
    var w, hs := p + 1, Stairs(p);
    forall j | 0 <= j < p ensures Iterate(w, hs, j + 1) != Iterate(w, hs, j) {
      StairsIterates(p, j + 1);
      if j > 0 {
        StairsIterates(p, j);
        assert (j + 2) * (p - 1) == (j + 1) * (p - 1) + (p - 1);
      }
    }
  }

  /** Schedulable for every p; answered up to p = 99, and given up on from p = 100 on. */
  lemma StairsExact(p: nat, deadline: nat)
    requires p >= 2 && deadline >= p * (p + 1)
    ensures Schedulable(p + 1, Stairs(p), deadline)
    ensures Verdict(p + 1, Stairs(p), deadline) == if p <= 99 then Found(p * (p + 1)) else CapReached
  {
    StairsSettle(p);
    SettledExact(p + 1, Stairs(p), deadline, p);
    if p >= 100 {
      IterateBelow(p + 1, Stairs(p), 100, p * (p + 1));
    }
  }

  /** A set the cap gets wrong: schedulable within the deadline, yet the analysis gives up. */
  lemma CapMissesSolution(w: nat, hs: seq<Task>, deadline: nat)
    requires w == 201 && hs == [Task(199, 200)] && deadline >= 40200
    ensures Periodic(hs) && Schedulable(w, hs, deadline)
    ensures Verdict(w, hs, deadline) == CapReached
  {
    StairsExact(200, deadline);
  }
}
