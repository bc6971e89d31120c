/**
  Why the response-time analysis is right: a unit-tick, fixed-priority,
  preemptive schedule of the analysed job under the higher-priority tasks.

  Higher tasks may be released in any pattern that keeps each task's releases
  at least a period apart, and the job may arrive at any moment, whatever is
  still pending then.
 */
module Schedule {
  import opened ResponseTime

  /** Releases of task `j` are at least `p` apart. */
  ghost predicate Apart(rel: (nat, nat) -> bool, j: nat, p: nat) {
    forall t, u :: 0 <= t < u && rel(j, t) && rel(j, u) ==> u - t >= p
  }

  /** Task `j` is released at 0 and then exactly every `p`. */
  ghost predicate EveryPeriod(rel: (nat, nat) -> bool, j: nat, p: nat)
    requires p >= 1
  {
    forall u: nat :: rel(j, u) <==> u % p == 0
  }

  /** Higher tasks, when each is released, and the job: `w` ticks of work at time `s`. */
  datatype Scenario = Scenario(hs: seq<Task>, rel: (nat, nat) -> bool, w: nat, s: nat) {

    /** Releases of one task are at least its period apart. */
    ghost predicate Sporadic() {
      Periodic(hs) && forall j :: 0 <= j < |hs| ==> Apart(rel, j, hs[j].p)
    }

    /** All tasks are released at time 0 and then exactly every period. */
    ghost predicate Synchronous() {
      Periodic(hs) && s == 0 && forall j :: 0 <= j < |hs| ==> EveryPeriod(rel, j, hs[j].p)
    }
  }

  // ---------------------------------------------------------------------
  // The schedule
  // ---------------------------------------------------------------------

  /** Work still owed to each higher task (highest priority first) and to the job. */
  datatype Pending = Pending(higher: seq<nat>, job: nat)

  function Sum(xs: seq<nat>): nat {
    if xs == [] then 0 else xs[0] + Sum(xs[1..])
  }

  /** Higher work after the releases of tick `t`; `j` is the index of `hs[0]`. */
  function Release(hs: seq<Task>, rel: (nat, nat) -> bool, j: nat, t: nat, b: seq<nat>): seq<nat>
    requires |b| == |hs|
    ensures |Release(hs, rel, j, t, b)| == |b|
  {
    if hs == [] then []
    else [b[0] + if rel(j, t) then hs[0].w else 0] + Release(hs[1..], rel, j + 1, t, b[1..])
  }

  /** One tick of work for the highest-priority task that has any. */
  function Serve(b: seq<nat>): seq<nat>
    ensures |Serve(b)| == |b|
  {
    if b == [] then []
    else if b[0] > 0 then [b[0] - 1] + b[1..]
    else [0] + Serve(b[1..])
  }

  function Tick(sc: Scenario, t: nat, p: Pending): Pending
    requires |p.higher| == |sc.hs|
    ensures |Tick(sc, t, p).higher| == |sc.hs|
  {
    var b := Release(sc.hs, sc.rel, 0, t, p.higher);
    var job := if t == sc.s then sc.w else p.job;
    if Sum(b) > 0 then Pending(Serve(b), job)
    else Pending(b, if job > 0 then job - 1 else 0)
  }

  /** What is pending when tick `t` starts; the system starts idle. */
  function At(sc: Scenario, t: nat): Pending
    ensures |At(sc, t).higher| == |sc.hs|
  {
    if t == 0 then Pending(seq(|sc.hs|, _ => 0), 0) else Tick(sc, t - 1, At(sc, t - 1))
  }

  function H(sc: Scenario, t: nat): nat {
    Sum(At(sc, t).higher)
  }

  function J(sc: Scenario, t: nat): nat {
    At(sc, t).job
  }

  // ---------------------------------------------------------------------
  // Releases in a window
  // ---------------------------------------------------------------------

  /** Releases of task `j` in [a, b). */
  function Count(rel: (nat, nat) -> bool, j: nat, a: nat, b: nat): nat
    requires a <= b
    decreases b
  {
    if a == b then 0 else Count(rel, j, a, b - 1) + if rel(j, b - 1) then 1 else 0
  }

  /** Higher work released in [a, b). */
  function Arrivals(hs: seq<Task>, rel: (nat, nat) -> bool, j: nat, a: nat, b: nat): nat
    requires a <= b
  {
    if hs == [] then 0 else Count(rel, j, a, b) * hs[0].w + Arrivals(hs[1..], rel, j + 1, a, b)
  }

  lemma {:induction false} CountQuiet(rel: (nat, nat) -> bool, j: nat, a: nat, m: nat, b: nat)
    requires a <= m <= b && forall t :: m <= t < b ==> !rel(j, t)
    ensures Count(rel, j, a, b) == Count(rel, j, a, m)
    decreases b
  {
    if m < b {
      CountQuiet(rel, j, a, m, b - 1);
    }
  }

  lemma DivIs(x: nat, p: nat, q: nat, r: nat)
    requires x == q * p + r && r < p
    ensures x / p == q
  {
    var z := x / p;
    assert (z + 1) * p == z * p + p && (q + 1) * p == q * p + p;
    TimesCancel(z, q + 1, p);
    TimesCancel(q, z + 1, p);
  }

  lemma DivStep(x: nat, p: nat)
    requires p >= 1
    ensures (x + p) / p == x / p + 1
  {
    var q := x / p;
    assert (q + 1) * p == q * p + p;
    DivIs(x + p, p, q + 1, x % p);
  }

  lemma CeilStep(d: nat, p: nat)
    requires 1 <= p <= d
    ensures Ceil(d, p) == 1 + Ceil(d - p, p)
  {
    DivStep(d - 1, p);
    assert d - 1 == d - p + p - 1;
  }

  lemma CeilPositive(d: nat, p: nat)
    requires 1 <= p && 1 <= d
    ensures Ceil(d, p) >= 1
  {
    DivMonotone(p, d + p - 1, p);
    assert p / p == 1;
  }

  /** A task with releases `p` apart releases at most ceil(d / p) times in d ticks. */
  lemma {:induction false} CountBound(rel: (nat, nat) -> bool, j: nat, p: nat, a: nat, b: nat)
    requires p >= 1 && a <= b && Apart(rel, j, p)
    ensures Count(rel, j, a, b) <= Ceil(b - a, p)
    decreases b
  {
    if a < b {
      if !rel(j, b - 1) {
        CountBound(rel, j, p, a, b - 1);
        DivMonotone(b - 1 - a + p - 1, b - a + p - 1, p);
      } else if b - a <= p {
        CountQuiet(rel, j, a, a, b - 1);
        CeilPositive(b - a, p);
      } else {
        CountQuiet(rel, j, a, b - p, b - 1);
        CountBound(rel, j, p, a, b - p);
        CeilStep(b - a, p);
      }
    }
  }

  lemma {:induction false} ArrivalsBound(hs: seq<Task>, rel: (nat, nat) -> bool, j: nat, a: nat, b: nat)
    requires Periodic(hs) && a <= b
    requires forall i :: 0 <= i < |hs| ==> Apart(rel, j + i, hs[i].p)
    ensures Arrivals(hs, rel, j, a, b) <= Interference(hs, b - a)
    decreases |hs|
  {
    if hs != [] {
      assert Apart(rel, j + 0, hs[0].p);
      CountBound(rel, j, hs[0].p, a, b);
      TimesMonotone(Count(rel, j, a, b), Ceil(b - a, hs[0].p), hs[0].w);
      forall i | 0 <= i < |hs[1..]| ensures Apart(rel, j + 1 + i, hs[1..][i].p) {
        assert hs[1..][i] == hs[i + 1] && j + 1 + i == j + (i + 1);
      }
      ArrivalsBound(hs[1..], rel, j + 1, a, b);
    }
  }

  lemma {:induction false} ArrivalsSplit(hs: seq<Task>, rel: (nat, nat) -> bool, j: nat, a: nat, b: nat)
    requires a <= b
    ensures Arrivals(hs, rel, j, a, b + 1) == Arrivals(hs, rel, j, a, b) + Arrivals(hs, rel, j, b, b + 1)
    decreases |hs|
  {
    if hs != [] {
      ArrivalsSplit(hs[1..], rel, j + 1, a, b);
      var c, d := Count(rel, j, a, b), Count(rel, j, b, b + 1);
      assert Count(rel, j, b, b) == 0;
      assert Count(rel, j, a, b + 1) == c + d;
      assert (c + d) * hs[0].w == c * hs[0].w + d * hs[0].w;
    }
  }

  lemma {:induction false} ArrivalsEmpty(hs: seq<Task>, rel: (nat, nat) -> bool, j: nat, a: nat)
    ensures Arrivals(hs, rel, j, a, a) == 0
    decreases |hs|
  {
    if hs != [] {
      ArrivalsEmpty(hs[1..], rel, j + 1, a);
    }
  }

  // ---------------------------------------------------------------------
  // One tick, in totals
  // ---------------------------------------------------------------------

  lemma {:induction false} SumRelease(hs: seq<Task>, rel: (nat, nat) -> bool, j: nat, t: nat, b: seq<nat>)
    requires |b| == |hs|
    ensures Sum(Release(hs, rel, j, t, b)) == Sum(b) + Arrivals(hs, rel, j, t, t + 1)
    decreases |hs|
  {
    if hs != [] {
      SumRelease(hs[1..], rel, j + 1, t, b[1..]);
      var r := Release(hs, rel, j, t, b);
      assert r[1..] == Release(hs[1..], rel, j + 1, t, b[1..]);
      assert Count(rel, j, t, t) == 0;
      assert Count(rel, j, t, t + 1) == if rel(j, t) then 1 else 0;
    }
  }

  lemma {:induction false} SumServe(b: seq<nat>)
    requires Sum(b) > 0
    ensures Sum(Serve(b)) == Sum(b) - 1
  {
    if b[0] > 0 {
      assert Serve(b)[1..] == b[1..];
    } else {
      SumServe(b[1..]);
      assert Serve(b)[1..] == Serve(b[1..]);
    }
  }

  lemma {:induction false} SumZeros(n: nat)
    ensures Sum(seq(n, _ => 0)) == 0
  {
    if n > 0 {
      assert seq(n, _ => 0)[1..] == seq(n - 1, _ => 0);
      SumZeros(n - 1);
    }
  }

  function New(sc: Scenario, t: nat): nat {
    Arrivals(sc.hs, sc.rel, 0, t, t + 1)
  }

  /** One unit of work is done in every tick that has any, higher work first. */
  lemma TickTotals(sc: Scenario, t: nat)
    ensures var job := if t == sc.s then sc.w else J(sc, t);
            var higher := H(sc, t) + New(sc, t);
            if higher > 0 then H(sc, t + 1) == higher - 1 && J(sc, t + 1) == job
            else H(sc, t + 1) == 0 && J(sc, t + 1) == if job > 0 then job - 1 else 0
  {
    var p := At(sc, t);
    var b := Release(sc.hs, sc.rel, 0, t, p.higher);
    SumRelease(sc.hs, sc.rel, 0, t, p.higher);
    assert At(sc, t + 1) == Tick(sc, t, p);
    if Sum(b) > 0 {
      SumServe(b);
    }
  }

  lemma StartsIdle(sc: Scenario)
    ensures H(sc, 0) == 0 && J(sc, 0) == 0
  {
    SumZeros(|sc.hs|);
  }

  // ---------------------------------------------------------------------
  // Soundness: no release pattern delays the job past r
  // ---------------------------------------------------------------------

  /** From an idle moment `a`, higher work has been served in every tick up to `t`. */
  ghost predicate HigherBusy(sc: Scenario, a: nat, t: nat) {
    a <= t && H(sc, a) == 0 && forall u :: a < u <= t ==> H(sc, u) > 0
  }

  lemma {:induction false} HigherBusyTotal(sc: Scenario, a: nat, t: nat)
    requires HigherBusy(sc, a, t)
    ensures H(sc, t) + (t - a) == Arrivals(sc.hs, sc.rel, 0, a, t)
    decreases t
  {
    if t == a {
      ArrivalsEmpty(sc.hs, sc.rel, 0, a);
    } else {
      HigherBusyTotal(sc, a, t - 1);
      TickTotals(sc, t - 1);
      ArrivalsSplit(sc.hs, sc.rel, 0, a, t - 1);
    }
  }

  /** The last moment up to `t` at which no higher work was pending. */
  lemma {:induction false} LastIdle(sc: Scenario, t: nat) returns (a: nat)
    ensures HigherBusy(sc, a, t)
    decreases t
  {
    if H(sc, t) == 0 {
      a := t;
    } else {
      StartsIdle(sc);
      a := LastIdle(sc, t - 1);
    }
  }

  lemma {:induction false} JobShrinks(sc: Scenario, t: nat, u: nat)
    requires sc.s < t <= u
    ensures J(sc, u) <= J(sc, t)
    decreases u
  {
    if t < u {
      JobShrinks(sc, t, u - 1);
      TickTotals(sc, u - 1);
    }
  }

  /** While the job is unfinished, every tick since `a` did one unit of work. */
  lemma {:induction false} BusyTotal(sc: Scenario, a: nat, t: nat)
    requires HigherBusy(sc, a, sc.s) && sc.s < t && J(sc, t) > 0
    ensures H(sc, t) + J(sc, t) + (t - a) == Arrivals(sc.hs, sc.rel, 0, a, t) + sc.w
    decreases t
  {
    TickTotals(sc, t - 1);
    ArrivalsSplit(sc.hs, sc.rel, 0, a, t - 1);
    if t == sc.s + 1 {
      HigherBusyTotal(sc, a, sc.s);
    } else {
      BusyTotal(sc, a, t - 1);
    }
  }

  lemma WindowBound(sc: Scenario, a: nat, r: nat)
    requires sc.Sporadic() && Demand(sc.w, sc.hs, r) <= r
    ensures Arrivals(sc.hs, sc.rel, 0, a, a + r) + sc.w <= r
  {
    forall i | 0 <= i < |sc.hs| ensures Apart(sc.rel, 0 + i, sc.hs[i].p) {
    }
    ArrivalsBound(sc.hs, sc.rel, 0, a, a + r);
  }

  lemma {:induction false} NoJobNoWork(sc: Scenario, t: nat)
    requires sc.w == 0
    ensures J(sc, t) == 0
  {
    if t > 0 {
      NoJobNoWork(sc, t - 1);
      TickTotals(sc, t - 1);
    } else {
      StartsIdle(sc);
    }
  }

  /**
    Critical instant: whatever the releases and whatever is pending when the
    job arrives, a window r that holds its own demand is long enough.
   */
  lemma FinishesWithin(sc: Scenario, r: nat)
    requires sc.Sporadic() && Demand(sc.w, sc.hs, r) <= r
    ensures J(sc, sc.s + r) == 0
  {
    if sc.w == 0 {
      NoJobNoWork(sc, sc.s + r);
    } else {
      var a := LastIdle(sc, sc.s);
      WindowBound(sc, a, r);
      if sc.s >= a + r {
        // Higher work alone would have filled r ticks, but there is not that much.
        assert HigherBusy(sc, a, a + r);
        HigherBusyTotal(sc, a, a + r);
        assert false;
      }
      if J(sc, a + r) > 0 {
        BusyTotal(sc, a, a + r);
        assert false;
      }
      JobShrinks(sc, a + r, sc.s + r);
    }
  }

  /**
    If the analysis answers r, then r is within the deadline and a job that
    arrives at any time, under any sporadic higher-priority load, is finished r
    ticks later.
   */
  lemma AnalysisSound(sc: Scenario, deadline: nat, t: nat)
    requires sc.Sporadic() && Verdict(sc.w, sc.hs, deadline).Found?
    ensures var r := Verdict(sc.w, sc.hs, deadline).r;
            r <= deadline && (t >= sc.s + r ==> J(sc, t) == 0)
  {
    var r := Verdict(sc.w, sc.hs, deadline).r;
    FoundIsLeast(sc.w, sc.hs, deadline);
    FinishesWithin(sc, r);
    if sc.w == 0 {
      NoJobNoWork(sc, t);
    } else if t >= sc.s + r {
      JobShrinks(sc, sc.s + r, t);
    }
  }

  // ---------------------------------------------------------------------
  // Tightness: released together, the job takes exactly r
  // ---------------------------------------------------------------------

  lemma CeilNext(t: nat, p: nat)
    requires p >= 1
    ensures Ceil(t + 1, p) == Ceil(t, p) + if t % p == 0 then 1 else 0
  {
    var q, m := t / p, t % p;
    assert t == q * p + m;
    assert (q + 1) * p == q * p + p;
    DivIs(t + p, p, q + 1, m);
    if m == 0 {
      DivIs(t + p - 1, p, q, p - 1);
    } else {
      DivIs(t + p - 1, p, q + 1, m - 1);
    }
    assert t + 1 + p - 1 == t + p;
  }

  lemma {:induction false} CountMultiples(rel: (nat, nat) -> bool, j: nat, p: nat, t: nat)
    requires p >= 1 && EveryPeriod(rel, j, p)
    ensures Count(rel, j, 0, t) == Ceil(t, p)
  {
    if t == 0 {
      assert (0 + p - 1) / p == 0;
    } else {
      CountMultiples(rel, j, p, t - 1);
      CeilNext(t - 1, p);
    }
  }

  lemma {:induction false} SynchronousArrivals(hs: seq<Task>, rel: (nat, nat) -> bool, j: nat, t: nat)
    requires Periodic(hs)
    requires forall i :: 0 <= i < |hs| ==> EveryPeriod(rel, j + i, hs[i].p)
    ensures Arrivals(hs, rel, j, 0, t) == Interference(hs, t)
    decreases |hs|
  {
    if hs != [] {
      assert EveryPeriod(rel, j + 0, hs[0].p);
      CountMultiples(rel, j, hs[0].p, t);
      forall i | 0 <= i < |hs[1..]| ensures EveryPeriod(rel, j + 1 + i, hs[1..][i].p) {
        assert hs[1..][i] == hs[i + 1] && j + 1 + i == j + (i + 1);
      }
      SynchronousArrivals(hs[1..], rel, j + 1, t);
    }
  }

  lemma SynchronousDemand(sc: Scenario, t: nat)
    requires sc.Synchronous()
    ensures Arrivals(sc.hs, sc.rel, 0, 0, t) + sc.w == Demand(sc.w, sc.hs, t)
  {
    forall i | 0 <= i < |sc.hs| ensures EveryPeriod(sc.rel, 0 + i, sc.hs[i].p) {
    }
    SynchronousArrivals(sc.hs, sc.rel, 0, t);
  }

  /** If the job is first done at `t`, the work released before `t` is exactly `t`. */
  lemma DoneMeansServed(sc: Scenario, t: nat)
    requires sc.s == 0 && sc.w > 0 && 0 < t && J(sc, t) == 0 && (t > 1 ==> J(sc, t - 1) > 0)
    ensures Arrivals(sc.hs, sc.rel, 0, 0, t) + sc.w == t
  {
    StartsIdle(sc);
    TickTotals(sc, t - 1);
    ArrivalsSplit(sc.hs, sc.rel, 0, 0, t - 1);
    if t == 1 {
      ArrivalsEmpty(sc.hs, sc.rel, 0, 0);
    } else {
      BusyTotal(sc, 0, t - 1);
    }
  }

  /** The job cannot be done before the least window that holds its demand. */
  lemma {:induction false} NotBefore(sc: Scenario, r: nat, t: nat)
    requires sc.Synchronous() && LeastSolution(sc.w, sc.hs, r) && sc.w > 0 && 0 < t < r
    ensures J(sc, t) > 0
  {
    assert Demand(sc.w, sc.hs, t) > t;
    if t > 1 {
      NotBefore(sc, r, t - 1);
    }
    if J(sc, t) == 0 {
      DoneMeansServed(sc, t);
      SynchronousDemand(sc, t);
    }
  }

  lemma MultiplesApart(rel: (nat, nat) -> bool, j: nat, p: nat)
    requires p >= 1 && EveryPeriod(rel, j, p)
    ensures Apart(rel, j, p)
  {
    forall t, u | 0 <= t < u && rel(j, t) && rel(j, u) ensures u - t >= p {
      MultiplesFar(t / p, u / p, p, t, u);
    }
  }

  lemma MultiplesFar(x: nat, y: nat, p: nat, t: nat, u: nat)
    requires t == x * p && u == y * p && t < u
    ensures u - t >= p
  {
    TimesCancel(x, y, p);
    TimesMonotone(x + 1, y, p);
    OneMore(x, p);
  }

  /**
    Released together with every higher task, the job takes exactly as long as
    the analysis says: unfinished at every earlier tick, finished at r.
   */
  lemma AnalysisTight(sc: Scenario, deadline: nat, t: nat)
    requires sc.Synchronous() && sc.w > 0 && Verdict(sc.w, sc.hs, deadline).Found?
    ensures var r := Verdict(sc.w, sc.hs, deadline).r;
            J(sc, r) == 0 && (0 < t < r ==> J(sc, t) > 0)
  {
    var r := Verdict(sc.w, sc.hs, deadline).r;
    FoundIsLeast(sc.w, sc.hs, deadline);
    forall j | 0 <= j < |sc.hs| ensures Apart(sc.rel, j, sc.hs[j].p) {
      MultiplesApart(sc.rel, j, sc.hs[j].p);
    }
    FinishesWithin(sc, r);
    if 0 < t < r {
      NotBefore(sc, r, t);
    }
  }

  // ---------------------------------------------------------------------
  // Every job of a recurring task
  // ---------------------------------------------------------------------

  /** Higher tasks and the analysed task itself, whose releases have index |hs|; each job of it takes `w` ticks. */
  datatype Workload = Workload(hs: seq<Task>, rel: (nat, nat) -> bool, w: nat) {

    /** Every task, the analysed one with period `p` included, keeps its releases a period apart. */
    ghost predicate Sporadic(p: nat) {
      Job(0).Sporadic() && Apart(rel, |hs|, p)
    }

    predicate Releases(t: nat) {
      rel(|hs|, t)
    }

    /** The job released at `s`, on its own. */
    function Job(s: nat): Scenario {
      Scenario(hs, rel, w, s)
    }
  }

  /** Own work at tick `t` once its release, if any, is added. */
  function Released(wl: Workload, t: nat, own: nat): nat {
    own + if wl.Releases(t) then wl.w else 0
  }

  /** One tick: pending higher work goes first, then the task's own jobs in order of release. */
  function TickAll(wl: Workload, t: nat, p: Pending): Pending
    requires |p.higher| == |wl.hs|
    ensures |TickAll(wl, t, p).higher| == |wl.hs|
  {
    var b := Release(wl.hs, wl.rel, 0, t, p.higher);
    var own := Released(wl, t, p.job);
    if Sum(b) > 0 then Pending(Serve(b), own)
    else Pending(b, if own > 0 then own - 1 else 0)
  }

  function AllAt(wl: Workload, t: nat): Pending
    ensures |AllAt(wl, t).higher| == |wl.hs|
  {
    if t == 0 then Pending(seq(|wl.hs|, _ => 0), 0) else TickAll(wl, t - 1, AllAt(wl, t - 1))
  }

  /** Own work not yet done when tick `t` starts. */
  function Backlog(wl: Workload, t: nat): nat {
    AllAt(wl, t).job
  }

  /** Ticks the task has been given before `t`. */
  function Served(wl: Workload, t: nat): nat {
    if t == 0 then 0
    else
      var p := AllAt(wl, t - 1);
      var busy := Sum(Release(wl.hs, wl.rel, 0, t - 1, p.higher)) > 0;
      Served(wl, t - 1) + if !busy && Released(wl, t - 1, p.job) > 0 then 1 else 0
  }

  /** Jobs released before `t`. */
  function Jobs(wl: Workload, t: nat): nat {
    Count(wl.rel, |wl.hs|, 0, t)
  }

  /** The job released at `s` is finished at `t`: it and all jobs before it have had their ticks. */
  predicate Finished(wl: Workload, s: nat, t: nat) {
    Served(wl, t) >= Jobs(wl, s + 1) * wl.w
  }

  lemma TickBooks(wl: Workload, t: nat)
    ensures Served(wl, t + 1) + Backlog(wl, t + 1) == Served(wl, t) + Released(wl, t, Backlog(wl, t))
    ensures Jobs(wl, t + 1) == Jobs(wl, t) + if wl.Releases(t) then 1 else 0
  {
    assert AllAt(wl, t + 1) == TickAll(wl, t, AllAt(wl, t));
  }

  /** Every tick of own work is either done or pending. */
  lemma {:induction false} WorkConserved(wl: Workload, t: nat)
    ensures Served(wl, t) + Backlog(wl, t) == Jobs(wl, t) * wl.w
    decreases t
  {
    if t == 0 {
      StartBooks(wl);
    } else {
      WorkConserved(wl, t - 1);
      TickBooks(wl, t - 1);
      OneMore(Jobs(wl, t - 1), wl.w);
    }
  }

  lemma StartBooks(wl: Workload)
    ensures Served(wl, 0) == 0 && Backlog(wl, 0) == 0 && Jobs(wl, 0) == 0
  {
  }

  lemma OneMore(n: nat, w: nat)
    ensures (n + 1) * w == n * w + w
  {
  }

  /** Higher tasks do not notice the analysed one. */
  lemma {:induction false} SameHigher(wl: Workload, s: nat, t: nat)
    ensures AllAt(wl, t).higher == At(wl.Job(s), t).higher
    decreases t
  {
    if t > 0 {
      SameHigher(wl, s, t - 1);
      assert At(wl.Job(s), t) == Tick(wl.Job(s), t - 1, At(wl.Job(s), t - 1));
      assert AllAt(wl, t) == TickAll(wl, t - 1, AllAt(wl, t - 1));
    }
  }

  /** From a release at which nothing was left over, up to the next, the task is that one job. */
  lemma {:induction false} OneJobAtATime(wl: Workload, s: nat, t: nat)
    requires wl.Releases(s) && Backlog(wl, s) == 0 && s < t && forall u :: s < u < t ==> !wl.Releases(u)
    ensures Backlog(wl, t) == J(wl.Job(s), t)
    decreases t
  {
    if s < t - 1 {
      OneJobAtATime(wl, s, t - 1);
      assert !wl.Releases(t - 1);
    }
    SameTick(wl, s, t - 1);
  }

  lemma SameTick(wl: Workload, s: nat, t: nat)
    requires Released(wl, t, Backlog(wl, t)) == if t == s then wl.w else J(wl.Job(s), t)
    ensures Backlog(wl, t + 1) == J(wl.Job(s), t + 1)
  {
    SameHigher(wl, s, t);
    assert AllAt(wl, t + 1) == TickAll(wl, t, AllAt(wl, t));
    assert At(wl.Job(s), t + 1) == Tick(wl.Job(s), t, At(wl.Job(s), t));
  }

  lemma {:induction false} QuietStart(wl: Workload, t: nat)
    requires forall u :: 0 <= u < t ==> !wl.Releases(u)
    ensures Backlog(wl, t) == 0
    decreases t
  {
    if t > 0 {
      QuietStart(wl, t - 1);
      assert AllAt(wl, t) == TickAll(wl, t - 1, AllAt(wl, t - 1));
      assert !wl.Releases(t - 1);
    }
  }

  /** The last release before `t`, if any. */
  lemma {:induction false} LastRelease(wl: Workload, t: nat) returns (found: bool, s: nat)
    ensures found ==> s < t && wl.Releases(s) && forall u :: s < u < t ==> !wl.Releases(u)
    ensures !found ==> forall u :: 0 <= u < t ==> !wl.Releases(u)
  {
    if t == 0 {
      found, s := false, 0;
    } else if wl.Releases(t - 1) {
      found, s := true, t - 1;
    } else {
      found, s := LastRelease(wl, t - 1);
    }
  }

  /** When a job is released, every job before it has finished. */
  lemma {:induction false} NothingLeftOver(wl: Workload, p: nat, deadline: nat, s: nat)
    requires wl.Sporadic(p) && deadline <= p && Verdict(wl.w, wl.hs, deadline).Found? && wl.Releases(s)
    ensures Backlog(wl, s) == 0
    decreases s
  {
    var found, s0 := LastRelease(wl, s);
    if found {
      NothingLeftOver(wl, p, deadline, s0);
      OneJobAtATime(wl, s0, s);
      assert s - s0 >= p;
      AnalysisSound(wl.Job(s0), deadline, s);
    } else {
      QuietStart(wl, s);
    }
  }

  lemma {:induction false} JobAtMost(sc: Scenario, t: nat)
    requires sc.s < t
    ensures J(sc, t) <= sc.w
  {
    TickTotals(sc, sc.s);
    JobShrinks(sc, sc.s + 1, t);
  }

  lemma {:induction false} JobsGrow(wl: Workload, a: nat, b: nat)
    requires a <= b
    ensures Jobs(wl, a) <= Jobs(wl, b)
    decreases b
  {
    if a < b {
      JobsGrow(wl, a, b - 1);
    }
  }

  /**
    If the analysis answers r for a task whose deadline does not exceed its
    period, then every job of it, under any sporadic releases of its own and of
    the higher tasks, is finished r ticks after its release.
   */
  lemma EveryJobMeetsDeadline(wl: Workload, p: nat, deadline: nat, s: nat, t: nat)
    requires wl.Sporadic(p) && deadline <= p && Verdict(wl.w, wl.hs, deadline).Found? && wl.Releases(s)
    ensures var r := Verdict(wl.w, wl.hs, deadline).r;
            r <= deadline && (t > s && t >= s + r ==> Finished(wl, s, t))
  {
    var r := Verdict(wl.w, wl.hs, deadline).r;
    AnalysisSound(wl.Job(s), deadline, t);
    if t > s && t >= s + r {
      var found, s1 := LastRelease(wl, t);
      assert found && s <= s1;
      NothingLeftOver(wl, p, deadline, s1);
      OneJobAtATime(wl, s1, t);
      if s1 == s {
        DoneIfNothingPending(wl, s, t);
      } else {
        JobAtMost(wl.Job(s1), t);
        DoneIfOnlyLaterPending(wl, s, s1, t);
      }
    }
  }

  lemma DoneIfNothingPending(wl: Workload, s: nat, t: nat)
    requires s < t && Backlog(wl, t) == 0
    ensures Finished(wl, s, t)
  {
    WorkConserved(wl, t);
    JobsGrow(wl, s + 1, t);
    TimesMonotone(Jobs(wl, s + 1), Jobs(wl, t), wl.w);
  }

  lemma DoneIfOnlyLaterPending(wl: Workload, s: nat, s1: nat, t: nat)
    requires s < s1 < t && wl.Releases(s1) && Backlog(wl, t) <= wl.w
    ensures Finished(wl, s, t)
  {
    WorkConserved(wl, t);
    JobsGrow(wl, s + 1, s1);
    TickBooks(wl, s1);
    JobsGrow(wl, s1 + 1, t);
    TimesMonotone(Jobs(wl, s + 1) + 1, Jobs(wl, t), wl.w);
    OneMore(Jobs(wl, s + 1), wl.w);
  }
}
