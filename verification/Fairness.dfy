/**
 Infinite schedules and a proof rule for termination under fair scheduling.

 A schedule names, for every point in time, the thread that moves next. It is fair to
 n threads when each of them is named again and again. The rule speaks only of numbers
 observed along one run, so every program of the project can use it.
 */
module Fairness {

  type Schedule = nat -> nat

  /** The move at time c keeps what holds. */
  ghost predicate KeptBy(holds: nat -> bool, c: nat) {
    holds(c) ==> holds(c + 1)
  }

  /** What each move from a on keeps, all moves up to b keep. */
  lemma {:induction false} Persists(holds: nat -> bool, a: nat, b: nat)
    requires a <= b && holds(a)
    requires forall c: nat | a <= c < b :: KeptBy(holds, c)
    ensures holds(b)
    decreases b - a
  {
    if a == b {
    } else {
      assert KeptBy(holds, a);
      Persists(holds, a + 1, b);
    }
  }

  ghost predicate NamedFrom(sched: Schedule, t: nat, from: nat) {
    exists j: nat :: from <= j && sched(j) == t
  }

  ghost predicate Fair(sched: Schedule, n: nat) {
    forall t: nat, from: nat | t < n :: NamedFrom(sched, t, from)
  }

  /** The first j moves of an infinite schedule. */
  function Prefix<T>(sched: nat -> T, j: nat): (p: seq<T>)
    ensures |p| == j
  {
    if j == 0 then [] else Prefix(sched, j - 1) + [sched(j - 1)]
  }

  /** Naming the threads in turn is fair, so fair schedules exist for every number of threads. */
  lemma RoundRobinIsFair(n: nat)
    requires n > 0
    ensures Fair((j: nat) => j % n, n)
  {
    var sched: Schedule := (j: nat) => j % n;
    forall t: nat, from: nat | t < n ensures NamedFrom(sched, t, from) {
      TurnComes(n, t, from);
      assert sched(from * n + t) == t && from <= from * n + t;
    }
  }

  lemma TurnComes(n: nat, t: nat, round: nat)
    requires t < n
    ensures (round * n + t) % n == t && round <= round * n + t
  {
    UniqueRemainder(round * n + t, n, round, t);
    MultipleIsFar(n, round);
  }

  lemma UniqueRemainder(x: nat, n: nat, q: nat, rem: nat)
    requires rem < n && x == q * n + rem
    ensures x % n == rem
  {
    var p := x / n - q;
    assert x == (x / n) * n + x % n;
    assert p * n == rem - x % n;
    MultipleIsFar(p, n);
  }

  lemma MultipleIsFar(p: int, n: nat)
    ensures p > 0 ==> p * n >= n
    ensures p < 0 ==> p * n + n <= 0
  {
  }

  /** What the rule observes of a run at each time. */
  datatype Observation = Observation(
    rank: nat -> nat,            // never rises
    over: nat -> bool,           // the run has reached its goal
    helpful: (nat, nat) -> bool, // helpful(j, t): at time j, moves of thread t lead to a fall of rank
    distance: (nat, nat) -> nat) // how many moves of t are still needed for that, less one

  /** At time j some thread is helpful, unless the run is over. */
  ghost predicate HasHelper(o: Observation, n: nat, j: nat) {
    o.over(j) || exists t: nat :: t < n && o.helpful(j, t)
  }

  /** The move at time j lowers the rank, or keeps t helpful and brings it closer if t moved. */
  ghost predicate KeepsHelper(o: Observation, sched: Schedule, t: nat, j: nat) {
    || o.rank(j + 1) < o.rank(j)
    || (&& o.rank(j + 1) == o.rank(j)
        && (o.helpful(j, t) ==> o.helpful(j + 1, t) && o.distance(j + 1, t) <= o.distance(j, t))
        && (o.helpful(j, t) && sched(j) == t ==> o.distance(j + 1, t) < o.distance(j, t)))
  }

  ghost predicate Progressive(o: Observation, sched: Schedule, n: nat) {
    && (forall j: nat :: HasHelper(o, n, j))
    && (forall j: nat, t: nat | t < n :: KeepsHelper(o, sched, t, j))
  }

  /** Walks from time j to the next move of the helpful thread t, at the latest at time next. */
  lemma {:induction false} WalkToMove(o: Observation, sched: Schedule, n: nat, t: nat, j: nat, next: nat)
    returns (k: nat)
    requires Progressive(o, sched, n) && t < n && o.helpful(j, t)
    requires j <= next && sched(next) == t
    ensures j < k
    ensures o.rank(k) < o.rank(j)
            || (o.rank(k) == o.rank(j) && o.helpful(k, t) && o.distance(k, t) < o.distance(j, t))
    decreases next - j
  {
    assert KeepsHelper(o, sched, t, j);
    k := j + 1;
    if o.rank(k) == o.rank(j) && o.distance(k, t) == o.distance(j, t) {
      k := WalkToMove(o, sched, n, t, k, next);
    }
  }

  /** A helpful thread, moved fairly, lowers the rank. */
  lemma {:induction false} RankFalls(o: Observation, sched: Schedule, n: nat, t: nat, j: nat) returns (k: nat)
    requires Fair(sched, n) && Progressive(o, sched, n) && t < n && o.helpful(j, t)
    ensures j < k && o.rank(k) < o.rank(j)
    decreases o.distance(j, t)
  {
    assert NamedFrom(sched, t, j);
    var next: nat :| j <= next && sched(next) == t;
    k := WalkToMove(o, sched, n, t, j, next);
    if o.rank(k) == o.rank(j) {
      k := RankFalls(o, sched, n, t, k);
    }
  }

  /** The rule: a progressive run reaches its goal under every fair schedule. */
  lemma {:induction false} FairRunEnds(o: Observation, sched: Schedule, n: nat, j: nat) returns (k: nat)
    requires Fair(sched, n) && Progressive(o, sched, n)
    ensures j <= k && o.over(k)
    decreases o.rank(j)
  {
    if o.over(j) {
      k := j;
    } else {
      assert HasHelper(o, n, j);
      var t: nat :| t < n && o.helpful(j, t);
      var next := RankFalls(o, sched, n, t, j);
      k := FairRunEnds(o, sched, n, next);
    }
  }

  /** What the second rule observes of one thread. */
  datatype Wait = Wait(
    waits: nat -> bool, // the thread waits at this time
    rank: nat -> nat,   // how far it is from its end
    helper: nat -> nat) // the thread whose next move brings it closer

  /**
   If the wait goes on, the move at time j lowers the rank, or leaves rank and helper as
   they are and was not the helper's.
   */
  ghost predicate Approaches(w: Wait, sched: Schedule, n: nat, j: nat) {
    w.waits(j) ==>
      && w.helper(j) < n
      && (w.waits(j + 1) ==>
            || w.rank(j + 1) < w.rank(j)
            || (w.rank(j + 1) == w.rank(j) && w.helper(j + 1) == w.helper(j) != sched(j)))
  }

  /**
   A rule for one thread that waits while others run on: if every move that leaves it
   waiting brings it closer to its end, then one of the moves under a fair schedule ends
   the wait.
   */
  lemma {:induction false} FairWaitEnds(w: Wait, sched: Schedule, n: nat, a: nat) returns (b: nat)
    requires Fair(sched, n) && w.waits(a)
    requires forall j: nat :: Approaches(w, sched, n, j)
    ensures a <= b && w.waits(b) && !w.waits(b + 1)
  {
    assert Approaches(w, sched, n, a);
    if !w.waits(a + 1) {
      b := a;
    } else {
      assert NamedFrom(sched, w.helper(a), a);
      var next: nat :| a <= next && sched(next) == w.helper(a);
      b := FairWaitEndsFrom(w, sched, n, a, next);
    }
  }

  lemma {:induction false} FairWaitEndsFrom(w: Wait, sched: Schedule, n: nat, a: nat, next: nat) returns (b: nat)
    requires Fair(sched, n) && w.waits(a)
    requires forall j: nat :: Approaches(w, sched, n, j)
    requires a <= next && sched(next) == w.helper(a)
    ensures a <= b && w.waits(b) && !w.waits(b + 1)
    decreases w.rank(a), next - a
  {
    if !w.waits(a + 1) {
      b := a;
    } else {
      assert Approaches(w, sched, n, a);
      var again := next;
      if w.rank(a + 1) < w.rank(a) {
        assert Approaches(w, sched, n, a + 1);
        assert NamedFrom(sched, w.helper(a + 1), a + 1);
        again :| a + 1 <= again && sched(again) == w.helper(a + 1);
      }
      b := FairWaitEndsFrom(w, sched, n, a + 1, again);
    }
  }
}
