/**
 Progress of the bakery program: some thread can always get on, and under every fair
 schedule all threads finish all their sections, with the counter complete.
 */
module BakeryProgress {
  import opened Bakery
  import opened BakeryInvariant
  import opened BakeryProperties
  import opened Sums
  import opened Fairness
  import Refinement

  /** Thread t stands in a wait loop whose condition holds. */
  predicate Blocked(s: State, t: nat)
    requires WellFormed(s) && t < |s.threads|
  {
    var pc := s.threads[t].pc;
    || (pc.AwaitChoosing? && s.choosing[pc.i] != 0)
    || (pc.Testing() && s.number[pc.i] != 0 && Before(s.number[pc.i], pc.i, s.number[t], t))
  }

  predicate CanGetOn(s: State, t: nat)
    requires WellFormed(s)
  {
    t < |s.threads| && !s.threads[t].pc.Finished? && !Blocked(s, t)
  }

  /** Of the threads below m that wait, one that no other waiting thread goes before. */
  lemma {:induction false} FirstInLine(s: State, m: nat) returns (t: nat)
    requires WellFormed(s) && m <= |s.threads|
    requires exists u: nat :: u < m && s.threads[u].pc.Waiting()
    ensures t < m && s.threads[t].pc.Waiting()
    ensures forall u: nat | u < m && u != t && s.threads[u].pc.Waiting() :: !Before(s.number[u], u, s.number[t], t)
  {
    if exists u: nat :: u < m - 1 && s.threads[u].pc.Waiting() {
      t := FirstInLine(s, m - 1);
      if s.threads[m - 1].pc.Waiting() && Before(s.number[m - 1], m - 1, s.number[t], t) {
        t := m - 1;
      }
    } else {
      t := m - 1;
    }
  }

  /** No deadlock: while a thread is unfinished, some thread is not in a futile wait. */
  lemma SomeoneGetsOn(c: Config) returns (t: nat)
    requires Inv(c) && !AllFinished(c.s)
    ensures CanGetOn(c.s, t)
  {
    var s := c.s;
    var v: nat :| v < |s.threads| && !s.threads[v].pc.Finished?;
    if u: nat :| u < |s.threads| && !s.threads[u].pc.Finished? && !s.threads[u].pc.Waiting() {
      t := u;
    } else {
      assert s.threads[v].pc.Waiting();
      t := FirstInLine(s, |s.threads|);
      FirstGetsOn(s, t);
    }
  }

  lemma FirstGetsOn(s: State, t: nat)
    requires WellFormed(s) && CellsAgree(s) && t < |s.threads| && s.threads[t].pc.Waiting()
    requires forall u: nat | u < |s.threads| :: s.threads[u].pc.Waiting() || s.threads[u].pc.Finished?
    requires forall u: nat | u < |s.threads| && u != t && s.threads[u].pc.Waiting() ::
               !Before(s.number[u], u, s.number[t], t)
    ensures CanGetOn(s, t)
  {
  }

  lemma {:induction false} NoDeadlock(n: nat, sections: nat, schedule: seq<nat>) returns (t: nat)
    requires !AllFinished(Run(n, sections, schedule))
    ensures CanGetOn(Run(n, sections, schedule), t)
  {
    InvRun(n, sections, schedule);
    t := SomeoneGetsOn(Trace(n, sections, schedule));
  }

  function Minus(a: nat, b: nat): nat {
    if b <= a then a - b else 0
  }

  /** Upper bound of the moves in one section. */
  function PerSection(n: nat): nat {
    11 + 4 * n
  }

  /** What is left of the current section; the three tests of one wait count the same. */
  function LeftInSection(pc: PC, n: nat): nat {
    match pc
    case ScanFirst => 10 + 4 * n
    case ScanCompare(m) => 9 + 2 * n + 2 * Minus(n, m)
    case ScanTake(m) => 8 + 2 * n + 2 * Minus(n, m)
    case WriteTicket => 7 + 2 * n
    case ClearChoosing => 6 + 2 * n
    case AwaitChoosing(i) => 5 + 2 * Minus(n, i)
    case TestZero(i) => 4 + 2 * Minus(n, i)
    case TestLess(i) => 4 + 2 * Minus(n, i)
    case TestTie(i) => 4 + 2 * Minus(n, i)
    case Load => 4
    case Increment => 3
    case Store => 2
    case Release => 1
    case _ => 0
  }

  function ThreadRank(me: Thread, n: nat, sections: nat): nat {
    if me.pc.Finished? then 0
    else if me.pc.SectionStart? then 1 + Minus(sections, me.done) * PerSection(n)
    else 1 + Minus(sections, me.done + 1) * PerSection(n) + LeftInSection(me.pc, n)
  }

  function Ranks(s: State): (r: seq<int>) {
    seq(|s.threads|, t requires 0 <= t < |s.threads| => ThreadRank(s.threads[t], |s.threads|, s.sections))
  }

  function Rank(s: State): nat {
    SumNonNegative(Ranks(s));
    Sum(Ranks(s))
  }

  /** A move that keeps the rank: a read of a flag that is set, a test that does not end the wait, or nothing. */
  predicate SpinsOnly(s: State, t: nat)
    requires WellFormed(s) && t < |s.threads|
  {
    var e := Move(s, t);
    && e == Effect(s.threads[t].(pc := e.me.pc), s.choosing[t], s.number[t], s.num)
    && (|| (e.me.pc == s.threads[t].pc && (e.me.pc.AwaitChoosing? || e.me.pc.Finished?))
        || (s.threads[t].pc.Testing() && e.me.pc.Testing() && e.me.pc.i == s.threads[t].pc.i))
  }

  /** The rank of the moving thread falls, unless the move only spins. */
  lemma MoveRank(s: State, t: nat)
    requires WellFormed(s) && t < |s.threads| && TicketsBoundedFor(s.threads[t], s.sections)
    ensures var before := ThreadRank(s.threads[t], |s.threads|, s.sections);
            var after := ThreadRank(Move(s, t).me, |s.threads|, s.sections);
            if SpinsOnly(s, t) then after == before else after < before
  {
    if s.threads[t].pc.SectionStart? {
      SectionRank(s, t);
    }
  }

  lemma SectionRank(s: State, t: nat)
    requires WellFormed(s) && t < |s.threads| && s.threads[t].pc.SectionStart?
    ensures ThreadRank(Move(s, t).me, |s.threads|, s.sections) < ThreadRank(s.threads[t], |s.threads|, s.sections)
  {
  }

  lemma StepRank(s: State, t: nat)
    requires WellFormed(s) && t < |s.threads| && TicketsBoundedFor(s.threads[t], s.sections)
    ensures if SpinsOnly(s, t) then Rank(Step(s, t)) == Rank(s) else Rank(Step(s, t)) < Rank(s)
  {
    MoveRank(s, t);
    var after := ThreadRank(Move(s, t).me, |s.threads|, s.sections);
    assert Ranks(Step(s, t)) == Ranks(s)[t := after];
    SumUpdate(Ranks(s), t, after);
  }

  /** A round of a wait loop ends: the condition was found true, and the thread is back at the loop head. */
  predicate FailsWait(s: State, t: nat)
    requires WellFormed(s) && t < |s.threads|
  {
    var pc := s.threads[t].pc;
    || (pc.AwaitChoosing? && s.choosing[pc.i] != 0)
    || ((pc.TestLess? || pc.TestTie?) && Move(s, t).me.pc.TestZero?)
  }

  /** Tests of one evaluation of the waiting condition that may still follow. */
  function TestsLeft(pc: PC): nat {
    match pc
    case TestZero(_) => 2
    case TestLess(_) => 1
    case _ => 0
  }

  /** Rank, and within one rank the place in the waiting condition. */
  function FineThreadRank(me: Thread, n: nat, sections: nat): nat {
    3 * ThreadRank(me, n, sections) + TestsLeft(me.pc)
  }

  function FineRanks(s: State): (r: seq<int>) {
    seq(|s.threads|, t requires 0 <= t < |s.threads| => FineThreadRank(s.threads[t], |s.threads|, s.sections))
  }

  function FineRank(s: State): nat {
    SumNonNegative(FineRanks(s));
    Sum(FineRanks(s))
  }

  lemma MoveFineRank(s: State, t: nat)
    requires WellFormed(s) && t < |s.threads| && TicketsBoundedFor(s.threads[t], s.sections)
    ensures var before := FineThreadRank(s.threads[t], |s.threads|, s.sections);
            var after := FineThreadRank(Move(s, t).me, |s.threads|, s.sections);
            if s.threads[t].pc.Finished? then after == before
            else if FailsWait(s, t) then before <= after <= before + 2
            else after < before
  {
    MoveRank(s, t);
  }

  /** The fine rank falls on every move of an unfinished thread, except at the end of a futile round of a wait loop. */
  lemma StepFineRank(s: State, t: nat)
    requires WellFormed(s) && t < |s.threads| && TicketsBoundedFor(s.threads[t], s.sections)
    ensures if s.threads[t].pc.Finished? then FineRank(Step(s, t)) == FineRank(s)
            else if FailsWait(s, t) then FineRank(s) <= FineRank(Step(s, t)) <= FineRank(s) + 2
            else FineRank(Step(s, t)) < FineRank(s)
  {
    MoveFineRank(s, t);
    var after := FineThreadRank(Move(s, t).me, |s.threads|, s.sections);
    assert FineRanks(Step(s, t)) == FineRanks(s)[t := after];
    SumUpdate(FineRanks(s), t, after);
  }

  /** Moves of unfinished threads in a run: those that end a futile round of a wait loop, and all others. */
  datatype Moves = Moves(futile: nat, useful: nat)

  function CountMoves(n: nat, sections: nat, schedule: seq<nat>): Moves {
    if schedule == [] then Moves(0, 0)
    else
      var prefix, t := schedule[..|schedule| - 1], schedule[|schedule| - 1];
      var s, moves := Run(n, sections, prefix), CountMoves(n, sections, prefix);
      if t >= n || s.threads[t].pc.Finished? then moves
      else if FailsWait(s, t) then moves.(futile := moves.futile + 1)
      else moves.(useful := moves.useful + 1)
  }

  /**
   In every run, the moves other than ends of futile rounds are bounded by the size of the
   program and twice the number of these rounds.
   */
  lemma {:induction false} UsefulMovesBound(n: nat, sections: nat, schedule: seq<nat>)
    ensures var moves := CountMoves(n, sections, schedule);
            moves.useful + FineRank(Run(n, sections, schedule))
              <= 3 * n * (1 + sections * PerSection(n)) + 2 * moves.futile
  {
    if schedule == [] {
      FineRankAtStart(n, sections);
    } else {
      var prefix, t := schedule[..|schedule| - 1], schedule[|schedule| - 1];
      UsefulMovesBound(n, sections, prefix);
      TicketsBoundedRun(n, sections, prefix);
      if t < n {
        StepFineRank(Run(n, sections, prefix), t);
      }
    }
  }

  lemma {:induction false} FineRankAtStart(n: nat, sections: nat)
    ensures FineRank(Initial(n, sections)) == 3 * n * (1 + sections * PerSection(n))
  {
    var each := 3 * (1 + sections * PerSection(n));
    SumConstant(FineRanks(Initial(n, sections)), each);
    assert n * each == 3 * n * (1 + sections * PerSection(n));
  }

  /** Moves that t still needs to leave its wait, less one. */
  function Distance(s: State, t: nat): nat
    requires WellFormed(s)
  {
    if t >= |s.threads| then 0
    else if s.threads[t].pc.TestZero? && s.number[s.threads[t].pc.i] != 0 then 2
    else if s.threads[t].pc.TestLess? then 1
    else 0
  }

  /** Spinning of any thread u leaves t able to get on, and a round of t brings it closer. */
  lemma SpinKeepsHelper(c: Config, u: nat, t: nat)
    requires Inv(c) && u < |c.s.threads| && SpinsOnly(c.s, u) && CanGetOn(c.s, t)
    ensures CanGetOn(Step(c.s, u), t) && Distance(Step(c.s, u), t) <= Distance(c.s, t)
    ensures u == t ==> Distance(Step(c.s, u), t) < Distance(c.s, t)
  {
  }

  ghost function Observe(n: nat, sections: nat, sched: Schedule): Observation {
    Observation(
      (j: nat) => Rank(Run(n, sections, Prefix(sched, j))),
      (j: nat) => AllFinished(Run(n, sections, Prefix(sched, j))),
      (j: nat, t: nat) => CanGetOn(Run(n, sections, Prefix(sched, j)), t),
      (j: nat, t: nat) => Distance(Run(n, sections, Prefix(sched, j)), t))
  }

  lemma {:induction false} NextPrefix(n: nat, sections: nat, sched: Schedule, j: nat)
    ensures Run(n, sections, Prefix(sched, j + 1)) == Step(Run(n, sections, Prefix(sched, j)), sched(j))
  {
  }

  lemma {:induction false} MoveKeepsHelper(n: nat, sections: nat, sched: Schedule, t: nat, j: nat)
    requires t < n
    ensures KeepsHelper(Observe(n, sections, sched), sched, t, j)
  {
    NextPrefix(n, sections, sched, j);
    var schedule := Prefix(sched, j);
    var s, u := Run(n, sections, schedule), sched(j);
    if u < n {
      InvRun(n, sections, schedule);
      TicketsBoundedRun(n, sections, schedule);
      StepRank(s, u);
      if SpinsOnly(s, u) && CanGetOn(s, t) {
        SpinKeepsHelper(Trace(n, sections, schedule), u, t);
      }
    }
  }

  /**
   Termination: every fair schedule brings all threads to their end, and then the
   counter is threads times sections.
   */
  lemma {:induction false} FairRunsFinish(n: nat, sections: nat, sched: Schedule)
    requires Fair(sched, n)
    ensures exists j: nat :: AllFinished(Run(n, sections, Prefix(sched, j)))
                             && Run(n, sections, Prefix(sched, j)).num == n * sections
  {
    var o := Observe(n, sections, sched);
    forall j: nat ensures HasHelper(o, n, j) {
      if !o.over(j) {
        var t := NoDeadlock(n, sections, Prefix(sched, j));
        assert o.helpful(j, t);
      }
    }
    forall j: nat, t: nat | t < n ensures KeepsHelper(o, sched, t, j) {
      MoveKeepsHelper(n, sections, sched, t, j);
    }
    var j := FairRunEnds(o, sched, n, 0);
    assert o.over(j);
    Refinement.FinalCount(n, sections, Prefix(sched, j));
  }
}
