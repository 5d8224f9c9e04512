/**
 A thread of the bakery program that moves while the others stand: without another
 ticket every section takes the same number of moves and the ticket is 1, and a round of
 the waiting condition decides by the (ticket, id) order.
 */
module BakeryAlone {
  import opened Bakery

  /** No thread but t is in the doorway or holds a ticket. */
  ghost predicate NobodyElse(s: State, t: nat)
    requires WellFormed(s)
  {
    t < |s.threads| && forall u: nat | u < |s.threads| && u != t :: s.choosing[u] == 0 && s.number[u] == 0
  }

  /** The state after k moves of thread t. */
  function Moves(s: State, t: nat, k: nat): (r: State)
    requires WellFormed(s)
    ensures WellFormed(r) && |r.threads| == |s.threads|
  {
    if k == 0 then s else Step(Moves(s, t, k - 1), t)
  }

  /** The number of threads other than t below i. */
  function OthersBelow(i: nat, t: nat): nat {
    if i <= t then i else i - 1
  }

  /** Moves made in a section that meets no other thread, for thread t of n; none of the other places is reached. */
  function MovesMade(pc: PC, t: nat, n: nat): int {
    match pc
    case SectionStart => 0
    case ScanFirst => 1
    case ScanCompare(m) => 1 + m
    case WriteTicket => 1 + n
    case ClearChoosing => 2 + n
    case AwaitChoosing(i) => 3 + n + 2 * OthersBelow(i, t)
    case TestZero(i) => 4 + n + 2 * OthersBelow(i, t)
    case Load => 3 * n + 1
    case Increment => 3 * n + 2
    case Store => 3 * n + 3
    case Release => 3 * n + 4
    case _ => -1
  }

  /** From s to r only thread t has moved, k times, within one section, and its ticket is 1. */
  ghost predicate Alone(s: State, r: State, t: nat, k: nat)
    requires WellFormed(s) && WellFormed(r) && t < |s.threads| == |r.threads|
  {
    var me := r.threads[t];
    && NobodyElse(r, t) && MovesMade(me.pc, t, |s.threads|) == k
    && r.sections == s.sections && r.threads == s.threads[t := me]
    && r.choosing == s.choosing[t := if me.pc.InDoorway() then 1 else 0]
    && r.number == s.number[t := if me.pc.HasTicket() then 1 else 0]
    && r.num == s.num + (if me.pc.Release? then 1 else 0)
    && me.done == s.threads[t].done < s.sections
    && (me.pc.ScanCompare? ==> me.pc.m > 0)
    && (!me.pc.SectionStart? && !me.pc.ScanFirst? ==> me.max == 0)
    && (me.pc.Increment? ==> me.count == s.num)
    && (me.pc.Store? || me.pc.Release? ==> me.count == s.num + 1)
  }

  lemma AloneInDoorway(s: State, r: State, t: nat, k: nat)
    requires WellFormed(s) && WellFormed(r) && t < |s.threads| == |r.threads| && Alone(s, r, t, k)
    requires s.choosing[t] == s.number[t] == 0
    requires r.threads[t].pc.SectionStart? || r.threads[t].pc.InDoorway()
    ensures Alone(s, Step(r, t), t, k + 1)
  {
    AloneWrites(s, r, t, k);
    assert r.threads[t].pc.ScanFirst? ==> r.number[0] == 0;
  }

  lemma AloneWaiting(s: State, r: State, t: nat, k: nat)
    requires WellFormed(s) && WellFormed(r) && t < |s.threads| == |r.threads| && Alone(s, r, t, k)
    requires s.choosing[t] == s.number[t] == 0 && r.threads[t].pc.Waiting()
    ensures Alone(s, Step(r, t), t, k + 1)
  {
    AloneWrites(s, r, t, k);
  }

  lemma AloneInside(s: State, r: State, t: nat, k: nat)
    requires WellFormed(s) && WellFormed(r) && t < |s.threads| == |r.threads| && Alone(s, r, t, k)
    requires s.choosing[t] == s.number[t] == 0 && r.threads[t].pc.InCritical()
    ensures if r.threads[t].pc.Release? then Step(r, t) == AfterSection(s, t) else Alone(s, Step(r, t), t, k + 1)
  {
    AloneWrites(s, r, t, k);
  }

  /** The step changes the cells and the locals of t only. */
  lemma AloneWrites(s: State, r: State, t: nat, k: nat)
    requires WellFormed(s) && WellFormed(r) && t < |s.threads| == |r.threads| && Alone(s, r, t, k)
    ensures var e, d := Move(r, t), Step(r, t);
            && d.threads == s.threads[t := e.me] && d.choosing == s.choosing[t := e.choosing]
            && d.number == s.number[t := e.number] && NobodyElse(d, t)
  {
  }

  lemma AloneStep(s: State, r: State, t: nat, k: nat)
    requires WellFormed(s) && WellFormed(r) && t < |s.threads| == |r.threads| && Alone(s, r, t, k)
    requires s.choosing[t] == s.number[t] == 0
    ensures if r.threads[t].pc.Release? then Step(r, t) == AfterSection(s, t) else Alone(s, Step(r, t), t, k + 1)
  {
    if r.threads[t].pc.InCritical() {
      AloneInside(s, r, t, k);
    } else if r.threads[t].pc.Waiting() {
      AloneWaiting(s, r, t, k);
    } else {
      AloneInDoorway(s, r, t, k);
    }
  }

  /** The state s with one more section of thread t. */
  function AfterSection(s: State, t: nat): State
    requires t < |s.threads|
  {
    s.(num := s.num + 1, threads := s.threads[t := Thread(SectionStart, 0, s.num + 1, s.threads[t].done + 1)])
  }

  lemma {:induction false} AloneMoves(s: State, t: nat, k: nat)
    requires WellFormed(s) && NobodyElse(s, t) && s.choosing[t] == s.number[t] == 0
    requires s.threads[t].pc.SectionStart? && s.threads[t].done < s.sections && k < 3 * |s.threads| + 5
    ensures Alone(s, Moves(s, t, k), t, k)
  {
    if k == 0 {
      assert s.threads == s.threads[t := s.threads[t]];
    } else {
      AloneMoves(s, t, k - 1);
      AloneStep(s, Moves(s, t, k - 1), t, k - 1);
    }
  }

  /**
   A section that meets no other thread takes exactly 3 * n + 5 moves. They add one to the
   counter and leave every cell of the lock as it was; the ticket is 1 from its write to
   its release.
   */
  lemma {:induction false} SectionAlone(s: State, t: nat)
    requires WellFormed(s) && NobodyElse(s, t) && s.choosing[t] == s.number[t] == 0
    requires s.threads[t].pc.SectionStart? && s.threads[t].done < s.sections
    ensures var n := |s.threads|;
            && Moves(s, t, 3 * n + 5) == AfterSection(s, t)
            && forall k: nat | n + 2 <= k < 3 * n + 5 :: Moves(s, t, k).number[t] == 1
  {
    var n := |s.threads|;
    forall k: nat | n + 2 <= k < 3 * n + 5 ensures Moves(s, t, k).number[t] == 1 {
      AloneMoves(s, t, k);
    }
    AloneMoves(s, t, 3 * n + 4);
    AloneStep(s, Moves(s, t, 3 * n + 4), t, 3 * n + 4);
  }

  /**
   One round of the waiting condition on a ticket that stays as it is: thread t comes back
   to the loop head after two reads if the other ticket is smaller, after three if it is
   equal and i < t, and leaves the wait after one read if there is no ticket and after
   three if t goes first.
   */
  lemma RoundOfTests(s: State, t: nat)
    requires WellFormed(s) && t < |s.threads| && s.threads[t].pc.TestZero?
    ensures var i := s.threads[t].pc.i;
            if s.number[i] == 0 then Moves(s, t, 1).threads[t].pc.PastTests(i)
            else if s.number[i] < s.number[t] then Moves(s, t, 2) == s
            else if s.number[i] == s.number[t] && i < t then Moves(s, t, 3) == s
            else Moves(s, t, 2).threads[t].pc == TestTie(i) && Moves(s, t, 3).threads[t].pc.PastTests(i)
  {
    var s1 := Step(s, t);
    var s2 := Step(s1, t);
    var s3 := Step(s2, t);
    assert Moves(s, t, 0) == s;
    assert Moves(s, t, 1) == s1;
    assert Moves(s, t, 2) == s2;
    assert Moves(s, t, 3) == s3;
    if s.number[s.threads[t].pc.i] != 0 {
      assert s1 == s.(threads := s.threads[t := s1.threads[t]]);
      assert s2 == s.(threads := s.threads[t := s2.threads[t]]);
    }
  }
}
