/**
 The bakery program of cw10 refines the mutex program of cw9.

 A bakery thread that is not in its critical section stands for a mutex thread at its
 loop head; the returns from lock are the successful lockMutex calls. Keeping only the
 moves that the mutex program also makes turns every bakery schedule into a mutex
 schedule with the same counter values.
 */
module Refinement {
  import opened Sums
  import B = Bakery
  import BI = BakeryInvariant
  import BP = BakeryProperties
  import M = Mutex

  function AbstractPC(pc: B.PC): M.PC {
    match pc
    case Load => M.Load
    case Increment => M.Increment
    case Store => M.Store
    case Release => M.Release
    case Finished => M.Finished
    case _ => M.SectionStart
  }

  function AbstractThread(me: B.Thread): M.Thread {
    M.Thread(AbstractPC(me.pc), me.count, me.done)
  }

  /** a is the mutex state that s stands for: the same counter and threads, the mutex held by whoever is inside. */
  ghost predicate Refines(s: B.State, a: M.State) {
    && a.sections == s.sections && a.num == s.num
    && |a.threads| == |s.threads|
    && (forall t: nat | t < |s.threads| :: a.threads[t] == AbstractThread(s.threads[t]))
    && (forall t: nat | t < |s.threads| :: s.threads[t].pc.InCritical() <==> a.mutex == M.HeldBy(t))
    && (a.mutex.HeldBy? ==> a.mutex.t < |s.threads|)
  }

  /** The move of t is a move of the mutex program too. */
  predicate Visible(s: B.State, t: nat)
    requires B.WellFormed(s)
  {
    && t < |s.threads|
    && (|| s.threads[t].pc.InCritical()
        || B.Move(s, t).me.pc.InCritical()
        || B.Move(s, t).me.pc.Finished?)
  }

  predicate EntersSection(s: B.State, t: nat)
    requires B.WellFormed(s)
  {
    t < |s.threads| && !s.threads[t].pc.InCritical() && B.Move(s, t).me.pc.InCritical()
  }

  /** One move: a visible one is the same move of the mutex program, any other changes nothing there. */
  lemma Simulates(c: BI.Config, a: M.State, t: nat)
    requires BI.Inv(c) && Refines(c.s, a) && BP.TicketsBounded(c.s)
    ensures Refines(B.Step(c.s, t), if Visible(c.s, t) then M.Step(a, t) else a)
    ensures EntersSection(c.s, t) ==> a.mutex == M.Nobody
  {
    if t < |c.s.threads| {
      if EntersSection(c.s, t) {
        FindsNobodyInside(c, a, t);
      }
      if Visible(c.s, t) {
        VisibleMove(c.s, a, t);
      } else {
        HiddenMove(c.s, a, t);
      }
    }
  }

  lemma HiddenMove(s: B.State, a: M.State, t: nat)
    requires B.WellFormed(s) && t < |s.threads| && !Visible(s, t) && Refines(s, a)
    ensures Refines(B.Step(s, t), a)
  {
  }

  lemma VisibleMove(s: B.State, a: M.State, t: nat)
    requires B.WellFormed(s) && t < |s.threads| && Visible(s, t) && Refines(s, a)
    requires EntersSection(s, t) ==> a.mutex == M.Nobody
    requires BP.TicketsBoundedFor(s.threads[t], s.sections)
    ensures Refines(B.Step(s, t), M.Step(a, t))
  {
    var e := B.Move(s, t);
    var b := M.Step(a, t);
    assert b.threads[t] == AbstractThread(e.me) && b.num == e.num;
    assert b.mutex == M.HeldBy(t) <==> e.me.pc.InCritical();
  }

  /** When t returns from lock, the mutex of the abstract program is free. */
  lemma FindsNobodyInside(c: BI.Config, a: M.State, t: nat)
    requires BI.Inv(c) && Refines(c.s, a) && t < |c.s.threads|
    requires B.Move(c.s, t).me.pc.InCritical() && !c.s.threads[t].pc.InCritical()
    ensures a.mutex == M.Nobody
  {
    BI.InvStep(c, t);
  }

  /** The moves of a bakery schedule that the mutex program makes too. */
  function VisibleMoves(n: nat, sections: nat, schedule: seq<nat>): seq<nat> {
    if schedule == [] then []
    else
      var prefix, t := schedule[..|schedule| - 1], schedule[|schedule| - 1];
      var moves := VisibleMoves(n, sections, prefix);
      if Visible(B.Run(n, sections, prefix), t) then moves + [t] else moves
  }

  /** The values that a bakery run stores in the counter, in order. */
  function Stores(n: nat, sections: nat, schedule: seq<nat>): seq<int> {
    if schedule == [] then []
    else
      var prefix, t := schedule[..|schedule| - 1], schedule[|schedule| - 1];
      var s := B.Run(n, sections, prefix);
      var stores := Stores(n, sections, prefix);
      if t < n && s.threads[t].pc.Store? then stores + [s.threads[t].count] else stores
  }

  lemma RefinesOneMove(n: nat, sections: nat, prefix: seq<nat>, t: nat, a: M.State)
    requires Refines(B.Run(n, sections, prefix), a)
    ensures var s := B.Run(n, sections, prefix);
            Refines(B.Step(s, t), if Visible(s, t) then M.Step(a, t) else a)
  {
    var c := BI.Trace(n, sections, prefix);
    BI.InvRun(n, sections, prefix);
    BP.TicketsBoundedRun(n, sections, prefix);
    Simulates(c, a, t);
  }

  lemma OneMoveMore(n: nat, sections: nat, moves: seq<nat>, t: nat)
    ensures M.Run(n, sections, moves + [t]) == M.Step(M.Run(n, sections, moves), t)
    ensures var s := M.Run(n, sections, moves);
            M.Stores(n, sections, moves + [t]) ==
            if t < n && s.threads[t].pc.Store? then M.Stores(n, sections, moves) + [s.threads[t].count]
            else M.Stores(n, sections, moves)
  {
  }

  /** Every run of the bakery program is a run of the mutex program. */
  lemma {:induction false} BakeryRefinesMutex(n: nat, sections: nat, schedule: seq<nat>)
    ensures Refines(B.Run(n, sections, schedule), M.Run(n, sections, VisibleMoves(n, sections, schedule)))
  {
    if schedule == [] {
    } else {
      var prefix, t := schedule[..|schedule| - 1], schedule[|schedule| - 1];
      BakeryRefinesMutex(n, sections, prefix);
      var moves := VisibleMoves(n, sections, prefix);
      RefinesOneMove(n, sections, prefix, t, M.Run(n, sections, moves));
      OneMoveMore(n, sections, moves, t);
    }
  }

  /** Both programs store the same values in the same order. */
  lemma {:induction false} SameStores(n: nat, sections: nat, schedule: seq<nat>)
    ensures Stores(n, sections, schedule) == M.Stores(n, sections, VisibleMoves(n, sections, schedule))
  {
    if schedule == [] {
    } else {
      var prefix, t := schedule[..|schedule| - 1], schedule[|schedule| - 1];
      SameStores(n, sections, prefix);
      BakeryRefinesMutex(n, sections, prefix);
      var moves := VisibleMoves(n, sections, prefix);
      OneMoveMore(n, sections, moves, t);
      SameStore(B.Run(n, sections, prefix), M.Run(n, sections, moves), t);
    }
  }

  lemma SameStore(s: B.State, a: M.State, t: nat)
    requires B.WellFormed(s) && Refines(s, a)
    ensures t < |s.threads| ==>
              && (s.threads[t].pc.Store? <==> a.threads[t].pc.Store?)
              && a.threads[t].count == s.threads[t].count
    ensures t < |s.threads| && s.threads[t].pc.Store? ==> Visible(s, t)
  {
    if t < |s.threads| {
      assert a.threads[t] == AbstractThread(s.threads[t]);
    }
  }

  /** No lost update under the bakery lock: the counter is stored as 1, 2, 3, ... */
  lemma {:induction false} NoLostUpdate(n: nat, sections: nat, schedule: seq<nat>)
    ensures |Stores(n, sections, schedule)| == B.Run(n, sections, schedule).num
    ensures forall j | 0 <= j < |Stores(n, sections, schedule)| :: Stores(n, sections, schedule)[j] == j + 1
  {
    BakeryRefinesMutex(n, sections, schedule);
    SameStores(n, sections, schedule);
    M.NoLostUpdate(n, sections, VisibleMoves(n, sections, schedule));
  }

  /** After all joins the counter is threads times sections, as main checks. */
  lemma {:induction false} FinalCount(n: nat, sections: nat, schedule: seq<nat>)
    requires B.AllFinished(B.Run(n, sections, schedule))
    ensures B.Run(n, sections, schedule).num == n * sections
  {
    BakeryRefinesMutex(n, sections, schedule);
    M.FinalCount(n, sections, VisibleMoves(n, sections, schedule));
  }

  /**
   At every moment the counter is the number of completed sections, plus one for a thread
   that has stored and not unlocked.
   */
  lemma {:induction false} CounterCountsSections(n: nat, sections: nat, schedule: seq<nat>)
    ensures B.Run(n, sections, schedule).num == Sum(CompletedCounts(B.Run(n, sections, schedule)))
  {
    BakeryRefinesMutex(n, sections, schedule);
    var moves := VisibleMoves(n, sections, schedule);
    M.InvRun(n, sections, moves);
    assert CompletedCounts(B.Run(n, sections, schedule)) == M.StoredCounts(M.Run(n, sections, moves));
  }

  function CompletedCounts(s: B.State): seq<int> {
    seq(|s.threads|, t requires 0 <= t < |s.threads| => s.threads[t].done + if s.threads[t].pc.Release? then 1 else 0)
  }
}
