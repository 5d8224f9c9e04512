/**
 The inductive invariant of the bakery lock, and mutual exclusion.

 The invariant speaks of the state and of a history: ahead[i] holds the threads that had
 a ticket when thread i last set choosing[i] or began its scan, and have kept it since.
 */
module BakeryInvariant {
  import opened Bakery

  type History = seq<set<nat>>

  datatype Config = Config(s: State, ahead: History)

  function Holders(s: State): set<nat>
    requires WellFormed(s)
  {
    set p: nat | p < |s.threads| && s.number[p] != 0
  }

  /** How the move of t changes the history. */
  function Record(s: State, ahead: History, t: nat): (r: History)
    requires WellFormed(s) && |ahead| == |s.threads|
    ensures |r| == |ahead|
  {
    if t >= |s.threads| then ahead
    else if s.threads[t].pc.SectionStart? || s.threads[t].pc.ScanFirst? then ahead[t := Holders(s)]
    else if s.threads[t].pc.Release? then seq(|ahead|, i requires 0 <= i < |ahead| => ahead[i] - {t})
    else ahead
  }

  function Trace(n: nat, sections: nat, schedule: seq<nat>): (c: Config)
    ensures c.s == Run(n, sections, schedule) && |c.ahead| == n
  {
    if schedule == [] then Config(Initial(n, sections), seq(n, _ => {}))
    else
      var c := Trace(n, sections, schedule[..|schedule| - 1]);
      var t := schedule[|schedule| - 1];
      Config(Step(c.s, t), Record(c.s, c.ahead, t))
  }

  /** The cells agree with the program counters of their owners. */
  ghost predicate CellsAgree(s: State)
    requires WellFormed(s)
  {
    forall t: nat | t < |s.threads| ::
      && s.choosing[t] == (if s.threads[t].pc.InDoorway() then 1 else 0)
      && (if s.threads[t].pc.HasTicket() then s.number[t] > 0 else s.number[t] == 0)
      && s.threads[t].max >= 0
  }

  /** A thread in ahead[i] is another thread that holds a ticket. */
  ghost predicate AheadHold(s: State, ahead: History)
    requires WellFormed(s) && |ahead| == |s.threads|
  {
    forall i: nat, p: nat | i < |ahead| && p in ahead[i] :: p < |s.threads| && p != i && s.number[p] > 0
  }

  /** While i is choosing, whoever has passed the choosing check on i is ahead of i. */
  ghost predicate PassedAreAhead(s: State, ahead: History)
    requires WellFormed(s) && |ahead| == |s.threads|
  {
    forall i: nat, p: nat | i < |s.threads| && p < |s.threads| && i != p
                            && s.threads[i].pc.InDoorway() && s.threads[p].pc.PastChoosing(i) :: p in ahead[i]
  }

  /** What the scan of i knows about the ticket of a thread p that is ahead of i. */
  predicate Covers(pc: PC, max: int, p: nat, number: seq<int>, i: nat)
    requires p < |number| && i < |number|
  {
    && (pc.ScanCompare? && p < pc.m ==> number[p] <= max)
    && (pc.ScanTake? && p < pc.m < |number| ==> number[p] < number[pc.m])
    && (pc.WriteTicket? ==> number[p] <= max)
    && (pc.HasTicket() ==> number[p] < number[i])
  }

  ghost predicate ScansCover(s: State, ahead: History)
    requires WellFormed(s) && |ahead| == |s.threads| && AheadHold(s, ahead)
  {
    forall i: nat, p: nat | i < |ahead| && p in ahead[i] ::
      p < |s.threads| && Covers(s.threads[i].pc, s.threads[i].max, p, s.number, i)
  }

  /** A thread past its whole check on i goes before i whenever i holds a ticket. */
  ghost predicate PassedGoFirst(s: State)
    requires WellFormed(s)
  {
    forall p: nat, i: nat | p < |s.threads| && i < |s.threads| && p != i
                            && s.threads[p].pc.PastTests(i) && s.number[i] != 0 ::
      Before(s.number[p], p, s.number[i], i)
  }

  /** Between the two comparisons of tickets, the other ticket is gone or not smaller. */
  ghost predicate TiesOpen(s: State)
    requires WellFormed(s)
  {
    forall p: nat | p < |s.threads| && s.threads[p].pc.TestTie? && s.number[s.threads[p].pc.i] != 0 ::
      s.number[p] <= s.number[s.threads[p].pc.i]
  }

  ghost predicate Inv(c: Config) {
    && WellFormed(c.s) && |c.ahead| == |c.s.threads|
    && CellsAgree(c.s)
    && AheadHold(c.s, c.ahead)
    && PassedAreAhead(c.s, c.ahead)
    && ScansCover(c.s, c.ahead)
    && PassedGoFirst(c.s)
    && TiesOpen(c.s)
  }

  ghost function Next(c: Config, t: nat): Config
    requires WellFormed(c.s) && |c.ahead| == |c.s.threads|
  {
    Config(Step(c.s, t), Record(c.s, c.ahead, t))
  }

  /** No thread in its critical section shares it, and none goes behind a ticket holder. */
  lemma CriticalGoesFirst(c: Config, q: nat, p: nat)
    requires Inv(c) && q < |c.s.threads| && p < |c.s.threads| && p != q
    requires c.s.threads[q].pc.InCritical() && c.s.number[p] > 0
    ensures c.s.number[q] <= c.s.number[p] && !c.s.threads[p].pc.InCritical()
  {
  }

  /** A thread's move leaves its own cells in agreement with its program counter. */
  lemma OwnCells(s: State, t: nat)
    requires WellFormed(s) && CellsAgree(s) && t < |s.threads|
    ensures var e := Move(s, t);
            && e.choosing == (if e.me.pc.InDoorway() then 1 else 0)
            && (if e.me.pc.HasTicket() then e.number > 0 else e.number == 0)
            && e.me.max >= 0
  {
  }

  lemma KeepsCells(s: State, t: nat)
    requires WellFormed(s) && CellsAgree(s)
    ensures CellsAgree(Step(s, t))
  {
    if t < |s.threads| {
      OwnCells(s, t);
      var r := Step(s, t);
      assert r.threads[t] == Move(s, t).me && r.number[t] == Move(s, t).number && r.choosing[t] == Move(s, t).choosing;
    }
  }

  lemma KeepsAheadHold(c: Config, t: nat)
    requires Inv(c)
    ensures AheadHold(Next(c, t).s, Next(c, t).ahead)
  {
    if t < |c.s.threads| {
      KeepsTicket(c.s, t);
    }
  }

  /** Tickets are written in the doorway and removed by unlock only. */
  lemma KeepsTicket(s: State, t: nat)
    requires WellFormed(s) && t < |s.threads|
    ensures !s.threads[t].pc.WriteTicket? && !s.threads[t].pc.Release? ==> Move(s, t).number == s.number[t]
  {
  }

  lemma KeepsPassedAreAhead(c: Config, t: nat)
    requires Inv(c)
    ensures PassedAreAhead(Next(c, t).s, Next(c, t).ahead)
  {
    var d := Next(c, t);
    forall i: nat, p: nat | i < |d.s.threads| && p < |d.s.threads| && i != p
                            && d.s.threads[i].pc.InDoorway() && d.s.threads[p].pc.PastChoosing(i)
      ensures p in d.ahead[i]
    {
      if t == p {
        PassesOnlyIdle(c, p, i);
      } else if t == i {
        EntersBehind(c, i, p);
      } else {
        assert p in c.ahead[i];
      }
    }
  }

  /** A move that leaves the loop body for i has dealt with the threads up to i only. */
  lemma AdvancePasses(t: nat, i: nat, n: nat, j: nat)
    requires j < n && j != t
    ensures Advance(t, i, n).PastChoosing(j) <==> j < i
    ensures Advance(t, i, n).PastTests(j) <==> j < i
  {
  }

  /** A move of p comes past the choosing check on i only by reading choosing[i] == 0. */
  lemma PassesChoosing(s: State, p: nat, i: nat)
    requires WellFormed(s) && i < |s.threads| && p < |s.threads| && i != p
    requires Move(s, p).me.pc.PastChoosing(i) && s.choosing[i] != 0
    ensures s.threads[p].pc.PastChoosing(i) && !s.threads[p].pc.Release?
  {
  }

  /** The move of p: it comes past the choosing check on i only while i is not choosing. */
  lemma PassesOnlyIdle(c: Config, p: nat, i: nat)
    requires Inv(c) && i < |c.s.threads| && p < |c.s.threads| && i != p
    requires c.s.threads[i].pc.InDoorway() && Move(c.s, p).me.pc.PastChoosing(i)
    ensures p in Next(c, p).ahead[i]
  {
    assert c.s.choosing[i] == 1;
    PassesChoosing(c.s, p, i);
    assert p in c.ahead[i];
  }

  /** The move of i: entering the doorway, it finds the tickets of all that have passed. */
  lemma EntersBehind(c: Config, i: nat, p: nat)
    requires Inv(c) && i < |c.s.threads| && p < |c.s.threads| && i != p
    requires Move(c.s, i).me.pc.InDoorway() && c.s.threads[p].pc.PastChoosing(i)
    ensures p in Next(c, i).ahead[i]
  {
    assert c.s.number[p] > 0;
    DoorwayMove(c.s, i);
    if c.s.threads[i].pc.SectionStart? || c.s.threads[i].pc.ScanFirst? {
      assert Record(c.s, c.ahead, i)[i] == Holders(c.s);
    } else {
      assert p in c.ahead[i];
      assert Record(c.s, c.ahead, i) == c.ahead;
    }
  }

  lemma DoorwayMove(s: State, i: nat)
    requires WellFormed(s) && i < |s.threads| && Move(s, i).me.pc.InDoorway()
    ensures s.threads[i].pc.SectionStart? || s.threads[i].pc.InDoorway()
  {
  }

  lemma KeepsScansCover(c: Config, t: nat)
    requires Inv(c)
    ensures AheadHold(Next(c, t).s, Next(c, t).ahead) && ScansCover(Next(c, t).s, Next(c, t).ahead)
  {
    KeepsAheadHold(c, t);
    var d := Next(c, t);
    forall i: nat, p: nat | i < |d.ahead| && p in d.ahead[i]
      ensures p < |d.s.threads| && Covers(d.s.threads[i].pc, d.s.threads[i].max, p, d.s.number, i)
    {
      if t == i {
        ScanCovers(c, i, p);
      } else if t < |c.s.threads| {
        OtherMoveCovers(c, t, i, p);
      }
    }
  }

  /**
   Another thread moves: it can neither take a ticket below the running maximum of i nor
   drop one that i is about to take.
   */
  lemma OtherMoveCovers(c: Config, t: nat, i: nat, p: nat)
    requires Inv(c) && t < |c.s.threads| && i < |c.s.threads| && t != i && p in Next(c, t).ahead[i]
    ensures p < |c.s.threads| && Covers(c.s.threads[i].pc, c.s.threads[i].max, p, Step(c.s, t).number, i)
  {
    assert p in c.ahead[i];
    assert p < |c.s.threads| && c.s.number[p] > 0 && Covers(c.s.threads[i].pc, c.s.threads[i].max, p, c.s.number, i);
    KeepsTicket(c.s, t);
    assert p == t ==> !c.s.threads[t].pc.Release?;
    if c.s.threads[t].pc.Release? {
      CriticalGoesFirst(c, t, p);
    } else {
      assert c.s.threads[t].pc.WriteTicket? ==> c.s.number[t] == 0;
    }
  }

  /** The scanning thread moves: the cell it reads joins the cells it covers. */
  lemma ScanCovers(c: Config, i: nat, p: nat)
    requires Inv(c) && i < |c.s.threads| && p in Next(c, i).ahead[i]
    ensures p < |c.s.threads|
    ensures Covers(Move(c.s, i).me.pc, Move(c.s, i).me.max, p, c.s.number[i := Move(c.s, i).number], i)
  {
    var me := c.s.threads[i];
    if me.pc.SectionStart? || me.pc.ScanFirst? {
      assert p < |c.s.threads|;
      StartCovers(c.s, i, p);
    } else {
      assert p in c.ahead[i];
      assert p < |c.s.threads| && p != i && Covers(me.pc, me.max, p, c.s.number, i);
      MoveCovers(c.s, i, p);
    }
  }

  lemma StartCovers(s: State, i: nat, p: nat)
    requires WellFormed(s) && i < |s.threads| && p < |s.threads|
    requires s.threads[i].pc.SectionStart? || s.threads[i].pc.ScanFirst?
    requires s.number[p] != 0 && CellsAgree(s)
    ensures Covers(Move(s, i).me.pc, Move(s, i).me.max, p, s.number[i := Move(s, i).number], i)
  {
  }

  lemma MoveCovers(s: State, i: nat, p: nat)
    requires WellFormed(s) && i < |s.threads| && p < |s.threads| && p != i && CellsAgree(s)
    requires Covers(s.threads[i].pc, s.threads[i].max, p, s.number, i)
    requires !s.threads[i].pc.SectionStart? && !s.threads[i].pc.ScanFirst?
    ensures Covers(Move(s, i).me.pc, Move(s, i).me.max, p, s.number[i := Move(s, i).number], i)
  {
  }

  lemma KeepsPassedGoFirst(c: Config, t: nat)
    requires Inv(c)
    ensures PassedGoFirst(Step(c.s, t))
  {
    var r := Step(c.s, t);
    forall p: nat, i: nat | p < |r.threads| && i < |r.threads| && p != i
                            && r.threads[p].pc.PastTests(i) && r.number[i] != 0
      ensures Before(r.number[p], p, r.number[i], i)
    {
      if t == p {
        PassesInOrder(c.s, p, i);
      } else if t == i {
        TicketBehindPassed(c, i, p);
      } else {
        assert c.s.threads[p].pc.PastTests(i);
      }
    }
  }

  /** The move of p: it comes past the tests on i only if it goes before i. */
  lemma PassesInOrder(s: State, p: nat, i: nat)
    requires WellFormed(s) && PassedGoFirst(s) && TiesOpen(s) && p < |s.threads| && i < |s.threads| && p != i
    requires Move(s, p).me.pc.PastTests(i) && s.number[i] != 0
    ensures Before(Move(s, p).number, p, s.number[i], i)
  {
    var pc := s.threads[p].pc;
    AdvancePasses(p, 0, |s.threads|, i);
    if pc.Waiting() {
      AdvancePasses(p, pc.i + 1, |s.threads|, i);
    }
    KeepsTicket(s, p);
    assert !pc.WriteTicket? && !pc.Release?;
    if !pc.PastTests(i) {
      assert pc.TestTie? && pc.i == i;
    }
  }

  /** The move of i: a ticket that it writes is above the tickets of all that have passed its check. */
  lemma TicketBehindPassed(c: Config, i: nat, p: nat)
    requires Inv(c) && p < |c.s.threads| && i < |c.s.threads| && p != i
    requires c.s.threads[p].pc.PastTests(i) && Move(c.s, i).number != 0
    ensures Before(c.s.number[p], p, Move(c.s, i).number, i)
  {
  }

  lemma WritesAbove(c: Config, i: nat, p: nat)
    requires Inv(c) && p < |c.s.threads| && i < |c.s.threads| && p != i
    requires c.s.threads[p].pc.PastChoosing(i) && c.s.threads[i].pc.WriteTicket?
    ensures c.s.number[p] < Move(c.s, i).number
  {
  }

  lemma KeepsTiesOpen(c: Config, t: nat)
    requires Inv(c)
    ensures TiesOpen(Step(c.s, t))
  {
    var r := Step(c.s, t);
    forall p: nat | p < |r.threads| && r.threads[p].pc.TestTie? && r.number[r.threads[p].pc.i] != 0
      ensures r.number[p] <= r.number[r.threads[p].pc.i]
    {
      var i := r.threads[p].pc.i;
      if t == p {
        OpensTie(c.s, p);
      } else if t == i {
        if c.s.threads[i].pc.WriteTicket? {
          WritesAbove(c, i, p);
        } else {
          KeepsTicket(c.s, i);
        }
      }
    }
  }

  /** The move of p: it comes to the last test only past the second one. */
  lemma OpensTie(s: State, p: nat)
    requires WellFormed(s) && p < |s.threads| && Move(s, p).me.pc.TestTie?
    ensures var i := Move(s, p).me.pc.i; Move(s, p).number == s.number[p] <= s.number[i]
  {
  }

  lemma InvStep(c: Config, t: nat)
    requires Inv(c)
    ensures Inv(Next(c, t))
  {
    KeepsCells(c.s, t);
    KeepsAheadHold(c, t);
    KeepsPassedAreAhead(c, t);
    KeepsScansCover(c, t);
    KeepsPassedGoFirst(c, t);
    KeepsTiesOpen(c, t);
  }

  lemma {:induction false} InvRun(n: nat, sections: nat, schedule: seq<nat>)
    ensures Inv(Trace(n, sections, schedule))
  {
    if schedule == [] {
    } else {
      InvRun(n, sections, schedule[..|schedule| - 1]);
      InvStep(Trace(n, sections, schedule[..|schedule| - 1]), schedule[|schedule| - 1]);
    }
  }
}
