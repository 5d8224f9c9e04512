/**
 What the bakery lock guarantees over every run: mutual exclusion, scans that miss no
 standing ticket, first come first served, bounded overtaking, and bounded tickets.

 A run is given by its schedule; At is the state after the first a moves.
 */
module BakeryProperties {
  import opened Bakery
  import opened BakeryInvariant
  import opened Sums
  import Fairness

  function At(n: nat, sections: nat, schedule: seq<nat>, a: nat): (s: State)
    requires a <= |schedule|
    ensures WellFormed(s) && |s.threads| == n
  {
    Run(n, sections, schedule[..a])
  }

  /** Move c of the run is the write of unlock by thread p. */
  ghost predicate Unlocks(n: nat, sections: nat, schedule: seq<nat>, c: nat, p: nat) {
    c < |schedule| && p < n && schedule[c] == p && At(n, sections, schedule, c).threads[p].pc.Release?
  }

  /** Move c of the run is a return of thread p from lock. */
  ghost predicate Returns(n: nat, sections: nat, schedule: seq<nat>, c: nat, p: nat) {
    && c < |schedule| && p < n && schedule[c] == p
    && !At(n, sections, schedule, c).threads[p].pc.InCritical()
    && Step(At(n, sections, schedule, c), p).threads[p].pc.InCritical()
  }

  lemma {:induction false} TraceAt(n: nat, sections: nat, schedule: seq<nat>, a: nat)
    requires a < |schedule|
    ensures Trace(n, sections, schedule[..a + 1]) == Next(Trace(n, sections, schedule[..a]), schedule[a])
    ensures Inv(Trace(n, sections, schedule[..a])) && Inv(Trace(n, sections, schedule[..a + 1]))
  {
    assert schedule[..a + 1][..a] == schedule[..a];
    InvRun(n, sections, schedule[..a]);
    InvRun(n, sections, schedule[..a + 1]);
  }

  /** No two threads are between the return from lock and the write in unlock. */
  lemma {:induction false} MutualExclusion(n: nat, sections: nat, schedule: seq<nat>, p: nat, q: nat)
    requires p < n && q < n
    requires Run(n, sections, schedule).threads[p].pc.InCritical()
    requires Run(n, sections, schedule).threads[q].pc.InCritical()
    ensures p == q
  {
    InvRun(n, sections, schedule);
    if p != q {
      CriticalGoesFirst(Trace(n, sections, schedule), p, q);
    }
  }

  /** A thread that does not unlock keeps its ticket and its place ahead of i. */
  lemma {:induction false} StaysAhead(n: nat, sections: nat, schedule: seq<nat>, a: nat, b: nat, p: nat, i: nat)
    requires a <= b <= |schedule| && i < n && p < n
    requires p in Trace(n, sections, schedule[..a]).ahead[i]
    requires forall c: nat | a <= c < b :: !Unlocks(n, sections, schedule, c, p)
    ensures p in Trace(n, sections, schedule[..b]).ahead[i]
    ensures At(n, sections, schedule, b).number[p] == At(n, sections, schedule, a).number[p]
  {
    PlacePersists(n, sections, schedule, a, b, p, i, At(n, sections, schedule, a).number[p]);
  }

  lemma {:induction false} PlacePersists(
      n: nat, sections: nat, schedule: seq<nat>, a: nat, b: nat, p: nat, i: nat, ticket: int)
    requires a <= b <= |schedule| && i < n && p < n
    requires KeepsItsPlace(n, sections, schedule, a, p, i, ticket)
    requires forall c: nat | a <= c < b :: !Unlocks(n, sections, schedule, c, p)
    ensures KeepsItsPlace(n, sections, schedule, b, p, i, ticket)
    decreases b - a
  {
    if a == b {
    } else {
      assert !Unlocks(n, sections, schedule, a, p);
      StaysAheadOneMove(n, sections, schedule, a, p, i, ticket);
      PlacePersists(n, sections, schedule, a + 1, b, p, i, ticket);
    }
  }

  ghost predicate KeepsItsPlace(n: nat, sections: nat, schedule: seq<nat>, c: nat, p: nat, i: nat, ticket: int)
    requires c <= |schedule| && i < n && p < n
  {
    p in Trace(n, sections, schedule[..c]).ahead[i] && At(n, sections, schedule, c).number[p] == ticket
  }

  lemma {:induction false} StaysAheadOneMove(
      n: nat, sections: nat, schedule: seq<nat>, b: nat, p: nat, i: nat, ticket: int)
    requires b < |schedule| && i < n && p < n && !Unlocks(n, sections, schedule, b, p)
    requires KeepsItsPlace(n, sections, schedule, b, p, i, ticket)
    ensures KeepsItsPlace(n, sections, schedule, b + 1, p, i, ticket)
  {
    TraceAt(n, sections, schedule, b);
    KeepsPlace(Trace(n, sections, schedule[..b]), schedule[b], p, i);
  }

  lemma KeepsPlace(c: Config, t: nat, p: nat, i: nat)
    requires Inv(c) && i < |c.s.threads| && p < |c.s.threads| && p in c.ahead[i]
    requires t == p ==> !c.s.threads[p].pc.Release?
    ensures p in Next(c, t).ahead[i] && Next(c, t).s.number[p] == c.s.number[p]
  {
  }

  /**
   The scan returns the maximum of no snapshot, yet at least every ticket that was held
   when the scan began (move a) and is still held when it ends (after move b - 1).
   */
  lemma {:induction false} ScanMissesNoStandingTicket(
      n: nat, sections: nat, schedule: seq<nat>, a: nat, b: nat, p: nat, i: nat)
    requires a < b <= |schedule| && i < n && p < n
    requires schedule[a] == i && At(n, sections, schedule, a).threads[i].pc.ScanFirst?
    requires At(n, sections, schedule, a).number[p] != 0
    requires forall c: nat | a <= c < b :: !Unlocks(n, sections, schedule, c, p)
    requires At(n, sections, schedule, b).threads[i].pc.WriteTicket?
    ensures At(n, sections, schedule, b).number[p] == At(n, sections, schedule, a).number[p]
    ensures At(n, sections, schedule, a).number[p] <= At(n, sections, schedule, b).threads[i].max
  {
    TraceAt(n, sections, schedule, a);
    StaysAhead(n, sections, schedule, a + 1, b, p, i);
    InvRun(n, sections, schedule[..b]);
    var d := Trace(n, sections, schedule[..b]);
    assert Covers(d.s.threads[i].pc, d.s.threads[i].max, p, d.s.number, i);
  }

  /** In state b, thread i is in the loop of max_number or about to write its ticket. */
  ghost predicate Scanning(n: nat, sections: nat, schedule: seq<nat>, b: nat, i: nat) {
    b <= |schedule| && i < n && IsScan(At(n, sections, schedule, b).threads[i].pc)
  }

  predicate IsScan(pc: PC) {
    pc.ScanCompare? || pc.ScanTake? || pc.WriteTicket?
  }

  /** Move a is the first read of a scan by thread i. */
  ghost predicate BeginsScan(n: nat, sections: nat, schedule: seq<nat>, a: nat, i: nat) {
    a < |schedule| && i < n && schedule[a] == i && At(n, sections, schedule, a).threads[i].pc.ScanFirst?
  }

  /** One move within a scan: only the second read of a cell changes the running maximum. */
  lemma ScanMove(s: State, t: nat, i: nat)
    requires WellFormed(s) && i < |s.threads| && IsScan(Step(s, t).threads[i].pc)
    ensures var me, max := s.threads[i], Step(s, t).threads[i].max;
            || (t == i && me.pc.ScanFirst? && max == s.number[0])
            || (t == i && me.pc.ScanTake? && max == s.number[me.pc.m])
            || (IsScan(me.pc) && max == me.max)
  {
  }

  /** What move c has read in cell m. */
  ghost predicate ReadAt(n: nat, sections: nat, schedule: seq<nat>, c: nat, i: nat, m: nat, value: int) {
    c < |schedule| && schedule[c] == i && m < n && At(n, sections, schedule, c).number[m] == value
  }

  lemma {:induction false} ScanAt(n: nat, sections: nat, schedule: seq<nat>, c: nat, i: nat) returns (m: nat)
    requires c < |schedule| && Scanning(n, sections, schedule, c + 1, i)
    ensures var max := At(n, sections, schedule, c + 1).threads[i].max;
            if Scanning(n, sections, schedule, c, i) then
              ReadAt(n, sections, schedule, c, i, m, max) || max == At(n, sections, schedule, c).threads[i].max
            else BeginsScan(n, sections, schedule, c, i) && ReadAt(n, sections, schedule, c, i, m, max)
  {
    assert schedule[..c + 1][..c] == schedule[..c];
    var s := At(n, sections, schedule, c);
    ScanMove(s, schedule[c], i);
    m := if s.threads[i].pc.ScanTake? then s.threads[i].pc.m else 0;
  }

  /** The running maximum is the value that one of the moves of the scan has read. */
  lemma {:induction false} MaxWasRead(n: nat, sections: nat, schedule: seq<nat>, b: nat, i: nat)
    returns (a: nat, c: nat, m: nat)
    requires Scanning(n, sections, schedule, b, i)
    ensures a <= c < b && BeginsScan(n, sections, schedule, a, i)
    ensures ReadAt(n, sections, schedule, c, i, m, At(n, sections, schedule, b).threads[i].max)
    ensures forall d: nat | a < d <= b :: Scanning(n, sections, schedule, d, i)
  {
    m := ScanAt(n, sections, schedule, b - 1, i);
    a, c := b - 1, b - 1;
    if Scanning(n, sections, schedule, b - 1, i) {
      var d, k: nat;
      a, d, k := MaxWasRead(n, sections, schedule, b - 1, i);
      if !ReadAt(n, sections, schedule, c, i, m, At(n, sections, schedule, b).threads[i].max) {
        c, m := d, k;
      }
    }
  }

  /**
   Every ticket is one more than a value that its thread has read in some cell m, at some
   move c of the scan that began with move a.
   */
  lemma {:induction false} TicketIsNext(n: nat, sections: nat, schedule: seq<nat>, b: nat, i: nat)
    returns (a: nat, c: nat, m: nat)
    requires b < |schedule| && i < n && schedule[b] == i && At(n, sections, schedule, b).threads[i].pc.WriteTicket?
    ensures a <= c < b && BeginsScan(n, sections, schedule, a, i)
    ensures forall d: nat | a < d <= b :: Scanning(n, sections, schedule, d, i)
    ensures ReadAt(n, sections, schedule, c, i, m, At(n, sections, schedule, b + 1).number[i] - 1)
  {
    a, c, m := MaxWasRead(n, sections, schedule, b, i);
    assert schedule[..b + 1][..b] == schedule[..b];
  }

  /** A thread that has somebody ahead of it is not in its critical section. */
  lemma KeptOut(c: Config, i: nat, p: nat)
    requires Inv(c) && i < |c.s.threads| && p in c.ahead[i]
    ensures !c.s.threads[i].pc.InCritical()
  {
  }

  /**
   First come, first served: if p holds a ticket when i sets choosing[i] (move a), then
   i has returned from lock (state b) only if p has run unlock in between.
   */
  lemma {:induction false} FirstComeFirstServed(
      n: nat, sections: nat, schedule: seq<nat>, a: nat, b: nat, p: nat, i: nat) returns (c: nat)
    requires a < b <= |schedule| && i < n && p < n
    requires schedule[a] == i && At(n, sections, schedule, a).threads[i].pc.SectionStart?
    requires At(n, sections, schedule, a).number[p] != 0
    requires At(n, sections, schedule, b).threads[i].pc.InCritical()
    ensures a < c < b && Unlocks(n, sections, schedule, c, p)
  {
    TraceAt(n, sections, schedule, a);
    if forall c: nat | a + 1 <= c < b :: !Unlocks(n, sections, schedule, c, p) {
      StaysAhead(n, sections, schedule, a + 1, b, p, i);
      InvRun(n, sections, schedule[..b]);
      KeptOut(Trace(n, sections, schedule[..b]), i, p);
      assert false;
    }
    c :| a + 1 <= c < b && Unlocks(n, sections, schedule, c, p);
  }

  /** How often p returns from lock in the moves from a to b. */
  ghost function Entries(n: nat, sections: nat, schedule: seq<nat>, a: nat, b: nat, p: nat): nat
    requires a <= b <= |schedule|
    decreases b
  {
    if a == b then 0
    else Entries(n, sections, schedule, a, b - 1, p) + if Returns(n, sections, schedule, b - 1, p) then 1 else 0
  }

  /** Thread i holds a ticket and is still inside lock, in every state from a to b. */
  ghost predicate WaitsInLine(n: nat, sections: nat, schedule: seq<nat>, a: nat, b: nat, i: nat)
    requires i < n
  {
    forall c: nat | a <= c <= b && c <= |schedule| ::
      At(n, sections, schedule, c).threads[i].pc.HasTicket() && !At(n, sections, schedule, c).threads[i].pc.InCritical()
  }

  /** Once p has overtaken i, p is in its section, outside lock, or behind i. */
  ghost predicate HasOvertaken(c: Config, p: nat, i: nat)
    requires p < |c.s.threads| == |c.ahead|
  {
    var pc := c.s.threads[p].pc;
    pc.InCritical() || pc.SectionStart? || pc.Finished? || i in c.ahead[p]
  }

  lemma OvertakenStep(c: Config, t: nat, p: nat, i: nat)
    requires Inv(c) && p < |c.s.threads| && i < |c.s.threads| && p != i
    requires c.s.threads[i].pc.HasTicket() && !c.s.threads[i].pc.InCritical()
    requires HasOvertaken(c, p, i)
    ensures HasOvertaken(Next(c, t), p, i)
    ensures !c.s.threads[p].pc.InCritical() ==> !Next(c, t).s.threads[p].pc.InCritical()
  {
    InvStep(c, t);
    assert c.s.number[i] > 0;
    if i in c.ahead[p] {
      KeepsPlace(c, t, i, p);
      KeptOut(Next(c, t), p, i);
    }
  }

  /** While i waits in line, each other thread returns from lock at most once. */
  lemma {:induction false} OvertakenOnce(n: nat, sections: nat, schedule: seq<nat>, a: nat, b: nat, p: nat, i: nat)
    requires a <= b <= |schedule| && i < n && p < n && p != i
    requires WaitsInLine(n, sections, schedule, a, b, i)
    ensures Entries(n, sections, schedule, a, b, p) <= 1
  {
    var holds := (c: nat) => a <= c <= |schedule| && AtMostOnce(n, sections, schedule, a, c, p, i);
    forall c: nat | a <= c < b ensures Fairness.KeptBy(holds, c) {
      OvertakenOneMove(n, sections, schedule, c, p, i);
    }
    Fairness.Persists(holds, a, b);
  }

  ghost predicate AtMostOnce(n: nat, sections: nat, schedule: seq<nat>, a: nat, c: nat, p: nat, i: nat)
    requires a <= c <= |schedule| && p < n
  {
    var entries := Entries(n, sections, schedule, a, c, p);
    entries == 0 || (entries == 1 && HasOvertakenAt(n, sections, schedule, c, p, i))
  }

  ghost predicate HasOvertakenAt(n: nat, sections: nat, schedule: seq<nat>, b: nat, p: nat, i: nat)
    requires b <= |schedule| && p < n
  {
    HasOvertaken(Trace(n, sections, schedule[..b]), p, i)
  }

  lemma {:induction false} OvertakenOneMove(n: nat, sections: nat, schedule: seq<nat>, b: nat, p: nat, i: nat)
    requires b < |schedule| && i < n && p < n && p != i
    requires At(n, sections, schedule, b).threads[i].pc.HasTicket()
    requires !At(n, sections, schedule, b).threads[i].pc.InCritical()
    ensures HasOvertakenAt(n, sections, schedule, b, p, i) ==>
              HasOvertakenAt(n, sections, schedule, b + 1, p, i) && !Returns(n, sections, schedule, b, p)
    ensures Returns(n, sections, schedule, b, p) ==> HasOvertakenAt(n, sections, schedule, b + 1, p, i)
  {
    TraceAt(n, sections, schedule, b);
    var c := Trace(n, sections, schedule[..b]);
    if HasOvertaken(c, p, i) {
      OvertakenStep(c, schedule[b], p, i);
    }
  }

  /** Bounded bypass: waiting in line, i is overtaken at most n - 1 times in all. */
  lemma {:induction false} BoundedBypass(n: nat, sections: nat, schedule: seq<nat>, a: nat, b: nat, i: nat)
    requires a <= b <= |schedule| && i < n
    requires WaitsInLine(n, sections, schedule, a, b, i)
    ensures Sum(seq(n, p requires 0 <= p < n => Entries(n, sections, schedule, a, b, p))) <= n - 1
  {
    var xs: seq<int> := seq(n, p requires 0 <= p < n => Entries(n, sections, schedule, a, b, p));
    forall p: nat | p < n && p != i ensures xs[p] <= 1 {
      OvertakenOnce(n, sections, schedule, a, b, p, i);
    }
    NoEntryWhileWaiting(n, sections, schedule, a, b, i);
    SumUpdate(xs, i, 1);
    SumBound(xs[i := 1], 1);
  }

  lemma {:induction false} NoEntryWhileWaiting(n: nat, sections: nat, schedule: seq<nat>, a: nat, b: nat, i: nat)
    requires a <= b <= |schedule| && i < n
    requires WaitsInLine(n, sections, schedule, a, b, i)
    ensures Entries(n, sections, schedule, a, b, i) == 0
    decreases b
  {
    if a == b {
    } else {
      NoEntryWhileWaiting(n, sections, schedule, a, b - 1, i);
      if Returns(n, sections, schedule, b - 1, i) {
        ReturnIsCritical(n, sections, schedule, b - 1, i);
      }
    }
  }

  lemma {:induction false} ReturnIsCritical(n: nat, sections: nat, schedule: seq<nat>, b: nat, i: nat)
    requires Returns(n, sections, schedule, b, i)
    ensures At(n, sections, schedule, b + 1).threads[i].pc.InCritical()
  {
    assert schedule[..b + 1][..b] == schedule[..b];
  }

  /** Tickets a thread has written so far. */
  function TicketsOf(me: Thread): int {
    me.done + if me.pc.HasTicket() then 1 else 0
  }

  function TicketCounts(s: State): seq<int> {
    seq(|s.threads|, t requires 0 <= t < |s.threads| => TicketsOf(s.threads[t]))
  }

  function Issued(s: State): int {
    Sum(TicketCounts(s))
  }

  ghost predicate TicketsBounded(s: State)
    requires WellFormed(s)
  {
    forall t: nat | t < |s.threads| ::
      && 0 <= s.number[t] <= Issued(s) && 0 <= s.threads[t].max <= Issued(s)
      && TicketsBoundedFor(s.threads[t], s.sections)
  }

  lemma MoveTickets(s: State, t: nat)
    requires WellFormed(s) && t < |s.threads|
    ensures TicketsOf(Move(s, t).me) == TicketsOf(s.threads[t]) + if s.threads[t].pc.WriteTicket? then 1 else 0
  {
  }

  /** Only the ticket write issues a ticket. */
  lemma IssuedStep(s: State, t: nat)
    requires WellFormed(s) && t < |s.threads|
    ensures Issued(Step(s, t)) == Issued(s) + if s.threads[t].pc.WriteTicket? then 1 else 0
  {
    MoveTickets(s, t);
    var r := Step(s, t);
    assert r.threads == s.threads[t := Move(s, t).me];
    assert TicketCounts(r) == TicketCounts(s)[t := TicketsOf(Move(s, t).me)];
    SumUpdate(TicketCounts(s), t, TicketsOf(Move(s, t).me));
  }

  lemma {:induction false} TicketsBoundedRun(n: nat, sections: nat, schedule: seq<nat>)
    ensures TicketsBounded(Run(n, sections, schedule))
    ensures Run(n, sections, schedule).sections == sections
  {
    if schedule == [] {
      SumConstant(TicketCounts(Initial(n, sections)), 0);
    } else {
      var prefix, t := schedule[..|schedule| - 1], schedule[|schedule| - 1];
      TicketsBoundedRun(n, sections, prefix);
      if t < n {
        TicketsBoundedStep(Run(n, sections, prefix), t);
      }
    }
  }

  lemma TicketsBoundedStep(s: State, t: nat)
    requires WellFormed(s) && TicketsBounded(s) && t < |s.threads|
    ensures TicketsBounded(Step(s, t)) && Step(s, t).sections == s.sections
  {
    IssuedStep(s, t);
    assert TicketsBoundedFor(Move(s, t).me, s.sections);
  }

  predicate TicketsBoundedFor(me: Thread, sections: nat) {
    && (me.pc.InDoorway() || me.pc.HasTicket() ==> me.done < sections)
    && me.done <= sections
  }

  /**
   Every ticket is at most the number of tickets issued, which is at most n * sections;
   the addition that computes a ticket stays within n * sections as well.
   */
  lemma {:induction false} TicketBound(n: nat, sections: nat, schedule: seq<nat>, t: nat)
    requires t < n
    ensures Run(n, sections, schedule).number[t] <= Issued(Run(n, sections, schedule)) <= n * sections
    ensures Run(n, sections, schedule).threads[t].pc.WriteTicket? ==>
              1 + Run(n, sections, schedule).threads[t].max <= n * sections
  {
    TicketsBoundedRun(n, sections, schedule);
    var s := Run(n, sections, schedule);
    var xs := TicketCounts(s);
    SumBound(xs, sections);
    if s.threads[t].pc.WriteTicket? {
      SumUpdate(xs, t, xs[t] + 1);
      SumBound(xs[t := xs[t] + 1], sections);
    }
  }
}
