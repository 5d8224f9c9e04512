/**
 The bakery program of cw10 as a state machine.

 Every read or write of a cell that another thread may access is a step of its own. The
 only exception is the thread's own ticket, read in the waiting condition: a move writes
 no cell of another thread (see Effect), so folding that read into the read of the other
 thread's ticket loses no behaviour. Memory is sequentially consistent.
 */
module Bakery {

  /** Where a thread is. The comments give the lines of cw10/program10.c. */
  datatype PC =
    | SectionStart               // 164: loop head of the sections; next is choosing[t] = 1 (124)
    | ScanFirst                  // 110: max = number[0]
    | ScanCompare(m: nat)        // 114: number[m] > max
    | ScanTake(m: nat)           // 116: max = number[m], a second read
    | WriteTicket                // 125: number[t] = 1 + max
    | ClearChoosing              // 126: choosing[t] = 0
    | AwaitChoosing(i: nat)      // 133: while (choosing[i])
    | TestZero(i: nat)           // 138: number[i] != 0
    | TestLess(i: nat)           // 138: number[i] < number[t]
    | TestTie(i: nat)            // 138: number[i] == number[t] && i < t
    | Load                       // 182: count = num
    | Increment                  // 185: count++
    | Store                      // 191: num = count
    | Release                    // 148: number[t] = 0
    | Finished                   // 207
  {
    /** choosing[t] is set. */
    predicate InDoorway() {
      ScanFirst? || ScanCompare? || ScanTake? || WriteTicket? || ClearChoosing?
    }

    /** lock has returned and unlock has not yet written. */
    predicate InCritical() {
      Load? || Increment? || Store? || Release?
    }

    predicate Waiting() {
      AwaitChoosing? || Testing()
    }

    predicate Testing() {
      TestZero? || TestLess? || TestTie?
    }

    predicate HasTicket() {
      ClearChoosing? || Waiting() || InCritical()
    }

    /** In the current call of lock, choosing[j] == 0 has been read. */
    predicate PastChoosing(j: nat) {
      InCritical() || (Waiting() && j < i) || (Testing() && j == i)
    }

    /** In the current call of lock, both waits for j are over. */
    predicate PastTests(j: nat) {
      InCritical() || (Waiting() && j < i)
    }
  }

  /** The locals of one thread; done counts its completed sections. */
  datatype Thread = Thread(pc: PC, max: int, count: int, done: nat)

  datatype State = State(
    sections: nat,
    choosing: seq<int>,
    number: seq<int>,
    num: int,
    threads: seq<Thread>)

  /** The loop head of lines 129 to 143 with loop variable i, for thread t of n. */
  function Advance(t: nat, i: nat, n: nat): PC {
    var j := if i == t then i + 1 else i;
    if j >= n then Load else AwaitChoosing(j)
  }

  /** The loop head of line 112 with loop variable m. */
  function ScanNext(m: nat, n: nat): PC {
    if m >= n then WriteTicket else ScanCompare(m)
  }

  predicate PCWellFormed(pc: PC, t: nat, n: nat) {
    && ((pc.ScanCompare? || pc.ScanTake?) ==> pc.m < n)
    && (pc.Waiting() ==> pc.i < n && pc.i != t)
  }

  predicate WellFormed(s: State) {
    && |s.choosing| == |s.number| == |s.threads|
    && forall t | 0 <= t < |s.threads| :: PCWellFormed(s.threads[t].pc, t, |s.threads|)
  }

  function Initial(n: nat, sections: nat): (s: State)
    ensures WellFormed(s)
  {
    State(sections, seq(n, _ => 0), seq(n, _ => 0), 0, seq(n, _ => Thread(SectionStart, 0, 0, 0)))
  }

  /** (ticket, id) order of the waiting condition: thread i goes before thread t. */
  predicate Before(ticketI: int, i: nat, ticketT: int, t: nat) {
    ticketI < ticketT || (ticketI == ticketT && i < t)
  }

  /** The cells a move of thread t may write: its locals, its own cells and the counter. */
  datatype Effect = Effect(me: Thread, choosing: int, number: int, num: int)

  /** The next move of thread t. */
  function Move(s: State, t: nat): Effect
    requires WellFormed(s) && t < |s.threads|
  {
    var n := |s.threads|;
    var me := s.threads[t];
    var here := Effect(me, s.choosing[t], s.number[t], s.num);
    match me.pc
    case SectionStart =>
      if me.done < s.sections then here.(choosing := 1, me := me.(pc := ScanFirst))
      else here.(me := me.(pc := Finished))
    case ScanFirst =>
      here.(me := me.(pc := ScanNext(1, n), max := s.number[0]))
    case ScanCompare(m) =>
      here.(me := me.(pc := if s.number[m] > me.max then ScanTake(m) else ScanNext(m + 1, n)))
    case ScanTake(m) =>
      here.(me := me.(pc := ScanNext(m + 1, n), max := s.number[m]))
    case WriteTicket =>
      here.(number := 1 + me.max, me := me.(pc := ClearChoosing))
    case ClearChoosing =>
      here.(choosing := 0, me := me.(pc := Advance(t, 0, n)))
    case AwaitChoosing(i) =>
      here.(me := me.(pc := if s.choosing[i] != 0 then AwaitChoosing(i) else TestZero(i)))
    case TestZero(i) =>
      here.(me := me.(pc := if s.number[i] != 0 then TestLess(i) else Advance(t, i + 1, n)))
    case TestLess(i) =>
      here.(me := me.(pc := if s.number[i] < s.number[t] then TestZero(i) else TestTie(i)))
    case TestTie(i) =>
      here.(me := me.(pc := if s.number[i] == s.number[t] && i < t then TestZero(i) else Advance(t, i + 1, n)))
    case Load =>
      here.(me := me.(pc := Increment, count := s.num))
    case Increment =>
      here.(me := me.(pc := Store, count := me.count + 1))
    case Store =>
      here.(num := me.count, me := me.(pc := Release))
    case Release =>
      here.(number := 0, me := me.(pc := SectionStart, done := me.done + 1))
    case Finished => here
  }

  /** The whole state after a move of thread t; a name that is no thread does nothing. */
  function Step(s: State, t: nat): (r: State)
    requires WellFormed(s)
    ensures WellFormed(r) && |r.threads| == |s.threads|
  {
    if t >= |s.threads| then s else
    var e := Move(s, t);
    State(s.sections, s.choosing[t := e.choosing], s.number[t := e.number], e.num, s.threads[t := e.me])
  }

  /** The state after the moves of a schedule, from the start of the program. */
  function Run(n: nat, sections: nat, schedule: seq<nat>): (s: State)
    ensures WellFormed(s) && |s.threads| == n
  {
    if schedule == [] then Initial(n, sections)
    else Step(Run(n, sections, schedule[..|schedule| - 1]), schedule[|schedule| - 1])
  }

  predicate AllFinished(s: State) {
    forall t | 0 <= t < |s.threads| :: s.threads[t].pc.Finished?
  }
}
