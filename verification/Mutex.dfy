/**
 The mutex program of cw9 as a state machine, and its counter.

 It is also the program that the bakery program of cw10 refines. The mutex is its POSIX
 abstraction: at most one holder, and an attempt to lock a held mutex waits.
 */
module Mutex {
  import opened Sums

  /** Where a thread is. The comments give the lines of cw9/program9.c. */
  datatype PC =
    | SectionStart  // 100, 108: loop head; next is lockMutex
    | Load          // 112: count = number
    | Increment     // 113: count++
    | Store         // 115: number = count
    | Release       // 118: unlockMutex
    | Finished      // 125
  {
    predicate InCritical() {
      Load? || Increment? || Store? || Release?
    }
  }

  datatype Holder = Nobody | HeldBy(t: nat)

  datatype Thread = Thread(pc: PC, count: int, done: nat)

  datatype State = State(sections: nat, mutex: Holder, num: int, threads: seq<Thread>)

  function Initial(n: nat, sections: nat): State {
    State(sections, Nobody, 0, seq(n, _ => Thread(SectionStart, 0, 0)))
  }

  /** The next move of thread t; a thread that finds the mutex held stays where it is. */
  function Step(s: State, t: nat): (r: State)
    ensures |r.threads| == |s.threads| && r.sections == s.sections
  {
    if t >= |s.threads| then s else
    var me := s.threads[t];
    match me.pc
    case SectionStart =>
      if me.done >= s.sections then s.(threads := s.threads[t := me.(pc := Finished)])
      else if s.mutex != Nobody then s
      else s.(mutex := HeldBy(t), threads := s.threads[t := me.(pc := Load)])
    case Load =>
      s.(threads := s.threads[t := me.(pc := Increment, count := s.num)])
    case Increment =>
      s.(threads := s.threads[t := me.(pc := Store, count := me.count + 1)])
    case Store =>
      s.(num := me.count, threads := s.threads[t := me.(pc := Release)])
    case Release =>
      s.(mutex := Nobody, threads := s.threads[t := me.(pc := SectionStart, done := me.done + 1)])
    case Finished => s
  }

  function Run(n: nat, sections: nat, schedule: seq<nat>): (s: State)
    ensures |s.threads| == n && s.sections == sections
  {
    if schedule == [] then Initial(n, sections)
    else Step(Run(n, sections, schedule[..|schedule| - 1]), schedule[|schedule| - 1])
  }

  predicate AllFinished(s: State) {
    forall t | 0 <= t < |s.threads| :: s.threads[t].pc.Finished?
  }

  /** The values that a run stores in the counter, in order. */
  function Stores(n: nat, sections: nat, schedule: seq<nat>): seq<int> {
    if schedule == [] then []
    else
      var prefix, t := schedule[..|schedule| - 1], schedule[|schedule| - 1];
      var s := Run(n, sections, prefix);
      var stores := Stores(n, sections, prefix);
      if t < n && s.threads[t].pc.Store? then stores + [s.threads[t].count] else stores
  }

  /** Increments a thread has stored. */
  function StoredBy(me: Thread): int {
    me.done + if me.pc.Release? then 1 else 0
  }

  function StoredCounts(s: State): seq<int> {
    seq(|s.threads|, t requires 0 <= t < |s.threads| => StoredBy(s.threads[t]))
  }

  ghost predicate LocalInv(s: State, me: Thread) {
    && me.done <= s.sections
    && (me.pc.InCritical() ==> me.done < s.sections)
    && (me.pc.Finished? ==> me.done == s.sections)
    && (me.pc.Increment? ==> me.count == s.num)
    && (me.pc.Store? ==> me.count == s.num + 1)
  }

  /** The mutex is held by exactly the thread inside, and num counts the stored increments. */
  ghost predicate Inv(s: State) {
    && (forall t: nat | t < |s.threads| :: s.threads[t].pc.InCritical() <==> s.mutex == HeldBy(t))
    && (s.mutex.HeldBy? ==> s.mutex.t < |s.threads|)
    && (forall t: nat | t < |s.threads| :: LocalInv(s, s.threads[t]))
    && s.num == Sum(StoredCounts(s))
  }

  lemma StoredStep(s: State, t: nat)
    requires t < |s.threads|
    ensures Sum(StoredCounts(Step(s, t))) == Sum(StoredCounts(s)) + if s.threads[t].pc.Store? then 1 else 0
  {
    var me := Step(s, t).threads[t];
    assert StoredCounts(Step(s, t)) == StoredCounts(s)[t := StoredBy(me)];
    SumUpdate(StoredCounts(s), t, StoredBy(me));
  }

  lemma InvStep(s: State, t: nat)
    requires Inv(s)
    ensures Inv(Step(s, t))
  {
    if t < |s.threads| {
      StoredStep(s, t);
      assert LocalInv(s, s.threads[t]);
      var r := Step(s, t);
      forall u: nat | u < |r.threads| ensures LocalInv(r, r.threads[u]) {
        assert LocalInv(s, s.threads[u]);
      }
    }
  }

  lemma {:induction false} InvRun(n: nat, sections: nat, schedule: seq<nat>)
    ensures Inv(Run(n, sections, schedule))
  {
    if schedule == [] {
      SumConstant(StoredCounts(Initial(n, sections)), 0);
    } else {
      InvRun(n, sections, schedule[..|schedule| - 1]);
      InvStep(Run(n, sections, schedule[..|schedule| - 1]), schedule[|schedule| - 1]);
    }
  }

  lemma {:induction false} MutualExclusion(n: nat, sections: nat, schedule: seq<nat>, p: nat, q: nat)
    requires p < n && q < n
    requires Run(n, sections, schedule).threads[p].pc.InCritical()
    requires Run(n, sections, schedule).threads[q].pc.InCritical()
    ensures p == q
  {
    InvRun(n, sections, schedule);
  }

  /** No lost update: every run stores 1, 2, 3, ... and the counter is the last of these. */
  lemma {:induction false} NoLostUpdate(n: nat, sections: nat, schedule: seq<nat>)
    ensures |Stores(n, sections, schedule)| == Run(n, sections, schedule).num
    ensures forall j | 0 <= j < |Stores(n, sections, schedule)| :: Stores(n, sections, schedule)[j] == j + 1
    ensures Run(n, sections, schedule).num == Sum(StoredCounts(Run(n, sections, schedule)))
  {
    InvRun(n, sections, schedule);
    if schedule == [] {
    } else {
      var prefix, t := schedule[..|schedule| - 1], schedule[|schedule| - 1];
      NoLostUpdate(n, sections, prefix);
      InvRun(n, sections, prefix);
      if t < n {
        assert LocalInv(Run(n, sections, prefix), Run(n, sections, prefix).threads[t]);
      }
    }
  }

  /** After all joins the counter is threads times sections. */
  lemma {:induction false} FinalCount(n: nat, sections: nat, schedule: seq<nat>)
    requires AllFinished(Run(n, sections, schedule))
    ensures Run(n, sections, schedule).num == n * sections
  {
    InvRun(n, sections, schedule);
    var s := Run(n, sections, schedule);
    forall t: nat | t < n ensures StoredCounts(s)[t] == sections {
      assert LocalInv(s, s.threads[t]);
    }
    SumConstant(StoredCounts(s), sections);
  }
}
