/** The mutex program of cw9: one method for every step, a driver, and fair termination. */
module MutexThreads {
  import opened Mutex
  import opened Sums
  import opened Fairness

  class MutexProgram {
    const n: nat
    const sections: nat
    const threads: array<Thread>  // the stacks: threads[t] is written by thread t only
    var mutex: Holder
    var num: int

    ghost function View(): State
      reads this, threads
    {
      State(sections, mutex, num, threads[..])
    }

    ghost predicate Valid()
      reads this
    {
      threads.Length == n
    }

    constructor (n: nat, sections: nat)
      ensures Valid() && fresh(threads) && this.n == n && this.sections == sections
      ensures View() == Initial(n, sections)
    {
      this.n, this.sections, this.num, this.mutex := n, sections, 0, Nobody;
      this.threads := new Thread[n](_ => Thread(SectionStart, 0, 0));
      new;
      assert View() == Initial(n, sections);
    }

    /** Lines 100 and 108: the loop head, then lockMutex, which waits while the mutex is held. */
    method LockMutex(t: nat)
      requires Valid() && t < n && threads[t].pc.SectionStart?
      modifies this`mutex, threads
      ensures View() == Step(old(View()), t)
    {
      var me := threads[t];
      if me.done >= sections {
        threads[t] := me.(pc := Finished);
      } else if mutex == Nobody {
        mutex := HeldBy(t);
        threads[t] := me.(pc := Load);
      }
    }

    /** Lines 112 to 115: the load, the increment and the store are three steps. */
    method UpdateCounter(t: nat)
      requires Valid() && t < n && (threads[t].pc.Load? || threads[t].pc.Increment? || threads[t].pc.Store?)
      modifies this`num, threads
      ensures View() == Step(old(View()), t)
    {
      var me := threads[t];
      match me.pc
      case Load => threads[t] := me.(pc := Increment, count := num);
      case Increment => threads[t] := me.(pc := Store, count := me.count + 1);
      case Store =>
        num := me.count;
        threads[t] := me.(pc := Release);
    }

    /** Line 118. */
    method UnlockMutex(t: nat)
      requires Valid() && t < n && threads[t].pc.Release?
      modifies this`mutex, threads
      ensures View() == Step(old(View()), t)
    {
      mutex := Nobody;
      threads[t] := threads[t].(pc := SectionStart, done := threads[t].done + 1);
    }

    method MoveThread(t: nat)
      requires Valid()
      modifies this`mutex, this`num, threads
      ensures View() == Step(old(View()), t)
    {
      if t < n {
        match threads[t].pc
        case SectionStart => LockMutex(t);
        case Load => UpdateCounter(t);
        case Increment => UpdateCounter(t);
        case Store => UpdateCounter(t);
        case Release => UnlockMutex(t);
        case Finished =>
      }
    }
  }

  /** The program under any schedule, with the final check of main. */
  method RunProgram(n: nat, sections: nat, schedule: seq<nat>) returns (program: MutexProgram, succeeded: bool)
    ensures program.View() == Run(n, sections, schedule)
    ensures succeeded <==> program.num == n * sections
    ensures AllFinished(program.View()) ==> succeeded
  {
    program := new MutexProgram(n, sections);
    for j := 0 to |schedule|
      invariant program.Valid() && fresh(program) && fresh(program.threads)
      invariant program.View() == Run(n, sections, schedule[..j])
    {
      program.MoveThread(schedule[j]);
      assert schedule[..j + 1][..j] == schedule[..j];
    }
    assert schedule[..|schedule|] == schedule;
    succeeded := program.num == n * sections;
    if AllFinished(program.View()) {
      FinalCount(n, sections, schedule);
    }
  }

  /** The holder can always move on; if there is none, any unfinished thread can. */
  predicate CanMove(s: State, t: nat) {
    t < |s.threads| && !s.threads[t].pc.Finished? && (s.mutex == Nobody || s.mutex == HeldBy(t))
  }

  /** Moves left to a thread. */
  function ThreadRank(me: Thread, sections: nat): nat {
    var rest: nat := if me.done <= sections then sections - me.done else 0;
    match me.pc
    case SectionStart => 5 * rest + 1
    case Load => 5 * rest
    case Increment => 5 * rest - if rest > 0 then 1 else 0
    case Store => 5 * rest - if rest > 0 then 2 else 0
    case Release => 5 * rest - if rest > 0 then 3 else 0
    case Finished => 0
  }

  function Ranks(s: State): seq<int> {
    seq(|s.threads|, t requires 0 <= t < |s.threads| => ThreadRank(s.threads[t], s.sections))
  }

  function Rank(s: State): nat {
    SumNonNegative(Ranks(s));
    Sum(Ranks(s))
  }

  /**
   Every move lowers the rank by one, except a wait for the mutex or a move of a finished
   thread, which change nothing.
   */
  lemma StepRank(s: State, t: nat)
    requires Inv(s)
    ensures Rank(Step(s, t)) == Rank(s) - 1 || Step(s, t) == s
    ensures CanMove(s, t) ==> Rank(Step(s, t)) == Rank(s) - 1
  {
    if t < |s.threads| {
      assert LocalInv(s, s.threads[t]);
      var after := ThreadRank(Step(s, t).threads[t], s.sections);
      assert Ranks(Step(s, t)) == Ranks(s)[t := after];
      SumUpdate(Ranks(s), t, after);
    }
  }

  /** The moves of a run that change the state. */
  ghost function CountMoves(n: nat, sections: nat, schedule: seq<nat>): nat {
    if schedule == [] then 0
    else
      var prefix, t := schedule[..|schedule| - 1], schedule[|schedule| - 1];
      var s := Run(n, sections, prefix);
      CountMoves(n, sections, prefix) + if Step(s, t) != s then 1 else 0
  }

  lemma {:induction false} MovesCounted(n: nat, sections: nat, schedule: seq<nat>)
    ensures CountMoves(n, sections, schedule) + Rank(Run(n, sections, schedule)) == n * (5 * sections + 1)
  {
    if schedule == [] {
      SumConstant(Ranks(Initial(n, sections)), 5 * sections + 1);
    } else {
      var prefix, t := schedule[..|schedule| - 1], schedule[|schedule| - 1];
      MovesCounted(n, sections, prefix);
      InvRun(n, sections, prefix);
      StepRank(Run(n, sections, prefix), t);
    }
  }

  /**
   All complete runs have the same number of moves that change something: five for a
   section, one for the end of a thread.
   */
  lemma {:induction false} MovesOfRun(n: nat, sections: nat, schedule: seq<nat>)
    requires AllFinished(Run(n, sections, schedule))
    ensures CountMoves(n, sections, schedule) == n * (5 * sections + 1)
  {
    MovesCounted(n, sections, schedule);
    SumConstant(Ranks(Run(n, sections, schedule)), 0);
  }

  ghost function Observe(n: nat, sections: nat, sched: Schedule): Observation {
    Observation(
      (j: nat) => Rank(Run(n, sections, Prefix(sched, j))),
      (j: nat) => AllFinished(Run(n, sections, Prefix(sched, j))),
      (j: nat, t: nat) => CanMove(Run(n, sections, Prefix(sched, j)), t),
      (j: nat, t: nat) => 0)
  }

  /** Every fair schedule brings all threads to their end, with the counter complete. */
  lemma {:induction false} FairRunsFinish(n: nat, sections: nat, sched: Schedule)
    requires Fair(sched, n)
    ensures exists j: nat :: AllFinished(Run(n, sections, Prefix(sched, j)))
                             && Run(n, sections, Prefix(sched, j)).num == n * sections
  {
    var o := Observe(n, sections, sched);
    forall j: nat ensures HasHelper(o, n, j) {
      var s := Run(n, sections, Prefix(sched, j));
      InvRun(n, sections, Prefix(sched, j));
      if !AllFinished(s) {
        var u: nat :| u < n && !s.threads[u].pc.Finished?;
        var t := if s.mutex == Nobody then u else s.mutex.t;
        assert o.helpful(j, t);
      }
    }
    forall j: nat, t: nat | t < n ensures KeepsHelper(o, sched, t, j) {
      InvRun(n, sections, Prefix(sched, j));
      StepRank(Run(n, sections, Prefix(sched, j)), sched(j));
      assert Prefix(sched, j + 1)[..j] == Prefix(sched, j);
    }
    var j := FairRunEnds(o, sched, n, 0);
    assert o.over(j);
    FinalCount(n, sections, Prefix(sched, j));
  }
}
