/** What the file counter guarantees over every run, and its termination. */
module FileCounterProperties {
  import opened Decimal
  import opened FileCounter
  import opened Sums
  import opened Fairness

  function CriticalFlags(s: State): seq<int> {
    seq(|s.processes|, t requires 0 <= t < |s.processes| => if s.processes[t].pc.InCritical() then 1 else 0)
  }

  lemma {:induction false} OneFlag(flags: seq<int>, t: nat)
    requires t < |flags| && flags[t] == 1 && forall u | 0 <= u < |flags| && u != t :: flags[u] == 0
    ensures Sum(flags) == 1
  {
    SumUpdate(flags, t, 0);
    SumConstant(flags[t := 0], 0);
  }

  /** The semaphore and the processes between wait and post always make one. */
  lemma {:induction false} SemaphoreConserved(n: nat, sections: nat, schedule: seq<nat>)
    requires n * sections <= INT_MAX
    ensures Run(n, sections, schedule).sem + Sum(CriticalFlags(Run(n, sections, schedule))) == 1
  {
    InvRun(n, sections, schedule);
    var s := Run(n, sections, schedule);
    if s.sem == 0 {
      var t: nat :| t < n && s.processes[t].pc.InCritical();
      OneFlag(CriticalFlags(s), t);
    } else {
      SumConstant(CriticalFlags(s), 0);
    }
  }

  /** Outside the critical section the file is the number of completed increments in decimal notation. */
  lemma {:induction false} FileCountsIncrements(n: nat, sections: nat, schedule: seq<nat>)
    requires n * sections <= INT_MAX && Run(n, sections, schedule).sem == 1
    ensures Reads(Run(n, sections, schedule).file, Completed(Run(n, sections, schedule)))
    ensures Atoi(Run(n, sections, schedule).file) == Completed(Run(n, sections, schedule))
  {
    InvRun(n, sections, schedule);
    var s := Run(n, sections, schedule);
    if n > 0 {
      CompletedBound(s, 0);
    }
    ReadsBack(s.file, Completed(s));
  }

  /**
   No process reads the truncated file, so none leaves the loop without a post; the
   bytes read and the text printed fit the buffer with their NUL, and the number printed
   is one more than the number read, in decimal notation, and fits an int.
   */
  lemma {:induction false} NoEarlyExit(n: nat, sections: nat, schedule: seq<nat>, t: nat)
    requires n * sections <= INT_MAX && t < n
    ensures var s, me := Run(n, sections, schedule), Run(n, sections, schedule).processes[t];
            && !me.pc.LeftLoop?
            && (me.pc.Read? ==> 0 < |s.file| <= 10 < BUFFER)
            && (me.pc.Compute? ==> Atoi(me.buffer) == Completed(s) < INT_MAX)
            && (me.pc.Truncate? || me.pc.Write? ==> IsDecimal(me.buffer, Completed(s) + 1) && |me.buffer| <= 10)
  {
    InvRun(n, sections, schedule);
    var s := Run(n, sections, schedule);
    var me := s.processes[t];
    assert LocalInv(me, s.file, Completed(s), sections);
    CompletedBound(s, t);
    if me.pc.Read? || me.pc.Compute? {
      ReadsBack(s.file, Completed(s));
    } else if me.pc.Truncate? || me.pc.Write? {
      DecimalLength(me.buffer, Completed(s) + 1);
    }
  }

  /** After all waits the file is processes times sections in decimal notation. */
  lemma {:induction false} FinalFile(n: nat, sections: nat, schedule: seq<nat>)
    requires n * sections <= INT_MAX && AllFinished(Run(n, sections, schedule))
    ensures Reads(Run(n, sections, schedule).file, n * sections)
  {
    InvRun(n, sections, schedule);
    var s := Run(n, sections, schedule);
    forall t: nat | t < n ensures DoneCounts(s)[t] == sections && !s.processes[t].pc.InCritical() {
      assert LocalInv(s.processes[t], s.file, Completed(s), sections);
    }
    SumConstant(DoneCounts(s), sections);
  }

  /**
   The final check of the parent, cw6/multipler.c:147-165, reads the file into ten bytes
   and stores a NUL behind them: that store is inside the buffer if and only if the final
   number is below 10^9. If it is inside, the check succeeds.
   */
  lemma {:induction false} FinalCheck(n: nat, sections: nat, schedule: seq<nat>)
    requires n * sections <= INT_MAX && AllFinished(Run(n, sections, schedule))
    ensures var text := ReadInto(Run(n, sections, schedule).file, CHECK_BUFFER);
            && text != []
            && (|text| < CHECK_BUFFER <==> n * sections < 1_000_000_000)
            && Atoi(text) == n * sections
  {
    FinalFile(n, sections, schedule);
    ReadsBack(Run(n, sections, schedule).file, n * sections);
    if n * sections != 0 {
      PrintIsDecimal(Run(n, sections, schedule).file, n * sections);
    }
    assert Pow10(9) == 1_000_000_000;
    DigitsLength(n * sections, 9);
  }

  /** How the check of the parent ends: OutOfBounds is the NUL store behind a full buffer, undefined in C. */
  datatype CheckOutcome = EmptyFile | OutOfBounds | Succeeded | Failed

  /** cw6/multipler.c:147-165 */
  function Check(file: string, product: int): CheckOutcome {
    var text := ReadInto(file, CHECK_BUFFER);
    if text == [] then EmptyFile
    else if |text| == CHECK_BUFFER then OutOfBounds
    else if Atoi(text) == product then Succeeded
    else Failed
  }

  /** The holder of the semaphore can always move on; if there is none, any unfinished process can. */
  predicate CanMove(s: State, t: nat) {
    t < |s.processes| && !s.processes[t].pc.Finished? && (s.sem == 1 || s.processes[t].pc.InCritical())
  }

  /** Steps left to a process. */
  function ProcessRank(me: Process, sections: nat): nat {
    var rest: nat := if me.done < sections then sections - me.done - 1 else 0;
    match me.pc
    case SectionStart => if me.done < sections then 6 * rest + 7 else 1
    case Read => 6 * rest + 6
    case Compute => 6 * rest + 5
    case Truncate => 6 * rest + 4
    case Write => 6 * rest + 3
    case Post => 6 * rest + 2
    case Finished => 0
    case LeftLoop => 0
  }

  function Ranks(s: State): seq<int> {
    seq(|s.processes|, t requires 0 <= t < |s.processes| => ProcessRank(s.processes[t], s.sections))
  }

  function Rank(s: State): nat {
    SumNonNegative(Ranks(s));
    Sum(Ranks(s))
  }

  lemma OwnRank(s: State, t: nat)
    requires t < |s.processes| && LocalInv(s.processes[t], s.file, Completed(s), s.sections) && s.sem <= 1
    ensures var before, after := s.processes[t], Step(s, t).processes[t];
            && (Step(s, t) == s || ProcessRank(after, s.sections) == ProcessRank(before, s.sections) - 1)
            && (CanMove(s, t) ==> ProcessRank(after, s.sections) == ProcessRank(before, s.sections) - 1)
  {
  }

  /**
   Every step lowers the rank by one, except a wait for the semaphore or a step of a finished
   process, which change nothing.
   */
  lemma StepRank(s: State, t: nat)
    requires Inv(s)
    ensures Rank(Step(s, t)) == Rank(s) - 1 || Step(s, t) == s
    ensures CanMove(s, t) ==> Rank(Step(s, t)) == Rank(s) - 1
  {
    if t < |s.processes| {
      OwnRank(s, t);
      var r := Step(s, t);
      var after := ProcessRank(r.processes[t], s.sections);
      assert Ranks(r) == Ranks(s)[t := after];
      SumUpdate(Ranks(s), t, after);
    }
  }

  /** The steps of a run that change the state. */
  ghost function CountSteps(n: nat, sections: nat, schedule: seq<nat>): nat {
    if schedule == [] then 0
    else
      var prefix, t := schedule[..|schedule| - 1], schedule[|schedule| - 1];
      var s := Run(n, sections, prefix);
      CountSteps(n, sections, prefix) + if Step(s, t) != s then 1 else 0
  }

  lemma {:induction false} StepsCounted(n: nat, sections: nat, schedule: seq<nat>)
    requires n * sections <= INT_MAX
    ensures CountSteps(n, sections, schedule) + Rank(Run(n, sections, schedule)) == n * (6 * sections + 1)
  {
    if schedule == [] {
      SumConstant(Ranks(Initial(n, sections)), 6 * sections + 1);
    } else {
      var prefix, t := schedule[..|schedule| - 1], schedule[|schedule| - 1];
      StepsCounted(n, sections, prefix);
      InvRun(n, sections, prefix);
      StepRank(Run(n, sections, prefix), t);
    }
  }

  /**
   All complete runs have the same number of steps that change something: six for a
   section, one for the end of a process.
   */
  lemma {:induction false} StepsOfRun(n: nat, sections: nat, schedule: seq<nat>)
    requires n * sections <= INT_MAX && AllFinished(Run(n, sections, schedule))
    ensures CountSteps(n, sections, schedule) == n * (6 * sections + 1)
  {
    StepsCounted(n, sections, schedule);
    SumConstant(Ranks(Run(n, sections, schedule)), 0);
  }

  ghost function Observe(n: nat, sections: nat, sched: Schedule): Observation {
    Observation(
      (j: nat) => Rank(Run(n, sections, Prefix(sched, j))),
      (j: nat) => AllFinished(Run(n, sections, Prefix(sched, j))),
      (j: nat, t: nat) => CanMove(Run(n, sections, Prefix(sched, j)), t),
      (j: nat, t: nat) => 0)
  }

  /** Under every fair schedule all processes finish all their sections, and the file holds the product. */
  lemma {:induction false} FairRunsFinish(n: nat, sections: nat, sched: Schedule)
    requires n * sections <= INT_MAX && Fair(sched, n)
    ensures exists j: nat :: AllFinished(Run(n, sections, Prefix(sched, j)))
                             && Reads(Run(n, sections, Prefix(sched, j)).file, n * sections)
  {
    var o := Observe(n, sections, sched);
    forall j: nat ensures HasHelper(o, n, j) {
      var s := Run(n, sections, Prefix(sched, j));
      InvRun(n, sections, Prefix(sched, j));
      if !AllFinished(s) {
        var t: nat :| t < n && !s.processes[t].pc.Finished?;
        if s.sem == 0 {
          t :| t < n && s.processes[t].pc.InCritical();
        }
        assert o.helpful(j, t);
      }
    }
    forall j: nat, t: nat | t < n ensures KeepsHelper(o, sched, t, j) {
      InvRun(n, sections, Prefix(sched, j));
      StepRank(Run(n, sections, Prefix(sched, j)), sched(j));
      assert Prefix(sched, j + 1)[..j] == Prefix(sched, j);
    }
    var j := FairRunEnds(o, sched, n, 0);
    assert o.over(j);
    FinalFile(n, sections, Prefix(sched, j));
  }

  /**
   Failing inputs are reached: for every number of processes and sections whose product
   has ten digits there is a finished run in which the check stores its NUL behind its
   buffer.
   */
  lemma {:induction false} CheckRunsOutOfBounds(n: nat, sections: nat) returns (schedule: seq<nat>)
    requires 1_000_000_000 <= n * sections <= INT_MAX
    ensures AllFinished(Run(n, sections, schedule))
    ensures |ReadInto(Run(n, sections, schedule).file, CHECK_BUFFER)| == CHECK_BUFFER
    ensures Check(Run(n, sections, schedule).file, n * sections) == OutOfBounds
  {
    var sched: Schedule := (j: nat) => j % n;
    RoundRobinIsFair(n);
    FairRunsFinish(n, sections, sched);
    var j: nat :| AllFinished(Run(n, sections, Prefix(sched, j)));
    schedule := Prefix(sched, j);
    FinalCheck(n, sections, schedule);
  }
}
