/**
 The bakery program of cw10 on its shared arrays: one method for every atomic step, and
 a driver that lets an arbitrary schedule interleave them.

 Each method leaves the state that Bakery.Step describes, so what is proved there of
 every run holds of the arrays.
 */
module BakeryThreads {
  import opened Bakery
  import Refinement

  class BakeryProgram {
    const n: nat
    const sections: nat
    const choosing: array<int>
    const number: array<int>
    const threads: array<Thread>  // the stacks: threads[t] is written by thread t only
    var num: int

    ghost function View(): State
      reads this, choosing, number, threads
    {
      State(sections, choosing[..], number[..], num, threads[..])
    }

    ghost predicate Valid()
      reads this, choosing, number, threads
    {
      && choosing.Length == number.Length == threads.Length == n
      && choosing != number
      && WellFormed(View())
    }

    constructor (n: nat, sections: nat)
      ensures Valid() && fresh(choosing) && fresh(number) && fresh(threads)
      ensures this.n == n && this.sections == sections && View() == Initial(n, sections)
    {
      this.n, this.sections, this.num := n, sections, 0;
      this.choosing := new int[n](_ => 0);
      this.number := new int[n](_ => 0);
      this.threads := new Thread[n](_ => Thread(SectionStart, 0, 0, 0));
      new;
      assert View() == Initial(n, sections);
    }

    /**
     Lines 108 to 120, run without interruption: the largest ticket. What is left of this
     when other threads move between the reads is BakeryProperties.ScanMissesNoStandingTicket.
     */
    method MaxNumber() returns (max: int)
      requires Valid() && n > 0
      ensures forall p: nat | p < n :: number[p] <= max
      ensures exists p: nat :: p < n && number[p] == max
    {
      max := number[0];
      for i := 1 to n
        invariant forall p: nat | p < i :: number[p] <= max
        invariant exists p: nat :: p < i && number[p] == max
      {
        if number[i] > max {
          max := number[i];
        }
      }
    }

    /** Lines 164 and 124: the loop head, then choosing[t] = 1. */
    method BeginSection(t: nat)
      requires Valid() && t < n && threads[t].pc.SectionStart?
      modifies choosing, threads
      ensures Valid() && View() == Step(old(View()), t)
    {
      var me := threads[t];
      if me.done < sections {
        choosing[t] := 1;
        threads[t] := me.(pc := ScanFirst);
      } else {
        threads[t] := me.(pc := Finished);
      }
    }

    /** Line 110. */
    method ReadFirst(t: nat)
      requires Valid() && t < n && threads[t].pc.ScanFirst?
      modifies threads
      ensures Valid() && View() == Step(old(View()), t)
    {
      var me := threads[t];
      threads[t] := me.(pc := ScanNext(1, n), max := number[0]);
    }

    /** Line 114: the first read of number[m]. */
    method CompareNext(t: nat)
      requires Valid() && t < n && threads[t].pc.ScanCompare?
      modifies threads
      ensures Valid() && View() == Step(old(View()), t)
    {
      var me := threads[t];
      var m := me.pc.m;
      if number[m] > me.max {
        threads[t] := me.(pc := ScanTake(m));
      } else {
        threads[t] := me.(pc := ScanNext(m + 1, n));
      }
    }

    /** Line 116: the second read of number[m]. */
    method TakeNext(t: nat)
      requires Valid() && t < n && threads[t].pc.ScanTake?
      modifies threads
      ensures Valid() && View() == Step(old(View()), t)
    {
      var me := threads[t];
      var m := me.pc.m;
      threads[t] := me.(pc := ScanNext(m + 1, n), max := number[m]);
    }

    /** Line 125. */
    method PublishTicket(t: nat)
      requires Valid() && t < n && threads[t].pc.WriteTicket?
      modifies number, threads
      ensures Valid() && View() == Step(old(View()), t)
    {
      var me := threads[t];
      number[t] := 1 + me.max;
      threads[t] := me.(pc := ClearChoosing);
    }

    /** Line 126. */
    method LeaveDoorway(t: nat)
      requires Valid() && t < n && threads[t].pc.ClearChoosing?
      modifies choosing, threads
      ensures Valid() && View() == Step(old(View()), t)
    {
      var me := threads[t];
      choosing[t] := 0;
      threads[t] := me.(pc := Advance(t, 0, n));
    }

    /** Line 133. */
    method CheckChoosing(t: nat)
      requires Valid() && t < n && threads[t].pc.AwaitChoosing?
      modifies threads
      ensures Valid() && View() == Step(old(View()), t)
    {
      var me := threads[t];
      var i := me.pc.i;
      if choosing[i] == 0 {
        threads[t] := me.(pc := TestZero(i));
      }
    }

    /** Line 138, first operand. */
    method CheckZero(t: nat)
      requires Valid() && t < n && threads[t].pc.TestZero?
      modifies threads
      ensures Valid() && View() == Step(old(View()), t)
    {
      var me := threads[t];
      var i := me.pc.i;
      if number[i] != 0 {
        threads[t] := me.(pc := TestLess(i));
      } else {
        threads[t] := me.(pc := Advance(t, i + 1, n));
      }
    }

    /** Line 138, second operand. */
    method CheckLess(t: nat)
      requires Valid() && t < n && threads[t].pc.TestLess?
      modifies threads
      ensures Valid() && View() == Step(old(View()), t)
    {
      var me := threads[t];
      var i := me.pc.i;
      if number[i] < number[t] {
        threads[t] := me.(pc := TestZero(i));
      } else {
        threads[t] := me.(pc := TestTie(i));
      }
    }

    /** Line 138, third operand. */
    method CheckTie(t: nat)
      requires Valid() && t < n && threads[t].pc.TestTie?
      modifies threads
      ensures Valid() && View() == Step(old(View()), t)
    {
      var me := threads[t];
      var i := me.pc.i;
      if number[i] == number[t] && i < t {
        threads[t] := me.(pc := TestZero(i));
      } else {
        threads[t] := me.(pc := Advance(t, i + 1, n));
      }
    }

    /** Line 182. */
    method LoadCount(t: nat)
      requires Valid() && t < n && threads[t].pc.Load?
      modifies threads
      ensures Valid() && View() == Step(old(View()), t)
    {
      var me := threads[t];
      threads[t] := me.(pc := Increment, count := num);
    }

    /** Line 185. */
    method IncrementCount(t: nat)
      requires Valid() && t < n && threads[t].pc.Increment?
      modifies threads
      ensures Valid() && View() == Step(old(View()), t)
    {
      var me := threads[t];
      threads[t] := me.(pc := Store, count := me.count + 1);
    }

    /** Line 191. */
    method StoreCount(t: nat)
      requires Valid() && t < n && threads[t].pc.Store?
      modifies this`num, threads
      ensures Valid() && View() == Step(old(View()), t)
    {
      var me := threads[t];
      num := me.count;
      threads[t] := me.(pc := Release);
    }

    /** Line 148. */
    method Unlock(t: nat)
      requires Valid() && t < n && threads[t].pc.Release?
      modifies number, threads
      ensures Valid() && View() == Step(old(View()), t)
    {
      var me := threads[t];
      number[t] := 0;
      threads[t] := me.(pc := SectionStart, done := me.done + 1);
    }

    /** Thread t makes its next atomic step, whatever it is. */
    method MoveThread(t: nat)
      requires Valid()
      modifies this`num, choosing, number, threads
      ensures Valid() && View() == Step(old(View()), t)
    {
      if t < n {
        match threads[t].pc
        case SectionStart => BeginSection(t);
        case ScanFirst => ReadFirst(t);
        case ScanCompare(_) => CompareNext(t);
        case ScanTake(_) => TakeNext(t);
        case WriteTicket => PublishTicket(t);
        case ClearChoosing => LeaveDoorway(t);
        case AwaitChoosing(_) => CheckChoosing(t);
        case TestZero(_) => CheckZero(t);
        case TestLess(_) => CheckLess(t);
        case TestTie(_) => CheckTie(t);
        case Load => LoadCount(t);
        case Increment => IncrementCount(t);
        case Store => StoreCount(t);
        case Release => Unlock(t);
        case Finished => assert threads[..] == threads[..][t := threads[t]];
      }
    }
  }

  /**
   The program under a schedule that the environment picks. The final check of main
   succeeds whenever all threads have been joined.
   */
  method RunProgram(n: nat, sections: nat, schedule: seq<nat>) returns (program: BakeryProgram, succeeded: bool)
    ensures program.Valid() && program.View() == Run(n, sections, schedule)
    ensures succeeded <==> program.num == n * sections
    ensures AllFinished(program.View()) ==> succeeded
  {
    program := new BakeryProgram(n, sections);
    for j := 0 to |schedule|
      invariant program.Valid() && fresh(program) && program.n == n && program.sections == sections
      invariant fresh(program.choosing) && fresh(program.number) && fresh(program.threads)
      invariant program.View() == Run(n, sections, schedule[..j])
    {
      program.MoveThread(schedule[j]);
      assert schedule[..j + 1][..j] == schedule[..j];
    }
    assert schedule[..|schedule|] == schedule;
    succeeded := program.num == n * sections;
    if AllFinished(program.View()) {
      Refinement.FinalCount(n, sections, schedule);
    }
  }
}
