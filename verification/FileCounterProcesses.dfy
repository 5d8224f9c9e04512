/** The file counter of cw6: one method for every step, a driver, and the check of the parent. */
module FileCounterProcesses {
  import opened Decimal
  import opened FileCounter
  import opened FileCounterProperties

  class CounterProgram {
    const n: nat
    const sections: nat
    const processes: array<Process>  // the locals of each process, written by it only
    var file: string
    var sem: nat

    ghost function View(): State
      reads this, processes
    {
      State(sections, file, sem, processes[..])
    }

    /** cw6/multipler.c:68-110 */
    constructor (n: nat, sections: nat)
      ensures processes.Length == n && fresh(processes) && this.n == n && this.sections == sections
      ensures View() == Initial(n, sections)
    {
      this.n, this.sections, this.file, this.sem := n, sections, ['0', 0 as char], 1;
      this.processes := new Process[n](_ => Process(SectionStart, [], 0));
      new;
      assert View() == Initial(n, sections);
    }

    /** Lines 47 and 56: the loop head, then waitSem, which waits while the semaphore is 0. */
    method WaitSem(t: nat)
      requires processes.Length == n && t < n && processes[t].pc.SectionStart?
      modifies this`sem, processes
      ensures View() == Step(old(View()), t)
    {
      var me := processes[t];
      if me.done >= sections {
        processes[t] := me.(pc := Finished);
      } else if sem > 0 {
        sem := sem - 1;
        processes[t] := me.(pc := Read);
      }
    }

    /** Lines 62 to 92: read; an empty file ends the loop. */
    method ReadFile(t: nat)
      requires processes.Length == n && t < n && processes[t].pc.Read?
      modifies processes
      ensures View() == Step(old(View()), t)
    {
      var me := processes[t];
      if file == [] {
        processes[t] := me.(pc := LeftLoop);
      } else {
        processes[t] := me.(pc := Compute, buffer := ReadInto(file, BUFFER));
      }
    }

    /** Lines 101 to 105. */
    method ComputeNext(t: nat)
      requires processes.Length == n && t < n && processes[t].pc.Compute?
      modifies processes
      ensures View() == Step(old(View()), t)
    {
      var me := processes[t];
      var number := Atoi(me.buffer);
      number := number + 1;
      processes[t] := me.(pc := Truncate, buffer := Print(number));
    }

    /** Line 111. */
    method TruncateFile(t: nat)
      requires processes.Length == n && t < n && processes[t].pc.Truncate?
      modifies this`file, processes
      ensures View() == Step(old(View()), t)
    {
      var me := processes[t];
      file := [];
      processes[t] := me.(pc := Write);
    }

    /** Line 117. */
    method WriteFile(t: nat)
      requires processes.Length == n && t < n && processes[t].pc.Write?
      modifies this`file, processes
      ensures View() == Step(old(View()), t)
    {
      var me := processes[t];
      file := WriteOver(file, me.buffer);
      processes[t] := me.(pc := Post);
    }

    /** Line 131. */
    method PostSem(t: nat)
      requires processes.Length == n && t < n && processes[t].pc.Post?
      modifies this`sem, processes
      ensures View() == Step(old(View()), t)
    {
      var me := processes[t];
      sem := sem + 1;
      processes[t] := me.(pc := SectionStart, done := me.done + 1);
    }

    method MoveProcess(t: nat)
      requires processes.Length == n
      modifies this`file, this`sem, processes
      ensures View() == Step(old(View()), t)
    {
      if t < n {
        match processes[t].pc
        case SectionStart => WaitSem(t);
        case Read => ReadFile(t);
        case Compute => ComputeNext(t);
        case Truncate => TruncateFile(t);
        case Write => WriteFile(t);
        case Post => PostSem(t);
        case Finished =>
        case LeftLoop =>
      }
    }
  }

  /**
   The program under any schedule, and the check of the parent on the file that it then
   finds. After the waits of the parent the check ends well if and only if the product is
   below 10^9; from there on it stores a NUL outside its buffer.
   */
  method RunProgram(n: nat, sections: nat, schedule: seq<nat>)
    returns (program: CounterProgram, outcome: CheckOutcome)
    requires n * sections <= INT_MAX
    ensures program.View() == Run(n, sections, schedule)
    ensures outcome == Check(program.file, n * sections)
    ensures AllFinished(program.View()) ==>
              outcome == if n * sections < 1_000_000_000 then Succeeded else OutOfBounds
  {
    program := new CounterProgram(n, sections);
    for j := 0 to |schedule|
      invariant program.processes.Length == program.n && fresh(program) && fresh(program.processes)
      invariant program.View() == Run(n, sections, schedule[..j])
    {
      program.MoveProcess(schedule[j]);
      assert schedule[..j + 1][..j] == schedule[..j];
    }
    assert schedule[..|schedule|] == schedule;
    var buffer := ReadInto(program.file, CHECK_BUFFER);
    if buffer == [] {
      outcome := EmptyFile;
    } else if |buffer| == CHECK_BUFFER {
      outcome := OutOfBounds;
    } else {
      outcome := if Atoi(buffer) == n * sections then Succeeded else Failed;
    }
    if AllFinished(program.View()) {
      FinalCheck(n, sections, schedule);
    }
  }
}
