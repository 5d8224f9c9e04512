/**
 The counter of cw6, kept as decimal text in a file under a binary semaphore.

 Every process runs cw6/incrementer.c with synchronisation on. Reading, truncating and
 writing the file are separate steps. read and write are whole, and the semaphore is its
 POSIX abstraction.
 */
module FileCounter {
  import opened Decimal
  import opened Sums

  const BUFFER: nat := 20         // cw6/incrementer.c:67
  const CHECK_BUFFER: nat := 10   // cw6/multipler.c:147

  /** Where a process is. The comments give the lines of cw6/incrementer.c. */
  datatype PC =
    | SectionStart  // 47, 56: loop head; next is waitSem
    | Read          // 62-68: open and read
    | Compute       // 101-105: atoi, number++, sprintf
    | Truncate      // 111: open with O_TRUNC
    | Write         // 117: write
    | Post          // 131: postSem
    | Finished      // 142
    | LeftLoop      // 80, 92: the file was empty; the loop is left without a post
  {
    predicate InCritical() { Read? || Compute? || Truncate? || Write? || Post? }
  }

  datatype Process = Process(pc: PC, buffer: string, done: nat)

  datatype State = State(sections: nat, file: string, sem: nat, processes: seq<Process>)

  /** cw6/multipler.c:74 writes sizeof("0") bytes, so a NUL follows the digit; the semaphore starts at 1. */
  function Initial(n: nat, sections: nat): State {
    State(sections, ['0', 0 as char], 1, seq(n, _ => Process(SectionStart, [], 0)))
  }

  /** What read puts into a buffer of the given size. */
  function ReadInto(file: string, size: nat): string {
    if |file| <= size then file else file[..size]
  }

  /** write at offset 0: what is longer than the text stays behind it. */
  function WriteOver(file: string, text: string): string {
    text + if |file| <= |text| then [] else file[|text|..]
  }

  /** The next step of process t. */
  function Step(s: State, t: nat): (r: State)
    ensures |r.processes| == |s.processes| && r.sections == s.sections
  {
    if t >= |s.processes| then s else
    var me := s.processes[t];
    match me.pc
    case SectionStart =>
      if me.done >= s.sections then s.(processes := s.processes[t := me.(pc := Finished)])
      else if s.sem == 0 then s
      else s.(sem := s.sem - 1, processes := s.processes[t := me.(pc := Read)])
    case Read =>
      if s.file == [] then s.(processes := s.processes[t := me.(pc := LeftLoop)])
      else s.(processes := s.processes[t := me.(pc := Compute, buffer := ReadInto(s.file, BUFFER))])
    case Compute =>
      s.(processes := s.processes[t := me.(pc := Truncate, buffer := Print(Atoi(me.buffer) + 1))])
    case Truncate =>
      s.(file := [], processes := s.processes[t := me.(pc := Write)])
    case Write =>
      s.(file := WriteOver(s.file, me.buffer), processes := s.processes[t := me.(pc := Post)])
    case Post =>
      s.(sem := s.sem + 1, processes := s.processes[t := me.(pc := SectionStart, done := me.done + 1)])
    case Finished => s
    case LeftLoop => s
  }

  function Run(n: nat, sections: nat, schedule: seq<nat>): (s: State)
    ensures |s.processes| == n && s.sections == sections
  {
    if schedule == [] then Initial(n, sections)
    else Step(Run(n, sections, schedule[..|schedule| - 1]), schedule[|schedule| - 1])
  }

  predicate AllFinished(s: State) {
    forall t | 0 <= t < |s.processes| :: s.processes[t].pc.Finished?
  }

  function DoneCounts(s: State): seq<int> {
    seq(|s.processes|, t requires 0 <= t < |s.processes| => s.processes[t].done)
  }

  /** Completed increments. */
  function Completed(s: State): int {
    Sum(DoneCounts(s))
  }

  /** The file is v in decimal notation and nothing else; the first text, of 0, has a NUL behind it. */
  predicate Reads(file: string, v: int) {
    if v == 0 then file == ['0', 0 as char] else IsDecimal(file, v)
  }

  /** What holds of process me when v increments are completed. */
  predicate LocalInv(me: Process, file: string, v: int, sections: nat) {
    && me.done <= sections
    && (me.pc.InCritical() ==> me.done < sections)
    && match me.pc
       case Read => Reads(file, v)
       case Compute => Reads(file, v) && me.buffer == file
       case Truncate => Reads(file, v) && IsDecimal(me.buffer, v + 1)
       case Write => file == [] && IsDecimal(me.buffer, v + 1)
       case Post => IsDecimal(file, v + 1)
       case Finished => me.done == sections
       case LeftLoop => false
       case SectionStart => true
  }

  /** Semaphore and processes between wait and post make one; a free semaphore guards a readable file. */
  ghost predicate Inv(s: State) {
    && s.sem <= 1
    && (s.sem == 1 ==> Reads(s.file, Completed(s)))
    && (forall t: nat | t < |s.processes| && s.processes[t].pc.InCritical() :: s.sem == 0)
    && (s.sem == 0 ==> exists t: nat :: t < |s.processes| && s.processes[t].pc.InCritical())
    && (forall t: nat, u: nat | t < |s.processes| && u < |s.processes|
                                && s.processes[t].pc.InCritical() && s.processes[u].pc.InCritical() :: t == u)
    && (forall t: nat | t < |s.processes| :: LocalInv(s.processes[t], s.file, Completed(s), s.sections))
  }

  lemma CompletedStep(s: State, t: nat)
    requires t < |s.processes|
    ensures Completed(Step(s, t)) == Completed(s) + if s.processes[t].pc.Post? then 1 else 0
  {
    assert DoneCounts(Step(s, t)) == DoneCounts(s)[t := Step(s, t).processes[t].done];
    SumUpdate(DoneCounts(s), t, Step(s, t).processes[t].done);
  }

  lemma CompletedBound(s: State, t: nat)
    requires Inv(s) && t < |s.processes|
    ensures 0 <= Completed(s) <= |s.processes| * s.sections
    ensures s.processes[t].pc.InCritical() ==> Completed(s) < |s.processes| * s.sections
  {
    forall u: nat | u < |s.processes| ensures 0 <= DoneCounts(s)[u] <= s.sections {
      assert LocalInv(s.processes[u], s.file, Completed(s), s.sections);
    }
    SumNonNegative(DoneCounts(s));
    SumBound(DoneCounts(s), s.sections);
    if s.processes[t].pc.InCritical() {
      assert LocalInv(s.processes[t], s.file, Completed(s), s.sections);
      var more := DoneCounts(s)[t := DoneCounts(s)[t] + 1];
      SumUpdate(DoneCounts(s), t, DoneCounts(s)[t] + 1);
      SumBound(more, s.sections);
    }
  }

  /** The text of v is read back as v, and has at most ten characters. */
  lemma ReadsBack(file: string, v: int)
    requires Reads(file, v) && 0 <= v <= INT_MAX
    ensures Atoi(file) == v && 0 < |file| <= 10
  {
    if v == 0 {
      assert file == Print(0) + [0 as char];
      AtoiPrinted(0, [0 as char]);
    } else {
      AtoiDecimal(file, v);
      DecimalLength(file, v);
    }
  }

  lemma DecimalLength(text: string, v: int)
    requires IsDecimal(text, v) && 0 <= v <= INT_MAX
    ensures 0 < |text| <= 10
  {
    PrintIsDecimal(text, v);
    assert Pow10(10) == 10_000_000_000;
    DigitsLength(v, 10);
  }

  lemma PrintsNext(buffer: string, v: int)
    requires Reads(buffer, v) && 0 <= v < INT_MAX
    ensures IsDecimal(Print(Atoi(buffer) + 1), v + 1)
  {
    ReadsBack(buffer, v);
    PrintIsDecimal(Print(v + 1), v + 1);
  }

  /** One step keeps what holds of the moving process. */
  lemma OwnStep(s: State, t: nat)
    requires Inv(s) && |s.processes| * s.sections <= INT_MAX && t < |s.processes|
    ensures LocalInv(Step(s, t).processes[t], Step(s, t).file, Completed(Step(s, t)), s.sections)
    ensures s.processes[t].pc.Post? ==> Reads(s.file, Completed(s) + 1)
  {
    assert LocalInv(s.processes[t], s.file, Completed(s), s.sections);
    CompletedStep(s, t);
    CompletedBound(s, t);
    var me := s.processes[t];
    if me.pc.Read? {
      ReadsBack(s.file, Completed(s));
    } else if me.pc.Compute? {
      PrintsNext(me.buffer, Completed(s));
    } else if me.pc.Write? {
      assert WriteOver([], me.buffer) == me.buffer;
    }
  }

  lemma InvStep(s: State, t: nat)
    requires Inv(s) && |s.processes| * s.sections <= INT_MAX
    ensures Inv(Step(s, t))
  {
    if t < |s.processes| {
      OwnStep(s, t);
      CompletedStep(s, t);
      var r := Step(s, t);
      forall u: nat | u < |r.processes| ensures LocalInv(r.processes[u], r.file, Completed(r), r.sections) {
        assert LocalInv(s.processes[u], s.file, Completed(s), s.sections);
      }
      if r.sem == 0 && s.sem == 0 {
        var u: nat :| u < |s.processes| && s.processes[u].pc.InCritical();
        assert LocalInv(s.processes[t], s.file, Completed(s), s.sections);
        assert r.processes[u].pc.InCritical();
      } else if r.sem == 0 {
        assert r.processes[t].pc.InCritical();
      }
    }
  }

  lemma {:induction false} InvRun(n: nat, sections: nat, schedule: seq<nat>)
    requires n * sections <= INT_MAX
    ensures Inv(Run(n, sections, schedule))
  {
    if schedule == [] {
      SumConstant(DoneCounts(Initial(n, sections)), 0);
    } else {
      InvRun(n, sections, schedule[..|schedule| - 1]);
      InvStep(Run(n, sections, schedule[..|schedule| - 1]), schedule[|schedule| - 1]);
    }
  }
}
