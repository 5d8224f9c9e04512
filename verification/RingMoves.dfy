/**
 How many moves the producer and the consumer make: every byte is read, scanned, measured
 and written in a step of its own, so the moves of a run are known from the file alone.
 */
module RingMoves {
  import opened Ring
  import opened RingInvariant
  import opened RingProperties

  /** Moves that the producer has made when it stands at pc, with put slots posted: 24 for each full slot. */
  function ProducerMoves(pc: ProducerPC, put: nat, size: nat): int {
    match pc
    case PStart => 0
    case PWait => 24 * put + 1
    case PFill(j) => 24 * put + 2 + j
    case PAdvance => 24 * put + 23
    case PPost => 24 * put + 24
    case PMark(j) => 24 * put + 3 + j
    case PPostLast => 24 * put + 4 + size % 20
    case PDone => 24 * (size / 20) + 5 + size % 20
  }

  /** Moves that the consumer has made, with got slots posted: 45 for each full slot, and three times the last text. */
  function ConsumerMoves(pc: ConsumerPC, got: nat, text: nat): int {
    match pc
    case CStart => 0
    case CWait => 45 * got + 1
    case CScan(j) => 45 * got + 2 + j
    case CLength(j) => 45 * got + 3 + text % 20 + j
    case CCopy(j, len, last) => if last then 45 * got + 4 + 2 * (text % 20) + j else 45 * got + 23 + j
    case CAdvance => 45 * got + 44
    case CPost => 45 * got + 45
    case CPostLast => 45 * got + 5 + 3 * (text % 20)
    case CDone => 45 * (text / 20) + 6 + 3 * (text % 20)
  }

  function MovesMade(c: Config): int {
    ProducerMoves(c.s.producer, c.put, |c.s.src|) + ConsumerMoves(c.s.consumer, c.got, FirstNul(c.s.src))
  }

  /** The moves of a run in which the moving process is not blocked. */
  function CountMoves(src: seq<byte>, buffer: seq<byte>, schedule: seq<nat>): nat
    requires |buffer| == NBUF * NELE
  {
    if schedule == [] then 0
    else
      var prefix, who := schedule[..|schedule| - 1], schedule[|schedule| - 1];
      CountMoves(src, buffer, prefix) + if Enabled(Run(src, buffer, prefix), who) then 1 else 0
  }

  /** The NUL that the consumer has found in its slot is the first one of the file, or the one behind it. */
  lemma NulIsFirst(buffer: seq<byte>, src: seq<byte>, got: nat, len: nat)
    requires |buffer| == NBUF * NELE && NulAt(buffer, got, len) && Stored(buffer, src, got)
    requires NELE * got <= FirstNul(src)
    ensures FirstNul(src) == NELE * got + len
  {
    var size: nat := if got < LastChunk(src) then NELE else |src| - NELE * got;
    assert Begins(buffer, src, got, size);
    forall y: nat | NELE * got <= y < NELE * got + len && y < |src| ensures src[y] != 0 {
      assert buffer[Cell(got, y - NELE * got)] == src[y];
    }
    if len < size {
      assert buffer[Cell(got, len)] == src[NELE * got + len];
    }
    FirstNulUnique(src, NELE * got + len);
  }

  lemma ProducerCounts(c: Config)
    requires WellFormed(c.s) && ProducerOK(c) && !ProducerBlocked(c.s)
    ensures var d := Next(c, PRODUCER);
            && ProducerMoves(d.s.producer, d.put, |d.s.src|) == ProducerMoves(c.s.producer, c.put, |c.s.src|) + 1
            && d.s.src == c.s.src && d.s.consumer == c.s.consumer && d.got == c.got
  {
  }

  /** Scan and strlen: the NUL is found behind the last text. */
  lemma SearchCounts(c: Config)
    requires WellFormed(c.s) && ConsumerOK(c) && Stored(c.s.buffer, c.s.src, c.got)
    requires c.s.consumer.CScan? || c.s.consumer.CLength?
    ensures var pc, text := ConsumerStep(c.s).consumer, FirstNul(c.s.src);
            ConsumerMoves(pc, c.got, text) == ConsumerMoves(c.s.consumer, c.got, text) + 1
  {
    var s, j := c.s, c.s.consumer.j;
    if j < NELE && s.buffer[Cell(c.got, j)] == 0 {
      assert s.consumer.CLength? ==> NulAt(s.buffer, c.got, j);
      assert s.consumer.CScan? ==> NulAt(s.buffer, c.got, j);
      NulIsFirst(s.buffer, s.src, c.got, j);
      assert FirstNul(s.src) % 20 == j;
    }
  }

  lemma OtherCounts(c: Config)
    requires WellFormed(c.s) && ConsumerOK(c) && !ConsumerBlocked(c.s)
    requires !c.s.consumer.CScan? && !c.s.consumer.CLength?
    requires c.s.consumer.CCopy? && c.s.consumer.last ==> c.s.consumer.len == FirstNul(c.s.src) % 20
    ensures var d, text := Next(c, CONSUMER), FirstNul(c.s.src);
            ConsumerMoves(d.s.consumer, d.got, text) == ConsumerMoves(c.s.consumer, c.got, text) + 1
  {
  }

  lemma ConsumerCounts(c: Config)
    requires WellFormed(c.s) && ConsumerOK(c) && !ConsumerBlocked(c.s)
    requires c.s.consumer.Touches() ==> Stored(c.s.buffer, c.s.src, c.got)
    ensures var d, text := Next(c, CONSUMER), FirstNul(c.s.src);
            ConsumerMoves(d.s.consumer, d.got, text) == ConsumerMoves(c.s.consumer, c.got, text) + 1
  {
    if c.s.consumer.CScan? || c.s.consumer.CLength? {
      SearchCounts(c);
      assert Next(c, CONSUMER).got == c.got;
    } else {
      if c.s.consumer.CCopy? && c.s.consumer.last {
        NulIsFirst(c.s.buffer, c.s.src, c.got, c.s.consumer.len);
      }
      OtherCounts(c);
    }
  }

  lemma MoveCounts(c: Config, who: nat)
    requires Inv(c)
    ensures Next(c, who).s.src == c.s.src
    ensures MovesMade(Next(c, who)) == MovesMade(c) + if Enabled(c.s, who) then 1 else 0
  {
    StepRank(c, who);
    if Enabled(c.s, who) {
      if who == PRODUCER {
        ProducerCounts(c);
      } else {
        ConsumerFrame(c);
        ConsumerCounts(c);
      }
    }
  }

  /** In every run the moves made are those that the places of both processes account for. */
  lemma {:induction false} MovesCounted(src: seq<byte>, buffer: seq<byte>, schedule: seq<nat>)
    requires |buffer| == NBUF * NELE
    ensures Run(src, buffer, schedule).src == src
    ensures CountMoves(src, buffer, schedule) == MovesMade(Trace(src, buffer, schedule))
  {
    if schedule == [] {
    } else {
      var prefix, who := schedule[..|schedule| - 1], schedule[|schedule| - 1];
      MovesCounted(src, buffer, prefix);
      InvRun(src, buffer, prefix);
      MoveCounts(Trace(src, buffer, prefix), who);
    }
  }

  /** All runs that copy a file without NULs to the end take the same number of moves. */
  lemma {:induction false} MovesOfCopy(src: seq<byte>, buffer: seq<byte>, schedule: seq<nat>)
    requires |buffer| == NBUF * NELE && FirstNul(src) == |src| && Quiet(Run(src, buffer, schedule))
    ensures CountMoves(src, buffer, schedule) == 69 * (|src| / 20) + 4 * (|src| % 20) + 11
  {
    MovesCounted(src, buffer, schedule);
    QuietOutcome(src, buffer, schedule);
  }
}
