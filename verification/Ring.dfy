/**
 The producer and the consumer of cw7 as a state machine.

 The shared segment is five slots of twenty bytes with the two indices; the semaphores
 are their POSIX abstraction. Slots are filled, scanned, measured and copied one byte
 per step, and the two processes interleave between any two steps. The segment may hold
 any bytes at the start. read returns the full count up to the end of the file, and
 write takes everything.
 */
module Ring {

  type byte = b: int | 0 <= b < 256

  const NELE: nat := 20
  const NBUF: nat := 5

  /** Where the producer is. The comments give the lines of cw7/producer.c. */
  datatype ProducerPC =
    | PStart           // 75: insert = 0
    | PWait            // 85: waitSem(semP)
    | PFill(j: nat)    // 90: read, after j bytes
    | PMark(j: nat)    // 97: buffer[insert][readen] = 0, after a short read of j bytes
    | PPostLast        // 102: postSem(semC), then break
    | PAdvance         // 125: insert = (insert + 1) % NBUF
    | PPost            // 128: postSem(semC)
    | PDone            // 134
  {
    /** Between wait and post. */
    predicate Holds() { PFill? || PMark? || PPostLast? || PAdvance? || PPost? }

    /** In the middle of writing the slot at insert. */
    predicate Touches() { PFill? || PMark? }
  }

  /** Where the consumer is. The comments give the lines of cw7/consumer.c. */
  datatype ConsumerPC =
    | CStart                                   // 70: extract = 0
    | CWait                                    // 79: waitSem(semC)
    | CScan(j: nat)                            // 82: lastOne, cw7/smem.c:66-73, after j bytes
    | CLength(j: nat)                          // 85: strlen, after j bytes
    | CCopy(j: nat, len: nat, last: bool)      // 84 or 99: write of len bytes, after j bytes
    | CPostLast                                // 93: postSem(semP), then break
    | CAdvance                                 // 122: extract = (extract + 1) % NBUF
    | CPost                                    // 125: postSem(semP)
    | CDone                                    // 131
  {
    predicate Holds() { CScan? || CLength? || CCopy? || CPostLast? || CAdvance? || CPost? }

    /** In the middle of reading the slot at extract. */
    predicate Touches() { CScan? || CLength? || CCopy? }
  }

  datatype State = State(
    src: seq<byte>,      // the producer's file
    pos: nat,            // its file offset
    buffer: seq<byte>,   // buffer[i][j] is byte NELE * i + j
    insert: nat,
    extract: nat,
    semP: nat,
    semC: nat,
    producer: ProducerPC,
    consumer: ConsumerPC,
    out: seq<byte>)      // the consumer's file

  predicate WellFormed(s: State) {
    && |s.buffer| == NBUF * NELE && s.insert < NBUF && s.extract < NBUF
    && (s.producer.PFill? ==> s.producer.j <= NELE)
    && (s.producer.PMark? ==> s.producer.j < NELE)
    && (s.consumer.CScan? ==> s.consumer.j <= NELE)
    && (s.consumer.CCopy? ==> s.consumer.j <= s.consumer.len <= NBUF * NELE - NELE * s.extract)
  }

  /** The start: semP counts the free slots, semC the filled ones; the bytes in the segment are arbitrary. */
  function Initial(src: seq<byte>, buffer: seq<byte>): State
    requires |buffer| == NBUF * NELE
  {
    State(src, 0, buffer, 0, 0, NBUF, 0, PStart, CStart, [])
  }

  function ProducerStep(s: State): (r: State)
    requires WellFormed(s)
    ensures WellFormed(r)
  {
    match s.producer
    case PStart => s.(insert := 0, producer := PWait)
    case PWait => if s.semP > 0 then s.(semP := s.semP - 1, producer := PFill(0)) else s
    case PFill(j) =>
      if j < NELE && s.pos < |s.src| then
        s.(buffer := s.buffer[NELE * s.insert + j := s.src[s.pos]], pos := s.pos + 1, producer := PFill(j + 1))
      else if j != NELE then s.(producer := PMark(j))
      else s.(producer := PAdvance)
    case PMark(j) => s.(buffer := s.buffer[NELE * s.insert + j := 0], producer := PPostLast)
    case PPostLast => s.(semC := s.semC + 1, producer := PDone)
    case PAdvance => s.(insert := (s.insert + 1) % NBUF, producer := PPost)
    case PPost => s.(semC := s.semC + 1, producer := PWait)
    case PDone => s
  }

  /** A strlen that ran off the segment would stop the model; RingProperties.ConsumerReadsSlotText excludes it. */
  function ConsumerStep(s: State): (r: State)
    requires WellFormed(s)
    ensures WellFormed(r)
  {
    var first := NELE * s.extract;
    match s.consumer
    case CStart => s.(extract := 0, consumer := CWait)
    case CWait => if s.semC > 0 then s.(semC := s.semC - 1, consumer := CScan(0)) else s
    case CScan(j) =>
      if j == NELE then s.(consumer := CCopy(0, NELE, false))
      else s.(consumer := if s.buffer[first + j] == 0 then CLength(0) else CScan(j + 1))
    case CLength(j) =>
      if first + j >= |s.buffer| then s
      else s.(consumer := if s.buffer[first + j] == 0 then CCopy(0, j, true) else CLength(j + 1))
    case CCopy(j, len, last) =>
      if j < len then s.(out := s.out + [s.buffer[first + j]], consumer := CCopy(j + 1, len, last))
      else s.(consumer := if last then CPostLast else CAdvance)
    case CPostLast => s.(semP := s.semP + 1, consumer := CDone)
    case CAdvance => s.(extract := (s.extract + 1) % NBUF, consumer := CPost)
    case CPost => s.(semP := s.semP + 1, consumer := CWait)
    case CDone => s
  }

  const PRODUCER: nat := 0
  const CONSUMER: nat := 1

  function Step(s: State, who: nat): (r: State)
    requires WellFormed(s)
    ensures WellFormed(r)
  {
    if who == PRODUCER then ProducerStep(s) else if who == CONSUMER then ConsumerStep(s) else s
  }

  function Run(src: seq<byte>, buffer: seq<byte>, schedule: seq<nat>): (s: State)
    requires |buffer| == NBUF * NELE
    ensures WellFormed(s)
  {
    if schedule == [] then Initial(src, buffer)
    else Step(Run(src, buffer, schedule[..|schedule| - 1]), schedule[|schedule| - 1])
  }

  /** The place of the first NUL from i on, or the length if there is none. */
  function NulFrom(text: seq<byte>, i: nat): (z: nat)
    requires i <= |text|
    ensures i <= z <= |text| && (z < |text| ==> text[z] == 0)
    ensures forall x | i <= x < z :: text[x] != 0
    decreases |text| - i
  {
    if i < |text| && text[i] != 0 then NulFrom(text, i + 1) else i
  }

  function FirstNul(text: seq<byte>): (z: nat)
    ensures z <= |text| && (z < |text| ==> text[z] == 0)
    ensures forall x | 0 <= x < z :: text[x] != 0
  {
    NulFrom(text, 0)
  }

  /** The bytes before the first NUL. */
  function UpToNul(text: seq<byte>): seq<byte> {
    text[..FirstNul(text)]
  }

  predicate ProducerBlocked(s: State) { s.producer.PDone? || (s.producer.PWait? && s.semP == 0) }

  predicate ConsumerBlocked(s: State) { s.consumer.CDone? || (s.consumer.CWait? && s.semC == 0) }

  /** Neither process will ever move again. */
  predicate Quiet(s: State) { ProducerBlocked(s) && ConsumerBlocked(s) }
}
