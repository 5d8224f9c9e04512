/**
 What the ring guarantees over every run: slots never collide, permits and bytes are
 conserved, the ring is a bounded first-in first-out queue, stale bytes do not matter,
 and under a fair schedule the text of the file is copied.
 */
module RingProperties {
  import opened Ring
  import opened RingInvariant
  import opened Fairness

  /** The two processes are never in the same slot at once. */
  lemma {:induction false} NoCollision(src: seq<byte>, buffer: seq<byte>, schedule: seq<nat>)
    requires |buffer| == NBUF * NELE
    requires Run(src, buffer, schedule).producer.Touches() && Run(src, buffer, schedule).consumer.Touches()
    ensures Run(src, buffer, schedule).insert != Run(src, buffer, schedule).extract
  {
    InvRun(src, buffer, schedule);
    var c := Trace(src, buffer, schedule);
    OtherSlot(c.got, c.put, 0, 0);
  }

  /** Each of the five permits is in a semaphore or with a process between wait and post. */
  lemma {:induction false} PermitsConserved(src: seq<byte>, buffer: seq<byte>, schedule: seq<nat>)
    requires |buffer| == NBUF * NELE
    ensures var s := Run(src, buffer, schedule);
            s.semP + s.semC + (if s.producer.Holds() then 1 else 0) + (if s.consumer.Holds() then 1 else 0) == NBUF
  {
    InvRun(src, buffer, schedule);
  }

  /** The consumer's file is always a prefix of the text before the first NUL, and all of it at the end. */
  lemma {:induction false} OutputIsText(src: seq<byte>, buffer: seq<byte>, schedule: seq<nat>)
    requires |buffer| == NBUF * NELE
    ensures Run(src, buffer, schedule).out <= UpToNul(src)
    ensures Run(src, buffer, schedule).consumer.CDone? ==> Run(src, buffer, schedule).out == UpToNul(src)
  {
    InvRun(src, buffer, schedule);
  }

  // ---- Conservation of bytes ----

  lemma CountsBounded(c: Config)
    requires WellFormed(c.s) && Permits(c) && ProducerOK(c)
    ensures c.got <= c.put <= LastChunk(c.s.src) + 1 && c.put - c.got <= NBUF
    ensures c.s.producer.Holds() ==> c.put <= LastChunk(c.s.src) && c.put - c.got < NBUF
    ensures c.s.consumer.Holds() ==> c.got < c.put
  {
  }

  /**
   Between slots the indices are the counts of posted slots modulo NBUF, and both file
   offsets are whole slots. At their ends both indices stand on the last slot.
   */
  lemma {:induction false} IndicesFollowCounts(src: seq<byte>, buffer: seq<byte>, schedule: seq<nat>)
    requires |buffer| == NBUF * NELE
    ensures var c := Trace(src, buffer, schedule);
            && (c.s.producer.PWait? ==> c.s.insert == c.put % NBUF && c.s.pos == NELE * c.put)
            && (c.s.consumer.CWait? ==> c.s.extract == c.got % NBUF && |c.s.out| == NELE * c.got)
            && (c.s.producer.PDone? ==> c.s.insert == |src| / 20 % 5)
            && (c.s.consumer.CDone? ==> c.s.extract == FirstNul(src) / 20 % 5)
            && c.got <= c.put <= c.got + NBUF
  {
    InvRun(src, buffer, schedule);
  }

  /** Where byte x of the file passes through the segment. */
  function RingCell(x: nat): (i: nat)
    ensures i < NBUF * NELE
  {
    Cell(x / NELE, x % NELE)
  }

  /** The bytes that are read and not yet written, taken from the segment in order. */
  function InRing(s: State): seq<byte>
    requires WellFormed(s)
  {
    seq(if |s.out| <= s.pos then s.pos - |s.out| else 0, d requires d >= 0 => s.buffer[RingCell(|s.out| + d)])
  }

  /** How far the two files are: written bytes are taken bytes, taken bytes are read bytes. */
  lemma FilePositions(c: Config)
    requires Inv(c) && !c.s.consumer.CDone?
    ensures NELE * c.got <= |c.s.out| <= c.s.pos <= |c.s.src| && c.s.out == c.s.src[..|c.s.out|]
  {
  }

  /** A byte read and not yet taken stands in its cell. */
  lemma ByteInCell(c: Config, x: nat)
    requires Inv(c) && NELE * c.got <= x < c.s.pos
    ensures c.s.buffer[RingCell(x)] == c.s.src[x]
  {
    var k, y := x / NELE, x % NELE;
    assert x == NELE * k + y;
    if k < c.put {
      assert Stored(c.s.buffer, c.s.src, k);
      if k < LastChunk(c.s.src) {
        assert Begins(c.s.buffer, c.s.src, k, NELE);
      } else {
        assert Begins(c.s.buffer, c.s.src, k, |c.s.src| - NELE * k);
      }
    } else {
      assert k == c.put;
    }
  }

  lemma RingHoldsTheRest(c: Config)
    requires Inv(c) && !c.s.consumer.CDone?
    ensures |c.s.out| <= c.s.pos <= |c.s.src| && c.s.out == c.s.src[..|c.s.out|]
    ensures InRing(c.s) == c.s.src[|c.s.out|..c.s.pos]
  {
    FilePositions(c);
    forall d: nat | d < c.s.pos - |c.s.out| ensures InRing(c.s)[d] == c.s.src[|c.s.out| + d] {
      ByteInCell(c, |c.s.out| + d);
    }
  }

  /** With the whole file written, nothing is left in the ring or unread. */
  lemma NothingLeft(c: Config)
    requires Inv(c) && c.s.consumer.CDone? && FirstNul(c.s.src) == |c.s.src|
    ensures c.s.out == c.s.src && c.s.pos == |c.s.src|
  {
  }

  lemma ThreeParts(src: seq<byte>, a: nat, b: nat)
    requires a <= b <= |src|
    ensures src[..a] + src[a..b] + src[b..] == src
  {
  }

  /**
   Conservation: bytes written, bytes in the ring in order, and unread bytes are the
   file, at every moment; of a file with NULs, up to the consumer's last post.
   */
  lemma {:induction false} BytesConserved(src: seq<byte>, buffer: seq<byte>, schedule: seq<nat>)
    requires |buffer| == NBUF * NELE
    requires FirstNul(src) == |src| || !Run(src, buffer, schedule).consumer.CDone?
    ensures var s := Run(src, buffer, schedule);
            s.pos <= |src| && s.out + InRing(s) + src[s.pos..] == src
  {
    InvRun(src, buffer, schedule);
    var c := Trace(src, buffer, schedule);
    if c.s.consumer.CDone? {
      NothingLeft(c);
    } else {
      RingHoldsTheRest(c);
      ThreeParts(src, |c.s.out|, c.s.pos);
    }
  }

  // ---- Refinement of a bounded queue ----

  lemma FirstNulUnique(text: seq<byte>, z: nat)
    requires z <= |text| && (z < |text| ==> text[z] == 0) && forall x | 0 <= x < z :: text[x] != 0
    ensures FirstNul(text) == z
  {
  }

  /** The text in the slot of chunk k, as lastOne and strlen see it. */
  function SlotText(buffer: seq<byte>, k: nat): seq<byte>
    requires |buffer| == NBUF * NELE
  {
    UpToNul(buffer[Cell(k, 0)..Cell(k, 0) + NELE])
  }

  /** Where chunk k of the file ends. */
  function ChunkEnd(src: seq<byte>, k: nat): (end: nat)
    requires k <= LastChunk(src)
    ensures NELE * k <= end <= |src|
  {
    if k < LastChunk(src) then NELE * k + NELE else |src|
  }

  /** The text of chunk k of the file. */
  function ChunkText(src: seq<byte>, k: nat): seq<byte>
    requires k <= LastChunk(src)
  {
    UpToNul(src[NELE * k..ChunkEnd(src, k)])
  }

  /**
   The consumer decides as lastOne does on the whole slot: it copies the text up to the
   first NUL as the last one, or a full slot if there is no NUL. strlen and the copy stay
   inside the slot.
   */
  lemma {:induction false} ConsumerReadsSlotText(src: seq<byte>, buffer: seq<byte>, schedule: seq<nat>)
    requires |buffer| == NBUF * NELE
    ensures var s := Run(src, buffer, schedule);
            && (s.consumer.CLength? ==> s.consumer.j <= |SlotText(s.buffer, s.extract)| < NELE)
            && (s.consumer.CCopy? ==> s.consumer.len == |SlotText(s.buffer, s.extract)|
                                      && (s.consumer.last <==> s.consumer.len < NELE))
  {
    InvRun(src, buffer, schedule);
    var c := Trace(src, buffer, schedule);
    if c.s.consumer.CCopy? {
      CopiesSlotText(c);
    } else if c.s.consumer.CLength? {
      MeasuresSlotText(c);
    }
  }

  lemma NulInSlot(buffer: seq<byte>, k: nat, len: nat)
    requires |buffer| == NBUF * NELE && NulAt(buffer, k, len)
    ensures |SlotText(buffer, k)| == len
  {
    var slot := buffer[Cell(k, 0)..Cell(k, 0) + NELE];
    assert forall x: nat | x < NELE :: slot[x] == buffer[Cell(k, x)];
    FirstNulUnique(slot, len);
  }

  lemma NoNulInSlot(buffer: seq<byte>, k: nat)
    requires |buffer| == NBUF * NELE && NoNul(buffer, k, NELE)
    ensures |SlotText(buffer, k)| == NELE
  {
    var slot := buffer[Cell(k, 0)..Cell(k, 0) + NELE];
    assert forall x: nat | x < NELE :: slot[x] == buffer[Cell(k, x)];
    FirstNulUnique(slot, NELE);
  }

  lemma CopiesSlotText(c: Config)
    requires WellFormed(c.s) && ConsumerOK(c) && c.s.consumer.CCopy?
    ensures c.s.consumer.len == |SlotText(c.s.buffer, c.s.extract)|
    ensures c.s.consumer.last <==> c.s.consumer.len < NELE
  {
    assert SlotText(c.s.buffer, c.s.extract) == SlotText(c.s.buffer, c.got);
    if c.s.consumer.last {
      NulInSlot(c.s.buffer, c.got, c.s.consumer.len);
    } else {
      NoNulInSlot(c.s.buffer, c.got);
    }
  }

  lemma MeasuresSlotText(c: Config)
    requires WellFormed(c.s) && ConsumerOK(c) && c.s.consumer.CLength?
    ensures c.s.consumer.j <= |SlotText(c.s.buffer, c.s.extract)| < NELE
  {
    assert SlotText(c.s.buffer, c.s.extract) == SlotText(c.s.buffer, c.got);
    var len: nat :| c.s.consumer.j <= len && NulAt(c.s.buffer, c.got, len);
    NulInSlot(c.s.buffer, c.got, len);
  }

  /** The queue that the segment implements: the texts of the filled slots, oldest first. */
  function Queue(c: Config): (q: seq<seq<byte>>)
    requires WellFormed(c.s)
  {
    seq(if c.got <= c.put then c.put - c.got else 0, d requires d >= 0 => SlotText(c.s.buffer, c.got + d))
  }

  lemma StoredText(buffer: seq<byte>, src: seq<byte>, k: nat)
    requires |buffer| == NBUF * NELE && Stored(buffer, src, k)
    ensures SlotText(buffer, k) == ChunkText(src, k)
  {
    var slot := buffer[Cell(k, 0)..Cell(k, 0) + NELE];
    var chunk := src[NELE * k..ChunkEnd(src, k)];
    assert forall x: nat | x < NELE :: slot[x] == buffer[Cell(k, x)];
    assert slot[..|chunk|] == chunk;
    SameText(slot, chunk);
  }

  /** A text and its NUL, or the text alone, have the same bytes before the first NUL. */
  lemma SameText(slot: seq<byte>, chunk: seq<byte>)
    requires |chunk| <= |slot| && slot[..|chunk|] == chunk && (|chunk| < |slot| ==> slot[|chunk|] == 0)
    ensures UpToNul(slot) == UpToNul(chunk)
  {
    FirstNulUnique(chunk, FirstNul(slot));
  }

  /** The texts of the chunks from got up to put. */
  function ChunkTexts(src: seq<byte>, got: nat, put: nat): seq<seq<byte>>
    requires got <= put <= LastChunk(src) + 1
  {
    seq(put - got, d requires 0 <= d < put - got => ChunkText(src, got + d))
  }

  lemma SameSequence<T>(q: seq<T>, r: seq<T>)
    requires |q| == |r| && forall d: nat | d < |q| :: q[d] == r[d]
    ensures q == r
  {
  }

  lemma QueueIsChunks(c: Config)
    requires WellFormed(c.s) && LiveSlots(c.s.src, c.s.buffer, c.put, c.got) && c.got <= c.put <= LastChunk(c.s.src) + 1
    ensures Queue(c) == ChunkTexts(c.s.src, c.got, c.put)
  {
    forall d: nat | d < c.put - c.got ensures Queue(c)[d] == ChunkTexts(c.s.src, c.got, c.put)[d] {
      QueueAt(c.s.buffer, c.s.src, c.put, c.got, c.got + d);
    }
    SameSequence(Queue(c), ChunkTexts(c.s.src, c.got, c.put));
  }

  lemma QueueAt(buffer: seq<byte>, src: seq<byte>, put: nat, got: nat, k: nat)
    requires |buffer| == NBUF * NELE && LiveSlots(src, buffer, put, got) && got <= k < put <= LastChunk(src) + 1
    ensures SlotText(buffer, k) == ChunkText(src, k)
  {
    assert Stored(buffer, src, k);
    StoredText(buffer, src, k);
  }

  lemma ChunkTextsGrow(src: seq<byte>, got: nat, put: nat)
    requires got <= put <= LastChunk(src)
    ensures ChunkTexts(src, got, put + 1) == ChunkTexts(src, got, put) + [ChunkText(src, put)]
  {
  }

  lemma ChunkTextsShrink(src: seq<byte>, got: nat, put: nat)
    requires got < put <= LastChunk(src) + 1
    ensures ChunkTexts(src, got + 1, put) == ChunkTexts(src, got, put)[1..]
    ensures ChunkTexts(src, got, put)[0] == ChunkText(src, got)
  {
  }

  /** The step of who puts a slot into the queue. */
  predicate Puts(s: State, who: nat) { who == PRODUCER && (s.producer.PPost? || s.producer.PPostLast?) }

  /** The step of who takes a slot out of the queue. */
  predicate Takes(s: State, who: nat) { who == CONSUMER && (s.consumer.CPost? || s.consumer.CPostLast?) }

  /**
   Every step of the ring is a step of a queue of capacity five: a post of the producer
   appends the text of the next chunk to a queue that is not full, a post of the
   consumer removes the oldest text, which it has just written, and no other step
   changes the queue.
   */
  lemma RefinesQueue(c: Config, who: nat)
    requires Inv(c)
    ensures Puts(c.s, who) ==> |Queue(c)| < NBUF && c.put <= LastChunk(c.s.src)
                               && Queue(Next(c, who)) == Queue(c) + [ChunkText(c.s.src, c.put)]
    ensures Takes(c.s, who) ==> Queue(c) != [] && Queue(Next(c, who)) == Queue(c)[1..]
                                && NELE * c.got <= |c.s.out| && c.s.out[NELE * c.got..] == Queue(c)[0]
    ensures !Puts(c.s, who) && !Takes(c.s, who) ==> Queue(Next(c, who)) == Queue(c)
  {
    InvStep(c, who);
    StepCounts(c, who);
    CountsBounded(c);
    CountsBounded(Next(c, who));
    QueueIsChunks(c);
    QueueIsChunks(Next(c, who));
    if Takes(c.s, who) {
      WritesOldest(c);
      ChunkTextsShrink(c.s.src, c.got, c.put);
    } else if Puts(c.s, who) {
      ChunkTextsGrow(c.s.src, c.got, c.put);
    }
  }

  lemma StepCounts(c: Config, who: nat)
    requires WellFormed(c.s)
    ensures Next(c, who).s.src == c.s.src
    ensures Next(c, who).put == c.put + if Puts(c.s, who) then 1 else 0
    ensures Next(c, who).got == c.got + if Takes(c.s, who) then 1 else 0
  {
  }

  /** The first NUL of a part that starts before the first NUL of the whole. */
  lemma FirstNulOfPart(src: seq<byte>, a: nat, b: nat)
    requires a <= FirstNul(src) && a <= b <= |src|
    ensures UpToNul(src[a..b]) == if FirstNul(src) < b then src[a..FirstNul(src)] else src[a..b]
  {
    var part, z := src[a..b], if FirstNul(src) < b then FirstNul(src) - a else b - a;
    forall x | 0 <= x < z ensures part[x] != 0 {
      assert part[x] == src[a + x];
    }
    FirstNulUnique(part, z);
  }

  lemma WritesOldest(c: Config)
    requires WellFormed(c.s) && ConsumerOK(c) && (c.s.consumer.CPost? || c.s.consumer.CPostLast?)
    ensures c.got <= LastChunk(c.s.src)
    ensures NELE * c.got <= |c.s.out| && c.s.out[NELE * c.got..] == ChunkText(c.s.src, c.got)
  {
    FirstNulOfPart(c.s.src, NELE * c.got, ChunkEnd(c.s.src, c.got));
  }

  // ---- Stale bytes ----

  /** Two states that differ in the bytes of the segment only. */
  predicate SameButBytes(s: State, r: State) {
    s.(buffer := r.buffer) == r
  }

  lemma SameByte(b1: seq<byte>, b2: seq<byte>, src: seq<byte>, k: nat, j: nat)
    requires |b1| == |b2| == NBUF * NELE && Stored(b1, src, k) && Stored(b2, src, k)
    requires j < NELE && NoNul(b1, k, j) && NoNul(b2, k, j)
    ensures b1[Cell(k, j)] == b2[Cell(k, j)]
  {
  }

  /** The byte that a touching consumer reads next is the same in both segments. */
  lemma SameRead(c: Config, d: Config)
    requires WellFormed(c.s) && WellFormed(d.s) && ConsumerOK(c) && ConsumerOK(d)
    requires c.got == d.got && SameButBytes(c.s, d.s) && c.s.consumer.Touches()
    requires Stored(c.s.buffer, c.s.src, c.got) && Stored(d.s.buffer, d.s.src, d.got)
    requires c.s.consumer.j < NELE && !(c.s.consumer.CCopy? && c.s.consumer.j == c.s.consumer.len)
    ensures NELE * c.s.extract + c.s.consumer.j < |c.s.buffer|
    ensures c.s.buffer[NELE * c.s.extract + c.s.consumer.j] == d.s.buffer[NELE * c.s.extract + c.s.consumer.j]
  {
    var j := c.s.consumer.j;
    assert NELE * c.s.extract + j == Cell(c.got, j);
    assert NoNul(c.s.buffer, c.got, j) && NoNul(d.s.buffer, c.got, j);
    SameByte(c.s.buffer, d.s.buffer, c.s.src, c.got, j);
  }

  /** Index of the byte that a touching consumer reads next. */
  function ReadIndex(s: State): nat
    requires s.consumer.Touches()
  {
    NELE * s.extract + s.consumer.j
  }

  lemma SameTouch(s: State, r: State)
    requires WellFormed(s) && WellFormed(r) && SameButBytes(s, r) && s.consumer.Touches()
    requires s.consumer.j < NELE && !(s.consumer.CCopy? && s.consumer.j == s.consumer.len)
             ==> ReadIndex(s) < |s.buffer| && s.buffer[ReadIndex(s)] == r.buffer[ReadIndex(s)]
    requires s.consumer.CLength? ==> s.consumer.j < NELE
    requires s.consumer.CCopy? ==> s.consumer.len <= NELE
    ensures SameButBytes(ConsumerStep(s), ConsumerStep(r))
  {
  }

  lemma SameConsumerStep(c: Config, d: Config)
    requires Inv(c) && Inv(d) && c.got == d.got && SameButBytes(c.s, d.s) && c.s.consumer.Touches()
    ensures SameButBytes(ConsumerStep(c.s), ConsumerStep(d.s))
  {
    var pc := c.s.consumer;
    assert Stored(c.s.buffer, c.s.src, c.got) && Stored(d.s.buffer, d.s.src, d.got);
    if pc.CLength? {
      MeasuresSlotText(c);
    } else if pc.CCopy? {
      CopiesSlotText(c);
    }
    if pc.j < NELE && !(pc.CCopy? && pc.j == pc.len) {
      SameRead(c, d);
    }
    SameTouch(c.s, d.s);
  }

  lemma SameStep(c: Config, d: Config, who: nat)
    requires Inv(c) && Inv(d) && c.put == d.put && c.got == d.got && SameButBytes(c.s, d.s)
    ensures SameButBytes(Step(c.s, who), Step(d.s, who))
  {
    if who == CONSUMER && c.s.consumer.Touches() {
      SameConsumerStep(c, d);
    } else {
      SameOtherStep(c.s, d.s, who);
    }
  }

  lemma SameOtherStep(s: State, r: State, who: nat)
    requires WellFormed(s) && WellFormed(r) && SameButBytes(s, r) && !(who == CONSUMER && s.consumer.Touches())
    ensures SameButBytes(Step(s, who), Step(r, who))
  {
  }

  /** Whatever bytes the segment holds at the start, a schedule has the same effect on everything else. */
  lemma {:induction false} StaleBytesNeverMatter(
      src: seq<byte>, buffer1: seq<byte>, buffer2: seq<byte>, schedule: seq<nat>)
    requires |buffer1| == |buffer2| == NBUF * NELE
    ensures SameButBytes(Run(src, buffer1, schedule), Run(src, buffer2, schedule))
    ensures Trace(src, buffer1, schedule).put == Trace(src, buffer2, schedule).put
    ensures Trace(src, buffer1, schedule).got == Trace(src, buffer2, schedule).got
  {
    if schedule == [] {
    } else {
      var prefix, who := schedule[..|schedule| - 1], schedule[|schedule| - 1];
      StaleBytesNeverMatter(src, buffer1, buffer2, prefix);
      InvRun(src, buffer1, prefix);
      InvRun(src, buffer2, prefix);
      SameStep(Trace(src, buffer1, prefix), Trace(src, buffer2, prefix), who);
    }
  }

  // ---- Termination ----

  /** The producer can finish: it runs at most five slots ahead of the chunk with the first NUL. */
  predicate ProducerFits(src: seq<byte>) {
    LastChunk(src) <= FirstNul(src) / NELE + NBUF
  }

  /**
   At rest, the consumer has finished with the whole text, and the producer has finished
   if and only if ProducerFits; otherwise it waits for a slot for ever.
   */
  predicate RestsWithCopy(s: State) {
    && Quiet(s) && s.consumer.CDone? && s.out == UpToNul(s.src)
    && (s.producer.PDone? <==> ProducerFits(s.src))
    && (FirstNul(s.src) == |s.src| ==> s.producer.PDone? && s.out == s.src && s.semP == NBUF && s.semC == 0)
  }

  /** There is no other way for both processes to stop moving. */
  lemma {:induction false} QuietOutcome(src: seq<byte>, buffer: seq<byte>, schedule: seq<nat>)
    requires |buffer| == NBUF * NELE && Quiet(Run(src, buffer, schedule))
    ensures Run(src, buffer, schedule).src == src && RestsWithCopy(Run(src, buffer, schedule))
  {
    InvRun(src, buffer, schedule);
    QuietConfig(Trace(src, buffer, schedule));
  }

  lemma QuietConfig(c: Config)
    requires Inv(c) && Quiet(c.s)
    ensures RestsWithCopy(c.s)
  {
  }

  /** At no time of any run has the producer finished unless ProducerFits. */
  lemma {:induction false} ProducerFinishesOnlyIfFits(src: seq<byte>, buffer: seq<byte>, schedule: seq<nat>)
    requires |buffer| == NBUF * NELE && Run(src, buffer, schedule).producer.PDone?
    ensures ProducerFits(src)
  {
    InvRun(src, buffer, schedule);
  }

  /** On a file of six full slots that starts with a NUL, no run lets the producer finish. */
  lemma {:induction false} StrandedProducer(src: seq<byte>, buffer: seq<byte>, schedule: seq<nat>)
    requires |src| == 120 && src[0] == 0 && |buffer| == NBUF * NELE
    ensures !Run(src, buffer, schedule).producer.PDone?
  {
    assert FirstNul(src) == 0;
    if Run(src, buffer, schedule).producer.PDone? {
      ProducerFinishesOnlyIfFits(src, buffer, schedule);
    }
  }

  /** Steps left to the producer. */
  function ProducerRank(pc: ProducerPC, left: int): int {
    match pc
    case PStart => 26 * left + 1
    case PWait => 26 * left
    case PFill(j) => 26 * left - 1 - j
    case PMark(_) => 26 * left - 22
    case PAdvance => 26 * left - 22
    case PPostLast => 26 * left - 23
    case PPost => 26 * left - 23
    case PDone => 0
  }

  /** Steps left to the consumer, at most. */
  function ConsumerRank(pc: ConsumerPC, left: int): int {
    match pc
    case CStart => 70 * left + 1
    case CWait => 70 * left
    case CScan(j) => 70 * left - 1 - j
    case CLength(j) => 70 * left - 22 - j
    case CCopy(j, _, _) => 70 * left - 42 - j
    case CPostLast => 70 * left - 63
    case CAdvance => 70 * left - 63
    case CPost => 70 * left - 64
    case CDone => 0
  }

  function ProducerLeft(c: Config): int {
    ProducerRank(c.s.producer, LastChunk(c.s.src) + 1 - c.put)
  }

  function ConsumerLeft(c: Config): int {
    ConsumerRank(c.s.consumer, LastChunk(c.s.src) + 1 - c.got)
  }

  function Rank(c: Config): nat {
    if ProducerLeft(c) + ConsumerLeft(c) < 0 then 0 else ProducerLeft(c) + ConsumerLeft(c)
  }

  predicate Enabled(s: State, who: nat) {
    (who == PRODUCER && !ProducerBlocked(s)) || (who == CONSUMER && !ConsumerBlocked(s))
  }

  lemma ProducerFalls(c: Config)
    requires WellFormed(c.s) && ProducerOK(c) && !ProducerBlocked(c.s)
    ensures ProducerLeft(Next(c, PRODUCER)) < ProducerLeft(c)
    ensures ConsumerLeft(Next(c, PRODUCER)) == ConsumerLeft(c)
  {
  }

  lemma ConsumerFalls(c: Config)
    requires WellFormed(c.s) && ConsumerOK(c) && !ConsumerBlocked(c.s)
    ensures ConsumerLeft(Next(c, CONSUMER)) < ConsumerLeft(c)
    ensures ProducerLeft(Next(c, CONSUMER)) == ProducerLeft(c)
  {
  }

  lemma LeftNonNegative(c: Config)
    requires WellFormed(c.s) && ProducerOK(c) && ConsumerOK(c)
    ensures 0 <= ProducerLeft(c) && 0 <= ConsumerLeft(c)
  {
  }

  /** Every step lowers the rank, or the process is blocked and nothing changes. */
  lemma StepRank(c: Config, who: nat)
    requires Inv(c)
    ensures if Enabled(c.s, who) then Rank(Next(c, who)) < Rank(c) else Next(c, who) == c
  {
    InvStep(c, who);
    LeftNonNegative(c);
    LeftNonNegative(Next(c, who));
    if Enabled(c.s, who) {
      if who == PRODUCER {
        ProducerFalls(c);
      } else {
        ConsumerFalls(c);
      }
    }
  }

  ghost function Observe(src: seq<byte>, buffer: seq<byte>, sched: Schedule): Observation
    requires |buffer| == NBUF * NELE
  {
    Observation(
      (j: nat) => Rank(Trace(src, buffer, Prefix(sched, j))),
      (j: nat) => Quiet(Run(src, buffer, Prefix(sched, j))),
      (j: nat, who: nat) => Enabled(Run(src, buffer, Prefix(sched, j)), who),
      (j: nat, who: nat) => 0)
  }

  /**
   Under every fair schedule the consumer finishes, having written exactly the bytes
   before the first NUL, and the producer finishes if and only if ProducerFits; then
   neither ever moves again. A file without NULs is copied whole and the ring is empty.
   */
  lemma {:induction false} FairRunsCopy(src: seq<byte>, buffer: seq<byte>, sched: Schedule)
    requires |buffer| == NBUF * NELE && Fair(sched, 2)
    ensures exists j: nat :: && Run(src, buffer, Prefix(sched, j)).src == src
                             && RestsWithCopy(Run(src, buffer, Prefix(sched, j)))
  {
    var o := Observe(src, buffer, sched);
    forall i: nat ensures HasHelper(o, 2, i) {
      assert o.over(i) || o.helpful(i, PRODUCER) || o.helpful(i, CONSUMER);
    }
    forall i: nat, who: nat | who < 2 ensures KeepsHelper(o, sched, who, i) {
      InvRun(src, buffer, Prefix(sched, i));
      StepRank(Trace(src, buffer, Prefix(sched, i)), sched(i));
      assert Prefix(sched, i + 1)[..i] == Prefix(sched, i);
    }
    var j := FairRunEnds(o, sched, 2, 0);
    assert o.over(j);
    QuietOutcome(src, buffer, Prefix(sched, j));
  }

  // ---- The segment, byte by byte ----

  /**
   The segment after the first m bytes of the file: dealt to its hundred cells in turn,
   over the bytes from the start.
   */
  function Dealt(src: seq<byte>, buffer: seq<byte>, m: nat): (r: seq<byte>)
    requires m <= |src| && |buffer| == 100
    ensures |r| == 100
  {
    if m == 0 then buffer else Dealt(src, buffer, m - 1)[(m - 1) % 100 := src[m - 1]]
  }

  /** The producer has put its NUL behind the file. */
  predicate Marked(s: State) { s.producer.PPostLast? || s.producer.PDone? }

  /**
   In every run the segment is the file as far as it is read, dealt to the cells in turn,
   and behind the whole file one NUL; nothing else is ever written to it.
   */
  lemma {:induction false} SegmentContents(src: seq<byte>, buffer: seq<byte>, schedule: seq<nat>)
    requires |buffer| == 100
    ensures var s := Run(src, buffer, schedule);
            && s.src == src && s.pos <= |src|
            && s.buffer == if Marked(s) then Dealt(src, buffer, |src|)[|src| % 100 := 0] else Dealt(src, buffer, s.pos)
  {
    if schedule == [] {
    } else {
      var prefix, who := schedule[..|schedule| - 1], schedule[|schedule| - 1];
      SegmentContents(src, buffer, prefix);
      InvRun(src, buffer, prefix);
      WritesInTurn(Trace(src, buffer, prefix), who);
    }
  }

  /** From s to r the cell whose turn it is has been written, or none. */
  predicate WritesOneCell(s: State, r: State) {
    && r.src == s.src && s.pos <= |s.src| && |s.buffer| == 100
    && if r.pos > s.pos then
         && r.pos == s.pos + 1 && r.pos <= |s.src| && !Marked(s) && !Marked(r)
         && r.buffer == s.buffer[s.pos % 100 := s.src[s.pos]]
       else if Marked(r) && !Marked(s) then
         r.pos == s.pos == |s.src| && r.buffer == s.buffer[|s.src| % 100 := 0]
       else r.pos == s.pos && r.buffer == s.buffer && Marked(r) == Marked(s)
  }

  lemma WritesInTurn(c: Config, who: nat)
    requires WellFormed(c.s) && ProducerOK(c)
    ensures WritesOneCell(c.s, Step(c.s, who))
  {
    if who == PRODUCER {
      match c.s.producer
      case PFill(j) =>
        if j < NELE {
          CellInTurn(c.put, j);
        }
      case PMark(j) => CellInTurn(c.put, j);
      case _ =>
    } else if who == CONSUMER {
      ConsumerOnlyReads(c.s);
    }
  }

  lemma ConsumerOnlyReads(s: State)
    requires WellFormed(s)
    ensures var r := ConsumerStep(s);
            r.src == s.src && r.pos == s.pos && r.buffer == s.buffer && r.producer == s.producer && r.insert == s.insert
  {
  }

  lemma CellInTurn(k: nat, j: nat)
    requires j < 20
    ensures (20 * k + j) % 100 == 20 * (k % 5) + j
  {
    var q := k / 5;
    assert 20 * k + j == 100 * q + (20 * (k % 5) + j);
  }

  // ---- The capacity in numbers ----

  /** The counterpart of StrandedProducer: with one chunk less, every fair schedule lets the producer finish. */
  lemma {:induction false} FittingProducer(src: seq<byte>, buffer: seq<byte>, sched: Schedule)
    requires |src| == 100 && src[0] == 0 && |buffer| == 100 && Fair(sched, 2)
    ensures exists j: nat :: Run(src, buffer, Prefix(sched, j)).producer.PDone?
  {
    assert FirstNul(src) == 0;
    FairRunsCopy(src, buffer, sched);
    var j: nat :| Run(src, buffer, Prefix(sched, j)).src == src && RestsWithCopy(Run(src, buffer, Prefix(sched, j)));
    assert ProducerFits(src);
    assert Run(src, buffer, Prefix(sched, j)).producer.PDone?;
  }

  /** Moves left to a producer whose consumer has not started: 24 for each free slot. */
  function AloneLeft(pc: ProducerPC, put: nat): int {
    match pc
    case PStart => 24 * (5 - put) + 1
    case PWait => 24 * (5 - put)
    case PFill(j) => 24 * (5 - put) - 1 - j
    case PAdvance => 24 * (5 - put) - 22
    case PPost => 24 * (5 - put) - 23
    case _ => 0
  }

  lemma AloneStep(c: Config)
    requires Inv(c) && c.s.consumer.CStart? && |c.s.src| >= 100
    ensures Next(c, PRODUCER).s.consumer.CStart? && Next(c, PRODUCER).s.src == c.s.src
    ensures if AloneLeft(c.s.producer, c.put) == 0 then Next(c, PRODUCER) == c
            else AloneLeft(Next(c, PRODUCER).s.producer, Next(c, PRODUCER).put) == AloneLeft(c.s.producer, c.put) - 1
  {
  }

  lemma {:induction false} AloneRun(src: seq<byte>, buffer: seq<byte>, schedule: seq<nat>)
    requires |src| >= 100 && |buffer| == 100 && forall x: nat | x < |schedule| :: schedule[x] == PRODUCER
    ensures var c := Trace(src, buffer, schedule);
            && c.s.consumer.CStart? && c.s.src == src
            && AloneLeft(c.s.producer, c.put) == if |schedule| <= 121 then 121 - |schedule| else 0
  {
    if schedule == [] {
    } else {
      var prefix := schedule[..|schedule| - 1];
      AloneRun(src, buffer, prefix);
      InvRun(src, buffer, prefix);
      AloneStep(Trace(src, buffer, prefix));
    }
  }

  /**
   A producer that runs alone on a file of at least a hundred bytes fills five slots with
   its first hundred bytes in 121 moves, and then waits; insert has come round to 0.
   */
  lemma {:induction false} FiveSlotsAhead(src: seq<byte>, buffer: seq<byte>, schedule: seq<nat>)
    requires |src| >= 100 && |buffer| == 100 && |schedule| >= 121
    requires forall x: nat | x < |schedule| :: schedule[x] == PRODUCER
    ensures var s := Run(src, buffer, schedule);
            && s.producer.PWait? && s.semP == 0 && s.semC == 5 && s.pos == 100 && s.insert == 0
            && s.buffer == src[..100] && s.out == []
  {
    AloneRun(src, buffer, schedule);
    InvRun(src, buffer, schedule);
    SegmentContents(src, buffer, schedule);
    FirstDeal(src, buffer, 100);
    var c := Trace(src, buffer, schedule);
    assert c.s.producer.PWait? && c.put == 5;
  }

  lemma {:induction false} FirstDeal(src: seq<byte>, buffer: seq<byte>, m: nat)
    requires m <= 100 <= |src| && |buffer| == 100
    ensures Dealt(src, buffer, m) == src[..m] + buffer[m..]
  {
    if m == 0 {
    } else {
      FirstDeal(src, buffer, m - 1);
      assert (m - 1) % 100 == m - 1;
    }
  }
}
