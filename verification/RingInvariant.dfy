/**
 The inductive invariant of the ring: which chunk of the file every slot holds, how far
 both processes are, and how the semaphores count.

 The invariant speaks of the state and of a history: put and got count the slots that
 the producer and the consumer have posted.
 */
module RingInvariant {
  import opened Ring

  datatype Config = Config(s: State, put: nat, got: nat)

  ghost function Next(c: Config, who: nat): Config
    requires WellFormed(c.s)
  {
    Config(Step(c.s, who),
           c.put + (if who == PRODUCER && (c.s.producer.PPost? || c.s.producer.PPostLast?) then 1 else 0),
           c.got + (if who == CONSUMER && (c.s.consumer.CPost? || c.s.consumer.CPostLast?) then 1 else 0))
  }

  ghost function Trace(src: seq<byte>, buffer: seq<byte>, schedule: seq<nat>): (c: Config)
    requires |buffer| == NBUF * NELE
    ensures c.s == Run(src, buffer, schedule)
  {
    if schedule == [] then Config(Initial(src, buffer), 0, 0)
    else Next(Trace(src, buffer, schedule[..|schedule| - 1]), schedule[|schedule| - 1])
  }

  /** Byte x of the slot that chunk k goes through. */
  function Cell(k: nat, x: nat): (c: nat)
    requires x < NELE
    ensures c < NBUF * NELE
  {
    NELE * (k % NBUF) + x
  }

  /** The number of the last chunk, the short one. */
  function LastChunk(src: seq<byte>): nat {
    |src| / NELE
  }

  /** The slot of chunk k starts with the first j bytes of that chunk. */
  ghost predicate Begins(buffer: seq<byte>, src: seq<byte>, k: nat, j: nat)
    requires |buffer| == NBUF * NELE
  {
    j <= NELE && NELE * k + j <= |src| && forall x: nat | x < j :: buffer[Cell(k, x)] == src[NELE * k + x]
  }

  /** The slot of chunk k holds it: all twenty bytes, or the short rest and a NUL. */
  ghost predicate Stored(buffer: seq<byte>, src: seq<byte>, k: nat)
    requires |buffer| == NBUF * NELE
  {
    if k < LastChunk(src) then Begins(buffer, src, k, NELE)
    else k == LastChunk(src) && Begins(buffer, src, k, |src| - NELE * k) && buffer[Cell(k, |src| - NELE * k)] == 0
  }

  ghost predicate ProducerInv(src: seq<byte>, pos: nat, buffer: seq<byte>, insert: nat, pc: ProducerPC, put: nat)
    requires |buffer| == NBUF * NELE
  {
    && (if pc.PDone? then put == LastChunk(src) + 1 else put <= LastChunk(src))
    && pos <= |src|
    && match pc
       case PStart => put == 0 && pos == 0
       case PWait => insert == put % NBUF && pos == NELE * put
       case PFill(j) => insert == put % NBUF && pos == NELE * put + j && Begins(buffer, src, put, j)
       case PMark(j) => insert == put % NBUF && pos == NELE * put + j == |src| && Begins(buffer, src, put, j)
       case PPostLast => insert == put % NBUF && put == LastChunk(src) && pos == |src| && Stored(buffer, src, put)
       case PAdvance => insert == put % NBUF && pos == NELE * put + NELE && Stored(buffer, src, put)
       case PPost => insert == (put + 1) % NBUF && pos == NELE * put + NELE && Stored(buffer, src, put)
       case PDone => insert == LastChunk(src) % NBUF && pos == |src|
  }

  /** The first j bytes of the slot of chunk k are not NUL. */
  ghost predicate NoNul(buffer: seq<byte>, k: nat, j: nat)
    requires |buffer| == NBUF * NELE
  {
    j <= NELE && forall x: nat | x < j :: buffer[Cell(k, x)] != 0
  }

  /** The slot of chunk k has its first NUL at len. */
  ghost predicate NulAt(buffer: seq<byte>, k: nat, len: nat)
    requires |buffer| == NBUF * NELE
  {
    len < NELE && NoNul(buffer, k, len) && buffer[Cell(k, len)] == 0
  }

  ghost predicate HasNulFrom(buffer: seq<byte>, k: nat, j: nat)
    requires |buffer| == NBUF * NELE
  {
    exists len: nat :: j <= len && NulAt(buffer, k, len)
  }

  /** The first m bytes of the source, copied and without a NUL. */
  ghost predicate Copied(src: seq<byte>, out: seq<byte>, m: nat) {
    m <= |src| && out == src[..m] && m <= FirstNul(src)
  }

  ghost predicate ConsumerInv(src: seq<byte>, out: seq<byte>, buffer: seq<byte>, extract: nat, pc: ConsumerPC, got: nat)
    requires |buffer| == NBUF * NELE
  {
    && (!pc.CDone? ==> got <= LastChunk(src))
    && match pc
       case CStart => got == 0 && out == []
       case CWait => extract == got % NBUF && Copied(src, out, NELE * got)
       case CScan(j) => extract == got % NBUF && Copied(src, out, NELE * got) && NoNul(buffer, got, j)
       case CLength(j) => extract == got % NBUF && Copied(src, out, NELE * got) && HasNulFrom(buffer, got, j)
       case CCopy(j, len, last) =>
         && extract == got % NBUF && Copied(src, out, NELE * got + j)
         && (if last then NulAt(buffer, got, len) else len == NELE && NoNul(buffer, got, len))
       case CPostLast => extract == got % NBUF && out == UpToNul(src) && got == FirstNul(src) / NELE
       case CAdvance => extract == got % NBUF && got < LastChunk(src) && Copied(src, out, NELE * got + NELE)
       case CPost => extract == (got + 1) % NBUF && got < LastChunk(src) && Copied(src, out, NELE * got + NELE)
       case CDone => extract == (got - 1) % NBUF && out == UpToNul(src) && got == FirstNul(src) / NELE + 1
  }

  /** The slots posted and not yet taken hold their chunks. */
  ghost predicate LiveSlots(src: seq<byte>, buffer: seq<byte>, put: nat, got: nat)
    requires |buffer| == NBUF * NELE
  {
    forall k: nat | got <= k < put :: Stored(buffer, src, k)
  }

  /** Every permit is in a semaphore or with the process between its wait and its post. */
  predicate Permits(c: Config) {
    && c.got <= c.put
    && c.s.semP + (if c.s.producer.Holds() then 1 else 0) == NBUF - (c.put - c.got)
    && c.s.semC + (if c.s.consumer.Holds() then 1 else 0) == c.put - c.got
  }

  ghost predicate ProducerOK(c: Config)
    requires WellFormed(c.s)
  {
    ProducerInv(c.s.src, c.s.pos, c.s.buffer, c.s.insert, c.s.producer, c.put)
  }

  ghost predicate ConsumerOK(c: Config)
    requires WellFormed(c.s)
  {
    ConsumerInv(c.s.src, c.s.out, c.s.buffer, c.s.extract, c.s.consumer, c.got)
  }

  ghost predicate Inv(c: Config) {
    WellFormed(c.s) && Permits(c) && ProducerOK(c) && ConsumerOK(c) && LiveSlots(c.s.src, c.s.buffer, c.put, c.got)
  }

  /** Chunks less than five apart go through different slots. */
  lemma OtherSlot(k: nat, put: nat, x: nat, y: nat)
    requires k < put < k + NBUF && x < NELE && y < NELE
    ensures Cell(k, x) != Cell(put, y)
  {
  }

  /** A write into the slot of chunk put leaves the slot of an older live chunk k alone. */
  lemma OldSlotKept(buffer: seq<byte>, src: seq<byte>, k: nat, put: nat, y: nat, v: byte)
    requires |buffer| == NBUF * NELE && k < put < k + NBUF && y < NELE
    ensures forall j: nat :: Begins(buffer, src, k, j) ==> Begins(buffer[Cell(put, y) := v], src, k, j)
    ensures Stored(buffer, src, k) ==> Stored(buffer[Cell(put, y) := v], src, k)
    ensures forall x: nat | x < NELE :: buffer[Cell(put, y) := v][Cell(k, x)] == buffer[Cell(k, x)]
  {
    forall x: nat | x < NELE ensures buffer[Cell(put, y) := v][Cell(k, x)] == buffer[Cell(k, x)] {
      OtherSlot(k, put, x, y);
    }
  }

  /** The producer writes byte y of its slot: the live slots and the consumer's slot stay as they are. */
  lemma WriteKeepsOthers(c: Config, y: nat, v: byte)
    requires Inv(c) && c.s.producer.Touches() && y < NELE
    ensures LiveSlots(c.s.src, c.s.buffer[Cell(c.put, y) := v], c.put, c.got)
    ensures ConsumerInv(c.s.src, c.s.out, c.s.buffer[Cell(c.put, y) := v], c.s.extract, c.s.consumer, c.got)
  {
    var buffer := c.s.buffer[Cell(c.put, y) := v];
    forall k: nat | c.got <= k < c.put ensures Stored(buffer, c.s.src, k) {
      OldSlotKept(c.s.buffer, c.s.src, k, c.put, y, v);
    }
    if c.s.consumer.Holds() {
      OldSlotKept(c.s.buffer, c.s.src, c.got, c.put, y, v);
      if c.s.consumer.CLength? {
        var len: nat :| c.s.consumer.j <= len && NulAt(c.s.buffer, c.got, len);
        assert NulAt(buffer, c.got, len);
      }
    }
  }

  lemma ProducerFills(c: Config)
    requires WellFormed(c.s) && c.s.producer.PFill? && ProducerOK(c)
    ensures ProducerOK(Next(c, PRODUCER))
  {
  }

  lemma ProducerMarks(c: Config)
    requires WellFormed(c.s) && c.s.producer.PMark? && ProducerOK(c)
    ensures ProducerOK(Next(c, PRODUCER))
  {
  }

  /** The steps of the producer that leave the buffer and the indices alone. */
  lemma ProducerSignals(c: Config)
    requires WellFormed(c.s) && ProducerOK(c) && !c.s.producer.Touches() && !c.s.producer.PAdvance?
    ensures ProducerOK(Next(c, PRODUCER))
  {
  }

  lemma ProducerAdvances(c: Config)
    requires WellFormed(c.s) && ProducerOK(c) && c.s.producer.PAdvance?
    ensures ProducerOK(Next(c, PRODUCER))
  {
  }

  lemma ProducerMoves(c: Config)
    requires WellFormed(c.s) && ProducerOK(c)
    ensures ProducerOK(Next(c, PRODUCER))
  {
    match c.s.producer
    case PFill(_) => ProducerFills(c);
    case PMark(_) => ProducerMarks(c);
    case PAdvance => ProducerAdvances(c);
    case _ => ProducerSignals(c);
  }

  lemma ProducerSideFrame(s: State)
    requires WellFormed(s)
    ensures ProducerStep(s).src == s.src && ProducerStep(s).out == s.out
    ensures ProducerStep(s).extract == s.extract && ProducerStep(s).consumer == s.consumer
  {
  }

  /** What a write of the producer leaves to the consumer. */
  lemma ProducerWriteFrame(c: Config)
    requires Inv(c) && c.s.producer.Touches()
    ensures ConsumerOK(Next(c, PRODUCER)) && LiveSlots(c.s.src, Next(c, PRODUCER).s.buffer, c.put, c.got)
  {
    var s, j := c.s, c.s.producer.j;
    ProducerSideFrame(s);
    assert NELE * s.insert + j == NELE * (c.put % NBUF) + j;
    if j < NELE && (s.producer.PMark? || s.pos < |s.src|) {
      var v := if s.producer.PFill? then s.src[s.pos] else 0;
      assert ProducerStep(s).buffer == s.buffer[Cell(c.put, j) := v];
      WriteKeepsOthers(c, j, v);
    } else {
      assert ProducerStep(s).buffer == s.buffer;
    }
  }

  /** What the other steps of the producer leave alone. */
  lemma ProducerSignalFrame(s: State)
    requires WellFormed(s) && !s.producer.Touches()
    ensures ProducerStep(s).buffer == s.buffer
  {
  }

  lemma ProducerFrame(c: Config)
    requires Inv(c)
    ensures ConsumerOK(Next(c, PRODUCER))
    ensures LiveSlots(c.s.src, Next(c, PRODUCER).s.buffer, c.put, c.got)
    ensures c.s.producer.PPost? || c.s.producer.PPostLast? ==> Stored(Next(c, PRODUCER).s.buffer, c.s.src, c.put)
    ensures Next(c, PRODUCER).s.src == c.s.src
  {
    ProducerSideFrame(c.s);
    if c.s.producer.Touches() {
      ProducerWriteFrame(c);
    } else {
      ProducerSignalFrame(c.s);
    }
  }

  lemma ProducerPermits(c: Config)
    requires WellFormed(c.s) && Permits(c)
    ensures Permits(Next(c, PRODUCER))
  {
  }

  lemma ProducerKeeps(c: Config)
    requires Inv(c)
    ensures Inv(Next(c, PRODUCER))
  {
    ProducerPermits(c);
    ProducerFrame(c);
    ProducerMoves(c);
    assert Next(c, PRODUCER).put == if c.s.producer.PPost? || c.s.producer.PPostLast? then c.put + 1 else c.put;
  }

  /** Bytes of a live slot before its first NUL are bytes of the source. */
  lemma TextFromSource(buffer: seq<byte>, src: seq<byte>, k: nat, len: nat, x: nat)
    requires |buffer| == NBUF * NELE && Stored(buffer, src, k) && NoNul(buffer, k, len) && x < len
    ensures NELE * k + x < |src| && buffer[Cell(k, x)] == src[NELE * k + x] != 0
  {
  }

  lemma ConsumerCopiesByte(c: Config)
    requires WellFormed(c.s) && ConsumerOK(c) && c.s.consumer.CCopy? && Stored(c.s.buffer, c.s.src, c.got)
    requires c.s.consumer.j < c.s.consumer.len
    ensures ConsumerOK(Next(c, CONSUMER))
  {
    NextByte(c);
    CopyShape(c);
    ByteCopied(c.s.src, c.s.out, c.s.buffer, c.s.extract, c.s.consumer, c.got);
  }

  lemma CopyShape(c: Config)
    requires WellFormed(c.s) && c.s.consumer.CCopy? && c.s.consumer.j < c.s.consumer.len
    ensures var d, pc := Next(c, CONSUMER), c.s.consumer;
            && d.s.src == c.s.src && d.s.buffer == c.s.buffer && d.s.extract == c.s.extract && d.got == c.got
            && d.s.out == c.s.out + [c.s.buffer[NELE * c.s.extract + pc.j]]
            && d.s.consumer == CCopy(pc.j + 1, pc.len, pc.last)
  {
  }

  lemma ByteCopied(src: seq<byte>, out: seq<byte>, buffer: seq<byte>, extract: nat, pc: ConsumerPC, got: nat)
    requires |buffer| == NBUF * NELE && pc.CCopy? && pc.j < pc.len && ConsumerInv(src, out, buffer, extract, pc, got)
    requires NELE * got + pc.j < |src| && src[NELE * got + pc.j] != 0
    ensures ConsumerInv(src, out + [src[NELE * got + pc.j]], buffer, extract, CCopy(pc.j + 1, pc.len, pc.last), got)
  {
  }

  /** The byte that the consumer copies next is the next byte of the source. */
  lemma NextByte(c: Config)
    requires WellFormed(c.s) && ConsumerOK(c) && c.s.consumer.CCopy? && Stored(c.s.buffer, c.s.src, c.got)
    requires c.s.consumer.j < c.s.consumer.len
    ensures var m := NELE * c.got + c.s.consumer.j;
            m < |c.s.src| && c.s.buffer[NELE * c.s.extract + c.s.consumer.j] == c.s.src[m] != 0
  {
    var s, j := c.s, c.s.consumer.j;
    assert NELE * s.extract + j == Cell(c.got, j);
    assert NoNul(s.buffer, c.got, s.consumer.len);
    TextFromSource(s.buffer, s.src, c.got, s.consumer.len, j);
  }

  lemma ConsumerCopiesEnd(c: Config)
    requires WellFormed(c.s) && ConsumerOK(c) && c.s.consumer.CCopy? && Stored(c.s.buffer, c.s.src, c.got)
    requires c.s.consumer.j == c.s.consumer.len
    ensures ConsumerOK(Next(c, CONSUMER))
  {
  }

  lemma ConsumerMeasures(c: Config)
    requires WellFormed(c.s) && ConsumerOK(c) && c.s.consumer.CLength?
    ensures ConsumerOK(Next(c, CONSUMER))
  {
  }

  lemma ConsumerScans(c: Config)
    requires WellFormed(c.s) && ConsumerOK(c) && c.s.consumer.CScan?
    ensures ConsumerOK(Next(c, CONSUMER))
  {
    if c.s.consumer.j < NELE && c.s.buffer[Cell(c.got, c.s.consumer.j)] == 0 {
      assert NulAt(c.s.buffer, c.got, c.s.consumer.j);
    }
  }

  /** The steps of the consumer that leave the slots, the file and the index alone. */
  lemma ConsumerSignals(c: Config)
    requires WellFormed(c.s) && ConsumerOK(c)
    requires !c.s.consumer.Touches() && !c.s.consumer.CAdvance? && !c.s.consumer.CPost?
    ensures ConsumerOK(Next(c, CONSUMER))
  {
  }

  lemma ConsumerAdvances(c: Config)
    requires WellFormed(c.s) && ConsumerOK(c) && (c.s.consumer.CAdvance? || c.s.consumer.CPost?)
    ensures ConsumerOK(Next(c, CONSUMER))
  {
    assert (c.got % NBUF + 1) % NBUF == (c.got + 1) % NBUF;
    assert NELE * (c.got + 1) == NELE * c.got + NELE;
  }

  lemma ConsumerPermits(c: Config)
    requires WellFormed(c.s) && Permits(c)
    ensures Permits(Next(c, CONSUMER))
  {
  }

  /** What a step of the consumer leaves to the producer. */
  lemma ConsumerFrame(c: Config)
    requires WellFormed(c.s) && c.got <= c.put
    ensures var d := Next(c, CONSUMER);
            && d.s.src == c.s.src && d.s.buffer == c.s.buffer && d.s.pos == c.s.pos && d.s.insert == c.s.insert
            && d.s.producer == c.s.producer && d.put == c.put && d.got >= c.got
  {
  }

  lemma ConsumerKeeps(c: Config)
    requires Inv(c)
    ensures Inv(Next(c, CONSUMER))
  {
    ConsumerPermits(c);
    ConsumerFrame(c);
    match c.s.consumer
    case CCopy(j, len, _) => if j < len { ConsumerCopiesByte(c); } else { ConsumerCopiesEnd(c); }
    case CLength(_) => ConsumerMeasures(c);
    case CScan(_) => ConsumerScans(c);
    case CAdvance => ConsumerAdvances(c);
    case CPost => ConsumerAdvances(c);
    case _ => ConsumerSignals(c);
  }

  lemma InvStep(c: Config, who: nat)
    requires Inv(c)
    ensures Inv(Next(c, who))
  {
    if who == PRODUCER {
      ProducerKeeps(c);
    } else if who == CONSUMER {
      ConsumerKeeps(c);
    }
  }

  lemma {:induction false} InvRun(src: seq<byte>, buffer: seq<byte>, schedule: seq<nat>)
    requires |buffer| == NBUF * NELE
    ensures Inv(Trace(src, buffer, schedule))
    ensures Run(src, buffer, schedule).src == src
  {
    if schedule == [] {
    } else {
      InvRun(src, buffer, schedule[..|schedule| - 1]);
      InvStep(Trace(src, buffer, schedule[..|schedule| - 1]), schedule[|schedule| - 1]);
    }
  }
}
