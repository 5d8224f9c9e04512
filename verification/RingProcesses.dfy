/**
 The producer and the consumer of cw7 on the shared segment: one method for every step,
 lastOne as its own loop, and a driver that lets any schedule interleave the processes.
 */
module RingProcesses {
  import opened Ring
  import opened RingInvariant
  import opened RingProperties

  class Segment {
    const src: seq<byte>           // the producer's file
    const buffer: array<byte>      // buffer[i][j] is buffer[NELE * i + j]
    var pos: nat
    var insert: nat
    var extract: nat
    var semP: nat
    var semC: nat
    var producer: ProducerPC
    var consumer: ConsumerPC
    var out: seq<byte>             // the consumer's file

    ghost function View(): State
      reads this, buffer
    {
      State(src, pos, buffer[..], insert, extract, semP, semC, producer, consumer, out)
    }

    ghost predicate Valid()
      reads this, buffer
    {
      WellFormed(View())
    }

    /** cw7/program7.c:78-92: the semaphores start at NBUF and 0; the segment holds any bytes. */
    constructor (src: seq<byte>, bytes: seq<byte>)
      requires |bytes| == NBUF * NELE
      ensures Valid() && fresh(buffer) && View() == Initial(src, bytes)
    {
      this.src, this.pos, this.insert, this.extract, this.out := src, 0, 0, 0, [];
      this.semP, this.semC, this.producer, this.consumer := NBUF, 0, PStart, CStart;
      this.buffer := new byte[NBUF * NELE](i requires 0 <= i < NBUF * NELE => bytes[i]);
      new;
      assert buffer[..] == bytes;
    }

    /** cw7/smem.c:66-73, run without interruption: is there a NUL in the slot at extract? */
    method LastOne() returns (found: bool)
      requires Valid()
      ensures found <==> |SlotText(buffer[..], extract)| < NELE
    {
      ghost var slot := buffer[..][Cell(extract, 0)..Cell(extract, 0) + NELE];
      for i := 0 to NELE
        invariant forall x: nat | x < i :: slot[x] != 0
      {
        if buffer[NELE * extract + i] == 0 {
          return true;
        }
      }
      return false;
    }

    /** cw7/producer.c:75 */
    method ResetInsert()
      requires Valid() && producer.PStart?
      modifies this`insert, this`producer
      ensures Valid() && View() == ProducerStep(old(View()))
    {
      insert, producer := 0, PWait;
    }

    /** cw7/producer.c:85: waits while semP is 0. */
    method WaitFree()
      requires Valid() && producer.PWait?
      modifies this`semP, this`producer
      ensures Valid() && View() == ProducerStep(old(View()))
    {
      if semP > 0 {
        semP, producer := semP - 1, PFill(0);
      }
    }

    /** cw7/producer.c:90 and 96: one byte of read, or its return. */
    method FillByte()
      requires Valid() && producer.PFill?
      modifies this`pos, this`producer, buffer
      ensures Valid() && View() == ProducerStep(old(View()))
    {
      var j := producer.j;
      if j < NELE && pos < |src| {
        buffer[NELE * insert + j] := src[pos];
        pos, producer := pos + 1, PFill(j + 1);
      } else if j != NELE {
        producer := PMark(j);
      } else {
        producer := PAdvance;
      }
    }

    /** cw7/producer.c:97 */
    method MarkEnd()
      requires Valid() && producer.PMark?
      modifies this`producer, buffer
      ensures Valid() && View() == ProducerStep(old(View()))
    {
      buffer[NELE * insert + producer.j] := 0;
      producer := PPostLast;
    }

    /** cw7/producer.c:102-104 */
    method PostLastFilled()
      requires Valid() && producer.PPostLast?
      modifies this`semC, this`producer
      ensures Valid() && View() == ProducerStep(old(View()))
    {
      semC, producer := semC + 1, PDone;
    }

    /** cw7/producer.c:125 */
    method AdvanceInsert()
      requires Valid() && producer.PAdvance?
      modifies this`insert, this`producer
      ensures Valid() && View() == ProducerStep(old(View()))
    {
      insert, producer := (insert + 1) % NBUF, PPost;
    }

    /** cw7/producer.c:128 */
    method PostFilled()
      requires Valid() && producer.PPost?
      modifies this`semC, this`producer
      ensures Valid() && View() == ProducerStep(old(View()))
    {
      semC, producer := semC + 1, PWait;
    }

    /** cw7/consumer.c:70 */
    method ResetExtract()
      requires Valid() && consumer.CStart?
      modifies this`extract, this`consumer
      ensures Valid() && View() == ConsumerStep(old(View()))
    {
      extract, consumer := 0, CWait;
    }

    /** cw7/consumer.c:79: waits while semC is 0. */
    method WaitFilled()
      requires Valid() && consumer.CWait?
      modifies this`semC, this`consumer
      ensures Valid() && View() == ConsumerStep(old(View()))
    {
      if semC > 0 {
        semC, consumer := semC - 1, CScan(0);
      }
    }

    /** cw7/smem.c:67-71, one turn of lastOne, or its return. */
    method ScanByte()
      requires Valid() && consumer.CScan?
      modifies this`consumer
      ensures Valid() && View() == ConsumerStep(old(View()))
    {
      var j := consumer.j;
      if j == NELE {
        consumer := CCopy(0, NELE, false);
      } else if buffer[NELE * extract + j] == 0 {
        consumer := CLength(0);
      } else {
        consumer := CScan(j + 1);
      }
    }

    /** cw7/consumer.c:85, one turn of strlen. */
    method MeasureByte()
      requires Valid() && consumer.CLength?
      modifies this`consumer
      ensures Valid() && View() == ConsumerStep(old(View()))
    {
      var j := consumer.j;
      if NELE * extract + j < buffer.Length {
        if buffer[NELE * extract + j] == 0 {
          consumer := CCopy(0, j, true);
        } else {
          consumer := CLength(j + 1);
        }
      }
    }

    /** cw7/consumer.c:84 or 99, one byte of write, or its return. */
    method CopyByte()
      requires Valid() && consumer.CCopy?
      modifies this`out, this`consumer
      ensures Valid() && View() == ConsumerStep(old(View()))
    {
      var j, len, last := consumer.j, consumer.len, consumer.last;
      if j < len {
        out := out + [buffer[NELE * extract + j]];
        consumer := CCopy(j + 1, len, last);
      } else if last {
        consumer := CPostLast;
      } else {
        consumer := CAdvance;
      }
    }

    /** cw7/consumer.c:93-95 */
    method PostLastFree()
      requires Valid() && consumer.CPostLast?
      modifies this`semP, this`consumer
      ensures Valid() && View() == ConsumerStep(old(View()))
    {
      semP, consumer := semP + 1, CDone;
    }

    /** cw7/consumer.c:122 */
    method AdvanceExtract()
      requires Valid() && consumer.CAdvance?
      modifies this`extract, this`consumer
      ensures Valid() && View() == ConsumerStep(old(View()))
    {
      extract, consumer := (extract + 1) % NBUF, CPost;
    }

    /** cw7/consumer.c:125 */
    method PostFree()
      requires Valid() && consumer.CPost?
      modifies this`semP, this`consumer
      ensures Valid() && View() == ConsumerStep(old(View()))
    {
      semP, consumer := semP + 1, CWait;
    }

    /** The named process makes its next step, whatever it is. */
    method MoveProcess(who: nat)
      requires Valid()
      modifies this, buffer
      ensures Valid() && View() == Step(old(View()), who)
    {
      if who == PRODUCER {
        match producer
        case PStart => ResetInsert();
        case PWait => WaitFree();
        case PFill(_) => FillByte();
        case PMark(_) => MarkEnd();
        case PPostLast => PostLastFilled();
        case PAdvance => AdvanceInsert();
        case PPost => PostFilled();
        case PDone =>
      } else if who == CONSUMER {
        match consumer
        case CStart => ResetExtract();
        case CWait => WaitFilled();
        case CScan(_) => ScanByte();
        case CLength(_) => MeasureByte();
        case CCopy(_, _, _) => CopyByte();
        case CPostLast => PostLastFree();
        case CAdvance => AdvanceExtract();
        case CPost => PostFree();
        case CDone =>
      }
    }
  }

  /** Both processes under a schedule that the environment picks; what the consumer has written when it is done. */
  method RunProgram(src: seq<byte>, bytes: seq<byte>, schedule: seq<nat>) returns (segment: Segment)
    requires |bytes| == NBUF * NELE
    ensures segment.Valid() && segment.View() == Run(src, bytes, schedule)
    ensures segment.consumer.CDone? ==> segment.out == UpToNul(src)
  {
    segment := new Segment(src, bytes);
    for j := 0 to |schedule|
      invariant segment.Valid() && fresh(segment) && fresh(segment.buffer)
      invariant segment.View() == Run(src, bytes, schedule[..j])
    {
      segment.MoveProcess(schedule[j]);
      assert schedule[..j + 1][..j] == schedule[..j];
    }
    assert schedule[..|schedule|] == schedule;
    OutputIsText(src, bytes, schedule);
  }
}
