/** The message queue between two event loops: framed messages in two byte buffers. */
module MessageQueues {
  import opened Bytes
  import opened DynamicBuffers
  import opened QueueProtocol

  // ----- frames -----

  const HEADER_BYTES: nat := 16   // host, four bytes of padding, size

  predicate ValidMessage(m: Message) {
    IsInt32(m.host) && |m.data| < 0x8000_0000
  }

  /** What producers push before each step of the consumer. */
  type Arrivals = a: nat -> seq<Message> | forall i: nat, m :: m in a(i) ==> ValidMessage(m) witness (_ => [])

  /** One element as it lies in a buffer; the padding after the host is never written. */
  ghost predicate IsFrame(bytes: seq<byte>, m: Message) {
    && |bytes| == HEADER_BYTES + |m.data|
    && bytes[..4] == Int32Bytes(m.host)
    && bytes[8..16] == Little(|m.data|, 8)
    && bytes[16..] == m.data
  }

  ghost predicate Framed(bytes: seq<byte>, ms: seq<Message>)
    decreases ms
  {
    if ms == [] then bytes == []
    else
      var n := HEADER_BYTES + |ms[0].data|;
      ValidMessage(ms[0]) && n <= |bytes| && IsFrame(bytes[..n], ms[0]) && Framed(bytes[n..], ms[1..])
  }

  function HostAt(bytes: seq<byte>): int
    requires HEADER_BYTES <= |bytes|
  {
    BytesInt32(bytes[..4])
  }

  function SizeAt(bytes: seq<byte>): nat
    requires HEADER_BYTES <= |bytes|
  {
    FromLittle(bytes[8..16])
  }

  /** The header of the first frame gives back its host and size. */
  lemma HeaderOf(bytes: seq<byte>, ms: seq<Message>)
    requires Framed(bytes, ms) && ms != []
    ensures HEADER_BYTES <= |bytes| && HostAt(bytes) == ms[0].host && SizeAt(bytes) == |ms[0].data|
    ensures HEADER_BYTES + |ms[0].data| <= |bytes| && bytes[16..16 + |ms[0].data|] == ms[0].data
  {
    var n := HEADER_BYTES + |ms[0].data|;
    var frame := bytes[..n];
    assert frame[..4] == bytes[..4] && frame[8..16] == bytes[8..16] && frame[16..] == bytes[16..n];
    Int32RoundTrip(ms[0].host);
    Ranges();
    LittleRoundTrip(|ms[0].data|, 8);
  }

  lemma FirstIsUnique(bytes: seq<byte>, ms: seq<Message>, ms': seq<Message>)
    requires Framed(bytes, ms) && Framed(bytes, ms') && ms != [] && ms' != []
    ensures ms[0] == ms'[0]
  {
    HeaderOf(bytes, ms);
    HeaderOf(bytes, ms');
  }

  lemma NoBytesNoFrames(bytes: seq<byte>, ms: seq<Message>)
    requires Framed(bytes, ms)
    ensures bytes == [] <==> ms == []
  {}

  lemma FirstAndRest(ms: seq<Message>, ms': seq<Message>)
    requires ms != [] && ms' != [] && ms[0] == ms'[0] && ms[1..] == ms'[1..]
    ensures ms == ms'
  {
    assert ms == [ms[0]] + ms[1..] && ms' == [ms'[0]] + ms'[1..];
  }

  /** Bytes that are frames are frames of one list of messages only. */
  lemma {:induction false} FramesAreUnique(bytes: seq<byte>, ms: seq<Message>, ms': seq<Message>)
    requires Framed(bytes, ms) && Framed(bytes, ms')
    ensures ms == ms'
    decreases ms
  {
    NoBytesNoFrames(bytes, ms);
    NoBytesNoFrames(bytes, ms');
    if bytes != [] {
      FirstIsUnique(bytes, ms, ms');
      FramesAreUnique(bytes[HEADER_BYTES + |ms[0].data|..], ms[1..], ms'[1..]);
      FirstAndRest(ms, ms');
    }
  }

  lemma FramedCons(first: seq<byte>, m: Message, rest: seq<byte>, ms: seq<Message>)
    requires IsFrame(first, m) && ValidMessage(m) && Framed(rest, ms)
    ensures Framed(first + rest, [m] + ms)
  {
    assert (first + rest)[..|first|] == first && (first + rest)[|first|..] == rest && ([m] + ms)[1..] == ms;
  }

  lemma {:induction false} FramedAppend(bytes: seq<byte>, ms: seq<Message>, frame: seq<byte>, m: Message)
    requires Framed(bytes, ms) && IsFrame(frame, m) && ValidMessage(m)
    ensures Framed(bytes + frame, ms + [m])
    decreases ms
  {
    if ms == [] {
      FramedCons(frame, m, [], []);
      assert bytes + frame == frame + [] && ms + [m] == [m] + [];
    } else {
      var n := HEADER_BYTES + |ms[0].data|;
      FramedAppend(bytes[n..], ms[1..], frame, m);
      FramedCons(bytes[..n], ms[0], bytes[n..] + frame, ms[1..] + [m]);
      assert ms[..1] == [ms[0]];
      SplitConcat(bytes, n, frame);
      SplitConcat(ms, 1, [m]);
    }
  }

  lemma FrameOf(host: int, padding: seq<byte>, data: seq<byte>)
    requires |padding| == 4
    ensures IsFrame(Int32Bytes(host) + padding + Little(|data|, 8) + data, Message(host, data))
  {}

  /** Three fields written over a room, with four bytes left out after the first. */
  lemma FieldsWritten(room: seq<byte>, host: seq<byte>, size: seq<byte>, data: seq<byte>, room': seq<byte>)
    requires |host| == 4 && |size| == 8 && HEADER_BYTES + |data| <= |room|
    requires var a := room[..0] + host + room[4..];
      var b := a[..8] + size + a[16..];
      room' == b[..16] + data + b[16 + |data|..]
    ensures HEADER_BYTES + |data| <= |room'| && room'[..HEADER_BYTES + |data|] == host + room[4..8] + size + data
  {
    var a := room[..0] + host + room[4..];
    var b := a[..8] + size + a[16..];
    assert b[..16] == host + room[4..8] + size;
  }

  /** Write one element through the write pointer, field by field. */
  method WriteElement(buffer: DynamicBuffer, host: int, data: seq<byte>) returns (ghost frame: seq<byte>)
    requires buffer.Valid() && ValidMessage(Message(host, data))
    modifies buffer
    ensures buffer.Valid()
    ensures IsFrame(frame, Message(host, data)) && buffer.Contents() == old(buffer.Contents()) + frame
  {
    var writeSize := |data| + HEADER_BYTES;
    buffer.ReserveWritableBytes(writeSize);
    ghost var room := buffer.Room();
    buffer.Poke(0, Int32Bytes(host));
    buffer.Poke(8, Little(|data|, 8));
    buffer.Poke(16, data);
    frame := Int32Bytes(host) + room[4..8] + Little(|data|, 8) + data;
    FieldsWritten(room, Int32Bytes(host), Little(|data|, 8), data, buffer.Room());
    FrameOf(host, room[4..8], data);
    buffer.WrittenBytes(writeSize);
  }

  /** Read one element through the read pointer, then drop it. */
  method ReadElement(buffer: DynamicBuffer, ghost ms: seq<Message>) returns (host: int, data: seq<byte>)
    requires buffer.Valid() && Framed(buffer.Contents(), ms) && ms != []
    modifies buffer`readIndex, buffer`writeIndex
    ensures buffer.Valid() && host == ms[0].host && data == ms[0].data
    ensures Framed(buffer.Contents(), ms[1..])
  {
    ghost var bytes := buffer.Contents();
    HeaderOf(bytes, ms);
    var header := buffer.Read(HEADER_BYTES);
    assert header[..4] == bytes[..4] && header[8..16] == bytes[8..16];
    var size := SizeAt(header);
    host := HostAt(header);
    var element := buffer.Read(HEADER_BYTES + size);
    data := element[HEADER_BYTES..];
    assert data == bytes[16..16 + size];
    buffer.ReadBytes(size + HEADER_BYTES);
  }

  // ----- the queue -----

  class MessageQueue {
    var producer: DynamicBuffer
    var consumer: DynamicBuffer
    const readBuffer: DynamicBuffer
    var delivered: seq<Message>   // the calls of the read callback
    ghost var q: Queue

    ghost predicate Separate()
      reads this
    {
      producer != consumer && producer != readBuffer && consumer != readBuffer
    }

    /** The buffers hold the frames of the protocol state. */
    ghost predicate Valid()
      reads this, producer, consumer, readBuffer
    {
      && Separate()
      && producer.Valid() && consumer.Valid() && readBuffer.Valid()
      && Framed(producer.Contents(), q.producer)
      && Framed(consumer.Contents(), q.consumer)
      && readBuffer.Contents() == []
      && delivered == q.delivered
    }

    constructor (initSize: nat, extSize: nat)
      requires 0 < extSize
      ensures Valid() && fresh({producer, consumer, readBuffer}) && q == EMPTY
    {
      producer := new DynamicBuffer(initSize, extSize);
      consumer := new DynamicBuffer(initSize, extSize);
      readBuffer := new DynamicBuffer(1024, 256);
      delivered := [];
      q := EMPTY;
    }

    /** Push, under the write lock: one frame behind those already there. */
    method Push(host: int, data: seq<byte>) returns (size: int)
      requires Valid() && ValidMessage(Message(host, data))
      modifies producer, `q
      ensures Valid()
      ensures size == |data| && q == Next(old(q), Step.Push(Message(host, data)))
      ensures producer == old(producer) && consumer == old(consumer)
    {
      ghost var frame := WriteElement(producer, host, data);
      FramedAppend(old(producer.Contents()), q.producer, frame, Message(host, data));
      q := Next(q, Step.Push(Message(host, data)));
      size := |data|;
    }

    /** Exchange, under both locks: the buffers trade places. */
    method Exchange()
      requires Valid() && q.exchanging
      modifies `producer, `consumer, `q
      ensures Valid()
      ensures q == Next(old(q), Step.Exchange)
      ensures producer == old(consumer) && consumer == old(producer)
    {
      var swap := consumer;
      consumer := producer;
      producer := swap;
      q := Next(q, Step.Exchange);
    }

    /** Pop: move the data of the first frame to the read buffer.  Zero when there is
        no frame, or an empty one. */
    method Pop() returns (size: int, host: int)
      requires Valid() && !q.exchanging
      modifies consumer, readBuffer
      ensures Separate() && producer.Valid() && consumer.Valid() && readBuffer.Valid()
      ensures producer.Contents() == old(producer.Contents())
      ensures if q.consumer == [] then size == 0 && Valid()
        else && size == |q.consumer[0].data| && host == q.consumer[0].host
             && readBuffer.Contents() == q.consumer[0].data
             && Framed(consumer.Contents(), q.consumer[1..])
    {
      host := -1;
      if consumer.ReadableBytes() <= 0 {
        assert q.consumer == [] by { if q.consumer != [] { HeaderOf(consumer.Contents(), q.consumer); } }
        return 0, host;
      }
      assert q.consumer != [];
      var data;
      host, data := ReadElement(consumer, q.consumer);
      readBuffer.Append(data);
      assert [] + data == data;
      size := |data|;
    }

    /** Pushes by producers, in order. */
    method PushAll(ms: seq<Message>)
      requires Valid() && (forall m :: m in ms ==> ValidMessage(m))
      modifies producer, `q
      ensures Valid() && producer == old(producer) && consumer == old(consumer)
      ensures q == PushedAll(old(q), ms)
    {
      var i := 0;
      PushNone(q);
      while i < |ms|
        invariant 0 <= i <= |ms| && Valid() && producer == old(producer) && consumer == old(consumer)
        invariant q == PushedAll(old(q), ms[..i])
      {
        PushOneMore(old(q), ms, i);
        var _ := Push(ms[i].host, ms[i].data);
        i := i + 1;
      }
      assert ms[..i] == ms;
    }

    /** The pending-read callback: pop until a pop returns nothing, handing each message
        to the reader, then exchange.  `arrivals(i)` is what producers push before the
        consumer's i-th step, so every interleaving is covered. */
    method OnPendingRead(arrivals: Arrivals)
      requires Valid() && !q.exchanging
      modifies this, producer, consumer, readBuffer
      ensures Valid() && q == DrainedTo(old(q), arrivals)
    {
      ghost var qs := [q];
      var i: nat := 0;
      var more := true;
      while more
        invariant Valid() && producer == old(producer) && consumer == old(consumer)
        invariant |qs| == i + 1 && qs[0] == old(q) && qs[i] == q && AreRounds(qs, arrivals) && q.exchanging == !more
        decreases |q.consumer|, more
      {
        more := DrainRound(arrivals(i));
        RoundsGoOn(qs, arrivals, q);
        qs := qs + [q];
        i := i + 1;
      }
      DrainEnds(qs, arrivals);
      EndDrain(arrivals(i));
    }

    /** One round of the drain: what arrives before it, then a pop. */
    method DrainRound(arrivals: seq<Message>) returns (more: bool)
      requires Valid() && !q.exchanging && (forall m :: m in arrivals ==> ValidMessage(m))
      modifies `delivered, `q, producer, consumer, readBuffer
      ensures Valid() && more == !q.exchanging && q == Next(PushedAll(old(q), arrivals), Step.Pop)
      ensures |q.consumer| <= |old(q.consumer)| && (more ==> |q.consumer| < |old(q.consumer)|)
    {
      PushAll(arrivals);
      more := PopOnce();
    }

    /** Behind the loop: what arrives last, and the exchange. */
    method EndDrain(arrivals: seq<Message>)
      requires Valid() && q.exchanging && (forall m :: m in arrivals ==> ValidMessage(m))
      modifies `producer, `consumer, `q, producer
      ensures Valid() && q == Next(PushedAll(old(q), arrivals), Step.Exchange)
    {
      PushAll(arrivals);
      Exchange();
    }

    /** The reader is called on the read buffer, which is then emptied. */
    method HandOver(host: int, size: nat)
      requires readBuffer.Valid() && size == |readBuffer.Contents()|
      modifies `delivered, readBuffer`readIndex, readBuffer`writeIndex
      ensures readBuffer.Valid() && readBuffer.Contents() == []
      ensures delivered == old(delivered) + [Message(host, old(readBuffer.Contents()))]
    {
      var data := readBuffer.Read(size);
      assert data == readBuffer.Contents();
      delivered := delivered + [Message(host, data)];
      readBuffer.ReadBytes(size);
    }

    /** One round of the drain loop. */
    method PopOnce() returns (more: bool)
      requires Valid() && !q.exchanging
      modifies `delivered, `q, consumer, readBuffer
      ensures Valid()
      ensures q == Next(old(q), Step.Pop) && more == !q.exchanging
      ensures more ==> |q.consumer| < |old(q.consumer)|
      ensures |q.consumer| <= |old(q.consumer)|
    {
      var size, host := Pop();
      if size <= 0 {
        q := Next(q, Step.Pop);
        return false;
      }
      HandOver(host, size);
      q := Next(q, Step.Pop);
      more := true;
    }
  }

  // ----- the drain as a run of the protocol -----

  function PushedAll(q: Queue, ms: seq<Message>): Queue {
    q.(producer := q.producer + ms, pushed := q.pushed + ms)
  }

  lemma PushNone(q: Queue)
    ensures PushedAll(q, []) == q
  {
    EmptyConcat(q.producer);
    EmptyConcat(q.pushed);
  }

  lemma PushOneMore(q: Queue, ms: seq<Message>, i: nat)
    requires i < |ms|
    ensures PushedAll(q, ms[..i + 1]) == Next(PushedAll(q, ms[..i]), Step.Push(ms[i]))
  {
    assert ms[..i + 1] == ms[..i] + [ms[i]];
    Assoc(q.producer, ms[..i], [ms[i]]);
    Assoc(q.pushed, ms[..i], [ms[i]]);
  }

  /** The queue before each round of a drain, and after the last. */
  ghost predicate AreRounds(qs: seq<Queue>, arrivals: Arrivals) {
    && qs != []
    && forall i {:trigger IsRound(qs, i, arrivals)} :: 0 <= i < |qs| - 1 ==> IsRound(qs, i, arrivals)
  }

  ghost predicate IsRound(qs: seq<Queue>, i: nat, arrivals: Arrivals)
    requires i < |qs| - 1
  {
    !qs[i].exchanging && qs[i + 1] == Next(PushedAll(qs[i], arrivals(i)), Step.Pop)
  }

  lemma RoundsGoOn(qs: seq<Queue>, arrivals: Arrivals, q: Queue)
    requires AreRounds(qs, arrivals) && !qs[|qs| - 1].exchanging
    requires q == Next(PushedAll(qs[|qs| - 1], arrivals(|qs| - 1)), Step.Pop)
    ensures AreRounds(qs + [q], arrivals)
  {
    forall i | 0 <= i < |qs| ensures IsRound(qs + [q], i, arrivals) {
      assert i < |qs| - 1 ==> IsRound(qs, i, arrivals);
    }
  }

  function PushesOf(ms: seq<Message>): seq<Step> {
    seq(|ms|, i requires 0 <= i < |ms| => Step.Push(ms[i]))
  }

  /** n rounds of the drain: what arrives before each pop, then the pop. */
  function Rounds(arrivals: Arrivals, n: nat): seq<Step> {
    if n == 0 then [] else Rounds(arrivals, n - 1) + PushesOf(arrivals(n - 1)) + [Step.Pop]
  }

  /** A drain of n pops, and the exchange behind it. */
  function Drain(arrivals: Arrivals, n: nat): seq<Step> {
    Rounds(arrivals, n) + PushesOf(arrivals(n)) + [Step.Exchange]
  }

  /** All that arrives before the first n steps of the consumer. */
  function Arrived(arrivals: Arrivals, n: nat): seq<Message> {
    if n == 0 then [] else Arrived(arrivals, n - 1) + arrivals(n - 1)
  }

  /** One for each message delivered, and the one that finds none or an empty one. */
  function Pops(q: Queue): nat { |UntilEmpty(q.consumer)| + 1 }

  /** What a whole drain comes to: everything up to the first empty message delivered,
      what stands behind it left, and all that was pushed before and meanwhile, each
      once and in order, to be read next. */
  function DrainedTo(q: Queue, arrivals: Arrivals): Queue {
    var more := Arrived(arrivals, Pops(q) + 1);
    Queue(AfterEmpty(q.consumer), q.producer + more, false, q.pushed + more, q.delivered + UntilEmpty(q.consumer))
  }

  ghost predicate Reaches(q: Queue, run: seq<Step>, q': Queue) {
    Enables(q, run) && q' == After(q, run)
  }

  /** What n rounds come to, as long as the drain has not ended before. */
  ghost predicate RoundsMake(q0: Queue, arrivals: Arrivals, n: nat, q: Queue) {
    && Reaches(q0, Rounds(arrivals, n), q) && NoExchange(Rounds(arrivals, n))
    && q.producer == q0.producer + Arrived(arrivals, n) && q.pushed == q0.pushed + Arrived(arrivals, n)
    && |q.delivered| + (if q.exchanging then 1 else 0) == |q0.delivered| + n
  }

  lemma {:induction false} RoundsAreARun(qs: seq<Queue>, arrivals: Arrivals, n: nat)
    requires AreRounds(qs, arrivals) && !qs[0].exchanging && n < |qs|
    ensures RoundsMake(qs[0], arrivals, n, qs[n])
  {
    if n == 0 {
      EmptyConcat(qs[0].producer);
      EmptyConcat(qs[0].pushed);
    } else {
      RoundsAreARun(qs, arrivals, n - 1);
      assert IsRound(qs, n - 1, arrivals);
      OneRoundMore(qs[0], arrivals, n - 1, qs[n - 1]);
    }
  }

  lemma OneRoundMore(q0: Queue, arrivals: Arrivals, n: nat, q: Queue)
    requires RoundsMake(q0, arrivals, n, q) && !q.exchanging
    ensures RoundsMake(q0, arrivals, n + 1, Next(PushedAll(q, arrivals(n)), Step.Pop))
  {
    ExtendByAll(q0, Rounds(arrivals, n), q, arrivals(n));
    Extend(q0, Rounds(arrivals, n) + PushesOf(arrivals(n)), PushedAll(q, arrivals(n)), Step.Pop);
    Assoc(q0.producer, Arrived(arrivals, n), arrivals(n));
    Assoc(q0.pushed, Arrived(arrivals, n), arrivals(n));
  }

  lemma DrainEnds(qs: seq<Queue>, arrivals: Arrivals)
    requires AreRounds(qs, arrivals) && !qs[0].exchanging && qs[|qs| - 1].exchanging
    ensures |qs| - 1 == Pops(qs[0])
    ensures Next(PushedAll(qs[|qs| - 1], arrivals(|qs| - 1)), Step.Exchange) == DrainedTo(qs[0], arrivals)
  {
    var q, n := qs[0], |qs| - 1;
    RoundsAreARun(qs, arrivals, n);
    DrainDelivers(q, Rounds(arrivals, n));
    Assoc(q.producer, Arrived(arrivals, n), arrivals(n));
    Assoc(q.pushed, Arrived(arrivals, n), arrivals(n));
  }

  /** A drain is a run of the protocol: its pops, with the arrivals pushed before each,
      and one exchange. */
  lemma DrainIsARun(q: Queue, arrivals: Arrivals)
    requires !q.exchanging
    ensures Reaches(q, Drain(arrivals, Pops(q)), DrainedTo(q, arrivals)) && NoExchange(Rounds(arrivals, Pops(q)))
  {
    var qs := RoundsFrom(q, arrivals, |UntilEmpty(q.consumer)|);
    var n := |qs| - 1;
    var end := Next(PushedAll(qs[n], arrivals(n)), Step.Pop);
    RoundsGoOn(qs, arrivals, end);
    qs := qs + [end];
    DrainEnds(qs, arrivals);
    RoundsAreARun(qs, arrivals, n + 1);
    ExtendByAll(q, Rounds(arrivals, n + 1), end, arrivals(n + 1));
    Extend(q, Rounds(arrivals, n + 1) + PushesOf(arrivals(n + 1)), PushedAll(end, arrivals(n + 1)), Step.Exchange);
  }

  /** Each round but the last delivers one message. */
  lemma {:induction false} RoundsFrom(q: Queue, arrivals: Arrivals, n: nat) returns (qs: seq<Queue>)
    requires !q.exchanging && n <= |UntilEmpty(q.consumer)|
    ensures n <= |q.consumer| && |qs| == n + 1 && qs[0] == q && AreRounds(qs, arrivals)
    ensures !qs[n].exchanging && qs[n].consumer == q.consumer[n..]
    ensures n == |UntilEmpty(q.consumer)| ==> q.consumer[n..] == [] || q.consumer[n].data == []
  {
    UntilIsPrefix(q.consumer);
    qs := [q];
    if n != 0 {
      qs := RoundsFrom(q, arrivals, n - 1);
      var q' := Next(PushedAll(qs[n - 1], arrivals(n - 1)), Step.Pop);
      assert q.consumer[n - 1..][1..] == q.consumer[n..];
      RoundsGoOn(qs, arrivals, q');
      qs := qs + [q'];
    }
  }

  lemma {:induction false} UntilIsPrefix(ms: seq<Message>)
    ensures var n := |UntilEmpty(ms)|;
      n <= |ms| && NoneEmpty(ms[..n]) && (n < |ms| ==> ms[n].data == [])
  {
    if ms != [] && ms[0].data != [] {
      UntilIsPrefix(ms[1..]);
      assert ms[..|UntilEmpty(ms)|] == [ms[0]] + ms[1..][..|UntilEmpty(ms[1..])|];
    }
  }

  lemma {:induction false} ExtendByAll(q0: Queue, run: seq<Step>, q: Queue, ms: seq<Message>)
    requires Reaches(q0, run, q)
    ensures Reaches(q0, run + PushesOf(ms), PushedAll(q, ms))
    decreases |ms|
  {
    if ms == [] {
      PushNone(q);
      EmptyConcat(run);
    } else {
      var n := |ms| - 1;
      ExtendByAll(q0, run, q, ms[..n]);
      Extend(q0, run + PushesOf(ms[..n]), PushedAll(q, ms[..n]), Step.Push(ms[n]));
      PushOneMore(q, ms, n);
      assert ms[..n + 1] == ms;
      assert PushesOf(ms) == PushesOf(ms[..n]) + [Step.Push(ms[n])];
      Assoc(run, PushesOf(ms[..n]), [Step.Push(ms[n])]);
    }
  }

  lemma Extend(q0: Queue, run: seq<Step>, q: Queue, step: Step)
    requires Reaches(q0, run, q) && Enabled(q, step)
    ensures Reaches(q0, run + [step], Next(q, step))
  {
    ExtendRun(q0, run, step);
  }

  lemma {:induction false} ExtendRun(q: Queue, run: seq<Step>, step: Step)
    requires Enables(q, run) && Enabled(After(q, run), step)
    ensures Enables(q, run + [step]) && After(q, run + [step]) == Next(After(q, run), step)
    decreases run
  {
    if run == [] {
      assert run + [step] == [step] && [step][1..] == [];
    } else {
      ExtendRun(Next(q, run[0]), run[1..], step);
      assert (run + [step])[1..] == run[1..] + [step];
    }
  }
}
