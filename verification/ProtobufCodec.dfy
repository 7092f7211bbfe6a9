/** The protobuf codec over the byte buffer. */
module ProtobufCodecs {
  import opened Bytes
  import opened DynamicBuffers
  import opened ProtobufFraming

  /** The messages whose payload parses: only those reach the callback. */
  function Parsed(es: seq<Envelope>, parses: Envelope -> bool): seq<Envelope> {
    if es == [] then [] else (if parses(es[0]) then [es[0]] else []) + Parsed(es[1..], parses)
  }

  class ProtobufCodec {
    const known: Types
    const parses: Envelope -> bool
    var received: seq<Envelope>   // the calls of the message callback

    constructor (known: Types, parses: Envelope -> bool)
      ensures this.known == known && this.parses == parses && received == []
    {
      this.known, this.parses := known, parses;
      received := [];
    }

    /** The checks of the decode loop on what is readable. */
    method Inspect(buffer: DynamicBuffer) returns (front: Front)
      requires buffer.Valid()
      ensures front == ReaderOf(known)(buffer.Contents())
      ensures front.Whole? ==> 0 < front.size <= |buffer.Contents()|
    {
      var bytes := buffer.Read(buffer.ReadableBytes());
      assert bytes == buffer.Contents();
      front := First(bytes, known);
    }

    /** Call back with the message if it parses, and drop its frame either way. */
    method Take(buffer: DynamicBuffer, size: nat, envelope: Envelope)
      requires buffer.Valid() && size <= |buffer.Contents()|
      modifies `received, buffer
      ensures buffer.Valid() && buffer.Contents() == old(buffer.Contents())[size..]
      ensures received == old(received) + if parses(envelope) then [envelope] else []
    {
      if parses(envelope) {
        received := received + [envelope];
      }
      buffer.ReadBytes(size);
    }

    /** Take all whole messages out of the buffer.  The result is the number of bytes
        taken, or -1 when the next frame names an unknown type.  At a frame whose lengths
        do not fit it the model stops, and says nothing of the result: there the code
        reads on outside the frame. */
    method OnMessage(buffer: DynamicBuffer) returns (readMessageBytes: int)
      requires buffer.Valid()
      modifies `received, buffer
      ensures buffer.Valid()
      ensures var d := Decode(old(buffer.Contents()), ReaderOf(known));
        && buffer.Contents() == d.rest
        && received == old(received) + Parsed(d.messages, parses)
        && (!d.front.Malformed? ==>
              readMessageBytes == if d.front.UnknownType? then -1 else |old(buffer.Contents())| - |d.rest|)
      ensures Stopped(buffer.Contents(), known, readMessageBytes)
    {
      ghost var r, was := ReaderOf(known), buffer.Contents();
      ghost var taken := [];
      readMessageBytes := 0;
      while true
        invariant buffer.Valid()
        invariant Decode(was, r) == PrependAll(taken, Decode(buffer.Contents(), r))
        invariant received == old(received) + Parsed(taken, parses)
        invariant readMessageBytes == |was| - |buffer.Contents()| && |buffer.Contents()| <= |was|
        decreases |buffer.Contents()|
      {
        ghost var bytes := buffer.Contents();
        var front := Inspect(buffer);
        if !front.Whole? {
          StopsAt(bytes, known, readMessageBytes);
          TakenAll(taken, bytes, r);
          return if front.UnknownType? then -1 else readMessageBytes;
        }
        ParsedMore(taken, front.envelope, parses);
        TakenMore(taken, front.envelope, bytes, front.size, r);
        Take(buffer, front.size, front.envelope);
        taken := taken + [front.envelope];
        readMessageBytes := readMessageBytes + front.size;
      }
    }

    /** A stream that comes in chunks: each is put behind what is left, then decoded. */
    method Receive(buffer: DynamicBuffer, chunks: seq<seq<byte>>)
      requires buffer.Valid() && buffer.Contents() == []
      modifies `received, buffer
      ensures buffer.Valid()
      ensures var d := Feed(Decoded([], [], Waiting), chunks, ReaderOf(known));
        buffer.Contents() == d.rest && received == old(received) + Parsed(d.messages, parses)
    {
      ghost var r := ReaderOf(known);
      ghost var d := Decoded([], [], Waiting);
      var i := 0;
      while i < |chunks|
        invariant 0 <= i <= |chunks| && buffer.Valid() && buffer.Contents() == d.rest
        invariant received == old(received) + Parsed(d.messages, parses)
        invariant Feed(Decoded([], [], Waiting), chunks, r) == Feed(d, chunks[i..], r)
      {
        FeedOne(d, chunks, i, r);
        d := ReceiveOne(buffer, chunks[i], d, old(received));
        i := i + 1;
      }
    }

    method ReceiveOne(buffer: DynamicBuffer, chunk: seq<byte>, ghost d: Decoded, ghost before: seq<Envelope>) returns (ghost d': Decoded)
      requires buffer.Valid() && buffer.Contents() == d.rest && received == before + Parsed(d.messages, parses)
      modifies `received, buffer
      ensures d' == Continue(d, chunk, ReaderOf(known))
      ensures buffer.Valid() && buffer.Contents() == d'.rest && received == before + Parsed(d'.messages, parses)
    {
      buffer.Append(chunk);
      ghost var more := Decode(d.rest + chunk, ReaderOf(known)).messages;
      ParsedConcat(d.messages, more, parses);
      Assoc(before, Parsed(d.messages, parses), Parsed(more, parses));
      d' := Continue(d, chunk, ReaderOf(known));
      var _ := OnMessage(buffer);
    }

    /** The frames of any messages, and a part of one more, in any chunks: the callback
        gets exactly those messages that parse, in order, and exactly that part is left. */
    method ReceiveFrames(buffer: DynamicBuffer, chunks: seq<seq<byte>>, ghost es: seq<Envelope>, ghost next: Envelope, ghost tail: seq<byte>)
      requires buffer.Valid() && buffer.Contents() == []
      requires AllSendable(es, known) && FrameBytes(next) < 0x8000_0000 && tail < Frame(next)
      requires Concat(chunks) == Frames(es) + tail
      modifies `received, buffer
      ensures buffer.Valid() && buffer.Contents() == tail && received == old(received) + Parsed(es, parses)
    {
      StreamRoundTrip(es, next, tail, chunks, known);
      Receive(buffer, chunks);
    }

    /** Build the frame of a message in a buffer of its own. */
    method SendMessage(e: Envelope) returns (bytes: seq<byte>)
      requires FrameBytes(e) < 0x8000_0000
      ensures bytes == Frame(e)
      ensures |bytes| == 8 + |e.typeName| + |e.payload|
      ensures BytesInt32(bytes[..4]) == |bytes| && BytesInt32(bytes[4..8]) == |e.typeName|
      ensures bytes[8..8 + |e.typeName|] == e.typeName && bytes[8 + |e.typeName|..] == e.payload
    {
      FrameFields(e);
      var buffer := new DynamicBuffer(1024, 256);
      buffer.ReserveWritableBytes(FrameBytes(e));
      buffer.Append(Int32Bytes(FrameBytes(e)));
      assert buffer.Contents() == Int32Bytes(FrameBytes(e));
      buffer.Append(Int32Bytes(|e.typeName|));
      buffer.Append(e.typeName);
      Serialize(buffer, e.payload);
      bytes := buffer.Read(buffer.ReadableBytes());
    }

    /** SerializeToArray at the write pointer, into room reserved before. */
    static method Serialize(buffer: DynamicBuffer, payload: seq<byte>)
      requires buffer.Valid() && |payload| <= |buffer.Room()|
      modifies buffer
      ensures buffer.Valid() && buffer.Contents() == old(buffer.Contents()) + payload
    {
      buffer.Poke(0, payload);
      assert buffer.Room()[..|payload|] == payload;
      buffer.WrittenBytes(|payload|);
    }
  }

  lemma FeedOne(d: Decoded, chunks: seq<seq<byte>>, i: nat, r: Reader)
    requires i < |chunks|
    ensures Feed(d, chunks[i..], r) == Feed(Continue(d, chunks[i], r), chunks[i + 1..], r)
  {
    assert chunks[i..][1..] == chunks[i + 1..];
  }

  lemma TakenAll(taken: seq<Envelope>, bytes: seq<byte>, r: Reader)
    requires !r(bytes).Whole?
    ensures PrependAll(taken, Decode(bytes, r)) == Decoded(taken, bytes, r(bytes))
  {
    EmptyConcat(taken);
  }

  lemma TakenMore(taken: seq<Envelope>, e: Envelope, bytes: seq<byte>, size: nat, r: Reader)
    requires r(bytes) == Whole(size, e) && 0 < size <= |bytes|
    ensures PrependAll(taken, Decode(bytes, r)) == PrependAll(taken + [e], Decode(bytes[size..], r))
  {
    Assoc(taken, [e], Decode(bytes[size..], r).messages);
  }

  lemma {:induction false} ParsedConcat(a: seq<Envelope>, b: seq<Envelope>, parses: Envelope -> bool)
    ensures Parsed(a + b, parses) == Parsed(a, parses) + Parsed(b, parses)
    decreases a
  {
    if a == [] {
      EmptyConcat(b);
      EmptyConcat(Parsed(b, parses));
    } else {
      ParsedConcat(a[1..], b, parses);
      assert (a + b)[1..] == a[1..] + b;
      Assoc(if parses(a[0]) then [a[0]] else [], Parsed(a[1..], parses), Parsed(b, parses));
    }
  }

  lemma {:induction false} ParsedMore(es: seq<Envelope>, e: Envelope, parses: Envelope -> bool)
    ensures Parsed(es + [e], parses) == Parsed(es, parses) + if parses(e) then [e] else []
    decreases es
  {
    if es == [] {
      assert es + [e] == [e] && [e][1..] == [];
    } else {
      ParsedMore(es[1..], e, parses);
      assert (es + [e])[1..] == es[1..] + [e];
    }
  }
}
