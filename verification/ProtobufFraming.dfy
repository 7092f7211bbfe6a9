/** The length-prefixed frames of the protobuf codec, and what its stream decoder
    makes of any bytes. */
module ProtobufFraming {
  import opened Arithmetic
  import opened Bytes

  const HEADER_BYTES: nat := 4
  const TYPE_BYTES: nat := 4

  /** A message as the framing sees it. */
  datatype Envelope = Envelope(typeName: seq<byte>, payload: seq<byte>)

  type Types = seq<byte> -> bool   // the type names the process knows

  /** What the decoder sees at the front of its buffer.  A length below the type field
      makes it wait for ever; lengths inside the frame that do not fit it are malformed. */
  datatype Front = Waiting | UnknownType | Malformed | Whole(size: nat, envelope: Envelope)

  function First(bytes: seq<byte>, known: Types): (front: Front)
    ensures front.Whole? ==> HEADER_BYTES + TYPE_BYTES <= front.size <= |bytes|
  {
    if |bytes| < HEADER_BYTES then Waiting
    else
      var protocolBytes := BytesInt32(bytes[..HEADER_BYTES]);
      if |bytes| < protocolBytes || protocolBytes < TYPE_BYTES then Waiting
      else if protocolBytes < HEADER_BYTES + TYPE_BYTES then Malformed
      else
        var typeBytes := BytesInt16(bytes[HEADER_BYTES..HEADER_BYTES + 2]);   // half of the type field
        var body := bytes[HEADER_BYTES + TYPE_BYTES..protocolBytes];
        if typeBytes < 0 || |body| < typeBytes then Malformed
        else if !known(body[..typeBytes]) then UnknownType
        else Whole(protocolBytes, Envelope(body[..typeBytes], body[typeBytes..]))
  }

  /** More bytes behind do not change what the decoder has already decided. */
  lemma FirstIsStable(a: seq<byte>, b: seq<byte>, known: Types)
    requires !First(a, known).Waiting?
    ensures First(a + b, known) == First(a, known)
  {
    assert (a + b)[..HEADER_BYTES] == a[..HEADER_BYTES];
    var protocolBytes := BytesInt32(a[..HEADER_BYTES]);
    if HEADER_BYTES + TYPE_BYTES <= protocolBytes {
      assert (a + b)[HEADER_BYTES..HEADER_BYTES + 2] == a[HEADER_BYTES..HEADER_BYTES + 2];
      assert (a + b)[HEADER_BYTES + TYPE_BYTES..protocolBytes] == a[HEADER_BYTES + TYPE_BYTES..protocolBytes];
    }
  }

  /** The type name as the code reads it: as many bytes behind the type field as that
      says, out of the frame and whatever lies behind the frame in memory. */
  function NameRead(frame: seq<byte>, behind: seq<byte>): seq<byte>
    requires HEADER_BYTES + TYPE_BYTES <= |frame| && 0 <= BytesInt16(frame[4..6]) <= |behind|
  {
    (frame + behind)[HEADER_BYTES + TYPE_BYTES..HEADER_BYTES + TYPE_BYTES + BytesInt16(frame[4..6])]
  }

  /** Both length fields are there and not negative, and the frame is. */
  ghost predicate Framelike(frame: seq<byte>) {
    HEADER_BYTES + TYPE_BYTES <= |frame| == BytesInt32(frame[..4]) && 0 <= BytesInt16(frame[4..6])
  }

  ghost predicate SameName(frame: seq<byte>, a: seq<byte>, b: seq<byte>)
    requires Framelike(frame)
  {
    BytesInt16(frame[4..6]) <= |a| && BytesInt16(frame[4..6]) <= |b| ==> NameRead(frame, a) == NameRead(frame, b)
  }

  /** A frame is malformed exactly if the name read depends on what lies behind it, such
      as bytes of the stream that may not have arrived yet. */
  lemma MalformedReadsOn(frame: seq<byte>, known: Types)
    requires Framelike(frame)
    ensures First(frame, known).Malformed? <==> exists a, b :: !SameName(frame, a, b)
  {
    var n := BytesInt16(frame[4..6]);
    if HEADER_BYTES + TYPE_BYTES + n <= |frame| {
      forall a, b ensures SameName(frame, a, b) {
        if n <= |a| && n <= |b| {
          NameInside(frame, a);
          NameInside(frame, b);
        }
      }
    } else {
      NameEnds(frame, 0);
      NameEnds(frame, 1);
      assert !SameName(frame, seq(n, _ => 0), seq(n, _ => 1));
    }
  }

  lemma NameInside(frame: seq<byte>, behind: seq<byte>)
    requires HEADER_BYTES + TYPE_BYTES <= |frame| && 0 <= BytesInt16(frame[4..6]) <= |behind|
    requires HEADER_BYTES + TYPE_BYTES + BytesInt16(frame[4..6]) <= |frame|
    ensures NameRead(frame, behind) == frame[8..8 + BytesInt16(frame[4..6])]
  {}

  lemma NameEnds(frame: seq<byte>, x: byte)
    requires HEADER_BYTES + TYPE_BYTES <= |frame| < HEADER_BYTES + TYPE_BYTES + BytesInt16(frame[4..6])
    ensures var n := BytesInt16(frame[4..6]); NameRead(frame, seq(n, _ => x))[n - 1] == x
  {}

  /** The bytes begin with a whole frame, both length fields in it, whose name lies
      inside. */
  predicate WholeFrame(bytes: seq<byte>) {
    && HEADER_BYTES + TYPE_BYTES <= |bytes|
    && HEADER_BYTES + TYPE_BYTES <= BytesInt32(bytes[..4]) <= |bytes|
    && 0 <= BytesInt16(bytes[4..6]) <= BytesInt32(bytes[..4]) - HEADER_BYTES - TYPE_BYTES
  }

  predicate NamesUnknown(bytes: seq<byte>, known: Types) {
    WholeFrame(bytes) && !known(bytes[8..8 + BytesInt16(bytes[4..6])])
  }

  /** No length field, one below the type field's four bytes, or one of more bytes than
      are there. */
  predicate NeedsMore(bytes: seq<byte>) {
    |bytes| < 4 || BytesInt32(bytes[..4]) < 4 || |bytes| < BytesInt32(bytes[..4])
  }

  /** What the decoder decides, from the bytes alone. */
  lemma FrontIs(bytes: seq<byte>, known: Types)
    ensures First(bytes, known).Waiting? <==> NeedsMore(bytes)
    ensures First(bytes, known).UnknownType? <==> NamesUnknown(bytes, known)
    ensures First(bytes, known).Whole? <==> WholeFrame(bytes) && !NamesUnknown(bytes, known)
    ensures First(bytes, known).Malformed? <==> !NeedsMore(bytes) && !WholeFrame(bytes)
  {
    if HEADER_BYTES + TYPE_BYTES <= |bytes| {
      var n := BytesInt32(bytes[..4]);
      if HEADER_BYTES + TYPE_BYTES <= n <= |bytes| {
        var m := BytesInt16(bytes[4..6]);
        if 0 <= m <= n - 8 {
          assert bytes[8..n][..m] == bytes[8..8 + m];
        }
      }
    }
  }

  /** Where the decoder may stop, by the bytes left and its result: there is no whole frame of
      a known type, and it says minus one exactly at a whole frame of an unknown one. */
  predicate Stopped(left: seq<byte>, known: Types, result: int) {
    && (WholeFrame(left) ==> NamesUnknown(left, known))
    && (WholeFrame(left) || NeedsMore(left) ==> (result == -1 <==> NamesUnknown(left, known)))
  }

  lemma StopsAt(left: seq<byte>, known: Types, count: nat)
    requires !First(left, known).Whole?
    ensures Stopped(left, known, if First(left, known).UnknownType? then -1 else count)
  {
    FrontIs(left, known);
  }

  // ----- decoding a stream, whatever the frames -----

  /** How the front of the bytes is read. */
  type Reader = r: seq<byte> -> Front | forall bytes :: Fits(r, bytes) witness (_ => Waiting)

  ghost predicate Fits(r: seq<byte> -> Front, bytes: seq<byte>) {
    r(bytes).Whole? ==> 0 < r(bytes).size <= |bytes|
  }

  ghost predicate Stable(r: Reader) {
    forall a, b {:trigger Decides(r, a, b)} :: Decides(r, a, b)
  }

  ghost predicate Decides(r: Reader, a: seq<byte>, b: seq<byte>) {
    !r(a).Waiting? ==> r(a + b) == r(a)
  }

  datatype Decoded = Decoded(messages: seq<Envelope>, rest: seq<byte>, front: Front)

  function Prepend(e: Envelope, d: Decoded): Decoded { d.(messages := [e] + d.messages) }

  function PrependAll(es: seq<Envelope>, d: Decoded): Decoded { d.(messages := es + d.messages) }

  /** All messages from the front on, and what is left. */
  function Decode(bytes: seq<byte>, r: Reader): Decoded
    decreases |bytes|
  {
    assert Fits(r, bytes);
    var front := r(bytes);
    if front.Whole? then Prepend(front.envelope, Decode(bytes[front.size..], r)) else Decoded([], bytes, front)
  }

  function Continue(d: Decoded, more: seq<byte>, r: Reader): Decoded {
    PrependAll(d.messages, Decode(d.rest + more, r))
  }

  /** Decoding in two goes is decoding in one, up to the first frame whose lengths do
      not fit it, at which the decoding stops. */
  lemma {:induction false} DecodeInParts(a: seq<byte>, b: seq<byte>, r: Reader)
    requires Stable(r)
    ensures Continue(Decode(a, r), b, r) == Decode(a + b, r)
    decreases |a|
  {
    assert Fits(r, a);
    var front := r(a);
    if front.Whole? {
      assert Decides(r, a, b);
      DropConcat(a, front.size, b);
      var rest := Decode(a[front.size..], r);
      DecodeInParts(a[front.size..], b, r);
      Assoc([front.envelope], rest.messages, Decode(rest.rest + b, r).messages);
    } else {
      EmptyConcat(Decode(a + b, r).messages);
    }
  }

  function Concat(chunks: seq<seq<byte>>): seq<byte> {
    if chunks == [] then [] else chunks[0] + Concat(chunks[1..])
  }

  /** The decoder fed chunk by chunk. */
  function Feed(d: Decoded, chunks: seq<seq<byte>>, r: Reader): Decoded
    decreases chunks
  {
    if chunks == [] then d else Feed(Continue(d, chunks[0], r), chunks[1..], r)
  }

  /** How a stream is cut into chunks makes no difference up to the first frame whose
      lengths do not fit it: not to the messages, not to what stays in the buffer, not
      to how the decoder stops. */
  lemma {:induction false} ChunksDoNotMatter(before: seq<byte>, chunks: seq<seq<byte>>, r: Reader)
    requires Stable(r)
    ensures Feed(Decode(before, r), chunks, r) == Decode(before + Concat(chunks), r)
    decreases chunks
  {
    if chunks == [] {
      EmptyConcat(before);
    } else {
      DecodeInParts(before, chunks[0], r);
      ChunksDoNotMatter(before + chunks[0], chunks[1..], r);
      Assoc(before, chunks[0], Concat(chunks[1..]));
    }
  }

  /** The reader of the protobuf codec. */
  function ReaderOf(known: Types): Reader {
    var r := bytes => First(bytes, known);
    assert forall bytes :: Fits(r, bytes);
    r
  }

  lemma ReaderIsStable(known: Types)
    ensures Stable(ReaderOf(known))
  {
    forall a, b ensures Decides(ReaderOf(known), a, b) {
      if !ReaderOf(known)(a).Waiting? {
        FirstIsStable(a, b, known);
      }
    }
  }

  // ----- sending -----

  function FrameBytes(e: Envelope): nat {
    HEADER_BYTES + TYPE_BYTES + |e.typeName| + |e.payload|
  }

  function Frame(e: Envelope): (bytes: seq<byte>)
    ensures |bytes| == FrameBytes(e)
  {
    Int32Bytes(FrameBytes(e)) + Int32Bytes(|e.typeName|) + e.typeName + e.payload
  }

  function Frames(es: seq<Envelope>): seq<byte> {
    if es == [] then [] else Frame(es[0]) + Frames(es[1..])
  }

  /** The decoder reads two of the four bytes of the name length. */
  lemma NameLength(n: nat)
    requires n < 0x8000_0000
    ensures BytesInt16(Int32Bytes(n)[..2]) == n <==> n < 0x8000
  {
    assert Unsigned(n, 0x1_0000_0000) == n;
    LowBytes(n);
    LittleRoundTrip(n, 2);
    Ranges();
  }

  lemma LowBytes(n: nat)
    ensures Little(n, 4)[..2] == Little(n, 2)
  {
    var m := n / 256;
    assert Little(n, 4) == [n % 256] + ([m % 256] + Little(m / 256, 2));
    assert Little(n, 2) == [n % 256] + ([m % 256] + Little(m / 256, 0));
  }

  ghost predicate Sendable(e: Envelope, known: Types) {
    known(e.typeName) && FrameBytes(e) < 0x8000_0000
  }

  /** A frame comes back as the message that was sent exactly when its type name is
      shorter than 2^15 bytes. */
  lemma FrameComesBack(e: Envelope, tail: seq<byte>, known: Types)
    requires Sendable(e, known)
    ensures First(Frame(e) + tail, known) == Whole(FrameBytes(e), e) <==> |e.typeName| < 0x8000
  {
    var bytes := Frame(e) + tail;
    var n := FrameBytes(e);
    assert bytes[..4] == Int32Bytes(n);
    assert bytes[4..6] == Int32Bytes(|e.typeName|)[..2];
    assert bytes[8..n] == e.typeName + e.payload;
    Int32RoundTrip(n);
    NameLength(|e.typeName|);
    if |e.typeName| < 0x8000 {
      assert (e.typeName + e.payload)[..|e.typeName|] == e.typeName;
      assert (e.typeName + e.payload)[|e.typeName|..] == e.payload;
    }
  }

  /** The bytes begin with a frame of e, but for the upper two bytes of the name length. */
  ghost predicate BeginsWith(bytes: seq<byte>, e: Envelope) {
    var n := FrameBytes(e);
    && n < 0x8000_0000 && n <= |bytes| && |e.typeName| < 0x8000
    && bytes[..4] == Int32Bytes(n) && bytes[4..6] == Int32Bytes(|e.typeName|)[..2]
    && bytes[8..n] == e.typeName + e.payload
  }

  /** What the decoder takes: exactly a frame of a known type, whatever the upper two
      bytes of its name length are. */
  lemma TakenExactly(bytes: seq<byte>, e: Envelope, known: Types)
    ensures First(bytes, known) == Whole(FrameBytes(e), e) <==> known(e.typeName) && BeginsWith(bytes, e)
  {
    if known(e.typeName) && BeginsWith(bytes, e) {
      Int32RoundTrip(FrameBytes(e));
      NameLength(|e.typeName|);
      assert (e.typeName + e.payload)[..|e.typeName|] == e.typeName;
      assert (e.typeName + e.payload)[|e.typeName|..] == e.payload;
    }
    if First(bytes, known) == Whole(FrameBytes(e), e) {
      Int32Of(bytes[..4]);
      NameField(bytes[4..6], |e.typeName|);
      var body := bytes[8..FrameBytes(e)];
      assert body[..|e.typeName|] + body[|e.typeName|..] == body;
    }
  }

  lemma NameField(s: seq<byte>, n: nat)
    requires |s| == 2 && BytesInt16(s) == n
    ensures n < 0x8000 && Int32Bytes(n)[..2] == s
  {
    Ranges();
    LittleOf(s);
    assert Unsigned(n, 0x1_0000_0000) == n;
    LowBytes(n);
  }

  ghost predicate AllSendable(es: seq<Envelope>, known: Types) {
    forall i :: 0 <= i < |es| ==> Sendable(es[i], known) && |es[i].typeName| < 0x8000
  }

  /** A frame from its bytes alone: its own length, that of the name in all four bytes,
      the name, the payload. */
  lemma FrameFields(e: Envelope)
    requires FrameBytes(e) < 0x8000_0000
    ensures var bytes := Frame(e);
      && BytesInt32(bytes[..4]) == |bytes| && BytesInt32(bytes[4..8]) == |e.typeName|
      && bytes[8..8 + |e.typeName|] == e.typeName && bytes[8 + |e.typeName|..] == e.payload
  {
    var bytes := Frame(e);
    assert bytes[..4] == Int32Bytes(FrameBytes(e)) && bytes[4..8] == Int32Bytes(|e.typeName|);
    Int32RoundTrip(FrameBytes(e));
    Int32RoundTrip(|e.typeName|);
  }

  lemma {:induction false} DecodeFrames(es: seq<Envelope>, tail: seq<byte>, known: Types)
    requires AllSendable(es, known)
    ensures Decode(Frames(es) + tail, ReaderOf(known)) == PrependAll(es, Decode(tail, ReaderOf(known)))
    decreases es
  {
    var r := ReaderOf(known);
    var d := Decode(tail, r);
    if es == [] {
      EmptyConcat(tail);
      EmptyConcat(d.messages);
    } else {
      var more := Frames(es[1..]) + tail;
      Assoc(Frame(es[0]), Frames(es[1..]), tail);
      DecodeOne(es[0], more, known);
      DecodeFrames(es[1..], tail, known);
      Assoc([es[0]], es[1..], d.messages);
      assert es == [es[0]] + es[1..];
    }
  }

  lemma DecodeOne(e: Envelope, more: seq<byte>, known: Types)
    requires Sendable(e, known) && |e.typeName| < 0x8000
    ensures Decode(Frame(e) + more, ReaderOf(known)) == Prepend(e, Decode(more, ReaderOf(known)))
  {
    FrameComesBack(e, more, known);
    DropConcat(Frame(e), FrameBytes(e), more);
    assert Frame(e)[FrameBytes(e)..] == [];
    EmptyConcat(more);
  }

  /** A frame that is not there in full yet makes the decoder wait. */
  lemma PartialFrameWaits(e: Envelope, tail: seq<byte>, known: Types)
    requires FrameBytes(e) < 0x8000_0000 && tail < Frame(e)
    ensures Decode(tail, ReaderOf(known)) == Decoded([], tail, Waiting)
  {
    if HEADER_BYTES <= |tail| {
      assert tail[..4] == Frame(e)[..4] == Int32Bytes(FrameBytes(e));
      Int32RoundTrip(FrameBytes(e));
    }
    assert First(tail, known) == Waiting;
  }

  /** The frames of any messages, and a part of one more, cut into any chunks: the
      decoder gives exactly those messages, in order, and keeps exactly that part. */
  lemma StreamRoundTrip(es: seq<Envelope>, next: Envelope, tail: seq<byte>, chunks: seq<seq<byte>>, known: Types)
    requires AllSendable(es, known) && FrameBytes(next) < 0x8000_0000 && tail < Frame(next)
    requires Concat(chunks) == Frames(es) + tail
    ensures Feed(Decoded([], [], Waiting), chunks, ReaderOf(known)) == Decoded(es, tail, Waiting)
  {
    var r := ReaderOf(known);
    assert First([], known) == Waiting;
    assert Decode([], r) == Decoded([], [], Waiting);
    ReaderIsStable(known);
    ChunksDoNotMatter([], chunks, r);
    EmptyConcat(Concat(chunks));
    DecodeFrames(es, tail, known);
    PartialFrameWaits(next, tail, known);
    EmptyConcat(es);
  }
}
