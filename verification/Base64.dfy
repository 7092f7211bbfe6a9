/** The base64 encoder and decoder of the combat server. */
module Base64 {
  import opened Bytes

  type char8 = bv8

  const PAD: char8 := 61   // '='

  /** The encoding alphabet: A-Z, a-z, 0-9, +, /. */
  function EncodeChar(v: bv8): char8 {
    if v < 26 then v + 65
    else if v < 52 then v + 71
    else if v < 62 then v - 4
    else if v == 62 then 43
    else 47
  }

  /** The decoding table for characters 43 to 122; holes hold minus one. */
  function DecodeChar(c: char8): bv8 {
    if c == 43 then 62
    else if c == 47 then 63
    else if 48 <= c <= 57 then c + 4
    else if 65 <= c <= 90 then c - 65
    else if 97 <= c <= 122 then c - 71
    else if c == 61 then 254
    else 255
  }

  /** Characters outside the table range and the padding count as nothing. */
  predicate Counts(c: char8) {
    43 <= c <= 122 && c != PAD
  }

  function Sextet(c: char8): bv8 {
    if Counts(c) then DecodeChar(c) else 0
  }

  function Counted(c: char8): nat { if Counts(c) then 1 else 0 }

  // ----- one group -----

  // The four groups of six bits of three bytes.
  function First(b0: bv8): bv8 { b0 >> 2 }
  function Second(b0: bv8, b1: bv8): bv8 { ((b0 & 0x03) << 4) | ((b1 & 0xf0) >> 4) }
  function Third(b1: bv8, b2: bv8): bv8 { ((b1 & 0x0f) << 2) | ((b2 & 0xc0) >> 6) }
  function Fourth(b2: bv8): bv8 { b2 & 0x3f }

  /** Three bytes, the missing ones zero, as four characters. */
  function EncodeGroup(b0: bv8, b1: bv8, b2: bv8, len: nat): seq<char8>
    requires 1 <= len <= 3
  {
    [EncodeChar(First(b0)), EncodeChar(Second(b0, b1)),
     if 1 < len then EncodeChar(Third(b1, b2)) else PAD,
     if 2 < len then EncodeChar(Fourth(b2)) else PAD]
  }

  function GroupCount(c: seq<char8>): nat
    requires |c| == 4
  {
    Counted(c[0]) + Counted(c[1]) + Counted(c[2]) + Counted(c[3])
  }

  /** The bytes of four characters: one fewer than count, at least one. */
  function DecodeGroup(c: seq<char8>): (bytes: seq<bv8>)
    requires |c| == 4
    ensures |bytes| == if GroupCount(c) <= 2 then 1 else GroupCount(c) - 1
  {
    var b0, b1, b2, b3 := Sextet(c[0]), Sextet(c[1]), Sextet(c[2]), Sextet(c[3]);
    [Join(b0, 2, b1, 4)]
    + (if 2 < GroupCount(c) then [Join(b1, 4, b2, 2)] else [])
    + (if 3 < GroupCount(c) then [Join(b2, 6, b3, 0)] else [])
  }

  /** `a` shifted up and `b` shifted down, or-ed. */
  function Join(a: bv8, up: bv4, b: bv8, down: bv4): bv8
    requires up <= 8 && down <= 8
  {
    (a << up) | (b >> down)
  }

  lemma CharRoundTrip(v: bv8)
    requires v < 64
    ensures Counts(EncodeChar(v)) && Sextet(EncodeChar(v)) == v
  {}

  lemma SextetsAreSmall(b0: bv8, b1: bv8, b2: bv8)
    ensures First(b0) < 64 && Second(b0, b1) < 64 && Third(b1, b2) < 64 && Fourth(b2) < 64
  {}

  lemma SextetsJoin(b0: bv8, b1: bv8, b2: bv8)
    ensures Join(First(b0), 2, Second(b0, b1), 4) == b0
    ensures Join(Second(b0, b1), 4, Third(b1, b2), 2) == b1
    ensures Join(Third(b1, b2), 6, Fourth(b2), 0) == b2
  {}

  lemma GroupRoundTrip(b0: bv8, b1: bv8, b2: bv8, len: nat)
    requires 1 <= len <= 3
    ensures GroupCount(EncodeGroup(b0, b1, b2, len)) == len + 1
    ensures DecodeGroup(EncodeGroup(b0, b1, b2, len)) == [b0, b1, b2][..len]
  {
    SextetsAreSmall(b0, b1, b2);
    CharRoundTrip(First(b0));
    CharRoundTrip(Second(b0, b1));
    CharRoundTrip(Third(b1, b2));
    CharRoundTrip(Fourth(b2));
    SextetsJoin(b0, b1, b2);
  }

  // ----- streams -----

  /** The bytes the encoder takes up next: three, or what is left, and how many. */
  function GroupLength(input: seq<bv8>): nat
    requires input != []
  {
    if 3 <= |input| then 3 else |input|
  }

  function FrontGroup(input: seq<bv8>): seq<char8>
    requires input != []
  {
    EncodeGroup(input[0], if 1 < |input| then input[1] else 0, if 2 < |input| then input[2] else 0, GroupLength(input))
  }

  function Encode(input: seq<bv8>): seq<char8> {
    if input == [] then [] else FrontGroup(input) + Encode(input[GroupLength(input)..])
  }

  function EncodedLength(n: nat): nat { (n + 2) / 3 * 4 }

  datatype Result = Failed | Decoded(bytes: seq<bv8>)

  /** Groups of four characters, at least two of which must count. */
  function Decode(input: seq<char8>): Result {
    if input == [] then Decoded([])
    else if |input| < 4 || GroupCount(input[..4]) < 2 then Failed
    else
      match Decode(input[4..])
      case Failed => Failed
      case Decoded(bytes) => Decoded(DecodeGroup(input[..4]) + bytes)
  }

  /** Four characters for every three bytes begun. */
  lemma {:induction false} LengthOfEncoded(input: seq<bv8>)
    ensures |Encode(input)| == EncodedLength(|input|)
    decreases |input|
  {
    if input != [] {
      LengthOfEncoded(input[GroupLength(input)..]);
    }
  }

  /** Decoding undoes encoding. */
  lemma {:induction false} RoundTrip(input: seq<bv8>)
    ensures Decode(Encode(input)) == Decoded(input)
    decreases |input|
  {
    if input != [] {
      var n := GroupLength(input);
      var group, rest := FrontGroup(input), Encode(input[n..]);
      RoundTrip(input[n..]);
      assert (group + rest)[..4] == group && (group + rest)[4..] == rest;
      FrontGroupRoundTrip(input);
      assert input[..n] + input[n..] == input;
    }
  }

  lemma FrontGroupRoundTrip(input: seq<bv8>)
    requires input != []
    ensures GroupCount(FrontGroup(input)) == GroupLength(input) + 1
    ensures DecodeGroup(FrontGroup(input)) == input[..GroupLength(input)]
  {
    GroupRoundTrip(input[0], if 1 < |input| then input[1] else 0, if 2 < |input| then input[2] else 0, GroupLength(input));
  }

  /** The decoder accepts exactly whole groups with two counting characters each, and
      never gives more than three bytes for four characters. */
  lemma {:induction false} Accepts(input: seq<char8>)
    ensures Decode(input).Decoded? <==> |input| % 4 == 0 && AllCount(input)
    ensures Decode(input).Decoded? ==> |Decode(input).bytes| <= |input| / 4 * 3
    decreases |input|
  {
    if 4 <= |input| {
      Accepts(input[4..]);
      FirstCounts(input);
    }
  }

  /** Every whole group has at least two characters that count. */
  ghost predicate AllCount(input: seq<char8>) {
    forall k :: 0 <= k < |input| / 4 ==> 2 <= GroupCount(input[4 * k..4 * k + 4])
  }

  lemma FirstCounts(input: seq<char8>)
    requires 4 <= |input|
    ensures AllCount(input) <==> 2 <= GroupCount(input[..4]) && AllCount(input[4..])
  {
    var rest := input[4..];
    forall k | 0 <= k < |rest| / 4 ensures rest[4 * k..4 * k + 4] == input[4 * (k + 1)..4 * (k + 1) + 4] {}
    if AllCount(input) {
      assert input[4 * 0..4 * 0 + 4] == input[..4];
      forall k | 0 <= k < |rest| / 4 ensures 2 <= GroupCount(rest[4 * k..4 * k + 4]) {
        assert 2 <= GroupCount(input[4 * (k + 1)..4 * (k + 1) + 4]);
      }
    }
    if 2 <= GroupCount(input[..4]) && AllCount(rest) {
      forall k | 0 <= k < |input| / 4 ensures 2 <= GroupCount(input[4 * k..4 * k + 4]) {
        if k == 0 {
          assert input[4 * k..4 * k + 4] == input[..4];
        } else {
          assert input[4 * k..4 * k + 4] == rest[4 * (k - 1)..4 * (k - 1) + 4];
        }
      }
    }
  }

  // ----- what the text and the bytes are, character by character -----

  const ALPHABET: string := "ABCDEFGHIJKLM" + "NOPQRSTUVWXYZ" + "abcdefghijklm" + "nopqrstuvwxyz" + "0123456789+/"

  predicate Is(c: char8, x: char) { c as int == x as int }

  lemma CapitalsToM(k: nat)
    requires k < 13
    ensures "ABCDEFGHIJKLM"[k] as int == 65 + k
  {}

  lemma CapitalsToZ(k: nat)
    requires k < 13
    ensures "NOPQRSTUVWXYZ"[k] as int == 78 + k
  {}

  lemma LettersToM(k: nat)
    requires k < 13
    ensures "abcdefghijklm"[k] as int == 97 + k
  {}

  lemma LettersToZ(k: nat)
    requires k < 13
    ensures "nopqrstuvwxyz"[k] as int == 110 + k
  {}

  lemma DigitsAndSigns(k: nat)
    requires k < 12
    ensures "0123456789+/"[k] as int == if k < 10 then 48 + k else if k == 10 then 43 else 47
  {}

  /** The encoding table is the alphabet. */
  lemma AlphabetAt(v: bv8)
    requires v < 64
    ensures |ALPHABET| == 64 && Is(EncodeChar(v), ALPHABET[v as int])
  {
    var k := v as int;
    if k < 13 {
      CapitalsToM(k);
    } else if k < 26 {
      CapitalsToZ(k - 13);
    } else if k < 39 {
      LettersToM(k - 26);
    } else if k < 52 {
      LettersToZ(k - 39);
    } else {
      DigitsAndSigns(k - 52);
    }
  }

  function ByteAt(input: seq<bv8>, k: nat): bv8 { if k < |input| then input[k] else 0 }

  /** Three bytes side by side, missing ones zero. */
  function Triple(b0: bv8, b1: bv8, b2: bv8): bv24 {
    (b0 as bv24 << 16) | (b1 as bv24 << 8) | b2 as bv24
  }

  /** The j-th six bits of three bytes. */
  function SixOf(bits: bv24, j: nat): bv8
    requires j < 4
  {
    var six := (if j == 0 then bits >> 18 else if j == 1 then bits >> 12 else if j == 2 then bits >> 6 else bits) & 63;
    six as bv8
  }

  /** The six bits behind character p of the text. */
  function SixBits(input: seq<bv8>, p: nat): bv8 {
    var i := p / 4 * 3;
    SixOf(Triple(ByteAt(input, i), ByteAt(input, i + 1), ByteAt(input, i + 2)), p % 4)
  }

  lemma SixIsSmall(bits: bv24, j: nat)
    requires j < 4
    ensures SixOf(bits, j) < 64
  {}

  /** Character p: of the alphabet while there are bits left, then padding. */
  ghost predicate CharFits(input: seq<bv8>, text: seq<char8>, p: nat)
    requires p < |text|
  {
    SixIsSmall(Triple(ByteAt(input, p / 4 * 3), ByteAt(input, p / 4 * 3 + 1), ByteAt(input, p / 4 * 3 + 2)), p % 4);
    AlphabetAt(SixBits(input, p));
    if p < (4 * |input| + 2) / 3 then Is(text[p], ALPHABET[SixBits(input, p) as int]) else Is(text[p], '=')
  }

  /** The text of the input: four characters for three bytes begun, each six bits in the
      alphabet, and one or two '=' at the end where one or two bytes are missing. */
  ghost predicate IsText(input: seq<bv8>, text: seq<char8>) {
    && |text| == (|input| + 2) / 3 * 4
    && forall p {:trigger CharFits(input, text, p)} :: 0 <= p < |text| ==> CharFits(input, text, p)
  }

  lemma SextetsAreSixes(b0: bv8, b1: bv8, b2: bv8)
    ensures First(b0) == SixOf(Triple(b0, b1, b2), 0) && Second(b0, b1) == SixOf(Triple(b0, b1, b2), 1)
    ensures Third(b1, b2) == SixOf(Triple(b0, b1, b2), 2) && Fourth(b2) == SixOf(Triple(b0, b1, b2), 3)
  {}

  lemma PadIsEquals()
    ensures Is(PAD, '=')
  {}

  lemma FrontFits(input: seq<bv8>, text: seq<char8>, p: nat)
    requires input != [] && p < 4 <= |text| && text[..4] == FrontGroup(input)
    ensures CharFits(input, text, p)
  {
    var b0, b1, b2 := ByteAt(input, 0), ByteAt(input, 1), ByteAt(input, 2);
    SextetsAreSixes(b0, b1, b2);
    SextetsAreSmall(b0, b1, b2);
    AlphabetAt(SixOf(Triple(b0, b1, b2), p));
    PadIsEquals();
    assert text[p] == FrontGroup(input)[p];
    assert p / 4 == 0 && p % 4 == p;
  }

  lemma RestFits(input: seq<bv8>, text: seq<char8>, p: nat)
    requires 3 <= |input| && 4 <= p < |text| && CharFits(input[3..], text[4..], p - 4)
    ensures CharFits(input, text, p)
  {
    assert p / 4 == (p - 4) / 4 + 1 && p % 4 == (p - 4) % 4;
    assert text[4..][p - 4] == text[p];
    assert SixBits(input, p) == SixBits(input[3..], p - 4);
  }

  lemma {:induction false} EncodeIsText(input: seq<bv8>)
    ensures IsText(input, Encode(input))
    decreases |input|
  {
    LengthOfEncoded(input);
    if input != [] {
      var n, text := GroupLength(input), Encode(input);
      EncodeIsText(input[n..]);
      assert text[..4] == FrontGroup(input) && text[4..] == Encode(input[n..]);
      forall p | 0 <= p < |text| ensures CharFits(input, text, p) {
        if p < 4 {
          FrontFits(input, text, p);
        } else {
          LengthOfEncoded(input[n..]);
          assert CharFits(input[n..], text[4..], p - 4);
          RestFits(input, text, p);
        }
      }
    }
  }

  /** The character is the one of the alphabet for v. */
  ghost predicate Stands(c: char8, v: bv8) {
    AlphabetAt(0);
    v < 64 && Is(c, ALPHABET[v as int])
  }

  /** What counts, and for how much: characters of the alphabet for their index there, the
      holes between them for all bits. */
  lemma CountsFor(c: char8)
    ensures Counts(c) <==> 43 <= c as int <= 122 && !Is(c, '=')
    ensures forall v :: Stands(c, v) ==> Counts(c) && Sextet(c) == v
    ensures Counts(c) && (forall v :: !Stands(c, v)) ==> Sextet(c) == 255
    ensures !Counts(c) ==> Sextet(c) == 0
  {
    forall v | Stands(c, v) ensures Counts(c) && Sextet(c) == v {
      AlphabetAt(v);
      CharRoundTrip(v);
      assert c == EncodeChar(v);
    }
    if Counts(c) && Sextet(c) != 255 {
      HolesAside(c);
      AlphabetAt(Sextet(c));
      assert Stands(c, Sextet(c));
    }
  }

  lemma HolesAside(c: char8)
    requires Counts(c) && Sextet(c) != 255
    ensures Sextet(c) < 64 && EncodeChar(Sextet(c)) == c
  {}

  /** Four values side by side, six bits apart. */
  function Quadruple(v0: bv8, v1: bv8, v2: bv8, v3: bv8): bv32 {
    (v0 as bv32 << 18) | (v1 as bv32 << 12) | (v2 as bv32 << 6) | v3 as bv32
  }

  /** The t-th byte of the first three. */
  function EightOf(bits: bv32, t: nat): bv8
    requires t < 3
  {
    var eight := (if t == 0 then bits >> 16 else if t == 1 then bits >> 8 else bits) & 255;
    eight as bv8
  }

  function GroupOf(text: seq<char8>, i: nat): seq<char8>
    requires 4 * i + 4 <= |text|
  {
    text[4 * i..4 * i + 4]
  }

  /** The bytes that come before those of group i: one less than count for each group. */
  function Before(text: seq<char8>, i: nat): int
    requires 4 * i <= |text|
  {
    if i == 0 then 0 else Before(text, i - 1) + GroupCount(GroupOf(text, i - 1)) - 1
  }

  ghost predicate ByteFits(text: seq<char8>, bytes: seq<bv8>, i: nat, t: nat)
    requires 4 * i + 4 <= |text|
  {
    var c := GroupOf(text, i);
    t < 3 && 0 <= Before(text, i) + t < |bytes|
    && bytes[Before(text, i) + t] == EightOf(Quadruple(Sextet(c[0]), Sextet(c[1]), Sextet(c[2]), Sextet(c[3])), t)
  }

  /** The bytes of a text of whole groups: of each group as many as characters count, less
      one, out of the values side by side. */
  ghost predicate AreBytes(text: seq<char8>, bytes: seq<bv8>) {
    && |text| % 4 == 0 && |bytes| == Before(text, |text| / 4)
    && forall i, t {:trigger ByteFits(text, bytes, i, t)} ::
         0 <= i < |text| / 4 && 0 <= t < GroupCount(GroupOf(text, i)) - 1 ==> ByteFits(text, bytes, i, t)
  }

  lemma JoinsAreEights(v0: bv8, v1: bv8, v2: bv8, v3: bv8)
    ensures Join(v0, 2, v1, 4) == EightOf(Quadruple(v0, v1, v2, v3), 0)
    ensures Join(v1, 4, v2, 2) == EightOf(Quadruple(v0, v1, v2, v3), 1)
    ensures Join(v2, 6, v3, 0) == EightOf(Quadruple(v0, v1, v2, v3), 2)
  {}

  lemma {:induction false} BeforeRest(text: seq<char8>, i: nat)
    requires 1 <= i && 4 * i <= |text|
    ensures Before(text, i) == GroupCount(text[..4]) - 1 + Before(text[4..], i - 1)
  {
    if i == 1 {
      assert GroupOf(text, 0) == text[..4];
      assert Before(text, 1) == Before(text, 0) + GroupCount(GroupOf(text, 0)) - 1;
    } else {
      BeforeRest(text, i - 1);
      assert GroupOf(text, i - 1) == GroupOf(text[4..], i - 2);
    }
  }

  lemma FrontByteFits(text: seq<char8>, rest: seq<bv8>, t: nat)
    requires 4 <= |text| && 2 <= GroupCount(text[..4]) && t < GroupCount(text[..4]) - 1
    ensures ByteFits(text, DecodeGroup(text[..4]) + rest, 0, t)
  {
    var c := text[..4];
    assert GroupOf(text, 0) == c;
    JoinsAreEights(Sextet(c[0]), Sextet(c[1]), Sextet(c[2]), Sextet(c[3]));
  }

  lemma RestByteFits(text: seq<char8>, front: seq<bv8>, rest: seq<bv8>, i: nat, t: nat)
    requires 1 <= i && 4 * i + 4 <= |text| && |front| == GroupCount(text[..4]) - 1
    requires ByteFits(text[4..], rest, i - 1, t)
    ensures ByteFits(text, front + rest, i, t)
  {
    BeforeRest(text, i);
    assert GroupOf(text, i) == GroupOf(text[4..], i - 1);
  }

  lemma BytesOfRest(text: seq<char8>, rest: seq<bv8>)
    requires 4 <= |text| && 2 <= GroupCount(text[..4]) && AreBytes(text[4..], rest)
    ensures AreBytes(text, DecodeGroup(text[..4]) + rest)
  {
    var front := DecodeGroup(text[..4]);
    BeforeRest(text, |text| / 4);
    forall i, t | 0 <= i < |text| / 4 && 0 <= t < GroupCount(GroupOf(text, i)) - 1 ensures ByteFits(text, front + rest, i, t) {
      if i == 0 {
        assert GroupOf(text, 0) == text[..4];
        FrontByteFits(text, rest, t);
      } else {
        assert GroupOf(text, i) == GroupOf(text[4..], i - 1);
        assert ByteFits(text[4..], rest, i - 1, t);
        RestByteFits(text, front, rest, i, t);
      }
    }
  }

  lemma {:induction false} DecodeIsBytes(text: seq<char8>)
    requires Decode(text).Decoded?
    ensures AreBytes(text, Decode(text).bytes)
    decreases |text|
  {
    if text != [] {
      DecodeIsBytes(text[4..]);
      BytesOfRest(text, Decode(text[4..]).bytes);
    }
  }

  // ----- the loops over output pointers -----

  /** Write through the output pointer. */
  method Put(output: array<bv8>, o: nat, bytes: seq<bv8>)
    requires o + |bytes| <= output.Length
    modifies output
    ensures output[..o + |bytes|] == old(output[..o]) + bytes
  {
    forall i | 0 <= i < |bytes| {
      output[o + i] := bytes[i];
    }
  }

  /** The next group: up to three bytes from the input pointer. */
  method NextGroup(input: seq<bv8>, i: nat) returns (group: seq<char8>, len: nat, ghost rest: seq<char8>)
    requires i < |input|
    ensures 1 <= len <= |input| - i && |group| == 4
    ensures Encode(input[i..]) == group + rest && rest == Encode(input[i + len..])
  {
    len := if 3 <= |input| - i then 3 else |input| - i;
    var b0, b1, b2 := input[i], if 1 < len then input[i + 1] else 0, if 2 < len then input[i + 2] else 0;
    group := EncodeGroup(b0, b1, b2, len);
    assert input[i..][len..] == input[i + len..];
    rest := Encode(input[i + len..]);
  }

  lemma EncodeNothing(input: seq<bv8>)
    requires |input| == 0
    ensures Encode(input) == []
  {}

  lemma Appended(before: seq<char8>, group: seq<char8>, rest: seq<char8>, text: seq<char8>)
    requires before + (group + rest) == text
    ensures (before + group) + rest == text && |before| + |group| <= |text|
  {
    Assoc(before, group, rest);
  }

  /** The loop of base64_encode: all groups are written, or there is no room for one. */
  method EncodeGroups(input: seq<bv8>, output: array<char8>) returns (fits: bool, o: nat)
    modifies output
    ensures fits <==> |Encode(input)| <= output.Length
    ensures fits ==> o <= output.Length && output[..o] == Encode(input) && IsText(input, output[..o])
  {
    ghost var text, rest := Encode(input), Encode(input);
    var i := 0;
    o := 0;
    while i < |input|
      invariant 0 <= i <= |input| && 0 <= o <= output.Length
      invariant output[..o] + rest == text && rest == Encode(input[i..])
    {
      var group, len, after := NextGroup(input, i);
      Appended(output[..o], group, after, text);
      if output.Length - o < 4 {
        return false, o;
      }
      Put(output, o, group);
      i, o, rest := i + len, o + 4, after;
    }
    EncodeNothing(input[i..]);
    EmptyConcat(output[..o]);
    EncodeIsText(input);
    fits := true;
  }

  /** base64_encode into a given output buffer: the number of characters written, or
      -1 when the buffer is too small for all of them. */
  method EncodeInto(input: seq<bv8>, output: array<char8>) returns (count: int)
    modifies output
    ensures count == if output.Length < EncodedLength(|input|) then -1 else EncodedLength(|input|)
    ensures 0 <= count ==> count <= output.Length && output[..count] == Encode(input) && IsText(input, output[..count])
  {
    var fits, o := EncodeGroups(input, output);
    LengthOfEncoded(input);
    count := if fits then o else -1;
  }

  /** The string wrapper: its buffer of max(5, 2 n) characters is always enough. */
  method EncodeString(input: seq<bv8>) returns (text: seq<char8>)
    ensures text == Encode(input) && IsText(input, text)
  {
    LengthOfEncoded(input);
    EncodeIsText(input);
    var size := if 5 < 2 * |input| then 2 * |input| else 5;
    var output := new char8[size](_ => 0);
    var count := EncodeInto(input, output);
    if count <= 0 {
      text := [];
    } else {
      text := output[..count];
    }
  }

  function Behind(before: seq<bv8>, r: Result): Result {
    match r
    case Failed => Failed
    case Decoded(bytes) => Decoded(before + bytes)
  }

  lemma BehindMore(before: seq<bv8>, bytes: seq<bv8>, r: Result)
    ensures Behind(before, Behind(bytes, r)) == Behind(before + bytes, r)
  {
    if r.Decoded? {
      assert before + (bytes + r.bytes) == before + bytes + r.bytes;
    }
  }

  lemma NextDecoded(input: seq<char8>, i: nat)
    requires i + 4 <= |input|
    ensures var group := input[i..i + 4];
      Decode(input[i..]) == if GroupCount(group) < 2 then Failed else Behind(DecodeGroup(group), Decode(input[i + 4..]))
  {
    assert input[i..][..4] == input[i..i + 4] && input[i..][4..] == input[i + 4..];
  }

  /** The loop of base64_decode: the number of bytes written, or -1 at a group that is cut off
      or counts too little, or for want of room. */
  method DecodeGroups(input: seq<char8>, output: array<bv8>) returns (count: int)
    modifies output
    ensures count == match Decode(input) case Failed => -1 case Decoded(bytes) => if |bytes| <= output.Length then |bytes| else -1
    ensures 0 <= count ==> count <= output.Length && output[..count] == Decode(input).bytes
  {
    var i, o := 0, 0;
    while i < |input|
      invariant 0 <= i <= |input| && 0 <= o <= output.Length
      invariant Decode(input) == Behind(output[..o], Decode(input[i..]))
    {
      if |input| - i < 4 {
        return -1;
      }
      var group := input[i..i + 4];
      NextDecoded(input, i);
      if GroupCount(group) < 2 {
        return -1;
      }
      var bytes := DecodeGroup(group);
      if output.Length - o < GroupCount(group) - 1 {
        return -1;
      }
      BehindMore(output[..o], bytes, Decode(input[i + 4..]));
      Put(output, o, bytes);
      i, o := i + 4, o + |bytes|;
    }
    EmptyConcat(output[..o]);
    count := o;
  }

  /** base64_decode into a given output buffer. */
  method DecodeInto(input: seq<char8>, output: array<bv8>) returns (count: int)
    modifies output
    ensures count == match Decode(input) case Failed => -1 case Decoded(bytes) => if |bytes| <= output.Length then |bytes| else -1
    ensures 0 <= count ==> count <= output.Length && output[..count] == Decode(input).bytes
    ensures count == -1 <==> |input| % 4 != 0 || !AllCount(input) || output.Length < Before(input, |input| / 4)
    ensures 0 <= count ==> AreBytes(input, output[..count])
  {
    count := DecodeGroups(input, output);
    Accepts(input);
    if Decode(input).Decoded? {
      DecodeIsBytes(input);
    }
  }

  /** The string wrapper: a buffer as long as the text is always enough; a failure and
      nothing at all both give the empty string. */
  method DecodeString(text: seq<char8>) returns (bytes: seq<bv8>)
    ensures bytes == match Decode(text) case Failed => [] case Decoded(b) => b
    ensures if |text| % 4 == 0 && AllCount(text) then AreBytes(text, bytes) else bytes == []
  {
    Accepts(text);
    if Decode(text).Decoded? {
      DecodeIsBytes(text);
    }
    var output := new bv8[|text|](_ => 0);
    var count := DecodeInto(text, output);
    if count <= 0 {
      bytes := [];
    } else {
      bytes := output[..count];
    }
  }
}
