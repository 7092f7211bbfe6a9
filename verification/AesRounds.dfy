/** The AES block transformation (sections 5.1 and 5.3 of FIPS 197) as a function of the
    round keys. A state is the 4 x 4 byte matrix row by row: cell (r, c) is entry 4r + c. */
module AesRounds {
  import opened AesField
  import opened AesTables

  type Block = s: seq<bv8> | |s| == 16 witness Zero()

  function Zero(): seq<bv8> {
    [0, 0, 0, 0, 0, 0, 0, 0, 0, 0, 0, 0, 0, 0, 0, 0]
  }

  /** The round keys, one for the start and one for each round. */
  type Schedule = w: seq<Block> | |w| == 11 witness ZeroKeys()

  function ZeroKeys(): seq<Block> {
    [Zero(), Zero(), Zero(), Zero(), Zero(), Zero(), Zero(), Zero(), Zero(), Zero(), Zero()]
  }

  function Each<T>(f: T -> T, s: seq<T>): (t: seq<T>)
    requires |s| == 16
    ensures |t| == 16
  {
    seq(16, k requires 0 <= k < 16 => f(s[k]))
  }

  /** The column d further to the right, wrapping round. */
  function Wrap(c: nat, d: nat): (j: nat)
    requires c < 4 && d < 4
    ensures j == (c + d) % 4
  {
    if c + d < 4 then c + d else c + d - 4
  }

  function Rotated<T>(s: seq<T>, r: nat, d: nat): (t: seq<T>)
    requires |s| == 16 && r < 4 && d < 4
    ensures |t| == 16
  {
    seq(16, k requires 0 <= k < 16 => if 4 * r <= k < 4 * r + 4 then s[4 * r + Wrap(k - 4 * r, d)] else s[k])
  }

  /** How far row r goes to the left when it is shifted, or taken back. */
  function Distance(r: nat, back: bool): (d: nat)
    requires 1 <= r < 4
    ensures 1 <= d < 4
  {
    if back then 4 - r else r
  }

  /** The rows above r rotated, from the second on. */
  function RowsBy<T>(s: seq<T>, r: nat, back: bool): (t: seq<T>)
    requires |s| == 16 && 1 <= r <= 4
    ensures |t| == 16
  {
    if r == 1 then s else Rotated(RowsBy(s, r - 1, back), r - 1, Distance(r - 1, back))
  }

  function Shift<T>(s: seq<T>): (t: seq<T>)
    requires |s| == 16
    ensures |t| == 16
  {
    RowsBy(s, 4, false)
  }

  function Unshift<T>(s: seq<T>): (t: seq<T>)
    requires |s| == 16
    ensures |t| == 16
  {
    RowsBy(s, 4, true)
  }

  lemma RotatedAt<T>(s: seq<T>, r: nat, d: nat, i: nat, c: nat)
    requires |s| == 16 && r < 4 && d < 4 && i < 4 && c < 4
    ensures Rotated(s, r, d)[4 * i + c] == if i == r then s[4 * r + Wrap(c, d)] else s[4 * i + c]
  {
  }

  /** Row i of a shifted state is the old row, rotated by its distance. */
  lemma {:induction false} RowsByAt<T>(s: seq<T>, r: nat, back: bool, i: nat, c: nat)
    requires |s| == 16 && 1 <= r <= 4 && i < 4 && c < 4
    ensures RowsBy(s, r, back)[4 * i + c]
         == if 0 < i < r then s[4 * i + Wrap(c, Distance(i, back))] else s[4 * i + c]
  {
    if r > 1 {
      var t, d := RowsBy(s, r - 1, back), Distance(r - 1, back);
      RotatedAt(t, r - 1, d, i, c);
      if i == r - 1 {
        RowsByAt(s, r - 1, back, i, Wrap(c, d));
        assert Rotated(t, r - 1, d)[4 * i + c] == t[4 * i + Wrap(c, d)];
      } else {
        RowsByAt(s, r - 1, back, i, c);
        assert Rotated(t, r - 1, d)[4 * i + c] == t[4 * i + c];
      }
    }
  }

  /** The cell d rows further down the column, wrapping round. */
  function Below(k: nat, d: nat): (j: nat)
    requires k < 16 && d < 4
    ensures j < 16
  {
    if k + 4 * d < 16 then k + 4 * d else k + 4 * d - 16
  }

  /** Every cell from its column, its own row first. */
  function Columns<T>(f: (T, T, T, T) -> T, s: seq<T>): (t: seq<T>)
    requires |s| == 16
    ensures |t| == 16
  {
    seq(16, k requires 0 <= k < 16 => f(s[k], s[Below(k, 1)], s[Below(k, 2)], s[Below(k, 3)]))
  }

  function Added(s: Block, key: Block): Block {
    seq(16, k requires 0 <= k < 16 => Xor(s[k], key[k]))
  }

  // ----- every layer has its inverse -----

  lemma EachInverse(f: bv8 -> bv8, g: bv8 -> bv8, s: Block)
    requires forall x :: g(f(x)) == x
    ensures Each(g, Each(f, s)) == s
  {
    forall k | 0 <= k < 16 ensures Each(g, Each(f, s))[k] == s[k] {
      assert Each(f, s)[k] == f(s[k]);
    }
  }

  lemma BoxesInverse(s: Block)
    ensures Each(InvBox, Each(Box, s)) == s
  {
    forall x ensures InvBox(Box(x)) == x {
      BoxInverse(x);
    }
    EachInverse(Box, InvBox, s);
  }

  lemma ShiftedCell<T>(s: seq<T>, i: nat, c: nat)
    requires |s| == 16 && i < 4 && c < 4
    ensures Unshift(Shift(s))[4 * i + c] == s[4 * i + c]
  {
    RowsByAt(Shift(s), 4, true, i, c);
    if i > 0 {
      RowsByAt(s, 4, false, i, Wrap(c, 4 - i));
    } else {
      RowsByAt(s, 4, false, i, c);
    }
  }

  lemma ShiftInverse<T>(s: seq<T>)
    requires |s| == 16
    ensures Unshift(Shift(s)) == s
  {
    forall k | 0 <= k < 16 ensures Unshift(Shift(s))[k] == s[k] {
      ShiftedCell(s, k / 4, k % 4);
      assert 4 * (k / 4) + k % 4 == k;
    }
  }

  /** A column comes round after four rows. */
  lemma BelowWraps(k: nat)
    requires k < 16
    ensures Below(Below(k, 1), 1) == Below(k, 2) && Below(Below(k, 1), 2) == Below(k, 3) && Below(Below(k, 1), 3) == k
    ensures Below(Below(k, 2), 1) == Below(k, 3) && Below(Below(k, 2), 2) == k && Below(Below(k, 2), 3) == Below(k, 1)
    ensures Below(Below(k, 3), 1) == k && Below(Below(k, 3), 2) == Below(k, 1) && Below(Below(k, 3), 3) == Below(k, 2)
  {
  }

  lemma ColumnAt<T>(f: (T, T, T, T) -> T, s: seq<T>, k: nat)
    requires |s| == 16 && k < 16
    ensures Columns(f, s)[k] == f(s[k], s[Below(k, 1)], s[Below(k, 2)], s[Below(k, 3)])
    ensures Columns(f, s)[Below(k, 1)] == f(s[Below(k, 1)], s[Below(k, 2)], s[Below(k, 3)], s[k])
    ensures Columns(f, s)[Below(k, 2)] == f(s[Below(k, 2)], s[Below(k, 3)], s[k], s[Below(k, 1)])
    ensures Columns(f, s)[Below(k, 3)] == f(s[Below(k, 3)], s[k], s[Below(k, 1)], s[Below(k, 2)])
  {
    BelowWraps(k);
  }

  lemma ColumnsUndone<T(!new)>(f: (T, T, T, T) -> T, g: (T, T, T, T) -> T, s: seq<T>)
    requires |s| == 16
    requires forall a, b, c, d {:trigger f(a, b, c, d)} :: g(f(a, b, c, d), f(b, c, d, a), f(c, d, a, b), f(d, a, b, c)) == a
    ensures Columns(g, Columns(f, s)) == s
  {
    forall k | 0 <= k < 16 ensures Columns(g, Columns(f, s))[k] == s[k] {
      ColumnAt(f, s, k);
      ColumnAt(g, Columns(f, s), k);
    }
  }

  lemma ColumnsInverse(s: Block)
    ensures Columns(InvMix, Columns(Mix, s)) == s
  {
    forall a, b, c, d ensures InvMix(Mix(a, b, c, d), Mix(b, c, d, a), Mix(c, d, a, b), Mix(d, a, b, c)) == a {
      MixInverse(a, b, c, d);
    }
    ColumnsUndone(Mix, InvMix, s);
  }

  lemma AddedTwice(s: Block, key: Block)
    ensures Added(Added(s, key), key) == s
  {
    forall k | 0 <= k < 16 ensures Added(Added(s, key), key)[k] == s[k] {
      Assoc(s[k], key[k], key[k]);
      Same(key[k]);
      Same(s[k]);
    }
  }

  lemma LayerInverse(s: Block)
    ensures Each(InvBox, Unshift(Shift(Each(Box, s)))) == s
  {
    ShiftInverse(Each(Box, s));
    BoxesInverse(s);
  }

  lemma MixedInverse(s: Block, key: Block)
    ensures Columns(InvMix, Added(Added(Columns(Mix, s), key), key)) == s
  {
    AddedTwice(Columns(Mix, s), key);
    ColumnsInverse(s);
  }

  // ----- the rounds -----

  /** What round i substitutes and shifts, before it mixes. */
  function Layer(s: Block, w: Schedule, i: nat): Block
    requires 1 <= i <= 10
    decreases i, 0
  {
    Shift(Each(Box, Rounds(s, w, i - 1)))
  }

  /** The state after round i of the encoder. */
  function Rounds(s: Block, w: Schedule, i: nat): Block
    requires i <= 10
    decreases i, 1
  {
    if i == 0 then Added(s, w[0])
    else if i != 10 then Added(Columns(Mix, Layer(s, w, i)), w[i])
    else Added(Layer(s, w, i), w[i])
  }

  /** The decoder's state in round i before it unmixes. */
  function InvLayer(s: Block, w: Schedule, i: nat): Block
    requires i < 10
    decreases 10 - i, 0
  {
    Added(Each(InvBox, Unshift(InvRounds(s, w, i + 1))), w[i])
  }

  /** The state of the decoder when its loop has done the rounds from 9 down to i. */
  function InvRounds(s: Block, w: Schedule, i: nat): Block
    requires i <= 10
    decreases 10 - i, 1
  {
    if i == 10 then Added(s, w[10])
    else if i != 0 then Columns(InvMix, InvLayer(s, w, i))
    else InvLayer(s, w, i)
  }

  function Cipher(s: Block, w: Schedule): Block {
    Rounds(s, w, 10)
  }

  function InvCipher(s: Block, w: Schedule): Block {
    InvRounds(s, w, 0)
  }

  /** Each round of the decoder takes one round of the encoder back. */
  lemma {:induction false} RoundsMeet(s: Block, w: Schedule, i: nat)
    requires 1 <= i <= 10
    ensures InvRounds(Cipher(s, w), w, i) == Layer(s, w, i)
    decreases 10 - i
  {
    if i == 10 {
      AddedTwice(Layer(s, w, 10), w[10]);
    } else {
      RoundsMeet(s, w, i + 1);
      LayerInverse(Rounds(s, w, i));
      MixedInverse(Layer(s, w, i), w[i]);
    }
  }

  /** The decoder undoes the encoder under every schedule of round keys. */
  lemma CipherInverse(s: Block, w: Schedule)
    ensures InvCipher(Cipher(s, w), w) == s
  {
    RoundsMeet(s, w, 1);
    LayerInverse(Rounds(s, w, 0));
    AddedTwice(s, w[0]);
  }

  // ----- a round cell by cell -----

  /** Where ShiftRows takes cell (r, c) from. */
  function From(r: nat, c: nat): (k: nat)
    requires r < 4 && c < 4
    ensures k < 16
  {
    4 * r + (c + r) % 4
  }

  function Cell<T>(s: seq<T>, r: nat, c: nat): T
    requires |s| == 16 && r < 4 && c < 4
  {
    s[4 * r + c]
  }

  /** Every cell of u by the four cells of t that come into its column, its own row first, and
      by its cell of the key. */
  ghost predicate Follows<T>(h: (T, T, T, T, T) -> T, t: seq<T>, key: seq<T>, u: seq<T>)
    requires |t| == |key| == |u| == 16
  {
    forall r, c {:trigger Cell(u, r, c)} :: 0 <= r < 4 && 0 <= c < 4 ==>
      Cell(u, r, c)
      == h(t[From(r, c)], t[From((r + 1) % 4, c)], t[From((r + 2) % 4, c)], t[From((r + 3) % 4, c)], key[4 * r + c])
  }

  /** A cell after a round, and after the last round, which does not mix. */
  function RoundByte(a: bv8, b: bv8, c: bv8, d: bv8, key: bv8): bv8 {
    Xor(TwoThree(Box(a), Box(b), Box(c), Box(d)), key)
  }

  function LastByte(a: bv8, b: bv8, c: bv8, d: bv8, key: bv8): bv8 {
    Xor(Box(a), key)
  }

  lemma RowBelow(r: nat, c: nat, d: nat)
    requires r < 4 && c < 4 && d < 4
    ensures Below(4 * r + c, d) == 4 * ((r + d) % 4) + c
  {
  }

  lemma ShiftedAt<T>(g: T -> T, s: seq<T>, r: nat, c: nat)
    requires |s| == 16 && r < 4 && c < 4
    ensures Shift(Each(g, s))[4 * r + c] == g(s[From(r, c)])
  {
    RowsByAt(Each(g, s), 4, false, r, c);
  }

  lemma MixedAt<T>(f: (T, T, T, T) -> T, g: T -> T, s: seq<T>, r: nat, c: nat)
    requires |s| == 16 && r < 4 && c < 4
    ensures Columns(f, Shift(Each(g, s)))[4 * r + c]
         == f(g(s[From(r, c)]), g(s[From((r + 1) % 4, c)]), g(s[From((r + 2) % 4, c)]), g(s[From((r + 3) % 4, c)]))
  {
    RowBelow(r, c, 1);
    RowBelow(r, c, 2);
    RowBelow(r, c, 3);
    ShiftedAt(g, s, r, c);
    ShiftedAt(g, s, (r + 1) % 4, c);
    ShiftedAt(g, s, (r + 2) % 4, c);
    ShiftedAt(g, s, (r + 3) % 4, c);
  }

  lemma AddedAt(s: Block, key: Block, k: nat)
    requires k < 16
    ensures Added(s, key)[k] == Xor(s[k], key[k])
  {
  }

  lemma MixedBytes(t: Block, r: nat, c: nat)
    requires r < 4 && c < 4
    ensures Columns(Mix, Shift(Each(Box, t)))[4 * r + c]
         == Mix(Box(t[From(r, c)]), Box(t[From((r + 1) % 4, c)]), Box(t[From((r + 2) % 4, c)]), Box(t[From((r + 3) % 4, c)]))
  {
    MixedAt(Mix, Box, t, r, c);
  }

  lemma MixedRound(s: Block, w: Schedule, i: nat)
    requires 1 <= i < 10
    ensures Rounds(s, w, i) == Added(Columns(Mix, Shift(Each(Box, Rounds(s, w, i - 1)))), w[i])
  {
  }

  lemma RoundCell(t: Block, key: Block, r: nat, c: nat)
    requires r < 4 && c < 4
    ensures Added(Columns(Mix, Shift(Each(Box, t))), key)[4 * r + c]
         == RoundByte(t[From(r, c)], t[From((r + 1) % 4, c)], t[From((r + 2) % 4, c)], t[From((r + 3) % 4, c)], key[4 * r + c])
  {
    MixedBytes(t, r, c);
    MixIs(Box(t[From(r, c)]), Box(t[From((r + 1) % 4, c)]), Box(t[From((r + 2) % 4, c)]), Box(t[From((r + 3) % 4, c)]));
    AddedAt(Columns(Mix, Shift(Each(Box, t))), key, 4 * r + c);
  }

  lemma LastCell(t: Block, key: Block, r: nat, c: nat)
    requires r < 4 && c < 4
    ensures Added(Shift(Each(Box, t)), key)[4 * r + c]
         == LastByte(t[From(r, c)], t[From((r + 1) % 4, c)], t[From((r + 2) % 4, c)], t[From((r + 3) % 4, c)], key[4 * r + c])
  {
    ShiftedAt(Box, t, r, c);
    AddedAt(Shift(Each(Box, t)), key, 4 * r + c);
  }

  lemma RoundFollows(t: Block, key: Block)
    ensures Follows(RoundByte, t, key, Added(Columns(Mix, Shift(Each(Box, t))), key))
    ensures Follows(LastByte, t, key, Added(Shift(Each(Box, t)), key))
  {
    var u, v := Added(Columns(Mix, Shift(Each(Box, t))), key), Added(Shift(Each(Box, t)), key);
    forall r, c | 0 <= r < 4 && 0 <= c < 4
      ensures Cell(u, r, c)
           == RoundByte(t[From(r, c)], t[From((r + 1) % 4, c)], t[From((r + 2) % 4, c)], t[From((r + 3) % 4, c)], key[4 * r + c])
    {
      RoundCell(t, key, r, c);
    }
    forall r, c | 0 <= r < 4 && 0 <= c < 4
      ensures Cell(v, r, c)
           == LastByte(t[From(r, c)], t[From((r + 1) % 4, c)], t[From((r + 2) % 4, c)], t[From((r + 3) % 4, c)], key[4 * r + c])
    {
      LastCell(t, key, r, c);
    }
  }

  /** The rounds of the encoder as section 5.1 of FIPS 197 defines them cell by cell: the sum
      with the first round key, nine rounds that mix, and one that does not. */
  lemma RoundsAre(s: Block, w: Schedule, i: nat)
    requires i <= 10
    ensures i == 0 ==> forall k :: 0 <= k < 16 ==> Rounds(s, w, i)[k] == s[k] ^ w[0][k]
    ensures 0 < i < 10 ==> Follows(RoundByte, Rounds(s, w, i - 1), w[i], Rounds(s, w, i))
    ensures i == 10 ==> Follows(LastByte, Rounds(s, w, i - 1), w[i], Rounds(s, w, i))
  {
    if i > 0 {
      RoundFollows(Rounds(s, w, i - 1), w[i]);
      if i < 10 {
        MixedRound(s, w, i);
      }
    }
  }
}
