/** The in-place AES encoder and decoder of the gateway, over blocks and over buffers. */
module AesBuffers {
  import opened AesField
  import opened AesTables
  import opened AesRounds
  import opened AesKeys

  // ----- blocks inside a buffer -----

  /** Bytes stand in a block column by column. */
  function Turned(b: Block): Block {
    seq(16, k requires 0 <= k < 16 => b[TurnedFrom(k)])
  }

  function TurnedFrom(k: nat): (j: nat)
    requires k < 16
    ensures j < 16
  {
    4 * (k % 4) + k / 4
  }

  lemma TurnedBack(k: nat)
    requires k < 16
    ensures TurnedFrom(TurnedFrom(k)) == k
  {
    var r, c := k / 4, k % 4;
    assert TurnedFrom(k) == 4 * c + r;
    assert (4 * c + r) / 4 == c && (4 * c + r) % 4 == r;
  }

  lemma TurnedTwice(b: Block)
    ensures Turned(Turned(b)) == b
  {
    forall k | 0 <= k < 16 ensures Turned(Turned(b))[k] == b[k] {
      TurnedBack(k);
    }
  }

  lemma TurnedApart(k: nat)
    requires k < 16
    ensures forall j :: 0 <= j < 16 && j != k ==> TurnedFrom(j) != TurnedFrom(k)
  {
    forall j | 0 <= j < 16 && j != k ensures TurnedFrom(j) != TurnedFrom(k) {
      TurnedBack(j);
      TurnedBack(k);
    }
  }

  /** The buffer x with the block b put at a position. */
  function Spliced(x: seq<bv8>, at: nat, b: Block): (y: seq<bv8>)
    requires at + 16 <= |x|
    ensures |y| == |x|
  {
    x[..at] + b + x[at + 16..]
  }

  lemma TurnedCell(r: nat, c: nat)
    requires r < 4 && c < 4
    ensures TurnedFrom(4 * r + c) == 4 * c + r
  {
    assert (4 * r + c) / 4 == r && (4 * r + c) % 4 == c;
  }

  /** Cell (r, c) of the state is byte 4c + r of the block, on the way in and on the way out. */
  lemma TurnedAt(b: Block, r: nat, c: nat)
    requires r < 4 && c < 4
    ensures Cell(Turned(b), r, c) == b[c * 4 + r]
  {
    TurnedCell(r, c);
  }

  lemma SplicedAt(x: seq<bv8>, at: nat, s: Block, r: nat, c: nat)
    requires at + 16 <= |x| && r < 4 && c < 4
    ensures Spliced(x, at, Turned(s))[at + c * 4 + r] == Cell(s, r, c)
  {
    TurnedAt(s, c, r);
  }

  function EncodeBlock(w: Schedule, b: Block): Block {
    Turned(Cipher(Turned(b), w))
  }

  function DecodeBlock(w: Schedule, b: Block): Block {
    Turned(InvCipher(Turned(b), w))
  }

  lemma BlockInverse(w: Schedule, b: Block)
    ensures DecodeBlock(w, EncodeBlock(w, b)) == b
  {
    TurnedTwice(Cipher(Turned(b), w));
    CipherInverse(Turned(b), w);
    TurnedTwice(b);
  }

  function Column<T>(s: seq<T>, c: nat): (t: seq<T>)
    requires |s| == 16 && c < 4
    ensures |t| == 4
  {
    [s[c], s[4 + c], s[8 + c], s[12 + c]]
  }

  /** The new cell in row r of a column. */
  function NewCell<T>(f: (T, T, T, T) -> T, t: seq<T>, r: nat): T
    requires |t| == 4 && r < 4
  {
    f(t[r], t[(r + 1) % 4], t[(r + 2) % 4], t[(r + 3) % 4])
  }

  function ColumnCell<T>(f: (T, T, T, T) -> T, s: seq<T>, r: nat, c: nat): T
    requires |s| == 16 && r < 4 && c < 4
  {
    NewCell(f, Column(s, c), r)
  }

  lemma ColumnCellAt<T>(f: (T, T, T, T) -> T, s: seq<T>, r: nat, c: nat)
    requires |s| == 16 && r < 4 && c < 4
    ensures ColumnCell(f, s, r, c)
         == f(s[4 * r + c], s[4 * ((r + 1) % 4) + c], s[4 * ((r + 2) % 4) + c], s[4 * ((r + 3) % 4) + c])
  {
  }

  /** The state with the first r cells of column c combined. */
  ghost function Partly<T>(f: (T, T, T, T) -> T, s: seq<T>, c: nat, r: nat): (t: seq<T>)
    requires |s| == 16 && c < 4 && r <= 4
    ensures |t| == 16
  {
    if r == 0 then s else Partly(f, s, c, r - 1)[4 * (r - 1) + c := ColumnCell(f, s, r - 1, c)]
  }

  ghost function UpTo<T>(f: (T, T, T, T) -> T, s: seq<T>, c: nat): (t: seq<T>)
    requires |s| == 16 && c <= 4
    ensures |t| == 16
  {
    if c == 0 then s else Partly(f, UpTo(f, s, c - 1), c - 1, 4)
  }

  lemma PartlyAt<T>(f: (T, T, T, T) -> T, s: seq<T>, c: nat, r: nat, j: nat, d: nat)
    requires |s| == 16 && c < 4 && r <= 4 && j < 4 && d < 4
    ensures Partly(f, s, c, r)[4 * j + d] == if d == c && j < r then ColumnCell(f, s, j, c) else s[4 * j + d]
  {
  }

  lemma {:induction false} UpToAt<T>(f: (T, T, T, T) -> T, s: seq<T>, c: nat, j: nat, d: nat)
    requires |s| == 16 && c <= 4 && j < 4 && d < 4
    ensures UpTo(f, s, c)[4 * j + d] == if d < c then ColumnCell(f, s, j, d) else s[4 * j + d]
  {
    if c > 0 {
      PartlyAt(f, UpTo(f, s, c - 1), c - 1, 4, j, d);
      UpToAt(f, s, c - 1, 0, d);
      UpToAt(f, s, c - 1, 1, d);
      UpToAt(f, s, c - 1, 2, d);
      UpToAt(f, s, c - 1, 3, d);
    }
  }

  lemma AllCells<T>(f: (T, T, T, T) -> T, s: seq<T>, t: seq<T>)
    requires |s| == 16 && |t| == 16
    requires forall r, c :: 0 <= r < 4 && 0 <= c < 4 ==> t[4 * r + c] == ColumnCell(f, s, r, c)
    ensures t == Columns(f, s)
  {
    forall k | 0 <= k < 16 ensures t[k] == Columns(f, s)[k] {
      var r, c := k / 4, k % 4;
      RowBelow(r, c, 1);
      RowBelow(r, c, 2);
      RowBelow(r, c, 3);
      ColumnCellAt(f, s, r, c);
      assert t[4 * r + c] == ColumnCell(f, s, r, c);
    }
  }

  lemma AllColumns<T>(f: (T, T, T, T) -> T, s: seq<T>)
    requires |s| == 16
    ensures UpTo(f, s, 4) == Columns(f, s)
  {
    var t := UpTo(f, s, 4);
    forall r, c | 0 <= r < 4 && 0 <= c < 4 ensures t[4 * r + c] == ColumnCell(f, s, r, c) {
      UpToAt(f, s, 4, r, c);
    }
    AllCells(f, s, t);
  }

  ghost predicate Computes(f: (bv8, bv8, bv8, bv8) -> bv8, k: bv8, l: bv8, m: bv8, n: bv8) {
    forall a, b, c, d {:trigger Combined(k, l, m, n, a, b, c, d)} :: Combined(k, l, m, n, a, b, c, d) == f(a, b, c, d)
  }

  // ----- whole buffers -----

  /** Every block but the last 16 bytes or fewer, which stay as they are. */
  function Blocks(f: Block -> Block, x: seq<bv8>): (y: seq<bv8>)
    ensures |y| == |x|
  {
    if |x| <= 16 then x else f(x[..16]) + Blocks(f, x[16..])
  }

  function Flipped(x: seq<bv8>): (y: seq<bv8>)
    ensures |y| == |x|
  {
    seq(|x|, k requires 0 <= k < |x| => Xor(x[k], 0x06))
  }

  function Crypt(f: Block -> Block, x: seq<bv8>): (y: seq<bv8>)
    ensures |y| == |x|
  {
    if |x| <= 16 then Flipped(x) else Blocks(f, x)
  }

  lemma {:induction false} BlocksInverse(f: Block -> Block, g: Block -> Block, x: seq<bv8>)
    requires forall b :: g(f(b)) == b
    ensures Blocks(g, Blocks(f, x)) == x
  {
    if |x| > 16 {
      var b: Block := x[..16];
      var y := Blocks(f, x[16..]);
      assert (f(b) + y)[..16] == f(b) && (f(b) + y)[16..] == y;
      BlocksInverse(f, g, x[16..]);
      assert b + x[16..] == x;
    }
  }

  lemma CryptInverse(f: Block -> Block, g: Block -> Block, x: seq<bv8>)
    requires forall b :: g(f(b)) == b
    ensures Crypt(g, Crypt(f, x)) == x
  {
    BlocksInverse(f, g, x);
    forall k | 0 <= k < |x| ensures Flipped(Flipped(x))[k] == x[k] {
      Assoc(x[k], 0x06, 0x06);
      Same(0x06);
      Same(x[k]);
    }
  }

  /** What becomes of a buffer whose first n bytes are done up to position i. */
  ghost function Finished(f: Block -> Block, x: seq<bv8>, i: nat, n: nat): seq<bv8>
    requires i <= n <= |x|
  {
    x[..i] + Blocks(f, x[i..n]) + x[n..]
  }

  lemma NothingDone(f: Block -> Block, x: seq<bv8>, n: nat)
    requires 16 < n <= |x|
    ensures Finished(f, x, 0, n) == Crypt(f, x[..n]) + x[n..]
  {
    assert x[..0] + Blocks(f, x[0..n]) == Blocks(f, x[0..n]);
    assert x[0..n] == x[..n];
  }

  lemma AllDone(f: Block -> Block, x: seq<bv8>, i: nat, n: nat)
    requires i <= n <= |x| && n <= i + 16
    ensures Finished(f, x, i, n) == x
  {
  }

  lemma NextBlock(f: Block -> Block, x: seq<bv8>, i: nat, n: nat)
    requires i + 16 < n <= |x|
    ensures Finished(f, Spliced(x, i, f(x[i..i + 16])), i + 16, n) == Finished(f, x, i, n)
  {
    var b: Block := x[i..i + 16];
    var y := Spliced(x, i, f(b));
    assert x[i..n][..16] == b && x[i..n][16..] == x[i + 16..n];
    assert y[i + 16..n] == x[i + 16..n];
    assert y[..i + 16] == x[..i] + f(b);
    assert y[n..] == x[n..];
    assert (x[..i] + f(b)) + Blocks(f, x[i + 16..n]) == x[..i] + (f(b) + Blocks(f, x[i + 16..n]));
  }

  /** The place of the terminator. */
  function Terminator(x: seq<bv8>): (k: nat)
    requires 0 in x
    ensures k < |x| && x[k] == 0 && 0 !in x[..k]
  {
    if x[0] == 0 then 0 else 1 + Terminator(x[1..])
  }

  function Encoder(w: Schedule): Block -> Block {
    b => EncodeBlock(w, b)
  }

  function Decoder(w: Schedule): Block -> Block {
    b => DecodeBlock(w, b)
  }

  /** How many bytes Encode works on: a length of zero asks it to look for the terminator. */
  function Reach(x: seq<bv8>, length: int): (n: int)
    requires length <= |x| && (length == 0 ==> 0 in x)
    ensures n <= |x|
  {
    if length == 0 then Terminator(x) + 1 else length
  }

  function Encoded(w: Schedule, x: seq<bv8>, length: int): (y: seq<bv8>)
    requires length <= |x| && (length == 0 ==> 0 in x)
    ensures |y| == |x|
  {
    var n := Reach(x, length);
    if n < 0 then x else Crypt(Encoder(w), x[..n]) + x[n..]
  }

  function Decoded(w: Schedule, x: seq<bv8>, length: int): (y: seq<bv8>)
    requires length <= |x|
    ensures |y| == |x|
  {
    if length < 0 then x else Crypt(Decoder(w), x[..length]) + x[length..]
  }

  /** Decode gives the buffer back whenever it is told how far Encode reached, which is the
      length given to both calls unless that length is zero. */
  lemma DecodeUndoes(w: Schedule, x: seq<bv8>, length: int)
    requires length <= |x| && (length == 0 ==> 0 in x)
    ensures Decoded(w, Encoded(w, x, length), Reach(x, length)) == x
  {
    var n := Reach(x, length);
    if n >= 0 {
      var y := Crypt(Encoder(w), x[..n]);
      assert (y + x[n..])[..n] == y && (y + x[n..])[n..] == x[n..];
      forall b: Block ensures Decoder(w)(Encoder(w)(b)) == b {
        BlockInverse(w, b);
      }
      CryptInverse(Encoder(w), Decoder(w), x[..n]);
      assert x[..n] + x[n..] == x;
    }
  }

  /** A zero length is lost on Decode, which then leaves the encoded buffer as it is; for what
      Encode merely flips, the same length on both calls gives the buffer back exactly when
      it is not zero. */
  lemma ZeroLengthIsLost(w: Schedule, x: seq<bv8>, length: int)
    requires length <= |x| && (length == 0 ==> 0 in x)
    ensures length == 0 ==> Decoded(w, Encoded(w, x, length), length) == Encoded(w, x, length)
    ensures Reach(x, length) <= 16 ==> (Decoded(w, Encoded(w, x, length), length) == x <==> length != 0)
  {
    DecodeUndoes(w, x, length);
    if length == 0 {
      var n := Terminator(x) + 1;
      var y := Encoded(w, x, 0);
      assert y[..0] + y[0..] == y;
      if n <= 16 {
        assert y[n - 1] == Flipped(x[..n])[n - 1] == Xor(0, 0x06);
      }
    }
  }

  // ----- a buffer byte by byte -----

  function Chunk(x: seq<bv8>, i: nat): Block
    requires i + 16 <= |x|
  {
    x[i..i + 16]
  }

  /** y is x with every block that begins more than 16 bytes before n gone through f, and every
      other byte as it was. */
  ghost predicate BlockByBlock(f: Block -> Block, x: seq<bv8>, y: seq<bv8>, n: int)
    requires |x| == |y| && n <= |x|
  {
    && (forall i {:trigger Chunk(y, i)} :: 0 <= i < n - 16 && i % 16 == 0 ==> Chunk(y, i) == f(Chunk(x, i)))
    && (forall k :: 0 <= k < |x| && k - k % 16 >= n - 16 ==> y[k] == x[k])
  }

  lemma {:induction false} BlocksAt(f: Block -> Block, x: seq<bv8>, i: nat)
    requires i + 16 < |x| && i % 16 == 0
    ensures Chunk(Blocks(f, x), i) == f(Chunk(x, i))
  {
    if i > 0 {
      BlocksAt(f, x[16..], i - 16);
      assert Chunk(x, i) == Chunk(x[16..], i - 16);
      assert Chunk(Blocks(f, x), i) == Chunk(Blocks(f, x[16..]), i - 16);
    }
  }

  lemma {:induction false} BlocksKeep(f: Block -> Block, x: seq<bv8>, k: nat)
    requires k < |x| && k - k % 16 >= |x| - 16
    ensures Blocks(f, x)[k] == x[k]
  {
    if |x| > 16 {
      BlocksKeep(f, x[16..], k - 16);
    }
  }

  lemma CryptedBlocks(f: Block -> Block, x: seq<bv8>, n: nat)
    requires 16 < n <= |x|
    ensures BlockByBlock(f, x, Crypt(f, x[..n]) + x[n..], n)
  {
    var y := Crypt(f, x[..n]) + x[n..];
    forall i | 0 <= i < n - 16 && i % 16 == 0 ensures Chunk(y, i) == f(Chunk(x, i)) {
      BlocksAt(f, x[..n], i);
      assert Chunk(x[..n], i) == Chunk(x, i);
      assert Chunk(y, i) == Chunk(Blocks(f, x[..n]), i);
    }
    forall k | 0 <= k < |x| && k - k % 16 >= n - 16 ensures y[k] == x[k] {
      if k < n {
        BlocksKeep(f, x[..n], k);
      }
    }
  }

  /** The bytes before n xored with 6. */
  ghost predicate AllFlipped(x: seq<bv8>, y: seq<bv8>, n: int)
    requires |x| == |y| && n <= |x|
  {
    forall k :: 0 <= k < |x| ==> y[k] == if k < n then x[k] ^ 0x06 else x[k]
  }

  lemma CryptedShort(f: Block -> Block, x: seq<bv8>, n: nat)
    requires n <= 16 && n <= |x|
    ensures AllFlipped(x, Crypt(f, x[..n]) + x[n..], n)
  {
    forall k | 0 <= k < |x|
      ensures (Crypt(f, x[..n]) + x[n..])[k] == if k < n then Xor(x[k], 0x06) else x[k]
    {
    }
  }

  /** Short data flipped, longer data block by block. */
  ghost predicate Done(f: Block -> Block, x: seq<bv8>, y: seq<bv8>, n: int)
    requires |x| == |y| && n <= |x|
  {
    if n <= 16 then AllFlipped(x, y, n) else BlockByBlock(f, x, y, n)
  }

  lemma CryptDone(f: Block -> Block, x: seq<bv8>, n: int)
    requires n <= |x|
    ensures Done(f, x, if n < 0 then x else Crypt(f, x[..n]) + x[n..], n)
  {
    if n > 16 {
      CryptedBlocks(f, x, n);
    } else if n >= 0 {
      CryptedShort(f, x, n);
    }
  }

  // ----- columns cell by cell -----

  /** Every cell of t is h of its column in s, its own row first. */
  ghost predicate Sums<T>(h: (T, T, T, T) -> T, s: seq<T>, t: seq<T>)
    requires |s| == |t| == 16
  {
    forall r, c {:trigger Cell(t, r, c)} :: 0 <= r < 4 && 0 <= c < 4 ==>
      Cell(t, r, c) == h(s[4 * r + c], s[4 * ((r + 1) % 4) + c], s[4 * ((r + 2) % 4) + c], s[4 * ((r + 3) % 4) + c])
  }

  lemma ColumnsSum<T>(h: (T, T, T, T) -> T, s: seq<T>)
    requires |s| == 16
    ensures Sums(h, s, Columns(h, s))
  {
    forall r, c | 0 <= r < 4 && 0 <= c < 4
      ensures Cell(Columns(h, s), r, c)
           == h(s[4 * r + c], s[4 * ((r + 1) % 4) + c], s[4 * ((r + 2) % 4) + c], s[4 * ((r + 3) % 4) + c])
    {
      RowBelow(r, c, 1);
      RowBelow(r, c, 2);
      RowBelow(r, c, 3);
    }
  }

  lemma MixedCells(s: Block)
    ensures Sums(TwoThree, s, Columns(Mix, s))
  {
    ColumnsSum(Mix, s);
    forall r, c | 0 <= r < 4 && 0 <= c < 4
      ensures Cell(Columns(Mix, s), r, c)
           == TwoThree(s[4 * r + c], s[4 * ((r + 1) % 4) + c], s[4 * ((r + 2) % 4) + c], s[4 * ((r + 3) % 4) + c])
    {
      MixIs(s[4 * r + c], s[4 * ((r + 1) % 4) + c], s[4 * ((r + 2) % 4) + c], s[4 * ((r + 3) % 4) + c]);
    }
  }

  /** The round keys before number i and the first j columns of that one are made. */
  ghost predicate Expanding<T>(w: array3<T>, box: T -> T, add: (T, T) -> T, rc: seq<T>, key: seq<T>, i: nat, j: nat)
    requires w.Length0 == 11 && w.Length1 == w.Length2 == 4 && |rc| == 10 && |key| == 16 && i <= 11 && j <= 4
    reads w
  {
    && (forall h, r, c :: 0 <= h < i && 0 <= r < 4 && 0 <= c < 4 ==> w[h, r, c] == KeyCell(box, add, rc, key, h, r, c))
    && (i < 11 ==> forall r, c :: 0 <= r < 4 && 0 <= c < j ==> w[i, r, c] == KeyCell(box, add, rc, key, i, r, c))
  }

  class Aes {
    const w: Schedule

    constructor (key: Block)
      ensures w == Expanded(key)
    {
      var keys := KeyExpansion(key);
      w := keys;
    }

    /** The last column of the round key before, turned for the first column of the next. */
    static method TurnWord<T>(t: array<T>, box: T -> T, add: (T, T) -> T, constant: T)
      requires t.Length == 4
      modifies t
      ensures forall r :: 0 <= r < 4 ==> t[r] == Turn(box, add, constant, r, old(t[(r + 1) % 4]))
    {
      var temp := t[0];
      for r := 0 to 3
        invariant forall j :: 0 <= j < r ==> t[j] == box(old(t[(j + 1) % 4]))
        invariant forall j :: r <= j < 4 ==> t[j] == old(t[j])
      {
        t[r] := box(t[(r + 1) % 4]);
      }
      t[3] := box(temp);
      t[0] := add(t[0], constant);
    }

    /** What goes onto column j of round key i: the column to its left, or the turned one. */
    static method LeftColumn<T(0)>(w: array3<T>, box: T -> T, add: (T, T) -> T, rc: seq<T>, i: nat, j: nat)
      returns (t: array<T>)
      requires w.Length0 == 11 && w.Length1 == w.Length2 == 4 && |rc| == 10 && 1 <= i <= 10 && j < 4
      ensures fresh(t) && t.Length == 4
      ensures j > 0 ==> forall r :: 0 <= r < 4 ==> t[r] == w[i, r, j - 1]
      ensures j == 0 ==> forall r :: 0 <= r < 4 ==> t[r] == Turn(box, add, rc[i - 1], r, w[i - 1, (r + 1) % 4, 3])
    {
      t := new T[4];
      for r := 0 to 4
        invariant forall k :: 0 <= k < r ==> t[k] == if j > 0 then w[i, k, j - 1] else w[i - 1, k, 3]
      {
        t[r] := if j > 0 then w[i, r, j - 1] else w[i - 1, r, 3];
      }
      if j == 0 {
        TurnWord(t, box, add, rc[i - 1]);
      }
    }

    static method AddColumn<T>(w: array3<T>, add: (T, T) -> T, i: nat, j: nat, t: array<T>)
      requires w.Length0 == 11 && w.Length1 == w.Length2 == 4 && 1 <= i <= 10 && j < 4 && t.Length == 4
      modifies w
      ensures forall r :: 0 <= r < 4 ==> w[i, r, j] == add(old(w[i - 1, r, j]), t[r])
      ensures forall h, r, c :: 0 <= h < 11 && 0 <= r < 4 && 0 <= c < 4 && (h != i || c != j) ==>
        w[h, r, c] == old(w[h, r, c])
    {
      for r := 0 to 4
        invariant forall k :: 0 <= k < r ==> w[i, k, j] == add(old(w[i - 1, k, j]), t[k])
        invariant forall h, k, c :: 0 <= h < 11 && 0 <= k < 4 && 0 <= c < 4 && (h != i || c != j) ==>
          w[h, k, c] == old(w[h, k, c])
      {
        w[i, r, j] := add(w[i - 1, r, j], t[r]);
      }
    }

    /** One column of a round key. */
    static method ExpandColumn<T(0)>(w: array3<T>, box: T -> T, add: (T, T) -> T, rc: seq<T>, ghost key: seq<T>, i: nat, j: nat)
      requires w.Length0 == 11 && w.Length1 == w.Length2 == 4 && |rc| == 10 && |key| == 16 && 1 <= i <= 10 && j < 4
      requires Expanding(w, box, add, rc, key, i, j)
      modifies w
      ensures Expanding(w, box, add, rc, key, i, j + 1)
    {
      var t := LeftColumn(w, box, add, rc, i, j);
      AddColumn(w, add, i, j, t);
    }

    static method KeyExpansion(key: Block) returns (keys: Schedule)
      ensures keys == Expanded(key)
    {
      keys := ExpandKey(key, Box, Xor, Constants());
    }

    static method ExpandKey<T(0)>(key: seq<T>, box: T -> T, add: (T, T) -> T, rc: seq<T>) returns (keys: seq<seq<T>>)
      requires |key| == 16 && |rc| == 10
      ensures keys == KeysOf(box, add, rc, key)
    {
      var w := new T[11, 4, 4];
      for r := 0 to 4
        invariant forall k, c :: 0 <= k < r && 0 <= c < 4 ==> w[0, k, c] == key[k + c * 4]
      {
        for c := 0 to 4
          invariant forall k, d :: 0 <= k < r && 0 <= d < 4 ==> w[0, k, d] == key[k + d * 4]
          invariant forall d :: 0 <= d < c ==> w[0, r, d] == key[r + d * 4]
        {
          w[0, r, c] := key[r + c * 4];
        }
      }
      for i := 1 to 11
        invariant Expanding(w, box, add, rc, key, i, 0)
      {
        for j := 0 to 4
          invariant Expanding(w, box, add, rc, key, i, j)
        {
          ExpandColumn(w, box, add, rc, key, i, j);
        }
      }
      keys := seq(11, i requires 0 <= i < 11 reads w => seq(16, k requires 0 <= k < 16 reads w => w[i, k / 4, k % 4]));
      assert forall i :: 0 <= i < 11 ==> keys[i] == RoundKey(box, add, rc, key, i);
    }

    /** Every cell through a table. */
    static method Substitute<T>(state: array<T>, table: T -> T)
      requires state.Length == 16
      modifies state
      ensures state[..] == Each(table, old(state[..]))
    {
      ghost var was := state[..];
      for r := 0 to 4
        invariant forall k :: 0 <= k < 16 ==> state[k] == if k < 4 * r then table(was[k]) else was[k]
      {
        for c := 0 to 4
          invariant forall k :: 0 <= k < 16 ==> state[k] == if k < 4 * r + c then table(was[k]) else was[k]
        {
          state[4 * r + c] := table(state[4 * r + c]);
        }
      }
    }

    static method SubBytes(state: array<bv8>)
      requires state.Length == 16
      modifies state
      ensures state[..] == Each(Box, old(state[..]))
      ensures forall k :: 0 <= k < 16 ==> state[k] == Box(old(state[k]))
    {
      Substitute(state, Box);
    }

    static method InvSubBytes(state: array<bv8>)
      requires state.Length == 16
      modifies state
      ensures state[..] == Each(InvBox, old(state[..]))
      ensures forall k :: 0 <= k < 16 ==> state[k] == InvBox(old(state[k]))
    {
      Substitute(state, InvBox);
    }

    /** One row taken d cells to the left, through a copy. */
    static method RotateRow<T(0)>(state: array<T>, r: nat, d: nat)
      requires state.Length == 16 && r < 4 && d < 4
      modifies state
      ensures state[..] == Rotated(old(state[..]), r, d)
    {
      ghost var was := state[..];
      ghost var goal := Rotated(was, r, d);
      var t := new T[4];
      for c := 0 to 4
        invariant state[..] == was && forall k :: 0 <= k < c ==> t[k] == was[4 * r + Wrap(k, d)]
      {
        t[c] := state[4 * r + (c + d) % 4];
      }
      for c := 0 to 4
        invariant forall k :: 0 <= k < 16 ==> state[k] == if k < 4 * r + c then goal[k] else was[k]
        invariant forall k :: 0 <= k < 4 ==> t[k] == was[4 * r + Wrap(k, d)]
      {
        RotatedAt(was, r, d, r, c);
        state[4 * r + c] := t[c];
      }
    }

    static method ShiftRows(state: array<bv8>)
      requires state.Length == 16
      modifies state
      ensures state[..] == Shift(old(state[..]))
      ensures forall r, c :: 0 <= r < 4 && 0 <= c < 4 ==> Cell(state[..], r, c) == Cell(old(state[..]), r, (c + r) % 4)
    {
      ghost var was := state[..];
      for r := 1 to 4
        invariant state[..] == RowsBy(was, r, false)
      {
        RotateRow(state, r, r);
      }
      forall r, c | 0 <= r < 4 && 0 <= c < 4 ensures Cell(Shift(was), r, c) == Cell(was, r, (c + r) % 4) {
        RowsByAt(was, 4, false, r, c);
      }
    }

    static method InvShiftRows(state: array<bv8>)
      requires state.Length == 16
      modifies state
      ensures state[..] == Unshift(old(state[..]))
      ensures forall r, c :: 0 <= r < 4 && 0 <= c < 4 ==> Cell(state[..], r, c) == Cell(old(state[..]), r, (c - r + 4) % 4)
    {
      ghost var was := state[..];
      for r := 1 to 4
        invariant state[..] == RowsBy(was, r, true)
      {
        RotateRow(state, r, 4 - r);
      }
      forall r, c | 0 <= r < 4 && 0 <= c < 4 ensures Cell(Unshift(was), r, c) == Cell(was, r, (c - r + 4) % 4) {
        RowsByAt(was, 4, true, r, c);
      }
    }

    static method AddRoundKey(state: array<bv8>, key: Block)
      requires state.Length == 16
      modifies state
      ensures state[..] == Added(old(state[..]), key)
      ensures forall k :: 0 <= k < 16 ==> state[k] == old(state[k]) ^ key[k]
    {
      for c := 0 to 4
        invariant forall k :: 0 <= k < 16 ==>
          state[k] == if k % 4 < c then Xor(old(state[k]), key[k]) else old(state[k])
      {
        for r := 0 to 4
          invariant forall k :: 0 <= k < 16 ==>
            state[k] == if k % 4 < c || (k % 4 == c && k / 4 < r) then Xor(old(state[k]), key[k]) else old(state[k])
        {
          state[4 * r + c] := Xor(state[4 * r + c], key[4 * r + c]);
        }
      }
    }

    /** A cell of the combined column: the four products, summed from the left. */
    static method CombineCell(k: bv8, l: bv8, m: bv8, n: bv8, a: bv8, b: bv8, c: bv8, d: bv8,
                              ghost f: (bv8, bv8, bv8, bv8) -> bv8)
      returns (x: bv8)
      requires Computes(f, k, l, m, n)
      ensures x == f(a, b, c, d)
    {
      var p := FFmul(k, a);
      var q := FFmul(l, b);
      var u := FFmul(m, c);
      var v := FFmul(n, d);
      x := Xor(Xor(Xor(p, q), u), v);
      Assoc(Xor(p, q), u, v);
      assert x == Combined(k, l, m, n, a, b, c, d);
    }

    /** One column, each cell from a copy of the column. */
    static method CombineColumn(state: array<bv8>, c: nat, k: bv8, l: bv8, m: bv8, n: bv8,
                                ghost f: (bv8, bv8, bv8, bv8) -> bv8)
      requires state.Length == 16 && c < 4 && Computes(f, k, l, m, n)
      modifies state
      ensures state[..] == Partly(f, old(state[..]), c, 4)
    {
      ghost var was := state[..];
      var t := new bv8[4](_ => 0);
      for r := 0 to 4
        invariant state[..] == was && t[..r] == Column(was, c)[..r]
      {
        t[r] := state[4 * r + c];
      }
      assert t[..] == t[..4] == Column(was, c);
      for r := 0 to 4
        invariant state[..] == Partly(f, was, c, r) && t[..] == Column(was, c)
      {
        state[4 * r + c] := CombineCell(k, l, m, n, t[r], t[(r + 1) % 4], t[(r + 2) % 4], t[(r + 3) % 4], f);
      }
    }

    static method CombineColumns(state: array<bv8>, k: bv8, l: bv8, m: bv8, n: bv8,
                                 ghost f: (bv8, bv8, bv8, bv8) -> bv8)
      requires state.Length == 16 && Computes(f, k, l, m, n)
      modifies state
      ensures state[..] == Columns(f, old(state[..]))
    {
      for c := 0 to 4
        invariant state[..] == UpTo(f, old(state[..]), c)
      {
        CombineColumn(state, c, k, l, m, n, f);
      }
      AllColumns(f, old(state[..]));
    }

    static method MixColumns(state: array<bv8>)
      requires state.Length == 16
      modifies state
      ensures state[..] == Columns(Mix, old(state[..]))
      ensures Sums(TwoThree, old(state[..]), state[..])
    {
      ghost var was := state[..];
      CombineColumns(state, 0x02, 0x03, 0x01, 0x01, Mix);
      MixedCells(was);
    }

    static method InvMixColumns(state: array<bv8>)
      requires state.Length == 16
      modifies state
      ensures state[..] == Columns(InvMix, old(state[..]))
      ensures Sums(InvMix, old(state[..]), state[..])
    {
      ghost var was := state[..];
      CombineColumns(state, 0x0e, 0x0b, 0x0d, 0x09, InvMix);
      ColumnsSum(InvMix, was);
    }

    static method Load(input: array<bv8>, at: nat, state: array<bv8>)
      requires at + 16 <= input.Length && state.Length == 16 && state != input
      modifies state
      ensures state[..] == Turned(input[at..at + 16])
    {
      ghost var goal := Turned(input[at..at + 16]);
      for r := 0 to 4
        invariant state[..4 * r] == goal[..4 * r]
      {
        for c := 0 to 4
          invariant state[..4 * r + c] == goal[..4 * r + c]
        {
          TurnedCell(r, c);
          state[4 * r + c] := input[at + c * 4 + r];
        }
      }
    }

    static method Store(input: array<bv8>, at: nat, state: array<bv8>)
      requires at + 16 <= input.Length && state.Length == 16 && state != input
      modifies input
      ensures input[..] == Spliced(old(input[..]), at, Turned(state[..]))
      ensures forall k :: 0 <= k < input.Length && !(at <= k < at + 16) ==> input[k] == old(input[k])
    {
      ghost var was := input[..];
      for r := 0 to 4
        invariant state[..] == old(state[..])
        invariant forall k :: 0 <= k < input.Length && !(at <= k < at + 16) ==> input[k] == was[k]
        invariant forall k :: 0 <= k < 4 * r ==> input[at + TurnedFrom(k)] == state[k]
      {
        for c := 0 to 4
          invariant state[..] == old(state[..])
          invariant forall k :: 0 <= k < input.Length && !(at <= k < at + 16) ==> input[k] == was[k]
          invariant forall k :: 0 <= k < 4 * r + c ==> input[at + TurnedFrom(k)] == state[k]
        {
          TurnedCell(r, c);
          TurnedApart(4 * r + c);
          input[at + c * 4 + r] := state[4 * r + c];
        }
      }
      forall j | 0 <= j < 16 ensures input[at + j] == Turned(state[..])[j] {
        TurnedBack(j);
        assert input[at + TurnedFrom(TurnedFrom(j))] == state[TurnedFrom(j)];
      }
    }

    /** One block, in place. */
    method EncodeAt(input: array<bv8>, at: nat)
      requires at + 16 <= input.Length
      modifies input
      ensures input[..] == Spliced(old(input[..]), at, EncodeBlock(w, old(input[at..at + 16])))
      ensures input[at..at + 16] == EncodeBlock(w, old(input[at..at + 16]))
      ensures forall k :: 0 <= k < input.Length && !(at <= k < at + 16) ==> input[k] == old(input[k])
    {
      var state := new bv8[16](_ => 0);
      Load(input, at, state);
      ghost var s: Block := state[..];
      AddRoundKey(state, w[0]);
      for i := 1 to 11
        invariant state[..] == Rounds(s, w, i - 1) && input[..] == old(input[..])
      {
        SubBytes(state);
        ShiftRows(state);
        if i != 10 {
          MixColumns(state);
        }
        AddRoundKey(state, w[i]);
      }
      Store(input, at, state);
    }

    method DecodeAt(input: array<bv8>, at: nat)
      requires at + 16 <= input.Length
      modifies input
      ensures input[..] == Spliced(old(input[..]), at, DecodeBlock(w, old(input[at..at + 16])))
      ensures input[at..at + 16] == DecodeBlock(w, old(input[at..at + 16]))
      ensures forall k :: 0 <= k < input.Length && !(at <= k < at + 16) ==> input[k] == old(input[k])
    {
      var state := new bv8[16](_ => 0);
      Load(input, at, state);
      ghost var s: Block := state[..];
      AddRoundKey(state, w[10]);
      for i := 10 downto 0
        invariant state[..] == InvRounds(s, w, i) && input[..] == old(input[..])
      {
        InvShiftRows(state);
        InvSubBytes(state);
        AddRoundKey(state, w[i]);
        assert state[..] == InvLayer(s, w, i);
        if i != 0 {
          InvMixColumns(state);
        }
      }
      Store(input, at, state);
    }

    method Encode(input: array<bv8>, length: int)
      requires length <= input.Length
      requires length == 0 ==> 0 in input[..]
      modifies input
      ensures input[..] == Encoded(w, old(input[..]), length)
      ensures Done(Encoder(w), old(input[..]), input[..], Reach(old(input[..]), length))
    {
      ghost var x := input[..];
      CryptDone(Encoder(w), x, Reach(x, length));
      var n := length;
      if n == 0 {
        n := FindTerminator(input);
      }
      if n <= 16 {
        FlipBytes(input, n);
        return;
      }
      var i := 0;
      while i < n - 16
        invariant 0 <= i <= n && Finished(Encoder(w), input[..], i, n) == Finished(Encoder(w), x, 0, n)
      {
        NextBlock(Encoder(w), input[..], i, n);
        EncodeAt(input, i);
        i := i + 16;
      }
      AllDone(Encoder(w), input[..], i, n);
      NothingDone(Encoder(w), x, n);
    }

    method Decode(input: array<bv8>, length: int)
      requires length <= input.Length
      modifies input
      ensures input[..] == Decoded(w, old(input[..]), length)
      ensures Done(Decoder(w), old(input[..]), input[..], length)
    {
      ghost var x := input[..];
      CryptDone(Decoder(w), x, length);
      if length <= 16 {
        FlipBytes(input, length);
        return;
      }
      var i := 0;
      while i < length - 16
        invariant 0 <= i <= length && Finished(Decoder(w), input[..], i, length) == Finished(Decoder(w), x, 0, length)
      {
        NextBlock(Decoder(w), input[..], i, length);
        DecodeAt(input, i);
        i := i + 16;
      }
      AllDone(Decoder(w), input[..], i, length);
      NothingDone(Decoder(w), x, length);
    }

    /** One past the terminator. */
    static method FindTerminator(input: array<bv8>) returns (n: nat)
      requires 0 in input[..]
      ensures n == Terminator(input[..]) + 1
    {
      n := 0;
      while input[n] != 0
        invariant n <= Terminator(input[..])
        decreases Terminator(input[..]) - n
      {
        n := n + 1;
      }
      n := n + 1;
    }

    static method FlipBytes(input: array<bv8>, n: int)
      requires n <= input.Length
      modifies input
      ensures input[..] == if n < 0 then old(input[..]) else Flipped(old(input[..n])) + old(input[n..])
      ensures AllFlipped(old(input[..]), input[..], n)
    {
      ghost var x := input[..];
      var i := 0;
      while i < n
        invariant 0 <= i && (i <= n || i == 0)
        invariant forall k :: 0 <= k < input.Length ==> input[k] == if k < i then Xor(x[k], 0x06) else x[k]
      {
        input[i] := Xor(input[i], 0x06);
        i := i + 1;
      }
    }
  }
}
