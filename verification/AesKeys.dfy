/** The round keys of the AES cipher (section 5.2 of FIPS 197), and the known block of its
    Appendix B. */
module AesKeys {
  import opened AesField
  import opened AesTables
  import opened AesRounds

  /** The round constants. */
  function Constants(): (rc: seq<bv8>)
    ensures |rc| == 10
  {
    [0x01, 0x02, 0x04, 0x08, 0x10, 0x20, 0x40, 0x80, 0x1b, 0x36]
  }

  /** They are the powers of x. */
  lemma PowersOfX(i: nat)
    requires i < 10
    ensures Constants()[i] == Doubled(1, i)
  {
    assert Doubled(1, 3) == 0x08;
    assert Doubled(1, 6) == 0x40;
    assert Doubled(1, 9) == 0x36;
  }

  /** Cell (r, c) of round key i: the cell of the round key before, plus the cell to the left,
      or for a first column plus the substituted cell of the last column one row down and, in
      the first row, plus the round constant. */
  function KeyCell<T>(box: T -> T, add: (T, T) -> T, rc: seq<T>, key: seq<T>, i: nat, r: nat, c: nat): T
    requires |rc| == 10 && |key| == 16 && i <= 10 && r < 4 && c < 4
    decreases i, c
  {
    if i == 0 then key[4 * c + r]
    else add(KeyCell(box, add, rc, key, i - 1, r, c),
             if c > 0 then KeyCell(box, add, rc, key, i, r, c - 1)
             else Turn(box, add, rc[i - 1], r, KeyCell(box, add, rc, key, i - 1, (r + 1) % 4, 3)))
  }

  function Turn<T>(box: T -> T, add: (T, T) -> T, constant: T, r: nat, x: T): T {
    if r == 0 then add(box(x), constant) else box(x)
  }

  function RoundKey<T>(box: T -> T, add: (T, T) -> T, rc: seq<T>, key: seq<T>, i: nat): (k: seq<T>)
    requires |rc| == 10 && |key| == 16 && i <= 10
    ensures |k| == 16
  {
    seq(16, k requires 0 <= k < 16 => KeyCell(box, add, rc, key, i, k / 4, k % 4))
  }

  function KeysOf<T>(box: T -> T, add: (T, T) -> T, rc: seq<T>, key: seq<T>): (w: seq<seq<T>>)
    requires |rc| == 10 && |key| == 16
    ensures |w| == 11 && forall i :: 0 <= i < 11 ==> |w[i]| == 16
  {
    seq(11, i requires 0 <= i < 11 => RoundKey(box, add, rc, key, i))
  }

  /** The round keys of a cipher key. */
  function Expanded(key: Block): Schedule {
    KeysOf(Box, Xor, Constants(), key)
  }

  // ----- every round key determines the cipher key -----

  /** The round key u as the expansion makes it from the round key k. */
  ghost predicate Expands<T>(box: T -> T, add: (T, T) -> T, constant: T, k: seq<T>, u: seq<T>)
    requires |k| == |u| == 16
  {
    forall r, c {:trigger Cell(u, r, c)} :: 0 <= r < 4 && 0 <= c < 4 ==>
      Cell(u, r, c)
      == add(Cell(k, r, c), if c > 0 then u[4 * r + c - 1] else Turn(box, add, constant, r, k[4 * ((r + 1) % 4) + 3]))
  }

  lemma RoundKeyAt<T>(box: T -> T, add: (T, T) -> T, rc: seq<T>, key: seq<T>, i: nat, r: nat, c: nat)
    requires |rc| == 10 && |key| == 16 && i <= 10 && r < 4 && c < 4
    ensures RoundKey(box, add, rc, key, i)[4 * r + c] == KeyCell(box, add, rc, key, i, r, c)
  {
    assert (4 * r + c) / 4 == r && (4 * r + c) % 4 == c;
  }

  ghost predicate IsRoundKey<T>(box: T -> T, add: (T, T) -> T, rc: seq<T>, key: seq<T>, i: nat, k: seq<T>)
    requires |rc| == 10 && |key| == |k| == 16 && i <= 10
  {
    forall r, c {:trigger Cell(k, r, c)} :: 0 <= r < 4 && 0 <= c < 4 ==> Cell(k, r, c) == KeyCell(box, add, rc, key, i, r, c)
  }

  lemma RoundKeyIs<T>(box: T -> T, add: (T, T) -> T, rc: seq<T>, key: seq<T>, i: nat)
    requires |rc| == 10 && |key| == 16 && i <= 10
    ensures IsRoundKey(box, add, rc, key, i, RoundKey(box, add, rc, key, i))
  {
    var k := RoundKey(box, add, rc, key, i);
    forall r, c | 0 <= r < 4 && 0 <= c < 4 ensures Cell(k, r, c) == KeyCell(box, add, rc, key, i, r, c) {
      RoundKeyAt(box, add, rc, key, i, r, c);
    }
  }

  lemma NextExpands<T>(box: T -> T, add: (T, T) -> T, rc: seq<T>, key: seq<T>, i: nat, k: seq<T>, u: seq<T>)
    requires |rc| == 10 && |key| == |k| == |u| == 16 && i < 10
    requires IsRoundKey(box, add, rc, key, i, k) && IsRoundKey(box, add, rc, key, i + 1, u)
    ensures Expands(box, add, rc[i], k, u)
  {
    forall r, c | 0 <= r < 4 && 0 <= c < 4
      ensures Cell(u, r, c)
           == add(Cell(k, r, c), if c > 0 then u[4 * r + c - 1] else Turn(box, add, rc[i], r, k[4 * ((r + 1) % 4) + 3]))
    {
      if c > 0 {
        assert Cell(u, r, c - 1) == u[4 * r + c - 1];
      } else {
        assert Cell(k, (r + 1) % 4, 3) == k[4 * ((r + 1) % 4) + 3];
      }
    }
  }

  lemma RoundKeyExpands<T>(box: T -> T, add: (T, T) -> T, rc: seq<T>, key: seq<T>, i: nat)
    requires |rc| == 10 && |key| == 16 && i < 10
    ensures Expands(box, add, rc[i], RoundKey(box, add, rc, key, i), RoundKey(box, add, rc, key, i + 1))
  {
    RoundKeyIs(box, add, rc, key, i);
    RoundKeyIs(box, add, rc, key, i + 1);
    NextExpands(box, add, rc, key, i, RoundKey(box, add, rc, key, i), RoundKey(box, add, rc, key, i + 1));
  }

  ghost predicate Cancels<T(!new)>(add: (T, T) -> T) {
    forall x, y {:trigger add(x, y)} :: add(add(x, y), y) == x
  }

  lemma SameCell<T(!new)>(box: T -> T, add: (T, T) -> T, constant: T, k: seq<T>, l: seq<T>, u: seq<T>, r: nat, c: nat)
    requires |k| == |l| == |u| == 16 && r < 4 && c < 4 && Cancels(add)
    requires Expands(box, add, constant, k, u) && Expands(box, add, constant, l, u)
    ensures Cell(k, r, c) == Cell(l, r, c)
    decreases c == 0
  {
    if c == 0 {
      SameCell(box, add, constant, k, l, u, (r + 1) % 4, 3);
    }
    var x := if c > 0 then u[4 * r + c - 1] else Turn(box, add, constant, r, k[4 * ((r + 1) % 4) + 3]);
    assert Cell(u, r, c) == add(Cell(k, r, c), x) == add(Cell(l, r, c), x);
  }

  lemma KeyBefore<T(!new)>(box: T -> T, add: (T, T) -> T, constant: T, k: seq<T>, l: seq<T>, u: seq<T>)
    requires |k| == |l| == |u| == 16 && Cancels(add)
    requires Expands(box, add, constant, k, u) && Expands(box, add, constant, l, u)
    ensures k == l
  {
    forall j | 0 <= j < 16 ensures k[j] == l[j] {
      SameCell(box, add, constant, k, l, u, j / 4, j % 4);
      assert 4 * (j / 4) + j % 4 == j;
    }
  }

  lemma {:induction false} RoundKeyTells<T(!new)>(box: T -> T, add: (T, T) -> T, rc: seq<T>, key: seq<T>, other: seq<T>, i: nat)
    requires |rc| == 10 && |key| == |other| == 16 && i <= 10 && Cancels(add)
    requires RoundKey(box, add, rc, key, i) == RoundKey(box, add, rc, other, i)
    ensures key == other
  {
    if i == 0 {
      forall j | 0 <= j < 16 ensures key[j] == other[j] {
        RoundKeyAt(box, add, rc, key, 0, j % 4, j / 4);
        RoundKeyAt(box, add, rc, other, 0, j % 4, j / 4);
        assert 4 * (j / 4) + j % 4 == j;
      }
    } else {
      RoundKeyExpands(box, add, rc, key, i - 1);
      RoundKeyExpands(box, add, rc, other, i - 1);
      KeyBefore(box, add, rc[i - 1], RoundKey(box, add, rc, key, i - 1), RoundKey(box, add, rc, other, i - 1),
                RoundKey(box, add, rc, key, i));
      RoundKeyTells(box, add, rc, key, other, i - 1);
    }
  }

  lemma XorCancels()
    ensures Cancels(Xor)
  {
    forall x, y ensures Xor(Xor(x, y), y) == x {
      Assoc(x, y, y);
      Same(y);
      Same(x);
    }
  }

  /** Two cipher keys share no round key: each of the eleven tells the cipher key. */
  lemma EveryKeyTells(key: Block, other: Block, i: nat)
    requires i <= 10
    ensures Expanded(key)[i] == Expanded(other)[i] <==> key == other
  {
    XorCancels();
    if Expanded(key)[i] == Expanded(other)[i] {
      RoundKeyTells(Box, Xor, Constants(), key, other, i);
    }
  }
}
