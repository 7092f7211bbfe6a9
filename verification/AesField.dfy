/** Multiplication in the field of the AES cipher (section 4.2 of FIPS 197), and the
    column transformation built on it. */
module AesField {

  /** The field's sum. */
  function Xor(x: bv8, y: bv8): bv8 {
    x ^ y
  }

  /** Times x: the bit shifted out comes back as x^4 + x^3 + x + 1. */
  function Double(b: bv8): bv8 {
    (b << 1) ^ (b >> 7) ^ ((b >> 7) << 1) ^ ((b >> 7) << 3) ^ ((b >> 7) << 4)
  }

  lemma DoubleByBranch(b: bv8)
    ensures Double(b) == if b & 0x80 != 0 then (b << 1) ^ 0x1b else b << 1
  {
  }

  function Doubled(b: bv8, n: nat): bv8 {
    if n == 0 then b else Double(Doubled(b, n - 1))
  }

  predicate Bit(a: bv8, i: nat)
    requires i < 8
  {
    (a >> i) & 1 != 0
  }

  /** What bit i of a adds to the product with b. */
  function Part(a: bv8, b: bv8, i: nat): bv8
    requires i < 8
  {
    if Bit(a, i) then Doubled(b, i) else 0
  }

  /** The product of b and the polynomial of the n lowest bits of a. */
  function Product(a: bv8, b: bv8, n: nat): bv8
    requires n <= 8
    decreases n
  {
    if n == 0 then 0 else Xor(Product(a, b, n - 1), Part(a, b, n - 1))
  }

  function Times(a: bv8, b: bv8): bv8 {
    Product(a, b, 4)
  }

  lemma Same(x: bv8)
    ensures Xor(x, x) == 0 && Xor(x, 0) == x && Xor(0, x) == x
  {
  }

  /** FFmul: the doublings in an array, then the sum of those the bits of a select. */
  method FFmul(a: bv8, b: bv8) returns (res: bv8)
    ensures res == Times(a, b)
  {
    var bw := new bv8[4](_ => 0);
    bw[0] := b;
    var i := 1;
    while i < 4
      invariant 1 <= i <= 4
      invariant forall k :: 0 <= k < i ==> bw[k] == Doubled(b, k)
    {
      var next := bw[i - 1] << 1;
      if bw[i - 1] & 0x80 != 0 {
        next := next ^ 0x1b;
      }
      DoubleByBranch(bw[i - 1]);
      bw[i] := next;
      i := i + 1;
    }
    res := 0;
    i := 0;
    while i < 4
      invariant 0 <= i <= 4 && res == Product(a, b, i)
      invariant forall k :: 0 <= k < 4 ==> bw[k] == Doubled(b, k)
    {
      Same(res);
      if (a >> i) & 1 != 0 {
        res := Xor(res, bw[i]);
      }
      i := i + 1;
    }
  }

  // ----- the product is linear in its second factor -----

  lemma Assoc(a: bv8, b: bv8, c: bv8)
    ensures Xor(Xor(a, b), c) == Xor(a, Xor(b, c))
  {
  }

  lemma Comm(a: bv8, b: bv8)
    ensures Xor(a, b) == Xor(b, a)
  {
  }

  lemma Swap(a: bv8, b: bv8, c: bv8, d: bv8)
    ensures Xor(Xor(a, b), Xor(c, d)) == Xor(Xor(a, c), Xor(b, d))
  {
    Assoc(a, b, Xor(c, d));
    Assoc(b, c, d);
    Comm(b, c);
    Assoc(c, b, d);
    Assoc(a, c, Xor(b, d));
  }

  lemma DoubleSum(x: bv8, y: bv8)
    ensures Double(Xor(x, y)) == Xor(Double(x), Double(y))
  {
  }

  lemma {:induction false} DoubledSum(x: bv8, y: bv8, n: nat)
    ensures Doubled(Xor(x, y), n) == Xor(Doubled(x, n), Doubled(y, n))
  {
    if n > 0 {
      DoubledSum(x, y, n - 1);
      DoubleSum(Doubled(x, n - 1), Doubled(y, n - 1));
    }
  }

  lemma PartOfSum(a: bv8, x: bv8, y: bv8, i: nat)
    requires i < 8
    ensures Part(a, Xor(x, y), i) == Xor(Part(a, x, i), Part(a, y, i))
  {
    DoubledSum(x, y, i);
    Same(0);
  }

  lemma {:induction false} ProductSum(a: bv8, x: bv8, y: bv8, n: nat)
    requires n <= 8
    ensures Product(a, Xor(x, y), n) == Xor(Product(a, x, n), Product(a, y, n))
  {
    if n == 0 {
      Same(0);
    } else {
      ProductSum(a, x, y, n - 1);
      PartOfSum(a, x, y, n - 1);
      Swap(Product(a, x, n - 1), Product(a, y, n - 1), Part(a, x, n - 1), Part(a, y, n - 1));
    }
  }

  // ----- and in its first factor -----

  lemma ShiftOfSum(a: bv8, b: bv8, i: nat)
    requires i < 8
    ensures (a ^ b) >> i == (a >> i) ^ (b >> i)
  {
    if i == 0 {
    } else if i == 1 {
    } else if i == 2 {
    } else if i == 3 {
    } else if i == 4 {
    } else if i == 5 {
    } else if i == 6 {
    } else {
      assert i == 7;
    }
  }

  lemma LowBit(a: bv8, b: bv8)
    ensures ((a ^ b) & 1 != 0) == ((a & 1 != 0) != (b & 1 != 0))
  {
  }

  lemma PartSum(a: bv8, b: bv8, x: bv8, i: nat)
    requires i < 8
    ensures Part(Xor(a, b), x, i) == Xor(Part(a, x, i), Part(b, x, i))
  {
    ShiftOfSum(a, b, i);
    LowBit(a >> i, b >> i);
    Same(Doubled(x, i));
    Same(0);
  }

  lemma {:induction false} FactorSum(a: bv8, b: bv8, x: bv8, n: nat)
    requires n <= 8
    ensures Product(Xor(a, b), x, n) == Xor(Product(a, x, n), Product(b, x, n))
  {
    if n == 0 {
      Same(0);
    } else {
      FactorSum(a, b, x, n - 1);
      PartSum(a, b, x, n - 1);
      Swap(Product(a, x, n - 1), Product(b, x, n - 1), Part(a, x, n - 1), Part(b, x, n - 1));
    }
  }

  lemma {:induction false} DoubledShift(x: bv8, n: nat)
    ensures Doubled(Double(x), n) == Doubled(x, n + 1)
  {
    if n > 0 {
      DoubledShift(x, n - 1);
    }
  }

  lemma BitOfShift(a: bv8, i: nat)
    requires i < 8
    ensures Bit(a << 1, i) == (i > 0 && Bit(a, i - 1))
  {
  }

  lemma {:induction false} ShiftFactor(a: bv8, x: bv8, n: nat)
    requires n < 8
    ensures Product(a, Double(x), n) == Product(a << 1, x, n + 1)
  {
    BitOfShift(a, n);
    if n > 0 {
      ShiftFactor(a, x, n - 1);
      DoubledShift(x, n - 1);
    }
  }

  // ----- MixColumns and its inverse -----

  function Combined(k: bv8, l: bv8, m: bv8, n: bv8, a: bv8, b: bv8, c: bv8, d: bv8): bv8 {
    Xor(Xor(Times(k, a), Times(l, b)), Xor(Times(m, c), Times(n, d)))
  }

  lemma CombinedSum(k: bv8, l: bv8, m: bv8, n: bv8,
                    a: bv8, b: bv8, c: bv8, d: bv8, x: bv8, y: bv8, z: bv8, w: bv8)
    ensures Combined(k, l, m, n, Xor(a, x), Xor(b, y), Xor(c, z), Xor(d, w))
         == Xor(Combined(k, l, m, n, a, b, c, d), Combined(k, l, m, n, x, y, z, w))
  {
    ProductSum(k, a, x, 4);
    ProductSum(l, b, y, 4);
    ProductSum(m, c, z, 4);
    ProductSum(n, d, w, 4);
    Swap(Times(k, a), Times(k, x), Times(l, b), Times(l, y));
    Swap(Times(m, c), Times(m, z), Times(n, d), Times(n, w));
    Swap(Xor(Times(k, a), Times(l, b)), Xor(Times(k, x), Times(l, y)),
         Xor(Times(m, c), Times(n, d)), Xor(Times(m, z), Times(n, w)));
  }

  /** The factor that multiplies like k after l. */
  function Composed(k: bv8, l: bv8): bv8 {
    if l == 1 then k else if l == 2 then k << 1 else Xor(k, k << 1)
  }

  lemma TopBit(k: bv8)
    requires k < 0x10
    ensures !Bit(k, 4)
  {
  }

  lemma SmallBits()
    ensures Bit(1, 0) && !Bit(1, 1) && !Bit(1, 2) && !Bit(1, 3)
    ensures !Bit(2, 0) && Bit(2, 1) && !Bit(2, 2) && !Bit(2, 3)
    ensures Bit(3, 0) && Bit(3, 1) && !Bit(3, 2) && !Bit(3, 3)
  {
  }

  lemma LowProduct(a: bv8, x: bv8)
    requires !Bit(a, 2) && !Bit(a, 3)
    ensures Times(a, x) == Xor(Part(a, x, 0), Part(a, x, 1))
  {
    Same(Part(a, x, 0));
    Same(Xor(Part(a, x, 0), Part(a, x, 1)));
    assert Product(a, x, 2) == Xor(Product(a, x, 1), Part(a, x, 1));
  }

  lemma SmallFactors(x: bv8)
    ensures Times(0x01, x) == x
    ensures Times(0x02, x) == Double(x)
    ensures Times(0x03, x) == Xor(x, Double(x))
  {
    SmallBits();
    LowProduct(1, x);
    LowProduct(2, x);
    LowProduct(3, x);
    Same(x);
    Same(Double(x));
    assert Doubled(x, 1) == Double(Doubled(x, 0));
  }

  lemma FourBits(k: bv8, x: bv8)
    requires k < 0x10
    ensures Product(k, x, 5) == Times(k, x)
  {
    TopBit(k);
    assert Part(k, x, 4) == 0;
    assert Product(k, x, 5) == Xor(Times(k, x), Part(k, x, 4));
    Same(Times(k, x));
  }

  lemma Compose(k: bv8, l: bv8, x: bv8)
    requires k < 0x10 && 1 <= l <= 3
    ensures Times(k, Times(l, x)) == Product(Composed(k, l), x, 5)
  {
    SmallFactors(x);
    FourBits(k, x);
    ShiftFactor(k, x, 4);
    ProductSum(k, x, Double(x), 4);
    FactorSum(k, k << 1, x, 5);
    assert l == 1 || l == 2 || l == 3;
  }

  /** A combination of multiples of one byte is one multiple of it. */
  lemma ComposeAll(k: bv8, l: bv8, m: bv8, n: bv8, p: bv8, q: bv8, r: bv8, s: bv8, x: bv8)
    requires k < 0x10 && l < 0x10 && m < 0x10 && n < 0x10
    requires 1 <= p <= 3 && 1 <= q <= 3 && 1 <= r <= 3 && 1 <= s <= 3
    ensures Combined(k, l, m, n, Times(p, x), Times(q, x), Times(r, x), Times(s, x))
         == Product(Xor(Xor(Composed(k, p), Composed(l, q)), Xor(Composed(m, r), Composed(n, s))), x, 5)
  {
    Compose(k, p, x);
    Compose(l, q, x);
    Compose(m, r, x);
    Compose(n, s, x);
    FactorSum(Composed(k, p), Composed(l, q), x, 5);
    FactorSum(Composed(m, r), Composed(n, s), x, 5);
    FactorSum(Xor(Composed(k, p), Composed(l, q)), Xor(Composed(m, r), Composed(n, s)), x, 5);
  }

  lemma {:induction false} ZeroFactor(x: bv8, n: nat)
    requires n <= 8
    ensures Product(0, x, n) == 0
  {
    Same(0);
    if n > 0 {
      ZeroFactor(x, n - 1);
    }
  }

  /** A cell of MixColumns from its column, the cell's own row first. */
  function Mix(a: bv8, b: bv8, c: bv8, d: bv8): bv8 {
    Combined(0x02, 0x03, 0x01, 0x01, a, b, c, d)
  }

  /** 2a + 3b + c + d, summed byte by byte. */
  function TwoThree(a: bv8, b: bv8, c: bv8, d: bv8): bv8 {
    Xor(Xor(Xor(Xor(Double(a), Double(b)), b), c), d)
  }

  /** What MixColumns makes of a column (section 5.1.3 of FIPS 197). */
  lemma MixIs(a: bv8, b: bv8, c: bv8, d: bv8)
    ensures Mix(a, b, c, d) == TwoThree(a, b, c, d)
  {
    SmallFactors(a);
    SmallFactors(b);
    SmallFactors(c);
    SmallFactors(d);
    Comm(b, Double(b));
    Assoc(Double(a), Double(b), b);
    Assoc(Xor(Xor(Double(a), Double(b)), b), c, d);
  }

  function InvMix(a: bv8, b: bv8, c: bv8, d: bv8): bv8 {
    Combined(0x0e, 0x0b, 0x0d, 0x09, a, b, c, d)
  }

  /** A column that went through MixColumns and back, from the first cell's view. */
  function Undone(a: bv8, b: bv8, c: bv8, d: bv8): bv8 {
    InvMix(Mix(a, b, c, d), Mix(b, c, d, a), Mix(c, d, a, b), Mix(d, a, b, c))
  }

  lemma UndoneSum(a: bv8, b: bv8, c: bv8, d: bv8, x: bv8, y: bv8, z: bv8, w: bv8)
    ensures Undone(Xor(a, x), Xor(b, y), Xor(c, z), Xor(d, w)) == Xor(Undone(a, b, c, d), Undone(x, y, z, w))
  {
    CombinedSum(0x02, 0x03, 0x01, 0x01, a, b, c, d, x, y, z, w);
    CombinedSum(0x02, 0x03, 0x01, 0x01, b, c, d, a, y, z, w, x);
    CombinedSum(0x02, 0x03, 0x01, 0x01, c, d, a, b, z, w, x, y);
    CombinedSum(0x02, 0x03, 0x01, 0x01, d, a, b, c, w, x, y, z);
    CombinedSum(0x0e, 0x0b, 0x0d, 0x09, Mix(a, b, c, d), Mix(b, c, d, a), Mix(c, d, a, b), Mix(d, a, b, c),
                Mix(x, y, z, w), Mix(y, z, w, x), Mix(z, w, x, y), Mix(w, x, y, z));
  }

  lemma {:induction false} ZeroDoubled(n: nat)
    ensures Doubled(0, n) == 0
  {
    if n > 0 {
      ZeroDoubled(n - 1);
    }
  }

  lemma {:induction false} ZeroByte(a: bv8, n: nat)
    requires n <= 8
    ensures Product(a, 0, n) == 0
  {
    Same(0);
    if n > 0 {
      ZeroByte(a, n - 1);
      ZeroDoubled(n - 1);
    }
  }

  lemma CombinedOne(k: bv8, l: bv8, m: bv8, n: bv8, x: bv8)
    ensures Combined(k, l, m, n, x, 0, 0, 0) == Times(k, x)
    ensures Combined(k, l, m, n, 0, x, 0, 0) == Times(l, x)
    ensures Combined(k, l, m, n, 0, 0, x, 0) == Times(m, x)
    ensures Combined(k, l, m, n, 0, 0, 0, x) == Times(n, x)
  {
    ZeroByte(k, 4);
    ZeroByte(l, 4);
    ZeroByte(m, 4);
    ZeroByte(n, 4);
    Same(0);
    Same(Times(k, x));
    Same(Times(l, x));
    Same(Times(m, x));
    Same(Times(n, x));
  }

  lemma OneProduct(x: bv8)
    ensures Product(1, x, 5) == x && Product(0, x, 5) == 0
  {
    SmallFactors(x);
    FourBits(1, x);
    ZeroFactor(x, 5);
  }

  /** The factor left of a byte that InvMixColumns meets with these four factors. */
  function Share(p: bv8, q: bv8, r: bv8, s: bv8): bv8 {
    Xor(Xor(Composed(0x0e, p), Composed(0x0b, q)), Xor(Composed(0x0d, r), Composed(0x09, s)))
  }

  lemma Shares()
    ensures Share(2, 1, 1, 3) == 1 && Share(3, 2, 1, 1) == Share(1, 3, 2, 1) == Share(1, 1, 3, 2) == 0
  {
  }

  lemma InvMixOf(p: bv8, q: bv8, r: bv8, s: bv8, x: bv8)
    requires 1 <= p <= 3 && 1 <= q <= 3 && 1 <= r <= 3 && 1 <= s <= 3
    requires Share(p, q, r, s) <= 1
    ensures InvMix(Times(p, x), Times(q, x), Times(r, x), Times(s, x)) == if Share(p, q, r, s) == 1 then x else 0
  {
    ComposeAll(0x0e, 0x0b, 0x0d, 0x09, p, q, r, s, x);
    OneProduct(x);
  }

  lemma MixFirst(x: bv8)
    ensures Mix(x, 0, 0, 0) == Times(2, x)
  {
    CombinedOne(2, 3, 1, 1, x);
  }

  lemma MixSecond(x: bv8)
    ensures Mix(0, x, 0, 0) == Times(3, x)
  {
    CombinedOne(2, 3, 1, 1, x);
  }

  lemma MixThird(x: bv8)
    ensures Mix(0, 0, x, 0) == Times(1, x)
  {
    CombinedOne(2, 3, 1, 1, x);
  }

  lemma MixFourth(x: bv8)
    ensures Mix(0, 0, 0, x) == Times(1, x)
  {
    CombinedOne(2, 3, 1, 1, x);
  }

  lemma MixOne(x: bv8)
    ensures Mix(x, 0, 0, 0) == Times(2, x)
    ensures Mix(0, x, 0, 0) == Times(3, x)
    ensures Mix(0, 0, x, 0) == Mix(0, 0, 0, x) == Times(1, x)
  {
    MixFirst(x);
    MixSecond(x);
    MixThird(x);
    MixFourth(x);
  }

  lemma UndoneFirst(x: bv8)
    ensures Undone(x, 0, 0, 0) == x
  {
    MixOne(x);
    Shares();
    InvMixOf(2, 1, 1, 3, x);
  }

  lemma UndoneSecond(x: bv8)
    ensures Undone(0, x, 0, 0) == 0
  {
    MixOne(x);
    Shares();
    InvMixOf(3, 2, 1, 1, x);
  }

  lemma UndoneThird(x: bv8)
    ensures Undone(0, 0, x, 0) == 0
  {
    MixOne(x);
    Shares();
    InvMixOf(1, 3, 2, 1, x);
  }

  lemma UndoneFourth(x: bv8)
    ensures Undone(0, 0, 0, x) == 0
  {
    MixOne(x);
    Shares();
    InvMixOf(1, 1, 3, 2, x);
  }

  /** InvMixColumns undoes MixColumns. */
  lemma MixInverse(a: bv8, b: bv8, c: bv8, d: bv8)
    ensures InvMix(Mix(a, b, c, d), Mix(b, c, d, a), Mix(c, d, a, b), Mix(d, a, b, c)) == a
  {
    UndoneFirst(a);
    UndoneSecond(b);
    UndoneThird(c);
    UndoneFourth(d);
    UndoneSum(a, 0, 0, 0, 0, b, 0, 0);
    UndoneSum(0, 0, c, 0, 0, 0, 0, d);
    UndoneSum(a, b, 0, 0, 0, 0, c, d);
    Same(a);
    Same(b);
    Same(c);
    Same(d);
    Same(0);
  }

  // ----- how much of the field product FFmul computes -----

  lemma HighBits(a: bv8)
    ensures a < 0x10 <==> !Bit(a, 4) && !Bit(a, 5) && !Bit(a, 6) && !Bit(a, 7)
  {
  }

  lemma OneDoubled()
    ensures Doubled(1, 4) == 0x10 && Doubled(1, 5) == 0x20 && Doubled(1, 6) == 0x40 && Doubled(1, 7) == 0x80
  {
    assert Doubled(1, 1) == 2;
    assert Doubled(1, 2) == 4;
    assert Doubled(1, 3) == 8;
  }

  lemma HighParts(p: bv8, q: bv8, r: bv8, s: bv8)
    requires p == 0 || p == 0x10
    requires q == 0 || q == 0x20
    requires r == 0 || r == 0x40
    requires s == 0 || s == 0x80
    ensures Xor(Xor(Xor(p, q), r), s) == 0 ==> p == q == r == s == 0
  {
  }

  lemma LastFour(a: bv8, b: bv8)
    ensures Product(a, b, 8) == Xor(Times(a, b), Xor(Xor(Xor(Part(a, b, 4), Part(a, b, 5)), Part(a, b, 6)), Part(a, b, 7)))
  {
    Assoc(Times(a, b), Part(a, b, 4), Part(a, b, 5));
    Assoc(Times(a, b), Xor(Part(a, b, 4), Part(a, b, 5)), Part(a, b, 6));
    Assoc(Times(a, b), Xor(Xor(Part(a, b, 4), Part(a, b, 5)), Part(a, b, 6)), Part(a, b, 7));
    assert Product(a, b, 6) == Xor(Product(a, b, 5), Part(a, b, 5));
    assert Product(a, b, 7) == Xor(Product(a, b, 6), Part(a, b, 6));
  }

  lemma DifferentSum(x: bv8, y: bv8)
    requires y != 0
    ensures x != Xor(x, y)
  {
  }

  /** Four doublings give the full product exactly when the first factor has four bits. */
  lemma FourBitsSuffice(a: bv8)
    ensures (forall b :: Times(a, b) == Product(a, b, 8)) <==> a < 0x10
  {
    HighBits(a);
    if a < 0x10 {
      Same(0);
      forall b ensures Times(a, b) == Product(a, b, 8) {
        LastFour(a, b);
        Same(Times(a, b));
      }
    } else {
      var p, q, r, s := Part(a, 1, 4), Part(a, 1, 5), Part(a, 1, 6), Part(a, 1, 7);
      OneDoubled();
      HighParts(p, q, r, s);
      LastFour(a, 1);
      DifferentSum(Times(a, 1), Xor(Xor(Xor(p, q), r), s));
    }
  }
}
