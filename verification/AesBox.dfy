/** What the byte table of the AES cipher is made of (section 5.1.1 of FIPS 197). */
module AesBox {
  import opened AesField
  import opened AesTables

  /** Bit i of the result is the sum of the bits i, i + 4, i + 5, i + 6 and i + 7 of y,
      counted round the byte, and of bit i of 0x63. */
  function Affine(y: bv8): bv8 {
    y ^ ((y << 1) | (y >> 7)) ^ ((y << 2) | (y >> 6)) ^ ((y << 3) | (y >> 5)) ^ ((y << 4) | (y >> 4)) ^ 0x63
  }

  function Unaffine(z: bv8): bv8 {
    ((z << 1) | (z >> 7)) ^ ((z << 3) | (z >> 5)) ^ ((z << 6) | (z >> 2)) ^ 0x05
  }

  lemma AffineBack(y: bv8, z: bv8)
    ensures z == Affine(y) <==> y == Unaffine(z)
  {
  }

  /** The sum of eight bytes. */
  function Sum(p0: bv8, p1: bv8, p2: bv8, p3: bv8, p4: bv8, p5: bv8, p6: bv8, p7: bv8): bv8 {
    p0 ^ p1 ^ p2 ^ p3 ^ p4 ^ p5 ^ p6 ^ p7
  }

  lemma SumIs(p0: bv8, p1: bv8, p2: bv8, p3: bv8, p4: bv8, p5: bv8, p6: bv8, p7: bv8)
    ensures Xor(Xor(Xor(Xor(Xor(Xor(Xor(p0, p1), p2), p3), p4), p5), p6), p7) == Sum(p0, p1, p2, p3, p4, p5, p6, p7)
  {
  }

  /** The double by its branch. */
  function Twice(b: bv8): bv8 {
    (b << 1) ^ (if b & 0x80 != 0 then 0x1b else 0)
  }

  /** The field product written out. */
  function Mul(a: bv8, b: bv8): bv8 {
    var b1 := Twice(b);
    var b2 := Twice(b1);
    var b3 := Twice(b2);
    var b4 := Twice(b3);
    var b5 := Twice(b4);
    var b6 := Twice(b5);
    var b7 := Twice(b6);
    Sum(if a & 0x01 != 0 then b else 0, if a & 0x02 != 0 then b1 else 0, if a & 0x04 != 0 then b2 else 0,
        if a & 0x08 != 0 then b3 else 0, if a & 0x10 != 0 then b4 else 0, if a & 0x20 != 0 then b5 else 0,
        if a & 0x40 != 0 then b6 else 0, if a & 0x80 != 0 then b7 else 0)
  }

  lemma BitsOf(a: bv8)
    ensures Bit(a, 0) == (a & 0x01 != 0) && Bit(a, 1) == (a & 0x02 != 0)
    ensures Bit(a, 2) == (a & 0x04 != 0) && Bit(a, 3) == (a & 0x08 != 0)
    ensures Bit(a, 4) == (a & 0x10 != 0) && Bit(a, 5) == (a & 0x20 != 0)
    ensures Bit(a, 6) == (a & 0x40 != 0) && Bit(a, 7) == (a & 0x80 != 0)
  {
  }

  lemma TwiceIs(b: bv8)
    ensures Twice(b) == Double(b)
  {
  }

  lemma NextDouble(b: bv8, n: nat)
    ensures Doubled(b, n + 1) == Twice(Doubled(b, n))
  {
    TwiceIs(Doubled(b, n));
  }

  lemma ProductIs(a: bv8, b: bv8)
    ensures Product(a, b, 8) == Sum(Part(a, b, 0), Part(a, b, 1), Part(a, b, 2), Part(a, b, 3),
                                    Part(a, b, 4), Part(a, b, 5), Part(a, b, 6), Part(a, b, 7))
  {
    Same(Part(a, b, 0));
    assert Product(a, b, 1) == Part(a, b, 0);
    assert Product(a, b, 2) == Xor(Product(a, b, 1), Part(a, b, 1));
    assert Product(a, b, 4) == Xor(Xor(Product(a, b, 2), Part(a, b, 2)), Part(a, b, 3));
    assert Product(a, b, 6) == Xor(Xor(Product(a, b, 4), Part(a, b, 4)), Part(a, b, 5));
    SumIs(Part(a, b, 0), Part(a, b, 1), Part(a, b, 2), Part(a, b, 3), Part(a, b, 4), Part(a, b, 5), Part(a, b, 6), Part(a, b, 7));
  }

  lemma MulIs(a: bv8, b: bv8)
    ensures Product(a, b, 8) == Mul(a, b)
  {
    BitsOf(a);
    ProductIs(a, b);
    assert Doubled(b, 0) == b;
    NextDouble(b, 0);
    NextDouble(b, 1);
    NextDouble(b, 2);
    NextDouble(b, 3);
    NextDouble(b, 4);
    NextDouble(b, 5);
    NextDouble(b, 6);
  }

  lemma BoxTakesInverse(x: bv8)
    ensures if x == 0 then Unaffine(Box(x)) == 0 else Mul(x, Unaffine(Box(x))) == 1
  {
  }

  /** The field has no zero divisors. */
  lemma NoZeroDivisors(x: bv8, y: bv8)
    ensures Mul(x, y) == 0 ==> x == 0 || y == 0
  {
  }

  lemma OneInverse(x: bv8, y: bv8, z: bv8)
    requires Product(x, y, 8) == Product(x, z, 8) == 1
    ensures y == z
  {
    ProductSum(x, y, z, 8);
    Same(1);
    MulIs(x, Xor(y, z));
    NoZeroDivisors(x, Xor(y, z));
    ZeroFactor(y, 8);
    Assoc(y, z, z);
    Same(y);
    Same(z);
  }

  /** y is the inverse of x; zero counts as its own. */
  predicate Inverse(x: bv8, y: bv8) {
    if x == 0 then y == 0 else Product(x, y, 8) == 1
  }

  lemma BoxInverts(x: bv8)
    ensures Inverse(x, Unaffine(Box(x)))
  {
    BoxTakesInverse(x);
    MulIs(x, Unaffine(Box(x)));
  }

  lemma InverseIsOne(x: bv8, y: bv8, z: bv8)
    requires Inverse(x, y) && Inverse(x, z)
    ensures y == z
  {
    if x != 0 {
      OneInverse(x, y, z);
    }
  }

  /** An entry of the table is the affine image of the inverse of its index and of no other
      byte. */
  lemma BoxIs(x: bv8, y: bv8)
    ensures Box(x) == Affine(y) <==> Inverse(x, y)
  {
    AffineBack(y, Box(x));
    BoxInverts(x);
    if Inverse(x, y) {
      InverseIsOne(x, y, Unaffine(Box(x)));
    }
  }
}
