/** Bytes and little-endian integers as they lie in memory. */
module Bytes {
  import opened Arithmetic

  type byte = x: int | 0 <= x < 256

  /** The k lowest bytes of n, lowest first. */
  function Little(n: nat, k: nat): (s: seq<byte>)
    ensures |s| == k
    decreases k
  {
    if k == 0 then [] else [n % 256] + Little(n / 256, k - 1)
  }

  function FromLittle(s: seq<byte>): nat {
    if s == [] then 0 else s[0] + 256 * FromLittle(s[1..])
  }

  function Range(k: nat): (r: nat)
    ensures 0 < r
  {
    if k == 0 then 1 else 256 * Range(k - 1)
  }

  lemma Ranges()
    ensures Range(2) == 0x1_0000 && Range(4) == 0x1_0000_0000 && Range(8) == 0x1_0000_0000_0000_0000
  {
    assert Range(2) == 256 * 256;
    assert Range(4) == 256 * 256 * Range(2);
    assert Range(6) == 256 * 256 * Range(4);
    assert Range(8) == 256 * 256 * Range(6);
  }

  /** Reading back what was written gives the number modulo the width. */
  lemma {:induction false} LittleRoundTrip(n: nat, k: nat)
    ensures FromLittle(Little(n, k)) == n % Range(k)
    ensures n < Range(k) ==> FromLittle(Little(n, k)) == n
    decreases k
  {
    if k != 0 {
      LittleRoundTrip(n / 256, k - 1);
      assert Little(n, k)[1..] == Little(n / 256, k - 1);
      ModByProduct(n, Range(k - 1));
    }
  }

  /** And writing what was read gives the bytes again. */
  lemma {:induction false} LittleOf(s: seq<byte>)
    ensures FromLittle(s) < Range(|s|) && Little(FromLittle(s), |s|) == s
  {
    if s != [] {
      LittleOf(s[1..]);
      assert [s[0]] + s[1..] == s;
    }
  }

  lemma ModByProduct(n: nat, r: nat)
    requires 0 < r
    ensures n % (256 * r) == n % 256 + 256 * (n / 256 % r) && n / (256 * r) == n / 256 / r
    ensures n < 256 * r ==> n / 256 < r
  {
    var q, m := n / 256 / r, n / 256 % r;
    DivMod(n / 256, r);
    assert 256 * (q * r) == q * (256 * r);
    Quotient(n, 256 * r, q, 256 * m + n % 256);
  }

  /** Byte i is the i-th digit to the base 256. */
  lemma {:induction false} LittleAt(n: nat, k: nat, i: nat)
    requires i < k
    ensures Little(n, k)[i] == n / Range(i) % 256
    decreases i
  {
    if i > 0 {
      LittleAt(n / 256, k - 1, i - 1);
      ModByProduct(n, Range(i - 1));
    }
  }

  lemma Assoc<T>(a: seq<T>, b: seq<T>, c: seq<T>)
    ensures (a + b) + c == a + (b + c)
  {}

  lemma EmptyConcat<T>(a: seq<T>)
    ensures [] + a == a && a + [] == a
  {}

  lemma DropConcat<T>(a: seq<T>, n: nat, b: seq<T>)
    requires n <= |a|
    ensures (a + b)[n..] == a[n..] + b
  {}

  lemma SplitConcat<T>(a: seq<T>, n: nat, b: seq<T>)
    requires n <= |a|
    ensures a + b == a[..n] + (a[n..] + b)
  {}

  /** Two's complement. */
  function Unsigned(x: int, range: nat): nat
    requires 0 < range
  {
    x % range
  }

  function Signed(n: nat, range: nat): int {
    if 2 * n < range then n else n - range
  }

  predicate IsInt32(x: int) { -0x8000_0000 <= x < 0x8000_0000 }

  function Int32Bytes(x: int): (s: seq<byte>)
    ensures |s| == 4
  {
    Little(Unsigned(x, 0x1_0000_0000), 4)
  }

  function BytesInt32(s: seq<byte>): int {
    Signed(FromLittle(s), 0x1_0000_0000)
  }

  function BytesInt16(s: seq<byte>): int {
    Signed(FromLittle(s), 0x1_0000)
  }

  /** The lowest byte comes first, and the top bit is the sign. */
  lemma Int32Value(s: seq<byte>)
    requires |s| == 4
    ensures var b0: int, b1: int, b2: int, b3: int := s[0], s[1], s[2], s[3];
      BytesInt32(s) == b0 + 0x100 * b1 + 0x1_0000 * b2 + 0x100_0000 * if b3 < 128 then b3 else b3 - 256
  {
    assert FromLittle(s) == s[0] + 256 * FromLittle(s[1..]);
    assert FromLittle(s[1..]) == s[1] + 256 * FromLittle(s[2..]);
    assert FromLittle(s[2..]) == s[2] + 256 * FromLittle(s[3..]);
    assert FromLittle(s[3..]) == s[3];
  }

  lemma Int16Value(s: seq<byte>)
    requires |s| == 2
    ensures var b0: int, b1: int := s[0], s[1];
      BytesInt16(s) == b0 + 0x100 * if b1 < 128 then b1 else b1 - 256
  {
    assert FromLittle(s) == s[0] + 256 * FromLittle(s[1..]);
    assert FromLittle(s[1..]) == s[1];
  }

  lemma SignedBack(n: nat)
    requires n < 0x1_0000_0000
    ensures IsInt32(Signed(n, 0x1_0000_0000)) && Unsigned(Signed(n, 0x1_0000_0000), 0x1_0000_0000) == n
  {}

  lemma Int32Of(s: seq<byte>)
    requires |s| == 4
    ensures IsInt32(BytesInt32(s)) && Int32Bytes(BytesInt32(s)) == s
  {
    Ranges();
    LittleOf(s);
    SignedBack(FromLittle(s));
  }

  lemma Int32RoundTrip(x: int)
    requires IsInt32(x)
    ensures BytesInt32(Int32Bytes(x)) == x
  {
    Ranges();
    LittleRoundTrip(Unsigned(x, 0x1_0000_0000), 4);
  }
}
