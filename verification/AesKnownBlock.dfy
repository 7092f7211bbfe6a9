/** The block of Appendix B of FIPS 197, round by round: key
    2b7e151628aed2a6abf7158809cf4f3c takes 3243f6a8885a308d313198a2e0370734 to
    3925841d02dc09fbdc118597196a0b32. */
module AesKnownBlock {
  import opened AesField
  import opened AesTables
  import opened AesRounds
  import opened AesKeys
  import opened AesBuffers

  function Key(): Block {
    [0x2b, 0x7e, 0x15, 0x16, 0x28, 0xae, 0xd2, 0xa6, 0xab, 0xf7, 0x15, 0x88, 0x09, 0xcf, 0x4f, 0x3c]
  }

  function Plain(): Block {
    [0x32, 0x43, 0xf6, 0xa8, 0x88, 0x5a, 0x30, 0x8d, 0x31, 0x31, 0x98, 0xa2, 0xe0, 0x37, 0x07, 0x34]
  }

  function Enciphered(): Block {
    [0x39, 0x25, 0x84, 0x1d, 0x02, 0xdc, 0x09, 0xfb, 0xdc, 0x11, 0x85, 0x97, 0x19, 0x6a, 0x0b, 0x32]
  }

  /** Column c of a state, from the top. */
  predicate At<T(==)>(s: seq<T>, c: nat, a: T, b: T, p: T, q: T)
    requires |s| == 16 && c < 4
  {
    s[c] == a && s[4 + c] == b && s[8 + c] == p && s[12 + c] == q
  }

  /** The four columns of a state. */
  predicate Holds<T(==)>(s: seq<T>, a0: T, a1: T, a2: T, a3: T, b0: T, b1: T, b2: T, b3: T,
                         c0: T, c1: T, c2: T, c3: T, d0: T, d1: T, d2: T, d3: T)
    requires |s| == 16
  {
    At(s, 0, a0, a1, a2, a3) && At(s, 1, b0, b1, b2, b3) && At(s, 2, c0, c1, c2, c3) && At(s, 3, d0, d1, d2, d3)
  }

  /** The cells that ShiftRows brings into column c, from the top. */
  predicate Diagonal<T(==)>(s: seq<T>, c: nat, a: T, b: T, p: T, q: T)
    requires |s| == 16 && c < 4
  {
    s[From(0, c)] == a && s[From(1, c)] == b && s[From(2, c)] == p && s[From(3, c)] == q
  }

  lemma NextColumn<T>(h: (T, T, T, T, T) -> T, t: seq<T>, key: seq<T>, u: seq<T>, c: nat,
                      a: T, b: T, p: T, q: T, k0: T, k1: T, k2: T, k3: T, x0: T, x1: T, x2: T, x3: T)
    requires |t| == |key| == |u| == 16 && c < 4
    requires Follows(h, t, key, u)
    requires Diagonal(t, c, a, b, p, q) && At(key, c, k0, k1, k2, k3)
    requires h(a, b, p, q, k0) == x0 && h(b, p, q, a, k1) == x1 && h(p, q, a, b, k2) == x2 && h(q, a, b, p, k3) == x3
    ensures At(u, c, x0, x1, x2, x3)
  {
    assert Cell(u, 0, c) == x0;
    assert Cell(u, 1, c) == x1;
    assert Cell(u, 2, c) == x2;
    assert Cell(u, 3, c) == x3;
  }

  /** A later column of a round key, and the first. */
  lemma NextKeyColumn<T>(box: T -> T, add: (T, T) -> T, constant: T, k: seq<T>, u: seq<T>, c: nat,
                         k0: T, k1: T, k2: T, k3: T, y0: T, y1: T, y2: T, y3: T, x0: T, x1: T, x2: T, x3: T)
    requires |k| == |u| == 16 && 1 <= c < 4
    requires Expands(box, add, constant, k, u)
    requires At(k, c, k0, k1, k2, k3) && At(u, c - 1, y0, y1, y2, y3)
    requires add(k0, y0) == x0 && add(k1, y1) == x1 && add(k2, y2) == x2 && add(k3, y3) == x3
    ensures At(u, c, x0, x1, x2, x3)
  {
    assert Cell(u, 0, c) == x0;
    assert Cell(u, 1, c) == x1;
    assert Cell(u, 2, c) == x2;
    assert Cell(u, 3, c) == x3;
  }

  lemma FirstKeyColumn<T>(box: T -> T, add: (T, T) -> T, constant: T, k: seq<T>, u: seq<T>,
                          k0: T, k1: T, k2: T, k3: T, y0: T, y1: T, y2: T, y3: T, x0: T, x1: T, x2: T, x3: T)
    requires |k| == |u| == 16
    requires Expands(box, add, constant, k, u)
    requires At(k, 0, k0, k1, k2, k3) && At(k, 3, y0, y1, y2, y3)
    requires add(k0, add(box(y1), constant)) == x0
    requires add(k1, box(y2)) == x1 && add(k2, box(y3)) == x2 && add(k3, box(y0)) == x3
    ensures At(u, 0, x0, x1, x2, x3)
  {
    assert Cell(u, 0, 0) == x0;
    assert Cell(u, 1, 0) == x1;
    assert Cell(u, 2, 0) == x2;
    assert Cell(u, 3, 0) == x3;
  }


  lemma Key1(k: Block, u: Block)
    requires Expands(Box, Xor, 0x01, k, u)
    requires Holds(k, 0x2b, 0x7e, 0x15, 0x16, 0x28, 0xae, 0xd2, 0xa6, 0xab, 0xf7, 0x15, 0x88, 0x09, 0xcf, 0x4f, 0x3c)
    ensures Holds(u, 0xa0, 0xfa, 0xfe, 0x17, 0x88, 0x54, 0x2c, 0xb1, 0x23, 0xa3, 0x39, 0x39, 0x2a, 0x6c, 0x76, 0x05)
  {
    FirstKeyColumn(Box, Xor, 0x01, k, u, 0x2b, 0x7e, 0x15, 0x16, 0x09, 0xcf, 0x4f, 0x3c,
                   0xa0, 0xfa, 0xfe, 0x17);
    NextKeyColumn(Box, Xor, 0x01, k, u, 1, 0x28, 0xae, 0xd2, 0xa6, 0xa0, 0xfa, 0xfe, 0x17,
                  0x88, 0x54, 0x2c, 0xb1);
    NextKeyColumn(Box, Xor, 0x01, k, u, 2, 0xab, 0xf7, 0x15, 0x88, 0x88, 0x54, 0x2c, 0xb1,
                  0x23, 0xa3, 0x39, 0x39);
    NextKeyColumn(Box, Xor, 0x01, k, u, 3, 0x09, 0xcf, 0x4f, 0x3c, 0x23, 0xa3, 0x39, 0x39,
                  0x2a, 0x6c, 0x76, 0x05);
  }

  lemma Key2(k: Block, u: Block)
    requires Expands(Box, Xor, 0x02, k, u)
    requires Holds(k, 0xa0, 0xfa, 0xfe, 0x17, 0x88, 0x54, 0x2c, 0xb1, 0x23, 0xa3, 0x39, 0x39, 0x2a, 0x6c, 0x76, 0x05)
    ensures Holds(u, 0xf2, 0xc2, 0x95, 0xf2, 0x7a, 0x96, 0xb9, 0x43, 0x59, 0x35, 0x80, 0x7a, 0x73, 0x59, 0xf6, 0x7f)
  {
    FirstKeyColumn(Box, Xor, 0x02, k, u, 0xa0, 0xfa, 0xfe, 0x17, 0x2a, 0x6c, 0x76, 0x05,
                   0xf2, 0xc2, 0x95, 0xf2);
    NextKeyColumn(Box, Xor, 0x02, k, u, 1, 0x88, 0x54, 0x2c, 0xb1, 0xf2, 0xc2, 0x95, 0xf2,
                  0x7a, 0x96, 0xb9, 0x43);
    NextKeyColumn(Box, Xor, 0x02, k, u, 2, 0x23, 0xa3, 0x39, 0x39, 0x7a, 0x96, 0xb9, 0x43,
                  0x59, 0x35, 0x80, 0x7a);
    NextKeyColumn(Box, Xor, 0x02, k, u, 3, 0x2a, 0x6c, 0x76, 0x05, 0x59, 0x35, 0x80, 0x7a,
                  0x73, 0x59, 0xf6, 0x7f);
  }

  lemma Key3(k: Block, u: Block)
    requires Expands(Box, Xor, 0x04, k, u)
    requires Holds(k, 0xf2, 0xc2, 0x95, 0xf2, 0x7a, 0x96, 0xb9, 0x43, 0x59, 0x35, 0x80, 0x7a, 0x73, 0x59, 0xf6, 0x7f)
    ensures Holds(u, 0x3d, 0x80, 0x47, 0x7d, 0x47, 0x16, 0xfe, 0x3e, 0x1e, 0x23, 0x7e, 0x44, 0x6d, 0x7a, 0x88, 0x3b)
  {
    FirstKeyColumn(Box, Xor, 0x04, k, u, 0xf2, 0xc2, 0x95, 0xf2, 0x73, 0x59, 0xf6, 0x7f,
                   0x3d, 0x80, 0x47, 0x7d);
    NextKeyColumn(Box, Xor, 0x04, k, u, 1, 0x7a, 0x96, 0xb9, 0x43, 0x3d, 0x80, 0x47, 0x7d,
                  0x47, 0x16, 0xfe, 0x3e);
    NextKeyColumn(Box, Xor, 0x04, k, u, 2, 0x59, 0x35, 0x80, 0x7a, 0x47, 0x16, 0xfe, 0x3e,
                  0x1e, 0x23, 0x7e, 0x44);
    NextKeyColumn(Box, Xor, 0x04, k, u, 3, 0x73, 0x59, 0xf6, 0x7f, 0x1e, 0x23, 0x7e, 0x44,
                  0x6d, 0x7a, 0x88, 0x3b);
  }

  lemma Key4(k: Block, u: Block)
    requires Expands(Box, Xor, 0x08, k, u)
    requires Holds(k, 0x3d, 0x80, 0x47, 0x7d, 0x47, 0x16, 0xfe, 0x3e, 0x1e, 0x23, 0x7e, 0x44, 0x6d, 0x7a, 0x88, 0x3b)
    ensures Holds(u, 0xef, 0x44, 0xa5, 0x41, 0xa8, 0x52, 0x5b, 0x7f, 0xb6, 0x71, 0x25, 0x3b, 0xdb, 0x0b, 0xad, 0x00)
  {
    FirstKeyColumn(Box, Xor, 0x08, k, u, 0x3d, 0x80, 0x47, 0x7d, 0x6d, 0x7a, 0x88, 0x3b,
                   0xef, 0x44, 0xa5, 0x41);
    NextKeyColumn(Box, Xor, 0x08, k, u, 1, 0x47, 0x16, 0xfe, 0x3e, 0xef, 0x44, 0xa5, 0x41,
                  0xa8, 0x52, 0x5b, 0x7f);
    NextKeyColumn(Box, Xor, 0x08, k, u, 2, 0x1e, 0x23, 0x7e, 0x44, 0xa8, 0x52, 0x5b, 0x7f,
                  0xb6, 0x71, 0x25, 0x3b);
    NextKeyColumn(Box, Xor, 0x08, k, u, 3, 0x6d, 0x7a, 0x88, 0x3b, 0xb6, 0x71, 0x25, 0x3b,
                  0xdb, 0x0b, 0xad, 0x00);
  }

  lemma Key5(k: Block, u: Block)
    requires Expands(Box, Xor, 0x10, k, u)
    requires Holds(k, 0xef, 0x44, 0xa5, 0x41, 0xa8, 0x52, 0x5b, 0x7f, 0xb6, 0x71, 0x25, 0x3b, 0xdb, 0x0b, 0xad, 0x00)
    ensures Holds(u, 0xd4, 0xd1, 0xc6, 0xf8, 0x7c, 0x83, 0x9d, 0x87, 0xca, 0xf2, 0xb8, 0xbc, 0x11, 0xf9, 0x15, 0xbc)
  {
    FirstKeyColumn(Box, Xor, 0x10, k, u, 0xef, 0x44, 0xa5, 0x41, 0xdb, 0x0b, 0xad, 0x00,
                   0xd4, 0xd1, 0xc6, 0xf8);
    NextKeyColumn(Box, Xor, 0x10, k, u, 1, 0xa8, 0x52, 0x5b, 0x7f, 0xd4, 0xd1, 0xc6, 0xf8,
                  0x7c, 0x83, 0x9d, 0x87);
    NextKeyColumn(Box, Xor, 0x10, k, u, 2, 0xb6, 0x71, 0x25, 0x3b, 0x7c, 0x83, 0x9d, 0x87,
                  0xca, 0xf2, 0xb8, 0xbc);
    NextKeyColumn(Box, Xor, 0x10, k, u, 3, 0xdb, 0x0b, 0xad, 0x00, 0xca, 0xf2, 0xb8, 0xbc,
                  0x11, 0xf9, 0x15, 0xbc);
  }

  lemma Key6(k: Block, u: Block)
    requires Expands(Box, Xor, 0x20, k, u)
    requires Holds(k, 0xd4, 0xd1, 0xc6, 0xf8, 0x7c, 0x83, 0x9d, 0x87, 0xca, 0xf2, 0xb8, 0xbc, 0x11, 0xf9, 0x15, 0xbc)
    ensures Holds(u, 0x6d, 0x88, 0xa3, 0x7a, 0x11, 0x0b, 0x3e, 0xfd, 0xdb, 0xf9, 0x86, 0x41, 0xca, 0x00, 0x93, 0xfd)
  {
    FirstKeyColumn(Box, Xor, 0x20, k, u, 0xd4, 0xd1, 0xc6, 0xf8, 0x11, 0xf9, 0x15, 0xbc,
                   0x6d, 0x88, 0xa3, 0x7a);
    NextKeyColumn(Box, Xor, 0x20, k, u, 1, 0x7c, 0x83, 0x9d, 0x87, 0x6d, 0x88, 0xa3, 0x7a,
                  0x11, 0x0b, 0x3e, 0xfd);
    NextKeyColumn(Box, Xor, 0x20, k, u, 2, 0xca, 0xf2, 0xb8, 0xbc, 0x11, 0x0b, 0x3e, 0xfd,
                  0xdb, 0xf9, 0x86, 0x41);
    NextKeyColumn(Box, Xor, 0x20, k, u, 3, 0x11, 0xf9, 0x15, 0xbc, 0xdb, 0xf9, 0x86, 0x41,
                  0xca, 0x00, 0x93, 0xfd);
  }

  lemma Key7(k: Block, u: Block)
    requires Expands(Box, Xor, 0x40, k, u)
    requires Holds(k, 0x6d, 0x88, 0xa3, 0x7a, 0x11, 0x0b, 0x3e, 0xfd, 0xdb, 0xf9, 0x86, 0x41, 0xca, 0x00, 0x93, 0xfd)
    ensures Holds(u, 0x4e, 0x54, 0xf7, 0x0e, 0x5f, 0x5f, 0xc9, 0xf3, 0x84, 0xa6, 0x4f, 0xb2, 0x4e, 0xa6, 0xdc, 0x4f)
  {
    FirstKeyColumn(Box, Xor, 0x40, k, u, 0x6d, 0x88, 0xa3, 0x7a, 0xca, 0x00, 0x93, 0xfd,
                   0x4e, 0x54, 0xf7, 0x0e);
    NextKeyColumn(Box, Xor, 0x40, k, u, 1, 0x11, 0x0b, 0x3e, 0xfd, 0x4e, 0x54, 0xf7, 0x0e,
                  0x5f, 0x5f, 0xc9, 0xf3);
    NextKeyColumn(Box, Xor, 0x40, k, u, 2, 0xdb, 0xf9, 0x86, 0x41, 0x5f, 0x5f, 0xc9, 0xf3,
                  0x84, 0xa6, 0x4f, 0xb2);
    NextKeyColumn(Box, Xor, 0x40, k, u, 3, 0xca, 0x00, 0x93, 0xfd, 0x84, 0xa6, 0x4f, 0xb2,
                  0x4e, 0xa6, 0xdc, 0x4f);
  }

  lemma Key8(k: Block, u: Block)
    requires Expands(Box, Xor, 0x80, k, u)
    requires Holds(k, 0x4e, 0x54, 0xf7, 0x0e, 0x5f, 0x5f, 0xc9, 0xf3, 0x84, 0xa6, 0x4f, 0xb2, 0x4e, 0xa6, 0xdc, 0x4f)
    ensures Holds(u, 0xea, 0xd2, 0x73, 0x21, 0xb5, 0x8d, 0xba, 0xd2, 0x31, 0x2b, 0xf5, 0x60, 0x7f, 0x8d, 0x29, 0x2f)
  {
    FirstKeyColumn(Box, Xor, 0x80, k, u, 0x4e, 0x54, 0xf7, 0x0e, 0x4e, 0xa6, 0xdc, 0x4f,
                   0xea, 0xd2, 0x73, 0x21);
    NextKeyColumn(Box, Xor, 0x80, k, u, 1, 0x5f, 0x5f, 0xc9, 0xf3, 0xea, 0xd2, 0x73, 0x21,
                  0xb5, 0x8d, 0xba, 0xd2);
    NextKeyColumn(Box, Xor, 0x80, k, u, 2, 0x84, 0xa6, 0x4f, 0xb2, 0xb5, 0x8d, 0xba, 0xd2,
                  0x31, 0x2b, 0xf5, 0x60);
    NextKeyColumn(Box, Xor, 0x80, k, u, 3, 0x4e, 0xa6, 0xdc, 0x4f, 0x31, 0x2b, 0xf5, 0x60,
                  0x7f, 0x8d, 0x29, 0x2f);
  }

  lemma Key9(k: Block, u: Block)
    requires Expands(Box, Xor, 0x1b, k, u)
    requires Holds(k, 0xea, 0xd2, 0x73, 0x21, 0xb5, 0x8d, 0xba, 0xd2, 0x31, 0x2b, 0xf5, 0x60, 0x7f, 0x8d, 0x29, 0x2f)
    ensures Holds(u, 0xac, 0x77, 0x66, 0xf3, 0x19, 0xfa, 0xdc, 0x21, 0x28, 0xd1, 0x29, 0x41, 0x57, 0x5c, 0x00, 0x6e)
  {
    FirstKeyColumn(Box, Xor, 0x1b, k, u, 0xea, 0xd2, 0x73, 0x21, 0x7f, 0x8d, 0x29, 0x2f,
                   0xac, 0x77, 0x66, 0xf3);
    NextKeyColumn(Box, Xor, 0x1b, k, u, 1, 0xb5, 0x8d, 0xba, 0xd2, 0xac, 0x77, 0x66, 0xf3,
                  0x19, 0xfa, 0xdc, 0x21);
    NextKeyColumn(Box, Xor, 0x1b, k, u, 2, 0x31, 0x2b, 0xf5, 0x60, 0x19, 0xfa, 0xdc, 0x21,
                  0x28, 0xd1, 0x29, 0x41);
    NextKeyColumn(Box, Xor, 0x1b, k, u, 3, 0x7f, 0x8d, 0x29, 0x2f, 0x28, 0xd1, 0x29, 0x41,
                  0x57, 0x5c, 0x00, 0x6e);
  }

  lemma Key10(k: Block, u: Block)
    requires Expands(Box, Xor, 0x36, k, u)
    requires Holds(k, 0xac, 0x77, 0x66, 0xf3, 0x19, 0xfa, 0xdc, 0x21, 0x28, 0xd1, 0x29, 0x41, 0x57, 0x5c, 0x00, 0x6e)
    ensures Holds(u, 0xd0, 0x14, 0xf9, 0xa8, 0xc9, 0xee, 0x25, 0x89, 0xe1, 0x3f, 0x0c, 0xc8, 0xb6, 0x63, 0x0c, 0xa6)
  {
    FirstKeyColumn(Box, Xor, 0x36, k, u, 0xac, 0x77, 0x66, 0xf3, 0x57, 0x5c, 0x00, 0x6e,
                   0xd0, 0x14, 0xf9, 0xa8);
    NextKeyColumn(Box, Xor, 0x36, k, u, 1, 0x19, 0xfa, 0xdc, 0x21, 0xd0, 0x14, 0xf9, 0xa8,
                  0xc9, 0xee, 0x25, 0x89);
    NextKeyColumn(Box, Xor, 0x36, k, u, 2, 0x28, 0xd1, 0x29, 0x41, 0xc9, 0xee, 0x25, 0x89,
                  0xe1, 0x3f, 0x0c, 0xc8);
    NextKeyColumn(Box, Xor, 0x36, k, u, 3, 0x57, 0x5c, 0x00, 0x6e, 0xe1, 0x3f, 0x0c, 0xc8,
                  0xb6, 0x63, 0x0c, 0xa6);
  }

  lemma Round1(t: Block, k: Block, u: Block)
    requires Follows(RoundByte, t, k, u)
    requires Holds(t, 0x19, 0x3d, 0xe3, 0xbe, 0xa0, 0xf4, 0xe2, 0x2b, 0x9a, 0xc6, 0x8d, 0x2a, 0xe9, 0xf8, 0x48, 0x08)
    requires Holds(k, 0xa0, 0xfa, 0xfe, 0x17, 0x88, 0x54, 0x2c, 0xb1, 0x23, 0xa3, 0x39, 0x39, 0x2a, 0x6c, 0x76, 0x05)
    ensures Holds(u, 0xa4, 0x9c, 0x7f, 0xf2, 0x68, 0x9f, 0x35, 0x2b, 0x6b, 0x5b, 0xea, 0x43, 0x02, 0x6a, 0x50, 0x49)
  {
    NextColumn(RoundByte, t, k, u, 0, 0x19, 0xf4, 0x8d, 0x08, 0xa0, 0xfa, 0xfe, 0x17,
               0xa4, 0x9c, 0x7f, 0xf2);
    NextColumn(RoundByte, t, k, u, 1, 0xa0, 0xc6, 0x48, 0xbe, 0x88, 0x54, 0x2c, 0xb1,
               0x68, 0x9f, 0x35, 0x2b);
    NextColumn(RoundByte, t, k, u, 2, 0x9a, 0xf8, 0xe3, 0x2b, 0x23, 0xa3, 0x39, 0x39,
               0x6b, 0x5b, 0xea, 0x43);
    NextColumn(RoundByte, t, k, u, 3, 0xe9, 0x3d, 0xe2, 0x2a, 0x2a, 0x6c, 0x76, 0x05,
               0x02, 0x6a, 0x50, 0x49);
  }

  lemma Round2(t: Block, k: Block, u: Block)
    requires Follows(RoundByte, t, k, u)
    requires Holds(t, 0xa4, 0x9c, 0x7f, 0xf2, 0x68, 0x9f, 0x35, 0x2b, 0x6b, 0x5b, 0xea, 0x43, 0x02, 0x6a, 0x50, 0x49)
    requires Holds(k, 0xf2, 0xc2, 0x95, 0xf2, 0x7a, 0x96, 0xb9, 0x43, 0x59, 0x35, 0x80, 0x7a, 0x73, 0x59, 0xf6, 0x7f)
    ensures Holds(u, 0xaa, 0x8f, 0x5f, 0x03, 0x61, 0xdd, 0xe3, 0xef, 0x82, 0xd2, 0x4a, 0xd2, 0x68, 0x32, 0x46, 0x9a)
  {
    NextColumn(RoundByte, t, k, u, 0, 0xa4, 0x9f, 0xea, 0x49, 0xf2, 0xc2, 0x95, 0xf2,
               0xaa, 0x8f, 0x5f, 0x03);
    NextColumn(RoundByte, t, k, u, 1, 0x68, 0x5b, 0x50, 0xf2, 0x7a, 0x96, 0xb9, 0x43,
               0x61, 0xdd, 0xe3, 0xef);
    NextColumn(RoundByte, t, k, u, 2, 0x6b, 0x6a, 0x7f, 0x2b, 0x59, 0x35, 0x80, 0x7a,
               0x82, 0xd2, 0x4a, 0xd2);
    NextColumn(RoundByte, t, k, u, 3, 0x02, 0x9c, 0x35, 0x43, 0x73, 0x59, 0xf6, 0x7f,
               0x68, 0x32, 0x46, 0x9a);
  }

  lemma Round3(t: Block, k: Block, u: Block)
    requires Follows(RoundByte, t, k, u)
    requires Holds(t, 0xaa, 0x8f, 0x5f, 0x03, 0x61, 0xdd, 0xe3, 0xef, 0x82, 0xd2, 0x4a, 0xd2, 0x68, 0x32, 0x46, 0x9a)
    requires Holds(k, 0x3d, 0x80, 0x47, 0x7d, 0x47, 0x16, 0xfe, 0x3e, 0x1e, 0x23, 0x7e, 0x44, 0x6d, 0x7a, 0x88, 0x3b)
    ensures Holds(u, 0x48, 0x6c, 0x4e, 0xee, 0x67, 0x1d, 0x9d, 0x0d, 0x4d, 0xe3, 0xb1, 0x38, 0xd6, 0x5f, 0x58, 0xe7)
  {
    NextColumn(RoundByte, t, k, u, 0, 0xaa, 0xdd, 0x4a, 0x9a, 0x3d, 0x80, 0x47, 0x7d,
               0x48, 0x6c, 0x4e, 0xee);
    NextColumn(RoundByte, t, k, u, 1, 0x61, 0xd2, 0x46, 0x03, 0x47, 0x16, 0xfe, 0x3e,
               0x67, 0x1d, 0x9d, 0x0d);
    NextColumn(RoundByte, t, k, u, 2, 0x82, 0x32, 0x5f, 0xef, 0x1e, 0x23, 0x7e, 0x44,
               0x4d, 0xe3, 0xb1, 0x38);
    NextColumn(RoundByte, t, k, u, 3, 0x68, 0x8f, 0xe3, 0xd2, 0x6d, 0x7a, 0x88, 0x3b,
               0xd6, 0x5f, 0x58, 0xe7);
  }

  lemma Round4(t: Block, k: Block, u: Block)
    requires Follows(RoundByte, t, k, u)
    requires Holds(t, 0x48, 0x6c, 0x4e, 0xee, 0x67, 0x1d, 0x9d, 0x0d, 0x4d, 0xe3, 0xb1, 0x38, 0xd6, 0x5f, 0x58, 0xe7)
    requires Holds(k, 0xef, 0x44, 0xa5, 0x41, 0xa8, 0x52, 0x5b, 0x7f, 0xb6, 0x71, 0x25, 0x3b, 0xdb, 0x0b, 0xad, 0x00)
    ensures Holds(u, 0xe0, 0x92, 0x7f, 0xe8, 0xc8, 0x63, 0x63, 0xc0, 0xd9, 0xb1, 0x35, 0x50, 0x85, 0xb8, 0xbe, 0x01)
  {
    NextColumn(RoundByte, t, k, u, 0, 0x48, 0x1d, 0xb1, 0xe7, 0xef, 0x44, 0xa5, 0x41,
               0xe0, 0x92, 0x7f, 0xe8);
    NextColumn(RoundByte, t, k, u, 1, 0x67, 0xe3, 0x58, 0xee, 0xa8, 0x52, 0x5b, 0x7f,
               0xc8, 0x63, 0x63, 0xc0);
    NextColumn(RoundByte, t, k, u, 2, 0x4d, 0x5f, 0x4e, 0x0d, 0xb6, 0x71, 0x25, 0x3b,
               0xd9, 0xb1, 0x35, 0x50);
    NextColumn(RoundByte, t, k, u, 3, 0xd6, 0x6c, 0x9d, 0x38, 0xdb, 0x0b, 0xad, 0x00,
               0x85, 0xb8, 0xbe, 0x01);
  }

  lemma Round5(t: Block, k: Block, u: Block)
    requires Follows(RoundByte, t, k, u)
    requires Holds(t, 0xe0, 0x92, 0x7f, 0xe8, 0xc8, 0x63, 0x63, 0xc0, 0xd9, 0xb1, 0x35, 0x50, 0x85, 0xb8, 0xbe, 0x01)
    requires Holds(k, 0xd4, 0xd1, 0xc6, 0xf8, 0x7c, 0x83, 0x9d, 0x87, 0xca, 0xf2, 0xb8, 0xbc, 0x11, 0xf9, 0x15, 0xbc)
    ensures Holds(u, 0xf1, 0x00, 0x6f, 0x55, 0xc1, 0x92, 0x4c, 0xef, 0x7c, 0xc8, 0x8b, 0x32, 0x5d, 0xb5, 0xd5, 0x0c)
  {
    NextColumn(RoundByte, t, k, u, 0, 0xe0, 0x63, 0x35, 0x01, 0xd4, 0xd1, 0xc6, 0xf8,
               0xf1, 0x00, 0x6f, 0x55);
    NextColumn(RoundByte, t, k, u, 1, 0xc8, 0xb1, 0xbe, 0xe8, 0x7c, 0x83, 0x9d, 0x87,
               0xc1, 0x92, 0x4c, 0xef);
    NextColumn(RoundByte, t, k, u, 2, 0xd9, 0xb8, 0x7f, 0xc0, 0xca, 0xf2, 0xb8, 0xbc,
               0x7c, 0xc8, 0x8b, 0x32);
    NextColumn(RoundByte, t, k, u, 3, 0x85, 0x92, 0x63, 0x50, 0x11, 0xf9, 0x15, 0xbc,
               0x5d, 0xb5, 0xd5, 0x0c);
  }

  lemma Round6(t: Block, k: Block, u: Block)
    requires Follows(RoundByte, t, k, u)
    requires Holds(t, 0xf1, 0x00, 0x6f, 0x55, 0xc1, 0x92, 0x4c, 0xef, 0x7c, 0xc8, 0x8b, 0x32, 0x5d, 0xb5, 0xd5, 0x0c)
    requires Holds(k, 0x6d, 0x88, 0xa3, 0x7a, 0x11, 0x0b, 0x3e, 0xfd, 0xdb, 0xf9, 0x86, 0x41, 0xca, 0x00, 0x93, 0xfd)
    ensures Holds(u, 0x26, 0x0e, 0x2e, 0x17, 0x3d, 0x41, 0xb7, 0x7d, 0xe8, 0x64, 0x72, 0xa9, 0xfd, 0xd2, 0x8b, 0x25)
  {
    NextColumn(RoundByte, t, k, u, 0, 0xf1, 0x92, 0x8b, 0x0c, 0x6d, 0x88, 0xa3, 0x7a,
               0x26, 0x0e, 0x2e, 0x17);
    NextColumn(RoundByte, t, k, u, 1, 0xc1, 0xc8, 0xd5, 0x55, 0x11, 0x0b, 0x3e, 0xfd,
               0x3d, 0x41, 0xb7, 0x7d);
    NextColumn(RoundByte, t, k, u, 2, 0x7c, 0xb5, 0x6f, 0xef, 0xdb, 0xf9, 0x86, 0x41,
               0xe8, 0x64, 0x72, 0xa9);
    NextColumn(RoundByte, t, k, u, 3, 0x5d, 0x00, 0x4c, 0x32, 0xca, 0x00, 0x93, 0xfd,
               0xfd, 0xd2, 0x8b, 0x25);
  }

  lemma Round7(t: Block, k: Block, u: Block)
    requires Follows(RoundByte, t, k, u)
    requires Holds(t, 0x26, 0x0e, 0x2e, 0x17, 0x3d, 0x41, 0xb7, 0x7d, 0xe8, 0x64, 0x72, 0xa9, 0xfd, 0xd2, 0x8b, 0x25)
    requires Holds(k, 0x4e, 0x54, 0xf7, 0x0e, 0x5f, 0x5f, 0xc9, 0xf3, 0x84, 0xa6, 0x4f, 0xb2, 0x4e, 0xa6, 0xdc, 0x4f)
    ensures Holds(u, 0x5a, 0x41, 0x42, 0xb1, 0x19, 0x49, 0xdc, 0x1f, 0xa3, 0xe0, 0x19, 0x65, 0x7a, 0x8c, 0x04, 0x0c)
  {
    NextColumn(RoundByte, t, k, u, 0, 0x26, 0x41, 0x72, 0x25, 0x4e, 0x54, 0xf7, 0x0e,
               0x5a, 0x41, 0x42, 0xb1);
    NextColumn(RoundByte, t, k, u, 1, 0x3d, 0x64, 0x8b, 0x17, 0x5f, 0x5f, 0xc9, 0xf3,
               0x19, 0x49, 0xdc, 0x1f);
    NextColumn(RoundByte, t, k, u, 2, 0xe8, 0xd2, 0x2e, 0x7d, 0x84, 0xa6, 0x4f, 0xb2,
               0xa3, 0xe0, 0x19, 0x65);
    NextColumn(RoundByte, t, k, u, 3, 0xfd, 0x0e, 0xb7, 0xa9, 0x4e, 0xa6, 0xdc, 0x4f,
               0x7a, 0x8c, 0x04, 0x0c);
  }

  lemma Round8(t: Block, k: Block, u: Block)
    requires Follows(RoundByte, t, k, u)
    requires Holds(t, 0x5a, 0x41, 0x42, 0xb1, 0x19, 0x49, 0xdc, 0x1f, 0xa3, 0xe0, 0x19, 0x65, 0x7a, 0x8c, 0x04, 0x0c)
    requires Holds(k, 0xea, 0xd2, 0x73, 0x21, 0xb5, 0x8d, 0xba, 0xd2, 0x31, 0x2b, 0xf5, 0x60, 0x7f, 0x8d, 0x29, 0x2f)
    ensures Holds(u, 0xea, 0x83, 0x5c, 0xf0, 0x04, 0x45, 0x33, 0x2d, 0x65, 0x5d, 0x98, 0xad, 0x85, 0x96, 0xb0, 0xc5)
  {
    NextColumn(RoundByte, t, k, u, 0, 0x5a, 0x49, 0x19, 0x0c, 0xea, 0xd2, 0x73, 0x21,
               0xea, 0x83, 0x5c, 0xf0);
    NextColumn(RoundByte, t, k, u, 1, 0x19, 0xe0, 0x04, 0xb1, 0xb5, 0x8d, 0xba, 0xd2,
               0x04, 0x45, 0x33, 0x2d);
    NextColumn(RoundByte, t, k, u, 2, 0xa3, 0x8c, 0x42, 0x1f, 0x31, 0x2b, 0xf5, 0x60,
               0x65, 0x5d, 0x98, 0xad);
    NextColumn(RoundByte, t, k, u, 3, 0x7a, 0x41, 0xdc, 0x65, 0x7f, 0x8d, 0x29, 0x2f,
               0x85, 0x96, 0xb0, 0xc5);
  }

  lemma Round9(t: Block, k: Block, u: Block)
    requires Follows(RoundByte, t, k, u)
    requires Holds(t, 0xea, 0x83, 0x5c, 0xf0, 0x04, 0x45, 0x33, 0x2d, 0x65, 0x5d, 0x98, 0xad, 0x85, 0x96, 0xb0, 0xc5)
    requires Holds(k, 0xac, 0x77, 0x66, 0xf3, 0x19, 0xfa, 0xdc, 0x21, 0x28, 0xd1, 0x29, 0x41, 0x57, 0x5c, 0x00, 0x6e)
    ensures Holds(u, 0xeb, 0x40, 0xf2, 0x1e, 0x59, 0x2e, 0x38, 0x84, 0x8b, 0xa1, 0x13, 0xe7, 0x1b, 0xc3, 0x42, 0xd2)
  {
    NextColumn(RoundByte, t, k, u, 0, 0xea, 0x45, 0x98, 0xc5, 0xac, 0x77, 0x66, 0xf3,
               0xeb, 0x40, 0xf2, 0x1e);
    NextColumn(RoundByte, t, k, u, 1, 0x04, 0x5d, 0xb0, 0xf0, 0x19, 0xfa, 0xdc, 0x21,
               0x59, 0x2e, 0x38, 0x84);
    NextColumn(RoundByte, t, k, u, 2, 0x65, 0x96, 0x5c, 0x2d, 0x28, 0xd1, 0x29, 0x41,
               0x8b, 0xa1, 0x13, 0xe7);
    NextColumn(RoundByte, t, k, u, 3, 0x85, 0x83, 0x33, 0xad, 0x57, 0x5c, 0x00, 0x6e,
               0x1b, 0xc3, 0x42, 0xd2);
  }

  lemma Round10(t: Block, k: Block, u: Block)
    requires Follows(LastByte, t, k, u)
    requires Holds(t, 0xeb, 0x40, 0xf2, 0x1e, 0x59, 0x2e, 0x38, 0x84, 0x8b, 0xa1, 0x13, 0xe7, 0x1b, 0xc3, 0x42, 0xd2)
    requires Holds(k, 0xd0, 0x14, 0xf9, 0xa8, 0xc9, 0xee, 0x25, 0x89, 0xe1, 0x3f, 0x0c, 0xc8, 0xb6, 0x63, 0x0c, 0xa6)
    ensures Holds(u, 0x39, 0x25, 0x84, 0x1d, 0x02, 0xdc, 0x09, 0xfb, 0xdc, 0x11, 0x85, 0x97, 0x19, 0x6a, 0x0b, 0x32)
  {
    NextColumn(LastByte, t, k, u, 0, 0xeb, 0x2e, 0x13, 0xd2, 0xd0, 0x14, 0xf9, 0xa8,
               0x39, 0x25, 0x84, 0x1d);
    NextColumn(LastByte, t, k, u, 1, 0x59, 0xa1, 0x42, 0x1e, 0xc9, 0xee, 0x25, 0x89,
               0x02, 0xdc, 0x09, 0xfb);
    NextColumn(LastByte, t, k, u, 2, 0x8b, 0xc3, 0xf2, 0x84, 0xe1, 0x3f, 0x0c, 0xc8,
               0xdc, 0x11, 0x85, 0x97);
    NextColumn(LastByte, t, k, u, 3, 0x1b, 0x40, 0x38, 0xe7, 0xb6, 0x63, 0x0c, 0xa6,
               0x19, 0x6a, 0x0b, 0x32);
  }

  lemma TurnedHolds(b: Block)
    ensures Holds(Turned(b), b[0], b[1], b[2], b[3], b[4], b[5], b[6], b[7],
                  b[8], b[9], b[10], b[11], b[12], b[13], b[14], b[15])
  {
  }

  lemma SumHolds(s: Block, key: Block, t: Block)
    requires forall j :: 0 <= j < 16 ==> t[j] == Xor(s[j], key[j])
    requires Holds(s, 0x32, 0x43, 0xf6, 0xa8, 0x88, 0x5a, 0x30, 0x8d, 0x31, 0x31, 0x98, 0xa2, 0xe0, 0x37, 0x07, 0x34)
    requires Holds(key, 0x2b, 0x7e, 0x15, 0x16, 0x28, 0xae, 0xd2, 0xa6, 0xab, 0xf7, 0x15, 0x88, 0x09, 0xcf, 0x4f, 0x3c)
    ensures Holds(t, 0x19, 0x3d, 0xe3, 0xbe, 0xa0, 0xf4, 0xe2, 0x2b, 0x9a, 0xc6, 0x8d, 0x2a, 0xe9, 0xf8, 0x48, 0x08)
  {
  }

  lemma TurnedIs(s: Block, b: Block)
    requires Holds(s, b[0], b[1], b[2], b[3], b[4], b[5], b[6], b[7],
                   b[8], b[9], b[10], b[11], b[12], b[13], b[14], b[15])
    ensures Turned(s) == b
  {
    forall j | 0 <= j < 16 ensures Turned(s)[j] == b[j] {
    }
  }


  /** The run of the cipher over all round keys and states. */
  lemma Run(k0: Block, k1: Block, k2: Block, k3: Block, k4: Block, k5: Block,
            k6: Block, k7: Block, k8: Block, k9: Block, k10: Block,
            t0: Block, t1: Block, t2: Block, t3: Block, t4: Block, t5: Block,
            t6: Block, t7: Block, t8: Block, t9: Block, t10: Block)
    requires k0 == Turned(Key()) && (forall j :: 0 <= j < 16 ==> t0[j] == Xor(Turned(Plain())[j], k0[j]))
    requires Expands(Box, Xor, 0x01, k0, k1) && Expands(Box, Xor, 0x02, k1, k2)
    requires Expands(Box, Xor, 0x04, k2, k3) && Expands(Box, Xor, 0x08, k3, k4)
    requires Expands(Box, Xor, 0x10, k4, k5) && Expands(Box, Xor, 0x20, k5, k6)
    requires Expands(Box, Xor, 0x40, k6, k7) && Expands(Box, Xor, 0x80, k7, k8)
    requires Expands(Box, Xor, 0x1b, k8, k9) && Expands(Box, Xor, 0x36, k9, k10)
    requires Follows(RoundByte, t0, k1, t1) && Follows(RoundByte, t1, k2, t2)
    requires Follows(RoundByte, t2, k3, t3) && Follows(RoundByte, t3, k4, t4)
    requires Follows(RoundByte, t4, k5, t5) && Follows(RoundByte, t5, k6, t6)
    requires Follows(RoundByte, t6, k7, t7) && Follows(RoundByte, t7, k8, t8)
    requires Follows(RoundByte, t8, k9, t9) && Follows(LastByte, t9, k10, t10)
    ensures Turned(t10) == Enciphered()
  {
    TurnedHolds(Key());
    TurnedHolds(Plain());
    Key1(k0, k1);
    Key2(k1, k2);
    Key3(k2, k3);
    Key4(k3, k4);
    Key5(k4, k5);
    Key6(k5, k6);
    Key7(k6, k7);
    Key8(k7, k8);
    Key9(k8, k9);
    Key10(k9, k10);
    SumHolds(Turned(Plain()), k0, t0);
    Round1(t0, k1, t1);
    Round2(t1, k2, t2);
    Round3(t2, k3, t3);
    Round4(t3, k4, t4);
    Round5(t4, k5, t5);
    Round6(t5, k6, t6);
    Round7(t6, k7, t7);
    Round8(t7, k8, t8);
    Round9(t8, k9, t9);
    Round10(t9, k10, t10);
    TurnedIs(t10, Enciphered());
  }

  lemma FirstKey(key: Block)
    ensures Expanded(key)[0] == Turned(key)
  {
    forall j | 0 <= j < 16 ensures Expanded(key)[0][j] == Turned(key)[j] {
      assert Expanded(key)[0][j] == key[4 * (j % 4) + j / 4];
    }
  }

  lemma RunOf(w: Schedule, t: seq<Block>)
    requires |t| == 11 && w[0] == Turned(Key())
    requires forall j :: 0 <= j < 16 ==> t[0][j] == Xor(Turned(Plain())[j], w[0][j])
    requires forall i :: 1 <= i < 11 ==> Expands(Box, Xor, Constants()[i - 1], w[i - 1], w[i])
    requires forall i :: 1 <= i < 10 ==> Follows(RoundByte, t[i - 1], w[i], t[i])
    requires Follows(LastByte, t[9], w[10], t[10])
    ensures Turned(t[10]) == Enciphered()
  {
    Run(w[0], w[1], w[2], w[3], w[4], w[5], w[6], w[7], w[8], w[9], w[10],
        t[0], t[1], t[2], t[3], t[4], t[5], t[6], t[7], t[8], t[9], t[10]);
  }

  function States(s: Block, w: Schedule): (t: seq<Block>)
    ensures |t| == 11 && forall i :: 0 <= i < 11 ==> t[i] == Rounds(s, w, i)
  {
    seq(11, i requires 0 <= i < 11 => Rounds(s, w, i))
  }

  /** The cipher and its key expansion give the block of the standard, both ways. */
  lemma KnownBlock()
    ensures EncodeBlock(Expanded(Key()), Plain()) == Enciphered()
    ensures DecodeBlock(Expanded(Key()), Enciphered()) == Plain()
  {
    var w, s := Expanded(Key()), Turned(Plain());
    var t := States(s, w);
    FirstKey(Key());
    RoundsAre(s, w, 0);
    forall i | 1 <= i < 11 ensures Expands(Box, Xor, Constants()[i - 1], w[i - 1], w[i]) {
      RoundKeyExpands(Box, Xor, Constants(), Key(), i - 1);
    }
    forall i | 1 <= i < 10 ensures Follows(RoundByte, t[i - 1], w[i], t[i]) {
      RoundsAre(s, w, i);
    }
    RoundsAre(s, w, 10);
    RunOf(w, t);
    BlockInverse(w, Plain());
  }
}
