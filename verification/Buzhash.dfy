/** The rolling hash of the chunker: hashing by cyclic polynomial over a window of 64 bytes. */
module Buzhash {
  import opened Bytes

  /** One word for every byte. */
  type Table = t: seq<bv32> | |t| == 256 witness seq(256, _ => 0)

  function T(table: Table, b: byte): bv32
  {
    table[b]
  }

  function Xor(x: bv32, y: bv32): bv32
  {
    x ^ y
  }

  function Rot1(x: bv32): bv32
  {
    x.RotateLeft(1)
  }

  /** `x` rotated left by `n`, one bit at a time. */
  function Rot(x: bv32, n: nat): bv32
  {
    if n == 0 then x else Rot1(Rot(x, n - 1))
  }

  /** The hash of a window, computed from nothing: shift in one byte after the other. */
  function Hash(table: Table, s: seq<byte>): bv32
  {
    if s == [] then 0 else Xor(Rot1(Hash(table, s[..|s| - 1])), T(table, s[|s| - 1]))
  }

  /** The closed form: the exclusive or of the bytes' table entries, each rotated by its age. */
  function AgedXor(table: Table, s: seq<byte>): bv32
  {
    if s == [] then 0 else Xor(Rot(T(table, s[0]), |s| - 1), AgedXor(table, s[1..]))
  }

  lemma RotXor(x: bv32, y: bv32)
    ensures Rot1(Xor(x, y)) == Xor(Rot1(x), Rot1(y))
  {
  }

  lemma XorAssoc(x: bv32, y: bv32, z: bv32)
    ensures Xor(Xor(x, y), z) == Xor(x, Xor(y, z))
  {
  }

  lemma {:induction false} RotAdd(x: bv32, a: nat, b: nat)
    ensures Rot(x, a + b) == Rot(Rot(x, a), b)
    decreases b
  {
    if b > 0 { RotAdd(x, a, b - 1); }
  }

  lemma Rot4(x: bv32)
    ensures Rot(x, 4) == x.RotateLeft(4)
  {
    assert Rot(x, 1) == Rot1(x);
    assert Rot(x, 2) == Rot1(Rot1(x));
    assert Rot(x, 3) == Rot1(Rot1(Rot1(x)));
  }

  lemma Rot16(x: bv32)
    ensures Rot(x, 16) == x.RotateLeft(16)
  {
    hide Rot;
    var a := x.RotateLeft(4);
    var b := a.RotateLeft(4);
    var c := b.RotateLeft(4);
    Rot4(x);
    Rot4(a);
    Rot4(b);
    Rot4(c);
    RotAdd(x, 4, 4);
    RotAdd(x, 8, 4);
    RotAdd(x, 12, 4);
  }

  /** Rotation by the window size 64 is the identity on 32 bits: a byte leaves the window with the
      very table entry it came in with. */
  lemma Rot64(x: bv32)
    ensures Rot(x, 64) == x
  {
    hide Rot;
    var y := x.RotateLeft(16);
    Rot16(x);
    Rot16(y);
    assert y.RotateLeft(16) == x;
    RotAdd(x, 16, 16);
    RotAdd(x, 32, 32);
  }

  lemma {:induction false} HashFront(table: Table, a: byte, s: seq<byte>)
    ensures Hash(table, [a] + s) == Xor(Rot(T(table, a), |s|), Hash(table, s))
    decreases |s|
  {
    hide T, Rot1, Xor;
    var w := [a] + s;
    if s == [] {
      assert w[..0] == [] && Rot1(0) == 0 by { RotZero(); }
      XorZero(T(table, a));
    } else {
      var s' := s[..|s| - 1];
      var b := T(table, s[|s| - 1]);
      assert w[..|w| - 1] == [a] + s';
      HashFront(table, a, s');
      RotXor(Rot(T(table, a), |s'|), Hash(table, s'));
      XorAssoc(Rot(T(table, a), |s|), Rot1(Hash(table, s')), b);
    }
  }

  lemma RotZero()
    ensures Rot1(0) == 0
  {
  }

  lemma XorZero(x: bv32)
    ensures Xor(0, x) == x == Xor(x, 0)
  {
  }

  /** The shift-in hash is the aged exclusive or. */
  lemma {:induction false} HashIsAgedXor(table: Table, s: seq<byte>)
    ensures Hash(table, s) == AgedXor(table, s)
    decreases |s|
  {
    hide T, Rot, Hash, Xor;
    if s == [] {
      HashNone(table);
    } else {
      assert [s[0]] + s[1..] == s;
      HashFront(table, s[0], s[1..]);
      HashIsAgedXor(table, s[1..]);
    }
  }

  lemma HashNone(table: Table)
    ensures Hash(table, []) == 0
  {
  }

  lemma HashBack(table: Table, s: seq<byte>, b: byte)
    ensures Hash(table, s + [b]) == Xor(Rot1(Hash(table, s)), T(table, b))
  {
    hide T, Rot1, Xor;
    assert (s + [b])[..|s|] == s;
  }

  lemma XorCancel(a: bv32, b: bv32, e: bv32)
    ensures Xor(Xor(Xor(a, b), a), e) == Xor(b, e)
  {
  }

  /** Rolling: dropping the oldest byte of a full window and shifting in a new one is one rotation
      and two exclusive ors. */
  lemma HashRoll(table: Table, s: seq<byte>, e: byte)
    requires |s| == 64
    ensures Hash(table, s[1..] + [e]) == Xor(Xor(Rot1(Hash(table, s)), T(table, s[0])), T(table, e))
  {
    hide T, Rot1, Hash, Rot, Xor;
    var a := T(table, s[0]);
    assert [s[0]] + s[1..] == s;
    HashFront(table, s[0], s[1..]);
    RotXor(Rot(a, 63), Hash(table, s[1..]));
    RotNext(a, 63);
    Rot64(a);
    HashBack(table, s[1..], e);
    XorCancel(a, Rot1(Hash(table, s[1..])), T(table, e));
  }

  lemma RotNext(x: bv32, n: nat)
    ensures Rot(x, n + 1) == Rot1(Rot(x, n))
  {
    hide Rot1;
  }
}
