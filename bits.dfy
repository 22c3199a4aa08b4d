/** Go's unsigned bitwise operators (`&`, `|`, `^`, `>>`, `<<`) on natural
    numbers, defined bit by bit from the least significant end, with the
    facts the decoders need about the masks and shifts they use.
    Bit(x, k) is the independent reference: the k-th binary digit of x. */
module Bits {

  /** x >> k */
  function Shr(x: nat, k: nat): (r: nat)
    ensures r <= x
  {
    if k == 0 then x else Shr(x / 2, k - 1)
  }

  /** x << k (Go's int is wide enough here for no bits to be lost) */
  function Shl(x: nat, k: nat): nat
  {
    if k == 0 then x else 2 * Shl(x, k - 1)
  }

  /** x & y */
  function And(x: nat, y: nat): (r: nat)
    ensures r <= x && r <= y
  {
    if x == 0 || y == 0 then 0 else 2 * And(x / 2, y / 2) + (x % 2) * (y % 2)
  }

  /** x | y */
  function Or(x: nat, y: nat): nat
  {
    if x == 0 then y
    else if y == 0 then x
    else 2 * Or(x / 2, y / 2) + (if x % 2 == 1 || y % 2 == 1 then 1 else 0)
  }

  /** x ^ y */
  function Xor(x: nat, y: nat): nat
  {
    if x == 0 then y
    else if y == 0 then x
    else 2 * Xor(x / 2, y / 2) + (if x % 2 != y % 2 then 1 else 0)
  }

  /** The k-th binary digit of x (0 or 1). */
  function Bit(x: nat, k: nat): nat
  {
    Shr(x, k) % 2
  }

  lemma ShlMul(z: nat, k: nat)
    ensures Shl(z, k) == z * Shl(1, k)
  {
  }

  lemma {:induction false} ShrShl(z: nat, k: nat)
    ensures Shr(Shl(z, k), k) == z
  {
    if k > 0 {
      calc {
        Shr(Shl(z, k), k);
        Shr(Shl(z, k) / 2, k - 1);
        { assert Shl(z, k) / 2 == Shl(z, k - 1); }
        Shr(Shl(z, k - 1), k - 1);
        { ShrShl(z, k - 1); }
        z;
      }
    }
  }

  lemma {:induction false} ShrShr(x: nat, a: nat, b: nat)
    ensures Shr(Shr(x, a), b) == Shr(x, a + b)
    decreases a
  {
    if a > 0 {
      ShrShr(x / 2, a - 1, b);
    }
  }

  /** Masking with `y << k` keeps the bits of `x >> k` selected by y, in place. */
  lemma {:induction false} AndShl(x: nat, y: nat, k: nat)
    ensures And(x, Shl(y, k)) == Shl(And(Shr(x, k), y), k)
    decreases k
  {
    if k > 0 {
      var s := Shl(y, k - 1);
      assert Shl(y, k) == 2 * s;
      if y == 0 {
        ShlZero(k - 1);
        ShlZero(k);
      } else if x == 0 {
        ShrZero(k);
        ShlZero(k);
      } else {
        ShlPositive(y, k - 1);
        assert And(x, 2 * s) == 2 * And(x / 2, s);
        AndShl(x / 2, y, k - 1);
      }
    }
  }

  lemma {:induction false} ShlPositive(y: nat, k: nat)
    requires y > 0
    ensures Shl(y, k) > 0
  {
    if k > 0 {
      ShlPositive(y, k - 1);
    }
  }

  lemma {:induction false} ShrZero(k: nat)
    ensures Shr(0, k) == 0
  {
    if k > 0 {
      ShrZero(k - 1);
    }
  }

  lemma {:induction false} ShlZero(k: nat)
    ensures Shl(0, k) == 0
  {
    if k > 0 {
      ShlZero(k - 1);
    }
  }

  lemma AndOne(z: nat)
    ensures And(z, 1) == z % 2 == Bit(z, 0)
  {
  }

  /** `& 0xF` keeps the four low bits. */
  lemma AndNibble(z: nat)
    ensures And(z, 0xF) == Bit(z, 0) + 2 * Bit(z, 1) + 4 * Bit(z, 2) + 8 * Bit(z, 3)
  {
    var z1 := z / 2;
    var z2 := z1 / 2;
    var z3 := z2 / 2;
    assert Bit(z, 1) == z1 % 2 by { assert Shr(z, 1) == Shr(z1, 0); }
    assert Bit(z, 2) == z2 % 2 by { assert Shr(z, 2) == Shr(z1, 1) == Shr(z2, 0); }
    assert Bit(z, 3) == z3 % 2 by { assert Shr(z, 3) == Shr(z1, 2) == Shr(z2, 1) == Shr(z3, 0); }
    if z != 0 {
      assert And(z, 0xF) == 2 * And(z1, 7) + z % 2;
      if z1 != 0 {
        assert And(z1, 7) == 2 * And(z2, 3) + z1 % 2;
        if z2 != 0 {
          assert And(z2, 3) == 2 * And(z3, 1) + z2 % 2;
          AndOne(z3);
        }
      }
    }
  }

  /** Bit j of x >> k is bit k + j of x. */
  lemma BitOfShr(x: nat, k: nat, j: nat)
    ensures Bit(Shr(x, k), j) == Bit(x, k + j)
  {
    ShrShr(x, k, j);
  }

  /** Testing a single bit: `(x & (1 << k)) >> k` is bit k. */
  lemma {:induction false} SingleBitMask(x: nat, k: nat)
    ensures Shr(And(x, Shl(1, k)), k) == Bit(x, k)
  {
    AndShl(x, 1, k);
    ShrShl(And(Shr(x, k), 1), k);
    AndOne(Shr(x, k));
  }

  /** When every bit of y is set in x, x ^ y clears them: it is x - y. */
  lemma {:induction false} XorSubset(x: nat, y: nat)
    requires And(x, y) == y
    ensures Xor(x, y) == x - y
    decreases x
  {
    if x != 0 && y != 0 {
      assert 2 * And(x / 2, y / 2) + (x % 2) * (y % 2) == 2 * (y / 2) + y % 2;
      assert (x % 2) * (y % 2) == y % 2;
      assert And(x / 2, y / 2) == y / 2;
      XorSubset(x / 2, y / 2);
    }
  }

  /** Or-ing a value below 2^k into `v << k` is an addition. */
  lemma {:induction false} OrBelowShift(v: nat, c: nat, k: nat)
    requires c < Shl(1, k)
    ensures Or(Shl(v, k), c) == Shl(v, k) + c
  {
    if k > 0 {
      var w := Shl(v, k - 1);
      assert Shl(v, k) == 2 * w;
      if w != 0 && c != 0 {
        OrBelowShift(v, c / 2, k - 1);
      }
    }
  }

  /** `(v << k) + b` shifted right by k gives v back when b < 2^k. */
  lemma {:induction false} ShrPastLow(v: nat, b: nat, k: nat)
    requires b < Shl(1, k)
    ensures Shr(Shl(v, k) + b, k) == v
  {
    if k > 0 {
      assert (Shl(v, k) + b) / 2 == Shl(v, k - 1) + b / 2;
      ShrPastLow(v, b / 2, k - 1);
    }
  }
}
