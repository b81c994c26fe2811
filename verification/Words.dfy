/** Unsigned 64-bit words, their bits, and byte strings; most significant first. */
module Words {

  const TWO_TO_THE_64: nat := 0x1_0000_0000_0000_0000
  const TOP_BIT: nat := 0x8000_0000_0000_0000

  type U64 = x: nat | x < TWO_TO_THE_64
  type Byte = x: nat | x < 256

  function Pow2(n: nat): (p: nat)
    ensures p > 0
  {
    if n == 0 then 1 else 2 * Pow2(n - 1)
  }

  // The bitwise operators of unsigned integers, one bit at a time.

  function And(x: nat, y: nat): nat {
    if x == 0 then 0 else 2 * And(x / 2, y / 2) + (if x % 2 == 1 && y % 2 == 1 then 1 else 0)
  }

  function Or(x: nat, y: nat): nat
    decreases x + y
  {
    if x == 0 && y == 0 then 0 else 2 * Or(x / 2, y / 2) + (if x % 2 == 1 || y % 2 == 1 then 1 else 0)
  }

  function Xor(x: nat, y: nat): nat
    decreases x + y
  {
    if x == 0 && y == 0 then 0 else 2 * Xor(x / 2, y / 2) + (if x % 2 != y % 2 then 1 else 0)
  }

  /** Complement within 64 bits. */
  function Not(x: U64): U64 {
    TWO_TO_THE_64 - 1 - x
  }

  function Halve(x: nat, n: nat): nat
    decreases x, n
  {
    if n == 0 then x else Halve(x / 2, n - 1)
  }

  function Double(x: nat, n: nat): nat
    decreases x, n
  {
    if n == 0 then x else 2 * Double(x, n - 1)
  }

  /** `x >> n` of a `u64`. */
  function Shr(x: U64, n: nat): (r: U64)
  {
    HalveBelow(x, n);
    Halve(x, n)
  }

  /** `x << n` of a `u64`; bits shifted out are lost. */
  function Shl(x: U64, n: nat): U64 {
    Double(x, n) % TWO_TO_THE_64
  }

  /** The n low bits of x, most significant first. */
  function Bits(x: nat, n: nat): (bits: seq<bool>)
    ensures |bits| == n
    decreases x, n
  {
    if n == 0 then [] else Bits(x / 2, n - 1) + [x % 2 == 1]
  }

  function Repeat(b: bool, n: nat): (bits: seq<bool>)
    ensures |bits| == n
    ensures forall i :: 0 <= i < n ==> bits[i] == b
  {
    seq(n, _ => b)
  }

  /** All bits of a byte string. */
  function BytesBits(s: seq<Byte>): (bits: seq<bool>)
    ensures |bits| == 8 * |s|
  {
    if s == [] then [] else BytesBits(s[..|s| - 1]) + Bits(s[|s| - 1], 8)
  }

  /** Big-endian value of a byte string; `u64::from_be_bytes` for eight bytes. */
  function FromBytes(s: seq<Byte>): nat {
    if s == [] then 0 else 256 * FromBytes(s[..|s| - 1]) + s[|s| - 1]
  }

  /** The n low bytes of x; `u64::to_be_bytes` for n = 8. */
  function ToBytes(x: nat, n: nat): (s: seq<Byte>)
    ensures |s| == n
    decreases x, n
  {
    if n == 0 then [] else ToBytes(x / 256, n - 1) + [x % 256]
  }

  /** Lexicographic order of byte strings, the order of keys in the database. */
  predicate LexLeq(a: seq<Byte>, b: seq<Byte>) {
    a == [] || (b != [] && (a[0] < b[0] || (a[0] == b[0] && LexLeq(a[1..], b[1..]))))
  }

  // ---- powers and shifts ----

  lemma {:induction false} HalveBelow(x: nat, n: nat)
    ensures Halve(x, n) <= x
    decreases n
  {
    if n > 0 {
      HalveBelow(x / 2, n - 1);
    }
  }

  lemma {:induction false} HalveSum(x: nat, r: nat, n: nat)
    requires r < Pow2(n)
    ensures Halve(Double(x, n) + r, n) == x
    decreases n
  {
    if n > 0 {
      HalveSum(x, r / 2, n - 1);
      assert (Double(x, n) + r) / 2 == Double(x, n - 1) + r / 2;
    }
  }

  lemma {:induction false} HalveAdd(x: nat, m: nat, n: nat)
    ensures Halve(x, m + n) == Halve(Halve(x, m), n)
    decreases m
  {
    if m > 0 {
      HalveAdd(x / 2, m - 1, n);
    }
  }

  lemma {:induction false} DoubleAdd(x: nat, m: nat, n: nat)
    ensures Double(x, m + n) == Double(Double(x, m), n)
    decreases n
  {
    if n > 0 {
      DoubleAdd(x, m, n - 1);
    }
  }

  lemma {:induction false} DoubleBelow(x: nat, m: nat, n: nat)
    requires x < Pow2(m)
    ensures Double(x, n) < Pow2(m + n)
    ensures Double(x, n) + Pow2(n) <= Pow2(m + n)
    decreases n
  {
    if n > 0 {
      DoubleBelow(x, m, n - 1);
    }
  }

  lemma {:induction false} HalveLess(x: nat, m: nat, n: nat)
    requires x < Pow2(m + n)
    ensures Halve(x, n) < Pow2(m)
    decreases n
  {
    if n > 0 {
      HalveLess(x / 2, m, n - 1);
    }
  }

  /** Powers that occur as constants. */
  lemma PowerConstants()
    ensures Pow2(8) == 256 && Pow2(63) == TOP_BIT && Pow2(64) == TWO_TO_THE_64
  {
    assert Pow2(4) == 16;
    assert Pow2(8) == 256;
    assert Pow2(12) == 0x1000;
    assert Pow2(16) == 0x1_0000;
    assert Pow2(20) == 0x10_0000;
    assert Pow2(24) == 0x100_0000;
    assert Pow2(28) == 0x1000_0000;
    assert Pow2(32) == 0x1_0000_0000;
    assert Pow2(36) == 0x10_0000_0000;
    assert Pow2(40) == 0x100_0000_0000;
    assert Pow2(44) == 0x1000_0000_0000;
    assert Pow2(48) == 0x1_0000_0000_0000;
    assert Pow2(52) == 0x10_0000_0000_0000;
    assert Pow2(56) == 0x100_0000_0000_0000;
    assert Pow2(60) == 0x1000_0000_0000_0000;
  }

  lemma DoubleByte(x: nat)
    ensures Double(x, 8) == 256 * x
  {
    calc {
      Double(x, 8);
      2 * (2 * Double(x, 6));
      4 * (2 * (2 * Double(x, 4)));
      16 * (2 * (2 * Double(x, 2)));
      64 * (2 * (2 * Double(x, 0)));
    }
  }

  lemma Pow2Byte(n: nat)
    ensures Pow2(n + 8) == 256 * Pow2(n)
  {
    calc {
      Pow2(n + 8);
      2 * (2 * Pow2(n + 6));
      4 * (2 * (2 * Pow2(n + 4)));
      16 * (2 * (2 * Pow2(n + 2)));
      64 * (2 * (2 * Pow2(n)));
    }
  }

  // ---- bitwise operators ----

  /** Bits below a common shift are untouched by or. */
  lemma {:induction false} OrShift(x: nat, y: nat, n: nat)
    ensures Or(Double(x, n), Double(y, n)) == Double(Or(x, y), n)
    decreases n
  {
    if n > 0 {
      OrShift(x, y, n - 1);
    }
  }

  lemma {:induction false} OrDisjoint(x: nat, y: nat, n: nat)
    requires y < Pow2(n)
    ensures Or(Double(x, n), y) == Double(x, n) + y
    decreases n
  {
    if n == 0 {
      OrZero(x);
    } else {
      OrDisjoint(x, y / 2, n - 1);
    }
  }

  lemma {:induction false} OrZero(x: nat)
    ensures Or(x, 0) == x
  {
    if x > 0 {
      OrZero(x / 2);
    }
  }

  lemma {:induction false} XorZero(x: nat, y: nat)
    ensures Xor(x, y) == 0 <==> x == y
    decreases x + y
  {
    if x > 0 || y > 0 {
      XorZero(x / 2, y / 2);
    }
  }

  lemma {:induction false} XorHalve(x: nat, y: nat, n: nat)
    ensures Halve(Xor(x, y), n) == Xor(Halve(x, n), Halve(y, n))
    decreases n
  {
    if n > 0 {
      XorHalve(x / 2, y / 2, n - 1);
      assert Xor(x, y) / 2 == Xor(x / 2, y / 2);
    }
  }

  lemma {:induction false} XorBelow(x: nat, y: nat, n: nat)
    requires x < Pow2(n) && y < Pow2(n)
    ensures Xor(x, y) < Pow2(n)
    decreases n
  {
    if n > 0 {
      XorBelow(x / 2, y / 2, n - 1);
    }
  }

  /** Masking away the n low bits of a word leaves nothing iff only those bits were set. */
  lemma {:induction false} AndHighMask(x: nat, m: nat, n: nat)
    requires n <= m && x < Pow2(m)
    ensures Pow2(n) <= Pow2(m)
    ensures And(x, Pow2(m) - Pow2(n)) == 0 <==> Halve(x, n) == 0
    decreases m
  {
    if n == 0 {
      AndOnes(x, m);
    } else {
      AndHighMask(x / 2, m - 1, n - 1);
      assert (Pow2(m) - Pow2(n)) / 2 == Pow2(m - 1) - Pow2(n - 1);
      if x > 0 {
        assert (Pow2(m) - Pow2(n)) % 2 == 0;
      } else {
        AndHighMask(0, m - 1, n - 1);
      }
    }
  }

  lemma {:induction false} AndOnes(x: nat, m: nat)
    requires x < Pow2(m)
    ensures Pow2(m) >= 1
    ensures And(x, Pow2(m) - 1) == x
    decreases m
  {
    if m > 0 && x > 0 {
      AndOnes(x / 2, m - 1);
      assert (Pow2(m) - 1) / 2 == Pow2(m - 1) - 1;
    }
  }

  // ---- bits ----

  lemma {:induction false} BitsPrefix(x: nat, m: nat, n: nat)
    ensures Bits(x, m + n)[..m] == Bits(Halve(x, n), m)
    decreases n
  {
    if n > 0 {
      BitsPrefix(x / 2, m, n - 1);
    }
  }

  lemma {:induction false} BitsInjective(x: nat, y: nat, n: nat)
    requires x < Pow2(n) && y < Pow2(n)
    ensures Bits(x, n) == Bits(y, n) <==> x == y
    decreases n
  {
    if n > 0 {
      BitsInjective(x / 2, y / 2, n - 1);
      var a, b := Bits(x / 2, n - 1), Bits(y / 2, n - 1);
      assert Bits(x, n)[..n - 1] == a && Bits(y, n)[..n - 1] == b;
      assert Bits(x, n)[n - 1] == (x % 2 == 1) && Bits(y, n)[n - 1] == (y % 2 == 1);
    }
  }

  lemma {:induction false} BitsConstant(n: nat)
    ensures Bits(0, n) == Repeat(false, n)
    ensures Bits(Pow2(n) - 1, n) == Repeat(true, n)
  {
    if n > 0 {
      BitsConstant(n - 1);
      assert (Pow2(n) - 1) / 2 == Pow2(n - 1) - 1;
    }
  }

  lemma BitsByte(x: nat, b: Byte, n: nat)
    ensures Bits(256 * x + b, n + 8) == Bits(x, n) + Bits(b, 8)
  {
    BitsSum(x, b, n, 8);
    DoubleByte(x);
    Pow2Byte(0);
  }

  lemma {:induction false} BitsSum(x: nat, y: nat, n: nat, m: nat)
    requires y < Pow2(m)
    ensures Bits(Double(x, m) + y, n + m) == Bits(x, n) + Bits(y, m)
    decreases m
  {
    if m > 0 {
      BitsSum(x, y / 2, n, m - 1);
      assert (Double(x, m) + y) / 2 == Double(x, m - 1) + y / 2;
    }
  }

  // ---- bytes ----

  lemma {:induction false} FromBytesBelow(s: seq<Byte>)
    ensures FromBytes(s) < Pow2(8 * |s|)
  {
    if s != [] {
      var t := s[..|s| - 1];
      FromBytesBelow(t);
      Pow2Byte(8 * |t|);
    }
  }

  /** The bits of a big-endian value are the bits of its bytes. */
  lemma {:induction false} FromBytesBits(s: seq<Byte>)
    ensures Bits(FromBytes(s), 8 * |s|) == BytesBits(s)
  {
    if s != [] {
      var t := s[..|s| - 1];
      FromBytesBits(t);
      BitsByte(FromBytes(t), s[|s| - 1], 8 * |t|);
    }
  }

  lemma {:induction false} FromToBytes(x: nat, n: nat)
    requires x < Pow2(8 * n)
    ensures FromBytes(ToBytes(x, n)) == x
    decreases n
  {
    if n > 0 {
      Pow2Byte(8 * (n - 1));
      FromToBytes(x / 256, n - 1);
      assert ToBytes(x, n)[..n - 1] == ToBytes(x / 256, n - 1);
    }
  }

  /** Eight bytes hold a word, and back. */
  lemma WordBytes(x: U64)
    ensures FromBytes(ToBytes(x, 8)) == x
    ensures BytesBits(ToBytes(x, 8)) == Bits(x, 64)
  {
    PowerConstants();
    FromToBytes(x, 8);
    FromBytesBits(ToBytes(x, 8));
  }

  lemma WordValue(s: seq<Byte>)
    requires |s| == 8
    ensures FromBytes(s) < TWO_TO_THE_64
    ensures BytesBits(s) == Bits(FromBytes(s), 64)
  {
    PowerConstants();
    FromBytesBelow(s);
    FromBytesBits(s);
  }

  lemma {:induction false} BytesBitsPrefix(s: seq<Byte>, k: nat)
    requires k <= |s|
    ensures BytesBits(s[..k]) == BytesBits(s)[..8 * k]
    decreases |s|
  {
    if k < |s| {
      BytesBitsPrefix(s[..|s| - 1], k);
      assert s[..|s| - 1][..k] == s[..k];
    } else {
      assert s[..k] == s;
    }
  }

  // ---- order ----

  /** Comparing strings compares prefixes of one length first, then the rest. */
  lemma {:induction false} LexConcat(a: seq<Byte>, a': seq<Byte>, b: seq<Byte>, b': seq<Byte>)
    requires |a| == |b|
    ensures LexLeq(a + a', b + b') <==> (LexLeq(a, b) && a != b) || (a == b && LexLeq(a', b'))
  {
    if a == [] {
      assert a + a' == a' && b + b' == b';
    } else {
      assert (a + a')[1..] == a[1..] + a' && (b + b')[1..] == b[1..] + b';
      LexConcat(a[1..], a', b[1..], b');
      assert a == [a[0]] + a[1..] && b == [b[0]] + b[1..];
    }
  }

  /** On strings of one length the order is that of their big-endian values. */
  lemma {:induction false} LexValues(a: seq<Byte>, b: seq<Byte>)
    requires |a| == |b|
    ensures LexLeq(a, b) <==> FromBytes(a) <= FromBytes(b)
    ensures a == b <==> FromBytes(a) == FromBytes(b)
  {
    if a != [] {
      var n := |a| - 1;
      LexValues(a[..n], b[..n]);
      LexConcat(a[..n], [a[n]], b[..n], [b[n]]);
      assert a == a[..n] + [a[n]] && b == b[..n] + [b[n]];
    }
  }

  lemma {:induction false} LexOrder(a: seq<Byte>, b: seq<Byte>, c: seq<Byte>)
    ensures LexLeq(a, a)
    ensures LexLeq(a, b) || LexLeq(b, a)
    ensures LexLeq(a, b) && LexLeq(b, a) ==> a == b
    ensures LexLeq(a, b) && LexLeq(b, c) ==> LexLeq(a, c)
  {
    if a != [] && b != [] && c != [] {
      LexOrder(a[1..], b[1..], c[1..]);
      assert a == [a[0]] + a[1..] && b == [b[0]] + b[1..];
    } else if a != [] && b != [] {
      LexOrder(a[1..], b[1..], []);
      assert a == [a[0]] + a[1..] && b == [b[0]] + b[1..];
    } else if a != [] {
      LexOrder(a[1..], [], []);
    }
  }

  /** A set of strings has a first one. */
  lemma {:induction false} LexFirst(strings: set<seq<Byte>>) returns (first: seq<Byte>)
    requires strings != {}
    ensures first in strings && forall s :: s in strings ==> LexLeq(first, s)
  {
    var some :| some in strings;
    first := some;
    LexOrder(some, some, some);
    var rest := strings - {some};
    if rest != {} {
      var next := LexFirst(rest);
      LexOrder(some, next, some);
      first := if LexLeq(some, next) then some else next;
      forall s | s in rest
        ensures LexLeq(first, s)
      {
        LexOrder(first, next, s);
      }
    }
    assert strings == rest + {some};
  }
}
