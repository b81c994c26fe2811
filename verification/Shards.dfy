/** Shard identifiers and the three tests for an account belonging to a shard. */
module Shards {
  import opened Words

  const SHARD_FULL: U64 := TOP_BIT
  const MAX_SPLIT_DEPTH: nat := 60

  type Tagged = p: U64 | p > 0 witness SHARD_FULL
  type Account = a: seq<Byte> | |a| == 32 witness seq(32, _ => 0)

  /** A prefix of account bits, kept as a word whose lowest set bit marks the end of the prefix. */
  datatype ShardIdent = ShardIdent(workchain: int, prefix: Tagged) {

    predicate IsFull() {
      prefix == SHARD_FULL
    }

    /** The prefix proper, without its tag. */
    function Path(): (path: seq<bool>)
      ensures |path| < 64
    {
      Untag(prefix, 64)
    }

    function PrefixLen(): nat {
      |Path()|
    }

    /** Both halves of the shard, unless they would be deeper than allowed. */
    function Split(): (halves: Halves)
      ensures halves.Halves? <==> PrefixLen() < MAX_SPLIT_DEPTH
      ensures halves.Halves? ==>
                && halves.left.workchain == workchain && halves.right.workchain == workchain
                && halves.left.Path() == Path() + [false]
                && halves.right.Path() == Path() + [true]
    {
      if PrefixLen() < MAX_SPLIT_DEPTH then
        SplitPaths(this);
        var half := LowestBit(prefix) / 2;
        Halves(ShardIdent(workchain, prefix - half), ShardIdent(workchain, prefix + half))
      else
        TooDeep
    }
  }

  datatype Halves = Halves(left: ShardIdent, right: ShardIdent) | TooDeep

  /** The bits of a w-bit number above its lowest set bit. */
  function Untag(p: nat, w: nat): (path: seq<bool>)
    requires p > 0 && w > 0
    ensures |path| < w
    decreases p, w
  {
    if p % 2 == 1 || w == 1 then Bits(p / 2, w - 1) else Untag(p / 2, w - 1)
  }

  function LowestBit(p: nat): (b: nat)
    requires p > 0
    ensures 0 < b <= p
  {
    if p % 2 == 1 then 1 else 2 * LowestBit(p / 2)
  }

  function AccountBits(account: Account): seq<bool> {
    BytesBits(account)
  }

  /** Membership: the shard's prefix is a prefix of the account's bits. */
  predicate InShard(shard: ShardIdent, account: Account) {
    shard.Path() <= AccountBits(account)
  }

  // ---- the tagged word ----

  /** The number whose bits are the path. */
  function PathValue(p: nat): nat
    requires p > 0
  {
    if p % 2 == 1 then p / 2 else PathValue(p / 2)
  }

  lemma {:induction false} TagForm(p: nat, w: nat)
    requires w > 0 && 0 < p < Pow2(w)
    ensures var n, v := |Untag(p, w)|, PathValue(p);
            && v < Pow2(n) && Bits(v, n) == Untag(p, w)
            && LowestBit(p) == Pow2(w - 1 - n)
            && p == Double(2 * v + 1, w - 1 - n) == Double(v, w - n) + Pow2(w - 1 - n)
    decreases w
  {
    if p % 2 == 1 {
      assert Double(p / 2, 1) == 2 * (p / 2);
    } else {
      TagForm(p / 2, w - 1);
    }
  }

  /** A shard's word is its path, the tag and zeros. */
  lemma Tag(s: ShardIdent)
    ensures var n, v := s.PrefixLen(), PathValue(s.prefix);
            && v < Pow2(n) && Bits(v, n) == s.Path()
            && LowestBit(s.prefix) == Pow2(63 - n)
            && s.prefix == Double(2 * v + 1, 63 - n) == Double(v, 64 - n) + Pow2(63 - n)
  {
    PowerConstants();
    TagForm(s.prefix, 64);
  }

  lemma WordOf(v: nat, n: nat)
    requires n < 64 && v < Pow2(n)
    ensures 0 < Double(2 * v + 1, 63 - n) < TWO_TO_THE_64
    ensures Untag(Double(2 * v + 1, 63 - n), 64) == Bits(v, n)
  {
    PowerConstants();
    UntagOf(v, n, 64);
  }

  /** Distinct words of one workchain have distinct paths. */
  lemma PathInjective(s: ShardIdent, t: ShardIdent)
    requires s.Path() == t.Path()
    ensures s.prefix == t.prefix
  {
    Tag(s);
    Tag(t);
    BitsInjective(PathValue(s.prefix), PathValue(t.prefix), s.PrefixLen());
  }

  lemma {:induction false} UntagOf(v: nat, n: nat, w: nat)
    requires n < w && v < Pow2(n)
    ensures 0 < Double(2 * v + 1, w - 1 - n) < Pow2(w)
    ensures Untag(Double(2 * v + 1, w - 1 - n), w) == Bits(v, n)
    decreases w
  {
    if n < w - 1 {
      UntagOf(v, n, w - 1);
    }
  }

  lemma SplitPaths(s: ShardIdent)
    requires s.PrefixLen() < MAX_SPLIT_DEPTH
    ensures var half := LowestBit(s.prefix) / 2;
            && 0 < s.prefix - half && s.prefix + half < TWO_TO_THE_64
            && ShardIdent(s.workchain, s.prefix - half).Path() == s.Path() + [false]
            && ShardIdent(s.workchain, s.prefix + half).Path() == s.Path() + [true]
  {
    var n, v := s.PrefixLen(), PathValue(s.prefix);
    Tag(s);
    WordOf(2 * v, n + 1);
    WordOf(2 * v + 1, n + 1);
    HalfWord(v, 62 - n);
    assert Bits(2 * v, n + 1) == Bits(v, n) + [false];
    assert Bits(2 * v + 1, n + 1) == Bits(v, n) + [true];
  }

  /** Moving the tag down by half its weight either way appends a bit. */
  lemma {:induction false} HalfWord(v: nat, m: nat)
    ensures Pow2(m + 1) / 2 == Pow2(m)
    ensures Double(4 * v + 1, m) == Double(2 * v + 1, m + 1) - Pow2(m)
    ensures Double(4 * v + 3, m) == Double(2 * v + 1, m + 1) + Pow2(m)
    decreases m
  {
    if m > 0 {
      HalfWord(v, m - 1);
    }
  }

  /** A word lies between the bounds of a prefix iff it starts with the prefix. */
  lemma {:induction false} BetweenBounds(x: nat, v: nat, n: nat)
    ensures Double(v, n) <= x < Double(v, n) + Pow2(n) <==> Halve(x, n) == v
    decreases n
  {
    if n > 0 {
      BetweenBounds(x / 2, v, n - 1);
    }
  }

  /** Having a shard's path as a prefix is having its value on top. */
  lemma PrefixValue(shard: ShardIdent, x: U64)
    ensures shard.Path() <= Bits(x, 64) <==> Halve(x, 64 - shard.PrefixLen()) == PathValue(shard.prefix)
  {
    var n := shard.PrefixLen();
    Tag(shard);
    BitsPrefix(x, n, 64 - n);
    PowerConstants();
    HalveLess(x, n, 64 - n);
    BitsInjective(Halve(x, 64 - n), PathValue(shard.prefix), n);
  }

  /** The first eight bytes decide membership. */
  lemma LeadingWord(shard: ShardIdent, account: Account)
    ensures FromBytes(account[..8]) < TWO_TO_THE_64
    ensures InShard(shard, account) <==>
            Halve(FromBytes(account[..8]), 64 - shard.PrefixLen()) == PathValue(shard.prefix)
  {
    WordValue(account[..8]);
    BytesBitsPrefix(account, 8);
    PrefixValue(shard, FromBytes(account[..8]));
  }

  // ---- the prefix compare: contains_account ----

  /** The account's leading word with all but its len leading bits cleared. */
  function LeadingPart(account: Account, len: nat): nat
    requires len <= 64
  {
    Double(Halve(FromBytes(account[..8]), 64 - len), 64 - len)
  }

  method AccountPrefix(account: Account, len: nat) returns (value: U64)
    requires len <= 64
    ensures value == LeadingPart(account, len)
  {
    value := 0;
    var bytes := len / 8;
    var i := 0;
    assert account[..0] == [];
    DoubleZero(64);
    while i < bytes
      invariant i <= bytes
      invariant value == Double(FromBytes(account[..i]), 64 - 8 * i)
    {
      AppendByte(account, i);
      value := Or(value, Shl(account[i], 8 * (7 - i)));
      i := i + 1;
    }
    var remainder := len % 8;
    if remainder > 0 {
      AppendBits(account, bytes, remainder);
      var r := Shr(account[bytes], 8 - remainder);
      value := Or(value, Shl(r, 8 * (7 - bytes) + 8 - remainder));
    } else {
      HalveWord(account, bytes);
    }
  }

  /** The prefix word holds the account's leading bits and zeros below them. */
  lemma LeadingPartBits(account: Account, len: nat)
    requires len <= 64
    ensures Bits(LeadingPart(account, len), 64) == AccountBits(account)[..len] + Repeat(false, 64 - len)
  {
    var k, m := FromBytes(account[..8]), 64 - len;
    BitsSum(Halve(k, m), 0, len, m);
    BitsConstant(m);
    BitsPrefix(k, len, m);
    FromBytesBits(account[..8]);
    BytesBitsPrefix(account, 8);
    assert AccountBits(account)[..64][..len] == AccountBits(account)[..len];
  }

  lemma {:induction false} DoubleZero(n: nat)
    ensures Double(0, n) == 0
  {
    if n > 0 {
      DoubleZero(n - 1);
    }
  }

  /** A left shift that stays within the word loses nothing. */
  lemma ShlExact(x: nat, n: nat, m: nat)
    requires x < Pow2(n) && n + m <= 64
    ensures x < TWO_TO_THE_64
    ensures Shl(x, m) == Double(x, m) < TWO_TO_THE_64
  {
    PowerConstants();
    DoubleBelow(x, n, m);
    Pow2Mono(n + m, 64);
    Pow2Mono(n, 64);
  }

  /** Or-ing byte i in below the bytes before it. */
  lemma AppendByte(account: Account, i: nat)
    requires i < 8
    ensures Shl(account[i], 8 * (7 - i)) == Double(account[i], 8 * (7 - i))
    ensures Or(Double(FromBytes(account[..i]), 64 - 8 * i), Double(account[i], 8 * (7 - i)))
         == Double(FromBytes(account[..i + 1]), 64 - 8 * (i + 1)) < TWO_TO_THE_64
  {
    var f, b, m := FromBytes(account[..i]), account[i], 8 * (7 - i);
    Pow2Byte(0);
    OrBelow(f, b, 8, m);
    DoubleByte(f);
    assert account[..i + 1] == account[..i] + [b];
    FromBytesBelow(account[..i + 1]);
    ShlExact(FromBytes(account[..i + 1]), 8 * (i + 1), m);
    ShlExact(b, 8, m);
  }

  lemma OrBelow(x: nat, y: nat, k: nat, m: nat)
    requires y < Pow2(k)
    ensures Or(Double(x, k + m), Double(y, m)) == Double(Double(x, k) + y, m)
  {
    DoubleAdd(x, k, m);
    OrShift(Double(x, k), y, m);
    OrDisjoint(x, y, k);
  }

  lemma {:induction false} Pow2Mono(m: nat, n: nat)
    requires m <= n
    ensures Pow2(m) <= Pow2(n)
  {
    if m < n {
      Pow2Mono(m, n - 1);
    }
  }

  /** Or-ing the leading k bits of byte i in below the bytes before it. */
  lemma AppendBits(account: Account, i: nat, k: nat)
    requires i < 8 && 0 < k < 8
    ensures Halve(account[i], 8 - k) <= account[i]
    ensures var r, m := Halve(account[i], 8 - k), 64 - 8 * i - k;
            && Shl(r, m) == Double(r, m)
            && Or(Double(FromBytes(account[..i]), 64 - 8 * i), Double(r, m)) == Double(Halve(FromBytes(account[..8]), m), m) < TWO_TO_THE_64
  {
    var f, b, r := FromBytes(account[..i]), account[i], Halve(account[i], 8 - k);
    HalveBelow(b, 8 - k);
    Pow2Byte(0);
    HalveLess(b, k, 8 - k);
    FromBytesBelow(account[..i]);
    JoinBelow(f, r, 8 * i, k);
    LeadingBits(account, i, k);
  }

  /** Or-ing k bits in below n bits at the top of a word. */
  lemma JoinBelow(f: nat, r: nat, n: nat, k: nat)
    requires f < Pow2(n) && r < Pow2(k) && n + k <= 64
    ensures var m := 64 - n - k;
            && r < TWO_TO_THE_64 && Shl(r, m) == Double(r, m)
            && Or(Double(f, 64 - n), Double(r, m)) == Double(Double(f, k) + r, m) < TWO_TO_THE_64
  {
    var m := 64 - n - k;
    ShlExact(r, k, m);
    OrBelow(f, r, k, m);
    DoubleBelow(f, n, k);
    ShlExact(Double(f, k) + r, n + k, m);
  }

  /** The leading 8i + k bits of an account are i bytes and k bits of the next. */
  lemma LeadingBits(account: Account, i: nat, k: nat)
    requires i < 8 && 0 < k <= 8
    ensures Halve(FromBytes(account[..8]), 64 - 8 * i - k) == Double(FromBytes(account[..i]), k) + Halve(account[i], 8 - k)
  {
    HalveWord(account, i + 1);
    HalveAdd(FromBytes(account[..8]), 64 - 8 * (i + 1), 8 - k);
    assert account[..i + 1] == account[..i] + [account[i]];
    HalveSplit(FromBytes(account[..i]), account[i], k);
  }

  lemma HalveSplit(f: nat, b: Byte, k: nat)
    requires k <= 8
    ensures Halve(256 * f + b, 8 - k) == Double(f, k) + Halve(b, 8 - k)
  {
    var q := Halve(b, 8 - k);
    BetweenBounds(b, q, 8 - k);
    DoubleAdd(f, k, 8 - k);
    DoubleByte(f);
    DoubleSum(Double(f, k), q, 8 - k);
    HalveSum(Double(f, k) + q, b - Double(q, 8 - k), 8 - k);
  }

  lemma {:induction false} DoubleSum(x: nat, y: nat, n: nat)
    ensures Double(x + y, n) == Double(x, n) + Double(y, n)
    decreases n
  {
    if n > 0 {
      DoubleSum(x, y, n - 1);
    }
  }

  /** Dropping the low bytes of the leading word leaves the bytes before them. */
  lemma {:induction false} HalveWord(account: Account, i: nat)
    requires i <= 8
    ensures Halve(FromBytes(account[..8]), 64 - 8 * i) == FromBytes(account[..i])
    ensures Double(FromBytes(account[..i]), 64 - 8 * i) == Double(Halve(FromBytes(account[..8]), 64 - 8 * i), 64 - 8 * i)
    decreases 8 - i
  {
    if i < 8 {
      HalveWord(account, i + 1);
      HalveAdd(FromBytes(account[..8]), 64 - 8 * (i + 1), 8);
      var f := FromBytes(account[..i]);
      assert account[..i + 1] == account[..i] + [account[i]];
      DoubleByte(f);
      Pow2Byte(0);
      HalveSum(f, account[i], 8);
    }
  }

  method ContainsAccount(shard: ShardIdent, account: Account) returns (contains: bool)
    ensures contains <==> InShard(shard, account)
  {
    FullPath(shard);
    if shard.prefix == SHARD_FULL {
      contains := true;
    } else {
      var len := shard.PrefixLen();
      var prefix := AccountPrefix(account, len);
      var accountPrefix := Shr(prefix, 64 - len);
      var shardPrefix := Shr(shard.prefix, 64 - len);
      contains := accountPrefix == shardPrefix;
      HalveSum(Halve(FromBytes(account[..8]), 64 - len), 0, 64 - len);
      LeadingWord(shard, account);
      Tag(shard);
      BetweenBounds(shard.prefix, PathValue(shard.prefix), 64 - len);
    }
  }

  lemma FullPath(shard: ShardIdent)
    ensures shard.IsFull() <==> shard.Path() == []
  {
    Tag(shard);
    var n := shard.PrefixLen();
    PowerLowestBit(63);
    TopPower(63);
    if n > 0 {
      Pow2Mono(63 - n + 1, 63);
    } else {
      DoubleZero(64);
    }
  }

  lemma TopPower(n: nat)
    requires n == 63
    ensures Pow2(n) == SHARD_FULL
  {
    PowerConstants();
  }

  lemma {:induction false} PowerLowestBit(n: nat)
    ensures LowestBit(Pow2(n)) == Pow2(n)
  {
    if n > 0 {
      PowerLowestBit(n - 1);
    }
  }

  lemma {:induction false} DoubleOne(n: nat)
    ensures Double(1, n) == Pow2(n)
  {
    if n > 0 {
      DoubleOne(n - 1);
    }
  }

  // ---- the mask test: remove_code_hashes ----

  /** The test of the leading word of a key against a prefix and its low bits. */
  predicate MaskTest(shard: ShardIdent, key: U64) {
    var lowerBits := LowestBit(shard.prefix);
    var prefix := shard.prefix - lowerBits;
    MaskBound(shard);
    And(Xor(key, prefix), Not(Or(lowerBits, lowerBits - 1))) == 0
  }

  lemma MaskBound(shard: ShardIdent)
    ensures var lb := LowestBit(shard.prefix);
            Or(lb, lb - 1) == Pow2(64 - shard.PrefixLen()) - 1 < TWO_TO_THE_64
    ensures LowestBit(shard.prefix) >= 1
  {
    Tag(shard);
    MaskOfBit(63 - shard.PrefixLen());
  }

  lemma MaskOfBit(m: nat)
    requires m < 64
    ensures Or(Pow2(m), Pow2(m) - 1) == Pow2(m + 1) - 1 < TWO_TO_THE_64
  {
    PowerConstants();
    DoubleOne(m);
    OrDisjoint(1, Pow2(m) - 1, m);
    Pow2Mono(m + 1, 64);
  }

  lemma MaskTestIsMembership(shard: ShardIdent, account: Account)
    ensures FromBytes(account[..8]) < TWO_TO_THE_64
    ensures MaskTest(shard, FromBytes(account[..8])) <==> InShard(shard, account)
  {
    LeadingWord(shard, account);
    MaskBound(shard);
    Tag(shard);
    HighBitsAgree(FromBytes(account[..8]), PathValue(shard.prefix), 64 - shard.PrefixLen());
  }

  /** Xor and mask compare the bits above m. */
  lemma HighBitsAgree(key: U64, v: nat, m: nat)
    requires m <= 64 && Double(v, m) < TWO_TO_THE_64 && Pow2(m) <= TWO_TO_THE_64
    ensures And(Xor(key, Double(v, m)), Not(Pow2(m) - 1)) == 0 <==> Halve(key, m) == v
  {
    PowerConstants();
    var x := Xor(key, Double(v, m));
    XorBelow(key, Double(v, m), 64);
    AndHighMask(x, 64, m);
    XorHalve(key, Double(v, m), m);
    HalveSum(v, 0, m);
    XorZero(Halve(key, m), v);
  }

  // ---- the key range: extend_account_prefix ----

  /** Fills target with the least or the greatest account of the shard. */
  method ExtendAccountPrefix(shard: ShardIdent, max: bool, target: array<Byte>)
    requires target.Length == 32
    modifies target
    ensures target[..] == AccountBound(shard, max)
  {
    var prefix: nat := shard.prefix;
    BoundIsPadded(shard);
    if max {
      prefix := Or(prefix, prefix - 1);
    } else {
      prefix := prefix - LowestBit(prefix);
    }
    var head := ToBytes(prefix, 8);
    var i := 0;
    while i < 8
      invariant i <= 8
      invariant target[..i] == head[..i]
    {
      target[i] := head[i];
      i := i + 1;
    }
    var fill: Byte := if max then 0xff else 0;
    while i < 32
      invariant 8 <= i <= 32
      invariant target[..8] == head
      invariant forall j :: 8 <= j < i ==> target[j] == fill
    {
      target[i] := fill;
      i := i + 1;
    }
    assert target[..] == head + seq(24, _ => fill);
  }

  /** The shard's path followed by zeros or by ones, as an account. */
  function AccountBound(shard: ShardIdent, max: bool): Account {
    ToBytes(PaddedPrefix(shard, max), 8) + seq(24, _ => if max then 0xff else 0)
  }

  lemma AccountBoundBits(shard: ShardIdent, max: bool)
    ensures AccountBits(AccountBound(shard, max)) == shard.Path() + Repeat(max, 256 - shard.PrefixLen())
  {
    PaddedBits(shard, max);
    WordBytes(PaddedPrefix(shard, max));
    var bound := AccountBound(shard, max);
    assert bound[..8] == ToBytes(PaddedPrefix(shard, max), 8);
    FilledBits(bound, max);
  }

  /** The bound's word: the path followed by ones or by zeros. */
  function PaddedPrefix(shard: ShardIdent, max: bool): nat {
    var m := 64 - shard.PrefixLen();
    Double(PathValue(shard.prefix), m) + if max then Pow2(m) - 1 else 0
  }

  lemma BoundIsPadded(shard: ShardIdent)
    ensures Or(shard.prefix, shard.prefix - 1) == PaddedPrefix(shard, true)
    ensures shard.prefix - LowestBit(shard.prefix) == PaddedPrefix(shard, false)
  {
    Tag(shard);
    OrDecrement(PathValue(shard.prefix), 63 - shard.PrefixLen());
  }

  lemma PaddedBits(shard: ShardIdent, max: bool)
    ensures PaddedPrefix(shard, max) < TWO_TO_THE_64
    ensures Bits(PaddedPrefix(shard, max), 64) == shard.Path() + Repeat(max, 64 - shard.PrefixLen())
  {
    Tag(shard);
    PaddedWord(PathValue(shard.prefix), shard.PrefixLen(), max);
  }

  lemma PaddedWord(v: nat, n: nat, max: bool)
    requires n <= 64 && v < Pow2(n)
    ensures var x := Double(v, 64 - n) + (if max then Pow2(64 - n) - 1 else 0);
            x < TWO_TO_THE_64 && Bits(x, 64) == Bits(v, n) + Repeat(max, 64 - n)
  {
    var m := 64 - n;
    DoubleBelow(v, n, m);
    PowerConstants();
    BitsSum(v, if max then Pow2(m) - 1 else 0, n, m);
    BitsConstant(m);
  }

  /** Or with the predecessor sets every bit below the tag. */
  lemma {:induction false} OrDecrement(v: nat, m: nat)
    ensures Double(2 * v + 1, m) >= 1
    ensures Or(Double(2 * v + 1, m), Double(2 * v + 1, m) - 1) == Double(v, m + 1) + Pow2(m + 1) - 1
    decreases m
  {
    if m == 0 {
      assert Or(2 * v + 1, 2 * v) == 2 * Or(v, v) + 1;
      OrSame(v);
    } else {
      OrDecrement(v, m - 1);
      var x := Double(2 * v + 1, m - 1);
      assert (2 * x - 1) / 2 == x - 1;
    }
  }

  lemma {:induction false} OrSame(x: nat)
    ensures Or(x, x) == x
  {
    if x > 0 {
      OrSame(x / 2);
    }
  }

  lemma {:induction false} FilledBits(s: seq<Byte>, max: bool)
    requires |s| >= 8 && forall j :: 8 <= j < |s| ==> s[j] == if max then 0xff else 0
    ensures BytesBits(s) == BytesBits(s[..8]) + Repeat(max, 8 * (|s| - 8))
  {
    if |s| == 8 {
      assert s[..8] == s;
    } else {
      var t := s[..|s| - 1];
      FilledBits(t, max);
      assert t[..8] == s[..8];
      PowerConstants();
      BitsConstant(8);
    }
  }

  /** Keys between the two bounds, inclusively, are those of the shard's accounts. */
  lemma KeyRangeIsMembership(shard: ShardIdent, account: Account)
    ensures LexLeq(AccountBound(shard, false), account) && LexLeq(account, AccountBound(shard, true)) <==> InShard(shard, account)
  {
    BoundCompare(shard, account);
    LeadingWord(shard, account);
    BetweenBounds(FromBytes(account[..8]), PathValue(shard.prefix), 64 - shard.PrefixLen());
  }

  /** Against a bound only the leading word of an account counts. */
  lemma BoundCompare(shard: ShardIdent, account: Account)
    ensures LexLeq(AccountBound(shard, false), account) <==> PaddedPrefix(shard, false) <= FromBytes(account[..8])
    ensures LexLeq(account, AccountBound(shard, true)) <==> FromBytes(account[..8]) <= PaddedPrefix(shard, true)
  {
    PaddedBits(shard, false);
    PaddedBits(shard, true);
    WordBytes(PaddedPrefix(shard, false));
    WordBytes(PaddedPrefix(shard, true));
    var from, to := ToBytes(PaddedPrefix(shard, false), 8), ToBytes(PaddedPrefix(shard, true), 8);
    var low, high: seq<Byte> := seq(24, _ => 0), seq(24, _ => 0xff);
    assert account == account[..8] + account[8..];
    assert AccountBound(shard, false) == from + low && AccountBound(shard, true) == to + high;
    LexConcat(from, low, account[..8], account[8..]);
    LexConcat(account[..8], account[8..], to, high);
    LexExtremes(low, account[8..], high);
    LexValues(from, account[..8]);
    LexValues(account[..8], to);
  }

  lemma {:induction false} LexExtremes(low: seq<Byte>, s: seq<Byte>, high: seq<Byte>)
    requires |low| == |s| == |high|
    requires forall j :: 0 <= j < |s| ==> low[j] == 0 && high[j] == 0xff
    ensures LexLeq(low, s) && LexLeq(s, high)
  {
    if s != [] {
      LexExtremes(low[1..], s[1..], high[1..]);
    }
  }

  // ---- relations between shards ----

  /** No account belongs to both shards. */
  predicate Disjoint(s: ShardIdent, t: ShardIdent) {
    !(s.Path() <= t.Path()) && !(t.Path() <= s.Path())
  }

  lemma PrefixesNest(a: seq<bool>, b: seq<bool>, bits: seq<bool>)
    requires a <= bits && b <= bits && |a| <= |b|
    ensures a <= b
  {
    assert a == bits[..|a|] == bits[..|b|][..|a|];
  }

  lemma DisjointAccounts(s: ShardIdent, t: ShardIdent, account: Account)
    requires Disjoint(s, t)
    ensures !(InShard(s, account) && InShard(t, account))
  {
    if InShard(s, account) && InShard(t, account) {
      if s.PrefixLen() <= t.PrefixLen() {
        PrefixesNest(s.Path(), t.Path(), AccountBits(account));
      } else {
        PrefixesNest(t.Path(), s.Path(), AccountBits(account));
      }
    }
  }

  /** Each account of a shard lies in exactly one of its halves. */
  lemma HalvesPartition(s: ShardIdent, account: Account)
    requires s.Split().Halves?
    ensures var h := s.Split();
            && (InShard(s, account) <==> InShard(h.left, account) || InShard(h.right, account))
            && !(InShard(h.left, account) && InShard(h.right, account))
  {
    var bits, path, n := AccountBits(account), s.Path(), s.PrefixLen();
    assert bits[..n + 1] == bits[..n] + [bits[n]];
    forall b: bool ensures path + [b] <= bits <==> path <= bits && bits[n] == b {
      assert path + [b] <= bits <==> path + [b] == bits[..n + 1];
    }
  }
}
