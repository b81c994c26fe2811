/** Splitting a shard's accounts into virtual shards of a given depth. */
module VirtualShards {
  import opened Words
  import opened Wrappers
  import opened Shards

  type Accounts<V> = map<Account, V>

  /** The shards depth levels below ident. */
  function Leaves(ident: ShardIdent, depth: nat): set<ShardIdent>
    requires depth == 0 || ident.PrefixLen() + depth <= MAX_SPLIT_DEPTH
    decreases depth
  {
    if depth == 0 then {ident} else
      var halves := ident.Split();
      Leaves(halves.left, depth - 1) + Leaves(halves.right, depth - 1)
  }

  /** The accounts that belong to a shard. */
  function Restrict<V>(accounts: Accounts<V>, shard: ShardIdent): (part: Accounts<V>)
    ensures part.Keys <= accounts.Keys
  {
    map account | account in accounts && InShard(shard, account) :: accounts[account]
  }

  function Split<V>(ident: ShardIdent, accounts: Accounts<V>, depth: nat): map<ShardIdent, Accounts<V>>
    requires depth == 0 || ident.PrefixLen() + depth <= MAX_SPLIT_DEPTH
  {
    map leaf | leaf in Leaves(ident, depth) :: Restrict(accounts, leaf)
  }

  /** Adds the virtual shards of ident to shards; fails when ident cannot be split that deep. */
  method SplitShard<V>(ident: ShardIdent, accounts: Accounts<V>, depth: nat, shards: map<ShardIdent, Accounts<V>>)
    returns (result: Option<map<ShardIdent, Accounts<V>>>)
    requires forall account :: account in accounts ==> InShard(ident, account)
    ensures result.Some? <==> depth == 0 || ident.PrefixLen() + depth <= MAX_SPLIT_DEPTH
    ensures result.Some? ==> result.value == shards + Split(ident, accounts, depth)
    decreases depth
  {
    if depth == 0 {
      assert Restrict(accounts, ident) == accounts;
      return Some(shards[ident := accounts]);
    }
    var halves := ident.Split();
    if halves.TooDeep? {
      return None;
    }
    var left, right := Restrict(accounts, halves.left), Restrict(accounts, halves.right);
    var half := SplitShard(halves.left, left, depth - 1, shards);
    if half.None? {
      return None;
    }
    result := SplitShard(halves.right, right, depth - 1, half.value);
    if result.Some? {
      SplitJoins(ident, accounts, depth, shards);
    }
  }

  /** A leaf takes the same accounts from a half as from the whole. */
  lemma RestrictLeaves<V>(ident: ShardIdent, accounts: Accounts<V>, depth: nat)
    requires depth > 0 && ident.PrefixLen() + depth <= MAX_SPLIT_DEPTH
    ensures var halves := ident.Split();
            && (forall leaf :: leaf in Leaves(halves.left, depth - 1) ==>
                  Restrict(Restrict(accounts, halves.left), leaf) == Restrict(accounts, leaf))
            && (forall leaf :: leaf in Leaves(halves.right, depth - 1) ==>
                  Restrict(Restrict(accounts, halves.right), leaf) == Restrict(accounts, leaf))
  {
    var halves := ident.Split();
    forall leaf | leaf in Leaves(halves.left, depth - 1)
      ensures Restrict(Restrict(accounts, halves.left), leaf) == Restrict(accounts, leaf)
    {
      LeafPath(halves.left, depth - 1, leaf);
      RestrictNested(accounts, halves.left, leaf);
    }
    forall leaf | leaf in Leaves(halves.right, depth - 1)
      ensures Restrict(Restrict(accounts, halves.right), leaf) == Restrict(accounts, leaf)
    {
      LeafPath(halves.right, depth - 1, leaf);
      RestrictNested(accounts, halves.right, leaf);
    }
  }

  /** Splitting the halves splits the whole. */
  lemma SplitJoins<V>(ident: ShardIdent, accounts: Accounts<V>, depth: nat, shards: map<ShardIdent, Accounts<V>>)
    requires depth > 0 && ident.PrefixLen() + depth <= MAX_SPLIT_DEPTH
    ensures var halves := ident.Split();
            shards + Split(ident, accounts, depth)
              == shards + Split(halves.left, Restrict(accounts, halves.left), depth - 1)
               + Split(halves.right, Restrict(accounts, halves.right), depth - 1)
  {
    RestrictLeaves(ident, accounts, depth);
  }

  lemma RestrictNested<V>(accounts: Accounts<V>, outer: ShardIdent, inner: ShardIdent)
    requires outer.Path() <= inner.Path()
    ensures Restrict(Restrict(accounts, outer), inner) == Restrict(accounts, inner)
  {
    forall account | account in accounts && InShard(inner, account) ensures InShard(outer, account) {
      PrefixTrans(outer.Path(), inner.Path(), AccountBits(account));
    }
  }

  lemma PrefixTrans(a: seq<bool>, b: seq<bool>, c: seq<bool>)
    requires a <= b <= c
    ensures a <= c
  {
  }

  lemma {:induction false} LeafPath(ident: ShardIdent, depth: nat, leaf: ShardIdent)
    requires depth == 0 || ident.PrefixLen() + depth <= MAX_SPLIT_DEPTH
    requires leaf in Leaves(ident, depth)
    ensures leaf.workchain == ident.workchain
    ensures ident.Path() <= leaf.Path() && leaf.PrefixLen() == ident.PrefixLen() + depth
    decreases depth
  {
    if depth > 0 {
      var halves := ident.Split();
      if leaf in Leaves(halves.left, depth - 1) {
        LeafPath(halves.left, depth - 1, leaf);
        PrefixTrans(ident.Path(), halves.left.Path(), leaf.Path());
      } else {
        LeafPath(halves.right, depth - 1, leaf);
        PrefixTrans(ident.Path(), halves.right.Path(), leaf.Path());
      }
    }
  }

  /** The leaves are exactly the shards that many bits below ident. */
  lemma {:induction false} LeavesExactly(ident: ShardIdent, depth: nat, shard: ShardIdent)
    requires depth == 0 || ident.PrefixLen() + depth <= MAX_SPLIT_DEPTH
    ensures shard in Leaves(ident, depth) <==>
            && shard.workchain == ident.workchain
            && ident.Path() <= shard.Path() && shard.PrefixLen() == ident.PrefixLen() + depth
    decreases depth
  {
    if shard in Leaves(ident, depth) {
      LeafPath(ident, depth, shard);
    } else if shard.workchain == ident.workchain && ident.Path() <= shard.Path()
              && shard.PrefixLen() == ident.PrefixLen() + depth {
      if depth == 0 {
        PathInjective(ident, shard);
      } else {
        var half := HalfAbove(ident, shard);
        LeavesExactly(half, depth - 1, shard);
      }
    }
  }

  /** The half on the way down to a shard. */
  lemma HalfAbove(ident: ShardIdent, shard: ShardIdent) returns (half: ShardIdent)
    requires ident.PrefixLen() < MAX_SPLIT_DEPTH && shard.workchain == ident.workchain
    requires ident.Path() <= shard.Path() && ident.PrefixLen() < shard.PrefixLen()
    ensures half == ident.Split().left || half == ident.Split().right
    ensures half.workchain == shard.workchain && half.Path() <= shard.Path() && half.PrefixLen() == ident.PrefixLen() + 1
  {
    var n := ident.PrefixLen();
    half := if shard.Path()[n] then ident.Split().right else ident.Split().left;
    assert shard.Path()[..n + 1] == shard.Path()[..n] + [shard.Path()[n]] == half.Path();
  }

  /** Every account of the parent lies in exactly one leaf, and no other account in any. */
  lemma LeavesPartition(ident: ShardIdent, depth: nat, account: Account)
    requires depth == 0 || ident.PrefixLen() + depth <= MAX_SPLIT_DEPTH
    ensures InShard(ident, account) <==> exists leaf :: leaf in Leaves(ident, depth) && InShard(leaf, account)
    ensures forall s, t :: s in Leaves(ident, depth) && t in Leaves(ident, depth) ==>
              InShard(s, account) && InShard(t, account) ==> s == t
  {
    if InShard(ident, account) {
      var leaf := FindLeaf(ident, depth, account);
    }
    forall leaf | leaf in Leaves(ident, depth) && InShard(leaf, account) ensures InShard(ident, account) {
      LeafPath(ident, depth, leaf);
      PrefixTrans(ident.Path(), leaf.Path(), AccountBits(account));
    }
    forall s, t | s in Leaves(ident, depth) && t in Leaves(ident, depth) && InShard(s, account) && InShard(t, account)
      ensures s == t
    {
      LeafPath(ident, depth, s);
      LeafPath(ident, depth, t);
      PathInjective(s, t);
    }
  }

  lemma {:induction false} FindLeaf(ident: ShardIdent, depth: nat, account: Account) returns (leaf: ShardIdent)
    requires depth == 0 || ident.PrefixLen() + depth <= MAX_SPLIT_DEPTH
    requires InShard(ident, account)
    ensures leaf in Leaves(ident, depth) && InShard(leaf, account)
    decreases depth
  {
    if depth == 0 {
      leaf := ident;
    } else {
      var half := FindHalf(ident, depth, account);
      leaf := FindLeaf(half, depth - 1, account);
    }
  }

  lemma FindHalf(ident: ShardIdent, depth: nat, account: Account) returns (half: ShardIdent)
    requires depth > 0 && ident.PrefixLen() + depth <= MAX_SPLIT_DEPTH
    requires InShard(ident, account)
    ensures InShard(half, account) && half.PrefixLen() == ident.PrefixLen() + 1
    ensures Leaves(half, depth - 1) <= Leaves(ident, depth)
  {
    HalvesPartition(ident, account);
    var halves := ident.Split();
    half := if InShard(halves.left, account) then halves.left else halves.right;
  }

  lemma HalvesApart(ident: ShardIdent, depth: nat)
    requires depth > 0 && ident.PrefixLen() + depth <= MAX_SPLIT_DEPTH
    ensures var halves := ident.Split(); Leaves(halves.left, depth - 1) !! Leaves(halves.right, depth - 1)
  {
    var halves := ident.Split();
    var left, right := Leaves(halves.left, depth - 1), Leaves(halves.right, depth - 1);
    var l, r := halves.left.Path(), halves.right.Path();
    assert l[ident.PrefixLen()] != r[ident.PrefixLen()];
    forall leaf | leaf in left ensures leaf !in right {
      if leaf in right {
        LeafPath(halves.left, depth - 1, leaf);
        LeafPath(halves.right, depth - 1, leaf);
        PrefixesNest(l, r, leaf.Path());
      }
    }
  }

  lemma HalfLeaves(ident: ShardIdent, depth: nat) returns (left: ShardIdent, right: ShardIdent)
    requires depth > 0 && ident.PrefixLen() + depth <= MAX_SPLIT_DEPTH
    ensures left.PrefixLen() == right.PrefixLen() == ident.PrefixLen() + 1
    ensures |Leaves(ident, depth)| == |Leaves(left, depth - 1)| + |Leaves(right, depth - 1)|
  {
    HalvesApart(ident, depth);
    var halves := ident.Split();
    left, right := halves.left, halves.right;
    assert Leaves(ident, depth) == Leaves(left, depth - 1) + Leaves(right, depth - 1);
  }

  /** There are 2^depth leaves. */
  lemma {:induction false} LeavesCount(ident: ShardIdent, depth: nat)
    requires depth == 0 || ident.PrefixLen() + depth <= MAX_SPLIT_DEPTH
    ensures |Leaves(ident, depth)| == Pow2(depth)
    decreases depth
  {
    if depth > 0 {
      var left, right := HalfLeaves(ident, depth);
      LeavesCount(left, depth - 1);
      LeavesCount(right, depth - 1);
    }
  }

  lemma LeavesDisjoint(ident: ShardIdent, depth: nat, s: ShardIdent, t: ShardIdent)
    requires depth == 0 || ident.PrefixLen() + depth <= MAX_SPLIT_DEPTH
    requires s in Leaves(ident, depth) && t in Leaves(ident, depth) && s != t
    ensures Disjoint(s, t)
  {
    LeafPath(ident, depth, s);
    LeafPath(ident, depth, t);
    if s.Path() == t.Path() {
      PathInjective(s, t);
    }
  }

  /** No account is lost or duplicated: the parts of the leaves make up the input. */
  lemma SplitUnion<V>(ident: ShardIdent, accounts: Accounts<V>, depth: nat)
    requires depth == 0 || ident.PrefixLen() + depth <= MAX_SPLIT_DEPTH
    requires forall account :: account in accounts ==> InShard(ident, account)
    ensures forall account :: account in accounts <==>
              exists leaf :: leaf in Leaves(ident, depth) && account in Split(ident, accounts, depth)[leaf]
    ensures forall leaf, account :: leaf in Leaves(ident, depth) && account in Split(ident, accounts, depth)[leaf] ==>
              InShard(leaf, account) && Split(ident, accounts, depth)[leaf][account] == accounts[account]
  {
    forall account | account in accounts
      ensures exists leaf :: leaf in Leaves(ident, depth) && account in Split(ident, accounts, depth)[leaf]
    {
      var leaf := FindLeaf(ident, depth, account);
      assert account in Split(ident, accounts, depth)[leaf];
    }
  }

  // ---- looking up an account in a collection of shards ----

  function Find<V>(accounts: Accounts<V>, account: Account): (state: Option<V>)
    ensures state.Some? <==> account in accounts
    ensures state.Some? ==> accounts[account] == state.value
  {
    if account in accounts then Some(accounts[account]) else None
  }

  /** The account in the first shard that contains it, in any order; fails if no shard does. */
  method FindAccount<V>(shards: map<ShardIdent, Accounts<V>>, account: Account) returns (result: Option<Option<V>>)
    ensures result.None? <==> forall shard :: shard in shards ==> !InShard(shard, account)
    ensures result.Some? ==> exists shard ::
              shard in shards && InShard(shard, account) && result.value == Find(shards[shard], account)
  {
    var rest := shards.Keys;
    while rest != {}
      invariant rest <= shards.Keys
      invariant forall shard :: shard in shards.Keys - rest ==> !InShard(shard, account)
      decreases rest
    {
      var shard :| shard in rest;
      var contains := ContainsAccount(shard, account);
      if contains {
        return Some(Find(shards[shard], account));
      }
      rest := rest - {shard};
    }
    return None;
  }

  /** In a split shard, whichever leaf a lookup picks, it finds what the whole shard holds. */
  lemma SplitFinds<V>(ident: ShardIdent, accounts: Accounts<V>, depth: nat, account: Account)
    requires depth == 0 || ident.PrefixLen() + depth <= MAX_SPLIT_DEPTH
    ensures forall leaf :: leaf in Split(ident, accounts, depth) && InShard(leaf, account) ==>
              Find(Split(ident, accounts, depth)[leaf], account) == Find(accounts, account)
    ensures InShard(ident, account) ==> exists leaf :: leaf in Split(ident, accounts, depth) && InShard(leaf, account)
  {
    LeavesPartition(ident, depth, account);
  }
}
