/** The in-memory cache of the latest shard states, across shard splits and merges. */
module ShardCache {
  import opened Wrappers
  import opened Shards
  import opened VirtualShards

  /** A processed block: its shard, how it continues its predecessors, and its shard's accounts after it. */
  datatype ShardBlock<V> = ShardBlock(masterchain: bool, shard: ShardIdent, afterMerge: bool, afterSplit: bool,
                                      prevShards: seq<ShardIdent>, accounts: Accounts<V>)

  type Cache<V> = map<ShardIdent, Accounts<V>>

  /** The shards a block makes obsolete, given the cached ones with its own. */
  function Obsolete<V>(block: ShardBlock<V>, cached: set<ShardIdent>): set<ShardIdent> {
    if !(block.afterMerge || block.afterSplit) then {}
    else if |block.prevShards| == 1 then
      var halves := block.prevShards[0].Split();
      if halves.Halves? && halves.left in cached && halves.right in cached then {block.prevShards[0]} else {}
    else if |block.prevShards| == 2 then {block.prevShards[0], block.prevShards[1]}
    else {}
  }

  function CacheStep<V>(cache: Cache<V>, block: ShardBlock<V>): Cache<V> {
    if block.masterchain then cache else
      cache[block.shard := block.accounts] - Obsolete(block, cache.Keys + {block.shard})
  }

  class RuntimeStorage<V> {
    var shardAccountsCache: Cache<V>

    constructor ()
      ensures shardAccountsCache == map[]
    {
      shardAccountsCache := map[];
    }

    method UpdateContractStates(block: ShardBlock<V>) returns (ok: bool)
      modifies this
      ensures shardAccountsCache == CacheStep(old(shardAccountsCache), block)
      ensures !ok <==> !block.masterchain && (block.afterMerge || block.afterSplit)
                       && |block.prevShards| == 1 && block.prevShards[0].Split().TooDeep?
    {
      if !block.masterchain {
        shardAccountsCache := shardAccountsCache[block.shard := block.accounts];
        if block.afterMerge || block.afterSplit {
          if |block.prevShards| == 1 {
            var halves := block.prevShards[0].Split();
            if halves.TooDeep? {
              return false;
            }
            if halves.left in shardAccountsCache && halves.right in shardAccountsCache {
              shardAccountsCache := shardAccountsCache - {block.prevShards[0]};
            }
          } else if |block.prevShards| == 2 {
            var i := 0;
            ghost var before := shardAccountsCache;
            while i < 2
              invariant i <= 2
              invariant shardAccountsCache == before - (set j | 0 <= j < i :: block.prevShards[j])
            {
              shardAccountsCache := shardAccountsCache - {block.prevShards[i]};
              i := i + 1;
            }
          }
        }
      }
      return true;
    }

    /** Looks an account up in the first cached shard that contains it, whatever the order of the cache. */
    method GetContractState(account: Account) returns (state: Option<V>)
      ensures Covered(shardAccountsCache.Keys, account) ==>
                exists shard :: shard in shardAccountsCache && InShard(shard, account)
                  && state == Find(shardAccountsCache[shard], account)
      ensures !Covered(shardAccountsCache.Keys, account) ==> state == None
    {
      var rest := shardAccountsCache.Keys;
      while rest != {}
        invariant rest <= shardAccountsCache.Keys
        invariant forall shard :: shard in shardAccountsCache.Keys - rest ==> !InShard(shard, account)
        decreases rest
      {
        var shard :| shard in rest;
        var contains := ContainsAccount(shard, account);
        if contains {
          return Find(shardAccountsCache[shard], account);
        }
        rest := rest - {shard};
      }
      return None;
    }
  }

  ghost predicate Covered(shards: set<ShardIdent>, account: Account) {
    exists shard :: shard in shards && InShard(shard, account)
  }

  // ---- the chain ----

  predicate IsHalf(parent: ShardIdent, child: ShardIdent) {
    var halves := parent.Split();
    halves.Halves? && (child == halves.left || child == halves.right)
  }

  /** Accounts in the other half of a parent. */
  function Sibling(parent: ShardIdent, child: ShardIdent): ShardIdent
    requires IsHalf(parent, child)
  {
    if child == parent.Split().left then parent.Split().right else parent.Split().left
  }

  /** The cached shards and the parents of which only one half has been observed. */
  ghost predicate Consistent(cached: set<ShardIdent>, half: set<ShardIdent>, workchain: int) {
    && (forall s :: s in cached || s in half ==> s.workchain == workchain)
    && (forall s, t :: s in cached && t in cached && s != t ==>
          Disjoint(s, t) || (s in half && IsHalf(s, t)) || (t in half && IsHalf(t, s)))
    && (forall p :: p in half ==> p.PrefixLen() < MAX_SPLIT_DEPTH)
    && (forall p :: p in half ==> (p.Split().left in cached <==> p.Split().right !in cached))
  }

  /** The shard is apart from everything cached and is not the missing half of a split. */
  ghost predicate Unseen(cached: set<ShardIdent>, half: set<ShardIdent>, shard: ShardIdent) {
    && (forall s :: s in cached ==> Disjoint(s, shard))
    && (forall p :: p in half ==> !IsHalf(p, shard))
  }

  /**
   * How the chain of one workchain produces blocks. Both halves of a split are observed, each first by a block after
   * the split, before either of them splits or merges again; a shard seen for the first time is otherwise unseen.
   */
  ghost predicate Legal<V>(cached: set<ShardIdent>, half: set<ShardIdent>, workchain: int, block: ShardBlock<V>) {
    block.masterchain ||
    (&& block.shard.workchain == workchain
     && block.shard !in half
     && (if block.afterMerge then
           && !block.afterSplit
           && block.shard.PrefixLen() < MAX_SPLIT_DEPTH
           && block.prevShards == [block.shard.Split().left, block.shard.Split().right]
           && block.prevShards[0] !in half && block.prevShards[1] !in half
           && (forall p :: p in half ==> !IsHalf(p, block.shard))
           && ((block.prevShards[0] in cached && block.prevShards[1] in cached)
               || forall s :: s in cached && s !in block.prevShards ==> Disjoint(s, block.shard))
         else if block.afterSplit then
           && |block.prevShards| == 1
           && IsHalf(block.prevShards[0], block.shard)
           && block.shard !in cached
           && (forall p :: p in half ==> !IsHalf(p, block.prevShards[0]))
           && (block.prevShards[0] in cached || forall s :: s in cached ==> Disjoint(s, block.shard))
         else
           block.shard in cached || Unseen(cached, half, block.shard)))
  }

  /** The half observed parents after a block. */
  ghost function HalfStep<V>(cached: set<ShardIdent>, half: set<ShardIdent>, block: ShardBlock<V>): set<ShardIdent> {
    if !block.masterchain && block.afterSplit && |block.prevShards| == 1 && IsHalf(block.prevShards[0], block.shard) then
      var parent := block.prevShards[0];
      if Sibling(parent, block.shard) in cached then half - {parent} else half + {parent}
    else half
  }

  // ---- geometry ----

  lemma HalfPaths(parent: ShardIdent, child: ShardIdent)
    requires IsHalf(parent, child)
    ensures child.workchain == parent.workchain && parent.Path() <= child.Path() && child.PrefixLen() == parent.PrefixLen() + 1
    ensures IsHalf(parent, Sibling(parent, child)) && Sibling(parent, child) != child
    ensures Disjoint(child, Sibling(parent, child))
    ensures Sibling(parent, Sibling(parent, child)) == child
  {
    var halves := parent.Split();
    var n, l, r := parent.PrefixLen(), halves.left.Path(), halves.right.Path();
    assert l[n] == false && r[n] == true;
  }

  lemma ParentUnique(p: ShardIdent, q: ShardIdent, child: ShardIdent)
    requires IsHalf(p, child) && IsHalf(q, child)
    ensures p == q
  {
    HalfPaths(p, child);
    HalfPaths(q, child);
    PathInjective(p, q);
  }

  /** What is apart from a parent is apart from its halves. */
  lemma ApartBelow(t: ShardIdent, parent: ShardIdent, child: ShardIdent)
    requires Disjoint(t, parent) && IsHalf(parent, child)
    ensures Disjoint(t, child)
  {
    HalfPaths(parent, child);
    if t.Path() <= child.Path() {
      if t.PrefixLen() <= parent.PrefixLen() {
        PrefixesNest(t.Path(), parent.Path(), child.Path());
      } else {
        PrefixesNest(parent.Path(), t.Path(), child.Path());
      }
    } else if child.Path() <= t.Path() {
      PrefixTrans(parent.Path(), child.Path(), t.Path());
    }
  }

  /** What is apart from both halves is apart from the parent, unless it is the parent or above it. */
  lemma ApartAbove(t: ShardIdent, parent: ShardIdent, child: ShardIdent)
    requires IsHalf(parent, child)
    requires Disjoint(t, child) && Disjoint(t, Sibling(parent, child))
    requires t.workchain == parent.workchain && t != parent
    ensures Disjoint(t, parent)
  {
    HalfPaths(parent, child);
    HalfPaths(parent, Sibling(parent, child));
    if t.Path() <= parent.Path() {
      PrefixTrans(t.Path(), parent.Path(), child.Path());
    } else if parent.Path() <= t.Path() {
      if t.PrefixLen() == parent.PrefixLen() {
        PathInjective(t, parent);
      } else {
        BelowParent(parent, t);
      }
    }
  }

  lemma BelowParent(parent: ShardIdent, t: ShardIdent)
    requires parent.Split().Halves? && parent.Path() < t.Path()
    ensures parent.Split().left.Path() <= t.Path() || parent.Split().right.Path() <= t.Path()
  {
    var n := parent.PrefixLen();
    assert t.Path()[..n + 1] == parent.Path() + [t.Path()[n]];
    if t.Path()[n] {
      assert parent.Split().right.Path() <= t.Path();
    } else {
      assert parent.Split().left.Path() <= t.Path();
    }
  }

  // ---- what every block keeps ----

  lemma MasterchainStep<V>(cache: Cache<V>, half: set<ShardIdent>, block: ShardBlock<V>)
    requires block.masterchain
    ensures CacheStep(cache, block) == cache && HalfStep(cache.Keys, half, block) == half
  {
  }

  /** A block on a shard that continues itself. */
  lemma ContinueConsistent<V>(cache: Cache<V>, half: set<ShardIdent>, workchain: int, block: ShardBlock<V>)
    requires Consistent(cache.Keys, half, workchain) && Legal(cache.Keys, half, workchain, block)
    requires !block.masterchain && !block.afterMerge && !block.afterSplit
    ensures CacheStep(cache, block) == cache[block.shard := block.accounts]
    ensures Consistent(CacheStep(cache, block).Keys, half, workchain)
  {
    assert CacheStep(cache, block).Keys == cache.Keys + {block.shard};
  }

  /** A block after a merge. */
  lemma MergeConsistent<V>(cache: Cache<V>, half: set<ShardIdent>, workchain: int, block: ShardBlock<V>)
    requires Consistent(cache.Keys, half, workchain) && Legal(cache.Keys, half, workchain, block)
    requires !block.masterchain && block.afterMerge
    ensures CacheStep(cache, block) == cache[block.shard := block.accounts] - {block.prevShards[0], block.prevShards[1]}
    ensures Consistent(CacheStep(cache, block).Keys, half, workchain)
  {
    var s, l, r := block.shard, block.prevShards[0], block.prevShards[1];
    var after := CacheStep(cache, block);
    HalfPaths(s, l);
    forall t | t in after && t != s ensures Disjoint(t, s) {
      if l in cache && r in cache {
        MergedApart(cache.Keys, half, workchain, s, t);
      }
    }
    forall p | p in half ensures p.Split().left in after <==> p.Split().right !in after {
      if IsHalf(p, l) { ParentUnique(p, s, l); }
      if IsHalf(p, r) { ParentUnique(p, s, r); }
    }
  }

  lemma MergedApart(cached: set<ShardIdent>, half: set<ShardIdent>, workchain: int, s: ShardIdent, t: ShardIdent)
    requires Consistent(cached, half, workchain)
    requires s !in half && s.workchain == workchain && s.PrefixLen() < MAX_SPLIT_DEPTH
    requires var h := s.Split(); h.left in cached && h.right in cached && h.left !in half && h.right !in half
    requires t in cached && t != s && t != s.Split().left && t != s.Split().right
    ensures Disjoint(t, s)
  {
    var l, r := s.Split().left, s.Split().right;
    if t in half && IsHalf(t, l) { ParentUnique(t, s, l); }
    if t in half && IsHalf(t, r) { ParentUnique(t, s, r); }
    ApartAbove(t, s, l);
  }

  /** A block after a split: the first half keeps the parent, the second one removes it. */
  lemma SplitConsistent<V>(cache: Cache<V>, half: set<ShardIdent>, workchain: int, block: ShardBlock<V>)
    requires Consistent(cache.Keys, half, workchain) && Legal(cache.Keys, half, workchain, block)
    requires !block.masterchain && block.afterSplit
    ensures var p := block.prevShards[0];
            CacheStep(cache, block) == if p in HalfStep(cache.Keys, half, block) then cache[block.shard := block.accounts]
                                       else cache[block.shard := block.accounts] - {p}
    ensures Consistent(CacheStep(cache, block).Keys, HalfStep(cache.Keys, half, block), workchain)
  {
    var s, p := block.shard, block.prevShards[0];
    var other := Sibling(p, s);
    var after, half' := CacheStep(cache, block), HalfStep(cache.Keys, half, block);
    HalfPaths(p, s);
    forall t | t in cache && t != p ensures Disjoint(t, s) {
      if p in cache {
        SplitApart(cache.Keys, half, workchain, p, s, t);
      }
    }
    forall q | q in half' && q != p ensures q.Split().left in after <==> q.Split().right !in after {
      if IsHalf(q, s) { ParentUnique(q, p, s); }
    }
  }

  lemma SplitApart(cached: set<ShardIdent>, half: set<ShardIdent>, workchain: int, p: ShardIdent, s: ShardIdent, t: ShardIdent)
    requires Consistent(cached, half, workchain)
    requires IsHalf(p, s) && p in cached && s !in cached
    requires forall q :: q in half ==> !IsHalf(q, p)
    requires t in cached && t != p
    ensures Disjoint(t, s)
  {
    if Disjoint(t, p) {
      ApartBelow(t, p, s);
    } else {
      assert p in half && IsHalf(p, t);
      HalfPaths(p, s);
    }
  }

  lemma StepConsistent<V>(cache: Cache<V>, half: set<ShardIdent>, workchain: int, block: ShardBlock<V>)
    requires Consistent(cache.Keys, half, workchain) && Legal(cache.Keys, half, workchain, block)
    ensures Consistent(CacheStep(cache, block).Keys, HalfStep(cache.Keys, half, block), workchain)
  {
    if block.masterchain {
      MasterchainStep(cache, half, block);
    } else if block.afterMerge {
      MergeConsistent(cache, half, workchain, block);
    } else if block.afterSplit {
      SplitConsistent(cache, half, workchain, block);
    } else {
      ContinueConsistent(cache, half, workchain, block);
    }
  }

  /** No block, legal or not, uncovers an account, as long as a merge names parts of its own shard. */
  lemma StepKeepsCoverage<V>(cache: Cache<V>, block: ShardBlock<V>, account: Account)
    requires |block.prevShards| == 2 ==> forall p :: p in block.prevShards ==> block.shard.Path() < p.Path()
    requires Covered(cache.Keys, account)
    ensures Covered(CacheStep(cache, block).Keys, account)
  {
    var after := CacheStep(cache, block);
    var s :| s in cache && InShard(s, account);
    if block.masterchain || s in after {
      assert s in after && InShard(s, account);
    } else if |block.prevShards| == 2 {
      PrefixTrans(block.shard.Path(), s.Path(), AccountBits(account));
      assert block.shard in after;
    } else {
      HalvesPartition(s, account);
      var halves := s.Split();
      HalfPaths(s, halves.left);
      HalfPaths(s, halves.right);
      assert halves.left in after && halves.right in after;
    }
  }

  // ---- whole runs ----

  ghost function RunCache<V>(run: seq<ShardBlock<V>>): Cache<V> {
    if run == [] then map[] else CacheStep(RunCache(run[..|run| - 1]), run[|run| - 1])
  }

  ghost function RunHalf<V>(run: seq<ShardBlock<V>>): set<ShardIdent> {
    if run == [] then {} else
      HalfStep(RunCache(run[..|run| - 1]).Keys, RunHalf(run[..|run| - 1]), run[|run| - 1])
  }

  ghost predicate LegalRun<V>(run: seq<ShardBlock<V>>, workchain: int) {
    run == [] || (
      && LegalRun(run[..|run| - 1], workchain)
      && Legal(RunCache(run[..|run| - 1]).Keys, RunHalf(run[..|run| - 1]), workchain, run[|run| - 1]))
  }

  /** The accounts after the last block of a shard that contains the account. */
  ghost function Latest<V>(run: seq<ShardBlock<V>>, account: Account): Option<Accounts<V>> {
    if run == [] then None
    else
      var block := run[|run| - 1];
      if !block.masterchain && InShard(block.shard, account) then Some(block.accounts) else Latest(run[..|run| - 1], account)
  }

  /** A cached parent of which the half with the account has been observed. */
  ghost predicate Stale(cached: set<ShardIdent>, half: set<ShardIdent>, shard: ShardIdent, account: Account) {
    shard in half && exists child :: child in cached && IsHalf(shard, child) && InShard(child, account)
  }

  /** Cached shards with the account hold its latest state, stale parents aside, and one of them is there if there was a block. */
  ghost predicate Current<V>(cache: Cache<V>, half: set<ShardIdent>, account: Account, latest: Option<Accounts<V>>) {
    && (forall s :: s in cache && InShard(s, account) && !Stale(cache.Keys, half, s, account) ==> latest == Some(cache[s]))
    && (latest.Some? ==> exists s :: s in cache && InShard(s, account) && !Stale(cache.Keys, half, s, account))
  }

  lemma {:induction false} RunConsistent<V>(run: seq<ShardBlock<V>>, workchain: int)
    requires LegalRun(run, workchain)
    ensures Consistent(RunCache(run).Keys, RunHalf(run), workchain)
  {
    if run != [] {
      RunConsistent(run[..|run| - 1], workchain);
      StepConsistent(RunCache(run[..|run| - 1]), RunHalf(run[..|run| - 1]), workchain, run[|run| - 1]);
    }
  }

  /** While no split is half observed the cached shards are pairwise apart, so at most one contains an account. */
  lemma RunDisjoint<V>(run: seq<ShardBlock<V>>, workchain: int, account: Account)
    requires LegalRun(run, workchain) && RunHalf(run) == {}
    ensures forall s, t :: s in RunCache(run) && t in RunCache(run) && s != t ==> Disjoint(s, t)
    ensures forall s, t :: s in RunCache(run) && t in RunCache(run) && InShard(s, account) && InShard(t, account) ==> s == t
  {
    RunConsistent(run, workchain);
    forall s, t | s in RunCache(run) && t in RunCache(run) && InShard(s, account) && InShard(t, account) ensures s == t {
      if s != t {
        DisjointAccounts(s, t, account);
      }
    }
  }

  /** Two cached shards with one account are a half observed parent and its half. */
  lemma SharedAccount(cached: set<ShardIdent>, half: set<ShardIdent>, workchain: int, s: ShardIdent, t: ShardIdent, account: Account)
    requires Consistent(cached, half, workchain)
    requires s in cached && t in cached && s != t && InShard(s, account) && InShard(t, account)
    ensures (s in half && IsHalf(s, t)) || (t in half && IsHalf(t, s))
  {
    if Disjoint(s, t) {
      DisjointAccounts(s, t, account);
    }
  }

  /** The block's own shard holds the latest state of its accounts. */
  lemma OwnShardCurrent<V>(cache: Cache<V>, half: set<ShardIdent>, workchain: int, block: ShardBlock<V>, account: Account)
    requires Consistent(cache.Keys, half, workchain) && Legal(cache.Keys, half, workchain, block)
    requires !block.masterchain && InShard(block.shard, account)
    ensures Current(CacheStep(cache, block), HalfStep(cache.Keys, half, block), account, Some(block.accounts))
  {
    var s := block.shard;
    var after, half' := CacheStep(cache, block), HalfStep(cache.Keys, half, block);
    StepConsistent(cache, half, workchain, block);
    if block.afterMerge { HalfPaths(s, block.prevShards[0]); HalfPaths(s, block.prevShards[1]); }
    else if block.afterSplit { HalfPaths(block.prevShards[0], s); }
    assert s in after && after[s] == block.accounts;
    assert s !in half';
    forall t | t in after && InShard(t, account) && t != s ensures Stale(after.Keys, half', t, account) {
      SharedAccount(after.Keys, half', workchain, s, t, account);
    }
  }

  /** A block elsewhere changes nothing for an account. */
  lemma OtherShardCurrent<V>(cache: Cache<V>, half: set<ShardIdent>, workchain: int, block: ShardBlock<V>,
                             account: Account, latest: Option<Accounts<V>>)
    requires Consistent(cache.Keys, half, workchain) && Legal(cache.Keys, half, workchain, block)
    requires !block.masterchain && !InShard(block.shard, account)
    requires Current(cache, half, account, latest)
    ensures Current(CacheStep(cache, block), HalfStep(cache.Keys, half, block), account, latest)
  {
    var after, half' := CacheStep(cache, block), HalfStep(cache.Keys, half, block);
    forall s | s in after && InShard(s, account) && !Stale(after.Keys, half', s, account)
      ensures latest == Some(after[s])
    {
      assert s in cache && after[s] == cache[s];
      if Stale(cache.Keys, half, s, account) {
        StaleStays(cache, half, workchain, block, account, s);
      }
    }
    if latest.Some? {
      var s :| s in cache && InShard(s, account) && !Stale(cache.Keys, half, s, account);
      FreshStays(cache, half, workchain, block, account, s);
    }
  }

  lemma StaleStays<V>(cache: Cache<V>, half: set<ShardIdent>, workchain: int, block: ShardBlock<V>, account: Account, s: ShardIdent)
    requires Consistent(cache.Keys, half, workchain) && Legal(cache.Keys, half, workchain, block)
    requires !block.masterchain && !InShard(block.shard, account)
    requires s in CacheStep(cache, block) && Stale(cache.Keys, half, s, account)
    ensures Stale(CacheStep(cache, block).Keys, HalfStep(cache.Keys, half, block), s, account)
  {
    var after := CacheStep(cache, block);
    var child :| child in cache && IsHalf(s, child) && InShard(child, account);
    if block.afterMerge {
      MergeConsistent(cache, half, workchain, block);
      HalfPaths(block.shard, block.prevShards[0]);
      if child in block.prevShards { ParentUnique(s, block.shard, child); }
      assert child in after;
    } else if block.afterSplit {
      SplitConsistent(cache, half, workchain, block);
      var p := block.prevShards[0];
      assert child != p;
      assert child in after;
    } else {
      ContinueConsistent(cache, half, workchain, block);
      assert child in after;
    }
  }

  lemma FreshStays<V>(cache: Cache<V>, half: set<ShardIdent>, workchain: int, block: ShardBlock<V>, account: Account, s: ShardIdent)
    requires Consistent(cache.Keys, half, workchain) && Legal(cache.Keys, half, workchain, block)
    requires !block.masterchain && !InShard(block.shard, account)
    requires s in cache && InShard(s, account) && !Stale(cache.Keys, half, s, account)
    ensures s in CacheStep(cache, block)
    ensures !Stale(CacheStep(cache, block).Keys, HalfStep(cache.Keys, half, block), s, account)
  {
    if block.afterMerge {
      MergeConsistent(cache, half, workchain, block);
      HalfPaths(block.shard, block.prevShards[0]);
      HalfPaths(block.shard, block.prevShards[1]);
      if s in block.prevShards { PrefixTrans(block.shard.Path(), s.Path(), AccountBits(account)); }
    } else if block.afterSplit {
      SplitConsistent(cache, half, workchain, block);
      var p := block.prevShards[0];
      HalvesPartition(p, account);
      if s == p {
        var other := Sibling(p, block.shard);
        HalfPaths(p, block.shard);
        assert InShard(other, account);
        if other in cache {
          assert p !in half;
          SharedAccount(cache.Keys, half, workchain, p, other, account);
        }
      }
    } else {
      ContinueConsistent(cache, half, workchain, block);
    }
  }

  /** Over every legal run the cache serves an account's latest observed state, unless it picks a stale parent. */
  lemma {:induction false} RunCurrent<V>(run: seq<ShardBlock<V>>, workchain: int, account: Account)
    requires LegalRun(run, workchain)
    ensures Current(RunCache(run), RunHalf(run), account, Latest(run, account))
  {
    if run != [] {
      var before, block := run[..|run| - 1], run[|run| - 1];
      RunCurrent(before, workchain, account);
      RunConsistent(before, workchain);
      if block.masterchain {
        MasterchainStep(RunCache(before), RunHalf(before), block);
      } else if InShard(block.shard, account) {
        OwnShardCurrent(RunCache(before), RunHalf(before), workchain, block, account);
      } else {
        OtherShardCurrent(RunCache(before), RunHalf(before), workchain, block, account, Latest(before, account));
      }
    }
  }

  /** With no split half observed the lookup is the account's latest state, in whatever order the cache is searched. */
  lemma LookupIsLatest<V>(run: seq<ShardBlock<V>>, workchain: int, account: Account, shard: ShardIdent)
    requires LegalRun(run, workchain) && RunHalf(run) == {}
    requires shard in RunCache(run) && InShard(shard, account)
    ensures Latest(run, account) == Some(RunCache(run)[shard])
  {
    RunCurrent(run, workchain, account);
    assert !Stale(RunCache(run).Keys, {}, shard, account);
  }
}
