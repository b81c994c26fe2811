/** The persistent storage that keeps both code hash indexes in a key-value database. */
module Storage {
  import opened Words
  import opened Wrappers
  import opened Shards
  import VirtualShards
  import opened CodeHashIndex

  class PersistentStorage {
    var codeHashes: set<Key>
    var codeHashesByAddress: map<Key, Hash>
    const shardSplitDepth: nat

    function Index(): Index
      reads this
    {
      CodeHashIndex.Index.Index(codeHashes, codeHashesByAddress)
    }

    constructor (codeHashes: set<Key>, codeHashesByAddress: map<Key, Hash>, shardSplitDepth: nat)
      ensures Index() == CodeHashIndex.Index.Index(codeHashes, codeHashesByAddress)
      ensures this.shardSplitDepth == shardSplitDepth
    {
      this.codeHashes, this.codeHashesByAddress := codeHashes, codeHashesByAddress;
      this.shardSplitDepth := shardSplitDepth;
    }

    /** Writes a batch atomically. */
    method Write(batch: seq<Op>)
      modifies this
      ensures Index() == Apply(old(Index()), batch)
    {
      var i := 0;
      assert batch[..0] == [];
      while i < |batch|
        invariant i <= |batch|
        invariant Index() == Apply(old(Index()), batch[..i])
      {
        assert batch[..i + 1][..i] == batch[..i];
        match batch[i] {
          case PutPrimary(key) => codeHashes := codeHashes + {key};
          case DeletePrimary(key) => codeHashes := codeHashes - {key};
          case PutSecondary(key, hash) => codeHashesByAddress := codeHashesByAddress[key := hash];
          case DeleteSecondary(key) => codeHashesByAddress := codeHashesByAddress - {key};
        }
        i := i + 1;
      }
      assert batch[..i] == batch;
    }

    /** Appends to the batch the change of one account's code, as read from the database before the batch. */
    method UpdateCodeHash(workchain: int, account: Account, accounts: Accounts, remove: bool, batch: seq<Op>)
      returns (result: seq<Op>)
      ensures batch <= result
      ensures Replaces(result[|batch|..], AddressOf(workchain, account),
                       Lookup(codeHashesByAddress, AddressOf(workchain, account)),
                       if remove then None else ExtractCodeHash(GetAccount(accounts, account)))
    {
      var address := AddressOf(workchain, account);
      var oldCodeHash := Lookup(codeHashesByAddress, address);
      var newCodeHash := None;
      if !remove {
        if account in accounts {
          newCodeHash := ExtractCodeHash(accounts[account]);
        }
      }
      result := batch;
      if (remove && oldCodeHash.None?) || (oldCodeHash.Some? && newCodeHash.Some? && oldCodeHash.value == newCodeHash.value) {
        assert result[|batch|..] == [];
        return;
      }
      if oldCodeHash.Some? {
        result := result + [DeletePrimary(PrimaryKey(oldCodeHash.value, address))];
      }
      match newCodeHash {
        case Some(hash) =>
          result := result + [PutPrimary(PrimaryKey(hash, address))];
          result := result + [PutSecondary(address, hash)];
        case None =>
          result := result + [DeleteSecondary(address)];
      }
      ReplaceOps(address, oldCodeHash, newCodeHash, result[|batch|..]);
    }

    /** Marker flags of an account block; without a state the search for special actions is skipped. */
    method ReadTransactions(txs: seq<Transaction>, skipSpecial: bool)
      returns (wasActive: bool, isActive: bool, hasSpecialActions: bool)
      ensures wasActive == WasActive(txs) && isActive == IsActive(txs)
      ensures hasSpecialActions == (skipSpecial || HasSpecialActions(txs))
    {
      hasSpecialActions := skipSpecial;
      wasActive, isActive := false, false;
      var firstTx := true;
      var j := 0;
      while j < |txs|
        invariant j <= |txs|
        invariant firstTx <==> j == 0
        invariant wasActive == (j > 0 && WasActive(txs))
        invariant isActive == (j > 0 && txs[j - 1].endStatus == Active)
        invariant hasSpecialActions == (skipSpecial ||
                    exists k :: 0 <= k < j && IsSpecial(txs, txs[k]))
      {
        var tx := txs[j];
        if firstTx {
          wasActive := tx.origStatus == Active;
          firstTx := false;
        }
        if wasActive && tx.origStatus != Active {
          hasSpecialActions := true;
        }
        isActive := tx.endStatus == Active;
        if !hasSpecialActions {
          if tx.specActions.Some? {
            hasSpecialActions := tx.specActions.value != 0;
          }
        }
        j := j + 1;
      }
    }

    /** Updates the indexes from a block and the shard state after it; without a state nothing changes. */
    method Update(workchain: int, blocks: seq<AccountBlock>, accounts: Option<Accounts>)
      requires DistinctAccounts(blocks)
      modifies this
      ensures Index() == if -128 <= workchain < 128 && accounts.Some?
                         then UpdatedIndex(old(Index()), workchain, blocks, accounts.value)
                         else old(Index())
    {
      if !IsByteWorkchain(workchain) {
        return;
      }
      var batch: seq<Op> := [];
      var nonEmptyBatch := false;
      var i := 0;
      assert blocks[..0] == [];
      while i < |blocks|
        invariant i <= |blocks|
        invariant Index() == old(Index())
        invariant !nonEmptyBatch ==> batch == []
        invariant accounts.None? ==> !nonEmptyBatch
        invariant accounts.Some? ==> Apply(Index(), batch) == UpdatedIndex(Index(), workchain, blocks[..i], accounts.value)
      {
        var block := blocks[i];
        var wasActive, isActive, hasSpecialActions := ReadTransactions(block.transactions, accounts.None?);
        if accounts.Some? {
          var update := if isActive && (!wasActive || hasSpecialActions) then Some(false)
                        else if wasActive && !isActive then Some(true)
                        else None;
          ghost var before := batch;
          if update.Some? {
            nonEmptyBatch := true;
            batch := UpdateCodeHash(workchain, block.account, accounts.value, update.value, batch);
          }
          BatchGrows(Index(), workchain, blocks, i, accounts.value, before, batch);
        }
        i := i + 1;
      }
      assert blocks[..i] == blocks;
      if nonEmptyBatch {
        Write(batch);
      }
    }

    /** Removes the shard's entries from both indexes. */
    method RemoveCodeHashes(shard: ShardIdent)
      modifies this
      ensures Index() == WithoutShard(old(Index()), shard)
    {
      var workchain := WorkchainByte(shard.workchain);
      var low, high := new Byte[32], new Byte[32];
      ExtendAccountPrefix(shard, false, low);
      var from := [workchain] + low[..];
      ExtendAccountPrefix(shard, true, high);
      var to := [workchain] + high[..];
      DeleteRange(from, to);
      codeHashesByAddress := codeHashesByAddress - {to};
      KeyRangeTop(shard);
      assert codeHashesByAddress == WithoutShard(old(Index()), shard).secondary;

      var snapshot := codeHashes;
      var rest := snapshot;
      while rest != {}
        invariant codeHashesByAddress == WithoutShard(old(Index()), shard).secondary
        invariant rest <= snapshot
        invariant forall key :: key in rest ==> key in codeHashes
        invariant forall key :: key in snapshot - rest ==>
                    (key in codeHashes <==> |key| == PRIMARY_KEY_LEN && !InShardAddress(shard, key[32..]))
        invariant codeHashes <= snapshot
        decreases rest
      {
        var key :| key in rest;
        if |key| != PRIMARY_KEY_LEN {
          codeHashes := codeHashes - {key};
        } else {
          var account: Account := key[33..];
          assert account == AccountOf(key[32..]) && key[33..41] == account[..8];
          MaskTestIsMembership(shard, account);
          FullShard(shard, account);
          if key[32] == workchain && (shard.IsFull() || MaskTest(shard, FromBytes(key[33..41]))) {
            codeHashes := codeHashes - {key};
          }
        }
        rest := rest - {key};
      }
      assert codeHashes == WithoutShard(old(Index()), shard).primary;
      assert Index() == WithoutShard(old(Index()), shard);
    }

    /** Rebuilds the shard's entries from its complete accounts; fails, leaving them wiped, if it cannot be split that deep. */
    method ResetAccounts(shard: ShardIdent, accounts: Accounts) returns (ok: bool)
      requires forall account :: account in accounts ==> InShard(shard, account)
      modifies this
      ensures !(-128 <= shard.workchain < 128) ==> ok && Index() == old(Index())
      ensures -128 <= shard.workchain < 128 ==>
                && ok == CanSplit(shard, shardSplitDepth)
                && Index() == if ok then ResetIndex(old(Index()), shard, accounts) else WithoutShard(old(Index()), shard)
    {
      var workchain := shard.workchain;
      if !IsByteWorkchain(workchain) {
        return true;
      }
      RemoveCodeHashes(shard);
      var virtualShards := VirtualShards.SplitShard(shard, accounts, shardSplitDepth, map[]);
      if virtualShards.None? {
        return false;
      }
      VirtualShards.SplitUnion(shard, accounts, shardSplitDepth);
      var batch, order := CollectCodeHashes(workchain, virtualShards.value, accounts);
      PutsAll(Index(), workchain, accounts, order);
      if batch != [] {
        Write(batch);
      }
      return true;
    }

    /** The entries of all virtual shards, in any order of the shards and of their accounts. */
    static method CollectCodeHashes(workchain: int, shards: map<ShardIdent, Accounts>, ghost accounts: Accounts)
      returns (batch: seq<Op>, ghost order: seq<Account>)
      requires forall leaf :: leaf in shards ==> SubMap(shards[leaf], accounts)
      requires forall account :: account in accounts ==> exists leaf :: leaf in shards && account in shards[leaf]
      ensures batch == Puts(workchain, accounts, order)
      ensures forall account: Account :: account in order <==> account in accounts
    {
      batch, order := [], [];
      var rest := shards.Keys;
      while rest != {}
        invariant rest <= shards.Keys
        invariant forall leaf, account :: leaf in shards && leaf !in rest && account in shards[leaf] ==> account in order
        invariant forall account :: account in order ==> account in accounts
        invariant batch == Puts(workchain, accounts, order)
        decreases rest
      {
        var leaf :| leaf in rest;
        batch, order := CollectShard(workchain, shards[leaf], batch, accounts, order);
        rest := rest - {leaf};
      }
    }

    static method CollectShard(workchain: int, part: Accounts, batch: seq<Op>, ghost accounts: Accounts, ghost order: seq<Account>)
      returns (result: seq<Op>, ghost order': seq<Account>)
      requires SubMap(part, accounts)
      requires batch == Puts(workchain, accounts, order)
      ensures result == Puts(workchain, accounts, order')
      ensures forall account: Account :: account in order' <==> account in order || account in part
    {
      result, order' := batch, order;
      var entries := part.Keys;
      while entries != {}
        invariant entries <= part.Keys
        invariant forall account: Account :: account in order' <==> account in order || (account in part && account !in entries)
        invariant result == Puts(workchain, accounts, order')
        decreases entries
      {
        var id :| id in entries;
        var codeHash := ExtractCodeHash(part[id]);
        if codeHash.Some? {
          result := result + [PutPrimary(PrimaryKey(codeHash.value, AddressOf(workchain, id)))]
                           + [PutSecondary(AddressOf(workchain, id), codeHash.value)];
        }
        PutsAppend(workchain, accounts, order', id);
        order' := order' + [id];
        entries := entries - {id};
      }
    }

    /**
     * The addresses found under a code hash in a snapshot of the primary index, in the order of their keys.
     * The scan ends with an error at the first whose account has no state in the cache.
     */
    static method IterateEvents(snapshot: set<Key>, codeHash: Hash, cached: set<Account>)
      returns (visited: seq<Address>, missing: Option<Address>)
      ensures forall i, j :: 0 <= i < j < |visited| ==> LexLeq(visited[i], visited[j]) && visited[i] != visited[j]
      ensures forall address: Address ::
                address in visited <==> IsHolder(snapshot, codeHash, address) && IsBefore(address, missing)
      ensures forall address: Address :: address in visited ==> AccountOf(address) in cached
      ensures missing.Some? ==> IsHolder(snapshot, codeHash, missing.value) && AccountOf(missing.value) !in cached
    {
      var seekKey := codeHash + seq(33, _ => 0);
      var upperBound := codeHash + seq(33, _ => 0xff);
      visited, missing := [], None;
      var range := set key | key in snapshot && LexLeq(seekKey, key) && LexLeq(key, upperBound) && key != upperBound;
      RangeHolds(snapshot, codeHash, range);
      var rest := range;
      while rest != {}
        invariant rest <= range && IsScan(range, rest, codeHash, visited, cached)
        decreases rest
      {
        ghost var least := LexFirst(rest);
        var key :| key in rest && forall other :: other in rest ==> LexLeq(key, other);
        if |key| == PRIMARY_KEY_LEN {
          var address: Address := key[32..];
          RangeKey(codeHash, key);
          if AccountOf(address) !in cached {
            ScanStops(range, rest, codeHash, visited, cached, address);
            missing := Some(address);
            return;
          }
          ScanMore(range, rest, codeHash, visited, cached, address);
          visited := visited + [address];
        } else {
          ScanSkips(range, rest, codeHash, visited, cached, key);
        }
        rest := rest - {key};
      }
    }

    /** Deletes the secondary entries with from <= key < to. */
    method DeleteRange(from: Key, to: Key)
      modifies `codeHashesByAddress
      ensures codeHashesByAddress == map key | key in old(codeHashesByAddress) && !(LexLeq(from, key) && LexLeq(key, to) && key != to)
                                       :: old(codeHashesByAddress)[key]
    {
      codeHashesByAddress := map key | key in codeHashesByAddress && !(LexLeq(from, key) && LexLeq(key, to) && key != to)
                               :: codeHashesByAddress[key];
    }
  }

  predicate CanSplit(shard: ShardIdent, depth: nat) {
    depth == 0 || shard.PrefixLen() + depth <= MAX_SPLIT_DEPTH
  }

  /** The writes for accounts in the given order: two for each account that holds code. */
  function Puts(workchain: int, accounts: Accounts, order: seq<Account>): seq<Op>
    decreases |order|
  {
    if order == [] then [] else
      Puts(workchain, accounts, Init(order)) + PutOps(AddressOf(workchain, Last(order)), ExtractCodeHash(GetAccount(accounts, Last(order))))
  }

  function PutOps(address: Address, code: Option<Hash>): seq<Op> {
    match code
    case None => []
    case Some(hash) => [PutPrimary(PrimaryKey(hash, address)), PutSecondary(address, hash)]
  }

  ghost function Only(accounts: Accounts, keys: seq<Account>): Accounts {
    map account | account in accounts && account in keys :: accounts[account]
  }

  /** The collected writes add exactly the entries of the accounts. */
  lemma {:induction false} PutsEffect(index: Index, workchain: int, accounts: Accounts, order: seq<Account>)
    requires forall account :: account in order ==> account in accounts
    ensures Apply(index, Puts(workchain, accounts, order)) == PutAll(index, workchain, Only(accounts, order))
    decreases |order|
  {
    if order == [] {
      PutNothing(index, workchain, accounts);
    } else {
      var rest, id := Init(order), Last(order);
      var done := Only(accounts, rest);
      assert order == rest + [id];
      PutsEffect(index, workchain, accounts, rest);
      assert Only(accounts, order) == done[id := accounts[id]];
      PutOne(index, workchain, done, id, accounts[id]);
      PutOpsEffect(index, Puts(workchain, accounts, rest), AddressOf(workchain, id), ExtractCodeHash(accounts[id]));
    }
  }

  lemma PutsAll(index: Index, workchain: int, accounts: Accounts, order: seq<Account>)
    requires forall account: Account :: account in order <==> account in accounts
    ensures Apply(index, Puts(workchain, accounts, order)) == PutAll(index, workchain, accounts)
  {
    PutsEffect(index, workchain, accounts, order);
    assert Only(accounts, order) == accounts;
  }

  lemma PutsAppend(workchain: int, accounts: Accounts, order: seq<Account>, id: Account)
    ensures Puts(workchain, accounts, order + [id])
         == Puts(workchain, accounts, order) + PutOps(AddressOf(workchain, id), ExtractCodeHash(GetAccount(accounts, id)))
  {
    assert Init(order + [id]) == order;
  }

  lemma PutOpsEffect(index: Index, batch: seq<Op>, address: Address, code: Option<Hash>)
    ensures Apply(index, batch + PutOps(address, code)) == PutCode(Apply(index, batch), address, code)
  {
    if code.Some? {
      ApplyPair(index, batch, PutOps(address, code));
    } else {
      assert batch + [] == batch;
    }
  }

  lemma PutNothing(index: Index, workchain: int, accounts: Accounts)
    ensures PutAll(index, workchain, Only(accounts, [])) == index
  {
    assert Only(accounts, []) == map[];
    assert PrimaryKeys(workchain, map[]) == {} && CodeMap(workchain, map[]) == map[];
  }

  ghost predicate SubMap(a: Accounts, b: Accounts) {
    forall account :: account in a ==> account in b && a[account] == b[account]
  }

  lemma ApplyPair(index: Index, batch: seq<Op>, pair: seq<Op>)
    requires |pair| == 2
    ensures Apply(index, batch + pair) == ApplyOp(ApplyOp(Apply(index, batch), pair[0]), pair[1])
  {
    ApplyAppend(index, batch, pair);
    ApplyAppend(Apply(index, batch), pair[..1], pair[1..]);
    assert pair == pair[..1] + pair[1..];
  }

  /** The one address whose primary keys the exclusive upper bound cuts off. */
  function LastAddress(): Address {
    seq(33, _ => 0xff)
  }

  /** The snapshot holds the address under the code hash, below the exclusive bound of the scan. */
  predicate IsHolder(snapshot: set<Key>, codeHash: Hash, address: Address) {
    PrimaryKey(codeHash, address) in snapshot && address != LastAddress()
  }

  predicate IsBefore(address: Address, end: Option<Address>) {
    end.Some? ==> LexLeq(address, end.value) && address != end.value
  }

  /** On an exact index, a scan that does not fail finds exactly the accounts that hold the code. */
  lemma ScanFindsHolders(index: Index, world: World, known: iset<Address>, codeHash: Hash, visited: seq<Address>)
    requires Exact(index, world, known)
    requires forall address: Address :: address in visited <==> IsHolder(index.primary, codeHash, address)
    ensures forall address: Address :: address in known && address != LastAddress() ==>
              (address in visited <==> CodeAt(world, address) == Some(codeHash))
  {
    forall address: Address | address in known && address != LastAddress()
      ensures address in visited <==> CodeAt(world, address) == Some(codeHash)
    {
      PrimaryKeyParts(codeHash, address);
    }
  }

  /** Some of the range has been scanned in order: its addresses are visited and below all that is left. */
  ghost predicate IsScan(range: set<Key>, rest: set<Key>, codeHash: Hash, visited: seq<Address>, cached: set<Account>) {
    && (forall i, j :: 0 <= i < j < |visited| ==> LexLeq(visited[i], visited[j]) && visited[i] != visited[j])
    && (forall address: Address :: address in visited ==> AccountOf(address) in cached)
    && (forall address: Address :: address in visited <==>
          PrimaryKey(codeHash, address) in range - rest)
    && (forall address: Address, other: Address :: address in visited && PrimaryKey(codeHash, other) in rest ==>
          LexLeq(address, other) && address != other)
  }

  /** The scanned range holds, besides malformed keys, the keys of the holders. */
  lemma RangeHolds(snapshot: set<Key>, codeHash: Hash, range: set<Key>)
    requires range == set key | key in snapshot && LexLeq(codeHash + seq(33, _ => 0), key) &&
                                LexLeq(key, codeHash + seq(33, _ => 0xff)) && key != codeHash + seq(33, _ => 0xff)
    ensures forall address: Address :: PrimaryKey(codeHash, address) in range <==> IsHolder(snapshot, codeHash, address)
    ensures forall key :: key in range && |key| == PRIMARY_KEY_LEN ==> key[..32] == codeHash
  {
    forall address: Address
      ensures PrimaryKey(codeHash, address) in range <==> IsHolder(snapshot, codeHash, address)
    {
      ScanRange(codeHash, codeHash, address);
    }
    forall key | key in range && |key| == PRIMARY_KEY_LEN
      ensures key[..32] == codeHash
    {
      assert key == key[..32] + key[32..];
      ScanRange(codeHash, key[..32], key[32..]);
    }
  }

  lemma RangeKey(codeHash: Hash, key: Key)
    requires |key| == PRIMARY_KEY_LEN && key[..32] == codeHash
    ensures key == PrimaryKey(codeHash, key[32..])
  {
  }

  /** Keys under one code hash are in the order of their addresses. */
  lemma AddressOrder(codeHash: Hash, a: Address, b: Address)
    ensures LexLeq(PrimaryKey(codeHash, a), PrimaryKey(codeHash, b)) <==> LexLeq(a, b)
    ensures PrimaryKey(codeHash, a) == PrimaryKey(codeHash, b) <==> a == b
  {
    LexConcat(codeHash, a, codeHash, b);
    PrimaryKeyParts(codeHash, a);
    PrimaryKeyParts(codeHash, b);
  }

  lemma ScanMore(range: set<Key>, rest: set<Key>, codeHash: Hash, visited: seq<Address>, cached: set<Account>, address: Address)
    requires IsScan(range, rest, codeHash, visited, cached) && rest <= range
    requires PrimaryKey(codeHash, address) in rest && AccountOf(address) in cached
    requires forall other :: other in rest ==> LexLeq(PrimaryKey(codeHash, address), other)
    ensures IsScan(range, rest - {PrimaryKey(codeHash, address)}, codeHash, visited + [address], cached)
  {
    var more, left := visited + [address], rest - {PrimaryKey(codeHash, address)};
    forall other: Address
      ensures other in more <==> other in visited || other == address
      ensures PrimaryKey(codeHash, other) in left ==> LexLeq(address, other) && address != other
      ensures other in more <==> PrimaryKey(codeHash, other) in range && PrimaryKey(codeHash, other) !in left
    {
      AddressOrder(codeHash, address, other);
    }
  }

  lemma ScanSkips(range: set<Key>, rest: set<Key>, codeHash: Hash, visited: seq<Address>, cached: set<Account>, key: Key)
    requires IsScan(range, rest, codeHash, visited, cached) && |key| != PRIMARY_KEY_LEN
    ensures IsScan(range, rest - {key}, codeHash, visited, cached)
  {
  }

  /** The visited addresses are all those below the first of the rest. */
  lemma ScanStops(range: set<Key>, rest: set<Key>, codeHash: Hash, visited: seq<Address>, cached: set<Account>, address: Address)
    requires IsScan(range, rest, codeHash, visited, cached) && rest <= range
    requires PrimaryKey(codeHash, address) in rest
    requires forall other :: other in rest ==> LexLeq(PrimaryKey(codeHash, address), other)
    ensures forall other: Address :: other in visited <==> PrimaryKey(codeHash, other) in range && IsBefore(other, Some(address))
  {
    forall other: Address
      ensures other in visited <==> PrimaryKey(codeHash, other) in range && IsBefore(other, Some(address))
    {
      AddressOrder(codeHash, address, other);
      LexOrder(address, other, other);
    }
  }

  /** A primary key is in the scanned range iff it starts with the code hash and is not the cut off one. */
  lemma ScanRange(codeHash: Hash, hash: Hash, address: Address)
    ensures LexLeq(codeHash + seq(33, _ => 0), hash + address) && LexLeq(hash + address, codeHash + seq(33, _ => 0xff))
            && hash + address != codeHash + seq(33, _ => 0xff)
       <==> hash == codeHash && address != LastAddress()
  {
    var low, high: seq<Byte> := seq(33, _ => 0), seq(33, _ => 0xff);
    LexConcat(codeHash, low, hash, address);
    LexConcat(hash, address, codeHash, high);
    LexExtremes(low, address, high);
    LexValues(codeHash, hash);
    LexValues(hash, codeHash);
    if hash + address == codeHash + high {
      assert (hash + address)[..32] == hash && (codeHash + high)[..32] == codeHash;
      assert (hash + address)[32..] == address && (codeHash + high)[32..] == high;
    }
  }

  function PutCode(index: Index, address: Address, code: Option<Hash>): Index {
    match code
    case None => index
    case Some(hash) => ApplyOp(ApplyOp(index, PutPrimary(PrimaryKey(hash, address))), PutSecondary(address, hash))
  }

  /** One more account adds its entry to both indexes, if it holds code. */
  lemma PutOne(index: Index, workchain: int, done: Accounts, id: Account, state: AccountState)
    requires id in done ==> done[id] == state
    ensures PutAll(index, workchain, done[id := state])
         == PutCode(PutAll(index, workchain, done), AddressOf(workchain, id), ExtractCodeHash(state))
  {
    PutOneCode(workchain, done, id, state);
    PutOnePrimary(workchain, done, id, state);
    JoinOne(index, Index(PrimaryKeys(workchain, done), CodeMap(workchain, done)), AddressOf(workchain, id), ExtractCodeHash(state));
  }

  /** Joining two indexes after an entry is put into the second, or before it is put into both. */
  lemma JoinOne(index: Index, more: Index, address: Address, code: Option<Hash>)
    ensures var keys := if code.Some? then {PrimaryKey(code.value, address)} else {};
            var codes := if code.Some? then more.secondary[address := code.value] else more.secondary;
            Index(index.primary + (more.primary + keys), index.secondary + codes) ==
            PutCode(Index(index.primary + more.primary, index.secondary + more.secondary), address, code)
  {
    match code
    case None => assert more.primary + {} == more.primary;
    case Some(hash) =>
      assert index.secondary + more.secondary[address := hash] == (index.secondary + more.secondary)[address := hash];
  }

  lemma PutOnePrimary(workchain: int, done: Accounts, id: Account, state: AccountState)
    requires id in done ==> done[id] == state
    ensures PrimaryKeys(workchain, done[id := state]) == PrimaryKeys(workchain, done) +
              (if ExtractCodeHash(state).Some? then {PrimaryKey(ExtractCodeHash(state).value, AddressOf(workchain, id))} else {})
  {
    var more := done[id := state];
    assert more.Keys == done.Keys + {id};
    forall key | key in PrimaryKeys(workchain, done) ensures key in PrimaryKeys(workchain, more) {
      var account :| account in done && ExtractCodeHash(done[account]).Some?
                     && key == PrimaryKey(ExtractCodeHash(done[account]).value, AddressOf(workchain, account));
      assert more[account] == done[account];
    }
    forall key | key in PrimaryKeys(workchain, more)
      ensures key in PrimaryKeys(workchain, done)
              || (ExtractCodeHash(state).Some? && key == PrimaryKey(ExtractCodeHash(state).value, AddressOf(workchain, id)))
    {
      var account :| account in more && ExtractCodeHash(more[account]).Some?
                     && key == PrimaryKey(ExtractCodeHash(more[account]).value, AddressOf(workchain, account));
      if account != id {
        assert more[account] == done[account];
      }
    }
    if ExtractCodeHash(state).Some? {
      assert more[id] == state;
    }
  }

  lemma PutOneCode(workchain: int, done: Accounts, id: Account, state: AccountState)
    requires id in done ==> done[id] == state
    ensures CodeMap(workchain, done[id := state])
         == if ExtractCodeHash(state).Some? then CodeMap(workchain, done)[AddressOf(workchain, id) := ExtractCodeHash(state).value]
            else CodeMap(workchain, done)
  {
    var more := done[id := state];
    var before, after := CodeMap(workchain, done), CodeMap(workchain, more);
    var code := ExtractCodeHash(state);
    CodeMapKeys(workchain, done);
    CodeMapKeys(workchain, more);
    forall key: Key ensures Lookup(after, key) == if key == AddressOf(workchain, id) && code.Some? then code else Lookup(before, key) {
      if |key| == SECONDARY_KEY_LEN {
        CodeMapLookup(workchain, done, key);
        CodeMapLookup(workchain, more, key);
        AddressInjective(workchain, AccountOf(key), id);
      }
    }
    MapsAgree(after, if code.Some? then before[AddressOf(workchain, id) := code.value] else before);
  }

  lemma MapsAgree(a: map<Key, Hash>, b: map<Key, Hash>)
    requires forall key: Key :: Lookup(a, key) == Lookup(b, key)
    ensures a == b
  {
    forall key: Key ensures key in a <==> key in b {
      assert Lookup(a, key) == Lookup(b, key);
    }
    forall key | key in a ensures a[key] == b[key] {
      assert Lookup(a, key) == Lookup(b, key);
    }
  }

  /** The greatest key of a shard belongs to its range. */
  lemma KeyRangeTop(shard: ShardIdent)
    ensures InKeyRange(shard, [WorkchainByte(shard.workchain)] + AccountBound(shard, true))
  {
    var top := AccountBound(shard, true);
    var address: Address := [WorkchainByte(shard.workchain)] + top;
    assert AccountOf(address) == top;
    AccountBoundBits(shard, true);
    assert shard.Path() + Repeat(true, 256 - shard.PrefixLen()) == AccountBits(top);
    KeyRangeExact(shard, address);
  }

  lemma FullShard(shard: ShardIdent, account: Account)
    ensures shard.IsFull() ==> InShard(shard, account)
  {
    FullPath(shard);
  }

  /** The three possible shapes of a change do replace the old code by the new one. */
  lemma ReplaceOps(address: Address, prior: Option<Hash>, code: Option<Hash>, ops: seq<Op>)
    requires !(prior.Some? && prior == code)
    requires ops == (if prior.Some? then [DeletePrimary(PrimaryKey(prior.value, address))] else [])
                  + (if code.Some? then [PutPrimary(PrimaryKey(code.value, address)), PutSecondary(address, code.value)]
                     else [DeleteSecondary(address)])
    ensures Replaces(ops, address, prior, code)
  {
    var first := if prior.Some? then [DeletePrimary(PrimaryKey(prior.value, address))] else [];
    var second := ops[|first|..];
    forall index: Index | Lookup(index.secondary, address) == prior
      ensures Apply(index, ops) == SetCode(index, address, code)
    {
      ApplyAppend(index, first, second);
      var mid := Apply(index, first);
      if code.Some? {
        ApplyAppend(mid, second[..1], second[1..]);
      }
    }
  }

  /** A batch that has the effect of some account blocks has that of one more, once its operations are appended. */
  lemma BatchGrows(index: Index, workchain: int, blocks: seq<AccountBlock>, i: nat, accounts: Accounts,
                   before: seq<Op>, batch: seq<Op>)
    requires DistinctAccounts(blocks) && i < |blocks|
    requires Apply(index, before) == UpdatedIndex(index, workchain, blocks[..i], accounts)
    requires IsChange(index, workchain, blocks[i], accounts, before, batch)
    ensures Apply(index, batch) == UpdatedIndex(index, workchain, blocks[..i + 1], accounts)
  {
    UpdatedMore(index, workchain, blocks, i, accounts);
    UntouchedAccount(index, workchain, blocks[..i], accounts, blocks[i].account);
    ChangeApplies(index, UpdatedIndex(index, workchain, blocks[..i], accounts), workchain, blocks[i], accounts, before, batch);
  }

  /** The batch has grown by the change of one account as decided, with the prior code read from the index. */
  ghost predicate IsChange(index: Index, workchain: int, block: AccountBlock, accounts: Accounts, before: seq<Op>, batch: seq<Op>) {
    var address := AddressOf(workchain, block.account);
    match Decide(block.transactions)
    case Keep => batch == before
    case Remove => before <= batch && Replaces(batch[|before|..], address, Lookup(index.secondary, address), None)
    case Store =>
      before <= batch && Replaces(batch[|before|..], address, Lookup(index.secondary, address),
                                  ExtractCodeHash(GetAccount(accounts, block.account)))
  }

  lemma ChangeApplies(index: Index, part: Index, workchain: int, block: AccountBlock, accounts: Accounts,
                      before: seq<Op>, batch: seq<Op>)
    requires Apply(index, before) == part && IsChange(index, workchain, block, accounts, before, batch)
    requires Lookup(part.secondary, AddressOf(workchain, block.account)) == Lookup(index.secondary, AddressOf(workchain, block.account))
    ensures Apply(index, batch) == AccountBlockIndex(part, workchain, block, accounts)
  {
    var address := AddressOf(workchain, block.account);
    match Decide(block.transactions)
    case Keep =>
    case Remove =>
      PrefixAndRest(before, batch);
      AppendReplaces(index, part, before, batch[|before|..], address, None);
    case Store =>
      PrefixAndRest(before, batch);
      AppendReplaces(index, part, before, batch[|before|..], address, ExtractCodeHash(GetAccount(accounts, block.account)));
  }

  lemma UpdatedMore(index: Index, workchain: int, blocks: seq<AccountBlock>, i: nat, accounts: Accounts)
    requires i < |blocks|
    ensures UpdatedIndex(index, workchain, blocks[..i + 1], accounts) ==
            AccountBlockIndex(UpdatedIndex(index, workchain, blocks[..i], accounts), workchain, blocks[i], accounts)
  {
    assert Init(blocks[..i + 1]) == blocks[..i] && Last(blocks[..i + 1]) == blocks[i];
  }

  lemma PrefixAndRest<T>(prefix: seq<T>, s: seq<T>)
    requires prefix <= s
    ensures s == prefix + s[|prefix|..]
  {
  }

  lemma AppendReplaces(index: Index, part: Index, before: seq<Op>, more: seq<Op>, address: Address, code: Option<Hash>)
    requires Apply(index, before) == part
    requires Replaces(more, address, Lookup(part.secondary, address), code)
    ensures Apply(index, before + more) == SetCode(part, address, code)
  {
    var after := Apply(part, more);
    assert after == SetCode(part, address, code);
    ApplyAppend(index, before, more);
  }

  /** Changes of other accounts leave an account's secondary entry alone. */
  lemma {:induction false} UntouchedAccount(index: Index, workchain: int, blocks: seq<AccountBlock>, accounts: Accounts, account: Account)
    requires forall i :: 0 <= i < |blocks| ==> blocks[i].account != account
    ensures Lookup(UpdatedIndex(index, workchain, blocks, accounts).secondary, AddressOf(workchain, account))
         == Lookup(index.secondary, AddressOf(workchain, account))
  {
    if blocks != [] {
      UntouchedAccount(index, workchain, Init(blocks), accounts, account);
      AddressInjective(workchain, account, Last(blocks).account);
    }
  }
}
