/** Which accounts hold which code: a primary index by code hash and a secondary one by address. */
module CodeHashIndex {
  import opened Words
  import opened Wrappers
  import opened Shards

  const PRIMARY_KEY_LEN: nat := 65
  const SECONDARY_KEY_LEN: nat := 33

  type Hash = h: seq<Byte> | |h| == 32 witness seq(32, _ => 0)
  type Key = seq<Byte>
  /** A workchain byte and an account. */
  type Address = k: Key | |k| == SECONDARY_KEY_LEN witness seq(33, _ => 0)

  datatype Status = NonExist | Uninit | Frozen | Active

  datatype AccountState = AccountNone | AccountUninit | AccountFrozen | AccountActive(code: Option<Hash>)

  type Accounts = map<Account, AccountState>

  datatype Index = Index(primary: set<Key>, secondary: map<Key, Hash>)

  function ExtractCodeHash(state: AccountState): Option<Hash> {
    if state.AccountActive? then state.code else None
  }

  function GetAccount(accounts: Accounts, account: Account): AccountState {
    if account in accounts then accounts[account] else AccountNone
  }

  // ---- keys ----

  /** `workchain as u8` of an `i8`. */
  function WorkchainByte(workchain: int): Byte {
    workchain % 256
  }

  predicate IsByteWorkchain(workchain: int) {
    -128 <= workchain < 128
  }

  function AddressOf(workchain: int, account: Account): Address {
    [WorkchainByte(workchain)] + account
  }

  function AccountOf(address: Address): Account {
    address[1..]
  }

  function PrimaryKey(hash: Hash, address: Address): Key {
    hash + address
  }

  /** Workchains of the indexes are told apart by their byte. */
  lemma WorkchainsApart(a: int, b: int)
    requires -128 <= a < 128 && -128 <= b < 128
    ensures IsByteWorkchain(a) && (WorkchainByte(a) == WorkchainByte(b) <==> a == b)
    ensures a >= 0 ==> WorkchainByte(a) == a
  {
  }

  /** The address belongs to an account of the shard. */
  predicate InShardAddress(shard: ShardIdent, address: Address) {
    address[0] == WorkchainByte(shard.workchain) && InShard(shard, AccountOf(address))
  }

  lemma PrimaryKeyInjective(h: Hash, a: Address, g: Hash, b: Address)
    requires PrimaryKey(h, a) == PrimaryKey(g, b)
    ensures h == g && a == b
  {
    assert PrimaryKey(h, a)[..32] == h && PrimaryKey(g, b)[..32] == g;
    assert PrimaryKey(h, a)[32..] == a && PrimaryKey(g, b)[32..] == b;
  }

  // ---- what the indexes should hold ----

  /** The last observed state of every account, by address. */
  type World = map<Key, AccountState>

  /** The code that is live at an address of the world. */
  function CodeAt(world: World, address: Key): Option<Hash> {
    if address !in world then None
    else
      match world[address]
      case AccountActive(code) => code
      case AccountNone => None
      case AccountUninit => None
      case AccountFrozen => None
  }

  function Lookup(secondary: map<Key, Hash>, address: Key): Option<Hash> {
    if address in secondary then Some(secondary[address]) else None
  }

  /** The two key sets are inverses of each other. */
  ghost predicate Inverse(index: Index) {
    && (forall key :: key in index.secondary ==> |key| == SECONDARY_KEY_LEN)
    && (forall key :: key in index.primary <==>
          |key| == PRIMARY_KEY_LEN && Lookup(index.secondary, key[32..]) == Some(key[..32]))
  }

  /** On the known addresses the indexes hold exactly the active accounts with code, under their current code hash. */
  ghost predicate Exact(index: Index, world: World, known: iset<Address>) {
    && (forall address: Address :: address in known ==> Lookup(index.secondary, address) == CodeAt(world, address))
    && (forall key: Key :: |key| == PRIMARY_KEY_LEN && key[32..] in known ==>
          (key in index.primary <==> CodeAt(world, key[32..]) == Some(key[..32])))
  }

  /** Whatever was maintained incrementally equals, address by address, what is built from scratch. */
  lemma ExactIsUnique(i: Index, j: Index, world: World, known: iset<Address>)
    requires Exact(i, world, known) && Exact(j, world, known)
    ensures forall address :: address in known ==> Lookup(i.secondary, address) == Lookup(j.secondary, address)
    ensures forall hash: Hash, address :: address in known ==>
              (PrimaryKey(hash, address) in i.primary <==> PrimaryKey(hash, address) in j.primary)
  {
    forall hash: Hash, address | address in known
      ensures PrimaryKey(hash, address) in i.primary <==> PrimaryKey(hash, address) in j.primary
    {
      PrimaryKeyParts(hash, address);
    }
  }

  lemma ExactDependsOnCode(index: Index, world: World, known: iset<Address>, world': World, known': iset<Address>)
    requires Exact(index, world, known)
    requires forall address :: address in known' ==> address in known && CodeAt(world', address) == CodeAt(world, address)
    ensures Exact(index, world', known')
  {
    forall key: Key | |key| == PRIMARY_KEY_LEN && key[32..] in known'
      ensures key in index.primary <==> CodeAt(world', key[32..]) == Some(key[..32])
    {
      var address: Address := key[32..];
    }
  }

  // ---- one account ----

  /** Replaces whatever the indexes hold for an address, unless it is the same already. */
  function SetCode(index: Index, address: Address, code: Option<Hash>): Index {
    var prior := Lookup(index.secondary, address);
    var rest := if prior.Some? then index.primary - {PrimaryKey(prior.value, address)} else index.primary;
    if prior == code then index else
      match code
      case Some(hash) => Index(rest + {PrimaryKey(hash, address)}, index.secondary[address := hash])
      case None => Index(rest, index.secondary - {address})
  }

  lemma PrimaryKeyParts(hash: Hash, address: Address)
    ensures PrimaryKey(hash, address)[..32] == hash && PrimaryKey(hash, address)[32..] == address
  {
  }

  /** Replacing one account's entry follows that account's change in the world. */
  lemma SetCodeExact(index: Index, world: World, known: iset<Address>, address: Address, code: Option<Hash>, world': World)
    requires Exact(index, world, known) && address in known
    requires CodeAt(world', address) == code
    requires forall other: Address :: other in known && other != address ==> CodeAt(world', other) == CodeAt(world, other)
    ensures Exact(SetCode(index, address, code), world', known)
  {
    var after := SetCode(index, address, code);
    var prior := Lookup(index.secondary, address);
    forall key: Key | |key| == PRIMARY_KEY_LEN && key[32..] in known
      ensures key in after.primary <==> CodeAt(world', key[32..]) == Some(key[..32])
    {
      var other: Address := key[32..];
      assert key == key[..32] + key[32..];
      if prior.Some? { PrimaryKeyParts(prior.value, address); }
      if code.Some? { PrimaryKeyParts(code.value, address); }
    }
  }

  /** Replacing the code at an address that is not known says nothing about the others. */
  lemma SetCodeElsewhere(index: Index, world: World, known: iset<Address>, address: Address, code: Option<Hash>, world': World)
    requires Exact(index, world, known) && address !in known
    requires forall other: Address :: other in known ==> CodeAt(world', other) == CodeAt(world, other)
    ensures Exact(SetCode(index, address, code), world', known)
  {
    var after := SetCode(index, address, code);
    forall key: Key | |key| == PRIMARY_KEY_LEN && key[32..] in known
      ensures key in after.primary <==> key in index.primary
    {
      forall hash: Hash ensures key != PrimaryKey(hash, address) {
        PrimaryKeyParts(hash, address);
      }
    }
  }

  lemma SetCodeInverse(index: Index, address: Address, code: Option<Hash>)
    requires Inverse(index)
    ensures Inverse(SetCode(index, address, code))
  {
    var after := SetCode(index, address, code);
    var prior := Lookup(index.secondary, address);
    forall key: Key
      ensures key in after.primary <==>
                |key| == PRIMARY_KEY_LEN && Lookup(after.secondary, key[32..]) == Some(key[..32])
    {
      if |key| == PRIMARY_KEY_LEN { assert key == key[..32] + key[32..]; }
      if prior.Some? { PrimaryKeyParts(prior.value, address); }
      if code.Some? { PrimaryKeyParts(code.value, address); }
    }
  }

  datatype Op = PutPrimary(key: Key) | DeletePrimary(key: Key) | PutSecondary(key: Key, hash: Hash) | DeleteSecondary(key: Key)

  function ApplyOp(index: Index, op: Op): Index {
    match op
    case PutPrimary(key) => index.(primary := index.primary + {key})
    case DeletePrimary(key) => index.(primary := index.primary - {key})
    case PutSecondary(key, hash) => index.(secondary := index.secondary[key := hash])
    case DeleteSecondary(key) => index.(secondary := index.secondary - {key})
  }

  /** A write batch takes effect in order. */
  function Apply(index: Index, batch: seq<Op>): Index {
    if batch == [] then index else ApplyOp(Apply(index, batch[..|batch| - 1]), batch[|batch| - 1])
  }

  lemma {:induction false} ApplyAppend(index: Index, a: seq<Op>, b: seq<Op>)
    ensures Apply(index, a + b) == Apply(Apply(index, a), b)
  {
    if b == [] {
      assert a + b == a;
    } else {
      var n := |b| - 1;
      ApplyAppend(index, a, b[..n]);
      assert (a + b)[..|a + b| - 1] == a + b[..n];
    }
  }

  /** On any index that holds prior for the address, the batch replaces it by code. */
  ghost predicate Replaces(batch: seq<Op>, address: Address, prior: Option<Hash>, code: Option<Hash>) {
    forall index: Index ::
      Lookup(index.secondary, address) == prior ==> Apply(index, batch) == SetCode(index, address, code)
  }

  // ---- blocks ----

  /** An action phase, if there was one, may hold special actions such as a change of code. */
  datatype Transaction = Transaction(origStatus: Status, endStatus: Status, specActions: Option<nat>)

  datatype AccountBlock = AccountBlock(account: Account, transactions: seq<Transaction>)

  predicate WasActive(txs: seq<Transaction>) {
    txs != [] && txs[0].origStatus == Active
  }

  predicate IsActive(txs: seq<Transaction>) {
    txs != [] && txs[|txs| - 1].endStatus == Active
  }

  /** A special action, or a deletion before of an account that was there at first. */
  predicate IsSpecial(txs: seq<Transaction>, tx: Transaction) {
    (tx.specActions.Some? && tx.specActions.value != 0) || (WasActive(txs) && tx.origStatus != Active)
  }

  predicate HasSpecialActions(txs: seq<Transaction>) {
    exists i :: 0 <= i < |txs| && IsSpecial(txs, txs[i])
  }

  /** The marks of an account's transactions: the first and the last status, and what happens in between. */
  lemma MarksExactly(txs: seq<Transaction>)
    ensures WasActive(txs) <==> txs != [] && txs[0].origStatus == Active
    ensures IsActive(txs) <==> txs != [] && txs[|txs| - 1].endStatus == Active
    ensures HasSpecialActions(txs) <==>
              exists i :: 0 <= i < |txs| && ((txs[i].specActions.Some? && txs[i].specActions.value > 0) ||
                                             (txs[0].origStatus == Active && txs[i].origStatus != Active))
  {
    if i :| 0 <= i < |txs| && ((txs[i].specActions.Some? && txs[i].specActions.value > 0) ||
                               (txs[0].origStatus == Active && txs[i].origStatus != Active)) {
      assert IsSpecial(txs, txs[i]);
    }
  }

  datatype CodeUpdate = Store | Remove | Keep

  function Decide(txs: seq<Transaction>): CodeUpdate {
    if IsActive(txs) && (!WasActive(txs) || HasSpecialActions(txs)) then Store
    else if WasActive(txs) && !IsActive(txs) then Remove
    else Keep
  }

  /** What a transaction may do to an account: an account that stays live keeps its code, unless there are special actions. */
  ghost predicate Step(before: AccountState, tx: Transaction, after: AccountState) {
    && (tx.origStatus == Active <==> before.AccountActive?)
    && (tx.endStatus == Active <==> after.AccountActive?)
    && (before.AccountActive? && after.AccountActive? && (tx.specActions == None || tx.specActions == Some(0)) ==>
          before.code == after.code)
  }

  /** The transactions, in order, lead from one state to the other. */
  ghost predicate Leads(before: AccountState, txs: seq<Transaction>, after: AccountState)
    decreases |txs|
  {
    if txs == [] then before == after
    else exists mid :: Leads(before, Init(txs), mid) && Step(mid, Last(txs), after)
  }

  function Init<T>(s: seq<T>): (r: seq<T>)
    requires s != []
    ensures |r| < |s|
  {
    s[..|s| - 1]
  }

  function Last<T>(s: seq<T>): T
    requires s != []
  {
    s[|s| - 1]
  }

  /** Deciding by flags is sound: the code changes as decided, or not at all. */
  lemma DecideIsSound(before: AccountState, txs: seq<Transaction>, after: AccountState)
    requires Leads(before, txs, after)
    ensures Decide(txs) == Remove ==> ExtractCodeHash(after) == None
    ensures Decide(txs) == Keep ==> ExtractCodeHash(after) == ExtractCodeHash(before)
  {
    LeadsEnds(before, txs, after);
    if WasActive(txs) && IsActive(txs) && !HasSpecialActions(txs) {
      LeadsKeepsCode(before, txs, after);
    }
  }

  lemma {:induction false} LeadsEnds(before: AccountState, txs: seq<Transaction>, after: AccountState)
    requires Leads(before, txs, after)
    ensures txs == [] ==> before == after
    ensures txs != [] ==> (txs[0].origStatus == Active <==> before.AccountActive?)
    ensures txs != [] ==> (txs[|txs| - 1].endStatus == Active <==> after.AccountActive?)
  {
    if txs != [] {
      var n := |txs| - 1;
      var mid :| Leads(before, Init(txs), mid) && Step(mid, Last(txs), after);
      LeadsEnds(before, Init(txs), mid);
    }
  }

  lemma {:induction false} LeadsKeepsCode(before: AccountState, txs: seq<Transaction>, after: AccountState)
    requires Leads(before, txs, after)
    requires before.AccountActive? && after.AccountActive?
    requires forall i :: 0 <= i < |txs| ==> txs[i].origStatus == Active
    requires forall i :: 0 <= i < |txs| ==> !(txs[i].specActions.Some? && txs[i].specActions.value != 0)
    ensures after == before
  {
    if txs != [] {
      var n := |txs| - 1;
      var mid :| Leads(before, Init(txs), mid) && Step(mid, Last(txs), after);
      LeadsKeepsCode(before, Init(txs), mid);
    }
  }

  // ---- the effect of a block ----

  predicate DistinctAccounts(blocks: seq<AccountBlock>) {
    forall i, j :: 0 <= i < j < |blocks| ==> blocks[i].account != blocks[j].account
  }

  /** A changed account gets the code of its state after the block, as its transactions require. */
  function AccountBlockIndex(index: Index, workchain: int, block: AccountBlock, accounts: Accounts): Index {
    var address := AddressOf(workchain, block.account);
    match Decide(block.transactions)
    case Store => SetCode(index, address, ExtractCodeHash(GetAccount(accounts, block.account)))
    case Remove => SetCode(index, address, None)
    case Keep => index
  }

  function UpdatedIndex(index: Index, workchain: int, blocks: seq<AccountBlock>, accounts: Accounts): Index {
    if blocks == [] then index else
      AccountBlockIndex(UpdatedIndex(index, workchain, Init(blocks), accounts), workchain, Last(blocks), accounts)
  }

  function StateAt(world: World, address: Key): AccountState {
    if address in world then world[address] else AccountNone
  }

  /** A block takes the shard's known accounts from the observed world to the given ones, transaction by transaction. */
  ghost predicate IsBlock(world: World, known: iset<Address>, shard: ShardIdent, blocks: seq<AccountBlock>, accounts: Accounts) {
    && DistinctAccounts(blocks)
    && (forall account :: account in accounts ==> InShard(shard, account))
    && (forall i :: 0 <= i < |blocks| ==>
          InShard(shard, blocks[i].account) && Explains(world, known, shard.workchain, blocks[i], accounts))
    && (forall account: Account :: InShard(shard, account) && AddressOf(shard.workchain, account) in known ==>
          (exists i :: 0 <= i < |blocks| && blocks[i].account == account)
          || GetAccount(accounts, account) == StateAt(world, AddressOf(shard.workchain, account)))
  }

  /** If the account's state before is known, the transactions lead from it to the state after. */
  ghost predicate Explains(world: World, known: iset<Address>, workchain: int, block: AccountBlock, accounts: Accounts) {
    AddressOf(workchain, block.account) in known ==>
      Leads(StateAt(world, AddressOf(workchain, block.account)), block.transactions, GetAccount(accounts, block.account))
  }

  /** The addresses of a shard's accounts. */
  ghost function ShardAddresses(shard: ShardIdent): iset<Address> {
    iset address: Address | InShardAddress(shard, address)
  }

  /** The world after observing a shard's complete accounts. */
  ghost function Observe(world: World, shard: ShardIdent, accounts: Accounts): World {
    (map key | key in world && !(|key| == SECONDARY_KEY_LEN && InShardAddress(shard, key)) :: world[key])
    + AccountsWorld(shard.workchain, accounts)
  }

  ghost function AccountsWorld(workchain: int, accounts: Accounts): (world: World)
    ensures forall account :: account in accounts ==>
              AddressOf(workchain, account) in world && world[AddressOf(workchain, account)] == accounts[account]
    ensures forall key :: key in world ==>
              |key| == SECONDARY_KEY_LEN && key[0] == WorkchainByte(workchain) && AccountOf(key) in accounts
  {
    map address | address in (set account | account in accounts :: AddressOf(workchain, account)) :: accounts[AccountOf(address)]
  }

  lemma ObserveCode(world: World, shard: ShardIdent, accounts: Accounts, address: Address)
    requires forall account :: account in accounts ==> InShard(shard, account)
    ensures StateAt(Observe(world, shard, accounts), address)
         == if InShardAddress(shard, address) then GetAccount(accounts, AccountOf(address)) else StateAt(world, address)
    ensures CodeAt(world, address) == ExtractCodeHash(StateAt(world, address))
  {
    var account := AccountOf(address);
    assert address == [address[0]] + account;
    if InShardAddress(shard, address) {
      assert address == AddressOf(shard.workchain, account);
    }
  }

  /** The world after only some of a block's accounts have changed. */
  ghost function PartWorld(world: World, workchain: int, blocks: seq<AccountBlock>, accounts: Accounts): World {
    if blocks == [] then world else
      PartWorld(world, workchain, Init(blocks), accounts)[AddressOf(workchain, Last(blocks).account) := GetAccount(accounts, Last(blocks).account)]
  }

  lemma AddressInjective(workchain: int, a: Account, b: Account)
    ensures AccountOf(AddressOf(workchain, a)) == a
    ensures AddressOf(workchain, a) == AddressOf(workchain, b) <==> a == b
  {
    assert AddressOf(workchain, a)[1..] == a && AddressOf(workchain, b)[1..] == b;
  }

  lemma {:induction false} PartWorldStates(world: World, workchain: int, blocks: seq<AccountBlock>, accounts: Accounts, address: Address)
    ensures var part := PartWorld(world, workchain, blocks, accounts);
            StateAt(part, address) ==
              if exists i :: 0 <= i < |blocks| && AddressOf(workchain, blocks[i].account) == address
              then GetAccount(accounts, AccountOf(address)) else StateAt(world, address)
  {
    if blocks != [] {
      PartWorldStates(world, workchain, Init(blocks), accounts, address);
      AddressInjective(workchain, Last(blocks).account, AccountOf(address));
      if i :| 0 <= i < |blocks| && AddressOf(workchain, blocks[i].account) == address {
        if i < |blocks| - 1 {
          assert Init(blocks)[i] == blocks[i];
        }
      }
    }
  }

  /** One account block keeps the indexes exact. */
  lemma AccountBlockExact(index: Index, world: World, known: iset<Address>, workchain: int, block: AccountBlock, accounts: Accounts)
    requires Exact(index, world, known) && Explains(world, known, workchain, block, accounts)
    ensures Exact(AccountBlockIndex(index, workchain, block, accounts),
                  world[AddressOf(workchain, block.account) := GetAccount(accounts, block.account)], known)
  {
    var address, state := AddressOf(workchain, block.account), GetAccount(accounts, block.account);
    var after := world[address := state];
    if address !in known {
      SetCodeElsewhere(index, world, known, address, ExtractCodeHash(state), after);
      SetCodeElsewhere(index, world, known, address, None, after);
      ExactDependsOnCode(index, world, known, after, known);
      return;
    }
    DecideIsSound(StateAt(world, address), block.transactions, state);
    match Decide(block.transactions) {
      case Store => SetCodeExact(index, world, known, address, ExtractCodeHash(state), after);
      case Remove => SetCodeExact(index, world, known, address, None, after);
      case Keep => ExactDependsOnCode(index, world, known, after, known);
    }
  }

  lemma {:induction false} UpdateExactPart(index: Index, world: World, known: iset<Address>, shard: ShardIdent,
                                           blocks: seq<AccountBlock>, accounts: Accounts)
    requires Exact(index, world, known) && DistinctAccounts(blocks)
    requires forall i :: 0 <= i < |blocks| ==> Explains(world, known, shard.workchain, blocks[i], accounts)
    ensures Exact(UpdatedIndex(index, shard.workchain, blocks, accounts),
                  PartWorld(world, shard.workchain, blocks, accounts), known)
  {
    if blocks != [] {
      var rest, block, wc := Init(blocks), Last(blocks), shard.workchain;
      assert forall i :: 0 <= i < |rest| ==> rest[i] == blocks[i];
      UpdateExactPart(index, world, known, shard, rest, accounts);
      var address := AddressOf(wc, block.account);
      forall i | 0 <= i < |rest| ensures AddressOf(wc, rest[i].account) != address {
        AddressInjective(wc, rest[i].account, block.account);
      }
      PartWorldStates(world, wc, rest, accounts, address);
      AccountBlockExact(UpdatedIndex(index, wc, rest, accounts), PartWorld(world, wc, rest, accounts), known, wc, block, accounts);
    }
  }

  /** Once all account blocks are applied the world is the observed one. */
  lemma PartIsObserved(world: World, known: iset<Address>, shard: ShardIdent, blocks: seq<AccountBlock>, accounts: Accounts,
                       address: Address)
    requires IsBlock(world, known, shard, blocks, accounts) && address in known
    ensures StateAt(Observe(world, shard, accounts), address) == StateAt(PartWorld(world, shard.workchain, blocks, accounts), address)
  {
    var wc, account := shard.workchain, AccountOf(address);
    ObserveCode(world, shard, accounts, address);
    PartWorldStates(world, wc, blocks, accounts, address);
    assert address == [address[0]] + account;
    if InShardAddress(shard, address) {
      assert address == AddressOf(wc, account);
      if i :| 0 <= i < |blocks| && blocks[i].account == account {
        assert AddressOf(wc, blocks[i].account) == address;
      } else {
        forall i | 0 <= i < |blocks| ensures AddressOf(wc, blocks[i].account) != address {
          AddressInjective(wc, blocks[i].account, account);
        }
      }
    } else {
      forall i | 0 <= i < |blocks| ensures AddressOf(wc, blocks[i].account) != address {
        AddressInjective(wc, blocks[i].account, account);
      }
    }
  }

  /** Updating from a block keeps the indexes exact for the world after the block. */
  lemma UpdateKeepsExact(index: Index, world: World, known: iset<Address>, shard: ShardIdent,
                         blocks: seq<AccountBlock>, accounts: Accounts)
    requires Exact(index, world, known)
    requires IsBlock(world, known, shard, blocks, accounts)
    ensures Exact(UpdatedIndex(index, shard.workchain, blocks, accounts), Observe(world, shard, accounts), known)
  {
    var wc := shard.workchain;
    UpdateExactPart(index, world, known, shard, blocks, accounts);
    var part, seen := PartWorld(world, wc, blocks, accounts), Observe(world, shard, accounts);
    forall address: Address | address in known ensures CodeAt(seen, address) == CodeAt(part, address) {
      PartIsObserved(world, known, shard, blocks, accounts, address);
    }
    ExactDependsOnCode(UpdatedIndex(index, wc, blocks, accounts), part, known, seen, known);
  }

  // ---- wiping and rebuilding a shard ----

  predicate InKeyRange(shard: ShardIdent, key: Key) {
    LexLeq([WorkchainByte(shard.workchain)] + AccountBound(shard, false), key)
    && LexLeq(key, [WorkchainByte(shard.workchain)] + AccountBound(shard, true))
  }

  /** The indexes without the shard's entries and without malformed primary keys. */
  ghost function WithoutShard(index: Index, shard: ShardIdent): Index {
    Index(set key | key in index.primary && |key| == PRIMARY_KEY_LEN && !InShardAddress(shard, key[32..]),
          map key | key in index.secondary && !InKeyRange(shard, key) :: index.secondary[key])
  }

  /** A well-formed key is in the deleted range iff its account is in the shard. */
  lemma KeyRangeExact(shard: ShardIdent, address: Address)
    ensures InKeyRange(shard, address) <==> InShardAddress(shard, address)
  {
    var wc := WorkchainByte(shard.workchain);
    var account := AccountOf(address);
    assert address == [address[0]] + account;
    LexConcat([wc], AccountBound(shard, false), [address[0]], account);
    LexConcat([address[0]], account, [wc], AccountBound(shard, true));
    KeyRangeIsMembership(shard, account);
  }

  /** Exactly the shard's entries are gone from both indexes; the others, and their agreement, are untouched. */
  lemma WithoutShardEntries(index: Index, shard: ShardIdent)
    ensures forall address: Address :: Lookup(WithoutShard(index, shard).secondary, address)
              == if InShardAddress(shard, address) then None else Lookup(index.secondary, address)
    ensures forall hash: Hash, address: Address :: PrimaryKey(hash, address) in WithoutShard(index, shard).primary
              <==> PrimaryKey(hash, address) in index.primary && !InShardAddress(shard, address)
    ensures forall key :: key in WithoutShard(index, shard).primary ==> |key| == 65 && key in index.primary
    ensures Inverse(index) ==> Inverse(WithoutShard(index, shard))
  {
    var rest := WithoutShard(index, shard);
    forall address: Address
      ensures Lookup(rest.secondary, address) == if InShardAddress(shard, address) then None else Lookup(index.secondary, address)
    {
      KeyRangeExact(shard, address);
    }
    forall hash: Hash, address: Address
      ensures PrimaryKey(hash, address) in rest.primary <==> PrimaryKey(hash, address) in index.primary && !InShardAddress(shard, address)
    {
      PrimaryKeyParts(hash, address);
    }
    if Inverse(index) {
      forall key: Key
        ensures key in rest.primary <==> |key| == PRIMARY_KEY_LEN && Lookup(rest.secondary, key[32..]) == Some(key[..32])
      {
        if |key| == PRIMARY_KEY_LEN {
          KeyRangeExact(shard, key[32..]);
        }
      }
    }
  }

  /** The indexes with entries for all given accounts that hold code. */
  ghost function PutAll(index: Index, workchain: int, accounts: Accounts): Index {
    Index(index.primary + PrimaryKeys(workchain, accounts), index.secondary + CodeMap(workchain, accounts))
  }

  ghost function PrimaryKeys(workchain: int, accounts: Accounts): set<Key> {
    set account | account in accounts && ExtractCodeHash(accounts[account]).Some?
      :: PrimaryKey(ExtractCodeHash(accounts[account]).value, AddressOf(workchain, account))
  }

  ghost function CodeMap(workchain: int, accounts: Accounts): map<Key, Hash> {
    CodeKeys(workchain, accounts);
    map address | address in (set account | account in accounts && ExtractCodeHash(accounts[account]).Some? :: AddressOf(workchain, account))
      :: ExtractCodeHash(accounts[AccountOf(address)]).value
  }

  lemma CodeKeys(workchain: int, accounts: Accounts)
    ensures forall account: Account {:trigger AddressOf(workchain, account)} :: AccountOf(AddressOf(workchain, account)) == account
  {
    forall account: Account ensures AccountOf(AddressOf(workchain, account)) == account {
      AddressInjective(workchain, account, account);
    }
  }

  lemma CodeMapLookup(workchain: int, accounts: Accounts, address: Address)
    ensures Lookup(CodeMap(workchain, accounts), address)
         == if address == AddressOf(workchain, AccountOf(address)) then ExtractCodeHash(GetAccount(accounts, AccountOf(address))) else None
  {
    CodeKeys(workchain, accounts);
  }

  lemma CodeMapKeys(workchain: int, accounts: Accounts)
    ensures forall key :: key in CodeMap(workchain, accounts) ==> |key| == SECONDARY_KEY_LEN
  {
  }

  ghost function ResetIndex(index: Index, shard: ShardIdent, accounts: Accounts): Index {
    PutAll(WithoutShard(index, shard), shard.workchain, accounts)
  }

  /** A rebuilt shard is exact, and so is everything that was before. */
  lemma ResetIsExact(index: Index, world: World, known: iset<Address>, shard: ShardIdent, accounts: Accounts)
    requires Exact(index, world, known)
    requires forall account :: account in accounts ==> InShard(shard, account)
    ensures Exact(ResetIndex(index, shard, accounts), Observe(world, shard, accounts), known + ShardAddresses(shard))
  {
    forall address: Address | address in known + ShardAddresses(shard)
      ensures Lookup(ResetIndex(index, shard, accounts).secondary, address) == CodeAt(Observe(world, shard, accounts), address)
    {
      ResetSecondary(index, world, known, shard, accounts, address);
    }
    forall key: Key | |key| == PRIMARY_KEY_LEN && key[32..] in known + ShardAddresses(shard)
      ensures key in ResetIndex(index, shard, accounts).primary <==> CodeAt(Observe(world, shard, accounts), key[32..]) == Some(key[..32])
    {
      ResetPrimary(index, world, known, shard, accounts, key);
    }
  }

  /** When rebuilding fails only the shard's own entries are lost. */
  lemma WipeIsExact(index: Index, world: World, known: iset<Address>, shard: ShardIdent)
    requires Exact(index, world, known)
    ensures Exact(WithoutShard(index, shard), world, known - ShardAddresses(shard))
  {
    WithoutShardEntries(index, shard);
    forall key: Key | |key| == PRIMARY_KEY_LEN && key[32..] in known - ShardAddresses(shard)
      ensures key in WithoutShard(index, shard).primary <==> CodeAt(world, key[32..]) == Some(key[..32])
    {
      assert key == PrimaryKey(key[..32], key[32..]);
    }
  }

  lemma ResetSecondary(index: Index, world: World, known: iset<Address>, shard: ShardIdent, accounts: Accounts, address: Address)
    requires Exact(index, world, known)
    requires forall account :: account in accounts ==> InShard(shard, account)
    requires address in known + ShardAddresses(shard)
    ensures Lookup(ResetIndex(index, shard, accounts).secondary, address) == CodeAt(Observe(world, shard, accounts), address)
  {
    var wc, account := shard.workchain, AccountOf(address);
    KeyRangeExact(shard, address);
    ObserveCode(world, shard, accounts, address);
    ObserveCode(Observe(world, shard, accounts), shard, accounts, address);
    assert address == [address[0]] + account;
    AddressInjective(wc, account, account);
    CodeMapLookup(wc, accounts, address);
  }

  lemma ResetPrimary(index: Index, world: World, known: iset<Address>, shard: ShardIdent, accounts: Accounts, key: Key)
    requires Exact(index, world, known)
    requires forall account :: account in accounts ==> InShard(shard, account)
    requires |key| == PRIMARY_KEY_LEN && key[32..] in known + ShardAddresses(shard)
    ensures key in ResetIndex(index, shard, accounts).primary
       <==> CodeAt(Observe(world, shard, accounts), key[32..]) == Some(key[..32])
  {
    var address: Address, hash: Hash := key[32..], key[..32];
    assert key == PrimaryKey(hash, address);
    ResetSecondary(index, world, known, shard, accounts, address);
    CodeMapLookup(shard.workchain, accounts, address);
    PrimaryKeysLookup(shard.workchain, accounts, hash, address);
    KeyRangeExact(shard, address);
  }

  lemma PrimaryKeysLookup(workchain: int, accounts: Accounts, hash: Hash, address: Address)
    ensures PrimaryKey(hash, address) in PrimaryKeys(workchain, accounts) <==>
              Lookup(CodeMap(workchain, accounts), address) == Some(hash)
  {
    CodeMapLookup(workchain, accounts, address);
    var account := AccountOf(address);
    assert address == [address[0]] + account;
    if a :| a in accounts && ExtractCodeHash(accounts[a]).Some? && PrimaryKey(hash, address) == PrimaryKey(ExtractCodeHash(accounts[a]).value, AddressOf(workchain, a)) {
      PrimaryKeyInjective(hash, address, ExtractCodeHash(accounts[a]).value, AddressOf(workchain, a));
      AddressInjective(workchain, a, account);
    }
  }

  lemma {:induction false} UpdateInverse(index: Index, workchain: int, blocks: seq<AccountBlock>, accounts: Accounts)
    requires Inverse(index)
    ensures Inverse(UpdatedIndex(index, workchain, blocks, accounts))
  {
    if blocks != [] {
      UpdateInverse(index, workchain, Init(blocks), accounts);
      var rest, address := UpdatedIndex(index, workchain, Init(blocks), accounts), AddressOf(workchain, Last(blocks).account);
      SetCodeInverse(rest, address, ExtractCodeHash(GetAccount(accounts, Last(blocks).account)));
      SetCodeInverse(rest, address, None);
    }
  }

  lemma ResetInverse(index: Index, shard: ShardIdent, accounts: Accounts)
    requires Inverse(index)
    requires forall account :: account in accounts ==> InShard(shard, account)
    ensures Inverse(ResetIndex(index, shard, accounts))
  {
    WithoutShardEntries(index, shard);
    PutAllInverse(WithoutShard(index, shard), shard, accounts);
  }

  lemma PutAllInverse(rest: Index, shard: ShardIdent, accounts: Accounts)
    requires Inverse(rest)
    requires forall account :: account in accounts ==> InShard(shard, account)
    requires forall address: Address :: InShardAddress(shard, address) ==> Lookup(rest.secondary, address) == None
    ensures Inverse(PutAll(rest, shard.workchain, accounts))
  {
    var after := PutAll(rest, shard.workchain, accounts);
    CodeMapKeys(shard.workchain, accounts);
    forall key: Key
      ensures key in after.primary <==> |key| == PRIMARY_KEY_LEN && Lookup(after.secondary, key[32..]) == Some(key[..32])
    {
      if |key| == PRIMARY_KEY_LEN {
        PrimaryKeySplit(key);
        ResetInverseKey(rest, shard, accounts, key[..32], key[32..]);
      }
    }
  }

  lemma PrimaryKeySplit(key: Key)
    requires |key| == PRIMARY_KEY_LEN
    ensures key == PrimaryKey(key[..32], key[32..])
  {
  }

  /** A rebuilt entry is in the one index iff it is in the other. */
  lemma ResetInverseKey(rest: Index, shard: ShardIdent, accounts: Accounts, hash: Hash, address: Address)
    requires forall account :: account in accounts ==> InShard(shard, account)
    requires InShardAddress(shard, address) ==> Lookup(rest.secondary, address) == None
    requires PrimaryKey(hash, address) in rest.primary <==> Lookup(rest.secondary, address) == Some(hash)
    ensures var after := PutAll(rest, shard.workchain, accounts);
            PrimaryKey(hash, address) in after.primary <==> Lookup(after.secondary, address) == Some(hash)
  {
    var wc, account := shard.workchain, AccountOf(address);
    CodeMapLookup(wc, accounts, address);
    assert address == [address[0]] + account;
    AddressInjective(wc, account, account);
    if a :| a in accounts && ExtractCodeHash(accounts[a]).Some?
            && PrimaryKey(hash, address) == PrimaryKey(ExtractCodeHash(accounts[a]).value, AddressOf(wc, a)) {
      PrimaryKeyInjective(hash, address, ExtractCodeHash(accounts[a]).value, AddressOf(wc, a));
      AddressInjective(wc, a, account);
    }
    if address == AddressOf(wc, account) && account in accounts && ExtractCodeHash(accounts[account]) == Some(hash) {
      assert PrimaryKey(hash, address) in PrimaryKeys(wc, accounts);
    }
  }

  // ---- runs ----

  /** What the storage gets to see, in order. */
  datatype Observation =
    | FullState(shard: ShardIdent, accounts: Accounts)
    | UnsplittableState(shard: ShardIdent)
    | StateBlock(shard: ShardIdent, blocks: seq<AccountBlock>, accounts: Accounts)
    | StatelessBlock(shard: ShardIdent)

  /** The database, the last observed account states, and the addresses whose observed state is current. */
  datatype View = View(index: Index, world: World, known: iset<Address>)

  /** States are complete, and agree with the block as far as the states before it are known. */
  ghost predicate Admissible(view: View, o: Observation) {
    match o
    case FullState(shard, accounts) => IsComplete(o)
    case UnsplittableState(shard) => true
    case StateBlock(shard, blocks, accounts) => IsBlock(view.world, view.known, shard, blocks, accounts)
    case StatelessBlock(shard) => true
  }

  /** A full state holds accounts of its own shard only. */
  predicate IsComplete(o: Observation) {
    o.FullState? ==> forall account :: account in o.accounts ==> InShard(o.shard, account)
  }

  ghost function Next(view: View, o: Observation): View {
    match o
    case FullState(shard, accounts) =>
      View(ResetIndex(view.index, shard, accounts), Observe(view.world, shard, accounts), view.known + ShardAddresses(shard))
    case UnsplittableState(shard) =>
      View(WithoutShard(view.index, shard), view.world, view.known - ShardAddresses(shard))
    case StateBlock(shard, blocks, accounts) =>
      View(UpdatedIndex(view.index, shard.workchain, blocks, accounts), Observe(view.world, shard, accounts), view.known)
    case StatelessBlock(shard) =>
      View(view.index, view.world, view.known - ShardAddresses(shard))
  }

  ghost function Run(view: View, run: seq<Observation>): View
    decreases |run|
  {
    if run == [] then view else Next(Run(view, Init(run)), Last(run))
  }

  ghost predicate AdmissibleRun(view: View, run: seq<Observation>)
    decreases |run|
  {
    run == [] || (AdmissibleRun(view, Init(run)) && Admissible(Run(view, Init(run)), Last(run)))
  }

  /** Over every run, from any database, the indexes stay exact on the addresses whose state is current. */
  lemma {:induction false} RunIsExact(view: View, run: seq<Observation>)
    requires AdmissibleRun(view, run)
    requires Exact(view.index, view.world, view.known)
    ensures var v := Run(view, run); Exact(v.index, v.world, v.known)
    decreases |run|
  {
    if run != [] {
      RunIsExact(view, Init(run));
      var v := Run(view, Init(run));
      match Last(run) {
        case FullState(shard, accounts) => ResetIsExact(v.index, v.world, v.known, shard, accounts);
        case UnsplittableState(shard) => WipeIsExact(v.index, v.world, v.known, shard);
        case StateBlock(shard, blocks, accounts) => UpdateKeepsExact(v.index, v.world, v.known, shard, blocks, accounts);
        case StatelessBlock(shard) => ExactDependsOnCode(v.index, v.world, v.known, v.world, v.known - ShardAddresses(shard));
      }
    }
  }

  /** The two indexes agree with each other in every reachable database, whether or not its entries are current. */
  lemma {:induction false} RunKeepsInverse(view: View, run: seq<Observation>)
    requires forall i :: 0 <= i < |run| ==> IsComplete(run[i])
    requires Inverse(view.index)
    ensures Inverse(Run(view, run).index)
    decreases |run|
  {
    if run != [] {
      assert forall i :: 0 <= i < |run| - 1 ==> Init(run)[i] == run[i];
      assert IsComplete(Last(run));
      RunKeepsInverse(view, Init(run));
      var index := Run(view, Init(run)).index;
      match Last(run) {
        case FullState(shard, accounts) =>
          ResetInverse(index, shard, accounts);
        case UnsplittableState(shard) => WithoutShardEntries(index, shard);
        case StateBlock(shard, blocks, accounts) => UpdateInverse(index, shard.workchain, blocks, accounts);
        case StatelessBlock(shard) =>
      }
    }
  }
}
