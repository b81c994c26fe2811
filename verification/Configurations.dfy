/** Event configurations: four maps, their counters, and the type that each event code is registered with. */
module Configurations {
  import opened Words
  import opened Wrappers
  import opened Shards

  type Hash = seq<Byte>

  datatype EventType = EthTon | TonEth | SolTon | TonSol

  /** The event code, and the last block (of ETH->TON) or second of the configuration; 0 for none. */
  datatype Configuration = Configuration(codeHash: Hash, end: nat)

  type Active = map<Account, Configuration>
  type CodeHashes = map<Hash, EventType>

  datatype Outcome = Added | Ignored | UnknownChainId | InvalidAbi | InvalidEventConfiguration | AlreadyExists

  predicate IsExpired(configuration: Configuration, now: nat) {
    1 <= configuration.end < now
  }

  ghost function Unexpired(active: Active, now: nat): Active {
    map account | account in active && !IsExpired(active[account], now) :: active[account]
  }

  function Put(active: Active, account: Account, configuration: Configuration): Active {
    active[account := configuration]
  }

  /** What the adding of a configuration meets outside of the bridge's state. */
  datatype Context = Context(solana: bool, now: nat, validAbi: bool, knownChain: bool)

  /** What stops a configuration before it comes to the state. */
  function Rejected(eventType: EventType, configuration: Configuration, context: Context): Option<Outcome> {
    match eventType
    case EthTon =>
      if !context.validAbi then Some(InvalidAbi) else if !context.knownChain then Some(UnknownChainId) else None
    case TonEth =>
      if IsExpired(configuration, context.now) then Some(Ignored) else if !context.validAbi then Some(InvalidAbi) else None
    case SolTon =>
      if !context.solana || IsExpired(configuration, context.now) then Some(Ignored)
      else if !context.validAbi then Some(InvalidAbi) else None
    case TonSol =>
      if !context.solana || IsExpired(configuration, context.now) then Some(Ignored)
      else if !context.validAbi then Some(InvalidAbi) else None
  }

  /** One of each for the four types. */
  datatype PerType<T> = PerType(ethTon: T, tonEth: T, solTon: T, tonSol: T) {
    function Of(t: EventType): T {
      match t
      case EthTon => ethTon
      case TonEth => tonEth
      case SolTon => solTon
      case TonSol => tonSol
    }

    function With(t: EventType, x: T): PerType<T> {
      match t
      case EthTon => this.(ethTon := x)
      case TonEth => this.(tonEth := x)
      case SolTon => this.(solTon := x)
      case TonSol => this.(tonSol := x)
    }
  }

  function Sizes(active: PerType<Active>): PerType<nat> {
    PerType(|active.ethTon|, |active.tonEth|, |active.solTon|, |active.tonSol|)
  }

  lemma SizesWith(active: PerType<Active>, t: EventType, x: Active)
    ensures Sizes(active.With(t, x)) == Sizes(active).With(t, |x|)
    ensures Sizes(active).Of(t) == |active.Of(t)|
  {
  }

  /** The maps by type, and the types by code. */
  datatype State = State(active: PerType<Active>, codeHashes: CodeHashes)

  /** Every active configuration's code is registered with the configuration's own type. */
  ghost predicate Registered(s: State) {
    forall t, account :: account in s.active.Of(t) ==> IsRegistered(s.codeHashes, s.active.Of(t)[account].codeHash, t)
  }

  predicate IsRegistered(codeHashes: CodeHashes, codeHash: Hash, t: EventType) {
    codeHash in codeHashes && codeHashes[codeHash] == t
  }

  /** Configurations of different types never share event code. */
  lemma TypesShareNoCode(s: State, t: EventType, a: Account, u: EventType, b: Account)
    requires Registered(s) && a in s.active.Of(t) && b in s.active.Of(u)
    requires s.active.Of(t)[a].codeHash == s.active.Of(u)[b].codeHash
    ensures t == u
  {
    assert IsRegistered(s.codeHashes, s.active.Of(t)[a].codeHash, t) && IsRegistered(s.codeHashes, s.active.Of(u)[b].codeHash, u);
  }

  datatype Call =
    | Add(eventType: EventType, account: Account, configuration: Configuration, context: Context)
    | SetEnd(eventType: EventType, account: Account, end: nat)
    | CollectGarbage(now: nat)

  function AddOutcome(s: State, eventType: EventType, account: Account, configuration: Configuration, context: Context): Outcome
  {
    if Rejected(eventType, configuration, context).Some? then Rejected(eventType, configuration, context).value
    else if configuration.codeHash in s.codeHashes && s.codeHashes[configuration.codeHash] != eventType then InvalidEventConfiguration
    else if account in s.active.Of(eventType) then AlreadyExists
    else Added
  }

  ghost function Next(s: State, call: Call): State
  {
    match call
    case Add(t, account, configuration, context) =>
      var outcome := AddOutcome(s, t, account, configuration, context);
      State(if outcome == Added then s.active.With(t, Put(s.active.Of(t), account, configuration)) else s.active,
            // the code stays registered even if the account turns out to be known
            if outcome in {Added, AlreadyExists} then s.codeHashes[configuration.codeHash := t] else s.codeHashes)
    case SetEnd(t, account, end) =>
      if account in s.active.Of(t) then s.(active := s.active.With(t, Put(s.active.Of(t), account, s.active.Of(t)[account].(end := end)))) else s
    case CollectGarbage(now) =>
      s.(active := PerType(s.active.ethTon, Unexpired(s.active.tonEth, now), Unexpired(s.active.solTon, now), Unexpired(s.active.tonSol, now)))
  }

  /** When the adding of a configuration ends in which outcome. */
  lemma AddExactly(s: State, eventType: EventType, account: Account, configuration: Configuration, context: Context)
    ensures var outcome := AddOutcome(s, eventType, account, configuration, context);
            var ignored := (eventType != EthTon && 1 <= configuration.end < context.now) ||
                           ((eventType == SolTon || eventType == TonSol) && !context.solana);
            var foreign := configuration.codeHash in s.codeHashes && s.codeHashes[configuration.codeHash] != eventType;
            && (outcome == Ignored <==> ignored)
            && (outcome == InvalidAbi <==> !ignored && !context.validAbi)
            && (outcome == UnknownChainId <==> context.validAbi && eventType == EthTon && !context.knownChain)
            && (outcome == InvalidEventConfiguration <==>
                  !ignored && context.validAbi && (eventType == EthTon ==> context.knownChain) && foreign)
            && (outcome == AlreadyExists <==>
                  !ignored && context.validAbi && (eventType == EthTon ==> context.knownChain) && !foreign &&
                  account in s.active.Of(eventType))
  {
  }

  /** What a call does to the configurations, one by one, and to the registered code. */
  lemma NextExactly(s: State, call: Call, t: EventType, account: Account, codeHash: Hash)
    ensures var before, after := s.active.Of(t), Next(s, call).active.Of(t);
            match call
            case Add(added, other, configuration, context) =>
              var outcome := AddOutcome(s, added, other, configuration, context);
              && (if t == added && account == other && outcome == Added
                  then account in after && after[account] == configuration
                  else (account in after <==> account in before) && (account in before ==> after[account] == before[account]))
              && (codeHash in Next(s, call).codeHashes <==>
                    codeHash in s.codeHashes || (codeHash == configuration.codeHash && outcome in {Added, AlreadyExists}))
            case SetEnd(set_, other, end) =>
              && (account in after <==> account in before)
              && (account in before ==>
                    after[account] == if t == set_ && account == other then Configuration(before[account].codeHash, end) else before[account])
            case CollectGarbage(now) =>
              && (account in after <==>
                    account in before && (t == EthTon || before[account].end == 0 || now <= before[account].end))
              && (account in after ==> after[account] == before[account])
  {
  }

  lemma NextRegisters(s: State, call: Call)
    requires Registered(s)
    ensures Registered(Next(s, call))
    ensures forall h :: h in s.codeHashes ==> h in Next(s, call).codeHashes && Next(s, call).codeHashes[h] == s.codeHashes[h]
  {
    var s' := Next(s, call);
    forall t, account | account in s'.active.Of(t)
      ensures IsRegistered(s'.codeHashes, s'.active.Of(t)[account].codeHash, t)
    {
      NextRegistersOne(s, call, t, account);
    }
  }

  lemma NextRegistersOne(s: State, call: Call, t: EventType, account: Account)
    requires account in s.active.Of(t) ==> IsRegistered(s.codeHashes, s.active.Of(t)[account].codeHash, t)
    requires account in Next(s, call).active.Of(t)
    ensures IsRegistered(Next(s, call).codeHashes, Next(s, call).active.Of(t)[account].codeHash, t)
  {
    match call
    case Add(eventType, other, configuration, context) =>
      if eventType != t || account != other {
        assert Next(s, call).active.Of(t)[account] == s.active.Of(t)[account];
      }
    case SetEnd(eventType, other, end) =>
    case CollectGarbage(now) =>
  }

  ghost function Run(s: State, calls: seq<Call>): State
    requires Registered(s)
    decreases calls
  {
    if calls == [] then s else
    NextRegisters(s, calls[0]);
    Run(Next(s, calls[0]), calls[1..])
  }

  /** Over every run, and even if the first is long gone, code once used by one type is never used by another. */
  lemma {:induction false} CodeKeepsItsType(s: State, calls: seq<Call>, t: EventType, a: Account, u: EventType, b: Account)
    requires Registered(s) && a in s.active.Of(t)
    requires b in Run(s, calls).active.Of(u) && Run(s, calls).active.Of(u)[b].codeHash == s.active.Of(t)[a].codeHash
    ensures t == u
    decreases calls
  {
    assert IsRegistered(s.codeHashes, s.active.Of(t)[a].codeHash, t);
    RunKeepsTypes(s, calls, s.active.Of(t)[a].codeHash);
    assert IsRegistered(Run(s, calls).codeHashes, Run(s, calls).active.Of(u)[b].codeHash, u);
  }

  lemma {:induction false} RunKeepsTypes(s: State, calls: seq<Call>, codeHash: Hash)
    requires Registered(s) && codeHash in s.codeHashes
    ensures Registered(Run(s, calls))
    ensures IsRegistered(Run(s, calls).codeHashes, codeHash, s.codeHashes[codeHash])
    decreases calls
  {
    if calls != [] {
      NextRegisters(s, calls[0]);
      RunKeepsTypes(Next(s, calls[0]), calls[1..], codeHash);
    }
  }

  // ---- the relay's own code ----

  class Bridge {
    var active: PerType<Active>
    var totals: PerType<nat>
    var codeHashes: CodeHashes

    ghost predicate Valid()
      reads this
    {
      Registered(View()) && totals == Sizes(active)
    }

    ghost function View(): State
      reads this
    {
      State(active, codeHashes)
    }

    constructor ()
      ensures Valid() && codeHashes == map[] && forall t :: active.Of(t) == map[]
    {
      active := PerType(map[], map[], map[], map[]);
      totals := PerType(0, 0, 0, 0);
      codeHashes := map[];
    }

    method AddConfiguration(eventType: EventType, account: Account, configuration: Configuration, context: Context)
      returns (outcome: Outcome)
      requires Valid()
      modifies this
      ensures Valid()
      ensures outcome == AddOutcome(old(View()), eventType, account, configuration, context)
      ensures View() == Next(old(View()), Add(eventType, account, configuration, context))
    {
      NextRegisters(View(), Add(eventType, account, configuration, context));
      var rejected := Rejected(eventType, configuration, context);
      if rejected.Some? {
        return rejected.value;
      }
      if configuration.codeHash !in codeHashes {
        codeHashes := codeHashes[configuration.codeHash := eventType];
      } else if codeHashes[configuration.codeHash] != eventType {
        return InvalidEventConfiguration;
      }
      assert codeHashes == old(codeHashes)[configuration.codeHash := eventType];
      assert codeHashes == Next(old(View()), Add(eventType, account, configuration, context)).codeHashes;
      if account in active.Of(eventType) {
        return AlreadyExists;
      }
      SizesWith(active, eventType, Put(active.Of(eventType), account, configuration));
      totals := totals.With(eventType, totals.Of(eventType) + 1);
      active := active.With(eventType, Put(active.Of(eventType), account, configuration));
      outcome := Added;
    }

    /** Changes the end of a known configuration. */
    method SetEnd(eventType: EventType, account: Account, end: nat) returns (known: bool)
      requires Valid()
      modifies this
      ensures Valid() && known == (account in old(active).Of(eventType))
      ensures View() == Next(old(View()), Call.SetEnd(eventType, account, end))
    {
      NextRegisters(View(), Call.SetEnd(eventType, account, end));
      if account !in active.Of(eventType) {
        return false;
      }
      var configurations := active.Of(eventType);
      SameSize(configurations, account, configurations[account].(end := end));
      SizesWith(active, eventType, Put(configurations, account, configurations[account].(end := end)));
      active := active.With(eventType, Put(configurations, account, configurations[account].(end := end)));
      known := true;
    }

    /** Removes the expired configurations of all types but the first. */
    method CollectGarbage(now: nat)
      requires Valid()
      modifies this
      ensures Valid()
      ensures View() == Next(old(View()), Call.CollectGarbage(now))
    {
      NextRegisters(View(), Call.CollectGarbage(now));
      var tonEth, removed := Retain(active.tonEth, now);
      totals := totals.(tonEth := totals.tonEth - removed);
      var tonSol, removed' := Retain(active.tonSol, now);
      totals := totals.(tonSol := totals.tonSol - removed');
      var solTon, removed'' := Retain(active.solTon, now);
      totals := totals.(solTon := totals.solTon - removed'');
      active := PerType(active.ethTon, tonEth, solTon, tonSol);
    }
  }

  lemma SameSize(configurations: Active, account: Account, configuration: Configuration)
    requires account in configurations
    ensures |Put(configurations, account, configuration)| == |configurations|
  {
    var more := Put(configurations, account, configuration);
    assert more.Keys == configurations.Keys;
    assert |more| == |more.Keys| && |configurations| == |configurations.Keys|;
  }

  /** Drops the expired configurations one by one and counts them. */
  method Retain(configurations: Active, now: nat) returns (kept: Active, removed: nat)
    ensures kept == Unexpired(configurations, now)
    ensures removed == |configurations| - |kept|
  {
    kept, removed := configurations, 0;
    var rest := configurations.Keys;
    while rest != {}
      invariant rest <= kept.Keys && removed == |configurations| - |kept|
      invariant forall account :: account in kept <==>
                  account in configurations && (account in rest || !IsExpired(configurations[account], now))
      invariant forall account :: account in kept ==> kept[account] == configurations[account]
      decreases rest
    {
      var account :| account in rest;
      if IsExpired(kept[account], now) {
        kept := kept - {account};
        removed := removed + 1;
      }
      rest := rest - {account};
    }
  }
}
