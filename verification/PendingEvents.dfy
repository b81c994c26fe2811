/** Pending bridge events: a map, a counter updated outside its lock, and a start-once flag per registration. */
module PendingEvents {
  import opened Words
  import opened Shards

  datatype EventStatus = Initializing | Pending | Confirmed | Rejected

  datatype Event =
    | ReceiveRoundRelays(keys: set<Hash>)
    | Confirm(key: Hash)
    | Reject(key: Hash)
    | Closed
    | EventRejected

  type Hash = seq<Byte>

  datatype Reaction = Discard | Vote | Ignore

  /** What an event transaction means for a pending event; two of the four directions need every signature. */
  function React(allSignatures: bool, event: Event, status: EventStatus, ourKey: Hash): Reaction {
    if !allSignatures && (event.EventRejected? || status.Confirmed? || status.Rejected?) then Discard
    else if allSignatures && event.Closed? && status.Confirmed? then Discard
    else if allSignatures && (event.EventRejected? || status.Rejected?) then Discard
    else
      match event
      case ReceiveRoundRelays(keys) => if ourKey in keys then Vote else Discard
      case Confirm(key) => if key == ourKey then Discard else Ignore
      case Reject(key) => if key == ourKey then Discard else Ignore
      case Closed => Ignore
      case EventRejected => Ignore
  }

  /**
   * Our vote, a rejection, or relays without us end the wait, a confirmation only where it suffices;
   * relays with us start the voting unless the wait has ended.
   */
  lemma ReactExactly(allSignatures: bool, event: Event, status: EventStatus, ourKey: Hash)
    ensures React(allSignatures, event, status, ourKey) == Discard <==>
              || event.EventRejected? || status.Rejected?
              || (status.Confirmed? && (!allSignatures || event.Closed?))
              || (event.ReceiveRoundRelays? && ourKey !in event.keys)
              || event == Confirm(ourKey) || event == Reject(ourKey)
    ensures React(allSignatures, event, status, ourKey) == Vote <==>
              event.ReceiveRoundRelays? && ourKey in event.keys && !status.Rejected? && (status.Confirmed? ==> allSignatures)
  {
  }

  /** A registration: its number, and whether its processing has started. */
  datatype Registration = Registration(number: nat, started: bool)

  type Registrations = map<Account, Registration>

  // ---- the relay's own code ----

  class EventsState {
    var pending: Registrations
    var count: U64
    var registered: nat

    ghost predicate Valid()
      reads this
    {
      count == |pending| % TWO_TO_THE_64 && Numbered(pending, registered)
    }

    constructor ()
      ensures Valid() && pending == map[] && registered == 0
    {
      pending, count, registered := map[], 0, 0;
    }

    method Add(account: Account) returns (isNew: bool)
      requires Valid()
      modifies this
      ensures Valid()
      ensures isNew <==> account !in old(pending)
      ensures pending == if isNew then old(pending)[account := Registration(old(registered), false)] else old(pending)
    {
      isNew := account !in pending;
      if isNew {
        pending := pending[account := Registration(registered, false)];
        registered := registered + 1;
      }
      if isNew {
        count := (count + 1) % TWO_TO_THE_64;
        CountUp(|old(pending)|);
      }
    }

    method Handle(allSignatures: bool, account: Account, event: Event, status: EventStatus, ourKey: Hash)
      returns (vote: bool)
      requires Valid()
      modifies this
      ensures Valid()
      ensures vote <==> account in old(pending) && React(allSignatures, event, status, ourKey) == Vote
      ensures pending == if React(allSignatures, event, status, ourKey) == Discard then old(pending) - {account} else old(pending)
    {
      var removed := false;
      vote := false;
      if account in pending {
        match React(allSignatures, event, status, ourKey) {
          case Discard =>
            pending := pending - {account};
            removed := true;
          case Vote =>
            vote := true;
          case Ignore =>
        }
      }
      if removed {
        count := (count + TWO_TO_THE_64 - 1) % TWO_TO_THE_64;
        CountDown(|old(pending)|);
      }
    }

    method Remove(account: Account)
      requires Valid()
      modifies this
      ensures Valid() && pending == old(pending) - {account}
    {
      if account in pending {
        pending := pending - {account};
        count := (count + TWO_TO_THE_64 - 1) % TWO_TO_THE_64;
        CountDown(|old(pending)|);
      }
    }

    /** Says whether the caller is the one to process the event. */
    method StartProcessing(account: Account) returns (start: bool)
      requires Valid()
      modifies this
      ensures Valid()
      ensures start <==> account in old(pending) && !old(pending)[account].started
      ensures pending == if account in old(pending)
                         then old(pending)[account := old(pending)[account].(started := true)] else old(pending)
    {
      if account !in pending {
        return false;
      }
      start := !pending[account].started;
      assert |pending[account := pending[account].(started := true)]| == |pending| by {
        SameSize(pending, account);
      }
      pending := pending[account := pending[account].(started := true)];
    }
  }

  lemma SameSize(pending: Registrations, account: Account)
    requires account in pending
    ensures |pending[account := pending[account].(started := true)]| == |pending|
  {
    assert pending[account := pending[account].(started := true)].Keys == pending.Keys;
    assert |pending| == |pending.Keys|;
    assert |pending[account := pending[account].(started := true)]| == |pending[account := pending[account].(started := true)].Keys|;
  }

  lemma CountUp(n: nat)
    ensures (n % TWO_TO_THE_64 + 1) % TWO_TO_THE_64 == (n + 1) % TWO_TO_THE_64
  {
  }

  lemma CountDown(n: nat)
    requires n > 0
    ensures (n % TWO_TO_THE_64 + TWO_TO_THE_64 - 1) % TWO_TO_THE_64 == (n - 1) % TWO_TO_THE_64
  {
  }

  /** Registrations have different numbers, below a bound. */
  ghost predicate Numbered(pending: Registrations, registered: nat) {
    && (forall a :: a in pending ==> pending[a].number < registered)
    && forall a, b :: a in pending && b in pending && pending[a].number == pending[b].number ==> a == b
  }

  // ---- all interleavings: the map and the counter are updated in separate steps ----

  /** Increments and decrements that are due but not done; and the registrations whose processing has started. */
  datatype State = State(
    pending: Registrations,
    count: U64,
    increments: nat,
    decrements: nat,
    registered: nat,
    starts: seq<nat>)

  const INITIAL := State(map[], 0, 0, 0, 0, [])

  datatype Step =
    | InsertEntry(account: Account)
    | Increment
    | HandleEntry(allSignatures: bool, account: Account, event: Event, status: EventStatus, ourKey: Hash)
    | RemoveEntry(account: Account)
    | Decrement
    | Start(account: Account)

  predicate Enabled(s: State, step: Step) {
    match step
    case Increment => s.increments > 0
    case Decrement => s.decrements > 0
    case _ => true
  }

  function Removed(s: State, account: Account): State {
    if account in s.pending then s.(pending := s.pending - {account}, decrements := s.decrements + 1) else s
  }

  function Next(s: State, step: Step): State
    requires Enabled(s, step)
  {
    match step
    case InsertEntry(account) =>
      if account in s.pending then s else
      s.(pending := s.pending[account := Registration(s.registered, false)],
         registered := s.registered + 1, increments := s.increments + 1)
    case Increment => s.(count := (s.count + 1) % TWO_TO_THE_64, increments := s.increments - 1)
    case HandleEntry(allSignatures, account, event, status, ourKey) =>
      if React(allSignatures, event, status, ourKey) == Discard then Removed(s, account) else s
    case RemoveEntry(account) => Removed(s, account)
    case Decrement => s.(count := (s.count + TWO_TO_THE_64 - 1) % TWO_TO_THE_64, decrements := s.decrements - 1)
    case Start(account) =>
      if account !in s.pending || s.pending[account].started then s else
      s.(pending := s.pending[account := s.pending[account].(started := true)],
         starts := s.starts + [s.pending[account].number])
  }

  ghost predicate Balanced(s: State) {
    exists laps: int :: Laps(s, laps)
  }

  /** The counter, with what is still due, is off by whole laps. */
  predicate Laps(s: State, laps: int) {
    s.count + s.increments - s.decrements == |s.pending| + laps * TWO_TO_THE_64
  }

  ghost predicate Invariant(s: State) {
    && Balanced(s)
    && Numbered(s.pending, s.registered)
    && (forall i :: 0 <= i < |s.starts| ==> s.starts[i] < s.registered)
    && (forall i, j :: 0 <= i < j < |s.starts| ==> s.starts[i] != s.starts[j])
    && (forall a :: a in s.pending ==> (s.pending[a].started <==> s.pending[a].number in s.starts))
  }

  lemma StepKeeps(s: State, step: Step)
    requires Invariant(s) && Enabled(s, step)
    ensures Invariant(Next(s, step))
  {
    match step
    case InsertEntry(account) => InsertKeeps(s, account);
    case Increment => IncrementKeeps(s);
    case HandleEntry(allSignatures, account, event, status, ourKey) => RemovalKeeps(s, account);
    case RemoveEntry(account) => RemovalKeeps(s, account);
    case Decrement => DecrementKeeps(s);
    case Start(account) => StartKeeps(s, account);
  }

  lemma InsertKeeps(s: State, account: Account)
    requires Invariant(s)
    ensures Invariant(Next(s, InsertEntry(account)))
  {
    var laps :| Laps(s, laps);
    assert Laps(Next(s, InsertEntry(account)), laps);
  }

  lemma IncrementKeeps(s: State)
    requires Invariant(s) && s.increments > 0
    ensures Invariant(Next(s, Increment))
  {
    var laps :| Laps(s, laps);
    assert Laps(Next(s, Increment), if s.count + 1 < TWO_TO_THE_64 then laps else laps - 1);
  }

  lemma DecrementKeeps(s: State)
    requires Invariant(s) && s.decrements > 0
    ensures Invariant(Next(s, Decrement))
  {
    var laps :| Laps(s, laps);
    assert Laps(Next(s, Decrement), if s.count > 0 then laps else laps + 1);
  }

  lemma RemovalKeeps(s: State, account: Account)
    requires Invariant(s)
    ensures Invariant(Removed(s, account))
  {
    var laps :| Laps(s, laps);
    assert Laps(Removed(s, account), laps);
  }

  lemma StartKeeps(s: State, account: Account)
    requires Invariant(s)
    ensures Invariant(Next(s, Start(account)))
  {
    var laps :| Laps(s, laps);
    var next := Next(s, Start(account));
    if account in s.pending && !s.pending[account].started {
      SameSize(s.pending, account);
      StartsOnce(s, account);
    }
    assert Laps(next, laps);
  }

  lemma StartsOnce(s: State, account: Account)
    requires Invariant(s) && account in s.pending && !s.pending[account].started
    ensures var next := Next(s, Start(account));
            && Numbered(next.pending, next.registered)
            && forall a :: a in next.pending ==> (next.pending[a].started <==> next.pending[a].number in next.starts)
  {
    var next := Next(s, Start(account));
    assert forall n :: n in next.starts <==> n in s.starts || n == s.pending[account].number;
  }

  predicate Possible(s: State, steps: seq<Step>)
    decreases steps
  {
    steps == [] || (Enabled(s, steps[0]) && Possible(Next(s, steps[0]), steps[1..]))
  }

  function Run(s: State, steps: seq<Step>): State
    requires Possible(s, steps)
    decreases steps
  {
    if steps == [] then s else Run(Next(s, steps[0]), steps[1..])
  }

  lemma {:induction false} RunKeeps(s: State, steps: seq<Step>)
    requires Invariant(s) && Possible(s, steps)
    ensures Invariant(Run(s, steps))
    decreases steps
  {
    if steps != [] {
      StepKeeps(s, steps[0]);
      RunKeeps(Next(s, steps[0]), steps[1..]);
    }
  }

  /** When no update of the counter is due, it is the number of pending events. */
  lemma CountAtRest(steps: seq<Step>)
    requires Possible(INITIAL, steps)
    requires var s := Run(INITIAL, steps); s.increments == s.decrements && |s.pending| < TWO_TO_THE_64
    ensures Run(INITIAL, steps).count == |Run(INITIAL, steps).pending|
  {
    assert Laps(INITIAL, 0);
    RunKeeps(INITIAL, steps);
    var s := Run(INITIAL, steps);
    var laps :| Laps(s, laps);
    assert laps == 0;
  }

  /** No registration is processed twice; a later one of the same account is a new registration. */
  lemma StartedOnce(steps: seq<Step>, i: nat, j: nat)
    requires Possible(INITIAL, steps)
    requires i < j < |Run(INITIAL, steps).starts|
    ensures Run(INITIAL, steps).starts[i] != Run(INITIAL, steps).starts[j]
  {
    assert Laps(INITIAL, 0);
    RunKeeps(INITIAL, steps);
  }
}
