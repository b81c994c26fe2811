/** Polling of Solana proposals: the doubling back-off, and the answering of pending events. */
module SolSubscriber {
  import opened Words
  import opened Wrappers
  import opened Oneshot

  type U32 = n: nat | n < 0x1_0000_0000
  type Pubkey = seq<Byte>
  type Data = seq<Byte>

  const INIT_INTERVAL_DELAY_SEC: U32 := 300
  const EXPIRED_PERIOD: U64 := 14 * 24 * 60 * 60

  datatype Reason = EventExpired | DataMismatch

  datatype Status = Exists | NotExists(reason: Reason)

  datatype PendingEvent = PendingEvent(data: Data, tx: nat, createdAt: U32, delay: nat, time: nat)

  type Pending = map<Pubkey, PendingEvent>

  datatype Request = Request(account: Pubkey, data: Data)

  type Channels = seq<Channel<Request, Status>>

  datatype Book = Book(pending: Pending, channels: Channels)

  const EMPTY := Book(map[], [])

  // ---- one entry ----

  predicate IsExpired(event: PendingEvent, time: U64) {
    time > event.createdAt + EXPIRED_PERIOD
  }

  predicate IsDue(event: PendingEvent, time: U64) {
    time > event.time
  }

  /** Unsigned subtraction, which wraps around. */
  function WrappingSub(a: U64, b: U64): U64 {
    if a >= b then a - b else a + TWO_TO_THE_64 - b
  }

  /** The entry after a poll; the sums wrap around, and `delay` is shown to stay within its width. */
  function Polled(event: PendingEvent, time: U64, interval: U64): PendingEvent {
    if !IsDue(event, time) then event
    else
      var age := WrappingSub(time, event.createdAt);
      if age <= 300 then event.(time := time)
      else if age <= 3600 then event.(time := (time + event.delay) % TWO_TO_THE_64, delay := 2 * event.delay)
      else event.(time := (time + interval) % TWO_TO_THE_64)
  }

  // ---- the back-off ----

  /** The delay has doubled k times, and each time the next poll was put off further. */
  ghost predicate Doubled(event: PendingEvent, k: nat) {
    && event.delay == 300 * Pow2(k)
    && (k >= 1 ==> event.time + 1 >= event.createdAt + 300 * Pow2(k) + k + 1)
  }

  /** Times and the configured interval are far from the greatest 64-bit number. */
  predicate Sane(time: U64, interval: U64) {
    time + interval < TWO_TO_THE_64 && time + 4800 < TWO_TO_THE_64
  }

  lemma PowersOfTwo()
    ensures Pow2(0) == 1 && Pow2(1) == 2 && Pow2(2) == 4 && Pow2(3) == 8 && Pow2(4) == 16
  {
  }

  /** A poll doubles at most once, never for a fifth time, and never at a time it has polled at before. */
  lemma PollKeepsBackoff(event: PendingEvent, k: nat, time: U64, interval: U64) returns (k': nat)
    requires Doubled(event, k) && k <= 4 && Sane(time, interval)
    ensures k' <= 4 && Doubled(Polled(event, time, interval), k')
    ensures k <= k' <= k + 1 && (k' == k + 1 ==> IsDue(event, time) && event.createdAt + 301 <= time <= event.createdAt + 3600)
    ensures IsDue(event, time) ==> event.time < time <= Polled(event, time, interval).time < TWO_TO_THE_64
    ensures !IsDue(event, time) ==> Polled(event, time, interval) == event
  {
    k' := k;
    PowersOfTwo();
    var age := WrappingSub(time, event.createdAt);
    if IsDue(event, time) && 300 < age <= 3600 {
      k' := k + 1;
      assert Pow2(k') == 2 * Pow2(k);
      assert k == 0 || k == 1 || k == 2 || k == 3 || k == 4;
    }
  }

  /** A poll puts the next one off into the future exactly if the sum it forms does not wrap around. */
  lemma PollForwardExactly(event: PendingEvent, time: U64, interval: U64)
    requires IsDue(event, time) && event.delay <= 4800
    ensures Polled(event, time, interval).time >= time <==>
              var age := WrappingSub(time, event.createdAt);
              age <= 300 || time + (if age <= 3600 then event.delay else interval) < TWO_TO_THE_64
  {
    var age := WrappingSub(time, event.createdAt);
    var step := if age <= 3600 then event.delay else interval;
    if age > 300 && time + step >= TWO_TO_THE_64 {
      assert (time + step) % TWO_TO_THE_64 == time + step - TWO_TO_THE_64;
    }
  }

  /** With an interval that wraps around, an entry just polled is due again at the same time. */
  lemma PollCanRepeat(data: Data, tx: nat)
    ensures var event := Fresh(data, tx, 0);
            IsDue(Polled(event, 4000, TWO_TO_THE_64 - 4000), 4000)
  {
  }

  /** Only these delays occur. */
  lemma DoubledDelays(event: PendingEvent, k: nat)
    requires Doubled(event, k) && k <= 4
    ensures event.delay in {300, 600, 1200, 2400, 4800}
  {
    PowersOfTwo();
    assert k == 0 || k == 1 || k == 2 || k == 3 || k == 4;
  }

  /** An entry after polls at some times, in any order, and the times at which it was due. */
  ghost function PollAll(event: PendingEvent, times: seq<U64>, interval: U64): (PendingEvent, seq<U64>)
    decreases times
  {
    if times == [] then (event, [])
    else
      var rest := PollAll(Polled(event, times[0], interval), times[1..], interval);
      (rest.0, (if IsDue(event, times[0]) then [times[0]] else []) + rest.1)
  }

  predicate Increasing(times: seq<U64>) {
    forall i, j :: 0 <= i < j < |times| ==> times[i] < times[j]
  }

  /** Whatever the times offered, polls happen at increasing times and the delay doubles at most four times. */
  lemma {:induction false} PollsBackOff(event: PendingEvent, k: nat, times: seq<U64>, interval: U64) returns (k': nat)
    requires Doubled(event, k) && k <= 4
    requires forall i :: 0 <= i < |times| ==> Sane(times[i], interval)
    ensures k <= k' <= 4 && Doubled(PollAll(event, times, interval).0, k')
    ensures Increasing(PollAll(event, times, interval).1)
    ensures forall i :: 0 <= i < |PollAll(event, times, interval).1| ==> event.time < PollAll(event, times, interval).1[i]
    ensures event.time <= PollAll(event, times, interval).0.time
    decreases times
  {
    if times == [] {
      k' := k;
    } else {
      assert Sane(times[0], interval);
      var next := Polled(event, times[0], interval);
      k' := PollKeepsBackoff(event, k, times[0], interval);
      k' := PollsBackOff(next, k', times[1..], interval);
    }
  }

  /** The entry that a registration makes. */
  function Fresh(data: Data, tx: nat, createdAt: U32): PendingEvent {
    PendingEvent(data, tx, createdAt, INIT_INTERVAL_DELAY_SEC, 0)
  }

  /** Four doublings do happen. */
  lemma FourDoublings(data: Data, tx: nat, interval: U64)
    ensures PollAll(Fresh(data, tx, 0), [301, 602, 1203, 2404], interval).0.delay == 4800
  {
    var e := Fresh(data, tx, 0);
    assert Polled(e, 301, interval) == e.(time := 601, delay := 600);
    assert Polled(e.(time := 601, delay := 600), 602, interval) == e.(time := 1202, delay := 1200);
    assert Polled(e.(time := 1202, delay := 1200), 1203, interval) == e.(time := 2403, delay := 2400);
    assert Polled(e.(time := 2403, delay := 2400), 2404, interval) == e.(time := 4804, delay := 4800);
    assert [301, 602, 1203, 2404][1..] == [602, 1203, 2404] && [602, 1203, 2404][1..] == [1203, 2404] && [1203, 2404][1..] == [2404];
  }

  // ---- all entries ----

  /** Every pending event owns a channel without an answer. */
  ghost predicate OwnChannels(book: Book) {
    forall account :: account in book.pending ==>
      IsOpen(book.channels, book.pending[account].tx, Request(account, book.pending[account].data))
  }

  /** Registers an event; one for the same account is replaced. */
  function Registered(book: Book, account: Pubkey, data: Data, createdAt: U32): Book {
    Book(book.pending[account := Fresh(data, |book.channels|, createdAt)],
         book.channels + [Channel(Request(account, data), None)])
  }

  ghost function DueAccounts(pending: Pending, time: U64): set<Pubkey> {
    set account | account in pending && !IsExpired(pending[account], time) && IsDue(pending[account], time)
  }

  /** Expired events answered, the others polled, except for those still to be visited. */
  ghost function RetainedExcept(book: Book, time: U64, interval: U64, rest: set<Pubkey>): Book {
    Book(
      map account | account in book.pending && (account in rest || !IsExpired(book.pending[account], time)) ::
        if account in rest then book.pending[account] else Polled(book.pending[account], time, interval),
      seq(|book.channels|, c requires 0 <= c < |book.channels| => RetainedChannel(book, time, rest, c)))
  }

  ghost function RetainedChannel(book: Book, time: U64, rest: set<Pubkey>, c: nat): Channel<Request, Status>
    requires c < |book.channels|
  {
    var channel := book.channels[c];
    if channel.request.account in book.pending && book.pending[channel.request.account].tx == c &&
       channel.request.account !in rest && IsExpired(book.pending[channel.request.account], time)
    then channel.(answer := Some(NotExists(EventExpired))) else channel
  }

  ghost function Retained(book: Book, time: U64, interval: U64): Book {
    RetainedExcept(book, time, interval, {})
  }

  lemma RetainedNone(book: Book, time: U64, interval: U64)
    ensures RetainedExcept(book, time, interval, book.pending.Keys) == book
  {
    assert RetainedExcept(book, time, interval, book.pending.Keys).channels == book.channels;
    assert RetainedExcept(book, time, interval, book.pending.Keys).pending == book.pending;
  }

  lemma RetainOne(book: Book, time: U64, interval: U64, rest: set<Pubkey>, account: Pubkey)
    requires OwnChannels(book) && rest <= book.pending.Keys && account in rest
    ensures var some, event := RetainedExcept(book, time, interval, rest), book.pending[account];
            && some.pending.Keys >= rest && some.pending[account] == event
            && RetainedExcept(book, time, interval, rest - {account}) ==
               if IsExpired(event, time)
               then Book(some.pending - {account}, Send(some.channels, event.tx, NotExists(EventExpired)))
               else Book(some.pending[account := Polled(event, time, interval)], some.channels)
  {
    var some, more, event := RetainedExcept(book, time, interval, rest),
                             RetainedExcept(book, time, interval, rest - {account}), book.pending[account];
    if IsExpired(event, time) {
      assert more.pending == some.pending - {account};
      assert more.channels == Send(some.channels, event.tx, NotExists(EventExpired));
    } else {
      assert more.pending == some.pending[account := Polled(event, time, interval)];
      assert more.channels == some.channels;
    }
  }

  lemma RetainedOwns(book: Book, time: U64, interval: U64)
    requires OwnChannels(book)
    ensures OwnChannels(Retained(book, time, interval))
  {
  }

  // ---- looking proposals up ----

  datatype Proposal = Proposal(event: Data, round: U32, initialized: bool)

  /** The outcome of asking for an account; its data may fail to unpack. */
  datatype Lookup = Failed | Missing | Malformed | Found(proposal: Proposal)

  datatype RoundLookup = RoundFailed | RoundMissing | RoundFound

  /** What the network answers during an update. */
  datatype Network = Network(account: Pubkey -> Lookup, round: U32 -> RoundLookup)

  function Check(data: Data, proposed: Data): Status {
    if data == proposed then Exists else NotExists(DataMismatch)
  }

  datatype Verdict = Keep | Abort | Answer(status: Status)

  /** What becomes of a due entry. Aborting drops it unanswered and ends the update. */
  function VerdictOf(event: PendingEvent, account: Pubkey, network: Network): Verdict {
    match network.account(account)
    case Failed => Keep
    case Missing => Keep
    case Malformed => Abort
    case Found(proposal) =>
      match network.round(proposal.round)
      case RoundMissing => Abort
      case RoundFailed => Keep
      case RoundFound => if proposal.initialized then Answer(Check(event.data, proposal.event)) else Keep
  }

  /** The account's proposal cannot be unpacked, or belongs to a round that does not exist. */
  predicate Aborts(network: Network, account: Pubkey) {
    var lookup := network.account(account);
    lookup == Malformed || (lookup.Found? && network.round(lookup.proposal.round) == RoundMissing)
  }

  /** The account's proposal is initialized and belongs to an existing round. */
  predicate IsDecided(network: Network, account: Pubkey) {
    var lookup := network.account(account);
    lookup.Found? && lookup.proposal.initialized && network.round(lookup.proposal.round) == RoundFound
  }

  /** The due accounts resolved in some order, up to the first that aborts the update. */
  ghost function Resolved(book: Book, order: seq<Pubkey>, network: Network): Book
    decreases order
  {
    if order == [] then book
    else if order[0] !in book.pending then Resolved(book, order[1..], network)
    else
      match VerdictOf(book.pending[order[0]], order[0], network)
      case Keep => Resolved(book, order[1..], network)
      case Abort => Book(book.pending - {order[0]}, book.channels)
      case Answer(status) =>
        Resolved(Book(book.pending - {order[0]}, Send(book.channels, book.pending[order[0]].tx, status)), order[1..], network)
  }

  class SolSubscriber {
    const interval: U64
    var pending: Pending
    var channels: Channels
    var pendingCount: nat

    ghost predicate Valid()
      reads this
    {
      OwnChannels(View())
    }

    ghost function View(): Book
      reads this
    {
      Book(pending, channels)
    }

    constructor (interval: U64)
      ensures Valid() && View() == Book(map[], []) && this.interval == interval
    {
      this.interval := interval;
      pending, channels, pendingCount := map[], [], 0;
    }

    method VerifyTonSolEvent(account: Pubkey, data: Data, createdAt: U32) returns (rx: nat)
      requires Valid()
      modifies this
      ensures Valid() && rx == |old(channels)| && pendingCount == |pending|
      ensures pending == old(pending)[account := PendingEvent(data, rx, createdAt, 300, 0)]
      ensures View() == Registered(old(View()), account, data, createdAt)
    {
      rx := |channels|;
      RegisteredOwns(View(), account, data, createdAt);
      channels := channels + [Channel(Request(account, data), None)];
      pending := pending[account := Fresh(data, rx, createdAt)];
      pendingCount := |pending|;
    }

    /** One update: expire and poll, then resolve the due accounts; the count is not refreshed on an abort. */
    method Update(time: U64, network: Network) returns (ok: bool, order: seq<Pubkey>)
      requires Valid()
      modifies this
      ensures Valid()
      ensures forall account :: account in order <==>
                account in old(pending) && old(pending)[account].time < time <= old(pending)[account].createdAt + 1_209_600
      ensures forall i, j :: 0 <= i < j < |order| ==> order[i] != order[j]
      ensures View() == Resolved(Retained(old(View()), time, interval), order, network)
      ensures pendingCount == if ok then |pending| else old(pendingCount)
      ensures ok <==> forall account :: account in order ==> !Aborts(network, account)
    {
      var kept, answered, due := Retain(Book(pending, channels), time, interval);
      order := Order(due);
      assert forall account :: account in order ==> account in due && account in kept;
      var resolved;
      ok, resolved := Resolve(Book(kept, answered), order, network);
      RetainedOwns(View(), time, interval);
      ResolvedOwns(Book(kept, answered), order, network);
      pending, channels := resolved.pending, resolved.channels;
      if ok {
        pendingCount := |pending|;
      }
    }
  }

  lemma RegisteredOwns(book: Book, account: Pubkey, data: Data, createdAt: U32)
    requires OwnChannels(book)
    ensures OwnChannels(Registered(book, account, data, createdAt))
  {
  }

  lemma {:induction false} ResolvedOwns(book: Book, order: seq<Pubkey>, network: Network)
    requires OwnChannels(book)
    ensures OwnChannels(Resolved(book, order, network))
    decreases order
  {
    if order != [] {
      if order[0] !in book.pending {
        ResolvedOwns(book, order[1..], network);
      } else {
        match VerdictOf(book.pending[order[0]], order[0], network)
        case Keep => ResolvedOwns(book, order[1..], network);
        case Abort =>
        case Answer(status) =>
          ResolvedOwns(Book(book.pending - {order[0]}, Send(book.channels, book.pending[order[0]].tx, status)), order[1..], network);
      }
    }
  }

  /** Some order of a set. */
  method Order(accounts: set<Pubkey>) returns (order: seq<Pubkey>)
    ensures forall account :: account in order <==> account in accounts
    ensures forall i, j :: 0 <= i < j < |order| ==> order[i] != order[j]
  {
    order := [];
    var rest := accounts;
    while rest != {}
      invariant rest <= accounts && forall account :: account in order <==> account in accounts - rest
      invariant forall i, j :: 0 <= i < j < |order| ==> order[i] != order[j]
      decreases rest
    {
      var account :| account in rest;
      assert account !in order;
      assert forall other :: other in order + [account] <==> other in order || other == account;
      order := order + [account];
      rest := rest - {account};
    }
  }

  method Retain(book: Book, time: U64, interval: U64) returns (kept: Pending, channels: Channels, due: set<Pubkey>)
    requires OwnChannels(book)
    ensures Book(kept, channels) == Retained(book, time, interval)
    ensures due == DueAccounts(book.pending, time)
  {
    kept, channels, due := book.pending, book.channels, {};
    var rest := book.pending.Keys;
    RetainedNone(book, time, interval);
    while rest != {}
      invariant rest <= book.pending.Keys
      invariant Book(kept, channels) == RetainedExcept(book, time, interval, rest)
      invariant due == DueAccounts(book.pending, time) - rest
      decreases rest
    {
      var account :| account in rest;
      RetainOne(book, time, interval, rest, account);
      var event := kept[account];
      if time > event.createdAt + EXPIRED_PERIOD {
        channels := Send(channels, event.tx, NotExists(EventExpired));
        kept := kept - {account};
      } else {
        if time > event.time {
          due := due + {account};
        }
        kept := kept[account := Polled(event, time, interval)];
      }
      rest := rest - {account};
    }
  }

  method Resolve(book: Book, order: seq<Pubkey>, network: Network) returns (ok: bool, r: Book)
    requires forall account :: account in order ==> account in book.pending
    ensures r == Resolved(book, order, network)
    ensures ok <==> forall account :: account in order ==> !Aborts(network, account)
  {
    r := book;
    for i := 0 to |order|
      invariant forall account :: account in order[..i] ==> !Aborts(network, account)
      invariant forall account :: account in book.pending && account !in r.pending ==> !Aborts(network, account)
      invariant Resolved(r, order[i..], network) == Resolved(book, order, network)
    {
      var account := order[i];
      assert order[i..][0] == account && order[i..][1..] == order[i + 1..];
      if account in r.pending {
        match VerdictOf(r.pending[account], account, network) {
          case Keep =>
          case Abort =>
            assert account in order && Aborts(network, account);
            return false, Book(r.pending - {account}, r.channels);
          case Answer(status) =>
            r := Book(r.pending - {account}, Send(r.channels, r.pending[account].tx, status));
        }
      }
    }
    ok := true;
  }

  // ---- runs ----

  datatype Call =
    | Register(account: Pubkey, data: Data, createdAt: U32)
    | Update(time: U64, network: Network, order: seq<Pubkey>)

  ghost function Next(book: Book, call: Call, interval: U64): Book {
    match call
    case Register(account, data, createdAt) => Registered(book, account, data, createdAt)
    case Update(time, network, order) => Resolved(Retained(book, time, interval), order, network)
  }

  ghost function Run(book: Book, calls: seq<Call>, interval: U64): Book
    decreases calls
  {
    if calls == [] then book else Run(Next(book, calls[0], interval), calls[1..], interval)
  }

  /** The update found the event expired, or found its initialized proposal in an existing round. */
  ghost predicate Justified(event: PendingEvent, account: Pubkey, call: Call, answer: Status)
    requires call.Update?
  {
    if IsExpired(event, call.time) then answer == NotExists(EventExpired)
    else
      && account in call.order
      && call.network.account(account).Found?
      && var proposal := call.network.account(account).proposal;
         && proposal.initialized && call.network.round(proposal.round) == RoundFound
         && (answer == Exists <==> proposal.event == event.data)
  }

  lemma {:induction false} ResolvedAnswers(book: Book, order: seq<Pubkey>, network: Network, c: nat)
    requires OwnChannels(book) && c < |book.channels|
    ensures var after := Resolved(book, order, network);
            && |after.channels| == |book.channels| && after.channels[c].request == book.channels[c].request
            && (after.channels[c] != book.channels[c] ==>
                  var account := book.channels[c].request.account;
                  && account in book.pending && book.pending[account].tx == c
                  && account in order && after.channels[c].answer.Some? && book.channels[c].answer.None?
                  && VerdictOf(book.pending[account], account, network) == Answer(after.channels[c].answer.value))
    decreases order
  {
    if order != [] {
      var account := order[0];
      if account !in book.pending {
        ResolvedAnswers(book, order[1..], network, c);
      } else {
        match VerdictOf(book.pending[account], account, network)
        case Keep => ResolvedAnswers(book, order[1..], network, c);
        case Abort =>
        case Answer(status) =>
          var next := Book(book.pending - {account}, Send(book.channels, book.pending[account].tx, status));
          ResolvedAnswers(next, order[1..], network, c);
      }
    }
  }

  /** Channels only gain answers, each at most one, and only justified ones. */
  lemma NextAnswers(book: Book, call: Call, interval: U64, c: nat)
    requires OwnChannels(book) && c < |book.channels|
    ensures var after, account := Next(book, call, interval).channels, book.channels[c].request.account;
            && c < |after| && after[c].request == book.channels[c].request
            && (book.channels[c].answer.Some? ==> after[c] == book.channels[c])
            && (after[c] != book.channels[c] ==>
                  && call.Update? && account in book.pending && book.pending[account].tx == c && after[c].answer.Some?
                  && Justified(book.pending[account], account, call, after[c].answer.value))
  {
    if call.Update? {
      RetainedOwns(book, call.time, interval);
      ResolvedAnswers(Retained(book, call.time, interval), call.order, call.network, c);
    }
  }

  /** An entry that an update takes out had its event answered, or aborted the update. */
  lemma {:induction false} ResolvedTakesOut(book: Book, order: seq<Pubkey>, network: Network, account: Pubkey)
    requires OwnChannels(book)
    requires account in book.pending && account !in Resolved(book, order, network).pending
    ensures account in order
    ensures var after, tx := Resolved(book, order, network).channels, book.pending[account].tx;
            tx < |after| && (after[tx].answer.Some? || VerdictOf(book.pending[account], account, network) == Abort)
    decreases order
  {
    var first := order[0];
    if first !in book.pending {
      ResolvedTakesOut(book, order[1..], network, account);
    } else {
      match VerdictOf(book.pending[first], first, network)
      case Keep => ResolvedTakesOut(book, order[1..], network, account);
      case Abort =>
      case Answer(status) =>
        var next := Book(book.pending - {first}, Send(book.channels, book.pending[first].tx, status));
        if first == account {
          ResolvedAnswers(next, order[1..], network, book.pending[account].tx);
        } else {
          ResolvedTakesOut(next, order[1..], network, account);
        }
    }
  }

  lemma {:induction false} ResolvedKeepsEntries(book: Book, order: seq<Pubkey>, network: Network)
    ensures Resolved(book, order, network).pending.Keys <= book.pending.Keys
    ensures forall account :: account in Resolved(book, order, network).pending ==>
              account in book.pending && Resolved(book, order, network).pending[account] == book.pending[account]
    decreases order
  {
    if order != [] {
      if order[0] !in book.pending {
        ResolvedKeepsEntries(book, order[1..], network);
      } else {
        match VerdictOf(book.pending[order[0]], order[0], network)
        case Keep => ResolvedKeepsEntries(book, order[1..], network);
        case Abort =>
        case Answer(status) =>
          ResolvedKeepsEntries(Book(book.pending - {order[0]}, Send(book.channels, book.pending[order[0]].tx, status)), order[1..], network);
      }
    }
  }

  /** The times of a run's updates. */
  ghost function Times(calls: seq<Call>): seq<U64>
    decreases calls
  {
    if calls == [] then [] else (if calls[0].Update? then [calls[0].time] else []) + Times(calls[1..])
  }

  /** The times at which a run's updates look an account up. */
  ghost function PollTimes(book: Book, calls: seq<Call>, interval: U64, account: Pubkey): seq<U64>
    decreases calls
  {
    if calls == [] then []
    else
      (if calls[0].Update? && account in DueAccounts(book.pending, calls[0].time) then [calls[0].time] else []) +
      PollTimes(Next(book, calls[0], interval), calls[1..], interval, account)
  }

  predicate Registers(calls: seq<Call>, account: Pubkey) {
    exists i :: 0 <= i < |calls| && IsRegistration(calls[i], account)
  }

  predicate IsRegistration(call: Call, account: Pubkey) {
    call.Register? && call.account == account
  }

  lemma RegistersFirst(calls: seq<Call>, account: Pubkey)
    requires calls != []
    ensures Registers(calls, account) <==> IsRegistration(calls[0], account) || Registers(calls[1..], account)
  {
    if i :| 0 < i < |calls| && IsRegistration(calls[i], account) {
      assert calls[1..][i - 1] == calls[i];
    }
    if i :| 0 <= i < |calls[1..]| && IsRegistration(calls[1..][i], account) {
      assert calls[i + 1] == calls[1..][i];
    }
  }

  /** An entry that one call leaves pending was there before, and has been polled if the call is an update. */
  lemma NextPolls(book: Book, call: Call, interval: U64, account: Pubkey)
    requires account in Next(book, call, interval).pending && !IsRegistration(call, account)
    ensures account in book.pending
    ensures call.Register? ==> Next(book, call, interval).pending[account] == book.pending[account]
    ensures call.Update? ==>
              && !IsExpired(book.pending[account], call.time)
              && Next(book, call, interval).pending[account] == Polled(book.pending[account], call.time, interval)
  {
    if call.Update? {
      ResolvedKeepsEntries(Retained(book, call.time, interval), call.order, call.network);
    }
  }

  /** Until it is registered anew a pending event goes through exactly the polls of the back-off, whatever else is registered. */
  lemma {:induction false} RunPolls(book: Book, calls: seq<Call>, interval: U64, account: Pubkey)
    requires !Registers(calls, account)
    requires account in Run(book, calls, interval).pending
    ensures account in book.pending
    ensures PollAll(book.pending[account], Times(calls), interval) ==
            (Run(book, calls, interval).pending[account], PollTimes(book, calls, interval, account))
    decreases calls
  {
    if calls != [] {
      var call, next := calls[0], Next(book, calls[0], interval);
      RegistersFirst(calls, account);
      RunPolls(next, calls[1..], interval, account);
      NextPolls(book, call, interval, account);
      if call.Update? {
        assert Times(calls)[1..] == Times(calls[1..]);
      } else {
        assert [] + Times(calls[1..]) == Times(calls[1..]);
        assert PollTimes(book, calls, interval, account) == PollTimes(next, calls[1..], interval, account);
      }
    }
  }

  // ---- the back-off of every entry of every run ----

  predicate SaneCall(call: Call, interval: U64) {
    call.Update? ==> Sane(call.time, interval)
  }

  /** Where an entry comes from: the call that registered it last. */
  lemma {:induction false} LastRegistration(book: Book, calls: seq<Call>, interval: U64, account: Pubkey) returns (i: nat)
    requires account in Run(book, calls, interval).pending
    requires account !in book.pending || Registers(calls, account)
    ensures i < |calls| && IsRegistration(calls[i], account) && !Registers(calls[i + 1..], account)
    ensures Run(book, calls, interval) == Run(Run(book, calls[..i + 1], interval), calls[i + 1..], interval)
    ensures account in Run(book, calls[..i + 1], interval).pending
    ensures Run(book, calls[..i + 1], interval).pending[account] ==
            Fresh(calls[i].data, Run(book, calls[..i + 1], interval).pending[account].tx, calls[i].createdAt)
    decreases calls
  {
    assert calls != [];
    var next, rest := Next(book, calls[0], interval), calls[1..];
    RegistersFirst(calls, account);
    if Registers(rest, account) {
      i := LastRegistration(next, rest, interval, account);
      i := i + 1;
      assert calls[..i + 1][1..] == rest[..i] && calls[i + 1..] == rest[i..];
    } else {
      RunPolls(next, rest, interval, account);
      if !IsRegistration(calls[0], account) {
        NextPolls(book, calls[0], interval, account);
      }
      i := 0;
      assert calls[..1][1..] == [];
    }
  }

  /**
   * Every pending entry of every run backs off: since it was registered it has been polled at strictly increasing
   * times, and its delay has doubled at most four times.
   */
  lemma EntryBacksOff(calls: seq<Call>, interval: U64, account: Pubkey) returns (i: nat)
    requires forall j :: 0 <= j < |calls| ==> SaneCall(calls[j], interval)
    requires account in Run(EMPTY, calls, interval).pending
    ensures i < |calls| && IsRegistration(calls[i], account) && !Registers(calls[i + 1..], account)
    ensures Increasing(PollTimes(Run(EMPTY, calls[..i + 1], interval), calls[i + 1..], interval, account))
    ensures Run(EMPTY, calls, interval).pending[account].delay in {300, 600, 1200, 2400, 4800}
    ensures exists k: nat :: k <= 4 && Doubled(Run(EMPTY, calls, interval).pending[account], k)
  {
    i := LastRegistration(EMPTY, calls, interval, account);
    var registered, rest := Run(EMPTY, calls[..i + 1], interval), calls[i + 1..];
    RunPolls(registered, rest, interval, account);
    SaneTimes(rest, interval);
    PowersOfTwo();
    var k := PollsBackOff(registered.pending[account], 0, Times(rest), interval);
    DoubledDelays(Run(EMPTY, calls, interval).pending[account], k);
  }

  lemma {:induction false} SaneTimes(calls: seq<Call>, interval: U64)
    requires forall j :: 0 <= j < |calls| ==> SaneCall(calls[j], interval)
    ensures forall j :: 0 <= j < |Times(calls)| ==> Sane(Times(calls)[j], interval)
    decreases calls
  {
    if calls != [] {
      assert SaneCall(calls[0], interval);
      SaneTimes(calls[1..], interval);
    }
  }

  // ---- what becomes of each entry ----

  /** The accounts looked up before one of them aborts. */
  function Reached(order: seq<Pubkey>, network: Network): seq<Pubkey> {
    if order == [] || Aborts(network, order[0]) then [] else [order[0]] + Reached(order[1..], network)
  }

  /** The accounts reached are those up to the first that aborts. */
  lemma {:induction false} ReachedExactly(order: seq<Pubkey>, network: Network)
    ensures Reached(order, network) <= order
    ensures forall account :: account in Reached(order, network) ==> !Aborts(network, account)
    ensures |Reached(order, network)| < |order| ==> Aborts(network, order[|Reached(order, network)|])
  {
    if order != [] && !Aborts(network, order[0]) {
      ReachedExactly(order[1..], network);
    }
  }

  /** An event that is due is answered if it is reached and its proposal decides, dropped if it aborts, and kept otherwise. */
  lemma {:induction false} ResolvedExactly(book: Book, order: seq<Pubkey>, network: Network, account: Pubkey)
    requires OwnChannels(book) && account in book.pending
    requires forall other :: other in order ==> other in book.pending
    requires forall i, j :: 0 <= i < j < |order| ==> order[i] != order[j]
    ensures var after, event, reached := Resolved(book, order, network), book.pending[account], Reached(order, network);
            && |after.channels| == |book.channels|
            && if account in reached && IsDecided(network, account) then
                 && account !in after.pending
                 && after.channels[event.tx].answer == Some(
                      if event.data == network.account(account).proposal.event then Exists else NotExists(DataMismatch))
               else
                 && after.channels[event.tx] == book.channels[event.tx]
                 && if |reached| < |order| && order[|reached|] == account then account !in after.pending
                    else account in after.pending && after.pending[account] == event
    decreases order
  {
    if order != [] {
      var first, rest := order[0], order[1..];
      match VerdictOf(book.pending[first], first, network)
      case Keep =>
        ResolvedExactly(book, rest, network, account);
      case Abort =>
      case Answer(status) =>
        var next := Book(book.pending - {first}, Send(book.channels, book.pending[first].tx, status));
        assert first !in rest;
        if first == account {
          ResolvedLeaves(next, rest, network, book.pending[account].tx);
          ResolvedKeepsEntries(next, rest, network);
        } else {
          ResolvedExactly(next, rest, network, account);
        }
    }
  }

  /** A channel that is no pending event's is left alone. */
  lemma {:induction false} ResolvedLeaves(book: Book, order: seq<Pubkey>, network: Network, tx: nat)
    requires OwnChannels(book) && tx < |book.channels|
    requires forall account :: account in book.pending ==> book.pending[account].tx != tx
    ensures |Resolved(book, order, network).channels| == |book.channels|
    ensures Resolved(book, order, network).channels[tx] == book.channels[tx]
    decreases order
  {
    ResolvedAnswers(book, order, network, tx);
  }

  /** What retaining does to each entry: after fourteen days it is answered as expired, before that polled and kept. */
  lemma RetainedExactly(book: Book, time: U64, interval: U64, account: Pubkey)
    requires OwnChannels(book) && account in book.pending
    ensures var after, event := Retained(book, time, interval), book.pending[account];
            && |after.channels| == |book.channels|
            && if time > event.createdAt + 1_209_600 then
                 && account !in after.pending
                 && after.channels[event.tx] == Channel(Request(account, event.data), Some(NotExists(EventExpired)))
               else
                 && account in after.pending && after.pending[account] == Polled(event, time, interval)
                 && after.channels[event.tx] == book.channels[event.tx]
  {
  }

  /**
   * After a poll the next one is due exactly after a gap: none in the first five minutes, in the first hour the delay
   * of k doublings, and then the configured interval.
   */
  lemma PollGap(event: PendingEvent, k: nat, time: U64, interval: U64, later: U64)
    requires Doubled(event, k) && k <= 4 && Sane(time, interval) && IsDue(event, time) && event.createdAt <= time
    ensures var age := time - event.createdAt;
            IsDue(Polled(event, time, interval), later) <==>
              later > time + if age <= 300 then 0 else if age <= 3600 then 300 * Pow2(k) else interval
    ensures var age := time - event.createdAt;
            Polled(event, time, interval).delay == (if 300 < age <= 3600 then 2 else 1) * event.delay
  {
    DoubledDelays(event, k);
  }
}
