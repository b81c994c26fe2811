/** Confirmation of EVM events: scanning of block windows and answering of pending confirmations. */
module EthSubscriber {
  import opened Words
  import opened Wrappers
  import opened Oneshot

  type Hash = seq<Byte>
  type Address = seq<Byte>
  type U32 = n: nat | n < 0x1_0000_0000
  type U16 = n: nat | n < 0x1_0000

  datatype EventId = EventId(transaction: Hash, index: U32)

  datatype Event =
    | Removed(id: EventId)
    | Received(id: EventId, address: Address, topic: Hash, blockNumber: U64, blockHash: Hash, data: seq<Byte>)

  /** The event as a voter claims it. */
  datatype VoteData = VoteData(id: EventId, data: Hash, block: Hash, blockNumber: U32)

  /** The topic of an event and the hash of its data once decoded and mapped; other data fails to decode. */
  datatype EventAbi = EventAbi(topic: Hash, mapped: map<seq<Byte>, Hash>)

  datatype Reason =
    | FailedPreliminaryChecks | LogRemoved | NotFound
    | EmitterMismatch | TopicMismatch | IndexMismatch | TransactionMismatch
    | BlockNumberMismatch | BlockHashMismatch | DataMismatch | ConversionFailure

  datatype Status = Exists | NotExists(reason: Reason)

  /** What is asked for. */
  datatype Request = Request(vote: VoteData, emitter: Address, abi: EventAbi, target: U64)

  datatype Confirmation = Confirmation(request: Request, tx: nat, status: Option<Status>)

  type Pending = map<EventId, Confirmation>

  type Channels = seq<Channel<Request, Status>>

  /** A transaction receipt: its status, if it has one, and the logs that could be parsed. */
  datatype Receipt = Receipt(status: Option<U64>, logs: seq<Event>)

  /** The outcome of asking for a receipt; the receipt may not be there. */
  datatype Lookup = Failed | Found(receipt: Option<Receipt>)

  // ---- the check of one log ----

  /** The log is the event as claimed. */
  predicate Agrees(request: Request, event: Event) {
    && event.Received?
    && event.id == request.vote.id
    && event.address == request.emitter
    && event.topic == request.abi.topic
    && event.blockNumber == request.vote.blockNumber
    && event.blockHash == request.vote.block
    && event.data in request.abi.mapped
    && request.abi.mapped[event.data] == request.vote.data
  }

  /** What a reason says about a log is so. */
  predicate IsReason(request: Request, event: Event, reason: Reason) {
    match reason
    case LogRemoved => event.Removed?
    case EmitterMismatch => event.Received? && event.address != request.emitter
    case TopicMismatch => event.Received? && event.topic != request.abi.topic
    case IndexMismatch => event.id.index != request.vote.id.index
    case TransactionMismatch => event.id.transaction != request.vote.id.transaction
    case BlockNumberMismatch => event.Received? && event.blockNumber != request.vote.blockNumber
    case BlockHashMismatch => event.Received? && event.blockHash != request.vote.block
    case ConversionFailure => event.Received? && event.data !in request.abi.mapped
    case DataMismatch =>
      event.Received? && event.data in request.abi.mapped && request.abi.mapped[event.data] != request.vote.data
    case FailedPreliminaryChecks => false
    case NotFound => false
  }

  function Check(request: Request, event: Event): (status: Status)
    requires event.Received?
    ensures status == Exists <==> Agrees(request, event)
    ensures status.NotExists? ==> IsReason(request, event, status.reason)
  {
    if event.address != request.emitter then NotExists(EmitterMismatch)
    else if event.topic != request.abi.topic then NotExists(TopicMismatch)
    else if event.id.index != request.vote.id.index then NotExists(IndexMismatch)
    else if event.id.transaction != request.vote.id.transaction then NotExists(TransactionMismatch)
    else if event.blockNumber != request.vote.blockNumber then NotExists(BlockNumberMismatch)
    else if event.blockHash != request.vote.block then NotExists(BlockHashMismatch)
    else if event.data !in request.abi.mapped then NotExists(ConversionFailure)
    else if request.abi.mapped[event.data] != request.vote.data then NotExists(DataMismatch)
    else Exists
  }

  function Judge(request: Request, event: Event): (status: Status)
    ensures status == Exists <==> Agrees(request, event)
    ensures status.NotExists? ==> IsReason(request, event, status.reason)
  {
    match event
    case Removed(_) => NotExists(LogRemoved)
    case Received(_, _, _, _, _, _) => Check(request, event)
  }

  /** Position j holds the last log of the event. */
  ghost predicate IsLast(logs: seq<Event>, id: EventId, j: nat) {
    j < |logs| && logs[j].id == id && forall k :: j < k < |logs| ==> logs[k].id != id
  }

  /** The last log of an event. */
  function FindLast(logs: seq<Event>, id: EventId): Option<Event> {
    if logs == [] then None
    else if logs[|logs| - 1].id == id then Some(logs[|logs| - 1])
    else FindLast(logs[..|logs| - 1], id)
  }

  lemma {:induction false} FindLastFinds(logs: seq<Event>, id: EventId)
    ensures FindLast(logs, id) == None ==> forall j :: 0 <= j < |logs| ==> logs[j].id != id
    ensures forall j: nat :: IsLast(logs, id, j) ==> FindLast(logs, id) == Some(logs[j])
  {
    if logs != [] {
      var init := logs[..|logs| - 1];
      FindLastFinds(init, id);
      forall j: nat | IsLast(logs, id, j)
        ensures FindLast(logs, id) == Some(logs[j])
      {
        if j < |init| {
          assert logs[|logs| - 1].id != id;
          assert IsLast(init, id, j);
        }
      }
    }
  }

  /** The last log of an event in the receipt of a transaction that succeeded. */
  function FindEvent(receipt: Option<Receipt>, id: EventId): Option<Event> {
    if receipt.Some? && receipt.value.status == Some(1) then FindLast(receipt.value.logs, id) else None
  }

  // ---- the window of blocks to scan ----

  /** The block up to which to scan, if there is anything to scan. The sum wraps around. */
  function Plan(last: U64, head: U64, range: Option<U64>): Option<U64> {
    if last >= head then None
    else if range.Some? && (last + range.value) % TWO_TO_THE_64 < head then Some((last + range.value) % TWO_TO_THE_64)
    else Some(head)
  }

  /** The end of the window that a round scans; none if it scans nothing. */
  function RoundEnd(last: U64, head: Option<U64>, fetched: Option<seq<Event>>, range: Option<U64>): Option<U64> {
    if head.Some? && fetched.Some? then Plan(last, head.value, range) else None
  }

  lemma PlanInRange(last: U64, head: U64, range: Option<U64>)
    requires last < head && (range.Some? ==> last + range.value < TWO_TO_THE_64)
    ensures Plan(last, head, range).Some?
    ensures var to := Plan(last, head, range).value;
            && last <= to <= head
            && (range.Some? ==> to - last <= range.value)
            && (to < head ==> range.Some? && to == last + range.value)
  {
  }

  /** A planned window runs forward unless the sum wraps around, and then it always runs backward. */
  lemma PlanForwardExactly(last: U64, head: U64, range: Option<U64>)
    requires last < head
    ensures Plan(last, head, range).value >= last <==> (range.Some? ==> last + range.value < TWO_TO_THE_64)
    ensures Plan(last, head, range).value > last <==>
              (range.Some? ==> range.value > 0 && last + range.value < TWO_TO_THE_64)
  {
    if range.Some? && last + range.value >= TWO_TO_THE_64 {
      assert (last + range.value) % TWO_TO_THE_64 == last + range.value - TWO_TO_THE_64;
    }
  }

  lemma PlanCanRunBackward()
    ensures Plan(1, 2, Some(TWO_TO_THE_64 - 1)) == Some(0)
  {
  }

  // ---- pending confirmations and their answers ----

  datatype Book = Book(pending: Pending, channels: Channels)

  /** Every pending confirmation is kept under its own event and owns a channel without an answer. */
  ghost predicate OwnChannels(book: Book) {
    forall id :: id in book.pending ==>
      && book.pending[id].request.vote.id == id
      && IsOpen(book.channels, book.pending[id].tx, book.pending[id].request)
  }

  /** Registers a request; one for the same event is replaced. */
  function Registered(book: Book, request: Request): Book {
    Book(book.pending[request.vote.id := Confirmation(request, |book.channels|, None)],
         book.channels + [Channel(request, None)])
  }

  /** What the logs of a window, in order, say of a confirmation: the last of its own decides. */
  function StatusAfter(confirmation: Confirmation, events: seq<Event>): Option<Status>
    decreases events
  {
    if events == [] then confirmation.status
    else
      var last := events[|events| - 1];
      if last.id == confirmation.request.vote.id then Some(Judge(confirmation.request, last))
      else StatusAfter(confirmation, events[..|events| - 1])
  }

  /** Scanning in two steps or in one comes to the same. */
  lemma {:induction false} StatusComposes(confirmation: Confirmation, first: seq<Event>, second: seq<Event>)
    ensures StatusAfter(confirmation.(status := StatusAfter(confirmation, first)), second) ==
            StatusAfter(confirmation, first + second)
    decreases second
  {
    if second == [] {
      assert first + second == first;
    } else {
      assert (first + second)[..|first + second| - 1] == first + second[..|second| - 1];
      StatusComposes(confirmation, first, second[..|second| - 1]);
    }
  }

  lemma {:induction false} StatusIsOfTheLast(confirmation: Confirmation, events: seq<Event>)
    ensures StatusAfter(confirmation, events) ==
            match FindLast(events, confirmation.request.vote.id)
            case None => confirmation.status
            case Some(event) => Some(Judge(confirmation.request, event))
    decreases events
  {
    if events != [] {
      StatusIsOfTheLast(confirmation, events[..|events| - 1]);
    }
  }

  ghost function Marked(pending: Pending, events: seq<Event>): Pending {
    map id | id in pending :: pending[id].(status := StatusAfter(pending[id], events))
  }

  /** The answer to a confirmation when blocks up to a height have been scanned, if there is one yet. */
  function Outcome(confirmation: Confirmation, height: nat, lookup: Lookup): Option<Status> {
    if confirmation.request.target > height then None
    else if confirmation.status.Some? && confirmation.status.value.NotExists? then confirmation.status
    else if lookup.Failed? then None
    else
      match FindEvent(lookup.receipt, confirmation.request.vote.id)
      case None => Some(NotExists(NotFound))
      case Some(event) => Some(Judge(confirmation.request, event))
  }

  ghost function Outcomes(pending: Pending, height: nat, lookups: EventId -> Lookup): map<EventId, Status> {
    map id | id in pending && Outcome(pending[id], height, lookups(id)).Some? ::
      Outcome(pending[id], height, lookups(id)).value
  }

  /** The book after some confirmations have been answered. */
  ghost function Answered(book: Book, answers: map<EventId, Status>): Book {
    Book(book.pending - answers.Keys,
         seq(|book.channels|, c requires 0 <= c < |book.channels| => AnsweredChannel(book, answers, c)))
  }

  ghost function AnsweredChannel(book: Book, answers: map<EventId, Status>, c: nat): Channel<Request, Status>
    requires c < |book.channels|
  {
    var channel := book.channels[c];
    var id := channel.request.vote.id;
    if id in answers && id in book.pending && book.pending[id].tx == c
    then channel.(answer := Some(answers[id])) else channel
  }

  lemma AnsweredNone(book: Book)
    ensures Answered(book, map[]) == book
  {
    assert Answered(book, map[]).channels == book.channels;
    assert book.pending - {} == book.pending;
  }

  lemma AnsweredMore(book: Book, answers: map<EventId, Status>, id: EventId, status: Status)
    requires OwnChannels(book) && id in book.pending && id !in answers
    ensures Answered(book, answers[id := status]) ==
            Book(Answered(book, answers).pending - {id}, Send(Answered(book, answers).channels, book.pending[id].tx, status))
  {
    var some, more := Answered(book, answers), Answered(book, answers[id := status]);
    assert more.pending == some.pending - {id};
    assert more.channels == Send(some.channels, book.pending[id].tx, status);
  }

  lemma AnsweredOwns(book: Book, answers: map<EventId, Status>)
    requires OwnChannels(book)
    ensures OwnChannels(Answered(book, answers))
  {
  }

  // ---- the subscriber ----

  class EthSubscriber {
    const maxBlockRange: Option<U64>
    var pending: Pending
    var pendingCount: nat
    var channels: Channels
    var lastProcessed: U64
    /** The chain's entry in the map that the subscribers share. */
    var lastBlockNumber: Option<U64>

    ghost predicate Valid()
      reads this`pending, this`channels, this`pendingCount
    {
      pendingCount == |pending| && OwnChannels(View())
    }

    ghost function View(): Book
      reads this`pending, this`channels
    {
      Book(pending, channels)
    }

    constructor (maxBlockRange: Option<U64>, head: U64)
      ensures Valid() && View() == Book(map[], []) && lastProcessed == head
      ensures this.maxBlockRange == maxBlockRange && lastBlockNumber == Some(head)
    {
      this.maxBlockRange := maxBlockRange;
      pending, pendingCount, channels := map[], 0, [];
      lastProcessed, lastBlockNumber := head, Some(head);
    }

    /** Registers a confirmation, unless its preliminary checks failed; answers at once or names a channel. */
    method Verify(vote: VoteData, emitter: Address, abi: EventAbi, blocksToConfirm: U16, preliminaryChecksSucceeded: bool)
      returns (now: Option<Status>, rx: nat)
      requires Valid()
      modifies this
      ensures Valid() && lastProcessed == old(lastProcessed) && lastBlockNumber == old(lastBlockNumber)
      ensures !preliminaryChecksSucceeded ==> now == Some(NotExists(FailedPreliminaryChecks)) && View() == old(View())
      ensures preliminaryChecksSucceeded ==>
                && now == None && rx == |old(channels)|
                && View() == Registered(old(View()), Request(vote, emitter, abi, vote.blockNumber + blocksToConfirm))
                && pending == old(pending)[vote.id := Confirmation(Request(vote, emitter, abi, vote.blockNumber + blocksToConfirm), rx, None)]
    {
      if !preliminaryChecksSucceeded {
        return Some(NotExists(FailedPreliminaryChecks)), 0;
      }
      var target: U64 := vote.blockNumber + blocksToConfirm;
      var request := Request(vote, emitter, abi, target);
      now, rx := None, |channels|;
      ghost var after := Registered(View(), request);
      RegisteredOwns(View(), request);
      channels := channels + [Channel(request, None)];
      pending := pending[vote.id := Confirmation(request, rx, None)];
      pendingCount := |pending|;
      assert View() == after;
    }

    /** One round: plans a window, scans it, and answers what can be answered. */
    method Update(head: Option<U64>, fetched: Option<seq<Event>>, lookups: EventId -> Lookup)
      requires Valid()
      modifies this
      ensures Valid()
      ensures var to := RoundEnd(old(lastProcessed), head, fetched, maxBlockRange);
              && View() == AfterRound(old(View()), fetched, to, lookups)
              && lastProcessed == (if to.Some? && old(lastBlockNumber).Some? then to.value else old(lastProcessed))
              && lastBlockNumber == (if to.Some? && old(lastBlockNumber).Some? then to else old(lastBlockNumber))
    {
      var to := Window(head, fetched);
      if to.Some? {
        Advance(fetched.value, to.value, lookups);
      }
    }

    /** Scans a window and remembers how far. */
    method Advance(events: seq<Event>, to: U64, lookups: EventId -> Lookup)
      requires Valid()
      modifies this
      ensures Valid() && View() == Scanned(old(View()), events, to, lookups)
      ensures lastProcessed == if old(lastBlockNumber).Some? then to else old(lastProcessed)
      ensures lastBlockNumber == if old(lastBlockNumber).Some? then Some(to) else None
    {
      ghost var before := View();
      Scan(events, to, lookups);
      ghost var after := View();
      Remember(to);
      assert View() == after == Scanned(before, events, to, lookups);
    }

    /** The last block of the window of a round, unless the head or the logs could not be had or there is nothing new. */
    method Window(head: Option<U64>, fetched: Option<seq<Event>>) returns (to: Option<U64>)
      ensures to == RoundEnd(lastProcessed, head, fetched, maxBlockRange)
    {
      if head == None || lastProcessed >= head.value {
        return None;
      }
      var current := head.value;
      if maxBlockRange.Some? {
        var end := (lastProcessed + maxBlockRange.value) % TWO_TO_THE_64;
        if end < current {
          current := end;
        }
      }
      to := if fetched == None then None else Some(current);
    }

    /** Scans a window under the lock of the pending confirmations. */
    method Scan(events: seq<Event>, current: U64, lookups: EventId -> Lookup)
      requires Valid()
      modifies this`pending, this`channels, this`pendingCount
      ensures Valid()
      ensures View() == Scanned(old(View()), events, current, lookups)
    {
      pending, channels := Resolve(pending, channels, events, current, lookups);
      pendingCount := |pending|;
    }

    /** Remembers how far the chain has been scanned, if the chain is known. */
    method Remember(current: U64)
      modifies this`lastProcessed, this`lastBlockNumber
      ensures lastProcessed == if old(lastBlockNumber).Some? then current else old(lastProcessed)
      ensures lastBlockNumber == if old(lastBlockNumber).Some? then Some(current) else None
    {
      if lastBlockNumber.Some? {
        lastBlockNumber := Some(current);
        lastProcessed := current;
      }
    }
  }

  ghost function AfterRound(book: Book, fetched: Option<seq<Event>>, to: Option<U64>, lookups: EventId -> Lookup): Book {
    if fetched.Some? && to.Some? then Scanned(book, fetched.value, to.value, lookups) else book
  }

  lemma RegisteredOwns(book: Book, request: Request)
    requires OwnChannels(book)
    ensures OwnChannels(Registered(book, request))
  {
  }

  ghost function Scanned(book: Book, events: seq<Event>, to: U64, lookups: EventId -> Lookup): Book {
    var marked := Marked(book.pending, events);
    Answered(Book(marked, book.channels), Outcomes(marked, to, lookups))
  }

  /** Marks what the events say, then answers what is due: first what is settled, then what can be looked up. */
  method Resolve(pending: Pending, channels: Channels, events: seq<Event>, current: U64, lookups: EventId -> Lookup)
    returns (kept: Pending, answered: Channels)
    requires OwnChannels(Book(pending, channels))
    ensures Book(kept, answered) == Scanned(Book(pending, channels), events, current, lookups)
    ensures OwnChannels(Book(kept, answered))
  {
    var marked := Mark(pending, events);
    ghost var book := Book(marked, channels);
    MarkedOwns(Book(pending, channels), events);
    var unsure;
    kept, answered, unsure := Retain(Book(marked, channels), current);
    kept, answered := Recheck(book, kept, answered, unsure, current, lookups);
    AnsweredOwns(book, Outcomes(marked, current, lookups));
  }

  lemma MarkedOwns(book: Book, events: seq<Event>)
    requires OwnChannels(book)
    ensures OwnChannels(Book(Marked(book.pending, events), book.channels))
  {
  }

  /** Puts each event of a window, in order, into the status of its confirmation. */
  method Mark(pending: Pending, events: seq<Event>) returns (marked: Pending)
    requires forall id :: id in pending ==> pending[id].request.vote.id == id
    ensures marked == Marked(pending, events)
  {
    marked := pending;
    assert Marked(pending, []) == pending;
    for i := 0 to |events|
      invariant marked == Marked(pending, events[..i])
    {
      var event := events[i];
      assert events[..i + 1][..i] == events[..i];
      ghost var before := marked;
      if event.id in marked {
        var confirmation := marked[event.id];
        var status := match event
                      case Removed(_) => NotExists(LogRemoved)
                      case Received(_, _, _, _, _, _) => Check(confirmation.request, event);
        marked := marked[event.id := confirmation.(status := Some(status))];
      }
      MarkedMore(pending, events, i);
    }
    assert events[..|events|] == events;
  }

  lemma MarkedMore(pending: Pending, events: seq<Event>, i: nat)
    requires i < |events|
    requires forall id :: id in pending ==> pending[id].request.vote.id == id
    ensures var before := Marked(pending, events[..i]);
            Marked(pending, events[..i + 1]) ==
            if events[i].id in before
            then before[events[i].id := before[events[i].id].(status := Some(Judge(before[events[i].id].request, events[i])))]
            else before
  {
    assert events[..i + 1][..i] == events[..i];
  }

  /** Answers what is settled already, and collects what has still to be looked up. */
  method Retain(book: Book, current: U64) returns (kept: Pending, channels: Channels, unsure: set<EventId>)
    requires OwnChannels(book)
    ensures Book(kept, channels) == Answered(book, Settled(book.pending, current))
    ensures unsure == Unsettled(book.pending, current)
  {
    kept, channels, unsure := book.pending, book.channels, {};
    var rest := book.pending.Keys;
    assert SettledExcept(book.pending, current, rest) == map[];
    AnsweredNone(book);
    while rest != {}
      invariant rest <= book.pending.Keys
      invariant unsure == Unsettled(book.pending, current) - rest
      invariant Book(kept, channels) == Answered(book, SettledExcept(book.pending, current, rest))
      decreases rest
    {
      var id :| id in rest;
      var confirmation := book.pending[id];
      RetainOne(book, current, rest, id);
      if confirmation.request.target <= current {
        match confirmation.status {
          case Some(NotExists(reason)) =>
            channels := Send(channels, confirmation.tx, NotExists(reason));
            kept := kept - {id};
          case _ =>
            unsure := unsure + {id};
        }
      }
      rest := rest - {id};
    }
    assert SettledExcept(book.pending, current, {}) == Settled(book.pending, current);
  }

  lemma RetainOne(book: Book, current: U64, rest: set<EventId>, id: EventId)
    requires OwnChannels(book) && id in rest && rest <= book.pending.Keys
    ensures var some, confirmation := Answered(book, SettledExcept(book.pending, current, rest)), book.pending[id];
            Answered(book, SettledExcept(book.pending, current, rest - {id})) ==
            if IsSettled(confirmation, current)
            then Book(some.pending - {id}, Send(some.channels, confirmation.tx, confirmation.status.value)) else some
    ensures Unsettled(book.pending, current) - (rest - {id}) ==
            Unsettled(book.pending, current) - rest + if IsUnsettled(book.pending[id], current) then {id} else {}
  {
    var answers, more := SettledExcept(book.pending, current, rest), SettledExcept(book.pending, current, rest - {id});
    if IsSettled(book.pending[id], current) {
      assert more == answers[id := book.pending[id].status.value];
      AnsweredMore(book, answers, id, book.pending[id].status.value);
    } else {
      assert more == answers;
    }
  }

  ghost function SettledExcept(pending: Pending, current: U64, rest: set<EventId>): map<EventId, Status> {
    Settled(pending, current) - rest
  }

  /** The confirmation is due, and what has been scanned refutes it. */
  predicate IsSettled(confirmation: Confirmation, current: U64) {
    confirmation.request.target <= current && confirmation.status.Some? && confirmation.status.value.NotExists?
  }

  /** The confirmation is due, and its receipt has to be looked up. */
  predicate IsUnsettled(confirmation: Confirmation, current: U64) {
    confirmation.request.target <= current && !IsSettled(confirmation, current)
  }

  ghost function Settled(pending: Pending, current: U64): map<EventId, Status> {
    map id | id in pending && IsSettled(pending[id], current) :: pending[id].status.value
  }

  ghost function Unsettled(pending: Pending, current: U64): set<EventId> {
    set id | id in pending && IsUnsettled(pending[id], current)
  }

  /** The answers known when some confirmations have still to be looked up. */
  ghost function OutcomesExcept(pending: Pending, current: U64, lookups: EventId -> Lookup, rest: set<EventId>): map<EventId, Status> {
    map id | id in pending && id !in rest && Outcome(pending[id], current, lookups(id)).Some? ::
      Outcome(pending[id], current, lookups(id)).value
  }

  /** Looks up what is not settled, in any order, and answers it unless the lookup fails. */
  method Recheck(ghost book: Book, settled: Pending, before: Channels, unsure: set<EventId>,
                 current: U64, lookups: EventId -> Lookup)
    returns (kept: Pending, channels: Channels)
    requires OwnChannels(book)
    requires Book(settled, before) == Answered(book, Settled(book.pending, current))
    requires unsure == Unsettled(book.pending, current)
    ensures Book(kept, channels) == Answered(book, Outcomes(book.pending, current, lookups))
  {
    kept, channels := settled, before;
    var rest := unsure;
    assert OutcomesExcept(book.pending, current, lookups, unsure) == Settled(book.pending, current);
    while rest != {}
      invariant rest <= unsure
      invariant Book(kept, channels) == Answered(book, OutcomesExcept(book.pending, current, lookups, rest))
      decreases rest
    {
      var id :| id in rest;
      RecheckOne(book, current, lookups, rest, id);
      var confirmation := kept[id];
      var status := StatusFound(confirmation, lookups(id));
      if status.Some? {
        channels := Send(channels, confirmation.tx, status.value);
        kept := kept - {id};
      }
      rest := rest - {id};
    }
    assert OutcomesExcept(book.pending, current, lookups, {}) == Outcomes(book.pending, current, lookups);
  }

  /** The verdict of a lookup on a confirmation; none if the lookup failed. */
  function StatusFound(confirmation: Confirmation, lookup: Lookup): Option<Status> {
    match lookup
    case Failed => None
    case Found(receipt) =>
      match FindEvent(receipt, confirmation.request.vote.id)
      case None => Some(NotExists(NotFound))
      case Some(Removed(_)) => Some(NotExists(LogRemoved))
      case Some(Received(id, address, topic, blockNumber, blockHash, data)) =>
        Some(Check(confirmation.request, Received(id, address, topic, blockNumber, blockHash, data)))
  }

  lemma RecheckOne(book: Book, current: U64, lookups: EventId -> Lookup, rest: set<EventId>, id: EventId)
    requires OwnChannels(book) && id in rest && rest <= Unsettled(book.pending, current)
    ensures var some := Answered(book, OutcomesExcept(book.pending, current, lookups, rest));
            && id in some.pending && some.pending[id] == book.pending[id]
            && var status := StatusFound(book.pending[id], lookups(id));
               Answered(book, OutcomesExcept(book.pending, current, lookups, rest - {id})) ==
               if status.Some? then Book(some.pending - {id}, Send(some.channels, book.pending[id].tx, status.value)) else some
  {
    var answers, more := OutcomesExcept(book.pending, current, lookups, rest),
                         OutcomesExcept(book.pending, current, lookups, rest - {id});
    var status := StatusFound(book.pending[id], lookups(id));
    assert Outcome(book.pending[id], current, lookups(id)) == status;
    if status.Some? {
      assert more == answers[id := status.value];
      AnsweredMore(book, answers, id, status.value);
    } else {
      assert more == answers;
    }
  }

  // ---- runs ----

  datatype Call =
    | Register(request: Request)
    | Round(head: Option<U64>, fetched: Option<seq<Event>>, lookups: EventId -> Lookup)

  datatype Window = Window(from: U64, to: U64)

  /** The subscriber and the windows it has scanned so far. */
  datatype State = State(book: Book, last: U64, windows: seq<Window>)

  ghost function Start(head: U64): State {
    State(Book(map[], []), head, [])
  }

  ghost function Next(s: State, call: Call, range: Option<U64>): State {
    match call
    case Register(request) => s.(book := Registered(s.book, request))
    case Round(head, fetched, lookups) =>
      var to := RoundEnd(s.last, head, fetched, range);
      if to == None then s else
      State(AfterRound(s.book, fetched, to, lookups), to.value, s.windows + [Window(s.last, to.value)])
  }

  ghost function Run(s: State, calls: seq<Call>, range: Option<U64>): State
    decreases calls
  {
    if calls == [] then s else Run(Next(s, calls[0], range), calls[1..], range)
  }

  /** The receipt of the transaction says that it succeeded, and its last log of the event is as claimed. */
  ghost predicate Confirmed(request: Request, lookup: Lookup) {
    && lookup.Found? && lookup.receipt.Some? && lookup.receipt.value.status == Some(1)
    && exists j: nat :: IsLast(lookup.receipt.value.logs, request.vote.id, j) && Agrees(request, lookup.receipt.value.logs[j])
  }

  /** The receipt was had, and it does not confirm the event. */
  ghost predicate Refuted(request: Request, lookup: Lookup) {
    lookup.Found? && !Confirmed(request, lookup)
  }

  /** The answer follows from the status that scanning left and from the lookup. */
  ghost predicate Justified(request: Request, scanned: Option<Status>, lookup: Lookup, answer: Status) {
    match answer
    case Exists => Confirmed(request, lookup)
    case NotExists(_) => scanned == Some(answer) || Refuted(request, lookup)
  }

  lemma OutcomeIsJustified(confirmation: Confirmation, height: nat, lookup: Lookup)
    requires Outcome(confirmation, height, lookup).Some?
    ensures confirmation.request.target <= height
    ensures Justified(confirmation.request, confirmation.status, lookup, Outcome(confirmation, height, lookup).value)
  {
    var id := confirmation.request.vote.id;
    if lookup.Found? && lookup.receipt.Some? {
      FindLastFinds(lookup.receipt.value.logs, id);
      if FindLast(lookup.receipt.value.logs, id).Some? {
        FindLastExists(lookup.receipt.value.logs, id);
      }
    }
  }

  lemma {:induction false} FindLastExists(logs: seq<Event>, id: EventId)
    requires FindLast(logs, id).Some?
    ensures exists j: nat :: IsLast(logs, id, j)
  {
    if logs[|logs| - 1].id == id {
      assert IsLast(logs, id, |logs| - 1);
    } else {
      var init := logs[..|logs| - 1];
      FindLastExists(init, id);
      var j: nat :| IsLast(init, id, j);
      assert IsLast(logs, id, j);
    }
  }

  /** The call is the round that answered the channel: it had scanned far enough, and the answer is justified. */
  ghost predicate Answers(s: State, call: Call, range: Option<U64>, request: Request, answer: Status) {
    && call.Round? && RoundEnd(s.last, call.head, call.fetched, range).Some?
    && request.target <= RoundEnd(s.last, call.head, call.fetched, range).value
    && request.vote.id in s.book.pending && s.book.pending[request.vote.id].request == request
    && Justified(request, StatusAfter(s.book.pending[request.vote.id], call.fetched.value),
                 call.lookups(request.vote.id), answer)
  }

  lemma NextOwns(s: State, call: Call, range: Option<U64>)
    requires OwnChannels(s.book)
    ensures OwnChannels(Next(s, call, range).book)
  {
    if call.Round? && RoundEnd(s.last, call.head, call.fetched, range).Some? {
      var to := RoundEnd(s.last, call.head, call.fetched, range).value;
      var marked := Marked(s.book.pending, call.fetched.value);
      MarkedOwns(s.book, call.fetched.value);
      AnsweredOwns(Book(marked, s.book.channels), Outcomes(marked, to, call.lookups));
    }
  }

  /** Channels only gain answers, each at most one, and only from rounds entitled to give it. */
  lemma NextAnswers(s: State, call: Call, range: Option<U64>, c: nat)
    requires OwnChannels(s.book) && c < |s.book.channels|
    ensures var before, after := s.book.channels, Next(s, call, range).book.channels;
            && c < |after| && after[c].request == before[c].request
            && (before[c].answer.Some? ==> after[c] == before[c])
            && (before[c].answer.None? && after[c].answer.Some? ==>
                  Answers(s, call, range, before[c].request, after[c].answer.value))
  {
    if call.Round? && RoundEnd(s.last, call.head, call.fetched, range).Some? {
      var to := RoundEnd(s.last, call.head, call.fetched, range).value;
      var marked := Marked(s.book.pending, call.fetched.value);
      var id := s.book.channels[c].request.vote.id;
      if id in marked && marked[id].tx == c && Outcome(marked[id], to, call.lookups(id)).Some? {
        OutcomeIsJustified(marked[id], to, call.lookups(id));
      }
    }
  }

  /** Every answer in a run was given by one of its rounds that was entitled to it, and stayed. */
  lemma {:induction false} RunAnswers(s: State, calls: seq<Call>, range: Option<U64>, c: nat) returns (i: nat)
    requires OwnChannels(s.book) && c < |s.book.channels| && s.book.channels[c].answer.None?
    requires |Run(s, calls, range).book.channels| > c && Run(s, calls, range).book.channels[c].answer.Some?
    ensures i < |calls|
    ensures Answers(Run(s, calls[..i], range), calls[i], range, s.book.channels[c].request,
                    Run(s, calls, range).book.channels[c].answer.value)
    decreases calls
  {
    var next := Next(s, calls[0], range);
    NextAnswers(s, calls[0], range, c);
    NextOwns(s, calls[0], range);
    if next.book.channels[c].answer.Some? {
      i := 0;
      AnswerStays(next, calls[1..], range, c);
    } else {
      i := RunAnswers(next, calls[1..], range, c);
      i := i + 1;
      assert calls[..i][1..] == calls[1..][..i - 1];
    }
  }

  lemma {:induction false} AnswerStays(s: State, calls: seq<Call>, range: Option<U64>, c: nat)
    requires OwnChannels(s.book) && c < |s.book.channels| && s.book.channels[c].answer.Some?
    ensures c < |Run(s, calls, range).book.channels| && Run(s, calls, range).book.channels[c] == s.book.channels[c]
    decreases calls
  {
    if calls != [] {
      NextAnswers(s, calls[0], range, c);
      NextOwns(s, calls[0], range);
      AnswerStays(Next(s, calls[0], range), calls[1..], range, c);
    }
  }

  // ---- nothing is forgotten ----

  /** A later request is about the same event. */
  ghost predicate Superseded(channels: Channels, c: nat) {
    c < |channels| && exists d :: c < d < |channels| && channels[d].request.vote.id == channels[c].request.vote.id
  }

  ghost predicate IsPending(book: Book, c: nat) {
    exists id :: id in book.pending && book.pending[id].tx == c
  }

  /** A request is pending exactly while it is the latest for its event and has no answer. */
  ghost predicate Accounted(book: Book) {
    forall c: nat :: c < |book.channels| ==> AccountedAt(book, c)
  }

  ghost predicate AccountedAt(book: Book, c: nat)
    requires c < |book.channels|
  {
    IsPending(book, c) <==> book.channels[c].answer.None? && !Superseded(book.channels, c)
  }

  lemma PendingUnderItsEvent(book: Book, c: nat)
    requires OwnChannels(book) && c < |book.channels|
    ensures var id := book.channels[c].request.vote.id;
            IsPending(book, c) <==> id in book.pending && book.pending[id].tx == c
  {
  }

  lemma NextAccounts(s: State, call: Call, range: Option<U64>)
    requires OwnChannels(s.book) && Accounted(s.book)
    ensures Accounted(Next(s, call, range).book)
  {
    NextOwns(s, call, range);
    match call
    case Register(request) =>
      forall c: nat | c < |s.book.channels| + 1
        ensures AccountedAt(Registered(s.book, request), c)
      {
        RegisteredAccounts(s.book, request, c);
      }
    case Round(head, fetched, lookups) =>
      var to := RoundEnd(s.last, head, fetched, range);
      if to.Some? {
        forall c: nat | c < |s.book.channels|
          ensures AccountedAt(Scanned(s.book, fetched.value, to.value, lookups), c)
        {
          ScannedAccounts(s.book, fetched.value, to.value, lookups, c);
        }
      }
  }

  lemma RegisteredAccounts(book: Book, request: Request, c: nat)
    requires OwnChannels(book) && Accounted(book) && c <= |book.channels|
    ensures AccountedAt(Registered(book, request), c)
  {
    var more := Registered(book, request);
    RegisteredOwns(book, request);
    PendingUnderItsEvent(more, c);
    if c < |book.channels| {
      PendingUnderItsEvent(book, c);
      assert more.channels[c] == book.channels[c];
      assert AccountedAt(book, c);
      assert forall d :: 0 <= d < |book.channels| ==> more.channels[d] == book.channels[d];
      if book.channels[c].request.vote.id == request.vote.id {
        assert more.channels[|book.channels|].request == request;
        assert Superseded(more.channels, c);
      } else if Superseded(more.channels, c) {
        var d :| c < d < |more.channels| && more.channels[d].request.vote.id == more.channels[c].request.vote.id;
        assert d < |book.channels|;
        assert book.channels[d].request.vote.id == book.channels[c].request.vote.id;
      }
    }
  }

  lemma ScannedAccounts(book: Book, events: seq<Event>, to: U64, lookups: EventId -> Lookup, c: nat)
    requires OwnChannels(book) && Accounted(book) && c < |book.channels|
    ensures AccountedAt(Scanned(book, events, to, lookups), c)
  {
    var marked, after := Marked(book.pending, events), Scanned(book, events, to, lookups);
    MarkedOwns(book, events);
    AnsweredOwns(Book(marked, book.channels), Outcomes(marked, to, lookups));
    PendingUnderItsEvent(book, c);
    PendingUnderItsEvent(after, c);
    assert AccountedAt(book, c);
    assert forall d :: 0 <= d < |book.channels| ==> after.channels[d].request == book.channels[d].request;
    assert Superseded(after.channels, c) <==> Superseded(book.channels, c);
  }

  /** Over every run, a request leaves the map only by being answered or replaced. */
  lemma {:induction false} RunAccounts(s: State, calls: seq<Call>, range: Option<U64>)
    requires OwnChannels(s.book) && Accounted(s.book)
    ensures OwnChannels(Run(s, calls, range).book) && Accounted(Run(s, calls, range).book)
    decreases calls
  {
    if calls != [] {
      NextOwns(s, calls[0], range);
      NextAccounts(s, calls[0], range);
      RunAccounts(Next(s, calls[0], range), calls[1..], range);
    }
  }

  // ---- coverage ----

  /** The windows lead from one height to another without a gap, none backward or longer than the range. */
  ghost predicate Covers(from: U64, to: U64, windows: seq<Window>, range: Option<U64>)
    decreases windows
  {
    if windows == [] then from == to
    else
      var last := windows[|windows| - 1];
      && last.from < last.to == to
      && (range.Some? ==> to - last.from <= range.value)
      && Covers(from, last.from, windows[..|windows| - 1], range)
  }

  lemma {:induction false} CoversEveryBlock(from: U64, to: U64, windows: seq<Window>, range: Option<U64>, block: nat)
    requires Covers(from, to, windows, range) && from <= block <= to && windows != []
    ensures from <= to && exists i :: 0 <= i < |windows| && windows[i].from <= block <= windows[i].to
    decreases windows
  {
    var last, init := windows[|windows| - 1], windows[..|windows| - 1];
    if last.from <= block {
      CoversOrdered(from, last.from, init, range);
    } else {
      CoversOrdered(from, last.from, init, range);
      CoversEveryBlock(from, last.from, init, range, block);
      var i :| 0 <= i < |init| && init[i].from <= block <= init[i].to;
      assert windows[i] == init[i];
    }
  }

  lemma {:induction false} CoversOrdered(from: U64, to: U64, windows: seq<Window>, range: Option<U64>)
    requires Covers(from, to, windows, range)
    ensures from <= to
    decreases windows
  {
    if windows != [] {
      CoversOrdered(from, windows[|windows| - 1].from, windows[..|windows| - 1], range);
    }
  }

  /** The range is not zero and does not carry a round past the greatest height. */
  predicate Sane(call: Call, range: Option<U64>) {
    call.Round? && call.head.Some? && range.Some? ==> 0 < range.value && call.head.value + range.value < TWO_TO_THE_64
  }

  /** Over every run the windows cover the heights from the first to the last, which never decreases. */
  lemma {:induction false} RunCovers(from: U64, s: State, calls: seq<Call>, range: Option<U64>)
    requires Covers(from, s.last, s.windows, range)
    requires forall i :: 0 <= i < |calls| ==> Sane(calls[i], range)
    ensures s.last <= Run(s, calls, range).last
    ensures Covers(from, Run(s, calls, range).last, Run(s, calls, range).windows, range)
    decreases calls
  {
    if calls != [] {
      var next, to := Next(s, calls[0], range), RoundEndOf(s, calls[0], range);
      assert Sane(calls[0], range);
      if to.Some? {
        PlanInRange(s.last, calls[0].head.value, range);
        PlanForwardExactly(s.last, calls[0].head.value, range);
        assert next.windows[..|next.windows| - 1] == s.windows;
      }
      RunCovers(from, next, calls[1..], range);
    }
  }

  ghost function RoundEndOf(s: State, call: Call, range: Option<U64>): Option<U64> {
    if call.Round? then RoundEnd(s.last, call.head, call.fetched, range) else None
  }

  // ---- progress ----

  /** A round that scans something, with a head at or past the target and the looked-for receipt at hand. */
  ghost predicate IsEffective(s: State, call: Call, range: Option<U64>, id: EventId, target: nat) {
    RoundEndOf(s, call, range).Some? && target <= call.head.value && call.lookups(id).Found?
  }

  /** How many rounds of a run are effective; between them anything may be registered or fail. */
  ghost function EffectiveRounds(s: State, calls: seq<Call>, range: Option<U64>, id: EventId, target: nat): nat
    decreases calls
  {
    if calls == [] then 0
    else
      (if IsEffective(s, calls[0], range, id, target) then 1 else 0) +
      EffectiveRounds(Next(s, calls[0], range), calls[1..], range, id, target)
  }

  /** How far that many windows of the full range lead. */
  function Reach(last: nat, rounds: nat, range: nat): nat {
    last + rounds * range
  }

  lemma ReachOne(last: nat, rounds: nat, range: nat)
    ensures Reach(last, rounds + 1, range) == Reach(last + range, rounds, range)
    ensures Reach(last, 0, range) == last
  {
    assert (rounds + 1) * range == rounds * range + range;
  }

  /** The call registers the event anew. */
  predicate Replaces(call: Call, id: EventId) {
    call.Register? && call.request.vote.id == id
  }

  /** That many windows, at least one, lead to the target of a pending confirmation. */
  ghost predicate InReach(s: State, range: Option<U64>, id: EventId, rounds: nat)
    requires id in s.book.pending
  {
    rounds >= 1 && (range.Some? ==> s.book.pending[id].request.target <= Reach(s.last, rounds, range.value))
  }

  /**
   * However the run mixes registrations of other events, idle and failed rounds, after
   * ceil((target - last) / range) effective rounds, and at least one, a pending confirmation has its answer.
   */
  lemma {:induction false} AnsweredInTime(s: State, calls: seq<Call>, range: Option<U64>, id: EventId)
    requires OwnChannels(s.book) && id in s.book.pending
    requires forall i :: 0 <= i < |calls| ==> Sane(calls[i], range) && !Replaces(calls[i], id)
    requires InReach(s, range, id, EffectiveRounds(s, calls, range, id, s.book.pending[id].request.target))
    ensures HasAnswer(Run(s, calls, range).book.channels, s.book.pending[id].tx)
    decreases calls
  {
    var rest, next := calls[1..], Next(s, calls[0], range);
    AnsweredOrInReach(s, calls[0], range, id, EffectiveRounds(next, rest, range, id, s.book.pending[id].request.target));
    if id in next.book.pending {
      AnsweredInTime(next, rest, range, id);
    } else {
      AnswerStays(next, rest, range, s.book.pending[id].tx);
    }
  }

  lemma AnsweredOrInReach(s: State, call: Call, range: Option<U64>, id: EventId, left: nat)
    requires OwnChannels(s.book) && id in s.book.pending
    requires Sane(call, range) && !Replaces(call, id)
    requires InReach(s, range, id,
                     (if IsEffective(s, call, range, id, s.book.pending[id].request.target) then 1 else 0) + left)
    ensures var next := Next(s, call, range);
            && OwnChannels(next.book)
            && if id in next.book.pending
               then && InReach(next, range, id, left)
                    && next.book.pending[id].request == s.book.pending[id].request
                    && next.book.pending[id].tx == s.book.pending[id].tx
               else HasAnswer(next.book.channels, s.book.pending[id].tx)
  {
    NextOwns(s, call, range);
    if id in Next(s, call, range).book.pending {
      StaysPending(s, call, range, id);
      StillInReach(s, call, range, id, left);
    } else {
      GoneIsAnswered(s, call, range, id);
    }
  }

  /** A confirmation that leaves the map in a step that does not replace it has been answered. */
  lemma GoneIsAnswered(s: State, call: Call, range: Option<U64>, id: EventId)
    requires OwnChannels(s.book) && id in s.book.pending
    requires id !in Next(s, call, range).book.pending
    ensures HasAnswer(Next(s, call, range).book.channels, s.book.pending[id].tx)
  {
    var marked := Marked(s.book.pending, call.fetched.value);
    assert id in Outcomes(marked, RoundEndOf(s, call, range).value, call.lookups);
  }

  lemma StaysPending(s: State, call: Call, range: Option<U64>, id: EventId)
    requires OwnChannels(s.book) && id in s.book.pending && id in Next(s, call, range).book.pending
    requires !Replaces(call, id)
    ensures Next(s, call, range).book.pending[id].request == s.book.pending[id].request
    ensures Next(s, call, range).book.pending[id].tx == s.book.pending[id].tx
  {
  }

  /** A call that does not answer uses up one effective round and a full range, or nothing. */
  lemma StillInReach(s: State, call: Call, range: Option<U64>, id: EventId, left: nat)
    requires OwnChannels(s.book) && id in s.book.pending && id in Next(s, call, range).book.pending
    requires Sane(call, range)
    requires InReach(s, range, id,
                     (if IsEffective(s, call, range, id, s.book.pending[id].request.target) then 1 else 0) + left)
    requires Next(s, call, range).book.pending[id].request == s.book.pending[id].request
    ensures InReach(Next(s, call, range), range, id, left)
  {
    var target := s.book.pending[id].request.target;
    if IsEffective(s, call, range, id, target) {
      if target <= RoundEndOf(s, call, range).value {
        AnsweredNow(s, call, range, id);
      } else {
        NotYet(s, call, range, id);
        ReachOne(s.last, left, range.value);
        ReachOne(s.last + range.value, 0, range.value);
      }
    } else if RoundEndOf(s, call, range).Some? {
      PlanInRange(s.last, call.head.value, range);
    }
  }

  lemma NotYet(s: State, call: Call, range: Option<U64>, id: EventId)
    requires OwnChannels(s.book) && id in s.book.pending
    requires Sane(call, range) && RoundEndOf(s, call, range).Some?
    requires RoundEndOf(s, call, range).value < s.book.pending[id].request.target <= call.head.value
    ensures range.Some? && Next(s, call, range).last == s.last + range.value
  {
    PlanInRange(s.last, call.head.value, range);
  }

  lemma AnsweredNow(s: State, call: Call, range: Option<U64>, id: EventId)
    requires OwnChannels(s.book) && id in s.book.pending
    requires RoundEndOf(s, call, range).Some? && s.book.pending[id].request.target <= RoundEndOf(s, call, range).value
    requires call.lookups(id).Found?
    ensures id !in Next(s, call, range).book.pending
  {
    var marked := Marked(s.book.pending, call.fetched.value);
    assert Outcome(marked[id], RoundEndOf(s, call, range).value, call.lookups(id)).Some?;
  }

  // ---- where an answer comes from ----

  /** A round that scans, and fetches a log of the requested event that is not as claimed. */
  ghost predicate IsRefuting(s: State, call: Call, range: Option<U64>, request: Request) {
    RoundEndOf(s, call, range).Some? && HasRefutation(call.fetched.value, request)
  }

  ghost predicate HasRefutation(events: seq<Event>, request: Request) {
    exists j :: 0 <= j < |events| && IsRefutation(events[j], request)
  }

  predicate IsRefutation(event: Event, request: Request) {
    event.id == request.vote.id && !Agrees(request, event)
  }

  /** One of the calls of a run is such a round. */
  ghost predicate HasRefutingRound(s: State, calls: seq<Call>, range: Option<U64>, request: Request)
    decreases calls
  {
    calls != [] &&
    (IsRefuting(s, calls[0], range, request) || HasRefutingRound(Next(s, calls[0], range), calls[1..], range, request))
  }

  predicate IsUnrefuted(status: Option<Status>) {
    status == None || status == Some(Exists)
  }

  /** Logs that all agree leave a status that is not refuted. */
  lemma {:induction false} UnrefutedAfter(confirmation: Confirmation, events: seq<Event>)
    requires IsUnrefuted(confirmation.status) && !HasRefutation(events, confirmation.request)
    ensures IsUnrefuted(StatusAfter(confirmation, events))
    decreases events
  {
    if events != [] {
      var init := events[..|events| - 1];
      assert !IsRefutation(events[|events| - 1], confirmation.request);
      forall j | 0 <= j < |init|
        ensures !IsRefutation(init[j], confirmation.request)
      {
        assert !IsRefutation(events[j], confirmation.request);
      }
      UnrefutedAfter(confirmation, init);
    }
  }

  /** The request of a channel is pending, and nothing scanned so far refutes it. */
  ghost predicate PendsUnrefuted(s: State, c: nat) {
    && OwnChannels(s.book) && c < |s.book.channels|
    && var id := s.book.channels[c].request.vote.id;
       && id in s.book.pending && s.book.pending[id].tx == c
       && s.book.pending[id].request == s.book.channels[c].request
       && IsUnrefuted(s.book.pending[id].status)
  }

  /** What a call does to a request that is pending and not refuted, if it fetches no refutation. */
  lemma UnrefutedNext(s: State, call: Call, range: Option<U64>, c: nat)
    requires PendsUnrefuted(s, c) && !IsRefuting(s, call, range, s.book.channels[c].request)
    ensures var next, request := Next(s, call, range), s.book.channels[c].request;
            && OwnChannels(next.book) && c < |next.book.channels| && next.book.channels[c].request == request
            && (PendsUnrefuted(next, c) || Replaces(call, request.vote.id) || next.book.channels[c].answer.Some?)
            && (next.book.channels[c].answer.Some? ==>
                  && call.Round? && RoundEndOf(s, call, range).Some? && request.target <= RoundEndOf(s, call, range).value
                  && call.lookups(request.vote.id).Found?
                  && (next.book.channels[c].answer == Some(Exists) <==> Confirmed(request, call.lookups(request.vote.id))))
            && ((RoundEndOf(s, call, range).Some? && request.target <= RoundEndOf(s, call, range).value &&
                 call.lookups(request.vote.id).Found?) ==> next.book.channels[c].answer.Some?)
  {
    var request := s.book.channels[c].request;
    var id := request.vote.id;
    NextOwns(s, call, range);
    if RoundEndOf(s, call, range).Some? {
      UnrefutedAfter(s.book.pending[id], call.fetched.value);
      UnrefutedOutcome(s.book.pending[id].(status := StatusAfter(s.book.pending[id], call.fetched.value)),
                       RoundEndOf(s, call, range).value, call.lookups(id));
    }
  }

  lemma UnrefutedOutcome(confirmation: Confirmation, height: nat, lookup: Lookup)
    requires IsUnrefuted(confirmation.status)
    ensures Outcome(confirmation, height, lookup).Some? <==> confirmation.request.target <= height && lookup.Found?
    ensures Outcome(confirmation, height, lookup).Some? ==>
              (Outcome(confirmation, height, lookup).value == Exists <==> Confirmed(confirmation.request, lookup))
  {
    var id := confirmation.request.vote.id;
    if lookup.Found? && lookup.receipt.Some? {
      var logs := lookup.receipt.value.logs;
      FindLastFinds(logs, id);
      if FindLast(logs, id).Some? {
        FindLastExists(logs, id);
      }
    }
  }

  /** The channel of a request that has been replaced. */
  ghost predicate IsOrphan(s: State, c: nat) {
    && OwnChannels(s.book) && c < |s.book.channels| && s.book.channels[c].answer.None?
    && var id := s.book.channels[c].request.vote.id;
       id in s.book.pending ==> s.book.pending[id].tx != c
  }

  lemma ReplacedStays(s: State, call: Call, range: Option<U64>, c: nat)
    requires PendsUnrefuted(s, c) && Replaces(call, s.book.channels[c].request.vote.id)
    ensures IsOrphan(Next(s, call, range), c)
  {
    NextOwns(s, call, range);
  }

  lemma OrphanNext(s: State, call: Call, range: Option<U64>, c: nat)
    requires IsOrphan(s, c)
    ensures IsOrphan(Next(s, call, range), c)
    ensures Next(s, call, range).book.channels[c].request == s.book.channels[c].request
  {
    NextOwns(s, call, range);
  }

  /** It never gets an answer. */
  lemma {:induction false} OrphanStays(s: State, calls: seq<Call>, range: Option<U64>, c: nat)
    requires IsOrphan(s, c)
    ensures IsOrphan(Run(s, calls, range), c)
    ensures Run(s, calls, range).book.channels[c].request == s.book.channels[c].request
    decreases calls
  {
    if calls != [] {
      OrphanNext(s, calls[0], range, c);
      OrphanStays(Next(s, calls[0], range), calls[1..], range, c);
    }
  }

  lemma {:induction false} UnrefutedRun(s: State, calls: seq<Call>, range: Option<U64>, c: nat)
    requires PendsUnrefuted(s, c) && s.book.channels[c].answer.None?
    requires !HasRefutingRound(s, calls, range, s.book.channels[c].request)
    ensures var t := Run(s, calls, range);
            && c < |t.book.channels| && t.book.channels[c].request == s.book.channels[c].request
            && (PendsUnrefuted(t, c) || IsOrphan(t, c) || t.book.channels[c].answer.Some?)
    decreases calls
  {
    if calls != [] {
      var next, rest := Next(s, calls[0], range), calls[1..];
      UnrefutedNext(s, calls[0], range, c);
      if next.book.channels[c].answer.Some? {
        AnswerStays(next, rest, range, c);
      } else if PendsUnrefuted(next, c) {
        UnrefutedRun(next, rest, range, c);
      } else {
        ReplacedStays(s, calls[0], range, c);
        OrphanStays(next, rest, range, c);
      }
    }
  }

  lemma {:induction false} RunLast(s: State, calls: seq<Call>, range: Option<U64>, i: nat)
    requires i < |calls|
    ensures Run(s, calls[..i + 1], range) == Next(Run(s, calls[..i], range), calls[i], range)
    decreases i
  {
    if i == 0 {
      assert calls[..1][1..] == [];
    } else {
      RunLast(Next(s, calls[0], range), calls[1..], range, i - 1);
      assert calls[..i + 1][1..] == calls[1..][..i] && calls[..i][1..] == calls[1..][..i - 1];
    }
  }

  lemma {:induction false} RefutingLast(s: State, calls: seq<Call>, range: Option<U64>, request: Request, i: nat)
    requires i < |calls| && !HasRefutingRound(s, calls[..i + 1], range, request)
    ensures !HasRefutingRound(s, calls[..i], range, request)
    ensures !IsRefuting(Run(s, calls[..i], range), calls[i], range, request)
    decreases i
  {
    if i > 0 {
      assert calls[..i + 1][1..] == calls[1..][..i] && calls[..i][1..] == calls[1..][..i - 1];
      RefutingLast(Next(s, calls[0], range), calls[1..], range, request, i - 1);
    }
  }

  /** The call of a run that gives a channel its answer. */
  lemma {:induction false} AnsweringCall(s: State, calls: seq<Call>, range: Option<U64>, c: nat) returns (i: nat)
    requires OwnChannels(s.book) && c < |s.book.channels| && s.book.channels[c].answer.None?
    requires HasAnswer(Run(s, calls, range).book.channels, c)
    ensures i < |calls|
    ensures OwnChannels(Run(s, calls[..i], range).book)
    ensures var before := Run(s, calls[..i], range).book.channels;
            c < |before| && before[c] == s.book.channels[c]
    ensures var after := Run(s, calls[..i + 1], range).book.channels;
            HasAnswer(after, c) && after[c] == Run(s, calls, range).book.channels[c]
    decreases calls
  {
    var next, rest := Next(s, calls[0], range), calls[1..];
    NextAnswers(s, calls[0], range, c);
    NextOwns(s, calls[0], range);
    if next.book.channels[c].answer.Some? {
      i := 0;
      assert calls[..1][1..] == [];
      AnswerStays(next, rest, range, c);
    } else {
      i := AnsweringCall(next, rest, range, c);
      i := i + 1;
      assert calls[..i][1..] == rest[..i - 1] && calls[..i + 1][1..] == rest[..i];
    }
  }

  /** The call of a run that opens a channel; its request is then pending and not refuted. */
  lemma {:induction false} OpeningCall(s: State, calls: seq<Call>, range: Option<U64>, c: nat) returns (r: nat)
    requires OwnChannels(s.book) && |s.book.channels| <= c < |Run(s, calls, range).book.channels|
    ensures r < |calls| && calls[r].Register?
    ensures PendsUnrefuted(Run(s, calls[..r + 1], range), c)
    ensures Run(s, calls[..r + 1], range).book.channels[c] == Channel(calls[r].request, None)
    ensures Run(s, calls, range) == Run(Run(s, calls[..r + 1], range), calls[r + 1..], range)
    decreases calls
  {
    var next, rest := Next(s, calls[0], range), calls[1..];
    NextOwns(s, calls[0], range);
    if c < |next.book.channels| {
      r := 0;
      assert calls[..1][1..] == [];
      assert Run(s, calls[..1], range) == next;
    } else {
      r := OpeningCall(next, rest, range, c);
      r := r + 1;
      assert calls[..r + 1][1..] == rest[..r] && calls[r + 1..] == rest[r..];
    }
  }

  /**
   * The call is a round that scanned to the target and gave the answer. The event exists only if the receipt confirms
   * it; and unless a log has refuted it, the receipt was at hand and decided.
   */
  ghost predicate IsGivenBy(answer: Status, s: State, call: Call, range: Option<U64>, request: Request, refuted: bool) {
    && call.Round? && RoundEndOf(s, call, range).Some? && request.target <= RoundEndOf(s, call, range).value
    && (answer == Exists ==> Confirmed(request, call.lookups(request.vote.id)))
    && (!refuted ==>
          && call.lookups(request.vote.id).Found?
          && (answer == Exists <==> Confirmed(request, call.lookups(request.vote.id))))
  }

  /**
   * Every answer of every run was given by a round after the call that registered the request; what may refute it are
   * logs of the event, fetched since the registration by that round or one before it, that are not as claimed.
   */
  lemma AnswerExplained(head: U64, calls: seq<Call>, range: Option<U64>, c: nat) returns (r: nat, i: nat)
    requires HasAnswer(Run(Start(head), calls, range).book.channels, c)
    ensures r < i < |calls|
    ensures calls[r] == Register(Run(Start(head), calls, range).book.channels[c].request)
    ensures IsGivenBy(Run(Start(head), calls, range).book.channels[c].answer.value,
                      Run(Start(head), calls[..i], range), calls[i], range, calls[r].request,
                      HasRefutingRound(Run(Start(head), calls[..r + 1], range), calls[r + 1..i + 1], range, calls[r].request))
  {
    r := OpeningCall(Start(head), calls, range, c);
    var asked, rest := Run(Start(head), calls[..r + 1], range), calls[r + 1..];
    var k := AnswerSinceAsked(asked, rest, range, c);
    i := r + 1 + k;
    RunTwice(Start(head), calls[..r + 1], rest[..k], range);
    Slices(calls, r + 1, k);
  }

  lemma AnswerSinceAsked(s: State, calls: seq<Call>, range: Option<U64>, c: nat) returns (k: nat)
    requires PendsUnrefuted(s, c) && s.book.channels[c].answer.None?
    requires HasAnswer(Run(s, calls, range).book.channels, c)
    ensures k < |calls| && Run(s, calls, range).book.channels[c].request == s.book.channels[c].request
    ensures IsGivenBy(Run(s, calls, range).book.channels[c].answer.value, Run(s, calls[..k], range), calls[k], range,
                      s.book.channels[c].request, HasRefutingRound(s, calls[..k + 1], range, s.book.channels[c].request))
  {
    k := AnsweringCall(s, calls, range, c);
    RunLast(s, calls, range, k);
    NextAnswers(Run(s, calls[..k], range), calls[k], range, c);
    if !HasRefutingRound(s, calls[..k + 1], range, s.book.channels[c].request) {
      ReceiptDecides(s, calls, range, c, k);
    }
  }

  lemma ReceiptDecides(s: State, calls: seq<Call>, range: Option<U64>, c: nat, k: nat)
    requires PendsUnrefuted(s, c) && s.book.channels[c].answer.None? && k < |calls|
    requires !HasRefutingRound(s, calls[..k + 1], range, s.book.channels[c].request)
    requires !HasAnswer(Run(s, calls[..k], range).book.channels, c)
    requires HasAnswer(Next(Run(s, calls[..k], range), calls[k], range).book.channels, c)
    ensures var request := s.book.channels[c].request;
            && calls[k].Round? && calls[k].lookups(request.vote.id).Found?
            && (Next(Run(s, calls[..k], range), calls[k], range).book.channels[c].answer == Some(Exists) <==>
                  Confirmed(request, calls[k].lookups(request.vote.id)))
  {
    var at := Run(s, calls[..k], range);
    RefutingLast(s, calls, range, s.book.channels[c].request, k);
    UnrefutedRun(s, calls[..k], range, c);
    if IsOrphan(at, c) {
      OrphanNext(at, calls[k], range, c);
    } else {
      UnrefutedNext(at, calls[k], range, c);
    }
  }

  lemma Slices<T>(s: seq<T>, from: nat, k: nat)
    requires from + k < |s|
    ensures s[..from] + s[from..][..k] == s[..from + k]
    ensures s[from..][..k + 1] == s[from..from + k + 1]
    ensures s[from..][k] == s[from + k]
  {
  }

  lemma {:induction false} RunTwice(s: State, first: seq<Call>, second: seq<Call>, range: Option<U64>)
    ensures Run(s, first + second, range) == Run(Run(s, first, range), second, range)
    decreases first
  {
    if first == [] {
      assert [] + second == second;
    } else {
      assert (first + second)[1..] == first[1..] + second;
      RunTwice(Next(s, first[0], range), first[1..], second, range);
    }
  }

  // ---- what becomes of each confirmation in a round ----

  /** What the receipt says: it exists, the reason why the last log is not it, or that there is none. */
  ghost predicate IsReceiptAnswer(request: Request, lookup: Lookup, answer: Status) {
    if Confirmed(request, lookup) then answer == Exists
    else
      answer.NotExists? &&
      if lookup.Found? && lookup.receipt.Some? && lookup.receipt.value.status == Some(1) &&
         exists j: nat :: IsLast(lookup.receipt.value.logs, request.vote.id, j)
      then exists j: nat :: IsLast(lookup.receipt.value.logs, request.vote.id, j) &&
                            IsReason(request, lookup.receipt.value.logs[j], answer.reason)
      else answer.reason == NotFound
  }

  /**
   * A round leaves a confirmation that is not due with the verdict on its last log. One that is due is answered with that
   * verdict if it is a refutation, whatever the receipt; otherwise with what the receipt says, if it is to be had.
   */
  lemma RoundExactly(book: Book, events: seq<Event>, to: U64, lookups: EventId -> Lookup, id: EventId)
    requires OwnChannels(book) && id in book.pending
    ensures var after, before := Scanned(book, events, to, lookups), book.pending[id];
            var status := StatusAfter(before, events);
            && |after.channels| == |book.channels|
            && if before.request.target > to || (IsUnrefuted(status) && lookups(id).Failed?) then
                 && id in after.pending && after.pending[id] == before.(status := status)
                 && after.channels[before.tx] == book.channels[before.tx]
               else
                 && id !in after.pending && after.channels[before.tx].answer.Some?
                 && if IsUnrefuted(status) then IsReceiptAnswer(before.request, lookups(id), after.channels[before.tx].answer.value)
                    else after.channels[before.tx].answer == status
  {
    var marked := Marked(book.pending, events);
    MarkedOwns(book, events);
    if IsUnrefuted(marked[id].status) && lookups(id).Found? && marked[id].request.target <= to {
      ReceiptAnswers(marked[id], to, lookups(id));
    }
  }

  lemma ReceiptAnswers(confirmation: Confirmation, height: nat, lookup: Lookup)
    requires IsUnrefuted(confirmation.status) && lookup.Found? && confirmation.request.target <= height
    ensures Outcome(confirmation, height, lookup).Some?
    ensures IsReceiptAnswer(confirmation.request, lookup, Outcome(confirmation, height, lookup).value)
  {
    var id := confirmation.request.vote.id;
    if lookup.receipt.Some? {
      var logs := lookup.receipt.value.logs;
      FindLastFinds(logs, id);
      if FindLast(logs, id).Some? {
        FindLastExists(logs, id);
      }
    }
  }
}
