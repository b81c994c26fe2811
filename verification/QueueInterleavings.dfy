/**
 * The queue's calls overlapping in time. The map is behind a lock, but the cached minimum is read
 * without it and the two atomics are written one at a time, so each call is a run of small steps.
 */
module QueueInterleavings {
  import opened Words
  import opened Wrappers
  import opened Oneshot
  import opened Shards
  import opened MessagesQueue

  /** What the holder of the lock has still to do; during a scan, also the queue when it began. */
  datatype Phase =
    | Free
    | Inserted(id: MessageId, expireAt: Time)
    | Lowered
    | Removed(id: MessageId, message: PendingMessage)
    | Uncounted(id: MessageId, message: PendingMessage)
    | Answered(id: MessageId, message: PendingMessage)
    | Outdated
    | Scanning(shard: ShardIdent, utime: Time, before: Queue, seen: Entries, rest: Entries, minimum: nat)
    | Stored

  /** An update that has seen a minimum below its time and is on its way to the lock. */
  datatype Look = Look(shard: ShardIdent, utime: Time)

  datatype State = State(
    entries: Entries,
    minExpireAt: nat,
    entryCount: int,
    channels: Channels,
    phase: Phase,
    looks: multiset<Look>)

  const INITIAL := State(map[], U32_MAX, 0, [], Free, multiset{})

  datatype Event =
    | TryAdd(id: MessageId, expireAt: Time)
    | LowerMinimum
    | CountUp
    | TryDeliver(id: MessageId)
    | CountDown
    | Answer
    | Compare
    | StoreMinimum(minimum: nat)
    | LoadMinimum(shard: ShardIdent, utime: Time)
    | BeginScan(shard: ShardIdent, utime: Time)
    | ScanEntry(id: MessageId)
    | StoreRetained
    | StoreCount

  ghost predicate Enabled(s: State, e: Event) {
    match e
    case TryAdd(_, _) => s.phase.Free?
    case LowerMinimum => s.phase.Inserted?
    case CountUp => s.phase.Lowered?
    case TryDeliver(_) => s.phase.Free?
    case CountDown => s.phase.Removed?
    case Answer => s.phase.Uncounted?
    case Compare => s.phase.Answered?
    case StoreMinimum(minimum) => s.phase.Outdated? && IsMinimum(s.entries, minimum)
    case LoadMinimum(_, _) => true
    case BeginScan(shard, utime) => s.phase.Free? && Look(shard, utime) in s.looks
    case ScanEntry(id) => s.phase.Scanning? && id in s.phase.rest
    case StoreRetained => s.phase.Scanning? && s.phase.rest == map[]
    case StoreCount => s.phase.Stored?
  }

  predicate Drops(phase: Phase, id: MessageId)
    requires phase.Scanning? && id in phase.rest
  {
    IsExpired(phase.shard, phase.utime, id, phase.rest[id])
  }

  function Advanced(phase: Phase, id: MessageId): Phase
    requires phase.Scanning? && id in phase.rest
  {
    var item := phase.rest[id];
    phase.(seen := phase.seen[id := item], rest := phase.rest - {id},
           minimum := if !Drops(phase, id) && item.expireAt < phase.minimum then item.expireAt else phase.minimum)
  }

  ghost function Next(s: State, e: Event): State
    requires Enabled(s, e)
  {
    match e
    case TryAdd(id, expireAt) =>
      if id in s.entries then s else
      s.(entries := s.entries[id := PendingMessage(|s.channels|, expireAt)],
         channels := s.channels + [Channel(id, None)],
         phase := Inserted(id, expireAt))
    case LowerMinimum =>
      s.(minExpireAt := if s.phase.expireAt < s.minExpireAt then s.phase.expireAt else s.minExpireAt, phase := Lowered)
    case CountUp =>
      s.(entryCount := s.entryCount + 1, phase := Free)
    case TryDeliver(id) =>
      if id !in s.entries then s else s.(entries := s.entries - {id}, phase := Removed(id, s.entries[id]))
    case CountDown =>
      s.(entryCount := s.entryCount - 1, phase := Uncounted(s.phase.id, s.phase.message))
    case Answer =>
      s.(channels := Send(s.channels, s.phase.message.tx, Delivered), phase := Answered(s.phase.id, s.phase.message))
    case Compare =>
      s.(phase := if s.minExpireAt != s.phase.message.expireAt then Free else Outdated)
    case StoreMinimum(minimum) =>
      s.(minExpireAt := minimum, phase := Free)
    case LoadMinimum(shard, utime) =>
      if utime <= s.minExpireAt then s else s.(looks := s.looks + multiset{Look(shard, utime)})
    case BeginScan(shard, utime) =>
      s.(phase := Scanning(shard, utime, Queue(s.entries, s.channels), map[], s.entries, U32_MAX),
         looks := s.looks - multiset{Look(shard, utime)})
    case ScanEntry(id) =>
      s.(phase := Advanced(s.phase, id),
         entries := if Drops(s.phase, id) then s.entries - {id} else s.entries,
         channels := if Drops(s.phase, id) then Send(s.channels, s.phase.rest[id].tx, Expired) else s.channels)
    case StoreRetained =>
      s.(minExpireAt := s.phase.minimum, phase := Stored)
    case StoreCount =>
      s.(entryCount := |s.entries|, phase := Free)
  }

  /** The queue as the completed operations have left it. */
  ghost function View(s: State): Queue {
    match s.phase
    case Inserted(id, _) => Queue(s.entries - {id}, if s.channels == [] then [] else s.channels[..|s.channels| - 1])
    case Removed(id, message) => Queue(s.entries[id := message], s.channels)
    case Uncounted(id, message) => Queue(s.entries[id := message], s.channels)
    case Scanning(_, _, before, _, _, _) => before
    case _ => Queue(s.entries, s.channels)
  }

  /** The operation that takes effect with a step, if one does. */
  ghost function Effect(s: State, e: Event): Option<Operation>
    requires Enabled(s, e)
  {
    match e
    case TryAdd(id, expireAt) => if id in s.entries then Some(Add(id, expireAt)) else None
    case LowerMinimum => Some(Add(s.phase.id, s.phase.expireAt))
    case TryDeliver(id) => if id !in s.entries then Some(Deliver(id)) else None
    case Answer => Some(Deliver(s.phase.id))
    case LoadMinimum(shard, utime) => if utime <= s.minExpireAt then Some(Update(shard, utime)) else None
    case StoreRetained => Some(Update(s.phase.shard, s.phase.utime))
    case _ => None
  }

  ghost predicate AtMostExpiries(minimum: nat, entries: Entries) {
    forall id :: id in entries ==> minimum <= entries[id].expireAt
  }

  ghost predicate Invariant(s: State) {
    && OwnChannels(View(s).entries, View(s).channels)
    && AtMostExpiries(s.minExpireAt, View(s).entries)
    && match s.phase
       case Free => IsMinimum(s.entries, s.minExpireAt) && s.entryCount == |s.entries|
       case Inserted(id, expireAt) =>
         && s.channels != [] && s.channels[|s.channels| - 1] == Channel(id, None)
         && id in s.entries && s.entries[id] == PendingMessage(|s.channels| - 1, expireAt)
         && IsMinimum(s.entries - {id}, s.minExpireAt) && s.entryCount + 1 == |s.entries|
       case Lowered => IsMinimum(s.entries, s.minExpireAt) && s.entryCount + 1 == |s.entries|
       case Removed(id, message) =>
         id !in s.entries && IsMinimum(s.entries[id := message], s.minExpireAt) && s.entryCount == |s.entries| + 1
       case Uncounted(id, message) =>
         id !in s.entries && IsMinimum(s.entries[id := message], s.minExpireAt) && s.entryCount == |s.entries|
       case Answered(id, message) =>
         id !in s.entries && IsMinimum(s.entries[id := message], s.minExpireAt) && s.entryCount == |s.entries|
       case Outdated => s.entryCount == |s.entries|
       case Scanning(_, _, _, _, _, _) => IsScan(s.phase, s.entries, s.channels)
       case Stored => IsMinimum(s.entries, s.minExpireAt)
  }

  /** Each step either changes nothing a caller can see or is one operation of the queue, all at once. */
  lemma StepRefines(s: State, e: Event)
    requires Invariant(s) && Enabled(s, e)
    ensures Invariant(Next(s, e))
    ensures View(Next(s, e)) == if Effect(s, e) == None then View(s) else Apply(View(s), Effect(s, e).value)
  {
    match e
    case TryAdd(id, expireAt) => AddStarts(s, id, expireAt);
    case LowerMinimum => AddCommits(s);
    case TryDeliver(id) => DeliverStarts(s, id);
    case Answer => DeliverCommits(s);
    case Compare => Compares(s);
    case LoadMinimum(shard, utime) => Looks(s, shard, utime);
    case BeginScan(shard, utime) => ScanBegins(s, shard, utime);
    case ScanEntry(id) => ScanVisits(s, id);
    case StoreRetained => ScanCommits(s);
    case _ => Bookkeeping(s, e);
  }

  lemma Compares(s: State)
    requires Invariant(s) && s.phase.Answered?
    ensures View(Next(s, Compare)) == View(s)
    ensures Invariant(Next(s, Compare))
  {
    if s.minExpireAt != s.phase.message.expireAt {
      MinimumKept(s.entries[s.phase.id := s.phase.message], s.phase.id, s.minExpireAt);
      assert s.entries[s.phase.id := s.phase.message] - {s.phase.id} == s.entries;
    }
  }

  /** The unlocked look: when it ends the update, a full scan at that moment would have changed nothing. */
  lemma Looks(s: State, shard: ShardIdent, utime: Time)
    requires Invariant(s)
    ensures View(Next(s, LoadMinimum(shard, utime))) == View(s)
    ensures utime <= s.minExpireAt ==> Apply(View(s), Update(shard, utime)) == View(s)
    ensures Invariant(Next(s, LoadMinimum(shard, utime)))
  {
    if utime <= s.minExpireAt {
      QuietUpdate(View(s), s.minExpireAt, shard, utime);
    }
  }

  lemma ScanBegins(s: State, shard: ShardIdent, utime: Time)
    requires Invariant(s) && Enabled(s, BeginScan(shard, utime))
    ensures View(Next(s, BeginScan(shard, utime))) == View(s)
    ensures Invariant(Next(s, BeginScan(shard, utime)))
  {
    ScanStarts(s.entries, s.channels, shard, utime);
  }

  lemma ScanVisits(s: State, id: MessageId)
    requires Invariant(s) && Enabled(s, ScanEntry(id))
    ensures View(Next(s, ScanEntry(id))) == View(s)
    ensures Invariant(Next(s, ScanEntry(id)))
  {
    var next := Next(s, ScanEntry(id));
    assert View(next) == next.phase.before == s.phase.before;
    ScanAdvances(s.phase, s.entries, s.channels, id, next.phase, next.entries, next.channels);
  }

  lemma ScanAdvances(phase: Phase, entries: Entries, channels: Channels, id: MessageId,
                     phase': Phase, entries': Entries, channels': Channels)
    requires IsScan(phase, entries, channels) && id in phase.rest && phase' == Advanced(phase, id)
    requires entries' == if Drops(phase, id) then entries - {id} else entries
    requires channels' == if Drops(phase, id) then Send(channels, phase.rest[id].tx, Expired) else channels
    ensures IsScan(phase', entries', channels')
  {
    ScanMore(phase.before.entries, phase.seen, phase.rest, id, phase.shard, phase.utime,
             entries, phase.minimum, phase.before.channels, channels);
  }

  /** How far a scan has come. */
  ghost predicate IsScan(phase: Phase, entries: Entries, channels: Channels) {
    phase.Scanning? && MessagesQueue.Scanning(phase.before.entries, phase.seen, phase.rest, phase.shard, phase.utime,
                                entries, phase.minimum, phase.before.channels, channels)
  }

  /** When the last entry has been visited the whole update takes effect. */
  lemma ScanCommits(s: State)
    requires Invariant(s) && Enabled(s, StoreRetained)
    ensures View(Next(s, StoreRetained)) == Apply(View(s), Update(s.phase.shard, s.phase.utime))
    ensures Invariant(Next(s, StoreRetained))
  {
    assert View(Next(s, StoreRetained)) == Queue(s.entries, s.channels);
    ScanEnds(s.phase, s.entries, s.channels);
    ApplyOwns(s.phase.before, Update(s.phase.shard, s.phase.utime));
  }

  lemma ScanEnds(phase: Phase, entries: Entries, channels: Channels)
    requires IsScan(phase, entries, channels) && phase.rest == map[]
    ensures Queue(entries, channels) == Apply(phase.before, Update(phase.shard, phase.utime))
    ensures IsMinimum(entries, phase.minimum)
  {
    ScanDone(phase.before.entries, phase.seen, phase.shard, phase.utime,
             entries, phase.minimum, phase.before.channels, channels);
  }

  lemma Bookkeeping(s: State, e: Event)
    requires Invariant(s) && Enabled(s, e)
    requires e.CountUp? || e.CountDown? || e.StoreMinimum? || e.StoreCount?
    ensures View(Next(s, e)) == View(s)
    ensures Invariant(Next(s, e))
  {
  }

  lemma AddStarts(s: State, id: MessageId, expireAt: Time)
    requires Invariant(s) && s.phase.Free?
    ensures id !in s.entries ==> View(Next(s, TryAdd(id, expireAt))) == View(s)
    ensures Invariant(Next(s, TryAdd(id, expireAt)))
  {
    if id !in s.entries {
      var t := Next(s, TryAdd(id, expireAt));
      assert t.entries - {id} == s.entries;
      assert t.channels[..|t.channels| - 1] == s.channels;
      assert View(t) == View(s);
    }
  }

  lemma AddCommits(s: State)
    requires Invariant(s) && s.phase.Inserted?
    ensures View(Next(s, LowerMinimum)) == Apply(View(s), Add(s.phase.id, s.phase.expireAt))
    ensures Invariant(Next(s, LowerMinimum))
  {
    var id, before := s.phase.id, View(s);
    MinimumAdded(before.entries, id, s.entries[id], s.minExpireAt);
    assert before.entries[id := s.entries[id]] == s.entries;
    assert before.channels + [Channel(id, None)] == s.channels;
  }

  lemma DeliverStarts(s: State, id: MessageId)
    requires Invariant(s) && s.phase.Free?
    ensures id in s.entries ==> View(Next(s, TryDeliver(id))) == View(s)
    ensures Invariant(Next(s, TryDeliver(id)))
  {
    if id in s.entries {
      assert (s.entries - {id})[id := s.entries[id]] == s.entries;
    }
  }

  lemma DeliverCommits(s: State)
    requires Invariant(s) && s.phase.Uncounted?
    ensures View(Next(s, Answer)) == Apply(View(s), Deliver(s.phase.id))
    ensures Invariant(Next(s, Answer))
  {
    DeliverEntries(s.entries, s.phase.id, s.phase.message);
    ApplyOwns(View(s), Deliver(s.phase.id));
  }

  lemma DeliverEntries(entries: Entries, id: MessageId, message: PendingMessage)
    requires id !in entries
    ensures entries[id := message] - {id} == entries
  {
  }

  // ---- runs ----

  ghost predicate Possible(s: State, events: seq<Event>)
    decreases events
  {
    events == [] || (Enabled(s, events[0]) && Possible(Next(s, events[0]), events[1..]))
  }

  ghost function Run(s: State, events: seq<Event>): State
    requires Possible(s, events)
    decreases events
  {
    if events == [] then s else Run(Next(s, events[0]), events[1..])
  }

  /** The operations in the order in which they take effect. */
  ghost function Effects(s: State, events: seq<Event>): seq<Operation>
    requires Possible(s, events)
    decreases events
  {
    if events == [] then []
    else
      (if Effect(s, events[0]) == None then [] else [Effect(s, events[0]).value]) +
      Effects(Next(s, events[0]), events[1..])
  }

  ghost function ApplyAll(queue: Queue, ops: seq<Operation>): Queue
    decreases ops
  {
    if ops == [] then queue else ApplyAll(Apply(queue, ops[0]), ops[1..])
  }

  /** Every interleaving leaves what some order of whole operations, with updates that always scan, would leave. */
  lemma {:induction false} RunRefines(s: State, events: seq<Event>)
    requires Invariant(s) && Possible(s, events)
    ensures Invariant(Run(s, events))
    ensures View(Run(s, events)) == ApplyAll(View(s), Effects(s, events))
    decreases events
  {
    if events != [] {
      StepRefines(s, events[0]);
      RunRefines(Next(s, events[0]), events[1..]);
      var first, rest := Effect(s, events[0]), Effects(Next(s, events[0]), events[1..]);
      if first != None {
        assert ([first.value] + rest)[1..] == rest;
      } else {
        assert [] + rest == rest;
      }
    }
  }

  /** Whenever nobody holds the lock, the minimum and the count are exact. */
  lemma RestIsExact(events: seq<Event>)
    requires Possible(INITIAL, events) && Run(INITIAL, events).phase.Free?
    ensures var s := Run(INITIAL, events);
            IsMinimum(s.entries, s.minExpireAt) && s.entryCount == |s.entries|
  {
    RunRefines(INITIAL, events);
  }

  // ---- what receivers see ----

  /** A scan sends its notices one by one; a receiver sees one early only if the whole update is to give it. */
  lemma NoticesAreDue(s: State, c: nat)
    requires Invariant(s) && s.phase.Scanning? && c < |s.channels| && s.channels[c] != View(s).channels[c]
    ensures c in ExpiredChannels(s.phase.before.entries, s.phase.shard, s.phase.utime)
    ensures s.channels[c] == Apply(View(s), Update(s.phase.shard, s.phase.utime)).channels[c]
  {
    NoticeIsDue(s.phase, s.entries, s.channels, c);
  }

  lemma NoticeIsDue(phase: Phase, entries: Entries, channels: Channels, c: nat)
    requires IsScan(phase, entries, channels) && c < |channels|
    ensures |channels| == |phase.before.channels|
    ensures channels[c] != phase.before.channels[c] ==>
              && c in ExpiredChannels(phase.before.entries, phase.shard, phase.utime)
              && channels[c] == phase.before.channels[c].(answer := Some(Expired))
  {
    if c in ExpiredChannels(phase.seen, phase.shard, phase.utime) {
      var id :| id in phase.seen && IsExpired(phase.shard, phase.utime, id, phase.seen[id]) && phase.seen[id].tx == c;
      assert id in phase.before.entries && phase.before.entries[id] == phase.seen[id];
    }
  }

  lemma StepKeepsAnswers(s: State, e: Event)
    requires Invariant(s) && Enabled(s, e)
    ensures AnswersKept(s.channels, Next(s, e).channels)
  {
    match e
    case Answer =>
      assert View(s).entries[s.phase.id] == s.phase.message;
      SendKeepsAnswers(s.channels, s.phase.message.tx, s.phase.id, Delivered);
    case ScanEntry(id) =>
      StillOpen(s.phase, s.entries, s.channels, id);
      SendKeepsAnswers(s.channels, s.phase.rest[id].tx, id, Expired);
    case _ =>
  }

  lemma SendKeepsAnswers(channels: Channels, tx: nat, id: MessageId, status: MessageStatus)
    requires IsOpen(channels, tx, id)
    ensures AnswersKept(channels, Send(channels, tx, status))
  {
  }

  /** The channel of an entry still ahead of a scan is open. */
  lemma StillOpen(phase: Phase, entries: Entries, channels: Channels, id: MessageId)
    requires IsScan(phase, entries, channels) && id in phase.rest
    ensures IsOpen(channels, phase.rest[id].tx, id)
  {
    var before := phase.before;
    assert id in before.entries && before.entries[id] == phase.rest[id];
    SeenChannels(before, phase.seen, phase.shard, phase.utime, id);
  }

  /** The channel of an entry still ahead of a scan has not been notified. */
  lemma SeenChannels(before: Queue, seen: Entries, shard: ShardIdent, utime: Time, id: MessageId)
    requires OwnChannels(before.entries, before.channels) && id in before.entries && id !in seen
    requires forall other :: other in seen ==> other in before.entries && before.entries[other] == seen[other]
    ensures before.entries[id].tx !in ExpiredChannels(seen, shard, utime)
  {
    forall other | other in seen
      ensures seen[other].tx != before.entries[id].tx
    {
      assert IsOpen(before.channels, before.entries[other].tx, other) && IsOpen(before.channels, before.entries[id].tx, id);
    }
  }

  /** In every interleaving a sender fires at most once. */
  lemma {:induction false} RunAnswersOnce(s: State, events: seq<Event>)
    requires Invariant(s) && Possible(s, events)
    ensures AnswersKept(s.channels, Run(s, events).channels)
    decreases events
  {
    if events != [] {
      StepKeepsAnswers(s, events[0]);
      StepRefines(s, events[0]);
      RunAnswersOnce(Next(s, events[0]), events[1..]);
    }
  }
}
