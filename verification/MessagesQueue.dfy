/** The queue of pending external messages with its cached minimum expiry. */
module MessagesQueue {
  import opened Words
  import opened Wrappers
  import opened Oneshot
  import opened Shards

  const U32_MAX: nat := 0xffff_ffff

  type Time = t: nat | t <= U32_MAX

  datatype MessageId = MessageId(account: Account, messageHash: seq<Byte>)

  datatype MessageStatus = Delivered | Expired

  /** A pending message: the sending half of its oneshot channel and its expiry. */
  datatype PendingMessage = PendingMessage(tx: nat, expireAt: Time)

  type Entries = map<MessageId, PendingMessage>

  type Channels = seq<Channel<MessageId, MessageStatus>>

  /** The message is dropped by a block of the shard at that time. */
  predicate IsExpired(shard: ShardIdent, utime: Time, id: MessageId, message: PendingMessage) {
    utime > message.expireAt && InShard(shard, id.account)
  }

  /** The least expiry of the entries, or the greatest time if there are none. */
  ghost predicate IsMinimum(entries: Entries, minimum: nat) {
    && minimum <= U32_MAX
    && (forall id :: id in entries ==> minimum <= entries[id].expireAt)
    && (minimum < U32_MAX ==> exists id :: id in entries && entries[id].expireAt == minimum)
  }

  /** Every entry holds the channel opened for it, and that channel has not been used. */
  ghost predicate OwnChannels(entries: Entries, channels: Channels) {
    forall id :: id in entries ==> IsOpen(channels, entries[id].tx, id)
  }

  function Without(entries: Entries, shard: ShardIdent, utime: Time): Entries {
    map id | id in entries && !IsExpired(shard, utime, id, entries[id]) :: entries[id]
  }

  /** The channels of the messages that a block drops. */
  ghost function ExpiredChannels(entries: Entries, shard: ShardIdent, utime: Time): set<nat> {
    set id | id in entries && IsExpired(shard, utime, id, entries[id]) :: entries[id].tx
  }

  /** Channels after an expiry notice on each of a set of them. */
  ghost function Notified(channels: Channels, dropped: set<nat>): Channels {
    seq(|channels|, c requires 0 <= c < |channels| =>
      if c in dropped then channels[c].(answer := Some(Expired)) else channels[c])
  }

  /** What the queue stands for: the pending messages and the channels opened so far. */
  datatype Queue = Queue(entries: Entries, channels: Channels)

  const EMPTY := Queue(map[], [])

  datatype Operation =
    | Add(id: MessageId, expireAt: Time)
    | Deliver(id: MessageId)
    | Update(shard: ShardIdent, utime: Time)

  /** The operations one after another, with an update that always scans. */
  ghost function Apply(queue: Queue, op: Operation): Queue {
    match op
    case Add(id, expireAt) =>
      if id in queue.entries then queue else
      Queue(queue.entries[id := PendingMessage(|queue.channels|, expireAt)], queue.channels + [Channel(id, None)])
    case Deliver(id) =>
      if id !in queue.entries then queue else
      Queue(queue.entries - {id}, Send(queue.channels, queue.entries[id].tx, Delivered))
    case Update(shard, utime) =>
      Queue(Without(queue.entries, shard, utime),
            Notified(queue.channels, ExpiredChannels(queue.entries, shard, utime)))
  }

  /** What an operation does, entry by entry and channel by channel. */
  lemma ApplyExactly(queue: Queue, op: Operation, id: MessageId)
    requires OwnChannels(queue.entries, queue.channels)
    ensures var after := Apply(queue, op);
            match op
            case Add(added, expireAt) =>
              if id == added && id !in queue.entries then
                && id in after.entries && after.entries[id] == PendingMessage(|queue.channels|, expireAt)
                && after.channels == queue.channels + [Channel(id, None)]
              else
                (id in after.entries <==> id in queue.entries) && (id in queue.entries ==> after.entries[id] == queue.entries[id])
            case Deliver(found) => IsSettledAs(queue, after, id, id == found, Delivered)
            case Update(shard, utime) =>
              IsSettledAs(queue, after, id, id in queue.entries && queue.entries[id].expireAt < utime && InShard(shard, id.account), Expired)
  {
    if op.Update? && id in queue.entries && !IsExpired(op.shard, op.utime, id, queue.entries[id]) {
      OwnAfterScan(queue.entries, op.shard, op.utime, queue.channels);
    }
    if op.Deliver? && id in queue.entries && op.id in queue.entries && id != op.id {
      assert IsOpen(queue.channels, queue.entries[id].tx, id) && IsOpen(queue.channels, queue.entries[op.id].tx, op.id);
    }
  }

  /** A pending message leaves with an answer, or stays with its channel unused. */
  ghost predicate IsSettledAs(before: Queue, after: Queue, id: MessageId, leaves: bool, status: MessageStatus) {
    && |after.channels| == |before.channels|
    && (id in after.entries <==> id in before.entries && !leaves)
    && (id in before.entries && before.entries[id].tx < |before.channels| ==>
          var tx := before.entries[id].tx;
          if leaves then after.channels[tx].answer == Some(status)
          else after.entries[id] == before.entries[id] && after.channels[tx] == before.channels[tx])
  }

  lemma ApplyOwns(queue: Queue, op: Operation)
    requires OwnChannels(queue.entries, queue.channels)
    ensures OwnChannels(Apply(queue, op).entries, Apply(queue, op).channels)
  {
    if op.Update? {
      OwnAfterScan(queue.entries, op.shard, op.utime, queue.channels);
    }
  }

  /** An update at or before the least expiry changes nothing. */
  lemma QuietUpdate(queue: Queue, minimum: nat, shard: ShardIdent, utime: Time)
    requires forall id :: id in queue.entries ==> minimum <= queue.entries[id].expireAt
    requires utime <= minimum
    ensures Apply(queue, Update(shard, utime)) == queue
  {
    assert Without(queue.entries, shard, utime) == queue.entries;
    assert ExpiredChannels(queue.entries, shard, utime) == {};
    assert Notified(queue.channels, {}) == queue.channels;
  }

  class PendingMessagesQueue {
    var minExpireAt: Time
    var entries: Entries
    var entryCount: nat
    var channels: Channels

    ghost predicate Valid()
      reads this
    {
      IsMinimum(entries, minExpireAt) && entryCount == |entries| && OwnChannels(entries, channels)
    }

    ghost function View(): Queue
      reads this
    {
      Queue(entries, channels)
    }

    constructor ()
      ensures Valid() && View() == EMPTY
    {
      minExpireAt, entries, entryCount, channels := U32_MAX, map[], 0, [];
    }

    /** Registers a message, unless it is already pending, and returns its receiver. */
    method AddMessage(account: Account, messageHash: seq<Byte>, expireAt: Time) returns (rx: Option<nat>)
      requires Valid()
      modifies this
      ensures Valid()
      ensures View() == Apply(old(View()), Add(MessageId(account, messageHash), expireAt))
      ensures rx == if MessageId(account, messageHash) in old(entries) then None else Some(|old(channels)|)
    {
      var id := MessageId(account, messageHash);
      if id in entries {
        return None;
      }
      rx := Some(|channels|);
      channels := channels + [Channel(id, None)];
      ghost var before := entries;
      entries := entries[id := PendingMessage(rx.value, expireAt)];
      minExpireAt := if expireAt < minExpireAt then expireAt else minExpireAt;
      entryCount := entryCount + 1;
      MinimumAdded(before, id, entries[id], old(minExpireAt));
    }

    /** Resolves a message found in a block, if it is still pending. */
    method DeliverMessage(account: Account, messageHash: seq<Byte>)
      requires Valid()
      modifies this
      ensures Valid()
      ensures View() == Apply(old(View()), Deliver(MessageId(account, messageHash)))
    {
      var id := MessageId(account, messageHash);
      if id !in entries {
        return;
      }
      ghost var after := Apply(View(), Deliver(id));
      ApplyOwns(View(), Deliver(id));
      var message := entries[id];
      entries := entries - {id};
      entryCount := entryCount - 1;
      channels := Send(channels, message.tx, Delivered);
      assert View() == after;
      if minExpireAt != message.expireAt {
        MinimumKept(old(entries), id, minExpireAt);
        return;
      }
      minExpireAt := Minimum(entries);
    }

    /** Drops the shard's messages that expired before a block's time; mostly just a look at the cached minimum. */
    method Update(shard: ShardIdent, currentUtime: Time)
      requires Valid()
      modifies this
      ensures Valid()
      ensures View() == Apply(old(View()), Operation.Update(shard, currentUtime))
    {
      if currentUtime <= minExpireAt {
        QuietUpdate(View(), minExpireAt, shard, currentUtime);
        return;
      }
      Scan(shard, currentUtime);
    }

    /** The part of an update under the lock: a full scan. */
    method Scan(shard: ShardIdent, currentUtime: Time)
      requires Valid()
      modifies this
      ensures Valid()
      ensures View() == Apply(old(View()), Operation.Update(shard, currentUtime))
    {
      var minimum;
      entries, channels, minimum := Retain(entries, channels, shard, currentUtime);
      minExpireAt := minimum;
      entryCount := |entries|;
    }
  }

  /** Drops and notifies the expired entries one by one, keeping the least expiry of the others. */
  method Retain(all: Entries, before: Channels, shard: ShardIdent, currentUtime: Time)
    returns (entries: Entries, channels: Channels, minimum: Time)
    requires OwnChannels(all, before)
    ensures entries == Without(all, shard, currentUtime) && IsMinimum(entries, minimum)
    ensures channels == Notified(before, ExpiredChannels(all, shard, currentUtime)) && OwnChannels(entries, channels)
  {
    entries, channels, minimum := all, before, U32_MAX;
    var rest := all;
    ghost var seen: Entries := map[];
    ScanStarts(all, before, shard, currentUtime);
    while rest != map[]
      invariant Scanning(all, seen, rest, shard, currentUtime, entries, minimum, before, channels)
      decreases rest.Keys
    {
      var id :| id in rest;
      var item := rest[id];
      var contains := ContainsAccount(shard, id.account);
      ScanMore(all, seen, rest, id, shard, currentUtime, entries, minimum, before, channels);
      if currentUtime <= item.expireAt || !contains {
        if item.expireAt < minimum {
          minimum := item.expireAt;
        }
      } else {
        channels := Send(channels, item.tx, Expired);
        entries := entries - {id};
      }
      seen := seen[id := item];
      rest := rest - {id};
    }
    ScanDone(all, seen, shard, currentUtime, entries, minimum, before, channels);
  }

  /** A scan of the queue has visited some of the entries and has the rest ahead. */
  ghost predicate Scanning(all: Entries, seen: Entries, rest: Entries, shard: ShardIdent, utime: Time,
                           entries: Entries, minimum: nat, before: Channels, after: Channels) {
    && OwnChannels(all, before)
    && seen.Keys !! rest.Keys && seen + rest == all
    && entries == Without(seen, shard, utime) + rest
    && IsMinimum(Without(seen, shard, utime), minimum)
    && after == Notified(before, ExpiredChannels(seen, shard, utime))
  }

  lemma ScanStarts(all: Entries, channels: Channels, shard: ShardIdent, utime: Time)
    requires OwnChannels(all, channels)
    ensures Scanning(all, map[], all, shard, utime, all, U32_MAX, channels, channels)
  {
    assert Without(map[], shard, utime) == map[];
    assert map[] + all == all;
    assert ExpiredChannels(map[], shard, utime) == {};
    assert Notified(channels, {}) == channels;
  }

  lemma ScanMore(all: Entries, seen: Entries, rest: Entries, id: MessageId, shard: ShardIdent, utime: Time,
                 entries: Entries, minimum: nat, before: Channels, after: Channels)
    requires id in rest && Scanning(all, seen, rest, shard, utime, entries, minimum, before, after)
    ensures rest[id].tx < |after|
    ensures IsExpired(shard, utime, id, rest[id]) ==>
              Scanning(all, seen[id := rest[id]], rest - {id}, shard, utime, entries - {id}, minimum,
                       before, Send(after, rest[id].tx, Expired))
    ensures !IsExpired(shard, utime, id, rest[id]) ==>
              Scanning(all, seen[id := rest[id]], rest - {id}, shard, utime, entries,
                       if rest[id].expireAt < minimum then rest[id].expireAt else minimum, before, after)
  {
    assert id in all && all[id] == rest[id];
    WithoutMore(seen, rest, id, shard, utime, minimum);
    UnionMore(seen, rest, id);
    ExpiredMore(seen, id, rest[id], shard, utime, before);
  }

  lemma ScanDone(all: Entries, seen: Entries, shard: ShardIdent, utime: Time,
                 entries: Entries, minimum: nat, before: Channels, after: Channels)
    requires Scanning(all, seen, map[], shard, utime, entries, minimum, before, after)
    ensures entries == Without(all, shard, utime) && IsMinimum(entries, minimum)
    ensures after == Notified(before, ExpiredChannels(all, shard, utime)) && OwnChannels(entries, after)
  {
    assert seen == seen + map[];
    assert entries == Without(seen, shard, utime);
    OwnAfterScan(seen, shard, utime, before);
  }

  lemma UnionMore(seen: Entries, rest: Entries, id: MessageId)
    requires id in rest && seen.Keys !! rest.Keys
    ensures seen[id := rest[id]] + (rest - {id}) == seen + rest
    ensures seen + (rest - {id}) == seen + rest - {id}
  {
  }

  /** One more entry visited by a scan: what is left of the map, and its minimum. */
  lemma WithoutMore(seen: Entries, rest: Entries, id: MessageId, shard: ShardIdent, utime: Time, minimum: nat)
    requires id in rest && seen.Keys !! rest.Keys
    requires IsMinimum(Without(seen, shard, utime), minimum)
    ensures Without(seen, shard, utime).Keys !! rest.Keys
    ensures IsExpired(shard, utime, id, rest[id]) ==>
              && Without(seen[id := rest[id]], shard, utime) == Without(seen, shard, utime)
              && Without(seen, shard, utime) + (rest - {id}) == Without(seen, shard, utime) + rest - {id}
    ensures !IsExpired(shard, utime, id, rest[id]) ==>
              && Without(seen[id := rest[id]], shard, utime) + (rest - {id}) == Without(seen, shard, utime) + rest
              && IsMinimum(Without(seen[id := rest[id]], shard, utime),
                           if rest[id].expireAt < minimum then rest[id].expireAt else minimum)
  {
    assert Without(seen, shard, utime).Keys !! rest.Keys;
    UnionMore(Without(seen, shard, utime), rest, id);
    WithoutAdded(seen, id, rest[id], shard, utime);
    MinimumAdded(Without(seen, shard, utime), id, rest[id], minimum);
  }

  lemma WithoutAdded(seen: Entries, id: MessageId, item: PendingMessage, shard: ShardIdent, utime: Time)
    requires id !in seen
    ensures Without(seen[id := item], shard, utime) ==
            if IsExpired(shard, utime, id, item) then Without(seen, shard, utime) else Without(seen, shard, utime)[id := item]
  {
  }

  /** One more entry visited by a scan: the channels notified. */
  lemma ExpiredMore(seen: Entries, id: MessageId, item: PendingMessage, shard: ShardIdent, utime: Time, channels: Channels)
    requires id !in seen && item.tx < |channels|
    ensures Notified(channels, ExpiredChannels(seen[id := item], shard, utime)) ==
            if IsExpired(shard, utime, id, item)
            then Send(Notified(channels, ExpiredChannels(seen, shard, utime)), item.tx, Expired)
            else Notified(channels, ExpiredChannels(seen, shard, utime))
  {
    var more := seen[id := item];
    assert forall i :: i in seen ==> i in more && more[i] == seen[i];
    assert more[id] == item;
    assert ExpiredChannels(more, shard, utime) ==
           ExpiredChannels(seen, shard, utime) + if IsExpired(shard, utime, id, item) then {item.tx} else {};
  }

  lemma OwnAfterScan(entries: Entries, shard: ShardIdent, utime: Time, channels: Channels)
    requires OwnChannels(entries, channels)
    ensures OwnChannels(Without(entries, shard, utime), Notified(channels, ExpiredChannels(entries, shard, utime)))
  {
    forall id | id in Without(entries, shard, utime)
      ensures entries[id].tx !in ExpiredChannels(entries, shard, utime)
    {
      assert channels[entries[id].tx].request == id;
    }
  }

  method Minimum(entries: Entries) returns (minimum: Time)
    ensures IsMinimum(entries, minimum)
  {
    minimum := U32_MAX;
    var rest := entries.Keys;
    ghost var seen: Entries := map[];
    while rest != {}
      invariant rest <= entries.Keys
      invariant seen == map id | id in entries && id !in rest :: entries[id]
      invariant IsMinimum(seen, minimum)
      decreases rest
    {
      var id :| id in rest;
      var item := entries[id];
      MinimumAdded(seen, id, item, minimum);
      seen := seen[id := item];
      if item.expireAt < minimum {
        minimum := item.expireAt;
      }
      rest := rest - {id};
    }
    assert seen == entries;
  }

  lemma MinimumAdded(entries: Entries, id: MessageId, message: PendingMessage, minimum: nat)
    requires IsMinimum(entries, minimum) && id !in entries
    ensures IsMinimum(entries[id := message], if message.expireAt < minimum then message.expireAt else minimum)
  {
    var more := entries[id := message];
    if message.expireAt < minimum {
      assert more[id].expireAt == message.expireAt;
    } else if minimum < U32_MAX {
      var other :| other in entries && entries[other].expireAt == minimum;
      assert more[other].expireAt == minimum;
    }
  }

  /** Removing an entry that is not at the minimum keeps the minimum. */
  lemma MinimumKept(entries: Entries, id: MessageId, minimum: nat)
    requires IsMinimum(entries, minimum) && id in entries && entries[id].expireAt != minimum
    ensures IsMinimum(entries - {id}, minimum)
  {
    if minimum < U32_MAX {
      var other :| other in entries && entries[other].expireAt == minimum;
      assert (entries - {id})[other].expireAt == minimum;
    }
  }
}
