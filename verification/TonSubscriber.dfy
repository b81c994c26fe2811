/** The handling of a shard block: its external messages settle the queue, then its time expires the rest. */
module TonSubscriber {
  import opened Words
  import opened Wrappers
  import opened Oneshot
  import opened Shards
  import opened MessagesQueue
  import opened QueueInterleavings
  import opened Transactions
  import Delivery

  /** An account's listeners for its state, and whether each transaction observer is still alive. */
  datatype Subscription = Subscription(stateReceivers: nat, observers: seq<bool>)

  type Subscriptions = map<Account, Subscription>
  type AccountBlocks = map<Account, seq<Transaction>>

  ghost function ExecutedIds(account: Account, transactions: seq<Transaction>): set<MessageId> {
    set j | 0 <= j < |transactions| && Executed(transactions[j]) :: MessageId(account, transactions[j].inMsg.value.hash)
  }

  /** The accounts whose transactions of a block are looked at. */
  ghost predicate IsObserved(subscriptions: Subscriptions, shard: ShardIdent, account: Account) {
    account in subscriptions && true in subscriptions[account].observers && InShard(shard, account)
  }

  /** The messages that a block is seen to execute. */
  ghost function SeenIds(subscriptions: Subscriptions, shard: ShardIdent, blocks: AccountBlocks): set<MessageId> {
    set account, id | account in blocks && IsObserved(subscriptions, shard, account) &&
                      id in ExecutedIds(account, blocks[account]) :: id
  }

  /**
   * A message is seen exactly if the shard's account is observed by someone alive, and an ordinary transaction of it
   * had the message as external input and was not aborted.
   */
  lemma SeenExactly(subscriptions: Subscriptions, shard: ShardIdent, blocks: AccountBlocks, id: MessageId)
    ensures id in SeenIds(subscriptions, shard, blocks) <==>
              && id.account in subscriptions && InShard(shard, id.account)
              && (exists i :: 0 <= i < |subscriptions[id.account].observers| && subscriptions[id.account].observers[i])
              && id.account in blocks && Transaction(true, false, Some(InMessage(true, id.messageHash))) in blocks[id.account]
  {
    if id.account in blocks {
      var transactions := blocks[id.account];
      if j :| 0 <= j < |transactions| && transactions[j] == Transaction(true, false, Some(InMessage(true, id.messageHash))) {
        assert id in ExecutedIds(id.account, transactions);
      }
    }
  }

  /** A queue after a set of messages has been delivered, in any order. */
  ghost function Settled(queue: Queue, ids: set<MessageId>): Queue {
    Queue(queue.entries - ids,
          seq(|queue.channels|, c requires 0 <= c < |queue.channels| =>
            if queue.channels[c].request in ids && queue.channels[c].request in queue.entries &&
               queue.entries[queue.channels[c].request].tx == c
            then queue.channels[c].(answer := Some(Delivered)) else queue.channels[c]))
  }

  lemma SettledNone(queue: Queue)
    ensures Settled(queue, {}) == queue
  {
    assert Settled(queue, {}).channels == queue.channels;
    assert queue.entries - {} == queue.entries;
  }

  lemma SettledMore(queue: Queue, ids: set<MessageId>, id: MessageId)
    requires OwnChannels(queue.entries, queue.channels)
    ensures Apply(Settled(queue, ids), Deliver(id)) == Settled(queue, ids + {id})
  {
    var some, more := Settled(queue, ids), Settled(queue, ids + {id});
    assert Apply(some, Deliver(id)).entries == more.entries;
    assert Apply(some, Deliver(id)).channels == more.channels;
  }

  function Deliveries(ids: seq<MessageId>): seq<Operation> {
    if ids == [] then [] else [Deliver(ids[0])] + Deliveries(ids[1..])
  }

  /** Deliveries one by one settle the queue, whatever their order and repetitions. */
  lemma {:induction false} DeliveriesSettle(queue: Queue, ids: seq<MessageId>)
    requires OwnChannels(queue.entries, queue.channels)
    ensures ApplyAll(queue, Deliveries(ids)) == Settled(queue, set id | id in ids)
    decreases ids
  {
    SettledNone(queue);
    if ids == [] {
      assert (set id | id in ids) == {};
    } else {
      var rest := set id | id in ids[1..];
      ApplyOwns(queue, Deliver(ids[0]));
      DeliveriesSettle(Apply(queue, Deliver(ids[0])), ids[1..]);
      SettledMore(queue, {}, ids[0]);
      SettledTwice(queue, {ids[0]}, rest);
      assert {} + {ids[0]} == {ids[0]};
      assert (set id | id in ids) == {ids[0]} + rest;
      assert Deliveries(ids)[1..] == Deliveries(ids[1..]);
    }
  }

  function Pruned(observers: seq<bool>): (r: seq<bool>)
    ensures r == [] <==> true !in observers
    ensures false !in r
  {
    if observers == [] then [] else (if observers[0] then [true] else []) + Pruned(observers[1..])
  }

  /** A subscription stays while somebody listens to the account's state or observes its transactions. */
  predicate IsKept(subscription: Subscription) {
    subscription.stateReceivers > 0 || true in subscription.observers
  }

  function Kept(subscriptions: Subscriptions): Subscriptions {
    map account | account in subscriptions && IsKept(subscriptions[account]) ::
      subscriptions[account].(observers := Pruned(subscriptions[account].observers))
  }

  /** Exactly the observers that are alive stay, and the subscriptions with one, or with a listener for the state. */
  lemma KeptExactly(subscriptions: Subscriptions, account: Account)
    ensures account in Kept(subscriptions) <==>
              account in subscriptions &&
              (subscriptions[account].stateReceivers > 0 ||
               exists i :: 0 <= i < |subscriptions[account].observers| && subscriptions[account].observers[i])
    ensures account in Kept(subscriptions) ==>
              var kept, before := Kept(subscriptions)[account], subscriptions[account];
              && kept.stateReceivers == before.stateReceivers
              && false !in kept.observers && multiset(kept.observers)[true] == multiset(before.observers)[true]
  {
    if account in subscriptions {
      PrunedKeepsAlive(subscriptions[account].observers);
    }
  }

  lemma {:induction false} PrunedKeepsAlive(observers: seq<bool>)
    ensures multiset(Pruned(observers))[true] == multiset(observers)[true]
  {
    if observers != [] {
      PrunedKeepsAlive(observers[1..]);
      assert observers == [observers[0]] + observers[1..];
    }
  }

  /** Delivers the messages that an account's transactions executed. */
  method HandleBlock(queue: PendingMessagesQueue, account: Account, transactions: seq<Transaction>)
    requires queue.Valid()
    modifies queue
    ensures queue.Valid()
    ensures queue.View() == Settled(old(queue.View()), ExecutedIds(account, transactions))
  {
    ghost var before := queue.View();
    SettledNone(before);
    for i := 0 to |transactions|
      invariant queue.Valid()
      invariant queue.View() == Settled(before, ExecutedIds(account, transactions[..i]))
    {
      var tx := transactions[i];
      ExecutedMore(account, transactions, i);
      if !tx.ordinary || tx.aborted {
        continue;
      }
      if tx.inMsg == None {
        continue;
      }
      if tx.inMsg.value.external {
        SettledMore(before, ExecutedIds(account, transactions[..i]), MessageId(account, tx.inMsg.value.hash));
        queue.DeliverMessage(account, tx.inMsg.value.hash);
      }
    }
    assert transactions[..|transactions|] == transactions;
  }

  lemma ExecutedMore(account: Account, transactions: seq<Transaction>, i: nat)
    requires i < |transactions|
    ensures !Executed(transactions[i]) ==> ExecutedIds(account, transactions[..i + 1]) == ExecutedIds(account, transactions[..i])
    ensures Executed(transactions[i]) ==>
              ExecutedIds(account, transactions[..i + 1]) ==
              ExecutedIds(account, transactions[..i]) + {MessageId(account, transactions[i].inMsg.value.hash)}
  {
    var less, more := transactions[..i], transactions[..i + 1];
    assert forall j :: 0 <= j < i ==> more[j] == less[j];
    assert more[i] == transactions[i];
  }

  /** The set of messages seen grows by an account's when the account is visited. */
  lemma SeenMore(seen: Subscriptions, account: Account, subscription: Subscription, shard: ShardIdent, blocks: AccountBlocks)
    requires account !in seen
    ensures account in blocks && true in subscription.observers && InShard(shard, account) ==>
              SeenIds(seen[account := subscription], shard, blocks) ==
              SeenIds(seen, shard, blocks) + ExecutedIds(account, blocks[account])
    ensures !(account in blocks && true in subscription.observers && InShard(shard, account)) ==>
              SeenIds(seen[account := subscription], shard, blocks) == SeenIds(seen, shard, blocks)
  {
    var more := seen[account := subscription];
    assert forall a :: a in seen ==> (IsObserved(more, shard, a) <==> IsObserved(seen, shard, a));
  }

  lemma SettledTwice(queue: Queue, a: set<MessageId>, b: set<MessageId>)
    requires OwnChannels(queue.entries, queue.channels)
    ensures Settled(Settled(queue, a), b) == Settled(queue, a + b)
  {
    assert Settled(Settled(queue, a), b).entries == Settled(queue, a + b).entries;
    assert Settled(Settled(queue, a), b).channels == Settled(queue, a + b).channels;
  }

  /** A block delivers every message it is seen to execute before it expires anything. */
  method HandleShardBlock(queue: PendingMessagesQueue, subscriptions: Subscriptions,
                          shard: ShardIdent, utime: Time, blocks: AccountBlocks)
    returns (kept: Subscriptions)
    requires queue.Valid()
    modifies queue
    ensures queue.Valid()
    ensures kept == Kept(subscriptions)
    ensures queue.View() == Apply(Settled(old(queue.View()), SeenIds(subscriptions, shard, blocks)), Update(shard, utime))
  {
    kept := VisitSubscriptions(queue, subscriptions, shard, blocks);
    queue.Update(shard, utime);
  }

  /** The part of the handling under the lock of the subscriptions. */
  method VisitSubscriptions(queue: PendingMessagesQueue, subscriptions: Subscriptions,
                            shard: ShardIdent, blocks: AccountBlocks)
    returns (kept: Subscriptions)
    requires queue.Valid()
    modifies queue
    ensures queue.Valid()
    ensures kept == Kept(subscriptions)
    ensures queue.View() == Settled(old(queue.View()), SeenIds(subscriptions, shard, blocks))
  {
    kept := map[];
    var rest := subscriptions.Keys;
    ghost var before := queue.View();
    SettledNone(before);
    VisitedAll(subscriptions);
    while rest != {}
      invariant rest <= subscriptions.Keys
      invariant kept == Kept(subscriptions - rest)
      invariant queue.Valid() && queue.View() == Settled(before, SeenIds(subscriptions - rest, shard, blocks))
      decreases rest
    {
      var account :| account in rest;
      VisitedMore(subscriptions, rest, account);
      kept := VisitOne(queue, before, subscriptions - rest, kept, account, subscriptions[account], shard, blocks);
      rest := rest - {account};
    }
    VisitedAll(subscriptions);
  }

  lemma VisitedAll(subscriptions: Subscriptions)
    ensures subscriptions - {} == subscriptions && subscriptions - subscriptions.Keys == map[]
  {
  }

  lemma VisitedMore(subscriptions: Subscriptions, rest: set<Account>, account: Account)
    requires account in rest && account in subscriptions
    ensures (subscriptions - rest)[account := subscriptions[account]] == subscriptions - (rest - {account})
  {
  }

  method VisitOne(queue: PendingMessagesQueue, ghost before: Queue, ghost seen: Subscriptions, kept: Subscriptions,
                  account: Account, subscription: Subscription, shard: ShardIdent, blocks: AccountBlocks)
    returns (r: Subscriptions)
    requires queue.Valid() && account !in seen && OwnChannels(before.entries, before.channels)
    requires kept == Kept(seen) && queue.View() == Settled(before, SeenIds(seen, shard, blocks))
    modifies queue
    ensures queue.Valid() && r == Kept(seen[account := subscription])
    ensures queue.View() == Settled(before, SeenIds(seen[account := subscription], shard, blocks))
  {
    VisitAccount(queue, before, seen, account, subscription, shard, blocks);
    r := Retain(kept, seen, account, subscription);
  }

  method Retain(kept: Subscriptions, ghost seen: Subscriptions, account: Account, subscription: Subscription)
    returns (r: Subscriptions)
    requires account !in seen && kept == Kept(seen)
    ensures r == Kept(seen[account := subscription])
  {
    var observers := Pruned(subscription.observers);
    r := kept;
    if subscription.stateReceivers > 0 || observers != [] {
      r := r[account := subscription.(observers := observers)];
    }
    assert r == Kept(seen[account := subscription]);
  }

  method VisitAccount(queue: PendingMessagesQueue, ghost before: Queue, ghost seen: Subscriptions, account: Account,
                      subscription: Subscription, shard: ShardIdent, blocks: AccountBlocks)
    requires queue.Valid() && account !in seen && OwnChannels(before.entries, before.channels)
    requires queue.View() == Settled(before, SeenIds(seen, shard, blocks))
    modifies queue
    ensures queue.Valid()
    ensures queue.View() == Settled(before, SeenIds(seen[account := subscription], shard, blocks))
  {
    var observers := Pruned(subscription.observers);
    SeenMore(seen, account, subscription, shard, blocks);
    if subscription.stateReceivers == 0 && observers == [] {
      return;
    }
    var contains := ContainsAccount(shard, account);
    if !contains || observers == [] || account !in blocks {
      return;
    }
    SettledTwice(before, SeenIds(seen, shard, blocks), ExecutedIds(account, blocks[account]));
    HandleBlock(queue, account, blocks[account]);
  }

  // ---- the handler among the steps of the delivery protocol ----

  /** The handler's visits of a block's messages, each seen or not. */
  function Visits(k: nat, seen: seq<bool>): seq<Delivery.Event> {
    if seen == [] then [] else [Delivery.Visit(k, seen[0])] + Visits(k, seen[1..])
  }

  /** The messages among them that were seen, from a position on. */
  function Seen(accepted: seq<MessageId>, from: nat, seen: seq<bool>): set<MessageId> {
    set j | 0 <= j < |seen| && seen[j] && from + j < |accepted| :: accepted[from + j]
  }

  lemma SeenFirst(accepted: seq<MessageId>, from: nat, seen: seq<bool>)
    requires seen != [] && from < |accepted|
    ensures Seen(accepted, from, seen) == (if seen[0] then {accepted[from]} else {}) + Seen(accepted, from + 1, seen[1..])
  {
    var rest := seen[1..];
    forall j | 0 <= j < |rest|
      ensures rest[j] == seen[j + 1]
    {
    }
    forall id | id in Seen(accepted, from, seen)
      ensures id in (if seen[0] then {accepted[from]} else {}) + Seen(accepted, from + 1, rest)
    {
      var j :| 0 <= j < |seen| && seen[j] && from + j < |accepted| && accepted[from + j] == id;
      if j > 0 {
        assert rest[j - 1] && accepted[from + 1 + (j - 1)] == id;
      }
    }
    forall id | id in Seen(accepted, from + 1, rest)
      ensures id in Seen(accepted, from, seen)
    {
      var j :| 0 <= j < |rest| && rest[j] && from + 1 + j < |accepted| && accepted[from + 1 + j] == id;
      assert seen[j + 1] && accepted[from + (j + 1)] == id;
    }
  }

  lemma {:induction false} VisitsSettle(s: Delivery.State, k: nat, from: nat, seen: seq<bool>)
    requires OwnChannels(s.queue.entries, s.queue.channels) && Delivery.Possible(s, Visits(k, seen))
    requires k < |s.blocks| && k < |s.handling| && s.handling[k] == Delivery.Delivering(from)
    ensures Delivery.Run(s, Visits(k, seen)) == s.(
              queue := Settled(s.queue, Seen(s.blocks[k].Messages(), from, seen)),
              handling := s.handling[k := Delivery.Delivering(from + |seen|)])
    decreases seen
  {
    var accepted := s.blocks[k].Messages();
    SettledNone(s.queue);
    if seen == [] {
      assert Seen(accepted, from, seen) == {};
      assert s.handling[k := s.handling[k]] == s.handling;
    } else {
      assert Visits(k, seen)[1..] == Visits(k, seen[1..]);
      var id, next := accepted[from], Delivery.Next(s, Delivery.Visit(k, seen[0]));
      ApplyOwns(s.queue, Deliver(id));
      VisitsSettle(next, k, from + 1, seen[1..]);
      SeenFirst(accepted, from, seen);
      SettledMore(s.queue, {}, id);
      assert {} + {id} == {id} && {} + Seen(accepted, from + 1, seen[1..]) == Seen(accepted, from + 1, seen[1..]);
      SettledTwice(s.queue, {id}, Seen(accepted, from + 1, seen[1..]));
      assert s.handling[k := Delivery.Delivering(from + 1)][k := Delivery.Delivering(from + |seen|)] ==
             s.handling[k := Delivery.Delivering(from + |seen|)];
    }
  }

  /** The transactions are those of the accounts, in whatever order. */
  ghost predicate AreOf(transactions: seq<AccountTransaction>, blocks: AccountBlocks) {
    forall account, tx ::
      AccountTransaction(account, tx) in transactions <==> account in blocks && tx in blocks[account]
  }

  /** Seeing the messages of observed accounts is seeing what the handling of the block sees. */
  lemma SeenIsSeen(transactions: seq<AccountTransaction>, seen: seq<bool>, subscriptions: Subscriptions,
                   shard: ShardIdent, blocks: AccountBlocks)
    requires AreOf(transactions, blocks) && |seen| == |ExecutedMessages(transactions)|
    requires forall j :: 0 <= j < |seen| ==>
               (seen[j] <==> IsObserved(subscriptions, shard, ExecutedMessages(transactions)[j].account))
    ensures Seen(ExecutedMessages(transactions), 0, seen) == SeenIds(subscriptions, shard, blocks)
  {
    var accepted := ExecutedMessages(transactions);
    forall id
      ensures id in Seen(accepted, 0, seen) <==> id in SeenIds(subscriptions, shard, blocks)
    {
      SeenExactly(subscriptions, shard, blocks, id);
      ExecutedExactly(transactions, id);
      assert id in Seen(accepted, 0, seen) <==> id in accepted && IsObserved(subscriptions, shard, id.account) by {
        if id in accepted && IsObserved(subscriptions, shard, id.account) {
          var j :| 0 <= j < |accepted| && accepted[j] == id;
          assert seen[j] && accepted[0 + j] == id;
        }
      }
      var tx := Transaction(true, false, Some(InMessage(true, id.messageHash)));
      assert AccountTransaction(id.account, tx) in transactions <==> id.account in blocks && tx in blocks[id.account];
    }
  }

  /** The protocol's steps for one block leave the queue that the handling of the block leaves. */
  lemma StepsAreHandling(s: Delivery.State, k: nat, seen: seq<bool>, subscriptions: Subscriptions, blocks: AccountBlocks)
    requires OwnChannels(s.queue.entries, s.queue.channels)
    requires k < |s.blocks| && k < |s.handling| && s.handling[k] == Delivery.Delivering(0)
    requires AreOf(s.blocks[k].transactions, blocks)
    requires Delivery.Possible(s, Visits(k, seen)) && |seen| == |s.blocks[k].Messages()|
    requires forall j :: 0 <= j < |seen| ==>
               (seen[j] <==> IsObserved(subscriptions, s.blocks[k].shard, s.blocks[k].Messages()[j].account))
    ensures var visited := Delivery.Run(s, Visits(k, seen));
            && Delivery.Enabled(visited, Delivery.Expire(k))
            && Delivery.Next(visited, Delivery.Expire(k)).queue ==
               Apply(Settled(s.queue, SeenIds(subscriptions, s.blocks[k].shard, blocks)),
                     Update(s.blocks[k].shard, s.blocks[k].utime))
  {
    SeenIsSeen(s.blocks[k].transactions, seen, subscriptions, s.blocks[k].shard, blocks);
    VisitsSettle(s, k, 0, seen);
  }
}
