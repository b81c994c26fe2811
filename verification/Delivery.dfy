/**
 * Delivery of external messages: tasks that sign, queue, broadcast and retry, and the handling of
 * shard blocks that answers them. Blocks of the chain and the interleaving of everything are arbitrary.
 */
module Delivery {
  import opened Words
  import opened Wrappers
  import opened Oneshot
  import opened Shards
  import opened MessagesQueue
  import opened Transactions

  /** A shard block; it accepts the external messages that its transactions executed. */
  datatype Block = Block(shard: ShardIdent, utime: Time, transactions: seq<AccountTransaction>) {
    function Messages(): seq<MessageId> {
      ExecutedMessages(transactions)
    }
  }

  datatype Handling = Ahead | Delivering(next: nat) | Handled

  datatype Attempt = Attempt(id: MessageId, expireAt: Time, tx: nat)

  datatype Phase = Idle | Queued | Waiting | Stopped(delivered: bool)

  /** One call of the delivery loop. It holds the account's observer until it stops. */
  datatype Task = Task(account: Account, attempts: seq<Attempt>, phase: Phase)

  datatype Signature = Signature(task: nat, expireAt: Time)

  datatype State = State(
    blocks: seq<Block>,
    handling: seq<Handling>,
    queue: Queue,
    tasks: seq<Task>,
    signed: map<MessageId, Signature>,
    broadcast: set<MessageId>)

  const INITIAL := State([], [], EMPTY, [], map[], {})

  datatype Event =
    | Spawn(account: Account)
    | Send(task: nat, hash: seq<Byte>, expireAt: Time)
    | Broadcast(task: nat)
    | Resume(task: nat)
    | Cancel(task: nat)
    | Produce(block: Block)
    | Start(index: nat)
    | Visit(index: nat, subscribed: bool)
    | Expire(index: nat)

  predicate AcceptedAt(blocks: seq<Block>, k: nat, j: nat, id: MessageId) {
    k < |blocks| && j < |blocks[k].Messages()| && blocks[k].Messages()[j] == id
  }

  ghost predicate Accepted(blocks: seq<Block>, id: MessageId) {
    exists k: nat, j: nat :: AcceptedAt(blocks, k, j, id)
  }

  /** One of the shards is a part of the other. */
  predicate Overlap(a: ShardIdent, b: ShardIdent) {
    a.Path() <= b.Path() || b.Path() <= a.Path()
  }

  lemma CommonAccount(a: ShardIdent, b: ShardIdent, account: Account)
    requires InShard(a, account) && InShard(b, account)
    ensures Overlap(a, b)
  {
    var bits := AccountBits(account);
    assert a.Path() == bits[..|a.Path()|] && b.Path() == bits[..|b.Path()|];
    if |a.Path()| <= |b.Path()| {
      assert a.Path() == b.Path()[..|a.Path()|];
    } else {
      assert b.Path() == a.Path()[..|b.Path()|];
    }
  }

  /** A task that has not stopped keeps the account's transactions subscribed. */
  ghost predicate Observed(s: State, account: Account) {
    exists t :: 0 <= t < |s.tasks| && s.tasks[t].account == account && !s.tasks[t].phase.Stopped?
  }

  predicate HasLast(s: State, t: nat) {
    t < |s.tasks| && s.tasks[t].attempts != []
  }

  function Latest(s: State, t: nat): Attempt
    requires HasLast(s, t)
  {
    s.tasks[t].attempts[|s.tasks[t].attempts| - 1]
  }

  /**
   * What the chain may add: messages of accounts of the shard, none of them accepted before, ours only
   * once broadcast and not after their expiry; and time does not run backwards along a shard and its parts.
   */
  ghost predicate Legal(s: State, block: Block) {
    && (forall j :: 0 <= j < |block.Messages()| ==> LegalMessage(s, block, block.Messages()[j]))
    && (forall i, j :: 0 <= i < j < |block.Messages()| ==> block.Messages()[i] != block.Messages()[j])
    && (forall k :: 0 <= k < |s.blocks| && Overlap(s.blocks[k].shard, block.shard) ==> s.blocks[k].utime <= block.utime)
  }

  ghost predicate LegalMessage(s: State, block: Block, id: MessageId) {
    && InShard(block.shard, id.account)
    && !Accepted(s.blocks, id)
    && (id in s.signed ==> id in s.broadcast && block.utime <= s.signed[id].expireAt)
  }

  ghost predicate Enabled(s: State, e: Event) {
    match e
    case Spawn(_) => true
    case Send(t, hash, _) =>
      // every signature is new, unless the same message is still pending
      && t < |s.tasks| && s.tasks[t].phase == Idle
      && var id := MessageId(s.tasks[t].account, hash);
         id in s.queue.entries || (id !in s.signed && !Accepted(s.blocks, id))
    case Broadcast(t) => HasLast(s, t) && s.tasks[t].phase == Queued
    case Resume(t) =>
      && HasLast(s, t) && s.tasks[t].phase == Waiting
      && Latest(s, t).tx < |s.queue.channels| && s.queue.channels[Latest(s, t).tx].answer != None
    case Cancel(t) => t < |s.tasks| && s.tasks[t].phase == Idle
    case Produce(block) => Legal(s, block)
    case Start(k) =>
      // blocks are handled in order along a shard and its parts
      && k < |s.blocks| && k < |s.handling| && s.handling[k] == Ahead
      && forall i :: 0 <= i < k && Overlap(s.blocks[i].shard, s.blocks[k].shard) ==> s.handling[i] == Handled
    case Visit(k, subscribed) =>
      && k < |s.blocks| && k < |s.handling| && s.handling[k].Delivering? && s.handling[k].next < |s.blocks[k].Messages()|
      && (Observed(s, s.blocks[k].Messages()[s.handling[k].next].account) ==> subscribed)
    case Expire(k) =>
      k < |s.blocks| && k < |s.handling| && s.handling[k] == Delivering(|s.blocks[k].Messages()|)
  }

  ghost function Moved(s: State, t: nat, phase: Phase): State
    requires t < |s.tasks|
  {
    s.(tasks := s.tasks[t := s.tasks[t].(phase := phase)])
  }

  ghost function Next(s: State, e: Event): State
    requires Enabled(s, e)
  {
    match e
    case Spawn(account) => s.(tasks := s.tasks + [Task(account, [], Idle)])
    case Send(t, hash, expireAt) => Sending(s, t, MessageId(s.tasks[t].account, hash), expireAt)
    case Broadcast(t) => Moved(s, t, Waiting).(broadcast := s.broadcast + {Latest(s, t).id})
    case Resume(t) =>
      Moved(s, t, if s.queue.channels[Latest(s, t).tx].answer == Some(Expired) then Idle else Stopped(true))
    case Cancel(t) => Moved(s, t, Stopped(false))
    case Produce(block) => s.(blocks := s.blocks + [block], handling := s.handling + [Ahead])
    case Start(k) => s.(handling := s.handling[k := Delivering(0)])
    case Visit(k, subscribed) =>
      var next := s.handling[k].next;
      s.(handling := s.handling[k := Delivering(next + 1)],
         queue := if subscribed then Apply(s.queue, Deliver(s.blocks[k].Messages()[next])) else s.queue)
    case Expire(k) =>
      s.(handling := s.handling[k := Handled], queue := Apply(s.queue, Update(s.blocks[k].shard, s.blocks[k].utime)))
  }

  /** Queues a freshly signed message, or gives up if the very same one is pending. */
  ghost function Sending(s: State, t: nat, id: MessageId, expireAt: Time): State
    requires t < |s.tasks|
  {
    if id in s.queue.entries then Moved(s, t, Stopped(false)) else
    var attempt := Attempt(id, expireAt, |s.queue.channels|);
    s.(queue := Apply(s.queue, Add(id, expireAt)),
       signed := s.signed[id := Signature(t, expireAt)],
       tasks := s.tasks[t := Task(s.tasks[t].account, s.tasks[t].attempts + [attempt], Queued)])
  }

  // ---- the invariant ----

  /** The message was not accepted, and its shard has gone past its expiry. */
  ghost predicate Dead(blocks: seq<Block>, id: MessageId, expireAt: Time) {
    !Accepted(blocks, id) && exists k :: 0 <= k < |blocks| && PastExpiry(blocks[k], id, expireAt)
  }

  predicate PastExpiry(block: Block, id: MessageId, expireAt: Time) {
    InShard(block.shard, id.account) && expireAt < block.utime
  }

  predicate Visited(handling: Handling, j: nat) {
    match handling
    case Ahead => false
    case Delivering(next) => j < next
    case Handled => true
  }

  ghost predicate ChainInvariant(s: State) {
    && |s.handling| == |s.blocks|
    && (forall k: nat, j: nat, id :: AcceptedAt(s.blocks, k, j, id) ==>
          && InShard(s.blocks[k].shard, id.account)
          && (id in s.signed ==> id in s.broadcast && s.blocks[k].utime <= s.signed[id].expireAt))
    && (forall k: nat, j: nat, k': nat, j': nat, id :: AcceptedAt(s.blocks, k, j, id) && AcceptedAt(s.blocks, k', j', id) ==>
          k == k' && j == j')
    && (forall i, k :: 0 <= i < k < |s.blocks| && Overlap(s.blocks[i].shard, s.blocks[k].shard) ==>
          s.blocks[i].utime <= s.blocks[k].utime && (s.handling[k] != Ahead ==> s.handling[i] == Handled))
  }

  /** The message is the latest attempt of a task that waits for it. */
  ghost predicate Pends(s: State, id: MessageId, message: PendingMessage) {
    && id in s.signed && s.signed[id].expireAt == message.expireAt
    && HasLast(s, s.signed[id].task)
    && s.tasks[s.signed[id].task].phase in {Queued, Waiting}
    && s.tasks[s.signed[id].task].account == id.account
    && Latest(s, s.signed[id].task) == Attempt(id, message.expireAt, message.tx)
  }

  ghost predicate QueueInvariant(s: State) {
    && OwnChannels(s.queue.entries, s.queue.channels)
    && forall id :: id in s.queue.entries ==> Pends(s, id, s.queue.entries[id])
  }

  /** Messages whose acceptance has been handled are no longer pending. */
  ghost predicate VisitInvariant(s: State) {
    |s.handling| == |s.blocks| &&
    forall k: nat, j: nat, id :: AcceptedAt(s.blocks, k, j, id) && Visited(s.handling[k], j) ==> id !in s.queue.entries
  }

  /** What a channel says is true. */
  ghost predicate AnswerInvariant(s: State) {
    forall c :: 0 <= c < |s.queue.channels| ==> var channel := s.queue.channels[c];
      && channel.request in s.signed
      && (channel.answer == Some(Delivered) ==> Accepted(s.blocks, channel.request))
      && (channel.answer == Some(Expired) ==> Dead(s.blocks, channel.request, s.signed[channel.request].expireAt))
  }

  ghost predicate AttemptInvariant(s: State, t: nat, attempt: Attempt) {
    && attempt.id in s.signed && s.signed[attempt.id] == Signature(t, attempt.expireAt)
    && attempt.tx < |s.queue.channels| && s.queue.channels[attempt.tx].request == attempt.id
  }

  ghost predicate TaskInvariant(s: State, t: nat, task: Task) {
    && (forall i :: 0 <= i < |task.attempts| ==> AttemptInvariant(s, t, task.attempts[i]))
    && (forall i :: 0 <= i < |task.attempts| - 1 ==> Dead(s.blocks, task.attempts[i].id, task.attempts[i].expireAt))
    && (task.phase in {Idle, Stopped(false)} ==>
          forall i :: 0 <= i < |task.attempts| ==> Dead(s.blocks, task.attempts[i].id, task.attempts[i].expireAt))
    && (task.phase == Stopped(true) ==>
          task.attempts != [] && Accepted(s.blocks, task.attempts[|task.attempts| - 1].id))
  }

  ghost predicate TasksInvariant(s: State) {
    && s.broadcast <= s.signed.Keys
    && forall t :: 0 <= t < |s.tasks| ==> TaskInvariant(s, t, s.tasks[t])
  }

  ghost predicate Invariant(s: State) {
    ChainInvariant(s) && QueueInvariant(s) && VisitInvariant(s) && AnswerInvariant(s) && TasksInvariant(s)
  }

  // ---- each step keeps it ----

  lemma StepKeeps(s: State, e: Event)
    requires Invariant(s) && Enabled(s, e)
    ensures Invariant(Next(s, e))
  {
    match e
    case Spawn(account) => SpawnKeeps(s, account);
    case Send(t, hash, expireAt) => SendKeeps(s, t, MessageId(s.tasks[t].account, hash), expireAt);
    case Broadcast(t) => BroadcastKeeps(s, t);
    case Resume(t) => ResumeKeeps(s, t);
    case Cancel(t) => CancelKeeps(s, t);
    case Produce(block) => ProduceKeeps(s, block);
    case Start(k) => StartKeeps(s, k);
    case Visit(k, subscribed) => VisitKeeps(s, k, subscribed);
    case Expire(k) => ExpireKeeps(s, k);
  }

  /** What one state says about messages and channels still holds in another. */
  ghost predicate Grows(s: State, s': State) {
    && (forall id :: id in s.signed ==>
          && id in s'.signed && s'.signed[id] == s.signed[id]
          && (Accepted(s.blocks, id) ==> Accepted(s'.blocks, id))
          && (Dead(s.blocks, id, s.signed[id].expireAt) ==> Dead(s'.blocks, id, s.signed[id].expireAt)))
    && |s.queue.channels| <= |s'.queue.channels|
    && forall c :: 0 <= c < |s.queue.channels| ==> s'.queue.channels[c].request == s.queue.channels[c].request
  }

  lemma TaskGrows(s: State, s': State, t: nat, task: Task)
    requires Grows(s, s') && TaskInvariant(s, t, task)
    ensures TaskInvariant(s', t, task)
  {
    forall i | 0 <= i < |task.attempts|
      ensures AttemptInvariant(s', t, task.attempts[i])
    {
      assert AttemptInvariant(s, t, task.attempts[i]);
    }
  }

  lemma TasksGrow(s: State, s': State)
    requires Grows(s, s') && TasksInvariant(s) && s'.broadcast == s.broadcast && s'.tasks == s.tasks
    ensures TasksInvariant(s')
  {
    forall t | 0 <= t < |s'.tasks|
      ensures TaskInvariant(s', t, s'.tasks[t])
    {
      TaskGrows(s, s', t, s.tasks[t]);
    }
  }

  lemma SpawnKeeps(s: State, account: Account)
    requires Invariant(s)
    ensures Invariant(Next(s, Spawn(account)))
  {
    var s' := Next(s, Spawn(account));
    forall t | 0 <= t < |s.tasks|
      ensures TaskInvariant(s', t, s'.tasks[t])
    {
      TaskGrows(s, s', t, s.tasks[t]);
    }
    assert TaskInvariant(s', |s.tasks|, s'.tasks[|s.tasks|]);
    forall id | id in s.queue.entries
      ensures Pends(s', id, s.queue.entries[id])
    {
      assert Pends(s, id, s.queue.entries[id]);
    }
  }

  /** A task that is not waiting for a pending message, or goes on waiting, may change its phase. */
  lemma PhaseKeeps(s: State, t: nat, phase: Phase)
    requires Invariant(s) && t < |s.tasks|
    requires s.tasks[t].phase in {Queued, Waiting} && phase !in {Queued, Waiting} ==>
               HasLast(s, t) && Latest(s, t).id !in s.queue.entries
    requires TaskInvariant(s, t, s.tasks[t].(phase := phase))
    ensures Invariant(Moved(s, t, phase))
  {
    var s' := Moved(s, t, phase);
    assert forall u :: 0 <= u < |s.tasks| && u != t ==> s'.tasks[u] == s.tasks[u];
    PhaseKeepsQueue(s, t, phase);
    forall u | 0 <= u < |s'.tasks|
      ensures TaskInvariant(s', u, s'.tasks[u])
    {
      TaskGrows(s, s', u, s'.tasks[u]);
    }
  }

  lemma PhaseKeepsQueue(s: State, t: nat, phase: Phase)
    requires QueueInvariant(s) && t < |s.tasks|
    requires s.tasks[t].phase in {Queued, Waiting} && phase !in {Queued, Waiting} ==>
               HasLast(s, t) && Latest(s, t).id !in s.queue.entries
    ensures QueueInvariant(Moved(s, t, phase))
  {
    forall id | id in s.queue.entries
      ensures Pends(Moved(s, t, phase), id, s.queue.entries[id])
    {
      assert Pends(s, id, s.queue.entries[id]);
    }
  }

  lemma BroadcastKeeps(s: State, t: nat)
    requires Invariant(s) && Enabled(s, Broadcast(t))
    ensures Invariant(Next(s, Broadcast(t)))
  {
    assert TaskInvariant(s, t, s.tasks[t]) && AttemptInvariant(s, t, Latest(s, t));
    PhaseKeeps(s, t, Waiting);
    var moved, s' := Moved(s, t, Waiting), Next(s, Broadcast(t));
    forall u | 0 <= u < |s'.tasks|
      ensures TaskInvariant(s', u, s'.tasks[u])
    {
      TaskGrows(moved, s', u, s'.tasks[u]);
    }
  }

  lemma ResumeKeeps(s: State, t: nat)
    requires Invariant(s) && Enabled(s, Resume(t))
    ensures Invariant(Next(s, Resume(t)))
  {
    var attempt := Latest(s, t);
    assert TaskInvariant(s, t, s.tasks[t]) && AttemptInvariant(s, t, attempt);
    var channel := s.queue.channels[attempt.tx];
    match channel.answer.value
    case Expired => PhaseKeeps(s, t, Idle);
    case Delivered => PhaseKeeps(s, t, Stopped(true));
  }

  lemma CancelKeeps(s: State, t: nat)
    requires Invariant(s) && Enabled(s, Cancel(t))
    ensures Invariant(Next(s, Cancel(t)))
  {
    assert TaskInvariant(s, t, s.tasks[t]);
    PhaseKeeps(s, t, Stopped(false));
  }

  lemma SendKeeps(s: State, t: nat, id: MessageId, expireAt: Time)
    requires Invariant(s) && t < |s.tasks| && s.tasks[t].phase == Idle && id.account == s.tasks[t].account
    requires id in s.queue.entries || (id !in s.signed && !Accepted(s.blocks, id))
    ensures Invariant(Sending(s, t, id, expireAt))
  {
    if id in s.queue.entries {
      assert TaskInvariant(s, t, s.tasks[t]);
      PhaseKeeps(s, t, Stopped(false));
      return;
    }
    SendKeepsVisits(s, t, id, expireAt);
    SendKeepsQueue(s, t, id, expireAt);
    SendKeepsTasks(s, t, id, expireAt);
  }

  lemma SendKeepsVisits(s: State, t: nat, id: MessageId, expireAt: Time)
    requires ChainInvariant(s) && VisitInvariant(s) && AnswerInvariant(s) && t < |s.tasks|
    requires id !in s.queue.entries && id !in s.signed && !Accepted(s.blocks, id)
    ensures ChainInvariant(Sending(s, t, id, expireAt)) && VisitInvariant(Sending(s, t, id, expireAt))
    ensures AnswerInvariant(Sending(s, t, id, expireAt))
  {
    assert forall k: nat, j: nat :: !AcceptedAt(s.blocks, k, j, id);
  }

  lemma SendKeepsTasks(s: State, t: nat, id: MessageId, expireAt: Time)
    requires Invariant(s) && t < |s.tasks| && s.tasks[t].phase == Idle
    requires id !in s.queue.entries && id !in s.signed
    ensures TasksInvariant(Sending(s, t, id, expireAt))
  {
    var s' := Sending(s, t, id, expireAt);
    var attempt := Attempt(id, expireAt, |s.queue.channels|);
    assert AttemptInvariant(s', t, attempt);
    forall u | 0 <= u < |s'.tasks|
      ensures TaskInvariant(s', u, s'.tasks[u])
    {
      TaskGrows(s, s', u, s.tasks[u]);
      assert u == t ==> s'.tasks[u].attempts == s.tasks[u].attempts + [attempt];
    }
  }

  lemma SendKeepsQueue(s: State, t: nat, id: MessageId, expireAt: Time)
    requires Invariant(s) && t < |s.tasks| && s.tasks[t].phase == Idle && id.account == s.tasks[t].account
    requires id !in s.queue.entries && id !in s.signed
    ensures QueueInvariant(Sending(s, t, id, expireAt))
  {
    var s' := Sending(s, t, id, expireAt);
    ApplyOwns(s.queue, Add(id, expireAt));
    forall other | other in s'.queue.entries
      ensures Pends(s', other, s'.queue.entries[other])
    {
      if other != id {
        assert Pends(s, other, s.queue.entries[other]);
      }
    }
  }

  lemma StartKeeps(s: State, k: nat)
    requires Invariant(s) && Enabled(s, Start(k))
    ensures Invariant(Next(s, Start(k)))
  {
    TasksGrow(s, Next(s, Start(k)));
  }

  // ---- a block of the chain ----

  lemma ProduceKeeps(s: State, block: Block)
    requires Invariant(s) && Legal(s, block)
    ensures Invariant(Next(s, Produce(block)))
  {
    var s' := Next(s, Produce(block));
    ProduceKeepsChain(s, block);
    forall id | id in s.signed
      ensures Accepted(s.blocks, id) ==> Accepted(s'.blocks, id)
      ensures Dead(s.blocks, id, s.signed[id].expireAt) ==> Dead(s'.blocks, id, s.signed[id].expireAt)
    {
      AcceptedStays(s.blocks, block, id);
      if Dead(s.blocks, id, s.signed[id].expireAt) {
        DeadStays(s, block, id);
      }
    }
    TasksGrow(s, s');
    forall k: nat, j: nat, id | AcceptedAt(s'.blocks, k, j, id) && Visited(s'.handling[k], j)
      ensures id !in s.queue.entries
    {
      assert AcceptedAt(s.blocks, k, j, id);
    }
  }

  lemma AcceptedStays(blocks: seq<Block>, block: Block, id: MessageId)
    ensures Accepted(blocks, id) ==> Accepted(blocks + [block], id)
    ensures Accepted(blocks + [block], id) ==> Accepted(blocks, id) || id in block.Messages()
  {
    if Accepted(blocks, id) {
      var k: nat, j: nat :| AcceptedAt(blocks, k, j, id);
      assert AcceptedAt(blocks + [block], k, j, id);
    }
    if Accepted(blocks + [block], id) {
      var k: nat, j: nat :| AcceptedAt(blocks + [block], k, j, id);
      if k < |blocks| {
        assert AcceptedAt(blocks, k, j, id);
      }
    }
  }

  /** No later block accepts a message that its shard has outlived. */
  lemma DeadStays(s: State, block: Block, id: MessageId)
    requires Legal(s, block) && id in s.signed && Dead(s.blocks, id, s.signed[id].expireAt)
    ensures Dead(s.blocks + [block], id, s.signed[id].expireAt)
  {
    var k :| 0 <= k < |s.blocks| && PastExpiry(s.blocks[k], id, s.signed[id].expireAt);
    assert PastExpiry((s.blocks + [block])[k], id, s.signed[id].expireAt);
    AcceptedStays(s.blocks, block, id);
    if id in block.Messages() {
      var j :| 0 <= j < |block.Messages()| && block.Messages()[j] == id;
      assert LegalMessage(s, block, block.Messages()[j]);
      CommonAccount(s.blocks[k].shard, block.shard, id.account);
    }
  }

  lemma ProduceKeepsChain(s: State, block: Block)
    requires Invariant(s) && Legal(s, block)
    ensures ChainInvariant(Next(s, Produce(block)))
  {
    var s' := Next(s, Produce(block));
    forall k: nat, j: nat, id | AcceptedAt(s'.blocks, k, j, id)
      ensures if k < |s.blocks| then AcceptedAt(s.blocks, k, j, id) else k == |s.blocks| && LegalMessage(s, block, id)
    {
    }
  }

  // ---- the handling of a block ----

  /** A step of a handler that only takes entries out of the queue and answers truthfully. */
  lemma HandlerKeeps(s: State, s': State)
    requires Invariant(s)
    requires s' == s.(handling := s'.handling, queue := s'.queue)
    requires OwnChannels(s'.queue.entries, s'.queue.channels) && AnswerInvariant(s')
    requires forall id :: id in s'.queue.entries ==> id in s.queue.entries && s'.queue.entries[id] == s.queue.entries[id]
    requires |s'.queue.channels| == |s.queue.channels|
    requires forall c :: 0 <= c < |s.queue.channels| ==> s'.queue.channels[c].request == s.queue.channels[c].request
    ensures QueueInvariant(s') && TasksInvariant(s')
  {
    TasksGrow(s, s');
    forall id | id in s'.queue.entries
      ensures Pends(s', id, s'.queue.entries[id])
    {
      assert Pends(s, id, s.queue.entries[id]);
    }
  }

  lemma VisitKeeps(s: State, k: nat, subscribed: bool)
    requires Invariant(s) && Enabled(s, Visit(k, subscribed))
    ensures Invariant(Next(s, Visit(k, subscribed)))
  {
    var j := s.handling[k].next;
    var id := s.blocks[k].Messages()[j];
    var s' := Next(s, Visit(k, subscribed));
    VisitKeepsVisits(s, k, subscribed);
    VisitAnswers(s, k, subscribed);
    ApplyOwns(s.queue, Deliver(id));
    HandlerKeeps(s, s');
  }

  lemma VisitKeepsVisits(s: State, k: nat, subscribed: bool)
    requires Invariant(s) && Enabled(s, Visit(k, subscribed))
    ensures ChainInvariant(Next(s, Visit(k, subscribed))) && VisitInvariant(Next(s, Visit(k, subscribed)))
  {
    var next := Next(s, Visit(k, subscribed));
    VisitTakesOut(s, k, subscribed);
    forall i: nat, j: nat, id | AcceptedAt(s.blocks, i, j, id) && Visited(next.handling[i], j)
      ensures id !in next.queue.entries
    {
      assert Visited(s.handling[i], j) || (i == k && j == s.handling[k].next);
    }
  }

  lemma VisitTakesOut(s: State, k: nat, subscribed: bool)
    requires Invariant(s) && Enabled(s, Visit(k, subscribed))
    ensures s.blocks[k].Messages()[s.handling[k].next] !in Next(s, Visit(k, subscribed)).queue.entries
  {
    var id := s.blocks[k].Messages()[s.handling[k].next];
    assert id in s.queue.entries ==> Pends(s, id, s.queue.entries[id]);
  }

  lemma VisitAnswers(s: State, k: nat, subscribed: bool)
    requires Invariant(s) && Enabled(s, Visit(k, subscribed))
    ensures AnswerInvariant(Next(s, Visit(k, subscribed)))
  {
    var j := s.handling[k].next;
    assert AcceptedAt(s.blocks, k, j, s.blocks[k].Messages()[j]);
  }

  /** A message that a handled block drops has not been accepted and never will be. */
  lemma ExpiredIsDead(s: State, k: nat, id: MessageId)
    requires Invariant(s) && Enabled(s, Expire(k))
    requires id in s.queue.entries && IsExpired(s.blocks[k].shard, s.blocks[k].utime, id, s.queue.entries[id])
    ensures Dead(s.blocks, id, s.signed[id].expireAt)
  {
    assert PastExpiry(s.blocks[k], id, s.signed[id].expireAt);
    if Accepted(s.blocks, id) {
      var i: nat, j: nat :| AcceptedAt(s.blocks, i, j, id);
      assert !Visited(s.handling[i], j);
      CommonAccount(s.blocks[i].shard, s.blocks[k].shard, id.account);
    }
  }

  lemma ExpireKeeps(s: State, k: nat)
    requires Invariant(s) && Enabled(s, Expire(k))
    ensures Invariant(Next(s, Expire(k)))
  {
    var s' := Next(s, Expire(k));
    ExpireAnswers(s, k);
    ExpireKeepsVisits(s, k);
    ApplyOwns(s.queue, Update(s.blocks[k].shard, s.blocks[k].utime));
    HandlerKeeps(s, s');
  }

  lemma ExpireKeepsVisits(s: State, k: nat)
    requires Invariant(s) && Enabled(s, Expire(k))
    ensures ChainInvariant(Next(s, Expire(k))) && VisitInvariant(Next(s, Expire(k)))
  {
    var s' := Next(s, Expire(k));
    forall i: nat, j: nat, id | AcceptedAt(s.blocks, i, j, id) && Visited(s'.handling[i], j)
      ensures id !in s'.queue.entries
    {
      assert Visited(s.handling[i], j);
    }
  }

  lemma ExpireAnswers(s: State, k: nat)
    requires Invariant(s) && Enabled(s, Expire(k))
    ensures AnswerInvariant(Next(s, Expire(k)))
  {
    var block := s.blocks[k];
    forall c | 0 <= c < |s.queue.channels| && c in ExpiredChannels(s.queue.entries, block.shard, block.utime)
      ensures Dead(s.blocks, s.queue.channels[c].request, s.signed[s.queue.channels[c].request].expireAt)
    {
      var id :| id in s.queue.entries && IsExpired(block.shard, block.utime, id, s.queue.entries[id]) && s.queue.entries[id].tx == c;
      ExpiredIsDead(s, k, id);
    }
  }

  // ---- runs ----

  ghost predicate Possible(s: State, events: seq<Event>)
    decreases events
  {
    events == [] || (Enabled(s, events[0]) && Possible(Next(s, events[0]), events[1..]))
  }

  ghost function Run(s: State, events: seq<Event>): State
    requires Possible(s, events)
    decreases events
  {
    if events == [] then s else Run(Next(s, events[0]), events[1..])
  }

  lemma {:induction false} RunKeeps(s: State, events: seq<Event>)
    requires Invariant(s) && Possible(s, events)
    ensures Invariant(Run(s, events))
    decreases events
  {
    if events != [] {
      StepKeeps(s, events[0]);
      RunKeeps(Next(s, events[0]), events[1..]);
    }
  }

  /** Two acceptances, by whichever blocks, of attempts of the same task are one and the same. */
  lemma AtMostOnce(events: seq<Event>, t: nat, a: nat, b: nat, k: nat, j: nat, k': nat, j': nat)
    requires Possible(INITIAL, events)
    requires var s := Run(INITIAL, events);
             && t < |s.tasks| && a < |s.tasks[t].attempts| && b < |s.tasks[t].attempts|
             && AcceptedAt(s.blocks, k, j, s.tasks[t].attempts[a].id)
             && AcceptedAt(s.blocks, k', j', s.tasks[t].attempts[b].id)
    ensures k == k' && j == j' && a == b == |Run(INITIAL, events).tasks[t].attempts| - 1
  {
    var s := Run(INITIAL, events);
    RunKeeps(INITIAL, events);
    assert TaskInvariant(s, t, s.tasks[t]);
    assert Accepted(s.blocks, s.tasks[t].attempts[a].id) && Accepted(s.blocks, s.tasks[t].attempts[b].id);
  }

  /** A task that ended with a delivery had its latest attempt accepted. */
  lemma DeliveredIsAccepted(events: seq<Event>, t: nat)
    requires Possible(INITIAL, events)
    requires t < |Run(INITIAL, events).tasks| && Run(INITIAL, events).tasks[t].phase == Stopped(true)
    ensures HasLast(Run(INITIAL, events), t) && Accepted(Run(INITIAL, events).blocks, Latest(Run(INITIAL, events), t).id)
  {
    var s := Run(INITIAL, events);
    RunKeeps(INITIAL, events);
    assert TaskInvariant(s, t, s.tasks[t]);
  }

  /** Messages die for good: however the run goes on, the chain never accepts them. */
  lemma {:induction false} DeadForever(s: State, events: seq<Event>, id: MessageId)
    requires Invariant(s) && Possible(s, events)
    requires id in s.signed && Dead(s.blocks, id, s.signed[id].expireAt)
    ensures !Accepted(Run(s, events).blocks, id)
    decreases events
  {
    if events != [] {
      var next := Next(s, events[0]);
      StepKeeps(s, events[0]);
      if events[0].Produce? {
        DeadStays(s, events[0].block, id);
      }
      DeadForever(next, events[1..], id);
    }
  }

  /** A task that may still retry, or that ended without a delivery, has nothing left that could be accepted. */
  lemma RetryIsSafe(s: State, events: seq<Event>, t: nat, i: nat)
    requires Invariant(s) && Possible(s, events)
    requires t < |s.tasks| && i < |s.tasks[t].attempts|
    requires s.tasks[t].phase == Idle || s.tasks[t].phase == Stopped(false)
    ensures !Accepted(Run(s, events).blocks, s.tasks[t].attempts[i].id)
  {
    var attempt := s.tasks[t].attempts[i];
    assert TaskInvariant(s, t, s.tasks[t]) && AttemptInvariant(s, t, attempt);
    DeadForever(s, events, attempt.id);
  }

  // ---- such runs exist ----

  /** One more step at the end of a run. */
  lemma {:induction false} Extend(s: State, events: seq<Event>, e: Event)
    requires Possible(s, events) && Enabled(Run(s, events), e)
    ensures Possible(s, events + [e]) && Run(s, events + [e]) == Next(Run(s, events), e)
    decreases events
  {
    if events == [] {
      assert [] + [e] == [e];
    } else {
      assert (events + [e])[1..] == events[1..] + [e];
      Extend(Next(s, events[0]), events[1..], e);
    }
  }

  ghost predicate Reachable(s: State) {
    exists events :: Possible(INITIAL, events) && Run(INITIAL, events) == s
  }

  lemma ReachNext(s: State, e: Event)
    requires Reachable(s) && Enabled(s, e)
    ensures Reachable(Next(s, e))
  {
    var events :| Possible(INITIAL, events) && Run(INITIAL, events) == s;
    Extend(INITIAL, events, e);
  }

  const EVERYWHERE := ShardIdent(0, SHARD_FULL)

  lemma InEverywhere(account: Account)
    ensures InShard(EVERYWHERE, account)
  {
    FullPath(EVERYWHERE);
  }

  /** A message of the only task has been queued and broadcast, and blocks so far are handled. */
  ghost predicate Sent(s: State, account: Account, hash: seq<Byte>, expireAt: Time, attempts: nat) {
    var id := MessageId(account, hash);
    && Reachable(s) && |s.tasks| == 1 && |s.handling| == |s.blocks| && id in s.broadcast
    && s.tasks[0].account == account && s.tasks[0].phase == Waiting && |s.tasks[0].attempts| == attempts + 1
    && Latest(s, 0) == Attempt(id, expireAt, attempts) && |s.queue.channels| == attempts + 1
    && s.queue.channels[attempts] == Channel(id, None)
    && s.queue.entries == map[id := PendingMessage(attempts, expireAt)]
    && id in s.signed && s.signed[id].expireAt == expireAt
  }

  lemma SendOne(s: State, account: Account, hash: seq<Byte>, expireAt: Time) returns (s': State)
    requires Reachable(s) && |s.tasks| == 1 && |s.handling| == |s.blocks|
    requires s.tasks[0].account == account && s.tasks[0].phase == Idle && s.queue.entries == map[]
    requires |s.tasks[0].attempts| == |s.queue.channels|
    requires MessageId(account, hash) !in s.signed && !Accepted(s.blocks, MessageId(account, hash))
    ensures Sent(s', account, hash, expireAt, |s.tasks[0].attempts|)
    ensures s'.blocks == s.blocks && s'.handling == s.handling
    ensures s'.signed.Keys == s.signed.Keys + {MessageId(account, hash)}
  {
    var sent := Next(s, Send(0, hash, expireAt));
    ReachNext(s, Send(0, hash, expireAt));
    s' := Next(sent, Broadcast(0));
    ReachNext(sent, Broadcast(0));
  }

  ghost predicate AllHandled(s: State, time: Time) {
    && |s.handling| == |s.blocks|
    && forall k :: 0 <= k < |s.blocks| ==> s.handling[k] == Handled && s.blocks[k].utime <= time
  }

  /** A block comes and is about to be handled. */
  lemma BlockComes(s: State, block: Block) returns (s': State)
    requires Reachable(s) && AllHandled(s, block.utime) && Legal(s, block)
    ensures Reachable(s') && s' == s.(blocks := s.blocks + [block], handling := s.handling + [Delivering(0)])
  {
    var produced := Next(s, Produce(block));
    ReachNext(s, Produce(block));
    s' := Next(produced, Start(|s.blocks|));
    ReachNext(produced, Start(|s.blocks|));
    assert s'.handling == s.handling + [Delivering(0)];
  }

  lemma ExpireOne(s: State, account: Account, hash: seq<Byte>, expireAt: Time, attempts: nat, time: Time) returns (s': State)
    requires Sent(s, account, hash, expireAt, attempts) && AllHandled(s, time) && expireAt < time
    ensures Reachable(s') && AllHandled(s', time) && s'.blocks == s.blocks + [Block(EVERYWHERE, time, [])]
    ensures |s'.tasks| == 1 && s'.tasks[0].account == account && s'.tasks[0].phase == Idle && s'.queue.entries == map[]
    ensures |s'.tasks[0].attempts| == attempts + 1 == |s'.queue.channels| && s'.signed == s.signed
  {
    var id, block, k := MessageId(account, hash), Block(EVERYWHERE, time, []), |s.blocks|;
    var coming := BlockComes(s, block);
    InEverywhere(account);
    assert IsExpired(block.shard, block.utime, id, s.queue.entries[id]);
    var expired := Next(coming, Expire(k));
    ReachNext(coming, Expire(k));
    ExpiresAlone(s.queue, id, block);
    s' := ResumeOne(expired);
    assert expired.handling[k] == Handled;
  }

  /** The only task learns that its message has expired. */
  lemma ResumeOne(s: State) returns (s': State)
    requires Reachable(s) && |s.tasks| == 1 && HasLast(s, 0) && s.tasks[0].phase == Waiting
    requires Latest(s, 0).tx < |s.queue.channels| && s.queue.channels[Latest(s, 0).tx].answer == Some(Expired)
    ensures Reachable(s') && s' == Moved(s, 0, Idle)
  {
    s' := Next(s, Resume(0));
    ReachNext(s, Resume(0));
  }

  /** A queue with a single message, past its expiry. */
  lemma ExpiresAlone(queue: Queue, id: MessageId, block: Block)
    requires id in queue.entries && queue.entries.Keys == {id} && OwnChannels(queue.entries, queue.channels)
    requires IsExpired(block.shard, block.utime, id, queue.entries[id])
    ensures var after, tx := Apply(queue, Update(block.shard, block.utime)), queue.entries[id].tx;
            && after.entries == map[]
            && tx < |queue.channels| == |after.channels| && after.channels[tx].answer == Some(Expired)
  {
    assert queue.entries[id].tx in ExpiredChannels(queue.entries, block.shard, block.utime);
  }

  lemma OneMessage(account: Account, hash: seq<Byte>)
    ensures ExecutedMessages([AccountTransaction(account, Transaction(true, false, Some(InMessage(true, hash))))]) ==
            [MessageId(account, hash)]
  {
    assert ExecutedMessages([]) == [];
  }

  lemma AcceptOne(s: State, account: Account, hash: seq<Byte>, expireAt: Time, attempts: nat, time: Time) returns (s': State)
    requires Sent(s, account, hash, expireAt, attempts) && AllHandled(s, time) && time <= expireAt
    requires !Accepted(s.blocks, MessageId(account, hash))
    ensures Reachable(s') && |s'.tasks| == 1 && s'.tasks[0].phase == Stopped(true) && |s'.tasks[0].attempts| == attempts + 1
  {
    var id := MessageId(account, hash);
    var block, k := Block(EVERYWHERE, time, [AccountTransaction(account, Transaction(true, false, Some(InMessage(true, hash))))]), |s.blocks|;
    InEverywhere(account);
    OneMessage(account, hash);
    assert LegalMessage(s, block, id);
    var coming := BlockComes(s, block);
    var visited := Next(coming, Visit(k, true));
    ReachNext(coming, Visit(k, true));
    s' := Next(visited, Resume(0));
    ReachNext(visited, Resume(0));
  }

  /** A first attempt may expire and a second one be accepted. */
  lemma RetriesHappen(account: Account, first: seq<Byte>, second: seq<Byte>) returns (s: State)
    requires first != second
    ensures Reachable(s) && |s.tasks| == 1 && s.tasks[0].phase == Stopped(true) && |s.tasks[0].attempts| == 2
  {
    assert Possible(INITIAL, []) && Run(INITIAL, []) == INITIAL;
    s := Next(INITIAL, Spawn(account));
    ReachNext(INITIAL, Spawn(account));
    s := SendOne(s, account, first, 10);
    s := ExpireOne(s, account, first, 10, 0, 11);
    s := SendOne(s, account, second, 20);
    s := AcceptOne(s, account, second, 20, 1, 12);
  }
}
