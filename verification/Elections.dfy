/**
 * The elections loop and the balance loop of a relay: both wait for notifications that are
 * announced, and subscribed to, under one lock.
 */
module Elections {
  import opened Wrappers

  datatype ElectionsState =
    | NotStarted(startTime: nat)
    | Started(startTime: nat, endTime: nat)
    | Finished

  datatype RoundState = RoundState(number: nat, elections: ElectionsState, minRelayDeposit: nat)

  datatype StakingEvent = ElectionStarted | ElectionEnded | RelayRoundInitialized | RelayConfigUpdated

  /** A notifier wakes every future created before the call, so it is a count and a future remembers one. */
  datatype Notifiers = Notifiers(started: nat, ended: nat, round: nat, config: nat, balance: nat)

  /** What the lock protects, the notifiers, and two flags that may be unset. */
  datatype Shared = Shared(round: RoundState, balance: nat, notifiers: Notifiers, elected: Option<bool>, participates: Option<bool>)

  /** A task that the handling of an event starts. */
  datatype Task = JoinElections | CheckParticipation | CollectReward

  /** The event that ends a wait in a state. */
  function Awaited(elections: ElectionsState): StakingEvent {
    match elections
    case NotStarted(_) => ElectionStarted
    case Started(_, _) => ElectionEnded
    case Finished => RelayRoundInitialized
  }

  function CountOf(notifiers: Notifiers, event: StakingEvent): nat {
    match event
    case ElectionStarted => notifiers.started
    case ElectionEnded => notifiers.ended
    case RelayRoundInitialized => notifiers.round
    case RelayConfigUpdated => notifiers.config
  }

  function Notified(notifiers: Notifiers, event: StakingEvent): Notifiers {
    match event
    case ElectionStarted => notifiers.(started := notifiers.started + 1)
    case ElectionEnded => notifiers.(ended := notifiers.ended + 1)
    case RelayRoundInitialized => notifiers.(round := notifiers.round + 1)
    case RelayConfigUpdated => notifiers.(config := notifiers.config + 1)
  }

  function AfterStaking(s: Shared, round: RoundState, event: StakingEvent): Shared {
    var elected := if round.elections.NotStarted? then None else s.elected;
    Shared(round, s.balance, Notified(s.notifiers, event),
           if event.ElectionStarted? && elected == None then Some(false) else elected,
           if event.RelayRoundInitialized? then None else s.participates)
  }

  function Spawned(event: StakingEvent, ignoreElections: bool): set<Task> {
    match event
    case ElectionStarted => if ignoreElections then {} else {JoinElections}
    case RelayRoundInitialized => {CheckParticipation, CollectReward}
    case _ => {}
  }

  function AfterDeposit(s: Shared, balance: nat): Shared {
    s.(balance := balance, notifiers := s.notifiers.(balance := s.notifiers.balance + 1))
  }

  /** The futures that the elections loop waits for: the end of the state, and a change of the timings. */
  datatype ElectionsWait = ElectionsWait(awaited: StakingEvent, count: nat, config: Option<nat>)

  function TakeElectionsWait(s: Shared): ElectionsWait {
    var awaited := Awaited(s.round.elections);
    ElectionsWait(awaited, CountOf(s.notifiers, awaited), if s.round.elections.Finished? then None else Some(s.notifiers.config))
  }

  predicate ElectionsReady(wait: ElectionsWait, notifiers: Notifiers) {
    || CountOf(notifiers, wait.awaited) > wait.count
    || (wait.config.Some? && notifiers.config > wait.config.value)
  }

  datatype BalanceWait = BalanceWait(balance: nat, config: nat)

  /** Nothing to wait for once the balance suffices. */
  function TakeBalanceWait(s: Shared): Option<BalanceWait> {
    if s.balance >= s.round.minRelayDeposit then None
    else Some(BalanceWait(s.notifiers.balance, s.notifiers.config))
  }

  predicate BalanceReady(wait: BalanceWait, notifiers: Notifiers) {
    notifiers.balance > wait.balance || notifiers.config > wait.config
  }

  // ---- the relay's own code, one section under the lock at a time ----

  class Staking {
    var round: RoundState
    var balance: nat
    var started: nat
    var ended: nat
    var roundStarted: nat
    var configUpdated: nat
    var balanceChanged: nat
    var elected: Option<bool>
    var participates: Option<bool>

    ghost function View(): Shared
      reads this
    {
      Shared(round, balance, Notifiers(started, ended, roundStarted, configUpdated, balanceChanged), elected, participates)
    }

    constructor (round: RoundState, balance: nat, elected: Option<bool>, participates: Option<bool>)
      ensures View() == Shared(round, balance, Notifiers(0, 0, 0, 0, 0), elected, participates)
    {
      this.round, this.balance, this.elected, this.participates := round, balance, elected, participates;
      started, ended, roundStarted, configUpdated, balanceChanged := 0, 0, 0, 0, 0;
    }

    /** Handles an event of the staking contract under the lock, and names the tasks to start. */
    method ProcessStakingEvent(state: RoundState, event: StakingEvent, ignoreElections: bool) returns (tasks: set<Task>)
      modifies this
      ensures View() == AfterStaking(old(View()), state, event)
      ensures tasks == Spawned(event, ignoreElections)
      ensures round == state && balance == old(balance)
      ensures JoinElections in tasks <==> event == ElectionStarted && !ignoreElections
      ensures CheckParticipation in tasks <==> event == RelayRoundInitialized
      ensures CollectReward in tasks <==> event == RelayRoundInitialized
      ensures participates == if event == RelayRoundInitialized then None else old(participates)
      ensures elected ==
              if event == ElectionStarted && (state.elections.NotStarted? || old(elected) == None) then Some(false)
              else if state.elections.NotStarted? then None else old(elected)
    {
      tasks := {};
      round := state;
      if round.elections.NotStarted? {
        elected := None;
      }
      match event {
        case ElectionStarted =>
          started := started + 1;
          if elected == None {
            elected := Some(false);
          }
          if ignoreElections {
            return;
          }
          tasks := {JoinElections};
        case ElectionEnded =>
          ended := ended + 1;
        case RelayRoundInitialized =>
          roundStarted := roundStarted + 1;
          participates := None;
          tasks := {CheckParticipation, CollectReward};
        case RelayConfigUpdated =>
          configUpdated := configUpdated + 1;
      }
    }

    method ProcessMembershipRequested()
      modifies this
      ensures View() == old(View()).(elected := Some(true))
    {
      elected := Some(true);
    }

    method ProcessDeposit(newBalance: nat)
      modifies this
      ensures View() == AfterDeposit(old(View()), newBalance)
      ensures balance == newBalance && balanceChanged == old(balanceChanged) + 1 && round == old(round)
    {
      balance := newBalance;
      balanceChanged := balanceChanged + 1;
    }

    /** What the elections loop prepares under the lock. */
    method PrepareElections() returns (wait: ElectionsWait)
      ensures wait == TakeElectionsWait(View())
    {
      match round.elections {
        case NotStarted(_) => wait := ElectionsWait(ElectionStarted, started, Some(configUpdated));
        case Started(_, _) => wait := ElectionsWait(ElectionEnded, ended, Some(configUpdated));
        case Finished => wait := ElectionsWait(RelayRoundInitialized, roundStarted, None);
      }
    }

    /** What the balance loop decides and prepares under the lock. */
    method CheckBalance() returns (wait: Option<BalanceWait>)
      ensures wait == TakeBalanceWait(View())
    {
      if balance >= round.minRelayDeposit {
        return None;
      }
      wait := Some(BalanceWait(balanceChanged, configUpdated));
    }
  }

  // ---- the staking contract ----

  /** The contract's events in order, and its state before, between and after them. */
  datatype History = History(events: seq<StakingEvent>, states: seq<RoundState>)

  ghost predicate IsHistory(h: History) {
    && |h.states| == |h.events| + 1
    && forall k :: 0 <= k < |h.events| ==> Follows(h.states[k], h.events[k], h.states[k + 1])
  }

  predicate Follows(before: RoundState, event: StakingEvent, after: RoundState) {
    match event
    case ElectionStarted => before.elections.NotStarted? && after.elections.Started? && after.minRelayDeposit == before.minRelayDeposit
    case ElectionEnded => before.elections.Started? && after.elections.Finished? && after.minRelayDeposit == before.minRelayDeposit
    case RelayRoundInitialized => before.elections.Finished? && after.elections.NotStarted? && after.minRelayDeposit == before.minRelayDeposit
    case RelayConfigUpdated => Awaited(before.elections) == Awaited(after.elections)
  }

  ghost function Happened(events: seq<StakingEvent>, event: StakingEvent, upTo: nat): nat
    requires upTo <= |events|
  {
    if upTo == 0 then 0 else Happened(events, event, upTo - 1) + if events[upTo - 1] == event then 1 else 0
  }

  lemma {:induction false} HappenedBetween(events: seq<StakingEvent>, event: StakingEvent, from: nat, to: nat)
    requires from <= to <= |events|
    ensures Happened(events, event, from) <= Happened(events, event, to)
    ensures Happened(events, event, from) == Happened(events, event, to) <==>
              forall k :: from <= k < to ==> events[k] != event
  {
    if from < to {
      HappenedBetween(events, event, from, to - 1);
    }
  }

  // ---- both loops and the joining tasks, interleaved with the handling of events ----

  /** A wait, with the number of events handled and the contract's state seen when it was taken. */
  datatype Loop<W> = Running | Waiting(wait: W, handled: nat, position: nat)

  datatype BalanceLoop = Off | Checking | Blocked(wait: BalanceWait, handled: nat, position: nat, balance: nat) | Sending

  /** The future of a joining task: the count of ended elections, and of handled events, when it was taken. */
  datatype Future = Future(count: nat, handled: nat)

  /** The task that joins the elections whose start is an event of the history; its future is taken outside the lock. */
  datatype Joining = Joining(start: nat, future: Option<Future>, cancelled: bool)

  /**
   * Events before `handled` have been handled, or missed before the subscription. An event comes with the state of
   * its block, which may already be past later events; the lock holder's state is that of `position`.
   */
  datatype State = State(
    shared: Shared,
    handled: nat,
    position: nat,
    elections: Loop<ElectionsWait>,
    balance: BalanceLoop,
    joining: seq<Joining>)

  datatype Step =
    | Handle(position: nat)
    | Deposit(balance: nat)
    | TakeElections
    | WakeElections
    | StartBalance
    | TakeBalance
    | WakeBalance
    | TakeFuture(task: nat)
    | CancelTask(task: nat)

  /** The run of a relay: the contract's history, the state that was read, and the first event subscribed to. */
  datatype Setting = Setting(history: History, read: nat, subscribed: nat, ignoreElections: bool)

  ghost predicate IsSetting(g: Setting) {
    IsHistory(g.history) && g.read <= g.subscribed <= |g.history.events|
  }

  ghost predicate Enabled(g: Setting, s: State, step: Step) {
    match step
    case Handle(position) =>
      && s.handled < |g.history.events| && s.handled < position
      && s.position <= position <= |g.history.events|
    case Deposit(_) => true
    case TakeElections => s.elections.Running?
    case WakeElections => s.elections.Waiting? && ElectionsReady(s.elections.wait, s.shared.notifiers)
    case StartBalance => s.balance.Off?
    case TakeBalance => s.balance.Checking?
    case WakeBalance => s.balance.Blocked? && BalanceReady(s.balance.wait, s.shared.notifiers)
    case TakeFuture(t) => t < |s.joining| && s.joining[t].future.None?
    case CancelTask(t) => t < |s.joining| && !s.joining[t].cancelled && Ended(s, s.joining[t])
  }

  /** The future of the task is complete. */
  predicate Ended(s: State, task: Joining) {
    task.future.Some? && s.shared.notifiers.ended > task.future.value.count
  }

  ghost function Next(g: Setting, s: State, step: Step): State
    requires Enabled(g, s, step) && IsSetting(g)
  {
    match step
    case Handle(position) =>
      var event := g.history.events[s.handled];
      s.(shared := AfterStaking(s.shared, g.history.states[position], event),
         handled := s.handled + 1, position := position,
         joining := s.joining + if JoinElections in Spawned(event, g.ignoreElections) then [Joining(s.handled, None, false)] else [])
    case Deposit(balance) => s.(shared := AfterDeposit(s.shared, balance))
    case TakeElections => s.(elections := Waiting(TakeElectionsWait(s.shared), s.handled, s.position))
    case WakeElections => s.(elections := Running)
    case StartBalance => s.(balance := Checking)
    case TakeBalance =>
      var wait := TakeBalanceWait(s.shared);
      s.(balance := if wait.Some? then Blocked(wait.value, s.handled, s.position, s.shared.balance) else Sending)
    case WakeBalance => s.(balance := Checking)
    case TakeFuture(t) =>
      s.(joining := s.joining[t := s.joining[t].(future := Some(Future(s.shared.notifiers.ended, s.handled)))])
    case CancelTask(t) => s.(joining := s.joining[t := s.joining[t].(cancelled := true)])
  }

  ghost function Start(g: Setting, balance: nat, elected: Option<bool>, participates: Option<bool>): State
    requires IsSetting(g)
  {
    State(Shared(g.history.states[g.read], balance, Notifiers(0, 0, 0, 0, 0), elected, participates),
          g.subscribed, g.read, Running, Off, [])
  }

  // ---- the invariant ----

  /** Notifications since the subscription. */
  ghost function Since(g: Setting, event: StakingEvent, handled: nat): int
    requires IsSetting(g) && g.subscribed <= handled <= |g.history.events|
  {
    Happened(g.history.events, event, handled) - Happened(g.history.events, event, g.subscribed)
  }

  ghost predicate Counted(g: Setting, notifiers: Notifiers, handled: nat)
    requires IsSetting(g) && g.subscribed <= handled <= |g.history.events|
  {
    && notifiers.started == Since(g, ElectionStarted, handled)
    && notifiers.ended == Since(g, ElectionEnded, handled)
    && notifiers.round == Since(g, RelayRoundInitialized, handled)
    && notifiers.config == Since(g, RelayConfigUpdated, handled)
  }

  /** What is seen is at least as new as what has been handled, but for the gap before the first event. */
  predicate IsSeen(g: Setting, handled: nat, position: nat) {
    && g.subscribed <= handled && position <= |g.history.events|
    && (handled <= position || (handled == g.subscribed && position == g.read))
  }

  ghost predicate ElectionsInvariant(g: Setting, s: State)
    requires IsSetting(g) && g.subscribed <= s.handled <= |g.history.events|
  {
    s.elections.Waiting? ==>
      && s.elections.handled <= s.handled && s.elections.position <= s.position
      && IsSeen(g, s.elections.handled, s.elections.position)
      && s.elections.wait.awaited == Awaited(g.history.states[s.elections.position].elections)
      && s.elections.wait.count == Since(g, s.elections.wait.awaited, s.elections.handled)
      && s.elections.wait.config ==
         if g.history.states[s.elections.position].elections.Finished? then None
         else Some(Since(g, RelayConfigUpdated, s.elections.handled))
  }

  ghost predicate BalanceInvariant(g: Setting, s: State)
    requires IsSetting(g) && g.subscribed <= s.handled <= |g.history.events|
  {
    s.balance.Blocked? ==>
      && s.balance.handled <= s.handled && s.balance.position <= s.position
      && IsSeen(g, s.balance.handled, s.balance.position)
      && s.balance.wait.config == Since(g, RelayConfigUpdated, s.balance.handled)
      && s.balance.wait.balance <= s.shared.notifiers.balance
      && (s.balance.wait.balance == s.shared.notifiers.balance ==> s.balance.balance == s.shared.balance)
      && s.balance.balance < g.history.states[s.balance.position].minRelayDeposit
  }

  ghost predicate JoiningInvariant(g: Setting, handled: nat, task: Joining)
    requires IsSetting(g) && g.subscribed <= handled <= |g.history.events|
  {
    && task.start < handled && g.history.events[task.start] == ElectionStarted
    && (task.future.Some? ==>
          && g.subscribed <= task.future.value.handled && task.start < task.future.value.handled <= handled
          && task.future.value.count == Since(g, ElectionEnded, task.future.value.handled))
    && (task.cancelled ==>
          task.future.Some? &&
          exists k :: task.future.value.handled <= k < handled && g.history.events[k] == ElectionEnded)
  }

  ghost predicate Invariant(g: Setting, s: State) {
    && IsSetting(g)
    && s.handled <= |g.history.events| && IsSeen(g, s.handled, s.position)
    && s.shared.round == g.history.states[s.position]
    && Counted(g, s.shared.notifiers, s.handled)
    && ElectionsInvariant(g, s)
    && BalanceInvariant(g, s)
    && forall t :: 0 <= t < |s.joining| ==> JoiningInvariant(g, s.handled, s.joining[t])
  }

  lemma StepKeeps(g: Setting, s: State, step: Step)
    requires Invariant(g, s) && Enabled(g, s, step)
    ensures Invariant(g, Next(g, s, step))
  {
    match step
    case Handle(position) => HandleKeeps(g, s, position);
    case TakeFuture(t) => JoiningKeeps(g, s, step, t);
    case CancelTask(t) => JoiningKeeps(g, s, step, t);
    case _ => LoopKeeps(g, s, step);
  }

  lemma HandleKeeps(g: Setting, s: State, position: nat)
    requires Invariant(g, s) && Enabled(g, s, Handle(position))
    ensures Invariant(g, Next(g, s, Handle(position)))
  {
    var next := Next(g, s, Handle(position));
    forall t | 0 <= t < |next.joining|
      ensures JoiningInvariant(g, next.handled, next.joining[t])
    {
      if t < |s.joining| {
        assert JoiningInvariant(g, s.handled, s.joining[t]);
      }
    }
  }

  lemma LoopKeeps(g: Setting, s: State, step: Step)
    requires Invariant(g, s) && Enabled(g, s, step)
    requires !step.Handle? && !step.TakeFuture? && !step.CancelTask?
    ensures Invariant(g, Next(g, s, step))
  {
  }

  lemma JoiningKeeps(g: Setting, s: State, step: Step, t: nat)
    requires Invariant(g, s) && Enabled(g, s, step) && (step == TakeFuture(t) || step == CancelTask(t))
    ensures Invariant(g, Next(g, s, step))
  {
    var next := Next(g, s, step);
    assert JoiningInvariant(g, s.handled, s.joining[t]);
    if step.CancelTask? {
      HappenedBetween(g.history.events, ElectionEnded, s.joining[t].future.value.handled, s.handled);
    }
    forall u | 0 <= u < |next.joining| && u != t
      ensures JoiningInvariant(g, next.handled, next.joining[u])
    {
      assert next.joining[u] == s.joining[u];
    }
  }

  ghost predicate Possible(g: Setting, s: State, steps: seq<Step>)
    requires IsSetting(g)
    decreases steps
  {
    steps == [] || (Enabled(g, s, steps[0]) && Possible(g, Next(g, s, steps[0]), steps[1..]))
  }

  ghost function Run(g: Setting, s: State, steps: seq<Step>): State
    requires IsSetting(g) && Possible(g, s, steps)
    decreases steps
  {
    if steps == [] then s else Run(g, Next(g, s, steps[0]), steps[1..])
  }

  lemma {:induction false} RunKeeps(g: Setting, s: State, steps: seq<Step>)
    requires Invariant(g, s) && Possible(g, s, steps)
    ensures Invariant(g, Run(g, s, steps))
    decreases steps
  {
    if steps != [] {
      StepKeeps(g, s, steps[0]);
      RunKeeps(g, Next(g, s, steps[0]), steps[1..]);
    }
  }

  // ---- the contract between two events ----

  /** While no awaited event happens, the contract stays in the same phase. */
  lemma {:induction false} PhaseLasts(h: History, from: nat, to: nat)
    requires IsHistory(h) && from <= to <= |h.events|
    requires forall k :: from <= k < to ==> h.events[k] != Awaited(h.states[from].elections)
    ensures Awaited(h.states[to].elections) == Awaited(h.states[from].elections)
  {
    if from < to {
      PhaseLasts(h, from, to - 1);
      assert Follows(h.states[to - 1], h.events[to - 1], h.states[to]);
    }
  }

  lemma {:induction false} DepositLasts(h: History, from: nat, to: nat)
    requires IsHistory(h) && from <= to <= |h.events|
    requires forall k :: from <= k < to ==> h.events[k] != RelayConfigUpdated
    ensures h.states[to].minRelayDeposit == h.states[from].minRelayDeposit
  {
    if from < to {
      DepositLasts(h, from, to - 1);
      assert Follows(h.states[to - 1], h.events[to - 1], h.states[to]);
    }
  }

  lemma NothingHappens(h: History, from: nat, to: nat)
    requires IsHistory(h) && from <= to <= |h.events| && !h.states[from].elections.Finished?
    requires forall k :: from <= k < to ==> h.events[k] != Awaited(h.states[from].elections) && h.events[k] != RelayConfigUpdated
    ensures from == to
  {
    assert from < to ==> Follows(h.states[from], h.events[from], h.states[from + 1]);
  }

  // ---- no wake-up is lost ----

  /** The awaited future is complete exactly when an awaited event has been handled since it was taken. */
  lemma ElectionsReadyExactly(g: Setting, s: State)
    requires Invariant(g, s) && s.elections.Waiting?
    ensures ElectionsReady(s.elections.wait, s.shared.notifiers) <==>
              exists k :: s.elections.handled <= k < s.handled &&
                (g.history.events[k] == s.elections.wait.awaited ||
                 (g.history.events[k] == RelayConfigUpdated && s.elections.wait.config.Some?))
  {
    HappenedBetween(g.history.events, s.elections.wait.awaited, s.elections.handled, s.handled);
    HappenedBetween(g.history.events, RelayConfigUpdated, s.elections.handled, s.handled);
  }

  /** The state that was read is still good when the subscription begins: the phase, its timings, and the deposit. */
  ghost predicate IsCurrent(g: Setting)
    requires IsSetting(g)
  {
    var read, now := g.history.states[g.read], g.history.states[g.subscribed];
    && Awaited(read.elections) == Awaited(now.elections)
    && (!read.elections.Finished? ==> read == now)
    && read.minRelayDeposit <= now.minRelayDeposit
  }

  /** A loop that waits while all that has happened is handled, and is not woken, waits in the current phase and timings. */
  ghost predicate ElectionsNotLost(g: Setting, s: State)
    requires Invariant(g, s)
  {
    s.elections.Waiting? && s.handled >= s.position && !ElectionsReady(s.elections.wait, s.shared.notifiers) ==>
      var now := g.history.states[s.handled];
      && s.elections.wait.awaited == Awaited(now.elections)
      && (!g.history.states[s.elections.position].elections.Finished? ==> g.history.states[s.elections.position] == now)
  }

  /** A blocked balance loop that is not woken has, once all is handled, every reason to be blocked. */
  ghost predicate BalanceNotLost(g: Setting, s: State)
    requires Invariant(g, s)
  {
    s.balance.Blocked? && s.handled >= s.position && !BalanceReady(s.balance.wait, s.shared.notifiers) ==>
      s.shared.balance < g.history.states[s.handled].minRelayDeposit
  }

  /** Where a wait was taken as seen from the contract: at the state seen, or in the gap. */
  function Taken(handled: nat, position: nat): nat {
    if handled <= position then position else handled
  }

  lemma NothingLost(g: Setting, s: State)
    requires Invariant(g, s) && IsCurrent(g)
    ensures ElectionsNotLost(g, s) && BalanceNotLost(g, s)
  {
    var h := g.history;
    if s.elections.Waiting? && s.handled >= s.position && !ElectionsReady(s.elections.wait, s.shared.notifiers) {
      var from := Taken(s.elections.handled, s.elections.position);
      ElectionsReadyExactly(g, s);
      PhaseLasts(h, from, s.handled);
      if !h.states[s.elections.position].elections.Finished? {
        NothingHappens(h, from, s.handled);
      }
    }
    if s.balance.Blocked? && s.handled >= s.position && !BalanceReady(s.balance.wait, s.shared.notifiers) {
      HappenedBetween(h.events, RelayConfigUpdated, s.balance.handled, s.handled);
      DepositLasts(h, Taken(s.balance.handled, s.balance.position), s.handled);
    }
  }

  lemma StartInvariant(g: Setting, balance: nat, elected: Option<bool>, participates: Option<bool>)
    requires IsSetting(g)
    ensures Invariant(g, Start(g, balance, elected, participates))
  {
  }

  /** Over all runs: no wake-up is ever lost if and only if the state that was read is current when the subscription begins. */
  lemma NothingLostExactly(g: Setting, balance: nat, elected: Option<bool>, participates: Option<bool>)
    requires IsSetting(g)
    ensures IsCurrent(g) <==>
              forall steps :: Possible(g, Start(g, balance, elected, participates), steps) ==>
                NotLost(g, Run(g, Start(g, balance, elected, participates), steps))
  {
    var start := Start(g, balance, elected, participates);
    StartInvariant(g, balance, elected, participates);
    if IsCurrent(g) {
      forall steps | Possible(g, start, steps)
        ensures NotLost(g, Run(g, start, steps))
      {
        RunKeeps(g, start, steps);
        NothingLost(g, Run(g, start, steps));
      }
    } else {
      var steps := ALosingRun(g, start);
    }
  }

  ghost predicate NotLost(g: Setting, s: State) {
    Invariant(g, s) && ElectionsNotLost(g, s) && BalanceNotLost(g, s)
  }

  /** From a state that is no longer current, the first wait of one of the loops is lost. */
  lemma ALosingRun(g: Setting, start: State) returns (steps: seq<Step>)
    requires IsSetting(g) && !IsCurrent(g) && Invariant(g, start)
    requires start == Start(g, start.shared.balance, start.shared.elected, start.shared.participates)
    ensures Possible(g, start, steps) && !NotLost(g, Run(g, start, steps))
  {
    var read, now := g.history.states[g.read], g.history.states[g.subscribed];
    if read.minRelayDeposit > now.minRelayDeposit {
      steps := LosingDeposit(g, start);
    } else {
      steps := [TakeElections];
      var waiting := Next(g, start, TakeElections);
      RunOne(g, start, TakeElections);
      assert !ElectionsReady(waiting.elections.wait, waiting.shared.notifiers);
    }
  }

  lemma RunOne(g: Setting, s: State, step: Step)
    requires IsSetting(g) && Enabled(g, s, step)
    ensures Possible(g, s, [step]) && Run(g, s, [step]) == Next(g, s, step)
  {
    assert [step][1..] == [];
  }

  lemma LosingDeposit(g: Setting, start: State) returns (steps: seq<Step>)
    requires IsSetting(g)
    requires start == Start(g, start.shared.balance, start.shared.elected, start.shared.participates)
    requires g.history.states[g.read].minRelayDeposit > g.history.states[g.subscribed].minRelayDeposit
    ensures Possible(g, start, steps) && !NotLost(g, Run(g, start, steps))
  {
    var enough := g.history.states[g.subscribed].minRelayDeposit;
    var paid := Next(g, start, Deposit(enough));
    var checking := Next(g, paid, StartBalance);
    var blocked := Next(g, checking, TakeBalance);
    steps := [Deposit(enough), StartBalance, TakeBalance];
    assert steps[1..] == [StartBalance, TakeBalance] && steps[1..][1..] == [TakeBalance];
    RunOne(g, checking, TakeBalance);
    assert Run(g, start, steps) == blocked;
    assert !BalanceReady(blocked.balance.wait, blocked.shared.notifiers);
  }

  /** The balance loop goes on to send only from a check, under the lock, that the balance suffices. */
  lemma SendsOnlyWithBalance(g: Setting, s: State, step: Step)
    requires Invariant(g, s) && Enabled(g, s, step)
    requires !s.balance.Sending? && Next(g, s, step).balance.Sending?
    ensures step == TakeBalance && s.shared.balance >= s.shared.round.minRelayDeposit
  {
  }

  // ---- the end of a joining task's own elections ----

  /** The first end of elections after their start. */
  ghost predicate IsOwnEnd(h: History, start: nat, end: nat) {
    && start < end < |h.events| && h.events[end] == ElectionEnded
    && forall k :: start < k < end ==> h.events[k] != ElectionEnded
  }

  /**
   * Until other elections end, the task is stopped by the end of its own if and only if that was handled
   * after the task took its future.
   */
  lemma OwnEndMissedExactly(g: Setting, s: State, t: nat, end: nat)
    requires Invariant(g, s) && t < |s.joining| && s.joining[t].future.Some?
    requires IsOwnEnd(g.history, s.joining[t].start, end) && end < s.handled
    requires forall k :: end < k < s.handled ==> g.history.events[k] != ElectionEnded
    ensures Ended(s, s.joining[t]) <==> s.joining[t].future.value.handled <= end
    ensures s.joining[t].future.value.handled > end ==> !s.joining[t].cancelled
  {
    HappenedBetween(g.history.events, ElectionEnded, s.joining[t].future.value.handled, s.handled);
  }

  /** The end can indeed be missed: it may be handled between the start of the task and its first step. */
  lemma OwnEndCanBeMissed(before: RoundState, during: RoundState, after: RoundState) returns (g: Setting, s: State)
    requires before.elections.NotStarted? && during.elections.Started? && after.elections.Finished?
    requires before.minRelayDeposit == during.minRelayDeposit == after.minRelayDeposit
    ensures Invariant(g, s) && |s.joining| == 1 && s.joining[0].future.Some?
    ensures IsOwnEnd(g.history, s.joining[0].start, 1) && s.handled == 2 == |g.history.events|
    ensures !Ended(s, s.joining[0])
  {
    g := Setting(History([ElectionStarted, ElectionEnded], [before, during, after]), 0, 0, false);
    s := Start(g, 0, None, None);
    StartInvariant(g, 0, None, None);
    StepKeeps(g, s, Handle(1));
    s := Next(g, s, Handle(1));
    StepKeeps(g, s, Handle(2));
    s := Next(g, s, Handle(2));
    StepKeeps(g, s, TakeFuture(0));
    s := Next(g, s, TakeFuture(0));
  }
}
