/** Password attempts interleaving through the guard: gate, wait for a slot, check, release, then
    record or forget. Every theorem here is about all interleavings. */
module GuardRuns {
  import opened Wrappers
  import opened Bytes
  import opened PasswordGuard

  datatype Config = Config(limits: Limits, cap: nat)

  const DEFAULT_CONFIG: Config := Config(DEFAULT_LIMITS, MAX_CONCURRENT_PASSWORD_CHECKS)

  ghost predicate Usable(c: Config) {
    Sensible(c.limits) && c.cap >= 1
  }

  datatype Outcome = Accepted | RefusedLockedOut | RefusedClientLeft | Rejected(lockedOutNow: bool)

  /** Where one call of verify stands. `gate` is the time its lockout check was passed. */
  datatype Phase =
    | Arrived
    | Waiting(gate: int)
    | Checking(gate: int)
    | Checked(gate: int, ok: bool)
    | Freed(gate: int, ok: bool)
    | Pausing(outcome: Outcome)
    | Finished(outcome: Outcome)

  datatype Attempt = Attempt(host: Host, phase: Phase)

  /** `slots` counts tokens in the channel; `asked` holds the attempts whose password reached the
      source; `history` is every recorded failure and success. */
  datatype Guard = Guard(
    failures: Failures,
    slots: nat,
    attempts: seq<Attempt>,
    clock: int,
    asked: set<nat>,
    history: seq<Event>)

  datatype Action =
    | Arrive(host: Host)
    | Gate(i: nat, now: int)
    | Acquire(i: nat)
    | Leave(i: nat)
    | Return(i: nat, ok: bool)
    | Release(i: nat)
    | Record(i: nat, now: int)
    | Forget(i: nat)
    | EndPause(i: nat)

  function Initial(clock: int): (g: Guard) {
    Guard(map[], 0, [], clock, {}, [])
  }

  predicate Enabled(c: Config, g: Guard, a: Action) {
    if a.Arrive? then true
    else if a.i >= |g.attempts| then false
    else
      var phase := g.attempts[a.i].phase;
      match a
      case Gate(_, now) => phase.Arrived? && now >= g.clock
      case Acquire(_) => phase.Waiting? && g.slots < c.cap
      case Leave(_) => phase.Waiting?
      case Return(_, _) => phase.Checking?
      case Release(_) => phase.Checked? && g.slots > 0
      case Record(_, now) => phase.Freed? && !phase.ok && now >= g.clock
      case Forget(_) => phase.Freed? && phase.ok
      case EndPause(_) => phase.Pausing?
  }

  function To(g: Guard, i: nat, phase: Phase): (r: Guard)
    requires i < |g.attempts|
  {
    g.(attempts := g.attempts[i := g.attempts[i].(phase := phase)])
  }

  function Next(c: Config, g: Guard, a: Action): (r: Guard)
    requires Enabled(c, g, a)
  {
    match a
    case Arrive(host) => g.(attempts := g.attempts + [Attempt(host, Arrived)])
    case Gate(i, now) =>
      var locked := LockedOut(g.failures, g.attempts[i].host, c.limits, now);
      To(g, i, if locked then Pausing(RefusedLockedOut) else Waiting(now)).(clock := now)
    case Acquire(i) => To(g, i, Checking(g.attempts[i].phase.gate)).(slots := g.slots + 1, asked := g.asked + {i})
    case Leave(i) => To(g, i, Finished(RefusedClientLeft))
    case Return(i, ok) => To(g, i, Checked(g.attempts[i].phase.gate, ok))
    case Release(i) => To(g, i, Freed(g.attempts[i].phase.gate, g.attempts[i].phase.ok)).(slots := g.slots - 1)
    case Record(i, now) =>
      var host := g.attempts[i].host;
      var (failures, lockedOutNow) := Recorded(g.failures, host, c.limits, now);
      To(g, i, Pausing(Rejected(lockedOutNow))).(failures := failures, clock := now,
          history := g.history + [Failed(host, now)])
    case Forget(i) =>
      var host := g.attempts[i].host;
      To(g, i, Finished(Accepted)).(failures := Forgotten(g.failures, host), history := g.history + [Succeeded(host)])
    case EndPause(i) => To(g, i, Finished(g.attempts[i].phase.outcome))
  }

  /** A finite interleaving: one state more than actions. */
  ghost predicate Behaviour(c: Config, states: seq<Guard>, actions: seq<Action>) {
    && |states| == |actions| + 1
    && forall n :: 0 <= n < |actions| ==>
        Enabled(c, states[n], actions[n]) && states[n + 1] == Next(c, states[n], actions[n])
  }

  // ----- counting attempts -----

  function Weigh(attempts: seq<Attempt>, weight: Attempt -> nat): (n: nat) {
    if attempts == [] then 0
    else Weigh(attempts[..|attempts| - 1], weight) + weight(attempts[|attempts| - 1])
  }

  lemma {:induction false} WeighUpdate(attempts: seq<Attempt>, i: nat, a: Attempt, weight: Attempt -> nat)
    requires i < |attempts|
    ensures Weigh(attempts[i := a], weight) == Weigh(attempts, weight) - weight(attempts[i]) + weight(a)
  {
    var front, last := attempts[..|attempts| - 1], |attempts| - 1;
    if i == last {
      assert attempts[i := a][..last] == front;
    } else {
      WeighUpdate(front, i, a, weight);
      assert attempts[i := a][..last] == front[i := a];
    }
  }

  lemma WeighAppend(attempts: seq<Attempt>, a: Attempt, weight: Attempt -> nat)
    ensures Weigh(attempts + [a], weight) == Weigh(attempts, weight) + weight(a)
  {
    assert (attempts + [a])[..|attempts|] == attempts;
  }

  lemma {:induction false} WeighAtLeast(attempts: seq<Attempt>, i: nat, weight: Attempt -> nat)
    requires i < |attempts|
    ensures Weigh(attempts, weight) >= weight(attempts[i])
  {
    if i == |attempts| - 1 {
    } else {
      WeighAtLeast(attempts[..|attempts| - 1], i, weight);
    }
  }

  lemma {:induction false} WeighFinds(attempts: seq<Attempt>, weight: Attempt -> nat) returns (i: nat)
    requires Weigh(attempts, weight) > 0
    ensures i < |attempts| && weight(attempts[i]) > 0
  {
    var last := |attempts| - 1;
    if weight(attempts[last]) > 0 { i := last; } else { i := WeighFinds(attempts[..last], weight); }
  }

  /** The slot is taken before the check and given back after it. */
  function Holding(a: Attempt): nat {
    if a.phase.Checking? || a.phase.Checked? then 1 else 0
  }

  function InFlight(a: Attempt): nat {
    if a.phase.Checking? then 1 else 0
  }

  /** Steps an attempt can still take. */
  function Left(a: Attempt): nat {
    match a.phase
    case Arrived => 6
    case Waiting(_) => 5
    case Checking(_) => 4
    case Checked(_, _) => 3
    case Freed(_, _) => 2
    case Pausing(_) => 1
    case Finished(_) => 0
  }

  // ----- the invariant of every interleaving -----

  predicate ReachedSource(phase: Phase) {
    match phase
    case Checking(_) => true
    case Checked(_, _) => true
    case Freed(_, _) => true
    case Pausing(outcome) => outcome.Rejected?
    case Finished(outcome) => outcome.Accepted? || outcome.Rejected?
    case _ => false
  }

  predicate Gated(phase: Phase) {
    phase.Waiting? || phase.Checking? || phase.Checked? || phase.Freed?
  }

  ghost predicate SlotsCounted(c: Config, g: Guard) {
    g.slots == Weigh(g.attempts, Holding) <= c.cap
  }

  ghost predicate AskedTracked(g: Guard) {
    && (forall i :: i in g.asked ==> i < |g.attempts|)
    && (forall i :: 0 <= i < |g.attempts| ==> (i in g.asked <==> ReachedSource(g.attempts[i].phase)))
    && (forall i :: 0 <= i < |g.attempts| && g.attempts[i].phase.Pausing? ==>
          g.attempts[i].phase.outcome.RefusedLockedOut? || g.attempts[i].phase.outcome.Rejected?)
  }

  ghost predicate ClockAhead(g: Guard) {
    && Timed(g.history, g.clock)
    && (forall i :: 0 <= i < |g.attempts| && Gated(g.attempts[i].phase) ==> g.attempts[i].phase.gate <= g.clock)
  }

  ghost predicate MapReplayed(c: Config, g: Guard) {
    g.failures == MapAfter(g.history, c.limits)
  }

  ghost predicate Inv(c: Config, g: Guard) {
    SlotsCounted(c, g) && AskedTracked(g) && ClockAhead(g) && MapReplayed(c, g)
  }

  /** A slot changes hands exactly as the attempt that steps comes to hold one or not. */
  lemma SlotsAfterStep(c: Config, g: Guard, a: Action)
    requires Enabled(c, g, a) && !a.Arrive?
    ensures Next(c, g, a).slots - g.slots == Holding(Next(c, g, a).attempts[a.i]) - Holding(g.attempts[a.i])
    ensures g.slots <= c.cap ==> Next(c, g, a).slots <= c.cap
  {
  }

  lemma StepKeepsSlots(c: Config, g: Guard, a: Action)
    requires SlotsCounted(c, g) && Enabled(c, g, a)
    ensures SlotsCounted(c, Next(c, g, a))
  {
    if a.Arrive? {
      WeighAppend(g.attempts, Attempt(a.host, Arrived), Holding);
    } else {
      var mover := Next(c, g, a).attempts[a.i];
      OthersAfterStep(c, g, a);
      SlotsAfterStep(c, g, a);
      WeighUpdate(g.attempts, a.i, mover, Holding);
    }
  }

  lemma StepKeepsAsked(c: Config, g: Guard, a: Action)
    requires AskedTracked(g) && Enabled(c, g, a)
    ensures AskedTracked(Next(c, g, a))
  {
    var after := Next(c, g, a);
    if !a.Arrive? {
      assert forall i :: 0 <= i < |g.attempts| && i != a.i ==> after.attempts[i] == g.attempts[i];
    }
  }

  lemma StepKeepsClock(c: Config, g: Guard, a: Action)
    requires ClockAhead(g) && Enabled(c, g, a)
    ensures ClockAhead(Next(c, g, a))
  {
  }

  lemma StepKeepsMap(c: Config, g: Guard, a: Action)
    requires MapReplayed(c, g) && Enabled(c, g, a)
    ensures MapReplayed(c, Next(c, g, a))
  {
    if a.Record? {
      MapAfterAppend(g.history, Failed(g.attempts[a.i].host, a.now), c.limits);
    } else if a.Forget? {
      MapAfterAppend(g.history, Succeeded(g.attempts[a.i].host), c.limits);
    }
  }

  lemma StepKeepsInv(c: Config, g: Guard, a: Action)
    requires Inv(c, g) && Enabled(c, g, a)
    ensures Inv(c, Next(c, g, a))
  {
    StepKeepsSlots(c, g, a);
    StepKeepsAsked(c, g, a);
    StepKeepsClock(c, g, a);
    StepKeepsMap(c, g, a);
  }

  lemma {:induction false} BehaviourKeepsInv(c: Config, states: seq<Guard>, actions: seq<Action>, n: nat)
    requires Behaviour(c, states, actions) && Inv(c, states[0]) && n < |states|
    ensures Inv(c, states[n])
  {
    if n == 0 {
    } else {
      BehaviourKeepsInv(c, states, actions, n - 1);
      StepKeepsInv(c, states[n - 1], actions[n - 1]);
    }
  }

  lemma {:induction false} InFlightHolds(attempts: seq<Attempt>)
    ensures Weigh(attempts, InFlight) <= Weigh(attempts, Holding)
  {
    if attempts == [] {
    } else {
      InFlightHolds(attempts[..|attempts| - 1]);
    }
  }

  /** In every state of every interleaving the attempts between taking and returning a slot are
      exactly the slots held, so the checks in flight never exceed the cap; and an attempt refused at
      the gate, or that left while waiting, never had its password looked at. */
  lemma ChecksAreCappedAndRefusalsUnchecked(c: Config, clock: int, states: seq<Guard>, actions: seq<Action>, n: nat)
    requires Behaviour(c, states, actions) && states[0] == Initial(clock) && n < |states|
    ensures var g := states[n];
            && Weigh(g.attempts, InFlight) <= Weigh(g.attempts, Holding) == g.slots <= c.cap
            && forall i :: 0 <= i < |g.attempts| && (g.attempts[i].phase.Pausing? || g.attempts[i].phase.Finished?) ==>
                 (i in g.asked <==> g.attempts[i].phase.outcome.Accepted? || g.attempts[i].phase.outcome.Rejected?)
  {
    BehaviourKeepsInv(c, states, actions, n);
    InFlightHolds(states[n].attempts);
  }

  /** As shipped, no more than two checks are ever in flight. */
  lemma TwoChecksAtATime(clock: int, states: seq<Guard>, actions: seq<Action>, n: nat)
    requires Behaviour(DEFAULT_CONFIG, states, actions) && states[0] == Initial(clock) && n < |states|
    ensures Weigh(states[n].attempts, InFlight) <= 2
  {
    ChecksAreCappedAndRefusalsUnchecked(DEFAULT_CONFIG, clock, states, actions, n);
  }

  // ----- outcomes -----

  /** Among the first n actions: the gate found this attempt's host locked out. */
  ghost predicate GateFoundLocked(c: Config, states: seq<Guard>, actions: seq<Action>, n: nat, i: nat)
    requires Behaviour(c, states, actions) && n <= |actions|
  {
    exists m :: 0 <= m < n && actions[m].Gate? && actions[m].i == i
      && LockedOut(states[m].failures, states[m].attempts[i].host, c.limits, actions[m].now)
  }

  ghost predicate Happened(actions: seq<Action>, n: nat, a: Action)
    requires n <= |actions|
  {
    exists m :: 0 <= m < n && actions[m] == a
  }

  /** What must have happened to an attempt for it to be where it is. */
  ghost predicate Earned(c: Config, states: seq<Guard>, actions: seq<Action>, n: nat, i: nat)
    requires Behaviour(c, states, actions) && n <= |actions| && i < |states[n].attempts|
  {
    match states[n].attempts[i].phase
    case Checked(_, ok) => Happened(actions, n, Return(i, ok))
    case Freed(_, ok) => Happened(actions, n, Return(i, ok))
    case Pausing(outcome) => OutcomeEarned(c, states, actions, n, i, outcome)
    case Finished(outcome) => OutcomeEarned(c, states, actions, n, i, outcome)
    case _ => true
  }

  ghost predicate OutcomeEarned(c: Config, states: seq<Guard>, actions: seq<Action>, n: nat, i: nat, outcome: Outcome)
    requires Behaviour(c, states, actions) && n <= |actions|
  {
    match outcome
    case Accepted => Happened(actions, n, Return(i, true))
    case Rejected(_) => Happened(actions, n, Return(i, false))
    case RefusedLockedOut => GateFoundLocked(c, states, actions, n, i)
    case RefusedClientLeft => Happened(actions, n, Leave(i))
  }

  lemma EarnedStays(c: Config, states: seq<Guard>, actions: seq<Action>, n: nat, i: nat, outcome: Outcome, ok: bool)
    requires Behaviour(c, states, actions) && n < |actions|
    ensures OutcomeEarned(c, states, actions, n, i, outcome) ==> OutcomeEarned(c, states, actions, n + 1, i, outcome)
    ensures Happened(actions, n, Return(i, ok)) ==> Happened(actions, n + 1, Return(i, ok))
  {
    if OutcomeEarned(c, states, actions, n, i, outcome) && outcome.RefusedLockedOut? {
      assert GateFoundLocked(c, states, actions, n + 1, i);
    }
  }

  lemma StepEarns(c: Config, states: seq<Guard>, actions: seq<Action>, n: nat, i: nat)
    requires Behaviour(c, states, actions) && n < |actions| && i < |states[n + 1].attempts|
    requires i < |states[n].attempts| ==> Earned(c, states, actions, n, i)
    ensures Earned(c, states, actions, n + 1, i)
  {
    var before, a, after := states[n], actions[n], states[n + 1];
    assert after == Next(c, before, a);
    assert Happened(actions, n + 1, a);
    if i < |before.attempts| {
      var was := before.attempts[i].phase;
      EarnedStays(c, states, actions, n, i, if was.Pausing? || was.Finished? then was.outcome else Accepted,
                  if was.Checked? || was.Freed? then was.ok else true);
      if a.Gate? && a.i == i && after.attempts[i].phase.Pausing? {
        assert GateFoundLocked(c, states, actions, n + 1, i);
      }
    }
  }

  /** In every interleaving an attempt is accepted only if the source accepted its password, rejected
      only if the source refused it, and turned away unchecked only if its gate found the host locked
      out or its client left. */
  lemma {:induction false} OutcomesAreEarned(c: Config, clock: int, states: seq<Guard>, actions: seq<Action>,
      n: nat, i: nat)
    requires Behaviour(c, states, actions) && states[0] == Initial(clock)
    requires n <= |actions| && i < |states[n].attempts|
    ensures Earned(c, states, actions, n, i)
  {
    if n == 0 {
    } else {
      if i < |states[n - 1].attempts| { OutcomesAreEarned(c, clock, states, actions, n - 1, i); }
      StepEarns(c, states, actions, n - 1, i);
    }
  }

  /** What an attempt came to never changes: what it paused with, the announcement included, is what it
      finishes with and returns. */
  lemma {:induction false} OutcomesAreFinal(c: Config, states: seq<Guard>, actions: seq<Action>, m: nat, n: nat,
      i: nat)
    requires Behaviour(c, states, actions) && m <= n <= |actions|
    requires i < |states[m].attempts| && OutcomeOf(states[m].attempts[i].phase).Some?
    ensures i < |states[n].attempts|
    ensures OutcomeOf(states[n].attempts[i].phase) == OutcomeOf(states[m].attempts[i].phase)
    ensures states[m].attempts[i].phase.Finished? ==> states[n].attempts[i] == states[m].attempts[i]
  {
    if m == n {
    } else {
      OutcomesAreFinal(c, states, actions, m, n - 1, i);
      assert states[n] == Next(c, states[n - 1], actions[n - 1]);
    }
  }

  function OutcomeOf(phase: Phase): (o: Option<Outcome>) {
    match phase
    case Pausing(outcome) => Some(outcome)
    case Finished(outcome) => Some(outcome)
    case _ => None
  }

  function CameTo(host: Host, accepted: bool): (w: Attempt -> nat) {
    (a: Attempt) =>
      if a.host == host && OutcomeOf(a.phase).Some?
          && (if accepted then OutcomeOf(a.phase).value.Accepted? else OutcomeOf(a.phase).value.Rejected?)
      then 1 else 0
  }

  /** How many successes, or failures, of a host a history holds. */
  function Tally(history: seq<Event>, host: Host, accepted: bool): (n: nat) {
    if history == [] then 0
    else
      var last := history[|history| - 1];
      Tally(history[..|history| - 1], host, accepted)
      + if last.host == host && last.Succeeded? == accepted then 1 else 0
  }

  lemma HistoryAfterStep(c: Config, g: Guard, a: Action)
    requires Enabled(c, g, a)
    ensures Next(c, g, a).history ==
            if a.Record? then g.history + [Failed(g.attempts[a.i].host, a.now)]
            else if a.Forget? then g.history + [Succeeded(g.attempts[a.i].host)]
            else g.history
    ensures a.Record? ==> Next(c, g, a).clock == a.now
  {
  }

  lemma VerdictAfterStep(c: Config, g: Guard, a: Action, host: Host, accepted: bool)
    requires Enabled(c, g, a) && !a.Arrive?
    ensures var before, after := g.attempts[a.i], Next(c, g, a).attempts[a.i];
            CameTo(host, accepted)(after) == CameTo(host, accepted)(before)
              + if Settles(a, accepted) && before.host == host then 1 else 0
  {
  }

  lemma TallyAppend(history: seq<Event>, e: Event, host: Host, accepted: bool)
    ensures Tally(history + [e], host, accepted) == Tally(history, host, accepted)
              + if e.host == host && e.Succeeded? == accepted then 1 else 0
  {
    assert (history + [e])[..|history|] == history;
  }

  lemma StepIsRecorded(c: Config, g: Guard, a: Action, host: Host, accepted: bool)
    requires Enabled(c, g, a) && Tally(g.history, host, accepted) == Weigh(g.attempts, CameTo(host, accepted))
    ensures var after := Next(c, g, a);
            Tally(after.history, host, accepted) == Weigh(after.attempts, CameTo(host, accepted))
  {
    TallyAfterStep(c, g, a, host, accepted);
    CameToAfterStep(c, g, a, host, accepted);
  }

  lemma TallyAfterStep(c: Config, g: Guard, a: Action, host: Host, accepted: bool)
    requires Enabled(c, g, a)
    ensures Tally(Next(c, g, a).history, host, accepted) == Tally(g.history, host, accepted)
              + if Settles(a, accepted) && g.attempts[a.i].host == host then 1 else 0
  {
    HistoryAfterStep(c, g, a);
    if a.Record? { TallyAppend(g.history, Failed(g.attempts[a.i].host, a.now), host, accepted); }
    if a.Forget? { TallyAppend(g.history, Succeeded(g.attempts[a.i].host), host, accepted); }
  }

  lemma CameToAfterStep(c: Config, g: Guard, a: Action, host: Host, accepted: bool)
    requires Enabled(c, g, a)
    ensures Weigh(Next(c, g, a).attempts, CameTo(host, accepted)) == Weigh(g.attempts, CameTo(host, accepted))
              + if Settles(a, accepted) && g.attempts[a.i].host == host then 1 else 0
  {
    if a.Arrive? {
      WeighAppend(g.attempts, Attempt(a.host, Arrived), CameTo(host, accepted));
    } else {
      var mover := Next(c, g, a).attempts[a.i];
      OthersAfterStep(c, g, a);
      VerdictAfterStep(c, g, a, host, accepted);
      WeighUpdate(g.attempts, a.i, mover, CameTo(host, accepted));
    }
  }

  /** The steps that end an attempt the source accepted, or refused. */
  predicate Settles(a: Action, accepted: bool) {
    if accepted then a.Forget? else a.Record?
  }

  /** Every password the source accepted is one success in its host's history, every one it refused is one
      failure, and nothing else is: in every interleaving the history has as many of each as there are
      attempts that came to it. */
  lemma {:induction false} EveryVerdictIsRecorded(c: Config, clock: int, states: seq<Guard>, actions: seq<Action>,
      host: Host, accepted: bool, n: nat)
    requires Behaviour(c, states, actions) && states[0] == Initial(clock) && n < |states|
    ensures Tally(states[n].history, host, accepted) == Weigh(states[n].attempts, CameTo(host, accepted))
  {
    if n == 0 {
    } else {
      EveryVerdictIsRecorded(c, clock, states, actions, host, accepted, n - 1);
      assert states[n] == Next(c, states[n - 1], actions[n - 1]);
      StepIsRecorded(c, states[n - 1], actions[n - 1], host, accepted);
    }
  }

  // ----- after a lockout starts -----

  ghost function WaitingOf(host: Host): (w: Attempt -> nat) {
    (a: Attempt) => if a.host == host && a.phase.Waiting? then 1 else 0
  }

  /** How many of the first n actions start a check for this host. */
  ghost function ChecksStarted(c: Config, states: seq<Guard>, actions: seq<Action>, host: Host, n: nat): (k: nat)
    requires Behaviour(c, states, actions) && n <= |actions|
  {
    if n == 0 then 0
    else ChecksStarted(c, states, actions, host, n - 1)
         + if actions[n - 1].Acquire? && states[n - 1].attempts[actions[n - 1].i].host == host then 1 else 0
  }

  lemma LockoutAdmitsNoNewWaiters(c: Config, g: Guard, a: Action, host: Host)
    requires Enabled(c, g, a)
    requires LockedOut(Next(c, g, a).failures, host, c.limits, Next(c, g, a).clock)
    requires LockedOut(g.failures, host, c.limits, g.clock)
    ensures Weigh(Next(c, g, a).attempts, WaitingOf(host))
            + (if a.Acquire? && g.attempts[a.i].host == host then 1 else 0)
            <= Weigh(g.attempts, WaitingOf(host))
  {
    if a.Arrive? {
      WeighAppend(g.attempts, Attempt(a.host, Arrived), WaitingOf(host));
    } else {
      OthersAfterStep(c, g, a);
      WeighUpdate(g.attempts, a.i, Next(c, g, a).attempts[a.i], WaitingOf(host));
    }
  }

  /** While a lockout runs, the checks started for that host are at most its attempts that were
      already past the gate and waiting when it began. */
  lemma {:induction false} LockoutAdmitsOnlyThoseWaiting(c: Config, states: seq<Guard>, actions: seq<Action>,
      host: Host, n: nat)
    requires Behaviour(c, states, actions) && n <= |actions|
    requires forall m :: 0 <= m <= n ==> LockedOut(states[m].failures, host, c.limits, states[m].clock)
    ensures ChecksStarted(c, states, actions, host, n) + Weigh(states[n].attempts, WaitingOf(host))
            <= Weigh(states[0].attempts, WaitingOf(host))
  {
    if n == 0 {
    } else {
      LockoutAdmitsOnlyThoseWaiting(c, states, actions, host, n - 1);
      assert states[n] == Next(c, states[n - 1], actions[n - 1]);
      assert LockedOut(states[n].failures, host, c.limits, states[n].clock);
      LockoutAdmitsNoNewWaiters(c, states[n - 1], actions[n - 1], host);
    }
  }

  // ----- progress -----

  /** While any attempt is unfinished some attempt can take a step, without waiting for the clock or
      for any client to leave; a check in flight counts as able to return. */
  lemma SomeAttemptCanStep(c: Config, g: Guard) returns (a: Action)
    requires Inv(c, g) && c.cap >= 1 && Weigh(g.attempts, Left) > 0
    ensures Enabled(c, g, a) && !a.Arrive? && !a.Leave?
  {
    var i := WeighFinds(g.attempts, Left);
    match g.attempts[i].phase {
      case Arrived => a := Gate(i, g.clock);
      case Waiting(_) =>
        if g.slots < c.cap {
          a := Acquire(i);
        } else {
          var j := WeighFinds(g.attempts, Holding);
          a := if g.attempts[j].phase.Checking? then Return(j, true) else Release(j);
        }
      case Checking(_) => a := Return(i, true);
      case Checked(_, _) =>
        WeighAtLeast(g.attempts, i, Holding);
        a := Release(i);
      case Freed(_, ok) => a := if ok then Forget(i) else Record(i, g.clock);
      case Pausing(_) => a := EndPause(i);
      case Finished(_) => assert false;
    }
  }

  lemma StepUsesUp(c: Config, g: Guard, a: Action)
    requires Enabled(c, g, a) && !a.Arrive?
    ensures Weigh(Next(c, g, a).attempts, Left) < Weigh(g.attempts, Left)
  {
    OthersAfterStep(c, g, a);
    WeighUpdate(g.attempts, a.i, Next(c, g, a).attempts[a.i], Left);
  }

  /** Once clients stop arriving, every interleaving is over within the steps left. */
  lemma {:induction false} InterleavingsEnd(c: Config, states: seq<Guard>, actions: seq<Action>, n: nat)
    requires Behaviour(c, states, actions) && n <= |actions|
    requires forall m :: 0 <= m < |actions| ==> !actions[m].Arrive?
    ensures n + Weigh(states[n].attempts, Left) <= Weigh(states[0].attempts, Left)
  {
    if n == 0 {
    } else {
      InterleavingsEnd(c, states, actions, n - 1);
      StepUsesUp(c, states[n - 1], actions[n - 1]);
    }
  }

  // ----- the rate bound -----

  ghost function GatedOf(host: Host): (w: Attempt -> nat) {
    (a: Attempt) => if a.host == host && Gated(a.phase) then 1 else 0
  }

  /** How many attempts of this host are past the gate and have yet to be recorded or forgotten. */
  ghost function Overlapping(g: Guard, host: Host): (n: nat) {
    Weigh(g.attempts, GatedOf(host))
  }

  /** The limits a host is held to when at most m of its attempts overlap: each attempt but one that is
      already past the gate can still fail once the run has reached the limit. */
  function Widened(limits: Limits, m: nat): (r: Limits) {
    limits.(failures := limits.failures + m - 1)
  }

  ghost predicate NeverOver(ts: seq<int>, limits: Limits) {
    forall k :: 0 <= k <= |ts| ==> RunLength(ts[..k], limits.lockout) <= limits.failures
  }

  /** The next failure starts a new run, or those past the gate cannot together take this one over. */
  ghost predicate Contained(ts: seq<int>, clock: int, overlapping: nat, wide: Limits) {
    || ts == []
    || clock - ts[|ts| - 1] >= wide.lockout
    || RunLength(ts, wide.lockout) + overlapping <= wide.failures
  }

  ghost predicate Paced(c: Config, g: Guard, host: Host, m: nat) {
    && NeverOver(Since(g.history, host), Widened(c.limits, m))
    && Contained(Since(g.history, host), g.clock, Overlapping(g, host), Widened(c.limits, m))
  }

  lemma FailureStaysUnder(ts: seq<int>, clock: int, now: int, overlapping: nat, wide: Limits)
    requires Sensible(wide) && NeverOver(ts, wide) && clock <= now
    requires 1 <= overlapping <= wide.failures && Contained(ts, clock, overlapping, wide)
    ensures NeverOver(ts + [now], wide) && Contained(ts + [now], now, overlapping - 1, wide)
  {
    var next := ts + [now];
    RunLengthAfter(ts, now, wide.lockout);
    forall k | 0 <= k <= |next|
      ensures RunLength(next[..k], wide.lockout) <= wide.failures
    {
      if k <= |ts| { assert next[..k] == ts[..k]; } else { assert next[..k] == next; }
      assert ts[..|ts|] == ts;
    }
  }

  lemma SinceAfterStep(c: Config, g: Guard, a: Action, host: Host)
    requires Enabled(c, g, a)
    ensures Since(Next(c, g, a).history, host) ==
            if a.Record? && g.attempts[a.i].host == host then Since(g.history, host) + [a.now]
            else if a.Forget? && g.attempts[a.i].host == host then []
            else Since(g.history, host)
  {
    var after := Next(c, g, a);
    if a.Record? || a.Forget? {
      assert after.history[..|g.history|] == g.history;
    }
  }

  /** What a step does to the attempt that takes it. */
  lemma MoverAfterStep(c: Config, g: Guard, a: Action)
    requires Enabled(c, g, a) && !a.Arrive?
    ensures var before, after := g.attempts[a.i], Next(c, g, a).attempts[a.i];
            && after.host == before.host
            && (Gated(after.phase) ==> Gated(before.phase) || a.Gate?)
            && (a.Gate? ==> !Gated(before.phase))
            && (a.Gate? ==> (Gated(after.phase) <==> !LockedOut(g.failures, before.host, c.limits, a.now)))
            && (a.Record? || a.Forget? ==> Gated(before.phase) && !Gated(after.phase))
  {
  }

  lemma OthersAfterStep(c: Config, g: Guard, a: Action)
    requires Enabled(c, g, a) && !a.Arrive?
    ensures Next(c, g, a).attempts == g.attempts[a.i := Next(c, g, a).attempts[a.i]]
  {
  }

  /** Only passing the gate adds to the overlap; recording and forgetting take away from it. */
  lemma OverlapAfterStep(c: Config, g: Guard, a: Action, host: Host)
    requires Enabled(c, g, a)
    ensures var after := Overlapping(Next(c, g, a), host);
            && (a.Gate? ==> after <= Overlapping(g, host) + 1)
            && (!a.Gate? ==> after <= Overlapping(g, host))
            && (a.Gate? && (g.attempts[a.i].host != host || LockedOut(g.failures, host, c.limits, a.now)) ==>
                  after == Overlapping(g, host))
            && ((a.Record? || a.Forget?) && g.attempts[a.i].host == host ==> after == Overlapping(g, host) - 1)
  {
    if a.Arrive? {
      WeighAppend(g.attempts, Attempt(a.host, Arrived), GatedOf(host));
    } else {
      var mover := Next(c, g, a).attempts[a.i];
      MoverAfterStep(c, g, a);
      OthersAfterStep(c, g, a);
      WeighUpdate(g.attempts, a.i, mover, GatedOf(host));
    }
  }

  /** An attempt the gate lets through finds a run below the limit, or one a lockout old. */
  lemma GateContains(c: Config, g: Guard, host: Host, now: int, m: nat, overlapping: nat)
    requires Usable(c) && Inv(c, g) && now >= g.clock && 1 <= overlapping <= m
    requires !LockedOut(g.failures, host, c.limits, now)
    ensures Contained(Since(g.history, host), now, overlapping, Widened(c.limits, m))
  {
    PrunedMapAnswersAsHistory(g.history, host, c.limits, g.clock, now);
  }

  lemma StepKeepsUnder(c: Config, g: Guard, a: Action, host: Host, m: nat)
    requires Usable(c) && Inv(c, g) && Enabled(c, g, a) && m >= 1
    requires Paced(c, g, host, m) && Overlapping(g, host) <= m
    ensures NeverOver(Since(Next(c, g, a).history, host), Widened(c.limits, m))
    ensures a.Record? ==> Paced(c, Next(c, g, a), host, m)
  {
    SinceAfterStep(c, g, a, host);
    OverlapAfterStep(c, g, a, host);
    if a.Record? && g.attempts[a.i].host == host {
      WeighAtLeast(g.attempts, a.i, GatedOf(host));
      FailureStaysUnder(Since(g.history, host), g.clock, a.now, Overlapping(g, host), Widened(c.limits, m));
    }
  }

  lemma StepKeepsPace(c: Config, g: Guard, a: Action, host: Host, m: nat)
    requires Usable(c) && Inv(c, g) && Enabled(c, g, a) && m >= 1
    requires Paced(c, g, host, m) && Overlapping(g, host) <= m && Overlapping(Next(c, g, a), host) <= m
    ensures Paced(c, Next(c, g, a), host, m)
  {
    StepKeepsUnder(c, g, a, host, m);
    SinceAfterStep(c, g, a, host);
    OverlapAfterStep(c, g, a, host);
    if a.Gate? && g.attempts[a.i].host == host && !LockedOut(g.failures, host, c.limits, a.now) {
      WeighAtLeast(Next(c, g, a).attempts, a.i, GatedOf(host));
      GateContains(c, g, host, a.now, m, Overlapping(Next(c, g, a), host));
    }
  }

  lemma {:induction false} BehaviourKeepsPace(c: Config, clock: int, states: seq<Guard>, actions: seq<Action>,
      host: Host, m: nat, n: nat)
    requires Usable(c) && Behaviour(c, states, actions) && states[0] == Initial(clock) && n < |states| && m >= 1
    requires forall k :: 0 <= k <= n ==> Overlapping(states[k], host) <= m
    ensures Paced(c, states[n], host, m)
  {
    if n == 0 {
    } else {
      BehaviourKeepsPace(c, clock, states, actions, host, m, n - 1);
      BehaviourKeepsInv(c, states, actions, n - 1);
      assert states[n] == Next(c, states[n - 1], actions[n - 1]);
      StepKeepsPace(c, states[n - 1], actions[n - 1], host, m);
    }
  }

  lemma BehaviourStaysUnder(c: Config, clock: int, states: seq<Guard>, actions: seq<Action>, host: Host, m: nat,
      n: nat)
    requires Usable(c) && Behaviour(c, states, actions) && states[0] == Initial(clock) && n < |states| && m >= 1
    requires forall k :: 0 <= k < n ==> Overlapping(states[k], host) <= m
    ensures NeverOver(Since(states[n].history, host), Widened(c.limits, m))
  {
    if n > 0 {
      BehaviourKeepsPace(c, clock, states, actions, host, m, n - 1);
      BehaviourKeepsInv(c, states, actions, n - 1);
      StepKeepsUnder(c, states[n - 1], actions[n - 1], host, m);
    }
  }

  lemma {:induction false} SinceInOrder(history: seq<Event>, host: Host, clock: int)
    requires Timed(history, clock)
    ensures forall i, j :: 0 <= i < j < |Since(history, host)| ==> Since(history, host)[i] <= Since(history, host)[j]
    ensures forall i :: 0 <= i < |Since(history, host)| ==> Since(history, host)[i] <= clock
  {
    if history == [] {
    } else {
      var front, last := history[..|history| - 1], history[|history| - 1];
      SinceInOrder(front, host, if last.Failed? then last.at else clock);
    }
  }

  lemma ShortRunHasWideGap(ts: seq<int>, n: nat, lockout: int)
    requires RunLength(ts, lockout) <= n < |ts|
    requires forall a, b :: 0 <= a < b < |ts| ==> ts[a] <= ts[b]
    ensures ts[|ts| - 1] - ts[|ts| - 1 - n] >= lockout
  {
    LongerIsNoRun(ts, n + 1, lockout);
    var i, j :| |ts| - 1 - n <= i && j == i + 1 && j < |ts| && ts[j] - ts[i] >= lockout;
    assert i == |ts| - 1 - n || ts[|ts| - 1 - n] <= ts[i];
    assert j == |ts| - 1 || ts[j] <= ts[|ts| - 1];
  }

  /** One failure more than the limit cannot fit inside one lockout. */
  lemma TooManyFailuresSpanALockout(ts: seq<int>, j: nat, limits: Limits)
    requires Sensible(limits) && NeverOver(ts, limits) && j + limits.failures < |ts|
    requires forall a, b :: 0 <= a < b < |ts| ==> ts[a] <= ts[b]
    ensures ts[j + limits.failures] - ts[j] >= limits.lockout
  {
    ShortRunHasWideGap(ts[..j + limits.failures + 1], limits.failures, limits.lockout);
  }

  lemma {:induction false} FailuresTakeTime(ts: seq<int>, k: nat, limits: Limits)
    requires Sensible(limits) && NeverOver(ts, limits) && k * limits.failures < |ts|
    requires forall a, b :: 0 <= a < b < |ts| ==> ts[a] <= ts[b]
    ensures ts[k * limits.failures] - ts[0] >= k * limits.lockout
  {
    if k == 0 {
    } else {
      assert (k - 1) * limits.failures + limits.failures == k * limits.failures;
      FailuresTakeTime(ts, k - 1, limits);
      TooManyFailuresSpanALockout(ts, (k - 1) * limits.failures, limits);
    }
  }

  /** Whatever other hosts do, a host that never has more than m attempts past the gate at once cannot
      fail faster than limit + m - 1 times per lockout: any limit + m consecutive failures span a
      lockout, and n of them take at least floor((n - 1) / (limit + m - 1)) lockouts. Attempts that do
      not overlap are the case m == 1. */
  lemma GuessingIsRateLimited(c: Config, clock: int, states: seq<Guard>, actions: seq<Action>, host: Host, m: nat,
      n: nat)
    requires Usable(c) && Behaviour(c, states, actions) && states[0] == Initial(clock) && n < |states| && m >= 1
    requires forall k :: 0 <= k < n ==> Overlapping(states[k], host) <= m
    ensures var ts, most := Since(states[n].history, host), c.limits.failures + m - 1;
            && (forall j :: 0 <= j && j + most < |ts| ==> ts[j + most] - ts[j] >= c.limits.lockout)
            && (ts != [] ==> ts[|ts| - 1] - ts[0] >= ((|ts| - 1) / most) * c.limits.lockout)
  {
    BehaviourStaysUnder(c, clock, states, actions, host, m, n);
    BehaviourKeepsInv(c, states, actions, n);
    SinceInOrder(states[n].history, host, states[n].clock);
    PacedFailuresSpread(Since(states[n].history, host), Widened(c.limits, m));
  }

  lemma PacedFailuresSpread(ts: seq<int>, limits: Limits)
    requires Sensible(limits) && NeverOver(ts, limits)
    requires forall a, b :: 0 <= a < b < |ts| ==> ts[a] <= ts[b]
    ensures forall j :: 0 <= j && j + limits.failures < |ts| ==> ts[j + limits.failures] - ts[j] >= limits.lockout
    ensures ts != [] ==> ts[|ts| - 1] - ts[0] >= ((|ts| - 1) / limits.failures) * limits.lockout
  {
    forall j | 0 <= j && j + limits.failures < |ts|
      ensures ts[j + limits.failures] - ts[j] >= limits.lockout
    {
      TooManyFailuresSpanALockout(ts, j, limits);
    }
    if ts != [] {
      var k := (|ts| - 1) / limits.failures;
      assert k * limits.failures <= |ts| - 1;
      FailuresTakeTime(ts, k, limits);
    }
  }

  /** As shipped, a client whose attempts do not overlap gets five failures a minute, and each further
      attempt it keeps past the gate is one more. */
  lemma GuessesAMinute(clock: int, states: seq<Guard>, actions: seq<Action>, host: Host, m: nat, n: nat)
    requires Behaviour(DEFAULT_CONFIG, states, actions) && states[0] == Initial(clock) && n < |states| && m >= 1
    requires forall k :: 0 <= k < n ==> Overlapping(states[k], host) <= m
    ensures var ts := Since(states[n].history, host);
            ts != [] ==> ts[|ts| - 1] - ts[0] >= ((|ts| - 1) / (4 + m)) * 60_000_000_000
  {
    GuessingIsRateLimited(DEFAULT_CONFIG, clock, states, actions, host, m, n);
  }

  // ----- the bound is met -----

  /** A state some behaviour reaches in which no more than m attempts of the host ever overlap. */
  ghost predicate Reached(c: Config, clock: int, host: Host, m: nat, g: Guard) {
    exists states, actions :: ReachedBy(c, clock, host, m, g, states, actions)
  }

  ghost predicate ReachedBy(c: Config, clock: int, host: Host, m: nat, g: Guard, states: seq<Guard>,
                            actions: seq<Action>)
  {
    && Behaviour(c, states, actions) && states[0] == Initial(clock) && states[|actions|] == g
    && forall k :: 0 <= k < |states| ==> Overlapping(states[k], host) <= m
  }

  lemma StepReaches(c: Config, clock: int, host: Host, m: nat, g: Guard, a: Action)
    requires Reached(c, clock, host, m, g) && Enabled(c, g, a) && Overlapping(Next(c, g, a), host) <= m
    ensures Reached(c, clock, host, m, Next(c, g, a))
  {
    var states, actions :| ReachedBy(c, clock, host, m, g, states, actions);
    var (longer, more) := (states + [Next(c, g, a)], actions + [a]);
    assert forall n :: 0 <= n < |actions| ==> longer[n] == states[n] && more[n] == actions[n];
    assert longer[|actions|] == g;
    assert ReachedBy(c, clock, host, m, Next(c, g, a), longer, more);
  }

  lemma ReachedKeepsInv(c: Config, clock: int, host: Host, m: nat, g: Guard)
    requires Reached(c, clock, host, m, g)
    ensures Inv(c, g)
  {
    var states, actions :| ReachedBy(c, clock, host, m, g, states, actions);
    BehaviourKeepsInv(c, states, actions, |actions|);
  }

  /** The same instant n times over. */
  function Repeated(at: int, n: nat): (ts: seq<int>) {
    seq(n, _ => at)
  }

  /** j attempts of the host wait, and n have failed, all at the one instant `clock`. */
  ghost predicate Burst(c: Config, clock: int, host: Host, m: nat, j: nat, n: nat, g: Guard) {
    && Reached(c, clock, host, m, g)
    && g.clock == clock && g.slots == 0
    && Overlapping(g, host) == j && Weigh(g.attempts, WaitingOf(host)) == j
    && Since(g.history, host) == Repeated(clock, n)
  }

  lemma {:induction false} InstantRunLength(clock: int, n: nat, lockout: int)
    requires lockout > 0
    ensures RunLength(Repeated(clock, n), lockout) == n
  {
    if n <= 1 {
    } else {
      assert Repeated(clock, n)[..n - 1] == Repeated(clock, n - 1);
      InstantRunLength(clock, n - 1, lockout);
    }
  }

  lemma ArrivalReaches(c: Config, clock: int, host: Host, m: nat, g: Guard)
    requires Reached(c, clock, host, m, g)
    ensures var arrived := Next(c, g, Arrive(host));
            && Reached(c, clock, host, m, arrived)
            && Overlapping(arrived, host) == Overlapping(g, host)
            && Weigh(arrived.attempts, WaitingOf(host)) == Weigh(g.attempts, WaitingOf(host))
  {
    WithinReach(c, clock, host, m, g);
    WeighAppend(g.attempts, Attempt(host, Arrived), GatedOf(host));
    WeighAppend(g.attempts, Attempt(host, Arrived), WaitingOf(host));
    StepReaches(c, clock, host, m, g, Arrive(host));
  }

  lemma BelowLimitIsFree(c: Config, clock: int, host: Host, m: nat, j: nat, n: nat, g: Guard)
    requires Usable(c) && Burst(c, clock, host, m, j, n, g) && n < c.limits.failures
    ensures !LockedOut(g.failures, host, c.limits, clock)
  {
    ReachedKeepsInv(c, clock, host, m, g);
    InstantRunLength(clock, n, c.limits.lockout);
    PrunedMapAnswersAsHistory(g.history, host, c.limits, clock, clock);
  }

  /** While the run is below the limit another attempt passes the gate. */
  lemma OneMoreWaits(c: Config, clock: int, host: Host, m: nat, j: nat, n: nat, g: Guard) returns (after: Guard)
    requires Usable(c) && Burst(c, clock, host, m, j, n, g) && j < m && n < c.limits.failures
    ensures Burst(c, clock, host, m, j + 1, n, after)
  {
    BelowLimitIsFree(c, clock, host, m, j, n, g);
    ArrivalReaches(c, clock, host, m, g);
    var i, arrived := |g.attempts|, Next(c, g, Arrive(host));
    after := Next(c, arrived, Gate(i, clock));
    WeighUpdate(arrived.attempts, i, after.attempts[i], GatedOf(host));
    WeighUpdate(arrived.attempts, i, after.attempts[i], WaitingOf(host));
    StepReaches(c, clock, host, m, arrived, Gate(i, clock));
  }

  lemma SameOverlap(g: Guard, i: nat, a: Attempt, host: Host)
    requires i < |g.attempts| && a.host == g.attempts[i].host && Gated(a.phase) == Gated(g.attempts[i].phase)
    ensures Weigh(g.attempts[i := a], GatedOf(host)) == Overlapping(g, host)
  {
    WeighUpdate(g.attempts, i, a, GatedOf(host));
  }

  /** A waiting attempt takes a free slot, is refused by the source, and gives the slot back. */
  lemma CheckFails(c: Config, clock: int, host: Host, m: nat, i: nat, g: Guard) returns (freed: Guard)
    requires Reached(c, clock, host, m, g) && c.cap >= 1 && g.slots == 0
    requires i < |g.attempts| && g.attempts[i].phase.Waiting?
    ensures Reached(c, clock, host, m, freed)
    ensures freed == To(g, i, Freed(g.attempts[i].phase.gate, false)).(asked := freed.asked)
  {
    WithinReach(c, clock, host, m, g);
    var checking := Next(c, g, Acquire(i));
    SameOverlap(g, i, checking.attempts[i], host);
    StepReaches(c, clock, host, m, g, Acquire(i));
    var checked := Next(c, checking, Return(i, false));
    SameOverlap(checking, i, checked.attempts[i], host);
    StepReaches(c, clock, host, m, checking, Return(i, false));
    freed := Next(c, checked, Release(i));
    SameOverlap(checked, i, freed.attempts[i], host);
    StepReaches(c, clock, host, m, checked, Release(i));
    assert freed.attempts == g.attempts[i := freed.attempts[i]];
  }

  lemma WithinReach(c: Config, clock: int, host: Host, m: nat, g: Guard)
    requires Reached(c, clock, host, m, g)
    ensures Overlapping(g, host) <= m
  {
    var states, actions :| ReachedBy(c, clock, host, m, g, states, actions);
    assert Overlapping(states[|actions|], host) <= m;
  }

  /** Whatever the run has come to, a waiting attempt can still fail. */
  lemma OneMoreFails(c: Config, clock: int, host: Host, m: nat, j: nat, n: nat, g: Guard) returns (after: Guard)
    requires Usable(c) && Burst(c, clock, host, m, j, n, g) && j > 0
    ensures Burst(c, clock, host, m, j - 1, n + 1, after)
  {
    WithinReach(c, clock, host, m, g);
    var i := WeighFinds(g.attempts, WaitingOf(host));
    var freed := CheckFails(c, clock, host, m, i, g);
    after := Next(c, freed, Record(i, clock));
    assert after.attempts == g.attempts[i := after.attempts[i]];
    WeighUpdate(g.attempts, i, after.attempts[i], GatedOf(host));
    WeighUpdate(g.attempts, i, after.attempts[i], WaitingOf(host));
    StepReaches(c, clock, host, m, freed, Record(i, clock));
    SinceAfterStep(c, freed, Record(i, clock), host);
    assert Repeated(clock, n + 1) == Repeated(clock, n) + [clock];
  }

  lemma {:induction false} SomeFailFirst(c: Config, clock: int, host: Host, m: nat, n: nat) returns (g: Guard)
    requires Usable(c) && m >= 1 && n < c.limits.failures
    ensures Burst(c, clock, host, m, 0, n, g)
  {
    if n == 0 {
      g := Initial(clock);
      assert ReachedBy(c, clock, host, m, g, [g], []);
    } else {
      g := SomeFailFirst(c, clock, host, m, n - 1);
      g := OneMoreWaits(c, clock, host, m, 0, n - 1, g);
      g := OneMoreFails(c, clock, host, m, 1, n - 1, g);
    }
  }

  lemma {:induction false} ThenMoreWait(c: Config, clock: int, host: Host, m: nat, j: nat) returns (g: Guard)
    requires Usable(c) && m >= 1 && j <= m
    ensures Burst(c, clock, host, m, j, c.limits.failures - 1, g)
  {
    if j == 0 {
      g := SomeFailFirst(c, clock, host, m, c.limits.failures - 1);
    } else {
      g := ThenMoreWait(c, clock, host, m, j - 1);
      g := OneMoreWaits(c, clock, host, m, j - 1, c.limits.failures - 1, g);
    }
  }

  lemma {:induction false} ThenTheyFail(c: Config, clock: int, host: Host, m: nat, j: nat) returns (g: Guard)
    requires Usable(c) && m >= 1 && j <= m
    ensures Burst(c, clock, host, m, m - j, c.limits.failures - 1 + j, g)
  {
    if j == 0 {
      g := ThenMoreWait(c, clock, host, m, m);
    } else {
      g := ThenTheyFail(c, clock, host, m, j - 1);
      g := OneMoreFails(c, clock, host, m, m - j + 1, c.limits.failures - 2 + j, g);
    }
  }

  /** The bound cannot be lowered: for every m, limit + m - 1 failures fit in a single instant without
      more than m attempts ever overlapping. */
  lemma TheBoundIsMet(c: Config, clock: int, host: Host, m: nat)
    returns (states: seq<Guard>, actions: seq<Action>)
    requires Usable(c) && m >= 1
    ensures Behaviour(c, states, actions) && states[0] == Initial(clock)
    ensures forall k :: 0 <= k < |states| ==> Overlapping(states[k], host) <= m
    ensures Since(states[|actions|].history, host) == Repeated(clock, c.limits.failures + m - 1)
  {
    var g := ThenTheyFail(c, clock, host, m, m);
    states, actions :| ReachedBy(c, clock, host, m, g, states, actions);
  }

  /** As shipped: six failures in one instant, from attempts of which two overlap. */
  lemma SixAtOnce(clock: int, host: Host) returns (states: seq<Guard>, actions: seq<Action>)
    ensures Behaviour(DEFAULT_CONFIG, states, actions) && states[0] == Initial(clock)
    ensures forall k :: 0 <= k < |states| ==> Overlapping(states[k], host) <= 2
    ensures Since(states[|actions|].history, host) == [clock, clock, clock, clock, clock, clock]
  {
    states, actions := TheBoundIsMet(DEFAULT_CONFIG, clock, host, 2);
  }

  // ----- announcing -----

  /** If a host's attempts do not overlap, no failure is ever recorded during a lockout, so a failure is
      announced exactly when the host is locked out right after it: each lockout once, none unannounced. */
  lemma EachLockoutAnnouncedOnce(c: Config, clock: int, states: seq<Guard>, actions: seq<Action>, n: nat)
    requires Usable(c) && Behaviour(c, states, actions) && states[0] == Initial(clock)
    requires n < |actions| && actions[n].Record?
    requires var host := states[n].attempts[actions[n].i].host;
             forall k :: 0 <= k <= n ==> Overlapping(states[k], host) <= 1
    ensures var host, now := states[n].attempts[actions[n].i].host, actions[n].now;
            && !LockedOut(states[n].failures, host, c.limits, now)
            && (states[n + 1].attempts[actions[n].i].phase == Pausing(Rejected(true))
                <==> LockedOut(states[n + 1].failures, host, c.limits, now))
  {
    var host, now := states[n].attempts[actions[n].i].host, actions[n].now;
    BehaviourKeepsPace(c, clock, states, actions, host, 1, n);
    BehaviourKeepsInv(c, states, actions, n);
    WeighAtLeast(states[n].attempts, actions[n].i, GatedOf(host));
    PrunedMapAnswersAsHistory(states[n].history, host, c.limits, states[n].clock, now);
    AnnouncedExactlyWhenLockoutStarts(states[n].failures, host, c.limits, now);
  }

  /** And the attempt returns it: once finished, it says it started a lockout exactly when it did. */
  lemma AnnouncementIsReturned(c: Config, clock: int, states: seq<Guard>, actions: seq<Action>, n: nat, k: nat)
    requires Usable(c) && Behaviour(c, states, actions) && states[0] == Initial(clock)
    requires n < |actions| && actions[n].Record? && n < k < |states|
    requires var host := states[n].attempts[actions[n].i].host;
             forall m :: 0 <= m <= n ==> Overlapping(states[m], host) <= 1
    requires actions[n].i < |states[k].attempts| && states[k].attempts[actions[n].i].phase.Finished?
    ensures var host, now := states[n].attempts[actions[n].i].host, actions[n].now;
            states[k].attempts[actions[n].i].phase.outcome == Rejected(true)
            <==> LockedOut(states[n + 1].failures, host, c.limits, now)
  {
    RecordRejects(c, states, actions, n);
    OutcomesAreFinal(c, states, actions, n + 1, k, actions[n].i);
    EachLockoutAnnouncedOnce(c, clock, states, actions, n);
  }

  lemma RecordRejects(c: Config, states: seq<Guard>, actions: seq<Action>, n: nat)
    requires Behaviour(c, states, actions) && n < |actions| && actions[n].Record?
    ensures actions[n].i < |states[n + 1].attempts|
    ensures states[n + 1].attempts[actions[n].i].phase.Pausing?
    ensures states[n + 1].attempts[actions[n].i].phase.outcome.Rejected?
  {
    assert states[n + 1] == Next(c, states[n], actions[n]);
  }
}
