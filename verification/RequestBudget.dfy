/**
 The shared upstream gate and the rolling request budget over whole runs: the gate never moves back, cooldowns
 are respected by all three writers, and the pruned ledger still bounds every window of the full history.
 */
module RequestBudget {
  import opened Wrappers
  import opened RuntimePolicy
  import opened ControlPlane
  import opened ControlPlaneInvariant

  // ---------------------------------------------------------------- the gate

  lemma {:induction false} RecoverKeepsGate(settings: Settings, s: State, now: int, keys: seq<RowKey>,
                                            jitters: seq<real>)
    requires |jitters| == |keys|
    ensures var t := RecoverRows(settings, s, now, keys, jitters);
            t.gate == s.gate && t.ledger == s.ledger && t.clock == s.clock
  {
    if keys != [] {
      RecoverKeepsGate(settings, s, now, keys[..|keys| - 1], jitters[..|keys| - 1]);
    }
  }

  predicate Grants(settings: Settings, s: State, a: Action) {
    a.Reserve? && Refusal(settings, s, a.now).None?
  }

  /** The two ways of going upstream: starting a session and sending a request. */
  predicate Admits(settings: Settings, s: State, a: Action) {
    (a.ClaimNext? && a.outcome.Claimed?) || Grants(settings, s, a)
  }

  /** The instant before which a pause or a refusal forbids going upstream. */
  function Deadline(settings: Settings, s: State, a: Action): Option<int> {
    match a
    case Fail(now, c, failure, jitter) =>
      if failure.Pauses() && Owns(s, c) then FailureVerdict(settings, now, c, failure, jitter).1 else None
    case Reserve(now, _) => Refusal(settings, s, now)
    case _ => None
  }

  /** The gate only ever moves forward, under every transaction. */
  lemma GateNeverMovesBack(settings: Settings, s: State, a: Action, t: State)
    requires settings.Valid() && Next(settings, s, a, t)
    ensures s.gate.nextRequestAt <= t.gate.nextRequestAt
    ensures t.clock == a.now && s.clock <= t.clock
  {
    if a.Recover? {
      RecoverKeepsGate(settings, s, a.now, a.keys, a.jitters);
    }
  }

  lemma {:induction false} GateHistory(settings: Settings, states: seq<State>, trace: seq<Action>, i: nat, j: nat)
    requires settings.Valid() && Run(settings, states, trace) && i <= j < |states|
    ensures states[i].gate.nextRequestAt <= states[j].gate.nextRequestAt && states[i].clock <= states[j].clock
    decreases j
  {
    if i < j {
      GateHistory(settings, states, trace, i, j - 1);
      GateNeverMovesBack(settings, states[j - 1], trace[j - 1], states[j]);
    }
  }

  /** Any two session starts are at least the configured interval apart. */
  lemma SessionStartsAreSpaced(settings: Settings, states: seq<State>, trace: seq<Action>, i: nat, j: nat)
    requires settings.Valid() && Run(settings, states, trace) && i < j < |trace|
    requires trace[i].ClaimNext? && trace[i].outcome.Claimed? && trace[j].ClaimNext? && trace[j].outcome.Claimed?
    ensures trace[i].now + settings.MinInterval() <= trace[j].now
  {
    GateHistory(settings, states, trace, i + 1, j);
    assert Next(settings, states[i], trace[i], states[i + 1]);
    assert Next(settings, states[j], trace[j], states[j + 1]);
  }

  predicate Enforced(s: State, deadline: int) {
    deadline <= s.clock || (s.gate.reason != Pacing && deadline <= s.gate.nextRequestAt)
  }

  lemma DeadlineIsEnforced(settings: Settings, s: State, a: Action, t: State)
    requires settings.Valid() && Next(settings, s, a, t) && Deadline(settings, s, a).Some?
    ensures Enforced(t, Deadline(settings, s, a).value)
  {
  }

  lemma EnforcementHolds(settings: Settings, s: State, a: Action, t: State, deadline: int)
    requires settings.Valid() && Next(settings, s, a, t) && Enforced(s, deadline)
    ensures Enforced(t, deadline)
    ensures Admits(settings, s, a) ==> deadline <= a.now
  {
    if a.Recover? {
      RecoverKeepsGate(settings, s, a.now, a.keys, a.jitters);
    }
  }

  /** No session start and no granted request precedes the deadline of an earlier pause or refusal. */
  lemma CooldownsAreRespected(settings: Settings, states: seq<State>, trace: seq<Action>, i: nat, j: nat)
    requires settings.Valid() && Run(settings, states, trace) && i < j < |trace|
    requires Deadline(settings, states[i], trace[i]).Some? && Admits(settings, states[j], trace[j])
    ensures Deadline(settings, states[i], trace[i]).value <= trace[j].now
  {
    EnforcedUntil(settings, states, trace, i, j);
    EnforcementHolds(settings, states[j], trace[j], states[j + 1], Deadline(settings, states[i], trace[i]).value);
  }

  lemma {:induction false} EnforcedUntil(settings: Settings, states: seq<State>, trace: seq<Action>, i: nat, j: nat)
    requires settings.Valid() && Run(settings, states, trace) && i < j < |states|
    requires Deadline(settings, states[i], trace[i]).Some?
    ensures Enforced(states[j], Deadline(settings, states[i], trace[i]).value)
    decreases j
  {
    if j == i + 1 {
      DeadlineIsEnforced(settings, states[i], trace[i], states[j]);
    } else {
      EnforcedUntil(settings, states, trace, i, j - 1);
      EnforcementHolds(settings, states[j - 1], trace[j - 1], states[j], Deadline(settings, states[i], trace[i]).value);
    }
  }

  // ---------------------------------------------------------------- the ledger against the full history

  /** Every granted request of a run, in order, pruned or not. */
  ghost function History(settings: Settings, states: seq<State>, trace: seq<Action>, n: nat): seq<int>
    requires n <= |trace| <= |states|
  {
    if n == 0 then []
    else
      History(settings, states, trace, n - 1)
      + if Grants(settings, states[n - 1], trace[n - 1]) then [trace[n - 1].now] else []
  }

  /** How many of the instants fall in the closed interval. */
  function CountIn(times: seq<int>, from: int, to: int): nat {
    if times == [] then 0
    else CountIn(times[..|times| - 1], from, to) + if from <= times[|times| - 1] <= to then 1 else 0
  }

  function Times(ledger: seq<RequestEvent>): (r: seq<int>)
    ensures |r| == |ledger| && forall i :: 0 <= i < |r| ==> r[i] == ledger[i].requestedAt
  {
    seq(|ledger|, i requires 0 <= i < |ledger| => ledger[i].requestedAt)
  }

  predicate Ascending(times: seq<int>) {
    forall i, j :: 0 <= i <= j < |times| ==> times[i] <= times[j]
  }

  /** Any `ceiling + 1` consecutive grants span more than one window. */
  predicate Spaced(settings: Settings, times: seq<int>) {
    var ceiling := settings.requestOperationalCeiling;
    forall i :: 0 <= ceiling <= i < |times| ==> times[i - ceiling] < times[i] - settings.Window()
  }

  /** The ledger is the tail of the history, and what is missing lies before the cutoff. */
  predicate RecentTail(ledger: seq<RequestEvent>, times: seq<int>, cutoff: int) {
    && |ledger| <= |times|
    && Times(ledger) == times[|times| - |ledger|..]
    && forall i :: 0 <= i < |times| - |ledger| ==> times[i] < cutoff
  }

  ghost predicate BudgetInv(settings: Settings, s: State, times: seq<int>) {
    && Ascending(times)
    && (times != [] ==> times[|times| - 1] <= s.clock)
    && RecentTail(s.ledger, times, s.clock - EVENT_RETENTION)
    && Spaced(settings, times)
  }

  lemma {:induction false} KeepSinceIsSuffix(ledger: seq<RequestEvent>, cutoff: int)
    requires Ascending(Times(ledger))
    ensures var kept := KeepSince(ledger, cutoff);
            && |kept| <= |ledger| && kept == ledger[|ledger| - |kept|..]
            && forall i :: 0 <= i < |ledger| - |kept| ==> ledger[i].requestedAt < cutoff
  {
    if ledger != [] {
      var n := |ledger| - 1;
      assert Times(ledger[..n]) == Times(ledger)[..n];
      KeepSinceIsSuffix(ledger[..n], cutoff);
      var kept := KeepSince(ledger, cutoff);
      if ledger[n].requestedAt < cutoff {
        forall i | 0 <= i < n ensures ledger[i].requestedAt < cutoff {
          assert Times(ledger)[i] <= Times(ledger)[n];
        }
        NoneKept(ledger[..n], cutoff);
      }
    }
  }

  lemma {:induction false} NoneKept(ledger: seq<RequestEvent>, cutoff: int)
    requires forall i :: 0 <= i < |ledger| ==> ledger[i].requestedAt < cutoff
    ensures KeepSince(ledger, cutoff) == []
  {
    if ledger != [] {
      NoneKept(ledger[..|ledger| - 1], cutoff);
    }
  }

  /** A tail of entries that all count makes the count at least as long as the tail. */
  lemma {:induction false} TailCounts(ledger: seq<RequestEvent>, cutoff: int, m: nat)
    requires m <= |ledger| && forall i :: |ledger| - m <= i < |ledger| ==> cutoff <= ledger[i].requestedAt
    ensures m <= CountSince(ledger, cutoff)
  {
    if m != 0 {
      TailCounts(ledger[..|ledger| - 1], cutoff, m - 1);
    }
  }

  lemma BudgetAtStart(settings: Settings, s: State)
    requires Init(s)
    ensures BudgetInv(settings, s, [])
  {
  }

  /** Granting below the ceiling keeps grants spaced, because the ledger still holds everything that counts. */
  lemma GrantKeepsSpacing(settings: Settings, s: State, now: int, times: seq<int>)
    requires settings.Valid() && settings.Window() <= EVENT_RETENTION
    requires BudgetInv(settings, s, times) && s.clock <= now && Refusal(settings, s, now).None?
    ensures Spaced(settings, times + [now])
  {
    var ceiling := settings.requestOperationalCeiling;
    if ceiling <= |times| && now - settings.Window() <= times[|times| - ceiling] {
      forall i | |s.ledger| - ceiling <= i < |s.ledger| ensures now - settings.Window() <= s.ledger[i].requestedAt {
        assert Times(s.ledger)[i] == times[|times| - |s.ledger| + i];
      }
      TailCounts(s.ledger, now - settings.Window(), ceiling);
    }
  }

  /** Dropping the head of a tail of the history leaves a shorter tail of it. */
  lemma TailOfTail(ledger: seq<RequestEvent>, kept: seq<RequestEvent>, times: seq<int>)
    requires |kept| <= |ledger| <= |times|
    requires Times(ledger) == times[|times| - |ledger|..] && kept == ledger[|ledger| - |kept|..]
    ensures Times(kept) == times[|times| - |kept|..]
    ensures forall i :: |times| - |ledger| <= i < |times| - |kept| ==>
              times[i] == ledger[i - (|times| - |ledger|)].requestedAt
  {
    forall i | |times| - |ledger| <= i < |times|
      ensures times[i] == ledger[i - (|times| - |ledger|)].requestedAt
    {
      assert times[i] == Times(ledger)[i - (|times| - |ledger|)];
    }
  }

  lemma LedgerGrows(ledger: seq<RequestEvent>, event: RequestEvent, times: seq<int>, cutoff: int)
    requires Ascending(times) && (times != [] ==> times[|times| - 1] <= event.requestedAt)
    requires RecentTail(ledger, times, cutoff)
    ensures RecentTail(KeepSince(ledger + [event], cutoff), times + [event.requestedAt], cutoff)
  {
    var grown := ledger + [event];
    var longer := times + [event.requestedAt];
    assert Times(grown) == Times(ledger) + [event.requestedAt];
    assert Times(grown) == longer[|longer| - |grown|..];
    assert Ascending(longer);
    assert Ascending(Times(grown));
    KeepSinceIsSuffix(grown, cutoff);
    TailOfTail(grown, KeepSince(grown, cutoff), longer);
  }

  /** Pruning after a grant drops only what no window can still reach. */
  lemma GrantKeepsLedger(settings: Settings, s: State, now: int, operation: Operation, times: seq<int>)
    requires Ascending(times) && (times != [] ==> times[|times| - 1] <= s.clock)
    requires RecentTail(s.ledger, times, s.clock - EVENT_RETENTION) && s.clock <= now
    requires Refusal(settings, s, now).None?
    ensures var t := ReserveStep(settings, s, now, operation);
            RecentTail(t.ledger, times + [now], t.clock - EVENT_RETENTION)
  {
    LedgerGrows(s.ledger, RequestEvent(operation, now), times, now - EVENT_RETENTION);
  }

  /** Only a granted reservation writes the ledger. */
  lemma OthersKeepLedger(settings: Settings, s: State, a: Action, t: State)
    requires Next(settings, s, a, t) && !Grants(settings, s, a)
    ensures t.ledger == s.ledger
  {
    if a.Recover? {
      RecoverKeepsGate(settings, s, a.now, a.keys, a.jitters);
    }
  }

  lemma GrantKeepsBudget(settings: Settings, s: State, now: int, operation: Operation, times: seq<int>)
    requires settings.Valid() && settings.Window() <= EVENT_RETENTION
    requires BudgetInv(settings, s, times) && s.clock <= now && Refusal(settings, s, now).None?
    ensures BudgetInv(settings, ReserveStep(settings, s, now, operation), times + [now])
  {
    GrantKeepsSpacing(settings, s, now, times);
    GrantKeepsLedger(settings, s, now, operation, times);
    AppendAscending(times, now);
  }

  lemma AppendAscending(times: seq<int>, now: int)
    requires Ascending(times) && (times != [] ==> times[|times| - 1] <= now)
    ensures Ascending(times + [now])
  {
  }

  lemma OthersKeepBudget(settings: Settings, s: State, t: State, times: seq<int>)
    requires BudgetInv(settings, s, times) && t.ledger == s.ledger && s.clock <= t.clock
    ensures BudgetInv(settings, t, times)
  {
  }

  lemma StepKeepsBudget(settings: Settings, s: State, a: Action, t: State, times: seq<int>)
    requires settings.Valid() && settings.Window() <= EVENT_RETENTION
    requires BudgetInv(settings, s, times) && Next(settings, s, a, t)
    ensures BudgetInv(settings, t, times + if Grants(settings, s, a) then [a.now] else [])
  {
    GateNeverMovesBack(settings, s, a, t);
    if Grants(settings, s, a) {
      assert t == ReserveStep(settings, s, a.now, a.operation);
      GrantKeepsBudget(settings, s, a.now, a.operation, times);
    } else {
      OthersKeepLedger(settings, s, a, t);
      OthersKeepBudget(settings, s, t, times);
      assert times + [] == times;
    }
  }

  lemma {:induction false} BudgetAlways(settings: Settings, states: seq<State>, trace: seq<Action>, n: nat)
    requires settings.Valid() && settings.Window() <= EVENT_RETENTION
    requires Run(settings, states, trace) && n <= |trace|
    ensures BudgetInv(settings, states[n], History(settings, states, trace, n))
    decreases n
  {
    if n == 0 {
      BudgetAtStart(settings, states[0]);
    } else {
      BudgetAlways(settings, states, trace, n - 1);
      StepKeepsBudget(settings, states[n - 1], trace[n - 1], states[n], History(settings, states, trace, n - 1));
    }
  }

  lemma {:induction false} NoneBefore(times: seq<int>, from: int, to: int)
    requires forall i :: 0 <= i < |times| ==> times[i] < from
    ensures CountIn(times, from, to) == 0
  {
    if times != [] {
      NoneBefore(times[..|times| - 1], from, to);
    }
  }

  lemma {:induction false} CountOfTail(times: seq<int>, from: int, to: int, m: nat)
    requires m <= |times| && forall i :: 0 <= i < |times| - m ==> times[i] < from
    ensures CountIn(times, from, to) <= m
    decreases |times|
  {
    if m == 0 {
      NoneBefore(times, from, to);
    } else {
      CountOfTail(times[..|times| - 1], from, to, m - 1);
    }
  }

  lemma {:induction false} SpacedTimesFitWindows(settings: Settings, times: seq<int>, from: int)
    requires settings.Valid() && Ascending(times) && Spaced(settings, times)
    ensures CountIn(times, from, from + settings.Window()) <= settings.requestOperationalCeiling
  {
    if times != [] {
      var n := |times| - 1;
      var ceiling := settings.requestOperationalCeiling;
      assert Ascending(times[..n]);
      SpacedTimesFitWindows(settings, times[..n], from);
      if from <= times[n] <= from + settings.Window() && ceiling <= n {
        forall i | 0 <= i < |times| - ceiling ensures times[i] < from {
          assert times[i] <= times[n - ceiling] < times[n] - settings.Window();
        }
        CountOfTail(times, from, from + settings.Window(), ceiling);
      } else if n < ceiling {
        CountOfTail(times, from, from + settings.Window(), |times|);
      }
    }
  }

  /** Granted requests of a whole run in the closed window that starts at `from`. */
  ghost function WindowUse(settings: Settings, states: seq<State>, trace: seq<Action>, from: int): nat
    requires |trace| <= |states|
  {
    CountIn(History(settings, states, trace, |trace|), from, from + settings.Window())
  }

  lemma WindowNeverOverfills(settings: Settings, states: seq<State>, trace: seq<Action>, from: int)
    requires settings.Valid() && settings.Window() <= EVENT_RETENTION && Run(settings, states, trace)
    ensures WindowUse(settings, states, trace, from) <= settings.requestOperationalCeiling
  {
    BudgetAlways(settings, states, trace, |trace|);
    SpacedTimesFitWindows(settings, History(settings, states, trace, |trace|), from);
  }

  /** No closed window of any run holds more granted requests than the operational ceiling. */
  ghost predicate BudgetHolds(settings: Settings) {
    forall states, trace, from :: Run(settings, states, trace) ==>
      WindowUse(settings, states, trace, from) <= settings.requestOperationalCeiling
  }

  // ---------------------------------------------------------------- why the window must fit the retention

  const EMPTY_STATE := State(map[], map[], map[], map[], Gate(0, Pacing), [], 0)

  /** Appending one more granted reservation to a run. */
  lemma GrantOneMore(settings: Settings, states: seq<State>, trace: seq<Action>, now: int)
    requires Run(settings, states, trace) && states[|trace|].clock <= now
    requires Refusal(settings, states[|trace|], now).None?
    ensures var t := ReserveStep(settings, states[|trace|], now, Archive);
            && Run(settings, states + [t], trace + [Reserve(now, Archive)])
            && History(settings, states + [t], trace + [Reserve(now, Archive)], |trace| + 1)
               == History(settings, states, trace, |trace|) + [now]
  {
    var t := ReserveStep(settings, states[|trace|], now, Archive);
    assert Next(settings, states[|trace|], Reserve(now, Archive), t);
    HistoryOfPrefix(settings, states, trace, states + [t], trace + [Reserve(now, Archive)], |trace|);
  }

  /** Below the ceiling and with the gate merely pacing, a reservation is granted and appended. */
  lemma GrantedBelowCeiling(settings: Settings, s: State, now: int)
    requires s.gate.reason == Pacing && |s.ledger| < settings.requestOperationalCeiling
    ensures Refusal(settings, s, now).None?
    ensures ReserveStep(settings, s, now, Archive)
            == s.(ledger := KeepSince(s.ledger + [RequestEvent(Archive, now)], now - EVENT_RETENTION), clock := now)
  {
    CountAtMostLength(s.ledger, now - settings.Window());
  }

  function Repeat<T>(x: T, n: nat): (r: seq<T>)
    ensures |r| == n
  {
    if n == 0 then [] else Repeat(x, n - 1) + [x]
  }

  lemma {:induction false} RepeatsOnly<T>(x: T, n: nat)
    ensures forall i :: 0 <= i < n ==> Repeat(x, n)[i] == x
  {
    if n != 0 {
      RepeatsOnly(x, n - 1);
    }
  }

  lemma {:induction false} BurstIsKept(n: nat)
    ensures KeepSince(Repeat(RequestEvent(Archive, 0), n), -EVENT_RETENTION) == Repeat(RequestEvent(Archive, 0), n)
  {
    RepeatsOnly(RequestEvent(Archive, 0), n);
    AllKept(Repeat(RequestEvent(Archive, 0), n), -EVENT_RETENTION);
  }

  /** One more archive request at instant 0. */
  lemma OneMoreInBurst(settings: Settings, states: seq<State>, trace: seq<Action>, n: nat)
      returns (longer: seq<State>, actions: seq<Action>)
    requires Run(settings, states, trace) && |trace| == n && n + 1 < settings.requestOperationalCeiling
    requires states[n] == EMPTY_STATE.(ledger := Repeat(RequestEvent(Archive, 0), n))
    requires History(settings, states, trace, n) == Repeat(0, n)
    ensures Run(settings, longer, actions) && |actions| == n + 1
    ensures longer[n + 1] == EMPTY_STATE.(ledger := Repeat(RequestEvent(Archive, 0), n + 1))
    ensures History(settings, longer, actions, n + 1) == Repeat(0, n + 1)
  {
    BurstIsKept(n + 1);
    longer, actions := GrantLate(settings, states, trace, 0, Repeat(RequestEvent(Archive, 0), n + 1));
  }

  /** A burst of archive requests at instant 0, one below the ceiling. */
  lemma {:induction false} Burst(settings: Settings, n: nat) returns (states: seq<State>, trace: seq<Action>)
    requires settings.Valid() && n < settings.requestOperationalCeiling
    ensures Run(settings, states, trace) && |trace| == n
    ensures states[n] == EMPTY_STATE.(ledger := Repeat(RequestEvent(Archive, 0), n))
    ensures History(settings, states, trace, n) == Repeat(0, n)
  {
    if n == 0 {
      states, trace := [EMPTY_STATE], [];
    } else {
      states, trace := Burst(settings, n - 1);
      states, trace := OneMoreInBurst(settings, states, trace, n - 1);
    }
  }

  lemma {:induction false} AllKept(ledger: seq<RequestEvent>, cutoff: int)
    requires forall i :: 0 <= i < |ledger| ==> cutoff <= ledger[i].requestedAt
    ensures KeepSince(ledger, cutoff) == ledger
  {
    if ledger != [] {
      AllKept(ledger[..|ledger| - 1], cutoff);
    }
  }

  lemma {:induction false} CountAtMostLength(ledger: seq<RequestEvent>, cutoff: int)
    ensures CountSince(ledger, cutoff) <= |ledger|
  {
    if ledger != [] {
      CountAtMostLength(ledger[..|ledger| - 1], cutoff);
    }
  }

  lemma {:induction false} HistoryOfPrefix(settings: Settings, before: seq<State>, actions: seq<Action>,
                                           states: seq<State>, trace: seq<Action>, n: nat)
    requires n <= |actions| <= |before| && |trace| <= |states|
    requires before <= states && actions <= trace
    ensures History(settings, before, actions, n) == History(settings, states, trace, n)
  {
    if n != 0 {
      HistoryOfPrefix(settings, before, actions, states, trace, n - 1);
    }
  }

  lemma {:induction false} CountAll(times: seq<int>, from: int, to: int)
    requires forall i :: 0 <= i < |times| ==> from <= times[i] <= to
    ensures CountIn(times, from, to) == |times|
  {
    if times != [] {
      CountAll(times[..|times| - 1], from, to);
    }
  }

  /** One more archive grant at `now`, in a state where the gate merely paces and the ledger is below the ceiling. */
  lemma GrantLate(settings: Settings, states: seq<State>, trace: seq<Action>, now: int, ledger: seq<RequestEvent>)
      returns (longer: seq<State>, actions: seq<Action>)
    requires Run(settings, states, trace) && states[|trace|].clock <= now
    requires states[|trace|].gate.reason == Pacing && |states[|trace|].ledger| < settings.requestOperationalCeiling
    requires ledger == KeepSince(states[|trace|].ledger + [RequestEvent(Archive, now)], now - EVENT_RETENTION)
    ensures Run(settings, longer, actions) && |actions| == |trace| + 1
    ensures longer[|actions|] == states[|trace|].(ledger := ledger, clock := now)
    ensures History(settings, longer, actions, |actions|) == History(settings, states, trace, |trace|) + [now]
  {
    GrantedBelowCeiling(settings, states[|trace|], now);
    GrantOneMore(settings, states, trace, now);
    longer, actions := states + [ReserveStep(settings, states[|trace|], now, Archive)], trace + [Reserve(now, Archive)];
  }

  lemma FirstLateGrant(settings: Settings, states: seq<State>, trace: seq<Action>, ledger: seq<RequestEvent>, late: int)
      returns (longer: seq<State>, actions: seq<Action>)
    requires Run(settings, states, trace) && 0 <= late && |ledger| < settings.requestOperationalCeiling
    requires states[|trace|] == EMPTY_STATE.(ledger := ledger)
    requires forall i :: 0 <= i < |ledger| ==> ledger[i].requestedAt < late - EVENT_RETENTION
    ensures Run(settings, longer, actions) && |actions| == |trace| + 1
    ensures longer[|actions|] == EMPTY_STATE.(ledger := [RequestEvent(Archive, late)], clock := late)
    ensures History(settings, longer, actions, |actions|) == History(settings, states, trace, |trace|) + [late]
  {
    OnlyLastKept(ledger, RequestEvent(Archive, late), late - EVENT_RETENTION);
    longer, actions := GrantLate(settings, states, trace, late, [RequestEvent(Archive, late)]);
  }

  lemma SecondLateGrant(settings: Settings, states: seq<State>, trace: seq<Action>, late: int)
      returns (longer: seq<State>, actions: seq<Action>)
    requires Run(settings, states, trace) && 1 < settings.requestOperationalCeiling
    requires states[|trace|] == EMPTY_STATE.(ledger := [RequestEvent(Archive, late)], clock := late)
    ensures Run(settings, longer, actions) && |actions| == |trace| + 1
    ensures History(settings, longer, actions, |actions|) == History(settings, states, trace, |trace|) + [late]
  {
    var event := RequestEvent(Archive, late);
    AllKept([event] + [event], late - EVENT_RETENTION);
    longer, actions := GrantLate(settings, states, trace, late, [event] + [event]);
  }

  /**
   With a window longer than the retention, a burst one below the ceiling is forgotten by the first grant after
   the retention has passed, and a second grant at that instant is then one too many for the window.
   */
  lemma ForgottenBurst(settings: Settings) returns (states: seq<State>, trace: seq<Action>)
    requires settings.Valid() && EVENT_RETENTION < settings.Window()
    ensures Run(settings, states, trace) && |trace| == settings.requestOperationalCeiling + 1
    ensures History(settings, states, trace, |trace|)
            == Repeat(0, settings.requestOperationalCeiling - 1) + [EVENT_RETENTION + 1] + [EVENT_RETENTION + 1]
  {
    var late := EVENT_RETENTION + 1;
    var n := settings.requestOperationalCeiling - 1;
    states, trace := Burst(settings, n);
    RepeatsOnly(RequestEvent(Archive, 0), n);
    states, trace := FirstLateGrant(settings, states, trace, Repeat(RequestEvent(Archive, 0), n), late);
    states, trace := SecondLateGrant(settings, states, trace, late);
  }

  lemma LongWindowOverfills(settings: Settings) returns (states: seq<State>, trace: seq<Action>)
    requires settings.Valid() && EVENT_RETENTION < settings.Window()
    ensures Run(settings, states, trace)
    ensures WindowUse(settings, states, trace, 0) == settings.requestOperationalCeiling + 1
  {
    states, trace := ForgottenBurst(settings);
    RepeatsOnly(0, settings.requestOperationalCeiling - 1);
    CountAll(History(settings, states, trace, |trace|), 0, settings.Window());
  }

  lemma OnlyLastKept(ledger: seq<RequestEvent>, last: RequestEvent, cutoff: int)
    requires cutoff <= last.requestedAt && forall i :: 0 <= i < |ledger| ==> ledger[i].requestedAt < cutoff
    ensures KeepSince(ledger + [last], cutoff) == [last]
  {
    NoneKept(ledger, cutoff);
    assert (ledger + [last])[..|ledger|] == ledger;
  }

  /** Main result: the rolling budget is safe exactly when the window fits the 24-hour retention of the ledger. */
  lemma BudgetHoldsExactlyWithinRetention(settings: Settings)
    requires settings.Valid()
    ensures BudgetHolds(settings) <==> settings.Window() <= EVENT_RETENTION
  {
    if settings.Window() <= EVENT_RETENTION {
      forall states, trace, from | Run(settings, states, trace)
        ensures WindowUse(settings, states, trace, from) <= settings.requestOperationalCeiling
      {
        WindowNeverOverfills(settings, states, trace, from);
      }
    } else {
      var states, trace := LongWindowOverfills(settings);
      assert WindowUse(settings, states, trace, 0) > settings.requestOperationalCeiling;
    }
  }
}
