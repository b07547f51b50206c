/**
 * Concurrent evaluation of one query set. Each mutex section, channel wait and context check of a call is one atomic
 * step; a run interleaves the steps of any number of calls in any order.
 */
module SingleFlight {
  import opened Errors

  datatype Failure = ContextError | OtherError(code: int)

  /** What a scan of all rows comes back with; also what a call returns. */
  datatype Scan = Rows(values: seq<int>) | Failed(failure: Failure)

  /** Why a call returned what it did. */
  datatype Reason = Rejected | OwnContext | FromCache | OwnScan | FromFlight(flight: nat)

  /** Where a call stands. `seen` flights are over for it: it waited on an earlier one. */
  datatype Phase =
    | Entering
    | Checking(seen: nat)
    | Locking(seen: nat)
    | Waiting(flight: nat)
    | Claimed(flight: nat)
    | Scanning(flight: nat)
    | Scanned(flight: nat, scan: Scan)
    | Publishing(flight: nat, scan: Scan)
    | Returned(scan: Scan, reason: Reason)

  datatype Flight = Flight(owner: nat, done: bool, failure: Option<Failure>)

  /** The shared evaluation state, all flights ever opened, all calls, and the backend queries started so far. */
  datatype State = State(
    ready: bool, values: seq<int>, flight: Option<nat>,
    flights: seq<Flight>, calls: seq<Phase>, cancelled: set<nat>, queries: seq<nat>)

  const INITIAL := State(false, [], None, [], [], {}, [])

  datatype Action =
    | Begin
    | Cancel(call: nat)
    | Reject(call: nat, code: int)
    | Enter(call: nat)
    | Check(call: nat)
    | Lock(call: nat)
    | GiveUp(call: nat)
    | Wake(call: nat)
    | Query(call: nat)
    | ScanReturns(call: nat, scan: Scan)
    | Recheck(call: nat)
    | Publish(call: nat)

  predicate Enabled(s: State, a: Action) {
    match a
    case Begin => true
    case Cancel(c) => c < |s.calls|
    case Reject(c, _) => c < |s.calls| && s.calls[c].Entering?
    case Enter(c) => c < |s.calls| && s.calls[c].Entering?
    case Check(c) => c < |s.calls| && s.calls[c].Checking?
    case Lock(c) => c < |s.calls| && s.calls[c].Locking?
    case GiveUp(c) => c < |s.calls| && s.calls[c].Waiting? && c in s.cancelled
    case Wake(c) =>
      c < |s.calls| && s.calls[c].Waiting? && s.calls[c].flight < |s.flights| && s.flights[s.calls[c].flight].done
    case Query(c) => c < |s.calls| && s.calls[c].Claimed?
    case ScanReturns(c, _) => c < |s.calls| && s.calls[c].Scanning?
    case Recheck(c) => c < |s.calls| && s.calls[c].Scanned?
    case Publish(c) => c < |s.calls| && s.calls[c].Publishing? && s.calls[c].flight < |s.flights|
  }

  function At(s: State, c: nat, phase: Phase): State
    requires c < |s.calls|
  {
    s.(calls := s.calls[c := phase])
  }

  /** The first mutex section: reuse the cache, join the open flight, or open one. */
  function Locked(s: State, c: nat): State
    requires c < |s.calls| && s.calls[c].Locking?
  {
    if s.ready then At(s, c, Returned(Rows(s.values), FromCache))
    else
      match s.flight
      case Some(f) => At(s, c, Waiting(f))
      case None =>
        At(s, c, Claimed(|s.flights|)).(
          flight := Some(|s.flights|), flights := s.flights + [Flight(c, false, None)])
  }

  /** What a waiter does with the outcome of the flight it waited for. */
  function Woken(s: State, c: nat): State
    requires Enabled(s, Wake(c))
  {
    var f := s.calls[c].flight;
    match s.flights[f].failure
    case None => At(s, c, Checking(f + 1))
    case Some(ContextError) => At(s, c, Checking(f + 1))
    case Some(OtherError(code)) => At(s, c, Returned(Failed(OtherError(code)), FromFlight(f)))
  }

  function FailureOf(scan: Scan): Option<Failure> {
    match scan
    case Rows(_) => None
    case Failed(e) => Some(e)
  }

  /** The second mutex section: publish the scan, record the flight's outcome, close it. */
  function Published(s: State, c: nat): State
    requires Enabled(s, Publish(c))
  {
    var f, scan := s.calls[c].flight, s.calls[c].scan;
    At(s, c, Returned(scan, OwnScan)).(
      ready := s.ready || scan.Rows?,
      values := if scan.Rows? then scan.values else s.values,
      flights := s.flights[f := s.flights[f].(done := true, failure := FailureOf(scan))],
      flight := None)
  }

  function Apply(s: State, a: Action): State
    requires Enabled(s, a)
  {
    match a
    case Begin => s.(calls := s.calls + [Entering])
    case Cancel(c) => s.(cancelled := s.cancelled + {c})
    case Reject(c, code) => At(s, c, Returned(Failed(OtherError(code)), Rejected))
    case Enter(c) =>
      if c in s.cancelled then At(s, c, Returned(Failed(ContextError), OwnContext)) else At(s, c, Checking(0))
    case Check(c) =>
      if c in s.cancelled then At(s, c, Returned(Failed(ContextError), OwnContext))
      else At(s, c, Locking(s.calls[c].seen))
    case Lock(c) => Locked(s, c)
    case GiveUp(c) => At(s, c, Returned(Failed(ContextError), OwnContext))
    case Wake(c) => Woken(s, c)
    case Query(c) => At(s, c, Scanning(s.calls[c].flight)).(queries := s.queries + [c])
    case ScanReturns(c, scan) => At(s, c, Scanned(s.calls[c].flight, scan))
    case Recheck(c) =>
      var f, scan := s.calls[c].flight, s.calls[c].scan;
      At(s, c, Publishing(f, if scan.Rows? && c in s.cancelled then Failed(ContextError) else scan))
    case Publish(c) => Published(s, c)
  }

  /** A run: states joined by enabled actions, from the empty evaluation state. */
  ghost predicate Run(states: seq<State>, actions: seq<Action>) {
    && |states| == |actions| + 1 && states[0] == INITIAL
    && forall i :: 0 <= i < |actions| ==> Enabled(states[i], actions[i]) && states[i + 1] == Apply(states[i], actions[i])
  }

  // ---------------------------------------------------------------- the invariant

  predicate Holding(p: Phase) {
    p.Claimed? || p.Scanning? || p.Scanned? || p.Publishing?
  }

  /** The recorded flight is the newest and open, and no other flight is open. */
  ghost predicate OneOpenFlight(s: State) {
    && (s.flight.Some? ==> s.flight.value == |s.flights| - 1)
    && (forall f :: 0 <= f < |s.flights| ==> (!s.flights[f].done <==> s.flight == Some(f)))
  }

  /** A call holds a flight exactly while the flight is open and the call its owner. */
  ghost predicate OwnersHold(s: State) {
    && (forall c :: 0 <= c < |s.calls| && Holding(s.calls[c]) ==>
          s.calls[c].flight < |s.flights| && s.flight == Some(s.calls[c].flight) && s.flights[s.calls[c].flight].owner == c)
    && (forall f :: 0 <= f < |s.flights| ==> s.flights[f].owner < |s.calls|)
    && (s.flight.Some? && s.flight.value < |s.flights| ==>
          var c := s.flights[s.flight.value].owner;
          c < |s.calls| && Holding(s.calls[c]) && s.calls[c].flight == s.flight.value)
  }

  /** Each flight has its own owner, whose call ends with the flight. */
  ghost predicate OwnersApart(s: State) {
    && (forall f, g :: 0 <= f < g < |s.flights| ==> s.flights[f].owner != s.flights[g].owner)
    && (forall f :: 0 <= f < |s.flights| && s.flights[f].done && s.flights[f].owner < |s.calls| ==>
          var p := s.calls[s.flights[f].owner];
          p.Returned? && p.reason == OwnScan && FailureOf(p.scan) == s.flights[f].failure)
  }

  /** A waiting call waits on a flight that exists and that it has not waited on before. */
  ghost predicate SeenOver(s: State, p: Phase) {
    && (p.Waiting? ==> p.flight < |s.flights|)
    && (p.Checking? || p.Locking? ==>
          p.seen <= |s.flights| && forall f :: 0 <= f < p.seen && f < |s.flights| ==> s.flights[f].done)
    && Retrying(s, p)
  }

  /** A call that tries again last waited on a flight that succeeded or whose owner was cancelled. */
  ghost predicate Retrying(s: State, p: Phase) {
    (p.Checking? || p.Locking?) && p.seen > 0 ==>
      p.seen <= |s.flights| && (s.flights[p.seen - 1].failure == None || s.flights[p.seen - 1].failure == Some(ContextError))
  }

  /** The cache is filled exactly when some flight succeeded, and then no flight is open. */
  ghost predicate CacheFilledOnce(s: State) {
    && (s.ready ==> s.flight.None?)
    && (!s.ready ==> s.values == [])
    && (!s.ready ==> forall f :: 0 <= f < |s.flights| && s.flights[f].done ==> s.flights[f].failure.Some?)
    && (s.ready ==> exists f :: 0 <= f < |s.flights| && s.flights[f].done && s.flights[f].failure.None?)
  }

  /** What a returned call hands out is justified. */
  ghost predicate Justified(s: State, c: nat, p: Phase) {
    p.Returned? ==>
      match p.reason
      case Rejected => p.scan.Failed?
      case OwnContext => p.scan == Failed(ContextError) && c in s.cancelled
      case FromCache => s.ready && p.scan == Rows(s.values)
      case OwnScan => p.scan.Rows? ==> s.ready && p.scan == Rows(s.values)
      case FromFlight(f) =>
        && f < |s.flights| && s.flights[f].done && s.flights[f].owner != c
        && s.flights[f].failure.Some? && s.flights[f].failure.value.OtherError?
        && p.scan == Failed(s.flights[f].failure.value)
  }

  ghost predicate CallsSound(s: State) {
    forall c :: 0 <= c < |s.calls| ==> SeenOver(s, s.calls[c]) && Justified(s, c, s.calls[c])
  }

  ghost predicate Inv(s: State) {
    OneOpenFlight(s) && OwnersHold(s) && OwnersApart(s) && CacheFilledOnce(s) && CallsSound(s)
  }

  // ---------------------------------------------------------------- every step keeps the invariant

  /** One call moves on without touching the shared state. */
  lemma MovesOn(s: State, c: nat, p: Phase)
    requires Inv(s) && c < |s.calls| && !s.calls[c].Returned?
    requires Holding(p) <==> Holding(s.calls[c])
    requires Holding(p) ==> p.flight == s.calls[c].flight
    requires SeenOver(s, p) && Justified(s, c, p) && (p.Returned? ==> p.reason != OwnScan)
    ensures Inv(At(s, c, p))
  {
    var t := At(s, c, p);
    assert OwnersHold(t);
    assert OwnersApart(t);
    hide Holding;
    forall d | 0 <= d < |t.calls| ensures SeenOver(t, t.calls[d]) && Justified(t, d, t.calls[d]) {
      assert SeenOver(s, t.calls[d]) && Justified(s, d, t.calls[d]);
    }
  }

  lemma Begins(s: State)
    requires Inv(s)
    ensures Inv(Apply(s, Begin))
  {
    var t := Apply(s, Begin);
    assert forall d :: 0 <= d < |s.calls| ==> t.calls[d] == s.calls[d];
    assert t.calls[|s.calls|] == Entering;
    assert OwnersHold(t);
    assert OwnersApart(t);
    hide Holding, OwnersHold, OwnersApart;
    forall d | 0 <= d < |t.calls| ensures SeenOver(t, t.calls[d]) && Justified(t, d, t.calls[d]) {
      if d < |s.calls| {
        assert SeenOver(s, s.calls[d]) && Justified(s, d, s.calls[d]);
      }
    }
  }

  lemma Cancels(s: State, c: nat)
    requires Inv(s) && c < |s.calls|
    ensures Inv(Apply(s, Cancel(c)))
  {
    hide Holding;
    var t := Apply(s, Cancel(c));
    forall d | 0 <= d < |t.calls| ensures SeenOver(t, t.calls[d]) && Justified(t, d, t.calls[d]) {
      assert SeenOver(s, s.calls[d]) && Justified(s, d, s.calls[d]);
    }
  }

  lemma SeenKept(s: State, t: State, p: Phase)
    requires SeenOver(s, p) && |s.flights| <= |t.flights|
    requires forall f :: 0 <= f < |s.flights| ==> t.flights[f] == s.flights[f]
    ensures SeenOver(t, p)
  {
  }

  /** With no flight recorded, a caller that holds the lock is the owner of none. */
  lemma Opens(s: State, c: nat)
    requires Inv(s) && c < |s.calls| && s.calls[c].Locking? && !s.ready && s.flight.None?
    ensures Inv(Locked(s, c))
  {
    var t, n := Locked(s, c), |s.flights|;
    assert t.flights[n] == Flight(c, false, None);
    assert forall f :: 0 <= f < n ==> t.flights[f] == s.flights[f] && t.flights[f].done;
    assert OwnersHold(t);
    assert OwnersApart(t);
    assert CacheFilledOnce(t);
    hide Holding, OwnersHold, OwnersApart, CacheFilledOnce, SeenOver;
    ClaimedSeen(t, n);
    forall d | 0 <= d < |t.calls| ensures SeenOver(t, t.calls[d]) && Justified(t, d, t.calls[d]) {
      assert SeenOver(s, s.calls[d]) && Justified(s, d, s.calls[d]);
      SeenKept(s, t, s.calls[d]);
    }
  }

  lemma ClaimedSeen(s: State, f: nat)
    ensures SeenOver(s, Claimed(f))
  {
  }

  lemma Publishes(s: State, c: nat)
    requires Inv(s) && c < |s.calls| && s.calls[c].Publishing?
    ensures Enabled(s, Publish(c)) && Inv(Published(s, c))
  {
    var f := s.calls[c].flight;
    assert Holding(s.calls[c]);
    var t := Published(s, c);
    assert t.flights[f].done && t.flights[f].owner == c;
    assert forall g :: 0 <= g < |s.flights| && g != f ==> t.flights[g] == s.flights[g];
    assert OwnersHold(t);
    assert OwnersApart(t);
    assert CacheFilledOnce(t);
    hide Holding, OwnersHold, OwnersApart;
    forall d | 0 <= d < |t.calls| ensures SeenOver(t, t.calls[d]) && Justified(t, d, t.calls[d]) {
      assert SeenOver(s, s.calls[d]) && Justified(s, d, s.calls[d]);
    }
  }

  lemma Locks(s: State, c: nat)
    requires Inv(s) && Enabled(s, Lock(c))
    ensures Inv(Locked(s, c))
  {
    hide CacheFilledOnce, OwnersApart, OwnersHold;
    if s.ready {
      MovesOn(s, c, Returned(Rows(s.values), FromCache));
    } else if s.flight.Some? {
      MovesOn(s, c, Waiting(s.flight.value));
    } else {
      Opens(s, c);
    }
  }

  lemma Wakes(s: State, c: nat)
    requires Inv(s) && Enabled(s, Wake(c))
    ensures Inv(Woken(s, c))
  {
    hide Inv;
    var f := s.calls[c].flight;
    WaitedForAnother(s, c);
    OlderOver(s, f);
    match s.flights[f].failure {
      case None => MovesOn(s, c, Checking(f + 1));
      case Some(e) =>
        if e.ContextError? { MovesOn(s, c, Checking(f + 1)); }
        else { MovesOn(s, c, Returned(Failed(e), FromFlight(f))); }
    }
  }

  lemma WaitedForAnother(s: State, c: nat)
    requires Inv(s) && Enabled(s, Wake(c))
    ensures s.flights[s.calls[c].flight].owner != c
  {
    hide CacheFilledOnce, CallsSound;
  }

  /** Flights before a finished one are finished. */
  lemma OlderOver(s: State, f: nat)
    requires Inv(s) && f < |s.flights| && s.flights[f].done
    ensures forall g :: 0 <= g <= f ==> s.flights[g].done
  {
  }

  /** Every step of any call keeps the invariant. */
  lemma StepKeepsInv(s: State, a: Action)
    requires Inv(s) && Enabled(s, a)
    ensures Inv(Apply(s, a))
  {
    match a {
      case Begin => Begins(s);
      case Cancel(c) => Cancels(s, c);
      case Reject(c, code) => MovesOn(s, c, Returned(Failed(OtherError(code)), Rejected));
      case Enter(c) =>
        MovesOn(s, c, if c in s.cancelled then Returned(Failed(ContextError), OwnContext) else Checking(0));
      case Check(c) =>
        assert SeenOver(s, s.calls[c]);
        MovesOn(s, c, if c in s.cancelled then Returned(Failed(ContextError), OwnContext) else Locking(s.calls[c].seen));
      case Lock(c) => Locks(s, c);
      case GiveUp(c) => MovesOn(s, c, Returned(Failed(ContextError), OwnContext));
      case Wake(c) => Wakes(s, c);
      case Query(c) => Queries(s, c);
      case ScanReturns(c, scan) => MovesOn(s, c, Scanned(s.calls[c].flight, scan));
      case Recheck(c) =>
        var scan := s.calls[c].scan;
        MovesOn(s, c, Publishing(s.calls[c].flight, if scan.Rows? && c in s.cancelled then Failed(ContextError) else scan));
      case Publish(c) => Publishes(s, c);
    }
  }

  lemma Queries(s: State, c: nat)
    requires Inv(s) && Enabled(s, Query(c))
    ensures Inv(Apply(s, Query(c)))
  {
    MovesOn(s, c, Scanning(s.calls[c].flight));
    hide Holding;
    var u := At(s, c, Scanning(s.calls[c].flight));
    var t := Apply(s, Query(c));
    forall d | 0 <= d < |t.calls| ensures SeenOver(t, t.calls[d]) && Justified(t, d, t.calls[d]) {
      assert SeenOver(u, u.calls[d]) && Justified(u, d, u.calls[d]);
    }
  }

  // ---------------------------------------------------------------- safety of every run

  lemma {:induction false} RunKeepsInv(states: seq<State>, actions: seq<Action>, k: nat)
    requires Run(states, actions) && k < |states|
    ensures Inv(states[k])
  {
    hide Inv, Enabled, Apply;
    if k == 0 {
      InitialInv();
    } else {
      RunKeepsInv(states, actions, k - 1);
      assert Enabled(states[k - 1], actions[k - 1]);
      StepKeepsInv(states[k - 1], actions[k - 1]);
    }
  }

  lemma InitialInv()
    ensures Inv(INITIAL)
  {
  }

  /** The call an action belongs to; none for the arrival of a call or a cancellation from outside. */
  function CallOf(a: Action): Option<nat> {
    match a
    case Begin => None
    case Cancel(_) => None
    case Reject(c, _) => Some(c)
    case Enter(c) => Some(c)
    case Check(c) => Some(c)
    case Lock(c) => Some(c)
    case GiveUp(c) => Some(c)
    case Wake(c) => Some(c)
    case Query(c) => Some(c)
    case ScanReturns(c, _) => Some(c)
    case Recheck(c) => Some(c)
    case Publish(c) => Some(c)
  }

  /** In every reachable state: at most one flight is open, successes agree, and shared failures come from a flight. */
  lemma RunSafe(states: seq<State>, actions: seq<Action>, k: nat)
    requires Run(states, actions) && k < |states|
    ensures var s := states[k];
      && (forall f, g :: 0 <= f < |s.flights| && 0 <= g < |s.flights| && !s.flights[f].done && !s.flights[g].done ==> f == g)
      && (forall c :: 0 <= c < |s.calls| && s.calls[c].Returned? && s.calls[c].scan.Rows? ==>
            s.ready && s.calls[c].scan.values == s.values)
      && (forall c :: 0 <= c < |s.calls| && s.calls[c].Returned? && s.calls[c].reason.FromFlight? ==>
            var f := s.calls[c].reason.flight;
            f < |s.flights| && s.flights[f].done && s.flights[f].owner != c &&
            s.flights[f].failure == FailureOf(s.calls[c].scan) && s.calls[c].scan.Failed? && s.calls[c].scan.failure.OtherError?)
      && (forall c :: 0 <= c < |s.calls| && s.calls[c].Returned? && s.calls[c].reason == OwnContext ==> c in s.cancelled)
      && (s.ready ==> forall c :: 0 <= c < |s.calls| ==> !Enabled(s, Query(c)) && !Enabled(s, Publish(c)))
      && (forall c :: 0 <= c < |s.calls| && (s.calls[c].Checking? || s.calls[c].Locking?) && s.calls[c].seen > 0 ==>
            var f := s.calls[c].seen - 1;
            f < |s.flights| && s.flights[f].done && s.flights[f].owner < |s.calls| &&
            (s.flights[f].failure == None || s.flights[f].failure == Some(ContextError)))
  {
    RunKeepsInv(states, actions, k);
    var s := states[k];
    forall c | 0 <= c < |s.calls| ensures Justified(s, c, s.calls[c]) && SeenOver(s, s.calls[c]) {
      assert SeenOver(s, s.calls[c]);
    }
  }

  lemma StepKeepsCache(s: State, a: Action)
    requires Inv(s) && Enabled(s, a) && s.ready
    ensures var t := Apply(s, a); t.ready && t.values == s.values && t.queries == s.queries
  {
  }

  /** The cache is written once, and no backend query starts after it is filled. */
  lemma {:induction false} CacheStable(states: seq<State>, actions: seq<Action>, i: nat, j: nat)
    requires Run(states, actions) && i <= j < |states| && states[i].ready
    ensures states[j].ready && states[j].values == states[i].values && states[j].queries == states[i].queries
    decreases j - i
  {
    hide Inv, Enabled, Apply;
    if i < j {
      CacheStable(states, actions, i, j - 1);
      RunKeepsInv(states, actions, j - 1);
      assert Enabled(states[j - 1], actions[j - 1]);
      StepKeepsCache(states[j - 1], actions[j - 1]);
    }
  }

  /** A call changes only in its own steps, and each phase is entered by one of them. */
  lemma StepInto(s: State, a: Action, c: nat)
    requires Enabled(s, a) && c < |Apply(s, a).calls| && !Apply(s, a).calls[c].Entering?
    ensures c < |s.calls|
    ensures var p := Apply(s, a).calls[c];
      if CallOf(a) != Some(c) then s.calls[c] == p
      else
        && (p.Locking? ==> a == Check(c) && c !in s.cancelled)
        && (p.Claimed? ==> a == Lock(c) && s.calls[c].Locking?)
        && (p.Scanned? ==> a == ScanReturns(c, p.scan))
        && (p.Publishing? ==>
              a == Recheck(c) && s.calls[c].Scanned? && p.scan == Outcome(s.calls[c].scan, c in s.cancelled))
  {
  }

  /** What becomes of a scan when the owner checks its context again. */
  function Outcome(scan: Scan, cancelled: bool): Scan {
    match scan
    case Failed(_) => scan
    case Rows(_) => if cancelled then Failed(ContextError) else scan
  }

  /** Between j and i the call takes no step. */
  ghost predicate Idle(actions: seq<Action>, c: nat, j: int, i: nat) {
    forall k :: j < k < i && 0 <= k < |actions| ==> CallOf(actions[k]) != Some(c)
  }

  /** A caller about to take the lock last took the step that found its own context live. */
  lemma {:induction false} LockedWhileLive(states: seq<State>, actions: seq<Action>, i: nat, c: nat) returns (j: nat)
    requires Run(states, actions) && i < |states| && c < |states[i].calls| && states[i].calls[c].Locking?
    ensures j < i && j < |actions| && actions[j] == Check(c) && c !in states[j].cancelled && Idle(actions, c, j, i)
    decreases i
  {
    hide Apply, Enabled;
    var a, s := actions[i - 1], states[i - 1];
    assert Enabled(s, a) && states[i] == Apply(s, a);
    StepInto(s, a, c);
    if CallOf(a) == Some(c) {
      j := i - 1;
    } else {
      j := LockedWhileLive(states, actions, i - 1, c);
    }
  }

  /** A backend query is started only by a call whose context was found live after its last wait. */
  lemma {:induction false} QueriedWhileLive(states: seq<State>, actions: seq<Action>, i: nat, c: nat) returns (j: nat, k: nat)
    requires Run(states, actions) && i < |states| && c < |states[i].calls| && states[i].calls[c].Claimed?
    ensures j < k < i && i <= |actions| && actions[j] == Check(c) && c !in states[j].cancelled
    ensures actions[k] == Lock(c) && Idle(actions, c, j, k) && Idle(actions, c, k, i)
    decreases i
  {
    hide Apply, Enabled;
    var a, s := actions[i - 1], states[i - 1];
    assert Enabled(s, a) && states[i] == Apply(s, a);
    StepInto(s, a, c);
    if CallOf(a) == Some(c) {
      k := i - 1;
      j := LockedWhileLive(states, actions, k, c);
    } else {
      j, k := QueriedWhileLive(states, actions, i - 1, c);
    }
  }

  lemma {:induction false} ScannedBefore(states: seq<State>, actions: seq<Action>, i: nat, c: nat) returns (j: nat)
    requires Run(states, actions) && i < |states| && c < |states[i].calls| && states[i].calls[c].Scanned?
    ensures j < i && j < |actions| && actions[j] == ScanReturns(c, states[i].calls[c].scan)
    decreases i
  {
    hide Apply, Enabled;
    var a, s := actions[i - 1], states[i - 1];
    assert Enabled(s, a) && states[i] == Apply(s, a);
    StepInto(s, a, c);
    if CallOf(a) == Some(c) {
      j := i - 1;
    } else {
      j := ScannedBefore(states, actions, i - 1, c);
    }
  }

  /** What is about to be published is what the scan returned, unless the owner's context had ended by then. */
  lemma {:induction false} PublishedWhileLive(states: seq<State>, actions: seq<Action>, i: nat, c: nat)
    returns (j: nat, k: nat, scan: Scan)
    requires Run(states, actions) && i < |states| && c < |states[i].calls| && states[i].calls[c].Publishing?
    ensures j < k < i && k < |actions| && actions[j] == ScanReturns(c, scan) && actions[k] == Recheck(c)
    ensures states[i].calls[c].scan == Outcome(scan, c in states[k].cancelled)
    decreases i
  {
    hide Apply, Enabled;
    var a, s := actions[i - 1], states[i - 1];
    assert Enabled(s, a) && states[i] == Apply(s, a);
    StepInto(s, a, c);
    if CallOf(a) == Some(c) {
      k, scan := i - 1, s.calls[c].scan;
      j := ScannedBefore(states, actions, k, c);
    } else {
      j, k, scan := PublishedWhileLive(states, actions, i - 1, c);
    }
  }

  /** The owner of a flight returns its scan's outcome, which is also the flight's and, if rows, the cache's. */
  lemma OwnerOutcome(states: seq<State>, actions: seq<Action>, i: nat, c: nat) returns (j: nat, k: nat, scan: Scan, f: nat)
    requires Run(states, actions) && i < |actions| && actions[i] == Publish(c)
    ensures j < k < i && actions[j] == ScanReturns(c, scan) && actions[k] == Recheck(c)
    ensures var t, outcome := states[i + 1], Outcome(scan, c in states[k].cancelled);
      && c < |t.calls| && t.calls[c] == Returned(outcome, OwnScan)
      && f < |t.flights| && t.flights[f] == Flight(c, true, FailureOf(outcome))
      && (outcome.Rows? ==> t.ready && t.values == outcome.values)
      && (outcome.Failed? ==> t.ready == states[i].ready && t.values == states[i].values)
  {
    assert Enabled(states[i], actions[i]) && states[i + 1] == Apply(states[i], actions[i]);
    RunKeepsInv(states, actions, i);
    f := states[i].calls[c].flight;
    j, k, scan := PublishedWhileLive(states, actions, i, c);
  }

  /** The step that fills the cache publishes rows that were scanned successfully under a live owner context. */
  lemma CacheFilledLive(states: seq<State>, actions: seq<Action>, i: nat) returns (c: nat, j: nat, k: nat)
    requires Run(states, actions) && i < |actions| && !states[i].ready && states[i + 1].ready
    ensures actions[i] == Publish(c) && j < k < i
    ensures actions[j] == ScanReturns(c, Rows(states[i + 1].values))
    ensures actions[k] == Recheck(c) && c !in states[k].cancelled
  {
    assert Enabled(states[i], actions[i]) && states[i + 1] == Apply(states[i], actions[i]);
    c := actions[i].call;
    var scan, f;
    j, k, scan, f := OwnerOutcome(states, actions, i, c);
  }

  // ---------------------------------------------------------------- what each call returns

  /** In which steps a call returns, and what; in all others it has not returned yet. */
  lemma StepOutcome(states: seq<State>, actions: seq<Action>, i: nat, c: nat)
    requires Run(states, actions) && i < |actions| && CallOf(actions[i]) == Some(c)
    ensures c < |states[i].calls| && !states[i].calls[c].Returned? && c < |states[i + 1].calls|
    ensures var s, p := states[i], states[i + 1].calls[c];
      match actions[i]
      case Reject(_, code) => p.Returned? && p.scan == Failed(OtherError(code))
      case Enter(_) => p.Returned? <==> c in s.cancelled
      case Check(_) => p.Returned? <==> c in s.cancelled
      case Lock(_) => (p.Returned? <==> s.ready) && (s.ready ==> p.scan == Rows(s.values))
      case GiveUp(_) => p.Returned? && c in s.cancelled
      case Wake(_) =>
        && s.calls[c].Waiting? && s.calls[c].flight < |s.flights|
        && var failure := s.flights[s.calls[c].flight].failure;
           && (p.Returned? <==> failure.Some? && failure.value.OtherError?)
           && (p.Returned? ==> p.scan == Failed(failure.value))
      case Publish(_) => p.Returned?
      case _ => !p.Returned?
    ensures states[i + 1].calls[c].Returned? && (actions[i].Enter? || actions[i].Check? || actions[i].GiveUp?) ==>
      states[i + 1].calls[c].scan == Failed(ContextError)
  {
    assert Enabled(states[i], actions[i]) && states[i + 1] == Apply(states[i], actions[i]);
  }

  lemma StepKeepsFlights(s: State, a: Action, f: nat)
    requires Inv(s) && Enabled(s, a) && f < |s.flights| && s.flights[f].done
    ensures f < |Apply(s, a).flights| && Apply(s, a).flights[f] == s.flights[f]
  {
  }

  /** A flight that is over keeps its outcome. */
  lemma {:induction false} FlightStable(states: seq<State>, actions: seq<Action>, i: nat, j: nat, f: nat)
    requires Run(states, actions) && i <= j < |states| && f < |states[i].flights| && states[i].flights[f].done
    ensures f < |states[j].flights| && states[j].flights[f] == states[i].flights[f]
    decreases j - i
  {
    hide Inv, Enabled, Apply;
    if i < j {
      FlightStable(states, actions, i, j - 1, f);
      RunKeepsInv(states, actions, j - 1);
      assert Enabled(states[j - 1], actions[j - 1]);
      StepKeepsFlights(states[j - 1], actions[j - 1], f);
    }
  }

  /** Every waiter of a flight whose scan failed, other than by its owner's context, returns that very error. */
  lemma ErrorShared(states: seq<State>, actions: seq<Action>, i: nat, owner: nat, k: nat, c: nat)
    requires Run(states, actions) && i < k < |actions| && actions[i] == Publish(owner) && actions[k] == Wake(c)
    requires owner < |states[i].calls| && states[i].calls[owner].Publishing?
    requires c < |states[k].calls| && states[k].calls[c] == Waiting(states[i].calls[owner].flight)
    ensures owner < |states[i + 1].calls| && states[i + 1].calls[owner].Returned? && c < |states[k + 1].calls|
    ensures var result := states[i + 1].calls[owner].scan;
      if result.Failed? && result.failure.OtherError? then
        states[k + 1].calls[c].Returned? && states[k + 1].calls[c].scan == result
      else !states[k + 1].calls[c].Returned?
  {
    var f := states[i].calls[owner].flight;
    assert Enabled(states[i], actions[i]) && states[i + 1] == Apply(states[i], actions[i]);
    FlightStable(states, actions, i + 1, k, f);
    StepOutcome(states, actions, k, c);
  }

  /** The calls that started a backend query, in order. */
  function QueryCallers(actions: seq<Action>): seq<nat> {
    if actions == [] then []
    else
      var n := |actions| - 1;
      QueryCallers(actions[..n]) + (if actions[n].Query? then [actions[n].call] else [])
  }

  /** The recorded backend queries are those that were started. */
  lemma {:induction false} QueriesRecorded(states: seq<State>, actions: seq<Action>, i: nat)
    requires Run(states, actions) && i < |states|
    ensures states[i].queries == QueryCallers(actions[..i])
    decreases i
  {
    if i > 0 {
      QueriesRecorded(states, actions, i - 1);
      assert actions[..i][..i - 1] == actions[..i - 1];
      assert Enabled(states[i - 1], actions[i - 1]) && states[i] == Apply(states[i - 1], actions[i - 1]);
    }
  }

  // ---------------------------------------------------------------- progress

  lemma {:induction false} Pigeonhole(s: seq<nat>, n: nat)
    requires (forall i :: 0 <= i < |s| ==> s[i] < n) && (forall i, j :: 0 <= i < j < |s| ==> s[i] != s[j])
    ensures |s| <= n
    decreases n
  {
    if s != [] {
      if i :| 0 <= i < |s| && s[i] == n - 1 {
        var rest := s[..i] + s[i + 1..];
        forall j | 0 <= j < |rest| ensures rest[j] < n - 1 {
          assert rest[j] == s[if j < i then j else j + 1];
        }
        forall j, k | 0 <= j < k < |rest| ensures rest[j] != rest[k] {
          assert rest[j] == s[if j < i then j else j + 1] && rest[k] == s[if k < i then k else k + 1];
        }
        Pigeonhole(rest, n - 1);
      } else {
        assert s[0] < n;
        Pigeonhole(s, n - 1);
      }
    }
  }

  /** n calls open at most n flights. */
  lemma FlightsBounded(s: State)
    requires Inv(s)
    ensures |s.flights| <= |s.calls|
  {
    var owners := seq(|s.flights|, f requires 0 <= f < |s.flights| => s.flights[f].owner);
    Pigeonhole(owners, |s.calls|);
  }

  /** A waiter can give up as soon as it is cancelled, and wake as soon as its flight is over; until then its owner moves. */
  lemma WaiterMoves(s: State, c: nat)
    requires Inv(s) && c < |s.calls| && s.calls[c].Waiting?
    ensures Enabled(s, GiveUp(c)) <==> c in s.cancelled
    ensures var f := s.calls[c].flight;
      && f < |s.flights| && s.flights[f].owner < |s.calls|
      && (Enabled(s, Wake(c)) <==> !Holding(s.calls[s.flights[f].owner]))
  {
    assert SeenOver(s, s.calls[c]);
  }

  /** Some call can always move while any call has not returned: no wait is for ever, given that scans return. */
  lemma NeverStuck(s: State, c: nat) returns (a: Action)
    requires Inv(s) && c < |s.calls| && !s.calls[c].Returned?
    ensures Enabled(s, a) && CallOf(a).Some? && (!s.calls[c].Waiting? ==> CallOf(a) == Some(c))
  {
    match s.calls[c] {
      case Entering => a := Enter(c);
      case Checking(_) => a := Check(c);
      case Locking(_) => a := Lock(c);
      case Waiting(f) =>
        assert SeenOver(s, s.calls[c]);
        if s.flights[f].done {
          a := Wake(c);
        } else {
          a := HolderMoves(s, s.flights[f].owner);
        }
      case _ => a := HolderMoves(s, c);
    }
  }

  lemma HolderMoves(s: State, c: nat) returns (a: Action)
    requires Inv(s) && c < |s.calls| && Holding(s.calls[c])
    ensures Enabled(s, a) && CallOf(a) == Some(c)
  {
    match s.calls[c] {
      case Claimed(_) => a := Query(c);
      case Scanning(_) => a := ScanReturns(c, Rows([]));
      case Scanned(_, _) => a := Recheck(c);
      case Publishing(_, _) => a := Publish(c);
    }
  }

  /** The steps a call may still take, when n calls exist. */
  function Rank(p: Phase, n: nat): nat {
    match p
    case Entering => 4 * n + 8
    case Checking(seen) => 4 * Left(n, seen) + 7
    case Locking(seen) => 4 * Left(n, seen) + 6
    case Waiting(f) => 4 * Left(n, f) + 5
    case Claimed(_) => 4
    case Scanning(_) => 3
    case Scanned(_, _) => 2
    case Publishing(_, _) => 1
    case Returned(_, _) => 0
  }

  function Left(n: nat, seen: nat): nat {
    if seen <= n then n - seen else 0
  }

  function Total(calls: seq<Phase>, n: nat): nat {
    if calls == [] then 0 else Rank(calls[0], n) + Total(calls[1..], n)
  }

  lemma {:induction false} TotalUpdated(calls: seq<Phase>, n: nat, c: nat, p: Phase)
    requires c < |calls|
    ensures Total(calls[c := p], n) == Total(calls, n) - Rank(calls[c], n) + Rank(p, n)
    decreases |calls|
  {
    hide Rank;
    if c == 0 {
      assert calls[0 := p][1..] == calls[1..];
    } else {
      assert calls[c := p][1..] == calls[1..][c - 1 := p];
      TotalUpdated(calls[1..], n, c - 1, p);
    }
  }

  lemma WaitBounded(s: State, c: nat)
    requires Inv(s) && c < |s.calls|
    ensures s.calls[c].Waiting? ==> s.calls[c].flight < |s.flights|
    ensures s.calls[c].Checking? || s.calls[c].Locking? ==> s.calls[c].seen <= |s.flights|
    ensures s.calls[c].Locking? && s.flight.Some? ==> s.calls[c].seen <= s.flight.value < |s.flights|
  {
    assert SeenOver(s, s.calls[c]);
  }

  lemma RankDrops(s: State, a: Action)
    requires Inv(s) && Enabled(s, a) && CallOf(a).Some?
    ensures var c, t := CallOf(a).value, Apply(s, a);
      && c < |s.calls| && c < |t.calls| && t.calls == s.calls[c := t.calls[c]]
      && Rank(t.calls[c], |s.calls|) < Rank(s.calls[c], |s.calls|)
  {
    hide Inv;
    FlightsBounded(s);
    WaitBounded(s, CallOf(a).value);
  }

  function CallSteps(actions: seq<Action>): nat {
    if actions == [] then 0
    else CallSteps(actions[..|actions| - 1]) + (if CallOf(actions[|actions| - 1]).Some? then 1 else 0)
  }

  /** Without new arrivals the calls take a bounded number of steps, whatever the order: retries end. */
  lemma {:induction false} RunsEnd(states: seq<State>, actions: seq<Action>, i: nat, j: nat)
    requires Run(states, actions) && i <= j < |states|
    requires forall k :: i <= k < j ==> !actions[k].Begin?
    ensures |states[j].calls| == |states[i].calls|
    ensures CallSteps(actions[i..j]) + Total(states[j].calls, |states[j].calls|) <= Total(states[i].calls, |states[i].calls|)
    decreases j - i
  {
    hide Inv, Enabled, Apply, Total, Rank;
    if i == j {
      assert actions[i..j] == [];
    } else {
      var a, s := actions[j - 1], states[j - 1];
      RunsEnd(states, actions, i, j - 1);
      RunKeepsInv(states, actions, j - 1);
      assert Enabled(s, a) && states[j] == Apply(s, a);
      assert actions[i..j][..j - i - 1] == actions[i..j - 1];
      if CallOf(a).Some? {
        RankDrops(s, a);
        var c := CallOf(a).value;
        TotalUpdated(s.calls, |s.calls|, c, states[j].calls[c]);
      } else {
        CancelOnly(s, a);
      }
    }
  }

  lemma CancelOnly(s: State, a: Action)
    requires Enabled(s, a) && CallOf(a).None? && !a.Begin?
    ensures Apply(s, a).calls == s.calls
  {
  }
}
