/** The fault isolator (nth_dao/fault_isolation.py): many agents' breakers behind one lock, with audit events
    queued under the lock and emitted outside it. */
module FaultIsolation {
  import opened Prelude
  import opened CircuitBreaker

  function Truncated(error: string): (r: string)
    ensures |error| <= 500 ==> r == error
    ensures |error| > 500 ==> |r| == 500 && r < error
  {
    if |error| <= 500 then error else error[..500]
  }

  function Of(audits: seq<Audit>, agent: string): seq<Audit> {
    if audits == [] then []
    else
      var rest, a := Of(audits[..|audits| - 1], agent), audits[|audits| - 1];
      if a.agent == agent then rest + [a] else rest
  }

  lemma {:induction false} OfAppend(s: seq<Audit>, t: seq<Audit>, agent: string)
    ensures Of(s + t, agent) == Of(s, agent) + Of(t, agent)
  {
    if t == [] {
      assert s + t == s;
    } else {
      var init := t[..|t| - 1];
      OfAppend(s, init, agent);
      assert (s + t)[..|s + t| - 1] == s + init;
    }
  }

  lemma {:induction false} OfOne(t: seq<Audit>, agent: string, other: string)
    requires forall a :: a in t ==> a.agent == agent
    ensures Of(t, other) == if other == agent then t else []
  {
    if t != [] { OfOne(t[..|t| - 1], agent, other); }
  }

  lemma OfClosed(audits: seq<Audit>, closed: seq<Audit>, agent: string)
    requires forall a :: a in closed ==> a.agent == agent
    ensures forall a :: Of(audits + closed, a) == if a == agent then Of(audits, a) + closed else Of(audits, a)
  {
    forall a ensures Of(audits + closed, a) == if a == agent then Of(audits, a) + closed else Of(audits, a) {
      OfAppend(audits, closed, a);
      OfOne(closed, agent, a);
    }
  }

  lemma {:induction false} FoldOf(audits: seq<Audit>, agent: string)
    ensures Fold(audits, agent) == Fold(Of(audits, agent), agent)
    ensures FailuresIn(audits, agent) == FailuresIn(Of(audits, agent), agent)
  {
    if audits != [] {
      var init, a := audits[..|audits| - 1], audits[|audits| - 1];
      FoldOf(init, agent);
      FoldAppend(Of(init, agent), a, agent);
      FailuresInAppend(Of(init, agent), a, agent);
    }
  }

  lemma StepAudits(c: Config, agent: string, b: Breaker, input: Input)
    ensures forall a :: a in Step(c, agent, b, input).audits ==> a.agent == agent
  {
  }

  /** The isolator's fields, with every call so far per agent and every event ever deferred. */
  datatype Snapshot = Snapshot(
    health: map<string, Health>, failures: map<string, seq<Failure>>, pending: seq<Audit>,
    calls: map<string, seq<Input>>, deferred: seq<Audit>)

  function View(s: Snapshot, agent: string): Breaker {
    Breaker(if agent in s.health then s.health[agent] else FRESH, if agent in s.failures then s.failures[agent] else [])
  }

  function CallsOf(s: Snapshot, agent: string): seq<Input> {
    if agent in s.calls then s.calls[agent] else []
  }

  /** The agent's breaker and its share of the deferred events are those of its own run. */
  predicate Tracks(c: Config, s: Snapshot, agent: string) {
    && View(s, agent) == Run(c, agent, CallsOf(s, agent)).breaker
    && Of(s.deferred, agent) == Run(c, agent, CallsOf(s, agent)).audits
  }

  ghost predicate TracksAll(c: Config, s: Snapshot) {
    forall agent :: Tracks(c, s, agent)
  }

  /** The queue and the record of everything deferred grew by these events. */
  predicate Defers(s: Snapshot, audits: seq<Audit>, s': Snapshot) {
    s'.pending == s.pending + audits && s'.deferred == s.deferred + audits
  }

  /** `input` was the next call on `agent` and nothing else happened. */
  ghost predicate Performed(c: Config, s: Snapshot, agent: string, input: Input, s': Snapshot) {
    var o := Step(c, agent, View(s, agent), input);
    && View(s', agent) == o.breaker
    && (forall other :: other != agent ==> View(s', other) == View(s, other))
    && s'.pending == s.pending + o.audits
    && s'.deferred == s.deferred + o.audits
    && s'.calls == s.calls[agent := CallsOf(s, agent) + [input]]
  }

  lemma PerformedKeepsTracks(c: Config, s: Snapshot, agent: string, input: Input, s': Snapshot)
    requires TracksAll(c, s) && Performed(c, s, agent, input, s')
    ensures TracksAll(c, s')
  {
    var o := Step(c, agent, View(s, agent), input);
    StepAudits(c, agent, View(s, agent), input);
    forall other ensures Tracks(c, s', other) {
      assert Tracks(c, s, other);
      OfAppend(s.deferred, o.audits, other);
      OfOne(o.audits, agent, other);
      if other == agent {
        RunNext(c, agent, CallsOf(s, agent), input);
        assert CallsOf(s', agent) == CallsOf(s, agent) + [input];
      } else {
        assert CallsOf(s', other) == CallsOf(s, other) && Of(s'.deferred, other) == Of(s.deferred, other) + [];
      }
    }
  }

  lemma RunNext(c: Config, agent: string, run: seq<Input>, input: Input)
    ensures var before := Run(c, agent, run);
            var o := Step(c, agent, before.breaker, input);
            Run(c, agent, run + [input]) == Outcome(o.breaker, before.audits + o.audits)
  {
    assert (run + [input])[..|run|] == run;
  }

  lemma FailPerformed(c: Config, s: Snapshot, agent: string, x: Failure, now: real, h: Health, audits: seq<Audit>, s': Snapshot)
    requires Effect(h, audits) == OnFailure(c, agent, View(s, agent).health, x, |Buffered(c, View(s, agent).buffer, x, now)|)
    requires s'.health == s.health[agent := h]
    requires s'.failures == s.failures[agent := Buffered(c, View(s, agent).buffer, x, now)]
    requires s'.pending == s.pending + audits && s'.deferred == s.deferred + audits
    requires s'.calls == s.calls[agent := CallsOf(s, agent) + [Fail(x, now)]]
    ensures Performed(c, s, agent, Fail(x, now), s')
  {
  }

  lemma PendingIrrelevant(c: Config, s: Snapshot, pending: seq<Audit>)
    requires TracksAll(c, s)
    ensures TracksAll(c, s.(pending := pending))
  {
    forall agent ensures Tracks(c, s.(pending := pending), agent) { assert Tracks(c, s, agent); }
  }

  /** At every point, for every agent, folding all events deferred so far gives its circuit state. */
  lemma FoldIsState(c: Config, s: Snapshot, agent: string)
    requires TracksAll(c, s)
    ensures Fold(s.deferred, agent) == View(s, agent).health.circuit
  {
    assert Tracks(c, s, agent);
    FoldOf(s.deferred, agent);
    TrailReconstructsState(c, agent, CallsOf(s, agent));
  }

  /** The agent's circuit is closed, and its closing event deferred, unless it is still to do. */
  predicate ClosedOne(before: map<string, Health>, after: map<string, Health>, audits: seq<Audit>, todo: set<string>, a: string)
    requires before.Keys == after.Keys
  {
    if a !in before then Of(audits, a) == []
    else if a in todo then after[a] == before[a] && Of(audits, a) == []
    else after[a] == OnReset(a, before[a]).health && Of(audits, a) == OnReset(a, before[a]).audits
  }

  ghost predicate ClosedBut(before: map<string, Health>, after: map<string, Health>, audits: seq<Audit>, todo: set<string>) {
    before.Keys == after.Keys && forall a :: ClosedOne(before, after, audits, todo, a)
  }

  ghost predicate AllClosed(before: map<string, Health>, after: map<string, Health>, audits: seq<Audit>) {
    ClosedBut(before, after, audits, {})
  }

  lemma CloseNext(before: map<string, Health>, after: map<string, Health>, audits: seq<Audit>, todo: set<string>, agent: string)
    requires ClosedBut(before, after, audits, todo) && agent in todo && agent in before
    ensures var e := OnReset(agent, after[agent]);
            ClosedBut(before, after[agent := e.health], audits + e.audits, todo - {agent})
  {
    var e := OnReset(agent, after[agent]);
    assert ClosedOne(before, after, audits, todo, agent);
    OfClosed(audits, e.audits, agent);
    var after', audits', todo' := after[agent := e.health], audits + e.audits, todo - {agent};
    forall a ensures ClosedOne(before, after', audits', todo', a) {
      assert ClosedOne(before, after, audits, todo, a);
    }
  }

  /** The agent, known or not, went through one reset. */
  predicate Renewed(c: Config, s: Snapshot, s': Snapshot, agent: string) {
    var o := Step(c, agent, View(s, agent), Reset);
    View(s', agent) == o.breaker && Of(s'.pending, agent) == Of(s.pending, agent) + o.audits
  }

  lemma RenewedTracks(c: Config, s: Snapshot, s': Snapshot, audits: seq<Audit>, agent: string)
    requires Tracks(c, s, agent) && AllClosed(s.health, s'.health, audits) && s'.failures == map[]
    requires s'.pending == s.pending + audits && s'.deferred == s.deferred + audits
    requires s'.calls == map a | a in s.calls.Keys + s.health.Keys :: CallsOf(s, a) + [Reset]
    ensures Renewed(c, s, s', agent) && Tracks(c, s', agent)
  {
    assert ClosedOne(s.health, s'.health, audits, {}, agent);
    OfAppend(s.pending, audits, agent);
    OfAppend(s.deferred, audits, agent);
    if agent in s'.calls {
      RunNext(c, agent, CallsOf(s, agent), Reset);
    }
  }

  class FaultIsolator {
    const config: Config
    const hasBus: bool
    var health: map<string, Health>
    var failures: map<string, seq<Failure>>
    var pending: seq<Audit>
    ghost var calls: map<string, seq<Input>>
    ghost var deferred: seq<Audit>

    ghost function Snap(): Snapshot
      reads this
    {
      Snapshot(health, failures, pending, calls, deferred)
    }

    ghost predicate Valid()
      reads this
    {
      Sound(config) && TracksAll(config, Snap())
    }

    constructor (failureThreshold: int, window: real, cooldown: real, successThreshold: int, hasBus: bool)
      ensures Valid() && this.hasBus == hasBus
      ensures config == Configure(failureThreshold, window, cooldown, successThreshold)
      ensures Snap() == Snapshot(map[], map[], [], map[], [])
    {
      config := Configure(failureThreshold, window, cooldown, successThreshold);
      this.hasBus := hasBus;
      health, failures, pending := map[], map[], [];
      calls, deferred := map[], [];
    }

    method RecordSuccess(agent: string, now: real)
      requires Valid()
      modifies this
      ensures Valid()
      ensures Performed(config, old(Snap()), agent, Success(now), Snap())
    {
      var h := if agent in health then health[agent] else FRESH;
      h := h.(successCount := h.successCount + 1);
      var audits: seq<Audit> := [];
      if h.circuit == Open && h.openedAt.Some? && now - h.openedAt.value >= config.cooldown {
        audits := [CircuitHalfOpened(agent, now - h.openedAt.value)];
        h := h.(circuit := HalfOpen, halfOpenSuccesses := 0, consecutiveFailures := 0);
      }
      if h.circuit == HalfOpen {
        h := h.(consecutiveFailures := 0, halfOpenSuccesses := h.halfOpenSuccesses + 1);
        if h.halfOpenSuccesses >= config.successThreshold {
          h := h.(circuit := Closed, openedAt := None, halfOpenSuccesses := 0, consecutiveFailures := 0);
          audits := audits + [CircuitClosed(agent, HalfOpen, Recovered)];
        }
      }
      health := health[agent := h];
      pending := pending + audits;
      deferred := deferred + audits;
      calls := calls[agent := CallsOf(Snap(), agent) + [Success(now)]];
      PerformedKeepsTracks(config, old(Snap()), agent, Success(now), Snap());
    }

    method RecordFailure(agent: string, action: string, error: string, stamp: real, now: real)
      requires Valid()
      modifies this
      ensures Valid()
      ensures Performed(config, old(Snap()), agent, Fail(Failure(action, Truncated(error), stamp), now), Snap())
    {
      var x := Failure(action, Truncated(error), stamp);
      var h := if agent in health then health[agent] else FRESH;
      var buffer := LastN(config.cap, (if agent in failures then failures[agent] else []) + [x]);
      buffer := Prune(buffer, now - config.window);
      var audits;
      h, audits := CountFailure(agent, h, x, |buffer|);
      health := health[agent := h];
      failures := failures[agent := buffer];
      pending := pending + audits;
      deferred := deferred + audits;
      calls := calls[agent := CallsOf(Snap(), agent) + [Fail(x, now)]];
      FailPerformed(config, old(Snap()), agent, x, now, h, audits, Snap());
      PerformedKeepsTracks(config, old(Snap()), agent, Fail(x, now), Snap());
    }

    /** The counters, the threshold test and the audit events of one failure. */
    method CountFailure(agent: string, before: Health, x: Failure, recent: nat) returns (h: Health, audits: seq<Audit>)
      requires recent <= config.cap
      ensures Effect(h, audits) == OnFailure(config, agent, before, x, recent)
    {
      h := before.(failureCount := before.failureCount + 1, consecutiveFailures := before.consecutiveFailures + 1);
      audits := [FailureObserved(agent, x)];
      if recent >= config.threshold {
        if h.circuit == Closed {
          h := h.(circuit := Open, openedAt := Some(x.stamp), halfOpenSuccesses := 0);
          audits := audits + [CircuitOpened(agent, Closed, Some(recent))];
        } else if h.circuit == HalfOpen {
          h := h.(circuit := Open, openedAt := Some(x.stamp), halfOpenSuccesses := 0);
          audits := audits + [CircuitOpened(agent, HalfOpen, None)];
        }
      }
    }

    method Prune(buffer: seq<Failure>, cutoff: real) returns (kept: seq<Failure>)
      ensures kept == DropExpired(buffer, cutoff) && |kept| <= |buffer|
    {
      kept := buffer;
      while kept != [] && kept[0].stamp < cutoff
        invariant DropExpired(kept, cutoff) == DropExpired(buffer, cutoff) && |kept| <= |buffer|
        decreases |kept|
      {
        kept := kept[1..];
      }
    }

    /** A query may itself half-open the circuit; an unknown agent is closed and stays unknown. */
    method CircuitState(agent: string, now: real) returns (state: Circuit)
      requires Valid()
      modifies this
      ensures Valid()
      ensures Performed(config, old(Snap()), agent, Query(now), Snap())
      ensures state == View(Snap(), agent).health.circuit == Fold(deferred, agent)
    {
      var audits: seq<Audit> := [];
      if agent in health {
        var h := health[agent];
        if h.circuit == Open && h.openedAt.Some? && now - h.openedAt.value >= config.cooldown {
          audits := [CircuitHalfOpened(agent, now - h.openedAt.value)];
          health := health[agent := h.(circuit := HalfOpen, halfOpenSuccesses := 0, consecutiveFailures := 0)];
        }
      }
      pending := pending + audits;
      deferred := deferred + audits;
      calls := calls[agent := CallsOf(Snap(), agent) + [Query(now)]];
      PerformedKeepsTracks(config, old(Snap()), agent, Query(now), Snap());
      state := if agent in health then health[agent].circuit else Closed;
      FoldIsState(config, Snap(), agent);
    }

    method Reset(agent: string)
      requires Valid()
      modifies this
      ensures Valid()
      ensures Performed(config, old(Snap()), agent, Input.Reset, Snap())
      ensures View(Snap(), agent).health.circuit == Closed && View(Snap(), agent).buffer == []
    {
      var h := if agent in health then health[agent] else FRESH;
      var audits := if h.circuit == Closed then [] else [CircuitClosed(agent, h.circuit, Forced)];
      health := health[agent := Health(Closed, 0, h.successCount, 0, None, 0)];
      failures := failures - {agent};
      pending := pending + audits;
      deferred := deferred + audits;
      calls := calls[agent := CallsOf(Snap(), agent) + [Input.Reset]];
      PerformedKeepsTracks(config, old(Snap()), agent, Input.Reset, Snap());
    }

    /** Every agent is reset; the order of the events follows the dictionary and is left open. */
    method ResetAll()
      requires Valid()
      modifies this
      ensures Valid()
      ensures forall agent :: Renewed(config, old(Snap()), Snap(), agent)
      ensures exists audits :: Defers(old(Snap()), audits, Snap())
    {
      ghost var known := calls.Keys + health.Keys;
      var after, audits := CloseAll(health);
      health := after;
      failures := map[];
      pending := pending + audits;
      deferred := deferred + audits;
      calls := map a | a in known :: CallsOf(old(Snap()), a) + [Input.Reset];
      assert Defers(old(Snap()), audits, Snap());
      forall a ensures Tracks(config, Snap(), a) && Renewed(config, old(Snap()), Snap(), a) {
        RenewedTracks(config, old(Snap()), Snap(), audits, a);
      }
    }

    method CloseAll(before: map<string, Health>) returns (after: map<string, Health>, audits: seq<Audit>)
      ensures AllClosed(before, after, audits)
    {
      after, audits := before, [];
      var todo := before.Keys;
      while todo != {}
        invariant todo <= before.Keys && ClosedBut(before, after, audits, todo)
        decreases todo
      {
        var agent :| agent in todo;
        var h := after[agent];
        var closed := if h.circuit == Closed then [] else [CircuitClosed(agent, h.circuit, Forced)];
        CloseNext(before, after, audits, todo, agent);
        audits := audits + closed;
        after := after[agent := Health(Closed, 0, h.successCount, 0, None, 0)];
        todo := todo - {agent};
      }
      forall a ensures ClosedOne(before, after, audits, {}, a) {}
    }

    /** Snapshot and clear, in one locked section; without a bus the queue is just cleared. */
    method TakePending() returns (batch: seq<Audit>)
      requires Valid()
      modifies this`pending
      ensures Valid() && pending == [] && batch == if hasBus then old(pending) else []
    {
      PendingIrrelevant(config, Snap(), []);
      batch := if hasBus then pending else [];
      pending := [];
    }

    /** Rebuild every agent's deque from the failure events on the bus, which is one more call on each agent;
        circuit states are left alone. */
    method ReplayFromEventBus(stream: seq<Audit>, now: real) returns (count: nat)
      requires Valid()
      modifies this
      ensures Valid()
      ensures !hasBus ==> Snap() == old(Snap()) && count == 0
      ensures hasBus ==> count == TakenUp(config, stream, now) && forall agent :: Rebuilt(config, old(Snap()), Snap(), stream, now, agent)
      ensures health == old(health) && Defers(old(Snap()), [], Snap())
    {
      count := 0;
      if !hasBus {
        return;
      }
      var rebuilt;
      rebuilt, count := RebuildAll(config, stream, now);
      ghost var known := calls.Keys + health.Keys + failures.Keys + rebuilt.Keys;
      failures := rebuilt;
      calls := map a | a in known :: CallsOf(old(Snap()), a) + [Replay(Held(rebuilt, a), now)];
      forall a ensures Tracks(config, Snap(), a) && Rebuilt(config, old(Snap()), Snap(), stream, now, a) {
        RebuiltTracks(config, old(Snap()), Snap(), stream, now, a);
      }
    }
  }

  /** How many events of the stream a replay takes up. */
  function TakenUp(c: Config, stream: seq<Audit>, now: real): nat {
    if stream == [] then 0
    else
      var a := stream[|stream| - 1];
      TakenUp(c, stream[..|stream| - 1], now) +
      if a.FailureObserved? && a.agent != "" && a.failure.stamp >= now - c.window then 1 else 0
  }

  /** One pass over the stream. */
  method RebuildAll(c: Config, stream: seq<Audit>, now: real) returns (rebuilt: map<string, seq<Failure>>, count: nat)
    ensures Rebuilds(c, rebuilt, stream, now) && count == TakenUp(c, stream, now)
  {
    rebuilt, count := map[], 0;
    for i := 0 to |stream|
      invariant Rebuilds(c, rebuilt, stream[..i], now) && count == TakenUp(c, stream[..i], now)
    {
      var a := stream[i];
      assert stream[..i + 1][..i] == stream[..i];
      ghost var before := rebuilt;
      if a.FailureObserved? && a.agent != "" && a.failure.stamp >= now - c.window {
        rebuilt := rebuilt[a.agent := LastN(c.cap, Held(rebuilt, a.agent) + [a.failure])];
        count := count + 1;
      }
      RebuildsNext(c, before, rebuilt, stream[..i], a, now);
      assert stream[..i + 1] == stream[..i] + [a];
    }
    assert stream[..|stream|] == stream;
  }

  /** The agent went through one replay of what the stream holds of it; the empty name has no replay. */
  predicate Rebuilt(c: Config, s: Snapshot, s': Snapshot, stream: seq<Audit>, now: real, agent: string) {
    && View(s', agent) == Step(c, agent, View(s, agent), Replay(Held(s'.failures, agent), now)).breaker
    && (agent != "" ==> View(s', agent).buffer == Replayed(c, stream, agent, now))
    && (CallsOf(s', agent) == CallsOf(s, agent) + [Replay(Held(s'.failures, agent), now)] || View(s', agent) == View(s, agent))
  }

  lemma RebuiltTracks(c: Config, s: Snapshot, s': Snapshot, stream: seq<Audit>, now: real, agent: string)
    requires Tracks(c, s, agent) && Rebuilds(c, s'.failures, stream, now)
    requires s'.health == s.health && s'.deferred == s.deferred
    requires s'.calls == map a | a in s.calls.Keys + s.health.Keys + s.failures.Keys + s'.failures.Keys ::
                           CallsOf(s, a) + [Replay(Held(s'.failures, a), now)]
    ensures Rebuilt(c, s, s', stream, now, agent) && Tracks(c, s', agent)
  {
    if agent in s'.calls {
      RunNext(c, agent, CallsOf(s, agent), Replay(Held(s'.failures, agent), now));
      assert Run(c, agent, CallsOf(s, agent)).audits + [] == Run(c, agent, CallsOf(s, agent)).audits;
    }
  }

  function Held(failures: map<string, seq<Failure>>, agent: string): seq<Failure> {
    if agent in failures then failures[agent] else []
  }

  ghost predicate Rebuilds(c: Config, rebuilt: map<string, seq<Failure>>, stream: seq<Audit>, now: real) {
    forall agent :: agent != "" ==> Held(rebuilt, agent) == Replayed(c, stream, agent, now)
  }

  lemma ReplayedNext(c: Config, stream: seq<Audit>, a: Audit, agent: string, now: real)
    ensures Replayed(c, stream + [a], agent, now) ==
            if a.FailureObserved? && a.agent == agent && a.failure.stamp >= now - c.window
            then LastN(c.cap, Replayed(c, stream, agent, now) + [a.failure]) else Replayed(c, stream, agent, now)
  {
    FailuresInAppend(stream, a, agent);
    if a.FailureObserved? && a.agent == agent {
      ReplayedMore(c, stream, stream + [a], agent, a.failure, now);
    }
  }

  lemma ReplayedMore(c: Config, stream: seq<Audit>, more: seq<Audit>, agent: string, x: Failure, now: real)
    requires FailuresIn(more, agent) == FailuresIn(stream, agent) + [x]
    ensures x.stamp >= now - c.window ==> Replayed(c, more, agent, now) == LastN(c.cap, Replayed(c, stream, agent, now) + [x])
    ensures x.stamp < now - c.window ==> Replayed(c, more, agent, now) == Replayed(c, stream, agent, now)
  {
    CapWindow(c.cap, FailuresIn(stream, agent), x, now - c.window);
  }

  lemma CapWindow(cap: nat, s: seq<Failure>, x: Failure, cutoff: real)
    ensures x.stamp >= cutoff ==> LastN(cap, InWindow(s + [x], cutoff)) == LastN(cap, LastN(cap, InWindow(s, cutoff)) + [x])
    ensures x.stamp < cutoff ==> LastN(cap, InWindow(s + [x], cutoff)) == LastN(cap, InWindow(s, cutoff))
  {
    InWindowAppend(s, x, cutoff);
    CapAppend(cap, InWindow(s, cutoff), x);
  }

  lemma InWindowAppend(s: seq<Failure>, x: Failure, cutoff: real)
    ensures InWindow(s + [x], cutoff) == if x.stamp < cutoff then InWindow(s, cutoff) else InWindow(s, cutoff) + [x]
  {
    assert (s + [x])[..|s|] == s;
  }

  lemma RebuildsNext(c: Config, before: map<string, seq<Failure>>, after: map<string, seq<Failure>>, stream: seq<Audit>, a: Audit, now: real)
    requires Rebuilds(c, before, stream, now)
    requires after == if a.FailureObserved? && a.agent != "" && a.failure.stamp >= now - c.window
                      then before[a.agent := LastN(c.cap, Held(before, a.agent) + [a.failure])] else before
    ensures Rebuilds(c, after, stream + [a], now)
  {
    forall agent | agent != "" ensures Held(after, agent) == Replayed(c, stream + [a], agent, now) {
      ReplayedNext(c, stream, a, agent, now);
    }
  }
}
