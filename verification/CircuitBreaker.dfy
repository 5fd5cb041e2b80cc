/** One agent's circuit breaker (nth_dao/fault_isolation.py): the three-state machine, its bounded failure
    buffer and its audit events. Times are seconds since the epoch; each call reads a non-decreasing clock. */
module CircuitBreaker {
  import opened Prelude

  datatype Circuit = Closed | Open | HalfOpen

  datatype Failure = Failure(action: string, error: string, stamp: real)

  datatype Health = Health(
    circuit: Circuit, failureCount: nat, successCount: nat, consecutiveFailures: nat,
    openedAt: Option<real>, halfOpenSuccesses: nat)

  const FRESH := Health(Closed, 0, 0, 0, None, 0)

  datatype CloseReason = Recovered | Forced

  datatype Audit =
    | FailureObserved(agent: string, failure: Failure)
    | CircuitOpened(agent: string, prev: Circuit, count: Option<nat>)
    | CircuitHalfOpened(agent: string, openedFor: real)
    | CircuitClosed(agent: string, prev: Circuit, reason: CloseReason)

  /** The constructor's clamped settings. */
  datatype Config = Config(threshold: nat, cap: nat, window: real, cooldown: real, successThreshold: nat)

  function MaxInt(a: int, b: int): int { if a >= b then a else b }

  function MaxReal(a: real, b: real): real { if a >= b then a else b }

  function Configure(failureThreshold: int, window: real, cooldown: real, successThreshold: int): (c: Config)
    ensures Sound(c)
    ensures failureThreshold >= 1 ==> c.threshold == failureThreshold
    ensures c.cap >= 32 && c.cap >= 4 * c.threshold && (c.cap == 32 || c.cap == 4 * failureThreshold)
    ensures window >= 0.01 ==> c.window == window
    ensures cooldown >= 0.01 ==> c.cooldown == cooldown
    ensures successThreshold >= 1 ==> c.successThreshold == successThreshold
    ensures failureThreshold < 1 ==> c.threshold == 1
    ensures c.window >= 0.01 && c.cooldown >= 0.01
  {
    Config(MaxInt(1, failureThreshold), MaxInt(failureThreshold * 4, 32), MaxReal(0.01, window), MaxReal(0.01, cooldown),
           MaxInt(1, successThreshold))
  }

  /** The buffer is large enough to hold a threshold's worth of failures. */
  predicate Sound(c: Config) {
    1 <= c.threshold <= c.cap && c.window > 0.0 && c.cooldown > 0.0 && c.successThreshold >= 1
  }

  // ---------------------------------------------------------------- the buffer

  /** Expired records leave from the left until the first unexpired one. */
  function DropExpired(s: seq<Failure>, cutoff: real): seq<Failure> {
    if s != [] && s[0].stamp < cutoff then DropExpired(s[1..], cutoff) else s
  }

  function InWindow(s: seq<Failure>, cutoff: real): seq<Failure> {
    if s == [] then []
    else
      var rest, last := InWindow(s[..|s| - 1], cutoff), s[|s| - 1];
      if last.stamp < cutoff then rest else rest + [last]
  }

  predicate Sorted(s: seq<Failure>) {
    forall i, j :: 0 <= i < j < |s| ==> s[i].stamp <= s[j].stamp
  }

  lemma {:induction false} DropExpiredIs(s: seq<Failure>, cutoff: real, k: nat)
    requires k <= |s| && (forall i :: 0 <= i < k ==> s[i].stamp < cutoff) && (k < |s| ==> s[k].stamp >= cutoff)
    ensures DropExpired(s, cutoff) == s[k..]
  {
    if k > 0 {
      forall i | 0 <= i < k - 1 ensures s[1..][i].stamp < cutoff { assert s[1..][i] == s[i + 1]; }
      DropExpiredIs(s[1..], cutoff, k - 1);
      assert s[1..][k - 1..] == s[k..];
    }
  }

  lemma {:induction false} Cut(s: seq<Failure>, cutoff: real) returns (k: nat)
    ensures k <= |s| && (forall i :: 0 <= i < k ==> s[i].stamp < cutoff) && (k < |s| ==> s[k].stamp >= cutoff)
  {
    k := 0;
    while k < |s| && s[k].stamp < cutoff
      invariant 0 <= k <= |s| && forall i :: 0 <= i < k ==> s[i].stamp < cutoff
    {
      k := k + 1;
    }
  }

  /** On records in time order, dropping from the left is filtering by the window. */
  lemma {:induction false} DropIsFilter(s: seq<Failure>, cutoff: real)
    requires Sorted(s)
    ensures DropExpired(s, cutoff) == InWindow(s, cutoff)
  {
    if s != [] {
      var n := |s| - 1;
      var init := s[..n];
      DropIsFilter(init, cutoff);
      var k := Cut(init, cutoff);
      DropExpiredIs(init, cutoff, k);
      assert k < n ==> init[k].stamp <= s[n].stamp;
      if s[n].stamp < cutoff {
        DropExpiredIs(s, cutoff, n + 1);
      } else {
        DropExpiredIs(s, cutoff, k);
      }
      Halves(s, k);
    }
  }

  lemma Halves(s: seq<Failure>, k: nat)
    requires k < |s|
    ensures s[k..] == s[..|s| - 1][k..] + [s[|s| - 1]] && s[|s|..] == [] && s[..|s| - 1][|s| - 1..] == []
  {
  }

  lemma DropTail(s: seq<Failure>, cutoff: real, k: nat, m: nat)
    requires k <= |s| && (forall i :: 0 <= i < k ==> s[i].stamp < cutoff) && (k < |s| ==> s[k].stamp >= cutoff)
    requires m <= |s| && (k < m < |s| ==> s[m].stamp >= cutoff)
    ensures DropExpired(s[m..], cutoff) == s[if m <= k then k else m..]
  {
    var tail := s[m..];
    if m <= k {
      forall i | 0 <= i < k - m ensures tail[i].stamp < cutoff { assert tail[i] == s[m + i]; }
      DropExpiredIs(tail, cutoff, k - m);
      assert tail[k - m..] == s[k..];
    } else {
      DropExpiredIs(tail, cutoff, 0);
    }
  }

  /** Capping and expiring commute on records in time order. */
  lemma CapThenDrop(n: nat, s: seq<Failure>, cutoff: real)
    requires Sorted(s)
    ensures DropExpired(LastN(n, s), cutoff) == LastN(n, DropExpired(s, cutoff))
  {
    var k := Cut(s, cutoff);
    DropExpiredIs(s, cutoff, k);
    var m := if |s| <= n then 0 else |s| - n;
    assert LastN(n, s) == s[m..];
    assert k < m < |s| ==> s[k].stamp <= s[m].stamp;
    DropTail(s, cutoff, k, m);
    TailOfTail(n, s, k);
  }

  lemma TailOfTail(n: nat, s: seq<Failure>, k: nat)
    requires k <= |s|
    ensures var m := if |s| <= n then 0 else |s| - n; LastN(n, s[k..]) == s[if m <= k then k else m..]
  {
  }

  lemma DropTwice(s: seq<Failure>, early: real, late: real)
    requires early <= late
    ensures DropExpired(DropExpired(s, early), late) == DropExpired(s, late)
  {
    var k := Cut(s, early);
    DropExpiredIs(s, early, k);
    var m := Cut(s[k..], late);
    DropExpiredIs(s[k..], late, m);
    forall i | 0 <= i < k + m ensures s[i].stamp < late {
      if i >= k { assert s[i] == s[k..][i - k]; }
    }
    assert k + m < |s| ==> s[k + m] == s[k..][m];
    DropExpiredIs(s, late, k + m);
    assert s[k..][m..] == s[k + m..];
  }

  lemma DropAppend(s: seq<Failure>, x: Failure, cutoff: real)
    requires x.stamp >= cutoff
    ensures DropExpired(s + [x], cutoff) == DropExpired(s, cutoff) + [x]
  {
    var k := Cut(s, cutoff);
    DropExpiredIs(s, cutoff, k);
    DropExpiredIs(s + [x], cutoff, k);
    assert (s + [x])[k..] == s[k..] + [x];
  }

  lemma CapAppend(n: nat, s: seq<Failure>, x: Failure)
    ensures LastN(n, LastN(n, s) + [x]) == LastN(n, s + [x])
  {
  }

  // ---------------------------------------------------------------- the machine

  datatype Effect = Effect(health: Health, audits: seq<Audit>)

  /** OPEN becomes HALF_OPEN once the cooldown has elapsed. */
  function Probe(c: Config, agent: string, h: Health, now: real): Effect {
    if h.circuit == Open && h.openedAt.Some? && now - h.openedAt.value >= c.cooldown then
      Effect(h.(circuit := HalfOpen, halfOpenSuccesses := 0, consecutiveFailures := 0),
             [CircuitHalfOpened(agent, now - h.openedAt.value)])
    else Effect(h, [])
  }

  function OnSuccess(c: Config, agent: string, h: Health, now: real): Effect {
    var p := Probe(c, agent, h.(successCount := h.successCount + 1), now);
    if p.health.circuit != HalfOpen then p
    else
      var h := p.health.(consecutiveFailures := 0, halfOpenSuccesses := p.health.halfOpenSuccesses + 1);
      if h.halfOpenSuccesses < c.successThreshold then Effect(h, p.audits)
      else Effect(h.(circuit := Closed, openedAt := None, halfOpenSuccesses := 0),
                  p.audits + [CircuitClosed(agent, HalfOpen, Recovered)])
  }

  /** `recent` is the number of failures in the window, this one included. A half-open circuit reopens only
      when the window also holds a threshold's worth. */
  function OnFailure(c: Config, agent: string, h: Health, x: Failure, recent: nat): Effect {
    var h := h.(failureCount := h.failureCount + 1, consecutiveFailures := h.consecutiveFailures + 1);
    var seen := [FailureObserved(agent, x)];
    if recent < c.threshold || h.circuit == Open then Effect(h, seen)
    else
      var count := if h.circuit == Closed then Some(if recent <= c.cap then recent else c.cap) else None;
      Effect(h.(circuit := Open, openedAt := Some(x.stamp), halfOpenSuccesses := 0),
             seen + [CircuitOpened(agent, h.circuit, count)])
  }

  function OnReset(agent: string, h: Health): Effect {
    Effect(Health(Closed, 0, h.successCount, 0, None, 0),
           if h.circuit == Closed then [] else [CircuitClosed(agent, h.circuit, Forced)])
  }

  /** Calls on one agent. A failure is stamped before the window is read; a replay puts back what the event bus
      holds of the agent's recent failures. */
  datatype Input =
    | Success(now: real)
    | Fail(x: Failure, now: real)
    | Query(now: real)
    | Reset
    | Replay(rebuilt: seq<Failure>, now: real)

  datatype Breaker = Breaker(health: Health, buffer: seq<Failure>)

  datatype Outcome = Outcome(breaker: Breaker, audits: seq<Audit>)

  function Buffered(c: Config, buffer: seq<Failure>, x: Failure, now: real): seq<Failure> {
    DropExpired(LastN(c.cap, buffer + [x]), now - c.window)
  }

  function Step(c: Config, agent: string, b: Breaker, input: Input): Outcome {
    match input
    case Success(now) =>
      var e := OnSuccess(c, agent, b.health, now);
      Outcome(Breaker(e.health, b.buffer), e.audits)
    case Fail(x, now) =>
      var buffer := Buffered(c, b.buffer, x, now);
      var e := OnFailure(c, agent, b.health, x, |buffer|);
      Outcome(Breaker(e.health, buffer), e.audits)
    case Query(now) =>
      var e := Probe(c, agent, b.health, now);
      Outcome(Breaker(e.health, b.buffer), e.audits)
    case Reset =>
      var e := OnReset(agent, b.health);
      Outcome(Breaker(e.health, []), e.audits)
    case Replay(rebuilt, _) => Outcome(Breaker(b.health, rebuilt), [])
  }

  function Run(c: Config, agent: string, run: seq<Input>): Outcome {
    if run == [] then Outcome(Breaker(FRESH, []), [])
    else
      var before := Run(c, agent, run[..|run| - 1]);
      var o := Step(c, agent, before.breaker, run[|run| - 1]);
      Outcome(o.breaker, before.audits + o.audits)
  }

  function Clock(run: seq<Input>): real {
    if run == [] then 0.0
    else match run[|run| - 1]
         case Reset => Clock(run[..|run| - 1])
         case i => i.now
  }

  predicate TimeOrdered(run: seq<Input>) {
    run == [] ||
    (var init, last := run[..|run| - 1], run[|run| - 1];
     TimeOrdered(init) &&
     match last
     case Reset => true
     case Fail(x, now) => Clock(init) <= x.stamp <= now
     case i => Clock(init) <= i.now)
  }

  /** What a replay rebuilt is unexpired, fits, and is in time order. */
  predicate GoodReplay(c: Config, i: Input) {
    i.Replay? ==>
      && |i.rebuilt| <= c.cap && Sorted(i.rebuilt)
      && forall k :: 0 <= k < |i.rebuilt| ==> i.now - c.window <= i.rebuilt[k].stamp <= i.now
  }

  ghost predicate ReplaysInOrder(c: Config, run: seq<Input>) {
    forall i :: 0 <= i < |run| ==> GoodReplay(c, run[i])
  }

  // ---------------------------------------------------------------- the bounded buffer refines the full history

  /** The failures the breaker may still know: those since the latest reset, or since the latest replay on top of
      what it rebuilt. */
  function SinceReset(run: seq<Input>): seq<Failure> {
    if run == [] then []
    else
      var before, last := SinceReset(run[..|run| - 1]), run[|run| - 1];
      match last case Reset => [] case Fail(x, _) => before + [x] case Replay(rebuilt, _) => rebuilt case _ => before
  }

  /** The cutoff of the latest pruning. */
  function Cutoff(c: Config, run: seq<Input>): real {
    if run == [] then 0.0 - c.window
    else match run[|run| - 1]
         case Fail(_, now) => now - c.window
         case Replay(_, now) => now - c.window
         case _ => Cutoff(c, run[..|run| - 1])
  }

  lemma {:induction false} HistorySorted(c: Config, run: seq<Input>)
    requires Sound(c) && TimeOrdered(run) && ReplaysInOrder(c, run)
    ensures Sorted(SinceReset(run)) && (forall x :: x in SinceReset(run) ==> x.stamp <= Clock(run))
    ensures Cutoff(c, run) <= Clock(run) - c.window
  {
    if run != [] {
      HistorySorted(c, run[..|run| - 1]);
      assert GoodReplay(c, run[|run| - 1]);
    }
  }

  lemma BufferStep(c: Config, hist: seq<Failure>, cut: real, x: Failure, now: real)
    requires Sorted(hist + [x]) && cut <= x.stamp && cut <= now - c.window
    ensures Buffered(c, LastN(c.cap, DropExpired(hist, cut)), x, now) ==
            LastN(c.cap, DropExpired(hist + [x], now - c.window))
  {
    CapAppend(c.cap, DropExpired(hist, cut), x);
    DropAppend(hist, x, cut);
    DropKeepsSorted(hist + [x], cut);
    CapThenDrop(c.cap, DropExpired(hist + [x], cut), now - c.window);
    DropTwice(hist + [x], cut, now - c.window);
  }

  lemma DropKeepsSorted(s: seq<Failure>, cutoff: real)
    requires Sorted(s)
    ensures Sorted(DropExpired(s, cutoff))
  {
    var k := Cut(s, cutoff);
    DropExpiredIs(s, cutoff, k);
  }

  /** After any run the deque is the last `cap` of the failures since the latest reset that were in the
      window when it was last pruned. */
  lemma {:induction false} BufferIsRecentHistory(c: Config, agent: string, run: seq<Input>)
    requires Sound(c) && TimeOrdered(run) && ReplaysInOrder(c, run)
    ensures Run(c, agent, run).breaker.buffer == LastN(c.cap, InWindow(SinceReset(run), Cutoff(c, run)))
  {
    BufferAsDrop(c, agent, run);
    HistorySorted(c, run);
    DropIsFilter(SinceReset(run), Cutoff(c, run));
  }

  lemma {:induction false} BufferAsDrop(c: Config, agent: string, run: seq<Input>)
    requires Sound(c) && TimeOrdered(run) && ReplaysInOrder(c, run)
    ensures Run(c, agent, run).breaker.buffer == LastN(c.cap, DropExpired(SinceReset(run), Cutoff(c, run)))
  {
    if run != [] {
      var init, last := run[..|run| - 1], run[|run| - 1];
      BufferAsDrop(c, agent, init);
      assert GoodReplay(c, run[|run| - 1]);
      if last.Fail? { FailIsInOrder(c, init, last); }
      BufferNext(c, agent, Run(c, agent, init).breaker, SinceReset(init), Cutoff(c, init), last);
    }
  }

  /** How one call changes the failures that count and the cutoff. */
  function HistoryAfter(hist: seq<Failure>, last: Input): seq<Failure> {
    match last case Reset => [] case Fail(x, _) => hist + [x] case Replay(rebuilt, _) => rebuilt case _ => hist
  }

  function CutoffAfter(c: Config, cut: real, last: Input): real {
    match last case Fail(_, now) => now - c.window case Replay(_, now) => now - c.window case _ => cut
  }

  lemma BufferNext(c: Config, agent: string, b: Breaker, hist: seq<Failure>, cut: real, last: Input)
    requires b.buffer == LastN(c.cap, DropExpired(hist, cut)) && GoodReplay(c, last)
    requires last.Fail? ==> Sorted(hist + [last.x]) && cut <= last.x.stamp && cut <= last.now - c.window
    ensures Step(c, agent, b, last).breaker.buffer ==
            LastN(c.cap, DropExpired(HistoryAfter(hist, last), CutoffAfter(c, cut, last)))
  {
    if last.Fail? {
      BufferStep(c, hist, cut, last.x, last.now);
    } else if last.Replay? {
      DropExpiredIs(last.rebuilt, last.now - c.window, 0);
    }
  }

  lemma FailIsInOrder(c: Config, init: seq<Input>, last: Input)
    requires Sound(c) && TimeOrdered(init) && ReplaysInOrder(c, init) && last.Fail? && Clock(init) <= last.x.stamp <= last.now
    ensures Sorted(SinceReset(init) + [last.x]) && Cutoff(c, init) <= last.x.stamp && Cutoff(c, init) <= last.now - c.window
  {
    HistorySorted(c, init);
    var hist := SinceReset(init);
    forall i | 0 <= i < |hist| ensures hist[i].stamp <= last.x.stamp { assert hist[i] in hist; }
  }

  /** The same machine with an unbounded log and a plain count of the failures in the window. */
  function IdealStep(c: Config, agent: string, b: Breaker, input: Input): Outcome {
    match input
    case Success(now) => var e := OnSuccess(c, agent, b.health, now); Outcome(Breaker(e.health, b.buffer), e.audits)
    case Fail(x, now) =>
      var log := b.buffer + [x];
      var e := OnFailure(c, agent, b.health, x, |InWindow(log, now - c.window)|);
      Outcome(Breaker(e.health, log), e.audits)
    case Query(now) => var e := Probe(c, agent, b.health, now); Outcome(Breaker(e.health, b.buffer), e.audits)
    case Reset => var e := OnReset(agent, b.health); Outcome(Breaker(e.health, []), e.audits)
    case Replay(rebuilt, _) => Outcome(Breaker(b.health, rebuilt), [])
  }

  function IdealRun(c: Config, agent: string, run: seq<Input>): Outcome {
    if run == [] then Outcome(Breaker(FRESH, []), [])
    else
      var before := IdealRun(c, agent, run[..|run| - 1]);
      var o := IdealStep(c, agent, before.breaker, run[|run| - 1]);
      Outcome(o.breaker, before.audits + o.audits)
  }

  lemma OnFailureCapped(c: Config, agent: string, h: Health, x: Failure, recent: nat)
    requires Sound(c)
    ensures OnFailure(c, agent, h, x, recent) == OnFailure(c, agent, h, x, if recent <= c.cap then recent else c.cap)
  {
  }

  /** Bounding the deque changes no state, counter or audit event of any run. */
  lemma {:induction false} BoundedRefinesIdeal(c: Config, agent: string, run: seq<Input>)
    requires Sound(c) && TimeOrdered(run) && ReplaysInOrder(c, run)
    ensures Run(c, agent, run).breaker.health == IdealRun(c, agent, run).breaker.health
    ensures Run(c, agent, run).audits == IdealRun(c, agent, run).audits
    ensures IdealRun(c, agent, run).breaker.buffer == SinceReset(run)
  {
    if run != [] {
      var init, last := run[..|run| - 1], run[|run| - 1];
      BoundedRefinesIdeal(c, agent, init);
      BufferIsRecentHistory(c, agent, run);
      SameStep(c, agent, Run(c, agent, init).breaker, IdealRun(c, agent, init).breaker, last);
    }
  }

  /** One call has the same effect in both machines when the deque holds the capped in-window part of the log. */
  lemma SameStep(c: Config, agent: string, b: Breaker, ideal: Breaker, last: Input)
    requires Sound(c) && b.health == ideal.health
    requires last.Fail? ==> Buffered(c, b.buffer, last.x, last.now) == LastN(c.cap, InWindow(ideal.buffer + [last.x], last.now - c.window))
    ensures Step(c, agent, b, last).breaker.health == IdealStep(c, agent, ideal, last).breaker.health
    ensures Step(c, agent, b, last).audits == IdealStep(c, agent, ideal, last).audits
  {
    if last.Fail? {
      OnFailureCapped(c, agent, b.health, last.x, |InWindow(ideal.buffer + [last.x], last.now - c.window)|);
    }
  }

  // ---------------------------------------------------------------- the audit trail

  function Fold(audits: seq<Audit>, agent: string): Circuit {
    if audits == [] then Closed
    else
      var a := audits[|audits| - 1];
      if a.agent != agent then Fold(audits[..|audits| - 1], agent)
      else match a
           case FailureObserved(_, _) => Fold(audits[..|audits| - 1], agent)
           case CircuitOpened(_, _, _) => Open
           case CircuitHalfOpened(_, _) => HalfOpen
           case CircuitClosed(_, _, _) => Closed
  }

  lemma FoldAppend(audits: seq<Audit>, a: Audit, agent: string)
    ensures Fold(audits + [a], agent) ==
            if a.agent != agent || a.FailureObserved? then Fold(audits, agent)
            else if a.CircuitOpened? then Open else if a.CircuitHalfOpened? then HalfOpen else Closed
  {
    assert (audits + [a])[..|audits|] == audits;
  }

  /** The state after one event, and after the at most two events of one call. */
  function Changed(state: Circuit, a: Audit, agent: string): Circuit {
    if a.agent != agent then state
    else match a
         case FailureObserved(_, _) => state
         case CircuitOpened(_, _, _) => Open
         case CircuitHalfOpened(_, _) => HalfOpen
         case CircuitClosed(_, _, _) => Closed
  }

  function ChangedBy(state: Circuit, audits: seq<Audit>, agent: string): Circuit {
    if |audits| == 0 then state
    else if |audits| == 1 then Changed(state, audits[0], agent)
    else Changed(Changed(state, audits[0], agent), audits[1], agent)
  }

  lemma FoldSmall(trail: seq<Audit>, audits: seq<Audit>, agent: string)
    requires |audits| <= 2
    ensures Fold(trail + audits, agent) == ChangedBy(Fold(trail, agent), audits, agent)
  {
    if |audits| == 0 {
      assert trail + audits == trail;
    } else {
      FoldAppend(trail, audits[0], agent);
      if |audits| == 1 {
        assert audits == [audits[0]];
      } else {
        FoldAppend(trail + [audits[0]], audits[1], agent);
        assert trail + audits == trail + [audits[0]] + [audits[1]];
      }
    }
  }

  /** The events of a call tell how it changed the circuit. */
  predicate Tells(agent: string, h: Health, e: Effect) {
    |e.audits| <= 2 && ChangedBy(h.circuit, e.audits, agent) == e.health.circuit
  }

  lemma ProbeTells(c: Config, agent: string, h: Health, now: real)
    ensures Tells(agent, h, Probe(c, agent, h, now)) && |Probe(c, agent, h, now).audits| <= 1
  {
  }

  lemma SuccessTells(c: Config, agent: string, h: Health, now: real)
    ensures Tells(agent, h, OnSuccess(c, agent, h, now))
  {
    ProbeTells(c, agent, h.(successCount := h.successCount + 1), now);
  }

  lemma FailureTells(c: Config, agent: string, h: Health, x: Failure, recent: nat)
    ensures Tells(agent, h, OnFailure(c, agent, h, x, recent))
  {
  }

  lemma ResetTells(agent: string, h: Health)
    ensures Tells(agent, h, OnReset(agent, h))
  {
  }

  lemma StepTells(c: Config, agent: string, b: Breaker, input: Input)
    ensures var o := Step(c, agent, b, input); Tells(agent, b.health, Effect(o.breaker.health, o.audits))
  {
    match input
    case Success(now) => SuccessTells(c, agent, b.health, now);
    case Fail(x, now) => FailureTells(c, agent, b.health, x, |Buffered(c, b.buffer, x, now)|);
    case Query(now) => ProbeTells(c, agent, b.health, now);
    case Reset => ResetTells(agent, b.health);
    case Replay(_, _) =>
  }

  /** What one step adds to the trail moves the folded state exactly as it moves the circuit. */
  lemma FoldStep(c: Config, agent: string, b: Breaker, input: Input, trail: seq<Audit>)
    requires Fold(trail, agent) == b.health.circuit
    ensures Fold(trail + Step(c, agent, b, input).audits, agent) == Step(c, agent, b, input).breaker.health.circuit
  {
    StepTells(c, agent, b, input);
    FoldSmall(trail, Step(c, agent, b, input).audits, agent);
  }

  /** Folding the deferred events reconstructs the circuit state at every point of every run. */
  lemma {:induction false} TrailReconstructsState(c: Config, agent: string, run: seq<Input>)
    ensures Fold(Run(c, agent, run).audits, agent) == Run(c, agent, run).breaker.health.circuit
  {
    if run != [] {
      var before := Run(c, agent, run[..|run| - 1]);
      TrailReconstructsState(c, agent, run[..|run| - 1]);
      FoldStep(c, agent, before.breaker, run[|run| - 1], before.audits);
    }
  }

  // ---------------------------------------------------------------- recovery

  function Successes(run: seq<Input>): nat {
    if run == [] then 0 else Successes(run[..|run| - 1]) + if run[|run| - 1].Success? then 1 else 0
  }

  function AuditsAt(c: Config, agent: string, run: seq<Input>, i: nat): seq<Audit>
    requires i < |run|
  {
    Step(c, agent, Run(c, agent, run[..i]).breaker, run[i]).audits
  }

  predicate HalfOpensAt(c: Config, agent: string, run: seq<Input>, i: nat)
    requires i < |run|
  {
    exists a :: a in AuditsAt(c, agent, run, i) && a.CircuitHalfOpened?
  }

  predicate ChangesAt(c: Config, agent: string, run: seq<Input>, i: nat)
    requires i < |run|
  {
    exists a :: a in AuditsAt(c, agent, run, i) && !a.FailureObserved?
  }

  /** Call `k` half-opened the circuit and nothing has changed its state since. */
  ghost predicate ProbingSince(c: Config, agent: string, run: seq<Input>, k: nat) {
    && k < |run| && HalfOpensAt(c, agent, run, k)
    && (forall i :: k < i < |run| ==> !ChangesAt(c, agent, run, i))
    && Run(c, agent, run).breaker.health.halfOpenSuccesses == Successes(run[k..])
  }

  lemma StepNow(c: Config, agent: string, run: seq<Input>)
    requires run != []
    ensures AuditsAt(c, agent, run, |run| - 1) == Step(c, agent, Run(c, agent, run[..|run| - 1]).breaker, run[|run| - 1]).audits
  {
  }

  lemma AuditsPrefix(c: Config, agent: string, run: seq<Input>, last: Input, i: nat)
    requires i < |run|
    ensures AuditsAt(c, agent, run + [last], i) == AuditsAt(c, agent, run, i)
  {
    assert (run + [last])[..i] == run[..i];
  }

  lemma StartsProbing(c: Config, agent: string, init: seq<Input>, last: Input)
    requires Run(c, agent, init).breaker.health.circuit != HalfOpen
    requires Run(c, agent, init + [last]).breaker.health.circuit == HalfOpen
    ensures ProbingSince(c, agent, init + [last], |init|)
  {
    var run := init + [last];
    assert run[..|run| - 1] == init && run[|init|..] == [last] && run[..|init|] == init;
    var b := Run(c, agent, init).breaker;
    var audits := Step(c, agent, b, last).audits;
    assert AuditsAt(c, agent, run, |init|) == audits;
    assert audits[0].CircuitHalfOpened? && audits[0] in audits;
    assert Successes([last]) == if last.Success? then 1 else 0 by { assert [last][..0] == []; }
  }

  lemma KeepsProbing(c: Config, agent: string, init: seq<Input>, last: Input, k: nat)
    requires ProbingSince(c, agent, init, k) && Run(c, agent, init).breaker.health.circuit == HalfOpen
    requires Run(c, agent, init + [last]).breaker.health.circuit == HalfOpen
    ensures ProbingSince(c, agent, init + [last], k)
  {
    var run := init + [last];
    ProbeEnds(c, agent, init, last, k);
    assert run[..|init|] == init;
    ProbeStep(c, agent, Run(c, agent, init).breaker, last);
    assert AuditsAt(c, agent, run, |init|) == Step(c, agent, Run(c, agent, init).breaker, last).audits;
  }

  lemma ProbeStep(c: Config, agent: string, b: Breaker, last: Input)
    requires b.health.circuit == HalfOpen && Step(c, agent, b, last).breaker.health.circuit == HalfOpen
    ensures forall a :: a in Step(c, agent, b, last).audits ==> a.FailureObserved?
    ensures Step(c, agent, b, last).breaker.health.halfOpenSuccesses ==
            b.health.halfOpenSuccesses + if last.Success? then 1 else 0
  {
  }

  lemma {:induction false} HalfOpenIsProbing(c: Config, agent: string, run: seq<Input>) returns (k: nat)
    requires Run(c, agent, run).breaker.health.circuit == HalfOpen
    ensures ProbingSince(c, agent, run, k)
  {
    var init, last := run[..|run| - 1], run[|run| - 1];
    assert run == init + [last];
    if Run(c, agent, init).breaker.health.circuit == HalfOpen {
      k := HalfOpenIsProbing(c, agent, init);
      KeepsProbing(c, agent, init, last, k);
    } else {
      StartsProbing(c, agent, init, last);
      k := |init|;
    }
  }

  lemma SuccessesAppend(run: seq<Input>, last: Input)
    ensures Successes(run + [last]) == Successes(run) + if last.Success? then 1 else 0
  {
    assert (run + [last])[..|run|] == run;
  }

  predicate Recovers(c: Config, agent: string, b: Breaker, last: Input) {
    CircuitClosed(agent, HalfOpen, Recovered) in Step(c, agent, b, last).audits
  }

  /** One call closes a half-open circuit only as the last missing success, and an open one only if it
      half-opens it itself and one success is enough. */
  lemma RecoveryStep(c: Config, agent: string, b: Breaker, last: Input)
    requires Sound(c) && Recovers(c, agent, b, last)
    requires b.health.circuit == HalfOpen ==> b.health.halfOpenSuccesses < c.successThreshold
    ensures last.Success?
    ensures b.health.circuit == HalfOpen ==> b.health.halfOpenSuccesses + 1 == c.successThreshold
    ensures b.health.circuit != HalfOpen ==> c.successThreshold == 1 && |Step(c, agent, b, last).audits| > 0 &&
                                             Step(c, agent, b, last).audits[0].CircuitHalfOpened?
  {
  }

  /** The last call closed the circuit without force: call `k` half-opened it, no call in between changed its
      state, and from `k` on exactly `successThreshold` calls were successes, the closing one included. */
  lemma UnforcedCloseIsEarned(c: Config, agent: string, run: seq<Input>) returns (k: nat)
    requires Sound(c) && run != [] && CircuitClosed(agent, HalfOpen, Recovered) in AuditsAt(c, agent, run, |run| - 1)
    ensures k < |run| && HalfOpensAt(c, agent, run, k)
    ensures forall i :: k < i < |run| - 1 ==> !ChangesAt(c, agent, run, i)
    ensures Successes(run[k..]) == c.successThreshold
  {
    var n := |run| - 1;
    HalfOpenBelowThreshold(c, agent, run[..n]);
    RecoveryStep(c, agent, Run(c, agent, run[..n]).breaker, run[n]);
    assert run == run[..n] + [run[n]];
    if Run(c, agent, run[..n]).breaker.health.circuit == HalfOpen {
      k := HalfOpenIsProbing(c, agent, run[..n]);
      ProbeEnds(c, agent, run[..n], run[n], k);
    } else {
      k := n;
      var audits := AuditsAt(c, agent, run, n);
      assert audits[0] in audits;
      assert run[n..] == [] + [run[n]];
      SuccessesAppend([], run[n]);
    }
  }

  lemma ProbeEnds(c: Config, agent: string, init: seq<Input>, last: Input, k: nat)
    requires ProbingSince(c, agent, init, k)
    ensures HalfOpensAt(c, agent, init + [last], k)
    ensures forall i :: k < i < |init| ==> !ChangesAt(c, agent, init + [last], i)
    ensures Successes((init + [last])[k..]) ==
            Run(c, agent, init).breaker.health.halfOpenSuccesses + if last.Success? then 1 else 0
  {
    AuditsPrefix(c, agent, init, last, k);
    forall i | k < i < |init| ensures !ChangesAt(c, agent, init + [last], i) {
      AuditsPrefix(c, agent, init, last, i);
      assert !ChangesAt(c, agent, init, i);
    }
    SuccessesAppend(init[k..], last);
    assert (init + [last])[k..] == init[k..] + [last];
  }

  /** While half-open, fewer successes than needed have been seen. */
  lemma {:induction false} HalfOpenBelowThreshold(c: Config, agent: string, run: seq<Input>)
    requires Sound(c)
    ensures Run(c, agent, run).breaker.health.circuit == HalfOpen ==>
              Run(c, agent, run).breaker.health.halfOpenSuccesses < c.successThreshold
  {
    if run != [] {
      HalfOpenBelowThreshold(c, agent, run[..|run| - 1]);
    }
  }

  /** A failure opens a closed or half-open circuit exactly when the window, this failure included, holds at
      least the threshold; otherwise state and probe progress are kept. An open circuit stays open. */
  lemma FailureOpensIff(c: Config, agent: string, run: seq<Input>, x: Failure, now: real)
    requires Sound(c) && TimeOrdered(run + [Fail(x, now)]) && ReplaysInOrder(c, run + [Fail(x, now)])
    ensures var before, after := Run(c, agent, run).breaker.health, Run(c, agent, run + [Fail(x, now)]).breaker.health;
            var recent := |InWindow(SinceReset(run + [Fail(x, now)]), now - c.window)|;
            && (after.circuit == Open <==> before.circuit == Open || recent >= c.threshold)
            && (after.circuit != Open ==> after.circuit == before.circuit && after.halfOpenSuccesses == before.halfOpenSuccesses)
  {
    var more := run + [Fail(x, now)];
    assert more[..|more| - 1] == run;
    BufferIsRecentHistory(c, agent, more);
  }

  // ---------------------------------------------------------------- cooldown

  predicate OpensAt(c: Config, agent: string, run: seq<Input>, i: nat)
    requires i < |run|
  {
    exists a :: a in AuditsAt(c, agent, run, i) && a.CircuitOpened?
  }

  /** Call `k` was the failure that opened the circuit, and nothing has changed its state since. */
  ghost predicate OpenSince(c: Config, agent: string, run: seq<Input>, k: nat) {
    && k < |run| && run[k].Fail? && OpensAt(c, agent, run, k)
    && (forall i :: k < i < |run| ==> !ChangesAt(c, agent, run, i))
    && Run(c, agent, run).breaker.health.openedAt == Some(run[k].x.stamp)
  }

  lemma StartsOpen(c: Config, agent: string, init: seq<Input>, last: Input)
    requires Run(c, agent, init).breaker.health.circuit != Open
    requires Run(c, agent, init + [last]).breaker.health.circuit == Open
    ensures OpenSince(c, agent, init + [last], |init|)
  {
    var run := init + [last];
    assert run[..|run| - 1] == init && run[..|init|] == init;
    var audits := Step(c, agent, Run(c, agent, init).breaker, last).audits;
    assert AuditsAt(c, agent, run, |init|) == audits;
    assert audits[1].CircuitOpened? && audits[1] in audits;
  }

  lemma StaysOpen(c: Config, agent: string, init: seq<Input>, last: Input, k: nat)
    requires OpenSince(c, agent, init, k) && Run(c, agent, init).breaker.health.circuit == Open
    requires Run(c, agent, init + [last]).breaker.health.circuit == Open
    ensures OpenSince(c, agent, init + [last], k)
  {
    var run := init + [last];
    assert run[..|run| - 1] == init;
    AuditsPrefix(c, agent, init, last, k);
    forall i | k < i < |run| ensures !ChangesAt(c, agent, run, i) {
      if i < |init| {
        AuditsPrefix(c, agent, init, last, i);
        assert !ChangesAt(c, agent, init, i);
      } else {
        StepNow(c, agent, run);
      }
    }
  }

  lemma {:induction false} OpenHasCause(c: Config, agent: string, run: seq<Input>) returns (k: nat)
    requires Run(c, agent, run).breaker.health.circuit == Open
    ensures OpenSince(c, agent, run, k)
  {
    var init, last := run[..|run| - 1], run[|run| - 1];
    assert run == init + [last];
    if Run(c, agent, init).breaker.health.circuit == Open {
      k := OpenHasCause(c, agent, init);
      StaysOpen(c, agent, init, last, k);
    } else {
      StartsOpen(c, agent, init, last);
      k := |init|;
    }
  }

  /** An open circuit was opened by some failure, and a success or query half-opens it exactly when the
      cooldown has passed since that failure. */
  lemma HalfOpensAfterCooldownIff(c: Config, agent: string, run: seq<Input>, next: Input) returns (k: nat)
    requires Run(c, agent, run).breaker.health.circuit == Open && (next.Success? || next.Query?)
    ensures OpenSince(c, agent, run, k)
    ensures HalfOpensAt(c, agent, run + [next], |run|) <==> next.now - run[k].x.stamp >= c.cooldown
  {
    k := OpenHasCause(c, agent, run);
    assert (run + [next])[..|run|] == run;
    var audits := AuditsAt(c, agent, run + [next], |run|);
    if next.now - run[k].x.stamp >= c.cooldown {
      assert audits[0].CircuitHalfOpened? && audits[0] in audits;
    }
  }

  // ---------------------------------------------------------------- rebuilding from the event bus

  function FailuresIn(audits: seq<Audit>, agent: string): seq<Failure> {
    if audits == [] then []
    else
      var rest, a := FailuresIn(audits[..|audits| - 1], agent), audits[|audits| - 1];
      if a.FailureObserved? && a.agent == agent then rest + [a.failure] else rest
  }

  /** What `replay_from_event_bus` leaves for one agent: unexpired events in stream order, capped. */
  function Replayed(c: Config, stream: seq<Audit>, agent: string, now: real): seq<Failure> {
    LastN(c.cap, InWindow(FailuresIn(stream, agent), now - c.window))
  }

  predicate ResetFree(run: seq<Input>) {
    forall i :: 0 <= i < |run| ==> !run[i].Reset? && !run[i].Replay?
  }

  lemma FailuresInAppend(audits: seq<Audit>, a: Audit, agent: string)
    ensures FailuresIn(audits + [a], agent) ==
            if a.FailureObserved? && a.agent == agent then FailuresIn(audits, agent) + [a.failure] else FailuresIn(audits, agent)
  {
    assert (audits + [a])[..|audits|] == audits;
  }

  lemma FailuresInStep(c: Config, agent: string, b: Breaker, input: Input, trail: seq<Audit>)
    ensures FailuresIn(trail + Step(c, agent, b, input).audits, agent) ==
            if input.Fail? then FailuresIn(trail, agent) + [input.x] else FailuresIn(trail, agent)
  {
    var audits := Step(c, agent, b, input).audits;
    if |audits| == 0 {
      assert trail + audits == trail;
    } else {
      FailuresInAppend(trail, audits[0], agent);
      if |audits| == 1 {
        assert audits == [audits[0]];
      } else {
        FailuresInAppend(trail + [audits[0]], audits[1], agent);
        assert trail + audits == trail + [audits[0]] + [audits[1]];
      }
    }
  }

  lemma {:induction false} TrailHoldsFailures(c: Config, agent: string, run: seq<Input>)
    requires ResetFree(run)
    ensures FailuresIn(Run(c, agent, run).audits, agent) == SinceReset(run)
  {
    if run != [] {
      var before := Run(c, agent, run[..|run| - 1]);
      TrailHoldsFailures(c, agent, run[..|run| - 1]);
      FailuresInStep(c, agent, before.breaker, run[|run| - 1], before.audits);
    }
  }

  /** When the agent's failure events all reached the bus in order, replay rebuilds the in-window buffer. */
  lemma ReplayRebuilds(c: Config, agent: string, run: seq<Input>, stream: seq<Audit>, now: real)
    requires Sound(c) && TimeOrdered(run) && ResetFree(run) && Clock(run) <= now
    requires FailuresIn(stream, agent) == FailuresIn(Run(c, agent, run).audits, agent)
    ensures Replayed(c, stream, agent, now) == DropExpired(Run(c, agent, run).breaker.buffer, now - c.window)
  {
    var hist := PlainRun(c, agent, run, now);
    ReplayedFrom(c, agent, stream, hist, now);
  }

  lemma ReplayedFrom(c: Config, agent: string, stream: seq<Audit>, hist: seq<Failure>, now: real)
    requires FailuresIn(stream, agent) == hist
    ensures Replayed(c, stream, agent, now) == LastN(c.cap, InWindow(hist, now - c.window))
  {
  }

  /** In a run without resets and replays, trail and pruned deque are both determined by the failures so far. */
  lemma PlainRun(c: Config, agent: string, run: seq<Input>, now: real) returns (hist: seq<Failure>)
    requires Sound(c) && TimeOrdered(run) && ResetFree(run) && Clock(run) <= now
    ensures hist == SinceReset(run) && FailuresIn(Run(c, agent, run).audits, agent) == hist
    ensures DropExpired(Run(c, agent, run).breaker.buffer, now - c.window) == LastN(c.cap, InWindow(hist, now - c.window))
  {
    hist := SinceReset(run);
    TrailHoldsFailures(c, agent, run);
    ResetFreeIsInOrder(c, run);
    BufferPruned(c, agent, run, now);
  }

  lemma ResetFreeIsInOrder(c: Config, run: seq<Input>)
    requires ResetFree(run)
    ensures ReplaysInOrder(c, run)
  {
  }

  lemma BufferPruned(c: Config, agent: string, run: seq<Input>, now: real)
    requires Sound(c) && TimeOrdered(run) && ReplaysInOrder(c, run) && Clock(run) <= now
    ensures DropExpired(Run(c, agent, run).breaker.buffer, now - c.window) ==
            LastN(c.cap, InWindow(SinceReset(run), now - c.window))
  {
    BufferAsDrop(c, agent, run);
    HistorySorted(c, run);
    PruneAgain(c.cap, SinceReset(run), Cutoff(c, run), now - c.window);
  }

  lemma PruneAgain(cap: nat, hist: seq<Failure>, early: real, late: real)
    requires Sorted(hist) && early <= late
    ensures DropExpired(LastN(cap, DropExpired(hist, early)), late) == LastN(cap, InWindow(hist, late))
  {
    DropKeepsSorted(hist, early);
    CapThenDrop(cap, DropExpired(hist, early), late);
    DropTwice(hist, early, late);
    DropIsFilter(hist, late);
  }

  lemma {:induction false} InWindowCount(s: seq<Failure>, cutoff: real, x: Failure)
    ensures multiset(InWindow(s, cutoff))[x] == if x.stamp < cutoff then 0 else multiset(s)[x]
  {
    if s != [] {
      InWindowCount(s[..|s| - 1], cutoff, x);
      assert s == s[..|s| - 1] + [s[|s| - 1]];
    }
  }

  /** Concurrent drainers may reorder events on the bus; at the moment of the replay the rebuilt count is still
      the same. What happens later depends on the order. */
  lemma ReplayCountsInAnyOrder(c: Config, agent: string, run: seq<Input>, stream: seq<Audit>, now: real)
    requires Sound(c) && TimeOrdered(run) && ResetFree(run) && Clock(run) <= now
    requires multiset(FailuresIn(stream, agent)) == multiset(FailuresIn(Run(c, agent, run).audits, agent))
    ensures |Replayed(c, stream, agent, now)| == |DropExpired(Run(c, agent, run).breaker.buffer, now - c.window)|
  {
    var hist := PlainRun(c, agent, run, now);
    ReplaySize(c, agent, stream, hist, now);
  }

  lemma ReplaySize(c: Config, agent: string, stream: seq<Audit>, hist: seq<Failure>, now: real)
    requires multiset(FailuresIn(stream, agent)) == multiset(hist)
    ensures |Replayed(c, stream, agent, now)| == |LastN(c.cap, InWindow(hist, now - c.window))|
  {
    SameCountInWindow(FailuresIn(stream, agent), hist, now - c.window);
  }

  lemma SameCountInWindow(s: seq<Failure>, t: seq<Failure>, cutoff: real)
    requires multiset(s) == multiset(t)
    ensures |InWindow(s, cutoff)| == |InWindow(t, cutoff)|
  {
    var a, b := multiset(InWindow(s, cutoff)), multiset(InWindow(t, cutoff));
    forall x ensures a[x] == b[x] {
      InWindowCount(s, cutoff, x);
      InWindowCount(t, cutoff, x);
    }
    assert a == b;
    assert |a| == |InWindow(s, cutoff)| && |b| == |InWindow(t, cutoff)|;
  }
}
