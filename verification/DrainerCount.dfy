/** How many drainers the event bus bears (nth_dao/fault_isolation.py): what a fold or a replay of the bus gives in
    every run that loses no event, by the number of drainers that may hold a batch at the same time. */
module DrainerCount {
  import opened Prelude
  import opened CircuitBreaker
  import opened BreakerReplay
  import opened ReplayDecisions
  import opened HalfOpenProbes
  import opened FaultIsolation
  import opened AuditFlow

  // ---------------------------------------------------------------- runs with `k` drainers

  /** The run starts with `k` idle drainers, loses nothing and ends in `s`. */
  ghost predicate LosslessRun(c: Config, k: nat, states: seq<Shop>, acts: seq<Act>, s: Shop) {
    && AuditFlow.Run(c, states, acts) && |states[0].traffic.hands| == k && states[|acts|] == s
    && forall i :: 0 <= i < |acts| ==> Lossless(acts[i])
  }

  ghost predicate Reaches(c: Config, k: nat, s: Shop) {
    exists states, acts :: LosslessRun(c, k, states, acts, s)
  }

  /** A call on one agent, or a drainer taking or emitting. */
  predicate Ordinary(act: Act) {
    !act.Work? && Lossless(act)
  }

  /** The same, by calls on single agents only. */
  ghost predicate OrdinaryRun(c: Config, k: nat, states: seq<Shop>, acts: seq<Act>, s: Shop) {
    LosslessRun(c, k, states, acts, s) && forall i :: 0 <= i < |acts| ==> Ordinary(acts[i])
  }

  ghost predicate Happens(c: Config, k: nat, s: Shop) {
    exists states, acts :: OrdinaryRun(c, k, states, acts, s)
  }

  lemma HappensReaches(c: Config, k: nat, s: Shop)
    requires Happens(c, k, s)
    ensures Reaches(c, k, s)
  {
    var states, acts :| OrdinaryRun(c, k, states, acts, s);
    assert LosslessRun(c, k, states, acts, s);
  }

  lemma HappensNext(c: Config, k: nat, s: Shop, act: Act, s': Shop)
    requires Happens(c, k, s) && Next(c, s, act, s') && Ordinary(act)
    ensures Happens(c, k, s')
  {
    var states, acts :| OrdinaryRun(c, k, states, acts, s);
    var states', acts' := states + [s'], acts + [act];
    forall i | 0 <= i < |acts'| ensures AuditFlow.StepAt(c, states', acts', i) {
      if i < |acts| { assert AuditFlow.StepAt(c, states, acts, i); }
    }
    assert OrdinaryRun(c, k, states', acts', s');
  }

  lemma LosslessStep(c: Config, s: Shop, act: Act, s': Shop)
    requires Next(c, s, act, s') && Lossless(act)
    ensures |s'.traffic.hands| == |s.traffic.hands| && s'.traffic.lost == s.traffic.lost
  {
  }

  lemma {:induction false} NothingLost(c: Config, k: nat, states: seq<Shop>, acts: seq<Act>, s: Shop, n: nat)
    requires LosslessRun(c, k, states, acts, s) && n < |states|
    ensures |states[n].traffic.hands| == k && states[n].traffic.lost == multiset{}
  {
    if n > 0 {
      NothingLost(c, k, states, acts, s, n - 1);
      assert AuditFlow.StepAt(c, states, acts, n - 1);
      LosslessStep(c, states[n - 1], acts[n - 1], states[n]);
    }
  }

  lemma ReachesInv(c: Config, k: nat, s: Shop)
    requires Reaches(c, k, s)
    ensures AuditFlow.Inv(c, s) && |s.traffic.hands| == k && s.traffic.lost == multiset{}
  {
    var states, acts :| LosslessRun(c, k, states, acts, s);
    AuditFlow.RunKeepsInv(c, states, acts, |acts|);
    NothingLost(c, k, states, acts, s, |acts|);
  }

  lemma HappensInv(c: Config, k: nat, s: Shop)
    requires Happens(c, k, s)
    ensures AuditFlow.Inv(c, s) && |s.traffic.hands| == k
  {
    HappensReaches(c, k, s);
    ReachesInv(c, k, s);
  }

  // ---------------------------------------------------------------- at most one drainer

  lemma NoDrainerStep(c: Config, s: Shop, act: Act, s': Shop)
    requires Next(c, s, act, s') && Lossless(act) && |s.traffic.hands| == 0
    requires s.traffic.emitted == [] && s.traffic.pending == s.snap.deferred == s.snap.pending
    ensures s'.traffic.emitted == [] && s'.traffic.pending == s'.snap.deferred == s'.snap.pending
  {
  }

  lemma {:induction false} NoDrainer(c: Config, states: seq<Shop>, acts: seq<Act>, s: Shop, n: nat)
    requires LosslessRun(c, 0, states, acts, s) && n < |states|
    ensures states[n].traffic.emitted == [] && states[n].traffic.pending == states[n].snap.deferred == states[n].snap.pending
  {
    if n > 0 {
      NoDrainer(c, states, acts, s, n - 1);
      NothingLost(c, 0, states, acts, s, n - 1);
      assert AuditFlow.StepAt(c, states, acts, n - 1);
      NoDrainerStep(c, states[n - 1], acts[n - 1], states[n]);
    }
  }

  /** With at most one drainer the bus at rest is everything deferred, in order. */
  lemma BusIsDeferred(c: Config, k: nat, s: Shop)
    requires Reaches(c, k, s) && AtRest(s.traffic) && k <= 1
    ensures s.traffic.emitted == s.snap.deferred
  {
    var states, acts :| LosslessRun(c, k, states, acts, s);
    if k == 0 {
      NoDrainer(c, states, acts, s, |acts|);
    } else {
      SingleDrainerKeepsOrder(c, states, acts, |acts|);
    }
  }

  // ---------------------------------------------------------------- any number of drainers

  /** At rest nothing is missing on the bus, whatever the order. */
  lemma BusIsPermutation(c: Config, k: nat, s: Shop)
    requires Reaches(c, k, s) && AtRest(s.traffic)
    ensures multiset(s.traffic.emitted) == multiset(s.snap.deferred)
  {
    ReachesInv(c, k, s);
    forall x ensures multiset(s.traffic.emitted)[x] == multiset(s.snap.deferred)[x] {
      NothingInHand(s.traffic.hands, x);
      assert AuditFlow.Copies(s.traffic, x) == multiset(s.snap.deferred)[x];
    }
  }

  lemma {:induction false} FailuresCounted(audits: seq<Audit>, agent: string, x: Failure)
    ensures multiset(FailuresIn(audits, agent))[x] == multiset(audits)[FailureObserved(agent, x)]
  {
    if audits != [] {
      var init, a := audits[..|audits| - 1], audits[|audits| - 1];
      FailuresCounted(init, agent, x);
      assert audits == init + [a];
    }
  }

  lemma SameFailures(a: seq<Audit>, b: seq<Audit>, agent: string)
    requires multiset(a) == multiset(b)
    ensures multiset(FailuresIn(a, agent)) == multiset(FailuresIn(b, agent))
  {
    forall x ensures multiset(FailuresIn(a, agent))[x] == multiset(FailuresIn(b, agent))[x] {
      FailuresCounted(a, agent, x);
      FailuresCounted(b, agent, x);
    }
  }

  /** An agent without resets whose clock has not passed `r`. */
  predicate Resumable(s: Shop, agent: string, r: real) {
    var calls := CallsOf(s.snap, agent);
    TimeOrdered(calls) && ResetFree(calls) && Clock(calls) <= r
  }

  lemma DeferredFailures(c: Config, s: Shop, agent: string)
    requires TracksAll(c, s.snap) && ResetFree(CallsOf(s.snap, agent))
    ensures FailuresIn(s.snap.deferred, agent) == SinceReset(CallsOf(s.snap, agent))
  {
    assert Tracks(c, s.snap, agent);
    FoldOf(s.snap.deferred, agent);
    TrailHoldsFailures(c, agent, CallsOf(s.snap, agent));
  }

  lemma BusHasFailures(c: Config, k: nat, s: Shop, agent: string)
    requires Reaches(c, k, s) && AtRest(s.traffic) && ResetFree(CallsOf(s.snap, agent))
    ensures multiset(FailuresIn(s.traffic.emitted, agent)) == multiset(SinceReset(CallsOf(s.snap, agent)))
  {
    ReachesInv(c, k, s);
    BusIsPermutation(c, k, s);
    SameFailures(s.traffic.emitted, s.snap.deferred, agent);
    DeferredFailures(c, s, agent);
  }

  // ---------------------------------------------------------------- building runs

  function AfterCall(c: Config, snap: Snapshot, agent: string, input: Input): Snapshot {
    var o := Step(c, agent, View(snap, agent), input);
    Snapshot(snap.health[agent := o.breaker.health], snap.failures[agent := o.breaker.buffer], snap.pending + o.audits,
             snap.calls[agent := CallsOf(snap, agent) + [input]], snap.deferred + o.audits)
  }

  function Called(c: Config, s: Shop, agent: string, input: Input): Shop {
    Shop(AfterCall(c, s.snap, agent, input), Moved(s.traffic, Defer(Step(c, agent, View(s.snap, agent), input).audits)))
  }

  lemma CallHappens(c: Config, k: nat, s: Shop, agent: string, input: Input)
    requires Happens(c, k, s)
    ensures Happens(c, k, Called(c, s, agent, input))
  {
    assert Performed(c, s.snap, agent, input, AfterCall(c, s.snap, agent, input));
    HappensNext(c, k, s, Call(agent, input), Called(c, s, agent, input));
  }

  function MovedOn(s: Shop, m: Move): Shop
    requires Allowed(s.traffic, m)
  {
    var t := Moved(s.traffic, m);
    Shop(s.snap.(pending := t.pending), t)
  }

  lemma MoveHappens(c: Config, k: nat, s: Shop, m: Move)
    requires Happens(c, k, s) && Allowed(s.traffic, m) && (m.Take? || m.Emit?)
    ensures Happens(c, k, MovedOn(s, m))
  {
    HappensNext(c, k, s, Transfer(m), MovedOn(s, m));
  }

  /** What a stretch of calls on one agent defers, after earlier calls. */
  function Stretch(c: Config, agent: string, calls: seq<Input>, inputs: seq<Input>): seq<Audit> {
    if inputs == [] then []
    else
      var init, last := inputs[..|inputs| - 1], inputs[|inputs| - 1];
      Stretch(c, agent, calls, init) + Step(c, agent, CircuitBreaker.Run(c, agent, calls + init).breaker, last).audits
  }

  /** A stretch of calls on one agent has been made since `s`, and nothing else. */
  predicate Since(c: Config, s: Shop, agent: string, inputs: seq<Input>, s': Shop) {
    && s'.traffic == s.traffic.(pending := s.traffic.pending + Stretch(c, agent, CallsOf(s.snap, agent), inputs))
    && CallsOf(s'.snap, agent) == CallsOf(s.snap, agent) + inputs
  }

  lemma StretchNext(c: Config, agent: string, calls: seq<Input>, init: seq<Input>, last: Input)
    ensures Stretch(c, agent, calls, init + [last]) ==
            Stretch(c, agent, calls, init) + Step(c, agent, CircuitBreaker.Run(c, agent, calls + init).breaker, last).audits
  {
    assert (init + [last])[..|init|] == init;
  }

  lemma Regroup<T>(a: seq<T>, b: seq<T>, d: seq<T>)
    ensures a + b + d == a + (b + d)
  {
  }

  lemma CallQueues(c: Config, s: Shop, agent: string, input: Input)
    requires TracksAll(c, s.snap)
    ensures CallsOf(Called(c, s, agent, input).snap, agent) == CallsOf(s.snap, agent) + [input]
    ensures var audits := Step(c, agent, CircuitBreaker.Run(c, agent, CallsOf(s.snap, agent)).breaker, input).audits;
            Called(c, s, agent, input).traffic == s.traffic.(pending := s.traffic.pending + audits)
  {
    assert Tracks(c, s.snap, agent);
  }

  lemma SinceNext(c: Config, s: Shop, agent: string, init: seq<Input>, s': Shop, last: Input)
    requires TracksAll(c, s'.snap) && Since(c, s, agent, init, s')
    ensures Since(c, s, agent, init + [last], Called(c, s', agent, last))
  {
    var calls := CallsOf(s.snap, agent);
    CallQueues(c, s', agent, last);
    StretchNext(c, agent, calls, init, last);
    Regroup(calls, init, [last]);
    Regroup(s.traffic.pending, Stretch(c, agent, calls, init), Step(c, agent, CircuitBreaker.Run(c, agent, calls + init).breaker, last).audits);
  }

  lemma {:induction false} StretchHappens(c: Config, k: nat, s: Shop, agent: string, inputs: seq<Input>) returns (s': Shop)
    requires Happens(c, k, s)
    ensures Happens(c, k, s') && Since(c, s, agent, inputs, s')
  {
    if inputs == [] {
      s' := s;
      assert s.traffic.pending + [] == s.traffic.pending && CallsOf(s.snap, agent) + [] == CallsOf(s.snap, agent);
    } else {
      var init, last := inputs[..|inputs| - 1], inputs[|inputs| - 1];
      assert inputs == init + [last];
      s' := StretchHappens(c, k, s, agent, init);
      HappensInv(c, k, s');
      SinceNext(c, s, agent, init, s', last);
      CallHappens(c, k, s', agent, last);
      s' := Called(c, s', agent, last);
    }
  }

  /** A drainer has emitted all it held. */
  predicate Emptied(s: Shop, p: nat, s': Shop) {
    && p < |s.traffic.hands| && s'.snap == s.snap
    && s'.traffic == s.traffic.(emitted := s.traffic.emitted + s.traffic.hands[p], hands := s.traffic.hands[p := []])
  }

  lemma EmitOne(c: Config, s: Shop, p: nat, s': Shop)
    requires AuditFlow.Inv(c, s) && p < |s.traffic.hands| && s.traffic.hands[p] != [] && Emptied(MovedOn(s, Emit(p)), p, s')
    ensures Emptied(s, p, s')
  {
    var hand := s.traffic.hands[p];
    assert hand == [hand[0]] + hand[1..];
    assert s.traffic.emitted + [hand[0]] + hand[1..] == s.traffic.emitted + hand;
    assert s.traffic.hands[p := hand[1..]][p := []] == s.traffic.hands[p := []];
  }

  lemma {:induction false} EmptyHappens(c: Config, k: nat, s: Shop, p: nat) returns (s': Shop)
    requires Happens(c, k, s) && p < k
    ensures Happens(c, k, s') && Emptied(s, p, s')
    decreases if p < |s.traffic.hands| then |s.traffic.hands[p]| else 0
  {
    HappensInv(c, k, s);
    if s.traffic.hands[p] == [] {
      s' := s;
      assert s.traffic.hands[p := []] == s.traffic.hands && s.traffic.emitted + [] == s.traffic.emitted;
    } else {
      MoveHappens(c, k, s, Emit(p));
      s' := EmptyHappens(c, k, MovedOn(s, Emit(p)), p);
      EmitOne(c, s, p, s');
    }
  }

  /** A stretch of calls whose events one drainer then holds. */
  predicate Batched(c: Config, s: Shop, agent: string, inputs: seq<Input>, p: nat, s': Shop) {
    && p < |s.traffic.hands| && CallsOf(s'.snap, agent) == CallsOf(s.snap, agent) + inputs
    && s'.traffic.pending == [] && s'.traffic.emitted == s.traffic.emitted
    && s'.traffic.hands == s.traffic.hands[p := Stretch(c, agent, CallsOf(s.snap, agent), inputs)]
  }

  lemma BatchHappens(c: Config, k: nat, s: Shop, agent: string, inputs: seq<Input>, p: nat) returns (s': Shop)
    requires Happens(c, k, s) && p < k && s.traffic.pending == [] && |s.traffic.hands| == k && s.traffic.hands[p] == []
    ensures Happens(c, k, s') && Batched(c, s, agent, inputs, p, s')
  {
    var called := StretchHappens(c, k, s, agent, inputs);
    MoveHappens(c, k, called, Take(p));
    s' := MovedOn(called, Take(p));
    assert [] + Stretch(c, agent, CallsOf(s.snap, agent), inputs) == Stretch(c, agent, CallsOf(s.snap, agent), inputs);
  }

  /** A stretch of calls, drained at once. */
  lemma DrainHappens(c: Config, k: nat, s: Shop, agent: string, inputs: seq<Input>, p: nat) returns (s': Shop)
    requires Happens(c, k, s) && AtRest(s.traffic) && p < k
    ensures Happens(c, k, s') && AtRest(s'.traffic) && CallsOf(s'.snap, agent) == CallsOf(s.snap, agent) + inputs
    ensures s'.traffic.emitted == s.traffic.emitted + Stretch(c, agent, CallsOf(s.snap, agent), inputs)
  {
    HappensInv(c, k, s);
    var held := BatchHappens(c, k, s, agent, inputs, p);
    s' := EmptyHappens(c, k, held, p);
  }

  /** From every state at rest, with two drainers, the events of any two stretches of calls can reach the bus in the
      opposite order. */
  lemma DrainersReorder(c: Config, k: nat, s: Shop, p: nat, q: nat, agent: string, first: seq<Input>, second: seq<Input>)
    returns (s': Shop)
    requires Happens(c, k, s) && AtRest(s.traffic) && p < k && q < k && p != q
    ensures Happens(c, k, s') && AtRest(s'.traffic) && CallsOf(s'.snap, agent) == CallsOf(s.snap, agent) + first + second
    ensures var calls := CallsOf(s.snap, agent);
            s'.traffic.emitted == s.traffic.emitted + Stretch(c, agent, calls + first, second) + Stretch(c, agent, calls, first)
  {
    HappensInv(c, k, s);
    var one := BatchHappens(c, k, s, agent, first, p);
    HappensInv(c, k, one);
    var two := BatchHappens(c, k, one, agent, second, q);
    var three := EmptyHappens(c, k, two, q);
    s' := EmptyHappens(c, k, three, p);
  }

  function IdleShop(k: nat): Shop {
    Shop(Snapshot(map[], map[], [], map[], []), Traffic([], seq(k, _ => []), [], multiset{}))
  }

  lemma StartHappens(c: Config, k: nat)
    ensures Happens(c, k, IdleShop(k)) && AtRest(IdleShop(k).traffic)
  {
    assert OrdinaryRun(c, k, [IdleShop(k)], [], IdleShop(k));
  }

  lemma StretchOne(c: Config, agent: string, calls: seq<Input>, input: Input)
    ensures Stretch(c, agent, calls, [input]) == Step(c, agent, CircuitBreaker.Run(c, agent, calls).breaker, input).audits
  {
    StretchNext(c, agent, calls, [], input);
    assert [] + [input] == [input] && calls + [] == calls;
  }

  // ---------------------------------------------------------------- folding the bus

  /** At rest the bus tells every agent's circuit state, in every run with `k` drainers that loses nothing. */
  ghost predicate FoldRight(c: Config, k: nat) {
    forall s, agent {:trigger Reaches(c, k, s), View(s.snap, agent)} ::
      Reaches(c, k, s) && AtRest(s.traffic) ==> Fold(s.traffic.emitted, agent) == View(s.snap, agent).health.circuit
  }

  /** Failures drained one by one, all but the last of a threshold's worth. */
  lemma {:induction false} AlmostOpen(c: Config, k: nat, agent: string, x: Failure, n: nat) returns (s: Shop)
    requires Sound(c) && k >= 1 && n < c.threshold
    ensures Happens(c, k, s) && AtRest(s.traffic) && CallsOf(s.snap, agent) == Fails(x, n)
  {
    if n == 0 {
      StartHappens(c, k);
      s := IdleShop(k);
    } else {
      s := AlmostOpen(c, k, agent, x, n - 1);
      s := DrainHappens(c, k, s, agent, [Fail(x, x.stamp)], 0);
    }
  }

  lemma OpeningEvents(c: Config, agent: string, calls: seq<Input>, x: Failure)
    requires Sound(c) && Failed(c, CircuitBreaker.Run(c, agent, calls).breaker, x, c.threshold - 1)
    ensures Stretch(c, agent, calls, [Fail(x, x.stamp)]) == [FailureObserved(agent, x), CircuitOpened(agent, Closed, Some(c.threshold))]
  {
    FailsOnce(c, agent, CircuitBreaker.Run(c, agent, calls).breaker, x, c.threshold - 1);
    StretchOne(c, agent, calls, Fail(x, x.stamp));
  }

  lemma ResetCloses(c: Config, agent: string, calls: seq<Input>)
    ensures CircuitBreaker.Run(c, agent, calls + [Reset]).breaker.health.circuit == Closed
  {
    RunAppend(c, agent, calls, Reset);
  }

  lemma FoldOpened(bus: seq<Audit>, opening: seq<Audit>, agent: string, x: Failure, n: nat)
    requires opening == [FailureObserved(agent, x), CircuitOpened(agent, Closed, Some(n))]
    ensures Fold(bus + opening, agent) == Open
  {
    FoldSmall(bus, opening, agent);
  }

  /** The failure that opens a circuit and the reset that closes it reach the bus in the opposite order: the bus
      says open, the circuit is closed. */
  lemma BusTellsOldState(c: Config, k: nat, agent: string) returns (s: Shop)
    requires Sound(c) && k >= 2
    ensures Happens(c, k, s) && AtRest(s.traffic)
    ensures Fold(s.traffic.emitted, agent) == Open && View(s.snap, agent).health.circuit == Closed
  {
    var x := Failure("", "", 0.0);
    s := AlmostOpen(c, k, agent, x, c.threshold - 1);
    FailsOpen(c, agent, x, c.threshold - 1);
    s := ResetOvertakes(c, k, s, agent, x);
  }

  lemma ResetOvertakes(c: Config, k: nat, s: Shop, agent: string, x: Failure) returns (s': Shop)
    requires Sound(c) && k >= 2 && Happens(c, k, s) && AtRest(s.traffic)
    requires Failed(c, CircuitBreaker.Run(c, agent, CallsOf(s.snap, agent)).breaker, x, c.threshold - 1)
    ensures Happens(c, k, s') && AtRest(s'.traffic)
    ensures Fold(s'.traffic.emitted, agent) == Open && View(s'.snap, agent).health.circuit == Closed
  {
    var calls, one := CallsOf(s.snap, agent), [Fail(x, x.stamp)];
    s' := DrainersReorder(c, k, s, 0, 1, agent, one, [Reset]);
    OpeningEvents(c, agent, calls, x);
    FoldOpened(s.traffic.emitted + Stretch(c, agent, calls + one, [Reset]), Stretch(c, agent, calls, one), agent, x, c.threshold);
    ResetCloses(c, agent, calls + one);
    HappensInv(c, k, s');
    assert Tracks(c, s'.snap, agent);
  }

  /** Folding the bus is right in all those runs exactly with at most one drainer. */
  lemma FoldRightIff(c: Config, k: nat)
    requires Sound(c)
    ensures FoldRight(c, k) <==> k <= 1
  {
    if k <= 1 {
      forall s, agent | Reaches(c, k, s) && AtRest(s.traffic)
        ensures Fold(s.traffic.emitted, agent) == View(s.snap, agent).health.circuit
      {
        BusIsDeferred(c, k, s);
        ReachesInv(c, k, s);
        FoldIsState(c, s.snap, agent);
      }
    } else {
      var s := BusTellsOldState(c, k, "");
      HappensReaches(c, k, s);
      assert View(s.snap, "").health.circuit != Fold(s.traffic.emitted, "");
    }
  }

  // ---------------------------------------------------------------- replaying the bus

  /** A replay of the bus at rest counts like the breaker itself at every later failure, in all those runs. */
  ghost predicate ReplayRight(c: Config, k: nat) {
    forall s, agent, r {:trigger Reaches(c, k, s), Resumable(s, agent, r)} ::
      Reaches(c, k, s) && AtRest(s.traffic) && Resumable(s, agent, r) ==>
        AlwaysAgrees(c, agent, CallsOf(s.snap, agent), s.traffic.emitted, r)
  }

  /** It passes the threshold at the same later failures. */
  ghost predicate DecisionRight(c: Config, k: nat) {
    forall s, agent, r {:trigger Reaches(c, k, s), Resumable(s, agent, r)} ::
      Reaches(c, k, s) && AtRest(s.traffic) && Resumable(s, agent, r) ==>
        AlwaysDecidesAlike(c, agent, CallsOf(s.snap, agent), s.traffic.emitted, r)
  }

  lemma {:induction false} StretchFailures(c: Config, agent: string, calls: seq<Input>, inputs: seq<Input>, bus: seq<Audit>)
    ensures FailuresIn(bus + Stretch(c, agent, calls, inputs), agent) == FailuresIn(bus, agent) + Failures(inputs)
  {
    if inputs == [] {
      assert bus + [] == bus && FailuresIn(bus, agent) + [] == FailuresIn(bus, agent);
    } else {
      var init, last := inputs[..|inputs| - 1], inputs[|inputs| - 1];
      var earlier, b := Stretch(c, agent, calls, init), CircuitBreaker.Run(c, agent, calls + init).breaker;
      StretchFailures(c, agent, calls, init, bus);
      FailuresInStep(c, agent, b, last, bus + earlier);
      Regroup(bus, earlier, Step(c, agent, b, last).audits);
    }
  }

  lemma {:induction false} FailsFailures(x: Failure, n: nat)
    ensures Failures(Fails(x, n)) == BreakerReplay.Copies(x, n)
  {
    if n > 0 {
      FailsFailures(x, n - 1);
      FailuresAppend(Fails(x, n - 1), x, x.stamp);
    }
  }

  lemma {:induction false} FailsAreCalls(x: Failure, n: nat)
    requires x.stamp >= 0.0
    ensures TimeOrdered(Fails(x, n)) && ResetFree(Fails(x, n)) && Clock(Fails(x, n)) <= x.stamp
  {
    if n > 0 {
      FailsAreCalls(x, n - 1);
      ComesThen(Fails(x, n - 1), Fail(x, x.stamp));
    }
  }

  /** Two stretches of calls from the start, on the bus in the opposite order. */
  lemma Swapped(c: Config, k: nat, agent: string, first: seq<Input>, second: seq<Input>) returns (s: Shop)
    requires k >= 2
    ensures Happens(c, k, s) && AtRest(s.traffic) && CallsOf(s.snap, agent) == first + second
    ensures s.traffic.emitted == Stretch(c, agent, first, second) + Stretch(c, agent, [], first)
  {
    StartHappens(c, k);
    s := DrainersReorder(c, k, IdleShop(k), 0, 1, agent, first, second);
    assert [] + first == first;
    assert [] + Stretch(c, agent, first, second) == Stretch(c, agent, first, second);
  }

  /** `m` failures at time zero and a later one, which reaches the bus first. */
  lemma LateFirst(c: Config, k: nat, agent: string, m: nat, first: Failure, late: Failure) returns (s: Shop)
    requires k >= 2 && first.stamp == 0.0 <= late.stamp
    ensures Happens(c, k, s) && AtRest(s.traffic) && Resumable(s, agent, late.stamp)
    ensures FailuresIn(s.traffic.emitted, agent) == [late] + BreakerReplay.Copies(first, m)
  {
    s := Swapped(c, k, agent, Fails(first, m), [Fail(late, late.stamp)]);
    LateFirstBus(c, agent, Fails(first, m), [Fail(late, late.stamp)], first, late, m);
    LateFirstCalls(first, late, m);
  }

  lemma LateFirstCalls(first: Failure, late: Failure, m: nat)
    requires first.stamp == 0.0 <= late.stamp
    ensures var calls := Fails(first, m) + [Fail(late, late.stamp)];
            TimeOrdered(calls) && ResetFree(calls) && Clock(calls) == late.stamp
  {
    FailsAreCalls(first, m);
    ComesThen(Fails(first, m), Fail(late, late.stamp));
  }

  lemma LateFirstBus(c: Config, agent: string, olds: seq<Input>, lates: seq<Input>, first: Failure, late: Failure, m: nat)
    requires olds == Fails(first, m) && lates == [Fail(late, late.stamp)]
    ensures FailuresIn(Stretch(c, agent, olds, lates) + Stretch(c, agent, [], olds), agent) == [late] + BreakerReplay.Copies(first, m)
  {
    StretchFailures(c, agent, olds, lates, []);
    StretchFailures(c, agent, [], olds, Stretch(c, agent, olds, lates));
    FailsFailures(first, m);
    assert Failures(lates) == [late] by { assert Failures([]) + [late] == [late] && lates[..0] == []; }
    assert [] + Stretch(c, agent, olds, lates) == Stretch(c, agent, olds, lates);
  }

  // ---------------------------------------------------------------- what the reversed bus does to a replay

  lemma InWindowSorted(s: seq<Failure>, cutoff: real)
    requires Sorted(s)
    ensures Sorted(InWindow(s, cutoff))
  {
    DropIsFilter(s, cutoff);
    DropKeepsSorted(s, cutoff);
  }

  /** With at most one drainer the failures are on the bus in time order. */
  lemma SingleDrainerInOrder(c: Config, k: nat, s: Shop, agent: string, r: real)
    requires Sound(c) && k <= 1 && Reaches(c, k, s) && AtRest(s.traffic) && Resumable(s, agent, r)
    ensures Sorted(OnBus(c, s.traffic.emitted, agent, r))
  {
    ReachesInv(c, k, s);
    BusIsDeferred(c, k, s);
    DeferredFailures(c, s, agent);
    ResetFreeIsInOrder(c, CallsOf(s.snap, agent));
    HistorySorted(c, CallsOf(s.snap, agent));
    InWindowSorted(SinceReset(CallsOf(s.snap, agent)), r - c.window);
  }

  /** The agreement of counts and of decisions at rest, in terms of the order on the bus. */
  lemma ReplayedAtRest(c: Config, k: nat, s: Shop, agent: string, r: real)
    requires Sound(c) && Reaches(c, k, s) && AtRest(s.traffic) && Resumable(s, agent, r)
    ensures var bus := OnBus(c, s.traffic.emitted, agent, r);
            && (AlwaysAgrees(c, agent, CallsOf(s.snap, agent), s.traffic.emitted, r) <==> InOrderFrom(bus, FirstKept(c, bus)))
            && (AlwaysDecidesAlike(c, agent, CallsOf(s.snap, agent), s.traffic.emitted, r) <==> Harmless(c, bus))
  {
    BusHasFailures(c, k, s, agent);
    RestartAgreesIff(c, agent, CallsOf(s.snap, agent), s.traffic.emitted, r);
    RestartDecidesIff(c, agent, CallsOf(s.snap, agent), s.traffic.emitted, r);
  }

  /** The late failure first, at half the window: nothing is expired yet. */
  lemma LateOnBus(c: Config, k: nat, agent: string, m: nat) returns (s: Shop, r: real, first: Failure, late: Failure)
    requires Sound(c) && k >= 2
    ensures Reaches(c, k, s) && AtRest(s.traffic) && Resumable(s, agent, r) && first.stamp < late.stamp
    ensures OnBus(c, s.traffic.emitted, agent, r) == [late] + BreakerReplay.Copies(first, m)
  {
    r := c.window / 2.0;
    first, late := Failure("", "", 0.0), Failure("", "", r);
    s := LateFirst(c, k, agent, m, first, late);
    HappensReaches(c, k, s);
    CopiesAre(first, m);
    InWindowKeepsAll([late] + BreakerReplay.Copies(first, m), r - c.window);
  }

  /** Counts are right in all those runs exactly with at most one drainer; a deque of one place apart, which holds
      nothing of the bus after one more failure. */
  lemma ReplayRightIff(c: Config, k: nat)
    requires Sound(c)
    ensures ReplayRight(c, k) <==> k <= 1 || c.cap == 1
  {
    if k <= 1 || c.cap == 1 {
      forall s, agent, r | Reaches(c, k, s) && AtRest(s.traffic) && Resumable(s, agent, r)
        ensures AlwaysAgrees(c, agent, CallsOf(s.snap, agent), s.traffic.emitted, r)
      {
        ReplayedAtRest(c, k, s, agent, r);
        if k <= 1 { SingleDrainerInOrder(c, k, s, agent, r); }
      }
    } else {
      var s, r, first, late := LateOnBus(c, k, "", 1);
      var bus := OnBus(c, s.traffic.emitted, "", r);
      CopiesAre(first, 1);
      assert bus[0].stamp > bus[1].stamp;
      ReplayedAtRest(c, k, s, "", r);
    }
  }

  lemma SortedIsHarmless(c: Config, bus: seq<Failure>)
    requires Sound(c) && Sorted(bus)
    ensures Harmless(c, bus)
  {
    forall n, i | 1 <= n < c.threshold && 0 <= i < |bus| ensures PassesRight(c, bus, n, bus[i].stamp) {
      CapThenDrop(c.cap - n, bus, bus[i].stamp);
      DropIsFilter(bus, bus[i].stamp);
    }
  }

  /** Early opening: the late failure keeps the expired one in the deque. */
  lemma LatePairHarms(c: Config, bus: seq<Failure>)
    requires Sound(c) && c.threshold >= 3 && |bus| == 2 && bus[0].stamp > bus[1].stamp
    ensures !Harmless(c, bus)
  {
    var n := c.threshold - 2;
    InWindowConcat([bus[0]], [bus[1]], bus[0].stamp);
    InWindowOne(bus[0], bus[0].stamp);
    InWindowOne(bus[1], bus[0].stamp);
    assert bus == [bus[0]] + [bus[1]];
    NothingExpires(bus, bus[0].stamp);
    assert !PassesRight(c, bus, n, bus[0].stamp);
  }

  /** Missed opening: the older ones push the late failure out of the deque. */
  lemma LateFloodHarms(c: Config, bus: seq<Failure>, late: Failure, olds: seq<Failure>)
    requires Sound(c) && c.threshold == 2 && bus == [late] + olds && |olds| == c.cap && AllBefore(olds, late.stamp)
    ensures !Harmless(c, bus)
  {
    var kept := LastN(c.cap - 1, bus);
    assert kept == olds[1..];
    DropExpiredIs(kept, late.stamp, |kept|);
    InWindowConcat([late], olds, late.stamp);
    InWindowOne(late, late.stamp);
    InWindowKeepsNone(olds, late.stamp);
    assert bus[0] == late;
    assert !PassesRight(c, bus, 1, bus[0].stamp);
  }

  lemma LateHarms(c: Config, k: nat)
    requires Sound(c) && k >= 2 && c.threshold >= 2
    ensures !DecisionRight(c, k)
  {
    var m := if c.threshold == 2 then c.cap else 1;
    var s, r, first, late := LateOnBus(c, k, "", m);
    var bus, olds := OnBus(c, s.traffic.emitted, "", r), BreakerReplay.Copies(first, m);
    CopiesAre(first, m);
    if c.threshold == 2 {
      LateFloodHarms(c, bus, late, olds);
    } else {
      LatePairHarms(c, bus);
    }
    ReplayedAtRest(c, k, s, "", r);
  }

  /** The threshold is passed at the right failures in all those runs exactly with at most one drainer or a
      threshold of one. */
  lemma DecisionRightIff(c: Config, k: nat)
    requires Sound(c)
    ensures DecisionRight(c, k) <==> k <= 1 || c.threshold == 1
  {
    if k <= 1 || c.threshold == 1 {
      forall s, agent, r | Reaches(c, k, s) && AtRest(s.traffic) && Resumable(s, agent, r)
        ensures AlwaysDecidesAlike(c, agent, CallsOf(s.snap, agent), s.traffic.emitted, r)
      {
        ReplayedAtRest(c, k, s, agent, r);
        if k <= 1 {
          SingleDrainerInOrder(c, k, s, agent, r);
          SortedIsHarmless(c, OnBus(c, s.traffic.emitted, agent, r));
        }
      }
    } else {
      LateHarms(c, k);
    }
  }

  // ---------------------------------------------------------------- one disordered restart, with its run

  lemma BufferedSize(c: Config, buffer: seq<Failure>, x: Failure, now: real)
    ensures |Buffered(c, buffer, x, now)| <= |buffer| + 1
  {
    var s := LastN(c.cap, buffer + [x]);
    var j := Cut(s, now - c.window);
    DropExpiredIs(s, now - c.window, j);
  }

  lemma SingleFailureEvents(c: Config, agent: string, calls: seq<Input>, x: Failure)
    requires c.threshold >= 3 && |CircuitBreaker.Run(c, agent, calls).breaker.buffer| <= 1
    ensures Stretch(c, agent, calls, [Fail(x, x.stamp)]) == [FailureObserved(agent, x)]
  {
    StretchOne(c, agent, calls, Fail(x, x.stamp));
    BufferedSize(c, CircuitBreaker.Run(c, agent, calls).breaker.buffer, x, x.stamp);
  }

  /** Two drainers, two failures: the bus reaches rest with the later failure first, and a restart from it opens the
      circuit at a third failure at which the breaker itself stays closed. */
  lemma DisorderHappens(agent: string) returns (s: Shop)
    ensures var c := Config(3, 32, 100.0, 60.0, 2);
            var rebuilt := Replayed(c, s.traffic.emitted, agent, 50.0);
            var calls := CallsOf(s.snap, agent);
            && Happens(c, 2, s) && AtRest(s.traffic) && calls == [Fail(At(5.0), 5.0), Fail(At(10.0), 10.0)]
            && s.traffic.emitted == [FailureObserved(agent, At(10.0)), FailureObserved(agent, At(5.0))]
            && StateOf(c, agent, calls + [Fail(At(108.0), 108.0)]) == Closed
            && StateOf(c, agent, calls + [Replay(rebuilt, 50.0)] + [Fail(At(108.0), 108.0)]) == Open
  {
    s := ReversedPair(Config(3, 32, 100.0, 60.0, 2), agent, At(5.0), At(10.0));
    DisorderOpensEarly(agent);
  }

  lemma ReversedPair(c: Config, agent: string, x: Failure, y: Failure) returns (s: Shop)
    requires c.threshold >= 3
    ensures Happens(c, 2, s) && AtRest(s.traffic) && CallsOf(s.snap, agent) == [Fail(x, x.stamp), Fail(y, y.stamp)]
    ensures s.traffic.emitted == [FailureObserved(agent, y), FailureObserved(agent, x)]
  {
    var a, b := Fail(x, x.stamp), Fail(y, y.stamp);
    s := Swapped(c, 2, agent, [a], [b]);
    SingleFailureEvents(c, agent, [], x);
    OneBuffered(c, agent, x);
    SingleFailureEvents(c, agent, [a], y);
    assert [a] + [b] == [a, b];
  }

  lemma OneBuffered(c: Config, agent: string, x: Failure)
    ensures |CircuitBreaker.Run(c, agent, [Fail(x, x.stamp)]).breaker.buffer| <= 1
  {
    RunAppend(c, agent, [], Fail(x, x.stamp));
    assert [] + [Fail(x, x.stamp)] == [Fail(x, x.stamp)];
    BufferedSize(c, [], x, x.stamp);
  }
}
