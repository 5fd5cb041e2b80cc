/** From the isolator's queue to the event bus (nth_dao/fault_isolation.py): calls that defer events under the lock,
    drainers that take the queue and emit it outside the lock, and what the bus then tells. */
module AuditFlow {
  import opened Prelude
  import opened CircuitBreaker
  import opened FaultIsolation

  /** `hands[p]` is what drainer `p` has taken and not yet emitted; `lost` is what a failing
      emit swallowed or an isolator without a bus threw away. */
  datatype Traffic = Traffic(pending: seq<Audit>, hands: seq<seq<Audit>>, emitted: seq<Audit>, lost: multiset<Audit>)

  datatype Move = Defer(audits: seq<Audit>) | Take(p: nat) | Emit(p: nat) | Swallow(p: nat) | Raise(p: nat) | Clear

  predicate Allowed(t: Traffic, m: Move) {
    match m
    case Defer(_) => true
    case Clear => true
    case Take(p) => p < |t.hands| && t.hands[p] == []
    case Raise(p) => p < |t.hands|
    case Emit(p) => p < |t.hands| && t.hands[p] != []
    case Swallow(p) => p < |t.hands| && t.hands[p] != []
  }

  function Moved(t: Traffic, m: Move): Traffic
    requires Allowed(t, m)
  {
    match m
    case Defer(audits) => t.(pending := t.pending + audits)
    case Take(p) => t.(pending := [], hands := t.hands[p := t.pending])
    case Emit(p) => t.(emitted := t.emitted + [t.hands[p][0]], hands := t.hands[p := t.hands[p][1..]])
    case Swallow(p) => t.(lost := t.lost + multiset{t.hands[p][0]}, hands := t.hands[p := t.hands[p][1..]])
    case Raise(p) => t.(lost := t.lost + multiset(t.hands[p]), hands := t.hands[p := []])
    case Clear => t.(pending := [], lost := t.lost + multiset(t.pending))
  }

  /** Where each transfer moves events: only an emit reaches the bus, with the first event of the hand; a take empties the
      queue into the hand, a failing emit drops the first event, an error the whole hand, a missing bus the queue. */
  lemma TransferMoves(t: Traffic, m: Move)
    requires Allowed(t, m) && !m.Defer?
    ensures var t' := Moved(t, m);
            && |t'.hands| == |t.hands|
            && (m.Take? || m.Clear? ==> t'.pending == []) && (!m.Take? && !m.Clear? ==> t'.pending == t.pending)
            && t'.emitted == (if m.Emit? then t.emitted + [t.hands[m.p][0]] else t.emitted)
            && (m.Take? ==> t'.hands[m.p] == t.pending) && (m.Raise? ==> t'.hands[m.p] == [])
            && (m.Emit? || m.Swallow? ==> [t.hands[m.p][0]] + t'.hands[m.p] == t.hands[m.p])
            && forall q :: 0 <= q < |t.hands| && (m.Clear? || q != m.p) ==> t'.hands[q] == t.hands[q]
  {
  }

  function InHand(hands: seq<seq<Audit>>, x: Audit): nat {
    if hands == [] then 0 else InHand(hands[..|hands| - 1], x) + multiset(hands[|hands| - 1])[x]
  }

  /** How many copies of an event exist: queued, in some drainer's hand, emitted or lost. */
  function Copies(t: Traffic, x: Audit): nat {
    multiset(t.pending)[x] + InHand(t.hands, x) + multiset(t.emitted)[x] + t.lost[x]
  }

  lemma {:induction false} HandChange(hands: seq<seq<Audit>>, p: nat, hand: seq<Audit>, x: Audit)
    requires p < |hands|
    ensures InHand(hands[p := hand], x) + multiset(hands[p])[x] == InHand(hands, x) + multiset(hand)[x]
  {
    var n := |hands| - 1;
    var changed := hands[p := hand];
    if p == n {
      assert changed[..n] == hands[..n];
    } else {
      HandChange(hands[..n], p, hand, x);
      assert changed[..n] == hands[..n][p := hand] && changed[n] == hands[n];
    }
  }

  lemma PopCounts(hand: seq<Audit>, x: Audit)
    requires hand != []
    ensures multiset(hand)[x] == multiset(hand[1..])[x] + if hand[0] == x then 1 else 0
  {
    assert hand == [hand[0]] + hand[1..];
  }

  /** No move creates, duplicates or drops an event. */
  lemma MoveConserves(t: Traffic, m: Move, x: Audit)
    requires Allowed(t, m)
    ensures Copies(Moved(t, m), x) == Copies(t, x) + if m.Defer? then multiset(m.audits)[x] else 0
  {
    match m
    case Defer(_) =>
    case Clear =>
    case Take(p) => HandChange(t.hands, p, t.pending, x);
    case Raise(p) => HandChange(t.hands, p, [], x);
    case Emit(p) =>
      HandChange(t.hands, p, t.hands[p][1..], x);
      PopCounts(t.hands[p], x);
    case Swallow(p) =>
      HandChange(t.hands, p, t.hands[p][1..], x);
      PopCounts(t.hands[p], x);
  }

  // ---------------------------------------------------------------- the isolator and its drainers together

  /** The isolator's fields and where its events are. */
  datatype Shop = Shop(snap: Snapshot, traffic: Traffic)

  /** A locked call on one agent, a locked call on all of them that defers these events, or a step of the queue. */
  datatype Act = Call(agent: string, input: Input) | Work(audits: seq<Audit>) | Transfer(m: Move)

  /** What every call of the isolator does: the breakers stay those of their agents' runs, the queue grows. */
  ghost predicate Worked(c: Config, s: Shop, audits: seq<Audit>, s': Shop) {
    && TracksAll(c, s'.snap) && Defers(s.snap, audits, s'.snap)
    && s'.traffic == Moved(s.traffic, Defer(audits))
  }

  ghost predicate Next(c: Config, s: Shop, act: Act, s': Shop) {
    match act
    case Call(agent, input) =>
      && Performed(c, s.snap, agent, input, s'.snap)
      && s'.traffic == Moved(s.traffic, Defer(Step(c, agent, View(s.snap, agent), input).audits))
    case Work(audits) => Worked(c, s, audits, s')
    case Transfer(m) =>
      && !m.Defer? && Allowed(s.traffic, m) && s'.traffic == Moved(s.traffic, m)
      && s'.snap == s.snap.(pending := s'.traffic.pending)
  }

  /** A call on one agent is a special case of work. */
  lemma PerformedIsWork(c: Config, s: Shop, agent: string, input: Input, s': Shop)
    requires TracksAll(c, s.snap) && Next(c, s, Call(agent, input), s')
    ensures Next(c, s, Work(Step(c, agent, View(s.snap, agent), input).audits), s')
  {
    PerformedKeepsTracks(c, s.snap, agent, input, s'.snap);
  }

  ghost predicate StepAt(c: Config, states: seq<Shop>, acts: seq<Act>, i: nat)
    requires i < |acts| && i + 1 < |states|
  {
    Next(c, states[i], acts[i], states[i + 1])
  }

  predicate Idle(t: Traffic) {
    t.pending == [] && t.emitted == [] && t.lost == multiset{} && forall p :: 0 <= p < |t.hands| ==> t.hands[p] == []
  }

  ghost predicate Run(c: Config, states: seq<Shop>, acts: seq<Act>) {
    && |states| == |acts| + 1
    && states[0].snap == Snapshot(map[], map[], [], map[], []) && Idle(states[0].traffic)
    && forall i :: 0 <= i < |acts| ==> StepAt(c, states, acts, i)
  }

  ghost predicate Balanced(s: Shop) {
    forall x :: Copies(s.traffic, x) == multiset(s.snap.deferred)[x]
  }

  ghost predicate Inv(c: Config, s: Shop) {
    TracksAll(c, s.snap) && s.snap.pending == s.traffic.pending && Balanced(s)
  }

  lemma WorkKeepsInv(c: Config, s: Shop, audits: seq<Audit>, s': Shop)
    requires Inv(c, s) && Next(c, s, Work(audits), s')
    ensures Inv(c, s')
  {
    forall x ensures Copies(s'.traffic, x) == multiset(s'.snap.deferred)[x] { MoveConserves(s.traffic, Defer(audits), x); }
  }

  lemma TransferKeepsInv(c: Config, s: Shop, m: Move, s': Shop)
    requires Inv(c, s) && Next(c, s, Transfer(m), s')
    ensures Inv(c, s')
  {
    forall x ensures Copies(s'.traffic, x) == multiset(s'.snap.deferred)[x] { MoveConserves(s.traffic, m, x); }
    PendingIrrelevant(c, s.snap, s'.traffic.pending);
  }

  lemma StepKeepsInv(c: Config, s: Shop, act: Act, s': Shop)
    requires Inv(c, s) && Next(c, s, act, s')
    ensures Inv(c, s')
  {
    match act
    case Call(agent, input) =>
      PerformedIsWork(c, s, agent, input, s');
      WorkKeepsInv(c, s, Step(c, agent, View(s.snap, agent), input).audits, s');
    case Work(audits) => WorkKeepsInv(c, s, audits, s');
    case Transfer(m) => TransferKeepsInv(c, s, m, s');
  }

  lemma {:induction false} NothingInHand(hands: seq<seq<Audit>>, x: Audit)
    requires forall p :: 0 <= p < |hands| ==> hands[p] == []
    ensures InHand(hands, x) == 0
  {
    if hands != [] { NothingInHand(hands[..|hands| - 1], x); }
  }

  lemma StartIsOk(c: Config, s: Shop)
    requires s.snap == Snapshot(map[], map[], [], map[], []) && Idle(s.traffic)
    ensures Inv(c, s)
  {
    forall x ensures Copies(s.traffic, x) == 0 { NothingInHand(s.traffic.hands, x); }
  }

  lemma {:induction false} RunKeepsInv(c: Config, states: seq<Shop>, acts: seq<Act>, n: nat)
    requires Run(c, states, acts) && n < |states|
    ensures Inv(c, states[n])
  {
    if n == 0 {
      StartIsOk(c, states[0]);
    } else {
      RunKeepsInv(c, states, acts, n - 1);
      assert StepAt(c, states, acts, n - 1);
      StepKeepsInv(c, states[n - 1], acts[n - 1], states[n]);
    }
  }

  /** Under every interleaving of callers and drainers, each event ever deferred is queued, in hand, emitted or
      lost, exactly as often as it was deferred. */
  lemma AuditsAreConserved(c: Config, states: seq<Shop>, acts: seq<Act>, n: nat, x: Audit)
    requires Run(c, states, acts) && n < |states|
    ensures multiset(states[n].snap.deferred)[x] == Copies(states[n].traffic, x)
  {
    RunKeepsInv(c, states, acts, n);
  }

  // ---------------------------------------------------------------- one drainer

  /** The act loses nothing: no failing emit, and no queue thrown away. */
  predicate Lossless(act: Act) {
    act.Transfer? ==> act.m.Take? || act.m.Emit?
  }

  /** What is emitted, in hand and queued is, in this order, everything deferred. */
  ghost predicate InOrder(s: Shop) {
    |s.traffic.hands| == 1 && s.traffic.emitted + s.traffic.hands[0] + s.traffic.pending == s.snap.deferred
  }

  lemma EmitKeepsOrder(emitted: seq<Audit>, hand: seq<Audit>, pending: seq<Audit>)
    requires hand != []
    ensures emitted + [hand[0]] + hand[1..] + pending == emitted + hand + pending
  {
    assert hand == [hand[0]] + hand[1..];
  }

  lemma WorkKeepsOrder(s: Shop, audits: seq<Audit>, s': Shop)
    requires InOrder(s) && Defers(s.snap, audits, s'.snap) && s'.traffic == Moved(s.traffic, Defer(audits))
    ensures InOrder(s')
  {
    var t := s.traffic;
    assert t.emitted + t.hands[0] + (t.pending + audits) == t.emitted + t.hands[0] + t.pending + audits;
  }

  lemma StepKeepsOrder(c: Config, s: Shop, act: Act, s': Shop)
    requires InOrder(s) && s.snap.pending == s.traffic.pending && Next(c, s, act, s') && Lossless(act)
    ensures InOrder(s')
  {
    var t := s.traffic;
    match act
    case Call(agent, input) => WorkKeepsOrder(s, Step(c, agent, View(s.snap, agent), input).audits, s');
    case Work(audits) => WorkKeepsOrder(s, audits, s');
    case Transfer(m) =>
      if m.Emit? {
        EmitKeepsOrder(t.emitted, t.hands[0], t.pending);
      } else {
        assert t.emitted + t.pending + [] == t.emitted + [] + t.pending;
      }
  }

  /** In every run with one drainer that loses nothing, the bus is at every moment a prefix of what was deferred. */
  lemma {:induction false} SingleDrainerKeepsOrder(c: Config, states: seq<Shop>, acts: seq<Act>, n: nat)
    requires Run(c, states, acts) && n < |states| && |states[0].traffic.hands| == 1
    requires forall i :: 0 <= i < n ==> Lossless(acts[i])
    ensures InOrder(states[n]) && states[n].traffic.emitted <= states[n].snap.deferred
  {
    if n > 0 {
      SingleDrainerKeepsOrder(c, states, acts, n - 1);
      RunKeepsInv(c, states, acts, n - 1);
      assert StepAt(c, states, acts, n - 1);
      StepKeepsOrder(c, states[n - 1], acts[n - 1], states[n]);
    }
  }

  predicate AtRest(t: Traffic) {
    t.pending == [] && forall p :: 0 <= p < |t.hands| ==> t.hands[p] == []
  }

  /** Once such a run is at rest, folding the bus gives every agent's circuit state. */
  lemma BusReconstructsState(c: Config, states: seq<Shop>, acts: seq<Act>, n: nat, agent: string)
    requires Run(c, states, acts) && n < |states| && |states[0].traffic.hands| == 1
    requires (forall i :: 0 <= i < n ==> Lossless(acts[i])) && AtRest(states[n].traffic)
    ensures states[n].traffic.emitted == states[n].snap.deferred
    ensures Fold(states[n].traffic.emitted, agent) == View(states[n].snap, agent).health.circuit
  {
    SingleDrainerKeepsOrder(c, states, acts, n);
    RunKeepsInv(c, states, acts, n);
    FoldIsState(c, states[n].snap, agent);
  }

  /** And a replay of that bus rebuilds the agent's unexpired deque, for an agent without resets and replays. */
  lemma BusRebuildsBuffer(c: Config, states: seq<Shop>, acts: seq<Act>, n: nat, agent: string, now: real)
    requires Sound(c) && Run(c, states, acts) && n < |states| && |states[0].traffic.hands| == 1
    requires (forall i :: 0 <= i < n ==> Lossless(acts[i])) && AtRest(states[n].traffic)
    requires var calls := CallsOf(states[n].snap, agent); TimeOrdered(calls) && ResetFree(calls) && Clock(calls) <= now
    ensures Replayed(c, states[n].traffic.emitted, agent, now) == DropExpired(View(states[n].snap, agent).buffer, now - c.window)
  {
    var snap := states[n].snap;
    BusReconstructsState(c, states, acts, n, agent);
    RunKeepsInv(c, states, acts, n);
    assert Tracks(c, snap, agent);
    FoldOf(snap.deferred, agent);
    ReplayRebuilds(c, agent, CallsOf(snap, agent), snap.deferred, now);
  }

  // ---------------------------------------------------------------- several drainers

  /** An agent's circuit events. */
  function Changes(audits: seq<Audit>, agent: string): seq<Audit> {
    if audits == [] then []
    else
      var rest, a := Changes(audits[..|audits| - 1], agent), audits[|audits| - 1];
      if a.agent == agent && !a.FailureObserved? then rest + [a] else rest
  }

  lemma {:induction false} FoldOfChanges(audits: seq<Audit>, agent: string)
    ensures Fold(audits, agent) == Fold(Changes(audits, agent), agent)
  {
    if audits != [] {
      FoldOfChanges(audits[..|audits| - 1], agent);
      FoldAppend(Changes(audits[..|audits| - 1], agent), audits[|audits| - 1], agent);
    }
  }

  /** With any number of drainers the bus tells an agent's state as long as its circuit events are on it in the
      order in which they were deferred. */
  lemma OrderedBusTellsState(c: Config, states: seq<Shop>, acts: seq<Act>, n: nat, agent: string)
    requires Run(c, states, acts) && n < |states|
    requires Changes(states[n].traffic.emitted, agent) == Changes(states[n].snap.deferred, agent)
    ensures Fold(states[n].traffic.emitted, agent) == View(states[n].snap, agent).health.circuit
  {
    RunKeepsInv(c, states, acts, n);
    FoldIsState(c, states[n].snap, agent);
    FoldOfChanges(states[n].traffic.emitted, agent);
    FoldOfChanges(states[n].snap.deferred, agent);
  }
}
