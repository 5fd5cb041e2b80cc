/** Whether a breaker whose deque was rebuilt from the event bus still opens when it should
    (nth_dao/fault_isolation.py): the threshold test at every failure after the replay. */
module ReplayDecisions {
  import opened Prelude
  import opened CircuitBreaker
  import opened BreakerReplay

  /** With `n` failures since the replay and this cutoff, what the deque still holds of the bus passes the threshold
      exactly when what the window holds of it does. */
  predicate PassesRight(c: Config, bus: seq<Failure>, n: nat, cutoff: real)
    requires n <= c.cap
  {
    |DropExpired(LastN(c.cap - n, bus), cutoff)| + n >= c.threshold <==> |InWindow(bus, cutoff)| + n >= c.threshold
  }

  /** So it does for every number of failures below the threshold and every stamp on the bus. */
  ghost predicate Harmless(c: Config, bus: seq<Failure>)
    requires Sound(c)
  {
    forall n, i :: 1 <= n < c.threshold && 0 <= i < |bus| ==> PassesRight(c, bus, n, bus[i].stamp)
  }

  /** Whenever a failure is followed by an older one, all but one of a threshold's worth are stamped no earlier. */
  ghost predicate Tolerable(c: Config, bus: seq<Failure>) {
    forall i, k :: 0 <= i < k < |bus| && bus[i].stamp > bus[k].stamp ==> |InWindow(bus, bus[i].stamp)| + 1 >= c.threshold
  }

  /** The restarted breaker passes the threshold at the last of these failures exactly when the window holds one. */
  predicate DecidesRight(c: Config, bus: seq<Failure>, r: real, later: seq<Input>) {
    |Fed(c, LastN(c.cap, bus), later)| >= c.threshold <==>
    |InWindow(bus + Failures(later), LastNow(r, later) - c.window)| >= c.threshold
  }

  // ---------------------------------------------------------------- what the deque holds

  /** The deque is the history from `m` on: what is before `m` is expired or pushed out, and `m` itself is unexpired. */
  predicate HeldFrom(c: Config, all: seq<Failure>, buffer: seq<Failure>, cutoff: real, m: nat) {
    && |all| - c.cap <= m <= |all| && buffer == all[m..]
    && (forall i :: 0 <= i < m ==> all[i].stamp < cutoff || i < |all| - c.cap)
    && (m < |all| ==> all[m].stamp >= cutoff)
  }

  lemma PushHeld(c: Config, all: seq<Failure>, m: nat, x: Failure) returns (m': nat)
    requires m <= |all|
    ensures m <= m' <= |all| + 1 && |all| + 1 - c.cap <= m' && LastN(c.cap, all[m..] + [x]) == (all + [x])[m'..]
    ensures m < m' ==> m' == |all| + 1 - c.cap
  {
    var more := all + [x];
    assert all[m..] + [x] == more[m..];
    m' := if |more| - m <= c.cap then m else |more| - c.cap;
    assert m' > m ==> more[m..][|more| - m - c.cap..] == more[m'..];
  }

  lemma PruneHeld(all: seq<Failure>, m: nat, cutoff: real) returns (m': nat)
    requires m <= |all|
    ensures m <= m' <= |all| && DropExpired(all[m..], cutoff) == all[m'..]
    ensures (forall i :: m <= i < m' ==> all[i].stamp < cutoff) && (m' < |all| ==> all[m'].stamp >= cutoff)
  {
    var k := Cut(all[m..], cutoff);
    DropExpiredIs(all[m..], cutoff, k);
    m' := m + k;
    assert all[m..][k..] == all[m'..];
    forall i | m <= i < m' ensures all[i].stamp < cutoff { assert all[i] == all[m..][i - m]; }
  }

  lemma FeedHeld(c: Config, all: seq<Failure>, buffer: seq<Failure>, cut: real, m: nat, x: Failure, now: real) returns (m': nat)
    requires m <= |all| && buffer == all[m..] && (forall i :: 0 <= i < m ==> all[i].stamp < cut || i < |all| - c.cap)
    requires cut <= now - c.window
    ensures HeldFrom(c, all + [x], Buffered(c, buffer, x, now), now - c.window, m')
  {
    var more := all + [x];
    var m1 := PushHeld(c, all, m, x);
    m' := PruneHeld(more, m1, now - c.window);
    forall i | 0 <= i < m' ensures more[i].stamp < now - c.window || i < |more| - c.cap {
      if i < m { assert more[i] == all[i]; }
    }
  }

  lemma {:induction false} FedHeld(c: Config, bus: seq<Failure>, r: real, later: seq<Input>) returns (m: nat)
    requires Follows(r, later) && later != []
    ensures HeldFrom(c, bus + Failures(later), Fed(c, LastN(c.cap, bus), later), LastNow(r, later) - c.window, m)
    decreases |later|
  {
    var start := LastN(c.cap, bus);
    var init, x, now := Unsnoc(c, start, r, later);
    Associate(bus, Failures(init), x);
    if init == [] {
      assert bus + [] == bus && start == bus[KeptFrom(c, bus)..];
      m := FeedHeld(c, bus, start, now - c.window, KeptFrom(c, bus), x, now);
    } else {
      m := FedHeld(c, bus, r, init);
      m := FeedHeld(c, bus + Failures(init), Fed(c, start, init), LastNow(r, init) - c.window, m, x, now);
    }
  }

  // ---------------------------------------------------------------- a harmless order decides right

  /** Only the stamps on the bus matter as cutoffs. */
  predicate SameSplit(bus: seq<Failure>, cut: real, other: real) {
    forall i :: 0 <= i < |bus| ==> (bus[i].stamp < cut <==> bus[i].stamp < other)
  }

  lemma {:induction false} SameWindows(bus: seq<Failure>, cut: real, other: real)
    requires SameSplit(bus, cut, other)
    ensures InWindow(bus, cut) == InWindow(bus, other)
  {
    if bus != [] {
      assert SameSplit(bus[..|bus| - 1], cut, other);
      SameWindows(bus[..|bus| - 1], cut, other);
    }
  }

  lemma {:induction false} SameDrops(bus: seq<Failure>, cut: real, other: real)
    requires SameSplit(bus, cut, other)
    ensures DropExpired(bus, cut) == DropExpired(bus, other)
  {
    if bus != [] {
      assert SameSplit(bus[1..], cut, other);
      SameDrops(bus[1..], cut, other);
    }
  }

  lemma {:induction false} NextStamp(bus: seq<Failure>, cut: real) returns (i: nat)
    requires !AllBefore(bus, cut)
    ensures i < |bus| && SameSplit(bus, cut, bus[i].stamp)
  {
    var n := |bus| - 1;
    if AllBefore(bus[..n], cut) {
      i := n;
      assert forall j :: 0 <= j < n ==> bus[j] == bus[..n][j];
    } else {
      i := NextStamp(bus[..n], cut);
      assert forall j :: 0 <= j < n ==> bus[j] == bus[..n][j];
      if cut <= bus[n].stamp < bus[i].stamp { i := n; }
    }
  }

  lemma PassesEverywhere(c: Config, bus: seq<Failure>, n: nat, cutoff: real)
    requires Sound(c) && Harmless(c, bus) && 1 <= n < c.threshold
    ensures PassesRight(c, bus, n, cutoff)
  {
    var kept := LastN(c.cap - n, bus);
    if AllBefore(bus, cutoff) {
      InWindowKeepsNone(bus, cutoff);
      DropExpiredIs(kept, cutoff, |kept|);
    } else {
      var i := NextStamp(bus, cutoff);
      assert PassesRight(c, bus, n, bus[i].stamp);
      SameWindows(bus, cutoff, bus[i].stamp);
      assert SameSplit(kept, cutoff, bus[i].stamp);
      SameDrops(kept, cutoff, bus[i].stamp);
    }
  }

  lemma HeldWithinBus(c: Config, bus: seq<Failure>, more: seq<Failure>, buffer: seq<Failure>, cutoff: real, m: nat)
    requires HeldFrom(c, bus + more, buffer, cutoff, m) && |more| <= c.cap && AllFrom(more, cutoff)
    ensures m <= |bus| && |buffer| == |bus| - m + |more|
    ensures forall i :: 0 <= i < m && |bus| + |more| - c.cap <= i ==> bus[i].stamp < cutoff
    ensures m < |bus| ==> bus[m].stamp >= cutoff
  {
    var all := bus + more;
    assert forall j :: |bus| <= j < |all| ==> all[j].stamp >= cutoff;
    assert m == 0 || all[m - 1].stamp < cutoff || m - 1 < |all| - c.cap;
    assert forall i :: 0 <= i < |bus| ==> all[i] == bus[i];
  }

  lemma DropOfEnd(bus: seq<Failure>, s: nat, m: nat, cutoff: real)
    requires s <= m <= |bus| && (forall i :: s <= i < m ==> bus[i].stamp < cutoff) && (m < |bus| ==> bus[m].stamp >= cutoff)
    ensures |DropExpired(bus[s..], cutoff)| == |bus| - m
  {
    assert forall i :: s <= i < |bus| ==> bus[s..][i - s] == bus[i];
    DropExpiredIs(bus[s..], cutoff, m - s);
  }

  /** Few failures since the replay, all unexpired: the deque is what it still holds of the bus, and them. */
  lemma FewHeld(c: Config, bus: seq<Failure>, more: seq<Failure>, buffer: seq<Failure>, cutoff: real, m: nat)
    requires HeldFrom(c, bus + more, buffer, cutoff, m) && |more| <= c.cap && AllFrom(more, cutoff)
    ensures |buffer| == |DropExpired(LastN(c.cap - |more|, bus), cutoff)| + |more|
  {
    HeldWithinBus(c, bus, more, buffer, cutoff, m);
    var s := if |bus| <= c.cap - |more| then 0 else |bus| + |more| - c.cap;
    assert LastN(c.cap - |more|, bus) == bus[s..];
    DropOfEnd(bus, s, m, cutoff);
  }

  /** The failures since the restart are all unexpired. */
  lemma AllRecent(c: Config, bus: seq<Failure>, more: seq<Failure>, buffer: seq<Failure>, cutoff: real, m: nat)
    requires Sound(c) && Harmless(c, bus) && more != [] && AllFrom(more, cutoff) && HeldFrom(c, bus + more, buffer, cutoff, m)
    ensures |buffer| >= c.threshold <==> |InWindow(bus + more, cutoff)| >= c.threshold
  {
    InWindowConcat(bus, more, cutoff);
    InWindowKeepsAll(more, cutoff);
    if |more| < c.threshold {
      FewHeld(c, bus, more, buffer, cutoff, m);
      PassesEverywhere(c, bus, |more|, cutoff);
    } else if m > |bus| {
      assert (bus + more)[m - 1] == more[m - 1 - |bus|];
    }
  }

  /** How many count when all of the bus is expired. */
  lemma OldCount(bus: seq<Failure>, more: seq<Failure>, cutoff: real) returns (p: nat)
    requires AllBefore(bus, cutoff) && Sorted(more)
    ensures p <= |more| && AllBefore(more[..p], cutoff) && (forall j :: p <= j < |more| ==> more[j].stamp >= cutoff)
    ensures |InWindow(bus + more, cutoff)| == |more| - p
  {
    InWindowConcat(bus, more, cutoff);
    InWindowKeepsNone(bus, cutoff);
    DropIsFilter(more, cutoff);
    p := Cut(more, cutoff);
    DropExpiredIs(more, cutoff, p);
    assert forall j :: p < j < |more| ==> more[p].stamp <= more[j].stamp;
  }

  /** Some failure since the restart is expired, and with it all of the bus. */
  lemma AllOld(c: Config, bus: seq<Failure>, more: seq<Failure>, buffer: seq<Failure>, cutoff: real, m: nat)
    requires Sound(c) && AllBefore(bus, cutoff) && Sorted(more) && HeldFrom(c, bus + more, buffer, cutoff, m)
    ensures |buffer| >= c.threshold <==> |InWindow(bus + more, cutoff)| >= c.threshold
  {
    var p := OldCount(bus, more, cutoff);
    FirstUnexpired(bus, more, cutoff, p, m);
    assert |buffer| == |bus| + |more| - m;
    if m > |bus| + p {
      assert (bus + more)[m - 1] == more[m - 1 - |bus|];
    }
  }

  lemma FirstUnexpired(bus: seq<Failure>, more: seq<Failure>, cutoff: real, p: nat, m: nat)
    requires AllBefore(bus, cutoff) && p <= |more| && AllBefore(more[..p], cutoff)
    requires m <= |bus + more| && (m < |bus + more| ==> (bus + more)[m].stamp >= cutoff)
    ensures m >= |bus| + p
  {
    var all := bus + more;
    forall j | 0 <= j < |bus| + p ensures all[j].stamp < cutoff {
      if j >= |bus| { assert all[j] == more[..p][j - |bus|]; }
    }
  }

  lemma HarmlessDecidesRight(c: Config, bus: seq<Failure>, r: real, later: seq<Input>)
    requires Sound(c) && Unexpired(c, bus, r) && Harmless(c, bus) && Follows(r, later) && later != []
    ensures DecidesRight(c, bus, r, later)
  {
    var more, cutoff := Failures(later), LastNow(r, later) - c.window;
    var m := FedHeld(c, bus, r, later);
    LaterIsInOrder(c, bus, r, later);
    if more[0].stamp >= cutoff {
      assert AllFrom(more, cutoff);
      AllRecent(c, bus, more, Fed(c, LastN(c.cap, bus), later), cutoff, m);
    } else {
      assert AllBefore(bus, cutoff);
      AllOld(c, bus, more, Fed(c, LastN(c.cap, bus), later), cutoff, m);
    }
  }

  // ---------------------------------------------------------------- a harmful one does not

  lemma FloodDecides(c: Config, bus: seq<Failure>, more: seq<Failure>, cutoff: real)
    requires |more| <= c.cap && AllFrom(more, cutoff)
    ensures |DropExpired(LastN(c.cap, bus + more), cutoff)| == |DropExpired(LastN(c.cap - |more|, bus), cutoff)| + |more|
    ensures |InWindow(bus + more, cutoff)| == |InWindow(bus, cutoff)| + |more|
  {
    var kept := LastN(c.cap - |more|, bus);
    assert LastN(c.cap, bus + more) == kept + more;
    var k := Cut(kept, cutoff);
    DropExpiredIs(kept, cutoff, k);
    assert k < |kept| ==> (kept + more)[k] == kept[k];
    DropExpiredIs(kept + more, cutoff, k);
    InWindowConcat(bus, more, cutoff);
    InWindowKeepsAll(more, cutoff);
  }

  /** `n` failures at the moment of the replay, the last of them noticed when the cutoff reaches that stamp. */
  lemma WrongDecision(c: Config, bus: seq<Failure>, r: real, n: nat, i: nat) returns (later: seq<Input>)
    requires Sound(c) && Unexpired(c, bus, r) && 1 <= n < c.threshold && i < |bus| && !PassesRight(c, bus, n, bus[i].stamp)
    ensures later != [] && Follows(r, later) && !DecidesRight(c, bus, r, later)
  {
    var cutoff, x := bus[i].stamp, Failure("", "", r);
    later := FloodThenWait(c, bus, x, n, cutoff + c.window);
    CopiesAre(x, n);
    FloodIsWrong(c, bus, r, later, Copies(x, n), cutoff);
  }

  lemma FloodIsWrong(c: Config, bus: seq<Failure>, r: real, later: seq<Input>, more: seq<Failure>, cutoff: real)
    requires |more| <= c.cap && AllFrom(more, cutoff) && !PassesRight(c, bus, |more|, cutoff)
    requires Fed(c, LastN(c.cap, bus), later) == DropExpired(LastN(c.cap, bus + more), cutoff)
    requires Failures(later) == more && LastNow(r, later) - c.window == cutoff
    ensures !DecidesRight(c, bus, r, later)
  {
    FloodDecides(c, bus, more, cutoff);
    Disagrees(c, bus, r, later, |DropExpired(LastN(c.cap, bus + more), cutoff)|, |InWindow(bus + more, cutoff)|);
  }

  lemma Disagrees(c: Config, bus: seq<Failure>, r: real, later: seq<Input>, held: nat, counted: nat)
    requires |Fed(c, LastN(c.cap, bus), later)| == held && |InWindow(bus + Failures(later), LastNow(r, later) - c.window)| == counted
    requires !(held >= c.threshold <==> counted >= c.threshold)
    ensures !DecidesRight(c, bus, r, later)
  {
  }

  // ---------------------------------------------------------------- with room in the deque

  lemma {:induction false} WindowShrinks(s: seq<Failure>, early: real, late: real)
    requires early <= late
    ensures |InWindow(s, early)| >= |InWindow(s, late)|
  {
    if s != [] { WindowShrinks(s[..|s| - 1], early, late); }
  }

  lemma {:induction false} SomeExpired(s: seq<Failure>, cutoff: real) returns (k: nat)
    requires |InWindow(s, cutoff)| < |s|
    ensures k < |s| && s[k].stamp < cutoff
  {
    var n := |s| - 1;
    if s[n].stamp < cutoff { k := n; } else { k := SomeExpired(s[..n], cutoff); }
  }

  /** What dropping from the left keeps, and what of it counts. */
  lemma KeptAndCounted(bus: seq<Failure>, cutoff: real) returns (m: nat)
    ensures m <= |bus| && DropExpired(bus, cutoff) == bus[m..] && |InWindow(bus, cutoff)| == |InWindow(bus[m..], cutoff)| <= |bus| - m
    ensures (forall i :: 0 <= i < m ==> bus[i].stamp < cutoff) && (m < |bus| ==> bus[m].stamp >= cutoff)
  {
    m := Cut(bus, cutoff);
    DropExpiredIs(bus, cutoff, m);
    InWindowOfDrop(bus, cutoff);
    InWindowSize(bus[m..], cutoff);
  }

  /** If the kept part passes the threshold with an expired failure in it, the tolerated order makes up for it. */
  lemma TolerablePasses(c: Config, bus: seq<Failure>, n: nat, cutoff: real)
    requires Tolerable(c, bus) && 1 <= n && |bus| + n <= c.cap
    ensures PassesRight(c, bus, n, cutoff)
  {
    var m := KeptAndCounted(bus, cutoff);
    if |InWindow(bus[m..], cutoff)| < |bus| - m {
      var k := SomeExpired(bus[m..], cutoff);
      assert bus[m..][k] == bus[m + k];
      assert |InWindow(bus, bus[m].stamp)| + 1 >= c.threshold;
      WindowShrinks(bus, cutoff, bus[m].stamp);
    }
  }

  /** Enough failures to pass the threshold with the expired one, and not without. */
  lemma EarlyOpening(c: Config, bus: seq<Failure>, i: nat, k: nat) returns (n: nat)
    requires |bus| + c.threshold <= c.cap
    requires i < k < |bus| && bus[i].stamp > bus[k].stamp && |InWindow(bus, bus[i].stamp)| + 1 < c.threshold
    ensures 1 <= n < c.threshold && !PassesRight(c, bus, n, bus[i].stamp)
  {
    var m := KeptAndCounted(bus, bus[i].stamp);
    assert m <= k;
    assert bus[m..][k - m] == bus[k];
    InWindowAt(bus[m..], bus[i].stamp, k - m);
    n := if c.threshold - (|bus| - m) >= 1 then c.threshold - (|bus| - m) else 1;
  }

  /** As long as a threshold's worth of failures fits beside the bus, only the inversions matter. */
  lemma HarmlessIffTolerable(c: Config, bus: seq<Failure>)
    requires Sound(c) && |bus| + c.threshold <= c.cap
    ensures Harmless(c, bus) <==> Tolerable(c, bus)
  {
    if Tolerable(c, bus) {
      forall n, i | 1 <= n < c.threshold && 0 <= i < |bus| ensures PassesRight(c, bus, n, bus[i].stamp) {
        TolerablePasses(c, bus, n, bus[i].stamp);
      }
    } else {
      var i, k :| 0 <= i < k < |bus| && bus[i].stamp > bus[k].stamp && |InWindow(bus, bus[i].stamp)| + 1 < c.threshold;
      var n := EarlyOpening(c, bus, i, k);
    }
  }

  /** A breaker rebuilt from the bus passes the threshold at every later failure exactly when the window holds a
      threshold's worth, if and only if the order on the bus is harmless. */
  lemma ReplayDecidesRightIff(c: Config, bus: seq<Failure>, r: real)
    requires Sound(c) && Unexpired(c, bus, r)
    ensures (forall later :: later != [] && Follows(r, later) ==> DecidesRight(c, bus, r, later)) <==> Harmless(c, bus)
  {
    if Harmless(c, bus) {
      forall later | later != [] && Follows(r, later) ensures DecidesRight(c, bus, r, later) {
        HarmlessDecidesRight(c, bus, r, later);
      }
    } else {
      var n, i :| 1 <= n < c.threshold && 0 <= i < |bus| && !PassesRight(c, bus, n, bus[i].stamp);
      var later := WrongDecision(c, bus, r, n, i);
    }
  }

  // ---------------------------------------------------------------- against a breaker that was never restarted

  /** A breaker restarted at `r` passes the threshold, at the last of these failures, when the other does. */
  predicate DecidesAlike(c: Config, agent: string, run: seq<Input>, stream: seq<Audit>, r: real, later: seq<Input>) {
    |Fed(c, Replayed(c, stream, agent, r), later)| >= c.threshold <==> |Run(c, agent, run + later).breaker.buffer| >= c.threshold
  }

  /** At every later failure. */
  ghost predicate AlwaysDecidesAlike(c: Config, agent: string, run: seq<Input>, stream: seq<Audit>, r: real) {
    forall later :: later != [] && Follows(r, later) ==> DecidesAlike(c, agent, run, stream, r, later)
  }

  lemma DecidesAlikeIff(c: Config, agent: string, run: seq<Input>, stream: seq<Audit>, r: real, later: seq<Input>)
    requires Sound(c) && TimeOrdered(run) && ReplaysInOrder(c, run) && Clock(run) <= r && Follows(r, later) && later != []
    requires SameCount(c, SinceReset(run), OnBus(c, stream, agent, r), r, later)
    ensures DecidesAlike(c, agent, run, stream, r, later) <==> DecidesRight(c, OnBus(c, stream, agent, r), r, later)
  {
    UninterruptedCounts(c, agent, run, r, later);
  }

  lemma AlwaysDecidesAlikeIff(c: Config, agent: string, run: seq<Input>, stream: seq<Audit>, r: real)
    requires Sound(c) && TimeOrdered(run) && ReplaysInOrder(c, run) && Clock(run) <= r
    requires Unexpired(c, OnBus(c, stream, agent, r), r) && SameCounts(c, SinceReset(run), OnBus(c, stream, agent, r), r)
    ensures AlwaysDecidesAlike(c, agent, run, stream, r) <==> Harmless(c, OnBus(c, stream, agent, r))
  {
    forall later | later != [] && Follows(r, later)
      ensures DecidesAlike(c, agent, run, stream, r, later) <==> DecidesRight(c, OnBus(c, stream, agent, r), r, later)
    {
      DecidesAlikeIff(c, agent, run, stream, r, later);
    }
    ReplayDecidesRightIff(c, OnBus(c, stream, agent, r), r);
  }

  /** In runs without resets whose failure events all reached the bus, in whatever order: the restarted breaker opens
      at the same later failures as the one that was never restarted exactly when the order of the unexpired failures
      on the bus is harmless. */
  lemma RestartDecidesIff(c: Config, agent: string, run: seq<Input>, stream: seq<Audit>, r: real)
    requires Sound(c) && TimeOrdered(run) && ResetFree(run) && Clock(run) <= r
    requires multiset(FailuresIn(stream, agent)) == multiset(SinceReset(run))
    ensures AlwaysDecidesAlike(c, agent, run, stream, r) <==> Harmless(c, OnBus(c, stream, agent, r))
  {
    PlainRunReachedBus(c, agent, run, stream, r);
    AlwaysDecidesAlikeIff(c, agent, run, stream, r);
  }

  /** A bus in time order is tolerable, and up to a threshold of two every bus is. */
  lemma OrderIsTolerable(c: Config, bus: seq<Failure>)
    requires Sorted(bus) || c.threshold <= 2
    ensures Tolerable(c, bus)
  {
    forall i, k | 0 <= i < k < |bus| && bus[i].stamp > bus[k].stamp ensures |InWindow(bus, bus[i].stamp)| + 1 >= c.threshold {
      InWindowAt(bus, bus[i].stamp, i);
    }
  }
}
