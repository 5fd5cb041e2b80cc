/** What a breaker decides after its deque was rebuilt from the event bus (nth_dao/fault_isolation.py), compared
    with a breaker that was never restarted. */
module BreakerReplay {
  import opened Prelude
  import opened CircuitBreaker

  // ---------------------------------------------------------------- failures after the replay

  /** Failures after time `r`, on a clock that does not go back. */
  predicate Follows(r: real, later: seq<Input>) {
    later == [] ||
    (var init, last := later[..|later| - 1], later[|later| - 1];
     Follows(r, init) && last.Fail? && LastNow(r, init) <= last.x.stamp <= last.now)
  }

  function LastNow(r: real, later: seq<Input>): real {
    if later == [] || later[|later| - 1].Reset? then r else later[|later| - 1].now
  }

  function Failures(later: seq<Input>): seq<Failure> {
    if later == [] then []
    else
      var rest, last := Failures(later[..|later| - 1]), later[|later| - 1];
      if last.Fail? then rest + [last.x] else rest
  }

  /** The deque after those failures. */
  function Fed(c: Config, buffer: seq<Failure>, later: seq<Input>): seq<Failure> {
    if later == [] then buffer
    else
      var before, last := Fed(c, buffer, later[..|later| - 1]), later[|later| - 1];
      if last.Fail? then Buffered(c, before, last.x, last.now) else before
  }

  lemma FedAppend(c: Config, buffer: seq<Failure>, later: seq<Input>, x: Failure, now: real)
    ensures Fed(c, buffer, later + [Fail(x, now)]) == Buffered(c, Fed(c, buffer, later), x, now)
    ensures Failures(later + [Fail(x, now)]) == Failures(later) + [x]
  {
    FailuresAppend(later, x, now);
  }

  lemma FailuresAppend(later: seq<Input>, x: Failure, now: real)
    ensures (later + [Fail(x, now)])[..|later|] == later && Failures(later + [Fail(x, now)]) == Failures(later) + [x]
  {
    assert (later + [Fail(x, now)])[..|later|] == later;
  }

  lemma FollowsAppend(r: real, later: seq<Input>, x: Failure, now: real)
    requires Follows(r, later) && LastNow(r, later) <= x.stamp <= now
    ensures Follows(r, later + [Fail(x, now)]) && LastNow(r, later + [Fail(x, now)]) == now
  {
    assert (later + [Fail(x, now)])[..|later|] == later;
  }

  lemma {:induction false} FollowsFacts(r: real, later: seq<Input>)
    requires Follows(r, later)
    ensures LastNow(r, later) >= r && Sorted(Failures(later))
    ensures forall i :: 0 <= i < |Failures(later)| ==> r <= Failures(later)[i].stamp <= LastNow(r, later)
  {
    if later != [] { FollowsFacts(r, later[..|later| - 1]); }
  }

  lemma {:induction false} InWindowConcat(s: seq<Failure>, t: seq<Failure>, cutoff: real)
    ensures InWindow(s + t, cutoff) == InWindow(s, cutoff) + InWindow(t, cutoff)
  {
    if t == [] {
      assert s + t == s;
    } else {
      var init := t[..|t| - 1];
      InWindowConcat(s, init, cutoff);
      assert (s + t)[..|s + t| - 1] == s + init;
    }
  }

  predicate AllFrom(s: seq<Failure>, cutoff: real) {
    forall i :: 0 <= i < |s| ==> s[i].stamp >= cutoff
  }

  predicate AllBefore(s: seq<Failure>, cutoff: real) {
    forall i :: 0 <= i < |s| ==> s[i].stamp < cutoff
  }

  lemma {:induction false} InWindowKeepsAll(s: seq<Failure>, cutoff: real)
    requires AllFrom(s, cutoff)
    ensures InWindow(s, cutoff) == s
  {
    if s != [] {
      InWindowKeepsAll(s[..|s| - 1], cutoff);
      assert s == s[..|s| - 1] + [s[|s| - 1]];
    }
  }

  lemma {:induction false} InWindowKeepsNone(s: seq<Failure>, cutoff: real)
    requires AllBefore(s, cutoff)
    ensures InWindow(s, cutoff) == []
  {
    if s != [] { InWindowKeepsNone(s[..|s| - 1], cutoff); }
  }

  lemma {:induction false} InWindowSize(s: seq<Failure>, cutoff: real)
    ensures |InWindow(s, cutoff)| <= |s|
  {
    if s != [] { InWindowSize(s[..|s| - 1], cutoff); }
  }

  lemma InWindowOne(x: Failure, cutoff: real)
    ensures InWindow([x], cutoff) == if x.stamp < cutoff then [] else [x]
  {
    assert [x][..0] == [];
  }

  /** Whether one failure is expired shows in the count. */
  lemma InWindowAt(s: seq<Failure>, cutoff: real, i: nat)
    requires i < |s|
    ensures s[i].stamp < cutoff ==> |InWindow(s, cutoff)| < |s|
    ensures s[i].stamp >= cutoff ==> |InWindow(s, cutoff)| > 0
  {
    assert s == s[..i] + ([s[i]] + s[i + 1..]);
    InWindowConcat(s[..i], [s[i]] + s[i + 1..], cutoff);
    InWindowConcat([s[i]], s[i + 1..], cutoff);
    InWindowOne(s[i], cutoff);
    InWindowSize(s[..i], cutoff);
    InWindowSize(s[i + 1..], cutoff);
  }

  lemma {:induction false} InWindowTwice(s: seq<Failure>, early: real, late: real)
    requires early <= late
    ensures InWindow(InWindow(s, early), late) == InWindow(s, late)
  {
    if s != [] {
      var init, last := s[..|s| - 1], s[|s| - 1];
      InWindowTwice(init, early, late);
      if last.stamp >= early {
        InWindowConcat(InWindow(init, early), [last], late);
        InWindowOne(last, late);
      }
    }
  }

  /** Dropping from the left never loses an unexpired failure. */
  lemma InWindowOfDrop(s: seq<Failure>, cutoff: real)
    ensures InWindow(DropExpired(s, cutoff), cutoff) == InWindow(s, cutoff)
    ensures |DropExpired(s, cutoff)| <= |s|
  {
    var k := Cut(s, cutoff);
    DropExpiredIs(s, cutoff, k);
    InWindowConcat(s[..k], s[k..], cutoff);
    InWindowKeepsNone(s[..k], cutoff);
    assert s == s[..k] + s[k..];
  }

  // ---------------------------------------------------------------- never below, while nothing is capped

  /** The deque and the failures that count agree on what is in the window. */
  predicate SameWindow(buffer: seq<Failure>, hist: seq<Failure>, cutoff: real) {
    InWindow(buffer, cutoff) == InWindow(hist, cutoff)
  }

  lemma {:induction false} FedKeepsWindow(c: Config, rebuilt: seq<Failure>, r: real, later: seq<Input>)
    requires Follows(r, later) && |rebuilt| + |later| <= c.cap
    ensures |Fed(c, rebuilt, later)| <= |rebuilt| + |later|
    ensures SameWindow(Fed(c, rebuilt, later), rebuilt + Failures(later), LastNow(r, later) - c.window)
  {
    if later == [] {
      assert rebuilt + [] == rebuilt;
    } else {
      var init, last := later[..|later| - 1], later[|later| - 1];
      FedKeepsWindow(c, rebuilt, r, init);
      FeedKeepsWindow(c, Fed(c, rebuilt, init), rebuilt + Failures(init), last.x, LastNow(r, init) - c.window, last.now);
      Associate(rebuilt, Failures(init), last.x);
    }
  }

  lemma Associate(a: seq<Failure>, b: seq<Failure>, x: Failure)
    ensures a + b + [x] == a + (b + [x])
  {
  }

  /** As long as nothing is pushed out of the deque, a rebuilt one counts, at every later failure, at least the
      failures in the window, whatever the order on the bus; it may count expired ones too. */
  lemma ReplayNeverUndercounts(c: Config, rebuilt: seq<Failure>, r: real, later: seq<Input>)
    requires Follows(r, later) && |rebuilt| + |later| <= c.cap
    ensures |Fed(c, rebuilt, later)| >= |InWindow(rebuilt + Failures(later), LastNow(r, later) - c.window)|
  {
    FedKeepsWindow(c, rebuilt, r, later);
    InWindowSize(Fed(c, rebuilt, later), LastNow(r, later) - c.window);
  }

  lemma WindowLater(buffer: seq<Failure>, hist: seq<Failure>, cut: real, late: real)
    requires SameWindow(buffer, hist, cut) && cut <= late
    ensures SameWindow(buffer, hist, late)
  {
    InWindowTwice(buffer, cut, late);
    InWindowTwice(hist, cut, late);
  }

  lemma WindowSnoc(buffer: seq<Failure>, hist: seq<Failure>, x: Failure, cut: real)
    requires SameWindow(buffer, hist, cut)
    ensures SameWindow(buffer + [x], hist + [x], cut)
  {
    InWindowConcat(buffer, [x], cut);
    InWindowConcat(hist, [x], cut);
  }

  lemma FeedKeepsWindow(c: Config, buffer: seq<Failure>, hist: seq<Failure>, x: Failure, cut: real, now: real)
    requires SameWindow(buffer, hist, cut) && |buffer| < c.cap && cut <= now - c.window
    ensures SameWindow(Buffered(c, buffer, x, now), hist + [x], now - c.window)
    ensures |Buffered(c, buffer, x, now)| <= |buffer| + 1
  {
    WindowLater(buffer, hist, cut, now - c.window);
    WindowSnoc(buffer, hist, x, now - c.window);
    InWindowOfDrop(buffer + [x], now - c.window);
  }

  // ---------------------------------------------------------------- exact for ever, or not

  function Min(a: nat, b: nat): nat { if a <= b then a else b }

  /** From position `n` on, no failure is older than one before it. */
  predicate InOrderFrom(s: seq<Failure>, n: nat) {
    forall i, k :: 0 <= i < k < |s| && n <= k ==> s[i].stamp <= s[k].stamp
  }

  /** The first position the deque still holds after one more failure. */
  function FirstKept(c: Config, s: seq<Failure>): nat {
    if |s| + 1 <= c.cap then 0 else |s| + 1 - c.cap
  }

  /** All unexpired at the time of the replay. */
  predicate Unexpired(c: Config, s: seq<Failure>, r: real) {
    forall i :: 0 <= i < |s| ==> r - c.window <= s[i].stamp <= r
  }

  /** The part of an ordered history that the deque holds counts exactly what is in the window, up to the cap. */
  lemma KeptCount(c: Config, cut: seq<Failure>, kept: seq<Failure>, cutoff: real)
    requires Sorted(kept) && (forall i, k :: 0 <= i < |cut| && 0 <= k < |kept| ==> cut[i].stamp <= kept[k].stamp)
    requires |kept| <= c.cap && (cut != [] ==> |kept| == c.cap > 0)
    ensures |DropExpired(kept, cutoff)| == Min(c.cap, |InWindow(cut + kept, cutoff)|)
  {
    DropIsFilter(kept, cutoff);
    InWindowConcat(cut, kept, cutoff);
    InWindowSize(kept, cutoff);
    if cut != [] {
      if kept[0].stamp < cutoff {
        InWindowKeepsNone(cut, cutoff);
      } else {
        assert AllFrom(kept, cutoff);
        InWindowKeepsAll(kept, cutoff);
      }
    }
  }

  predicate NoneAfter(s: seq<Failure>, t: seq<Failure>) {
    forall i, k :: 0 <= i < |s| && 0 <= k < |t| ==> s[i].stamp <= t[k].stamp
  }

  /** Where the deque's part of a history begins. */
  function KeptFrom(c: Config, s: seq<Failure>): nat {
    if |s| <= c.cap then 0 else |s| - c.cap
  }

  lemma KeptInOrder(c: Config, bus: seq<Failure>, more: seq<Failure>)
    requires InOrderFrom(bus, FirstKept(c, bus)) && Sorted(more) && NoneAfter(bus, more) && more != []
    ensures var all := bus + more; var m := KeptFrom(c, all);
            && LastN(c.cap, all) == all[m..] && all == all[..m] + all[m..]
            && Sorted(all[m..]) && NoneAfter(all[..m], all[m..])
  {
    var all := bus + more;
    var m := KeptFrom(c, all);
    assert m >= FirstKept(c, bus);
    forall i, k | 0 <= i < k < |all| && m <= k ensures all[i].stamp <= all[k].stamp {
      if k < |bus| {
        assert all[i] == bus[i] && all[k] == bus[k];
      } else if i < |bus| {
        assert all[i] == bus[i] && all[k] == more[k - |bus|];
      } else {
        assert all[i] == more[i - |bus|] && all[k] == more[k - |bus|];
      }
    }
    var kept, gone := all[m..], all[..m];
    forall i, k | 0 <= i < k < |kept| ensures kept[i].stamp <= kept[k].stamp { assert kept[i] == all[m + i] && kept[k] == all[m + k]; }
    forall i, k | 0 <= i < |gone| && 0 <= k < |kept| ensures gone[i].stamp <= kept[k].stamp { assert gone[i] == all[i] && kept[k] == all[m + k]; }
  }

  lemma SortedSnoc(s: seq<Failure>, x: Failure)
    requires Sorted(s) && forall i :: 0 <= i < |s| ==> s[i].stamp <= x.stamp
    ensures Sorted(s + [x])
  {
  }

  /** One more failure, on a deque that is the unexpired part of the sorted end of a history. */
  lemma FeedSorted(c: Config, all: seq<Failure>, cut: real, x: Failure, now: real)
    requires Sorted(LastN(c.cap, all) + [x]) && cut <= x.stamp && cut <= now - c.window
    ensures Buffered(c, DropExpired(LastN(c.cap, all), cut), x, now) == DropExpired(LastN(c.cap, all + [x]), now - c.window)
  {
    var s := LastN(c.cap, all);
    var k := Cut(s, cut);
    DropExpiredIs(s, cut, k);
    assert LastN(c.cap, DropExpired(s, cut)) == DropExpired(s, cut);
    BufferStep(c, s, cut, x, now);
    CapThenDrop(c.cap, s + [x], now - c.window);
    CapAppend(c.cap, all, x);
  }

  predicate AllUpTo(s: seq<Failure>, t: real) {
    forall i :: 0 <= i < |s| ==> s[i].stamp <= t
  }

  lemma LaterThanBus(r: real, bus: seq<Failure>, later: seq<Input>)
    requires Follows(r, later) && AllUpTo(bus, r)
    ensures NoneAfter(bus, Failures(later)) && Sorted(Failures(later))
  {
    FollowsFacts(r, later);
  }

  lemma StampsUpTo(r: real, bus: seq<Failure>, later: seq<Input>)
    requires Follows(r, later) && AllUpTo(bus, r)
    ensures AllUpTo(bus + Failures(later), LastNow(r, later))
  {
    FollowsFacts(r, later);
  }

  /** The last of some failures, taken off. */
  lemma Unsnoc(c: Config, start: seq<Failure>, r: real, later: seq<Input>) returns (init: seq<Input>, x: Failure, now: real)
    requires Follows(r, later) && later != []
    ensures |init| < |later| && Follows(r, init) && LastNow(r, init) <= x.stamp <= now && LastNow(r, later) == now
    ensures Failures(later) == Failures(init) + [x] && Fed(c, start, later) == Buffered(c, Fed(c, start, init), x, now)
    ensures later == init + [Fail(x, now)]
  {
    var last := later[|later| - 1];
    init, x, now := later[..|later| - 1], last.x, last.now;
  }

  lemma {:induction false} FedIsDrop(c: Config, bus: seq<Failure>, r: real, later: seq<Input>)
    requires Sound(c) && Unexpired(c, bus, r) && InOrderFrom(bus, FirstKept(c, bus)) && Follows(r, later) && later != []
    ensures Fed(c, LastN(c.cap, bus), later) ==
            DropExpired(LastN(c.cap, bus + Failures(later)), LastNow(r, later) - c.window)
    decreases |later|
  {
    var init, x, now := Unsnoc(c, LastN(c.cap, bus), r, later);
    if init == [] {
      FeedFirst(c, bus, x, now);
    } else {
      FedIsDrop(c, bus, r, init);
      FeedInOrder(c, bus, r, init, x, now);
      Associate(bus, Failures(init), x);
    }
  }

  lemma FeedFirst(c: Config, bus: seq<Failure>, x: Failure, now: real)
    ensures Buffered(c, LastN(c.cap, bus), x, now) == DropExpired(LastN(c.cap, bus + ([] + [x])), now - c.window)
  {
    assert bus + ([] + [x]) == bus + [x];
    CapAppend(c.cap, bus, x);
  }

  lemma FeedInOrder(c: Config, bus: seq<Failure>, r: real, init: seq<Input>, x: Failure, now: real)
    requires Sound(c) && Unexpired(c, bus, r) && InOrderFrom(bus, FirstKept(c, bus)) && Follows(r, init) && init != []
    requires LastNow(r, init) <= x.stamp <= now
    ensures Buffered(c, DropExpired(LastN(c.cap, bus + Failures(init)), LastNow(r, init) - c.window), x, now) ==
            DropExpired(LastN(c.cap, bus + Failures(init) + [x]), now - c.window)
  {
    assert AllUpTo(bus, r);
    LaterThanBus(r, bus, init);
    StampsUpTo(r, bus, init);
    FailuresNonEmpty(r, init);
    FeedOrdered(c, bus, Failures(init), LastNow(r, init), x, now);
  }

  lemma FeedOrdered(c: Config, bus: seq<Failure>, more: seq<Failure>, before: real, x: Failure, now: real)
    requires Sound(c) && InOrderFrom(bus, FirstKept(c, bus)) && Sorted(more) && NoneAfter(bus, more) && more != []
    requires AllUpTo(bus + more, before) && before <= x.stamp <= now
    ensures Buffered(c, DropExpired(LastN(c.cap, bus + more), before - c.window), x, now) ==
            DropExpired(LastN(c.cap, bus + more + [x]), now - c.window)
  {
    KeptIsSorted(c, bus, more);
    EndUpTo(c, bus + more, before);
    SortedSnoc(LastN(c.cap, bus + more), x);
    FeedSorted(c, bus + more, before - c.window, x, now);
  }

  lemma KeptIsSorted(c: Config, bus: seq<Failure>, more: seq<Failure>)
    requires InOrderFrom(bus, FirstKept(c, bus)) && Sorted(more) && NoneAfter(bus, more) && more != []
    ensures Sorted(LastN(c.cap, bus + more))
  {
    KeptInOrder(c, bus, more);
  }

  lemma EndUpTo(c: Config, s: seq<Failure>, t: real)
    requires AllUpTo(s, t)
    ensures AllUpTo(LastN(c.cap, s), t)
  {
    var kept := LastN(c.cap, s);
    forall i | 0 <= i < |kept| ensures kept[i].stamp <= t { assert kept[i] == s[|s| - |kept| + i]; }
  }

  lemma FailuresNonEmpty(r: real, later: seq<Input>)
    requires Follows(r, later) && later != []
    ensures Failures(later) != []
  {
  }

  /** The deque's length is the number of failures in the window, up to the cap. */
  predicate Counts(c: Config, buffer: seq<Failure>, hist: seq<Failure>, cutoff: real) {
    |buffer| == Min(c.cap, |InWindow(hist, cutoff)|)
  }

  /** So it is for a breaker restarted at `r`, at the last of these failures. */
  predicate CountsRight(c: Config, bus: seq<Failure>, r: real, later: seq<Input>) {
    Counts(c, Fed(c, LastN(c.cap, bus), later), bus + Failures(later), LastNow(r, later) - c.window)
  }

  lemma EndCount(c: Config, bus: seq<Failure>, more: seq<Failure>, cutoff: real)
    requires Sound(c) && InOrderFrom(bus, FirstKept(c, bus)) && Sorted(more) && NoneAfter(bus, more) && more != []
    ensures Counts(c, DropExpired(LastN(c.cap, bus + more), cutoff), bus + more, cutoff)
  {
    KeptInOrder(c, bus, more);
    var m := KeptFrom(c, bus + more);
    KeptCount(c, (bus + more)[..m], (bus + more)[m..], cutoff);
  }

  lemma OrderedCountsRight(c: Config, bus: seq<Failure>, r: real, later: seq<Input>)
    requires Sound(c) && Unexpired(c, bus, r) && InOrderFrom(bus, FirstKept(c, bus)) && Follows(r, later) && later != []
    ensures CountsRight(c, bus, r, later)
  {
    FedIsDrop(c, bus, r, later);
    LaterIsInOrder(c, bus, r, later);
    EndCount(c, bus, Failures(later), LastNow(r, later) - c.window);
  }

  lemma LaterIsInOrder(c: Config, bus: seq<Failure>, r: real, later: seq<Input>)
    requires Unexpired(c, bus, r) && Follows(r, later) && later != []
    ensures NoneAfter(bus, Failures(later)) && Sorted(Failures(later)) && Failures(later) != []
  {
    assert AllUpTo(bus, r);
    LaterThanBus(r, bus, later);
    FailuresNonEmpty(r, later);
  }

  // ---------------------------------------------------------------- the failing family

  function Copies(x: Failure, n: nat): seq<Failure> {
    if n == 0 then [] else Copies(x, n - 1) + [x]
  }

  lemma {:induction false} CopiesAre(x: Failure, n: nat)
    ensures |Copies(x, n)| == n && forall i :: 0 <= i < n ==> Copies(x, n)[i] == x
  {
    if n > 0 { CopiesAre(x, n - 1); }
  }

  lemma NothingExpires(s: seq<Failure>, cutoff: real)
    requires s == [] || s[0].stamp >= cutoff
    ensures DropExpired(s, cutoff) == s
  {
  }

  /** One more failure after a schedule that left the capped history in the deque. */
  lemma Extend(c: Config, start: seq<Failure>, r: real, init: seq<Input>, hist: seq<Failure>, x: Failure, now: real) returns (later: seq<Input>)
    requires Follows(r, init) && LastNow(r, init) <= x.stamp <= now && Fed(c, start, init) == LastN(c.cap, hist)
    ensures later != [] && Follows(r, later) && LastNow(r, later) == now && Failures(later) == Failures(init) + [x]
    ensures Fed(c, start, later) == DropExpired(LastN(c.cap, hist + [x]), now - c.window)
  {
    later := init + [Fail(x, now)];
    FollowsAppend(r, init, x, now);
    FedAppend(c, start, init, x, now);
    CapAppend(c.cap, hist, x);
  }

  lemma UnexpiredEnd(c: Config, hist: seq<Failure>, x: Failure)
    requires Sound(c) && Unexpired(c, hist, x.stamp)
    ensures DropExpired(LastN(c.cap, hist + [x]), x.stamp - c.window) == LastN(c.cap, hist + [x])
    ensures Unexpired(c, hist + [x], x.stamp)
  {
    var all := hist + [x];
    var kept := LastN(c.cap, all);
    assert kept[0] == all[|all| - |kept|];
    NothingExpires(kept, x.stamp - c.window);
  }

  /** `n` failures at the moment of the replay. */
  lemma {:induction false} Flood(c: Config, bus: seq<Failure>, x: Failure, n: nat) returns (later: seq<Input>)
    requires Sound(c) && Unexpired(c, bus, x.stamp)
    ensures Follows(x.stamp, later) && LastNow(x.stamp, later) == x.stamp && Failures(later) == Copies(x, n)
    ensures Fed(c, LastN(c.cap, bus), later) == LastN(c.cap, bus + Copies(x, n)) && Unexpired(c, bus + Copies(x, n), x.stamp)
  {
    if n == 0 {
      later := [];
      assert bus + [] == bus;
    } else {
      later := Flood(c, bus, x, n - 1);
      later := Extend(c, LastN(c.cap, bus), x.stamp, later, bus + Copies(x, n - 1), x, x.stamp);
      UnexpiredEnd(c, bus + Copies(x, n - 1), x);
      Associate(bus, Copies(x, n - 1), x);
    }
  }

  /** The last failure on the bus that is older than one before it; everything after it is in order. */
  lemma {:induction false} LastDisorder(s: seq<Failure>, n: nat) returns (i: nat, k: nat)
    requires !InOrderFrom(s, n)
    ensures i < k < |s| && n <= k && s[i].stamp > s[k].stamp && InOrderFrom(s, k + 1)
    decreases |s| - n
  {
    if InOrderFrom(s, n + 1) {
      i, k :| 0 <= i < k < |s| && n <= k && s[i].stamp > s[k].stamp;
    } else {
      i, k := LastDisorder(s, n + 1);
    }
  }

  lemma FloodedEnd(c: Config, bus: seq<Failure>, x: Failure, k: nat) returns (n: nat, kept: seq<Failure>)
    requires Sound(c) && k < |bus| && FirstKept(c, bus) <= k && InOrderFrom(bus, k + 1) && AllUpTo(bus, x.stamp)
    ensures n >= 1 && Sorted(kept) && |kept| == c.cap && kept[0] == bus[k]
    ensures LastN(c.cap, bus + Copies(x, n)) == kept && bus + Copies(x, n) == bus[..k] + kept
  {
    n := k + c.cap - |bus|;
    CopiesAre(x, n);
    var end, copies := bus[k..], Copies(x, n);
    kept := end + copies;
    EndSorted(bus, k);
    forall i, j | 0 <= i < j < |kept| ensures kept[i].stamp <= kept[j].stamp {
      if j >= |end| && i < |end| { assert kept[i] == bus[k + i]; }
    }
    Reattach(bus, copies, k);
    assert LastN(c.cap, bus[..k] + kept) == kept;
  }

  lemma EndSorted(bus: seq<Failure>, k: nat)
    requires k < |bus| && InOrderFrom(bus, k + 1)
    ensures Sorted(bus[k..])
  {
    var end := bus[k..];
    forall i, j | 0 <= i < j < |end| ensures end[i].stamp <= end[j].stamp { assert end[i] == bus[k + i] && end[j] == bus[k + j]; }
  }

  lemma Reattach(bus: seq<Failure>, copies: seq<Failure>, k: nat)
    requires k <= |bus|
    ensures bus + copies == bus[..k] + (bus[k..] + copies)
  {
  }

  /** `n` failures in all: the last one is noticed only at `now`. */
  lemma FloodThenWait(c: Config, bus: seq<Failure>, x: Failure, n: nat, now: real) returns (later: seq<Input>)
    requires Sound(c) && Unexpired(c, bus, x.stamp) && n >= 1 && x.stamp <= now
    ensures later != [] && Follows(x.stamp, later) && LastNow(x.stamp, later) == now && Failures(later) == Copies(x, n)
    ensures Fed(c, LastN(c.cap, bus), later) == DropExpired(LastN(c.cap, bus + Copies(x, n)), now - c.window)
  {
    later := Flood(c, bus, x, n - 1);
    later := Extend(c, LastN(c.cap, bus), x.stamp, later, bus + Copies(x, n - 1), x, now);
    Associate(bus, Copies(x, n - 1), x);
  }

  lemma Miscounted(c: Config, bus: seq<Failure>, r: real, later: seq<Input>, gone: seq<Failure>, kept: seq<Failure>, cutoff: real)
    requires Fed(c, LastN(c.cap, bus), later) == DropExpired(kept, cutoff) && bus + Failures(later) == gone + kept
    requires LastNow(r, later) - c.window == cutoff && !Counts(c, DropExpired(kept, cutoff), gone + kept, cutoff)
    ensures !CountsRight(c, bus, r, later)
  {
  }

  /** Flood the deque until the disordered failure is its first, then let time pass just beyond it. */
  lemma DisorderMiscounts(c: Config, bus: seq<Failure>, r: real) returns (later: seq<Input>)
    requires Sound(c) && Unexpired(c, bus, r) && !InOrderFrom(bus, FirstKept(c, bus))
    ensures later != [] && Follows(r, later) && !CountsRight(c, bus, r, later)
  {
    var i, k := LastDisorder(bus, FirstKept(c, bus));
    later := MiscountAt(c, bus, r, i, k);
  }

  lemma MiscountAt(c: Config, bus: seq<Failure>, r: real, i: nat, k: nat) returns (later: seq<Input>)
    requires Sound(c) && Unexpired(c, bus, r) && i < k < |bus| && FirstKept(c, bus) <= k
    requires bus[i].stamp > bus[k].stamp && InOrderFrom(bus, k + 1)
    ensures later != [] && Follows(r, later) && !CountsRight(c, bus, r, later)
  {
    var x := Failure("", "", r);
    assert AllUpTo(bus, x.stamp);
    var n, kept := FloodedEnd(c, bus, x, k);
    var now := bus[i].stamp + c.window;
    later := FloodThenWait(c, bus, x, n, now);
    LateMiscount(c, bus[..k], kept, now - c.window, i);
    Miscounted(c, bus, r, later, bus[..k], kept, now - c.window);
  }

  lemma LateMiscount(c: Config, gone: seq<Failure>, kept: seq<Failure>, cutoff: real, i: nat)
    requires Sorted(kept) && |kept| == c.cap > 0 && i < |gone| && gone[i].stamp >= cutoff && kept[0].stamp < cutoff
    ensures !Counts(c, DropExpired(kept, cutoff), gone + kept, cutoff)
  {
    DropIsFilter(kept, cutoff);
    InWindowConcat(gone, kept, cutoff);
    InWindowAt(kept, cutoff, 0);
    InWindowAt(gone, cutoff, i);
  }

  /** A breaker rebuilt from the bus counts right at every later failure exactly when the bus has its unexpired
      failures in time order, looking only at those the deque still holds after one more. */
  lemma ReplayCountsRightIff(c: Config, bus: seq<Failure>, r: real)
    requires Sound(c) && Unexpired(c, bus, r)
    ensures (forall later :: later != [] && Follows(r, later) ==> CountsRight(c, bus, r, later)) <==>
            InOrderFrom(bus, FirstKept(c, bus))
    ensures |bus| <= c.cap ==> (InOrderFrom(bus, FirstKept(c, bus)) <==> Sorted(bus))
  {
    if InOrderFrom(bus, FirstKept(c, bus)) {
      forall later | later != [] && Follows(r, later) ensures CountsRight(c, bus, r, later) {
        OrderedCountsRight(c, bus, r, later);
      }
    } else {
      var later := DisorderMiscounts(c, bus, r);
    }
  }

  // ---------------------------------------------------------------- against a breaker that was never restarted

  lemma {:induction false} RunsOn(c: Config, run: seq<Input>, r: real, later: seq<Input>)
    requires TimeOrdered(run) && ReplaysInOrder(c, run) && Clock(run) <= r && Follows(r, later)
    ensures TimeOrdered(run + later) && ReplaysInOrder(c, run + later) && Clock(run + later) <= LastNow(r, later)
    ensures SinceReset(run + later) == SinceReset(run) + Failures(later)
    ensures later != [] ==> Cutoff(c, run + later) == LastNow(r, later) - c.window
    decreases |later|
  {
    if later == [] {
      assert run + later == run && SinceReset(run) + [] == SinceReset(run);
    } else {
      var init, x, now := Unsnoc(c, [], r, later);
      RunsOn(c, run, r, init);
      OneMoreFail(c, run + init, Fail(x, now));
      assert run + later == run + init + [Fail(x, now)];
      Associate(SinceReset(run), Failures(init), x);
    }
  }

  lemma OneMoreFail(c: Config, run: seq<Input>, last: Input)
    requires TimeOrdered(run) && ReplaysInOrder(c, run) && last.Fail? && Clock(run) <= last.x.stamp <= last.now
    ensures TimeOrdered(run + [last]) && ReplaysInOrder(c, run + [last]) && Clock(run + [last]) == last.now
    ensures SinceReset(run + [last]) == SinceReset(run) + [last.x] && Cutoff(c, run + [last]) == last.now - c.window
  {
    assert (run + [last])[..|run|] == run;
  }

  lemma UninterruptedCounts(c: Config, agent: string, run: seq<Input>, r: real, later: seq<Input>)
    requires Sound(c) && TimeOrdered(run) && ReplaysInOrder(c, run) && Clock(run) <= r && Follows(r, later) && later != []
    ensures Counts(c, Run(c, agent, run + later).breaker.buffer, SinceReset(run) + Failures(later), LastNow(r, later) - c.window)
  {
    RunsOn(c, run, r, later);
    BufferIsRecentHistory(c, agent, run + later);
  }

  /** Expired failures and the order on the bus make no difference to how many count. */
  lemma BusCounts(c: Config, hist: seq<Failure>, onBus: seq<Failure>, r: real, more: seq<Failure>, cutoff: real)
    requires multiset(onBus) == multiset(hist) && r - c.window <= cutoff
    ensures |InWindow(hist + more, cutoff)| == |InWindow(InWindow(onBus, r - c.window) + more, cutoff)|
  {
    InWindowConcat(hist, more, cutoff);
    InWindowConcat(InWindow(onBus, r - c.window), more, cutoff);
    InWindowTwice(onBus, r - c.window, cutoff);
    SameCountInWindow(onBus, hist, cutoff);
  }

  lemma {:induction false} InWindowUnexpired(s: seq<Failure>, c: Config, r: real)
    requires forall i :: 0 <= i < |s| ==> s[i].stamp <= r
    ensures Unexpired(c, InWindow(s, r - c.window), r)
  {
    if s != [] { InWindowUnexpired(s[..|s| - 1], c, r); }
  }

  /** The unexpired failures of an agent, in the order the bus has them. */
  function OnBus(c: Config, stream: seq<Audit>, agent: string, r: real): seq<Failure> {
    InWindow(FailuresIn(stream, agent), r - c.window)
  }

  /** A breaker restarted at `r` has the same count as one that was not, at the last of these failures. */
  predicate Agrees(c: Config, agent: string, run: seq<Input>, stream: seq<Audit>, r: real, later: seq<Input>) {
    |Fed(c, Replayed(c, stream, agent, r), later)| == |Run(c, agent, run + later).breaker.buffer|
  }

  lemma SameLength(c: Config, rebuilt: seq<Failure>, kept: seq<Failure>, hist: seq<Failure>, bus: seq<Failure>, cutoff: real)
    requires Counts(c, kept, hist, cutoff) && |InWindow(hist, cutoff)| == |InWindow(bus, cutoff)|
    ensures |rebuilt| == |kept| <==> Counts(c, rebuilt, bus, cutoff)
  {
  }

  lemma AgreesIffCountsRight(c: Config, agent: string, run: seq<Input>, stream: seq<Audit>, r: real, later: seq<Input>)
    requires Sound(c) && TimeOrdered(run) && ReplaysInOrder(c, run) && Clock(run) <= r && Follows(r, later) && later != []
    requires SameCount(c, SinceReset(run), OnBus(c, stream, agent, r), r, later)
    ensures Agrees(c, agent, run, stream, r, later) <==> CountsRight(c, OnBus(c, stream, agent, r), r, later)
  {
    UninterruptedCounts(c, agent, run, r, later);
    AgreesFromCounts(c, agent, run, stream, r, later);
  }

  predicate SameCount(c: Config, hist: seq<Failure>, bus: seq<Failure>, r: real, later: seq<Input>) {
    |InWindow(hist + Failures(later), LastNow(r, later) - c.window)| == |InWindow(bus + Failures(later), LastNow(r, later) - c.window)|
  }

  ghost predicate SameCounts(c: Config, hist: seq<Failure>, bus: seq<Failure>, r: real) {
    forall later :: Follows(r, later) ==> SameCount(c, hist, bus, r, later)
  }

  lemma BusCountsLater(c: Config, hist: seq<Failure>, onBus: seq<Failure>, r: real, later: seq<Input>)
    requires Follows(r, later) && multiset(onBus) == multiset(hist)
    ensures SameCount(c, hist, InWindow(onBus, r - c.window), r, later)
  {
    FollowsFacts(r, later);
    BusCounts(c, hist, onBus, r, Failures(later), LastNow(r, later) - c.window);
  }

  lemma AgreesFromCounts(c: Config, agent: string, run: seq<Input>, stream: seq<Audit>, r: real, later: seq<Input>)
    requires Counts(c, Run(c, agent, run + later).breaker.buffer, SinceReset(run) + Failures(later), LastNow(r, later) - c.window)
    requires SameCount(c, SinceReset(run), OnBus(c, stream, agent, r), r, later)
    ensures Agrees(c, agent, run, stream, r, later) <==> CountsRight(c, OnBus(c, stream, agent, r), r, later)
  {
    SameLength(c, Fed(c, LastN(c.cap, OnBus(c, stream, agent, r)), later), Run(c, agent, run + later).breaker.buffer,
               SinceReset(run) + Failures(later), OnBus(c, stream, agent, r) + Failures(later), LastNow(r, later) - c.window);
  }

  lemma PermutedUpTo(s: seq<Failure>, t: seq<Failure>, r: real)
    requires multiset(s) == multiset(t) && AllUpTo(t, r)
    ensures AllUpTo(s, r)
  {
    PermutationElements(s, t);
    forall i | 0 <= i < |s| ensures s[i].stamp <= r {
      assert s[i] in Elements(s);
    }
  }

  lemma BusIsUnexpired(c: Config, hist: seq<Failure>, onBus: seq<Failure>, r: real)
    requires AllUpTo(hist, r) && multiset(onBus) == multiset(hist)
    ensures Unexpired(c, InWindow(onBus, r - c.window), r)
  {
    PermutedUpTo(onBus, hist, r);
    InWindowUnexpired(onBus, c, r);
  }

  /** All an agent's failures reached the bus, in whatever order, and none is stamped after `r`. */
  lemma ReachedBus(c: Config, hist: seq<Failure>, onBus: seq<Failure>, r: real)
    requires multiset(onBus) == multiset(hist) && AllUpTo(hist, r)
    ensures Unexpired(c, InWindow(onBus, r - c.window), r)
    ensures SameCounts(c, hist, InWindow(onBus, r - c.window), r)
  {
    BusIsUnexpired(c, hist, onBus, r);
    forall later | Follows(r, later) ensures SameCount(c, hist, InWindow(onBus, r - c.window), r, later) {
      BusCountsLater(c, hist, onBus, r, later);
    }
  }

  /** At every later failure. */
  ghost predicate AlwaysAgrees(c: Config, agent: string, run: seq<Input>, stream: seq<Audit>, r: real) {
    forall later :: later != [] && Follows(r, later) ==> Agrees(c, agent, run, stream, r, later)
  }

  lemma AlwaysAgreesIff(c: Config, agent: string, run: seq<Input>, stream: seq<Audit>, r: real)
    requires Sound(c) && TimeOrdered(run) && ReplaysInOrder(c, run) && Clock(run) <= r
    requires Unexpired(c, OnBus(c, stream, agent, r), r)
    requires SameCounts(c, SinceReset(run), OnBus(c, stream, agent, r), r)
    ensures AlwaysAgrees(c, agent, run, stream, r) <==> InOrderFrom(OnBus(c, stream, agent, r), FirstKept(c, OnBus(c, stream, agent, r)))
  {
    forall later | later != [] && Follows(r, later)
      ensures Agrees(c, agent, run, stream, r, later) <==> CountsRight(c, OnBus(c, stream, agent, r), r, later)
    {
      AgreesIffCountsRight(c, agent, run, stream, r, later);
    }
    ReplayCountsRightIff(c, OnBus(c, stream, agent, r), r);
  }

  /** What a run without resets, all of whose failure events reached the bus, has there. */
  lemma PlainRunReachedBus(c: Config, agent: string, run: seq<Input>, stream: seq<Audit>, r: real)
    requires Sound(c) && TimeOrdered(run) && ResetFree(run) && Clock(run) <= r
    requires multiset(FailuresIn(stream, agent)) == multiset(SinceReset(run))
    ensures ReplaysInOrder(c, run) && Unexpired(c, OnBus(c, stream, agent, r), r)
    ensures SameCounts(c, SinceReset(run), OnBus(c, stream, agent, r), r)
  {
    ResetFreeIsInOrder(c, run);
    HistoryUpTo(c, run, r);
    HistoryOnBus(c, agent, stream, SinceReset(run), r);
  }

  /** In runs without resets whose failure events all reached the bus, in whatever order: the restarted breaker
      counts like the one that was never restarted at every later failure exactly when the bus holds the agent's
      unexpired failures in time order. */
  lemma RestartAgreesIff(c: Config, agent: string, run: seq<Input>, stream: seq<Audit>, r: real)
    requires Sound(c) && TimeOrdered(run) && ResetFree(run) && Clock(run) <= r
    requires multiset(FailuresIn(stream, agent)) == multiset(SinceReset(run))
    ensures AlwaysAgrees(c, agent, run, stream, r) <==> InOrderFrom(OnBus(c, stream, agent, r), FirstKept(c, OnBus(c, stream, agent, r)))
  {
    PlainRunReachedBus(c, agent, run, stream, r);
    AlwaysAgreesIff(c, agent, run, stream, r);
  }

  lemma HistoryUpTo(c: Config, run: seq<Input>, r: real)
    requires Sound(c) && TimeOrdered(run) && ReplaysInOrder(c, run) && Clock(run) <= r
    ensures AllUpTo(SinceReset(run), r)
  {
    HistorySorted(c, run);
  }

  lemma HistoryOnBus(c: Config, agent: string, stream: seq<Audit>, hist: seq<Failure>, r: real)
    requires multiset(FailuresIn(stream, agent)) == multiset(hist) && AllUpTo(hist, r)
    ensures Unexpired(c, OnBus(c, stream, agent, r), r) && SameCounts(c, hist, OnBus(c, stream, agent, r), r)
  {
    ReachedBus(c, hist, FailuresIn(stream, agent), r);
  }

  // ---------------------------------------------------------------- one disordered restart

  function At(t: real): Failure {
    Failure("deploy", "timeout", t)
  }

  /** Two failures that reached the bus in the opposite order, a restart, and a third failure when the older one
      has expired: the restarted breaker opens, the other does not. */
  lemma DisorderOpensEarly(agent: string)
    ensures var c := Config(3, 32, 100.0, 60.0, 2);
            var run := [Fail(At(5.0), 5.0), Fail(At(10.0), 10.0)];
            var bus := [FailureObserved(agent, At(10.0)), FailureObserved(agent, At(5.0))];
            var rebuilt := Replayed(c, bus, agent, 50.0);
            && multiset(FailuresIn(bus, agent)) == multiset{At(5.0), At(10.0)}
            && Run(c, agent, run + [Fail(At(108.0), 108.0)]).breaker.health.circuit == Closed
            && Run(c, agent, run + [Replay(rebuilt, 50.0)] + [Fail(At(108.0), 108.0)]).breaker.health.circuit == Open
  {
    var c := Config(3, 32, 100.0, 60.0, 2);
    ReversedBus(c, agent);
    WithoutRestart(c, agent);
    WithRestart(c, agent);
  }

  lemma ReversedBus(c: Config, agent: string)
    requires c == Config(3, 32, 100.0, 60.0, 2)
    ensures var bus := [FailureObserved(agent, At(10.0)), FailureObserved(agent, At(5.0))];
            FailuresIn(bus, agent) == [At(10.0), At(5.0)] && Replayed(c, bus, agent, 50.0) == [At(10.0), At(5.0)]
  {
    var bus := [FailureObserved(agent, At(10.0)), FailureObserved(agent, At(5.0))];
    FailuresInAppend([], bus[0], agent);
    FailuresInAppend([bus[0]], bus[1], agent);
    assert [] + [bus[0]] == [bus[0]] && [bus[0]] + [bus[1]] == bus;
    assert [] + [At(10.0)] == [At(10.0)] && [At(10.0)] + [At(5.0)] == [At(10.0), At(5.0)];
    InWindowKeepsAll([At(10.0), At(5.0)], 50.0 - c.window);
  }

  lemma WithoutRestart(c: Config, agent: string)
    requires c == Config(3, 32, 100.0, 60.0, 2)
    ensures Run(c, agent, [Fail(At(5.0), 5.0), Fail(At(10.0), 10.0)] + [Fail(At(108.0), 108.0)]).breaker.health.circuit == Closed
  {
    var a, b, d := At(5.0), At(10.0), At(108.0);
    TwoFailures(c, agent, a, b);
    RunAppend(c, agent, [Fail(a, 5.0), Fail(b, 10.0)], Fail(d, 108.0));
    assert [a, b] + [d] == [a, b, d];
    DropExpiredIs([a, b, d], 8.0, 1);
  }

  lemma WithRestart(c: Config, agent: string)
    requires c == Config(3, 32, 100.0, 60.0, 2)
    ensures Run(c, agent, [Fail(At(5.0), 5.0), Fail(At(10.0), 10.0)] + [Replay([At(10.0), At(5.0)], 50.0)] + [Fail(At(108.0), 108.0)])
              .breaker.health.circuit == Open
  {
    var a, b, d := At(5.0), At(10.0), At(108.0);
    var run := [Fail(a, 5.0), Fail(b, 10.0)];
    TwoFailures(c, agent, a, b);
    RunAppend(c, agent, run, Replay([b, a], 50.0));
    RunAppend(c, agent, run + [Replay([b, a], 50.0)], Fail(d, 108.0));
    assert [b, a] + [d] == [b, a, d];
    DropExpiredIs([b, a, d], 8.0, 0);
  }

  lemma RunAppend(c: Config, agent: string, run: seq<Input>, last: Input)
    ensures Run(c, agent, run + [last]).breaker == Step(c, agent, Run(c, agent, run).breaker, last).breaker
  {
    assert (run + [last])[..|run|] == run;
  }

  lemma TwoFailures(c: Config, agent: string, a: Failure, b: Failure)
    requires c == Config(3, 32, 100.0, 60.0, 2) && a.stamp == 5.0 && b.stamp == 10.0
    ensures var after := Run(c, agent, [Fail(a, 5.0), Fail(b, 10.0)]).breaker;
            after.buffer == [a, b] && after.health.circuit == Closed
  {
    RunAppend(c, agent, [], Fail(a, 5.0));
    RunAppend(c, agent, [Fail(a, 5.0)], Fail(b, 10.0));
    assert [] + [Fail(a, 5.0)] == [Fail(a, 5.0)] && [Fail(a, 5.0)] + [Fail(b, 10.0)] == [Fail(a, 5.0), Fail(b, 10.0)];
    assert [] + [a] == [a] && [a] + [b] == [a, b];
    DropExpiredIs([a], 5.0 - 100.0, 0);
    DropExpiredIs([a, b], 10.0 - 100.0, 0);
  }
}
