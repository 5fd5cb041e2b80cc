/** The per-tool sliding-window rate limiter (nth_dao/local_tool_orchestrator.py).

    A caller reads the clock before it asks for the lock, so readings reach the locked section in any order. */
module RateLimiting {
  import opened Prelude

  const HOUR := 3600.0

  /** `[t for t in hits if t > start]`. */
  function After(hits: seq<real>, start: real): seq<real> {
    if hits == [] then []
    else
      var rest, last := After(hits[..|hits| - 1], start), hits[|hits| - 1];
      if last > start then rest + [last] else rest
  }

  predicate UpTo(s: seq<real>, t: real) {
    forall i :: 0 <= i < |s| ==> s[i] <= t
  }

  /** How many of the calls fall in `(t - width, t]`. */
  function InSpan(log: seq<real>, t: real, width: real): nat {
    if log == [] then 0
    else
      var last := log[|log| - 1];
      InSpan(log[..|log| - 1], t, width) + if t - width < last <= t then 1 else 0
  }

  function InHour(log: seq<real>, t: real): nat {
    InSpan(log, t, HOUR)
  }

  lemma SpanAppend(log: seq<real>, x: real, t: real, width: real)
    ensures InSpan(log + [x], t, width) == InSpan(log, t, width) + if t - width < x <= t then 1 else 0
  {
    assert (log + [x])[..|log|] == log;
  }

  lemma AfterAppend(hits: seq<real>, x: real, start: real)
    ensures After(hits + [x], start) == if x > start then After(hits, start) + [x] else After(hits, start)
  {
    assert (hits + [x])[..|hits|] == hits;
  }

  /** A window that starts no earlier than `start` holds no more calls than came after `start`. */
  lemma {:induction false} SpanWithinAfter(log: seq<real>, t: real, width: real, start: real)
    requires start <= t - width
    ensures InSpan(log, t, width) <= |After(log, start)|
  {
    if log != [] { SpanWithinAfter(log[..|log| - 1], t, width, start); }
  }

  lemma {:induction false} HourIsAfter(log: seq<real>, t: real)
    requires UpTo(log, t)
    ensures InHour(log, t) == |After(log, t - HOUR)|
  {
    if log != [] { HourIsAfter(log[..|log| - 1], t); }
  }

  lemma {:induction false} AfterShrinks(hits: seq<real>, early: real, late: real)
    requires early <= late
    ensures |After(hits, late)| <= |After(hits, early)| <= |hits|
  {
    if hits != [] { AfterShrinks(hits[..|hits| - 1], early, late); }
  }

  lemma {:induction false} AfterTwice(hits: seq<real>, early: real, late: real)
    requires early <= late
    ensures After(After(hits, early), late) == After(hits, late)
  {
    if hits != [] {
      var init, last := hits[..|hits| - 1], hits[|hits| - 1];
      AfterTwice(init, early, late);
      AfterAppend(After(init, early), last, late);
    }
  }

  /** All calls are kept exactly when none is as old as `start`. */
  lemma {:induction false} AfterKeepsAllIff(hits: seq<real>, start: real)
    ensures |After(hits, start)| <= |hits|
    ensures |After(hits, start)| == |hits| <==> forall i :: 0 <= i < |hits| ==> hits[i] > start
    ensures |After(hits, start)| == |hits| ==> After(hits, start) == hits
  {
    if hits != [] {
      var init := hits[..|hits| - 1];
      AfterKeepsAllIff(init, start);
      assert hits == init + [hits[|hits| - 1]];
    }
  }

  lemma {:induction false} AfterMembers(hits: seq<real>, start: real)
    ensures forall x :: x in After(hits, start) <==> x in hits && x > start
  {
    if hits != [] {
      var init := hits[..|hits| - 1];
      AfterMembers(init, start);
      assert hits == init + [hits[|hits| - 1]];
    }
  }

  // ---------------------------------------------------------------- one tool's locked section

  /** `hits` is what is stored, `log` every admitted reading in the order of admission. */
  datatype Store = Store(hits: seq<real>, log: seq<real>)

  /** A call with this reading finds fewer than `limit` stored calls in its window. */
  predicate HasRoom(hits: seq<real>, limit: int, now: real) {
    |After(hits, now - HOUR)| < limit
  }

  function Attempt(limit: int, s: Store, now: real): Store {
    if HasRoom(s.hits, limit, now) then Store(After(s.hits, now - HOUR) + [now], s.log + [now]) else s
  }

  function Latest(log: seq<real>): real
    requires log != []
  {
    if |log| == 1 then log[0]
    else
      var rest, last := Latest(log[..|log| - 1]), log[|log| - 1];
      if rest >= last then rest else last
  }

  lemma {:induction false} LatestIsLast(log: seq<real>)
    requires log != []
    ensures UpTo(log, Latest(log)) && Latest(log) in log
  {
    if |log| > 1 {
      var init := log[..|log| - 1];
      LatestIsLast(init);
      assert log == init + [log[|log| - 1]];
    }
  }

  predicate AgreeAfter(s: Store, start: real) {
    After(s.hits, start) == After(s.log, start)
  }

  /** The stored list never exceeds the limit, and from an hour before the latest admitted reading on it
      knows every admitted call. */
  ghost predicate ToolOk(limit: int, s: Store) {
    && |s.hits| <= limit
    && (forall x :: x in s.hits ==> x in s.log)
    && (s.log == [] ==> s.hits == [])
    && forall start :: s.log != [] && start >= Latest(s.log) - HOUR ==> AgreeAfter(s, start)
  }

  lemma LatestGrows(log: seq<real>, now: real)
    ensures Latest(log + [now]) >= now && (log != [] ==> Latest(log + [now]) >= Latest(log))
  {
    assert (log + [now])[..|log|] == log;
  }

  lemma AgreementGrows(s: Store, now: real, start: real)
    requires AgreeAfter(s, start) && start >= now - HOUR
    ensures AgreeAfter(Store(After(s.hits, now - HOUR) + [now], s.log + [now]), start)
  {
    AfterTwice(s.hits, now - HOUR, start);
    AfterAppend(After(s.hits, now - HOUR), now, start);
    AfterAppend(s.log, now, start);
  }

  lemma AttemptAgrees(limit: int, s: Store, now: real, start: real)
    requires ToolOk(limit, s) && HasRoom(s.hits, limit, now) && start >= Latest(s.log + [now]) - HOUR
    ensures AgreeAfter(Attempt(limit, s, now), start)
  {
    LatestGrows(s.log, now);
    assert AgreeAfter(s, start);
    AgreementGrows(s, now, start);
  }

  lemma AttemptKeepsOk(limit: int, s: Store, now: real)
    requires ToolOk(limit, s)
    ensures ToolOk(limit, Attempt(limit, s, now))
  {
    if HasRoom(s.hits, limit, now) {
      AfterMembers(s.hits, now - HOUR);
      var s' := Attempt(limit, s, now);
      forall start | start >= Latest(s'.log) - HOUR ensures AgreeAfter(s', start) { AttemptAgrees(limit, s, now, start); }
    }
  }

  /** A caller whose reading is not behind an admitted one is judged as the whole history would judge it. */
  lemma RefusedIffHourFull(limit: int, s: Store, now: real)
    requires ToolOk(limit, s) && UpTo(s.log, now)
    ensures HasRoom(s.hits, limit, now) <==> InHour(s.log, now) < limit
  {
    HourIsAfter(s.log, now);
    if s.log != [] {
      LatestIsLast(s.log);
      assert AgreeAfter(s, now - HOUR);
    }
  }

  // ---------------------------------------------------------------- the announced wait

  predicate FirstIsOldest(hits: seq<real>) {
    forall i :: 0 <= i < |hits| ==> hits[0] <= hits[i]
  }

  /** From `now` on, the next call has room exactly once `wait` has passed. */
  ghost predicate RoomExactlyFrom(hits: seq<real>, limit: int, now: real, wait: real) {
    forall later :: now <= later ==> (HasRoom(hits, limit, later) <==> later >= now + wait)
  }

  lemma RoomIff(limit: int, hits: seq<real>, later: real)
    requires |hits| == limit
    ensures HasRoom(hits, limit, later) <==> exists i :: 0 <= i < |hits| && hits[i] + HOUR <= later
  {
    AfterKeepsAllIff(hits, later - HOUR);
  }

  /** A refused caller is told to wait until the first stored call leaves. That is always long enough, and it
      is the exact time exactly when the first stored call is the oldest one. */
  lemma WaitIsExact(limit: int, s: Store, now: real)
    requires ToolOk(limit, s) && limit > 0 && !HasRoom(s.hits, limit, now)
    ensures After(s.hits, now - HOUR) == s.hits && |s.hits| == limit
    ensures var wait := s.hits[0] + HOUR - now;
            && wait > 0.0
            && (forall later :: later >= now + wait ==> HasRoom(s.hits, limit, later))
            && (RoomExactlyFrom(s.hits, limit, now, wait) <==> FirstIsOldest(s.hits))
  {
    AfterKeepsAllIff(s.hits, now - HOUR);
    var hits := s.hits;
    var end := hits[0] + HOUR;
    forall later | later >= end ensures HasRoom(hits, limit, later) { RoomIff(limit, hits, later); }
    if FirstIsOldest(hits) {
      forall later | now <= later ensures HasRoom(hits, limit, later) <==> later >= end { RoomIff(limit, hits, later); }
    } else {
      var i :| 0 <= i < |hits| && hits[i] < hits[0];
      var early := hits[i] + HOUR;
      RoomIff(limit, hits, early);
      assert now <= early < end && HasRoom(hits, limit, early);
    }
  }

  // ---------------------------------------------------------------- the limiter

  datatype Verdict = PassThrough | Admitted | Refused(count: nat, wait: real)

  /** What a limiter has stored, and every admitted reading, per tool. */
  datatype Book = Book(hits: map<string, seq<real>>, log: map<string, seq<real>>)

  function StoreOf(b: Book, tool: string): Store {
    Store(if tool in b.hits then b.hits[tool] else [], if tool in b.log then b.log[tool] else [])
  }

  function LimitOf(limits: map<string, int>, tool: string): int {
    if tool in limits then limits[tool] else 0
  }

  ghost predicate Tracks(limits: map<string, int>, b: Book, tool: string) {
    LimitOf(limits, tool) > 0 ==> ToolOk(LimitOf(limits, tool), StoreOf(b, tool))
  }

  ghost predicate TracksAll(limits: map<string, int>, b: Book) {
    forall tool :: Tracks(limits, b, tool)
  }

  function Put(b: Book, tool: string, s: Store): Book {
    Book(b.hits[tool := s.hits], b.log[tool := s.log])
  }

  lemma PutTracks(limits: map<string, int>, b: Book, tool: string, s: Store)
    requires TracksAll(limits, b) && ToolOk(LimitOf(limits, tool), s)
    ensures TracksAll(limits, Put(b, tool, s))
  {
    var b' := Put(b, tool, s);
    forall t ensures Tracks(limits, b', t) {
      assert Tracks(limits, b, t);
      assert t != tool ==> StoreOf(b', t) == StoreOf(b, t);
      assert t == tool ==> StoreOf(b', t) == s;
    }
  }

  class RateLimiter {
    const limits: map<string, int>
    var hits: map<string, seq<real>>
    ghost var log: map<string, seq<real>>

    ghost function Snap(): Book
      reads this
    {
      Book(hits, log)
    }

    ghost predicate Valid()
      reads this
    {
      TracksAll(limits, Snap())
    }

    constructor (limits: map<string, int>)
      ensures Valid() && this.limits == limits && hits == map[] && log == map[]
    {
      this.limits := limits;
      hits, log := map[], map[];
    }

    /** The locked section of a call that read the clock as `now` some time before. A refusal changes nothing. */
    method CheckAndRecord(tool: string, now: real) returns (v: Verdict)
      requires Valid()
      modifies this
      ensures Valid()
      ensures v == PassThrough <==> tool !in limits || limits[tool] <= 0
      ensures v.Refused? <==>
                tool in limits && limits[tool] > 0 && !HasRoom(old(StoreOf(Snap(), tool)).hits, limits[tool], now)
      ensures v == Admitted ==> Snap() == Put(old(Snap()), tool, Attempt(LimitOf(limits, tool), old(StoreOf(Snap(), tool)), now))
      ensures v != Admitted ==> Snap() == old(Snap())
      ensures LimitOf(limits, tool) > 0 && UpTo(old(StoreOf(Snap(), tool)).log, now) ==>
                (v.Refused? <==> InHour(old(StoreOf(Snap(), tool)).log, now) >= LimitOf(limits, tool))
      ensures v.Refused? ==> var kept := StoreOf(Snap(), tool).hits;
                && v.count == LimitOf(limits, tool) == |kept| && v.wait > 0.0
                && (forall later :: later >= now + v.wait ==> HasRoom(kept, LimitOf(limits, tool), later))
                && (RoomExactlyFrom(kept, LimitOf(limits, tool), now, v.wait) <==> FirstIsOldest(kept))
    {
      var limit := LimitOf(limits, tool);
      if limit <= 0 {
        return PassThrough;
      }
      ghost var s := StoreOf(Snap(), tool);
      assert Tracks(limits, Snap(), tool);
      if UpTo(s.log, now) { RefusedIffHourFull(limit, s, now); }
      var recent := After(if tool in hits then hits[tool] else [], now - HOUR);
      if |recent| >= limit {
        WaitIsExact(limit, s, now);
        var next := recent[0] + HOUR;
        return Refused(|recent|, if next - now > 0.0 then next - now else 0.0);
      }
      AttemptKeepsOk(limit, s, now);
      PutTracks(limits, Snap(), tool, Attempt(limit, s, now));
      hits := hits[tool := recent + [now]];
      log := log[tool := s.log + [now]];
      return Admitted;
    }
  }

  // ---------------------------------------------------------------- callers that interleave

  /** Reading the clock and entering the lock are two steps; `clock` is the latest reading anyone has taken. */
  datatype Step = Read(p: nat, t: real) | Enter(p: nat)

  datatype World = World(clock: real, reading: map<nat, real>, store: Store)

  /** Clocks do not go back, and no caller enters the lock more than `lag` behind the latest reading. */
  predicate Enabled(lag: real, w: World, step: Step) {
    match step
    case Read(p, t) => p !in w.reading && w.clock <= t
    case Enter(p) => p in w.reading && w.clock - w.reading[p] <= lag
  }

  function Next(limit: int, lag: real, w: World, step: Step): World
    requires Enabled(lag, w, step)
  {
    match step
    case Read(p, t) => World(t, w.reading[p := t], w.store)
    case Enter(p) => World(w.clock, w.reading - {p}, Attempt(limit, w.store, w.reading[p]))
  }

  /** The world after a schedule, or None if some step was not possible. */
  function Exec(limit: int, lag: real, steps: seq<Step>): Option<World> {
    if steps == [] then Some(World(0.0, map[], Store([], [])))
    else
      match Exec(limit, lag, steps[..|steps| - 1])
      case None => None
      case Some(w) => if Enabled(lag, w, steps[|steps| - 1]) then Some(Next(limit, lag, w, steps[|steps| - 1])) else None
  }

  /** No window of this width, anywhere in the history, holds more than `limit` admitted readings. */
  ghost predicate Throttled(log: seq<real>, limit: int, width: real) {
    forall t :: InSpan(log, t, width) <= limit
  }

  /** However callers interleave within the lag, every window of this width stays within the limit. */
  ghost predicate Safe(limit: int, lag: real, width: real) {
    forall steps {:trigger Exec(limit, lag, steps)} :: Exec(limit, lag, steps).Some? ==>
      Throttled(Exec(limit, lag, steps).value.store.log, limit, width)
  }

  ghost predicate WorldOk(limit: int, width: real, w: World) {
    && ToolOk(limit, w.store)
    && UpTo(w.store.log, w.clock)
    && Throttled(w.store.log, limit, width)
    && forall p :: p in w.reading ==> w.reading[p] <= w.clock
  }

  /** An admitted reading that is at most `lag` behind keeps every window of width `HOUR - lag` within the limit. */
  lemma AdmitKeepsThrottled(limit: int, s: Store, clock: real, now: real, lag: real, width: real)
    requires ToolOk(limit, s) && UpTo(s.log, clock) && Throttled(s.log, limit, width) && HasRoom(s.hits, limit, now)
    requires now <= clock && clock - now <= lag && width <= HOUR - lag
    ensures Throttled(s.log + [now], limit, width)
  {
    forall t ensures InSpan(s.log + [now], t, width) <= limit {
      SpanAppend(s.log, now, t, width);
      if t - width < now <= t {
        SpanWithRoom(limit, s, clock, now, lag, width, t);
      }
    }
  }

  lemma SpanWithRoom(limit: int, s: Store, clock: real, now: real, lag: real, width: real, t: real)
    requires ToolOk(limit, s) && UpTo(s.log, clock) && HasRoom(s.hits, limit, now)
    requires now <= clock && clock - now <= lag && width <= HOUR - lag && now <= t
    ensures InSpan(s.log, t, width) < limit
  {
    var start := clock - HOUR;
    SpanWithinAfter(s.log, t, width, start);
    AfterShrinks(s.hits, now - HOUR, start);
    if s.log != [] {
      LatestIsLast(s.log);
      assert AgreeAfter(s, start);
    }
  }

  lemma StepKeepsOk(limit: int, lag: real, width: real, w: World, step: Step)
    requires WorldOk(limit, width, w) && Enabled(lag, w, step) && width <= HOUR - lag
    ensures WorldOk(limit, width, Next(limit, lag, w, step))
  {
    if step.Enter? {
      var now := w.reading[step.p];
      AttemptKeepsOk(limit, w.store, now);
      if HasRoom(w.store.hits, limit, now) {
        AdmitKeepsThrottled(limit, w.store, w.clock, now, lag, width);
      }
    }
  }

  lemma {:induction false} ExecIsOk(limit: int, lag: real, width: real, steps: seq<Step>)
    requires limit > 0 && width <= HOUR - lag && Exec(limit, lag, steps).Some?
    ensures WorldOk(limit, width, Exec(limit, lag, steps).value)
  {
    if steps != [] {
      ExecIsOk(limit, lag, width, steps[..|steps| - 1]);
      StepKeepsOk(limit, lag, width, Exec(limit, lag, steps[..|steps| - 1]).value, steps[|steps| - 1]);
    }
  }

  // With a limit of one the stored list is the last admitted reading, so admissions are an hour apart.

  predicate LastOnly(s: Store) {
    if s.log == [] then s.hits == [] else s.hits == [s.log[|s.log| - 1]] && UpTo(s.log, s.log[|s.log| - 1])
  }

  lemma RoomForOne(hits: seq<real>, now: real)
    requires HasRoom(hits, 1, now)
    ensures After(hits, now - HOUR) + [now] == [now] && UpTo(hits, now - HOUR)
  {
    AfterMembers(hits, now - HOUR);
    assert forall i :: 0 <= i < |hits| ==> hits[i] in hits;
  }

  lemma OneAtATime(s: Store, now: real, width: real)
    requires LastOnly(s) && Throttled(s.log, 1, width) && width <= HOUR
    ensures LastOnly(Attempt(1, s, now)) && Throttled(Attempt(1, s, now).log, 1, width)
  {
    if HasRoom(s.hits, 1, now) {
      RoomForOne(s.hits, now);
      assert s.log != [] ==> s.hits[0] <= now - HOUR;
      assert UpTo(s.log, now - HOUR);
      HourApart(s.log, now, width);
    }
  }

  lemma HourApart(log: seq<real>, now: real, width: real)
    requires UpTo(log, now - HOUR) && Throttled(log, 1, width) && width <= HOUR
    ensures Throttled(log + [now], 1, width)
  {
    forall t ensures InSpan(log + [now], t, width) <= 1 {
      SpanAppend(log, now, t, width);
      if t - width < now <= t { NoneInSpan(log, t, width); }
    }
  }

  lemma {:induction false} NoneInSpan(log: seq<real>, t: real, width: real)
    requires UpTo(log, t - width)
    ensures InSpan(log, t, width) == 0
  {
    if log != [] { NoneInSpan(log[..|log| - 1], t, width); }
  }

  lemma {:induction false} ExecOneAtATime(lag: real, width: real, steps: seq<Step>)
    requires width <= HOUR && Exec(1, lag, steps).Some?
    ensures var s := Exec(1, lag, steps).value.store; LastOnly(s) && Throttled(s.log, 1, width)
  {
    if steps != [] {
      var w, last := Exec(1, lag, steps[..|steps| - 1]).value, steps[|steps| - 1];
      ExecOneAtATime(lag, width, steps[..|steps| - 1]);
      if last.Enter? { OneAtATime(w.store, w.reading[last.p], width); }
    }
  }

  // ---------------------------------------------------------------- the interleaving that breaks the bound

  lemma ExecAppend(limit: int, lag: real, steps: seq<Step>, step: Step)
    requires Exec(limit, lag, steps).Some? && Enabled(lag, Exec(limit, lag, steps).value, step)
    ensures Exec(limit, lag, steps + [step]) == Some(Next(limit, lag, Exec(limit, lag, steps).value, step))
  {
    assert (steps + [step])[..|steps|] == steps;
  }

  /** A schedule after which nobody is waiting and these are the admitted and still stored readings. */
  predicate Leaves(limit: int, lag: real, steps: seq<Step>, clock: real, s: Store) {
    Exec(limit, lag, steps) == Some(World(clock, map[], s))
  }

  /** One more call that reads the clock and enters at once. */
  lemma OneMore(limit: int, lag: real, steps: seq<Step>, clock: real, s: Store, now: real) returns (more: seq<Step>)
    requires lag >= 0.0 && Leaves(limit, lag, steps, clock, s) && clock <= now
    ensures Leaves(limit, lag, more, now, Attempt(limit, s, now))
  {
    more := steps + [Read(0, now)] + [Enter(0)];
    ExecAppend(limit, lag, steps, Read(0, now));
    ExecAppend(limit, lag, steps + [Read(0, now)], Enter(0));
    assert map[0 := now] - {0} == map[];
  }

  /** Two callers enter in the opposite order of their readings. */
  lemma Overtake(limit: int, lag: real, steps: seq<Step>, clock: real, s: Store, early: real, late: real) returns (more: seq<Step>)
    requires Leaves(limit, lag, steps, clock, s) && clock <= early <= late && late - early <= lag
    ensures Leaves(limit, lag, more, late, Attempt(limit, Attempt(limit, s, late), early))
  {
    var s1 := steps + [Read(1, early)];
    var s2 := s1 + [Read(2, late)];
    var s3 := s2 + [Enter(2)];
    more := s3 + [Enter(1)];
    ExecAppend(limit, lag, steps, Read(1, early));
    ExecAppend(limit, lag, s1, Read(2, late));
    ExecAppend(limit, lag, s2, Enter(2));
    assert map[1 := early, 2 := late] - {2} == map[1 := early];
    ExecAppend(limit, lag, s3, Enter(1));
    assert map[1 := early] - {1} == map[];
  }

  /** The same reading, `n` times. */
  function Repeat(x: real, n: nat): seq<real> {
    if n == 0 then [] else Repeat(x, n - 1) + [x]
  }

  lemma {:induction false} RepeatSpan(x: real, n: nat, t: real, width: real)
    requires t - width < x <= t
    ensures InSpan(Repeat(x, n), t, width) == n
  {
    if n > 0 {
      RepeatSpan(x, n - 1, t, width);
      SpanAppend(Repeat(x, n - 1), x, t, width);
    }
  }

  lemma {:induction false} RepeatAfter(x: real, n: nat, start: real)
    ensures |Repeat(x, n)| == n
    ensures After(Repeat(x, n), start) == if x > start then Repeat(x, n) else []
  {
    if n > 0 {
      RepeatAfter(x, n - 1, start);
      AfterAppend(Repeat(x, n - 1), x, start);
    }
  }

  lemma RepeatFacts(x: real, n: nat, start: real, t: real, width: real)
    ensures |Repeat(x, n)| == n
    ensures t - width < x <= t ==> InSpan(Repeat(x, n), t, width) == n
    ensures After(Repeat(x, n), start) == if x > start then Repeat(x, n) else []
  {
    RepeatAfter(x, n, start);
    if t - width < x <= t { RepeatSpan(x, n, t, width); }
  }

  lemma {:induction false} Burst(limit: int, lag: real, n: nat) returns (steps: seq<Step>)
    requires 0 <= n <= limit && lag >= 0.0
    ensures Leaves(limit, lag, steps, 0.0, Store(Repeat(0.0, n), Repeat(0.0, n)))
  {
    if n == 0 {
      steps := [];
    } else {
      steps := Burst(limit, lag, n - 1);
      RepeatFacts(0.0, n - 1, 0.0 - HOUR, 0.0, 1.0);
      steps := OneMore(limit, lag, steps, 0.0, Store(Repeat(0.0, n - 1), Repeat(0.0, n - 1)), 0.0);
    }
  }

  lemma OneStored(limit: int, x: real, now: real)
    requires limit >= 2
    ensures HasRoom([x], limit, now)
  {
    AfterKeepsAllIff([x], now - HOUR);
  }

  /** A full burst at time zero; then the call of the full hour drops it from the list before a call that
      read the clock earlier looks. Both are admitted. */
  lemma OvertakenIsAdmitted(limit: nat, lag: real, early: real) returns (steps: seq<Step>, s: Store)
    requires limit >= 2 && 0.0 <= early <= HOUR && HOUR - early <= lag
    ensures Leaves(limit, lag, steps, HOUR, s) && s.log == Repeat(0.0, limit) + [HOUR] + [early]
  {
    steps := Burst(limit, lag, limit);
    s := Store(Repeat(0.0, limit), Repeat(0.0, limit));
    RepeatFacts(0.0, limit, 0.0, 0.0, 1.0);
    steps := Overtake(limit, lag, steps, 0.0, s, early, HOUR);
    assert [] + [HOUR] == [HOUR];
    assert Attempt(limit, s, HOUR) == Store([HOUR], s.log + [HOUR]);
    OneStored(limit, HOUR, early);
    s := Attempt(limit, Attempt(limit, s, HOUR), early);
  }

  lemma OvertakenBreaks(limit: nat, lag: real, width: real)
    requires limit >= 2 && lag >= 0.0 && width > 0.0 && width > HOUR - lag
    ensures !Safe(limit, lag, width)
  {
    var t := if lag <= HOUR then HOUR - lag else 0.0;
    var steps, s := OvertakenIsAdmitted(limit, lag, t);
    RepeatFacts(0.0, limit, 0.0, t, width);
    SpanAppend(Repeat(0.0, limit), HOUR, t, width);
    SpanAppend(Repeat(0.0, limit) + [HOUR], t, t, width);
    assert InSpan(s.log, t, width) > limit;
    assert !Throttled(Exec(limit, lag, steps).value.store.log, limit, width);
  }

  lemma WiderThanHourBreaks(lag: real, width: real)
    requires lag >= 0.0 && width > HOUR
    ensures !Safe(1, lag, width)
  {
    var steps := Burst(1, lag, 1);
    var s := Store(Repeat(0.0, 1), Repeat(0.0, 1));
    RepeatFacts(0.0, 1, 0.0, HOUR, width);
    steps := OneMore(1, lag, steps, 0.0, s, HOUR);
    var log := Attempt(1, s, HOUR).log;
    SpanAppend(s.log, HOUR, HOUR, width);
    assert InSpan(log, HOUR, width) > 1;
    assert !Throttled(Exec(1, lag, steps).value.store.log, 1, width);
  }

  /** Which windows the limiter protects: with a limit of one every window up to an hour, otherwise exactly those
      that leave out the longest time a caller can spend between reading the clock and entering the lock. */
  lemma SafeWindowIff(limit: nat, lag: real, width: real)
    requires limit >= 1 && lag >= 0.0 && width > 0.0
    ensures Safe(limit, lag, width) <==> width <= HOUR - if limit == 1 then 0.0 else lag
  {
    if width <= HOUR - if limit == 1 then 0.0 else lag {
      forall steps | Exec(limit, lag, steps).Some?
        ensures Throttled(Exec(limit, lag, steps).value.store.log, limit, width)
      {
        if limit == 1 { ExecOneAtATime(lag, width, steps); } else { ExecIsOk(limit, lag, width, steps); }
      }
    } else if limit == 1 {
      WiderThanHourBreaks(lag, width);
    } else {
      OvertakenBreaks(limit, lag, width);
    }
  }

  /** The promised bound, any `(t - 3600, t]` holding at most `limit` admitted calls, holds in every run exactly
      when the limit is one or no caller can be overtaken between its reading and the lock. */
  lemma SlidingWindow(limit: nat, lag: real)
    requires limit >= 1 && lag >= 0.0
    ensures Safe(limit, lag, 3600.0) <==> limit == 1 || lag == 0.0
  {
    SafeWindowIff(limit, lag, HOUR);
  }

  // ---------------------------------------------------------------- when the announced wait is exact

  predicate Ascending(s: seq<real>) {
    forall i, j :: 0 <= i < j < |s| ==> s[i] <= s[j]
  }

  lemma {:induction false} AfterAscends(hits: seq<real>, start: real)
    requires Ascending(hits)
    ensures Ascending(After(hits, start))
  {
    if hits != [] {
      var init, last := hits[..|hits| - 1], hits[|hits| - 1];
      AfterAscends(init, start);
      AfterUpTo(init, start, last);
    }
  }

  lemma {:induction false} AfterUpTo(hits: seq<real>, start: real, t: real)
    requires UpTo(hits, t)
    ensures UpTo(After(hits, start), t)
  {
    if hits != [] { AfterUpTo(hits[..|hits| - 1], start, t); }
  }

  predicate InOrder(w: World) {
    Ascending(w.store.hits) && UpTo(w.store.hits, w.clock)
  }

  lemma EnterInOrder(limit: int, hits: seq<real>, log: seq<real>, now: real)
    requires Ascending(hits) && UpTo(hits, now)
    ensures Ascending(Attempt(limit, Store(hits, log), now).hits) && UpTo(Attempt(limit, Store(hits, log), now).hits, now)
  {
    AfterAscends(hits, now - HOUR);
    AfterUpTo(hits, now - HOUR, now);
  }

  lemma {:induction false} NoLagIsInOrder(limit: int, steps: seq<Step>)
    requires Exec(limit, 0.0, steps).Some?
    ensures var w := Exec(limit, 0.0, steps).value; InOrder(w) && forall p :: p in w.reading ==> w.reading[p] <= w.clock
  {
    if steps != [] {
      var w, last := Exec(limit, 0.0, steps[..|steps| - 1]).value, steps[|steps| - 1];
      NoLagIsInOrder(limit, steps[..|steps| - 1]);
      if last.Enter? { EnterInOrder(limit, w.store.hits, w.store.log, w.clock); }
    }
  }

  /** A stored list of `n` readings, none past the hour, whose first is not its oldest. */
  predicate Disordered(hits: seq<real>, n: nat) {
    |hits| == n >= 2 && hits[1] < hits[0] && After(hits, 0.0) == hits
  }

  /** Two callers of an empty store, the one that read the clock first entering last. */
  lemma DisorderedPair(limit: int, lag: real) returns (steps: seq<Step>, hits: seq<real>)
    requires 2 <= limit && lag > 0.0
    ensures Leaves(limit, lag, steps, HOUR, Store(hits, hits)) && Disordered(hits, 2)
  {
    var early := if lag < 1.0 then HOUR - lag else HOUR - 1.0;
    assert Leaves(limit, lag, [], 0.0, Store([], []));
    steps := Overtake(limit, lag, [], 0.0, Store([], []), early, HOUR);
    PairStored(limit, early);
    hits := [HOUR, early];
    AfterKeepsAllIff(hits, 0.0);
  }

  lemma PairStored(limit: int, early: real)
    requires 2 <= limit && early <= HOUR
    ensures Attempt(limit, Attempt(limit, Store([], []), HOUR), early) == Store([HOUR, early], [HOUR, early])
  {
    assert Attempt(limit, Store([], []), HOUR) == Store([HOUR], [HOUR]);
    OneStored(limit, HOUR, early);
    AfterKeepsAllIff([HOUR], early - HOUR);
    assert [HOUR] + [early] == [HOUR, early];
  }

  lemma DisorderGrows(limit: int, hits: seq<real>, n: nat)
    requires Disordered(hits, n) && n < limit
    ensures Attempt(limit, Store(hits, hits), HOUR) == Store(hits + [HOUR], hits + [HOUR]) && Disordered(hits + [HOUR], n + 1)
  {
    AfterAppend(hits, HOUR, 0.0);
  }

  lemma {:induction false} Disorder(limit: int, lag: real, n: nat) returns (steps: seq<Step>, hits: seq<real>)
    requires 2 <= n <= limit && lag > 0.0
    ensures Leaves(limit, lag, steps, HOUR, Store(hits, hits)) && Disordered(hits, n)
  {
    if n == 2 {
      steps, hits := DisorderedPair(limit, lag);
    } else {
      steps, hits := Disorder(limit, lag, n - 1);
      steps := OneMore(limit, lag, steps, HOUR, Store(hits, hits), HOUR);
      DisorderGrows(limit, hits, n - 1);
      hits := hits + [HOUR];
    }
  }

  /** Whoever is refused, in whatever run, is told the exact wait. */
  ghost predicate WaitsExact(limit: int, lag: real) {
    forall steps, now {:trigger Exec(limit, lag, steps), HasRoom(Exec(limit, lag, steps).value.store.hits, limit, now)} ::
      Exec(limit, lag, steps).Some? && !HasRoom(Exec(limit, lag, steps).value.store.hits, limit, now) ==>
        var hits := Exec(limit, lag, steps).value.store.hits;
        hits != [] && RoomExactlyFrom(hits, limit, now, hits[0] + HOUR - now)
  }

  lemma RefusedIsExactIff(limit: int, lag: real, steps: seq<Step>, now: real)
    requires limit > 0 && Exec(limit, lag, steps).Some? && !HasRoom(Exec(limit, lag, steps).value.store.hits, limit, now)
    ensures var hits := Exec(limit, lag, steps).value.store.hits;
            hits != [] && (RoomExactlyFrom(hits, limit, now, hits[0] + HOUR - now) <==> FirstIsOldest(hits)) && |hits| == limit
  {
    ExecIsOk(limit, lag, if lag >= 0.0 then 0.0 - lag else 0.0, steps);
    WaitIsExact(limit, Exec(limit, lag, steps).value.store, now);
  }

  lemma InOrderIsExact(limit: nat, lag: real, steps: seq<Step>, now: real)
    requires limit == 1 || (limit > 1 && lag == 0.0)
    requires Exec(limit, lag, steps).Some? && !HasRoom(Exec(limit, lag, steps).value.store.hits, limit, now)
    ensures var hits := Exec(limit, lag, steps).value.store.hits;
            hits != [] && RoomExactlyFrom(hits, limit, now, hits[0] + HOUR - now)
  {
    RefusedIsExactIff(limit, lag, steps, now);
    if limit > 1 { NoLagIsInOrder(limit, steps); }
  }

  lemma DisorderIsInexact(limit: nat, lag: real)
    requires limit >= 2 && lag > 0.0
    ensures !WaitsExact(limit, lag)
  {
    var steps, hits := Disorder(limit, lag, limit);
    assert !HasRoom(Exec(limit, lag, steps).value.store.hits, limit, HOUR);
    RefusedIsExactIff(limit, lag, steps, HOUR);
  }

  /** The announced wait is exact in every run exactly when the limit is one or no caller can be overtaken;
      it is never too short. */
  lemma WaitsExactIff(limit: nat, lag: real)
    requires limit >= 1 && lag >= 0.0
    ensures WaitsExact(limit, lag) <==> limit == 1 || lag == 0.0
  {
    if limit == 1 || lag == 0.0 {
      forall steps, now | Exec(limit, lag, steps).Some? && !HasRoom(Exec(limit, lag, steps).value.store.hits, limit, now)
        ensures var hits := Exec(limit, lag, steps).value.store.hits;
                hits != [] && RoomExactlyFrom(hits, limit, now, hits[0] + HOUR - now)
      {
        InOrderIsExact(limit, lag, steps, now);
      }
    } else {
      DisorderIsInexact(limit, lag);
    }
  }
}
