/** Per-subscription cursors over the event stream (nth_dao/event_subscriptions.py,
    with `EventBus.replay` from nth_dao/event_bus.py). */
module Subscriptions {
  import opened Prelude
  import opened GlobPatterns

  datatype Event = Event(id: string, kind: string)

  // ---------------------------------------------------------------- positions in the stream

  predicate UniqueIds(stream: seq<Event>) {
    && (forall i :: 0 <= i < |stream| ==> stream[i].id != "")
    && forall i, j :: 0 <= i < j < |stream| ==> stream[i].id != stream[j].id
  }

  predicate Found(stream: seq<Event>, id: string) {
    id == "" || exists i :: 0 <= i < |stream| && stream[i].id == id
  }

  /** Where a reader resumes after `id`: the start for "", otherwise just past that event,
      or the end of the stream when it never shows up. */
  function Past(stream: seq<Event>, id: string): (n: nat)
    ensures n <= |stream|
  {
    if id == "" then 0 else PastFrom(stream, id, 0)
  }

  function PastFrom(stream: seq<Event>, id: string, i: nat): (n: nat)
    requires i <= |stream|
    ensures n <= |stream|
    decreases |stream| - i
  {
    if i == |stream| then i else if stream[i].id == id then i + 1 else PastFrom(stream, id, i + 1)
  }

  lemma {:induction false} PastFromAt(stream: seq<Event>, i: nat, k: nat)
    requires UniqueIds(stream) && k <= i < |stream|
    ensures PastFrom(stream, stream[i].id, k) == i + 1
    decreases i - k
  {
    if k < i { PastFromAt(stream, i, k + 1); }
  }

  lemma PastAt(stream: seq<Event>, i: nat)
    requires UniqueIds(stream) && i < |stream|
    ensures Past(stream, stream[i].id) == i + 1
  {
    PastFromAt(stream, i, 0);
  }

  lemma {:induction false} PastFromMissing(stream: seq<Event>, id: string, k: nat)
    requires !Found(stream, id) && k <= |stream|
    ensures PastFrom(stream, id, k) == |stream|
    decreases |stream| - k
  {
    if k < |stream| { PastFromMissing(stream, id, k + 1); }
  }

  lemma PastMissing(stream: seq<Event>, id: string)
    requires !Found(stream, id)
    ensures Past(stream, id) == |stream|
  {
    PastFromMissing(stream, id, 0);
  }

  lemma PastGrows(stream: seq<Event>, e: Event, id: string)
    requires UniqueIds(stream + [e])
    ensures UniqueIds(stream)
    ensures Found(stream, id) ==> Found(stream + [e], id) && Past(stream + [e], id) == Past(stream, id)
    ensures !Found(stream, id) ==> Past(stream + [e], id) == |stream| + 1
  {
    var longer := stream + [e];
    assert forall i :: 0 <= i < |stream| ==> longer[i] == stream[i];
    if Found(stream, id) {
      if id != "" {
        var i :| 0 <= i < |stream| && stream[i].id == id;
        PastAt(stream, i);
        PastAt(longer, i);
      }
    } else if e.id == id {
      assert longer[|stream|] == e;
      PastAt(longer, |stream|);
    } else {
      assert !Found(longer, id);
      PastMissing(longer, id);
    }
  }

  /** The events from `i` up to `k` that a pattern selects, in stream order. */
  function Matching(inClass: (string, char) -> bool, pattern: string, s: seq<Event>, i: nat, k: nat): seq<Event>
    requires i <= k <= |s|
    decreases k
  {
    if i == k then []
    else
      var rest := Matching(inClass, pattern, s, i, k - 1);
      if Glob(inClass, pattern, s[k - 1].kind) then rest + [s[k - 1]] else rest
  }

  /** Everything the pattern selects from `i` on. */
  function MatchingFrom(inClass: (string, char) -> bool, pattern: string, s: seq<Event>, i: nat): seq<Event>
    requires i <= |s|
  {
    Matching(inClass, pattern, s, i, |s|)
  }

  lemma {:induction false} MatchingSplit(inClass: (string, char) -> bool, pattern: string, s: seq<Event>, i: nat, j: nat, k: nat)
    requires i <= j <= k <= |s|
    ensures Matching(inClass, pattern, s, i, k) == Matching(inClass, pattern, s, i, j) + Matching(inClass, pattern, s, j, k)
    decreases k
  {
    if j < k { MatchingSplit(inClass, pattern, s, i, j, k - 1); }
  }

  lemma {:induction false} MatchingStays(inClass: (string, char) -> bool, pattern: string, s: seq<Event>, e: Event, i: nat, k: nat)
    requires i <= k <= |s|
    ensures Matching(inClass, pattern, s + [e], i, k) == Matching(inClass, pattern, s, i, k)
    decreases k
  {
    if i < k { MatchingStays(inClass, pattern, s, e, i, k - 1); }
  }

  /** The events from `i` up to `k` whose type starts with `prefix`, in stream order. */
  function StartingWith(prefix: string, s: seq<Event>, i: nat, k: nat): seq<Event>
    requires i <= k <= |s|
    decreases k
  {
    if i == k then []
    else
      var rest := StartingWith(prefix, s, i, k - 1);
      if prefix <= s[k - 1].kind then rest + [s[k - 1]] else rest
  }

  /** The pattern is literal text followed by a star. */
  predicate IsPrefixPattern(pattern: string) {
    pattern != "" && pattern[|pattern| - 1] == '*' && IsExact(pattern[..|pattern| - 1])
  }

  lemma {:induction false} PrefixSelects(inClass: (string, char) -> bool, pattern: string, s: seq<Event>, i: nat, k: nat)
    requires i <= k <= |s| && IsPrefixPattern(pattern)
    ensures Matching(inClass, pattern, s, i, k) == StartingWith(pattern[..|pattern| - 1], s, i, k)
    decreases k
  {
    if i < k {
      PrefixSelects(inClass, pattern, s, i, k - 1);
      PrefixPattern(inClass, pattern[..|pattern| - 1], s[k - 1].kind);
      assert pattern == pattern[..|pattern| - 1] + "*";
    }
  }

  // ---------------------------------------------------------------- the manager, one call at a time

  datatype Sub = Sub(pattern: string, cursor: string)

  function Min(a: nat, b: nat): nat {
    if a < b then a else b
  }

  class SubscriptionManager {
    const inClass: (string, char) -> bool
    const cap: nat
    var subs: map<string, Sub>
    var polling: set<string>

    constructor (inClass: (string, char) -> bool, maxDeliveriesPerPoll: int)
      ensures this.inClass == inClass && cap >= 1 && (maxDeliveriesPerPoll >= 1 ==> cap == maxDeliveriesPerPoll)
      ensures subs == map[] && polling == {}
    {
      this.inClass := inClass;
      cap := if maxDeliveriesPerPoll < 1 then 1 else maxDeliveriesPerPoll;
      subs, polling := map[], {};
    }

    method Subscribe(id: string, pattern: string, startFrom: string)
      modifies this`subs
      ensures subs == old(subs)[id := Sub(pattern, startFrom)]
    {
      subs := subs[id := Sub(pattern, startFrom)];
    }

    method Unsubscribe(id: string) returns (existed: bool)
      modifies this`subs
      ensures existed <==> id in old(subs)
      ensures subs == old(subs) - {id}
    {
      existed := id in subs;
      subs := subs - {id};
    }

    /** Delivers the next matching events after the cursor, at most `cap` of them, and moves the cursor so
        that the next call continues exactly where this one stopped - on the fast path and on the glob path. */
    method DeliverOne(id: string, stream: seq<Event>) returns (delivered: seq<Event>)
      requires UniqueIds(stream) && cap >= 1
      modifies this
      ensures polling == old(polling) && subs.Keys == old(subs).Keys
      ensures forall k :: k in subs && k != id ==> subs[k] == old(subs)[k]
      ensures id !in old(subs) || id in old(polling) ==> delivered == [] && subs == old(subs)
      ensures id in old(subs) && id !in old(polling) ==>
                var s := old(subs)[id];
                var due := MatchingFrom(inClass, s.pattern, stream, Past(stream, s.cursor));
                && subs[id].pattern == s.pattern
                && delivered == due[..Min(cap, |due|)]
                && MatchingFrom(inClass, s.pattern, stream, Past(stream, subs[id].cursor)) == due[Min(cap, |due|)..]
      ensures id in old(subs) && id !in old(polling) && IsPrefixPattern(old(subs)[id].pattern) ==>
                var s := old(subs)[id];
                var due := StartingWith(s.pattern[..|s.pattern| - 1], stream, Past(stream, s.cursor), |stream|);
                delivered == due[..Min(cap, |due|)]
    {
      if id !in subs || id in polling {
        return [];
      }
      polling := polling + {id};
      var cursor, pattern := subs[id].cursor, subs[id].pattern;
      var last;
      delivered, last := DeliveryLoop(inClass, cap, stream, cursor, pattern);
      if last != cursor {
        subs := subs[id := Sub(pattern, last)];
      }
      polling := polling - {id};
      assert polling == old(polling);
      if IsPrefixPattern(pattern) { PrefixSelects(inClass, pattern, stream, Past(stream, cursor), |stream|); }
    }
  }

  // ---------------------------------------------------------------- interleaved polls, emits and (un)subscribes

  /** One reader inside `_deliver_one`: the cursor and pattern it claimed, its place in the file, the last id it
      would store, how many events it has delivered, and whether it has already stored its cursor. */
  datatype Reader = Reader(from: string, pattern: string, pos: nat, started: bool, last: string, count: nat, stored: bool)

  datatype Terms = Terms(pattern: string, start: string)

  /** `readers.Keys` is the polling sentinel; `terms` and `received` record, for every subscription there ever
      was, what it asked for and what its callback has been given. */
  datatype World = World(
    stream: seq<Event>, subs: map<string, Sub>, readers: map<string, Reader>,
    terms: map<string, Terms>, received: map<string, seq<Event>>)

  datatype Step =
    | Emit(e: Event)
    | Subscribe(id: string, t: Terms)
    | Unsubscribe(id: string)
    | Claim(id: string)
    | Read(id: string)
    | Store(id: string)
    | Release(id: string)

  datatype Rules = Rules(inClass: (string, char) -> bool, cap: nat)

  /** Does the pattern's path stop here because the cap is reached? The replay drops an event of another type
      before the loop sees it, so the fast path looks at the cap only at a match. */
  predicate CapStops(rules: Rules, r: Reader, e: Event) {
    r.started && r.count >= rules.cap && (IsExact(r.pattern) ==> e.kind == r.pattern)
  }

  predicate LoopEnds(rules: Rules, w: World, r: Reader) {
    r.pos >= |w.stream| || CapStops(rules, r, w.stream[r.pos])
  }

  predicate Enabled(rules: Rules, w: World, step: Step) {
    match step
    case Emit(e) => UniqueIds(w.stream + [e])
    case Subscribe(id, t) => id !in w.terms
    case Unsubscribe(id) => true
    case Claim(id) => id in w.subs && id !in w.readers
    case Read(id) =>
      id in w.readers && !w.readers[id].stored && !LoopEnds(rules, w, w.readers[id]) && id in w.received
    case Store(id) => id in w.readers && !w.readers[id].stored && LoopEnds(rules, w, w.readers[id])
    case Release(id) => id in w.readers && w.readers[id].stored
  }

  /** One line of the file: the reader afterwards, and whether the callback fires. */
  function Advance(rules: Rules, r: Reader, e: Event): (Reader, bool) {
    if !r.started then (r.(pos := r.pos + 1, started := e.id == r.from), false)
    else if IsExact(r.pattern) && e.kind != r.pattern then (r.(pos := r.pos + 1), false)
    else if !IsExact(r.pattern) && !Glob(rules.inClass, r.pattern, e.kind) then (r.(pos := r.pos + 1, last := e.id), false)
    else (r.(pos := r.pos + 1, last := e.id, count := r.count + 1), true)
  }

  function After(rules: Rules, w: World, step: Step): World
    requires Enabled(rules, w, step)
  {
    match step
    case Emit(e) => w.(stream := w.stream + [e])
    case Subscribe(id, t) =>
      w.(subs := w.subs[id := Sub(t.pattern, t.start)], terms := w.terms[id := t], received := w.received[id := []])
    case Unsubscribe(id) => w.(subs := w.subs - {id})
    case Claim(id) =>
      var s := w.subs[id];
      w.(readers := w.readers[id := Reader(s.cursor, s.pattern, 0, s.cursor == "", s.cursor, 0, false)])
    case Read(id) =>
      var e := w.stream[w.readers[id].pos];
      var (r, fired) := Advance(rules, w.readers[id], e);
      w.(readers := w.readers[id := r], received := if fired then w.received[id := w.received[id] + [e]] else w.received)
    case Store(id) =>
      var r := w.readers[id];
      w.(readers := w.readers[id := r.(stored := true)],
         subs := if r.last != r.from && id in w.subs then w.subs[id := w.subs[id].(cursor := r.last)] else w.subs)
    case Release(id) => w.(readers := w.readers - {id})
  }

  /** Everything up to `at` that matches has been received, and nothing else. */
  predicate CaughtUp(rules: Rules, stream: seq<Event>, t: Terms, at: string, got: seq<Event>) {
    && (at == t.start || Found(stream, at)) && (at == t.start || Found(stream, t.start))
    && Past(stream, t.start) <= Past(stream, at)
    && got == Matching(rules.inClass, t.pattern, stream, Past(stream, t.start), Past(stream, at))
  }

  predicate ReaderOk(rules: Rules, stream: seq<Event>, t: Terms, r: Reader) {
    && r.pattern == t.pattern && r.pos <= |stream|
    && (!r.started ==> r.last == r.from != "" && r.count == 0 && forall i :: 0 <= i < r.pos ==> stream[i].id != r.from)
    && (r.started ==> && Found(stream, r.last) && Past(stream, r.last) <= r.pos
                      && Matching(rules.inClass, t.pattern, stream, Past(stream, r.last), r.pos) == [])
  }

  /** The in-order prefix of the matching events after the start point. */
  predicate IsPrefix(rules: Rules, stream: seq<Event>, t: Terms, got: seq<Event>) {
    got <= MatchingFrom(rules.inClass, t.pattern, stream, Past(stream, t.start))
  }

  predicate SubOk(rules: Rules, w: World, id: string)
    requires id in w.terms
  {
    && id in w.received
    && IsPrefix(rules, w.stream, w.terms[id], w.received[id])
    && (id in w.subs ==> w.subs[id].pattern == w.terms[id].pattern)
    && (id in w.readers ==> && ReaderOk(rules, w.stream, w.terms[id], w.readers[id])
                            && CaughtUp(rules, w.stream, w.terms[id], w.readers[id].last, w.received[id])
                            && (w.readers[id].stored && id in w.subs ==> w.subs[id].cursor == w.readers[id].last)
                            && (!w.readers[id].stored && id in w.subs ==> w.subs[id].cursor == w.readers[id].from))
    && (id in w.subs && id !in w.readers ==> CaughtUp(rules, w.stream, w.terms[id], w.subs[id].cursor, w.received[id]))
  }

  ghost predicate Inv(rules: Rules, w: World) {
    && UniqueIds(w.stream)
    && w.subs.Keys <= w.terms.Keys && w.readers.Keys <= w.terms.Keys
    && forall id {:trigger SubOk(rules, w, id)} :: id in w.terms ==> SubOk(rules, w, id)
  }

  /** The delivery loop of one poll over the lines present; `last` is the cursor it leaves. */
  method DeliveryLoop(inClass: (string, char) -> bool, cap: nat, stream: seq<Event>, cursor: string, pattern: string)
    returns (delivered: seq<Event>, last: string)
    requires UniqueIds(stream) && cap >= 1
    ensures var due := MatchingFrom(inClass, pattern, stream, Past(stream, cursor));
            && delivered == due[..Min(cap, |due|)]
            && MatchingFrom(inClass, pattern, stream, Past(stream, last)) == due[Min(cap, |due|)..]
  {
    var exact := IsExact(pattern);
    var first := Past(stream, cursor);
    var pos := first;
    delivered, last := [], cursor;
    ghost var at := first;   // where the next poll would resume
    while pos < |stream|
      invariant first <= at <= pos <= |stream| && at == Past(stream, last)
      invariant Collected(inClass, pattern, stream, first, at, pos, delivered) && |delivered| <= cap
    {
      var event := stream[pos];
      if exact {
        ExactPatternIsEquality(inClass, pattern, event.kind);
      }
      CollectNext(inClass, pattern, stream, first, at, pos, delivered);
      if exact && event.kind != pattern {
        pos := pos + 1;   // filtered out inside the replay, before the cap is looked at
      } else if |delivered| >= cap {
        break;
      } else {
        if exact || Glob(inClass, pattern, event.kind) {
          delivered := delivered + [event];
        }
        last := event.id;
        PastAt(stream, pos);
        pos := pos + 1;
        at := pos;
      }
    }
    LoopResult(inClass, pattern, stream, first, at, pos, delivered, cap);
  }

  lemma LoopResult(inClass: (string, char) -> bool, pattern: string, stream: seq<Event>, first: nat, at: nat, pos: nat, got: seq<Event>, cap: nat)
    requires first <= at <= pos <= |stream| && Collected(inClass, pattern, stream, first, at, pos, got)
    requires pos == |stream| || |got| == cap
    requires |got| <= cap
    ensures var due := MatchingFrom(inClass, pattern, stream, first);
            && got == due[..Min(cap, |due|)] && MatchingFrom(inClass, pattern, stream, at) == due[Min(cap, |due|)..]
  {
    ResumePoint(inClass, pattern, stream, first, at, pos);
  }

  /** What the loop has delivered so far, and that nothing was skipped since the place where a poll would resume. */
  predicate Collected(inClass: (string, char) -> bool, pattern: string, stream: seq<Event>, first: nat, at: nat, pos: nat, got: seq<Event>)
    requires first <= at <= pos <= |stream|
  {
    got == Matching(inClass, pattern, stream, first, pos) && Matching(inClass, pattern, stream, at, pos) == []
  }

  lemma CollectNext(inClass: (string, char) -> bool, pattern: string, stream: seq<Event>, first: nat, at: nat, pos: nat, got: seq<Event>)
    requires first <= at <= pos < |stream| && Collected(inClass, pattern, stream, first, at, pos, got)
    ensures !Glob(inClass, pattern, stream[pos].kind) ==> Collected(inClass, pattern, stream, first, at, pos + 1, got)
    ensures Collected(inClass, pattern, stream, first, pos + 1, pos + 1,
                      if Glob(inClass, pattern, stream[pos].kind) then got + [stream[pos]] else got)
  {
  }

  lemma ResumePoint(inClass: (string, char) -> bool, pattern: string, stream: seq<Event>, first: nat, at: nat, pos: nat)
    requires first <= at <= pos <= |stream| && Matching(inClass, pattern, stream, at, pos) == []
    ensures var due := MatchingFrom(inClass, pattern, stream, first);
            var done := Matching(inClass, pattern, stream, first, pos);
            && |done| <= |due| && done == due[..|done|]
            && MatchingFrom(inClass, pattern, stream, at) == due[|done|..]
            && (pos == |stream| ==> done == due)
  {
    MatchingSplit(inClass, pattern, stream, first, pos, |stream|);
    MatchingSplit(inClass, pattern, stream, at, pos, |stream|);
  }

  lemma CaughtUpIsPrefix(rules: Rules, stream: seq<Event>, t: Terms, at: string, got: seq<Event>)
    requires CaughtUp(rules, stream, t, at, got)
    ensures IsPrefix(rules, stream, t, got)
  {
    var i, j := Past(stream, t.start), Past(stream, at);
    MatchingSplit(rules.inClass, t.pattern, stream, i, j, |stream|);
  }

  lemma EmitKeepsPrefix(rules: Rules, stream: seq<Event>, e: Event, t: Terms, got: seq<Event>)
    requires UniqueIds(stream + [e]) && IsPrefix(rules, stream, t, got)
    ensures IsPrefix(rules, stream + [e], t, got)
  {
    var longer := stream + [e];
    PastGrows(stream, e, t.start);
    var i := Past(stream, t.start);
    if Found(stream, t.start) {
      MatchingStays(rules.inClass, t.pattern, stream, e, i, |stream|);
    } else {
      PastMissing(stream, t.start);
    }
  }

  lemma EmitKeepsCaughtUp(rules: Rules, stream: seq<Event>, e: Event, t: Terms, at: string, got: seq<Event>)
    requires UniqueIds(stream + [e]) && CaughtUp(rules, stream, t, at, got)
    ensures CaughtUp(rules, stream + [e], t, at, got)
  {
    var longer := stream + [e];
    PastGrows(stream, e, t.start);
    PastGrows(stream, e, at);
    var i, j := Past(stream, t.start), Past(stream, at);
    if at != t.start {
      MatchingStays(rules.inClass, t.pattern, stream, e, i, j);
    }
  }

  lemma EmitKeepsReader(rules: Rules, stream: seq<Event>, e: Event, t: Terms, r: Reader)
    requires UniqueIds(stream + [e]) && ReaderOk(rules, stream, t, r)
    ensures ReaderOk(rules, stream + [e], t, r)
  {
    var longer := stream + [e];
    assert forall i :: 0 <= i < |stream| ==> longer[i] == stream[i];
    if r.started {
      PastGrows(stream, e, r.last);
      MatchingStays(rules.inClass, t.pattern, stream, e, Past(stream, r.last), r.pos);
    }
  }

  /** What has been received after one more line. */
  function Extended(rules: Rules, t: Terms, got: seq<Event>, e: Event): seq<Event> {
    if Glob(rules.inClass, t.pattern, e.kind) then got + [e] else got
  }

  lemma FoundOnArrival(stream: seq<Event>, pos: nat, from: string)
    requires UniqueIds(stream) && pos < |stream| && stream[pos].id == from
    ensures Found(stream, from) && Past(stream, from) == pos + 1
  {
    PastAt(stream, pos);
  }

  lemma MatchingAdvance(
    inClass: (string, char) -> bool, pattern: string, stream: seq<Event>, i: nat, j: nat, pos: nat, got: seq<Event>)
    requires i <= j <= pos < |stream| && got == Matching(inClass, pattern, stream, i, j)
    requires Matching(inClass, pattern, stream, j, pos) == []
    ensures Collected(inClass, pattern, stream, i, j, pos, got)
  {
    MatchingSplit(inClass, pattern, stream, i, j, pos);
    assert got + [] == got;
  }

  /** A started reader stands after everything it has received, in the sense of the loop above. */
  lemma StartedIsCollected(rules: Rules, stream: seq<Event>, t: Terms, r: Reader, got: seq<Event>)
    requires ReaderOk(rules, stream, t, r) && CaughtUp(rules, stream, t, r.last, got) && r.started && r.pos < |stream|
    ensures Past(stream, t.start) <= Past(stream, r.last) <= r.pos && Found(stream, t.start)
    ensures Collected(rules.inClass, t.pattern, stream, Past(stream, t.start), Past(stream, r.last), r.pos, got)
  {
    StartFound(stream, t.start, r.last);
    MatchingAdvance(rules.inClass, t.pattern, stream, Past(stream, t.start), Past(stream, r.last), r.pos, got);
  }

  /** A started reader's cursor may move to the line it has just read. */
  lemma MoveCursor(rules: Rules, stream: seq<Event>, t: Terms, r: Reader, got: seq<Event>)
    requires UniqueIds(stream) && ReaderOk(rules, stream, t, r) && CaughtUp(rules, stream, t, r.last, got)
    requires r.started && r.pos < |stream|
    ensures Found(stream, stream[r.pos].id) && Past(stream, stream[r.pos].id) == r.pos + 1
    ensures CaughtUp(rules, stream, t, stream[r.pos].id,
                     Extended(rules, t, got, stream[r.pos]))
  {
    FoundOnArrival(stream, r.pos, stream[r.pos].id);
    CollectedNext(rules, stream, t, r, got);
    CollectedIsCaughtUp(rules, stream, t, stream[r.pos].id, r.pos + 1,
                        Extended(rules, t, got, stream[r.pos]));
  }

  lemma CollectedNext(rules: Rules, stream: seq<Event>, t: Terms, r: Reader, got: seq<Event>)
    requires ReaderOk(rules, stream, t, r) && CaughtUp(rules, stream, t, r.last, got) && r.started && r.pos < |stream|
    ensures Past(stream, t.start) <= r.pos && Found(stream, t.start)
    ensures Collected(rules.inClass, t.pattern, stream, Past(stream, t.start), r.pos + 1, r.pos + 1,
                      Extended(rules, t, got, stream[r.pos]))
  {
    StartedIsCollected(rules, stream, t, r, got);
    CollectNext(rules.inClass, t.pattern, stream, Past(stream, t.start), Past(stream, r.last), r.pos, got);
  }

  lemma CollectedIsCaughtUp(rules: Rules, stream: seq<Event>, t: Terms, id: string, pos: nat, got: seq<Event>)
    requires Found(stream, id) && Found(stream, t.start) && Past(stream, t.start) <= pos == Past(stream, id) <= |stream|
    requires Collected(rules.inClass, t.pattern, stream, Past(stream, t.start), pos, pos, got)
    ensures CaughtUp(rules, stream, t, id, got)
  {
  }

  lemma StartFound(stream: seq<Event>, start: string, at: string)
    requires Found(stream, at) && (at == start || Found(stream, start))
    ensures Found(stream, start)
  {
  }

  lemma ReadSkips(rules: Rules, stream: seq<Event>, t: Terms, r: Reader)
    requires UniqueIds(stream) && ReaderOk(rules, stream, t, r) && !r.started && r.pos < |stream|
    ensures ReaderOk(rules, stream, t, Advance(rules, r, stream[r.pos]).0)
  {
    if stream[r.pos].id == r.from {
      FoundOnArrival(stream, r.pos, r.from);
    }
  }

  lemma ReadPastOtherType(rules: Rules, stream: seq<Event>, t: Terms, r: Reader, got: seq<Event>)
    requires ReaderOk(rules, stream, t, r) && CaughtUp(rules, stream, t, r.last, got)
    requires r.started && r.pos < |stream| && !Glob(rules.inClass, t.pattern, stream[r.pos].kind)
    ensures ReaderOk(rules, stream, t, r.(pos := r.pos + 1))
  {
    StartedIsCollected(rules, stream, t, r, got);
    CollectNext(rules.inClass, t.pattern, stream, Past(stream, t.start), Past(stream, r.last), r.pos, got);
  }

  /** A reader whose cursor is the line just read is fine, whatever its count. */
  lemma CursorHere(rules: Rules, stream: seq<Event>, t: Terms, r: Reader)
    requires r.started && r.pattern == t.pattern && r.pos <= |stream| && Found(stream, r.last) && Past(stream, r.last) == r.pos
    ensures ReaderOk(rules, stream, t, r)
  {
  }

  /** The two ways of deciding a match agree. */
  lemma FiresIff(rules: Rules, r: Reader, e: Event)
    requires r.started
    ensures Advance(rules, r, e).1 <==> Glob(rules.inClass, r.pattern, e.kind)
    ensures Advance(rules, r, e).0 ==
            if IsExact(r.pattern) && e.kind != r.pattern then r.(pos := r.pos + 1)
            else r.(pos := r.pos + 1, last := e.id, count := r.count + if Advance(rules, r, e).1 then 1 else 0)
  {
    if IsExact(r.pattern) {
      ExactPatternIsEquality(rules.inClass, r.pattern, e.kind);
    }
  }

  lemma ReadStarted(rules: Rules, stream: seq<Event>, t: Terms, r: Reader, got: seq<Event>)
    requires UniqueIds(stream) && ReaderOk(rules, stream, t, r) && CaughtUp(rules, stream, t, r.last, got)
    requires r.started && r.pos < |stream|
    ensures var (r', fired) := Advance(rules, r, stream[r.pos]);
            && ReaderOk(rules, stream, t, r')
            && CaughtUp(rules, stream, t, r'.last, if fired then got + [stream[r.pos]] else got)
  {
    var e := stream[r.pos];
    FiresIff(rules, r, e);
    if IsExact(r.pattern) && e.kind != r.pattern {
      ExactPatternIsEquality(rules.inClass, r.pattern, e.kind);
      ReadPastOtherType(rules, stream, t, r, got);
    } else {
      MoveCursor(rules, stream, t, r, got);
      CursorHere(rules, stream, t, Advance(rules, r, e).0);
    }
  }

  lemma ReadKeepsSub(rules: Rules, w: World, id: string)
    requires UniqueIds(w.stream) && id in w.terms && SubOk(rules, w, id) && Enabled(rules, w, Read(id))
    ensures SubOk(rules, After(rules, w, Read(id)), id)
  {
    var t, r, got := w.terms[id], w.readers[id], w.received[id];
    var (r', fired) := Advance(rules, r, w.stream[r.pos]);
    if r.started {
      ReadStarted(rules, w.stream, t, r, got);
    } else {
      ReadSkips(rules, w.stream, t, r);
    }
    CaughtUpIsPrefix(rules, w.stream, t, r'.last, if fired then got + [w.stream[r.pos]] else got);
  }

  lemma StepKeepsInv(rules: Rules, w: World, step: Step)
    requires Inv(rules, w) && Enabled(rules, w, step)
    ensures Inv(rules, After(rules, w, step))
  {
    var w' := After(rules, w, step);
    forall id | id in w'.terms ensures SubOk(rules, w', id) {
      assert id in w.terms ==> SubOk(rules, w, id);
      StepKeepsSub(rules, w, step, id);
    }
  }

  lemma StepKeepsSub(rules: Rules, w: World, step: Step, id: string)
    requires UniqueIds(w.stream) && Enabled(rules, w, step) && id in After(rules, w, step).terms
    requires id in w.terms ==> SubOk(rules, w, id)
    requires w.subs.Keys <= w.terms.Keys && w.readers.Keys <= w.terms.Keys
    ensures SubOk(rules, After(rules, w, step), id)
  {
    if step.Emit? {
      EmitKeepsSub(rules, w, step.e, id);
    } else if step.id != id {
      SameEntries(rules, w, After(rules, w, step), id);
    } else if step.Subscribe? {
      NewSub(rules, w, id, step.t);
    } else if step.Claim? {
      ClaimKeepsSub(rules, w, id);
    } else if step.Read? {
      ReadKeepsSub(rules, w, id);
    }
  }

  lemma SameEntries(rules: Rules, w: World, w': World, id: string)
    requires id in w.terms && SubOk(rules, w, id)
    requires w'.stream == w.stream && id in w'.terms && w'.terms[id] == w.terms[id]
    requires id in w'.received && w'.received[id] == w.received[id]
    requires id in w'.subs <==> id in w.subs
    requires id in w.subs ==> w'.subs[id] == w.subs[id]
    requires id in w'.readers <==> id in w.readers
    requires id in w.readers ==> w'.readers[id] == w.readers[id]
    ensures SubOk(rules, w', id)
  {
  }

  lemma NewSub(rules: Rules, w: World, id: string, t: Terms)
    requires Enabled(rules, w, Subscribe(id, t)) && id !in w.readers
    ensures SubOk(rules, After(rules, w, Subscribe(id, t)), id)
  {
    var i := Past(w.stream, t.start);
    assert w.stream[i..i] == [];
  }

  lemma EmitKeepsSub(rules: Rules, w: World, e: Event, id: string)
    requires UniqueIds(w.stream + [e]) && id in w.terms && SubOk(rules, w, id)
    ensures SubOk(rules, w.(stream := w.stream + [e]), id)
  {
    var t := w.terms[id];
    EmitKeepsPrefix(rules, w.stream, e, t, w.received[id]);
    if id in w.readers {
      EmitKeepsReader(rules, w.stream, e, t, w.readers[id]);
      EmitKeepsCaughtUp(rules, w.stream, e, t, w.readers[id].last, w.received[id]);
    } else if id in w.subs {
      EmitKeepsCaughtUp(rules, w.stream, e, t, w.subs[id].cursor, w.received[id]);
    }
  }

  lemma ClaimKeepsSub(rules: Rules, w: World, id: string)
    requires id in w.terms && SubOk(rules, w, id) && Enabled(rules, w, Claim(id))
    ensures SubOk(rules, After(rules, w, Claim(id)), id)
  {
    var cursor := w.subs[id].cursor;
    assert w.stream[0..0] == [];
  }

  // ---------------------------------------------------------------- whole runs

  ghost predicate Run(rules: Rules, worlds: seq<World>, steps: seq<Step>) {
    && |worlds| == |steps| + 1
    && worlds[0] == World([], map[], map[], map[], map[])
    && forall i :: 0 <= i < |steps| ==> Enabled(rules, worlds[i], steps[i]) && worlds[i + 1] == After(rules, worlds[i], steps[i])
  }

  lemma {:induction false} RunKeepsInv(rules: Rules, worlds: seq<World>, steps: seq<Step>, k: nat)
    requires Run(rules, worlds, steps) && k <= |steps|
    ensures Inv(rules, worlds[k])
  {
    if k > 0 {
      RunKeepsInv(rules, worlds, steps, k - 1);
      StepKeepsInv(rules, worlds[k - 1], steps[k - 1]);
    }
  }

  lemma {:induction false} MatchingMembers(inClass: (string, char) -> bool, pattern: string, s: seq<Event>, i: nat, k: nat)
    requires i <= k <= |s|
    ensures forall e :: e in Matching(inClass, pattern, s, i, k) ==> exists m :: i <= m < k && s[m] == e
    decreases k
  {
    if i < k { MatchingMembers(inClass, pattern, s, i, k - 1); }
  }

  lemma {:induction false} MatchingNoDup(inClass: (string, char) -> bool, pattern: string, s: seq<Event>, i: nat, k: nat)
    requires UniqueIds(s) && i <= k <= |s|
    ensures NoDup(Matching(inClass, pattern, s, i, k))
    decreases k
  {
    if i < k {
      MatchingNoDup(inClass, pattern, s, i, k - 1);
      MatchingMembers(inClass, pattern, s, i, k - 1);
      var rest := Matching(inClass, pattern, s, i, k - 1);
      forall e | e in rest ensures e != s[k - 1] {
        var m :| i <= m < k - 1 && s[m] == e;
        assert s[m].id != s[k - 1].id;
      }
      AppendNoDup(rest, s[k - 1]);
    }
  }

  /** However polls, emits, subscribes and unsubscribes interleave, a subscription has received a
      duplicate-free, in-order prefix of the matching events after its start point. */
  lemma ReceivedIsPrefix(rules: Rules, worlds: seq<World>, steps: seq<Step>, k: nat, id: string)
    requires Run(rules, worlds, steps) && k <= |steps| && id in worlds[k].terms
    ensures id in worlds[k].received && NoDup(worlds[k].received[id])
    ensures var w := worlds[k]; var t := w.terms[id];
            w.received[id] <= MatchingFrom(rules.inClass, t.pattern, w.stream, Past(w.stream, t.start))
  {
    RunKeepsInv(rules, worlds, steps, k);
    var w := worlds[k];
    var t := w.terms[id];
    assert SubOk(rules, w, id);
    MatchingNoDup(rules.inClass, t.pattern, w.stream, Past(w.stream, t.start), |w.stream|);
    PrefixNoDup(w.received[id], MatchingFrom(rules.inClass, t.pattern, w.stream, Past(w.stream, t.start)));
  }

  lemma PrefixNoDup(got: seq<Event>, all: seq<Event>)
    requires got <= all && NoDup(all)
    ensures NoDup(got)
  {
    forall i, j | 0 <= i < j < |got| ensures got[i] != got[j] { assert got[i] == all[i] && got[j] == all[j]; }
  }

  ghost predicate WithinCap(rules: Rules, w: World) {
    forall id :: id in w.readers ==> w.readers[id].count <= rules.cap
  }

  lemma StepWithinCap(rules: Rules, w: World, step: Step)
    requires Enabled(rules, w, step) && WithinCap(rules, w)
    ensures WithinCap(rules, After(rules, w, step))
    ensures step.Read? ==>
              var before, after := w.readers[step.id], After(rules, w, step).readers[step.id];
              after.count - before.count == |After(rules, w, step).received[step.id]| - |w.received[step.id]|
  {
  }

  /** No poll delivers more than the cap: a reader's count, which every callback raises by one, stays within it in
      every run. */
  lemma {:induction false} NeverAboveCap(rules: Rules, worlds: seq<World>, steps: seq<Step>, k: nat)
    requires Run(rules, worlds, steps) && k < |worlds|
    ensures WithinCap(rules, worlds[k])
  {
    if k > 0 {
      NeverAboveCap(rules, worlds, steps, k - 1);
      StepWithinCap(rules, worlds[k - 1], steps[k - 1]);
    }
  }

  /** A delivery loop that ends with fewer deliveries than the cap has delivered every matching event
      in the stream at that moment. */
  lemma ShortPollDeliveredEverything(rules: Rules, worlds: seq<World>, steps: seq<Step>, k: nat)
    requires Run(rules, worlds, steps) && k < |steps| && steps[k].Store?
    requires worlds[k].readers[steps[k].id].count < rules.cap
    requires Found(worlds[k].stream, worlds[k].readers[steps[k].id].from)
    ensures var w, id := worlds[k], steps[k].id;
            && id in w.terms && id in w.received
            && w.received[id] == MatchingFrom(rules.inClass, w.terms[id].pattern, w.stream, Past(w.stream, w.terms[id].start))
  {
    RunKeepsInv(rules, worlds, steps, k);
    var w, id := worlds[k], steps[k].id;
    assert SubOk(rules, w, id);
    var t, r := w.terms[id], w.readers[id];
    assert r.pos == |w.stream|;
    assert !r.started ==> !Found(w.stream, r.from);
    ResumePoint(rules.inClass, t.pattern, w.stream, Past(w.stream, t.start), Past(w.stream, r.last), r.pos);
    MatchingSplit(rules.inClass, t.pattern, w.stream, Past(w.stream, t.start), Past(w.stream, r.last), r.pos);
  }

  /** A cursor that names no event holds delivery back entirely. */
  lemma UnknownStartDeliversNothing(rules: Rules, worlds: seq<World>, steps: seq<Step>, k: nat, id: string)
    requires Run(rules, worlds, steps) && k <= |steps| && id in worlds[k].terms
    requires !Found(worlds[k].stream, worlds[k].terms[id].start)
    ensures id in worlds[k].received && worlds[k].received[id] == []
  {
    ReceivedIsPrefix(rules, worlds, steps, k, id);
    var w := worlds[k];
    PastMissing(w.stream, w.terms[id].start);
  }
}
