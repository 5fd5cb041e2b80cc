/** Monthly reductions of an agent's ledger (nth_dao/achievement.py) against the all-time statistics
    (nth_dao/agent_ledger.py). */
module Achievements {
  import opened Prelude
  import opened CanonicalEncoding
  import opened IsoTime

  /** A ledger event; an absent data field reads as zero or the empty text. */
  datatype Event = Event(
    seqNo: int, hash: string, timestamp: string, kind: string, tokenCost: int, template: string, category: string,
    direction: string)

  type Counts = map<string, nat>

  /** The additive part of a reduction: the number of events, the counters by name (absent is zero), the
      token cost and the two dictionaries. */
  datatype Report = Report(events: nat, counters: Counts, tokens: int, templates: Counts, categories: Counts)

  const NOTHING := Report(0, map[], 0, map[], map[])

  function Count(m: Counts, k: string): nat {
    if k in m then m[k] else 0
  }

  /** One number of a report: every counter, and every entry of the two dictionaries. */
  datatype Measure = Events | Counter(name: string) | Tokens | Template(id: string) | Category(name: string)

  function Reading(r: Report, m: Measure): int {
    match m
    case Events => r.events
    case Counter(k) => Count(r.counters, k)
    case Tokens => r.tokens
    case Template(k) => Count(r.templates, k)
    case Category(k) => Count(r.categories, k)
  }

  /** The counter an event advances, if any. */
  function CounterOf(e: Event): string {
    if e.kind == "mission_owned" then "missions_owned"
    else if e.kind == "step_complete" then "steps_completed"
    else if e.kind == "step_failed" then "steps_failed"
    else if e.kind == "step_handoff" then
      (if e.direction == "received" then "handoffs_received" else if e.direction == "given" then "handoffs_given" else "")
    else if e.kind == "review_given" then "reviews_given"
    else if e.kind == "review_received" then "reviews_received"
    else if e.kind == "endorsement_given" then "endorsements_given"
    else if e.kind == "endorsement_received" then "endorsements_received"
    else ""
  }

  function TemplateOf(e: Event): string {
    if e.kind == "step_complete" then e.template else ""
  }

  /** Failed steps count towards their category too. */
  function CategoryOf(e: Event): string {
    if e.kind == "step_complete" || e.kind == "step_failed" then e.category else ""
  }

  function CostOf(e: Event): int {
    if e.kind == "step_complete" then e.tokenCost else 0
  }

  function Hit(name: string, k: string): int {
    if k != "" && name == k then 1 else 0
  }

  /** What one event contributes to a number; a missing template or category counts nowhere. */
  function Weight(m: Measure, e: Event): int {
    match m
    case Events => 1
    case Counter(k) => Hit(CounterOf(e), k)
    case Tokens => CostOf(e)
    case Template(k) => Hit(TemplateOf(e), k)
    case Category(k) => Hit(CategoryOf(e), k)
  }

  function Sum(m: Measure, events: seq<Event>): int {
    if events == [] then 0 else Sum(m, events[..|events| - 1]) + Weight(m, events[|events| - 1])
  }

  /** The report shows, in every number, the sum over these events. */
  ghost predicate Shows(r: Report, events: seq<Event>) {
    forall m: Measure :: Reading(r, m) == Sum(m, events)
  }

  lemma SumAppend(m: Measure, events: seq<Event>, e: Event)
    ensures Sum(m, events + [e]) == Sum(m, events) + Weight(m, e)
  {
    assert (events + [e])[..|events|] == events;
  }

  // ---------------------------------------------------------------- order does not matter

  lemma Unsnoc(b: seq<Event>) returns (init: seq<Event>, last: Event)
    requires b != []
    ensures b == init + [last] && |init| < |b|
  {
    init, last := b[..|b| - 1], b[|b| - 1];
  }

  lemma Reassociate(a: seq<Event>, b: seq<Event>, c: seq<Event>)
    ensures a + (b + c) == a + b + c
  {
  }

  lemma {:induction false} SumConcat(m: Measure, a: seq<Event>, b: seq<Event>)
    ensures Sum(m, a + b) == Sum(m, a) + Sum(m, b)
    decreases |b|
  {
    if b == [] {
      assert a + b == a;
    } else {
      var init, last := Unsnoc(b);
      SumConcat(m, a, init);
      SumAppend(m, a + init, last);
      SumAppend(m, init, last);
      Reassociate(a, init, [last]);
    }
  }

  lemma SplitOut(events: seq<Event>, i: nat) returns (a: seq<Event>, c: seq<Event>)
    requires i < |events|
    ensures a == events[..i] && c == events[i + 1..] && events == a + [events[i]] + c
  {
    a, c := events[..i], events[i + 1..];
  }

  lemma TakeOut(m: Measure, events: seq<Event>, i: nat)
    requires i < |events|
    ensures Sum(m, events) == Sum(m, events[..i] + events[i + 1..]) + Weight(m, events[i])
  {
    var a, c := SplitOut(events, i);
    SumConcat(m, a, c);
    SumAppend(m, a, events[i]);
    SumConcat(m, a + [events[i]], c);
  }

  lemma RemoveAt(b: seq<Event>, i: nat)
    requires i < |b|
    ensures multiset(b[..i] + b[i + 1..]) == multiset(b) - multiset{b[i]}
  {
    assert b == b[..i] + ([b[i]] + b[i + 1..]);
  }

  /** What is left of a permutation after removing the last element of the original. */
  lemma RemoveLast(a: seq<Event>, b: seq<Event>) returns (i: nat)
    requires multiset(a) == multiset(b) && a != []
    ensures i < |b| && b[i] == a[|a| - 1] && multiset(a[..|a| - 1]) == multiset(b[..i] + b[i + 1..])
  {
    var n := |a| - 1;
    assert a[n] in multiset(a) && a[n] in b;
    i :| 0 <= i < |b| && b[i] == a[n];
    RemoveAt(a, n);
    RemoveAt(b, i);
    assert a[..n] + a[n + 1..] == a[..n];
  }

  /** The same events in any order give the same numbers. */
  lemma {:induction false} SumPermutes(m: Measure, a: seq<Event>, b: seq<Event>)
    requires multiset(a) == multiset(b)
    ensures Sum(m, a) == Sum(m, b)
    decreases |a|
  {
    if a == [] {
      PermutationElements(a, b);
    } else {
      var i := RemoveLast(a, b);
      SumPermutes(m, a[..|a| - 1], b[..i] + b[i + 1..]);
      TakeOut(m, b, i);
    }
  }

  // ---------------------------------------------------------------- periods

  /** The period an event counts to: the first seven characters; none for a shorter timestamp. */
  function Bucket(timestamp: string): (period: string)
    ensures period <= timestamp && |period| in {0, 7} && (period == "" <==> |timestamp| < 7)
  {
    if |timestamp| < 7 then "" else timestamp[..7]
  }

  ghost predicate WellFormed(e: Event) {
    exists t: Stamp :: IsoTime.Valid(t) && e.timestamp == Iso(t)
  }

  /** Events that pass the string-bound test of the period. */
  function Within(events: seq<Event>, year: nat, month: nat): seq<Event> {
    if events == [] then []
    else
      var rest, e := Within(events[..|events| - 1], year, month), events[|events| - 1];
      if InBounds(e.timestamp, year, month) then rest + [e] else rest
  }

  /** The events a period text selects, or the ValueError. */
  function Selected(events: seq<Event>, period: string): Result<seq<Event>> {
    match ParsePeriod(period)
    case Err(reason) => Err(reason)
    case Ok((year, month)) => Ok(Within(events, year, month))
  }

  predicate Ascending(periods: seq<string>) {
    forall i, j :: 0 <= i < j < |periods| ==> Less(periods[i], periods[j])
  }

  /** The periods with at least one event, in order. */
  ghost predicate Lists(periods: seq<string>, events: seq<Event>) {
    && Ascending(periods)
    && forall p :: p in periods <==> p != "" && exists e :: e in events && Bucket(e.timestamp) == p
  }

  lemma AscendingNoDup(periods: seq<string>)
    requires Ascending(periods)
    ensures NoDup(periods)
  {
    forall i, j | 0 <= i < j < |periods| ensures periods[i] != periods[j] {
      LessTotal(periods[i], periods[j]);
    }
  }

  /** A well-formed event passes the string-bound test of exactly one period: its prefix. */
  lemma OnePeriod(e: Event, period: string)
    requires WellFormed(e)
    ensures ParsePeriod(Bucket(e.timestamp)).Ok?
    ensures ParsePeriod(period).Ok? && (exists t :: IsoTime.Valid(t) && Bucket(Iso(t)) == period) ==>
              (InBounds(e.timestamp, ParsePeriod(period).value.0, ParsePeriod(period).value.1) <==> Bucket(e.timestamp) == period)
  {
    var t: Stamp :| IsoTime.Valid(t) && e.timestamp == Iso(t);
    PeriodPrefix(t);
    PeriodParses(t.year, t.month);
    if ParsePeriod(period).Ok? && exists u :: IsoTime.Valid(u) && Bucket(Iso(u)) == period {
      var u: Stamp :| IsoTime.Valid(u) && Bucket(Iso(u)) == period;
      PeriodPrefix(u);
      PeriodParses(u.year, u.month);
      BoundsArePrefix(t, u.year, u.month);
    }
  }

  // ---------------------------------------------------------------- conservation

  /** A period name that some well-formed timestamp has. */
  ghost predicate Regular(period: string) {
    exists t: Stamp :: IsoTime.Valid(t) && Bucket(Iso(t)) == period
  }

  lemma RegularParses(period: string)
    requires Regular(period)
    ensures ParsePeriod(period).Ok?
  {
    var t: Stamp :| IsoTime.Valid(t) && Bucket(Iso(t)) == period;
    PeriodPrefix(t);
    PeriodParses(t.year, t.month);
  }

  ghost predicate AllRegular(periods: seq<string>) {
    forall i :: 0 <= i < |periods| ==> Regular(periods[i])
  }

  function InPeriod(m: Measure, events: seq<Event>, period: string): int {
    match Selected(events, period) case Ok(chosen) => Sum(m, chosen) case Err(_) => 0
  }

  function SumOver(m: Measure, periods: seq<string>, events: seq<Event>): int {
    if periods == [] then 0
    else SumOver(m, periods[..|periods| - 1], events) + InPeriod(m, events, periods[|periods| - 1])
  }

  lemma InPeriodAppend(m: Measure, events: seq<Event>, e: Event, period: string)
    requires WellFormed(e) && Regular(period)
    ensures InPeriod(m, events + [e], period) ==
            InPeriod(m, events, period) + if Bucket(e.timestamp) == period then Weight(m, e) else 0
  {
    RegularParses(period);
    OnePeriod(e, period);
    var (year, month) := ParsePeriod(period).value;
    assert (events + [e])[..|events|] == events;
    SumAppend(m, Within(events, year, month), e);
  }

  /** One more event changes the sum over the periods by its weight, if its period is among them. */
  lemma {:induction false} SumOverAppend(m: Measure, periods: seq<string>, events: seq<Event>, e: Event)
    requires WellFormed(e) && AllRegular(periods) && NoDup(periods)
    ensures SumOver(m, periods, events + [e]) ==
            SumOver(m, periods, events) + if Bucket(e.timestamp) in periods then Weight(m, e) else 0
  {
    if periods != [] {
      var n := |periods| - 1;
      SumOverAppend(m, periods[..n], events, e);
      assert Regular(periods[n]);
      InPeriodAppend(m, events, e, periods[n]);
      LastIsNew(periods, Bucket(e.timestamp));
    }
  }

  lemma LastIsNew(periods: seq<string>, p: string)
    requires periods != [] && NoDup(periods)
    ensures var n := |periods| - 1;
            (p in periods <==> p in periods[..n] || p == periods[n]) && !(p in periods[..n] && p == periods[n])
  {
    var n := |periods| - 1;
    assert periods == periods[..n] + [periods[n]];
    AppendNoDup(periods[..n], periods[n]);
  }

  lemma {:induction false} SumOfNothing(m: Measure, periods: seq<string>)
    ensures SumOver(m, periods, []) == 0
  {
    if periods != [] { SumOfNothing(m, periods[..|periods| - 1]); }
  }

  lemma {:induction false} SumIsTotal(m: Measure, periods: seq<string>, events: seq<Event>)
    requires AllRegular(periods) && NoDup(periods)
    requires forall e :: e in events ==> WellFormed(e) && Bucket(e.timestamp) in periods
    ensures SumOver(m, periods, events) == Sum(m, events)
  {
    if events == [] {
      SumOfNothing(m, periods);
    } else {
      var n := |events| - 1;
      assert events == events[..n] + [events[n]];
      SumIsTotal(m, periods, events[..n]);
      SumOverAppend(m, periods, events[..n], events[n]);
    }
  }

  lemma WellFormedBucket(e: Event)
    requires WellFormed(e)
    ensures |Bucket(e.timestamp)| == 7 && Regular(Bucket(e.timestamp))
  {
    var t: Stamp :| IsoTime.Valid(t) && e.timestamp == Iso(t);
    PeriodPrefix(t);
  }

  lemma ListedAreRegular(periods: seq<string>, events: seq<Event>)
    requires Lists(periods, events) && forall e :: e in events ==> WellFormed(e)
    ensures NoDup(periods) && AllRegular(periods)
    ensures forall e :: e in events ==> Bucket(e.timestamp) in periods
    ensures forall i :: 0 <= i < |periods| ==> Selected(events, periods[i]).Ok?
  {
    AscendingNoDup(periods);
    forall e | e in events ensures Bucket(e.timestamp) in periods { WellFormedBucket(e); }
    forall i | 0 <= i < |periods| ensures Regular(periods[i]) && Selected(events, periods[i]).Ok? {
      var p := periods[i];
      assert p in periods;
      var e :| e in events && Bucket(e.timestamp) == p;
      WellFormedBucket(e);
      RegularParses(p);
    }
  }

  function AddUp(m: Measure, reports: seq<Report>): int {
    if reports == [] then 0 else AddUp(m, reports[..|reports| - 1]) + Reading(reports[|reports| - 1], m)
  }

  lemma {:induction false} AddUpIsSumOver(m: Measure, periods: seq<string>, events: seq<Event>, reports: seq<Report>)
    requires |reports| == |periods|
    requires forall i :: 0 <= i < |periods| ==> Selected(events, periods[i]).Ok? && Shows(reports[i], Selected(events, periods[i]).value)
    ensures AddUp(m, reports) == SumOver(m, periods, events)
  {
    if periods != [] {
      var n := |periods| - 1;
      AddUpIsSumOver(m, periods[..n], events, reports[..n]);
      assert Shows(reports[n], Selected(events, periods[n]).value);
    }
  }

  /** Monthly reduction conserves the ledger: over the listed periods every counter, the token cost and each
      template's and category's count add up to the all-time statistics, whatever the event order. */
  lemma PeriodsConserveLedger(m: Measure, periods: seq<string>, events: seq<Event>, reports: seq<Report>, stats: Report, ledger: seq<Event>)
    requires Lists(periods, events) && (forall e :: e in events ==> WellFormed(e)) && |reports| == |periods|
    requires forall i :: 0 <= i < |periods| && Selected(events, periods[i]).Ok? ==> Shows(reports[i], Selected(events, periods[i]).value)
    requires multiset(ledger) == multiset(events) && Shows(stats, ledger)
    ensures AddUp(m, reports) == Reading(stats, m)
  {
    ListedAreRegular(periods, events);
    SumIsTotal(m, periods, events);
    AddUpIsSumOver(m, periods, events, reports);
    SumPermutes(m, ledger, events);
  }

  // ---------------------------------------------------------------- the code's loops

  function Bump(m: Counts, k: string): Counts {
    if k == "" then m else m[k := Count(m, k) + 1]
  }

  /** The loop shared by the monthly and the all-time reduction. */
  method Reduce(events: seq<Event>) returns (r: Report)
    ensures Shows(r, events)
  {
    r := NOTHING;
    for i := 0 to |events|
      invariant Shows(r, events[..i])
    {
      ghost var before := r;
      r := Counted(r, events[i]);
      ShowsNext(before, events[..i], events[i], r);
      assert events[..i + 1] == events[..i] + [events[i]];
    }
    assert events[..|events|] == events;
  }

  lemma ShowsNext(before: Report, events: seq<Event>, e: Event, r: Report)
    requires Shows(before, events) && forall m: Measure :: Reading(r, m) == Reading(before, m) + Weight(m, e)
    ensures Shows(r, events + [e])
  {
    forall m: Measure ensures Reading(r, m) == Sum(m, events + [e]) { SumAppend(m, events, e); }
  }

  method Counted(before: Report, e: Event) returns (r: Report)
    ensures forall m: Measure :: Reading(r, m) == Reading(before, m) + Weight(m, e)
  {
    var counters, tokens, templates, categories := before.counters, before.tokens, before.templates, before.categories;
    if e.kind == "mission_owned" {
      counters := Bump(counters, "missions_owned");
    } else if e.kind == "step_complete" {
      counters := Bump(counters, "steps_completed");
      tokens := tokens + e.tokenCost;
      templates := Bump(templates, e.template);
      categories := Bump(categories, e.category);
    } else if e.kind == "step_failed" {
      counters := Bump(counters, "steps_failed");
      categories := Bump(categories, e.category);
    } else if e.kind == "step_handoff" {
      if e.direction == "received" {
        counters := Bump(counters, "handoffs_received");
      } else if e.direction == "given" {
        counters := Bump(counters, "handoffs_given");
      }
    } else if e.kind == "review_given" {
      counters := Bump(counters, "reviews_given");
    } else if e.kind == "review_received" {
      counters := Bump(counters, "reviews_received");
    } else if e.kind == "endorsement_given" {
      counters := Bump(counters, "endorsements_given");
    } else if e.kind == "endorsement_received" {
      counters := Bump(counters, "endorsements_received");
    }
    r := Report(before.events + 1, counters, tokens, templates, categories);
    CountedReads(before, e, r);
  }

  lemma CountedReads(before: Report, e: Event, r: Report)
    requires r == Report(before.events + 1, Bump(before.counters, CounterOf(e)), before.tokens + CostOf(e),
                         Bump(before.templates, TemplateOf(e)), Bump(before.categories, CategoryOf(e)))
    ensures forall m: Measure :: Reading(r, m) == Reading(before, m) + Weight(m, e)
  {
    forall m: Measure ensures Reading(r, m) == Reading(before, m) + Weight(m, e) {
      match m
      case Counter(k) => BumpReads(before.counters, CounterOf(e), k);
      case Template(k) => BumpReads(before.templates, TemplateOf(e), k);
      case Category(k) => BumpReads(before.categories, CategoryOf(e), k);
      case _ =>
    }
  }

  lemma BumpReads(m: Counts, name: string, k: string)
    ensures Count(Bump(m, name), k) == Count(m, k) + Hit(name, k)
  {
  }

  function Attempts(r: Report): nat {
    Count(r.counters, "steps_completed") + Count(r.counters, "steps_failed")
  }

  /** The share of attempted steps that were completed; zero when none was attempted. */
  function SuccessRate(r: Report): (rate: real)
    ensures 0.0 <= rate <= 1.0
    ensures var done, failed := Count(r.counters, "steps_completed"), Count(r.counters, "steps_failed");
            if done + failed == 0 then rate == 0.0 else rate * (done + failed) as real == done as real
  {
    var done, all := Count(r.counters, "steps_completed") as real, Attempts(r) as real;
    if Attempts(r) == 0 then 0.0 else (ShareBounds(done, all); done / all)
  }

  lemma ShareBounds(done: real, all: real)
    requires 0.0 <= done <= all && all > 0.0
    ensures 0.0 <= done / all <= 1.0 && done / all * all == done
  {
  }

  /** A monthly credential's subject: the report, the success rate and the range of ledger events it covers. */
  datatype Subject = Subject(report: Report, rate: real, seqStart: int, seqEnd: int, hashStart: string, hashEnd: string)

  /** Refused exactly when the period text is; otherwise about the selected events, first to last. */
  method ReducePeriod(events: seq<Event>, period: string) returns (r: Result<Subject>)
    ensures r.Ok? <==> Selected(events, period).Ok?
    ensures r.Ok? ==> var chosen := Selected(events, period).value;
                      && Shows(r.value.report, chosen) && r.value.rate == SuccessRate(r.value.report)
                      && Covers(r.value, chosen)
  {
    var bounds := ParsePeriod(period);
    if bounds.Err? {
      return Err(bounds.reason);
    }
    var chosen := Within(events, bounds.value.0, bounds.value.1);
    var report := Reduce(chosen);
    if chosen == [] {
      return Ok(Subject(report, SuccessRate(report), 0, 0, "", ""));
    }
    var first, last := chosen[0], chosen[|chosen| - 1];
    return Ok(Subject(report, SuccessRate(report), first.seqNo, last.seqNo, first.hash, last.hash));
  }

  predicate Covers(s: Subject, chosen: seq<Event>) {
    if chosen == [] then s.seqStart == 0 && s.seqEnd == 0 && s.hashStart == "" && s.hashEnd == ""
    else
      var first, last := chosen[0], chosen[|chosen| - 1];
      s.seqStart == first.seqNo && s.seqEnd == last.seqNo && s.hashStart == first.hash && s.hashEnd == last.hash
  }

  /** The all-time statistics. */
  datatype Stats = Stats(report: Report, rate: real, periodStart: string, periodEnd: string)

  method ComputeStats(events: seq<Event>) returns (s: Stats)
    ensures Shows(s.report, events) && s.rate == SuccessRate(s.report)
    ensures if events == [] then s.periodStart == "" && s.periodEnd == ""
            else s.periodStart == events[0].timestamp && s.periodEnd == events[|events| - 1].timestamp
  {
    var report := Reduce(events);
    s := if events == [] then Stats(report, SuccessRate(report), "", "")
         else Stats(report, SuccessRate(report), events[0].timestamp, events[|events| - 1].timestamp);
  }

  // ---------------------------------------------------------------- what the ledger range pins

  /** Numbered from 1, and stamped in time order. */
  predicate InSequence(events: seq<Event>) {
    && (forall i :: 0 <= i < |events| ==> events[i].seqNo == i + 1)
    && forall i, j :: 0 <= i < j < |events| ==> AtMost(events[i].timestamp, events[j].timestamp)
  }

  lemma AtMostTransitive(a: string, b: string, c: string)
    requires AtMost(a, b) && AtMost(b, c)
    ensures AtMost(a, c)
  {
    if a != b && b != c { LessTransitive(a, b, c); }
  }

  predicate InRange(timestamp: string, lo: string, hi: string) {
    AtMost(lo, timestamp) && AtMost(timestamp, hi)
  }

  /** Between two timestamps in range everything is. */
  lemma RangeIsConvex(a: string, b: string, c: string, lo: string, hi: string)
    requires InRange(a, lo, hi) && InRange(c, lo, hi) && AtMost(a, b) && AtMost(b, c)
    ensures InRange(b, lo, hi)
  {
    AtMostTransitive(lo, a, b);
    AtMostTransitive(b, c, hi);
  }

  /** The events at `a` up to `b` are those in range. */
  ghost predicate IsRun(events: seq<Event>, lo: string, hi: string, a: nat, b: nat) {
    a <= b <= |events| && forall i :: 0 <= i < |events| ==> (InRange(events[i].timestamp, lo, hi) <==> a <= i < b)
  }

  lemma InSequenceInit(events: seq<Event>)
    requires InSequence(events) && events != []
    ensures InSequence(events[..|events| - 1])
  {
  }

  lemma {:induction false} RangeIsRun(events: seq<Event>, lo: string, hi: string) returns (a: nat, b: nat)
    requires InSequence(events)
    ensures IsRun(events, lo, hi, a, b)
  {
    if events == [] {
      a, b := 0, 0;
    } else {
      InSequenceInit(events);
      a, b := RangeIsRun(events[..|events| - 1], lo, hi);
      a, b := RunNext(events, lo, hi, a, b);
    }
  }

  lemma RunNext(events: seq<Event>, lo: string, hi: string, a: nat, b: nat) returns (a': nat, b': nat)
    requires InSequence(events) && events != [] && IsRun(events[..|events| - 1], lo, hi, a, b)
    ensures IsRun(events, lo, hi, a', b')
  {
    var n := |events| - 1;
    var init := events[..n];
    assert forall i :: 0 <= i < n ==> init[i] == events[i];
    a', b' := a, b;
    if InRange(events[n].timestamp, lo, hi) {
      a', b' := if a < b then a else n, n + 1;
      if a < b < n {
        assert InRange(init[b - 1].timestamp, lo, hi) && !InRange(init[b].timestamp, lo, hi);
        RangeIsConvex(events[b - 1].timestamp, events[b].timestamp, events[n].timestamp, lo, hi);
      }
    }
  }

  function SelectRange(events: seq<Event>, lo: string, hi: string): seq<Event> {
    if events == [] then []
    else
      var rest, e := SelectRange(events[..|events| - 1], lo, hi), events[|events| - 1];
      if InRange(e.timestamp, lo, hi) then rest + [e] else rest
  }

  lemma {:induction false} WithinIsRange(events: seq<Event>, year: nat, month: nat)
    ensures Within(events, year, month) == SelectRange(events, Iso(First(year, month)), Iso(Last(year, month)))
  {
    if events != [] { WithinIsRange(events[..|events| - 1], year, month); }
  }

  lemma {:induction false} SelectRun(events: seq<Event>, lo: string, hi: string, a: nat, b: nat)
    requires IsRun(events, lo, hi, a, b)
    ensures SelectRange(events, lo, hi) == events[a..b]
  {
    if events != [] {
      var n := |events| - 1;
      var a', b' := if a == n + 1 then n else a, if b == n + 1 then n else b;
      assert IsRun(events[..n], lo, hi, a', b');
      SelectRun(events[..n], lo, hi, a', b');
      SliceSnoc(events, a, b);
    }
  }

  lemma SliceSnoc(events: seq<Event>, a: nat, b: nat)
    requires events != [] && a <= b <= |events|
    ensures var n := |events| - 1;
            if b <= n then events[a..b] == events[..n][a..b]
            else if a <= n then events[a..b] == events[..n][a..n] + [events[n]]
            else events[a..b] == [] && events[..n][n..n] == []
  {
  }

  /** The events of a month are one run of the ledger. */
  lemma WithinIsSlice(events: seq<Event>, year: nat, month: nat) returns (a: nat, b: nat)
    requires InSequence(events)
    ensures a <= b <= |events| && Within(events, year, month) == events[a..b]
  {
    WithinIsRange(events, year, month);
    a, b := RangeIsRun(events, Iso(First(year, month)), Iso(Last(year, month)));
    SelectRun(events, Iso(First(year, month)), Iso(Last(year, month)), a, b);
  }

  lemma SliceEnds(events: seq<Event>, a: nat, b: nat, s: Subject)
    requires InSequence(events) && a < b <= |events| && Covers(s, events[a..b])
    ensures s.seqStart == a + 1 && s.seqEnd == b
  {
    assert events[a..b][0] == events[a] && events[a..b][b - a - 1] == events[b - 1];
  }

  /** In such a ledger a credential's range pins exactly its events: as many as the numbers span, and every event
      numbered in between. */
  lemma RangePinsEvents(events: seq<Event>, year: nat, month: nat, s: Subject)
    requires InSequence(events) && Within(events, year, month) != [] && Covers(s, Within(events, year, month))
    ensures 1 <= s.seqStart <= s.seqEnd <= |events|
    ensures Within(events, year, month) == events[s.seqStart - 1..s.seqEnd]
    ensures |Within(events, year, month)| == s.seqEnd - s.seqStart + 1
  {
    var a, b := WithinIsSlice(events, year, month);
    SliceEnds(events, a, b, s);
  }

  function Inserted(periods: seq<string>, p: string): seq<string> {
    if periods == [] then [p]
    else
      var init, last := periods[..|periods| - 1], periods[|periods| - 1];
      if last == p then periods else if Less(last, p) then periods + [p] else Inserted(init, p) + [last]
  }

  lemma AscendingAppend(init: seq<string>, last: string)
    requires Ascending(init) && forall i :: 0 <= i < |init| ==> Less(init[i], last)
    ensures Ascending(init + [last])
  {
  }

  lemma AscendingInit(init: seq<string>, last: string)
    requires Ascending(init + [last])
    ensures Ascending(init)
    ensures forall q :: q in init ==> Less(q, last)
  {
    var all := init + [last];
    forall i, j | 0 <= i < j < |init| ensures Less(init[i], init[j]) { assert Less(all[i], all[j]); }
    forall q | q in init ensures Less(q, last) {
      var i :| 0 <= i < |init| && init[i] == q;
      assert Less(all[i], all[|init|]);
    }
  }

  lemma {:induction false} InsertedAscends(periods: seq<string>, p: string)
    requires Ascending(periods)
    ensures Ascending(Inserted(periods, p)) && forall q :: q in Inserted(periods, p) <==> q in periods || q == p
  {
    if periods != [] {
      var init, last := periods[..|periods| - 1], periods[|periods| - 1];
      assert periods == init + [last];
      AscendingInit(init, last);
      LessTotal(last, p);
      if last != p && Less(last, p) {
        forall i | 0 <= i < |periods| ensures Less(periods[i], p) {
          if periods[i] in init { LessTransitive(periods[i], last, p); }
        }
        AscendingAppend(periods, p);
      } else if last != p {
        InsertedAscends(init, p);
        var more := Inserted(init, p);
        forall i | 0 <= i < |more| ensures Less(more[i], last) { assert more[i] in more; }
        AscendingAppend(more, last);
      }
    }
  }

  /** All year-month prefixes, ascending and without duplicates; short timestamps have none. */
  method ListPeriods(events: seq<Event>) returns (periods: seq<string>)
    ensures Lists(periods, events)
  {
    periods := [];
    for i := 0 to |events|
      invariant Lists(periods, events[..i])
    {
      var p := Bucket(events[i].timestamp);
      ghost var before := periods;
      assert events[..i + 1] == events[..i] + [events[i]];
      if p != "" {
        InsertedAscends(periods, p);
        periods := Inserted(periods, p);
      }
      ListsNext(before, events[..i], events[i], periods);
    }
    assert events[..|events|] == events;
  }

  lemma ListsNext(periods: seq<string>, events: seq<Event>, e: Event, after: seq<string>)
    requires Lists(periods, events) && Ascending(after)
    requires forall q :: q in after <==> q in periods || (q == Bucket(e.timestamp) && q != "")
    ensures Lists(after, events + [e])
  {
    forall q ensures q in after <==> q != "" && exists x :: x in events + [e] && Bucket(x.timestamp) == q {
      if q in periods {
        var x :| x in events && Bucket(x.timestamp) == q;
        assert x in events + [e];
      }
      assert e in events + [e];
    }
  }

  // ---------------------------------------------------------------- the cached statistics

  /** The cache file names the ledger contents by a hash taken after the events were read; here the hash
      is the contents. `reading[p]` is how many events process `p` has read. */
  datatype Cached = Cached(report: Report, hash: seq<Event>)

  datatype Ledger = Ledger(events: seq<Event>, cache: Option<Cached>, reading: map<nat, nat>)

  function Append(s: Ledger, e: Event): Ledger {
    s.(events := s.events + [e])
  }

  function Read(s: Ledger, p: nat): Ledger {
    s.(reading := s.reading[p := |s.events|])
  }

  /** Hash the file as it is now and store the report on what was read before. */
  ghost predicate Store(s: Ledger, p: nat, r: Report, s': Ledger) {
    && p in s.reading && s.reading[p] <= |s.events|
    && Shows(r, s.events[..s.reading[p]])
    && s' == s.(cache := Some(Cached(r, s.events)), reading := s.reading - {p})
  }

  /** A later call may trust the cache whenever its hash is the ledger's. */
  ghost predicate Honest(s: Ledger) {
    s.cache.Some? ==> Shows(s.cache.value.report, s.cache.value.hash)
  }

  lemma {:induction false} SumCounts(events: seq<Event>)
    ensures Sum(Events, events) == |events|
  {
    if events != [] { SumCounts(events[..|events| - 1]); }
  }

  /** Storing leaves an honest cache exactly when nothing was appended between the read and the hash. */
  lemma StoreIsHonestIff(s: Ledger, p: nat, r: Report, s': Ledger)
    requires Store(s, p, r, s')
    ensures Honest(s') <==> s.reading[p] == |s.events|
  {
    SumCounts(s.events);
    SumCounts(s.events[..s.reading[p]]);
    assert Reading(r, Events) == s.reading[p];
    assert s.events[..|s.events|] == s.events;
  }

  /** An append in that gap makes the next call serve statistics that miss the event. */
  lemma StaleCacheIsServed(s: Ledger, p: nat, e: Event, r: Report, s': Ledger)
    requires Store(Append(Read(s, p), e), p, r, s')
    ensures s'.cache.value.hash == s'.events && Shows(s'.cache.value.report, s.events) && !Shows(s'.cache.value.report, s'.events)
  {
    var gap := Append(Read(s, p), e);
    assert gap.events[..|s.events|] == s.events;
    StoreIsHonestIff(gap, p, r, s');
  }
}
