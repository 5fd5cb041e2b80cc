/** Correction events and their secondary index (nth_dao/event_bus.py): who may correct what, and what a
    lookup through the index yields compared with a scan of the stream. */
module Corrections {
  import opened Prelude
  import opened CanonicalJson
  import opened EventChain

  const CORRECTION := "event.correction"

  datatype CorrectionType = Deprecated | Corrected | Retracted {
    function Name(): string {
      match this case Deprecated => "DEPRECATED" case Corrected => "CORRECTED" case Retracted => "RETRACTED"
    }
  }

  datatype Ask = Ask(original: string, kind: CorrectionType, reason: string, replacement: Option<Value>, signer: Option<Signer>)

  predicate LowerHex(c: char) {
    '0' <= c <= '9' || 'a' <= c <= 'f'
  }

  /** The pattern's `$` also matches before one final newline. */
  predicate IsEventId(s: string) {
    && 16 <= |s| <= 17
    && (forall i :: 0 <= i < 16 ==> LowerHex(s[i]))
    && (|s| == 17 ==> s[16] == '\n')
  }

  /** Sixteen lower-case hex digits, and at most a newline behind them. */
  lemma EventIdIff(s: string)
    ensures IsEventId(s) <==>
            exists digits: string, tail: string {:trigger digits + tail} ::
              s == digits + tail && |digits| == 16 && tail in {"", "\n"} && forall c :: c in digits ==> c in "0123456789abcdef"
  {
    if IsEventId(s) {
      assert s == s[..16] + s[16..];
      assert s[16..] == "" || s[16..] == "\n";
      forall c | c in s[..16] ensures c in "0123456789abcdef" { HexAlphabet(c); }
    }
    forall digits: string, tail: string |
      s == digits + tail && |digits| == 16 && tail in {"", "\n"} && forall c :: c in digits ==> c in "0123456789abcdef"
      ensures IsEventId(s)
    {
      forall i | 0 <= i < 16 ensures LowerHex(s[i]) {
        assert s[i] == digits[i] && digits[i] in digits;
        HexAlphabet(s[i]);
      }
    }
  }

  lemma HexAlphabet(c: char)
    ensures LowerHex(c) <==> c in "0123456789abcdef"
  {
    var digits, letters := "0123456789", "abcdef";
    assert "0123456789abcdef" == digits + letters;
    if '0' <= c <= '9' { assert digits[c as int - '0' as int] == c; }
    if 'a' <= c <= 'f' { assert letters[c as int - 'a' as int] == c; }
  }

  predicate IsCorrection(e: BusEvent) {
    e.kind == CORRECTION
  }

  /** The point lookup followed by the full scan finds what a linear scan finds. */
  function Find(events: seq<BusEvent>, id: string): (r: Option<BusEvent>)
    ensures r.Some? ==> r.value in events && r.value.id == id
    ensures r.None? <==> forall e :: e in events ==> e.id != id
  {
    if events == [] then None
    else if events[0].id == id then Some(events[0])
    else
      assert events == [events[0]] + events[1..];
      Find(events[1..], id)
  }

  /** The refusals of `correct`, in the order the code tests them; None means the correction may be emitted. */
  function Refusal(w: World, events: seq<BusEvent>, ask: Ask): Option<string> {
    if !IsEventId(ask.original) then Some("original_event_id must be 16 hex chars")
    else if ask.kind != Corrected && ask.replacement.Some? then Some("corrected_payload is only meaningful with CORRECTED")
    else
      match Find(events, ask.original)
      case None => Some("not found in stream")
      case Some(original) =>
        if IsCorrection(original) then Some("cannot correct a correction event")
        else if original.pubkey == "" then None
        else if Verify(w, original) == Invalid then Some("its own signature does not verify")
        else if ask.signer.None? || !ask.signer.value.canSign then Some("no signing identity provided")
        else if ask.signer.value.pubkey != original.pubkey then Some("pubkey does not match original author")
        else None
  }

  /** Who may correct what, for a stream with unique ids: the named event exists, is not a correction, and
      is either keyless or not invalid and matched by a signer holding its key. */
  lemma PermittedIff(w: World, events: seq<BusEvent>, ask: Ask)
    requires forall e, f :: e in events && f in events && e.id == f.id ==> e == f
    ensures Refusal(w, events, ask).None? <==>
            && IsEventId(ask.original) && (ask.replacement.Some? ==> ask.kind == Corrected)
            && exists e :: e in events && e.id == ask.original && MayCorrect(w, e, ask.signer)
  {
    var r := Find(events, ask.original);
    if r.Some? && MayCorrect(w, r.value, ask.signer) {
      assert r.value in events;
    }
  }

  predicate MayCorrect(w: World, original: BusEvent, signer: Option<Signer>) {
    && !IsCorrection(original)
    && (original.pubkey != "" ==>
          Verify(w, original) != Invalid && signer.Some? && signer.value.canSign && signer.value.pubkey == original.pubkey)
  }

  function PayloadOf(ask: Ask): Value {
    Dict([Entry(Str("original_event_id"), Text(ask.original)),
          Entry(Str("correction_type"), Text(ask.kind.Name())),
          Entry(Str("reason"), Text(ask.reason))]
         + if ask.replacement.Some? then [Entry(Str("corrected_payload"), ask.replacement.value)] else [])
  }

  function TextField(entries: seq<Entry>, key: string): string {
    if entries == [] then ""
    else if entries[0].key == Str(key) then (if entries[0].value.Text? then entries[0].value.s else "")
    else TextField(entries[1..], key)
  }

  function OriginalOf(e: BusEvent): string {
    if e.payload.Dict? then TextField(e.payload.entries, "original_event_id") else ""
  }

  function FieldOf(entries: seq<Entry>, key: string): Option<Value> {
    if entries == [] then None
    else if entries[0].key == Str(key) then Some(entries[0].value)
    else FieldOf(entries[1..], key)
  }

  /** The text the source writes for each kind of correction. */
  predicate Spells(kind: CorrectionType, name: string) {
    || (kind == Deprecated && name == "DEPRECATED")
    || (kind == Corrected && name == "CORRECTED")
    || (kind == Retracted && name == "RETRACTED")
  }

  /** Everything that was asked can be read back from the payload, by field; the replacement field is there exactly
      when there is one. */
  predicate Carries(payload: Value, ask: Ask) {
    && payload.Dict? && DistinctKeys(payload.entries)
    && FieldOf(payload.entries, "original_event_id") == Some(Text(ask.original))
    && FieldOf(payload.entries, "reason") == Some(Text(ask.reason))
    && FieldOf(payload.entries, "corrected_payload") == ask.replacement
    && (match FieldOf(payload.entries, "correction_type") case Some(Text(name)) => Spells(ask.kind, name) case _ => false)
  }

  lemma PayloadCarries(ask: Ask)
    ensures Carries(PayloadOf(ask), ask)
  {
    var entries := PayloadOf(ask).entries;
    var rest := entries[3..];
    assert entries[0].key == Str("original_event_id") && entries[1].key == Str("correction_type") && entries[2].key == Str("reason");
    assert entries[1..][0] == entries[1] && entries[1..][1..] == entries[2..] && entries[2..][0] == entries[2] && entries[2..][1..] == rest;
    assert rest == if ask.replacement.Some? then [Entry(Str("corrected_payload"), ask.replacement.value)] else [];
    KeysDiffer();
    assert FieldOf(rest, "corrected_payload") == ask.replacement;
    assert FieldOf(entries[2..], "reason") == Some(Text(ask.reason));
    assert FieldOf(entries[2..], "corrected_payload") == ask.replacement;
    assert FieldOf(entries[1..], "corrected_payload") == ask.replacement;
    assert FieldOf(entries[1..], "correction_type") == Some(Text(ask.kind.Name()));
    assert FieldOf(entries, "correction_type") == Some(Text(ask.kind.Name())) && Spells(ask.kind, ask.kind.Name());
  }

  lemma KeysDiffer()
    ensures NoDup(["original_event_id", "correction_type", "reason", "corrected_payload"])
  {
    assert |"original_event_id"| == 17 && |"correction_type"| == 15 && |"reason"| == 6 && |"corrected_payload"| == 17;
    assert "original_event_id"[0] == 'o' && "corrected_payload"[0] == 'c';
  }

  /** Two requests have the same payload only if they ask for the same. */
  lemma PayloadTells(a: Ask, b: Ask)
    requires PayloadOf(a) == PayloadOf(b)
    ensures a.original == b.original && a.kind == b.kind && a.reason == b.reason && a.replacement == b.replacement
  {
    PayloadCarries(a);
    PayloadCarries(b);
    assert |"DEPRECATED"| == 10 && |"CORRECTED"| == 9 && |"RETRACTED"| == 9 && "CORRECTED"[0] == 'C' && "RETRACTED"[0] == 'R';
  }

  // ---------------------------------------------------------------- what a full scan finds

  predicate Corrects(e: BusEvent, original: string) {
    IsCorrection(e) && OriginalOf(e) == original
  }

  function ScanFor(events: seq<BusEvent>, original: string): seq<BusEvent> {
    if events == [] then []
    else
      var rest, last := ScanFor(events[..|events| - 1], original), events[|events| - 1];
      if Corrects(last, original) then rest + [last] else rest
  }

  function Ids(events: seq<BusEvent>): seq<string> {
    seq(|events|, i requires 0 <= i < |events| => events[i].id)
  }

  function IdsFor(events: seq<BusEvent>, original: string): seq<string> {
    Ids(ScanFor(events, original))
  }

  lemma ScanAppend(events: seq<BusEvent>, e: BusEvent, original: string)
    ensures ScanFor(events + [e], original) ==
            if Corrects(e, original) then ScanFor(events, original) + [e] else ScanFor(events, original)
    ensures IdsFor(events + [e], original) ==
            if Corrects(e, original) then IdsFor(events, original) + [e.id] else IdsFor(events, original)
  {
    assert (events + [e])[..|events|] == events;
  }

  lemma {:induction false} ScanMembers(events: seq<BusEvent>, original: string)
    ensures forall e :: e in ScanFor(events, original) <==> e in events && Corrects(e, original)
  {
    if events != [] {
      var init := events[..|events| - 1];
      ScanMembers(init, original);
      assert events == init + [events[|events| - 1]];
    }
  }

  lemma IdsMembers(events: seq<BusEvent>)
    ensures forall id :: id in Ids(events) <==> exists e :: e in events && e.id == id
  {
    forall id | id in Ids(events) ensures exists e :: e in events && e.id == id {
      var i :| 0 <= i < |events| && Ids(events)[i] == id;
      assert events[i] in events;
    }
    forall e | e in events ensures e.id in Ids(events) {
      var i :| 0 <= i < |events| && events[i] == e;
      assert Ids(events)[i] == e.id;
    }
  }

  lemma {:induction false} ScanNoDup(events: seq<BusEvent>, original: string)
    requires NoDup(Ids(events))
    ensures NoDup(IdsFor(events, original))
  {
    if events != [] {
      var init, last := events[..|events| - 1], events[|events| - 1];
      assert events == init + [last];
      assert Ids(events) == Ids(init) + [last.id];
      assert NoDup(Ids(init)) by {
        forall i, j | 0 <= i < j < |init| ensures Ids(init)[i] != Ids(init)[j] {
          assert Ids(events)[i] != Ids(events)[j];
        }
      }
      ScanNoDup(init, original);
      ScanAppend(init, last, original);
      assert last.id !in IdsFor(init, original) by {
        ScanMembers(init, original);
        IdsMembers(ScanFor(init, original));
        IdsMembers(init);
        forall i | 0 <= i < |init| ensures Ids(init)[i] != last.id {
          assert Ids(events)[i] == Ids(init)[i] && Ids(events)[|init|] == last.id;
        }
        assert forall e :: e in init ==> e.id in Ids(init);
      }
    }
  }

  lemma {:induction false} ScanPrefix(events: seq<BusEvent>, n: nat, original: string)
    requires n <= |events|
    ensures IdsFor(events[..n], original) <= IdsFor(events, original)
    decreases |events| - n
  {
    if n < |events| {
      ScanPrefix(events, n + 1, original);
      assert events[..n + 1] == events[..n] + [events[n]];
      ScanAppend(events[..n], events[n], original);
    } else {
      assert events[..n] == events;
    }
  }

  // ---------------------------------------------------------------- what authorship promises

  /** The correction at `j` refers to the earlier non-correction at `i` and has its key if it has one. */
  predicate Grounds(events: seq<BusEvent>, i: nat, j: nat)
    requires i < j < |events|
  {
    && events[i].id == OriginalOf(events[j])
    && !IsCorrection(events[i])
    && (events[i].pubkey != "" ==> events[j].pubkey == events[i].pubkey)
  }

  predicate Grounded(events: seq<BusEvent>, j: nat)
    requires j < |events|
  {
    IsEventId(OriginalOf(events[j])) && exists i {:trigger Grounds(events, i, j)} :: 0 <= i < j && Grounds(events, i, j)
  }

  ghost predicate AllGrounded(events: seq<BusEvent>) {
    forall j :: 0 <= j < |events| && IsCorrection(events[j]) ==> Grounded(events, j)
  }

  predicate SignedBy(e: BusEvent, ask: Ask) {
    && IsCorrection(e) && e.payload == PayloadOf(ask)
    && e.pubkey == if ask.signer.Some? && ask.signer.value.canSign then ask.signer.value.pubkey else ""
  }

  lemma {:induction false} FindAppend(events: seq<BusEvent>, more: seq<BusEvent>, id: string)
    requires Find(events, id).Some?
    ensures Find(events + more, id) == Find(events, id)
  {
    if events[0].id != id {
      assert events == [events[0]] + events[1..];
      assert (events + more)[1..] == events[1..] + more;
      FindAppend(events[1..], more, id);
    }
  }

  /** A check made earlier still stands when the event is written: the stream only grows. */
  lemma RefusalStable(w: World, events: seq<BusEvent>, more: seq<BusEvent>, ask: Ask)
    requires Refusal(w, events, ask).None?
    ensures Refusal(w, events + more, ask).None?
  {
    FindAppend(events, more, ask.original);
  }

  lemma GroundedAppend(events: seq<BusEvent>, e: BusEvent)
    requires AllGrounded(events)
    requires IsCorrection(e) ==> Grounded(events + [e], |events|)
    ensures AllGrounded(events + [e])
  {
    var all := events + [e];
    forall j | 0 <= j < |events| && IsCorrection(all[j]) ensures Grounded(all, j) {
      assert events[j] == all[j] && Grounded(events, j);
      var i :| 0 <= i < j && Grounds(events, i, j);
      assert Grounds(all, i, j);
    }
  }

  lemma OriginalOfCorrection(e: BusEvent, ask: Ask)
    requires e.payload == PayloadOf(ask)
    ensures OriginalOf(e) == ask.original
  {
  }

  lemma PermittedIsGrounded(w: World, events: seq<BusEvent>, ask: Ask, e: BusEvent)
    requires AllGrounded(events) && Refusal(w, events, ask).None? && SignedBy(e, ask)
    ensures AllGrounded(events + [e])
  {
    OriginalOfCorrection(e, ask);
    var original := Find(events, ask.original).value;
    var i :| 0 <= i < |events| && events[i] == original;
    assert Grounds(events + [e], i, |events|);
    GroundedAppend(events, e);
  }

  // ---------------------------------------------------------------- order-preserving merge

  function Dedup(s: seq<string>): seq<string> {
    if s == [] then []
    else
      var rest, last := Dedup(s[..|s| - 1]), s[|s| - 1];
      if last in rest then rest else rest + [last]
  }

  /** `dict.fromkeys` on `a + b`, for duplicate-free `a`, keeps `a` in place and adds what is missing from `b`. */
  lemma {:induction false} DedupMerge(a: seq<string>, b: seq<string>)
    requires NoDup(a)
    ensures var d := Dedup(a + b); a <= d && NoDup(d) && forall x :: x in d <==> x in a || x in b
  {
    if b != [] {
      var b', x := b[..|b| - 1], b[|b| - 1];
      DedupMerge(a, b');
      assert (a + b)[..|a + b| - 1] == a + b';
      assert b == b' + [x];
    } else if a != [] {
      var a', x := a[..|a| - 1], a[|a| - 1];
      DedupMerge(a', []);
      assert a' + [] == a' && a + [] == a && a == a' + [x];
      DedupOfNoDup(a);
    }
  }

  lemma {:induction false} DedupOfNoDup(a: seq<string>)
    requires NoDup(a)
    ensures Dedup(a) == a
  {
    if a != [] {
      var init := a[..|a| - 1];
      DedupOfNoDup(init);
      assert a == init + [a[|a| - 1]];
    }
  }

  /** Merging two prefixes of one duplicate-free list gives the longer one. */
  lemma {:induction false} DedupPrefixes(a: seq<string>, b: seq<string>, whole: seq<string>)
    requires NoDup(whole) && a <= whole && b <= whole
    ensures Dedup(a + b) == if |a| >= |b| then a else b
  {
    if b == [] {
      assert a + b == a;
      DedupOfNoDup(a);
    } else {
      var n := |b| - 1;
      DedupPrefixes(a, b[..n], whole);
      assert (a + b)[..|a + b| - 1] == a + b[..n];
      if |a| > n {
        assert a[n] == b[n];
      } else {
        assert b == b[..n] + [b[n]];
        assert b[n] !in b[..n];
      }
    }
  }

  // ---------------------------------------------------------------- the desk, one call at a time

  type Index = map<string, seq<string>>

  function At(index: Index, original: string): seq<string> {
    if original in index then index[original] else []
  }

  /** The index lists, for every original, exactly the corrections of the stream in stream order. */
  ghost predicate Exact(events: seq<BusEvent>, index: Index) {
    forall o :: At(index, o) == IdsFor(events, o)
  }

  /** Locked merge of what a scan rebuilt into what is on disk. */
  function Merged(disk: Index, rebuilt: Index): Index {
    map o | o in disk.Keys + rebuilt.Keys :: if o in rebuilt then Dedup(At(disk, o) + rebuilt[o]) else disk[o]
  }

  lemma {:induction false} FindById(events: seq<BusEvent>, e: BusEvent)
    requires NoDup(Ids(events)) && e in events
    ensures Find(events, e.id) == Some(e)
  {
    var i :| 0 <= i < |events| && events[i] == e;
    var r := Find(events, e.id);
    var j :| 0 <= j < |events| && events[j] == r.value;
    assert Ids(events)[i] == Ids(events)[j];
  }

  /** A permitted correction and its index entry keep everything the desk promises. */
  lemma CorrectKeeps(w: World, events: seq<BusEvent>, index: Index, ask: Ask, e: BusEvent)
    requires NoDup(Ids(events)) && AllGrounded(events) && Exact(events, index)
    requires Refusal(w, events, ask).None? && SignedBy(e, ask) && e.id !in Ids(events)
    ensures NoDup(Ids(events + [e])) && AllGrounded(events + [e]) && OriginalOf(e) == ask.original
    ensures e.id !in At(index, ask.original)
    ensures Exact(events + [e], index[ask.original := At(index, ask.original) + [e.id]])
  {
    PermittedIsGrounded(w, events, ask, e);
    OriginalOfCorrection(e, ask);
    IdsAppend(events, e);
    NotListed(events, ask.original, e.id);
    ExactNext(events, e, index, index[ask.original := At(index, ask.original) + [e.id]]);
  }

  lemma IdsAppend(events: seq<BusEvent>, e: BusEvent)
    requires NoDup(Ids(events)) && e.id !in Ids(events)
    ensures NoDup(Ids(events + [e]))
  {
    assert Ids(events + [e]) == Ids(events) + [e.id];
  }

  class CorrectionDesk {
    const bus: EventBus
    var index: Index

    ghost function Stream(): seq<BusEvent>
      reads this, bus
    {
      Events(bus.rows)
    }

    ghost predicate Valid()
      reads this, bus
    {
      && Accepted(bus.world, bus.rows)
      && NoDup(Ids(Stream()))
      && AllGrounded(Stream())
      && Exact(Stream(), index)
    }

    constructor (bus: EventBus)
      requires bus.rows == []
      ensures Valid() && this.bus == bus && index == map[]
    {
      this.bus := bus;
      index := map[];
    }

    /** Any other event of the stream; ids are freshly drawn. */
    method EmitOther(q: Request) returns (r: Result<BusEvent>)
      requires Valid() && q.id !in Ids(Stream()) && q.kind != CORRECTION && SignerSound(bus.world, q)
      modifies bus
      ensures Valid()
      ensures r.Err? ==> bus.rows == old(bus.rows)
      ensures r.Ok? ==> Stream() == old(Stream()) + [r.value]
    {
      ghost var before := Stream();
      r := bus.Emit(q);
      if r.Ok? {
        IdsAppend(before, r.value);
        GroundedAppend(before, r.value);
        ExactNext(before, r.value, index, index);
      }
    }

    /** Check, emit, then extend the index. The three refusal sources are the rules, an unusable payload
        and a tail scan that a split row stops. */
    method Correct(ask: Ask, id: string, timestamp: string, signs: bool) returns (r: Result<BusEvent>)
      requires Valid() && id !in Ids(Stream())
      requires SignerSound(bus.world, Request(CORRECTION, PayloadOf(ask), ask.signer, id, timestamp, signs))
      modifies this, bus
      ensures Valid()
      ensures r.Ok? <==> && Refusal(bus.world, old(Stream()), ask).None? && Normalizable(PayloadOf(ask))
                         && TailOf(old(bus.rows), old(bus.terminated)).Ok?
      ensures r.Err? ==> bus.rows == old(bus.rows) && index == old(index)
      ensures r.Ok? ==> && Stream() == old(Stream()) + [r.value]
                        && SignedBy(r.value, ask) && r.value.id == id && OriginalOf(r.value) == ask.original
                        && r.value.kind == "event.correction" && r.value.timestamp == timestamp && Carries(r.value.payload, ask)
    {
      ghost var before := Stream();
      var events := Events(bus.rows);
      var refusal := Refusal(bus.world, events, ask);
      if refusal.Some? {
        return Err(refusal.value);
      }
      r := bus.Emit(Request(CORRECTION, PayloadOf(ask), ask.signer, id, timestamp, signs));
      if r.Err? {
        return;
      }
      CorrectKeeps(bus.world, before, index, ask, r.value);
      PayloadCarries(ask);
      var entry := At(index, ask.original);
      if id !in entry {
        entry := entry + [id];
      }
      index := index[ask.original := entry];
    }

    /** Through the index where it has an entry, by a rebuilding scan otherwise: either way the stream's
        corrections of that event, in stream order. */
    method CorrectionsFor(original: string) returns (found: seq<BusEvent>)
      requires Valid()
      modifies this`index
      ensures Valid()
      ensures found == ScanFor(Stream(), original)
    {
      if original == "" {
        NoEmptyOriginal(Stream());
        return [];
      }
      var ids := At(index, original);
      if ids != [] {
        found := Lookup(original, ids);
        return;
      }
      var rebuilt;
      found, rebuilt := Rescan(Events(bus.rows), original);
      if rebuilt != map[] {
        ghost var events := Stream();
        forall o ensures At(Merged(index, rebuilt), o) == IdsFor(events, o) {
          ScanNoDup(events, o);
          if o in rebuilt {
            assert At(rebuilt, o) == IdsFor(events, o);
            DedupPrefixes(At(index, o), rebuilt[o], IdsFor(events, o));
          }
        }
        index := Merged(index, rebuilt);
      }
    }

    method Lookup(original: string, ids: seq<string>) returns (found: seq<BusEvent>)
      requires Valid() && ids == IdsFor(Stream(), original)
      ensures found == ScanFor(Stream(), original)
    {
      found := [];
      var events := Events(bus.rows);
      ghost var all := ScanFor(Stream(), original);
      ScanMembers(Stream(), original);
      for i := 0 to |ids|
        invariant found == all[..i]
      {
        var event := Find(events, ids[i]);
        assert all[i] in all;
        FindById(Stream(), all[i]);
        if event.Some? {
          found := found + [event.value];
        }
      }
    }
  }

  /** One pass over the stream that collects one event's corrections and the whole index. */
  method Rescan(events: seq<BusEvent>, original: string) returns (found: seq<BusEvent>, rebuilt: Index)
    requires AllGrounded(events) && original != ""
    ensures found == ScanFor(events, original)
    ensures Exact(events, rebuilt)
  {
    found, rebuilt := [], map[];
    for i := 0 to |events|
      invariant found == ScanFor(events[..i], original)
      invariant Exact(events[..i], rebuilt)
    {
      var event := events[i];
      ghost var before := rebuilt;
      ScanAppend(events[..i], event, original);
      NamesOriginal(events, i);
      if IsCorrection(event) {
        var o := OriginalOf(event);
        if o != "" {
          rebuilt := rebuilt[o := At(rebuilt, o) + [event.id]];
          if o == original {
            found := found + [event];
          }
        }
      }
      ExactNext(events[..i], event, before, rebuilt);
      assert events[..i + 1] == events[..i] + [event];
    }
    assert events[..|events|] == events;
  }

  lemma NamesOriginal(events: seq<BusEvent>, i: nat)
    requires AllGrounded(events) && i < |events|
    ensures IsCorrection(events[i]) ==> OriginalOf(events[i]) != ""
  {
    assert IsCorrection(events[i]) ==> Grounded(events, i);
  }

  lemma ExactNext(events: seq<BusEvent>, e: BusEvent, before: Index, after: Index)
    requires Exact(events, before)
    requires after == if IsCorrection(e) then before[OriginalOf(e) := At(before, OriginalOf(e)) + [e.id]] else before
    ensures Exact(events + [e], after)
  {
    forall o ensures At(after, o) == IdsFor(events + [e], o) { ScanAppend(events, e, o); }
  }

  lemma NotListed(events: seq<BusEvent>, o: string, id: string)
    requires id !in Ids(events)
    ensures id !in IdsFor(events, o)
  {
    ScanMembers(events, o);
    IdsMembers(ScanFor(events, o));
    IdsMembers(events);
  }

  lemma SomeMember<T>(s: seq<T>)
    ensures s == [] || exists x :: x in s
  {
    if s != [] { assert s[0] in s; }
  }

  lemma NoEmptyOriginal(events: seq<BusEvent>)
    requires AllGrounded(events)
    ensures ScanFor(events, "") == []
  {
    ScanMembers(events, "");
    forall e | e in events ensures !Corrects(e, "") {
      var j :| 0 <= j < |events| && events[j] == e;
      assert IsCorrection(events[j]) ==> Grounded(events, j);
    }
    SomeMember(ScanFor(events, ""));
  }
}
