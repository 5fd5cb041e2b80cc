/** The hash-chained team event stream (nth_dao/event_bus.py): emitting, the tail scan and the chain audit.

    A SHA-256 hash is a term over what it covers. `CanonicalEncoding.EncodingIsExact` is why the
    payload enters that term as the JSON tree it denotes. */
module EventChain {
  import opened Prelude
  import opened CanonicalJson
  import opened CanonicalEncoding

  /** A hash field: empty, the 64 zeros before the first event, a digest, or other text. */
  datatype HashText = NoText | Zero | Sha256(content: Signable) | OtherText(text: string)

  datatype Signable = Signable(
    id: string, kind: string, actor: string, pubkey: string, payload: Tree, timestamp: string, seqNo: int, prev: HashText)

  datatype Signature = NoSig | Ed25519(key: string, message: Signable) | Garbage(text: string)

  datatype BusEvent = BusEvent(
    id: string, kind: string, actor: string, pubkey: string, payload: Value, timestamp: string, seqNo: int,
    prev: HashText, hash: HashText, sig: Signature)

  /** How an agent id follows from a public key, and whether the signature library is installed. */
  datatype World = World(agentIdFor: string -> string, nacl: bool)

  datatype Signer = Signer(agentId: string, pubkey: string, canSign: bool)

  // ---------------------------------------------------------------- one event

  /** `bytes.fromhex` succeeds: pairs of hex digits, with white space allowed between pairs. */
  predicate FromHexSucceeds(s: string) {
    if s == "" then true
    else if s[0] in " \t\n\r" then FromHexSucceeds(s[1..])
    else |s| >= 2 && HexValue(s[0]).Some? && HexValue(s[1]).Some? && FromHexSucceeds(s[2..])
  }

  predicate IsHex(s: string, length: nat) {
    |s| == length && FromHexSucceeds(s)
  }

  predicate HexDigits(s: string) {
    forall i :: 0 <= i < |s| ==> HexValue(s[i]).Some?
  }

  predicate IsBlank(c: char) {
    c == ' ' || c == '\t' || c == '\n' || c == '\r'
  }

  lemma BlankSkipped(c: char, s: string)
    requires IsBlank(c)
    ensures FromHexSucceeds([c] + s) == FromHexSucceeds(s)
  {
    assert ([c] + s)[1..] == s;
  }

  /** A text without white space is read as hex exactly when it is an even number of hex digits. */
  lemma {:induction false} PlainHexIff(s: string)
    requires forall i :: 0 <= i < |s| ==> !IsBlank(s[i])
    ensures FromHexSucceeds(s) <==> HexDigits(s) && |s| % 2 == 0
    decreases |s|
  {
    if s != "" { assert !IsBlank(s[0]); }
    if |s| >= 2 {
      PlainHexIff(s[2..]);
      assert forall i :: 2 <= i < |s| ==> s[i] == s[2..][i - 2];
    }
  }

  /** Nothing but hex digits and white space is read at all. */
  lemma {:induction false} HexOrBlank(s: string, i: nat)
    requires FromHexSucceeds(s) && i < |s|
    ensures HexValue(s[i]).Some? || IsBlank(s[i])
    decreases |s|
  {
    if IsBlank(s[0]) {
      if i > 0 { HexOrBlank(s[1..], i - 1); }
    } else if i >= 2 {
      HexOrBlank(s[2..], i - 2);
    }
  }

  function Content(e: BusEvent): Option<Signable> {
    NormalizeIsSound(e.payload);
    match Normalize(e.payload)
    case Err(_) => None
    case Ok(v) => Some(Signable(e.id, e.kind, e.actor, e.pubkey, Denote(v), e.timestamp, e.seqNo, e.prev))
  }

  predicate HashMatches(e: BusEvent) {
    match Content(e) case None => false case Some(c) => e.hash == Sha256(c)
  }

  datatype Verification = Valid | Invalid | Unsigned | Unverifiable

  function Verify(w: World, e: BusEvent): Verification {
    if e.sig == NoSig then Unsigned
    else if !IsHex(e.pubkey, 64) then Invalid
    else if e.actor != w.agentIdFor(e.pubkey) then Invalid
    else if !w.nacl then Unverifiable
    else match Content(e) case None => Invalid case Some(c) => if e.sig == Ed25519(e.pubkey, c) then Valid else Invalid
  }

  /** `from_dict` refuses a key or signature that is present and not hex of the right length. */
  predicate FromDictAccepts(e: BusEvent) {
    && (e.pubkey != "" ==> IsHex(e.pubkey, 64))
    && (e.sig.Garbage? ==> IsHex(e.sig.text, 128))
  }

  // ---------------------------------------------------------------- the file

  /** One newline-ended row. `seqNo` may be missing from the JSON object; `split` says that the row's text
      holds U+0085, U+2028 or U+2029, which `str.splitlines` takes for a line end. Corrupt rows hold none. */
  datatype Row = Blank | Corrupt | Object(event: BusEvent, seqNo: Option<int>, split: bool)

  function EventIn(row: Row): BusEvent
    requires row.Object?
  {
    row.event.(seqNo := row.seqNo.Or(0))
  }

  predicate Readable(row: Row) {
    row.Blank? || (row.Object? && FromDictAccepts(EventIn(row)))
  }

  predicate AllReadable(rows: seq<Row>) {
    forall i :: 0 <= i < |rows| ==> Readable(rows[i])
  }

  function Events(rows: seq<Row>): seq<BusEvent> {
    if rows == [] then []
    else
      var rest, last := Events(rows[..|rows| - 1]), rows[|rows| - 1];
      if last.Object? then rest + [EventIn(last)] else rest
  }

  function Head(events: seq<BusEvent>): HashText {
    if events == [] then Zero else events[|events| - 1].hash
  }

  predicate LinkOk(w: World, events: seq<BusEvent>, i: nat)
    requires i < |events|
  {
    && events[i].seqNo == i + 1
    && events[i].prev == Head(events[..i])
    && HashMatches(events[i])
    && Verify(w, events[i]) != Invalid
  }

  ghost predicate Chained(w: World, events: seq<BusEvent>) {
    forall i {:trigger LinkOk(w, events, i)} :: 0 <= i < |events| ==> LinkOk(w, events, i)
  }

  /** What the audit promises: every row is readable and the events form one hash chain numbered from 1. */
  ghost predicate Accepted(w: World, rows: seq<Row>) {
    AllReadable(rows) && Chained(w, Events(rows))
  }

  lemma EventsAppend(rows: seq<Row>, row: Row)
    ensures Events(rows + [row]) == Events(rows) + if row.Object? then [EventIn(row)] else []
  {
    assert (rows + [row])[..|rows|] == rows;
  }

  lemma ChainedAppend(w: World, events: seq<BusEvent>, e: BusEvent)
    ensures Chained(w, events + [e]) <==> Chained(w, events) && LinkOk(w, events + [e], |events|)
  {
    var all := events + [e];
    forall i | 0 <= i < |events| ensures LinkOk(w, all, i) == LinkOk(w, events, i) {
      assert all[..i] == events[..i];
    }
    if Chained(w, all) {
      forall i | 0 <= i < |events| ensures LinkOk(w, events, i) { assert LinkOk(w, all, i); }
      assert LinkOk(w, all, |events|);
    }
  }

  lemma {:induction false} AcceptedPrefix(w: World, rows: seq<Row>, n: nat)
    requires Accepted(w, rows) && n <= |rows|
    ensures Accepted(w, rows[..n])
    decreases |rows| - n
  {
    if n < |rows| {
      AcceptedPrefix(w, rows, n + 1);
      var more := rows[..n + 1];
      assert more == rows[..n] + [rows[n]];
      EventsAppend(rows[..n], rows[n]);
      if rows[n].Object? { ChainedAppend(w, Events(rows[..n]), EventIn(rows[n])); }
    } else {
      assert rows[..n] == rows;
    }
  }

  // ---------------------------------------------------------------- the tail scan

  datatype Tail = Tail(seqNo: int, hash: HashText)

  /** The scan over complete lines. A split row's first fragment ends inside a string, so it is corrupt. */
  function Scan(rows: seq<Row>): Result<Tail> {
    if rows == [] then Ok(Tail(0, Zero))
    else
      match Scan(rows[..|rows| - 1])
      case Err(reason) => Err(reason)
      case Ok(t) =>
        match rows[|rows| - 1]
        case Blank => Ok(t)
        case Corrupt => Err("corrupt event JSON before tail")
        case Object(e, n, split) =>
          if split then Err("corrupt event JSON before tail")
          else Ok(Tail(n.Or(t.seqNo), if e.hash == NoText then t.hash else e.hash))
  }

  predicate TornTail(rows: seq<Row>, terminated: bool) {
    !terminated && rows != [] && rows[|rows| - 1] == Corrupt
  }

  /** A corrupt last line without its newline is forgiven. */
  function TailOf(rows: seq<Row>, terminated: bool): Result<Tail> {
    if TornTail(rows, terminated) then Scan(rows[..|rows| - 1]) else Scan(rows)
  }

  predicate NoSplit(rows: seq<Row>) {
    forall i :: 0 <= i < |rows| ==> rows[i].Object? ==> !rows[i].split
  }

  lemma {:induction false} ScanSucceedsIff(rows: seq<Row>)
    ensures Scan(rows).Ok? <==> NoSplit(rows) && forall i :: 0 <= i < |rows| ==> !rows[i].Corrupt?
  {
    if rows != [] {
      var init := rows[..|rows| - 1];
      ScanSucceedsIff(init);
      assert rows == init + [rows[|rows| - 1]];
    }
  }

  /** On an accepted stream whose scan succeeds it finds the number of events and the last hash. */
  lemma {:induction false} ScanFindsHead(w: World, rows: seq<Row>)
    requires Accepted(w, rows) && Scan(rows).Ok?
    ensures Scan(rows).value == Tail(|Events(rows)|, Head(Events(rows)))
  {
    if rows != [] {
      var n := |rows| - 1;
      AcceptedPrefix(w, rows, n);
      ScanFindsHead(w, rows[..n]);
      if rows[n].Object? {
        assert LinkOk(w, Events(rows), |Events(rows)| - 1);
      }
    }
  }

  // ---------------------------------------------------------------- emitting

  predicate IsBreak(c: char) {
    c == '\U{0085}' || c == '\U{2028}' || c == '\U{2029}'
  }

  predicate TextBreaks(s: string) {
    exists i :: 0 <= i < |s| && IsBreak(s[i])
  }

  lemma TextBreaksIff(s: string)
    ensures TextBreaks(s) <==> '\U{0085}' in s || '\U{2028}' in s || '\U{2029}' in s
  {
    if TextBreaks(s) {
      var i :| 0 <= i < |s| && IsBreak(s[i]);
      assert s[i] in s;
    }
  }

  /** The JSON dump leaves these three characters unescaped, in values and in keys. */
  predicate ValueBreaks(v: Value) {
    match v
    case Text(s) => TextBreaks(s)
    case List(items) => exists x :: x in items && ValueBreaks(x)
    case Dict(entries) => exists e :: e in entries && ((e.key.Str? && TextBreaks(e.key.s)) || ValueBreaks(e.value))
    case _ => false
  }

  predicate EventBreaks(e: BusEvent) {
    || TextBreaks(e.id) || TextBreaks(e.kind) || TextBreaks(e.actor) || TextBreaks(e.pubkey)
    || TextBreaks(e.timestamp) || ValueBreaks(e.payload)
    || (e.prev.OtherText? && TextBreaks(e.prev.text))
  }

  /** One call of `emit`: the fresh id and clock reading are inputs, and signing itself may fail. */
  datatype Request = Request(kind: string, payload: Value, signer: Option<Signer>, id: string, timestamp: string, signs: bool)

  function Unhashed(t: Tail, q: Request): BusEvent {
    var actor := if q.signer.None? then "" else q.signer.value.agentId;
    var pubkey := if q.signer.Some? && q.signer.value.canSign then q.signer.value.pubkey else "";
    BusEvent(q.id, q.kind, actor, pubkey, q.payload, q.timestamp, t.seqNo + 1, t.hash, NoText, NoSig)
  }

  predicate Signs(q: Request) {
    q.signs && q.signer.Some? && q.signer.value.canSign
  }

  function NewEvent(w: World, t: Tail, q: Request): Option<BusEvent> {
    var e := Unhashed(t, q);
    match Content(e)
    case None => None
    case Some(c) =>
      Some(e.(hash := Sha256(c), sig := if w.nacl && Signs(q) then Ed25519(e.pubkey, c) else NoSig))
  }

  /** A signing identity has a 64-digit key, and where it signs its id is the one derived from that key. */
  predicate SignerSound(w: World, q: Request) {
    q.signer.Some? && q.signer.value.canSign ==>
      var s := q.signer.value;
      && (s.pubkey != "" ==> IsHex(s.pubkey, 64))
      && (w.nacl && q.signs ==> IsHex(s.pubkey, 64) && s.agentId == w.agentIdFor(s.pubkey))
  }

  lemma NewEventContent(w: World, t: Tail, q: Request)
    requires NewEvent(w, t, q).Some?
    ensures Content(NewEvent(w, t, q).value) == Content(Unhashed(t, q))
    ensures HashMatches(NewEvent(w, t, q).value)
  {
  }

  lemma NewEventVerifies(w: World, t: Tail, q: Request)
    requires NewEvent(w, t, q).Some?
    ensures var e := NewEvent(w, t, q).value;
            && (FromDictAccepts(e) && Verify(w, e) != Invalid <==> SignerSound(w, q))
            && (SignerSound(w, q) ==> Verify(w, e) == if w.nacl && Signs(q) then Valid else Unsigned)
  {
    NewEventContent(w, t, q);
  }

  /** Appending the event built from the true tail keeps the stream accepted exactly when the signer is sound. */
  lemma AppendKeepsAccepted(w: World, rows: seq<Row>, q: Request, split: bool)
    requires Accepted(w, rows) && Scan(rows).Ok? && NewEvent(w, Scan(rows).value, q).Some?
    ensures var e := NewEvent(w, Scan(rows).value, q).value;
            var after := rows + [Object(e, Some(e.seqNo), split)];
            && Events(after) == Events(rows) + [e]
            && (Accepted(w, after) <==> SignerSound(w, q))
  {
    var t := Scan(rows).value;
    var e := NewEvent(w, t, q).value;
    var row := Object(e, Some(e.seqNo), split);
    ScanFindsHead(w, rows);
    EventsAppend(rows, row);
    ChainedAppend(w, Events(rows), e);
    NewEventContent(w, t, q);
    NewEventVerifies(w, t, q);
    assert (Events(rows) + [e])[..|Events(rows)|] == Events(rows);
    assert EventIn(row) == e;
    assert AllReadable(rows + [row]) <==> FromDictAccepts(e) by {
      assert (rows + [row])[|rows|] == row;
    }
  }

  class EventBus {
    const world: World
    var rows: seq<Row>
    var terminated: bool

    constructor (world: World)
      ensures this.world == world && rows == [] && terminated
      ensures Accepted(world, rows)
    {
      this.world := world;
      rows, terminated := [], true;
    }

    method TailUnlocked() returns (r: Result<Tail>)
      ensures r == TailOf(rows, terminated)
    {
      var t := Tail(0, Zero);
      var i := 0;
      while i < |rows|
        invariant 0 <= i <= |rows|
        invariant Scan(rows[..i]) == Ok(t)
      {
        assert rows[..i + 1][..i] == rows[..i];
        var row := rows[i];
        match row {
          case Blank =>
          case Corrupt =>
            if i == |rows| - 1 && !terminated {
              return Ok(t);
            }
            TailFailsFrom(rows, terminated, i + 1);
            return Err("corrupt event JSON before tail");
          case Object(e, n, split) =>
            if split {
              TailFailsFrom(rows, terminated, i + 1);
              return Err("corrupt event JSON before tail");
            }
            t := Tail(n.Or(t.seqNo), if e.hash == NoText then t.hash else e.hash);
        }
        i := i + 1;
      }
      assert rows[..i] == rows;
      return Ok(t);
    }

    /** One locked emit. A failed tail scan or hash leaves the file alone; an unterminated last line is ended first. */
    method Emit(q: Request) returns (r: Result<BusEvent>)
      modifies this
      ensures r.Ok? <==> TailOf(old(rows), old(terminated)).Ok? && Normalizable(q.payload)
      ensures r.Err? ==> rows == old(rows) && terminated == old(terminated)
      ensures r.Ok? ==>
                && TailOf(old(rows), old(terminated)).Ok?
                && NewEvent(world, TailOf(old(rows), old(terminated)).value, q) == Some(r.value)
                && rows == old(rows) + [Object(r.value, Some(r.value.seqNo), EventBreaks(r.value))]
                && terminated
      ensures r.Ok? && Accepted(world, old(rows)) ==>
                && Events(rows) == Events(old(rows)) + [r.value]
                && (Accepted(world, rows) <==> SignerSound(world, q))
    {
      NormalizeIsSound(q.payload);
      var tail := TailUnlocked();
      if tail.Err? {
        return Err(tail.reason);
      }
      var event := NewEvent(world, tail.value, q);
      if event.None? {
        return Err("payload cannot be normalised");
      }
      if Accepted(world, rows) {
        assert rows != [] ==> Readable(rows[|rows| - 1]);
        AppendKeepsAccepted(world, rows, q, EventBreaks(event.value));
      }
      rows := rows + [Object(event.value, Some(event.value.seqNo), EventBreaks(event.value))];
      terminated := true;
      return Ok(event.value);
    }

    /** The audit; a raised normalisation error counts as a refusal. */
    method VerifyChain() returns (ok: bool)
      ensures ok <==> Accepted(world, rows)
    {
      var expected, prev := 1, Zero;
      var i := 0;
      while i < |rows|
        invariant 0 <= i <= |rows|
        invariant Accepted(world, rows[..i])
        invariant expected == |Events(rows[..i])| + 1 && prev == Head(Events(rows[..i]))
      {
        assert rows[..i + 1] == rows[..i] + [rows[i]];
        EventsAppend(rows[..i], rows[i]);
        ghost var before := Events(rows[..i]);
        if Accepted(world, rows) { AcceptedPrefix(world, rows, i + 1); }
        if rows[i].Corrupt? {
          assert !Readable(rows[i]);
          return false;
        }
        if rows[i].Object? {
          var event := EventIn(rows[i]);
          ChainedAppend(world, before, event);
          assert (before + [event])[..|before|] == before;
          if !FromDictAccepts(event) {
            assert !Readable(rows[i]);
            return false;
          }
          if event.seqNo != expected || event.prev != prev || !HashMatches(event) {
            return false;
          }
          if event.sig != NoSig && Verify(world, event) == Invalid {
            return false;
          }
          prev := event.hash;
          expected := expected + 1;
        }
        assert AllReadable(rows[..i + 1]);
        i := i + 1;
      }
      assert rows[..i] == rows;
      return true;
    }
  }

  lemma {:induction false} FailsFrom(rows: seq<Row>, n: nat)
    requires n <= |rows| && Scan(rows[..n]).Err?
    ensures Scan(rows) == Scan(rows[..n])
    decreases |rows| - n
  {
    if n < |rows| {
      assert rows[..n + 1][..n] == rows[..n];
      FailsFrom(rows, n + 1);
    } else {
      assert rows[..n] == rows;
    }
  }

  lemma TailFailsFrom(rows: seq<Row>, terminated: bool, n: nat)
    requires n <= |rows| && Scan(rows[..n]).Err? && (n == |rows| ==> !TornTail(rows, terminated))
    ensures TailOf(rows, terminated) == Scan(rows[..n])
  {
    if TornTail(rows, terminated) {
      var init := rows[..|rows| - 1];
      assert init[..n] == rows[..n];
      FailsFrom(init, n);
    } else {
      FailsFrom(rows, n);
    }
  }

  // ---------------------------------------------------------------- runs of emitters

  /** Emitters exclude each other by the file lock, so a run is the order in which they got it. */
  datatype Stream = Stream(rows: seq<Row>, terminated: bool)

  function Step(w: World, s: Stream, q: Request): Stream {
    match TailOf(s.rows, s.terminated)
    case Err(_) => s
    case Ok(t) =>
      match NewEvent(w, t, q)
      case None => s
      case Some(e) => Stream(s.rows + [Object(e, Some(e.seqNo), EventBreaks(e))], true)
  }

  function Run(w: World, run: seq<Request>): Stream {
    if run == [] then Stream([], true) else Step(w, Run(w, run[..|run| - 1]), run[|run| - 1])
  }

  ghost predicate AllSound(w: World, run: seq<Request>) {
    forall q :: q in run ==> SignerSound(w, q)
  }

  lemma AcceptedTail(w: World, s: Stream)
    requires Accepted(w, s.rows) && s.terminated
    ensures TailOf(s.rows, s.terminated).Ok? <==> NoSplit(s.rows)
    ensures NoSplit(s.rows) ==> TailOf(s.rows, s.terminated) == Ok(Tail(|Events(s.rows)|, Head(Events(s.rows))))
  {
    ScanSucceedsIff(s.rows);
    assert forall i :: 0 <= i < |s.rows| ==> Readable(s.rows[i]);
    if NoSplit(s.rows) { ScanFindsHead(w, s.rows); }
  }

  /** Every crash-free run of emitters with sound identities leaves a stream the audit accepts. */
  lemma {:induction false} RunIsAccepted(w: World, run: seq<Request>)
    requires AllSound(w, run)
    ensures var s := Run(w, run);
            && Accepted(w, s.rows) && s.terminated
            && |Events(s.rows)| == |s.rows|
            && forall i :: 0 <= i < |s.rows| ==> Events(s.rows)[i].seqNo == i + 1
  {
    if run != [] {
      var init, q := run[..|run| - 1], run[|run| - 1];
      RunIsAccepted(w, init);
      var s := Run(w, init);
      AcceptedTail(w, s);
      if TailOf(s.rows, s.terminated).Ok? && NewEvent(w, TailOf(s.rows, s.terminated).value, q).Some? {
        var e := NewEvent(w, TailOf(s.rows, s.terminated).value, q).value;
        AppendKeepsAccepted(w, s.rows, q, EventBreaks(e));
      }
    }
    var events := Events(Run(w, run).rows);
    forall i | 0 <= i < |events| ensures events[i].seqNo == i + 1 { assert LinkOk(w, events, i); }
  }

  predicate RequestBreaks(q: Request) {
    || TextBreaks(q.id) || TextBreaks(q.kind) || TextBreaks(q.timestamp) || ValueBreaks(q.payload)
    || (q.signer.Some? && (TextBreaks(q.signer.value.agentId) || (q.signer.value.canSign && TextBreaks(q.signer.value.pubkey))))
  }

  lemma NewEventBreaks(w: World, t: Tail, q: Request)
    requires NewEvent(w, t, q).Some? && !t.hash.OtherText?
    ensures EventBreaks(NewEvent(w, t, q).value) <==> RequestBreaks(q)
  {
    assert !TextBreaks("");
  }

  lemma HeadIsDigest(w: World, events: seq<BusEvent>)
    requires Chained(w, events)
    ensures events == [] ==> Head(events) == Zero
    ensures events != [] ==> Head(events).Sha256? && Head(events).content.seqNo == |events|
  {
    if events != [] { assert LinkOk(w, events, |events| - 1); }
  }

  /** The emits that reach the stream: everything normalisable up to and including the first request
      whose text holds a line break that only the tail scan sees. */
  function Landed(run: seq<Request>): seq<Request> {
    if run == [] then []
    else
      var before, q := Landed(run[..|run| - 1]), run[|run| - 1];
      if Normalizable(q.payload) && (forall p :: p in before ==> !RequestBreaks(p)) then before + [q] else before
  }

  /** The row carries the request's fields and the emitter's name, key and signature, and is split exactly
      when the request's text holds a break. */
  predicate Records(w: World, row: Row, q: Request)
    requires row.Object?
  {
    && row.event.id == q.id && row.event.kind == q.kind && row.event.payload == q.payload
    && row.event.timestamp == q.timestamp && (row.split <==> RequestBreaks(q))
    && row.event.actor == (match q.signer case None => "" case Some(s) => s.agentId)
    && row.event.pubkey == (match q.signer case None => "" case Some(s) => if s.canSign then s.pubkey else "")
    && Verify(w, row.event) == if w.nacl && Signs(q) then Valid else Unsigned
  }

  ghost predicate AllRecorded(w: World, rows: seq<Row>, landed: seq<Request>) {
    |rows| == |landed| && forall i :: 0 <= i < |rows| ==> rows[i].Object? && Records(w, rows[i], landed[i])
  }

  lemma NoSplitIff(w: World, rows: seq<Row>, landed: seq<Request>)
    requires AllRecorded(w, rows, landed)
    ensures NoSplit(rows) <==> forall p :: p in landed ==> !RequestBreaks(p)
  {
    if NoSplit(rows) {
      forall p | p in landed ensures !RequestBreaks(p) {
        var i :| 0 <= i < |landed| && landed[i] == p;
        assert Records(w, rows[i], landed[i]);
      }
    } else {
      var i :| 0 <= i < |rows| && rows[i].Object? && rows[i].split;
      assert Records(w, rows[i], landed[i]) && landed[i] in landed;
    }
  }

  /** A step writes exactly when no earlier row is split and the payload can be normalised. */
  lemma StepWrites(w: World, s: Stream, q: Request)
    requires Accepted(w, s.rows) && s.terminated && SignerSound(w, q)
    ensures !(NoSplit(s.rows) && Normalizable(q.payload)) ==> Step(w, s, q) == s
    ensures NoSplit(s.rows) && Normalizable(q.payload) ==>
              var rows := Step(w, s, q).rows;
              |rows| == |s.rows| + 1 && rows[..|s.rows|] == s.rows && rows[|s.rows|].Object? && Records(w, rows[|s.rows|], q)
  {
    AcceptedTail(w, s);
    NormalizeIsSound(q.payload);
    HeadIsDigest(w, Events(s.rows));
    if NoSplit(s.rows) && Normalizable(q.payload) {
      NewEventBreaks(w, TailOf(s.rows, s.terminated).value, q);
      NewEventVerifies(w, TailOf(s.rows, s.terminated).value, q);
    }
  }

  /** Exactly those requests are in the stream, in lock order: in particular nothing can be emitted
      after an event holding U+0085, U+2028 or U+2029. */
  lemma {:induction false} StreamIsLanded(w: World, run: seq<Request>)
    requires AllSound(w, run)
    ensures AllRecorded(w, Run(w, run).rows, Landed(run))
  {
    if run != [] {
      var init, q := run[..|run| - 1], run[|run| - 1];
      StreamIsLanded(w, init);
      RunIsAccepted(w, init);
      NoSplitIff(w, Run(w, init).rows, Landed(init));
      StepWrites(w, Run(w, init), q);
      assert Run(w, run).rows[..|Landed(init)|] == Run(w, init).rows;
    }
  }

  // ---------------------------------------------------------------- what the last hash fixes

  /** Both payloads normalise, to values that denote the same JSON tree. */
  predicate SamePayload(x: Value, y: Value) {
    NormalizeIsSound(x);
    NormalizeIsSound(y);
    && Normalize(x).Ok? && Normalize(y).Ok?
    && Denote(Normalize(x).value) == Denote(Normalize(y).value)
  }

  /** The events agree on every field the source hashes and signs. */
  predicate SameEvent(a: BusEvent, b: BusEvent) {
    && a.id == b.id && a.kind == b.kind && a.actor == b.actor && a.pubkey == b.pubkey
    && a.timestamp == b.timestamp && a.seqNo == b.seqNo && a.prev == b.prev
    && SamePayload(a.payload, b.payload)
  }

  /** Events that carry the hash of their content have the same hash exactly when they agree field by field. */
  lemma HashBinds(a: BusEvent, b: BusEvent)
    requires HashMatches(a) && HashMatches(b)
    ensures a.hash == b.hash <==> SameEvent(a, b)
  {
    NormalizeIsSound(a.payload);
    NormalizeIsSound(b.payload);
  }

  lemma {:induction false} HeadFixesHashes(w: World, a: seq<BusEvent>, b: seq<BusEvent>)
    requires Chained(w, a) && Chained(w, b) && Head(a) == Head(b)
    ensures |a| == |b| && forall i :: 0 <= i < |a| ==> a[i].hash == b[i].hash
  {
    HeadIsDigest(w, a);
    HeadIsDigest(w, b);
    if a != [] {
      var n := |a| - 1;
      assert LinkOk(w, a, n) && LinkOk(w, b, n);
      assert a == a[..n] + [a[n]] && b == b[..n] + [b[n]];
      ChainedAppend(w, a[..n], a[n]);
      ChainedAppend(w, b[..n], b[n]);
      HeadFixesHashes(w, a[..n], b[..n]);
    }
  }

  /** Two accepted streams with the same last hash have the same length and agree on every hashed
      field at every position. */
  lemma SameHeadSameHistory(w: World, a: seq<BusEvent>, b: seq<BusEvent>)
    requires Chained(w, a) && Chained(w, b) && Head(a) == Head(b)
    ensures |a| == |b| && forall i :: 0 <= i < |a| ==> SameEvent(a[i], b[i]) && a[i].hash == b[i].hash
  {
    HeadFixesHashes(w, a, b);
    forall i | 0 <= i < |a| ensures SameEvent(a[i], b[i]) {
      assert LinkOk(w, a, i) && LinkOk(w, b, i);
      HashBinds(a[i], b[i]);
    }
  }

  lemma AcceptedStreamsAgree(w: World, a: seq<Row>, b: seq<Row>)
    requires Accepted(w, a) && Accepted(w, b) && Head(Events(a)) == Head(Events(b))
    ensures |Events(a)| == |Events(b)|
    ensures forall i :: 0 <= i < |Events(a)| ==> SameEvent(Events(a)[i], Events(b)[i])
  {
    SameHeadSameHistory(w, Events(a), Events(b));
  }

  // ---------------------------------------------------------------- after a crash

  function RunFrom(w: World, s: Stream, run: seq<Request>): Stream {
    if run == [] then s else Step(w, RunFrom(w, s, run[..|run| - 1]), run[|run| - 1])
  }

  /** A run is one from the empty file. */
  lemma {:induction false} RunIsFromEmpty(w: World, run: seq<Request>)
    ensures RunFrom(w, Stream([], true), run) == Run(w, run)
  {
    if run != [] { RunIsFromEmpty(w, run[..|run| - 1]); }
  }

  /** A torn last line is forgiven once; the event written after it seals it in, and from then on no
      emit succeeds and the audit refuses the stream. */
  lemma {:induction false} TornTailSealsStream(w: World, s: Stream, first: Request, later: seq<Request>)
    requires TornTail(s.rows, s.terminated) && Scan(s.rows[..|s.rows| - 1]).Ok? && Normalizable(first.payload)
    ensures |Step(w, s, first).rows| == |s.rows| + 1
    ensures RunFrom(w, Step(w, s, first), later) == Step(w, s, first)
    ensures !Accepted(w, Step(w, s, first).rows)
  {
    NormalizeIsSound(first.payload);
    var one := Step(w, s, first);
    var n := |s.rows| - 1;
    assert one.rows[n] == Corrupt && !Readable(one.rows[n]);
    ScanSucceedsIff(one.rows);
    if later != [] {
      TornTailSealsStream(w, s, first, later[..|later| - 1]);
    }
  }
}
