/** The byte-offset index over the event file (nth_dao/event_bus.py): point lookup against a linear scan. */
module EventIndex {
  import opened Prelude

  newtype Byte = x: int | 0 <= x < 256

  const NL: Byte := 10

  datatype Event = Event(id: string, body: string)

  /** `render` is the JSON dump of an event as UTF-8; `parse` decodes, strips, loads and builds an event. */
  datatype Codec = Codec(render: Event -> seq<Byte>, parse: seq<Byte> -> Option<Event>)

  /** A rendered event is one non-empty line that parses back, and a line's own newline changes nothing. */
  ghost predicate Lawful(codec: Codec) {
    && (forall e :: codec.render(e) != [] && NL !in codec.render(e) && codec.parse(codec.render(e)) == Some(e))
    && (forall line :: NL !in line ==> EndsAlike(codec, line))
  }

  predicate EndsAlike(codec: Codec, line: seq<Byte>) {
    codec.parse(line + [NL]) == codec.parse(line)
  }

  // ---------------------------------------------------------------- lines by position

  /** Number of bytes `readline` returns. */
  function LineLength(s: seq<Byte>): (n: nat)
    ensures n <= |s| && (s != [] ==> n > 0)
  {
    if s == [] then 0 else if s[0] == NL then 1 else 1 + LineLength(s[1..])
  }

  function LineAt(file: seq<Byte>, at: nat): seq<Byte>
    requires at <= |file|
  {
    file[at..at + LineLength(file[at..])]
  }

  predicate LineStart(file: seq<Byte>, at: int) {
    at == 0 <= |file| - 1 || (0 < at < |file| && file[at - 1] == NL)
  }

  predicate Holds(codec: Codec, file: seq<Byte>, at: int, id: string) {
    && LineStart(file, at)
    && codec.parse(LineAt(file, at)).Some?
    && codec.parse(LineAt(file, at)).value.id == id
  }

  /** A line is either newline-free up to the end of the file or ends in its only newline. */
  lemma {:induction false} LineShape(s: seq<Byte>)
    ensures var n := LineLength(s); NL !in s[..n] || (n > 0 && s[n - 1] == NL && NL !in s[..n - 1])
    ensures LineLength(s) < |s| ==> NL in s[..LineLength(s)]
  {
    if s != [] && s[0] != NL {
      LineShape(s[1..]);
      var n := LineLength(s);
      assert s[..n] == [s[0]] + s[1..][..n - 1];
      if n > 1 { assert s[..n - 1] == [s[0]] + s[1..][..n - 2]; }
    }
  }

  lemma {:induction false} LineLengthAppend(s: seq<Byte>, t: seq<Byte>)
    ensures NL in s ==> LineLength(s + t) == LineLength(s)
    ensures NL !in s ==> LineLength(s + [NL] + t) == |s| + 1 && LineLength(s) == |s|
  {
    if s != [] && s[0] != NL {
      LineLengthAppend(s[1..], t);
      assert (s + t)[1..] == s[1..] + t;
      assert (s + [NL] + t)[1..] == s[1..] + [NL] + t;
      assert s == [s[0]] + s[1..];
    }
  }

  lemma NextLineStart(file: seq<Byte>, at: nat)
    requires at < |file|
    ensures var next := at + LineLength(file[at..]);
            && at < next <= |file|
            && (next < |file| ==> LineStart(file, next))
            && forall o :: at < o < next ==> !LineStart(file, o)
  {
    var s, n := file[at..], LineLength(file[at..]);
    LineShape(s);
    forall o | at < o < at + n ensures !LineStart(file, o) {
      assert file[o - 1] == s[o - 1 - at];
      assert s[o - 1 - at] in s[..n - 1];
      if NL !in s[..n] { assert s[o - 1 - at] in s[..n]; }
    }
    if n < |s| {
      assert file[at + n - 1] == s[n - 1];
    }
  }

  // ---------------------------------------------------------------- the linear scan

  /** The first event with this id from a line start on, skipping lines that do not parse. */
  function ScanFrom(codec: Codec, file: seq<Byte>, at: nat, id: string): Option<Event>
    requires at <= |file|
    decreases |file| - at
  {
    if at == |file| then None
    else
      var n := LineLength(file[at..]);
      var hit := codec.parse(LineAt(file, at));
      if hit.Some? && hit.value.id == id then hit else ScanFrom(codec, file, at + n, id)
  }

  function LinearScan(codec: Codec, file: seq<Byte>, id: string): Option<Event> {
    ScanFrom(codec, file, 0, id)
  }

  ghost predicate UniqueIds(codec: Codec, file: seq<Byte>) {
    forall o, p, id :: Holds(codec, file, o, id) && Holds(codec, file, p, id) ==> o == p
  }

  /** Every index entry is the byte offset of a line holding that event. */
  ghost predicate IndexSound(codec: Codec, file: seq<Byte>, index: map<string, int>) {
    forall id :: id in index ==> Holds(codec, file, index[id], id)
  }

  ghost predicate Complete(codec: Codec, file: seq<Byte>, index: map<string, int>, upTo: nat) {
    forall o, id :: Holds(codec, file, o, id) && o < upTo ==> id in index
  }

  /** With unique ids the scan finds the event wherever its line is. */
  lemma {:induction false} ScanFinds(codec: Codec, file: seq<Byte>, at: nat, o: nat, id: string)
    requires at <= o && Holds(codec, file, o, id) && UniqueIds(codec, file) && LineStart(file, at)
    ensures ScanFrom(codec, file, at, id) == codec.parse(LineAt(file, o))
    decreases |file| - at
  {
    if at < o {
      NextLineStart(file, at);
      assert !Holds(codec, file, at, id);
      ScanFinds(codec, file, at + LineLength(file[at..]), o, id);
    }
  }

  lemma {:induction false} ScanMisses(codec: Codec, file: seq<Byte>, at: nat, id: string)
    requires at < |file| ==> LineStart(file, at)
    requires at <= |file| && forall o :: at <= o ==> !Holds(codec, file, o, id)
    ensures ScanFrom(codec, file, at, id) == None
    decreases |file| - at
  {
    if at < |file| {
      NextLineStart(file, at);
      assert !Holds(codec, file, at, id);
      ScanMisses(codec, file, at + LineLength(file[at..]), id);
    }
  }

  // ---------------------------------------------------------------- appending a line

  /** What an emit writes: it first ends an unterminated last line. */
  function Written(codec: Codec, file: seq<Byte>, e: Event): seq<Byte> {
    Ended(file) + codec.render(e) + [NL]
  }

  function Ended(file: seq<Byte>): seq<Byte> {
    if file != [] && file[|file| - 1] != NL then file + [NL] else file
  }

  /** Old lines keep their place and their meaning; the one new line start is the end of the old file. */
  lemma AppendKeepsLines(codec: Codec, file: seq<Byte>, e: Event, o: int, id: string)
    requires Lawful(codec)
    ensures o != |Ended(file)| ==> (Holds(codec, Written(codec, file, e), o, id) <==> Holds(codec, file, o, id))
    ensures Holds(codec, Written(codec, file, e), |Ended(file)|, id) <==> id == e.id
    ensures !Holds(codec, file, |Ended(file)|, id)
  {
    var grown, base := Written(codec, file, e), |Ended(file)|;
    NewLine(codec, file, e);
    if o != base {
      assert LineStart(file, o) <==> LineStart(grown, o) by {
        if base < o < |grown| {
          assert grown[o - 1] == codec.render(e)[o - 1 - base];
        }
      }
      if LineStart(file, o) { OldLine(codec, file, e, o); }
    }
  }

  lemma NewLine(codec: Codec, file: seq<Byte>, e: Event)
    requires Lawful(codec)
    ensures var grown, at := Written(codec, file, e), |Ended(file)|;
            LineStart(grown, at) && codec.parse(LineAt(grown, at)) == Some(e)
  {
    var grown, at := Written(codec, file, e), |Ended(file)|;
    var line := codec.render(e);
    assert grown[at..] == line + [NL] + [];
    LineLengthAppend(line, []);
    assert LineAt(grown, at) == line + [NL];
    assert EndsAlike(codec, line);
  }

  lemma OldLine(codec: Codec, file: seq<Byte>, e: Event, o: nat)
    requires Lawful(codec) && LineStart(file, o)
    ensures codec.parse(LineAt(Written(codec, file, e), o)) == codec.parse(LineAt(file, o))
  {
    var s := file[o..];
    if NL in s {
      KeptLine(file, Written(codec, file, e)[|file|..], o);
      assert Written(codec, file, e) == file + Written(codec, file, e)[|file|..];
    } else {
      assert file[|file| - 1] == s[|s| - 1];
      FinishedLine(file, codec.render(e) + [NL], o);
      assert EndsAlike(codec, s);
      assert Written(codec, file, e) == file + [NL] + (codec.render(e) + [NL]);
    }
  }

  lemma KeptLine(file: seq<Byte>, t: seq<Byte>, o: nat)
    requires o <= |file| && NL in file[o..]
    ensures LineAt(file + t, o) == LineAt(file, o)
  {
    assert (file + t)[o..] == file[o..] + t;
    EndedLine(file[o..], t);
  }

  lemma FinishedLine(file: seq<Byte>, t: seq<Byte>, o: nat)
    requires o <= |file| && NL !in file[o..]
    ensures LineAt(file + [NL] + t, o) == file[o..] + [NL] && LineAt(file, o) == file[o..]
  {
    assert (file + [NL] + t)[o..] == file[o..] + [NL] + t;
    TornLine(file[o..], t);
  }

  lemma EndedLine(s: seq<Byte>, t: seq<Byte>)
    requires NL in s
    ensures LineLength(s + t) == LineLength(s) && (s + t)[..LineLength(s)] == s[..LineLength(s)]
  {
    LineLengthAppend(s, t);
  }

  lemma TornLine(s: seq<Byte>, line: seq<Byte>)
    requires NL !in s
    ensures LineLength(s + [NL] + line) == |s| + 1 && LineLength(s) == |s|
    ensures (s + [NL] + line)[..|s| + 1] == s + [NL] && s[..|s|] == s
  {
    LineLengthAppend(s, line);
  }

  lemma AppendKeepsIndex(codec: Codec, file: seq<Byte>, index: map<string, int>, e: Event)
    requires Lawful(codec) && UniqueIds(codec, file) && IndexSound(codec, file, index)
    requires forall o :: !Holds(codec, file, o, e.id)
    ensures UniqueIds(codec, Written(codec, file, e))
    ensures IndexSound(codec, Written(codec, file, e), index[e.id := |Ended(file)|])
  {
    var grown, base := Written(codec, file, e), |Ended(file)|;
    forall o, p, id | Holds(codec, grown, o, id) && Holds(codec, grown, p, id) ensures o == p {
      AppendKeepsLines(codec, file, e, o, id);
      AppendKeepsLines(codec, file, e, p, id);
    }
    var after := index[e.id := base];
    forall id | id in after ensures Holds(codec, grown, after[id], id) {
      AppendKeepsLines(codec, file, e, after[id], id);
    }
  }

  // ---------------------------------------------------------------- the indexed file

  class IndexedFile {
    const codec: Codec
    var file: seq<Byte>
    var index: map<string, int>

    ghost predicate Valid()
      reads this
    {
      Lawful(codec) && UniqueIds(codec, file) && IndexSound(codec, file, index)
    }

    constructor (codec: Codec)
      requires Lawful(codec)
      ensures Valid() && this.codec == codec && file == [] && index == map[]
    {
      this.codec := codec;
      file, index := [], map[];
    }

    /** The id is freshly drawn, so no line of the file carries it. */
    method Emit(e: Event)
      requires Valid() && forall o :: !Holds(codec, file, o, e.id)
      modifies this
      ensures Valid()
      ensures file == Written(codec, old(file), e)
      ensures index == old(index)[e.id := |Ended(old(file))|]
      ensures LinearScan(codec, file, e.id) == Some(e)
    {
      AppendKeepsIndex(codec, file, index, e);
      NewLine(codec, file, e);
      var offset := |file|;
      if offset != 0 && file[offset - 1] != NL {
        file := file + [NL];
        offset := offset + 1;
      }
      file := file + codec.render(e) + [NL];
      index := index[e.id := offset];
      ScanFinds(codec, file, 0, offset, e.id);
    }

    /** The index afterwards has exactly the ids of the file's parseable lines, each with its offset. */
    method Rebuild()
      modifies this`index
      ensures IndexSound(codec, file, index)
      ensures Complete(codec, file, index, |file|)
      ensures old(Valid()) ==> Valid()
    {
      var found: map<string, int> := map[];
      var offset := 0;
      while offset < |file|
        invariant 0 <= offset <= |file|
        invariant offset < |file| ==> LineStart(file, offset)
        invariant IndexSound(codec, file, found)
        invariant Complete(codec, file, found, offset)
        decreases |file| - offset
      {
        NextLineStart(file, offset);
        var line := LineAt(file, offset);
        var event := codec.parse(line);
        if event.Some? {
          assert Holds(codec, file, offset, event.value.id);
          found := found[event.value.id := offset];
        }
        offset := offset + |line|;
      }
      index := found;
    }

    method LoseIndex()
      modifies this`index
      ensures index == map[] && (old(Valid()) ==> Valid())
    {
      index := map[];
    }

    /** Read one line at an offset and trust it only if it carries the wanted id. */
    method ReadAt(offset: int, id: string) returns (r: Option<Event>)
      ensures r.Some? ==> r.value.id == id
      ensures r.Some? ==> 0 <= offset <= |file| && r == codec.parse(LineAt(file, offset))
      ensures Holds(codec, file, offset, id) ==> r == codec.parse(LineAt(file, offset))
    {
      if offset < 0 || offset > |file| {
        return None;
      }
      var event := codec.parse(LineAt(file, offset));
      if event.None? || event.value.id != id {
        return None;
      }
      return event;
    }

    /** Whatever the index says, no event with another id is returned; with a sound index, even an
        incomplete one, the answer is the linear scan's. */
    method Get(id: string) returns (r: Option<Event>)
      modifies this`index
      ensures r.Some? ==> r.value.id == id
      ensures old(Valid()) ==> Valid() && r == LinearScan(codec, file, id)
    {
      ghost var sound := Valid();
      if id !in index {
        Rebuild();
        if id !in index {
          if sound {
            forall o | 0 <= o ensures !Holds(codec, file, o, id) { }
            ScanMisses(codec, file, 0, id);
          }
          return None;
        }
      }
      r := ReadAt(index[id], id);
      if sound {
        ScanFinds(codec, file, 0, index[id], id);
      }
    }
  }

  // ---------------------------------------------------------------- whole runs

  datatype Op = Emit(e: Event) | Get(id: string) | Rebuild | LoseIndex

  datatype State = State(file: seq<Byte>, index: map<string, int>)

  /** What the four operations may do to file and index. */
  ghost predicate Step(codec: Codec, s: State, op: Op, s': State) {
    match op
    case Emit(e) =>
      && (forall o :: !Holds(codec, s.file, o, e.id))
      && s' == State(Written(codec, s.file, e), s.index[e.id := |Ended(s.file)|])
    case Get(id) => s'.file == s.file && (s'.index == s.index || (id !in s.index && Rebuilt(codec, s')))
    case Rebuild => s'.file == s.file && Rebuilt(codec, s')
    case LoseIndex => s' == State(s.file, map[])
  }

  ghost predicate Rebuilt(codec: Codec, s: State) {
    IndexSound(codec, s.file, s.index) && Complete(codec, s.file, s.index, |s.file|)
  }

  ghost predicate StepAt(codec: Codec, states: seq<State>, ops: seq<Op>, i: nat)
    requires i < |ops| && i + 1 < |states|
  {
    Step(codec, states[i], ops[i], states[i + 1])
  }

  ghost predicate Run(codec: Codec, states: seq<State>, ops: seq<Op>) {
    && |states| == |ops| + 1
    && states[0] == State([], map[])
    && forall i :: 0 <= i < |ops| ==> StepAt(codec, states, ops, i)
  }

  ghost predicate Consistent(codec: Codec, s: State) {
    UniqueIds(codec, s.file) && IndexSound(codec, s.file, s.index)
  }

  lemma StepKeepsIndex(codec: Codec, s: State, op: Op, s': State)
    requires Lawful(codec) && Consistent(codec, s) && Step(codec, s, op, s')
    ensures Consistent(codec, s')
  {
    if op.Emit? { AppendKeepsIndex(codec, s.file, s.index, op.e); }
  }

  /** In every run each index entry is the byte offset of its event's line, and no id occurs twice. */
  lemma {:induction false} RunKeepsIndex(codec: Codec, states: seq<State>, ops: seq<Op>, n: nat)
    requires Lawful(codec) && Run(codec, states, ops) && n < |states|
    ensures Consistent(codec, states[n])
  {
    if n > 0 {
      RunKeepsIndex(codec, states, ops, n - 1);
      assert StepAt(codec, states, ops, n - 1);
      StepKeepsIndex(codec, states[n - 1], ops[n - 1], states[n]);
    }
  }

  /** Emitted events are found by a scan for ever after. */
  lemma {:induction false} EmittedStaysFound(codec: Codec, states: seq<State>, ops: seq<Op>, k: nat, n: nat)
    requires Lawful(codec) && Run(codec, states, ops) && k < n < |states| && ops[k].Emit?
    ensures LinearScan(codec, states[n].file, ops[k].e.id) == Some(ops[k].e)
  {
    var e := ops[k].e;
    var at := |Ended(states[k].file)|;
    EmittedStays(codec, states, ops, k, n);
    RunKeepsIndex(codec, states, ops, n);
    ScanFinds(codec, states[n].file, 0, at, e.id);
  }

  /** The line at `at` holds exactly this event. */
  predicate Carries(codec: Codec, file: seq<Byte>, at: int, e: Event) {
    LineStart(file, at) && codec.parse(LineAt(file, at)) == Some(e)
  }

  lemma StepKeepsLine(codec: Codec, s: State, op: Op, s': State, at: int, e: Event)
    requires Lawful(codec) && Step(codec, s, op, s') && Carries(codec, s.file, at, e)
    ensures Carries(codec, s'.file, at, e)
  {
    if op.Emit? {
      AppendKeepsLines(codec, s.file, op.e, at, e.id);
      OldLine(codec, s.file, op.e, at);
    }
  }

  lemma {:induction false} EmittedStays(codec: Codec, states: seq<State>, ops: seq<Op>, k: nat, n: nat)
    requires Lawful(codec) && Run(codec, states, ops) && k < n < |states| && ops[k].Emit?
    ensures Carries(codec, states[n].file, |Ended(states[k].file)|, ops[k].e)
  {
    assert StepAt(codec, states, ops, n - 1);
    if n == k + 1 {
      NewLine(codec, states[k].file, ops[k].e);
    } else {
      EmittedStays(codec, states, ops, k, n - 1);
      StepKeepsLine(codec, states[n - 1], ops[n - 1], states[n], |Ended(states[k].file)|, ops[k].e);
    }
  }

  // ---------------------------------------------------------------- such codecs exist

  function CharBytes(c: char): seq<Byte> {
    var n := c as int;
    [(128 + n / 16384) as Byte, (128 + n / 128 % 128) as Byte, (128 + n % 128) as Byte]
  }

  function TextBytes(s: string): seq<Byte> {
    if s == "" then [] else TextBytes(s[..|s| - 1]) + CharBytes(s[|s| - 1])
  }

  function Render(e: Event): seq<Byte> {
    TextBytes(e.id) + [32] + TextBytes(e.body)
  }

  lemma CharBytesInjective(c: char, d: char)
    requires CharBytes(c) == CharBytes(d)
    ensures c == d
  {
    var m, n := c as int, d as int;
    assert CharBytes(c)[0] == CharBytes(d)[0] && CharBytes(c)[1] == CharBytes(d)[1] && CharBytes(c)[2] == CharBytes(d)[2];
    assert m / 16384 == n / 16384 && m / 128 % 128 == n / 128 % 128 && m % 128 == n % 128;
    assert m / 128 == m / 16384 * 128 + m / 128 % 128 && n / 128 == n / 16384 * 128 + n / 128 % 128;
  }

  predicate AllHigh(s: seq<Byte>) {
    forall i :: 0 <= i < |s| ==> s[i] >= 128
  }

  lemma {:induction false} TextBytesShape(s: string)
    ensures |TextBytes(s)| == 3 * |s| && AllHigh(TextBytes(s))
  {
    if s != "" { TextBytesShape(s[..|s| - 1]); }
  }

  lemma TextBytesEnd(s: string)
    requires s != ""
    ensures var m := |s| - 1;
            |TextBytes(s)| == 3 * |s| && TextBytes(s)[..3 * m] == TextBytes(s[..m]) && TextBytes(s)[3 * m..] == CharBytes(s[m])
  {
    TextBytesShape(s[..|s| - 1]);
  }

  lemma SameEnds(s: string, t: string)
    requires s != "" && t != "" && s[..|s| - 1] == t[..|t| - 1] && s[|s| - 1] == t[|t| - 1]
    ensures s == t
  {
    assert s == s[..|s| - 1] + [s[|s| - 1]] && t == t[..|t| - 1] + [t[|t| - 1]];
  }

  lemma {:induction false} TextBytesInjective(s: string, t: string)
    requires TextBytes(s) == TextBytes(t)
    ensures s == t
  {
    TextBytesShape(s);
    TextBytesShape(t);
    if s != "" {
      TextBytesEnd(s);
      TextBytesEnd(t);
      TextBytesInjective(s[..|s| - 1], t[..|t| - 1]);
      CharBytesInjective(s[|s| - 1], t[|t| - 1]);
      SameEnds(s, t);
    }
  }

  /** The separator is the first low byte, so it tells where the id ends. */
  lemma SplitAtLow(a: seq<Byte>, x: seq<Byte>, b: seq<Byte>, y: seq<Byte>)
    requires AllHigh(a) && AllHigh(b) && a + [32] + x == b + [32] + y
    ensures a == b && x == y
  {
    var l := a + [32] + x;
    assert l[|a|] == 32 && l[|b|] == 32;
    assert forall i :: 0 <= i < |a| ==> l[i] == a[i];
    assert forall i :: 0 <= i < |b| ==> l[i] == b[i];
    assert |a| == |b|;
    assert a == l[..|a|] && b == l[..|a|] && x == l[|a| + 1..] && y == l[|a| + 1..];
  }

  lemma RenderInjective(e: Event, f: Event)
    requires Render(e) == Render(f)
    ensures e == f
  {
    TextBytesShape(e.id);
    TextBytesShape(f.id);
    SplitAtLow(TextBytes(e.id), TextBytes(e.body), TextBytes(f.id), TextBytes(f.body));
    TextBytesInjective(e.id, f.id);
    TextBytesInjective(e.body, f.body);
  }

  lemma RenderIsOneLine(e: Event)
    ensures Render(e) != [] && NL !in Render(e)
  {
    TextBytesShape(e.id);
    TextBytesShape(e.body);
  }

  function Stripped(line: seq<Byte>): seq<Byte> {
    if line != [] && line[|line| - 1] == NL then line[..|line| - 1] else line
  }

  ghost function ParseBody(text: seq<Byte>): Option<Event> {
    if exists e :: Render(e) == text then Some(var e :| Render(e) == text; e) else None
  }

  ghost function Parse(line: seq<Byte>): Option<Event> {
    ParseBody(Stripped(line))
  }

  lemma StrippedLine(line: seq<Byte>)
    requires NL !in line
    ensures Stripped(line) == line && Stripped(line + [NL]) == line
  {
    assert (line + [NL])[..|line|] == line;
    assert line != [] ==> line[|line| - 1] in line;
  }

  lemma ParseUndoesRender(e: Event)
    ensures Parse(Render(e)) == Some(e)
  {
    RenderIsOneLine(e);
    StrippedLine(Render(e));
    var f := ParseBody(Render(e)).value;
    RenderInjective(e, f);
  }

  lemma ParseIgnoresNewline(line: seq<Byte>)
    requires NL !in line
    ensures Parse(line + [NL]) == Parse(line)
  {
    StrippedLine(line);
    var text := Stripped(line + [NL]);
    assert text == line;
    assert ParseBody(text) == ParseBody(line);
  }

  ghost function TheCodec(): Codec {
    Codec(Render, Parse)
  }

  lemma TheCodecRenders(e: Event)
    ensures var codec := TheCodec(); codec.render(e) != [] && NL !in codec.render(e) && codec.parse(codec.render(e)) == Some(e)
  {
    RenderIsOneLine(e);
    ParseUndoesRender(e);
  }

  lemma TheCodecEndsAlike(line: seq<Byte>)
    requires NL !in line
    ensures EndsAlike(TheCodec(), line)
  {
    ParseIgnoresNewline(line);
  }

  /** What is asked of the codec can be had. */
  lemma LawfulCodecExists()
    ensures exists codec :: Lawful(codec)
  {
    var codec := TheCodec();
    forall e ensures codec.render(e) != [] && NL !in codec.render(e) && codec.parse(codec.render(e)) == Some(e) {
      TheCodecRenders(e);
    }
    forall line | NL !in line ensures EndsAlike(codec, line) { TheCodecEndsAlike(line); }
    assert Lawful(codec);
  }
}
