/** When the text of an event holds a line end that only `str.splitlines` sees (nth_dao/event_bus.py): the dump of a
    payload has one exactly when some text or key in it does. */
module EventLines {
  import opened Prelude
  import opened CanonicalJson
  import opened EventChain

  lemma BreaksConcat(a: string, b: string)
    ensures TextBreaks(a + b) <==> TextBreaks(a) || TextBreaks(b)
  {
    TextBreaksIff(a);
    TextBreaksIff(b);
    TextBreaksIff(a + b);
  }

  /** Text of printable ASCII characters has none. */
  predicate Ascii(s: string) {
    forall i :: 0 <= i < |s| ==> ' ' <= s[i] <= '~'
  }

  lemma AsciiHasNone(s: string)
    requires Ascii(s)
    ensures !TextBreaks(s)
  {
  }

  lemma {:induction false} DecimalHasNone(n: nat)
    ensures !TextBreaks(Decimal(n))
  {
    if n >= 10 {
      DecimalHasNone(n / 10);
      BreaksConcat(Decimal(n / 10), [Digit(n % 10)]);
    }
  }

  lemma EscapedCharBreaks(c: char)
    ensures TextBreaks(EscapeChar(c)) <==> IsBreak(c)
  {
    EscapeTable(c);
    if c >= ' ' && c !in {'"', '\\'} {
      assert EscapeChar(c)[0] == c;
    } else {
      AsciiHasNone(EscapeChar(c));
    }
  }

  lemma {:induction false} EscapeBreaks(s: string)
    ensures TextBreaks(Escape(s)) <==> TextBreaks(s)
  {
    if s != "" {
      EscapeBreaks(s[1..]);
      EscapedCharBreaks(s[0]);
      BreaksConcat(EscapeChar(s[0]), Escape(s[1..]));
      BreaksConcat([s[0]], s[1..]);
      OneBreaks(s[0]);
      assert s == [s[0]] + s[1..];
    }
  }

  lemma OneBreaks(c: char)
    ensures TextBreaks([c]) <==> IsBreak(c)
  {
    if IsBreak(c) { assert [c][0] == c; }
  }

  lemma Enclosed(open: string, s: string, close: string)
    requires Ascii(open) && Ascii(close)
    ensures TextBreaks(open + s + close) <==> TextBreaks(s)
  {
    AsciiHasNone(open);
    AsciiHasNone(close);
    BreaksConcat(open, s);
    BreaksConcat(open + s, close);
  }

  lemma Separated(a: string, mark: string, b: string)
    requires Ascii(mark)
    ensures TextBreaks(a + mark + b) <==> TextBreaks(a) || TextBreaks(b)
  {
    AsciiHasNone(mark);
    BreaksConcat(a, mark);
    BreaksConcat(a + mark, b);
  }

  lemma QuotedBreaks(s: string)
    ensures TextBreaks(Quoted(s)) <==> TextBreaks(s)
  {
    EscapeBreaks(s);
    Enclosed("\"", Escape(s), "\"");
  }

  lemma IntHasNone(i: int)
    ensures !TextBreaks(Print(Int(i)))
  {
    DecimalHasNone(if i < 0 then -i else i);
    if i < 0 {
      AsciiHasNone("-");
      BreaksConcat("-", Decimal(-i));
    }
  }

  /** The dump of an accepted value holds such a line end exactly when the value does. */
  lemma {:induction false} DumpBreaksIff(v: Value)
    requires Accepts(v)
    ensures TextBreaks(Print(v)) <==> ValueBreaks(v)
    decreases v, 0
  {
    match v
    case Null => AsciiHasNone("null");
    case Bool(b) =>
      AsciiHasNone("true");
      AsciiHasNone("false");
    case Int(i) => IntHasNone(i);
    case Text(s) => QuotedBreaks(s);
    case List(items) =>
      if items == [] {
        AsciiHasNone("[]");
      } else {
        ItemsBreak(items);
        Enclosed("[", PrintItems(items), "]");
      }
    case Dict(entries) =>
      if entries == [] {
        AsciiHasNone("{}");
      } else {
        EntriesBreak(entries);
        Enclosed("{", PrintEntries(entries), "}");
      }
  }

  predicate SomeItemBreaks(items: seq<Value>) {
    exists x :: x in items && ValueBreaks(x)
  }

  lemma SomeItemCons(items: seq<Value>)
    requires items != []
    ensures SomeItemBreaks(items) <==> ValueBreaks(items[0]) || SomeItemBreaks(items[1..])
  {
    assert items == [items[0]] + items[1..];
    assert items[0] in items;
  }

  lemma {:induction false} ItemsBreak(items: seq<Value>)
    requires items != [] && forall x :: x in items ==> Accepts(x)
    ensures TextBreaks(PrintItems(items)) <==> SomeItemBreaks(items)
    decreases items, 1
  {
    SomeItemCons(items);
    DumpBreaksIff(items[0]);
    if |items| > 1 {
      ItemsBreak(items[1..]);
      Separated(Print(items[0]), ",", PrintItems(items[1..]));
    }
  }

  predicate EntryHasBreak(e: Entry) {
    (e.key.Str? && TextBreaks(e.key.s)) || ValueBreaks(e.value)
  }

  predicate SomeEntryBreaks(entries: seq<Entry>) {
    exists e :: e in entries && EntryHasBreak(e)
  }

  lemma SomeEntryCons(entries: seq<Entry>)
    requires entries != []
    ensures SomeEntryBreaks(entries) <==> EntryHasBreak(entries[0]) || SomeEntryBreaks(entries[1..])
  {
    assert entries == [entries[0]] + entries[1..];
    assert entries[0] in entries;
  }

  lemma {:induction false} EntryDumpBreaks(e: Entry)
    requires e.key.Str? && Accepts(e.value)
    ensures TextBreaks(PrintEntry(e)) <==> EntryHasBreak(e)
    decreases e, 2
  {
    DumpBreaksIff(e.value);
    QuotedBreaks(e.key.s);
    Separated(Quoted(e.key.s), ":", Print(e.value));
  }

  lemma {:induction false} EntriesBreak(entries: seq<Entry>)
    requires entries != [] && forall e :: e in entries ==> e.key.Str? && Accepts(e.value)
    ensures TextBreaks(PrintEntries(entries)) <==> SomeEntryBreaks(entries)
    decreases entries, 1
  {
    SomeEntryCons(entries);
    EntryDumpBreaks(entries[0]);
    if |entries| > 1 {
      EntriesBreak(entries[1..]);
      Separated(PrintEntry(entries[0]), ",", PrintEntries(entries[1..]));
    }
  }
}
