/** The canonical serializer every signed object depends on (nth_dao/canonical_json.py).
    Text is a sequence of Unicode scalar values; the final UTF-8 step is not modelled. */
module CanonicalJson {
  import opened Prelude

  datatype Key = Str(s: string) | NonStr

  datatype Entry = Entry(key: Key, value: Value)

  /** A Python value tree. A float carries its fixed-point rendering, or None when it is not finite;
      a dict keeps insertion order. */
  datatype Value =
    | Null
    | Bool(b: bool)
    | Int(i: int)
    | Text(s: string)
    | Float(decimal: Option<string>)
    | List(items: seq<Value>)
    | Dict(entries: seq<Entry>)
    | Unsupported

  // ---------------------------------------------------------------- validator and normaliser

  predicate Accepts(v: Value) {
    match v
    case Float(_) => false
    case Unsupported => false
    case List(items) => forall x :: x in items ==> Accepts(x)
    case Dict(entries) => forall e :: e in entries ==> e.key.Str? && Accepts(e.value)
    case _ => true
  }

  /** Dict keys are distinct at every level, as in any Python dict. */
  predicate WellFormed(v: Value) {
    match v
    case List(items) => forall x :: x in items ==> WellFormed(x)
    case Dict(entries) => DistinctKeys(entries) && forall e :: e in entries ==> WellFormed(e.value)
    case _ => true
  }

  predicate DistinctKeys(entries: seq<Entry>) {
    forall i, j :: 0 <= i < j < |entries| ==> entries[i].key != entries[j].key
  }

  function Normalize(v: Value): Result<Value>
    decreases v, 0
  {
    match v
    case Float(None) => Err("non-finite float")
    case Float(Some(text)) => Ok(Text(text))
    case Unsupported => Err("cannot normalize")
    case List(items) =>
      (match NormalizeItems(items) case Ok(out) => Ok(List(out)) case Err(e) => Err(e))
    case Dict(entries) =>
      (match NormalizeEntries(entries) case Ok(out) => Ok(Dict(out)) case Err(e) => Err(e))
    case _ => Ok(v)
  }

  function NormalizeItems(items: seq<Value>): Result<seq<Value>>
    decreases items, 1
  {
    if items == [] then Ok([])
    else
      match Normalize(items[0])
      case Err(e) => Err(e)
      case Ok(first) =>
        match NormalizeItems(items[1..])
        case Err(e) => Err(e)
        case Ok(rest) => Ok([first] + rest)
  }

  function NormalizeEntries(entries: seq<Entry>): Result<seq<Entry>>
    decreases entries, 1
  {
    if entries == [] then Ok([])
    else
      match NormalizeEntry(entries[0])
      case Err(e) => Err(e)
      case Ok(first) =>
        match NormalizeEntries(entries[1..])
        case Err(e) => Err(e)
        case Ok(rest) => Ok([first] + rest)
  }

  function NormalizeEntry(entry: Entry): Result<Entry>
    decreases entry, 2
  {
    if entry.key.NonStr? then Err("keys must be strings")
    else match Normalize(entry.value) case Err(e) => Err(e) case Ok(v) => Ok(Entry(entry.key, v))
  }

  /** Normalisation succeeds exactly when no infinity, foreign object or non-string key is inside. */
  predicate Normalizable(v: Value) {
    match v
    case Float(d) => d.Some?
    case Unsupported => false
    case List(items) => forall x :: x in items ==> Normalizable(x)
    case Dict(entries) => forall e :: e in entries ==> e.key.Str? && Normalizable(e.value)
    case _ => true
  }

  /** What normalisation returns passes the validator, keeps dict keys distinct and is a fixed point. */
  lemma {:induction false} NormalizeIsSound(v: Value)
    ensures Normalize(v).Ok? <==> Normalizable(v)
    ensures Normalize(v).Ok? ==> Accepts(Normalize(v).value) && Normalize(Normalize(v).value) == Normalize(v)
    ensures Normalize(v).Ok? && WellFormed(v) ==> WellFormed(Normalize(v).value)
    decreases v, 0
  {
    match v
    case List(items) => NormalizeItemsSound(items);
    case Dict(entries) => NormalizeEntriesSound(entries);
    case _ =>
  }

  lemma {:induction false} NormalizeItemsSound(items: seq<Value>)
    ensures var r := NormalizeItems(items);
            && (r.Ok? <==> forall x :: x in items ==> Normalizable(x))
            && (r.Ok? ==> (forall x :: x in r.value ==> Accepts(x)) && NormalizeItems(r.value) == r)
            && (r.Ok? && (forall x :: x in items ==> WellFormed(x)) ==> forall x :: x in r.value ==> WellFormed(x))
    decreases items, 1
  {
    if items != [] {
      NormalizeIsSound(items[0]);
      NormalizeItemsSound(items[1..]);
      assert items == [items[0]] + items[1..];
      var r := NormalizeItems(items);
      if r.Ok? {
        assert r.value[1..] == NormalizeItems(items[1..]).value;
      }
    }
  }

  lemma {:induction false} NormalizeEntrySound(entry: Entry)
    ensures var r := NormalizeEntry(entry);
            && (r.Ok? <==> entry.key.Str? && Normalizable(entry.value))
            && (r.Ok? ==> r.value.key == entry.key && Accepts(r.value.value) && NormalizeEntry(r.value) == r)
            && (r.Ok? && WellFormed(entry.value) ==> WellFormed(r.value.value))
    decreases entry, 2
  {
    NormalizeIsSound(entry.value);
  }

  predicate AllNormalizable(entries: seq<Entry>) {
    forall e :: e in entries ==> e.key.Str? && Normalizable(e.value)
  }

  predicate AllAccepted(entries: seq<Entry>) {
    forall e :: e in entries ==> e.key.Str? && Accepts(e.value)
  }

  predicate AllWellFormed(entries: seq<Entry>) {
    forall e :: e in entries ==> WellFormed(e.value)
  }

  predicate SameKeys(a: seq<Entry>, b: seq<Entry>) {
    |a| == |b| && forall i :: 0 <= i < |a| ==> a[i].key == b[i].key
  }

  lemma EntriesCons(e: Entry, es: seq<Entry>)
    ensures AllNormalizable([e] + es) <==> e.key.Str? && Normalizable(e.value) && AllNormalizable(es)
    ensures AllAccepted([e] + es) <==> e.key.Str? && Accepts(e.value) && AllAccepted(es)
    ensures AllWellFormed([e] + es) <==> WellFormed(e.value) && AllWellFormed(es)
  {
    assert e in [e] + es && forall x :: x in es ==> x in [e] + es;
  }

  lemma SameKeysCons(e: Entry, es: seq<Entry>, f: Entry, fs: seq<Entry>)
    requires e.key == f.key && SameKeys(es, fs)
    ensures SameKeys([e] + es, [f] + fs)
  {
  }

  lemma NormalizeCons(e: Entry, es: seq<Entry>)
    ensures NormalizeEntries([e] + es).Ok? <==> NormalizeEntry(e).Ok? && NormalizeEntries(es).Ok?
    ensures NormalizeEntries([e] + es).Ok? ==>
              NormalizeEntries([e] + es) == Ok([NormalizeEntry(e).value] + NormalizeEntries(es).value)
  {
    assert ([e] + es)[1..] == es;
  }

  lemma {:induction false} NormalizeEntriesSound(entries: seq<Entry>)
    ensures var r := NormalizeEntries(entries);
            && (r.Ok? <==> AllNormalizable(entries))
            && (r.Ok? ==> AllAccepted(r.value) && NormalizeEntries(r.value) == r && SameKeys(r.value, entries))
            && (r.Ok? && AllWellFormed(entries) ==> AllWellFormed(r.value))
    decreases entries, 1
  {
    if entries != [] {
      var e, es := entries[0], entries[1..];
      NormalizeEntrySound(e);
      NormalizeEntriesSound(es);
      assert entries == [e] + es;
      NormalizeCons(e, es);
      EntriesCons(e, es);
      if NormalizeEntries(entries).Ok? {
        var f, fs := NormalizeEntry(e).value, NormalizeEntries(es).value;
        NormalizeCons(f, fs);
        EntriesCons(f, fs);
        SameKeysCons(f, fs, e, es);
      }
    }
  }

  /** The normalised form, part by part: a float becomes its own decimal text, any other leaf stays, a list keeps its
      length and order, a dict its keys and their order. */
  predicate Flattened(v: Value, w: Value) {
    match v
    case Float(None) => false
    case Float(Some(text)) => w == Text(text)
    case Unsupported => false
    case List(items) => w.List? && |w.items| == |items| && forall i :: 0 <= i < |items| ==> Flattened(items[i], w.items[i])
    case Dict(entries) =>
      && w.Dict? && |w.entries| == |entries|
      && forall i :: 0 <= i < |entries| ==>
           entries[i].key.Str? && w.entries[i].key == entries[i].key && Flattened(entries[i].value, w.entries[i].value)
    case _ => w == v
  }

  /** Normalising gives exactly that form. */
  lemma {:induction false} NormalizeFlattens(v: Value, w: Value)
    ensures Normalize(v) == Ok(w) <==> Flattened(v, w)
    decreases v, 0
  {
    match v
    case List(items) => if w.List? { ItemsFlatten(items, w.items); }
    case Dict(entries) => if w.Dict? { EntriesFlatten(entries, w.entries); }
    case _ =>
  }

  predicate ItemsFlattened(items: seq<Value>, out: seq<Value>) {
    |out| == |items| && forall i :: 0 <= i < |items| ==> Flattened(items[i], out[i])
  }

  lemma ItemsFlattenedCons(items: seq<Value>, out: seq<Value>)
    requires items != []
    ensures ItemsFlattened(items, out) <==> out != [] && Flattened(items[0], out[0]) && ItemsFlattened(items[1..], out[1..])
  {
    if out != [] && Flattened(items[0], out[0]) && ItemsFlattened(items[1..], out[1..]) {
      forall i | 0 <= i < |items| ensures Flattened(items[i], out[i]) {
        assert i > 0 ==> items[i] == items[1..][i - 1] && out[i] == out[1..][i - 1];
      }
    }
  }

  lemma {:induction false} ItemsFlatten(items: seq<Value>, out: seq<Value>)
    ensures NormalizeItems(items) == Ok(out) <==> ItemsFlattened(items, out)
    decreases items, 1
  {
    if items != [] {
      ItemsFlattenedCons(items, out);
      if out != [] {
        NormalizeFlattens(items[0], out[0]);
        ItemsFlatten(items[1..], out[1..]);
        assert out == [out[0]] + out[1..];
      }
    }
  }

  predicate EntryFlattened(e: Entry, f: Entry) {
    e.key.Str? && f.key == e.key && Flattened(e.value, f.value)
  }

  predicate EntriesFlattened(entries: seq<Entry>, out: seq<Entry>) {
    |out| == |entries| && forall i :: 0 <= i < |entries| ==> EntryFlattened(entries[i], out[i])
  }

  lemma EntriesFlattenedCons(entries: seq<Entry>, out: seq<Entry>)
    requires entries != []
    ensures EntriesFlattened(entries, out) <==>
            out != [] && EntryFlattened(entries[0], out[0]) && EntriesFlattened(entries[1..], out[1..])
  {
    if out != [] && EntryFlattened(entries[0], out[0]) && EntriesFlattened(entries[1..], out[1..]) {
      forall i | 0 <= i < |entries| ensures EntryFlattened(entries[i], out[i]) {
        assert i > 0 ==> entries[i] == entries[1..][i - 1] && out[i] == out[1..][i - 1];
      }
    }
  }

  lemma {:induction false} EntryFlattens(e: Entry, f: Entry)
    ensures NormalizeEntry(e) == Ok(f) <==> EntryFlattened(e, f)
    decreases e, 2
  {
    NormalizeFlattens(e.value, f.value);
  }

  lemma {:induction false} EntriesFlatten(entries: seq<Entry>, out: seq<Entry>)
    ensures NormalizeEntries(entries) == Ok(out) <==> EntriesFlattened(entries, out)
    decreases entries, 1
  {
    if entries != [] {
      EntriesFlattenedCons(entries, out);
      if out != [] {
        EntryFlattens(entries[0], out[0]);
        EntriesFlatten(entries[1..], out[1..]);
        assert out == [out[0]] + out[1..];
      }
    }
  }

  // ---------------------------------------------------------------- printing

  function Digit(d: nat): char
    requires d < 10
  {
    '0' + d as char
  }

  function Decimal(n: nat): string {
    if n < 10 then [Digit(n)] else Decimal(n / 10) + [Digit(n % 10)]
  }

  function HexDigit(d: nat): char
    requires d < 16
  {
    if d < 10 then '0' + d as char else 'a' + (d - 10) as char
  }

  function EscapeChar(c: char): string {
    if c == '"' then "\\\""
    else if c == '\\' then "\\\\"
    else if c == '\n' then "\\n"
    else if c == '\r' then "\\r"
    else if c == '\t' then "\\t"
    else if c as int == 12 then "\\f"
    else if c as int == 8 then "\\b"
    else if c < ' ' then "\\u00" + [HexDigit(c as nat / 16), HexDigit(c as nat % 16)]
    else [c]
  }

  /** What JSON makes of each character: two-character escapes for seven of them, four lower-case hex digits for the
      other control characters, and every other character, ASCII or not, as it is. */
  lemma EscapeTable(c: char)
    ensures EscapeChar('"') == ['\\', '"'] && EscapeChar('\\') == ['\\', '\\']
    ensures EscapeChar(8 as char) == ['\\', 'b'] && EscapeChar(12 as char) == ['\\', 'f']
    ensures EscapeChar('\n') == ['\\', 'n'] && EscapeChar('\r') == ['\\', 'r'] && EscapeChar('\t') == ['\\', 't']
    ensures c < ' ' && c as int !in {8, 9, 10, 12, 13} ==>
              var digits := "0123456789abcdef";
              EscapeChar(c) == ['\\', 'u', '0', '0', digits[c as nat / 16], digits[c as nat % 16]]
    ensures c >= ' ' && c !in {'"', '\\'} ==> EscapeChar(c) == [c]
  {
  }

  function Escape(s: string): string {
    if s == "" then "" else EscapeChar(s[0]) + Escape(s[1..])
  }

  function Quoted(s: string): string {
    "\"" + Escape(s) + "\""
  }

  /** Compact JSON text in the order the dict entries have. */
  function Print(v: Value): string
    requires Accepts(v)
    decreases v, 0
  {
    match v
    case Null => "null"
    case Bool(b) => if b then "true" else "false"
    case Int(i) => if i < 0 then "-" + Decimal(-i) else Decimal(i)
    case Text(s) => Quoted(s)
    case List(items) => if items == [] then "[]" else "[" + PrintItems(items) + "]"
    case Dict(entries) => if entries == [] then "{}" else "{" + PrintEntries(entries) + "}"
  }

  function PrintItems(items: seq<Value>): string
    requires items != [] && forall x :: x in items ==> Accepts(x)
    decreases items, 1
  {
    if |items| == 1 then Print(items[0]) else Print(items[0]) + "," + PrintItems(items[1..])
  }

  function PrintEntries(entries: seq<Entry>): string
    requires entries != [] && forall e :: e in entries ==> e.key.Str? && Accepts(e.value)
    decreases entries, 1
  {
    if |entries| == 1 then PrintEntry(entries[0]) else PrintEntry(entries[0]) + "," + PrintEntries(entries[1..])
  }

  function PrintEntry(entry: Entry): string
    requires entry.key.Str? && Accepts(entry.value)
    decreases entry, 2
  {
    Quoted(entry.key.s) + ":" + Print(entry.value)
  }

  // ---------------------------------------------------------------- a parser (sections 2 to 7 of RFC 8259)

  datatype Parsed<+T> = Fail | Got(value: T, rest: string)

  predicate IsDigit(c: char) {
    '0' <= c <= '9'
  }

  function ParseDigits(s: string, acc: nat): (nat, string) {
    if s != "" && IsDigit(s[0]) then ParseDigits(s[1..], acc * 10 + (s[0] - '0') as nat) else (acc, s)
  }

  function HexValue(c: char): Option<nat> {
    if '0' <= c <= '9' then Some((c - '0') as nat)
    else if 'a' <= c <= 'f' then Some((c - 'a') as nat + 10)
    else if 'A' <= c <= 'F' then Some((c - 'A') as nat + 10)
    else None
  }

  /** One character of string content, plain or escaped. */
  function ParseChar(s: string): (r: Parsed<char>)
    ensures r.Got? ==> |r.rest| < |s|
  {
    if s == "" || s[0] == '"' || s[0] < ' ' then Fail
    else if s[0] != '\\' then Got(s[0], s[1..])
    else if |s| < 2 then Fail
    else if s[1] == '"' then Got('"', s[2..])
    else if s[1] == '\\' then Got('\\', s[2..])
    else if s[1] == '/' then Got('/', s[2..])
    else if s[1] == 'n' then Got('\n', s[2..])
    else if s[1] == 'r' then Got('\r', s[2..])
    else if s[1] == 't' then Got('\t', s[2..])
    else if s[1] == 'f' then Got(12 as char, s[2..])
    else if s[1] == 'b' then Got(8 as char, s[2..])
    else if s[1] == 'u' && |s| >= 6 then
      (match (HexValue(s[2]), HexValue(s[3]), HexValue(s[4]), HexValue(s[5]))
       case (Some(a), Some(b), Some(c), Some(d)) =>
         var code := a * 4096 + b * 256 + c * 16 + d;
         if code < 0xD800 then Got(code as char, s[6..]) else Fail
       case _ => Fail)
    else Fail
  }

  /** String content up to and including the closing quote. */
  function ParseChars(s: string): (r: Parsed<string>)
    ensures r.Got? ==> |r.rest| < |s|
    decreases |s|
  {
    if s != "" && s[0] == '"' then Got("", s[1..])
    else
      match ParseChar(s)
      case Fail => Fail
      case Got(c, rest) =>
        match ParseChars(rest)
        case Fail => Fail
        case Got(cs, rest') => Got([c] + cs, rest')
  }

  predicate StartsWith(s: string, p: string) {
    p <= s
  }

  function ParseValue(s: string): (r: Parsed<Value>)
    ensures r.Got? ==> |r.rest| < |s|
    decreases |s|, 0
  {
    if StartsWith(s, "null") then Got(Null, s[4..])
    else if StartsWith(s, "true") then Got(Bool(true), s[4..])
    else if StartsWith(s, "false") then Got(Bool(false), s[5..])
    else if s == "" then Fail
    else if s[0] == '"' then
      (match ParseChars(s[1..]) case Fail => Fail case Got(cs, rest) => Got(Text(cs), rest))
    else if s[0] == '[' then
      if StartsWith(s, "[]") then Got(List([]), s[2..])
      else (match ParseItems(s[1..]) case Fail => Fail case Got(items, rest) => Got(List(items), rest))
    else if s[0] == '{' then
      if StartsWith(s, "{}") then Got(Dict([]), s[2..])
      else (match ParseEntries(s[1..]) case Fail => Fail case Got(entries, rest) => Got(Dict(entries), rest))
    else if IsDigit(s[0]) then
      DigitsShrink(s, 0);
      var (n, rest) := ParseDigits(s, 0);
      Got(Int(n), rest)
    else if s[0] == '-' && |s| > 1 && IsDigit(s[1]) then
      DigitsShrink(s[1..], 0);
      var (n, rest) := ParseDigits(s[1..], 0);
      Got(Int(0 - n), rest)
    else Fail
  }

  function ParseItems(s: string): (r: Parsed<seq<Value>>)
    ensures r.Got? ==> |r.rest| < |s|
    decreases |s|, 1
  {
    match ParseValue(s)
    case Fail => Fail
    case Got(v, rest) =>
      if rest == "" then Fail
      else if rest[0] == ']' then Got([v], rest[1..])
      else if rest[0] == ',' then
        (match ParseItems(rest[1..]) case Fail => Fail case Got(vs, rest') => Got([v] + vs, rest'))
      else Fail
  }

  function ParseEntries(s: string): (r: Parsed<seq<Entry>>)
    ensures r.Got? ==> |r.rest| < |s|
    decreases |s|, 1
  {
    if s == "" || s[0] != '"' then Fail
    else
      match ParseChars(s[1..])
      case Fail => Fail
      case Got(k, r1) =>
        if r1 == "" || r1[0] != ':' then Fail
        else
          match ParseValue(r1[1..])
          case Fail => Fail
          case Got(v, r2) =>
            var e := Entry(Str(k), v);
            if r2 == "" then Fail
            else if r2[0] == '}' then Got([e], r2[1..])
            else if r2[0] == ',' then
              (match ParseEntries(r2[1..]) case Fail => Fail case Got(es, r3) => Got([e] + es, r3))
            else Fail
  }

  lemma {:induction false} DigitsShrink(s: string, acc: nat)
    ensures |ParseDigits(s, acc).1| <= |s|
    ensures s != "" && IsDigit(s[0]) ==> |ParseDigits(s, acc).1| < |s|
    decreases |s|
  {
    if s != "" && IsDigit(s[0]) {
      DigitsShrink(s[1..], acc * 10 + (s[0] - '0') as nat);
    }
  }

  // ---------------------------------------------------------------- the parser undoes the printer

  predicate EndsNumber(rest: string) {
    rest == "" || !IsDigit(rest[0])
  }

  lemma {:induction false} DecimalParses(n: nat, rest: string)
    ensures ParseDigits(Decimal(n) + rest, 0) == ParseDigits(rest, n)
    ensures Decimal(n) != "" && IsDigit(Decimal(n)[0])
    decreases n
  {
    if n < 10 {
      var s := Decimal(n) + rest;
      assert s[0] == Digit(n) && s[1..] == rest;
    } else {
      var last := [Digit(n % 10)] + rest;
      DecimalParses(n / 10, last);
      assert Decimal(n) + rest == Decimal(n / 10) + last;
      assert last[1..] == rest;
    }
  }

  lemma PieceThenRest(piece: string, rest: string)
    ensures (piece + rest)[|piece|..] == rest && forall i :: 0 <= i < |piece| ==> (piece + rest)[i] == piece[i]
  {
  }

  lemma HexPair(c: char)
    requires c < ' '
    ensures var hi, lo := c as nat / 16, c as nat % 16;
            HexValue(HexDigit(hi)) == Some(hi) && HexValue(HexDigit(lo)) == Some(lo) && hi * 16 + lo == c as nat
  {
  }

  lemma EscapedCharParses(c: char, rest: string)
    ensures ParseChar(EscapeChar(c) + rest) == Got(c, rest)
    ensures EscapeChar(c)[0] != '"'
  {
    PieceThenRest(EscapeChar(c), rest);
    if |EscapeChar(c)| == 6 { HexPair(c); }
  }

  lemma HexDigitRead(d: nat)
    requires d < 16
    ensures HexValue(HexDigit(d)) == Some(d)
  {
  }

  lemma FourDigits(a: nat, b: nat, c: nat, d: nat, rest: string)
    requires a < 16 && b < 16 && c < 16 && d < 16 && a * 4096 + b * 256 + c * 16 + d < 0xD800
    ensures ParseChar("\\u" + [HexDigit(a), HexDigit(b), HexDigit(c), HexDigit(d)] + rest) ==
            Got((a * 4096 + b * 256 + c * 16 + d) as char, rest)
  {
    HexDigitRead(a);
    HexDigitRead(b);
    HexDigitRead(c);
    HexDigitRead(d);
    PieceThenRest("\\u" + [HexDigit(a), HexDigit(b), HexDigit(c), HexDigit(d)], rest);
  }

  lemma {:induction false} EscapeParses(text: string, rest: string)
    ensures ParseChars(Escape(text) + "\"" + rest) == Got(text, rest)
  {
    if text == "" {
      var s := Escape(text) + "\"" + rest;
      assert s[0] == '"' && s[1..] == rest;
    } else {
      var tail := Escape(text[1..]) + "\"" + rest;
      EscapeParses(text[1..], rest);
      EscapedCharParses(text[0], tail);
      assert Escape(text) + "\"" + rest == EscapeChar(text[0]) + tail;
      assert text == [text[0]] + text[1..];
    }
  }

  lemma QuotedParses(text: string, rest: string)
    ensures var s := Quoted(text) + rest; s[0] == '"' && ParseChars(s[1..]) == Got(text, rest)
  {
    EscapeParses(text, rest);
    Unquote(Escape(text), rest);
  }

  lemma Unquote(body: string, rest: string)
    ensures ("\"" + body + "\"" + rest)[0] == '"' && ("\"" + body + "\"" + rest)[1..] == body + "\"" + rest
  {
  }

  lemma IntParses(i: int, rest: string)
    requires EndsNumber(rest)
    ensures ParseValue(Print(Int(i)) + rest) == Got(Int(i), rest)
  {
    if i < 0 {
      NegativeParses(-i, rest);
    } else {
      NaturalParses(i, rest);
    }
  }

  lemma NaturalParses(n: nat, rest: string)
    requires EndsNumber(rest)
    ensures ParseValue(Decimal(n) + rest) == Got(Int(n), rest)
  {
    var s := Decimal(n) + rest;
    DecimalParses(n, rest);
    assert s[0] == Decimal(n)[0];
    LiteralHeads(s);
  }

  lemma NegativeParses(n: int, rest: string)
    requires EndsNumber(rest) && n > 0
    ensures ParseValue("-" + Decimal(n) + rest) == Got(Int(-n), rest)
  {
    var s := "-" + Decimal(n) + rest;
    DecimalParses(n, rest);
    assert s[0] == '-' && s[1..] == Decimal(n) + rest;
    LiteralHeads(s);
  }

  lemma LiteralParses(v: Value, rest: string)
    requires v == Null || v.Bool?
    ensures ParseValue(Print(v) + rest) == Got(v, rest)
  {
    var s := Print(v) + rest;
    assert s[..|Print(v)|] == Print(v) && s[|Print(v)|..] == rest;
    assert s[0] == Print(v)[0];
  }

  lemma LiteralHeads(s: string)
    requires s != ""
    ensures StartsWith(s, "null") ==> s[0] == 'n'
    ensures StartsWith(s, "true") ==> s[0] == 't'
    ensures StartsWith(s, "false") ==> s[0] == 'f'
  {
  }

  lemma EmptyBrackets(s: string)
    requires |s| >= 2
    ensures StartsWith(s, "[]") ==> s[1] == ']'
    ensures StartsWith(s, "{}") ==> s[1] == '}'
  {
  }

  lemma BracketParses(s: string, body: string, rest: string)
    requires s == "[" + body + "]" + rest && body != "" && body[0] != ']'
    ensures ParseValue(s) == match ParseItems(body + "]" + rest) case Fail => Fail case Got(xs, r) => Got(List(xs), r)
  {
    LiteralHeads(s);
    EmptyBrackets(s);
    assert s[1] == body[0];
    assert s[1..] == body + "]" + rest;
  }

  lemma BraceParses(s: string, body: string, rest: string)
    requires s == "{" + body + "}" + rest && body != "" && body[0] != '}'
    ensures ParseValue(s) == match ParseEntries(body + "}" + rest) case Fail => Fail case Got(es, r) => Got(Dict(es), r)
  {
    LiteralHeads(s);
    EmptyBrackets(s);
    assert s[1] == body[0];
    assert s[1..] == body + "}" + rest;
  }

  lemma {:induction false} PrintParses(v: Value, rest: string)
    requires Accepts(v) && EndsNumber(rest)
    ensures ParseValue(Print(v) + rest) == Got(v, rest)
    decreases v, 0
  {
    var s := Print(v) + rest;
    match v
    case Null => LiteralParses(v, rest);
    case Bool(b) => LiteralParses(v, rest);
    case Int(i) => IntParses(i, rest);
    case Text(t) =>
      QuotedParses(t, rest);
      LiteralHeads(s);
    case List(items) =>
      if items == [] {
        LiteralHeads(s);
        assert s[..2] == "[]" && s[2..] == rest;
      } else {
        ItemsParse(items, rest);
        assert s == "[" + PrintItems(items) + "]" + rest;
        BracketParses(s, PrintItems(items), rest);
      }
    case Dict(entries) =>
      if entries == [] {
        LiteralHeads(s);
        assert s[..2] == "{}" && s[2..] == rest;
      } else {
        EntriesParse(entries, rest);
        assert s == "{" + PrintEntries(entries) + "}" + rest;
        BraceParses(s, PrintEntries(entries), rest);
      }
  }

  lemma Regroup(a: string, b: string, close: string, rest: string)
    ensures a + "," + b + close + rest == a + ("," + (b + close + rest))
    ensures a + close + rest == a + (close + rest)
    ensures ("," + (b + close + rest))[1..] == b + close + rest
  {
  }

  lemma {:induction false} ItemsParse(items: seq<Value>, rest: string)
    requires items != [] && forall x :: x in items ==> Accepts(x)
    ensures ParseItems(PrintItems(items) + "]" + rest) == Got(items, rest)
    ensures PrintItems(items) != "" && PrintItems(items)[0] != ']'
    decreases items, 1
  {
    FirstChar(items[0]);
    if |items| == 1 {
      Regroup(Print(items[0]), "", "]", rest);
      PrintParses(items[0], "]" + rest);
      LastItem(items[0], rest);
      assert items == [items[0]];
    } else {
      Regroup(Print(items[0]), PrintItems(items[1..]), "]", rest);
      PrintParses(items[0], "," + (PrintItems(items[1..]) + "]" + rest));
      ItemsParse(items[1..], rest);
      FirstItem(items[0], PrintItems(items[1..]) + "]" + rest);
      assert items == [items[0]] + items[1..];
    }
  }

  lemma LastItem(v: Value, rest: string)
    requires Accepts(v) && ParseValue(Print(v) + ("]" + rest)) == Got(v, "]" + rest)
    ensures ParseItems(Print(v) + ("]" + rest)) == Got([v], rest)
  {
    assert ("]" + rest)[1..] == rest;
  }

  lemma FirstItem(v: Value, more: string)
    requires Accepts(v) && ParseValue(Print(v) + ("," + more)) == Got(v, "," + more)
    ensures ParseItems(Print(v) + ("," + more)) == match ParseItems(more) case Fail => Fail case Got(vs, r) => Got([v] + vs, r)
  {
    assert ("," + more)[1..] == more;
  }

  lemma FirstChar(v: Value)
    requires Accepts(v)
    ensures Print(v) != "" && Print(v)[0] != ']'
  {
    if v.Int? {
      DecimalParses(if v.i < 0 then -v.i else v.i, "");
    }
  }

  /** A `"key":value` pair followed by `tail`: the parser reads the pair and is left with `tail`. */
  lemma {:induction false} EntryParses(e: Entry, tail: string)
    requires e.key.Str? && Accepts(e.value) && EndsNumber(tail)
    ensures var s := PrintEntry(e) + tail;
            && s[0] == '"'
            && ParseChars(s[1..]) == Got(e.key.s, ":" + Print(e.value) + tail)
            && ParseValue((":" + Print(e.value) + tail)[1..]) == Got(e.value, tail)
    decreases e, 2
  {
    QuotedParses(e.key.s, ":" + Print(e.value) + tail);
    PrintParses(e.value, tail);
    Pair(Quoted(e.key.s), Print(e.value), tail);
  }

  lemma Pair(key: string, value: string, tail: string)
    ensures key + ":" + value + tail == key + (":" + value + tail)
    ensures (":" + value + tail)[1..] == value + tail
  {
  }

  lemma EntriesStep(e: Entry, tail: string)
    requires e.key.Str? && Accepts(e.value) && tail != "" && tail[0] in ",}"
    requires var s := PrintEntry(e) + tail;
             && s[0] == '"'
             && ParseChars(s[1..]) == Got(e.key.s, ":" + Print(e.value) + tail)
             && ParseValue((":" + Print(e.value) + tail)[1..]) == Got(e.value, tail)
    ensures ParseEntries(PrintEntry(e) + tail) ==
            if tail[0] == '}' then Got([e], tail[1..])
            else match ParseEntries(tail[1..]) case Fail => Fail case Got(es, r) => Got([e] + es, r)
  {
    assert Entry(Str(e.key.s), e.value) == e;
  }

  lemma {:induction false} EntriesParse(entries: seq<Entry>, rest: string)
    requires entries != [] && forall e :: e in entries ==> e.key.Str? && Accepts(e.value)
    ensures ParseEntries(PrintEntries(entries) + "}" + rest) == Got(entries, rest)
    ensures PrintEntries(entries) != "" && PrintEntries(entries)[0] == '"'
    decreases entries, 1
  {
    var e := entries[0];
    if |entries| == 1 {
      Regroup(PrintEntry(e), "", "}", rest);
      EntryParses(e, "}" + rest);
      EntriesStep(e, "}" + rest);
      assert ("}" + rest)[1..] == rest && entries == [e];
    } else {
      var more := PrintEntries(entries[1..]) + "}" + rest;
      Regroup(PrintEntry(e), PrintEntries(entries[1..]), "}", rest);
      EntryParses(e, "," + more);
      EntriesParse(entries[1..], rest);
      EntriesStep(e, "," + more);
      assert entries == [e] + entries[1..];
    }
  }
}
