/** What a reader of the prompt can tell from a rendered transcript (nth_dao/agent_daemon.py): when it is free of the
    escaped characters, and when its header lines are those of its messages. */
module ContextLines {
  import opened Prelude
  import opened UntrustedContext
  import CanonicalJson

  // ---------------------------------------------------------------- the escaped characters

  lemma PlainConcatIff(s: string, t: string)
    ensures Plain(s + t) <==> Plain(s) && Plain(t)
  {
    assert forall c :: c in s + t <==> c in s || c in t;
  }

  lemma HeaderPlainIff(m: Message)
    ensures Plain(Header(m)) <==> Plain(Label(m.sender))
  {
    PlainConcatIff("--- message from " + Label(m.sender), " ---\n");
    PlainConcatIff("--- message from ", Label(m.sender));
  }

  lemma ChunkPlainIff(m: Message)
    ensures Plain(Chunk(m)) <==> Plain(Label(m.sender))
  {
    ChunkShape(m);
    PlainConcatIff(Header(m), EscapeEach(UnixLines(m.body)));
    HeaderPlainIff(m);
  }

  predicate AllPlain(parts: seq<string>) {
    forall i :: 0 <= i < |parts| ==> Plain(parts[i])
  }

  lemma JoinNext(parts: seq<string>)
    requires |parts| > 1
    ensures Join(parts) == Join(parts[..|parts| - 1]) + ("\n" + parts[|parts| - 1])
  {
    var before, last := Join(parts[..|parts| - 1]), parts[|parts| - 1];
    assert before + "\n" + last == before + ("\n" + last);
  }

  lemma {:induction false} JoinPlainIff(parts: seq<string>)
    ensures Plain(Join(parts)) <==> AllPlain(parts)
  {
    if |parts| > 1 {
      var init, last := parts[..|parts| - 1], parts[|parts| - 1];
      JoinPlainIff(init);
      JoinNext(parts);
      PlainConcatIff(Join(init), "\n" + last);
      PlainConcatIff("\n", last);
      AllPlainSnoc(parts);
    }
  }

  lemma AllPlainSnoc(parts: seq<string>)
    requires parts != []
    ensures AllPlain(parts) <==> AllPlain(parts[..|parts| - 1]) && Plain(parts[|parts| - 1])
  {
    var init := parts[..|parts| - 1];
    assert forall i :: 0 <= i < |init| ==> init[i] == parts[i];
  }

  /** A whole transcript is free of the three characters exactly when its labels are: the bodies always are. */
  lemma ContextPlainIff(messages: seq<Message>)
    ensures Plain(Join(Chunks(messages))) <==> forall i :: 0 <= i < |messages| ==> Plain(Label(messages[i].sender))
  {
    JoinPlainIff(Chunks(messages));
    forall i | 0 <= i < |messages| ensures Plain(Chunks(messages)[i]) <==> Plain(Label(messages[i].sender)) {
      ChunkPlainIff(messages[i]);
    }
  }

  /** As much of a message's header as its cut still has. */
  function HeaderPiece(cut: string, m: Message): string {
    if |cut| <= |Header(m)| then cut else Header(m)
  }

  lemma CutPlainIff(recent: seq<Message>, limit: nat, parts: seq<string>, k: nat)
    requires Rendered(recent, limit, parts, k) && |parts| == k + 1
    ensures k < |recent| && (Plain(parts[k]) <==> Plain(HeaderPiece(parts[k], recent[k])))
  {
    var j := RenderedCut(recent, limit, parts, k);
    var text := EscapeEach(UnixLines(recent[k].body)[..j]);
    EscapedIsPlain(UnixLines(recent[k].body)[..j]);
    PlainConcatIff(Header(recent[k]), text);
    if parts[k] == Header(recent[k]) + text && text == "" { assert parts[k] == Header(recent[k]); }
  }

  lemma RenderedParts(recent: seq<Message>, limit: nat, parts: seq<string>, k: nat)
    requires Rendered(recent, limit, parts, k)
    ensures k <= |recent| && k <= |parts| <= k + 1 && parts[..k] == Chunks(recent[..k])
  {
    if k == |recent| { assert recent[..k] == recent; }
    assert |parts| == k ==> parts[..k] == parts;
  }

  /** So it is for a transcript that was cut: its whole messages' labels, and what the cut left of the last header. */
  lemma RenderedPlainIff(recent: seq<Message>, limit: nat, parts: seq<string>, k: nat)
    requires Rendered(recent, limit, parts, k)
    ensures k <= |recent| && k <= |parts| <= k + 1 && (|parts| == k + 1 ==> k < |recent|)
    ensures Plain(Join(parts)) <==>
            && (forall i :: 0 <= i < k ==> Plain(Label(recent[i].sender)))
            && (|parts| == k + 1 ==> Plain(HeaderPiece(parts[k], recent[k])))
  {
    RenderedParts(recent, limit, parts, k);
    PartsPlainIff(parts, k);
    WholePlainIff(recent, k);
    if |parts| == k + 1 { CutPlainIff(recent, limit, parts, k); }
  }

  lemma PartsPlainIff(parts: seq<string>, k: nat)
    requires k <= |parts| <= k + 1
    ensures Plain(Join(parts)) <==> AllPlain(parts[..k]) && (|parts| == k + 1 ==> Plain(parts[k]))
  {
    JoinPlainIff(parts);
    if |parts| == k + 1 { AllPlainSnoc(parts); } else { assert parts == parts[..k]; }
  }

  lemma WholePlainIff(recent: seq<Message>, k: nat)
    requires k <= |recent|
    ensures AllPlain(Chunks(recent[..k])) <==> forall i :: 0 <= i < k ==> Plain(Label(recent[i].sender))
  {
    forall i | 0 <= i < k ensures Plain(Chunks(recent[..k])[i]) <==> Plain(Label(recent[i].sender)) {
      ChunkPlainIff(recent[i]);
    }
  }

  // ---------------------------------------------------------------- header lines

  function LinesOf(s: string): (r: seq<string>)
    ensures r != []
  {
    if s == "" then [""]
    else
      Grow(LinesOf(s[..|s| - 1]), s[|s| - 1])
  }

  /** One more character on the last line, or a new one. */
  function Grow(lines: seq<string>, c: char): (r: seq<string>)
    requires lines != []
    ensures r != []
  {
    if c == '\n' then lines + [""] else lines[..|lines| - 1] + [lines[|lines| - 1] + [c]]
  }

  const OPENING := "--- message from "
  const CLOSING := " ---"

  /** A line of the form of a header. */
  predicate HeaderLike(line: string) {
    |line| >= |OPENING| + |CLOSING| && line[..|OPENING|] == OPENING && line[|line| - |CLOSING|..] == CLOSING
  }

  function HeaderLines(lines: seq<string>): seq<string> {
    if lines == [] then []
    else
      var rest, last := HeaderLines(lines[..|lines| - 1]), lines[|lines| - 1];
      if HeaderLike(last) then rest + [last] else rest
  }

  function HeaderLine(m: Message): string {
    OPENING + Label(m.sender) + CLOSING
  }

  function HeaderLinesOf(messages: seq<Message>): seq<string> {
    seq(|messages|, i requires 0 <= i < |messages| => HeaderLine(messages[i]))
  }

  lemma {:induction false} HeaderLinesConcat(a: seq<string>, b: seq<string>)
    ensures HeaderLines(a + b) == HeaderLines(a) + HeaderLines(b)
  {
    if b == [] {
      assert a + b == a && HeaderLines(a) + [] == HeaderLines(a);
    } else {
      HeaderLinesConcat(a, b[..|b| - 1]);
      assert (a + b)[..|a + b| - 1] == a + b[..|b| - 1];
    }
  }

  lemma LinesNext(s: string, c: char)
    ensures LinesOf(s + [c]) == Grow(LinesOf(s), c)
  {
    assert (s + [c])[..|s|] == s;
  }

  lemma GrowConcat(a: seq<string>, b: seq<string>, c: char)
    requires b != []
    ensures Grow(a + b, c) == a + Grow(b, c)
  {
    var last := b[|b| - 1] + [c];
    assert (a + b)[..|a + b| - 1] + [last] == a + (b[..|b| - 1] + [last]);
    assert a + b + [""] == a + (b + [""]);
  }

  lemma LinesGrow(a: string, init: string, c: char)
    requires LinesOf(a + "\n" + init) == LinesOf(a) + LinesOf(init)
    ensures LinesOf(a + "\n" + init + [c]) == LinesOf(a) + LinesOf(init + [c])
  {
    LinesNext(a + "\n" + init, c);
    LinesNext(init, c);
    GrowConcat(LinesOf(a), LinesOf(init), c);
  }

  lemma Rejoin(a: string, b: string)
    requires b != ""
    ensures b == b[..|b| - 1] + [b[|b| - 1]] && a + "\n" + b == a + "\n" + b[..|b| - 1] + [b[|b| - 1]]
  {
  }

  /** A line break separates. */
  lemma {:induction false} LinesConcat(a: string, b: string)
    ensures LinesOf(a + "\n" + b) == LinesOf(a) + LinesOf(b)
  {
    if b == "" {
      LinesNext(a, '\n');
      assert a + "\n" + b == a + ['\n'];
    } else {
      LinesConcat(a, b[..|b| - 1]);
      LinesGrow(a, b[..|b| - 1], b[|b| - 1]);
      Rejoin(a, b);
    }
  }

  lemma {:induction false} OneLineOf(s: string)
    requires '\n' !in s
    ensures LinesOf(s) == [s]
  {
    if s != "" {
      var init, c := s[..|s| - 1], s[|s| - 1];
      assert s == init + [c];
      OneLineOf(init);
      LinesNext(init, c);
      GrowOne(init, c);
    }
  }

  lemma GrowOne(line: string, c: char)
    requires c != '\n'
    ensures Grow([line], c) == [line + [c]]
  {
  }

  /** The body as it stands in the transcript. */
  function Text(m: Message): string {
    EscapeEach(UnixLines(m.body))
  }

  lemma HeaderIsLine(m: Message)
    ensures Header(m) == HeaderLine(m) + "\n" && '\n' !in HeaderLine(m) && HeaderLike(HeaderLine(m))
  {
    LabelIsOneLine(m.sender);
    var line := HeaderLine(m);
    assert line[..|OPENING|] == OPENING && line[|line| - |CLOSING|..] == CLOSING;
  }

  lemma ChunkLines(m: Message)
    ensures LinesOf(Chunk(m)) == [HeaderLine(m)] + LinesOf(Text(m))
  {
    ChunkShape(m);
    HeaderIsLine(m);
    OneLineOf(HeaderLine(m));
    LinesConcat(HeaderLine(m), Text(m));
  }

  /** Header-like lines inside a body. */
  function InnerHeaders(m: Message): seq<string> {
    HeaderLines(LinesOf(Text(m)))
  }

  lemma OneHeaderLine(line: string)
    requires HeaderLike(line)
    ensures HeaderLines([line]) == [line]
  {
    assert [line][..0] == [];
  }

  lemma ChunkHeaderLines(m: Message)
    ensures HeaderLines(LinesOf(Chunk(m))) == [HeaderLine(m)] + InnerHeaders(m)
  {
    ChunkLines(m);
    HeaderIsLine(m);
    OneHeaderLine(HeaderLine(m));
    HeaderLinesConcat([HeaderLine(m)], LinesOf(Text(m)));
  }

  // ---------------------------------------------------------------- headers of a whole transcript

  /** Each line followed by what comes with it. */
  function Woven(heads: seq<string>, extras: seq<seq<string>>): seq<string>
    requires |heads| == |extras|
  {
    if heads == [] then []
    else
      var n := |heads| - 1;
      Woven(heads[..n], extras[..n]) + ([heads[n]] + extras[n])
  }

  predicate AllEmpty(extras: seq<seq<string>>) {
    forall i :: 0 <= i < |extras| ==> extras[i] == []
  }

  lemma {:induction false} WovenSize(heads: seq<string>, extras: seq<seq<string>>)
    requires |heads| == |extras|
    ensures |Woven(heads, extras)| >= |heads|
    ensures |Woven(heads, extras)| == |heads| ==> AllEmpty(extras)
    ensures AllEmpty(extras) ==> Woven(heads, extras) == heads
  {
    if heads != [] {
      var n := |heads| - 1;
      WovenSize(heads[..n], extras[..n]);
      AllEmptySnoc(extras);
      HeadsSnoc(heads, extras[n]);
    }
  }

  lemma AllEmptySnoc(extras: seq<seq<string>>)
    requires extras != []
    ensures AllEmpty(extras) <==> AllEmpty(extras[..|extras| - 1]) && extras[|extras| - 1] == []
  {
    var n := |extras| - 1;
    assert forall i :: 0 <= i < n ==> extras[..n][i] == extras[i];
  }

  lemma HeadsSnoc(heads: seq<string>, extra: seq<string>)
    requires heads != []
    ensures extra == [] ==> heads[..|heads| - 1] + ([heads[|heads| - 1]] + extra) == heads
  {
  }

  function ContextHeaders(messages: seq<Message>): seq<string> {
    HeaderLines(LinesOf(Join(Chunks(messages))))
  }

  function InnerHeadersOf(messages: seq<Message>): seq<seq<string>> {
    seq(|messages|, i requires 0 <= i < |messages| => InnerHeaders(messages[i]))
  }

  lemma JoinLines(messages: seq<Message>)
    requires |messages| > 1
    ensures var init, last := messages[..|messages| - 1], messages[|messages| - 1];
            LinesOf(Join(Chunks(messages))) == LinesOf(Join(Chunks(init))) + LinesOf(Chunk(last))
  {
    var init, last := messages[..|messages| - 1], messages[|messages| - 1];
    assert Chunks(messages)[..|messages| - 1] == Chunks(init);
    LinesConcat(Join(Chunks(init)), Chunk(last));
  }

  lemma ContextHeadersNext(messages: seq<Message>)
    requires |messages| > 1
    ensures var init, last := messages[..|messages| - 1], messages[|messages| - 1];
            ContextHeaders(messages) == ContextHeaders(init) + ([HeaderLine(last)] + InnerHeaders(last))
  {
    var init, last := messages[..|messages| - 1], messages[|messages| - 1];
    JoinLines(messages);
    HeaderLinesConcat(LinesOf(Join(Chunks(init))), LinesOf(Chunk(last)));
    ChunkHeaderLines(last);
  }

  lemma WovenNext(messages: seq<Message>)
    requires messages != []
    ensures var init, last := messages[..|messages| - 1], messages[|messages| - 1];
            Woven(HeaderLinesOf(messages), InnerHeadersOf(messages)) ==
            Woven(HeaderLinesOf(init), InnerHeadersOf(init)) + ([HeaderLine(last)] + InnerHeaders(last))
  {
    var n := |messages| - 1;
    assert HeaderLinesOf(messages)[..n] == HeaderLinesOf(messages[..n]) && InnerHeadersOf(messages)[..n] == InnerHeadersOf(messages[..n]);
  }

  /** The header-like lines of a transcript are its headers, each followed by those its body brings. */
  lemma {:induction false} ContextIsWoven(messages: seq<Message>)
    requires messages != []
    ensures ContextHeaders(messages) == Woven(HeaderLinesOf(messages), InnerHeadersOf(messages))
  {
    var n := |messages| - 1;
    WovenNext(messages);
    if n == 0 {
      ChunkHeaderLines(messages[0]);
      assert Chunks(messages)[0] == Chunk(messages[0]);
      assert Woven(HeaderLinesOf(messages[..0]), InnerHeadersOf(messages[..0])) == [];
    } else {
      ContextIsWoven(messages[..n]);
      ContextHeadersNext(messages);
    }
  }

  lemma NoContext(messages: seq<Message>)
    requires messages == []
    ensures ContextHeaders(messages) == [] == Woven(HeaderLinesOf(messages), InnerHeadersOf(messages))
  {
    assert [""][..0] == [];
  }

  /** They are its messages' headers, in order, exactly when no escaped body holds a line of that form. */
  lemma HeadersAreOwnIff(messages: seq<Message>)
    ensures ContextHeaders(messages) == HeaderLinesOf(messages) <==> AllEmpty(InnerHeadersOf(messages))
  {
    if messages == [] { NoContext(messages); } else { ContextIsWoven(messages); }
    WovenSize(HeaderLinesOf(messages), InnerHeadersOf(messages));
  }

  // ---------------------------------------------------------------- a body that spells a header

  lemma {:induction false} PlainIsUnescaped(s: string)
    requires Plain(s)
    ensures EscapeEach(s) == s
  {
    if s != "" {
      var init, c := s[..|s| - 1], s[|s| - 1];
      assert s == init + [c];
      PlainConcatIff(init, [c]);
      PlainIsUnescaped(init);
    }
  }

  lemma {:induction false} NoBreaksToChange(s: string)
    requires '\r' !in s
    ensures CrLfToLf(s) == s
  {
    if |s| >= 2 {
      NoBreaksToChange(s[1..]);
      assert s == [s[0]] + s[1..];
    }
  }

  /** A body may hold the header line of any message with a plain label. */
  lemma BodyMayHoldHeader(sender: string, m: Message)
    requires Plain(Label(m.sender))
    ensures InnerHeaders(Message(sender, HeaderLine(m))) == [HeaderLine(m)]
  {
    var line := HeaderLine(m);
    HeaderIsLine(m);
    HeaderPlainIff(m);
    PlainConcatIff(line, "\n");
    LabelIsOneLine(m.sender);
    NoBreaksToChange(line);
    ReplaceAbsent(line, '\r', "\n");
    PlainIsUnescaped(line);
    OneLineOf(line);
    OneHeaderLine(line);
  }

  // ---------------------------------------------------------------- what rendering keeps

  lemma EscapeEachSnoc(s: string, c: char)
    ensures EscapeEach(s + [c]) == EscapeEach(s) + EscapeChar(c)
  {
    assert (s + [c])[..|s|] == s;
  }

  lemma Regroup(a: string, b: string, d: string)
    ensures a + b + d == a + (b + d)
  {
  }

  lemma EscapeConcatStep(a: string, init: string, c: char)
    requires EscapeEach(a + init) == EscapeEach(a) + EscapeEach(init)
    ensures EscapeEach(a + (init + [c])) == EscapeEach(a) + EscapeEach(init + [c])
  {
    Regroup(a, init, [c]);
    EscapeEachSnoc(a + init, c);
    EscapeEachSnoc(init, c);
    Regroup(EscapeEach(a), EscapeEach(init), EscapeChar(c));
  }

  lemma {:induction false} EscapeConcat(a: string, b: string)
    ensures EscapeEach(a + b) == EscapeEach(a) + EscapeEach(b)
    decreases |b|
  {
    if b == "" {
      assert a + b == a;
    } else {
      var init, c := SplitLast(b);
      EscapeConcat(a, init);
      EscapeConcatStep(a, init, c);
    }
  }

  lemma EscapeEachCons(c: char, s: string)
    ensures EscapeEach([c] + s) == EscapeChar(c) + EscapeEach(s)
  {
    EscapeConcat([c], s);
    EscapeEachSnoc("", c);
    assert "" + [c] == [c];
  }

  /** Text that a JSON string holds as it is. */
  predicate Quotable(s: string) {
    forall i :: 0 <= i < |s| ==> s[i] >= ' ' && s[i] != '"' && s[i] != '\\'
  }

  lemma EscapedCharRead(c: char, rest: string)
    requires c >= ' ' && c != '"' && c != '\\'
    ensures CanonicalJson.ParseChar(EscapeChar(c) + rest) == CanonicalJson.Got(c, rest)
    ensures EscapeChar(c)[0] != '"'
  {
    var s := EscapeChar(c) + rest;
    assert s[|EscapeChar(c)|..] == rest && forall i :: 0 <= i < |EscapeChar(c)| ==> s[i] == EscapeChar(c)[i];
  }

  lemma ReadNext(c: char, cs: string, tail: string, rest: string)
    requires c >= ' ' && c != '"' && c != '\\' && CanonicalJson.ParseChars(tail) == CanonicalJson.Got(cs, rest)
    ensures CanonicalJson.ParseChars(EscapeChar(c) + tail) == CanonicalJson.Got([c] + cs, rest)
  {
    EscapedCharRead(c, tail);
  }

  lemma QuoteEnds(rest: string)
    ensures CanonicalJson.ParseChars("\"" + rest) == CanonicalJson.Got("", rest)
  {
    assert ("\"" + rest)[1..] == rest;
  }

  lemma Concat3(a: string, b: string, d: string)
    ensures a + b + "\"" + d == a + (b + "\"" + d)
  {
  }

  /** A JSON string reader undoes the escapes. */
  lemma {:induction false} EscapesReadBack(body: string, rest: string)
    requires Quotable(body)
    ensures CanonicalJson.ParseChars(EscapeEach(body) + "\"" + rest) == CanonicalJson.Got(body, rest)
  {
    if body == "" {
      QuoteEnds(rest);
      assert EscapeEach(body) + "\"" == "\"";
    } else {
      var c, cs := body[0], body[1..];
      assert body == [c] + cs;
      EscapesReadBack(cs, rest);
      ReadNext(c, cs, EscapeEach(cs) + "\"" + rest, rest);
      EscapeEachCons(c, cs);
      Concat3(EscapeChar(c), EscapeEach(cs), rest);
    }
  }

  predicate AllSpaces(s: string) {
    forall i :: 0 <= i < |s| ==> s[i] == ' ' || s[i] == '\t'
  }

  predicate Tidy(s: string) {
    s != "" && '\r' !in s && '\n' !in s && !IsSpace(s[0]) && !IsSpace(s[|s| - 1])
  }

  lemma {:induction false} StripsLeft(pad: string, s: string)
    requires AllSpaces(pad) && (s != "" ==> !IsSpace(s[0]))
    ensures StripLeft(pad + s) == s
  {
    if pad == "" {
      assert pad + s == s;
    } else {
      assert (pad + s)[1..] == pad[1..] + s && (pad + s)[0] == pad[0] && pad[0] in pad;
      StripsLeft(pad[1..], s);
    }
  }

  lemma {:induction false} StripsRight(s: string, pad: string)
    requires AllSpaces(pad) && (s != "" ==> !IsSpace(s[|s| - 1]))
    ensures StripRight(s + pad) == s
  {
    if pad == "" {
      assert s + pad == s;
    } else {
      var n := |pad| - 1;
      assert (s + pad)[..|s + pad| - 1] == s + pad[..n] && (s + pad)[|s + pad| - 1] == pad[n] && pad[n] in pad;
      StripsRight(s, pad[..n]);
    }
  }

  lemma SpacesHaveNoBreaks(pad: string)
    requires AllSpaces(pad)
    ensures '\r' !in pad && '\n' !in pad
  {
  }

  lemma NoBreaksConcat(a: string, b: string)
    requires '\r' !in a && '\n' !in a && '\r' !in b && '\n' !in b
    ensures '\r' !in a + b && '\n' !in a + b
  {
  }

  lemma CleanedIs(all: string)
    requires '\r' !in all && '\n' !in all
    ensures Replace(Replace(all, '\r', " "), '\n', " ") == all
  {
    ReplaceAbsent(all, '\r', " ");
    ReplaceAbsent(all, '\n', " ");
  }

  lemma StripsBoth(left: string, name: string, right: string)
    requires AllSpaces(left) && AllSpaces(right) && (name == "" ==> right == "") && (name != "" ==> Tidy(name))
    ensures StripRight(StripLeft(left + (name + right))) == name
  {
    assert name != "" ==> (name + right)[0] == name[0];
    StripsLeft(left, name + right);
    StripsRight(name, right);
  }

  /** A sender name stands in the header as it is, up to 80 characters of it, without the blanks around it. */
  lemma LabelKeepsName(left: string, name: string, right: string)
    requires AllSpaces(left) && AllSpaces(right) && Tidy(name)
    ensures Label(left + (name + right)) == if |name| <= 80 then name else name[..80]
  {
    SpacesHaveNoBreaks(left);
    SpacesHaveNoBreaks(right);
    NoBreaksConcat(name, right);
    NoBreaksConcat(left, name + right);
    CleanedIs(left + (name + right));
    StripsBoth(left, name, right);
  }

  /** A blank name becomes "unknown". */
  lemma BlankIsUnknown(blank: string)
    requires AllSpaces(blank)
    ensures Label(blank) == "unknown"
  {
    SpacesHaveNoBreaks(blank);
    CleanedIs(blank);
    StripsBoth(blank, "", "");
    assert blank + ("" + "") == blank;
  }

  lemma {:induction false} CrLfConcat(a: string, b: string)
    requires '\r' !in a
    ensures CrLfToLf(a + b) == a + CrLfToLf(b)
    decreases |a|
  {
    if a == "" {
      assert a + b == b && a + CrLfToLf(b) == CrLfToLf(b);
    } else {
      CrLfConcat(a[1..], b);
      assert a[0] in a && (a + b)[0] == a[0] && (a + b)[1..] == a[1..] + b;
      assert a + CrLfToLf(b) == [a[0]] + (a[1..] + CrLfToLf(b));
      if |a + b| < 2 { assert a[1..] == "" && b == ""; }
    }
  }

  /** Every line end of a body, of whichever kind, becomes one newline, and nothing else changes. */
  lemma UnixLinesPieces(a: string, b: string)
    requires '\r' !in a
    ensures UnixLines(a) == a
    ensures UnixLines(a + ("\r\n" + b)) == a + ("\n" + UnixLines(b))
    ensures b == "" || b[0] != '\n' ==> UnixLines(a + ("\r" + b)) == a + ("\n" + UnixLines(b))
  {
    NoBreaksToChange(a);
    ReplaceAbsent(a, '\r', "\n");
    CrLfConcat(a, "\r\n" + b);
    CrLfConcat(a, "\r" + b);
    FirstBreak(b);
    ReplaceConcat(a, "\n" + CrLfToLf(b), '\r', "\n");
    ReplaceConcat(a, "\r" + CrLfToLf(b), '\r', "\n");
    ReplaceConcat("\n", CrLfToLf(b), '\r', "\n");
    ReplaceConcat("\r", CrLfToLf(b), '\r', "\n");
    ReplaceChar('\n', '\r', "\n");
    ReplaceChar('\r', '\r', "\n");
  }

  lemma FirstBreak(b: string)
    ensures CrLfToLf("\r\n" + b) == "\n" + CrLfToLf(b)
    ensures b == "" || b[0] != '\n' ==> CrLfToLf("\r" + b) == "\r" + CrLfToLf(b)
  {
    assert ("\r\n" + b)[2..] == b && ("\r" + b)[1..] == b;
    if b == "" { assert "\r" + b == "\r"; }
  }
}
