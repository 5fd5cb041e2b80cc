/** Rendering channel messages as a bounded, escaped transcript (nth_dao/agent_daemon.py). */
module UntrustedContext {
  import opened Prelude

  // ---------------------------------------------------------------- escaping

  /** `value.replace(c, sub)` for a one-character pattern. */
  function Replace(s: string, c: char, sub: string): string {
    if s == "" then "" else Replace(s[..|s| - 1], c, sub) + if s[|s| - 1] == c then sub else [s[|s| - 1]]
  }

  const AMP := "\\u0026"
  const LT := "\\u003c"
  const GT := "\\u003e"

  function EscapeText(s: string): string {
    Replace(Replace(Replace(s, '&', AMP), '<', LT), '>', GT)
  }

  function EscapeChar(c: char): (r: string)
    ensures r == [c] || (|r| == 6 && r[0] == '\\')
  {
    if c == '&' then AMP else if c == '<' then LT else if c == '>' then GT else [c]
  }

  function EscapeEach(s: string): string {
    if s == "" then "" else EscapeEach(s[..|s| - 1]) + EscapeChar(s[|s| - 1])
  }

  lemma {:induction false} ReplaceConcat(s: string, t: string, c: char, sub: string)
    ensures Replace(s + t, c, sub) == Replace(s, c, sub) + Replace(t, c, sub)
  {
    if t == "" {
      assert s + t == s;
    } else {
      ReplaceConcat(s, t[..|t| - 1], c, sub);
      assert (s + t)[..|s + t| - 1] == s + t[..|t| - 1];
    }
  }

  lemma {:induction false} ReplaceAbsent(s: string, c: char, sub: string)
    requires c !in s
    ensures Replace(s, c, sub) == s
  {
    if s != "" { ReplaceAbsent(s[..|s| - 1], c, sub); }
  }

  lemma ReplaceChar(x: char, c: char, sub: string)
    ensures Replace([x], c, sub) == if x == c then sub else [x]
  {
    assert [x][..0] == "";
  }

  predicate Plain(s: string) {
    '&' !in s && '<' !in s && '>' !in s
  }

  /** Two single-character replacements by text free of both characters commute into one pass. */
  lemma ReplaceTwice(x: char, c: char, sub: string, d: char, also: string)
    requires d !in sub
    ensures Replace(Replace([x], c, sub), d, also) == if x == c then sub else if x == d then also else [x]
  {
    ReplaceChar(x, c, sub);
    ReplaceChar(x, d, also);
    ReplaceAbsent(sub, d, also);
  }

  lemma OneChar(x: char)
    ensures EscapeText([x]) == EscapeChar(x)
    ensures EscapeReversed([x]) == EscapeChar(x)
  {
    assert Plain(AMP) && Plain(LT) && Plain(GT);
    ReplaceTwice(x, '&', AMP, '<', LT);
    ReplaceTwice(x, '>', GT, '<', LT);
    ReplaceAbsent(AMP, '>', GT);
    ReplaceAbsent(LT, '>', GT);
    ReplaceAbsent(LT, '&', AMP);
    ReplaceAbsent(GT, '&', AMP);
    ReplaceChar(x, '>', GT);
    ReplaceChar(x, '&', AMP);
  }

  function EscapeReversed(s: string): string {
    Replace(Replace(Replace(s, '>', GT), '<', LT), '&', AMP)
  }

  lemma EscapeConcat(s: string, t: string)
    ensures EscapeText(s + t) == EscapeText(s) + EscapeText(t)
  {
    ReplaceConcat(s, t, '&', AMP);
    ReplaceConcat(Replace(s, '&', AMP), Replace(t, '&', AMP), '<', LT);
    ReplaceConcat(Replace(Replace(s, '&', AMP), '<', LT), Replace(Replace(t, '&', AMP), '<', LT), '>', GT);
  }

  lemma EscapeReversedConcat(s: string, t: string)
    ensures EscapeReversed(s + t) == EscapeReversed(s) + EscapeReversed(t)
  {
    ReplaceConcat(s, t, '>', GT);
    ReplaceConcat(Replace(s, '>', GT), Replace(t, '>', GT), '<', LT);
    ReplaceConcat(Replace(Replace(s, '>', GT), '<', LT), Replace(Replace(t, '>', GT), '<', LT), '&', AMP);
  }

  lemma EscapeSnoc(s: string, x: char)
    ensures EscapeText(s + [x]) == EscapeText(s) + EscapeChar(x)
    ensures EscapeReversed(s + [x]) == EscapeReversed(s) + EscapeChar(x)
  {
    EscapeConcat(s, [x]);
    EscapeReversedConcat(s, [x]);
    OneChar(x);
  }

  ghost predicate Charwise(s: string) {
    EscapeText(s) == EscapeEach(s) && EscapeReversed(s) == EscapeEach(s)
  }

  lemma CharwiseNext(s: string, x: char)
    requires Charwise(s)
    ensures Charwise(s + [x])
  {
    EscapeSnoc(s, x);
    assert (s + [x])[..|s|] == s;
  }

  lemma CharwiseEmpty()
    ensures Charwise("")
  {
    assert Replace("", '&', AMP) == "" && Replace("", '<', LT) == "" && Replace("", '>', GT) == "";
  }

  lemma CharwiseLast(s: string, init: string, x: char)
    requires Charwise(init) && s == init + [x]
    ensures Charwise(s)
  {
    CharwiseNext(init, x);
  }

  lemma {:induction false} AllCharwise(s: string)
    ensures Charwise(s)
    decreases |s|
  {
    if s == "" {
      CharwiseEmpty();
    } else {
      var init, x := SplitLast(s);
      AllCharwise(init);
      CharwiseLast(s, init, x);
    }
  }

  lemma SplitLast(s: string) returns (init: string, x: char)
    requires s != ""
    ensures s == init + [x]
  {
    init, x := s[..|s| - 1], s[|s| - 1];
  }

  /** The three sequential replacements are one character-wise map, and the opposite order gives the same. */
  lemma EscapeIsCharwise(s: string)
    ensures EscapeText(s) == EscapeEach(s)
    ensures EscapeReversed(s) == EscapeEach(s)
  {
    AllCharwise(s);
  }

  lemma PlainConcat(s: string, t: string)
    requires Plain(s) && Plain(t)
    ensures Plain(s + t) && ('\r' !in s && '\r' !in t ==> '\r' !in s + t)
  {
  }

  lemma EscapedCharIsPlain(c: char)
    ensures Plain(EscapeChar(c)) && (c != '\r' ==> '\r' !in EscapeChar(c))
  {
  }

  lemma {:induction false} EscapedIsPlain(s: string)
    ensures Plain(EscapeEach(s)) && ('\r' !in s ==> '\r' !in EscapeEach(s))
  {
    if s != "" {
      var init, c := s[..|s| - 1], s[|s| - 1];
      EscapedIsPlain(init);
      EscapedCharIsPlain(c);
      PlainConcat(EscapeEach(init), EscapeChar(c));
    }
  }

  // ---------------------------------------------------------------- newlines and labels

  function CrLfToLf(s: string): string {
    if |s| < 2 then s
    else if s[0] == '\r' && s[1] == '\n' then "\n" + CrLfToLf(s[2..])
    else [s[0]] + CrLfToLf(s[1..])
  }

  function UnixLines(body: string): string {
    Replace(CrLfToLf(body), '\r', "\n")
  }

  lemma {:induction false} ReplaceRemoves(s: string, c: char, sub: string)
    requires c !in sub
    ensures c !in Replace(s, c, sub)
    ensures forall x :: x in Replace(s, c, sub) ==> x in s || x in sub
  {
    if s != "" {
      ReplaceRemoves(s[..|s| - 1], c, sub);
      assert s == s[..|s| - 1] + [s[|s| - 1]];
    }
  }

  predicate IsSpace(c: char) {
    || '\t' <= c <= '\r' || '\U{1c}' <= c <= ' ' || c == '\U{85}' || c == '\U{a0}' || c == '\U{1680}'
    || '\U{2000}' <= c <= '\U{200a}' || c == '\U{2028}' || c == '\U{2029}' || c == '\U{202f}' || c == '\U{205f}'
    || c == '\U{3000}'
  }

  function StripLeft(s: string): string {
    if s != "" && IsSpace(s[0]) then StripLeft(s[1..]) else s
  }

  function StripRight(s: string): string {
    if s != "" && IsSpace(s[|s| - 1]) then StripRight(s[..|s| - 1]) else s
  }

  function Label(sender: string): string {
    var cleaned := StripRight(StripLeft(Replace(Replace(sender, '\r', " "), '\n', " ")));
    var cut := if |cleaned| <= 80 then cleaned else cleaned[..80];
    if cut == "" then "unknown" else cut
  }

  lemma {:induction false} StripKeeps(s: string)
    ensures forall x :: x in StripLeft(s) ==> x in s
    ensures forall x :: x in StripRight(s) ==> x in s
    decreases |s|
  {
    if s != "" {
      StripKeeps(s[1..]);
      StripKeeps(s[..|s| - 1]);
    }
  }

  /** A label is one line of 1 to 80 characters. */
  lemma LabelIsOneLine(sender: string)
    ensures 1 <= |Label(sender)| <= 80 && '\n' !in Label(sender) && '\r' !in Label(sender)
  {
    var a := Replace(sender, '\r', " ");
    var b := Replace(a, '\n', " ");
    ReplaceRemoves(sender, '\r', " ");
    ReplaceRemoves(a, '\n', " ");
    StripKeeps(b);
    StripKeeps(StripLeft(b));
  }

  // ---------------------------------------------------------------- trimming a cut

  predicate BackslashNearEnd(s: string) {
    exists i :: |s| - 5 <= i < |s| && 0 <= i && s[i] == '\\'
  }

  /** `rfind` in the last five characters, as an absolute index; -1 when there is none. */
  function LastBackslash(s: string, back: nat): (r: int)
    requires back <= |s|
    ensures r == -1 <==> forall i :: |s| - back <= i < |s| ==> s[i] != '\\'
    ensures r != -1 ==> |s| - back <= r < |s| && s[r] == '\\' && forall i :: r < i < |s| ==> s[i] != '\\'
    decreases back
  {
    if back == 0 then -1
    else
      var rest := LastBackslash(s, back - 1);
      if rest != -1 then rest else if s[|s| - back] == '\\' then |s| - back else -1
  }

  predicate HexChar(c: char) {
    '0' <= c <= '9' || 'a' <= c <= 'f' || 'A' <= c <= 'F'
  }

  /** What follows a backslash completes a `\\uXXXX` escape. */
  predicate CompletesEscape(rest: string) {
    |rest| >= 5 && rest[0] == 'u' && forall i :: 1 <= i < 5 ==> HexChar(rest[i])
  }

  function TrimOnce(s: string): string {
    var bs := LastBackslash(s, if |s| < 5 then |s| else 5);
    if bs == -1 then s
    else if CompletesEscape(s[bs + 1..]) then s
    else s[..bs]
  }

  /** One pass always drops what follows the last nearby backslash: a complete escape never fits there. */
  lemma TrimOnceDrops(s: string)
    ensures TrimOnce(s) <= s
    ensures TrimOnce(s) == s <==> !BackslashNearEnd(s)
    ensures forall j :: |TrimOnce(s)| < j < |s| ==> BackslashNearEnd(s[..j])
  {
    var bs := LastBackslash(s, if |s| < 5 then |s| else 5);
    if bs != -1 {
      forall j | bs < j < |s| ensures BackslashNearEnd(s[..j]) {
        assert s[..j][bs] == '\\';
      }
    }
  }

  /** The cut is clean: the longest prefix without a backslash among its last five characters. */
  ghost predicate CleanCut(cut: string, s: string) {
    && cut <= s
    && !BackslashNearEnd(cut)
    && forall j :: |cut| < j <= |s| ==> BackslashNearEnd(s[..j])
  }

  method TrimDangling(s: string) returns (value: string)
    ensures CleanCut(value, s)
  {
    value := s;
    var done := false;
    while !done
      invariant value <= s
      invariant forall j :: |value| < j <= |s| ==> BackslashNearEnd(s[..j])
      invariant done ==> !BackslashNearEnd(value)
      decreases |value|, !done
    {
      var prev := value;
      TrimOnceDrops(value);
      value := TrimOnce(value);
      done := value == prev;
      forall j | |value| < j <= |s| ensures BackslashNearEnd(s[..j]) {
        if j < |prev| {
          assert s[..j] == prev[..j];
        } else if j == |prev| {
          assert s[..j] == prev;
        }
      }
    }
  }

  lemma NoLongerCut(a: string, b: string, s: string)
    requires CleanCut(a, s) && b <= s && !BackslashNearEnd(b)
    ensures |b| <= |a|
  {
    assert s[..|b|] == b;
  }

  lemma CleanCutUnique(a: string, b: string, s: string)
    requires CleanCut(a, s) && CleanCut(b, s)
    ensures a == b
  {
    NoLongerCut(a, b, s);
    NoLongerCut(b, a, s);
  }

  /** A prefix of an escaped text either ends between characters of the original or has the backslash of
      a broken escape among its last five characters. */
  lemma {:induction false} CutOfEscaped(body: string, n: nat) returns (k: nat)
    requires n <= |EscapeEach(body)|
    ensures k <= |body|
    ensures EscapeEach(body)[..n] == EscapeEach(body[..k]) || BackslashNearEnd(EscapeEach(body)[..n])
  {
    var all := EscapeEach(body);
    if n == |all| {
      k := |body|;
      assert body[..k] == body && all[..n] == all;
    } else {
      var m := |body| - 1;
      var init := EscapeEach(body[..m]);
      assert all == init + EscapeChar(body[m]);
      if n <= |init| {
        k := CutOfEscaped(body[..m], n);
        assert all[..n] == init[..n] && body[..m][..k] == body[..k];
      } else {
        k := m;
        assert all[..n][|init|] == '\\';
      }
    }
  }

  /** Every escape that came from the body is complete or absent in a clean cut of a rendered message. */
  lemma EscapesCompleteOrAbsent(header: string, body: string, budget: nat, cut: string) returns (k: nat)
    requires budget <= |header + EscapeEach(body)| && CleanCut(cut, (header + EscapeEach(body))[..budget])
    ensures k <= |body|
    ensures cut <= header || cut == header + EscapeEach(body[..k])
  {
    var chunk, h := header + EscapeEach(body), |header|;
    k := 0;
    assert cut == chunk[..|cut|];
    if |cut| <= h {
      assert cut == header[..|cut|];
    } else {
      var n := |cut| - h;
      k := CutOfEscaped(body, n);
      var part := EscapeEach(body)[..n];
      assert cut == header + part;
      if BackslashNearEnd(part) {
        var i :| |part| - 5 <= i < |part| && 0 <= i && part[i] == '\\';
        assert cut[h + i] == '\\';
      }
    }
  }

  // ---------------------------------------------------------------- the transcript

  datatype Message = Message(sender: string, body: string)

  function Header(m: Message): string {
    "--- message from " + Label(m.sender) + " ---\n"
  }

  function Chunk(m: Message): string {
    Header(m) + EscapeText(UnixLines(m.body))
  }

  function Join(parts: seq<string>): string {
    if |parts| == 0 then "" else if |parts| == 1 then parts[0] else Join(parts[..|parts| - 1]) + "\n" + parts[|parts| - 1]
  }

  function Chunks(messages: seq<Message>): seq<string> {
    seq(|messages|, i requires 0 <= i < |messages| => Chunk(messages[i]))
  }

  function LastMessages(messages: seq<Message>, n: nat): seq<Message> {
    if |messages| <= n then messages else messages[|messages| - n..]
  }

  function AtLeastOne(n: int): nat { if n < 1 then 1 else n }

  /** What is left for the first message that does not fit. */
  function Budget(recent: seq<Message>, limit: nat, k: nat): int
    requires k <= |recent|
  {
    limit - |Join(Chunks(recent[..k]))| - if k == 0 then 0 else 1
  }

  /** The `k` first messages fit whole and the next one, if any, does not; of that one the clean cut is
      kept, unless there is no budget or nothing remains of it. */
  ghost predicate Rendered(recent: seq<Message>, limit: nat, parts: seq<string>, k: nat) {
    && k <= |recent| && |Join(Chunks(recent[..k]))| <= limit
    && (k == |recent| ==> parts == Chunks(recent))
    && (k < |recent| ==> |Join(Chunks(recent[..k + 1]))| > limit && EndsAt(recent, limit, parts, k))
  }

  ghost predicate EndsAt(recent: seq<Message>, limit: nat, parts: seq<string>, k: nat)
    requires k < |recent|
  {
    var whole, budget := Chunks(recent[..k]), Budget(recent, limit, k);
    if budget <= 0 || Truncates("", Chunk(recent[k]), budget) then parts == whole
    else |parts| == k + 1 && parts[..k] == whole && parts[k] != "" && Truncates(parts[k], Chunk(recent[k]), budget)
  }

  ghost predicate Truncates(cut: string, chunk: string, budget: int) {
    0 < budget < |chunk| && CleanCut(cut, chunk[..budget])
  }

  lemma JoinAppend(parts: seq<string>, part: string)
    ensures |Join(parts + [part])| == |Join(parts)| + |part| + if parts == [] then 0 else 1
  {
    assert (parts + [part])[..|parts|] == parts;
  }

  lemma ChunksAppend(recent: seq<Message>, k: nat)
    requires k < |recent|
    ensures Chunks(recent[..k + 1]) == Chunks(recent[..k]) + [Chunk(recent[k])]
  {
    assert recent[..k + 1] == recent[..k] + [recent[k]];
  }

  /** Stopping at message `k` with its clean cut. */
  lemma CutRendered(recent: seq<Message>, limit: nat, cut: string, k: nat)
    requires k < |recent| && Truncates(cut, Chunk(recent[k]), Budget(recent, limit, k))
    ensures EndsAt(recent, limit, Chunks(recent[..k]) + (if cut == "" then [] else [cut]), k)
  {
    var whole := Chunks(recent[..k]);
    var budget := Budget(recent, limit, k);
    if Truncates("", Chunk(recent[k]), budget) {
      CleanCutUnique("", cut, Chunk(recent[k])[..budget]);
      assert whole + [] == whole;
    }
    assert (whole + [cut])[..k] == whole && (whole + [cut])[k] == cut;
  }

  /** The result never exceeds the character limit, every part but the last is a whole message, and the
      parts are as many of the most recent messages as fit. */
  method BuildContext(messages: seq<Message>, maxMessages: int, maxChars: int)
    returns (context: string, parts: seq<string>, k: nat)
    ensures context == Join(parts) && |context| <= AtLeastOne(maxChars)
    ensures Rendered(LastMessages(messages, AtLeastOne(maxMessages)), AtLeastOne(maxChars), parts, k)
  {
    var recent := LastMessages(messages, AtLeastOne(maxMessages));
    var limit := AtLeastOne(maxChars);
    parts, k := [], 0;
    var used := 0;
    assert recent[..0] == [];
    while k < |recent|
      invariant 0 <= k <= |recent| && parts == Chunks(recent[..k])
      invariant used == |Join(parts)| <= limit
    {
      var chunk := Chunk(recent[k]);
      var joinCost := if parts != [] then 1 else 0;
      NextChunk(recent, k);
      if used + joinCost + |chunk| <= limit {
        parts := parts + [chunk];
        used := used + joinCost + |chunk|;
        k := k + 1;
        continue;
      }
      parts := CutMessage(recent, limit, parts, k, used + joinCost);
      context := Join(parts);
      return;
    }
    AllRendered(recent, limit);
    context := Join(parts);
  }

  /** What is rendered are the last messages, in order: as many as asked for, at least one, or all there are; and the
      limit is what was asked for, at least one character. */
  lemma RecentIsSuffix(messages: seq<Message>, maxMessages: int, maxChars: int)
    ensures var recent := LastMessages(messages, AtLeastOne(maxMessages));
            && |recent| <= |messages| && (|recent| == |messages| || |recent| == (if maxMessages >= 1 then maxMessages else 1))
            && (|messages| > 0 ==> |recent| > 0) && |recent| <= (if maxMessages >= 1 then maxMessages else 1)
            && messages[|messages| - |recent|..] == recent
    ensures AtLeastOne(maxChars) >= 1 && AtLeastOne(maxChars) >= maxChars && AtLeastOne(maxChars) in {1, maxChars}
  {
  }

  /** What one more whole message costs. */
  lemma NextChunk(recent: seq<Message>, k: nat)
    requires k < |recent|
    ensures Chunks(recent[..k + 1]) == Chunks(recent[..k]) + [Chunk(recent[k])] && |Chunks(recent[..k])| == k
    ensures |Join(Chunks(recent[..k + 1]))| == |Join(Chunks(recent[..k]))| + |Chunk(recent[k])| + if k == 0 then 0 else 1
  {
    ChunksAppend(recent, k);
    JoinAppend(Chunks(recent[..k]), Chunk(recent[k]));
  }

  lemma AllRendered(recent: seq<Message>, limit: nat)
    ensures recent[..|recent|] == recent
    ensures |Join(Chunks(recent))| <= limit ==> Rendered(recent, limit, Chunks(recent), |recent|)
  {
    assert recent[..|recent|] == recent;
  }

  /** Message `k` is the first that does not fit. */
  predicate Overflows(recent: seq<Message>, limit: nat, k: nat) {
    k < |recent| && |Join(Chunks(recent[..k]))| <= limit < |Join(Chunks(recent[..k + 1]))|
  }

  lemma StopsWithout(recent: seq<Message>, limit: nat, k: nat)
    requires Overflows(recent, limit, k) && Budget(recent, limit, k) <= 0
    ensures Rendered(recent, limit, Chunks(recent[..k]), k)
  {
  }

  lemma StopsWithCut(recent: seq<Message>, limit: nat, k: nat, text: string, cut: string, more: seq<string>)
    requires Overflows(recent, limit, k) && 0 < Budget(recent, limit, k) < |Chunk(recent[k])|
    requires text == Chunk(recent[k])[..Budget(recent, limit, k)] && CleanCut(cut, text)
    requires more == if cut == "" then Chunks(recent[..k]) else Chunks(recent[..k]) + [cut]
    ensures Rendered(recent, limit, more, k) && |Join(more)| <= limit
  {
    var whole := Chunks(recent[..k]);
    CutRendered(recent, limit, cut, k);
    JoinAppend(whole, cut);
    assert whole + [] == whole;
  }

  /** The message that does not fit: as much of it as the remaining budget allows, cut cleanly. */
  method CutMessage(recent: seq<Message>, limit: nat, parts: seq<string>, k: nat, spent: nat) returns (more: seq<string>)
    requires Overflows(recent, limit, k) && parts == Chunks(recent[..k])
    requires spent == |Join(parts)| + (if k == 0 then 0 else 1) && spent + |Chunk(recent[k])| > limit
    ensures Rendered(recent, limit, more, k) && |Join(more)| <= limit
  {
    more := parts;
    var budget := limit - spent;
    if budget > 0 {
      var text := Chunk(recent[k])[..budget];
      var truncated := TrimDangling(text);
      if truncated != "" { more := parts + [truncated]; }
      StopsWithCut(recent, limit, k, text, truncated, more);
    } else {
      StopsWithout(recent, limit, k);
    }
  }

  /** In a rendered transcript the cut message, if there is one, is a piece of its header or its header
      with the escaped form of a prefix of its body. */
  lemma RenderedCut(recent: seq<Message>, limit: nat, parts: seq<string>, k: nat) returns (j: nat)
    requires Rendered(recent, limit, parts, k) && |parts| == k + 1
    ensures k < |recent| && j <= |UnixLines(recent[k].body)|
    ensures parts[k] <= Header(recent[k]) || parts[k] == Header(recent[k]) + EscapeEach(UnixLines(recent[k].body)[..j])
  {
    var body := UnixLines(recent[k].body);
    EscapeIsCharwise(body);
    var budget := Budget(recent, limit, k);
    assert EndsAt(recent, limit, parts, k);
    assert Truncates(parts[k], Chunk(recent[k]), budget);
    assert Chunk(recent[k]) == Header(recent[k]) + EscapeEach(body);
    j := EscapesCompleteOrAbsent(Header(recent[k]), body, budget, parts[k]);
  }

  /** A whole message is one label line followed by text without carriage returns, `&`, `<` or `>`. */
  lemma ChunkShape(m: Message)
    ensures Chunk(m) == Header(m) + EscapeEach(UnixLines(m.body))
    ensures Plain(EscapeEach(UnixLines(m.body))) && '\r' !in EscapeEach(UnixLines(m.body))
    ensures |Header(m)| <= 102
  {
    EscapeIsCharwise(UnixLines(m.body));
    ReplaceRemoves(CrLfToLf(m.body), '\r', "\n");
    EscapedIsPlain(UnixLines(m.body));
    LabelIsOneLine(m.sender);
  }
}
