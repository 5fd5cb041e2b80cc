/** Event-type patterns (nth_dao/event_subscriptions.py, case-sensitive `fnmatch`): the matcher, and what a pattern
    selects. */
module GlobPatterns {
  import opened Prelude

  const GLOB_META: set<char> := {'*', '?', '[', ']'}

  predicate IsExact(pattern: string) {
    forall c :: c in pattern ==> c !in GLOB_META
  }

  /** Index of the `]` that closes a class opened at position 0, if any. */
  function ClassEnd(pattern: string): Option<nat>
    ensures ClassEnd(pattern).Some? ==> 0 < ClassEnd(pattern).value < |pattern|
  {
    var j := if |pattern| > 1 && pattern[1] == '!' then 2 else 1;
    var k := if j < |pattern| && pattern[j] == ']' then j + 1 else j;
    FindFrom(pattern, k)
  }

  function FindFrom(pattern: string, k: nat): (r: Option<nat>)
    ensures r.Some? ==> k <= r.value < |pattern|
    decreases |pattern| - k
  {
    if k >= |pattern| then None else if pattern[k] == ']' then Some(k) else FindFrom(pattern, k + 1)
  }

  /** Case-sensitive `fnmatch`; `inClass(body, c)` interprets the body of a bracket expression. */
  predicate Glob(inClass: (string, char) -> bool, pattern: string, text: string)
    decreases |pattern|, |text|
  {
    if pattern == "" then text == ""
    else if pattern[0] == '*' then
      Glob(inClass, pattern[1..], text) || (text != "" && Glob(inClass, pattern, text[1..]))
    else if text == "" then false
    else if pattern[0] == '?' then Glob(inClass, pattern[1..], text[1..])
    else if pattern[0] == '[' && ClassEnd(pattern).Some? then
      var j := ClassEnd(pattern).value;
      inClass(pattern[1..j], text[0]) && Glob(inClass, pattern[j + 1..], text[1..])
    else pattern[0] == text[0] && Glob(inClass, pattern[1..], text[1..])
  }

  /** The fast path is sound: a pattern without meta-characters matches itself and nothing else. */
  lemma {:induction false} ExactPatternIsEquality(inClass: (string, char) -> bool, pattern: string, text: string)
    requires IsExact(pattern)
    ensures Glob(inClass, pattern, text) <==> pattern == text
  {
    if pattern != "" && text != "" {
      assert pattern[0] in pattern;
      ExactPatternIsEquality(inClass, pattern[1..], text[1..]);
      assert pattern == [pattern[0]] + pattern[1..] && text == [text[0]] + text[1..];
    } else if pattern != "" {
      assert pattern[0] in pattern;
    }
  }

  // ---------------------------------------------------------------- what a pattern selects

  /** The parts of a pattern. */
  datatype Token = AnyText | AnyChar | OneOf(body: string) | Letter(c: char)

  function Tokens(pattern: string): seq<Token> {
    if pattern == "" then []
    else if pattern[0] == '*' then [AnyText] + Tokens(pattern[1..])
    else if pattern[0] == '?' then [AnyChar] + Tokens(pattern[1..])
    else if pattern[0] == '[' && ClassEnd(pattern).Some? then
      [OneOf(pattern[1..ClassEnd(pattern).value])] + Tokens(pattern[ClassEnd(pattern).value + 1..])
    else [Letter(pattern[0])] + Tokens(pattern[1..])
  }

  predicate Fits(inClass: (string, char) -> bool, token: Token, piece: string) {
    match token
    case AnyText => true
    case AnyChar => |piece| == 1
    case OneOf(body) => |piece| == 1 && inClass(body, piece[0])
    case Letter(c) => piece == [c]
  }

  function Flat(pieces: seq<string>): string {
    if pieces == [] then "" else pieces[0] + Flat(pieces[1..])
  }

  /** The text, cut into one piece for each token. */
  predicate Cut(inClass: (string, char) -> bool, tokens: seq<Token>, text: string, pieces: seq<string>) {
    |pieces| == |tokens| && Flat(pieces) == text && forall i :: 0 <= i < |tokens| ==> Fits(inClass, tokens[i], pieces[i])
  }

  ghost predicate Divides(inClass: (string, char) -> bool, tokens: seq<Token>, text: string) {
    exists pieces: seq<string> :: Cut(inClass, tokens, text, pieces)
  }

  lemma CutCons(inClass: (string, char) -> bool, token: Token, tokens: seq<Token>, piece: string, text: string, pieces: seq<string>)
    requires Cut(inClass, tokens, text, pieces) && Fits(inClass, token, piece)
    ensures Cut(inClass, [token] + tokens, piece + text, [piece] + pieces)
  {
    assert ([piece] + pieces)[1..] == pieces;
  }

  lemma CutTail(inClass: (string, char) -> bool, token: Token, tokens: seq<Token>, text: string, pieces: seq<string>)
    requires Cut(inClass, [token] + tokens, text, pieces)
    ensures |pieces| == |tokens| + 1 && Fits(inClass, token, pieces[0])
    ensures pieces[0] <= text && Cut(inClass, tokens, text[|pieces[0]|..], pieces[1..])
  {
    var all := [token] + tokens;
    assert text[|pieces[0]|..] == Flat(pieces[1..]);
    forall i | 0 <= i < |tokens| ensures Fits(inClass, tokens[i], pieces[1..][i]) { assert all[i + 1] == tokens[i]; }
  }

  /** A first token takes some prefix of the text that fits it, and the others divide the rest. */
  lemma DividesCons(inClass: (string, char) -> bool, token: Token, tokens: seq<Token>, text: string)
    ensures Divides(inClass, [token] + tokens, text) <==>
            exists n :: 0 <= n <= |text| && Fits(inClass, token, text[..n]) && Divides(inClass, tokens, text[n..])
  {
    if Divides(inClass, [token] + tokens, text) {
      var pieces: seq<string> :| Cut(inClass, [token] + tokens, text, pieces);
      CutTail(inClass, token, tokens, text, pieces);
      assert text[..|pieces[0]|] == pieces[0];
    }
    if n :| 0 <= n <= |text| && Fits(inClass, token, text[..n]) && Divides(inClass, tokens, text[n..]) {
      var pieces: seq<string> :| Cut(inClass, tokens, text[n..], pieces);
      CutCons(inClass, token, tokens, text[..n], text[n..], pieces);
      assert text[..n] + text[n..] == text;
    }
  }

  lemma DividesOne(inClass: (string, char) -> bool, token: Token, tokens: seq<Token>, text: string)
    requires !token.AnyText?
    ensures Divides(inClass, [token] + tokens, text) <==>
            text != "" && Fits(inClass, token, text[..1]) && Divides(inClass, tokens, text[1..])
  {
    DividesCons(inClass, token, tokens, text);
  }

  lemma DividesStar(inClass: (string, char) -> bool, tokens: seq<Token>, text: string)
    ensures Divides(inClass, [AnyText] + tokens, text) <==> exists n :: 0 <= n <= |text| && Divides(inClass, tokens, text[n..])
  {
    DividesCons(inClass, AnyText, tokens, text);
    forall n | 0 <= n <= |text| ensures Fits(inClass, AnyText, text[..n]) { }
  }

  lemma StarStep(inClass: (string, char) -> bool, tokens: seq<Token>, text: string)
    ensures Divides(inClass, [AnyText] + tokens, text) <==>
            Divides(inClass, tokens, text) || (text != "" && Divides(inClass, [AnyText] + tokens, text[1..]))
  {
    DividesStar(inClass, tokens, text);
    assert text[0..] == text;
    if text != "" {
      DividesStar(inClass, tokens, text[1..]);
      forall n | 1 <= n <= |text| ensures text[n..] == text[1..][n - 1..] { }
    }
  }

  /** The matcher says yes exactly when the text can be cut into one piece for each part of the pattern: any text for a
      star, one character for a question mark, one character of the class for a closed bracket, and itself for every
      other character, an unclosed bracket included. */
  lemma {:induction false} GlobIffDivides(inClass: (string, char) -> bool, pattern: string, text: string)
    ensures Glob(inClass, pattern, text) <==> Divides(inClass, Tokens(pattern), text)
    decreases |pattern|, |text|
  {
    if pattern == "" {
      NothingDivides(inClass, text);
    } else if pattern[0] == '*' {
      GlobIffDivides(inClass, pattern[1..], text);
      StarStep(inClass, Tokens(pattern[1..]), text);
      if text != "" { GlobIffDivides(inClass, pattern, text[1..]); }
    } else {
      var rest := if pattern[0] == '[' && ClassEnd(pattern).Some? then pattern[ClassEnd(pattern).value + 1..] else pattern[1..];
      DividesOne(inClass, Tokens(pattern)[0], Tokens(rest), text);
      if text != "" { GlobIffDivides(inClass, rest, text[1..]); }
    }
  }

  lemma NothingDivides(inClass: (string, char) -> bool, text: string)
    ensures Divides(inClass, [], text) <==> text == ""
  {
    if text == "" { assert Cut(inClass, [], text, []); }
  }

  /** Literal text in front of a pattern has to be in front of the text. */
  lemma {:induction false} LiteralPrefix(inClass: (string, char) -> bool, p: string, pattern: string, text: string)
    requires IsExact(p)
    ensures Glob(inClass, p + pattern, text) <==> p <= text && Glob(inClass, pattern, text[|p|..])
  {
    if p == "" {
      assert p + pattern == pattern && text[0..] == text;
    } else {
      assert p[0] in p && (p + pattern)[1..] == p[1..] + pattern;
      if text != "" {
        LiteralPrefix(inClass, p[1..], pattern, text[1..]);
        assert p <= text <==> p[0] == text[0] && p[1..] <= text[1..];
        assert p <= text ==> text[1..][|p| - 1..] == text[|p|..];
      }
    }
  }

  /** A star after literal text: the text splits behind that prefix at some place where the rest matches. */
  lemma StarSplits(inClass: (string, char) -> bool, p: string, rest: string, text: string)
    requires IsExact(p)
    ensures Glob(inClass, p + ("*" + rest), text) <==>
            p <= text && exists n :: |p| <= n <= |text| && Glob(inClass, rest, text[n..])
  {
    LiteralPrefix(inClass, p, "*" + rest, text);
    if p <= text {
      StarSkips(inClass, rest, text[|p|..]);
      forall n | 0 <= n <= |text| - |p| ensures text[|p|..][n..] == text[|p| + n..] { }
      forall n | |p| <= n <= |text| ensures text[n..] == text[|p|..][n - |p|..] { }
    }
  }

  lemma {:induction false} StarSkips(inClass: (string, char) -> bool, rest: string, text: string)
    ensures Glob(inClass, "*" + rest, text) <==> exists n :: 0 <= n <= |text| && Glob(inClass, rest, text[n..])
  {
    assert ("*" + rest)[1..] == rest && text[0..] == text;
    if text != "" {
      StarSkips(inClass, rest, text[1..]);
      forall n | 1 <= n <= |text| ensures text[n..] == text[1..][n - 1..] { }
    }
  }

  /** A trailing star selects the texts that start with what is before it. */
  lemma PrefixPattern(inClass: (string, char) -> bool, p: string, text: string)
    requires IsExact(p)
    ensures Glob(inClass, p + "*", text) <==> p <= text
  {
    StarSplits(inClass, p, "", text);
    assert p + ("*" + "") == p + "*" && text[|text|..] == "";
  }

  /** A question mark stands for one character, a closed bracket for one of its class; an opening bracket that is
      never closed stands for itself. */
  lemma OneCharacterParts(inClass: (string, char) -> bool, p: string, body: string, rest: string, text: string)
    requires IsExact(p) && body !in {"", "!"} && ']' !in body
    ensures Glob(inClass, p + ("?" + rest), text) <==> p < text && Glob(inClass, rest, text[|p| + 1..])
    ensures Glob(inClass, p + ("[" + body + "]" + rest), text) <==>
            p < text && inClass(body, text[|p|]) && Glob(inClass, rest, text[|p| + 1..])
    ensures ']' !in rest ==> (Glob(inClass, p + ("[" + rest), text) <==> p + "[" <= text && Glob(inClass, rest, text[|p| + 1..]))
  {
    LiteralPrefix(inClass, p, "?" + rest, text);
    LiteralPrefix(inClass, p, "[" + body + "]" + rest, text);
    LiteralPrefix(inClass, p, "[" + rest, text);
    FirstPart(inClass, body, rest, if p <= text then text[|p|..] else "");
    assert p <= text ==> (p < text <==> text[|p|..] != "");
    assert p < text ==> text[|p|..][1..] == text[|p| + 1..];
    assert p + "[" <= text <==> p < text && text[|p|] == '[';
  }

  lemma FirstPart(inClass: (string, char) -> bool, body: string, rest: string, text: string)
    requires body !in {"", "!"} && ']' !in body
    ensures Glob(inClass, "?" + rest, text) <==> text != "" && Glob(inClass, rest, text[1..])
    ensures Glob(inClass, "[" + body + "]" + rest, text) <==> text != "" && inClass(body, text[0]) && Glob(inClass, rest, text[1..])
    ensures ']' !in rest ==> (Glob(inClass, "[" + rest, text) <==> text != "" && text[0] == '[' && Glob(inClass, rest, text[1..]))
  {
    assert ("?" + rest)[1..] == rest && ("[" + rest)[1..] == rest;
    var closed := "[" + body + "]" + rest;
    ClosedClass(body, rest);
    assert closed[1..|body| + 1] == body && closed[|body| + 2..] == rest;
    if ']' !in rest { OpenBracket(inClass, rest, text); }
  }

  lemma OpenBracket(inClass: (string, char) -> bool, rest: string, text: string)
    requires ']' !in rest
    ensures Glob(inClass, "[" + rest, text) <==> text != "" && text[0] == '[' && Glob(inClass, rest, text[1..])
  {
    var pattern := "[" + rest;
    assert pattern[0] == '[' && pattern[1..] == rest && ']' !in pattern;
    NeverClosed(pattern, 1);
    NeverClosed(pattern, 2);
    assert ClassEnd(pattern) == None;
    if text != "" { assert Glob(inClass, pattern, text) <==> text[0] == '[' && Glob(inClass, pattern[1..], text[1..]); }
  }

  lemma ClosedClass(body: string, rest: string)
    requires body !in {"", "!"} && ']' !in body
    ensures ClassEnd("[" + body + "]" + rest) == Some(|body| + 1)
  {
    var closed := "[" + body + "]" + rest;
    assert body[0] == '!' && |body| == 1 ==> body == "!";
    assert closed[|body| + 1] == ']' && forall i :: 1 <= i <= |body| ==> closed[i] == body[i - 1] && closed[i] != ']';
    FindsFirst(closed, 1, |body| + 1);
    FindsFirst(closed, 2, |body| + 1);
  }

  /** A closing bracket that comes first, after a negation or not, is a member of the class and does not close it. */
  lemma FirstBracketIsMember(members: string, rest: string)
    requires ']' !in members
    ensures ClassEnd("[]" + members + "]" + rest) == Some(|members| + 2)
    ensures ClassEnd("[!]" + members + "]" + rest) == Some(|members| + 3)
    ensures ']' !in rest ==> ClassEnd("[]" + rest) == None == ClassEnd("[!]" + rest)
  {
    var plain, negated := "[]" + members + "]" + rest, "[!]" + members + "]" + rest;
    assert plain[|members| + 2] == ']' && forall i :: 2 <= i < |members| + 2 ==> plain[i] == members[i - 2];
    assert negated[|members| + 3] == ']' && forall i :: 3 <= i < |members| + 3 ==> negated[i] == members[i - 3];
    FindsFirst(plain, 2, |members| + 2);
    FindsFirst(negated, 3, |members| + 3);
    if ']' !in rest {
      NoneFrom("[]" + rest, 2);
      NoneFrom("[!]" + rest, 3);
    }
  }

  lemma {:induction false} NoneFrom(pattern: string, k: nat)
    requires k <= |pattern| && ']' !in pattern[k..]
    ensures FindFrom(pattern, k) == None
    decreases |pattern| - k
  {
    if k < |pattern| {
      assert pattern[k..] == [pattern[k]] + pattern[k + 1..];
      NoneFrom(pattern, k + 1);
    }
  }

  lemma {:induction false} FindsFirst(pattern: string, k: nat, n: nat)
    requires k <= n < |pattern| && pattern[n] == ']' && forall i :: k <= i < n ==> pattern[i] != ']'
    ensures FindFrom(pattern, k) == Some(n)
    decreases n - k
  {
    if k < n { FindsFirst(pattern, k + 1, n); }
  }

  lemma {:induction false} NeverClosed(pattern: string, k: nat)
    requires ']' !in pattern
    ensures FindFrom(pattern, k) == None
    decreases |pattern| - k
  {
    if k < |pattern| { NeverClosed(pattern, k + 1); }
  }
}
