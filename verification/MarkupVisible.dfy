/** When the beautifier for markup keeps the visible bytes: exactly if every script and style body does. */
module MarkupVisible {
  import opened Bytes
  import opened Beautify
  import opened BeautifyMarkup
  import opened BeautifyVisible
  import opened WhiteSpace
  import Utf8

  // ----- the condition -----

  /** The body of a script or style loses nothing when its line ends are dropped. */
  predicate BodyFits(name: seq<byte>, body: seq<byte>) {
    Chars(name) == "script" || Chars(name) == "style" ==> NothingMeets(Lines(TrimSpace(body), 0))
  }

  function TagEnd(s: seq<byte>): (n: nat)
    requires s != []
    ensures 1 <= n <= |s|
  {
    1 + TagLen(s[1..])
  }

  /** The tag `s` starts with, as a token. */
  function TagAt(s: seq<byte>, lower: seq<byte> -> seq<byte>): Tok
    requires s != []
  {
    var raw := TrimSpace(s[..TagEnd(s)]);
    TagTok(raw, lower(BareName(raw)))
  }

  predicate HasBody(t: Tok) { t.kind == Open && IsRaw(t.name) }

  function BodyAt(s: seq<byte>, name: seq<byte>): seq<byte>
    requires s != []
  {
    var rest := s[TagEnd(s)..];
    rest[..BodyLen(rest, name)]
  }

  predicate TagFits(s: seq<byte>, lower: seq<byte> -> seq<byte>)
    requires s != []
  {
    var t := TagAt(s, lower);
    HasBody(t) ==> BodyFits(t.name, BodyAt(s, t.name))
  }

  predicate IsTag(s: seq<byte>) {
    At(s, 0, '<') && !StartsWith(s, "<!--") && !StartsWith(s, "<![CDATA[") && !At(s, 1, '!') && !At(s, 1, '?')
  }

  predicate StepFits(s: seq<byte>, lower: seq<byte> -> seq<byte>)
    requires s != []
  {
    IsTag(s) ==> TagFits(s, lower)
  }

  /** Every script and style body of the text fits. */
  predicate BodiesFit(s: seq<byte>, lower: seq<byte> -> seq<byte>)
    decreases |s|
  {
    s == [] || (StepFits(s, lower) && BodiesFit(s[Step(s, lower).0..], lower))
  }

  // ----- bodies -----

  lemma NothingFits()
    ensures NothingMeets(Lines([], 0))
  {
    NothingStraddles([]);
    var none: seq<seq<byte>> := [[]];
    assert none[1..] == [];
  }

  lemma RawBodyShows(name: seq<byte>, body: seq<byte>)
    ensures Keeps(Visible(RawBody(name, body)), Visible(body), BodyFits(name, body))
  {
    hide Visible, TrimSpace, Beautified, TrimNewlines, Lines, NothingMeets, Chars;
    var trimmed, css := TrimSpace(body), Chars(name) == "style";
    TrimSpaceShows(body);
    NothingFits();
    var out := Beautified(trimmed, css);
    BeautifiedKeepsVisible(trimmed, css);
    TrimNewlinesShows(out);
    TrimNewlinesShows(trimmed);
  }

  // ----- where the steps cut -----

  lemma {:induction false} FoundAt(s: seq<byte>, sep: seq<byte>)
    ensures var k := IndexOf(s, sep); k.Some? ==> s[k.value..k.value + |sep|] == sep
  {
    if sep <= s {
    } else if s != [] {
      FoundAt(s[1..], sep);
      var k := IndexOf(s[1..], sep);
      if k.Some? {
        assert s[1..][k.value..k.value + |sep|] == s[k.value + 1..k.value + 1 + |sep|];
      }
    }
  }

  lemma EndOfCuts(s: seq<byte>, from: nat, sep: seq<byte>)
    requires from <= |s| && sep != [] && sep[|sep| - 1] < 0x80
    ensures var n := EndOf(s, from, sep); n == |s| || Solid(s[..n])
  {
    hide IndexOf;
    FoundAt(s[from..], sep);
    var k := IndexOf(s[from..], sep);
    if k.Some? {
      var n := from + k.value + |sep|;
      assert s[n - 1] == s[from..][k.value..k.value + |sep|][|sep| - 1];
    }
  }

  /** A tag ends with its bracket, or the text ends inside it. */
  lemma {:induction false} TagCuts(s: seq<byte>)
    ensures var n := TagLen(s); n == |s| || (n > 0 && s[n - 1] == '>' as int)
    decreases |s|
  {
    if s == [] {
    } else if s[0] == '"' as int || s[0] == '\'' as int {
      hide TagLen, QuoteEnd;
      var n := 1 + QuoteEnd(s[1..], s[0]);
      TagCuts(s[n..]);
      QuotedTag(s, n);
    } else if s[0] != '>' as int {
      TagCuts(s[1..]);
    }
  }

  lemma QuotedTag(s: seq<byte>, n: nat)
    requires s != [] && (s[0] == '"' as int || s[0] == '\'' as int) && n == 1 + QuoteEnd(s[1..], s[0])
    ensures n <= |s| && TagLen(s) == n + TagLen(s[n..])
  {
    hide QuoteEnd, TagLen;
    TagStep(s, 0);
    assert s[0..] == s && s[0 + 1..] == s[1..] && s[0 + n..] == s[n..];
  }

  lemma {:induction false} LowerKeepsBracket(s: seq<byte>, k: nat)
    requires k < |s| && AsciiLower(s)[k] == '<' as int
    ensures s[k] == '<' as int
  {
    if k > 0 {
      LowerKeepsBracket(s[1..], k - 1);
    }
  }

  lemma BodyCuts(s: seq<byte>, name: seq<byte>)
    ensures var k := BodyLen(s, name); k == |s| || s[k] == '<' as int
  {
    hide IndexOf;
    var sep := AsciiLower(['<' as int, '/' as int] + name);
    assert sep[0] == '<' as int;
    FoundAt(AsciiLower(s), sep);
    var k := IndexOf(AsciiLower(s), sep);
    if k.Some? {
      assert AsciiLower(s)[k.value..k.value + |sep|][0] == AsciiLower(s)[k.value];
      LowerKeepsBracket(s, k.value);
    }
  }

  /** The end of a step is no place where a character could be cut in two. */
  predicate CutsClean(s: seq<byte>, n: nat)
    requires n <= |s|
  {
    n == |s| || Solid(s[..n]) || !WhiteSpace.Tail(s[n..])
  }

  lemma CleanCutShows(s: seq<byte>, n: nat)
    requires n <= |s| && CutsClean(s, n)
    ensures Visible(s) == Visible(s[..n]) + Visible(s[n..])
  {
    hide Visible, Solid;
    CleanSeam(s[..n], s[n..]);
    assert s[..n] + s[n..] == s;
  }

  lemma TagEndCuts(s: seq<byte>)
    requires s != []
    ensures var n := TagEnd(s); n == |s| || s[n - 1] == '>' as int
  {
    hide TagLen;
    TagCuts(s[1..]);
  }

  lemma TextCuts(s: seq<byte>)
    ensures var n := SpanLen(s, InText); n == |s| || !WhiteSpace.Tail(s[n..])
  {
    hide SpanLen;
  }

  // ----- one step -----

  /** What the tokens show one by one. */
  function TokensVisible(toks: seq<Tok>): seq<byte> {
    if toks == [] then [] else Visible(toks[0].raw) + TokensVisible(toks[1..])
  }

  lemma {:induction false} TokensAppend(a: seq<Tok>, b: seq<Tok>)
    ensures TokensVisible(a + b) == TokensVisible(a) + TokensVisible(b)
  {
    hide Visible;
    if a == [] {
      assert a + b == b && [] + TokensVisible(b) == TokensVisible(b);
    } else {
      assert (a + b)[0] == a[0] && (a + b)[1..] == a[1..] + b;
      TokensAppend(a[1..], b);
      Associative(Visible(a[0].raw), TokensVisible(a[1..]), TokensVisible(b));
    }
  }

  lemma TokenShows(t: Tok)
    ensures TokensVisible([t]) == Visible(t.raw)
  {
    hide Visible;
    assert [t][1..] == [] && Visible(t.raw) + [] == Visible(t.raw);
  }

  /** Closing tags start with a bracket, and opening tags in front of anything end in ASCII. */
  predicate Sturdy(toks: seq<Tok>) {
    && (forall i | 0 <= i < |toks| :: toks[i].kind == Close ==> At(toks[i].raw, 0, '<'))
    && (forall i | 0 <= i < |toks| - 1 :: toks[i].kind == Open ==> Solid(toks[i].raw))
  }

  /** All opening tags end in ASCII, so that more tokens may follow. */
  predicate Finished(toks: seq<Tok>) { forall i | 0 <= i < |toks| :: toks[i].kind == Open ==> Solid(toks[i].raw) }

  lemma SturdyAppend(a: seq<Tok>, b: seq<Tok>)
    requires Sturdy(a) && Sturdy(b) && (b == [] || Finished(a))
    ensures Sturdy(a + b)
  {
    hide Solid;
  }

  lemma TagTokSturdy(raw: seq<byte>, name: seq<byte>)
    ensures var t := TagTok(raw, name); t.raw == raw && Sturdy([t]) && (Solid(raw) ==> Finished([t]))
  {
    hide IsVoid, EndsSelf, Solid;
    if StartsWith(raw, "</") {
      assert Chars(raw[..2])[0] == raw[0] as char;
    }
  }

  lemma BracketIsNoSpace(u: seq<byte>)
    requires u != [] && u[|u| - 1] == '>' as int
    ensures SpaceLen(u) != |u|
  {
  }

  lemma BracketEndsNoSpace(s: seq<byte>)
    requires s != [] && s[|s| - 1] == '>' as int
    ensures LastSpaceLen(s) == 0
  {
    hide SpaceLen, LastSpaceLen;
    var n := LastSpaceLen(s);
    if n > 0 {
      BracketIsNoSpace(s[|s| - n..]);
    }
  }

  /** Nothing is trimmed from a text in brackets. */
  lemma BracketsStay(s: seq<byte>)
    requires s != [] && s[0] == '<' as int && s[|s| - 1] == '>' as int
    ensures TrimSpace(s) == s
  {
    hide SpaceLen, LastSpaceLen;
    BracketsStart(s);
    BracketEndsNoSpace(s);
  }

  lemma BracketsStart(s: seq<byte>)
    requires At(s, 0, '<')
    ensures SpaceLen(s) == 0
  {
  }

  /** The bodies of raw elements are nothing or one token. */
  lemma BodyToksShow(body: seq<byte>, name: seq<byte>)
    ensures Keeps(TokensVisible(BodyToks(body, name)), Visible(body), BodyFits(name, body))
    ensures Sturdy(BodyToks(body, name)) && Finished(BodyToks(body, name))
    ensures body == [] ==> BodyToks(body, name) == []
  {
    hide Visible, RawBody, BodyFits;
    RawBodyShows(name, body);
    TokenShows(Tok(Raw, RawBody(name, body), []));
    NothingStraddles([]);
    EmptyBody(name);
  }

  lemma EmptyBody(name: seq<byte>)
    ensures RawBody(name, []) == []
  {
    hide Beautified, TrimNewlines, Chars;
  }

  /** A tag and its body, if it has one. */
  lemma TagShows(s: seq<byte>, lower: seq<byte> -> seq<byte>)
    requires At(s, 0, '<')
    ensures var (n, toks) := Tag(s, lower);
            && Keeps(TokensVisible(toks), Visible(s[..n]), TagFits(s, lower))
            && CutsClean(s, n) && Sturdy(toks) && (n < |s| ==> Finished(toks))
  {
    hide Visible, TrimSpace, TagLen, BareName, BodyLen, BodyToks, BodyFits, IsRaw, Solid, Sturdy, Finished, TagTok;
    var n := TagEnd(s);
    var raw := TrimSpace(s[..n]);
    var t := TagAt(s, lower);
    TagEndCuts(s);
    TrimSpaceShows(s[..n]);
    TagTokSturdy(raw, lower(BareName(raw)));
    TokenShows(t);
    if n < |s| {
      TagIsSolid(s, n);
    }
    if HasBody(t) {
      TagWithBody(s, n, t);
      assert s[n..][..BodyLen(s[n..], t.name)] == s[n..n + BodyLen(s[n..], t.name)];
    }
  }

  lemma TagIsSolid(s: seq<byte>, n: nat)
    requires 1 <= n <= |s| && s[0] == '<' as int && s[n - 1] == '>' as int
    ensures Solid(s[..n]) && TrimSpace(s[..n]) == s[..n]
  {
    hide TrimSpace;
    BracketsStay(s[..n]);
  }

  lemma TagWithBody(s: seq<byte>, n: nat, t: Tok)
    requires n <= |s| && (n == |s| || Solid(s[..n])) && Visible(t.raw) == Visible(s[..n])
    requires Sturdy([t]) && (n < |s| ==> Finished([t]))
    ensures var k := BodyLen(s[n..], t.name);
            var body := s[n..n + k];
            var toks := [t] + BodyToks(body, t.name);
            && Keeps(TokensVisible(toks), Visible(s[..n + k]), BodyFits(t.name, body))
            && CutsClean(s, n + k) && Sturdy(toks) && (n + k < |s| ==> Finished(toks))
  {
    hide Visible, BodyLen, BodyToks, BodyFits, Solid, Sturdy, Finished;
    var k := BodyLen(s[n..], t.name);
    var body := s[n..n + k];
    var more := BodyToks(body, t.name);
    BodyCuts(s[n..], t.name);
    BodyToksShow(body, t.name);
    TokenShows(t);
    TokensAppend([t], more);
    KeepsBoth(Visible(t.raw), Visible(s[..n]), true, TokensVisible(more), Visible(body), BodyFits(t.name, body));
    assert s[..n + k] == s[..n] + body;
    BodySeam(s, n, body);
    CleanSeam(s[..n], body);
    SturdyAppend([t], more);
    FinishedAppend([t], more);
    if n + k < |s| {
      assert s[n + k..] == s[n..][k..] && s[n + k] == '<' as int;
    }
  }

  lemma BodySeam(s: seq<byte>, n: nat, body: seq<byte>)
    requires n <= |s| && (n == |s| || Solid(s[..n])) && body <= s[n..]
    ensures Solid(s[..n]) || !WhiteSpace.Tail(body)
  {
  }

  lemma FinishedAppend(a: seq<Tok>, b: seq<Tok>)
    ensures Finished(a) && Finished(b) ==> Finished(a + b)
  {
    hide Solid;
  }

  lemma PlainShows(s: seq<byte>, n: nat, t: Tok)
    requires n <= |s| && t.kind != Open && t.kind != Close && Visible(t.raw) == Visible(s[..n])
    ensures Keeps(TokensVisible([t]), Visible(s[..n]), true) && Sturdy([t]) && Finished([t])
  {
    hide Visible;
    TokenShows(t);
  }

  /** One step shows what it took, but for a body that does not fit, and cuts no character. */
  lemma StepShows(s: seq<byte>, lower: seq<byte> -> seq<byte>)
    requires s != []
    ensures var (n, toks) := Step(s, lower);
            && Keeps(TokensVisible(toks), Visible(s[..n]), StepFits(s, lower))
            && CutsClean(s, n) && Sturdy(toks) && (n < |s| ==> Finished(toks))
  {
    hide Visible, TrimSpace, TagLen, Tag, StartsWith, EndOf, SpanLen, TagFits, Solid, Sturdy, Finished, TokensVisible;
    var (n, toks) := Step(s, lower);
    TrimSpaceShows(s[..n]);
    NoTokens();
    if s[0] != '<' as int {
      TextCuts(s);
      if toks != [] {
        PlainShows(s, n, toks[0]);
      } else {
        NothingVisible(s[..n]);
      }
    } else if StartsWith(s, "<!--") {
      EndOfCuts(s, 4, COMMENT_END);
      PlainShows(s, n, toks[0]);
    } else if StartsWith(s, "<![CDATA[") {
      EndOfCuts(s, 9, CDATA_END);
      PlainShows(s, n, toks[0]);
    } else if At(s, 1, '!') || At(s, 1, '?') {
      TagEndCuts(s);
      DeclCuts(s, n);
      PlainShows(s, n, toks[0]);
    } else {
      TagShows(s, lower);
    }
  }

  lemma NoTokens()
    ensures TokensVisible([]) == [] && Sturdy([]) && Finished([])
  {
  }

  lemma NothingVisible(s: seq<byte>)
    requires TrimSpace(s) == []
    ensures Visible(s) == []
  {
    hide TrimSpace;
    TrimSpaceShows(s);
  }

  lemma DeclCuts(s: seq<byte>, n: nat)
    requires 1 <= n <= |s| && (n == |s| || s[n - 1] == '>' as int)
    ensures CutsClean(s, n)
  {
  }

  /** All tokens together show the text, but for the bodies that do not fit. */
  lemma {:induction false} ToksShow(s: seq<byte>, lower: seq<byte> -> seq<byte>)
    ensures Keeps(TokensVisible(Toks(s, lower)), Visible(s), BodiesFit(s, lower))
    ensures Sturdy(Toks(s, lower))
    decreases |s|
  {
    hide Visible, Step, StepFits, Sturdy, Finished, TokensVisible, CutsClean;
    NoTokens();
    if s == [] {
      NothingStraddles([]);
    } else {
      var (n, toks) := Step(s, lower);
      var rest := Toks(s[n..], lower);
      StepShows(s, lower);
      ToksShow(s[n..], lower);
      CleanCutShows(s, n);
      TokensAppend(toks, rest);
      KeepsBoth(TokensVisible(toks), Visible(s[..n]), StepFits(s, lower),
                TokensVisible(rest), Visible(s[n..]), BodiesFit(s[n..], lower));
      assert n == |s| ==> rest == [];
      SturdyAppend(toks, rest);
    }
  }

  // ----- the layout -----

  lemma LineShows(out: seq<byte>, indent: nat, s: seq<byte>)
    ensures Visible(Line(out, indent, s)) == Visible(out) + Visible(s)
  {
    hide Visible, Spaces, Solid, WhiteSpace.Tail;
    var nl := ['\n' as int];
    var head := if out == [] then [] else out + nl;
    SpacesShowNothing(indent);
    LineEndClean(nl[0], []);
    assert nl + [] == nl;
    BlanksShowNothing(nl);
    CleanSeam(out, nl);
    SolidHead(out);
    CleanSeam(head, Spaces(indent));
    SolidEnd(head, Spaces(indent));
    CleanSeam(head + Spaces(indent), s);
    assert Visible(out) + [] + [] == Visible(out);
  }

  lemma SolidHead(out: seq<byte>)
    ensures Solid(if out == [] then [] else out + ['\n' as int])
  {
  }

  lemma {:induction false} LinesOfShow(out: seq<byte>, indent: nat, lines: seq<seq<byte>>)
    ensures Visible(LinesOf(out, indent, lines)) == Visible(out) + AllVisible(lines)
    decreases |lines|
  {
    hide Visible, Line;
    if lines == [] {
      assert Visible(out) + [] == Visible(out);
    } else {
      LinesOfShow(Line(out, indent, lines[0]), indent, lines[1..]);
      LineShows(out, indent, lines[0]);
      Associative(Visible(out), Visible(lines[0]), AllVisible(lines[1..]));
    }
  }

  lemma {:induction false} SplitShows(s: seq<byte>)
    ensures AllVisible(Split(s)) == Visible(s)
    decreases |s|
  {
    hide Visible, SpanLen;
    var k := SpanLen(s, NotNewline);
    if k < |s| {
      var head, tail := s[..k], s[k + 1..];
      SplitShows(tail);
      assert ([head] + Split(tail))[1..] == Split(tail);
      assert s == head + ([s[k]] + tail);
      LineEndShows(head, s[k], tail);
    } else {
      assert [s][1..] == [] && Visible(s) + [] == Visible(s);
    }
  }

  lemma TwoShow(a: Tok, b: Tok)
    requires At(b.raw, 0, '<')
    ensures Visible(a.raw + b.raw) == TokensVisible([a, b])
  {
    hide Visible, TokensVisible;
    TokenShows(a);
    TokenShows(b);
    TokensAppend([a], [b]);
    assert [a] + [b] == [a, b];
    CleanSeam(a.raw, b.raw);
  }

  lemma ThreeShow(a: Tok, b: Tok, c: Tok)
    requires Solid(a.raw) && At(c.raw, 0, '<')
    ensures Visible(a.raw + b.raw + c.raw) == TokensVisible([a, b, c])
  {
    hide Visible, TokensVisible, Solid;
    TokenShows(a);
    TwoShow(b, c);
    TokensAppend([a], [b, c]);
    assert [a] + [b, c] == [a, b, c];
    Associative(a.raw, b.raw, c.raw);
    CleanSeam(a.raw, b.raw + c.raw);
  }

  lemma AloneShows(toks: seq<Tok>, indent: nat, out: seq<byte>)
    requires toks != [] && Group(toks, indent, out).0 == 1
    ensures Visible(Group(toks, indent, out).2) == Visible(out) + Visible(toks[0].raw)
  {
    hide Visible, Line, LinesOf, Split;
    var (n, next, more) := Group(toks, indent, out);
    var t := toks[0];
    if t.kind == Raw {
      LinesOfShow(out, indent, Split(t.raw));
      SplitShows(t.raw);
    } else {
      LineShows(out, if t.kind == Close then next else indent, t.raw);
    }
  }

  lemma SturdyGroup(toks: seq<Tok>)
    requires Sturdy(toks) && toks != []
    ensures |toks| > 1 && toks[0].kind == Open ==> Solid(toks[0].raw)
    ensures ClosesAt(toks, 1) ==> At(toks[1].raw, 0, '<')
    ensures ClosesAt(toks, 2) ==> At(toks[2].raw, 0, '<')
  {
    hide Solid;
  }

  lemma GroupShows(toks: seq<Tok>, indent: nat, out: seq<byte>)
    requires toks != [] && Sturdy(toks)
    ensures var (n, _, more) := Group(toks, indent, out); Visible(more) == Visible(out) + TokensVisible(toks[..n])
  {
    hide Visible, Line, LinesOf, Split, TokensVisible, Solid, Sturdy;
    var (n, next, more) := Group(toks, indent, out);
    var t := toks[0];
    SturdyGroup(toks);
    if n == 1 {
      AloneShows(toks, indent, out);
      TokenShows(t);
      assert toks[..1] == [t];
    } else if n == 2 {
      TwoShow(t, toks[1]);
      assert toks[..2] == [t, toks[1]];
      LineShows(out, indent, t.raw + toks[1].raw);
    } else {
      ThreeShow(t, toks[1], toks[2]);
      assert toks[..3] == [t, toks[1], toks[2]];
      LineShows(out, indent, t.raw + toks[1].raw + toks[2].raw);
    }
  }

  lemma SturdyRest(toks: seq<Tok>, n: nat)
    requires Sturdy(toks) && n <= |toks|
    ensures Sturdy(toks[n..])
  {
    hide Solid;
    assert forall i | 0 <= i < |toks| - n :: toks[n..][i] == toks[n + i];
  }

  lemma {:induction false} LayShows(toks: seq<Tok>, indent: nat, out: seq<byte>)
    requires Sturdy(toks)
    ensures Visible(Lay(toks, indent, out)) == Visible(out) + TokensVisible(toks)
    decreases |toks|
  {
    hide Visible, Group, TokensVisible, Sturdy;
    if toks == [] {
      NoTokens();
      assert Visible(out) + [] == Visible(out);
    } else {
      var (n, next, more) := Group(toks, indent, out);
      GroupShows(toks, indent, out);
      SturdyRest(toks, n);
      LayShows(toks[n..], next, more);
      TokensAppend(toks[..n], toks[n..]);
      assert toks[..n] + toks[n..] == toks;
      Associative(Visible(out), TokensVisible(toks[..n]), TokensVisible(toks[n..]));
    }
  }

  // ----- the whole -----

  lemma {:induction false} NoTokensFit(s: seq<byte>, lower: seq<byte> -> seq<byte>)
    requires Toks(s, lower) == []
    ensures BodiesFit(s, lower)
    decreases |s|
  {
    hide Step, StepFits;
    if s != [] {
      var (n, toks) := Step(s, lower);
      assert |toks + Toks(s[n..], lower)| == |toks| + |Toks(s[n..], lower)|;
      EmptyStepFits(s, lower);
      NoTokensFit(s[n..], lower);
    }
  }

  lemma EmptyStepFits(s: seq<byte>, lower: seq<byte> -> seq<byte>)
    requires s != [] && Step(s, lower).1 == []
    ensures StepFits(s, lower)
  {
    hide TagFits, TrimSpace, TagLen, EndOf, StartsWith, SpanLen, BodyLen, BodyToks, TagTok, BareName, IsRaw;
  }

  /** Exactly if every script and style body fits, the result shows what the source shows; otherwise it shows less. */
  lemma MarkupKeepsVisible(src: seq<byte>, lower: seq<byte> -> seq<byte>)
    ensures Visible(BeautifiedMarkup(src, lower)) == Visible(src) <==> BodiesFit(src, lower)
    ensures Keeps(Visible(BeautifiedMarkup(src, lower)), Visible(src), BodiesFit(src, lower))
  {
    hide Visible, Toks, Lay, TrimNewlines, BodiesFit, TokensVisible, Sturdy;
    var toks := Toks(src, lower);
    ToksShow(src, lower);
    if toks == [] {
      NoTokensFit(src, lower);
    } else {
      LayShows(toks, 0, []);
      NothingStraddles([]);
      assert [] + TokensVisible(toks) == TokensVisible(toks);
      TrimNewlinesShows(Lay(toks, 0, []));
    }
  }

  // ----- valid text -----

  lemma NoStrayTailInside(s: seq<byte>, i: nat, j: nat)
    requires NoStrayTail(s) && i <= j <= |s|
    ensures NoStrayTail(s[i..j])
  {
    assert forall k | 0 <= k < j - i :: s[i..j][k] == s[i + k];
  }

  lemma {:induction false} TrimIsInside(s: seq<byte>)
    requires NoStrayTail(s)
    ensures NoStrayTail(TrimLeft(s)) && NoStrayTail(TrimRight(s))
    decreases |s|
  {
    hide NoStrayTail, SpaceLen, LastSpaceLen;
    var n := SpaceLen(s);
    if n > 0 {
      assert s[n..|s|] == s[n..];
      NoStrayTailInside(s, n, |s|);
      TrimIsInside(s[n..]);
    }
    var m := LastSpaceLen(s);
    if m > 0 {
      assert s[0..|s| - m] == s[..|s| - m];
      NoStrayTailInside(s, 0, |s| - m);
      TrimIsInside(s[..|s| - m]);
    }
  }

  lemma TidyBodyFits(name: seq<byte>, body: seq<byte>)
    requires NoStrayTail(body)
    ensures BodyFits(name, body)
  {
    hide NoStrayTail, TrimLeft, TrimRight, Lines, Tidy, NothingMeets, Chars;
    TrimIsInside(body);
    TrimIsInside(TrimLeft(body));
    LinesTidy(TrimSpace(body), 0);
    TidyMeetsNothing(Lines(TrimSpace(body), 0));
  }

  lemma {:induction false} TidyTextFits(s: seq<byte>, lower: seq<byte> -> seq<byte>)
    requires NoStrayTail(s)
    ensures BodiesFit(s, lower)
    decreases |s|
  {
    hide NoStrayTail, Step, BodyFits, TagLen, TagTok, BodyLen, TrimSpace, IsTag, HasBody;
    if s != [] {
      var n := Step(s, lower).0;
      assert s[n..|s|] == s[n..];
      NoStrayTailInside(s, n, |s|);
      TidyTextFits(s[n..], lower);
      var t := TagAt(s, lower);
      var from, k := TagEnd(s), BodyLen(s[TagEnd(s)..], t.name);
      assert BodyAt(s, t.name) == s[from..from + k];
      NoStrayTailInside(s, from, from + k);
      TidyBodyFits(t.name, BodyAt(s, t.name));
    }
  }

  /** Valid UTF-8 keeps every visible byte, scripts and styles included. */
  lemma ValidTextKeepsVisible(src: seq<byte>, lower: seq<byte> -> seq<byte>)
    requires Utf8.Valid(src)
    ensures Visible(BeautifiedMarkup(src, lower)) == Visible(src)
  {
    hide Visible, BeautifiedMarkup, BodiesFit, NoStrayTail, Utf8.Valid;
    ValidHasNoStrayTail(src);
    TidyTextFits(src, lower);
    MarkupKeepsVisible(src, lower);
  }

  // ----- a style sheet that loses a character -----

  const STYLE: seq<byte> := ['s' as int, 't' as int, 'y' as int, 'l' as int, 'e' as int]

  const STYLE_TAG: seq<byte> := ['<' as int] + STYLE + ['>' as int]

  /** The two halves of a no-break space on two lines of a style sheet. */
  const SPLIT_SHEET: seq<byte> := STYLE_TAG + HALVES

  lemma {:induction false} PlainTag(p: seq<byte>, rest: seq<byte>)
    requires forall k | 0 <= k < |p| :: p[k] != '"' as int && p[k] != '\'' as int && p[k] != '>' as int
    ensures TagLen(p + ['>' as int] + rest) == |p| + 1
  {
    var s := p + ['>' as int] + rest;
    if p != [] {
      assert s[0] == p[0] && s[1..] == p[1..] + ['>' as int] + rest;
      PlainTag(p[1..], rest);
    }
  }

  lemma StyleName()
    ensures BareName(STYLE_TAG) == STYLE && Chars(STYLE) == "style"
    ensures StartsWith(STYLE_TAG, "</") == false && EndsSelf(STYLE_TAG) == false && !IsVoid(STYLE)
  {
    hide SpanLen;
    var s := STYLE + ['>' as int];
    assert STYLE_TAG[1..] == s && s[0..] == s;
    assert SpanLen(s, BeforeName) == 0 by { assert !BeforeName(s[0]); }
    var n := SpanLen(s, InName);
    assert InName(s[0]) && InName(s[1]) && InName(s[2]) && InName(s[3]) && InName(s[4]) && !InName(s[5]);
    assert n == 5 && s[..5] == STYLE;
    assert Chars(STYLE_TAG[..2])[1] == 's';
    assert |Chars(STYLE)| == 5 && Chars(STYLE)[0] == 's' && Chars(STYLE)[1] == 't';
  }

  lemma SheetTag(lower: seq<byte> -> seq<byte>)
    requires lower(STYLE) == STYLE
    ensures TagEnd(SPLIT_SHEET) == 7 && TagAt(SPLIT_SHEET, lower) == Tok(Open, STYLE_TAG, STYLE)
    ensures BodyAt(SPLIT_SHEET, STYLE) == HALVES
  {
    hide TrimSpace, TagLen, BareName, BodyLen, IsVoid, EndsSelf, StartsWith, Chars;
    PlainTag(STYLE, HALVES);
    assert SPLIT_SHEET[1..] == STYLE + ['>' as int] + HALVES;
    assert SPLIT_SHEET[..7] == STYLE_TAG && SPLIT_SHEET[7..] == HALVES;
    BracketsStay(STYLE_TAG);
    StyleName();
    BodyCuts(HALVES, STYLE);
    assert HALVES[0] != '<' as int && HALVES[1] != '<' as int && HALVES[2] != '<' as int;
    assert BodyLen(HALVES, STYLE) == 3 && HALVES[..3] == HALVES;
  }

  lemma HalvesAreTrim()
    ensures TrimSpace(HALVES) == HALVES
  {
    assert SpaceLen(HALVES) == 0;
    assert HALVES[2..] == [0xA0] && HALVES[1..] == ['\n' as int, 0xA0] && HALVES[0..] == HALVES;
    assert SpaceLen([0xA0]) == 0 && SpaceLen(['\n' as int, 0xA0]) == 1;
    assert LastSpaceLen(HALVES) == 0;
  }

  lemma SheetIsTag()
    ensures IsTag(SPLIT_SHEET)
  {
    assert Chars(SPLIT_SHEET[..4])[1] == 's' && Chars(SPLIT_SHEET[..9])[1] == 's';
  }

  /** The sheet does not fit, and its no-break space comes about and is no longer seen. */
  lemma SplitSheetLoses(lower: seq<byte> -> seq<byte>)
    requires lower(STYLE) == STYLE
    ensures !BodiesFit(SPLIT_SHEET, lower)
    ensures Visible(BeautifiedMarkup(SPLIT_SHEET, lower)) != Visible(SPLIT_SHEET)
  {
    hide Visible, BeautifiedMarkup, TrimSpace, Lines, NothingMeets, IsTag, TagAt, BodyAt, Step;
    SheetIsTag();
    SheetTag(lower);
    StyleName();
    HalvesAreTrim();
    HalvesMeet(true);
    assert !TagFits(SPLIT_SHEET, lower);
    MarkupKeepsVisible(SPLIT_SHEET, lower);
  }
}
