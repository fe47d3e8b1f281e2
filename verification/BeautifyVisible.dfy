/** When the beautifier for brace languages keeps the visible bytes: exactly if the line ends it drops part no character. */
module BeautifyVisible {
  import opened Bytes
  import opened Buffers
  import opened Beautify
  import opened WhiteSpace
  import Utf8

  // ----- the lines of the source -----

  predicate EndsLine(c: byte) { c == '\n' as int || c == '\r' as int }

  function Prepend(p: seq<byte>, lines: seq<seq<byte>>): (r: seq<seq<byte>>)
    requires lines != []
    ensures r != []
  {
    [p + lines[0]] + lines[1..]
  }

  /** `last` behind a byte outside everything that is copied. */
  function NextLast(c: byte, last: byte): byte { if IsBlank(c) then last else c }

  /** The source cut at the line ends that stand outside strings, comments and regular expressions. */
  function Lines(s: seq<byte>, last: byte): (lines: seq<seq<byte>>)
    ensures lines != []
    decreases |s|
  {
    if s == [] then [[]]
    else
      var copied := Copied(s, last);
      if copied.Some? then Prepend(s[..copied.value.0], Lines(s[copied.value.0..], copied.value.1))
      else if EndsLine(s[0]) then [[]] + Lines(s[1..], last)
      else Prepend([s[0]], Lines(s[1..], NextLast(s[0], last)))
  }

  /** No white-space character comes about where line ends are dropped. */
  predicate NothingMeets(lines: seq<seq<byte>>) {
    lines == [] || (!Straddles(lines[0], Flat(lines[1..])) && NothingMeets(lines[1..]))
  }

  /** What the lines show one by one. */
  function AllVisible(lines: seq<seq<byte>>): seq<byte> {
    if lines == [] then [] else Visible(lines[0]) + AllVisible(lines[1..])
  }

  lemma PrependTwice(p: seq<byte>, q: seq<byte>, lines: seq<seq<byte>>)
    requires lines != []
    ensures Prepend(p, Prepend(q, lines)) == Prepend(p + q, lines)
  {
    var l := Prepend(q, lines);
    assert l[0] == q + lines[0] && l[1..] == lines[1..];
    Associative(p, q, lines[0]);
  }

  lemma FlatPrepend(p: seq<byte>, lines: seq<seq<byte>>)
    requires lines != []
    ensures Flat(Prepend(p, lines)) == p + Flat(lines)
  {
    var l := Prepend(p, lines);
    assert l[0] == p + lines[0] && l[1..] == lines[1..];
    Associative(p, lines[0], Flat(lines[1..]));
  }

  lemma AllVisiblePrepend(p: seq<byte>, lines: seq<seq<byte>>)
    requires lines != []
    ensures AllVisible(Prepend(p, lines)) == Visible(p + lines[0]) + AllVisible(lines[1..])
  {
    var l := Prepend(p, lines);
    assert l[0] == p + lines[0] && l[1..] == lines[1..];
  }

  lemma SplitAt(s: seq<byte>, n: nat)
    requires n <= |s|
    ensures s[..n] + s[n..] == s
  {
  }

  // ----- the source shows what its lines show -----

  lemma LineEndShows(p: seq<byte>, c: byte, s: seq<byte>)
    requires EndsLine(c)
    ensures Visible(p + ([c] + s)) == Visible(p) + Visible(s)
  {
    hide Visible, Solid, WhiteSpace.Tail;
    LineEndClean(c, s);
    CleanSeam(p, [c] + s);
    CleanSeam([c], s);
    BlanksShowNothing([c]);
    assert [] + Visible(s) == Visible(s);
  }

  lemma LineEndClean(c: byte, s: seq<byte>)
    requires EndsLine(c)
    ensures Solid([c]) && !WhiteSpace.Tail([c] + s) && IsBlank(c)
  {
  }

  lemma {:induction false} LinesShow(p: seq<byte>, s: seq<byte>, last: byte)
    ensures AllVisible(Prepend(p, Lines(s, last))) == Visible(p + s)
    decreases |s|
  {
    hide Visible, Copied, EndsLine, Prepend, AllVisible;
    if s == [] {
      LastLineShows(p);
    } else {
      var copied := Copied(s, last);
      if copied.Some? {
        LinesShowBehind(p, s, copied.value.0, copied.value.1);
      } else if EndsLine(s[0]) {
        LinesShow([], s[1..], last);
        NewLineShows(p, Lines(s[1..], last));
        PrependNothing(Lines(s[1..], last));
        SplitAt(s, 1);
        assert s[..1] == [s[0]] && [] + s[1..] == s[1..];
        LineEndShows(p, s[0], s[1..]);
      } else {
        assert s[..1] == [s[0]];
        LinesShowBehind(p, s, 1, NextLast(s[0], last));
      }
    }
  }

  lemma LinesShowBehind(p: seq<byte>, s: seq<byte>, n: nat, last: byte)
    requires 1 <= n <= |s|
    ensures AllVisible(Prepend(p, Prepend(s[..n], Lines(s[n..], last)))) == Visible(p + s)
    decreases |s|, 0
  {
    hide Visible, AllVisible, Prepend, Lines;
    PrependTwice(p, s[..n], Lines(s[n..], last));
    LinesShow(p + s[..n], s[n..], last);
    Associative(p, s[..n], s[n..]);
    SplitAt(s, n);
  }

  lemma LastLineShows(p: seq<byte>)
    ensures AllVisible(Prepend(p, [[]])) == Visible(p + [])
  {
    hide Visible;
    AllVisiblePrepend(p, [[]]);
    assert Visible(p) + [] == Visible(p);
  }

  lemma NewLineShows(p: seq<byte>, lines: seq<seq<byte>>)
    ensures AllVisible(Prepend(p, [[]] + lines)) == Visible(p) + AllVisible(lines)
  {
    hide Visible;
    AllVisiblePrepend(p, [[]] + lines);
    assert p + [] == p && ([[]] + lines)[1..] == lines;
  }

  lemma PrependNothing(lines: seq<seq<byte>>)
    requires lines != []
    ensures Prepend([], lines) == lines
  {
    assert [] + lines[0] == lines[0];
  }

  /** Joined, the lines show no more than one by one, and the same exactly if nothing meets. */
  lemma {:induction false} JoinedLinesShow(lines: seq<seq<byte>>)
    ensures Keeps(Visible(Flat(lines)), AllVisible(lines), NothingMeets(lines))
  {
    hide Visible, Straddles;
    if lines == [] {
      NothingStraddles([]);
    } else {
      JoinedLinesShow(lines[1..]);
      VisibleAppend(lines[0], Flat(lines[1..]));
    }
  }

  // ----- the pass shows what the joined lines show -----

  /** Whatever follows, both show the same in front of it. */
  ghost predicate ShowAlike(a: seq<byte>, b: seq<byte>) {
    forall x: seq<byte> {:trigger Visible(a + x)} {:trigger Visible(b + x)} :: Visible(a + x) == Visible(b + x)
  }

  lemma AlikeShow(a: seq<byte>, b: seq<byte>)
    requires ShowAlike(a, b)
    ensures Visible(a) == Visible(b)
  {
    hide Visible;
    assert a + [] == a && b + [] == b;
  }

  lemma AlikeGrow(a: seq<byte>, b: seq<byte>, y: seq<byte>)
    requires ShowAlike(a, b)
    ensures ShowAlike(a + y, b + y)
  {
    hide Visible;
    forall x: seq<byte> ensures Visible(a + y + x) == Visible(b + y + x) {
      Associative(a, y, x);
      Associative(b, y, x);
    }
  }

  lemma SolidAlike(a: seq<byte>, b: seq<byte>)
    requires Solid(a) && Solid(b) && Visible(a) == Visible(b)
    ensures ShowAlike(a, b)
  {
    hide Visible, Solid;
    forall x: seq<byte> ensures Visible(a + x) == Visible(b + x) {
      CleanSeam(a, x);
      CleanSeam(b, x);
    }
  }

  /** The buffer is solid and shows what it showed before, with `more` behind it. */
  predicate Shows(out: seq<byte>, before: seq<byte>, more: seq<byte>) {
    Solid(out) && Visible(out) == Visible(before) + more
  }

  lemma {:induction false} TrimInlineShows(out: seq<byte>)
    ensures Visible(TrimInline(out)) == Visible(out)
  {
    hide Visible;
    if out != [] && IsInline(out[|out| - 1]) {
      var init, c := out[..|out| - 1], out[|out| - 1];
      TrimInlineShows(init);
      assert out == init + [c];
      CleanSeam(init, [c]);
      BlanksShowNothing([c]);
    }
  }

  lemma SolidEnd(a: seq<byte>, b: seq<byte>)
    requires Solid(b) && (b != [] || Solid(a))
    ensures Solid(a + b)
  {
  }

  lemma SpacesShowNothing(indent: nat)
    ensures Visible(Spaces(indent)) == [] && Solid(Spaces(indent)) && !WhiteSpace.Tail(Spaces(indent))
  {
    hide Visible;
    SpacesAreBlank(indent);
    forall c | c in Spaces(indent) ensures IsBlank(c) {
    }
    BlanksShowNothing(Spaces(indent));
  }

  lemma NewlineShows(out: seq<byte>, indent: nat)
    ensures Shows(Newline(out, indent), out, [])
  {
    hide Visible, TrimInline, Spaces, Solid, WhiteSpace.Tail;
    var t, nl := TrimInline(out), ['\n' as int];
    TrimInlineShows(out);
    SpacesShowNothing(indent);
    LineEndClean(nl[0], []);
    BlanksShowNothing(nl);
    assert nl + [] == nl;
    CleanSeam(t, nl);
    CleanSeam(t + nl, Spaces(indent));
    SolidEnd(t, nl);
    SolidEnd(t + nl, Spaces(indent));
    assert Visible(out) + [] + [] == Visible(out) + [];
  }

  lemma PushShows(out: seq<byte>, c: byte)
    requires c < 0x80
    ensures Shows(out + [c], out, Visible([c]))
  {
    hide Visible;
    CleanSeam(out, [c]);
  }

  lemma InlineShows(out: seq<byte>, c: byte)
    requires IsInline(c)
    ensures Shows(out + [c], out, [])
  {
    hide Visible;
    PushShows(out, c);
    BlanksShowNothing([c]);
  }

  lemma StartIsSolid(out: seq<byte>)
    requires AtLineStart(out)
    ensures Solid(out) && Solid(TrimInline(out))
  {
    if out != [] && IsInline(out[|out| - 1]) {
    }
  }

  lemma ClosedShows(out: seq<byte>, indent: nat)
    ensures Shows(Closed(out, indent), out, Visible(['}' as int]))
  {
    hide Visible, TrimInline, Spaces, AtLineStart, Newline, WhiteSpace.Tail;
    var brace := '}' as int;
    if AtLineStart(out) {
      TrimInlineShows(out);
      StartIsSolid(out);
      SpacesShowNothing(indent);
      CleanSeam(TrimInline(out), Spaces(indent));
      PushShows(TrimInline(out) + Spaces(indent), brace);
      assert Visible(out) + [] == Visible(out);
    } else {
      NewlineShows(out, indent);
      PushShows(Newline(out, indent), brace);
      assert Visible(out) + [] == Visible(out);
    }
  }

  lemma ShowsThen(c: seq<byte>, b: seq<byte>, a: seq<byte>, more: seq<byte>)
    requires Shows(c, b, []) && Shows(b, a, more)
    ensures Shows(c, a, more)
  {
    hide Visible;
    assert Visible(b) + [] == Visible(b);
  }

  lemma BraceShows(out: seq<byte>, rest: seq<byte>, css: bool, indent: nat)
    ensures Shows(AfterBrace(Closed(out, indent), rest, css, indent), out, Visible(['}' as int]))
  {
    hide Visible, Closed, Newline, Joins, Continues, PeekNonSpace, PeekWord, Shows;
    var b := Closed(out, indent);
    ClosedShows(out, indent);
    InlineShows(b, ' ' as int);
    NewlineShows(b, indent);
    ShowsThen(b + [' ' as int], b, out, Visible(['}' as int]));
    ShowsThen(Newline(b, indent), b, out, Visible(['}' as int]));
  }

  lemma SemicolonShows(out: seq<byte>, rest: seq<byte>, st: State)
    ensures var c := ';' as int; Shows(AfterSemicolon(out + [c], rest, st), out, Visible([c]))
  {
    hide Visible, Newline, PeekNonSpace, Shows;
    var c := ';' as int;
    var b := out + [c];
    PushShows(out, c);
    InlineShows(b, ' ' as int);
    NewlineShows(b, st.indent);
    ShowsThen(b + [' ' as int], b, out, Visible([c]));
    ShowsThen(Newline(b, st.indent), b, out, Visible([c]));
  }

  lemma OpenBraceShows(out: seq<byte>, indent: nat)
    ensures var c := '{' as int; Shows(Newline(out + [c], indent), out, Visible([c]))
  {
    hide Visible, Newline, Shows;
    var c := '{' as int;
    PushShows(out, c);
    NewlineShows(out + [c], indent);
    ShowsThen(Newline(out + [c], indent), out + [c], out, Visible([c]));
  }

  lemma BlankSymbolShows(c: byte, rest: seq<byte>, css: bool, st: State)
    requires IsInline(c)
    ensures Shows(Symbol(c, rest, css, st).out, st.out, [])
  {
    hide Visible, AtLineStart, Newline, AfterBrace, Closed, AfterSemicolon;
    if AtLineStart(st.out) {
      StartIsSolid(st.out);
      assert Visible(st.out) + [] == Visible(st.out);
    } else {
      InlineShows(st.out, ' ' as int);
    }
  }

  /** What a byte adds; a byte beyond ASCII is added as it is, and a line end leaves the buffer alone. */
  lemma SymbolShows(c: byte, rest: seq<byte>, css: bool, st: State)
    requires c < 0x80 && !EndsLine(c)
    ensures Shows(Symbol(c, rest, css, st).out, st.out, Visible([c]))
  {
    hide Visible, AtLineStart, Newline, AfterBrace, Closed, AfterSemicolon, Shows;
    if IsInline(c) {
      BlankSymbolShows(c, rest, css, st);
      BlanksShowNothing([c]);
    } else if c == '{' as int {
      OpenBraceShows(st.out, st.indent + 1);
    } else if c == '}' as int {
      BraceShows(st.out, rest, css, if st.indent > 0 then st.indent - 1 else 0);
    } else if c == ';' as int {
      SemicolonShows(st.out, rest, st);
    } else {
      PushShows(st.out, c);
    }
  }

  lemma SymbolRest(c: byte, rest: seq<byte>, css: bool, st: State)
    ensures var t := Symbol(c, rest, css, st);
            && t.last == NextLast(c, st.last)
            && (EndsLine(c) ==> t.out == st.out)
            && (c >= 0x80 ==> t.out == st.out + [c])
  {
    hide AtLineStart, Newline, AfterBrace, Closed, AfterSemicolon;
  }

  lemma SymbolAlike(c: byte, rest: seq<byte>, css: bool, st: State, joined: seq<byte>)
    requires ShowAlike(st.out, joined) && !EndsLine(c)
    ensures ShowAlike(Symbol(c, rest, css, st).out, joined + [c])
  {
    hide Visible, ShowAlike, Symbol, EndsLine;
    SymbolRest(c, rest, css, st);
    if c < 0x80 {
      SymbolShows(c, rest, css, st);
      AlikeShow(st.out, joined);
      PushShows(joined, c);
      SolidAlike(Symbol(c, rest, css, st).out, joined + [c]);
    } else {
      AlikeGrow(st.out, joined, [c]);
    }
  }

  /** From any state, a pass shows what the lines of the rest show, joined and put behind what was there. */
  lemma {:induction false} RunShows(s: seq<byte>, css: bool, st: State, joined: seq<byte>)
    requires ShowAlike(st.out, joined)
    ensures Visible(Run(s, css, st).out) == Visible(joined + Flat(Lines(s, st.last)))
    decreases |s|
  {
    hide Visible, ShowAlike, Symbol, Copied, EndsLine, Prepend, Flat;
    if s == [] {
      AlikeShow(st.out, joined);
      FlatLastLine();
      assert joined + [] == joined;
    } else {
      var copied := Copied(s, st.last);
      if copied.Some? {
        var (n, last) := copied.value;
        AlikeGrow(st.out, joined, s[..n]);
        RunShows(s[n..], css, st.(out := st.out + s[..n], last := last), joined + s[..n]);
        FlatPrepend(s[..n], Lines(s[n..], last));
        Associative(joined, s[..n], Flat(Lines(s[n..], last)));
      } else {
        var t := Symbol(s[0], s[1..], css, st);
        SymbolRest(s[0], s[1..], css, st);
        if EndsLine(s[0]) {
          LineEndKeepsLast(s[0], st.last);
          RunShows(s[1..], css, t, joined);
          FlatNewLine(Lines(s[1..], st.last));
        } else {
          SymbolAlike(s[0], s[1..], css, st, joined);
          RunShows(s[1..], css, t, joined + [s[0]]);
          FlatPrepend([s[0]], Lines(s[1..], t.last));
          Associative(joined, [s[0]], Flat(Lines(s[1..], t.last)));
        }
      }
    }
  }

  lemma FlatLastLine()
    ensures Flat([[]]) == []
  {
  }

  lemma FlatNewLine(lines: seq<seq<byte>>)
    ensures Flat([[]] + lines) == Flat(lines)
  {
    assert ([[]] + lines)[1..] == lines;
    assert [] + Flat(lines) == Flat(lines);
  }

  lemma LineEndKeepsLast(c: byte, last: byte)
    requires EndsLine(c)
    ensures NextLast(c, last) == last
  {
  }

  // ----- collapsing and trimming -----

  lemma {:induction false} CollapseShows(p: seq<byte>, b: seq<byte>, run: nat)
    requires run > 0 ==> Solid(p)
    ensures Visible(p + Collapse(b, run)) == Visible(p + b)
    decreases |b|
  {
    hide Visible, Solid;
    if b == [] {
    } else {
      var c, rest := b[0], b[1..];
      assert b == [c] + rest;
      var q := p + [c];
      Associative(p, [c], rest);
      if c != '\n' as int {
        CollapseShows(q, rest, 0);
        Associative(p, [c], Collapse(rest, 0));
      } else {
        LineEndClean(c, rest);
        SolidEnd(p, [c]);
        CollapseShows(q, rest, run + 1);
        Associative(p, [c], Collapse(rest, run + 1));
        if run >= 2 {
          LineEndShows(p, c, Collapse(rest, run + 1));
          CleanSeam(p, Collapse(rest, run + 1));
          assert [] + Collapse(rest, run + 1) == Collapse(rest, run + 1);
        }
      }
    }
  }

  lemma TrimNewlinesShows(b: seq<byte>)
    ensures Visible(TrimNewlines(b)) == Visible(b)
  {
    hide Visible, TrimNewlines;
    TrimNewlinesTrims(b);
    var r := TrimNewlines(b);
    var nls := b[|r|..];
    assert b == r + nls;
    assert forall c <- nls :: IsBlank(c);
    BlanksShowNothing(nls);
    CleanSeam(r, nls);
    assert Visible(r) + [] == Visible(r);
  }

  /** For every input, the result shows what the lines of the source show when they are joined. */
  lemma BeautifiedShows(src: seq<byte>, css: bool)
    ensures Visible(Beautified(src, css)) == Visible(Flat(Lines(src, 0)))
  {
    hide Visible, Run, Collapse, TrimNewlines, ShowAlike, Lines, Flat;
    NothingStraddles([]);
    SolidAlike([], []);
    RunShows(src, css, START, []);
    var out := Run(src, css, START).out;
    CollapseShows([], out, 0);
    assert [] + Collapse(out, 0) == Collapse(out, 0) && [] + out == out;
    assert [] + Flat(Lines(src, 0)) == Flat(Lines(src, 0));
    TrimNewlinesShows(Collapse(out, 0));
  }

  /**
   The visible bytes of the result are those of the source exactly if no white-space character has its
   bytes on both sides of line ends outside strings, comments and regular expressions.
   */
  lemma BeautifiedKeepsVisible(src: seq<byte>, css: bool)
    ensures Visible(Beautified(src, css)) == Visible(src) <==> NothingMeets(Lines(src, 0))
    ensures Keeps(Visible(Beautified(src, css)), Visible(src), NothingMeets(Lines(src, 0)))
  {
    hide Visible, Beautified, Lines, NothingMeets, AllVisible, Flat;
    BeautifiedShows(src, css);
    LinesShow([], src, 0);
    PrependNothing(Lines(src, 0));
    assert [] + src == src;
    JoinedLinesShow(Lines(src, 0));
  }

  // ----- valid text -----

  /** No line but the first starts with a tail, nor does what follows it. */
  predicate Tidy(lines: seq<seq<byte>>) {
    lines == [] || (!WhiteSpace.Tail(Flat(lines[1..])) && Tidy(lines[1..]))
  }

  lemma {:induction false} TidyMeetsNothing(lines: seq<seq<byte>>)
    requires Tidy(lines)
    ensures NothingMeets(lines)
  {
    hide Straddles, WhiteSpace.Tail;
    if lines != [] {
      CleanSeam(lines[0], Flat(lines[1..]));
      TidyMeetsNothing(lines[1..]);
    }
  }

  lemma TidyPrepend(p: seq<byte>, lines: seq<seq<byte>>)
    requires lines != [] && Tidy(lines)
    ensures Tidy(Prepend(p, lines))
  {
    var l := Prepend(p, lines);
    assert l[1..] == lines[1..];
  }

  lemma StrayTailBehind(s: seq<byte>, n: nat)
    requires NoStrayTail(s) && n <= |s|
    ensures NoStrayTail(s[n..])
    ensures 0 < n < |s| && WhiteSpace.Tail(s[n..]) ==> s[n - 1] >= 0x80
  {
    assert forall k | 0 <= k < |s| - n :: s[n..][k] == s[n + k];
  }

  lemma {:induction false} LinesTidy(s: seq<byte>, last: byte)
    requires NoStrayTail(s)
    ensures Tidy(Lines(s, last))
    ensures !WhiteSpace.Tail(s) ==> !WhiteSpace.Tail(Flat(Lines(s, last)))
    decreases |s|
  {
    hide Copied, EndsLine, Prepend, Flat, Tidy, NoStrayTail, WhiteSpace.Tail;
    if s == [] {
      LastLineTidy();
    } else {
      var copied := Copied(s, last);
      if copied.Some? {
        LinesTidyBehind(s, copied.value.0, copied.value.1);
      } else if EndsLine(s[0]) {
        StrayTailBehind(s, 1);
        LinesTidy(s[1..], last);
        LineEndNoTail(s);
        NewLineTidy(Lines(s[1..], last));
      } else {
        assert s[..1] == [s[0]];
        LinesTidyBehind(s, 1, NextLast(s[0], last));
      }
    }
  }

  lemma LinesTidyBehind(s: seq<byte>, n: nat, last: byte)
    requires NoStrayTail(s) && 1 <= n <= |s|
    ensures var lines := Prepend(s[..n], Lines(s[n..], last));
            Tidy(lines) && (!WhiteSpace.Tail(s) ==> !WhiteSpace.Tail(Flat(lines)))
    decreases |s|, 0
  {
    hide Copied, Prepend, Flat, Tidy, NoStrayTail, Lines;
    StrayTailBehind(s, n);
    LinesTidy(s[n..], last);
    TidyPrepend(s[..n], Lines(s[n..], last));
    FlatPrepend(s[..n], Lines(s[n..], last));
    assert (s[..n] + Flat(Lines(s[n..], last)))[0] == s[0];
  }

  lemma LineEndNoTail(s: seq<byte>)
    requires s != [] && EndsLine(s[0]) && NoStrayTail(s)
    ensures !WhiteSpace.Tail(s[1..])
  {
    StrayTailBehind(s, 1);
  }

  lemma LastLineTidy()
    ensures Tidy([[]]) && !WhiteSpace.Tail(Flat([[]]))
  {
    var lines: seq<seq<byte>> := [[]];
    assert lines[1..] == [];
  }

  lemma NewLineTidy(lines: seq<seq<byte>>)
    requires Tidy(lines) && !WhiteSpace.Tail(Flat(lines))
    ensures Tidy([[]] + lines) && !WhiteSpace.Tail(Flat([[]] + lines))
  {
    hide WhiteSpace.Tail;
    FlatNewLine(lines);
    assert ([[]] + lines)[1..] == lines;
  }

  /** Valid UTF-8 keeps every visible byte. */
  lemma ValidKeepsVisible(src: seq<byte>, css: bool)
    requires Utf8.Valid(src)
    ensures Visible(Beautified(src, css)) == Visible(src)
  {
    hide Visible, Beautified, Lines, NothingMeets, Tidy, NoStrayTail, Utf8.Valid;
    ValidHasNoStrayTail(src);
    LinesTidy(src, 0);
    TidyMeetsNothing(Lines(src, 0));
    BeautifiedKeepsVisible(src, css);
  }

  // ----- and an input that does not -----

  /** Half a character, a line end, the other half: together a no-break space. */
  const HALVES: seq<byte> := [0xC2, '\n' as int, 0xA0]

  lemma HalvesMeet(css: bool)
    ensures !NothingMeets(Lines(HALVES, 0)) && Visible(Beautified(HALVES, css)) != Visible(HALVES)
  {
    hide Visible, Beautified, Straddles, Lines;
    HalvesLines();
    var lines: seq<seq<byte>> := [[0xC2], [0xA0]];
    HalvesStraddle();
    assert lines[1..] == [[0xA0]] && lines[1..][1..] == [];
    assert Lines(HALVES, 0) == lines;
    assert Flat(lines[1..]) == [0xA0] + Flat(lines[1..][1..]) == [0xA0];
    assert Straddles(lines[0], Flat(lines[1..]));
    BeautifiedKeepsVisible(HALVES, css);
  }

  lemma HalvesStraddle()
    ensures Straddles([0xC2], [0xA0])
  {
    assert [0xC2][0..] + [0xA0] == [0xC2, 0xA0];
    assert SpaceLen([0xC2][0..] + [0xA0]) == 2;
  }

  lemma HalvesLines()
    ensures Lines(HALVES, 0) == [[0xC2], [0xA0]]
  {
    var lo: seq<byte> := [0xA0];
    assert lo[1..] == [] && HALVES[1..] == ['\n' as int, 0xA0] && HALVES[1..][1..] == lo;
    var none: seq<seq<byte>> := [[]];
    assert Lines(lo[1..], 0xA0) == none;
    assert none[1..] == [] && lo + none[0] == lo;
    assert Lines(lo, 0xC2) == [lo];
    var two := none + [lo];
    assert Lines(HALVES[1..], 0xC2) == two;
    assert two[0] == [] && two[1..] == [lo] && [0xC2] + two[0] == [0xC2];
    assert Lines(HALVES, 0) == Prepend([0xC2], two);
  }
}
