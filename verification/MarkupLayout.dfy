/**
 The layout of markup, said token by token: which tokens share a line, and how far a line is indented,
 depends on the tags open there and on the neighbours alone. And what kind of token a text is.
 */
module MarkupLayout {
  import opened Bytes
  import opened Beautify
  import opened WhiteSpace
  import opened BeautifyMarkup

  // ----- lines -----

  /** A line of output, indented by two blanks a level. */
  datatype Row = Row(level: nat, text: seq<byte>)

  predicate Closes(toks: seq<Tok>, i: nat, k: nat) {
    i < |toks| && k < |toks| && toks[k].kind == Close && toks[k].name == toks[i].name
  }

  /** How many tokens share the line of token i: an element with nothing or only text in it stands on one line. */
  function Size(toks: seq<Tok>, i: nat): (n: nat)
    ensures n > 0 && (n > 1 ==> i + n <= |toks|)
  {
    if i >= |toks| || toks[i].kind != Open then 1
    else if i + 2 < |toks| && toks[i + 1].kind == Text && Closes(toks, i, i + 2) then 3
    else if Closes(toks, i, i + 1) then 2
    else 1
  }

  /** The token stands on the line of one before it. */
  predicate Inner(toks: seq<Tok>, i: nat) {
    (i >= 1 && Size(toks, i - 1) > 1) || (i >= 2 && Size(toks, i - 2) > 2)
  }

  function Less(n: nat): nat { if n > 0 then n - 1 else 0 }

  /** The tags open in front of token i: elements on one line open and close nothing. */
  function Level(toks: seq<Tok>, i: nat): nat {
    if i == 0 || i > |toks| then 0
    else
      var t, level := toks[i - 1], Level(toks, i - 1);
      if t.kind == Open && Size(toks, i - 1) == 1 then level + 1
      else if t.kind == Close && !Inner(toks, i - 1) then Less(level)
      else level
  }

  function RowsAt(lines: seq<seq<byte>>, level: nat): seq<Row> {
    seq(|lines|, k requires 0 <= k < |lines| => Row(level, lines[k]))
  }

  /** The lines of token i: none if it stands on another's, one for each line of a raw body, else one. */
  function RowsOf(toks: seq<Tok>, i: nat): seq<Row>
    requires i < |toks|
  {
    var t, level := toks[i], Level(toks, i);
    if Inner(toks, i) then []
    else if t.kind == Close then [Row(Less(level), t.raw)]
    else if t.kind == Raw then RowsAt(Split(t.raw), level)
    else if Size(toks, i) == 3 then [Row(level, t.raw + toks[i + 1].raw + toks[i + 2].raw)]
    else if Size(toks, i) == 2 then [Row(level, t.raw + toks[i + 1].raw)]
    else [Row(level, t.raw)]
  }

  function RowsFrom(toks: seq<Tok>, i: nat): seq<Row>
    requires i <= |toks|
    decreases |toks| - i
  {
    if i == |toks| then [] else RowsOf(toks, i) + RowsFrom(toks, i + 1)
  }

  /** Every line behind the text so far, each on a line of its own. */
  function Written(out: seq<byte>, rows: seq<Row>): seq<byte>
    decreases |rows|
  {
    if rows == [] then out else Written(Line(out, rows[0].level, rows[0].text), rows[1..])
  }

  lemma {:induction false} WrittenAppend(out: seq<byte>, a: seq<Row>, b: seq<Row>)
    ensures Written(out, a + b) == Written(Written(out, a), b)
    decreases |a|
  {
    hide Line;
    if a == [] {
      assert a + b == b;
    } else {
      assert (a + b)[0] == a[0] && (a + b)[1..] == a[1..] + b;
      WrittenAppend(Line(out, a[0].level, a[0].text), a[1..], b);
    }
  }

  lemma WrittenOne(out: seq<byte>, row: Row)
    ensures Written(out, [row]) == Line(out, row.level, row.text)
  {
    assert [row][1..] == [];
    assert Written(Line(out, row.level, row.text), []) == Line(out, row.level, row.text);
  }

  lemma {:induction false} LinesAreRows(out: seq<byte>, level: nat, lines: seq<seq<byte>>)
    ensures LinesOf(out, level, lines) == Written(out, RowsAt(lines, level))
    decreases |lines|
  {
    hide Line;
    if lines != [] {
      assert RowsAt(lines, level)[1..] == RowsAt(lines[1..], level);
      LinesAreRows(Line(out, level, lines[0]), level, lines[1..]);
    }
  }

  // ----- one step of the layout -----

  lemma GroupSize(toks: seq<Tok>, i: nat, out: seq<byte>)
    requires i < |toks|
    ensures Group(toks[i..], Level(toks, i), out).0 == Size(toks, i)
  {
    hide Line, LinesOf, Split, Level;
    var s := toks[i..];
    assert s[0] == toks[i] && (i + 1 < |toks| ==> s[1] == toks[i + 1]) && (i + 2 < |toks| ==> s[2] == toks[i + 2]);
  }

  lemma GroupWrites(toks: seq<Tok>, i: nat, out: seq<byte>)
    requires i < |toks| && !Inner(toks, i)
    ensures Group(toks[i..], Level(toks, i), out).2 == Written(out, RowsOf(toks, i))
  {
    hide Line, LinesOf, Split, Level, Inner, Written, RowsAt;
    var s, t, level := toks[i..], toks[i], Level(toks, i);
    assert s[0] == toks[i] && (i + 1 < |toks| ==> s[1] == toks[i + 1]) && (i + 2 < |toks| ==> s[2] == toks[i + 2]);
    LinesAreRows(out, level, Split(t.raw));
    WrittenOne(out, Row(Less(level), t.raw));
    WrittenOne(out, Row(level, t.raw));
    if i + 1 < |toks| {
      WrittenOne(out, Row(level, t.raw + toks[i + 1].raw));
    }
    if i + 2 < |toks| {
      WrittenOne(out, Row(level, t.raw + toks[i + 1].raw + toks[i + 2].raw));
    }
  }

  /** Behind a line: the next token starts one, and as many tags are open as counted. */
  lemma GroupLeaves(toks: seq<Tok>, i: nat, out: seq<byte>)
    requires i < |toks| && !Inner(toks, i)
    ensures var n := Size(toks, i);
            && i + n <= |toks| && !Inner(toks, i + n)
            && Group(toks[i..], Level(toks, i), out).1 == Level(toks, i + n)
            && forall k | i < k < i + n :: Inner(toks, k)
  {
    hide Line, LinesOf, Split;
    var s, n := toks[i..], Size(toks, i);
    assert s[0] == toks[i] && (i + 1 < |toks| ==> s[1] == toks[i + 1]) && (i + 2 < |toks| ==> s[2] == toks[i + 2]);
    InnerSteps(toks, i);
    hide Inner;
    if n > 1 {
      assert Level(toks, i + 1) == Level(toks, i);
      assert Level(toks, i + 2) == Level(toks, i);
    }
  }

  lemma InnerSteps(toks: seq<Tok>, i: nat)
    requires i < |toks| && !Inner(toks, i)
    ensures var n := Size(toks, i); !Inner(toks, i + n) && forall k | i < k < i + n :: Inner(toks, k)
  {
  }

  lemma {:induction false} InnerRows(toks: seq<Tok>, i: nat, j: nat)
    requires i <= j <= |toks| && forall k | i <= k < j :: Inner(toks, k)
    ensures RowsFrom(toks, i) == RowsFrom(toks, j)
    decreases j - i
  {
    hide Inner, RowsOf;
    if i < j {
      InnerRows(toks, i + 1, j);
      InnerHasNone(toks, i);
      assert [] + RowsFrom(toks, j) == RowsFrom(toks, j);
    }
  }

  lemma InnerHasNone(toks: seq<Tok>, i: nat)
    requires i < |toks| && Inner(toks, i)
    ensures RowsOf(toks, i) == []
  {
    hide Inner, Level, Size, Split;
  }

  lemma {:induction false} LaysFrom(toks: seq<Tok>, i: nat, out: seq<byte>)
    requires i <= |toks| && !Inner(toks, i)
    ensures Lay(toks[i..], Level(toks, i), out) == Written(out, RowsFrom(toks, i))
    decreases |toks| - i
  {
    hide Group, Level, Inner, RowsOf, Size, Written;
    if i == |toks| {
      NothingWritten(out);
    } else {
      var n := Size(toks, i);
      GroupSize(toks, i, out);
      GroupWrites(toks, i, out);
      GroupLeaves(toks, i, out);
      var more := Written(out, RowsOf(toks, i));
      assert toks[i..][n..] == toks[i + n..];
      LaysFrom(toks, i + n, more);
      InnerRows(toks, i + 1, i + n);
      WrittenAppend(out, RowsOf(toks, i), RowsFrom(toks, i + n));
    }
  }

  lemma NothingWritten(out: seq<byte>)
    ensures Written(out, []) == out
  {
  }

  // ----- the whole text -----

  /** The lines with a newline between them. */
  function Joined(rows: seq<Row>): seq<byte> {
    if rows == [] then []
    else
      var n, row := |rows| - 1, rows[|rows| - 1];
      (if n == 0 then [] else Joined(rows[..n]) + ['\n' as int]) + Spaces(row.level) + row.text
  }

  lemma {:induction false} WrittenIsJoined(rows: seq<Row>)
    requires rows != [] ==> rows[0].text != []
    ensures Written([], rows) == Joined(rows) && (rows != [] ==> Joined(rows) != [])
    decreases |rows|
  {
    if rows != [] {
      var n, row := |rows| - 1, rows[|rows| - 1];
      WrittenIsJoined(rows[..n]);
      assert rows == rows[..n] + [row];
      WrittenAppend([], rows[..n], [row]);
      WrittenOne(Written([], rows[..n]), row);
      hide Written;
      assert [] + Spaces(row.level) + row.text == Spaces(row.level) + row.text;
    }
  }

  // ----- what the tokens are -----

  /** The kind of a token is told by its own text, and void and self-closing tags are told apart by their names. */
  predicate Kinded(t: Tok) {
    && t.raw != []
    && match t.kind
       case Text => t.raw[0] != '<' as int
       case Comment => StartsWith(t.raw, "<!--")
       case Decl => At(t.raw, 0, '<') && (At(t.raw, 1, '!') || At(t.raw, 1, '?'))
       case Close => StartsWith(t.raw, "</")
       case Self => At(t.raw, 0, '<') && !StartsWith(t.raw, "</") && (EndsSelf(t.raw) || IsVoid(t.name))
       case Open => At(t.raw, 0, '<') && !StartsWith(t.raw, "</") && !EndsSelf(t.raw) && !IsVoid(t.name)
       case Raw => true
  }

  lemma {:induction false} TrimLeftKeeps(s: seq<byte>)
    requires At(s, 0, '<')
    ensures TrimLeft(s) == s
  {
    assert SpaceLen(s) == 0;
  }

  lemma {:induction false} TrimRightFirst(s: seq<byte>)
    requires At(s, 0, '<')
    ensures At(TrimRight(s), 0, '<') && TrimRight(s) <= s
    decreases |s|
  {
    hide SpaceLen, LastSpaceLen;
    var n := LastSpaceLen(s);
    if n > 0 {
      BracketNoSpace(s, n);
      TrimRightFirst(s[..|s| - n]);
    }
  }

  lemma BracketNoSpace(s: seq<byte>, n: nat)
    requires At(s, 0, '<') && n == LastSpaceLen(s)
    ensures n < |s|
  {
    hide LastSpaceLen;
    assert SpaceLen(s) == 0;
    var t := s[|s| - n..];
    assert |t| == |s| ==> t == s;
  }

  lemma TagTrims(s: seq<byte>)
    requires At(s, 0, '<')
    ensures At(TrimSpace(s), 0, '<') && TrimSpace(s) <= s
  {
    hide TrimLeft, TrimRight;
    TrimLeftKeeps(s);
    TrimRightFirst(s);
  }

  lemma {:induction false} TrimLeftIn(s: seq<byte>, p: byte -> bool)
    requires forall c <- s :: p(c)
    ensures forall c <- TrimLeft(s) :: p(c)
    decreases |s|
  {
    hide SpaceLen;
    var n := SpaceLen(s);
    if n > 0 {
      assert forall c <- s[n..] :: c in s;
      TrimLeftIn(s[n..], p);
    }
  }

  lemma {:induction false} TrimRightIn(s: seq<byte>, p: byte -> bool)
    requires forall c <- s :: p(c)
    ensures forall c <- TrimRight(s) :: p(c)
    decreases |s|
  {
    hide LastSpaceLen;
    var n := LastSpaceLen(s);
    if n > 0 {
      assert forall c <- s[..|s| - n] :: c in s;
      TrimRightIn(s[..|s| - n], p);
    }
  }

  lemma TextTrims(s: seq<byte>)
    requires forall c <- s :: InText(c)
    ensures var t := TrimSpace(s); t != [] ==> InText(t[0])
  {
    hide TrimLeft, TrimRight, InText;
    TrimLeftIn(s, InText);
    TrimRightIn(TrimLeft(s), InText);
  }

  lemma TagTokKinded(raw: seq<byte>, name: seq<byte>)
    requires At(raw, 0, '<')
    ensures Kinded(TagTok(raw, name))
  {
    hide IsVoid, EndsSelf, StartsWith;
  }

  ghost predicate AllKinded(toks: seq<Tok>) { forall t <- toks :: Kinded(t) }

  lemma BodyKinded(body: seq<byte>, name: seq<byte>)
    ensures AllKinded(BodyToks(body, name))
  {
    hide RawBody;
  }

  lemma OneKinded(t: Tok, more: seq<Tok>)
    requires Kinded(t) && AllKinded(more)
    ensures AllKinded([t] + more)
  {
    hide Kinded;
  }

  lemma TagKinded(s: seq<byte>, lower: seq<byte> -> seq<byte>)
    requires At(s, 0, '<')
    ensures AllKinded(Tag(s, lower).1)
  {
    hide TrimSpace, TagLen, BareName, BodyLen, BodyToks, IsRaw, TagTok, Kinded, AllKinded;
    var n := 1 + TagLen(s[1..]);
    TagTrims(s[..n]);
    var raw := TrimSpace(s[..n]);
    var t := TagTok(raw, lower(BareName(raw)));
    TagTokKinded(raw, lower(BareName(raw)));
    BodyKinded(s[n..n + BodyLen(s[n..], t.name)], t.name);
    OneKinded(t, BodyToks(s[n..n + BodyLen(s[n..], t.name)], t.name));
    NoneKinded();
    OneKinded(t, []);
    assert [t] + [] == [t];
  }

  lemma NoneKinded()
    ensures AllKinded([])
  {
  }

  lemma DeclKinded(s: seq<byte>, n: nat)
    requires At(s, 0, '<') && (At(s, 1, '!') || At(s, 1, '?')) && 2 <= n <= |s|
    ensures Kinded(Tok(Decl, TrimSpace(s[..n]), []))
  {
    hide TrimLeft, TrimRight;
    var d := s[..n];
    TrimLeftKeeps(d);
    SignStays(d);
  }

  lemma {:induction false} SignStays(d: seq<byte>)
    requires At(d, 0, '<') && (At(d, 1, '!') || At(d, 1, '?'))
    ensures var t := TrimRight(d); t <= d && |t| >= 2
    decreases |d|
  {
    hide SpaceLen, LastSpaceLen;
    var n := LastSpaceLen(d);
    if n > 0 {
      SignNoSpace(d, n);
      SignStays(d[..|d| - n]);
    }
  }

  lemma SignNoSpace(d: seq<byte>, n: nat)
    requires At(d, 0, '<') && (At(d, 1, '!') || At(d, 1, '?')) && n == LastSpaceLen(d)
    ensures n + 2 <= |d|
  {
    hide LastSpaceLen;
    assert SpaceLen(d) == 0 && SpaceLen(d[1..]) == 0;
    var t, u := d[|d| - n..], d[1..];
    assert (|t| == |d| ==> t == d) && (|t| == |u| ==> t == u);
  }

  lemma StepKinded(s: seq<byte>, lower: seq<byte> -> seq<byte>)
    requires s != []
    ensures AllKinded(Step(s, lower).1)
  {
    hide TrimSpace, TagLen, Tag, EndOf, AllKinded, Kinded, StartsWith;
    NoneKinded();
    if s[0] != '<' as int {
      var n := SpanLen(s, InText);
      assert forall c <- s[..n] :: InText(c);
      TextTrims(s[..n]);
      var text := TrimSpace(s[..n]);
      if text != [] {
        TextKinded(text);
        OneKinded(Tok(Text, text, []), []);
      }
    } else if StartsWith(s, "<!--") {
      var n := EndOf(s, 4, COMMENT_END);
      CommentKinded(s, n);
      OneKinded(Tok(Comment, s[..n], []), []);
    } else if StartsWith(s, "<![CDATA[") {
      var n := EndOf(s, 9, CDATA_END);
      CdataKinded(s, n);
      OneKinded(Tok(Decl, s[..n], []), []);
    } else if At(s, 1, '!') || At(s, 1, '?') {
      var n := 1 + TagLen(s[1..]);
      SignTaken(s);
      DeclKinded(s, n);
      OneKinded(Tok(Decl, TrimSpace(s[..n]), []), []);
    } else {
      TagKinded(s, lower);
    }
    assert forall t: Tok :: [t] + [] == [t];
  }

  lemma SignTaken(s: seq<byte>)
    requires At(s, 1, '!') || At(s, 1, '?')
    ensures TagLen(s[1..]) >= 1
  {
  }

  lemma TextKinded(text: seq<byte>)
    requires text != [] && InText(text[0])
    ensures Kinded(Tok(Text, text, []))
  {
  }

  lemma CommentKinded(s: seq<byte>, n: nat)
    requires StartsWith(s, "<!--") && 4 <= n <= |s|
    ensures Kinded(Tok(Comment, s[..n], []))
  {
    assert s[..n][..4] == s[..4];
  }

  lemma CdataKinded(s: seq<byte>, n: nat)
    requires StartsWith(s, "<![CDATA[") && 9 <= n <= |s|
    ensures Kinded(Tok(Decl, s[..n], []))
  {
    var c := Chars(s[..9]);
    assert c[0] == s[0] as char && c[1] == s[1] as char;
  }

  lemma {:induction false} ToksKinded(s: seq<byte>, lower: seq<byte> -> seq<byte>)
    ensures AllKinded(Toks(s, lower))
    decreases |s|
  {
    hide Step, Kinded;
    if s != [] {
      StepKinded(s, lower);
      ToksKinded(s[Step(s, lower).0..], lower);
    }
  }

  /**
   The layout of any markup: the lines of its tokens in order, each indented by two blanks for each tag open there,
   with newlines taken off the end.
   */
  lemma MarkupIsLaid(src: seq<byte>, lower: seq<byte> -> seq<byte>)
    ensures var toks := Toks(src, lower);
            BeautifiedMarkup(src, lower) == if toks == [] then src else TrimNewlines(Joined(RowsFrom(toks, 0)))
  {
    hide Toks, Lay, Joined, Written, RowsFrom, TrimNewlines, Kinded, Group;
    var toks := Toks(src, lower);
    if toks != [] {
      ToksKinded(src, lower);
      assert toks[0] in toks && toks[0..] == toks;
      LaysFrom(toks, 0, []);
      FirstIsNoBody(src, lower);
      FirstRow(toks);
      WrittenIsJoined(RowsFrom(toks, 0));
    }
  }

  lemma StepStarts(s: seq<byte>, lower: seq<byte> -> seq<byte>)
    requires s != []
    ensures var toks := Step(s, lower).1; toks != [] ==> toks[0].kind != Raw
  {
    hide TrimSpace, TagLen, EndOf, StartsWith, BareName, BodyLen, BodyToks, IsVoid, IsRaw, EndsSelf;
  }

  lemma {:induction false} FirstIsNoBody(s: seq<byte>, lower: seq<byte> -> seq<byte>)
    ensures var toks := Toks(s, lower); toks != [] ==> toks[0].kind != Raw
    decreases |s|
  {
    hide Step;
    if s != [] {
      StepStarts(s, lower);
      var (n, toks) := Step(s, lower);
      FirstIsNoBody(s[n..], lower);
      assert toks == [] ==> [] + Toks(s[n..], lower) == Toks(s[n..], lower);
    }
  }

  lemma FirstRow(toks: seq<Tok>)
    requires toks != [] && Kinded(toks[0]) && toks[0].kind != Raw
    ensures var rows := RowsFrom(toks, 0); rows != [] ==> rows[0].text != []
  {
    hide Line, Split, StartsWith, EndsSelf, IsVoid, Level;
    assert RowsFrom(toks, 0) == RowsOf(toks, 0) + RowsFrom(toks, 1);
    hide RowsFrom;
  }

  // ----- where the tokens end -----

  /** The first place of a separator, none if it is nowhere. */
  lemma {:induction false} IndexIsFirst(s: seq<byte>, sep: seq<byte>)
    ensures match IndexOf(s, sep)
            case Some(k) => s[k..k + |sep|] == sep && forall j | 0 <= j < k :: !(sep <= s[j..])
            case None => forall j | 0 <= j <= |s| :: !(sep <= s[j..])
    decreases |s|
  {
    assert s[0..] == s;
    if !(sep <= s) && s != [] {
      IndexIsFirst(s[1..], sep);
      forall j | 0 < j <= |s| ensures s[j..] == s[1..][j - 1..] {
      }
    }
  }

  function Other(quote: byte): byte -> bool { c => c != quote }

  /** A tag's inside: quoted values, in which a bracket does not close, and bytes that are neither quote nor closing bracket. */
  predicate Inside(body: seq<byte>)
    decreases |body|
  {
    if body == [] then true
    else if body[0] == '"' as int || body[0] == '\'' as int then
      var n := SpanLen(body[1..], Other(body[0]));
      n + 1 < |body| && Inside(body[n + 2..])
    else body[0] != '>' as int && Inside(body[1..])
  }

  lemma {:induction false} QuoteEndsFirst(s: seq<byte>, quote: byte, more: seq<byte>)
    requires SpanLen(s, Other(quote)) < |s|
    ensures QuoteEnd(s + more, quote) == SpanLen(s, Other(quote)) + 1
    decreases |s|
  {
    var t := s + more;
    assert t[0] == s[0] && t[1..] == s[1..] + more;
    if s[0] != quote {
      QuoteEndsFirst(s[1..], quote, more);
    }
  }

  lemma ValueTaken(body: seq<byte>, rest: seq<byte>, n: nat)
    requires body != [] && (body[0] == '"' as int || body[0] == '\'' as int)
    requires n == 2 + SpanLen(body[1..], Other(body[0])) && n <= |body|
    ensures TagLen(body + ['>' as int] + rest) == n + TagLen(body[n..] + ['>' as int] + rest)
  {
    var s := body + ['>' as int] + rest;
    QuoteEndsFirst(body[1..], body[0], ['>' as int] + rest);
    hide QuoteEnd, SpanLen;
    assert s[0] == body[0] && s[1..] == body[1..] + (['>' as int] + rest);
    assert s[n..] == body[n..] + ['>' as int] + rest;
  }

  /** A tag is taken up to the first closing bracket outside its quoted values. */
  lemma {:induction false} TagTaken(body: seq<byte>, rest: seq<byte>)
    requires Inside(body)
    ensures TagLen(body + ['>' as int] + rest) == |body| + 1
    decreases |body|
  {
    var s := body + ['>' as int] + rest;
    if body == [] {
      assert s[0] == '>' as int;
    } else if body[0] == '"' as int || body[0] == '\'' as int {
      var n := 2 + SpanLen(body[1..], Other(body[0]));
      TagTaken(body[n..], rest);
      ValueTaken(body, rest, n);
    } else {
      assert s[0] == body[0] && s[1..] == body[1..] + ['>' as int] + rest;
      TagTaken(body[1..], rest);
    }
  }

  lemma {:induction false} NameRuns(name: seq<byte>, rest: seq<byte>)
    requires (forall c <- name :: InName(c)) && (rest == [] || EndsName(rest[0]))
    ensures SpanLen(name + rest, InName) == |name|
    decreases |name|
  {
    var s := name + rest;
    if name == [] {
      assert s == rest;
    } else {
      assert name[0] in name && s[0] == name[0] && s[1..] == name[1..] + rest;
      assert forall c <- name[1..] :: c in name;
      NameRuns(name[1..], rest);
    }
  }

  /** The name of a tag, opening or closing: what stands behind its bracket up to a blank, slash or bracket. */
  lemma NameFound(name: seq<byte>, rest: seq<byte>)
    requires name != [] && name[0] != '<' as int && (forall c <- name :: InName(c)) && (rest == [] || EndsName(rest[0]))
    ensures BareName(['<' as int] + name + rest) == name && BareName(['<' as int, '/' as int] + name + rest) == name
  {
    hide BareName;
    var s := name + rest;
    assert name[0] in name && s[0] == name[0];
    var open, close := ['<' as int] + name + rest, ['<' as int, '/' as int] + name + rest;
    assert open[0] == '<' as int && open[1..] == s;
    assert close[0] == '<' as int && close[1..] == ['/' as int] + s;
    assert (['/' as int] + s)[1..] == s;
    NameBehind(open, name, rest);
    NameBehind(close, name, rest);
  }

  lemma NameBehind(raw: seq<byte>, name: seq<byte>, rest: seq<byte>)
    requires name != [] && (forall c <- name :: InName(c)) && (rest == [] || EndsName(rest[0]))
    requires TrimPrefix(TrimPrefix(raw, '<'), '/') == name + rest
    ensures BareName(raw) == name
  {
    hide TrimPrefix;
    var s := name + rest;
    assert name[0] in name && s[0] == name[0];
    NameRuns(name, rest);
    assert s[..|name|] == name && s[0..] == s && SpanLen(s, BeforeName) == 0;
    hide SpanLen;
  }
}
