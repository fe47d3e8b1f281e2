/** The beautifier for HTML and XML: tags and text on lines of their own, indented by nesting. */
module BeautifyMarkup {
  import opened Bytes
  import opened Beautify
  import opened WhiteSpace

  // ----- scanning, each length measured on the rest of the input -----

  datatype Kind = Text | Open | Close | Self | Comment | Decl | Raw

  datatype Tok = Tok(kind: Kind, raw: seq<byte>, name: seq<byte>)

  predicate StartsWith(s: seq<byte>, p: string): (b: bool)
    ensures b ==> |p| <= |s|
  {
    |p| <= |s| && Chars(s[..|p|]) == p
  }

  function IndexOf(s: seq<byte>, sep: seq<byte>): (k: Option<nat>)
    ensures k.Some? ==> k.value + |sep| <= |s|
  {
    if sep <= s then Some(0)
    else if s == [] then None
    else
      var k := IndexOf(s[1..], sep);
      if k.None? then None else Some(k.value + 1)
  }

  /** To behind the first `sep` from position `from` on, or to the end. */
  function EndOf(s: seq<byte>, from: nat, sep: seq<byte>): (n: nat)
    requires from <= |s|
    ensures from <= n <= |s|
  {
    var k := IndexOf(s[from..], sep);
    if k.None? then |s| else from + k.value + |sep|
  }

  function QuoteEnd(s: seq<byte>, quote: byte): (n: nat)
    ensures n <= |s|
  {
    if s == [] then 0 else if s[0] == quote then 1 else 1 + QuoteEnd(s[1..], quote)
  }

  /** From behind the opening bracket to behind the closing one; brackets inside quotes do not close. */
  function TagLen(s: seq<byte>): (n: nat)
    ensures n <= |s|
  {
    if s == [] then 0
    else if s[0] == '"' as int || s[0] == '\'' as int then
      var n := 1 + QuoteEnd(s[1..], s[0]);
      n + TagLen(s[n..])
    else if s[0] == '>' as int then 1
    else 1 + TagLen(s[1..])
  }

  predicate EndsName(c: byte) { IsBlank(c) || c == '>' as int || c == '/' as int }

  predicate InText(c: byte) { c != '<' as int }

  predicate InName(c: byte) { !EndsName(c) }

  predicate BeforeName(c: byte) { IsInline(c) || c == '\n' as int }

  function TrimPrefix(s: seq<byte>, c: char): seq<byte> { if At(s, 0, c) then s[1..] else s }

  function BareName(raw: seq<byte>): seq<byte> {
    var s := TrimPrefix(TrimPrefix(raw, '<'), '/');
    var t := s[SpanLen(s, BeforeName)..];
    t[..SpanLen(t, InName)]
  }

  function AsciiLower(s: seq<byte>): (t: seq<byte>)
    ensures |t| == |s|
  {
    if s == [] then [] else [if 'A' as int <= s[0] <= 'Z' as int then s[0] + 32 else s[0]] + AsciiLower(s[1..])
  }

  predicate IsVoid(name: seq<byte>) {
    Chars(name) in {"area", "base", "br", "col", "embed", "hr", "img", "input", "link", "meta", "param", "source",
                    "track", "wbr"}
  }

  predicate IsRaw(name: seq<byte>) { Chars(name) in {"script", "style", "pre", "textarea"} }

  const COMMENT_END: seq<byte> := ['-' as int, '-' as int, '>' as int]
  const CDATA_END: seq<byte> := [']' as int, ']' as int, '>' as int]

  /** Up to the closing tag of this name, or to the end. */
  function BodyLen(s: seq<byte>, name: seq<byte>): (n: nat)
    ensures n <= |s|
  {
    var k := IndexOf(AsciiLower(s), AsciiLower(['<' as int, '/' as int] + name));
    if k.None? then |s| else k.value
  }

  function RawBody(name: seq<byte>, body: seq<byte>): seq<byte> {
    var trimmed := TrimSpace(body);
    if trimmed == [] then []
    else if Chars(name) == "script" || Chars(name) == "style" then
      var out := Beautified(trimmed, Chars(name) == "style");
      if out != TrimNewlines(trimmed) then TrimNewlines(out) else trimmed
    else trimmed
  }

  function TagTok(raw: seq<byte>, name: seq<byte>): Tok {
    if StartsWith(raw, "</") then Tok(Close, raw, name)
    else if EndsSelf(raw) || IsVoid(name) then Tok(Self, raw, name)
    else Tok(Open, raw, name)
  }

  /** The body of a raw element, which ends at its closing tag and is no token if it is empty. */
  function BodyToks(body: seq<byte>, name: seq<byte>): seq<Tok> {
    var r := RawBody(name, body);
    if r != [] then [Tok(Raw, r, [])] else []
  }

  /** The tag of n bytes and, if it opens a raw element, the body behind it. */
  function TagToks(s: seq<byte>, n: nat, t: Tok, hasBody: bool): (r: (nat, seq<Tok>))
    requires n <= |s|
    ensures n <= r.0 <= |s|
  {
    hide RawBody, AsciiLower, IndexOf;
    if !hasBody then (n, [t])
    else
      var k := BodyLen(s[n..], t.name);
      (n + k, [t] + BodyToks(s[n..n + k], t.name))
  }

  /** A tag that is no declaration; letter case is folded by `lower`. */
  function Tag(s: seq<byte>, lower: seq<byte> -> seq<byte>): (r: (nat, seq<Tok>))
    requires s != []
    ensures 1 <= r.0 <= |s|
  {
    var n := 1 + TagLen(s[1..]);
    var raw := TrimSpace(s[..n]);
    var t := TagTok(raw, lower(BareName(raw)));
    TagToks(s, n, t, t.kind == Open && IsRaw(t.name))
  }

  predicate EndsSelf(raw: seq<byte>) { |raw| >= 2 && raw[|raw| - 2] == '/' as int && raw[|raw| - 1] == '>' as int }

  /** How much the next step takes and the tokens it gives. */
  function Step(s: seq<byte>, lower: seq<byte> -> seq<byte>): (r: (nat, seq<Tok>))
    requires s != []
    ensures 1 <= r.0 <= |s|
  {
    if s[0] != '<' as int then
      var n := SpanLen(s, InText);
      var text := TrimSpace(s[..n]);
      (n, if text != [] then [Tok(Text, text, [])] else [])
    else if StartsWith(s, "<!--") then
      var n := EndOf(s, 4, COMMENT_END);
      (n, [Tok(Comment, s[..n], [])])
    else if StartsWith(s, "<![CDATA[") then
      var n := EndOf(s, 9, CDATA_END);
      (n, [Tok(Decl, s[..n], [])])
    else if At(s, 1, '!') || At(s, 1, '?') then
      var n := 1 + TagLen(s[1..]);
      (n, [Tok(Decl, TrimSpace(s[..n]), [])])
    else Tag(s, lower)
  }

  function Toks(s: seq<byte>, lower: seq<byte> -> seq<byte>): seq<Tok>
    decreases |s|
  {
    if s == [] then []
    else
      var (n, toks) := Step(s, lower);
      toks + Toks(s[n..], lower)
  }

  // ----- layout -----

  function Line(out: seq<byte>, indent: nat, s: seq<byte>): seq<byte> {
    (if out == [] then [] else out + ['\n' as int]) + Spaces(indent) + s
  }

  function Split(s: seq<byte>): seq<seq<byte>>
    decreases |s|
  {
    var k := SpanLen(s, NotNewline);
    if k < |s| then [s[..k]] + Split(s[k + 1..]) else [s]
  }

  function LinesOf(out: seq<byte>, indent: nat, lines: seq<seq<byte>>): seq<byte>
    decreases |lines|
  {
    if lines == [] then out else LinesOf(Line(out, indent, lines[0]), indent, lines[1..])
  }

  predicate ClosesAt(toks: seq<Tok>, k: nat) { k < |toks| && toks[k].kind == Close && toks[k].name == toks[0].name }

  /** What the first tokens put on lines, how many they are, and the indentation behind them. */
  function Group(toks: seq<Tok>, indent: nat, out: seq<byte>): (r: (nat, nat, seq<byte>))
    requires toks != []
    ensures 1 <= r.0 <= |toks|
  {
    var t := toks[0];
    match t.kind
    case Close =>
      var less := if indent > 0 then indent - 1 else 0;
      (1, less, Line(out, less, t.raw))
    case Open =>
      if |toks| > 2 && toks[1].kind == Text && ClosesAt(toks, 2) then
        (3, indent, Line(out, indent, t.raw + toks[1].raw + toks[2].raw))
      else if ClosesAt(toks, 1) then (2, indent, Line(out, indent, t.raw + toks[1].raw))
      else (1, indent + 1, Line(out, indent, t.raw))
    case Raw => (1, indent, LinesOf(out, indent, Split(t.raw)))
    case _ => (1, indent, Line(out, indent, t.raw))
  }

  function Lay(toks: seq<Tok>, indent: nat, out: seq<byte>): seq<byte>
    decreases |toks|
  {
    if toks == [] then out
    else
      var (n, next, more) := Group(toks, indent, out);
      Lay(toks[n..], next, more)
  }

  function BeautifiedMarkup(src: seq<byte>, lower: seq<byte> -> seq<byte>): seq<byte> {
    var toks := Toks(src, lower);
    if toks == [] then src else TrimNewlines(Lay(toks, 0, []))
  }

  // ----- the program -----

  lemma TagStep(src: seq<byte>, i: nat)
    requires i < |src|
    ensures TagLen(src[i..])
              == if src[i] == '"' as int || src[i] == '\'' as int then
                   var n := 1 + QuoteEnd(src[i + 1..], src[i]); n + TagLen(src[i + n..])
                 else if src[i] == '>' as int then 1
                 else 1 + TagLen(src[i + 1..])
    ensures TagLen(src[|src|..]) == 0
  {
    hide QuoteEnd;
    var rest := src[i..];
    var n := 1 + QuoteEnd(src[i + 1..], src[i]);
    assert rest[1..] == src[i + 1..] && rest[n..] == src[i + n..];
  }

  method ScanTagEnd(src: seq<byte>, start: nat) returns (end: nat)
    requires start < |src|
    ensures end == start + 1 + TagLen(src[start + 1..])
  {
    hide TagLen, QuoteEnd;
    var i := start + 1;
    TagStep(src, start);
    while i < |src|
      invariant start < i <= |src| && start + 1 + TagLen(src[start + 1..]) == i + TagLen(src[i..])
    {
      var c := src[i];
      TagStep(src, i);
      if c == '"' as int || c == '\'' as int {
        i := ScanQuote(src, i + 1, c);
        continue;
      }
      if c == '>' as int { return i + 1; }
      i := i + 1;
    }
    return |src|;
  }

  method ScanQuote(src: seq<byte>, start: nat, quote: byte) returns (end: nat)
    requires start <= |src|
    ensures end == start + QuoteEnd(src[start..], quote)
  {
    end := start;
    while end < |src| && src[end] != quote
      invariant start <= end <= |src|
      invariant start + QuoteEnd(src[start..], quote) == end + QuoteEnd(src[end..], quote)
    {
      assert src[end..][1..] == src[end + 1..];
      end := end + 1;
    }
    if end < |src| { end := end + 1; }
  }

  method TagName(raw: seq<byte>, lower: seq<byte> -> seq<byte>) returns (name: seq<byte>)
    ensures name == lower(BareName(raw))
  {
    var s := TrimPrefix(TrimPrefix(raw, '<'), '/');
    assert s[0..] == s;
    var start := Span(s, 0, BeforeName);
    var end := Span(s, start, InName);
    assert s[start..end] == s[start..][..end - start];
    name := lower(s[start..end]);
  }

  method RawElementBody(name: seq<byte>, body: seq<byte>) returns (r: seq<byte>)
    ensures r == RawBody(name, body)
  {
    hide TrimSpace, Beautified, TrimNewlines, Ink, Chars;
    var trimmed := TrimSpace(body);
    if |trimmed| == 0 { return []; }
    if Chars(name) == "script" || Chars(name) == "style" {
      var out, ok := BeautifyBraces(trimmed, Chars(name) == "style");
      if ok { return TrimNewlines(out); }
    }
    return trimmed;
  }

  method LowerAscii(b: seq<byte>) returns (out: seq<byte>)
    ensures out == AsciiLower(b)
  {
    out := [];
    assert b[0..] == b;
    for i := 0 to |b|
      invariant AsciiLower(b) == out + AsciiLower(b[i..])
    {
      var c := b[i];
      if 'A' as int <= c <= 'Z' as int { c := c + 32; }
      LowerStep(b, i, out);
      out := out + [c];
    }
    assert out + [] == out;
  }

  lemma LowerStep(b: seq<byte>, i: nat, out: seq<byte>)
    requires i < |b|
    ensures out + AsciiLower(b[i..])
              == out + [if 'A' as int <= b[i] <= 'Z' as int then b[i] + 32 else b[i]] + AsciiLower(b[i + 1..])
  {
    assert b[i..][1..] == b[i + 1..];
  }

  method ScanBody(src: seq<byte>, start: nat, name: seq<byte>) returns (end: nat)
    requires start <= |src|
    ensures start <= end <= |src| && end - start == BodyLen(src[start..], name)
  {
    hide AsciiLower, IndexOf;
    var text := LowerAscii(src[start..]);
    var tag := LowerAscii(['<' as int, '/' as int] + name);
    var k := IndexOf(text, tag);
    return if k.None? then |src| else start + k.value;
  }

  method ScanTag(src: seq<byte>, i: nat, lower: seq<byte> -> seq<byte>) returns (end: nat, toks: seq<Tok>)
    requires i < |src|
    ensures i < end <= |src| && (end - i, toks) == Tag(src[i..], lower)
  {
    hide TrimSpace, TagLen, BareName, BodyLen, RawBody, IsVoid, IsRaw, StartsWith, EndsSelf;
    ghost var s := src[i..];
    end := ScanTagEnd(src, i);
    assert s[1..] == src[i + 1..] && s[..end - i] == src[i..end] && s[end - i..] == src[end..];
    var raw := TrimSpace(src[i..end]);
    var name := TagName(raw, lower);
    if StartsWith(raw, "</") {
      toks := [Tok(Close, raw, name)];
    } else if EndsSelf(raw) || IsVoid(name) {
      toks := [Tok(Self, raw, name)];
    } else {
      toks := [Tok(Open, raw, name)];
      if IsRaw(name) {
        var bodyEnd := ScanBody(src, end, name);
        assert s[end - i..bodyEnd - i] == src[end..bodyEnd];
        var r := RawElementBody(name, src[end..bodyEnd]);
        assert toks + [] == toks;
        if r != [] { toks := toks + [Tok(Raw, r, [])]; }
        end := bodyEnd;
      }
    }
  }

  method ScanStep(src: seq<byte>, i: nat, lower: seq<byte> -> seq<byte>) returns (end: nat, toks: seq<Tok>)
    requires i < |src|
    ensures i < end <= |src| && (end - i, toks) == Step(src[i..], lower)
  {
    hide TrimSpace, TagLen, Tag, StartsWith, EndOf;
    ghost var s := src[i..];
    assert s[1..] == src[i + 1..];
    if src[i] != '<' as int {
      end := Span(src, i, InText);
      assert SpanLen(s, InText) > 0;
      assert s[..end - i] == src[i..end];
      var text := TrimSpace(src[i..end]);
      toks := if text != [] then [Tok(Text, text, [])] else [];
    } else if StartsWith(src[i..], "<!--") {
      end := i + EndOf(src[i..], 4, COMMENT_END);
      assert s[..end - i] == src[i..end];
      toks := [Tok(Comment, src[i..end], [])];
    } else if StartsWith(src[i..], "<![CDATA[") {
      end := i + EndOf(src[i..], 9, CDATA_END);
      assert s[..end - i] == src[i..end];
      toks := [Tok(Decl, src[i..end], [])];
    } else if i + 1 < |src| && (src[i + 1] == '!' as int || src[i + 1] == '?' as int) {
      end := ScanTagEnd(src, i);
      assert s[..end - i] == src[i..end];
      toks := [Tok(Decl, TrimSpace(src[i..end]), [])];
    } else {
      end, toks := ScanTag(src, i, lower);
    }
  }

  method ScanMarkup(src: seq<byte>, lower: seq<byte> -> seq<byte>) returns (toks: seq<Tok>)
    ensures toks == Toks(src, lower)
  {
    hide Step;
    toks := [];
    var i := 0;
    assert src[0..] == src && [] + Toks(src, lower) == Toks(src, lower);
    while i < |src|
      invariant 0 <= i <= |src| && Toks(src, lower) == toks + Toks(src[i..], lower)
    {
      var end, found := ScanStep(src, i, lower);
      assert src[i..][end - i..] == src[end..];
      assert toks + (found + Toks(src[end..], lower)) == toks + found + Toks(src[end..], lower);
      toks := toks + found;
      i := end;
    }
  }

  method WriteLine(out: seq<byte>, indent: nat, s: seq<byte>) returns (r: seq<byte>)
    ensures r == Line(out, indent, s)
  {
    r := out;
    if |out| > 0 { r := r + ['\n' as int]; }
    r := WriteIndent(r, indent);
    r := r + s;
  }

  method WriteLines(out: seq<byte>, indent: nat, lines: seq<seq<byte>>) returns (r: seq<byte>)
    ensures r == LinesOf(out, indent, lines)
  {
    hide Line;
    r := out;
    assert lines[0..] == lines;
    for i := 0 to |lines|
      invariant LinesOf(out, indent, lines) == LinesOf(r, indent, lines[i..])
    {
      assert lines[i..][1..] == lines[i + 1..];
      r := WriteLine(r, indent, lines[i]);
    }
  }

  method WriteGroup(toks: seq<Tok>, i: nat, indent: nat, out: seq<byte>) returns (n: nat, next: nat, r: seq<byte>)
    requires i < |toks|
    ensures (n, next, r) == Group(toks[i..], indent, out)
  {
    hide Line, LinesOf, Split;
    var t := toks[i];
    n, next, r := 1, indent, out;
    match t.kind
    case Close =>
      if indent > 0 { next := indent - 1; }
      r := WriteLine(out, next, t.raw);
    case Open =>
      if i + 2 < |toks| && toks[i + 1].kind == Text && toks[i + 2].kind == Close && toks[i + 2].name == t.name {
        r := WriteLine(out, indent, t.raw + toks[i + 1].raw + toks[i + 2].raw);
        n := 3;
      } else if i + 1 < |toks| && toks[i + 1].kind == Close && toks[i + 1].name == t.name {
        r := WriteLine(out, indent, t.raw + toks[i + 1].raw);
        n := 2;
      } else {
        r := WriteLine(out, indent, t.raw);
        next := indent + 1;
      }
    case Raw => r := WriteLines(out, indent, Split(t.raw));
    case _ => r := WriteLine(out, indent, t.raw);
  }

  method Arrange(toks: seq<Tok>) returns (out: seq<byte>)
    ensures out == Lay(toks, 0, [])
  {
    hide Group;
    out := [];
    var i, indent := 0, 0;
    assert toks[0..] == toks;
    while i < |toks|
      invariant 0 <= i <= |toks| && indent >= 0 && Lay(toks, 0, []) == Lay(toks[i..], indent, out)
    {
      var n;
      n, indent, out := WriteGroup(toks, i, indent, out);
      assert toks[i..][n..] == toks[i + n..];
      i := i + n;
    }
  }

  method BeautifyTags(src: seq<byte>, lower: seq<byte> -> seq<byte>) returns (res: seq<byte>, changed: bool)
    ensures res == BeautifiedMarkup(src, lower)
    ensures changed <==> Toks(src, lower) != [] && res != TrimNewlines(src)
    ensures Strips(src, Ink(res))
  {
    hide Toks, Lay, Ink, Strips, TrimNewlines;
    MarkupKeepsInk(src, lower);
    var toks := ScanMarkup(src, lower);
    if |toks| == 0 { return src, false; }
    var out := Arrange(toks);
    res := TrimNewlines(out);
    changed := res != TrimNewlines(src);
  }

  // ----- nothing but white space is lost, and nothing is invented -----

  /** `v` is `src` with some of its white-space characters left out. */
  predicate Strips(src: seq<byte>, v: seq<byte>)
    decreases |src|
  {
    if src == [] then v == []
    else
      || (v != [] && v[0] == src[0] && Strips(src[1..], v[1..]))
      || (SpaceLen(src) > 0 && Strips(src[SpaceLen(src)..], v))
  }

  lemma {:induction false} StripsAppend(a: seq<byte>, x: seq<byte>, b: seq<byte>, y: seq<byte>)
    requires Strips(a, x) && Strips(b, y)
    ensures Strips(a + b, x + y)
    decreases |a|
  {
    hide SpaceLen;
    if a == [] {
      assert a + b == b && x + y == y;
    } else if x != [] && x[0] == a[0] && Strips(a[1..], x[1..]) {
      StripsAppend(a[1..], x[1..], b, y);
      assert (a + b)[0] == a[0] && (a + b)[1..] == a[1..] + b;
      assert (x + y)[0] == x[0] && (x + y)[1..] == x[1..] + y;
    } else {
      var n := SpaceLen(a);
      StripsAppend(a[n..], x, b, y);
      assert (a + b)[..n] == a[..n];
      SpaceIsLocal(a, a + b);
      assert (a + b)[n..] == a[n..] + b;
    }
  }

  lemma {:induction false} StripsInk(s: seq<byte>)
    ensures Strips(s, Ink(s))
  {
    hide SpaceLen, IsBlank;
    if s != [] {
      StripsInk(s[1..]);
      if IsBlank(s[0]) {
        BlankIsSpace(s);
        assert [] + Ink(s[1..]) == Ink(s[1..]);
      } else {
        assert ([s[0]] + Ink(s[1..]))[1..] == Ink(s[1..]);
      }
    }
  }

  lemma {:induction false} StripsTrimLeft(s: seq<byte>, v: seq<byte>)
    requires Strips(TrimLeft(s), v)
    ensures Strips(s, v)
    decreases |s|
  {
    hide SpaceLen;
    var n := SpaceLen(s);
    if n > 0 {
      StripsTrimLeft(s[n..], v);
    }
  }

  lemma SpaceStrips(e: seq<byte>)
    requires SpaceLen(e) == |e| > 0
    ensures Strips(e, [])
  {
    hide SpaceLen;
    assert e[|e|..] == [] && Strips(e[|e|..], []);
  }

  lemma {:induction false} StripsTrimRight(s: seq<byte>, v: seq<byte>)
    requires Strips(TrimRight(s), v)
    ensures Strips(s, v)
    decreases |s|
  {
    hide SpaceLen, LastSpaceLen, Strips;
    var n := LastSpaceLen(s);
    if n > 0 {
      var init, last := s[..|s| - n], s[|s| - n..];
      StripsTrimRight(init, v);
      SpaceStrips(last);
      StripsAppend(init, v, last, []);
      assert init + last == s && v + [] == v;
    }
  }

  lemma StripsTrimSpace(s: seq<byte>)
    ensures Strips(s, Ink(TrimSpace(s)))
  {
    hide Strips, Ink, TrimLeft, TrimRight;
    StripsInk(TrimSpace(s));
    StripsTrimRight(TrimLeft(s), Ink(TrimSpace(s)));
    StripsTrimLeft(s, Ink(TrimSpace(s)));
  }

  function Raws(toks: seq<Tok>): seq<byte> {
    if toks == [] then [] else toks[0].raw + Raws(toks[1..])
  }

  lemma RawsStep(t: Tok, toks: seq<Tok>)
    ensures Raws([t] + toks) == t.raw + Raws(toks)
  {
    assert ([t] + toks)[1..] == toks;
  }

  lemma {:induction false} RawsAppend(a: seq<Tok>, b: seq<Tok>)
    ensures Raws(a + b) == Raws(a) + Raws(b)
  {
    if a == [] {
      assert a + b == b;
    } else {
      hide Raws;
      var t, rest := a[0], a[1..];
      RawsAppend(rest, b);
      RawsStep(t, rest);
      RawsStep(t, rest + b);
      assert [t] + rest == a && [t] + (rest + b) == a + b;
      Associative(t.raw, Raws(rest), Raws(b));
    }
  }

  lemma RawsOfOne(t: Tok)
    ensures Raws([t]) == t.raw
  {
    assert [t][1..] == [] && t.raw + [] == t.raw;
  }

  lemma BodyStrips(body: seq<byte>, name: seq<byte>)
    ensures Strips(body, Ink(Raws(BodyToks(body, name))))
  {
    hide Strips, Ink, TrimSpace, Beautified, TrimNewlines, Chars;
    StripsTrimSpace(body);
    var trimmed := TrimSpace(body);
    var out := Beautified(trimmed, Chars(name) == "style");
    BeautifiedKeepsInk(trimmed, Chars(name) == "style");
    TrimNewlinesKeepsInk(out);
    RawsOfOne(Tok(Raw, RawBody(name, body), []));
  }

  lemma TagStrips(s: seq<byte>, lower: seq<byte> -> seq<byte>)
    requires s != []
    ensures var (n, toks) := Tag(s, lower); Strips(s[..n], Ink(Raws(toks)))
  {
    hide Strips, Ink, TrimSpace, TagLen, BareName, BodyLen, BodyToks, IsRaw, StartsWith, EndsSelf, IsVoid, Raws;
    var n := 1 + TagLen(s[1..]);
    var raw := TrimSpace(s[..n]);
    var name := lower(BareName(raw));
    var t := TagTok(raw, name);
    StripsTrimSpace(s[..n]);
    RawsOfOne(t);
    var k := BodyLen(s[n..], name);
    var body := s[n..n + k];
    var more := BodyToks(body, name);
    BodyStrips(body, name);
    StripsAppend(s[..n], Ink(raw), body, Ink(Raws(more)));
    assert s[..n] + body == s[..n + k];
    InkAppend(raw, Raws(more));
    RawsAppend([t], more);
  }

  lemma StepStrips(s: seq<byte>, lower: seq<byte> -> seq<byte>)
    requires s != []
    ensures var (n, toks) := Step(s, lower); Strips(s[..n], Ink(Raws(toks)))
  {
    hide Strips, Ink, TrimSpace, TagLen, Tag, StartsWith, EndOf, SpanLen;
    var (n, toks) := Step(s, lower);
    TagStrips(s, lower);
    StripsTrimSpace(s[..n]);
    StripsInk(s[..n]);
    if |toks| == 1 {
      RawsOfOne(toks[0]);
      assert toks == [toks[0]];
    }
  }

  lemma {:induction false} ToksStrip(s: seq<byte>, lower: seq<byte> -> seq<byte>)
    ensures Strips(s, Ink(Raws(Toks(s, lower))))
    decreases |s|
  {
    hide Strips, Ink, Step;
    if s == [] {
      StripsInk(s);
    } else {
      var (n, toks) := Step(s, lower);
      var rest := Toks(s[n..], lower);
      StepStrips(s, lower);
      ToksStrip(s[n..], lower);
      StripsAppend(s[..n], Ink(Raws(toks)), s[n..], Ink(Raws(rest)));
      assert s[..n] + s[n..] == s;
      RawsAppend(toks, rest);
      InkAppend(Raws(toks), Raws(rest));
    }
  }

  // ----- the layout adds only blanks -----

  lemma LineInk(out: seq<byte>, indent: nat, s: seq<byte>)
    ensures Ink(Line(out, indent, s)) == Ink(out) + Ink(s)
  {
    hide Ink, Spaces;
    SpacesAreBlank(indent);
    BlanksHaveNoInk(['\n' as int]);
    InkAppend(out, ['\n' as int]);
    var head := if out == [] then [] else out + ['\n' as int];
    InkAppend(head, Spaces(indent));
    InkAppend(head + Spaces(indent), s);
  }

  function Joined(lines: seq<seq<byte>>): seq<byte> {
    if lines == [] then [] else lines[0] + Joined(lines[1..])
  }

  lemma {:induction false} LinesInk(out: seq<byte>, indent: nat, lines: seq<seq<byte>>)
    ensures Ink(LinesOf(out, indent, lines)) == Ink(out) + Ink(Joined(lines))
    decreases |lines|
  {
    hide Ink, Line;
    if lines == [] {
      BlanksHaveNoInk([]);
    } else {
      LinesInk(Line(out, indent, lines[0]), indent, lines[1..]);
      LineInk(out, indent, lines[0]);
      InkAppend(lines[0], Joined(lines[1..]));
    }
  }

  lemma {:induction false} SplitInk(s: seq<byte>)
    ensures Ink(Joined(Split(s))) == Ink(s)
    decreases |s|
  {
    hide Ink, SpanLen;
    var k := SpanLen(s, NotNewline);
    if k < |s| {
      var head, nl, tail := s[..k], s[k..k + 1], s[k + 1..];
      SplitInk(tail);
      assert ([head] + Split(tail))[1..] == Split(tail);
      InkAppend(head, Joined(Split(tail)));
      BlanksHaveNoInk(nl);
      assert s == head + nl + tail;
      InkAppend(head, nl);
      InkAppend(head + nl, tail);
    } else {
      assert [s][1..] == [] && s + [] == s;
    }
  }

  lemma RawsOfTwo(a: Tok, b: Tok)
    ensures Raws([a, b]) == a.raw + b.raw
  {
    RawsOfOne(a);
    RawsOfOne(b);
    RawsAppend([a], [b]);
  }

  lemma RawsOfThree(a: Tok, b: Tok, c: Tok)
    ensures Raws([a, b, c]) == a.raw + b.raw + c.raw
  {
    hide Raws;
    RawsOfTwo(a, b);
    RawsOfOne(c);
    RawsAppend([a, b], [c]);
    assert [a, b, c] == [a, b] + [c];
  }

  lemma AloneInk(toks: seq<Tok>, indent: nat, out: seq<byte>)
    requires toks != [] && Group(toks, indent, out).0 == 1
    ensures Ink(Group(toks, indent, out).2) == Ink(out) + Ink(toks[0].raw)
  {
    hide Ink, Line, LinesOf, Split;
    var (n, next, more) := Group(toks, indent, out);
    var t := toks[0];
    if t.kind == Raw {
      LinesInk(out, indent, Split(t.raw));
      SplitInk(t.raw);
    } else {
      LineInk(out, if t.kind == Close then next else indent, t.raw);
    }
  }

  lemma GroupInk(toks: seq<Tok>, indent: nat, out: seq<byte>)
    requires toks != []
    ensures var (n, _, more) := Group(toks, indent, out); Ink(more) == Ink(out) + Ink(Raws(toks[..n]))
  {
    hide Ink, Line, LinesOf, Split, Raws;
    var (n, next, more) := Group(toks, indent, out);
    var t := toks[0];
    if n == 1 {
      AloneInk(toks, indent, out);
      RawsOfOne(t);
      assert toks[..1] == [t];
    } else if n == 2 {
      RawsOfTwo(t, toks[1]);
      assert toks[..2] == [t, toks[1]];
      LineInk(out, indent, t.raw + toks[1].raw);
    } else {
      RawsOfThree(t, toks[1], toks[2]);
      assert toks[..3] == [t, toks[1], toks[2]];
      LineInk(out, indent, t.raw + toks[1].raw + toks[2].raw);
    }
  }

  lemma {:induction false} LayInk(toks: seq<Tok>, indent: nat, out: seq<byte>)
    ensures Ink(Lay(toks, indent, out)) == Ink(out) + Ink(Raws(toks))
    decreases |toks|
  {
    hide Ink, Group;
    if toks == [] {
      BlanksHaveNoInk([]);
    } else {
      hide Raws;
      var (n, next, more) := Group(toks, indent, out);
      GroupInk(toks, indent, out);
      LayInk(toks[n..], next, more);
      RawsAppend(toks[..n], toks[n..]);
      assert toks[..n] + toks[n..] == toks;
      InkAppend(Raws(toks[..n]), Raws(toks[n..]));
    }
  }

  /** For every input, what is visible in the output is the input with nothing but white space left out. */
  lemma MarkupKeepsInk(src: seq<byte>, lower: seq<byte> -> seq<byte>)
    ensures Strips(src, Ink(BeautifiedMarkup(src, lower)))
  {
    hide Ink, Strips, Toks, Lay, TrimNewlines;
    var toks := Toks(src, lower);
    StripsInk(src);
    ToksStrip(src, lower);
    LayInk(toks, 0, []);
    BlanksHaveNoInk([]);
    assert Ink([]) + Ink(Raws(toks)) == Ink(Raws(toks));
    TrimNewlinesKeepsInk(Lay(toks, 0, []));
  }

  // ----- when the visible bytes are the same -----

  /** Every white-space character of the text is one of the four blanks. */
  predicate OnlyBlanks(s: seq<byte>) {
    forall k | 0 <= k < |s| :: SpaceLen(s[k..]) > 0 ==> IsBlank(s[k])
  }

  lemma {:induction false} StripsBlanks(s: seq<byte>, v: seq<byte>)
    requires OnlyBlanks(s) && Strips(s, v) && forall c <- v :: !IsBlank(c)
    ensures v == Ink(s)
    decreases |s|
  {
    hide SpaceLen, IsBlank;
    if s != [] {
      assert s[0..] == s;
      assert forall k | 0 <= k < |s| - 1 :: s[1..][k..] == s[k + 1..];
      if v != [] && v[0] == s[0] && Strips(s[1..], v[1..]) {
        assert v[0] in v;
        StripsBlanks(s[1..], v[1..]);
      } else {
        BlankIsSpace(s);
        StripsBlanks(s[1..], v);
        assert [] + Ink(s[1..]) == Ink(s[1..]);
      }
    }
  }

  lemma {:induction false} InkHasNoBlanks(s: seq<byte>)
    ensures forall c <- Ink(s) :: !IsBlank(c)
  {
    if s != [] {
      InkHasNoBlanks(s[1..]);
    }
  }

  /** Input without other white space than blanks keeps its visible bytes exactly. */
  lemma BlankTextKeepsInk(src: seq<byte>, lower: seq<byte> -> seq<byte>)
    requires OnlyBlanks(src)
    ensures Ink(BeautifiedMarkup(src, lower)) == Ink(src)
  {
    hide Ink, Strips, OnlyBlanks;
    MarkupKeepsInk(src, lower);
    InkHasNoBlanks(BeautifiedMarkup(src, lower));
    StripsBlanks(src, Ink(BeautifiedMarkup(src, lower)));
  }
}
