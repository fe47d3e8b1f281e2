/** The beautifier for languages with braces: it re-indents minified script and style text. */
module Beautify {
  import opened Bytes

  predicate IsInline(c: byte) { c == ' ' as int || c == '\t' as int }

  predicate IsQuote(c: byte) { c == '"' as int || c == '\'' as int || c == '`' as int }

  predicate IsWord(c: byte) {
    c == '_' as int || c == '$' as int || ('a' as int <= c <= 'z' as int) || ('A' as int <= c <= 'Z' as int)
    || ('0' as int <= c <= '9' as int)
  }

  predicate OneOf(c: byte, s: string) { exists k | 0 <= k < |s| :: s[k] as int == c }

  function Chars(s: seq<byte>): string { seq(|s|, k requires 0 <= k < |s| => s[k] as char) }

  // ----- the output buffer -----

  function TrimInline(out: seq<byte>): (r: seq<byte>)
    ensures r <= out
  {
    if out != [] && IsInline(out[|out| - 1]) then TrimInline(out[..|out| - 1]) else out
  }

  predicate AtLineStart(out: seq<byte>) {
    var t := TrimInline(out);
    t == [] || t[|t| - 1] == '\n' as int
  }

  function Spaces(indent: nat): seq<byte> {
    if indent == 0 then [] else Spaces(indent - 1) + [' ' as int, ' ' as int]
  }

  function Newline(out: seq<byte>, indent: nat): seq<byte> {
    TrimInline(out) + ['\n' as int] + Spaces(indent)
  }

  // ----- looking ahead -----

  /** The next byte that is not blank, 0 at the end. */
  function PeekNonSpace(s: seq<byte>): byte {
    var k := SpanLen(s, IsBlank);
    if k < |s| then s[k] else 0
  }

  function PeekWord(s: seq<byte>): seq<byte> {
    var k := SpanLen(s, IsBlank);
    s[k..k + SpanLen(s[k..], IsWord)]
  }

  // ----- what is copied as it stands, measured from behind its opening -----

  function QuotedLen(s: seq<byte>, quote: byte): (n: nat)
    ensures n <= |s|
  {
    if s == [] then 0
    else if s[0] == '\\' as int && |s| > 1 then 2 + QuotedLen(s[2..], quote)
    else if s[0] == quote then 1
    else 1 + QuotedLen(s[1..], quote)
  }

  function BlockLen(s: seq<byte>): (n: nat)
    ensures n <= |s|
  {
    if s == [] then 0
    else if s[0] == '*' as int && At(s, 1, '/') then 2
    else 1 + BlockLen(s[1..])
  }

  /** The length and whether the closing slash was found; a slash inside a class does not close. */
  function RegexLen(s: seq<byte>, inClass: bool): (r: (nat, bool))
    ensures r.0 <= |s|
  {
    if s == [] then (0, false)
    else if s[0] == '\\' as int && |s| > 1 then
      var (n, closed) := RegexLen(s[2..], inClass);
      (2 + n, closed)
    else if s[0] == '/' as int && !inClass then (1, true)
    else
      var inner := if s[0] == '[' as int then true else if s[0] == ']' as int then false else inClass;
      var (n, closed) := RegexLen(s[1..], inner);
      (1 + n, closed)
  }

  predicate RegexCanStart(last: byte) { last == 0 || OneOf(last, "(,=:[!&|?{};+-*%<>^~") }

  // ----- one step -----

  /** `last` is the last byte that counts for telling a division from a regular expression. */
  datatype State = State(out: seq<byte>, indent: nat, paren: nat, last: byte)

  const START := State([], 0, 0, 0)

  predicate Joins(nx: byte, css: bool) {
    || nx == 0 || OneOf(nx, ")],;") || (nx == '.' as int && !css)
    || (!css && OneOf(nx, "=&|?:+-*%<>(`"))
  }

  predicate Continues(word: seq<byte>) {
    Chars(word) == "else" || Chars(word) == "catch" || Chars(word) == "finally" || Chars(word) == "while"
  }

  function Closed(out: seq<byte>, indent: nat): seq<byte> {
    (if AtLineStart(out) then TrimInline(out) + Spaces(indent) else Newline(out, indent)) + ['}' as int]
  }

  function AfterBrace(out: seq<byte>, rest: seq<byte>, css: bool, indent: nat): seq<byte> {
    if Joins(PeekNonSpace(rest), css) then out
    else if Continues(PeekWord(rest)) then out + [' ' as int]
    else Newline(out, indent)
  }

  function AfterSemicolon(out: seq<byte>, rest: seq<byte>, st: State): seq<byte> {
    if st.paren > 0 then
      var nx := PeekNonSpace(rest);
      if nx != 0 && nx != ')' as int then out + [' ' as int] else out
    else Newline(out, st.indent)
  }

  /** A byte outside everything that is copied; `rest` is what follows it. */
  function Symbol(c: byte, rest: seq<byte>, css: bool, st: State): State {
    if c == '{' as int then
      State(Newline(st.out + [c], st.indent + 1), st.indent + 1, st.paren, c)
    else if c == '}' as int then
      var indent := if st.indent > 0 then st.indent - 1 else 0;
      State(AfterBrace(Closed(st.out, indent), rest, css, indent), indent, st.paren, c)
    else if c == ';' as int then st.(out := AfterSemicolon(st.out + [c], rest, st), last := c)
    else if c == '(' as int then st.(out := st.out + [c], paren := st.paren + 1, last := c)
    else if c == ')' as int then
      st.(out := st.out + [c], paren := if st.paren > 0 then st.paren - 1 else 0, last := c)
    else if IsInline(c) then if AtLineStart(st.out) then st else st.(out := st.out + [' ' as int])
    else if c == '\n' as int || c == '\r' as int then st
    else st.(out := st.out + [c], last := c)
  }

  /** How much is copied as it stands, and the `last` behind it; none if a symbol stands here. */
  function Copied(s: seq<byte>, last: byte): (r: Option<(nat, byte)>)
    requires s != []
    ensures r.Some? ==> 1 <= r.value.0 <= |s|
  {
    var c := s[0];
    if IsQuote(c) then Some((1 + QuotedLen(s[1..], c), c))
    else if c == '/' as int && At(s, 1, '/') then Some((SpanLen(s, NotNewline), last))
    else if c == '/' as int && At(s, 1, '*') then Some((2 + BlockLen(s[2..]), last))
    else if c == '/' as int && RegexCanStart(last) then
      var (n, closed) := RegexLen(s[1..], false);
      Some((1 + n, if closed then c else last))
    else None
  }

  function Run(s: seq<byte>, css: bool, st: State): State
    decreases |s|
  {
    if s == [] then st
    else
      var copied := Copied(s, st.last);
      if copied.Some? then
        var (n, last) := copied.value;
        Run(s[n..], css, st.(out := st.out + s[..n], last := last))
      else Run(s[1..], css, Symbol(s[0], s[1..], css, st))
  }

  /** Of a run of newlines only the first two stay; `run` newlines stand before `b`. */
  function Collapse(b: seq<byte>, run: nat): seq<byte> {
    if b == [] then []
    else if b[0] == '\n' as int then (if run >= 2 then [] else [b[0]]) + Collapse(b[1..], run + 1)
    else [b[0]] + Collapse(b[1..], 0)
  }

  function TrimNewlines(b: seq<byte>): (r: seq<byte>)
    ensures r <= b
  {
    if b != [] && b[|b| - 1] == '\n' as int then TrimNewlines(b[..|b| - 1]) else b
  }

  function Beautified(src: seq<byte>, css: bool): seq<byte> {
    TrimNewlines(Collapse(Run(src, css, START).out, 0))
  }

  // ----- the program -----

  method WriteIndent(out: seq<byte>, indent: nat) returns (r: seq<byte>)
    ensures r == out + Spaces(indent)
  {
    r := out;
    for i := 0 to indent
      invariant r == out + Spaces(i)
    {
      r := r + [' ' as int, ' ' as int];
    }
  }

  method TrimInlineTrailing(out: seq<byte>) returns (r: seq<byte>)
    ensures r == TrimInline(out)
  {
    r := out;
    while |r| > 0 && IsInline(r[|r| - 1])
      invariant TrimInline(r) == TrimInline(out)
    {
      r := r[..|r| - 1];
    }
  }

  method WriteNewline(out: seq<byte>, indent: nat) returns (r: seq<byte>)
    ensures r == Newline(out, indent)
  {
    r := TrimInlineTrailing(out);
    r := WriteIndent(r + ['\n' as int], indent);
  }

  method IsAtLineStart(out: seq<byte>) returns (b: bool)
    ensures b == AtLineStart(out)
  {
    var i := |out|;
    assert out[..i] == out;
    while i > 0
      invariant 0 <= i <= |out| && TrimInline(out[..i]) == TrimInline(out)
    {
      assert out[..i][..i - 1] == out[..i - 1];
      if !IsInline(out[i - 1]) { return out[i - 1] == '\n' as int; }
      i := i - 1;
    }
    return true;
  }

  method NextNonSpace(src: seq<byte>, start: nat) returns (c: byte)
    requires start <= |src|
    ensures c == PeekNonSpace(src[start..])
  {
    var i := Span(src, start, IsBlank);
    return if i < |src| then src[i] else 0;
  }

  method NextWord(src: seq<byte>, from: nat) returns (w: seq<byte>)
    requires from <= |src|
    ensures w == PeekWord(src[from..])
  {
    hide SpanLen, IsWord, IsBlank;
    var start := Span(src, from, IsBlank);
    var i := Span(src, start, IsWord);
    ghost var s := src[from..];
    assert s[start - from..] == src[start..];
    assert s[start - from..i - from] == src[start..i];
    w := src[start..i];
  }

  lemma QuotedStep(src: seq<byte>, i: nat, quote: byte)
    requires i < |src|
    ensures QuotedLen(src[i..], quote)
              == if src[i] == '\\' as int && i + 1 < |src| then 2 + QuotedLen(src[i + 2..], quote)
                 else if src[i] == quote then 1
                 else 1 + QuotedLen(src[i + 1..], quote)
    ensures QuotedLen(src[|src|..], quote) == 0
  {
    var rest := src[i..];
    assert rest[1..] == src[i + 1..] && (|rest| > 1 ==> rest[2..] == src[i + 2..]);
  }

  lemma Grow(src: seq<byte>, out: seq<byte>, start: nat, i: nat)
    requires start <= i < |src|
    ensures out + src[start..i] + [src[i]] == out + src[start..i + 1]
  {
    assert src[start..i] + [src[i]] == src[start..i + 1];
    assert out + src[start..i] + [src[i]] == out + (src[start..i] + [src[i]]);
  }

  method CopyQuoted(src: seq<byte>, out: seq<byte>, start: nat) returns (r: seq<byte>, i: nat)
    requires start < |src|
    ensures i == start + 1 + QuotedLen(src[start + 1..], src[start])
    ensures r == out + src[start..i]
  {
    hide QuotedLen;
    var quote := src[start];
    i := start + 1;
    r := out + [quote];
    ghost var goal := i + QuotedLen(src[i..], quote);
    QuotedStep(src, start, quote);
    while i < |src|
      invariant start < i <= |src| && goal == i + QuotedLen(src[i..], quote)
      invariant r == out + src[start..i]
    {
      var d := src[i];
      QuotedStep(src, i, quote);
      Grow(src, out, start, i);
      r := r + [d];
      i := i + 1;
      if d == '\\' as int && i < |src| {
        Grow(src, out, start, i);
        r := r + [src[i]];
        i := i + 1;
        continue;
      }
      if d == quote { return; }
    }
  }

  method CopyLine(src: seq<byte>, out: seq<byte>, start: nat) returns (r: seq<byte>, i: nat)
    requires start <= |src|
    ensures i == start + SpanLen(src[start..], NotNewline)
    ensures r == out + src[start..i]
  {
    i := start;
    r := out;
    while i < |src| && src[i] != '\n' as int
      invariant start <= i <= |src| && start + SpanLen(src[start..], NotNewline) == i + SpanLen(src[i..], NotNewline)
      invariant r == out + src[start..i]
    {
      assert src[i..][1..] == src[i + 1..];
      r := r + [src[i]];
      i := i + 1;
    }
  }

  method CopyBlock(src: seq<byte>, out: seq<byte>, start: nat) returns (r: seq<byte>, i: nat)
    requires start + 2 <= |src| && src[start] == '/' as int && src[start + 1] == '*' as int
    ensures i == start + 2 + BlockLen(src[start + 2..])
    ensures r == out + src[start..i]
  {
    r := out + ['/' as int, '*' as int];
    i := start + 2;
    ghost var goal := i + BlockLen(src[i..]);
    while i < |src|
      invariant start + 2 <= i <= |src| && goal == i + BlockLen(src[i..])
      invariant r == out + src[start..i]
    {
      assert src[i..][1..] == src[i + 1..];
      if src[i] == '*' as int && i + 1 < |src| && src[i + 1] == '/' as int {
        r := r + ['*' as int, '/' as int];
        i := i + 2;
        return;
      }
      r := r + [src[i]];
      i := i + 1;
    }
  }

  lemma RegexStep(src: seq<byte>, i: nat, inClass: bool)
    requires i < |src|
    ensures RegexLen(src[i..], inClass)
              == if src[i] == '\\' as int && i + 1 < |src| then
                   var (n, closed) := RegexLen(src[i + 2..], inClass); (2 + n, closed)
                 else if src[i] == '/' as int && !inClass then (1, true)
                 else
                   var inner := if src[i] == '[' as int then true else if src[i] == ']' as int then false else inClass;
                   var (n, closed) := RegexLen(src[i + 1..], inner); (1 + n, closed)
    ensures forall c :: RegexLen(src[|src|..], c) == (0, false)
  {
    var rest := src[i..];
    assert rest[1..] == src[i + 1..] && (|rest| > 1 ==> rest[2..] == src[i + 2..]);
  }

  method CopyRegex(src: seq<byte>, out: seq<byte>, start: nat) returns (r: seq<byte>, i: nat, closed: bool)
    requires start < |src| && src[start] == '/' as int
    ensures (i - start - 1, closed) == RegexLen(src[start + 1..], false)
    ensures i <= |src| && r == out + src[start..i]
  {
    hide RegexLen;
    r := out + ['/' as int];
    i := start + 1;
    var inClass := false;
    RegexStep(src, start, false);
    while i < |src|
      invariant start < i <= |src| && r == out + src[start..i]
      invariant RegexLen(src[start + 1..], false)
                  == (i - start - 1 + RegexLen(src[i..], inClass).0, RegexLen(src[i..], inClass).1)
    {
      var d := src[i];
      RegexStep(src, i, inClass);
      Grow(src, out, start, i);
      r := r + [d];
      i := i + 1;
      if d == '\\' as int && i < |src| {
        Grow(src, out, start, i);
        r := r + [src[i]];
        i := i + 1;
        continue;
      }
      if d == '[' as int {
        inClass := true;
      } else if d == ']' as int {
        inClass := false;
      } else if d == '/' as int && !inClass {
        return r, i, true;
      }
    }
    closed := false;
  }

  method CloseBrace(src: seq<byte>, i: nat, css: bool, st: State) returns (r: State)
    requires i < |src| && src[i] == '}' as int
    ensures r == Symbol(src[i], src[i + 1..], css, st)
  {
    hide AtLineStart, TrimInline, Spaces, Newline, PeekNonSpace, PeekWord, Joins, Continues;
    var indent := st.indent;
    if indent > 0 { indent := indent - 1; }
    var out;
    var atStart := IsAtLineStart(st.out);
    if atStart {
      out := TrimInlineTrailing(st.out);
      out := WriteIndent(out, indent);
    } else {
      out := WriteNewline(st.out, indent);
    }
    out := out + ['}' as int];
    var nx := NextNonSpace(src, i + 1);
    if !Joins(nx, css) {
      var word := NextWord(src, i + 1);
      if Continues(word) {
        out := out + [' ' as int];
      } else {
        out := WriteNewline(out, indent);
      }
    }
    r := State(out, indent, st.paren, '}' as int);
  }

  method Semicolon(src: seq<byte>, i: nat, css: bool, st: State) returns (r: State)
    requires i < |src| && src[i] == ';' as int
    ensures r == Symbol(src[i], src[i + 1..], css, st)
  {
    hide AtLineStart, Newline, PeekNonSpace, AfterBrace, Closed;
    var out := st.out + [';' as int];
    if st.paren > 0 {
      var nx := NextNonSpace(src, i + 1);
      if nx != 0 && nx != ')' as int {
        out := out + [' ' as int];
      }
    } else {
      out := WriteNewline(out, st.indent);
    }
    r := st.(out := out, last := ';' as int);
  }

  method WriteSymbol(src: seq<byte>, i: nat, css: bool, st: State) returns (r: State)
    requires i < |src|
    ensures r == Symbol(src[i], src[i + 1..], css, st)
  {
    hide AtLineStart, Newline, AfterBrace, Closed, AfterSemicolon;
    var c := src[i];
    if c == '{' as int {
      var out := WriteNewline(st.out + [c], st.indent + 1);
      r := State(out, st.indent + 1, st.paren, c);
    } else if c == '}' as int {
      r := CloseBrace(src, i, css, st);
    } else if c == ';' as int {
      r := Semicolon(src, i, css, st);
    } else if c == '(' as int {
      r := st.(out := st.out + [c], paren := st.paren + 1, last := c);
    } else if c == ')' as int {
      r := st.(out := st.out + [c], last := c);
      if r.paren > 0 { r := r.(paren := r.paren - 1); }
    } else if IsInline(c) {
      var atStart := IsAtLineStart(st.out);
      r := st;
      if !atStart { r := st.(out := st.out + [' ' as int]); }
    } else if c == '\n' as int || c == '\r' as int {
      r := st;
    } else {
      r := st.(out := st.out + [c], last := c);
    }
  }

  method Copy(src: seq<byte>, i: nat, st: State) returns (found: bool, next: State, end: nat)
    requires i < |src|
    ensures found == Copied(src[i..], st.last).Some?
    ensures found ==>
              && i < end <= |src| && (end - i, next.last) == Copied(src[i..], st.last).value
              && next == st.(out := st.out + src[i..end], last := next.last)
  {
    hide QuotedLen, SpanLen, BlockLen, RegexLen, RegexCanStart;
    var c := src[i];
    ghost var s := src[i..];
    assert s[1..] == src[i + 1..] && (|s| > 1 ==> s[2..] == src[i + 2..]);
    found, next, end := true, st, i;
    var out;
    if IsQuote(c) {
      out, end := CopyQuoted(src, st.out, i);
      next := st.(out := out, last := c);
    } else if c == '/' as int && i + 1 < |src| && src[i + 1] == '/' as int {
      out, end := CopyLine(src, st.out, i);
      next := st.(out := out);
    } else if c == '/' as int && i + 1 < |src| && src[i + 1] == '*' as int {
      out, end := CopyBlock(src, st.out, i);
      next := st.(out := out);
    } else if c == '/' as int && RegexCanStart(st.last) {
      var closed;
      out, end, closed := CopyRegex(src, st.out, i);
      next := st.(out := out);
      if closed { next := next.(last := '/' as int); }
    } else {
      found := false;
    }
  }

  method Pass(src: seq<byte>, css: bool) returns (out: seq<byte>)
    ensures out == Run(src, css, START).out
  {
    hide Symbol, Copied;
    var st := START;
    var i := 0;
    assert src[0..] == src;
    while i < |src|
      invariant 0 <= i <= |src| && Run(src, css, START) == Run(src[i..], css, st)
    {
      ghost var s, at := src[i..], i;
      assert s[1..] == src[i + 1..];
      var found, next, end := Copy(src, i, st);
      if found {
        assert s[end - i..] == src[end..] && s[..end - i] == src[i..end];
        i, st := end, next;
      } else {
        st := WriteSymbol(src, i, css, st);
        i := i + 1;
      }
    }
    out := st.out;
  }

  lemma CollapseStep(b: seq<byte>, i: nat, run: nat, out: seq<byte>)
    requires i < |b|
    ensures var newline := b[i] == '\n' as int;
            out + Collapse(b[i..], run)
              == (if newline && run >= 2 then out else out + [b[i]]) + Collapse(b[i + 1..], if newline then run + 1 else 0)
  {
    assert b[i..][1..] == b[i + 1..];
  }

  method CollapseBlankLines(b: seq<byte>) returns (out: seq<byte>)
    ensures out == Collapse(b, 0)
  {
    out := [];
    var nlRun: nat := 0;
    assert b[0..] == b && [] + Collapse(b, 0) == Collapse(b, 0);
    for i := 0 to |b|
      invariant Collapse(b, 0) == out + Collapse(b[i..], nlRun)
    {
      hide Collapse;
      var c := b[i];
      CollapseStep(b, i, nlRun, out);
      if c == '\n' as int {
        nlRun := nlRun + 1;
        if nlRun > 2 { continue; }
      } else {
        nlRun := 0;
      }
      out := out + [c];
    }
    assert b[|b|..] == [] && out + [] == out;
  }

  method BeautifyBraces(src: seq<byte>, css: bool) returns (res: seq<byte>, changed: bool)
    ensures res == Beautified(src, css)
    ensures changed == (res != TrimNewlines(src))
    ensures Ink(res) == Ink(src)
  {
    hide Run, Collapse, TrimNewlines, Ink;
    var out := Pass(src, css);
    out := CollapseBlankLines(out);
    res := TrimNewlines(out);
    changed := res != TrimNewlines(src);
    BeautifiedKeepsInk(src, css);
  }

  // ----- nothing visible is lost, moved or invented -----

  /** The bytes other than blanks, in order. */
  function Ink(s: seq<byte>): seq<byte> {
    if s == [] then [] else (if IsBlank(s[0]) then [] else [s[0]]) + Ink(s[1..])
  }

  lemma InkCons(s: seq<byte>)
    requires s != []
    ensures Ink(s) == (if IsBlank(s[0]) then [] else [s[0]]) + Ink(s[1..])
  {
  }

  lemma {:induction false} InkAppend(a: seq<byte>, b: seq<byte>)
    ensures Ink(a + b) == Ink(a) + Ink(b)
  {
    if a == [] {
      assert a + b == b && [] + Ink(b) == Ink(b);
    } else {
      hide Ink, IsBlank;
      var s := a + b;
      assert s[0] == a[0] && s[1..] == a[1..] + b;
      InkAppend(a[1..], b);
      InkCons(a);
      InkCons(s);
      Associative(if IsBlank(a[0]) then [] else [a[0]], Ink(a[1..]), Ink(b));
    }
  }

  lemma {:induction false} BlanksHaveNoInk(s: seq<byte>)
    requires forall c <- s :: IsBlank(c)
    ensures Ink(s) == []
  {
    if s != [] {
      assert s[0] in s;
      BlanksHaveNoInk(s[1..]);
    }
  }

  lemma {:induction false} TrimInlineKeepsInk(out: seq<byte>)
    ensures Ink(TrimInline(out)) == Ink(out)
  {
    if out != [] && IsInline(out[|out| - 1]) {
      var init, c := out[..|out| - 1], out[|out| - 1];
      TrimInlineKeepsInk(init);
      assert out == init + [c];
      InkAppend(init, [c]);
      BlanksHaveNoInk([c]);
    }
  }

  lemma {:induction false} SpacesAreBlank(indent: nat)
    ensures forall c <- Spaces(indent) :: IsInline(c)
    ensures Ink(Spaces(indent)) == []
  {
    if indent > 0 {
      SpacesAreBlank(indent - 1);
    }
    BlanksHaveNoInk(Spaces(indent));
  }

  lemma NewlineKeepsInk(out: seq<byte>, indent: nat)
    ensures Ink(Newline(out, indent)) == Ink(out)
  {
    hide TrimInline, Spaces, Ink;
    var t, nl := TrimInline(out), ['\n' as int];
    TrimInlineKeepsInk(out);
    SpacesAreBlank(indent);
    BlanksHaveNoInk(nl);
    InkAppend(t, nl);
    InkAppend(t + nl, Spaces(indent));
  }

  lemma InkPush(out: seq<byte>, c: byte)
    ensures Ink(out + [c]) == Ink(out) + if IsBlank(c) then [] else [c]
  {
    InkAppend(out, [c]);
    assert [c][1..] == [];
    assert Ink([c]) == if IsBlank(c) then [] else [c];
  }

  lemma ClosedInk(out: seq<byte>, indent: nat)
    ensures Ink(Closed(out, indent)) == Ink(out) + ['}' as int]
  {
    hide TrimInline, Spaces, Ink, AtLineStart, Newline;
    NewlineKeepsInk(out, indent);
    TrimInlineKeepsInk(out);
    SpacesAreBlank(indent);
    InkAppend(TrimInline(out), Spaces(indent));
    InkPush(TrimInline(out) + Spaces(indent), '}' as int);
    InkPush(Newline(out, indent), '}' as int);
  }

  lemma SymbolInk(c: byte, rest: seq<byte>, css: bool, st: State)
    ensures Ink(Symbol(c, rest, css, st).out) == Ink(st.out) + if IsBlank(c) then [] else [c]
  {
    hide Ink, AtLineStart, Newline, Closed, PeekNonSpace, PeekWord, Joins, Continues;
    InkPush(st.out, c);
    InkPush(st.out, ' ' as int);
    var indent := if st.indent > 0 then st.indent - 1 else 0;
    ClosedInk(st.out, indent);
    InkPush(Closed(st.out, indent), ' ' as int);
    NewlineKeepsInk(Closed(st.out, indent), indent);
    NewlineKeepsInk(st.out + [c], st.indent);
    NewlineKeepsInk(st.out + [c], st.indent + 1);
    InkPush(st.out + [c], ' ' as int);
  }

  lemma {:induction false} RunKeepsInk(s: seq<byte>, css: bool, st: State)
    ensures Ink(Run(s, css, st).out) == Ink(st.out) + Ink(s)
    decreases |s|
  {
    hide Ink, Symbol, Copied;
    if s == [] {
      BlanksHaveNoInk(s);
    } else {
      var copied := Copied(s, st.last);
      if copied.Some? {
        var (n, last) := copied.value;
        RunKeepsInk(s[n..], css, st.(out := st.out + s[..n], last := last));
        InkAppend(st.out, s[..n]);
        InkAppend(s[..n], s[n..]);
        assert s[..n] + s[n..] == s;
      } else {
        RunKeepsInk(s[1..], css, Symbol(s[0], s[1..], css, st));
        SymbolInk(s[0], s[1..], css, st);
        InkCons(s);
      }
    }
  }

  lemma {:induction false} CollapseKeepsInk(b: seq<byte>, run: nat)
    ensures Ink(Collapse(b, run)) == Ink(b)
  {
    if b == [] {
    } else {
      var c := b[0];
      var next := if c == '\n' as int then run + 1 else 0;
      CollapseKeepsInk(b[1..], next);
      var tail := Collapse(b[1..], next);
      assert ([c] + tail)[1..] == tail;
      assert [] + tail == tail;
    }
  }

  lemma {:induction false} TrimNewlinesTrims(b: seq<byte>)
    ensures var r := TrimNewlines(b);
            (r != [] ==> r[|r| - 1] != '\n' as int) && forall k | |r| <= k < |b| :: b[k] == '\n' as int
  {
    if b != [] && b[|b| - 1] == '\n' as int {
      TrimNewlinesTrims(b[..|b| - 1]);
    }
  }

  lemma TrimNewlinesKeepsInk(b: seq<byte>)
    ensures Ink(TrimNewlines(b)) == Ink(b)
  {
    hide Ink;
    hide TrimNewlines;
    TrimNewlinesTrims(b);
    var r := TrimNewlines(b);
    assert b == r + b[|r|..];
    InkAppend(r, b[|r|..]);
    BlanksHaveNoInk(b[|r|..]);
  }

  /** For every input, the visible bytes of the output are those of the input. */
  lemma BeautifiedKeepsInk(src: seq<byte>, css: bool)
    ensures Ink(Beautified(src, css)) == Ink(src)
  {
    hide Run, Collapse, TrimNewlines;
    RunKeepsInk(src, css, START);
    var out := Run(src, css, START).out;
    CollapseKeepsInk(out, 0);
    TrimNewlinesKeepsInk(Collapse(out, 0));
  }

  // ----- literals survive as they stand -----

  predicate OccursAt(part: seq<byte>, whole: seq<byte>, k: nat) {
    k + |part| <= |whole| && whole[k..k + |part|] == part
  }

  ghost predicate Occurs(part: seq<byte>, whole: seq<byte>) { exists k :: OccursAt(part, whole, k) }

  /** Nothing that a step does later reaches back over a byte that is not inline blank. */
  predicate Firm(out: seq<byte>) { out == [] || !IsInline(out[|out| - 1]) }

  lemma {:induction false} TrimStopsAt(out: seq<byte>, more: seq<byte>)
    requires Firm(out)
    ensures out <= TrimInline(out + more)
    decreases |more|
  {
    var s := out + more;
    if more == [] {
      assert s == out;
    } else if IsInline(s[|s| - 1]) {
      assert s[..|s| - 1] == out + more[..|more| - 1];
      TrimStopsAt(out, more[..|more| - 1]);
    }
  }

  lemma NewlineStaysBehind(keep: seq<byte>, out: seq<byte>, indent: nat)
    requires Firm(keep) && keep <= out
    ensures keep <= Newline(out, indent) && keep <= TrimInline(out)
  {
    hide TrimInline;
    assert out == keep + out[|keep|..];
    TrimStopsAt(keep, out[|keep|..]);
  }

  lemma SymbolStaysBehind(keep: seq<byte>, c: byte, rest: seq<byte>, css: bool, st: State)
    requires Firm(keep) && keep <= st.out
    ensures keep <= Symbol(c, rest, css, st).out
  {
    hide AtLineStart, Newline, TrimInline, Spaces, PeekNonSpace, PeekWord, Joins, Continues, Firm;
    var indent := if st.indent > 0 then st.indent - 1 else 0;
    NewlineStaysBehind(keep, st.out, indent);
    NewlineStaysBehind(keep, Closed(st.out, indent), indent);
    NewlineStaysBehind(keep, st.out + [c], st.indent);
    NewlineStaysBehind(keep, st.out + [c], st.indent + 1);
  }

  lemma {:induction false} RunStaysBehind(keep: seq<byte>, s: seq<byte>, css: bool, st: State)
    requires Firm(keep) && keep <= st.out
    ensures keep <= Run(s, css, st).out
    decreases |s|
  {
    hide Symbol, Copied, Firm;
    if s != [] {
      var copied := Copied(s, st.last);
      if copied.Some? {
        var (n, last) := copied.value;
        RunStaysBehind(keep, s[n..], css, st.(out := st.out + s[..n], last := last));
      } else {
        SymbolStaysBehind(keep, s[0], s[1..], css, st);
        RunStaysBehind(keep, s[1..], css, Symbol(s[0], s[1..], css, st));
      }
    }
  }

  lemma {:induction false} CollapseAround(a: seq<byte>, m: seq<byte>, run: nat) returns (x: seq<byte>, at: nat)
    ensures Collapse(a + m, run) == x + Collapse(m, at)
    decreases |a|
  {
    if a == [] {
      x, at := [], run;
      assert a + m == m && x + Collapse(m, run) == Collapse(m, run);
    } else {
      var newline := a[0] == '\n' as int;
      x, at := CollapseAround(a[1..], m, if newline then run + 1 else 0);
      assert (a + m)[0] == a[0] && (a + m)[1..] == a[1..] + m;
      var head := if newline && run >= 2 then [] else [a[0]];
      assert head + (x + Collapse(m, at)) == head + x + Collapse(m, at);
      x := head + x;
    }
  }

  lemma {:induction false} CollapsePasses(lit: seq<byte>, b: seq<byte>, run: nat)
    requires NoBlankRuns(lit, run) && lit != [] && lit[|lit| - 1] != '\n' as int
    ensures Collapse(lit + b, run) == lit + Collapse(b, 0)
    decreases |lit|
  {
    var s, c := lit + b, lit[0];
    assert s[0] == c && s[1..] == lit[1..] + b;
    if |lit| == 1 {
      assert s[1..] == b && lit == [c];
    } else {
      hide Collapse;
      NoBlankRunsRest(lit, run);
      var next := if c == '\n' as int then run + 1 else 0;
      CollapsePasses(lit[1..], b, next);
      CollapseFirst(s, run);
      assert [c] + (lit[1..] + Collapse(b, 0)) == lit + Collapse(b, 0);
    }
  }

  lemma CollapseFirst(b: seq<byte>, run: nat)
    requires b != [] && (b[0] == '\n' as int ==> run < 2)
    ensures Collapse(b, run) == [b[0]] + Collapse(b[1..], if b[0] == '\n' as int then run + 1 else 0)
  {
  }

  lemma TrimLeavesLiteral(x: seq<byte>, lit: seq<byte>, y: seq<byte>)
    requires lit != [] && lit[|lit| - 1] != '\n' as int
    ensures Occurs(lit, TrimNewlines(x + lit + y))
  {
    var s := x + lit + y;
    var r := TrimNewlines(s);
    var e := |x| + |lit|;
    assert s[e - 1] == lit[|lit| - 1];
    TrimNewlinesTrims(s);
    assert |r| >= e;
    assert r[|x|..e] == s[|x|..e] == lit;
    assert OccursAt(lit, r, |x|);
  }

  /**
   A copied literal whose last byte is no white space stands in the result as it stood in the source
   if and only if it holds no three newlines in a row.
   */
  lemma CopiedSurvives(s: seq<byte>, css: bool, st: State)
    requires s != [] && Copied(s, st.last).Some?
    ensures var lit := s[..Copied(s, st.last).value.0];
            Firm(lit) && lit[|lit| - 1] != '\n' as int ==>
            (Occurs(lit, TrimNewlines(Collapse(Run(s, css, st).out, 0))) <==> NoBlankRuns(lit, 0))
  {
    hide Copied, Collapse, TrimNewlines, Occurs, Run, NoBlankRuns;
    var (n, last) := Copied(s, st.last).value;
    var lit, out := s[..n], Run(s, css, st).out;
    var r := TrimNewlines(Collapse(out, 0));
    if Occurs(lit, r) {
      CollapseLimits(out, 0);
      NoBlankRunsPrefix(r, Collapse(out, 0));
      NoBlankRunsPart(lit, r);
    }
    if NoBlankRuns(lit, 0) && Firm(lit) && lit[n - 1] != '\n' as int {
      CopiedStays(s, css, st);
    }
  }

  lemma CopiedStays(s: seq<byte>, css: bool, st: State)
    requires s != [] && Copied(s, st.last).Some?
    requires var lit := s[..Copied(s, st.last).value.0];
             Firm(lit) && lit[|lit| - 1] != '\n' as int && NoBlankRuns(lit, 0)
    ensures Occurs(s[..Copied(s, st.last).value.0], TrimNewlines(Collapse(Run(s, css, st).out, 0)))
  {
    CopiedStarts(s, st.last);
    hide Copied, Collapse, TrimNewlines, Occurs;
    var (n, last) := Copied(s, st.last).value;
    var lit := s[..n];
    var keep := st.out + lit;
    assert keep[|keep| - 1] == lit[n - 1];
    RunStaysBehind(keep, s[n..], css, st.(out := keep, last := last));
    hide Run, Firm;
    var out := Run(s, css, st).out;
    var more := out[|keep|..];
    assert out == st.out + (lit + more);
    var x, run := CollapseAround(st.out, lit + more, 0);
    CollapsePasses(lit, more, run);
    Associative(x, lit, Collapse(more, 0));
    TrimLeavesLiteral(x, lit, Collapse(more, 0));
  }

  lemma CopiedStarts(s: seq<byte>, last: byte)
    requires s != [] && Copied(s, last).Some?
    ensures s[0] != '\n' as int
  {
    hide QuotedLen, BlockLen, RegexLen, SpanLen, RegexCanStart;
  }

  // ----- blank lines -----

  predicate NewlineAt(b: seq<byte>, k: nat) { k < |b| && b[k] == '\n' as int }

  /** No three newlines in a row, nor across the `run` newlines in front. */
  ghost predicate NoBlankRuns(b: seq<byte>, run: nat) {
    && (forall k: nat :: !(NewlineAt(b, k) && NewlineAt(b, k + 1) && NewlineAt(b, k + 2)))
    && (run >= 1 ==> !(NewlineAt(b, 0) && NewlineAt(b, 1)))
    && (run >= 2 ==> !NewlineAt(b, 0))
  }

  lemma NoBlankRunsRest(b: seq<byte>, run: nat)
    requires NoBlankRuns(b, run) && b != []
    ensures NoBlankRuns(b[1..], if b[0] == '\n' as int then run + 1 else 0)
  {
    var t := b[1..];
    forall k: nat ensures NewlineAt(t, k) == NewlineAt(b, k + 1) {
    }
  }

  lemma NoBlankRunsPrefix(a: seq<byte>, b: seq<byte>)
    requires a <= b && NoBlankRuns(b, 0)
    ensures NoBlankRuns(a, 0)
  {
    assert forall k: nat | NewlineAt(a, k) :: NewlineAt(b, k);
  }

  lemma NoBlankRunsPart(part: seq<byte>, whole: seq<byte>)
    requires Occurs(part, whole) && NoBlankRuns(whole, 0)
    ensures NoBlankRuns(part, 0)
  {
    var at: nat :| OccursAt(part, whole, at);
    forall k: nat ensures !(NewlineAt(part, k) && NewlineAt(part, k + 1) && NewlineAt(part, k + 2)) {
      PartAt(part, whole, at, k);
      PartAt(part, whole, at, k + 1);
      PartAt(part, whole, at, k + 2);
      assert !(NewlineAt(whole, at + k) && NewlineAt(whole, at + k + 1) && NewlineAt(whole, at + k + 2));
    }
  }

  lemma PartAt(part: seq<byte>, whole: seq<byte>, at: nat, k: nat)
    requires OccursAt(part, whole, at)
    ensures NewlineAt(part, k) ==> NewlineAt(whole, at + k)
  {
    assert k < |part| ==> whole[at..at + |part|][k] == whole[at + k];
  }

  lemma {:induction false} CollapseLimits(b: seq<byte>, run: nat)
    ensures NoBlankRuns(Collapse(b, run), run)
  {
    if b == [] {
    } else if b[0] == '\n' as int {
      CollapseLimits(b[1..], run + 1);
      var tail := Collapse(b[1..], run + 1);
      if run >= 2 {
        assert [] + tail == tail;
      } else {
        NoBlankRunsCons(b[0], tail, run);
      }
    } else {
      CollapseLimits(b[1..], 0);
      NoBlankRunsCons(b[0], Collapse(b[1..], 0), run);
    }
  }

  lemma NoBlankRunsCons(c: byte, tail: seq<byte>, run: nat)
    requires NoBlankRuns(tail, if c == '\n' as int then run + 1 else 0) && (c == '\n' as int ==> run < 2)
    ensures NoBlankRuns([c] + tail, run)
  {
    var s := [c] + tail;
    forall k: nat | k > 0 ensures NewlineAt(s, k) == NewlineAt(tail, k - 1) {
    }
    forall k: nat ensures !(NewlineAt(s, k) && NewlineAt(s, k + 1) && NewlineAt(s, k + 2)) {
      if k > 0 {
        assert !(NewlineAt(tail, k - 1) && NewlineAt(tail, k) && NewlineAt(tail, k + 1));
      }
    }
  }

  /** The result has at most one blank line in a row and none at its end. */
  lemma BeautifiedIsTight(src: seq<byte>, css: bool)
    ensures var r := Beautified(src, css); NoBlankRuns(r, 0) && (r != [] ==> r[|r| - 1] != '\n' as int)
  {
    hide Run, Collapse, TrimNewlines;
    var b := Collapse(Run(src, css, START).out, 0);
    CollapseLimits(Run(src, css, START).out, 0);
    TrimNewlinesTrims(b);
    NoBlankRunsPrefix(TrimNewlines(b), b);
  }
}
