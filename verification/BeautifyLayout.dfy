/**
 The layout the beautifier gives a text with braces, said item by item: what stands between two
 pieces of the source depends on the braces and parentheses open there and on the two pieces alone.
 */
module BeautifyLayout {
  import opened Bytes
  import opened Beautify

  // ----- the pieces of the source -----

  /**
   A literal copied as it stands or one byte of ink, and the source behind it. Blanks at the end of a
   literal, which only a line comment or an unfinished literal has, are its tail.
   */
  datatype Item = Item(text: seq<byte>, lit: bool, tail: seq<byte>, rest: seq<byte>)

  function Literal(lit: seq<byte>, rest: seq<byte>): Item {
    var t := TrimInline(lit);
    Item(t, true, lit[|t|..], rest)
  }

  function Items(s: seq<byte>, last: byte): seq<Item>
    decreases |s|
  {
    if s == [] then []
    else
      var copied := Copied(s, last);
      if copied.Some? then
        var (n, l) := copied.value;
        [Literal(s[..n], s[n..])] + Items(s[n..], l)
      else if IsBlank(s[0]) then Items(s[1..], last)
      else [Item([s[0]], false, [], s[1..])] + Items(s[1..], s[0])
  }

  predicate Is(it: Item, c: byte) { !it.lit && it.text == [c] }

  function Less(n: nat): nat { if n > 0 then n - 1 else 0 }

  /** The braces open behind the items; a closing one too many counts for nothing. */
  function Depth(items: seq<Item>): nat {
    if items == [] then 0
    else
      var n, it := |items| - 1, items[|items| - 1];
      if Is(it, '{' as int) then Depth(items[..n]) + 1 else if Is(it, '}' as int) then Less(Depth(items[..n])) else Depth(items[..n])
  }

  /** The parentheses open behind the items. */
  function Parens(items: seq<Item>): nat {
    if items == [] then 0
    else
      var n, it := |items| - 1, items[|items| - 1];
      if Is(it, '(' as int) then Parens(items[..n]) + 1 else if Is(it, ')' as int) then Less(Parens(items[..n])) else Parens(items[..n])
  }

  /** An opening brace ends its line; so does a semicolon outside parentheses, and a closing brace that nothing joins. */
  predicate EndsLine(items: seq<Item>, css: bool) {
    items != [] &&
    var it := items[|items| - 1];
    || Is(it, '{' as int)
    || (Is(it, ';' as int) && Parens(items) == 0)
    || (Is(it, '}' as int) && !Joins(PeekNonSpace(it.rest), css) && !Continues(PeekWord(it.rest)))
  }

  const BLANK: seq<byte> := [' ' as int]

  /** The blanks put behind the last item on its line. */
  function Lead(items: seq<Item>, css: bool): seq<byte>
    requires items != []
  {
    var it := items[|items| - 1];
    if it.lit then it.tail
    else if Is(it, ';' as int) && Parens(items) > 0 && PeekNonSpace(it.rest) != 0 && PeekNonSpace(it.rest) != ')' as int then BLANK
    else if Is(it, '}' as int) && !Joins(PeekNonSpace(it.rest), css) && Continues(PeekWord(it.rest)) then BLANK
    else []
  }

  /** Inline blanks as spaces, line ends as nothing. */
  function Blanks(b: seq<byte>): seq<byte> {
    if b == [] then [] else Blanks(b[..|b| - 1]) + if IsInline(b[|b| - 1]) then BLANK else []
  }

  function NewLine(depth: nat): seq<byte> { ['\n' as int] + Spaces(depth) }

  /** What stands between these items and the next one, or the end. */
  function Gap(items: seq<Item>, css: bool, next: Option<Item>): seq<byte> {
    if items == [] then []
    else if next.Some? && Is(next.value, '}' as int) then NewLine(Less(Depth(items)))
    else if EndsLine(items, css) then NewLine(Depth(items))
    else
      var rest := items[|items| - 1].rest;
      Lead(items, css) + Blanks(rest[..SpanLen(rest, IsBlank)])
  }

  function Body(items: seq<Item>, css: bool): seq<byte> {
    if items == [] then []
    else
      var n, it := |items| - 1, items[|items| - 1];
      Body(items[..n], css) + Gap(items[..n], css, Some(it)) + it.text
  }

  /** The items laid out. */
  function Laid(items: seq<Item>, css: bool): seq<byte> {
    Body(items, css) + Gap(items, css, None)
  }

  lemma BodyNext(items: seq<Item>, it: Item, css: bool)
    ensures Body(items + [it], css) == Body(items, css) + Gap(items, css, Some(it)) + it.text
    ensures Depth(items + [it]) == if Is(it, '{' as int) then Depth(items) + 1 else if Is(it, '}' as int) then Less(Depth(items)) else Depth(items)
    ensures Parens(items + [it]) == if Is(it, '(' as int) then Parens(items) + 1 else if Is(it, ')' as int) then Less(Parens(items)) else Parens(items)
  {
    assert (items + [it])[..|items|] == items;
  }

  // ----- the pass lays out -----

  predicate AllInline(b: seq<byte>) { forall c <- b :: IsInline(c) }

  predicate AllBlank(b: seq<byte>) { forall c <- b :: IsBlank(c) }

  /** The text ends in a byte that is neither an inline blank nor a newline. */
  predicate Inked(out: seq<byte>) { out != [] && !IsInline(out[|out| - 1]) && out[|out| - 1] != '\n' as int }

  /** What stands behind the last item before the next one is known; `b` are the blanks passed since. */
  function Pending(items: seq<Item>, css: bool, b: seq<byte>): seq<byte> {
    if items == [] then []
    else if EndsLine(items, css) then NewLine(Depth(items))
    else Lead(items, css) + Blanks(b)
  }

  /** The pass has laid out these items and passed the blanks `b` behind them; `s` is left. */
  predicate Mid(st: State, css: bool, items: seq<Item>, b: seq<byte>, s: seq<byte>) {
    && st.indent == Depth(items) && st.paren == Parens(items) && AllBlank(b)
    && st.out == Body(items, css) + Pending(items, css, b)
    && (items != [] ==>
         var it := items[|items| - 1];
         it.rest == b + s && AllInline(it.tail) && (s != [] ==> Inked(Body(items, css))))
  }

  lemma {:induction false} TrimGap(out: seq<byte>, b: seq<byte>)
    requires AllInline(b) && Firm(out)
    ensures TrimInline(out + b) == out
    decreases |b|
  {
    if b == [] {
      assert out + b == out;
    } else {
      var n := |b| - 1;
      assert b[n] in b && (out + b)[|out + b| - 1] == b[n];
      assert (out + b)[..|out + b| - 1] == out + b[..n];
      TrimGap(out, b[..n]);
    }
  }

  lemma {:induction false} SpacesInline(n: nat)
    ensures AllInline(Spaces(n)) && |Spaces(n)| == 2 * n && forall c <- Spaces(n) :: c == ' ' as int
  {
    if n > 0 {
      SpacesInline(n - 1);
    }
  }

  lemma {:induction false} BlanksInline(b: seq<byte>)
    ensures AllInline(Blanks(b))
  {
    if b != [] {
      BlanksInline(b[..|b| - 1]);
    }
  }

  lemma LeadInline(items: seq<Item>, css: bool)
    requires items != [] && AllInline(items[|items| - 1].tail)
    ensures AllInline(Lead(items, css))
  {
    hide Joins, Continues, PeekWord, PeekNonSpace, Parens;
  }

  /** Where the pass stands decides what it sees of its own output. */
  lemma PendingSeen(st: State, css: bool, items: seq<Item>, b: seq<byte>, s: seq<byte>)
    requires Mid(st, css, items, b, s) && s != []
    ensures AtLineStart(st.out) <==> items == [] || EndsLine(items, css)
    ensures items == [] ==> st.out == []
    ensures items != [] && EndsLine(items, css) ==> TrimInline(st.out) == Body(items, css) + ['\n' as int]
    ensures items != [] && !EndsLine(items, css) ==> TrimInline(st.out) == Body(items, css)
  {
    hide EndsLine, Lead, Blanks, Depth, Parens, Body;
    if items == [] {
      NothingLaid(css);
    } else {
      var body := Body(items, css);
      if EndsLine(items, css) {
        SpacesInline(Depth(items));
        Associative(body, ['\n' as int], Spaces(Depth(items)));
        TrimGap(body + ['\n' as int], Spaces(Depth(items)));
      } else {
        LeadInline(items, css);
        BlanksInline(b);
        TrimGap(body, Lead(items, css) + Blanks(b));
      }
    }
  }

  lemma NothingLaid(css: bool)
    ensures Body([], css) == [] && Depth([]) == 0 && Parens([]) == 0 && TrimInline([]) == []
  {
  }

  /** The gap in front of a next item is what is pending, unless a brace closes. */
  lemma GapIsPending(items: seq<Item>, css: bool, b: seq<byte>, s: seq<byte>, next: Option<Item>)
    requires items != [] ==> items[|items| - 1].rest == b + s && AllBlank(b)
    requires s == [] || !IsBlank(s[0])
    requires next.Some? ==> !Is(next.value, '}' as int)
    ensures Gap(items, css, next) == Pending(items, css, b)
  {
    hide EndsLine, Lead, Blanks, Depth;
    if items != [] {
      BlankSpan(b, s);
      assert (b + s)[..|b|] == b;
    }
  }

  lemma {:induction false} BlankSpan(b: seq<byte>, s: seq<byte>)
    requires AllBlank(b) && (s == [] || !IsBlank(s[0]))
    ensures SpanLen(b + s, IsBlank) == |b|
    decreases |b|
  {
    if b == [] {
      assert b + s == s;
    } else {
      assert b[0] in b && (b + s)[0] == b[0] && (b + s)[1..] == b[1..] + s;
      BlankSpan(b[1..], s);
    }
  }

  /** A blank is passed. */
  lemma BlankLaid(c: byte, s: seq<byte>, css: bool, st: State, items: seq<Item>, b: seq<byte>)
    requires IsBlank(c) && Mid(st, css, items, b, [c] + s)
    ensures Mid(Symbol(c, s, css, st), css, items, b + [c], s)
    ensures Symbol(c, s, css, st).last == st.last
  {
    hide EndsLine, Lead, Depth, Parens, Body, AtLineStart, AfterBrace, AfterSemicolon, Closed, Newline, Blanks, NewLine;
    PendingSeen(st, css, items, b, [c] + s);
    assert b + ([c] + s) == b + [c] + s;
    BlanksNext(b, c);
    if items != [] && !EndsLine(items, css) && IsInline(c) {
      Associative(Body(items, css), Lead(items, css) + Blanks(b), BLANK);
      Associative(Lead(items, css), Blanks(b), BLANK);
    }
  }

  lemma BlanksNext(b: seq<byte>, c: byte)
    ensures Blanks(b + [c]) == if IsInline(c) then Blanks(b) + BLANK else Blanks(b)
  {
    assert (b + [c])[..|b|] == b && Blanks(b) + [] == Blanks(b);
  }

  /** The state behind an item, once its own text and what it ends its line with are known. */
  lemma MidNext(st: State, css: bool, items: seq<Item>, it: Item, front: seq<byte>)
    requires front == Body(items, css) + Gap(items, css, Some(it))
    requires AllInline(it.tail) && (it.rest != [] ==> Inked(it.text))
    requires var more := items + [it];
             st.indent == Depth(more) && st.paren == Parens(more)
             && st.out == front + it.text + Pending(more, css, [])
    ensures Mid(st, css, items + [it], [], it.rest)
  {
    hide Gap, Depth, Parens, Pending, Body;
    BodyNext(items, it, css);
    var body := Body(items + [it], css);
    assert it.text != [] ==> body[|body| - 1] == it.text[|it.text| - 1];
    assert [] + it.rest == it.rest;
  }

  predicate Plainly(c: byte) {
    c != '{' as int && c != '}' as int && c != ';' as int && c != '(' as int && c != ')' as int && !IsBlank(c)
  }

  function Single(c: byte, rest: seq<byte>): Item { Item([c], false, [], rest) }

  /** A byte that is no closing brace goes straight behind what is pending. */
  lemma FrontOf(c: byte, s: seq<byte>, css: bool, st: State, items: seq<Item>, b: seq<byte>)
    requires !IsBlank(c) && Mid(st, css, items, b, [c] + s) && c != '}' as int
    ensures st.out == Body(items, css) + Gap(items, css, Some(Single(c, s)))
  {
    hide Gap, Pending, Body, Depth, Parens;
    GapIsPending(items, css, b, [c] + s, Some(Single(c, s)));
  }

  lemma {:induction false} FirmTrim(out: seq<byte>)
    requires Firm(out)
    ensures TrimInline(out) == out
  {
  }

  lemma PendingPlain(items: seq<Item>, c: byte, s: seq<byte>, css: bool)
    requires c != '{' as int && c != '}' as int && c != ';' as int
    ensures Pending(items + [Single(c, s)], css, []) == []
  {
    hide Depth, Parens, Joins, Continues, PeekWord, PeekNonSpace;
  }

  lemma PendingOpen(items: seq<Item>, s: seq<byte>, css: bool)
    ensures Pending(items + [Single('{' as int, s)], css, []) == NewLine(Depth(items) + 1)
  {
    hide Joins, Continues, PeekWord, PeekNonSpace, Parens;
    BodyNext(items, Single('{' as int, s), css);
  }

  lemma PendingSemicolon(items: seq<Item>, s: seq<byte>, css: bool)
    ensures Pending(items + [Single(';' as int, s)], css, []) ==
            if Parens(items) == 0 then NewLine(Depth(items))
            else if PeekNonSpace(s) != 0 && PeekNonSpace(s) != ')' as int then BLANK else []
  {
    BodyNext(items, Single(';' as int, s), css);
    hide Joins, Continues, PeekWord, PeekNonSpace, Parens, Depth, NewLine;
  }

  lemma PendingClose(items: seq<Item>, s: seq<byte>, css: bool)
    ensures Pending(items + [Single('}' as int, s)], css, []) ==
            if Joins(PeekNonSpace(s), css) then [] else if Continues(PeekWord(s)) then BLANK else NewLine(Less(Depth(items)))
  {
    BodyNext(items, Single('}' as int, s), css);
    hide Joins, Continues, PeekWord, PeekNonSpace, Parens, Depth, NewLine;
  }

  lemma OpenLaid(s: seq<byte>, css: bool, st: State, items: seq<Item>, b: seq<byte>)
    requires Mid(st, css, items, b, ['{' as int] + s)
    ensures Mid(Symbol('{' as int, s, css, st), css, items + [Single('{' as int, s)], [], s)
  {
    hide Gap, Body, Parens, TrimInline, AfterBrace, AfterSemicolon, Closed, Pending, Depth;
    var c: byte := '{' as int;
    var it := Single(c, s);
    FrontOf(c, s, css, st, items, b);
    BodyNext(items, it, css);
    PendingOpen(items, s, css);
    FirmTrim(st.out + [c]);
    Associative(st.out + [c], ['\n' as int], Spaces(st.indent + 1));
    MidNext(Symbol(c, s, css, st), css, items, it, st.out);
  }

  lemma ParenLaid(c: byte, s: seq<byte>, css: bool, st: State, items: seq<Item>, b: seq<byte>)
    requires Mid(st, css, items, b, [c] + s) && (c == '(' as int || c == ')' as int || Plainly(c))
    ensures Mid(Symbol(c, s, css, st), css, items + [Single(c, s)], [], s)
  {
    hide Gap, Body, TrimInline, AfterBrace, AfterSemicolon, Closed, Newline, AtLineStart, Pending, Depth, Parens;
    var it := Single(c, s);
    FrontOf(c, s, css, st, items, b);
    BodyNext(items, it, css);
    PendingPlain(items, c, s, css);
    assert st.out + [c] + [] == st.out + [c];
    MidNext(Symbol(c, s, css, st), css, items, it, st.out);
  }

  lemma SemicolonLaid(s: seq<byte>, css: bool, st: State, items: seq<Item>, b: seq<byte>)
    requires Mid(st, css, items, b, [';' as int] + s)
    ensures Mid(Symbol(';' as int, s, css, st), css, items + [Single(';' as int, s)], [], s)
  {
    hide Gap, Body, TrimInline, AfterBrace, Closed, AtLineStart, PeekNonSpace, Pending, Depth, Parens;
    var c: byte := ';' as int;
    var it := Single(c, s);
    FrontOf(c, s, css, st, items, b);
    BodyNext(items, it, css);
    PendingSemicolon(items, s, css);
    FirmTrim(st.out + [c]);
    Associative(st.out + [c], ['\n' as int], Spaces(st.indent));
    assert st.out + [c] + [] == st.out + [c];
    MidNext(Symbol(c, s, css, st), css, items, it, st.out);
  }

  /** Where a closing brace goes. */
  lemma ClosedLaid(s: seq<byte>, css: bool, st: State, items: seq<Item>, b: seq<byte>)
    requires Mid(st, css, items, b, ['}' as int] + s)
    ensures var it := Single('}' as int, s);
            Closed(st.out, Less(st.indent)) == Body(items, css) + Gap(items, css, Some(it)) + it.text
  {
    hide Body, TrimInline, Joins, Continues, EndsLine, AtLineStart;
    PendingSeen(st, css, items, b, ['}' as int] + s);
    var it := Single('}' as int, s);
    if items == [] {
      NothingLaid(css);
    } else {
      var body, d := Body(items, css), Less(Depth(items));
      Associative(body, ['\n' as int], Spaces(d));
    }
  }

  lemma CloseLaid(s: seq<byte>, css: bool, st: State, items: seq<Item>, b: seq<byte>)
    requires Mid(st, css, items, b, ['}' as int] + s)
    ensures Mid(Symbol('}' as int, s, css, st), css, items + [Single('}' as int, s)], [], s)
  {
    ClosedLaid(s, css, st, items, b);
    hide Gap, Body, TrimInline, Closed, Joins, Continues, AtLineStart, PeekNonSpace, PeekWord, Pending, Depth, Parens;
    var c: byte := '}' as int;
    var it := Single(c, s);
    BodyNext(items, it, css);
    PendingClose(items, s, css);
    var front := Body(items, css) + Gap(items, css, Some(it));
    var out := front + [c];
    FirmTrim(out);
    Associative(out, ['\n' as int], Spaces(Less(st.indent)));
    assert out + [] == out;
    MidNext(Symbol(c, s, css, st), css, items, it, front);
  }

  lemma SymbolLaid(c: byte, s: seq<byte>, css: bool, st: State, items: seq<Item>, b: seq<byte>)
    requires !IsBlank(c) && Mid(st, css, items, b, [c] + s)
    ensures Mid(Symbol(c, s, css, st), css, items + [Single(c, s)], [], s)
    ensures Symbol(c, s, css, st).last == c
  {
    if c == '{' as int {
      OpenLaid(s, css, st, items, b);
    } else if c == '}' as int {
      CloseLaid(s, css, st, items, b);
    } else if c == ';' as int {
      SemicolonLaid(s, css, st, items, b);
    } else {
      ParenLaid(c, s, css, st, items, b);
    }
    hide Mid, Newline, AfterBrace, AfterSemicolon, Closed, AtLineStart;
  }

  // ----- literals -----

  lemma {:induction false} TrimTail(b: seq<byte>)
    ensures Firm(TrimInline(b)) && AllInline(b[|TrimInline(b)|..])
  {
    if b != [] && IsInline(b[|b| - 1]) {
      var n := |b| - 1;
      TrimTail(b[..n]);
      var t := TrimInline(b[..n]);
      assert b[|t|..] == b[..n][|t|..] + [b[n]];
    }
  }

  lemma {:induction false} QuotedEnds(s: seq<byte>, quote: byte)
    requires QuotedLen(s, quote) < |s|
    ensures var n := QuotedLen(s, quote); n > 0 && s[n - 1] == quote
  {
    if s != [] && !(s[0] == '\\' as int && |s| > 1) && s[0] == quote {
    } else if s[0] == '\\' as int && |s| > 1 {
      QuotedEnds(s[2..], quote);
    } else {
      QuotedEnds(s[1..], quote);
    }
  }

  lemma {:induction false} BlockEnds(s: seq<byte>)
    requires BlockLen(s) < |s|
    ensures var n := BlockLen(s); n > 0 && s[n - 1] == '/' as int
  {
    if !(s[0] == '*' as int && At(s, 1, '/')) {
      BlockEnds(s[1..]);
    }
  }

  lemma {:induction false} RegexEnds(s: seq<byte>, inClass: bool)
    requires RegexLen(s, inClass).0 < |s|
    ensures var n := RegexLen(s, inClass).0; n > 0 && s[n - 1] == '/' as int
  {
    if s[0] == '\\' as int && |s| > 1 {
      RegexEnds(s[2..], inClass);
    } else if !(s[0] == '/' as int && !inClass) {
      RegexEnds(s[1..], if s[0] == '[' as int then true else if s[0] == ']' as int then false else inClass);
    }
  }

  /** A literal with anything behind it has ink at its end, blanks apart. */
  lemma LiteralInked(s: seq<byte>, last: byte)
    requires s != [] && Copied(s, last).Some?
    ensures var n := Copied(s, last).value.0; !IsBlank(s[0]) && (n < |s| ==> Inked(TrimInline(s[..n])))
  {
    hide RegexCanStart, QuotedLen, BlockLen, RegexLen;
    var n := Copied(s, last).value.0;
    var lit, c := s[..n], s[0];
    if n < |s| {
      TrimTail(lit);
      if c == '/' as int && At(s, 1, '/') && !IsQuote(c) {
        LineInked(lit);
      } else {
        if IsQuote(c) {
          QuotedEnds(s[1..], c);
        } else if c == '/' as int && At(s, 1, '*') {
          BlockEnds(s[2..]);
        } else {
          RegexEnds(s[1..], false);
        }
        assert lit[n - 1] == s[n - 1] && !IsInline(lit[n - 1]);
      }
    }
  }

  lemma LineInked(lit: seq<byte>)
    requires lit != [] && lit[0] == '/' as int && forall k | 0 <= k < |lit| :: NotNewline(lit[k])
    ensures Inked(TrimInline(lit))
  {
    var t := TrimInline(lit);
    TrimTail(lit);
    var tail := lit[|t|..];
    assert tail != [] ==> tail[0] in tail;
  }

  lemma LiteralLaid(s: seq<byte>, css: bool, st: State, items: seq<Item>, b: seq<byte>)
    requires s != [] && Copied(s, st.last).Some? && Mid(st, css, items, b, s)
    ensures var (n, last) := Copied(s, st.last).value;
            Mid(st.(out := st.out + s[..n], last := last), css, items + [Literal(s[..n], s[n..])], [], s[n..])
  {
    hide Copied, Gap, Body, TrimInline, Joins, Continues, PeekNonSpace, PeekWord, Depth, Parens;
    var (n, last) := Copied(s, st.last).value;
    var lit, it := s[..n], Literal(s[..n], s[n..]);
    LiteralInked(s, st.last);
    TrimTail(lit);
    BodyNext(items, it, css);
    GapIsPending(items, css, b, s, Some(it));
    var more := items + [it];
    assert more[|more| - 1] == it;
    assert Pending(more, css, []) == it.tail + [] == it.tail;
    assert lit == it.text + it.tail;
    Associative(st.out, it.text, it.tail);
    MidNext(st.(out := st.out + lit, last := last), css, items, it, st.out);
  }

  // ----- the whole pass -----

  lemma {:induction false} RunLaid(s: seq<byte>, css: bool, st: State, items: seq<Item>, b: seq<byte>)
    requires Mid(st, css, items, b, s)
    ensures Run(s, css, st).out == Laid(items + Items(s, st.last), css)
    decreases |s|
  {
    hide Copied, Mid, Symbol, Body, Gap, Pending, Literal;
    if s == [] {
      RunEnds(css, st, items, b);
    } else {
      assert s == [s[0]] + s[1..];
      var copied := Copied(s, st.last);
      if copied.Some? {
        var (n, last) := copied.value;
        LiteralLaid(s, css, st, items, b);
        RunLaid(s[n..], css, st.(out := st.out + s[..n], last := last), items + [Literal(s[..n], s[n..])], []);
        Associative(items, [Literal(s[..n], s[n..])], Items(s[n..], last));
      } else if IsBlank(s[0]) {
        BlankLaid(s[0], s[1..], css, st, items, b);
        RunLaid(s[1..], css, Symbol(s[0], s[1..], css, st), items, b + [s[0]]);
      } else {
        SymbolLaid(s[0], s[1..], css, st, items, b);
        RunLaid(s[1..], css, Symbol(s[0], s[1..], css, st), items + [Single(s[0], s[1..])], []);
        Associative(items, [Single(s[0], s[1..])], Items(s[1..], s[0]));
      }
    }
  }

  lemma RunEnds(css: bool, st: State, items: seq<Item>, b: seq<byte>)
    requires Mid(st, css, items, b, [])
    ensures Run([], css, st).out == Laid(items + Items([], st.last), css)
  {
    hide Body, Gap, Pending, Depth, Parens;
    GapIsPending(items, css, b, [], None);
    assert items + [] == items;
  }

  /** The pass is the layout of the items, for every input. */
  lemma RunIsLaid(src: seq<byte>, css: bool)
    ensures Run(src, css, START).out == Laid(Items(src, 0), css)
  {
    NothingLaid(css);
    RunLaid(src, css, START, [], []);
    assert [] + Items(src, 0) == Items(src, 0);
  }

  // ----- the result -----

  predicate WellItem(it: Item) {
    && it.text != [] && it.text[0] != '\n' as int && AllInline(it.tail)
    && (!it.lit ==> |it.text| == 1 && it.tail == [])
    && (it.rest != [] ==> Inked(it.text))
    && (it.rest == [] ==> it.lit || it.text[|it.text| - 1] != '\n' as int)
  }

  ghost predicate WellItems(items: seq<Item>) {
    && (forall it <- items :: WellItem(it))
    && (forall i | 0 <= i < |items| - 1 :: items[i].rest != [])
  }

  lemma LiteralWell(s: seq<byte>, last: byte)
    requires s != [] && Copied(s, last).Some?
    ensures var n := Copied(s, last).value.0; WellItem(Literal(s[..n], s[n..]))
  {
    hide Copied;
    var n := Copied(s, last).value.0;
    LiteralInked(s, last);
    TrimTail(s[..n]);
    var t := TrimInline(s[..n]);
    FirstStays(s[..n]);
  }

  lemma FirstStays(lit: seq<byte>)
    requires lit != [] && !IsBlank(lit[0])
    ensures TrimInline(lit) != [] && TrimInline(lit)[0] == lit[0]
  {
    var t := TrimInline(lit);
    TrimTail(lit);
    var tail := lit[|t|..];
    assert tail != [] ==> tail[0] in tail;
  }

  lemma WellCons(it: Item, items: seq<Item>)
    requires WellItem(it) && WellItems(items) && (items != [] ==> it.rest != [])
    ensures WellItems([it] + items)
  {
    hide WellItem;
    var all := [it] + items;
    forall i | 0 <= i < |all| - 1 ensures all[i].rest != [] {
      assert all[i] == if i == 0 then it else items[i - 1];
    }
  }

  lemma {:induction false} ItemsWell(s: seq<byte>, last: byte)
    ensures WellItems(Items(s, last))
    decreases |s|
  {
    hide Copied, WellItem, WellItems, Literal;
    if s == [] {
      NoItemsWell();
    } else {
      var copied := Copied(s, last);
      if copied.Some? {
        var (n, l) := copied.value;
        ItemsWell(s[n..], l);
        LiteralWell(s, last);
        LiteralRest(s[..n], s[n..]);
        WellCons(Literal(s[..n], s[n..]), Items(s[n..], l));
      } else if IsBlank(s[0]) {
        ItemsWell(s[1..], last);
      } else {
        ItemsWell(s[1..], s[0]);
        SingleWell(s[0], s[1..]);
        WellCons(Single(s[0], s[1..]), Items(s[1..], s[0]));
      }
    }
  }

  lemma NoItemsWell()
    ensures WellItems([])
  {
  }

  lemma LiteralRest(lit: seq<byte>, rest: seq<byte>)
    ensures Literal(lit, rest).rest == rest
  {
  }

  lemma SingleWell(c: byte, rest: seq<byte>)
    requires !IsBlank(c)
    ensures WellItem(Single(c, rest))
  {
  }

  /** In a literal, of each run of newlines the first two stay. */
  function Squeeze(it: Item): Item { it.(text := Collapse(it.text, 0)) }

  function Squeezed(items: seq<Item>): (r: seq<Item>)
    ensures |r| == |items|
  {
    seq(|items|, i requires 0 <= i < |items| => Squeeze(items[i]))
  }

  lemma SqueezedInit(items: seq<Item>)
    requires items != []
    ensures var n := |items| - 1;
            Squeezed(items)[..n] == Squeezed(items[..n]) && Squeezed(items)[n] == Squeeze(items[n])
  {
    hide Squeeze;
  }

  lemma WellInit(items: seq<Item>)
    requires WellItems(items) && items != []
    ensures var n := |items| - 1;
            WellItems(items[..n]) && WellItem(items[n]) && (n > 0 ==> items[n - 1].rest != [] && WellItem(items[n - 1]))
  {
    hide WellItem;
    var n := |items| - 1;
    assert items[n] in items && (n > 0 ==> items[n - 1] in items);
    forall it | it in items[..n] ensures it in items {
    }
  }

  lemma SqueezeIs(it: Item, c: byte)
    requires WellItem(it)
    ensures Is(Squeeze(it), c) == Is(it, c)
  {
    if !it.lit {
      assert it.text[1..] == [] && Collapse(it.text, 0) == [it.text[0]] + [] == it.text;
    }
  }

  lemma {:induction false} SqueezedCounts(items: seq<Item>)
    requires WellItems(items)
    ensures Depth(Squeezed(items)) == Depth(items) && Parens(Squeezed(items)) == Parens(items)
  {
    hide WellItem, Squeeze, Squeezed, Is, WellItems;
    if items != [] {
      var n := |items| - 1;
      WellInit(items);
      SqueezedInit(items);
      SqueezedCounts(items[..n]);
      SqueezeIs(items[n], '{' as int);
      SqueezeIs(items[n], '}' as int);
      SqueezeIs(items[n], '(' as int);
      SqueezeIs(items[n], ')' as int);
    }
  }

  lemma SqueezedGap(items: seq<Item>, css: bool, next: Option<Item>)
    requires WellItems(items) && (next.Some? ==> WellItem(next.value))
    ensures Gap(Squeezed(items), css, if next.Some? then Some(Squeeze(next.value)) else None) == Gap(items, css, next)
  {
    hide Is, Depth, Parens, Joins, Continues, PeekWord, PeekNonSpace, Blanks, Squeezed, WellItem, WellItems, Collapse;
    SqueezedCounts(items);
    if next.Some? {
      SqueezeIs(next.value, '}' as int);
    }
    if items != [] {
      WellInit(items);
      SqueezedInit(items);
      var it := items[|items| - 1];
      SqueezeIs(it, '{' as int);
      SqueezeIs(it, '}' as int);
      SqueezeIs(it, ';' as int);
    }
  }

  lemma {:induction false} CollapseSplit(a: seq<byte>, b: seq<byte>, run: nat)
    requires b == [] || b[0] != '\n' as int || (a != [] && a[|a| - 1] != '\n' as int)
    ensures Collapse(a + b, run) == Collapse(a, run) + Collapse(b, 0)
    decreases |a|
  {
    if a == [] {
      assert a + b == b && [] + Collapse(b, 0) == Collapse(b, 0);
    } else {
      assert (a + b)[0] == a[0] && (a + b)[1..] == a[1..] + b;
      if |a| == 1 && b != [] && b[0] == '\n' as int {
        assert a[1..] == [] && [] + b == b;
        assert Collapse(a, run) == a;
      } else {
        var next := if a[0] == '\n' as int then run + 1 else 0;
        CollapseSplit(a[1..], b, next);
        var head := if a[0] == '\n' as int && run >= 2 then [] else [a[0]];
        Associative(head, Collapse(a[1..], next), Collapse(b, 0));
      }
    }
  }

  lemma {:induction false} CollapseInline(b: seq<byte>, run: nat)
    requires AllInline(b)
    ensures Collapse(b, run) == b
  {
    if b != [] {
      assert b[0] in b;
      CollapseInline(b[1..], 0);
    }
  }

  lemma CollapseNewLine(d: nat)
    ensures Collapse(NewLine(d), 0) == NewLine(d)
  {
    SpacesInline(d);
    CollapseInline(Spaces(d), 1);
    assert NewLine(d)[1..] == Spaces(d);
  }

  /** A gap is a new line or blanks, and in front of what ends in a newline it is blanks. */
  lemma GapShape(items: seq<Item>, css: bool, next: Option<Item>)
    requires WellItems(items)
    ensures var g := Gap(items, css, next);
            && (if items == [] then g == []
                else if next.Some? && Is(next.value, '}' as int) then g == NewLine(Less(Depth(items)))
                else if EndsLine(items, css) then g == NewLine(Depth(items))
                else AllInline(g))
            && Collapse(g, 0) == g
  {
    hide EndsLine, Depth, WellItem, Joins, Continues, PeekWord, PeekNonSpace, Parens;
    if items != [] {
      WellInit(items);
      var it := items[|items| - 1];
      TailInline(it);
      LeadInline(items, css);
      BlanksInline(it.rest[..SpanLen(it.rest, IsBlank)]);
      CollapseNewLine(Less(Depth(items)));
      CollapseNewLine(Depth(items));
      hide Blanks, Lead, Is;
      var g := Gap(items, css, next);
      if AllInline(g) {
        CollapseInline(g, 0);
      }
    }
  }

  lemma TailInline(it: Item)
    requires WellItem(it)
    ensures AllInline(it.tail)
  {
  }

  lemma BodyEnds(items: seq<Item>, css: bool)
    requires items != []
    ensures var body, text := Body(items, css), items[|items| - 1].text;
            text != [] ==> body != [] && body[|body| - 1] == text[|text| - 1]
  {
    hide Gap;
  }

  lemma {:induction false} BodySqueezed(items: seq<Item>, css: bool)
    requires WellItems(items)
    ensures Collapse(Body(items, css), 0) == Body(Squeezed(items), css)
  {
    hide Gap, Squeezed, WellItems, EndsLine, Is, Depth, Body, Collapse;
    if items == [] {
      NothingSqueezed(css);
    } else {
      var n, it := |items| - 1, items[|items| - 1];
      WellInit(items);
      SqueezedInit(items);
      var init := items[..n];
      var body, gap := Body(init, css), Gap(init, css, Some(it));
      BodySqueezed(init, css);
      SqueezedGap(init, css, Some(it));
      GapShape(init, css, Some(it));
      if n > 0 {
        BodyEnds(init, css);
      }
      CollapseParts(body, gap, it.text);
      BodyLast(items, css);
      BodyLast(Squeezed(items), css);
    }
  }

  lemma NothingSqueezed(css: bool)
    ensures Collapse(Body([], css), 0) == Body(Squeezed([]), css)
  {
    assert Squeezed([]) == [];
  }

  lemma CollapseParts(body: seq<byte>, gap: seq<byte>, text: seq<byte>)
    requires text != [] && text[0] != '\n' as int && Collapse(gap, 0) == gap
    requires gap == [] || (body != [] && body[|body| - 1] != '\n' as int)
    ensures Collapse(body + gap + text, 0) == Collapse(body, 0) + gap + Collapse(text, 0)
  {
    hide Collapse;
    CollapseSplit(body, gap, 0);
    CollapseSplit(body + gap, text, 0);
  }

  lemma BodyLast(items: seq<Item>, css: bool)
    requires items != []
    ensures var n, it := |items| - 1, items[|items| - 1];
            Body(items, css) == Body(items[..n], css) + Gap(items[..n], css, Some(it)) + it.text
  {
  }

  lemma LaidSqueezed(items: seq<Item>, css: bool)
    requires WellItems(items)
    ensures Collapse(Laid(items, css), 0) == Laid(Squeezed(items), css)
  {
    hide Squeezed, WellItems, Body, Collapse, Joins, Continues, PeekNonSpace, PeekWord, Depth, Parens;
    BodySqueezed(items, css);
    SqueezedGap(items, css, None);
    GapShape(items, css, None);
    if items == [] {
      NothingLaid(css);
    } else {
      WellInit(items);
      BodyEnds(items, css);
      LastGap(items, css);
    }
    hide Gap;
    CollapseSplit(Body(items, css), Gap(items, css, None), 0);
  }

  /** Only an unfinished literal ends in a newline, and then nothing but its blanks follows. */
  lemma LastGap(items: seq<Item>, css: bool)
    requires items != [] && WellItem(items[|items| - 1])
    ensures var it, g := items[|items| - 1], Gap(items, css, None);
            it.text[|it.text| - 1] == '\n' as int ==> g == [] || g[0] != '\n' as int
  {
    hide Joins, Continues, PeekNonSpace, PeekWord, Depth, Parens;
    var it := items[|items| - 1];
    if it.lit && it.rest == [] {
      assert it.tail + [] == it.tail;
      assert it.tail != [] ==> it.tail[0] in it.tail;
    }
  }

  /**
   The beautifier's result, for every input: the source's literals and bytes of ink in order, each gap between
   two of them as `Gap` says, with newlines in literals limited to two in a row and none at the end.
   */
  lemma BeautifiedIsLaid(src: seq<byte>, css: bool)
    ensures Beautified(src, css) == TrimNewlines(Laid(Squeezed(Items(src, 0)), css))
  {
    hide Run, Laid, Collapse, Items, Squeezed, TrimNewlines, WellItems;
    RunIsLaid(src, css);
    ItemsWell(src, 0);
    LaidSqueezed(Items(src, 0), css);
  }

  // ----- its lines -----

  lemma {:induction false} BodyPrefix(items: seq<Item>, css: bool, i: nat)
    requires i < |items|
    ensures Body(items[..i], css) + Gap(items[..i], css, Some(items[i])) + items[i].text <= Body(items, css)
    decreases |items|
  {
    hide Gap;
    var n := |items| - 1;
    if i < n {
      BodyPrefix(items[..n], css, i);
      assert items[..n][..i] == items[..i];
    }
  }

  lemma InPrefix(a: seq<byte>, d: nat, text: seq<byte>, out: seq<byte>)
    requires a + NewLine(d) + text <= out
    ensures out[|a|] == '\n' as int
    ensures forall k | |a| < k <= |a| + 2 * d :: k < |out| && out[k] == ' ' as int
    ensures |a| + 1 + 2 * d + |text| <= |out| && out[|a| + 1 + 2 * d..|a| + 1 + 2 * d + |text|] == text
  {
    SpacesInline(d);
    var g := NewLine(d);
    assert (a + g + text)[|a|] == g[0];
    forall k | |a| < k <= |a| + 2 * d ensures k < |out| && out[k] == ' ' as int {
      assert out[k] == (a + g + text)[k] == g[k - |a|] == Spaces(d)[k - |a| - 1];
      assert Spaces(d)[k - |a| - 1] in Spaces(d);
    }
    assert |a + g + text| == |a| + 1 + 2 * d + |text|;
    assert out[..|a| + 1 + 2 * d + |text|] == a + g + text;
  }

  /** The indentation of the line that starts with item i. */
  function Indent(items: seq<Item>, i: nat): nat
    requires i < |items|
  {
    if Is(items[i], '}' as int) then Less(Depth(items[..i])) else Depth(items[..i])
  }

  /**
   In the result, an item behind the end of a line, and every closing brace but a first one, starts a line: it stands
   behind a newline and exactly two blanks for each brace open there, a closing brace itself not counted.
   */
  lemma LinesIndented(src: seq<byte>, css: bool, i: nat)
    requires var items := Squeezed(Items(src, 0));
             0 < i < |items| && (EndsLine(items[..i], css) || Is(items[i], '}' as int))
    ensures var items, out := Squeezed(Items(src, 0)), Beautified(src, css);
            var at, d := |Body(items[..i], css)|, Indent(items, i);
            && at + 1 + 2 * d < |out| && out[at] == '\n' as int
            && (forall k | at < k <= at + 2 * d :: out[k] == ' ' as int)
            && items[i].text != [] && out[at + 1 + 2 * d] == items[i].text[0] && !IsInline(out[at + 1 + 2 * d])
  {
    hide Body, Depth, EndsLine, Items, Squeezed, TrimNewlines, Beautified, Is;
    var items := Squeezed(Items(src, 0));
    BeautifiedIsLaid(src, css);
    var all := Laid(items, css);
    var a, d, text := Body(items[..i], css), Indent(items, i), items[i].text;
    BodyPrefix(items, css, i);
    assert Gap(items[..i], css, Some(items[i])) == NewLine(d);
    InPrefix(a, d, text, all);
    TextStarts(src, i);
    TrimNewlinesTrims(all);
    assert all[|a| + 1 + 2 * d] == all[|a| + 1 + 2 * d..|a| + 1 + 2 * d + |text|][0];
  }

  lemma TextStarts(src: seq<byte>, i: nat)
    requires i < |Items(src, 0)|
    ensures var text := Squeezed(Items(src, 0))[i].text;
            text != [] && text[0] != '\n' as int && !IsInline(text[0])
  {
    hide Items;
    var items := Items(src, 0);
    ItemsWell(src, 0);
    ItemsInked(src, 0);
    assert items[i] in items;
  }

  lemma {:induction false} ItemsInked(s: seq<byte>, last: byte)
    ensures forall it <- Items(s, last) :: it.text != [] && !IsBlank(it.text[0])
    decreases |s|
  {
    hide Copied, IsBlank, Literal;
    if s != [] {
      var copied := Copied(s, last);
      if copied.Some? {
        var (n, l) := copied.value;
        LiteralInked(s, last);
        FirstStays(s[..n]);
        LiteralText(s[..n], s[n..]);
        ItemsInked(s[n..], l);
      } else if IsBlank(s[0]) {
        ItemsInked(s[1..], last);
      } else {
        ItemsInked(s[1..], s[0]);
      }
    }
  }

  lemma LiteralText(lit: seq<byte>, rest: seq<byte>)
    ensures Literal(lit, rest).text == TrimInline(lit)
  {
  }

  /** And nothing else starts a line: all other gaps are blanks. */
  lemma OtherGapsInline(src: seq<byte>, css: bool, i: nat)
    requires var items := Squeezed(Items(src, 0));
             0 < i < |items| && !EndsLine(items[..i], css) && !Is(items[i], '}' as int)
    ensures var items := Squeezed(Items(src, 0)); AllInline(Gap(items[..i], css, Some(items[i])))
  {
    hide Items, EndsLine, Is, Squeeze, WellItem;
    var items := Squeezed(Items(src, 0));
    ItemsWell(src, 0);
    SqueezedWell(Items(src, 0), i);
    GapShape(items[..i], css, Some(items[i]));
  }

  lemma SqueezedWell(items: seq<Item>, i: nat)
    requires WellItems(items) && i <= |items|
    ensures WellItems(Squeezed(items)[..i])
  {
    hide WellItem, Squeeze;
    var sq := Squeezed(items)[..i];
    forall it | it in sq ensures WellItem(it) {
      var k :| 0 <= k < |sq| && sq[k] == it;
      assert items[k] in items;
      SqueezeWell(items[k]);
    }
    forall k | 0 <= k < |sq| - 1 ensures sq[k].rest != [] {
      SqueezeRest(items[k]);
    }
  }

  lemma SqueezeRest(it: Item)
    ensures Squeeze(it).rest == it.rest
  {
  }

  lemma {:induction false} CollapseEnds(b: seq<byte>, run: nat)
    requires b != [] && b[|b| - 1] != '\n' as int
    ensures var r := Collapse(b, run); r != [] && r[|r| - 1] == b[|b| - 1]
  {
    if |b| > 1 {
      CollapseEnds(b[1..], if b[0] == '\n' as int then run + 1 else 0);
    }
  }

  lemma SqueezeWell(it: Item)
    requires WellItem(it)
    ensures WellItem(Squeeze(it))
  {
    if !it.lit {
      assert it.text[1..] == [] && Collapse(it.text, 0) == [it.text[0]] + [] == it.text;
    }
    if it.text[|it.text| - 1] != '\n' as int {
      CollapseEnds(it.text, 0);
    }
  }

  // ----- what joins, and where a regular expression may start -----

  predicate Among(c: byte, s: string) { exists k :: 0 <= k < |s| && s[k] as int == c }

  lemma AmongIsOneOf(c: byte, s: string)
    ensures Among(c, s) <==> OneOf(c, s)
  {
  }

  lemma AmongSplit(c: byte, a: string, b: string)
    ensures Among(c, a + b) <==> Among(c, a) || Among(c, b)
  {
    forall k | 0 <= k < |a| ensures (a + b)[k] == a[k] {
    }
    forall k | 0 <= k < |b| ensures (a + b)[|a| + k] == b[k] {
    }
    if Among(c, a + b) {
      var k :| 0 <= k < |a + b| && (a + b)[k] as int == c;
      if k >= |a| {
        assert b[k - |a|] as int == c;
      }
    }
  }

  /** What stays on the line of a closing brace: the end, closing signs, a comma or semicolon; in scripts also operators, a point, a call or a template. */
  lemma JoinsTable(nx: byte, css: bool)
    ensures Joins(nx, css) <==> nx == 0 || Among(nx, ")],;") || (!css && Among(nx, "=&|?:+-*%<>(`."))
  {
    AmongIsOneOf(nx, ")],;");
    AmongIsOneOf(nx, "=&|?:+-*%<>(`");
    AmongSplit(nx, "=&|?:+-*%<>(`", ".");
    assert Among(nx, ".") <==> nx == '.' as int by {
      assert "."[0] == '.';
    }
    assert "=&|?:+-*%<>(`" + "." == "=&|?:+-*%<>(`.";
  }

  const ELSE: seq<byte> := ['e' as int, 'l' as int, 's' as int, 'e' as int]
  const CATCH: seq<byte> := ['c' as int, 'a' as int, 't' as int, 'c' as int, 'h' as int]
  const FINALLY: seq<byte> := ['f' as int, 'i' as int, 'n' as int, 'a' as int, 'l' as int, 'l' as int, 'y' as int]
  const WHILE: seq<byte> := ['w' as int, 'h' as int, 'i' as int, 'l' as int, 'e' as int]

  lemma CharsTell(a: seq<byte>, b: seq<byte>)
    ensures Chars(a) == Chars(b) <==> a == b
  {
    if Chars(a) == Chars(b) {
      assert |a| == |Chars(a)| == |b|;
      forall k | 0 <= k < |a| ensures a[k] == b[k] {
        assert a[k] as char == Chars(a)[k] == Chars(b)[k] == b[k] as char;
      }
    }
  }

  /** The words that stay on the line of a closing brace, behind a blank. */
  lemma ContinuesTable(word: seq<byte>)
    ensures Continues(word) <==> word in {ELSE, CATCH, FINALLY, WHILE}
  {
    assert Chars(ELSE) == "else" && Chars(CATCH) == "catch" && Chars(FINALLY) == "finally" && Chars(WHILE) == "while";
    hide Chars;
    CharsTell(word, ELSE);
    CharsTell(word, CATCH);
    CharsTell(word, FINALLY);
    CharsTell(word, WHILE);
  }

  /** A slash starts a regular expression at the start of the text and behind an operator, an opening sign, a comma, a colon, a semicolon or a brace. */
  lemma RegexTable(last: byte)
    ensures RegexCanStart(last) <==> last == 0 || Among(last, "(,=:[!&|?{};+-*%<>^~")
  {
    AmongIsOneOf(last, "(,=:[!&|?{};+-*%<>^~");
  }

  // ----- what counts as a literal -----

  /** No quote of this kind but behind a backslash, which always has a byte behind it. */
  predicate Escaped(body: seq<byte>, quote: byte)
    decreases |body|
  {
    if body == [] then true
    else if body[0] == '\\' as int then |body| >= 2 && Escaped(body[2..], quote)
    else body[0] != quote && Escaped(body[1..], quote)
  }

  lemma {:induction false} QuotedCopied(body: seq<byte>, quote: byte, rest: seq<byte>)
    requires Escaped(body, quote) && IsQuote(quote)
    ensures QuotedLen(body + [quote] + rest, quote) == |body| + 1
    decreases |body|
  {
    var s := body + [quote] + rest;
    if body == [] {
      assert s[0] == quote;
    } else if body[0] == '\\' as int {
      assert s[0] == body[0] && s[2..] == body[2..] + [quote] + rest;
      QuotedCopied(body[2..], quote, rest);
    } else {
      assert s[0] == body[0] && s[1..] == body[1..] + [quote] + rest;
      QuotedCopied(body[1..], quote, rest);
    }
  }

  const SLASH: byte := '/' as int
  const STAR: byte := '*' as int

  /** No closing sign inside, nor across the end. */
  predicate Unclosed(body: seq<byte>) {
    forall k | 0 <= k < |body| :: !(body[k] == STAR && At(body + [STAR], k + 1, '/'))
  }

  lemma {:induction false} BlockCopied(body: seq<byte>, rest: seq<byte>)
    requires Unclosed(body)
    ensures BlockLen(body + [STAR, SLASH] + rest) == |body| + 2
    decreases |body|
  {
    var s := body + [STAR, SLASH] + rest;
    if body == [] {
      assert s[0] == STAR && s[1] == SLASH;
    } else {
      var more := body[1..];
      assert s[0] == body[0] && s[1..] == more + [STAR, SLASH] + rest;
      assert s[1] == (body + [STAR])[1];
      forall k | 0 <= k < |more| ensures !(more[k] == STAR && At(more + [STAR], k + 1, '/')) {
        assert more[k] == body[k + 1] && (more + [STAR])[k + 1] == (body + [STAR])[k + 2];
      }
      BlockCopied(more, rest);
    }
  }

  /** A regular expression's inside: classes in brackets, where a slash does not close, and escapes. */
  predicate RegexBody(body: seq<byte>, inClass: bool)
    decreases |body|
  {
    if body == [] then !inClass
    else if body[0] == '\\' as int then |body| >= 2 && RegexBody(body[2..], inClass)
    else if body[0] == SLASH && !inClass then false
    else RegexBody(body[1..], if body[0] == '[' as int then true else if body[0] == ']' as int then false else inClass)
  }

  lemma {:induction false} RegexCopied(body: seq<byte>, inClass: bool, rest: seq<byte>)
    requires RegexBody(body, inClass)
    ensures RegexLen(body + [SLASH] + rest, inClass) == (|body| + 1, true)
    decreases |body|
  {
    var s := body + [SLASH] + rest;
    if body == [] {
      assert s[0] == SLASH;
    } else if body[0] == '\\' as int {
      assert s[0] == body[0] && s[2..] == body[2..] + [SLASH] + rest;
      RegexCopied(body[2..], inClass, rest);
    } else {
      var inner := if body[0] == '[' as int then true else if body[0] == ']' as int then false else inClass;
      assert s[0] == body[0] && s[1..] == body[1..] + [SLASH] + rest;
      RegexCopied(body[1..], inner, rest);
    }
  }

  lemma {:induction false} LineCopied(body: seq<byte>, rest: seq<byte>)
    requires (forall k | 0 <= k < |body| :: NotNewline(body[k])) && (rest == [] || !NotNewline(rest[0]))
    ensures SpanLen(body + rest, NotNewline) == |body|
    decreases |body|
  {
    var s := body + rest;
    if body == [] {
      assert s == rest;
    } else {
      assert s[0] == body[0] && s[1..] == body[1..] + rest;
      LineCopied(body[1..], rest);
    }
  }

  /** Quoted text is copied up to its quote. */
  lemma QuotedLiteral(body: seq<byte>, quote: byte, rest: seq<byte>, last: byte)
    requires IsQuote(quote) && Escaped(body, quote)
    ensures Copied([quote] + body + [quote] + rest, last) == Some((|body| + 2, quote))
  {
    hide QuotedLen, Escaped, RegexCanStart;
    QuotedCopied(body, quote, rest);
    assert ([quote] + body + [quote] + rest)[1..] == body + [quote] + rest;
  }

  /** A line comment is copied up to the end of its line. */
  lemma LineLiteral(body: seq<byte>, rest: seq<byte>, last: byte)
    requires (forall k | 0 <= k < |body| :: NotNewline(body[k])) && (rest == [] || !NotNewline(rest[0]))
    ensures Copied([SLASH, SLASH] + body + rest, last) == Some((|body| + 2, last))
  {
    hide RegexCanStart;
    LineCopied([SLASH, SLASH] + body, rest);
    assert [SLASH, SLASH] + body + rest == ([SLASH, SLASH] + body) + rest;
  }

  /** A block comment is copied up to its first closing sign. */
  lemma BlockLiteral(body: seq<byte>, rest: seq<byte>, last: byte)
    requires Unclosed(body)
    ensures Copied([SLASH, STAR] + body + [STAR, SLASH] + rest, last) == Some((|body| + 4, last))
  {
    hide RegexCanStart, BlockLen, Unclosed;
    BlockCopied(body, rest);
    assert ([SLASH, STAR] + body + [STAR, SLASH] + rest)[2..] == body + [STAR, SLASH] + rest;
  }

  /** A regular expression is copied up to its slash, where the byte before allows one; elsewhere a slash divides. */
  lemma RegexLiteral(body: seq<byte>, rest: seq<byte>, last: byte)
    requires RegexBody(body, false) && body != [] && body[0] != STAR
    ensures Copied([SLASH] + body + [SLASH] + rest, last)
              == if RegexCanStart(last) then Some((|body| + 2, SLASH)) else None
  {
    RegexStarts(body);
    hide RegexCanStart, RegexLen, RegexBody, Copied;
    RegexCopied(body, false, rest);
    Between(SLASH, body, SLASH, rest);
    RegexHere([SLASH] + body + [SLASH] + rest, last);
  }

  lemma Between(c: byte, body: seq<byte>, d: byte, rest: seq<byte>)
    ensures var s := [c] + body + [d] + rest;
            |s| > 1 && s[0] == c && s[1..] == body + [d] + rest && (body != [] ==> s[1] == body[0])
  {
  }

  lemma RegexHere(s: seq<byte>, last: byte)
    requires |s| > 1 && s[0] == SLASH && s[1] != SLASH && s[1] != STAR
    ensures Copied(s, last) ==
            if RegexCanStart(last) then Some((1 + RegexLen(s[1..], false).0, if RegexLen(s[1..], false).1 then SLASH else last))
            else None
  {
    hide RegexCanStart, RegexLen;
  }

  lemma RegexStarts(body: seq<byte>)
    requires RegexBody(body, false) && body != []
    ensures body[0] != SLASH
  {
  }
}
