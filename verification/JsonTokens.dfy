/** The JSON tokenizer of the syntax highlighter: a scanner that never fails and covers its input. */
module JsonTokens {
  import opened Bytes

  datatype Kind = Plain | Str | Number | Bool | Null | Key | Punctuation | Bracket | Comment

  /** The program keeps `start` in 32 signed bits; see Narrowed. */
  datatype Token = Token(start: int, len: nat, kind: Kind, depth: byte)

  /** A piece found by the scanner, before it is cut to token size; `len` counts from its start. */
  datatype Piece = Piece(start: nat, len: nat, kind: Kind, depth: byte)

  const MAX_TOKEN_LEN := 0xFFFF

  datatype Ctx = Ctx(obj: bool, expectKey: bool)

  /** The nesting depth wraps at 256. */
  datatype State = State(depth: byte, stack: seq<Ctx>)

  const START := State(0, [])

  predicate IsDigit(c: byte) { '0' as int <= c <= '9' as int }

  predicate IsWordByte(c: byte) {
    ('a' as int <= c <= 'z' as int) || ('A' as int <= c <= 'Z' as int) || IsDigit(c) || c == '_' as int
  }

  // ----- the lengths of the pieces, each measured on the rest of the input -----

  /** From behind the opening of a block comment; one that closes just before the last byte takes it in. */
  function BlockLen(s: seq<byte>): (n: nat)
    ensures n <= |s|
  {
    if |s| < 2 then |s|
    else if s[0] == '*' as int && s[1] == '/' as int then if |s| <= 3 then |s| else 2
    else 1 + BlockLen(s[1..])
  }

  /** From behind the opening quote: to the closing quote, the end of the line, or the end. */
  function StringLen(s: seq<byte>): (n: nat)
    ensures n <= |s|
  {
    if s == [] then 0
    else if s[0] == '\\' as int && |s| > 1 then 2 + StringLen(s[2..])
    else if s[0] == '"' as int then 1
    else if s[0] == '\n' as int then 0
    else 1 + StringLen(s[1..])
  }

  predicate DigitAt(s: seq<byte>, k: nat) { k < |s| && IsDigit(s[k]) }

  function ExpLen(s: seq<byte>): (n: nat)
    ensures n <= |s|
  {
    if !At(s, 0, 'e') && !At(s, 0, 'E') then 0
    else
      var j := if At(s, 1, '+') || At(s, 1, '-') then 2 else 1;
      if DigitAt(s, j) then j + SpanLen(s[j..], IsDigit) else 0
  }

  /** Fraction and exponent; a point without a digit ends the number before it. */
  function FracExpLen(s: seq<byte>): (n: nat)
    ensures n <= |s|
  {
    if At(s, 0, '.') then
      if !DigitAt(s, 1) then 0
      else
        var c := 1 + SpanLen(s[1..], IsDigit);
        c + ExpLen(s[c..])
    else ExpLen(s)
  }

  /** 0 if no number starts here. */
  function NumberLen(s: seq<byte>): (n: nat)
    ensures n <= |s|
  {
    var a := if At(s, 0, '-') then 1 else 0;
    if !DigitAt(s, a) then 0
    else
      var b := a + if s[a] == '0' as int then 1 else SpanLen(s[a..], IsDigit);
      b + FracExpLen(s[b..])
  }

  predicate HasWord(s: seq<byte>, w: seq<byte>) {
    w <= s && (|s| > |w| ==> !IsWordByte(s[|w|]))
  }

  predicate Breaks(c: byte) {
    IsBlank(c) || c == '"' as int || c == '{' as int || c == '}' as int || c == '[' as int || c == ']' as int
    || c == ',' as int || c == ':' as int || c == '/' as int
  }

  predicate InPlain(c: byte) { !Breaks(c) }

  // ----- one step -----

  function Top(st: State, expectKey: bool): State {
    var n := |st.stack|;
    if n > 0 && st.stack[n - 1].obj then st.(stack := st.stack[n - 1 := Ctx(true, expectKey)]) else st
  }

  predicate KeyExpected(st: State) {
    var n := |st.stack|;
    n > 0 && st.stack[n - 1].obj && st.stack[n - 1].expectKey
  }

  function Push(st: State, obj: bool): State {
    State((st.depth + 1) % 256, st.stack + [Ctx(obj, obj)])
  }

  function Pop(st: State): State {
    State(if st.depth > 0 then st.depth - 1 else 0, if st.stack != [] then st.stack[..|st.stack| - 1] else [])
  }

  /** How many bytes, as what, at which depth, and the state behind them; white space is no piece. */
  datatype Found = Found(len: nat, piece: Option<(Kind, byte)>, st: State)

  const TRUE: seq<byte> := [0x74, 0x72, 0x75, 0x65]
  const FALSE: seq<byte> := [0x66, 0x61, 0x6c, 0x73, 0x65]
  const NULL: seq<byte> := [0x6e, 0x75, 0x6c, 0x6c]

  function Find(s: seq<byte>, st: State): (f: Found)
    requires s != []
    ensures 1 <= f.len <= |s|
    ensures f.piece.None? ==> f.len == 1 && IsBlank(s[0])
  {
    var c := s[0];
    if IsBlank(c) then Found(1, None, st)
    else if c == '/' as int && At(s, 1, '/') then Found(2 + SpanLen(s[2..], NotNewline), Some((Comment, 0)), st)
    else if c == '/' as int && At(s, 1, '*') then Found(2 + BlockLen(s[2..]), Some((Comment, 0)), st)
    else if c == '{' as int || c == '[' as int then
      Found(1, Some((Bracket, st.depth)), Push(st, c == '{' as int))
    else if c == '}' as int || c == ']' as int then
      var p := Pop(st);
      Found(1, Some((Bracket, p.depth)), p)
    else if c == ',' as int then Found(1, Some((Punctuation, 0)), Top(st, true))
    else if c == ':' as int then Found(1, Some((Punctuation, 0)), Top(st, false))
    else if c == '"' as int then
      Found(1 + StringLen(s[1..]), Some((if KeyExpected(st) then Key else Str, 0)), st)
    else if (c == '-' as int || IsDigit(c)) && NumberLen(s) > 0 then Found(NumberLen(s), Some((Number, 0)), st)
    else if HasWord(s, TRUE) then Found(4, Some((Bool, 0)), st)
    else if HasWord(s, FALSE) then Found(5, Some((Bool, 0)), st)
    else if HasWord(s, NULL) then Found(4, Some((Null, 0)), st)
    else
      var n := SpanLen(s, InPlain);
      Found(if n == 0 then 1 else n, Some((Plain, 0)), st)
  }

  /** All pieces of `s`, which starts at `off` of the input. */
  function Pieces(s: seq<byte>, off: nat, st: State): seq<Piece>
    decreases |s|
  {
    if s == [] then []
    else
      var f := Find(s, st);
      (if f.piece.Some? then [Piece(off, f.len, f.piece.value.0, f.piece.value.1)] else [])
      + Pieces(s[f.len..], off + f.len, f.st)
  }

  /** A piece longer than a token holds becomes several tokens of the same kind. */
  function Cut(p: Piece): seq<Token>
    decreases p.len
  {
    if p.len == 0 then []
    else
      var n := Min(p.len, MAX_TOKEN_LEN);
      [Token(p.start, n, p.kind, p.depth)] + Cut(p.(start := p.start + n, len := p.len - n))
  }

  const TWO31 := 0x8000_0000

  function ToI32(x: int): int { (x + TWO31) % TWO32 - TWO31 }

  /** The tokens as the program stores them: from 2 GiB on a start wraps around. */
  function Narrowed(toks: seq<Token>): (r: seq<Token>)
    ensures |r| == |toks|
    ensures forall k | 0 <= k < |r| :: r[k] == toks[k].(start := ToI32(toks[k].start))
    ensures forall t <- r :: -TWO31 <= t.start < TWO31
  {
    seq(|toks|, i requires 0 <= i < |toks| => toks[i].(start := ToI32(toks[i].start)))
  }

  /** Every token starts where its 32-bit field can say so. */
  predicate StartsFit(toks: seq<Token>) {
    forall t <- toks :: 0 <= t.start < TWO31
  }

  lemma NarrowedAppend(a: seq<Token>, b: seq<Token>)
    ensures Narrowed(a + b) == Narrowed(a) + Narrowed(b)
  {
  }

  lemma FittingStay(toks: seq<Token>)
    requires StartsFit(toks)
    ensures Narrowed(toks) == toks
  {
    forall k | 0 <= k < |toks| ensures Narrowed(toks)[k] == toks[k] {
      assert toks[k] in toks;
    }
  }

  function CutAll(ps: seq<Piece>): seq<Token> {
    if ps == [] then [] else Cut(ps[0]) + CutAll(ps[1..])
  }

  // ----- the program -----

  method AppendToken(out: seq<Token>, start: nat, end: nat, kind: Kind, depth: byte) returns (r: seq<Token>)
    requires start <= end
    ensures r == out + Narrowed(Cut(Piece(start, end - start, kind, depth)))
  {
    hide Narrowed, ToI32, Cut;
    r := out;
    var at := start;
    ghost var goal := out + Narrowed(Cut(Piece(start, end - start, kind, depth)));
    while at < end
      invariant start <= at <= end
      invariant goal == r + Narrowed(Cut(Piece(at, end - at, kind, depth)))
    {
      var n := end - at;
      if n > MAX_TOKEN_LEN { n := MAX_TOKEN_LEN; }
      CutFirst(Piece(at, end - at, kind, depth), n);
      ghost var rest := Narrowed(Cut(Piece(at + n, end - at - n, kind, depth)));
      assert r + ([Token(ToI32(at), n, kind, depth)] + rest) == r + [Token(ToI32(at), n, kind, depth)] + rest;
      r := r + [Token(ToI32(at), n, kind, depth)];
      at := at + n;
    }
    CutNothing(Piece(at, end - at, kind, depth));
    assert r + [] == r;
  }

  lemma CutFirst(p: Piece, n: nat)
    requires p.len > 0 && n == Min(p.len, MAX_TOKEN_LEN)
    ensures Narrowed(Cut(p)) == [Token(ToI32(p.start), n, p.kind, p.depth)]
                                + Narrowed(Cut(p.(start := p.start + n, len := p.len - n)))
  {
    hide ToI32;
    NarrowedAppend([Token(p.start, n, p.kind, p.depth)], Cut(p.(start := p.start + n, len := p.len - n)));
  }

  lemma CutNothing(p: Piece)
    requires p.len == 0
    ensures Narrowed(Cut(p)) == []
  {
  }

  method ScanString(src: seq<byte>, start: nat) returns (end: nat)
    requires start < |src|
    ensures end == start + 1 + StringLen(src[start + 1..])
  {
    end := start + 1;
    ghost var goal := end + StringLen(src[end..]);
    while end < |src|
      invariant start < end <= |src|
      invariant goal == end + StringLen(src[end..])
    {
      var b := src[end];
      ghost var rest := src[end..];
      assert |rest| > 1 ==> rest[2..] == src[end + 2..];
      assert rest[1..] == src[end + 1..];
      if b == '\\' as int && end + 1 < |src| {
        end := end + 2;
        continue;
      }
      if b == '"' as int {
        end := end + 1;
        return;
      }
      if b == '\n' as int { return; }
      end := end + 1;
    }
  }

  method ScanBlock(src: seq<byte>, start: nat) returns (end: nat)
    requires start + 2 <= |src|
    ensures end == start + 2 + BlockLen(src[start + 2..])
  {
    end := start + 2;
    ghost var goal := end + BlockLen(src[end..]);
    while end + 1 < |src|
      invariant start + 2 <= end <= |src|
      invariant goal == end + BlockLen(src[end..])
    {
      ghost var rest := src[end..];
      assert rest[1..] == src[end + 1..];
      if src[end] == '*' as int && src[end + 1] == '/' as int {
        end := end + 2;
        if end + 1 >= |src| {
          end := |src|;
        }
        return;
      }
      end := end + 1;
    }
    end := |src|;
  }

  method ScanExponent(src: seq<byte>, at: nat) returns (end: nat)
    requires at <= |src|
    ensures end == at + ExpLen(src[at..])
  {
    end := at;
    ghost var s := src[at..];
    if at < |src| && (src[at] == 'e' as int || src[at] == 'E' as int) {
      var j := at + 1;
      if j < |src| && (src[j] == '+' as int || src[j] == '-' as int) {
        j := j + 1;
      }
      if j < |src| && IsDigit(src[j]) {
        assert s[j - at..] == src[j..];
        end := Span(src, j, IsDigit);
      }
    }
  }

  method ScanFraction(src: seq<byte>, at: nat) returns (end: nat)
    requires at <= |src|
    ensures end == at + FracExpLen(src[at..])
  {
    hide SpanLen, ExpLen;
    ghost var t := src[at..];
    if at < |src| && src[at] == '.' as int {
      if at + 1 >= |src| || !IsDigit(src[at + 1]) { return at; }
      assert t[1..] == src[at + 1..];
      var c := Span(src, at + 1, IsDigit);
      assert t[c - at..] == src[c..];
      end := ScanExponent(src, c);
    } else {
      end := ScanExponent(src, at);
    }
  }

  method ScanNumber(src: seq<byte>, start: nat) returns (end: nat)
    requires start < |src|
    ensures end == start + NumberLen(src[start..])
  {
    hide SpanLen, FracExpLen;
    ghost var s := src[start..];
    var i := start;
    if src[i] == '-' as int {
      i := i + 1;
      if i >= |src| || !IsDigit(src[i]) { return start; }
    }
    if i >= |src| || !IsDigit(src[i]) { return start; }
    assert s[i - start..] == src[i..];
    if src[i] == '0' as int {
      i := i + 1;
    } else {
      i := Span(src, i, IsDigit);
    }
    assert s[i - start..] == src[i..];
    end := ScanFraction(src, i);
  }

  method ScanPiece(src: seq<byte>, i: nat, st: State) returns (f: Found)
    requires i < |src|
    ensures f == Find(src[i..], st)
  {
    hide SpanLen, BlockLen, StringLen, NumberLen;
    ghost var s := src[i..];
    var c := src[i];
    if IsBlank(c) { return Found(1, None, st); }
    if c == '/' as int && i + 1 < |src| && (src[i + 1] == '/' as int || src[i + 1] == '*' as int) {
      assert s[2..] == src[i + 2..];
      var end;
      if src[i + 1] == '/' as int {
        end := Span(src, i + 2, NotNewline);
      } else {
        end := ScanBlock(src, i);
      }
      return Found(end - i, Some((Comment, 0)), st);
    }
    if c == '{' as int || c == '[' as int {
      return Found(1, Some((Bracket, st.depth)), Push(st, c == '{' as int));
    }
    if c == '}' as int || c == ']' as int {
      var p := Pop(st);
      return Found(1, Some((Bracket, p.depth)), p);
    }
    if c == ',' as int { return Found(1, Some((Punctuation, 0)), Top(st, true)); }
    if c == ':' as int { return Found(1, Some((Punctuation, 0)), Top(st, false)); }
    if c == '"' as int {
      assert s[1..] == src[i + 1..];
      var end := ScanString(src, i);
      return Found(end - i, Some((if KeyExpected(st) then Key else Str, 0)), st);
    }
    f := ScanScalar(src, i, st);
  }

  /** Numbers, the three words, and anything else. */
  method ScanScalar(src: seq<byte>, i: nat, st: State) returns (f: Found)
    requires i < |src| && (!Breaks(src[i]) || (src[i] == '/' as int && !At(src[i..], 1, '/') && !At(src[i..], 1, '*')))
    ensures f == Find(src[i..], st)
  {
    hide NumberLen, SpanLen, BlockLen, StringLen;
    var c, s := src[i], src[i..];
    if c == '-' as int || IsDigit(c) {
      var end := ScanNumber(src, i);
      if end > i { return Found(end - i, Some((Number, 0)), st); }
    }
    if HasWord(s, TRUE) { return Found(4, Some((Bool, 0)), st); }
    if HasWord(s, FALSE) { return Found(5, Some((Bool, 0)), st); }
    if HasWord(s, NULL) { return Found(4, Some((Null, 0)), st); }
    var end := Span(src, i, InPlain);
    return Found(if end == i then 1 else end - i, Some((Plain, 0)), st);
  }

  /** The tokens with the starts they should have. */
  function Ideal(src: seq<byte>): seq<Token> { CutAll(Pieces(src, 0, START)) }

  method Tokenize(src: seq<byte>) returns (out: seq<Token>)
    ensures out == Narrowed(Ideal(src))
    ensures Tiles(src, 0, out) <==> StartsFit(Ideal(src))
    ensures |src| <= TWO31 ==> Tiles(src, 0, out)
  {
    hide Find, Cut, Tiles, Pieces, CutAll, Narrowed, StartsFit;
    out := [];
    var i, st := 0, START;
    assert src[0..] == src;
    ghost var goal := Narrowed(Ideal(src));
    assert [] + goal == goal;
    while i < |src|
      invariant 0 <= i <= |src|
      invariant goal == out + Narrowed(CutAll(Pieces(src[i..], i, st)))
      decreases |src| - i
    {
      var f := ScanPiece(src, i, st);
      NarrowedStep(src, i, st);
      ghost var first := FirstTokens(src, i, st);
      ghost var rest := Narrowed(CutAll(Pieces(src[i + f.len..], i + f.len, f.st)));
      Associative(out, first, rest);
      if f.piece.Some? {
        out := AppendToken(out, i, i + f.len, f.piece.value.0, f.piece.value.1);
      } else {
        assert out + [] == out;
      }
      i, st := i + f.len, f.st;
    }
    PiecesEnd(i, st);
    assert src[i..] == [] && out + [] == out;
    TokensTile(src);
  }

  /** What the program appends for the piece at i. */
  ghost function FirstTokens(src: seq<byte>, i: nat, st: State): seq<Token>
    requires i < |src|
  {
    var f := Find(src[i..], st);
    if f.piece.Some? then Narrowed(Cut(Piece(i, f.len, f.piece.value.0, f.piece.value.1))) else []
  }

  lemma NarrowedStep(src: seq<byte>, i: nat, st: State)
    requires i < |src|
    ensures var f := Find(src[i..], st);
            Narrowed(CutAll(Pieces(src[i..], i, st)))
              == FirstTokens(src, i, st) + Narrowed(CutAll(Pieces(src[i + f.len..], i + f.len, f.st)))
  {
    hide Find, Cut, Pieces, CutAll, Narrowed;
    PiecesStep(src, i, st);
    var f := Find(src[i..], st);
    var rest := CutAll(Pieces(src[i + f.len..], i + f.len, f.st));
    if f.piece.Some? {
      NarrowedAppend(Cut(Piece(i, f.len, f.piece.value.0, f.piece.value.1)), rest);
    } else {
      assert [] + rest == rest && [] + Narrowed(rest) == Narrowed(rest);
    }
  }

  lemma PiecesEnd(off: nat, st: State)
    ensures Narrowed(CutAll(Pieces([], off, st))) == []
  {
  }

  lemma PiecesStep(src: seq<byte>, i: nat, st: State)
    requires i < |src|
    ensures var f := Find(src[i..], st);
            CutAll(Pieces(src[i..], i, st))
              == (if f.piece.Some? then Cut(Piece(i, f.len, f.piece.value.0, f.piece.value.1)) else [])
                 + CutAll(Pieces(src[i + f.len..], i + f.len, f.st))
  {
    hide Find, Cut;
    var s := src[i..];
    var f := Find(s, st);
    assert s[f.len..] == src[i + f.len..];
    var rest := Pieces(src[i + f.len..], i + f.len, f.st);
    if f.piece.Some? {
      var p := Piece(i, f.len, f.piece.value.0, f.piece.value.1);
      assert ([p] + rest)[1..] == rest;
    } else {
      assert [] + rest == rest;
    }
  }

  // ----- tiling -----

  /** Only white space between two positions. */
  predicate Blank(src: seq<byte>, from: nat, to: nat)
    requires to <= |src|
  {
    forall k | from <= k < to :: IsBlank(src[k])
  }

  /**
   Non-empty tokens in order, inside the input, without overlap, and nothing but white space between
   them; a token starts at no white space, or right behind the token it continues.
   */
  predicate Tiles(src: seq<byte>, from: nat, toks: seq<Token>)
    requires from <= |src|
    decreases |toks|
  {
    if toks == [] then Blank(src, from, |src|)
    else
      var t := toks[0];
      && from <= t.start && 0 < t.len <= MAX_TOKEN_LEN && t.start + t.len <= |src|
      && Blank(src, from, t.start) && (t.start == from || !IsBlank(src[t.start]))
      && Tiles(src, t.start + t.len, toks[1..])
  }

  predicate StartsVisible(src: seq<byte>, toks: seq<Token>) {
    toks != [] ==> 0 <= toks[0].start < |src| && !IsBlank(src[toks[0].start])
  }

  lemma {:induction false} CutTiles(src: seq<byte>, p: Piece, rest: seq<Token>)
    requires p.start + p.len <= |src| && Tiles(src, p.start + p.len, rest)
    ensures Tiles(src, p.start, Cut(p) + rest)
    decreases p.len
  {
    if p.len == 0 {
      assert Cut(p) + rest == rest;
    } else {
      var n := Min(p.len, MAX_TOKEN_LEN);
      var q := p.(start := p.start + n, len := p.len - n);
      CutTiles(src, q, rest);
      assert (Cut(p) + rest)[0] == Token(p.start, n, p.kind, p.depth) && (Cut(p) + rest)[1..] == Cut(q) + rest;
    }
  }

  lemma TilesBlank(src: seq<byte>, at: nat, toks: seq<Token>)
    requires at < |src| && IsBlank(src[at]) && Tiles(src, at + 1, toks) && StartsVisible(src, toks)
    ensures Tiles(src, at, toks)
  {
  }

  /** Whatever the input, the tokens tile it. */
  lemma {:induction false} PiecesTile(src: seq<byte>, off: nat, st: State)
    requires off <= |src|
    ensures var toks := CutAll(Pieces(src[off..], off, st)); Tiles(src, off, toks) && StartsVisible(src, toks)
    decreases |src| - off
  {
    hide Find, Tiles, Cut, CutAll, Pieces, IsBlank;
    if off == |src| {
      EmptyTiles(src, st);
    } else {
      var f := Find(src[off..], st);
      FindsVisible(src[off..], st);
      PiecesTile(src, off + f.len, f.st);
      PiecesStep(src, off, st);
      var rest := CutAll(Pieces(src[off + f.len..], off + f.len, f.st));
      if f.piece.Some? {
        var p := Piece(off, f.len, f.piece.value.0, f.piece.value.1);
        CutTiles(src, p, rest);
        CutStarts(p, rest);
      } else {
        assert [] + rest == rest;
        TilesBlank(src, off, rest);
      }
    }
  }

  lemma EmptyTiles(src: seq<byte>, st: State)
    ensures src[|src|..] == []
    ensures CutAll(Pieces([], |src|, st)) == [] && Tiles(src, |src|, [])
  {
  }

  lemma FindsVisible(s: seq<byte>, st: State)
    requires s != []
    ensures Find(s, st).piece.None? <==> IsBlank(s[0])
  {
    hide SpanLen, BlockLen, StringLen, NumberLen, HasWord;
  }

  lemma CutStarts(p: Piece, rest: seq<Token>)
    requires p.len > 0
    ensures Cut(p) + rest != [] && (Cut(p) + rest)[0].start == p.start
  {
  }

  // ----- the 32-bit start -----

  /** Tokens that start below 2^31 leave nothing but white space from a token length behind it on. */
  lemma {:induction false} FarIsBlank(src: seq<byte>, from: nat, toks: seq<Token>, k: nat)
    requires from <= k < |src| && k >= TWO31 + MAX_TOKEN_LEN && Tiles(src, from, toks)
    requires forall t <- toks :: t.start < TWO31
    ensures IsBlank(src[k])
    decreases |toks|
  {
    if toks != [] {
      assert toks[0] in toks;
      FarIsBlank(src, toks[0].start + toks[0].len, toks[1..], k);
    }
  }

  lemma {:induction false} TilingFits(src: seq<byte>, from: nat, toks: seq<Token>)
    requires from <= |src| && from < TWO31 + MAX_TOKEN_LEN
    requires Tiles(src, from, toks) && Tiles(src, from, Narrowed(toks))
    ensures StartsFit(toks)
    decreases |toks|
  {
    if toks != [] {
      FirstFits(src, from, toks);
      hide Tiles;
      TilingFits(src, toks[0].start + toks[0].len, toks[1..]);
    }
  }

  lemma FirstFits(src: seq<byte>, from: nat, toks: seq<Token>)
    requires from <= |src| && from < TWO31 + MAX_TOKEN_LEN && toks != []
    requires Tiles(src, from, toks) && Tiles(src, from, Narrowed(toks))
    ensures var next := toks[0].start + toks[0].len;
            && 0 <= toks[0].start < TWO31 && from <= next <= |src| && next < TWO31 + MAX_TOKEN_LEN
            && Tiles(src, next, toks[1..]) && Tiles(src, next, Narrowed(toks[1..]))
  {
    var t, narrow := toks[0], Narrowed(toks);
    assert narrow[1..] == Narrowed(toks[1..]);
    if t.start >= TWO32 {
      FarIsBlank(src, from, narrow, t.start);
    }
  }

  /** The stored tokens tile the input exactly if every token starts below 2 GiB, as they do in an input up to that size. */
  lemma TokensTile(src: seq<byte>)
    ensures Tiles(src, 0, Narrowed(Ideal(src))) <==> StartsFit(Ideal(src))
    ensures |src| <= TWO31 ==> StartsFit(Ideal(src))
  {
    hide Pieces, CutAll, Narrowed;
    assert src[0..] == src;
    PiecesTile(src, 0, START);
    var toks := Ideal(src);
    StartsInside(src, 0, toks);
    if StartsFit(toks) {
      FittingStay(toks);
    }
    if Tiles(src, 0, Narrowed(toks)) {
      TilingFits(src, 0, toks);
    }
  }

  lemma {:induction false} StartsInside(src: seq<byte>, from: nat, toks: seq<Token>)
    requires from <= |src| && Tiles(src, from, toks)
    ensures forall t <- toks :: from <= t.start < |src|
    decreases |toks|
  {
    if toks != [] {
      StartsInside(src, toks[0].start + toks[0].len, toks[1..]);
      assert toks == [toks[0]] + toks[1..];
    }
  }

  /** So an input with anything to see from 2 GiB and one token on is never tiled. */
  lemma FarInputsFail(src: seq<byte>, k: nat)
    requires TWO31 + MAX_TOKEN_LEN <= k < |src| && !IsBlank(src[k])
    ensures !Tiles(src, 0, Narrowed(Ideal(src)))
  {
    hide Ideal;
    if Tiles(src, 0, Narrowed(Ideal(src))) {
      FarIsBlank(src, 0, Narrowed(Ideal(src)), k);
    }
  }
}
