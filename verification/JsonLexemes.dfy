/** JSON text by the grammar of RFC 8259, and what the tokenizer makes of it. */
module JsonLexemes {
  import opened Bytes
  import opened JsonTokens

  // ----- lexemes -----

  datatype Exponent = Exponent(upper: bool, sign: seq<byte>, digits: seq<byte>)

  /** [ minus ] int [ frac ] [ exp ]; an empty `frac` is none. */
  datatype NumText = NumText(neg: bool, int_: seq<byte>, frac: seq<byte>, exp: Option<Exponent>)

  predicate Digits(s: seq<byte>) { forall c <- s :: IsDigit(c) }

  predicate LegalExponent(e: Exponent) {
    (e.sign == [] || e.sign == ['+' as int] || e.sign == ['-' as int]) && e.digits != [] && Digits(e.digits)
  }

  predicate LegalNumber(n: NumText) {
    && n.int_ != [] && Digits(n.int_) && (n.int_[0] == '0' as int ==> |n.int_| == 1)
    && Digits(n.frac)
    && (n.exp.Some? ==> LegalExponent(n.exp.value))
  }

  function ExpBytes(e: Exponent): seq<byte> {
    [if e.upper then 'E' as int else 'e' as int] + e.sign + e.digits
  }

  function FracBytes(f: seq<byte>): seq<byte> { if f == [] then [] else ['.' as int] + f }

  function OptExpBytes(e: Option<Exponent>): seq<byte> { if e.None? then [] else ExpBytes(e.value) }

  function NumBytes(n: NumText): seq<byte> {
    (if n.neg then ['-' as int] else []) + n.int_ + (FracBytes(n.frac) + OptExpBytes(n.exp))
  }

  /** The inside of a string: no bare quote, backslash or newline; a backslash takes the next byte with it. */
  predicate LegalBody(b: seq<byte>)
    decreases |b|
  {
    if b == [] then true
    else if b[0] == '\\' as int then |b| >= 2 && LegalBody(b[2..])
    else b[0] != '"' as int && b[0] != '\n' as int && LegalBody(b[1..])
  }

  datatype Lexeme = Open(obj: bool) | Close(obj: bool) | Comma | Colon | Quoted(body: seq<byte>)
    | Num(n: NumText) | Word(w: seq<byte>)

  predicate LegalLexeme(l: Lexeme) {
    match l
    case Quoted(b) => LegalBody(b)
    case Num(n) => LegalNumber(n)
    case Word(w) => w == TRUE || w == FALSE || w == NULL
    case _ => true
  }

  function LexBytes(l: Lexeme): seq<byte> {
    match l
    case Open(obj) => [if obj then '{' as int else '[' as int]
    case Close(obj) => [if obj then '}' as int else ']' as int]
    case Comma => [',' as int]
    case Colon => [':' as int]
    case Quoted(b) => ['"' as int] + b + ['"' as int]
    case Num(n) => NumBytes(n)
    case Word(w) => w
  }

  /** What may stand behind a number or word: nothing, white space, or a structural character. */
  predicate EndsScalar(rest: seq<byte>) {
    rest == [] || (Breaks(rest[0]) && rest[0] != '/' as int)
  }

  predicate IsScalar(l: Lexeme) { l.Num? || l.Word? }

  // ----- the automaton over lexemes -----

  function KindOf(st: State, l: Lexeme): Kind {
    match l
    case Open(_) => Bracket
    case Close(_) => Bracket
    case Comma => Punctuation
    case Colon => Punctuation
    case Quoted(_) => if KeyExpected(st) then Key else Str
    case Num(_) => Number
    case Word(w) => if w == NULL then Null else Bool
  }

  function DepthOf(st: State, l: Lexeme): byte {
    if l.Open? then st.depth else if l.Close? then Pop(st).depth else 0
  }

  function Next(st: State, l: Lexeme): State {
    match l
    case Open(obj) => Push(st, obj)
    case Close(_) => Pop(st)
    case Comma => Top(st, true)
    case Colon => Top(st, false)
    case _ => st
  }

  // ----- each lexeme is found whole -----

  lemma DigitsRun(ds: seq<byte>, rest: seq<byte>)
    requires Digits(ds) && (rest == [] || !IsDigit(rest[0]))
    ensures SpanLen(ds + rest, IsDigit) == |ds|
  {
    hide SpanLen;
    var s := ds + rest;
    assert forall k | 0 <= k < |ds| :: s[k] == ds[k] && ds[k] in ds;
    assert |ds| < |s| ==> s[|ds|] == rest[0];
  }

  lemma ExpFound(e: Exponent, rest: seq<byte>)
    requires LegalExponent(e) && EndsScalar(rest)
    ensures ExpLen(ExpBytes(e) + rest) == |ExpBytes(e)|
  {
    hide SpanLen, EndsScalar;
    var s := ExpBytes(e) + rest;
    var j := 1 + |e.sign|;
    assert e.digits[0] in e.digits;
    assert s[j..] == e.digits + rest && s[j] == e.digits[0];
    EndsDigits(rest);
    DigitsRun(e.digits, rest);
  }

  lemma EndsDigits(rest: seq<byte>)
    requires EndsScalar(rest)
    ensures rest == [] || !IsDigit(rest[0])
  {
  }

  lemma OptExpFound(e: Option<Exponent>, rest: seq<byte>)
    requires (e.Some? ==> LegalExponent(e.value)) && EndsScalar(rest)
    ensures ExpLen(OptExpBytes(e) + rest) == |OptExpBytes(e)|
    ensures OptExpBytes(e) + rest == [] || !IsDigit((OptExpBytes(e) + rest)[0])
    ensures !At(OptExpBytes(e) + rest, 0, '.')
  {
    var s := OptExpBytes(e) + rest;
    if e.Some? {
      ExpFound(e.value, rest);
      assert s[0] == 'E' as int || s[0] == 'e' as int;
    } else {
      assert s == rest;
    }
  }

  lemma FracFound(f: seq<byte>, tail: seq<byte>)
    requires f != [] && Digits(f) && (tail == [] || !IsDigit(tail[0]))
    ensures FracExpLen(FracBytes(f) + tail) == |FracBytes(f)| + ExpLen(tail)
  {
    hide ExpLen, SpanLen;
    var s := FracBytes(f) + tail;
    assert f[0] in f;
    assert s[0] == '.' as int && s[1] == f[0];
    assert s[1..] == f + tail;
    DigitsRun(f, tail);
    assert s[1 + |f|..] == tail;
  }

  lemma FracExpFound(f: seq<byte>, e: Option<Exponent>, rest: seq<byte>)
    requires Digits(f) && (e.Some? ==> LegalExponent(e.value)) && EndsScalar(rest)
    ensures FracExpLen(FracBytes(f) + OptExpBytes(e) + rest) == |FracBytes(f)| + |OptExpBytes(e)|
  {
    hide ExpLen, LegalExponent, OptExpBytes, EndsScalar, IsDigit;
    var tail := OptExpBytes(e) + rest;
    OptExpFound(e, rest);
    assert FracBytes(f) + OptExpBytes(e) + rest == FracBytes(f) + tail;
    if f == [] {
      assert FracBytes(f) + tail == tail;
    } else {
      FracFound(f, tail);
    }
  }

  lemma NumberFound(n: NumText, rest: seq<byte>)
    requires LegalNumber(n) && EndsScalar(rest)
    ensures NumberLen(NumBytes(n) + rest) == |NumBytes(n)| > 0
    ensures var c := NumBytes(n)[0]; c == '-' as int || IsDigit(c)
  {
    hide FracExpLen, FracBytes, OptExpBytes, SpanLen, LegalExponent, EndsScalar, NumBytes, Digits;
    var fe := FracBytes(n.frac) + OptExpBytes(n.exp);
    var s, a := NumBytes(n) + rest, if n.neg then 1 else 0;
    NumberParts(n, rest);
    FirstDigit(n);
    AfterInt(n.frac, n.exp, rest);
    DigitsRun(n.int_, fe + rest);
    assert s[a] == s[a..][0] == n.int_[0];
    FracExpFound(n.frac, n.exp, rest);
  }

  lemma FirstDigit(n: NumText)
    requires LegalNumber(n)
    ensures IsDigit(n.int_[0]) && Digits(n.int_)
  {
    assert n.int_[0] in n.int_;
  }

  lemma NumberParts(n: NumText, rest: seq<byte>)
    requires n.int_ != []
    ensures var s, a := NumBytes(n) + rest, if n.neg then 1 else 0;
            var fe := FracBytes(n.frac) + OptExpBytes(n.exp);
            && |NumBytes(n)| == a + |n.int_| + |fe| && |s| == |NumBytes(n)| + |rest|
            && s[a..] == n.int_ + (fe + rest) && s[a + |n.int_|..] == fe + rest
            && NumBytes(n)[0] == s[0] == (if n.neg then '-' as int else n.int_[0])
  {
    hide FracBytes, OptExpBytes;
  }

  lemma AfterInt(f: seq<byte>, e: Option<Exponent>, rest: seq<byte>)
    requires EndsScalar(rest)
    ensures var t := FracBytes(f) + OptExpBytes(e) + rest; t == [] || !IsDigit(t[0])
  {
  }

  lemma {:induction false} BodyFound(b: seq<byte>, rest: seq<byte>)
    requires LegalBody(b)
    ensures StringLen(b + ['"' as int] + rest) == |b| + 1
    decreases |b|
  {
    var s := b + ['"' as int] + rest;
    if b != [] {
      if b[0] == '\\' as int {
        BodyFound(b[2..], rest);
        assert s[2..] == b[2..] + ['"' as int] + rest;
      } else {
        BodyFound(b[1..], rest);
        assert s[1..] == b[1..] + ['"' as int] + rest;
      }
    }
  }

  lemma QuotedFound(b: seq<byte>, rest: seq<byte>, st: State)
    requires LegalBody(b)
    ensures var l := Quoted(b);
            Find(LexBytes(l) + rest, st) == Found(|LexBytes(l)|, Some((KindOf(st, l), 0)), st)
  {
    hide NumberLen, HasWord, SpanLen, StringLen, BlockLen, LegalBody, KeyExpected;
    var s := LexBytes(Quoted(b)) + rest;
    assert s[0] == '"' as int && s[1..] == b + ['"' as int] + rest;
    BodyFound(b, rest);
  }

  lemma WordFound(w: seq<byte>, rest: seq<byte>, st: State)
    requires (w == TRUE || w == FALSE || w == NULL) && EndsScalar(rest)
    ensures var l := Word(w);
            Find(LexBytes(l) + rest, st) == Found(|LexBytes(l)|, Some((KindOf(st, l), 0)), st)
  {
    var s := w + rest;
    assert s[0] == w[0] && w <= s && (rest != [] ==> s[|w|] == rest[0]);
    assert HasWord(s, w);
  }

  lemma NumFound(n: NumText, rest: seq<byte>, st: State)
    requires LegalNumber(n) && EndsScalar(rest)
    ensures var l := Num(n);
            Find(LexBytes(l) + rest, st) == Found(|LexBytes(l)|, Some((Number, 0)), st)
    ensures NumBytes(n) != []
  {
    hide NumberLen, NumBytes, LegalNumber, EndsScalar, HasWord, SpanLen, StringLen, BlockLen;
    NumberFound(n, rest);
    assert (NumBytes(n) + rest)[0] == NumBytes(n)[0];
  }

  lemma StructuralFound(l: Lexeme, rest: seq<byte>, st: State)
    requires l.Open? || l.Close? || l.Comma? || l.Colon?
    ensures Find(LexBytes(l) + rest, st) == Found(|LexBytes(l)|, Some((KindOf(st, l), DepthOf(st, l))), Next(st, l))
  {
    hide NumberLen, HasWord, SpanLen, StringLen, BlockLen, Push, Pop, Top;
    assert (LexBytes(l) + rest)[0] == LexBytes(l)[0];
  }

  /** Any legal lexeme in front of what may follow it is found whole, with the automaton's kind, depth and state. */
  lemma LexemeFound(l: Lexeme, rest: seq<byte>, st: State)
    requires LegalLexeme(l) && (IsScalar(l) ==> EndsScalar(rest))
    ensures LexBytes(l) != []
    ensures Find(LexBytes(l) + rest, st) == Found(|LexBytes(l)|, Some((KindOf(st, l), DepthOf(st, l))), Next(st, l))
  {
    hide Find, EndsScalar, NumBytes, LegalNumber, LegalBody, KeyExpected;
    match l
    case Quoted(b) => QuotedFound(b, rest, st);
    case Word(w) => WordFound(w, rest, st);
    case Num(n) => NumFound(n, rest, st);
    case _ => StructuralFound(l, rest, st);
  }

  // ----- texts -----

  predicate AllBlank(g: seq<byte>) { forall c <- g :: IsBlank(c) }

  /** The lexemes with a gap before each and one at the end. */
  function Render(ls: seq<Lexeme>, gaps: seq<seq<byte>>): seq<byte>
    requires |gaps| == |ls| + 1
  {
    if ls == [] then gaps[0] else gaps[0] + (LexBytes(ls[0]) + Render(ls[1..], gaps[1..]))
  }

  /** Where each lexeme lies and what it is. */
  function Expected(ls: seq<Lexeme>, gaps: seq<seq<byte>>, off: nat, st: State): seq<Piece>
    requires |gaps| == |ls| + 1
  {
    if ls == [] then []
    else
      var at := off + |gaps[0]|;
      [Piece(at, |LexBytes(ls[0])|, KindOf(st, ls[0]), DepthOf(st, ls[0]))]
      + Expected(ls[1..], gaps[1..], at + |LexBytes(ls[0])|, Next(st, ls[0]))
  }

  /** Every lexeme legal, and no two numbers or words next to each other. */
  predicate Sound(ls: seq<Lexeme>) {
    && (forall l <- ls :: LegalLexeme(l))
    && (forall i | 0 <= i < |ls| - 1 :: !(IsScalar(ls[i]) && IsScalar(ls[i + 1])))
  }

  lemma BlankFound(s: seq<byte>, st: State)
    requires s != [] && IsBlank(s[0])
    ensures Find(s, st) == Found(1, None, st)
  {
  }

  lemma {:induction false} GapSkipped(g: seq<byte>, rest: seq<byte>, off: nat, st: State)
    requires AllBlank(g)
    ensures Pieces(g + rest, off, st) == Pieces(rest, off + |g|, st)
  {
    hide Find;
    var s := g + rest;
    if g == [] {
      assert s == rest;
    } else {
      assert g[0] in g;
      GapSkipped(g[1..], rest, off + 1, st);
      assert s[0] == g[0] && s[1..] == g[1..] + rest;
      BlankFound(s, st);
      assert [] + Pieces(s[1..], off + 1, st) == Pieces(s[1..], off + 1, st);
    }
  }

  lemma NextEndsScalar(ls: seq<Lexeme>, gaps: seq<seq<byte>>)
    requires |gaps| == |ls| + 1 && AllBlank(gaps[0]) && (ls != [] ==> LegalLexeme(ls[0]) && !IsScalar(ls[0]))
    ensures EndsScalar(Render(ls, gaps))
  {
    if gaps[0] != [] {
      assert gaps[0][0] in gaps[0];
    }
  }

  /** Any sequence of lexemes with any white space between them is found lexeme by lexeme. */
  lemma {:induction false} LexemesFound(ls: seq<Lexeme>, gaps: seq<seq<byte>>, off: nat, st: State)
    requires Sound(ls) && |gaps| == |ls| + 1 && forall g <- gaps :: AllBlank(g)
    ensures Pieces(Render(ls, gaps), off, st) == Expected(ls, gaps, off, st)
    decreases |ls|
  {
    hide Find, LexBytes, LegalLexeme;
    assert gaps[0] in gaps;
    if ls == [] {
      GapSkipped(gaps[0], [], off, st);
      assert gaps[0] + [] == gaps[0];
    } else {
      var l, rest := ls[0], Render(ls[1..], gaps[1..]);
      assert l in ls && gaps[1] in gaps && (|ls| > 1 ==> ls[1] in ls);
      GapSkipped(gaps[0], LexBytes(l) + rest, off, st);
      if IsScalar(l) {
        NextEndsScalar(ls[1..], gaps[1..]);
      }
      LexemeFound(l, rest, st);
      SoundTail(ls);
      var at := off + |gaps[0]|;
      LexemesFound(ls[1..], gaps[1..], at + |LexBytes(l)|, Next(st, l));
      assert (LexBytes(l) + rest)[|LexBytes(l)|..] == rest;
    }
  }

  lemma SoundTail(ls: seq<Lexeme>)
    requires ls != [] && Sound(ls)
    ensures Sound(ls[1..])
  {
    forall i | 0 <= i < |ls[1..]| - 1 ensures !(IsScalar(ls[1..][i]) && IsScalar(ls[1..][i + 1])) {
      assert ls[1..][i] == ls[i + 1] && ls[1..][i + 1] == ls[i + 2];
    }
  }

  // ----- values -----

  datatype Json = JWord(w: seq<byte>) | JNum(n: NumText) | JStr(body: seq<byte>)
    | JArr(elems: seq<Json>) | JObj(members: seq<Member>)

  datatype Member = Member(key: seq<byte>, value: Json)

  predicate LegalJson(v: Json) {
    match v
    case JWord(w) => w == TRUE || w == FALSE || w == NULL
    case JNum(n) => LegalNumber(n)
    case JStr(b) => LegalBody(b)
    case JArr(es) => forall e <- es :: LegalJson(e)
    case JObj(ms) => forall m <- ms :: LegalBody(m.key) && LegalJson(m.value)
  }

  function Lexemes(v: Json): (ls: seq<Lexeme>)
    ensures ls != []
    decreases v, 1
  {
    match v
    case JWord(w) => [Word(w)]
    case JNum(n) => [Num(n)]
    case JStr(b) => [Quoted(b)]
    case JArr(es) => [Open(false)] + ElemLexemes(es) + [Close(false)]
    case JObj(ms) => [Open(true)] + MemberLexemes(ms) + [Close(true)]
  }

  function ElemLexemes(es: seq<Json>): seq<Lexeme>
    decreases es, 0
  {
    if es == [] then []
    else if |es| == 1 then Lexemes(es[0])
    else Lexemes(es[0]) + [Comma] + ElemLexemes(es[1..])
  }

  function MemberLexemes(ms: seq<Member>): seq<Lexeme>
    decreases ms, 0
  {
    if ms == [] then []
    else
      var first := [Quoted(ms[0].key), Colon] + Lexemes(ms[0].value);
      if |ms| == 1 then first else first + [Comma] + MemberLexemes(ms[1..])
  }

  datatype Mark = Mark(kind: Kind, depth: nat)

  const PUNCT := Mark(Punctuation, 0)

  /** The kind and depth the grammar gives each lexeme of a value whose brackets lie at depth d. */
  function Marks(v: Json, d: nat): seq<Mark>
    decreases v, 1
  {
    match v
    case JWord(w) => [Mark(if w == NULL then Null else Bool, 0)]
    case JNum(_) => [Mark(Number, 0)]
    case JStr(_) => [Mark(Str, 0)]
    case JArr(es) => [Mark(Bracket, d)] + ElemMarks(es, d + 1) + [Mark(Bracket, d)]
    case JObj(ms) => [Mark(Bracket, d)] + MemberMarks(ms, d + 1) + [Mark(Bracket, d)]
  }

  function ElemMarks(es: seq<Json>, d: nat): seq<Mark>
    decreases es, 0
  {
    if es == [] then []
    else if |es| == 1 then Marks(es[0], d)
    else Marks(es[0], d) + [PUNCT] + ElemMarks(es[1..], d)
  }

  function MemberMarks(ms: seq<Member>, d: nat): seq<Mark>
    decreases ms, 0
  {
    if ms == [] then []
    else
      var first := [Mark(Key, 0), PUNCT] + Marks(ms[0].value, d);
      if |ms| == 1 then first else first + [PUNCT] + MemberMarks(ms[1..], d)
  }

  /** How many brackets are open at once. */
  function Nesting(v: Json): nat
    decreases v, 1
  {
    match v
    case JArr(es) => 1 + ElemNesting(es)
    case JObj(ms) => 1 + MemberNesting(ms)
    case _ => 0
  }

  function Max(a: nat, b: nat): nat { if a > b then a else b }

  function ElemNesting(es: seq<Json>): nat
    decreases es, 0
  {
    if es == [] then 0 else Max(Nesting(es[0]), ElemNesting(es[1..]))
  }

  function MemberNesting(ms: seq<Member>): nat
    decreases ms, 0
  {
    if ms == [] then 0 else Max(Nesting(ms[0].value), MemberNesting(ms[1..]))
  }

  // ----- the automaton follows the grammar -----

  function MarkOf(st: State, l: Lexeme): Mark { Mark(KindOf(st, l), DepthOf(st, l)) }

  /** The marks the automaton gives the lexemes, and the state behind them. */
  function Annotate(st: State, ls: seq<Lexeme>): seq<Mark>
    decreases |ls|
  {
    if ls == [] then [] else [MarkOf(st, ls[0])] + Annotate(Next(st, ls[0]), ls[1..])
  }

  function After(st: State, ls: seq<Lexeme>): State
    decreases |ls|
  {
    if ls == [] then st else After(Next(st, ls[0]), ls[1..])
  }

  /** The lexemes get these marks and lead to this state. */
  predicate Reads(st: State, ls: seq<Lexeme>, marks: seq<Mark>, end: State) {
    Annotate(st, ls) == marks && After(st, ls) == end
  }

  lemma {:induction false} ReadsAppend(st: State, a: seq<Lexeme>, x: seq<Mark>, mid: State,
                                       b: seq<Lexeme>, y: seq<Mark>, end: State)
    requires Reads(st, a, x, mid) && Reads(mid, b, y, end)
    ensures Reads(st, a + b, x + y, end)
    decreases |a|
  {
    hide MarkOf, Next;
    if a == [] {
      assert a + b == b && x + y == y;
    } else {
      assert x[1..] == Annotate(Next(st, a[0]), a[1..]);
      ReadsAppend(Next(st, a[0]), a[1..], x[1..], mid, b, y, end);
      assert (a + b)[0] == a[0] && (a + b)[1..] == a[1..] + b;
      assert x + y == [x[0]] + (x[1..] + y);
    }
  }

  lemma ReadsOne(st: State, l: Lexeme)
    ensures Reads(st, [l], [MarkOf(st, l)], Next(st, l))
  {
    hide MarkOf, Next;
    var tail := [l][1..];
    assert tail == [];
    assert Annotate(Next(st, l), tail) == [] && After(Next(st, l), tail) == Next(st, l);
    assert [MarkOf(st, l)] + [] == [MarkOf(st, l)];
  }

  /** Closing a bracket restores its depth, below the point where the depth wraps and only there. */
  lemma BracketsMatch(st: State, obj: bool)
    ensures Pop(Push(st, obj)).depth == st.depth <==> st.depth < 255
    ensures Pop(Push(st, obj)).stack == st.stack
  {
  }

  /** The same stack but for the expectation of a key in the innermost object. */
  predicate SameButTop(a: State, b: State) {
    && a.depth == b.depth && |a.stack| == |b.stack| > 0
    && a.stack[..|a.stack| - 1] == b.stack[..|b.stack| - 1]
    && a.stack[|a.stack| - 1].obj == b.stack[|b.stack| - 1].obj
  }

  predicate InObject(st: State) { st.stack != [] && st.stack[|st.stack| - 1].obj }

  predicate InArray(st: State) { st.stack != [] && !st.stack[|st.stack| - 1].obj }

  lemma PushedIn(st: State, obj: bool)
    ensures var t := Push(st, obj); if obj then InObject(t) && KeyExpected(t) else InArray(t) && !KeyExpected(t)
    ensures SameButTop(Push(st, obj), Push(st, obj))
    ensures st.depth < 255 ==> Push(st, obj).depth == st.depth + 1
  {
  }

  lemma PopSame(st: State, obj: bool, end: State)
    requires st.depth < 255 && SameButTop(Push(st, obj), end)
    ensures Pop(end) == st
  {
    var inner := Push(st, obj);
    assert inner.stack[..|inner.stack| - 1] == st.stack;
  }

  /** Brackets around what keeps the state but for the innermost expectation. */
  lemma Bracketed(st: State, obj: bool, ls: seq<Lexeme>, marks: seq<Mark>, end: State)
    requires st.depth < 255 && Reads(Push(st, obj), ls, marks, end) && SameButTop(Push(st, obj), end)
    ensures var m := Mark(Bracket, st.depth); Reads(st, [Open(obj)] + ls + [Close(obj)], [m] + marks + [m], st)
  {
    hide Reads, Push, Pop, SameButTop;
    var inner, m := Push(st, obj), [Mark(Bracket, st.depth)];
    PopSame(st, obj, end);
    ReadsOne(st, Open(obj));
    ReadsOne(end, Close(obj));
    ReadsAppend(st, [Open(obj)], m, inner, ls, marks, end);
    ReadsAppend(st, [Open(obj)] + ls, m + marks, end, [Close(obj)], m, st);
  }

  /** In a place for a value, a value's lexemes get the grammar's marks and leave the state as it was. */
  lemma {:induction false} ValueMarked(v: Json, st: State)
    requires !KeyExpected(st) && st.depth + Nesting(v) <= 255
    ensures Reads(st, Lexemes(v), Marks(v, st.depth), st)
    decreases v, 1
  {
    hide Reads, Push, Pop, SameButTop, InObject, InArray;
    match v
    case JArr(es) =>
      PushedIn(st, false);
      ElemsMarked(es, Push(st, false));
      Bracketed(st, false, ElemLexemes(es), ElemMarks(es, st.depth + 1), Push(st, false));
    case JObj(ms) =>
      PushedIn(st, true);
      var end := MembersMarked(ms, Push(st, true));
      Bracketed(st, true, MemberLexemes(ms), MemberMarks(ms, st.depth + 1), end);
    case _ => ReadsOne(st, Lexemes(v)[0]);
  }

  lemma {:induction false} ElemsMarked(es: seq<Json>, st: State)
    requires !KeyExpected(st) && InArray(st) && st.depth + ElemNesting(es) <= 255
    ensures Reads(st, ElemLexemes(es), ElemMarks(es, st.depth), st)
    decreases es, 0
  {
    if es == [] {
    } else {
      hide Reads, KeyExpected, Lexemes, Marks, Nesting;
      var ls, ms := Lexemes(es[0]), Marks(es[0], st.depth);
      ValueMarked(es[0], st);
      if |es| > 1 {
        ElemsMarked(es[1..], st);
        ReadsOne(st, Comma);
        ReadsAppend(st, ls, ms, st, [Comma], [PUNCT], st);
        ReadsAppend(st, ls + [Comma], ms + [PUNCT], st, ElemLexemes(es[1..]), ElemMarks(es[1..], st.depth), st);
      }
    }
  }

  lemma TopTurns(st: State)
    requires InObject(st)
    ensures var t := Top(st, false); !KeyExpected(t) && SameButTop(st, t) && InObject(t)
    ensures var t := Top(st, true); KeyExpected(t) && SameButTop(st, t) && InObject(t)
  {
  }

  lemma SameTransitive(a: State, b: State, c: State)
    requires SameButTop(a, b) && SameButTop(b, c)
    ensures SameButTop(a, c)
  {
  }

  /** A key, a colon and a value. */
  lemma MemberMarked(m: Member, st: State)
    requires KeyExpected(st) && InObject(st) && st.depth + Nesting(m.value) <= 255
    ensures Reads(st, [Quoted(m.key), Colon] + Lexemes(m.value), [Mark(Key, 0), PUNCT] + Marks(m.value, st.depth), Top(st, false))
    decreases m, 2
  {
    hide Reads, Lexemes, Marks, Nesting, SameButTop, InObject;
    var t := Top(st, false);
    TopTurns(st);
    assert t.depth == st.depth;
    ValueMarked(m.value, t);
    ReadsOne(st, Quoted(m.key));
    ReadsOne(st, Colon);
    ReadsAppend(st, [Quoted(m.key)], [Mark(Key, 0)], st, [Colon], [PUNCT], t);
    assert [Quoted(m.key)] + [Colon] == [Quoted(m.key), Colon];
    assert [Mark(Key, 0)] + [PUNCT] == [Mark(Key, 0), PUNCT];
    ReadsAppend(st, [Quoted(m.key), Colon], [Mark(Key, 0), PUNCT], t, Lexemes(m.value), Marks(m.value, st.depth), t);
  }

  lemma {:induction false} MembersMarked(ms: seq<Member>, st: State) returns (end: State)
    requires KeyExpected(st) && InObject(st) && st.depth + MemberNesting(ms) <= 255
    ensures Reads(st, MemberLexemes(ms), MemberMarks(ms, st.depth), end)
    ensures SameButTop(st, end)
    decreases ms, 0
  {
    end := st;
    if ms == [] {
    } else {
      hide Reads, Lexemes, Marks, Nesting, KeyExpected, InObject, Top;
      var d := st.depth;
      var t := Top(st, false);
      var u := Top(t, true);
      var ls, marks := [Quoted(ms[0].key), Colon] + Lexemes(ms[0].value), [Mark(Key, 0), PUNCT] + Marks(ms[0].value, d);
      TopTurns(st);
      TopTurns(t);
      MemberMarked(ms[0], st);
      end := t;
      if |ms| > 1 {
        end := MembersMarked(ms[1..], u);
        SameTransitive(st, t, u);
        SameTransitive(st, u, end);
        ReadsOne(t, Comma);
        ReadsAppend(st, ls, marks, t, [Comma], [PUNCT], u);
        ReadsAppend(st, ls + [Comma], marks + [PUNCT], u, MemberLexemes(ms[1..]), MemberMarks(ms[1..], d), end);
      }
    }
  }

  // ----- and cannot follow it once the depth has wrapped -----

  lemma {:induction false} AnnotateAppend(st: State, a: seq<Lexeme>, b: seq<Lexeme>)
    ensures Annotate(st, a + b) == Annotate(st, a) + Annotate(After(st, a), b)
    ensures After(st, a + b) == After(After(st, a), b)
  {
    ReadsAppend(st, a, Annotate(st, a), After(st, a), b, Annotate(After(st, a), b), After(After(st, a), b));
  }

  lemma {:induction false} OneMarkEach(st: State, ls: seq<Lexeme>)
    ensures |Annotate(st, ls)| == |ls|
    decreases |ls|
  {
    hide MarkOf, Next;
    if ls != [] {
      OneMarkEach(Next(st, ls[0]), ls[1..]);
    }
  }

  lemma {:induction false} MarksCount(v: Json, d: nat)
    ensures |Marks(v, d)| == |Lexemes(v)|
    decreases v, 1
  {
    match v
    case JArr(es) => ElemMarksCount(es, d + 1);
    case JObj(ms) => MemberMarksCount(ms, d + 1);
    case _ =>
  }

  lemma {:induction false} ElemMarksCount(es: seq<Json>, d: nat)
    ensures |ElemMarks(es, d)| == |ElemLexemes(es)|
    decreases es, 0
  {
    if es == [] {
    } else {
      hide Lexemes, Marks;
      MarksCount(es[0], d);
      ElemMarksCount(es[1..], d);
    }
  }

  lemma {:induction false} MemberMarksCount(ms: seq<Member>, d: nat)
    ensures |MemberMarks(ms, d)| == |MemberLexemes(ms)|
    decreases ms, 0
  {
    if ms == [] {
    } else {
      hide Lexemes, Marks;
      MarksCount(ms[0].value, d);
      MemberMarksCount(ms[1..], d);
    }
  }

  lemma SplitsAlike<T>(p: seq<T>, q: seq<T>, x: seq<T>, y: seq<T>)
    requires |p| == |x|
    ensures p + q == x + y <==> p == x && q == y
  {
    assert (p + q)[..|p|] == p && (p + q)[|p|..] == q;
    assert (x + y)[..|x|] == x && (x + y)[|x|..] == y;
  }

  /** Two texts whose heads are marked alike are marked alike only if their tails are. */
  lemma PartsDiffer(st: State, a: seq<Lexeme>, b: seq<Lexeme>, x: seq<Mark>, y: seq<Mark>)
    requires |x| == |a| && |y| == |b|
    requires Annotate(st, a) != x || Annotate(After(st, a), b) != y
    ensures Annotate(st, a + b) != x + y
  {
    AnnotateAppend(st, a, b);
    OneMarkEach(st, a);
    SplitsAlike(Annotate(st, a), Annotate(After(st, a), b), x, y);
  }

  lemma AfterOne(st: State, l: Lexeme)
    ensures After(st, [l]) == Next(st, l) && Annotate(st, [l]) == [MarkOf(st, l)]
  {
    hide Next, MarkOf;
    ReadsOne(st, l);
  }

  /** Reading whole values never leaves the depth higher than it was, wrapped or not. */
  lemma {:induction false} ValueSinks(v: Json, st: State)
    ensures After(st, Lexemes(v)).depth <= st.depth
    decreases v, 1
  {
    hide Top, KindOf, DepthOf;
    match v
    case JArr(es) =>
      ElemsSink(es, Push(st, false));
      BracketsSink(st, false, ElemLexemes(es));
    case JObj(ms) =>
      MembersSink(ms, Push(st, true));
      BracketsSink(st, true, MemberLexemes(ms));
    case _ => AfterOne(st, Lexemes(v)[0]);
  }

  lemma BracketsSink(st: State, obj: bool, ls: seq<Lexeme>)
    requires After(Push(st, obj), ls).depth <= Push(st, obj).depth
    ensures After(st, [Open(obj)] + ls + [Close(obj)]).depth <= st.depth
    ensures After(st, [Open(obj)] + ls) == After(Push(st, obj), ls)
  {
    hide After;
    AnnotateAppend(st, [Open(obj)] + ls, [Close(obj)]);
    AnnotateAppend(st, [Open(obj)], ls);
    AfterOne(st, Open(obj));
    AfterOne(After(Push(st, obj), ls), Close(obj));
  }

  lemma {:induction false} ElemsSink(es: seq<Json>, st: State)
    ensures After(st, ElemLexemes(es)).depth <= st.depth
    decreases es, 0
  {
    if es == [] {
    } else {
      ValueSinks(es[0], st);
      hide After, Lexemes;
      if |es| > 1 {
        var mid := After(st, Lexemes(es[0]));
        AnnotateAppend(st, Lexemes(es[0]), [Comma]);
        AfterOne(mid, Comma);
        AnnotateAppend(st, Lexemes(es[0]) + [Comma], ElemLexemes(es[1..]));
        ElemsSink(es[1..], Top(mid, true));
      }
    }
  }

  lemma {:induction false} MembersSink(ms: seq<Member>, st: State)
    ensures After(st, MemberLexemes(ms)).depth <= st.depth
    decreases ms, 0
  {
    if ms == [] {
    } else {
      var head, ls := [Quoted(ms[0].key), Colon], Lexemes(ms[0].value);
      HeadAfter(st, ms[0].key);
      AnnotateAppend(st, head, ls);
      ValueSinks(ms[0].value, Top(st, false));
      hide After, Lexemes;
      if |ms| > 1 {
        var mid := After(st, head + ls);
        AnnotateAppend(st, head + ls, [Comma]);
        AfterOne(mid, Comma);
        AnnotateAppend(st, head + ls + [Comma], MemberLexemes(ms[1..]));
        MembersSink(ms[1..], Top(mid, true));
      }
    }
  }

  lemma HeadAfter(st: State, key: seq<byte>)
    ensures After(st, [Quoted(key), Colon]) == Top(st, false)
  {
    AnnotateAppend(st, [Quoted(key)], [Colon]);
    assert [Quoted(key)] + [Colon] == [Quoted(key), Colon];
    AfterOne(st, Quoted(key));
    AfterOne(st, Colon);
  }

  /** The bracket that reaches depth 256 closes at depth 0: the marks are no longer the grammar's. */
  lemma WrapShows(st: State, obj: bool, ls: seq<Lexeme>, marks: seq<Mark>)
    requires st.depth == 255 && |marks| == |ls|
    requires After(Push(st, obj), ls).depth <= Push(st, obj).depth
    ensures var m := Mark(Bracket, 255); Annotate(st, [Open(obj)] + ls + [Close(obj)]) != [m] + marks + [m]
  {
    hide Annotate, After;
    var m := Mark(Bracket, 255);
    BracketsSink(st, obj, ls);
    var mid := After(Push(st, obj), ls);
    AfterOne(mid, Close(obj));
    assert MarkOf(mid, Close(obj)) != m;
    PartsDiffer(st, [Open(obj)] + ls, [Close(obj)], [m] + marks, [m]);
  }

  lemma InsideShows(st: State, obj: bool, ls: seq<Lexeme>, m: Mark, marks: seq<Mark>)
    requires |marks| == |ls| && Annotate(Push(st, obj), ls) != marks
    ensures Annotate(st, [Open(obj)] + ls + [Close(obj)]) != [m] + marks + [m]
  {
    hide Annotate, After, Push;
    AfterOne(st, Open(obj));
    PartsDiffer(st, [Open(obj)], ls, [m], marks);
    PartsDiffer(st, [Open(obj)] + ls, [Close(obj)], [m] + marks, [m]);
  }

  lemma {:induction false} DeepValue(v: Json, st: State)
    requires !KeyExpected(st) && st.depth + Nesting(v) > 255
    ensures Annotate(st, Lexemes(v)) != Marks(v, st.depth)
    decreases v, 1
  {
    hide Annotate, After, Push, SameButTop, InObject, InArray, KeyExpected;
    var m := Mark(Bracket, st.depth);
    match v
    case JArr(es) =>
      var inner := Push(st, false);
      PushedIn(st, false);
      ElemMarksCount(es, st.depth + 1);
      if st.depth == 255 {
        ElemsSink(es, inner);
        WrapShows(st, false, ElemLexemes(es), ElemMarks(es, 256));
      } else {
        DeepElems(es, inner);
        InsideShows(st, false, ElemLexemes(es), m, ElemMarks(es, st.depth + 1));
      }
    case JObj(ms) =>
      var inner := Push(st, true);
      PushedIn(st, true);
      MemberMarksCount(ms, st.depth + 1);
      if st.depth == 255 {
        MembersSink(ms, inner);
        WrapShows(st, true, MemberLexemes(ms), MemberMarks(ms, 256));
      } else {
        DeepMembers(ms, inner);
        InsideShows(st, true, MemberLexemes(ms), m, MemberMarks(ms, st.depth + 1));
      }
    case _ =>
  }

  lemma {:induction false} DeepElems(es: seq<Json>, st: State)
    requires !KeyExpected(st) && InArray(st) && st.depth + ElemNesting(es) > 255
    ensures Annotate(st, ElemLexemes(es)) != ElemMarks(es, st.depth)
    decreases es, 0
  {
    if es == [] {
    } else {
      hide Annotate, After, KeyExpected, Lexemes, Marks, Nesting;
      var d := st.depth;
      var a, x := Lexemes(es[0]), Marks(es[0], d);
      MarksCount(es[0], d);
      var shallow := st.depth + Nesting(es[0]) <= 255;
      if shallow {
        ValueMarked(es[0], st);
      } else {
        DeepValue(es[0], st);
      }
      if |es| > 1 {
        var b, y := ElemLexemes(es[1..]), ElemMarks(es[1..], d);
        ElemMarksCount(es[1..], d);
        if shallow {
          ReadsOne(st, Comma);
          ReadsAppend(st, a, x, st, [Comma], [PUNCT], st);
          DeepElems(es[1..], st);
        } else {
          PartsDiffer(st, a, [Comma], x, [PUNCT]);
        }
        PartsDiffer(st, a + [Comma], b, x + [PUNCT], y);
      }
    }
  }

  lemma {:induction false} DeepMembers(ms: seq<Member>, st: State)
    requires KeyExpected(st) && InObject(st) && st.depth + MemberNesting(ms) > 255
    ensures Annotate(st, MemberLexemes(ms)) != MemberMarks(ms, st.depth)
    decreases ms, 0
  {
    if ms == [] {
    } else {
      hide Annotate, After, KeyExpected, Lexemes, Marks, Nesting, InObject, Top;
      var d, v := st.depth, ms[0].value;
      var t := Top(st, false);
      var u := Top(t, true);
      TopTurns(st);
      TopTurns(t);
      var head, first := [Quoted(ms[0].key), Colon], [Mark(Key, 0), PUNCT];
      MarksCount(v, d);
      var shallow := d + Nesting(v) <= 255;
      if shallow {
        MemberMarked(ms[0], st);
      } else {
        HeadAfter(st, ms[0].key);
        DeepValue(v, t);
        PartsDiffer(st, head, Lexemes(v), first, Marks(v, d));
      }
      if |ms| > 1 {
        var a, x := head + Lexemes(v), first + Marks(v, d);
        var b, y := MemberLexemes(ms[1..]), MemberMarks(ms[1..], d);
        MemberMarksCount(ms[1..], d);
        if shallow {
          ReadsOne(t, Comma);
          ReadsAppend(st, a, x, t, [Comma], [PUNCT], u);
          DeepMembers(ms[1..], u);
        } else {
          PartsDiffer(st, a, [Comma], x, [PUNCT]);
        }
        PartsDiffer(st, a + [Comma], b, x + [PUNCT], y);
      }
    }
  }

  // ----- a value's lexemes are sound -----

  lemma SoundAppend(a: seq<Lexeme>, b: seq<Lexeme>)
    requires Sound(a) && Sound(b) && (a != [] && b != [] ==> !IsScalar(a[|a| - 1]) || !IsScalar(b[0]))
    ensures Sound(a + b)
  {
  }

  lemma {:induction false} ValueSound(v: Json)
    requires LegalJson(v)
    ensures Sound(Lexemes(v))
    decreases v, 1
  {
    match v
    case JArr(es) =>
      ElemsSound(es);
      SoundAppend([Open(false)], ElemLexemes(es));
      SoundAppend([Open(false)] + ElemLexemes(es), [Close(false)]);
    case JObj(ms) =>
      MembersSound(ms);
      SoundAppend([Open(true)], MemberLexemes(ms));
      SoundAppend([Open(true)] + MemberLexemes(ms), [Close(true)]);
    case _ =>
  }

  lemma {:induction false} ElemsSound(es: seq<Json>)
    requires forall e <- es :: LegalJson(e)
    ensures Sound(ElemLexemes(es))
    decreases es, 0
  {
    if es == [] {
    } else {
      hide Lexemes, LegalJson;
      ValueSound(es[0]);
      if |es| > 1 {
        ElemsSound(es[1..]);
        SoundAppend(Lexemes(es[0]), [Comma]);
        SoundAppend(Lexemes(es[0]) + [Comma], ElemLexemes(es[1..]));
      }
    }
  }

  lemma {:induction false} MembersSound(ms: seq<Member>)
    requires forall m <- ms :: LegalBody(m.key) && LegalJson(m.value)
    ensures Sound(MemberLexemes(ms))
    decreases ms, 0
  {
    if ms == [] {
    } else {
      hide Lexemes, LegalJson, LegalBody;
      var head, ls := [Quoted(ms[0].key), Colon], Lexemes(ms[0].value);
      assert LegalBody(ms[0].key);
      ValueSound(ms[0].value);
      SoundAppend(head, ls);
      if |ms| > 1 {
        MembersSound(ms[1..]);
        SoundAppend(head + ls, [Comma]);
        SoundAppend(head + ls + [Comma], MemberLexemes(ms[1..]));
      }
    }
  }

  // ----- the whole text -----

  /** The pieces are exactly the lexemes, in order, with these marks. */
  predicate PiecesAre(text: seq<byte>, ps: seq<Piece>, ls: seq<Lexeme>, marks: seq<Mark>) {
    && |ps| == |ls| == |marks|
    && forall i | 0 <= i < |ps| ::
         && ps[i].start + ps[i].len <= |text|
         && text[ps[i].start..ps[i].start + ps[i].len] == LexBytes(ls[i])
         && ps[i].kind == marks[i].kind && ps[i].depth == marks[i].depth
  }

  lemma PiecesCons(text: seq<byte>, p: Piece, ps: seq<Piece>, ls: seq<Lexeme>, m: Mark, marks: seq<Mark>)
    requires ls != [] && PiecesAre(text, ps, ls[1..], marks)
    requires p.start + p.len <= |text| && text[p.start..p.start + p.len] == LexBytes(ls[0])
    requires p.kind == m.kind && p.depth == m.depth
    ensures PiecesAre(text, [p] + ps, ls, [m] + marks)
  {
    hide LexBytes;
    forall i | 0 < i < |ls| ensures ([p] + ps)[i] == ps[i - 1] && ls[i] == ls[1..][i - 1] && ([m] + marks)[i] == marks[i - 1] {
    }
  }

  lemma {:induction false} ExpectedAre(pre: seq<byte>, ls: seq<Lexeme>, gaps: seq<seq<byte>>, st: State)
    requires |gaps| == |ls| + 1
    ensures PiecesAre(pre + Render(ls, gaps), Expected(ls, gaps, |pre|, st), ls, Annotate(st, ls))
    decreases |ls|
  {
    hide LexBytes, KindOf, DepthOf, Next, PiecesAre, Render, Expected, Annotate, MarkOf;
    if ls == [] {
      NothingExpected(pre + Render(ls, gaps), gaps, |pre|, st);
    } else {
      var l, rest := LexBytes(ls[0]), Render(ls[1..], gaps[1..]);
      var before := pre + gaps[0] + l;
      ExpectedAre(before, ls[1..], gaps[1..], Next(st, ls[0]));
      ExpectedFirst(pre, ls, gaps, st);
      PiecesCons(before + rest, Piece(|pre| + |gaps[0]|, |l|, KindOf(st, ls[0]), DepthOf(st, ls[0])),
        Expected(ls[1..], gaps[1..], |before|, Next(st, ls[0])), ls, MarkOf(st, ls[0]), Annotate(Next(st, ls[0]), ls[1..]));
    }
  }

  lemma NothingExpected(text: seq<byte>, gaps: seq<seq<byte>>, off: nat, st: State)
    requires |gaps| == 1
    ensures PiecesAre(text, Expected([], gaps, off, st), [], Annotate(st, []))
  {
  }

  /** The text, the pieces and the marks each start with the first lexeme's. */
  lemma ExpectedFirst(pre: seq<byte>, ls: seq<Lexeme>, gaps: seq<seq<byte>>, st: State)
    requires ls != [] && |gaps| == |ls| + 1
    ensures var l, rest, at := LexBytes(ls[0]), Render(ls[1..], gaps[1..]), |pre| + |gaps[0]|;
            && pre + Render(ls, gaps) == pre + gaps[0] + l + rest
            && (pre + gaps[0] + l + rest)[at..at + |l|] == l
            && Expected(ls, gaps, |pre|, st)
               == [Piece(at, |l|, KindOf(st, ls[0]), DepthOf(st, ls[0]))]
                  + Expected(ls[1..], gaps[1..], at + |l|, Next(st, ls[0]))
            && Annotate(st, ls) == [MarkOf(st, ls[0])] + Annotate(Next(st, ls[0]), ls[1..])
            && MarkOf(st, ls[0]).kind == KindOf(st, ls[0]) && MarkOf(st, ls[0]).depth == DepthOf(st, ls[0])
  {
    hide LexBytes, KindOf, DepthOf, Next;
    var l, rest := LexBytes(ls[0]), Render(ls[1..], gaps[1..]);
    assert Render(ls, gaps) == gaps[0] + (l + rest);
    hide Render, Expected, Annotate;
    Associative(pre + gaps[0], l, rest);
    Associative(pre, gaps[0], l + rest);
  }

  lemma MarksAreUnique(text: seq<byte>, ps: seq<Piece>, ls: seq<Lexeme>, x: seq<Mark>, y: seq<Mark>)
    requires PiecesAre(text, ps, ls, x)
    ensures PiecesAre(text, ps, ls, y) <==> x == y
  {
    hide LexBytes;
    if PiecesAre(text, ps, ls, y) {
      assert forall i | 0 <= i < |x| :: x[i] == Mark(ps[i].kind, ps[i].depth) == y[i];
    }
  }

  /**
   Every JSON value, written with any white space around its lexemes, is found lexeme by lexeme, and exactly
   those nesting at most 255 deep get the grammar's marks: keys and only keys are keys, and the two brackets
   of one value carry the depth they lie at.
   */
  lemma ValueFound(v: Json, gaps: seq<seq<byte>>)
    requires LegalJson(v)
    requires |gaps| == |Lexemes(v)| + 1 && forall g <- gaps :: AllBlank(g)
    ensures var text := Render(Lexemes(v), gaps);
            && PiecesAre(text, Pieces(text, 0, START), Lexemes(v), Annotate(START, Lexemes(v)))
            && (PiecesAre(text, Pieces(text, 0, START), Lexemes(v), Marks(v, 0)) <==> Nesting(v) <= 255)
  {
    hide PiecesAre, Lexemes, Marks, Nesting, LegalJson, AllBlank, Sound, Pieces, Expected, Annotate;
    var ls := Lexemes(v);
    ValueSound(v);
    LexemesFound(ls, gaps, 0, START);
    ExpectedAre([], ls, gaps, START);
    var text := Render(ls, gaps);
    assert [] + text == text;
    MarksAreUnique(text, Pieces(text, 0, START), ls, Annotate(START, ls), Marks(v, 0));
    if Nesting(v) <= 255 {
      ValueMarked(v, START);
    } else {
      DeepValue(v, START);
    }
  }

  /** The tokens a piece is cut into lie end to end over it, and share its kind and depth. */
  predicate CutsOf(p: Piece, toks: seq<Token>)
    decreases |toks|
  {
    if toks == [] then p.len == 0
    else
      var t := toks[0];
      && t.start == p.start && 0 < t.len <= MAX_TOKEN_LEN && t.len <= p.len && t.kind == p.kind && t.depth == p.depth
      && (|toks| > 1 ==> t.len == MAX_TOKEN_LEN)
      && CutsOf(p.(start := p.start + t.len, len := p.len - t.len), toks[1..])
  }

  lemma {:induction false} CutJoins(p: Piece)
    ensures CutsOf(p, Cut(p))
    decreases p.len
  {
    if p.len > 0 {
      var n := Min(p.len, MAX_TOKEN_LEN);
      var q := p.(start := p.start + n, len := p.len - n);
      CutJoins(q);
      assert Cut(p)[1..] == Cut(q);
    }
  }

  // ----- comments, which JSON does not have -----

  lemma {:induction false} LineRuns(body: seq<byte>, rest: seq<byte>)
    requires (forall k | 0 <= k < |body| :: NotNewline(body[k])) && (rest == [] || !NotNewline(rest[0]))
    ensures SpanLen(body + rest, NotNewline) == |body|
    decreases |body|
  {
    var s := body + rest;
    if body == [] {
      assert s == rest;
    } else {
      assert s[0] == body[0] && s[1..] == body[1..] + rest;
      LineRuns(body[1..], rest);
    }
  }

  const SLASH: byte := '/' as int
  const STAR: byte := '*' as int

  /** A line comment runs to the end of its line and changes nothing. */
  lemma LineCommentFound(body: seq<byte>, rest: seq<byte>, st: State)
    requires (forall k | 0 <= k < |body| :: NotNewline(body[k])) && (rest == [] || !NotNewline(rest[0]))
    ensures Find([SLASH, SLASH] + body + rest, st) == Found(|body| + 2, Some((Comment, 0)), st)
  {
    hide SpanLen;
    var s := [SLASH, SLASH] + body + rest;
    assert s[0] == SLASH && s[1] == SLASH && s[2..] == body + rest;
    LineRuns(body, rest);
  }

  /** No closing sign inside, nor across the end. */
  predicate Unclosed(body: seq<byte>) {
    forall k | 0 <= k < |body| :: !(body[k] == STAR && At(body + [STAR], k + 1, '/'))
  }

  lemma {:induction false} BlockRuns(body: seq<byte>, rest: seq<byte>)
    requires Unclosed(body)
    ensures BlockLen(body + [STAR, SLASH] + rest) == |body| + if |rest| == 1 then 3 else 2
    decreases |body|
  {
    var s := body + [STAR, SLASH] + rest;
    if body == [] {
      assert s[0] == STAR && s[1] == SLASH;
    } else {
      var more := body[1..];
      assert s[0] == body[0] && s[1..] == more + [STAR, SLASH] + rest;
      assert s[1] == (body + [STAR])[1];
      forall k | 0 <= k < |more| ensures !(more[k] == STAR && At(more + [STAR], k + 1, '/')) {
        assert more[k] == body[k + 1] && (more + [STAR])[k + 1] == (body + [STAR])[k + 2];
      }
      BlockRuns(more, rest);
    }
  }

  /** A block comment runs to its first closing sign, and exactly if one byte is left behind that it takes it in. */
  lemma BlockCommentFound(body: seq<byte>, rest: seq<byte>, st: State)
    requires Unclosed(body)
    ensures Find([SLASH, STAR] + body + [STAR, SLASH] + rest, st)
              == Found(|body| + if |rest| == 1 then 5 else 4, Some((Comment, 0)), st)
  {
    hide BlockLen, Unclosed;
    var s := [SLASH, STAR] + body + [STAR, SLASH] + rest;
    assert s[0] == SLASH && s[1] == STAR && s[2..] == body + [STAR, SLASH] + rest;
    BlockRuns(body, rest);
  }

  // ----- what is no JSON -----

  lemma {:induction false} BodyStops(b: seq<byte>, rest: seq<byte>)
    requires LegalBody(b) && At(rest, 0, '\n')
    ensures StringLen(b + rest) == |b|
    decreases |b|
  {
    var s := b + rest;
    if b == [] {
      assert s == rest;
    } else if b[0] == '\\' as int {
      BodyStops(b[2..], rest);
      assert s[0] == b[0] && s[2..] == b[2..] + rest;
    } else {
      BodyStops(b[1..], rest);
      assert s[0] == b[0] && s[1..] == b[1..] + rest;
    }
  }

  /** A string that is not closed ends with its line. */
  lemma UnfinishedStringFound(b: seq<byte>, rest: seq<byte>, st: State)
    requires LegalBody(b) && At(rest, 0, '\n')
    ensures Find(['"' as int] + b + rest, st) == Found(|b| + 1, Some((if KeyExpected(st) then Key else Str, 0)), st)
  {
    hide StringLen, NumberLen, HasWord, SpanLen, BlockLen, LegalBody, KeyExpected;
    var s := ['"' as int] + b + rest;
    assert s[0] == '"' as int && s[1..] == b + rest;
    BodyStops(b, rest);
  }

  lemma {:induction false} PlainRuns(body: seq<byte>, rest: seq<byte>)
    requires (forall c <- body :: InPlain(c)) && (rest == [] || !InPlain(rest[0]))
    ensures SpanLen(body + rest, InPlain) == |body|
    decreases |body|
  {
    var s := body + rest;
    if body == [] {
      assert s == rest;
    } else {
      assert body[0] in body && s[0] == body[0] && s[1..] == body[1..] + rest;
      assert forall c <- body[1..] :: c in body;
      PlainRuns(body[1..], rest);
    }
  }

  /** Bytes that start no lexeme are one plain piece up to the next blank, quote, bracket, comma, colon or slash. */
  lemma PlainFound(body: seq<byte>, rest: seq<byte>, st: State)
    requires body != [] && (forall c <- body :: !Breaks(c)) && (rest == [] || Breaks(rest[0]))
    requires !IsDigit(body[0]) && body[0] !in {'-' as int, 't' as int, 'f' as int, 'n' as int}
    ensures Find(body + rest, st) == Found(|body|, Some((Plain, 0)), st)
  {
    assert body[0] in body;
    PlainRuns(body, rest);
    hide SpanLen, NumberLen, StringLen, BlockLen;
    var s := body + rest;
    assert s[0] == body[0];
    FirstDiffers(TRUE, s);
    FirstDiffers(FALSE, s);
    FirstDiffers(NULL, s);
  }

  lemma FirstDiffers(w: seq<byte>, s: seq<byte>)
    requires w != [] && s != []
    ensures w[0] != s[0] ==> !(w <= s)
  {
  }
}
