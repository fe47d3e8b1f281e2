/**
 The MessagePack validator: an iterative check with a counter of pending elements, proved to
 accept exactly the byte strings that are one object of the recursive MessagePack grammar.
 */
module Msgpack {
  import opened Bytes

  // ----- the grammar -----

  /** One object, by family of formats; `head` is the first byte. */
  datatype Obj =
    | Plain(head: byte)                                    // nil, false, true, the fixed integers
    | Number(head: byte, body: seq<byte>)                  // floats and sized integers
    | FixStr(str: seq<byte>)
    | Blob(head: byte, data: seq<byte>)                    // bin and str with a length field
    | FixExt(head: byte, kind: byte, data: seq<byte>)
    | Ext(head: byte, kind: byte, data: seq<byte>)
    | FixArray(elems: seq<Obj>)
    | Array(head: byte, elems: seq<Obj>)
    | FixMap(elems: seq<Obj>)                              // keys and values, alternating
    | Map(head: byte, elems: seq<Obj>)

  predicate IsPlain(c: byte) {
    c <= 0x7f || c >= 0xe0 || c == 0xc0 || c == 0xc2 || c == 0xc3
  }

  /** Width of the length field behind each first byte that has one; 0 for the rest. */
  function LengthWidth(c: byte): nat {
    match c
    case 0xc4 => 1 case 0xc5 => 2 case 0xc6 => 4   // bin 8, 16, 32
    case 0xc7 => 1 case 0xc8 => 2 case 0xc9 => 4   // ext 8, 16, 32
    case 0xd9 => 1 case 0xda => 2 case 0xdb => 4   // str 8, 16, 32
    case 0xdc => 2 case 0xdd => 4                  // array 16, 32
    case 0xde => 2 case 0xdf => 4                  // map 16, 32
    case _ => 0
  }

  function NumberSize(c: byte): nat {
    match c
    case 0xca => 4 case 0xcb => 8                                // float 32, 64
    case 0xcc => 1 case 0xcd => 2 case 0xce => 4 case 0xcf => 8  // uint 8, 16, 32, 64
    case 0xd0 => 1 case 0xd1 => 2 case 0xd2 => 4 case 0xd3 => 8  // int 8, 16, 32, 64
    case _ => 0
  }

  function FixExtSize(c: byte): nat {
    match c
    case 0xd4 => 1 case 0xd5 => 2 case 0xd6 => 4 case 0xd7 => 8 case 0xd8 => 16
    case _ => 0
  }

  /** Does a length fit a field of this width? */
  predicate Fits(n: nat, width: nat) {
    (width == 1 && n < 256) || (width == 2 && n < TWO16) || (width == 4 && n < TWO32)
  }

  function BeWidth(n: nat, width: nat): (b: seq<byte>)
    requires Fits(n, width)
    ensures |b| == width
  {
    if width == 1 then [n] else if width == 2 then Be16(n) else Be32(n)
  }

  predicate Legal(o: Obj) {
    match o
    case Plain(c) => IsPlain(c)
    case Number(c, body) => NumberSize(c) > 0 && |body| == NumberSize(c)
    case FixStr(s) => |s| < 32
    case Blob(c, data) => (0xc4 <= c <= 0xc6 || 0xd9 <= c <= 0xdb) && Fits(|data|, LengthWidth(c))
    case FixExt(c, _, data) => FixExtSize(c) > 0 && |data| == FixExtSize(c)
    case Ext(c, _, data) => 0xc7 <= c <= 0xc9 && Fits(|data|, LengthWidth(c))
    case FixArray(es) => |es| < 16 && forall e <- es :: Legal(e)
    case Array(c, es) => 0xdc <= c <= 0xdd && Fits(|es|, LengthWidth(c)) && forall e <- es :: Legal(e)
    case FixMap(es) => |es| % 2 == 0 && |es| / 2 < 16 && forall e <- es :: Legal(e)
    case Map(c, es) =>
      0xde <= c <= 0xdf && |es| % 2 == 0 && Fits(|es| / 2, LengthWidth(c)) && forall e <- es :: Legal(e)
  }

  /** The first byte, the length field and the bytes of its own that an object starts with. */
  function Front(o: Obj): (b: seq<byte>)
    requires Legal(o)
    ensures |b| > 0
  {
    match o
    case Plain(c) => [c]
    case Number(c, body) => [c] + body
    case FixStr(s) => [0xa0 + |s|] + s
    case Blob(c, data) => [c] + BeWidth(|data|, LengthWidth(c)) + data
    case FixExt(c, kind, data) => [c] + ([kind] + data)
    case Ext(c, kind, data) => [c] + BeWidth(|data|, LengthWidth(c)) + ([kind] + data)
    case FixArray(es) => [0x90 + |es|]
    case Array(c, es) => [c] + BeWidth(|es|, LengthWidth(c))
    case FixMap(es) => [0x80 + |es| / 2]
    case Map(c, es) => [c] + BeWidth(|es| / 2, LengthWidth(c))
  }

  function Children(o: Obj): seq<Obj> {
    match o
    case FixArray(es) => es
    case Array(_, es) => es
    case FixMap(es) => es
    case Map(_, es) => es
    case _ => []
  }

  predicate AllLegal(os: seq<Obj>) { forall o <- os :: Legal(o) }

  lemma ChildrenAreLegal(o: Obj)
    requires Legal(o)
    ensures AllLegal(Children(o))
  {
  }

  /** The encoding of one object: its front, then its children. */
  function Encoding(o: Obj): (b: seq<byte>)
    requires Legal(o)
    ensures |b| > 0
    decreases o, 1
  {
    ChildrenAreLegal(o);
    Front(o) + match o
               case FixArray(es) => Encodings(es)
               case Array(_, es) => Encodings(es)
               case FixMap(es) => Encodings(es)
               case Map(_, es) => Encodings(es)
               case _ => []
  }

  function Encodings(os: seq<Obj>): (b: seq<byte>)
    requires AllLegal(os)
    ensures |b| >= |os|
    decreases os, 0
  {
    if os == [] then [] else Encoding(os[0]) + Encodings(os[1..])
  }

  /** The bytes are exactly `k` objects one after another. */
  ghost predicate IsObjects(b: seq<byte>, k: nat) {
    exists os: seq<Obj> :: IsEncodingOf(b, os) && |os| == k
  }

  ghost predicate IsEncodingOf(b: seq<byte>, os: seq<Obj>) {
    AllLegal(os) && Encodings(os) == b
  }

  /** The bytes are one well-formed object. */
  ghost predicate WellFormed(b: seq<byte>) {
    exists o: Obj :: Legal(o) && Encoding(o) == b
  }

  // ----- the validator -----

  function LenBytes(c: byte): nat {
    if c == 0xc4 || c == 0xc7 || c == 0xd9 then 1
    else if c == 0xc5 || c == 0xc8 || c == 0xda || c == 0xdc || c == 0xde then 2
    else 4
  }

  /** The length field at `i`; lengths beyond the whole input are refused at once. */
  function ReadLen(b: seq<byte>, i: nat, width: nat): (r: Option<nat>)
    requires i <= |b| && (width == 1 || width == 2 || width == 4)
    ensures r.Some? ==> i + width <= |b|
  {
    if |b| - i < width then None
    else
      var n: nat := if width == 1 then b[i]
                    else if width == 2 then U16(b[i..i + 2])
                    else U32(b[i..i + 4]);
      if n > |b| then None else Some(n)
  }

  /** What one round of the loop finds: how far to go, how many bytes to skip, how many elements to expect. */
  datatype Round = Round(adv: nat, skip: nat, elems: nat)

  predicate HasLength(c: byte) { 0xc4 <= c <= 0xc9 || 0xd9 <= c <= 0xdf }

  /** The first bytes that say everything themselves. */
  function FixedRound(c: byte): Option<Round>
    requires !HasLength(c)
  {
    if c <= 0x7f || c >= 0xe0 then Some(Round(0, 0, 0))
    else if c <= 0x8f then Some(Round(0, 0, 2 * (c - 0x80)))
    else if c <= 0x9f then Some(Round(0, 0, c - 0x90))
    else if c <= 0xbf then Some(Round(0, c - 0xa0, 0))
    else match c
      case 0xc0 => Some(Round(0, 0, 0)) case 0xc2 => Some(Round(0, 0, 0)) case 0xc3 => Some(Round(0, 0, 0))
      case 0xca => Some(Round(0, 4, 0)) case 0xcb => Some(Round(0, 8, 0))
      case 0xcc => Some(Round(0, 1, 0)) case 0xd0 => Some(Round(0, 1, 0))
      case 0xcd => Some(Round(0, 2, 0)) case 0xd1 => Some(Round(0, 2, 0))
      case 0xce => Some(Round(0, 4, 0)) case 0xd2 => Some(Round(0, 4, 0))
      case 0xcf => Some(Round(0, 8, 0)) case 0xd3 => Some(Round(0, 8, 0))
      case 0xd4 => Some(Round(0, 2, 0)) case 0xd5 => Some(Round(0, 3, 0))
      case 0xd6 => Some(Round(0, 5, 0)) case 0xd7 => Some(Round(0, 9, 0))
      case 0xd8 => Some(Round(0, 17, 0))
      case _ => None
  }

  /** The first bytes with a length field behind them; a map's length counts pairs. */
  function SizedRound(c: byte, n: nat, left: nat): Option<Round> {
    var w := LenBytes(c);
    if 0xc4 <= c <= 0xc6 || 0xd9 <= c <= 0xdb then Some(Round(w, n, 0))
    else if c <= 0xc9 then Some(Round(w, n + 1, 0))
    else if c <= 0xdd then Some(Round(w, 0, n))
    else if n > left / 2 then None
    else Some(Round(w, 0, 2 * n))
  }

  function RoundAt(b: seq<byte>, i: nat): (r: Option<Round>)
    requires i < |b|
    ensures r.Some? ==> i + 1 + r.value.adv <= |b|
  {
    var c := b[i];
    if HasLength(c) then
      var w := LenBytes(c);
      var n := ReadLen(b, i + 1, w);
      if n.None? then None else SizedRound(c, n.value, |b| - (i + 1 + w))
    else FixedRound(c)
  }

  /** One round with all its checks: where it ends and how many elements it adds. */
  function Step(b: seq<byte>, i: nat): (r: Option<(nat, nat)>)
    ensures r.Some? ==> i < r.value.0 <= |b| && r.value.1 <= |b| - r.value.0
  {
    if i >= |b| || RoundAt(b, i).None? then None
    else
      var Round(adv, skip, elems) := RoundAt(b, i).value;
      var j := i + 1 + adv;
      if skip > |b| - j || elems > |b| - j - skip then None else Some((j + skip, elems))
  }

  method Validate(b: seq<byte>) returns (ok: bool)
    ensures ok <==> WellFormed(b)
  {
    hide RoundAt, IsObjects, WellFormed;
    OneObject(b);
    var pending, i := 1, 0;
    assert b[0..] == b;
    while pending > 0
      invariant 0 <= i <= |b|
      invariant WellFormed(b) <==> IsObjects(b[i..], pending)
      decreases |b| - i
    {
      StepDecides(b, i, pending);
      if i >= |b| { return false; }
      var round := RoundAt(b, i);
      if round.None? { return false; }
      var Round(adv, skip, elems) := round.value;
      i := i + 1 + adv;
      pending := pending - 1;
      if skip > |b| - i { return false; }
      i := i + skip;
      if elems > |b| - i { return false; }
      pending := pending + elems;
    }
    NoObjects(b[i..]);
    return i == |b|;
  }

  // ----- encodings of lists -----

  lemma EncodingIsFrontAndChildren(o: Obj)
    requires Legal(o)
    ensures AllLegal(Children(o)) && Encoding(o) == Front(o) + Encodings(Children(o))
  {
    ChildrenAreLegal(o);
  }

  lemma {:induction false} EncodingsAppend(xs: seq<Obj>, ys: seq<Obj>)
    requires AllLegal(xs) && AllLegal(ys)
    ensures AllLegal(xs + ys) && Encodings(xs + ys) == Encodings(xs) + Encodings(ys)
  {
    hide Encoding, Legal;
    if xs == [] {
      assert xs + ys == ys;
    } else {
      EncodingsAppend(xs[1..], ys);
      assert xs + ys == [xs[0]] + (xs[1..] + ys) && xs == [xs[0]] + xs[1..];
      EncodingsCons(xs[0], xs[1..] + ys);
      hide Encodings;
      Associative(Encoding(xs[0]), Encodings(xs[1..]), Encodings(ys));
      EncodingsCons(xs[0], xs[1..]);
    }
  }

  lemma EncodingsCons(o: Obj, others: seq<Obj>)
    requires Legal(o) && AllLegal(others)
    ensures AllLegal([o] + others) && Encodings([o] + others) == Encoding(o) + Encodings(others)
  {
    hide Encoding, Legal;
    assert ([o] + others)[1..] == others;
  }

  lemma OneObject(b: seq<byte>)
    ensures WellFormed(b) <==> IsObjects(b, 1)
  {
    if WellFormed(b) {
      var o :| Legal(o) && Encoding(o) == b;
      assert Encodings([o]) == Encoding(o) + Encodings([]);
      assert IsEncodingOf(b, [o]);
    }
    if IsObjects(b, 1) {
      var os :| IsEncodingOf(b, os) && |os| == 1;
      assert Legal(os[0]) && Encoding(os[0]) + Encodings(os[1..]) == b;
    }
  }

  lemma NoObjects(b: seq<byte>)
    ensures IsObjects(b, 0) <==> b == []
  {
    if b == [] {
      assert IsEncodingOf(b, []);
    }
  }

  // ----- a round decides exactly one object's front -----

  lemma ReadLenOf(b: seq<byte>, i: nat, n: nat, width: nat)
    requires Fits(n, width) && i + width <= |b| && b[i..i + width] == BeWidth(n, width)
    ensures ReadLen(b, i, width) == if n > |b| then None else Some(n)
  {
    if width == 1 {
      assert b[i] == b[i..i + 1][0];
    } else if width == 2 {
      U16OfBe16(n);
    } else {
      U32OfBe32(n);
    }
  }

  lemma LenBytesIsWidth(c: byte)
    requires LengthWidth(c) > 0
    ensures LenBytes(c) == LengthWidth(c)
  {
  }

  function Length(o: Obj): nat {
    match o
    case Blob(_, data) => |data|
    case Ext(_, _, data) => |data|
    case Array(_, es) => |es|
    case Map(_, es) => |es| / 2
    case _ => 0
  }

  predicate Sized(o: Obj) { o.Blob? || o.Ext? || o.Array? || o.Map? }

  lemma SizedFront(b: seq<byte>, i: nat, o: Obj, rest: seq<byte>)
    requires Legal(o) && Sized(o) && i <= |b| && b[i..] == Front(o) + rest && |rest| >= |Children(o)|
    ensures LengthWidth(o.head) > 0 && LenBytes(o.head) == LengthWidth(o.head)
    ensures b[i] == o.head && ReadLen(b, i + 1, LengthWidth(o.head)) == Some(Length(o))
  {
    hide BeWidth, ReadLen, Front, Legal, LengthWidth, Children, Fits;
    SizedParts(o);
    LenBytesIsWidth(o.head);
    hide LenBytes, Length;
    var w, n, tail := LengthWidth(o.head), Length(o), Tail(o);
    Associative([o.head] + BeWidth(n, w), tail, rest);
    FieldAfterFirst(b, i, o.head, BeWidth(n, w), tail + rest);
    assert |b[i..]| == |b| - i;
    hide Tail;
    ReadLenOf(b, i + 1, n, w);
  }

  /** What stands behind the length field. */
  function Tail(o: Obj): seq<byte> {
    match o
    case Blob(_, data) => data
    case Ext(_, kind, data) => [kind] + data
    case _ => []
  }

  lemma SizedParts(o: Obj)
    requires Legal(o) && Sized(o)
    ensures var w, n := LengthWidth(o.head), Length(o);
            && (w == 1 || w == 2 || w == 4) && Fits(n, w) && |BeWidth(n, w)| == w
            && Front(o) == [o.head] + BeWidth(n, w) + Tail(o)
            && n <= |Tail(o)| + |Children(o)|
  {
    hide BeWidth;
  }

  lemma FixedFront(o: Obj)
    requires Legal(o) && !Sized(o)
    ensures var c := Front(o)[0];
            !HasLength(c) && FixedRound(c) == Some(Round(0, |Front(o)| - 1, |Children(o)|))
  {
  }

  lemma SizedAccepted(b: seq<byte>, i: nat, o: Obj, rest: seq<byte>)
    requires Legal(o) && Sized(o) && i <= |b| && b[i..] == Front(o) + rest && |rest| >= |Children(o)|
    ensures |Front(o)| == 1 + LengthWidth(o.head)
      + (if o.Blob? then |o.data| else if o.Ext? then 1 + |o.data| else 0)
    ensures b[i] == o.head && HasLength(o.head)
    ensures RoundAt(b, i) == Some(Round(LengthWidth(o.head), |Front(o)| - 1 - LengthWidth(o.head), |Children(o)|))
  {
    hide BeWidth, ReadLen;
    SizedFront(b, i, o, rest);
    assert |b[i..]| == |Front(o)| + |rest|;
  }

  /** Completeness: a legal object in front of enough bytes is never refused. */
  lemma FrontAccepted(b: seq<byte>, i: nat, o: Obj, rest: seq<byte>)
    requires Legal(o) && i <= |b| && b[i..] == Front(o) + rest && |rest| >= |Children(o)|
    ensures Step(b, i) == Some((i + |Front(o)|, |Children(o)|))
  {
    hide FixedRound, Legal, LengthWidth;
    assert b[i] == b[i..][0] == Front(o)[0];
    assert |b[i..]| == |Front(o)| + |rest|;
    if Sized(o) {
      SizedAccepted(b, i, o, rest);
    } else {
      FixedFront(o);
    }
    hide Front, RoundAt;
  }

  lemma FixedFrontBuilds(b: seq<byte>, i: nat, cs: seq<Obj>) returns (o: Obj)
    requires Step(b, i).Some? && |cs| == Step(b, i).value.1 && AllLegal(cs)
    requires !HasLength(b[i])
    ensures Legal(o) && Front(o) == b[i..Step(b, i).value.0] && Children(o) == cs
  {
    var c, j := b[i], Step(b, i).value.0;
    assert FixedRound(c) == Some(Round(0, j - i - 1, |cs|));
    hide Step, RoundAt, BeWidth, LengthWidth, Fits;
    CutAfterFirst(b, i, j, j);
    assert b[i..j] == [c] + b[i + 1..j];
    if IsPlain(c) {
      o := Plain(c);
    } else if c <= 0x8f {
      o := FixMap(cs);
    } else if c <= 0x9f {
      o := FixArray(cs);
    } else if c <= 0xbf {
      o := FixStr(b[i + 1..j]);
    } else if NumberSize(c) > 0 {
      o := Number(c, b[i + 1..j]);
    } else {
      o := FixExt(c, b[i + 1], b[i + 2..j]);
      assert [b[i + 1]] + b[i + 2..j] == b[i + 1..j];
    }
  }

  lemma SizedFrontBuilds(b: seq<byte>, i: nat, cs: seq<Obj>) returns (o: Obj)
    requires Step(b, i).Some? && |cs| == Step(b, i).value.1 && AllLegal(cs)
    requires HasLength(b[i])
    ensures Legal(o) && Front(o) == b[i..Step(b, i).value.0] && Children(o) == cs
  {
    hide BeWidth, Fits, Step, LengthWidth, Legal, Front, Children;
    var c, j := b[i], Step(b, i).value.0;
    var w := LengthWidth(c);
    var k := i + 1 + w;
    SizedStep(b, i);
    if 0xc4 <= c <= 0xc6 || 0xd9 <= c <= 0xdb {
      o := Blob(c, b[k..j]);
      LeafFront(o, c, b[k..j]);
    } else if c <= 0xdb {
      o := Ext(c, b[k], b[k + 1..j]);
      assert [b[k]] + b[k + 1..j] == b[k..j];
      LeafFront(o, c, b[k + 1..j]);
    } else {
      o := if c <= 0xdd then Array(c, cs) else Map(c, cs);
      assert b[k..j] == [];
      NodeFront(o, c, cs);
    }
  }

  lemma LeafFront(o: Obj, c: byte, data: seq<byte>)
    requires Fits(|data|, LengthWidth(c))
    requires (o == Blob(c, data) && (0xc4 <= c <= 0xc6 || 0xd9 <= c <= 0xdb)) || (o.Ext? && o == Ext(c, o.kind, data) && 0xc7 <= c <= 0xc9)
    ensures Legal(o) && Children(o) == []
    ensures Front(o) == [c] + BeWidth(|data|, LengthWidth(c)) + (if o.Ext? then [o.kind] + data else data)
  {
    hide BeWidth, Fits, LengthWidth;
  }

  lemma NodeFront(o: Obj, c: byte, cs: seq<Obj>)
    requires AllLegal(cs) && 0xdc <= c <= 0xdf && (c > 0xdd ==> |cs| % 2 == 0)
    requires Fits(if c <= 0xdd then |cs| else |cs| / 2, LengthWidth(c))
    requires o == if c <= 0xdd then Array(c, cs) else Map(c, cs)
    ensures Legal(o) && Children(o) == cs
    ensures Front(o) == [c] + BeWidth(if c <= 0xdd then |cs| else |cs| / 2, LengthWidth(c)) + []
  {
    hide BeWidth, Fits, LengthWidth;
  }

  /** The front of an accepted object with a length field: what the length counts, and the bytes in three parts. */
  lemma SizedStep(b: seq<byte>, i: nat)
    requires Step(b, i).Some? && HasLength(b[i])
    ensures var c, (j, e) := b[i], Step(b, i).value;
            var w, k := LengthWidth(c), i + 1 + LengthWidth(c);
            && (w == 1 || w == 2 || w == 4) && i + 1 + w <= j <= |b|
            && var n := if 0xc4 <= c <= 0xc6 || 0xd9 <= c <= 0xdb then j - k
                        else if c <= 0xc9 then j - k - 1
                        else if c <= 0xdd then e else e / 2;
            && 0 <= n && Fits(n, w) && b[i..j] == [c] + BeWidth(n, w) + b[k..j]
            && (if c <= 0xdb then e == 0 else k == j && (c > 0xdd ==> e % 2 == 0))
  {
    hide BeWidth, ReadLen, Fits, FixedRound;
    var c, j := b[i], Step(b, i).value.0;
    var w := LengthWidth(c);
    LenBytesIsWidth(c);
    ReadLenIsBeWidth(b, i + 1, w);
    hide LenBytes;
    CutAfterFirst(b, i, i + 1 + w, j);
  }

  /** Soundness: whatever children follow, an accepted front and they make a legal object. */
  lemma FrontBuilds(b: seq<byte>, i: nat, cs: seq<Obj>) returns (o: Obj)
    requires Step(b, i).Some? && |cs| == Step(b, i).value.1 && AllLegal(cs)
    ensures Legal(o) && Front(o) == b[i..Step(b, i).value.0] && Children(o) == cs
  {
    hide Legal, Front;
    if HasLength(b[i]) {
      o := SizedFrontBuilds(b, i, cs);
    } else {
      o := FixedFrontBuilds(b, i, cs);
    }
  }

  lemma ReadLenIsBeWidth(b: seq<byte>, i: nat, width: nat)
    requires i <= |b| && (width == 1 || width == 2 || width == 4) && ReadLen(b, i, width).Some?
    ensures var n := ReadLen(b, i, width).value;
            Fits(n, width) && b[i..i + width] == BeWidth(n, width)
  {
    if width == 2 {
      Be16OfU16(b[i..i + 2]);
    } else if width == 4 {
      Be32OfU32(b[i..i + 4]);
    }
  }

  lemma AheadImpliesStep(b: seq<byte>, i: nat, pending: nat)
    requires i <= |b| && pending > 0 && IsObjects(b[i..], pending)
    ensures Step(b, i).Some? && IsObjects(b[Step(b, i).value.0..], pending - 1 + Step(b, i).value.1)
  {
    hide Step, Front, Legal, Children, Encoding, AllLegal, Encodings;
    var os :| IsEncodingOf(b[i..], os) && |os| == pending;
    FirstApart(os);
    var o, cs := os[0], Children(os[0]);
    var front, rest := Front(o), Encodings(cs + os[1..]);
    FrontAccepted(b, i, o, rest);
    assert b[i + |front|..] == b[i..][|front|..] == rest;
    assert IsEncodingOf(rest, cs + os[1..]);
  }

  /** The first object's front, then its children and the other objects. */
  lemma FirstApart(os: seq<Obj>)
    requires os != [] && AllLegal(os)
    ensures var o, left := os[0], Children(os[0]) + os[1..];
            && Legal(o) && AllLegal(left) && |Encodings(left)| >= |Children(o)|
            && Encodings(os) == Front(o) + Encodings(left)
  {
    hide Front, Legal, Children, Encoding;
    var o, cs := os[0], Children(os[0]);
    SplitLegal(os, 1);
    EncodingIsFrontAndChildren(o);
    EncodingsAppend(cs, os[1..]);
    hide Encodings;
    Associative(Front(o), Encodings(cs), Encodings(os[1..]));
    assert os == [o] + os[1..];
    EncodingsCons(o, os[1..]);
  }

  lemma SplitLegal(os: seq<Obj>, e: nat)
    requires e <= |os| && AllLegal(os)
    ensures AllLegal(os[..e]) && AllLegal(os[e..])
  {
    hide Legal;
  }

  lemma Regroup(o: Obj, os: seq<Obj>, e: nat)
    requires Legal(o) && e <= |os| && Children(o) == os[..e] && AllLegal(os)
    ensures var grouped := [o] + os[e..];
            AllLegal(grouped) && Encodings(grouped) == Front(o) + Encodings(os)
  {
    hide Legal, Front, Children, Encoding, Encodings, AllLegal;
    EncodingsSplit(os, e);
    EncodingIsFrontAndChildren(o);
    EncodingsCons(o, os[e..]);
    Associative(Front(o), Encodings(os[..e]), Encodings(os[e..]));
  }

  lemma EncodingsSplit(os: seq<Obj>, e: nat)
    requires e <= |os| && AllLegal(os)
    ensures AllLegal(os[..e]) && AllLegal(os[e..]) && Encodings(os) == Encodings(os[..e]) + Encodings(os[e..])
  {
    hide Encodings, AllLegal;
    SplitLegal(os, e);
    EncodingsAppend(os[..e], os[e..]);
    assert os == os[..e] + os[e..];
  }

  lemma StepImpliesAhead(b: seq<byte>, i: nat, pending: nat)
    requires pending > 0 && Step(b, i).Some?
    requires IsObjects(b[Step(b, i).value.0..], pending - 1 + Step(b, i).value.1)
    ensures IsObjects(b[i..], pending)
  {
    hide Step, Front, Legal, Children, Encodings;
    var (j, e) := Step(b, i).value;
    var os :| IsEncodingOf(b[j..], os) && |os| == pending - 1 + e;
    var o := FrontBuilds(b, i, os[..e]);
    Regroup(o, os, e);
    assert b[i..] == b[i..j] + b[j..];
    assert IsEncodingOf(b[i..], [o] + os[e..]);
  }

  /** `pending` objects lie ahead exactly if the round is accepted and the objects after it lie ahead. */
  lemma StepDecides(b: seq<byte>, i: nat, pending: nat)
    requires i <= |b| && pending > 0
    ensures IsObjects(b[i..], pending) <==>
            Step(b, i).Some? && IsObjects(b[Step(b, i).value.0..], pending - 1 + Step(b, i).value.1)
  {
    hide Step, IsObjects;
    if IsObjects(b[i..], pending) {
      AheadImpliesStep(b, i, pending);
    } else if Step(b, i).Some? && IsObjects(b[Step(b, i).value.0..], pending - 1 + Step(b, i).value.1) {
      StepImpliesAhead(b, i, pending);
    }
  }
}
