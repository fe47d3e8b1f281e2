/** Removing what a text view must not show: the slow path over runes and the fast path over bytes. */
module Sanitise {
  import opened Bytes
  import opened Utf8

  const NL: byte := 0x0A
  const REPLACEMENT: seq<byte> := [0xEF, 0xBF, 0xBD]

  predicate Printable(c: byte) { c == NL || 0x20 <= c < 0x7F }

  predicate LineSeparator(r: nat) { r == 0x2028 || r == 0x2029 }

  predicate Invisible(r: nat) {
    r == 0x200B || r == 0x200C || r == 0x200E || r == 0x200F || r == 0x00AD || r == 0x2060
    || r == 0x2066 || r == 0x2067 || r == 0x2068 || r == 0x2069 || r == 0xFEFF
  }

  predicate Control(r: nat) { r < 0x20 || 0x7F <= r <= 0x9F }

  /** What the rune at the front of `b` turns into; a carriage return before a newline vanishes. */
  function Shown(b: seq<byte>): seq<byte>
    requires b != []
  {
    var (r, n) := Decode(b);
    if Printable(b[0]) then [b[0]]
    else if IsError(r, n) then REPLACEMENT
    else if r == 0x09 then [0x20, 0x20, 0x20, 0x20]
    else if r == 0x0D then if n < |b| && b[n] == NL then [] else [NL]
    else if LineSeparator(r) then [NL]
    else if Invisible(r) || Control(r) then []
    else
      EncodeUndoesDecode(b);
      Encode(r)
  }

  function Sanitised(b: seq<byte>): seq<byte>
    decreases |b|
  {
    if b == [] then [] else Shown(b) + Sanitised(b[Decode(b).1..])
  }

  lemma PrintableWidth(b: seq<byte>)
    requires b != [] && b[0] < 0x80
    ensures Decode(b) == (b[0] as int, 1)
  {
  }

  /** The loops of both `sanitizeFromBytes` and `sanitizeString`: runs of printable bytes are copied whole. */
  method SanitizeSlow(data: seq<byte>) returns (out: seq<byte>)
    ensures out == Sanitised(data)
  {
    hide Shown, Decode, Sanitised;
    out := [];
    var i := 0;
    assert data[0..] == data && [] + Sanitised(data) == Sanitised(data);
    while i < |data|
      invariant 0 <= i <= |data|
      invariant Sanitised(data) == out + Sanitised(data[i..])
      decreases |data| - i
    {
      var start := i;
      i := PrintableRun(data, start);
      if i > start {
        Associative(out, data[start..i], Sanitised(data[i..]));
        out := out + data[start..i];
        if i >= |data| { break; }
      }
      SanitisedStep(data, i);
      var add := ShowRune(data, i);
      var n := Decode(data[i..]).1;
      Associative(out, add, Sanitised(data[i + n..]));
      out := out + add;
      i := i + n;
    }
    NothingSanitised(data);
    assert out + [] == out;
  }

  lemma NothingSanitised(data: seq<byte>)
    ensures Sanitised(data[|data|..]) == []
  {
  }

  /** The inner loop: the end of the run of printable bytes. */
  method PrintableRun(data: seq<byte>, start: nat) returns (i: nat)
    requires start < |data|
    ensures start <= i <= |data| && (i < |data| ==> !Printable(data[i]))
    ensures i > start || !Printable(data[start])
    ensures Sanitised(data[start..]) == data[start..i] + Sanitised(data[i..])
  {
    hide Shown, Decode, Sanitised;
    i := start;
    assert data[start..start] == [] && [] + Sanitised(data[start..]) == Sanitised(data[start..]);
    while i < |data| && Printable(data[i])
      invariant start <= i <= |data|
      invariant Sanitised(data[start..]) == data[start..i] + Sanitised(data[i..])
    {
      PrintableStep(data, i);
      assert data[start..i + 1] == data[start..i] + [data[i]];
      Associative(data[start..i], [data[i]], Sanitised(data[i + 1..]));
      i := i + 1;
    }
  }

  lemma SanitisedStep(data: seq<byte>, i: nat)
    requires i < |data|
    ensures var n := Decode(data[i..]).1;
            0 < n && i + n <= |data| && Sanitised(data[i..]) == Shown(data[i..]) + Sanitised(data[i + n..])
  {
    hide Shown, Decode;
    var n := Decode(data[i..]).1;
    assert data[i..][n..] == data[i + n..];
  }

  lemma PrintableStep(data: seq<byte>, i: nat)
    requires i < |data| && Printable(data[i])
    ensures Sanitised(data[i..]) == [data[i]] + Sanitised(data[i + 1..])
  {
    PrintableWidth(data[i..]);
    assert data[i..][1..] == data[i + 1..];
  }

  /** The switch over the decoded rune. */
  method ShowRune(data: seq<byte>, i: nat) returns (add: seq<byte>)
    requires i < |data| && !Printable(data[i])
    ensures add == Shown(data[i..])
  {
    hide Encode;
    var (r, size) := Decode(data[i..]);
    if r == RUNE_ERROR && size <= 1 { return REPLACEMENT; }
    EncodeUndoesDecode(data[i..]);
    if r == 0x09 { return [0x20, 0x20, 0x20, 0x20]; }
    if r == 0x0D {
      if i + size < |data| && data[i + size] == NL { return []; }
      return [NL];
    }
    if LineSeparator(r) { return [NL]; }
    if Invisible(r) || Control(r) { return []; }
    return Encode(r);
  }

  // ----- the fast path -----

  /** A byte that sends the fast path to the slow one at once. */
  predicate Suspicious(b: byte) {
    (b < 0x20 && b != NL) || b == 0x7F || b == 0xC2 || b == 0xE2 || b == 0xEF
  }

  method SanitizeBytes(data: seq<byte>) returns (out: seq<byte>)
    ensures out == Sanitised(data)
  {
    hide Sanitised;
    var allAscii := true;
    for i := 0 to |data|
      invariant forall k | 0 <= k < i :: !Suspicious(data[k])
      invariant allAscii ==> forall k | 0 <= k < i :: data[k] < 0x80
    {
      var b := data[i];
      if (b < 0x20 && b != NL) || b == 0x7F {
        out := SanitizeSlow(data);
        return;
      }
      if b >= 0x80 {
        allAscii := false;
        if b == 0xC2 || b == 0xE2 || b == 0xEF {
          out := SanitizeSlow(data);
          return;
        }
      }
    }
    if !allAscii {
      var valid := IsValid(data);
      if !valid {
        out := SanitizeSlow(data);
        return;
      }
    } else {
      AsciiIsValid(data);
    }
    FastPathSound(data);
    return data;
  }

  method IsValid(data: seq<byte>) returns (valid: bool)
    ensures valid <==> Valid(data)
  {
    hide Decode;
    var i := 0;
    assert data[0..] == data;
    while i < |data|
      invariant 0 <= i <= |data| && (Valid(data) <==> Valid(data[i..]))
      decreases |data| - i
    {
      var rest := data[i..];
      var (r, n) := Decode(rest);
      if IsError(r, n) { return false; }
      assert rest[n..] == data[i + n..];
      i := i + n;
    }
    return true;
  }

  lemma {:induction false} AsciiIsValid(b: seq<byte>)
    requires forall k | 0 <= k < |b| :: b[k] < 0x80
    ensures Valid(b)
    decreases |b|
  {
    if b != [] {
      PrintableWidth(b);
      AsciiIsValid(b[1..]);
    }
  }

  /** A multi-byte rune whose lead is not C2, E2 or EF is none of those the sanitiser touches. */
  lemma LeadTells(b: seq<byte>)
    requires b != [] && WellFormed(b) && !Suspicious(b[0])
    ensures Shown(b) == b[..Decode(b).1]
  {
    EncodeUndoesDecode(b);
    var r := Value(b);
    if b[0] < 0x80 {
      PrintableWidth(b);
    } else if b[0] < 0xE0 {
      assert r >= 0xC0 && r < 0x800;
    } else if b[0] < 0xF0 {
      Decode3(b[0], b[1], b[2], r);
      assert r / 4096 != 2 && r / 4096 != 15;
    } else {
      Decode4(b[0], b[1], b[2], b[3], r);
    }
  }

  /** The byte-level shortcut is sound: on valid text without a suspicious byte nothing changes. */
  lemma {:induction false} FastPathSound(b: seq<byte>)
    requires Valid(b) && forall k | 0 <= k < |b| :: !Suspicious(b[k])
    ensures Sanitised(b) == b
    decreases |b|
  {
    hide Shown, Suspicious;
    if b != [] {
      var n := Decode(b).1;
      assert WellFormed(b);
      LeadTells(b);
      FastPathSound(b[n..]);
      assert b[..n] + b[n..] == b;
    }
  }

  // ----- what comes out -----

  /** A rune that is shown as it is. */
  predicate Kept(r: nat) {
    Scalar(r) && (r == 0x0A || (r != 0x09 && r != 0x0D && !LineSeparator(r) && !Invisible(r) && !Control(r)))
  }

  /** Well-formed text of kept runes only. */
  predicate Clean(b: seq<byte>)
    decreases |b|
  {
    b != [] ==> WellFormed(b) && Kept(Decode(b).0) && Clean(b[Decode(b).1..])
  }

  lemma KeptShown(b: seq<byte>)
    requires b != [] && WellFormed(b) && Kept(Decode(b).0)
    ensures Shown(b) == b[..Decode(b).1]
  {
    EncodeUndoesDecode(b);
    if b[0] < 0x80 {
      PrintableWidth(b);
    }
  }

  /** Clean text is left alone. */
  lemma {:induction false} CleanStays(b: seq<byte>)
    requires Clean(b)
    ensures Sanitised(b) == b
    decreases |b|
  {
    hide Shown, Kept;
    if b != [] {
      var n := Decode(b).1;
      KeptShown(b);
      CleanStays(b[n..]);
      assert b[..n] + b[n..] == b;
    }
  }

  lemma CleanCons(r: nat, rest: seq<byte>)
    requires Kept(r) && Clean(rest)
    ensures Clean(Encode(r) + rest)
  {
    hide Encode;
    var b := Encode(r) + rest;
    DecodeUndoesEncode(r, rest);
    EncodeWellFormed(r, rest);
    assert b[|Encode(r)|..] == rest;
  }

  lemma EncodeWellFormed(r: nat, rest: seq<byte>)
    requires Scalar(r)
    ensures WellFormed(Encode(r) + rest)
  {
    EncodeFits(r);
    hide Encode;
    var e := Encode(r);
    assert forall k | 0 <= k < |e| :: (e + rest)[k] == e[k];
  }

  lemma ShownIsClean(b: seq<byte>, rest: seq<byte>)
    requires b != [] && Clean(rest)
    ensures Clean(Shown(b) + rest)
  {
    hide Clean;
    var (r, n) := Decode(b);
    var s := Shown(b);
    if s == [] {
      assert s + rest == rest;
    } else if Printable(b[0]) {
      assert Encode(b[0]) == [b[0]];
      CleanCons(b[0], rest);
    } else if IsError(r, n) {
      assert Encode(RUNE_ERROR) == REPLACEMENT;
      CleanCons(RUNE_ERROR, rest);
    } else if r == 0x09 {
      assert Encode(0x20) == [0x20];
      CleanCons(0x20, rest);
      CleanCons(0x20, [0x20] + rest);
      CleanCons(0x20, [0x20] + ([0x20] + rest));
      CleanCons(0x20, [0x20] + ([0x20] + ([0x20] + rest)));
      assert s + rest == [0x20] + ([0x20] + ([0x20] + ([0x20] + rest)));
    } else if r == 0x0D || LineSeparator(r) {
      assert Encode(0x0A) == [NL];
      CleanCons(0x0A, rest);
    } else {
      EncodeUndoesDecode(b);
      CleanCons(r, rest);
    }
  }

  /** Whatever comes in, what comes out is valid text without a control, separator or invisible rune. */
  lemma {:induction false} OutputIsClean(b: seq<byte>)
    ensures Clean(Sanitised(b))
    decreases |b|
  {
    if b == [] {
      assert Sanitised(b) == [];
    } else {
      hide Shown, Decode, Clean;
      var rest := b[Decode(b).1..];
      OutputIsClean(rest);
      ShownIsClean(b, Sanitised(rest));
    }
  }

  /** Sanitising twice is sanitising once. */
  lemma Idempotent(b: seq<byte>)
    ensures Sanitised(Sanitised(b)) == Sanitised(b)
  {
    OutputIsClean(b);
    CleanStays(Sanitised(b));
  }

  // ----- rune by rune -----

  /**
   What each character turns into, in front of anything: a tab four spaces, a carriage return a newline unless one follows,
   the two line separators a newline, marks of direction and width and the other controls nothing, the rest itself.
   */
  lemma RuneShown(r: nat, rest: seq<byte>)
    requires Scalar(r)
    ensures Sanitised(Encode(r) + rest) ==
            (if r == 0x09 then [0x20, 0x20, 0x20, 0x20]
             else if r == 0x0D then if At(rest, 0, '\n') then [] else [NL]
             else if r == 0x2028 || r == 0x2029 then [NL]
             else if r in {0xAD, 0x200B, 0x200C, 0x200E, 0x200F, 0x2060, 0x2066, 0x2067, 0x2068, 0x2069, 0xFEFF} then []
             else if (r < 0x20 && r != 0x0A) || 0x7F <= r <= 0x9F then []
             else Encode(r)) + Sanitised(rest)
  {
    var b := Encode(r) + rest;
    DecodeUndoesEncode(r, rest);
    EncodeWellFormed(r, rest);
    EncodeUndoesDecode(b);
    FirstByte(r, rest);
    assert b[|Encode(r)|..] == rest;
    assert At(b, |Encode(r)|, '\n') == At(rest, 0, '\n');
    hide Encode, Decode;
  }

  lemma FirstByte(r: nat, rest: seq<byte>)
    requires Scalar(r)
    ensures var b := Encode(r) + rest; if r < 0x80 then b[0] == r && Encode(r) == [r] else b[0] >= 0x80
  {
    assert (Encode(r) + rest)[0] == Encode(r)[0];
  }

  /** A byte that starts no character turns into the replacement character, and reading goes on behind it. */
  lemma IllFormedShown(b: seq<byte>)
    requires b != [] && !WellFormed(b)
    ensures Sanitised(b) == [0xEF, 0xBF, 0xBD] + Sanitised(b[1..])
  {
  }
}
