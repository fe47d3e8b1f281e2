/**
 Quoting arguments for a Windows command line, and the Microsoft rules for taking one apart.
 A string is a sequence of code points.
 */
module CmdLine {

  function Repeat(c: char, n: nat): (s: string)
    ensures |s| == n && forall k | 0 <= k < n :: s[k] == c
  {
    seq(n, _ => c)
  }

  // ----- quoting -----

  predicate Special(c: char) {
    c == ' ' || c == '\t' || c == '\n' || c == '\U{0B}' || c == '"'
  }

  predicate Simple(s: string) {
    s != "" && forall c <- s :: !Special(c)
  }

  /** The rest of a quoted argument, `k` backslashes being held back. */
  function Quoted(s: string, k: nat): string {
    if s == "" then Repeat('\\', 2 * k) + "\""
    else if s[0] == '\\' then Quoted(s[1..], k + 1)
    else if s[0] == '"' then Repeat('\\', 2 * k) + "\\\"" + Quoted(s[1..], 0)
    else Repeat('\\', k) + [s[0]] + Quoted(s[1..], 0)
  }

  function Quote(s: string): string {
    if Simple(s) then s else "\"" + Quoted(s, 0)
  }

  function Join(args: seq<string>): string {
    if args == [] then ""
    else if |args| == 1 then Quote(args[0])
    else Quote(args[0]) + " " + Join(args[1..])
  }

  method QuoteArg(s: string) returns (r: string)
    ensures r == Quote(s)
  {
    if s != "" && forall c <- s :: !Special(c) { return s; }
    hide Repeat, Quoted;
    r := "\"";
    var backslashes := 0;
    assert s[0..] == s;
    for i := 0 to |s|
      invariant Quote(s) == r + Quoted(s[i..], backslashes)
    {
      QuotedAt(s, i, backslashes);
      if s[i] == '\\' {
        backslashes := backslashes + 1;
      } else if s[i] == '"' {
        QuotedAppend(r, Repeat('\\', 2 * backslashes), "\\\"", Quoted(s[i + 1..], 0));
        r := r + Repeat('\\', 2 * backslashes) + "\\\"";
        backslashes := 0;
      } else {
        QuotedAppend(r, Repeat('\\', backslashes), [s[i]], Quoted(s[i + 1..], 0));
        r := r + Repeat('\\', backslashes) + [s[i]];
        backslashes := 0;
      }
    }
    QuotedAt(s, |s|, backslashes);
    QuotedAppend(r, Repeat('\\', 2 * backslashes), "\"", "");
    r := r + Repeat('\\', 2 * backslashes) + "\"";
  }

  lemma QuotedAt(s: string, i: nat, k: nat)
    requires i <= |s|
    ensures Quoted(s[i..], k) ==
            if i == |s| then Repeat('\\', 2 * k) + "\""
            else if s[i] == '\\' then Quoted(s[i + 1..], k + 1)
            else if s[i] == '"' then Repeat('\\', 2 * k) + "\\\"" + Quoted(s[i + 1..], 0)
            else Repeat('\\', k) + [s[i]] + Quoted(s[i + 1..], 0)
  {
    hide Repeat;
    if i < |s| {
      assert s[i..][1..] == s[i + 1..];
    }
  }

  lemma QuotedAppend(a: string, b: string, c: string, d: string)
    ensures a + (b + c + d) == a + b + c + d && (d == "" ==> a + (b + c) == a + b + c)
  {
  }

  method JoinCmdLine(args: seq<string>) returns (r: string)
    ensures r == Join(args)
  {
    hide Quote;
    r := "";
    for i := 0 to |args|
      invariant r == Join(args[..i])
    {
      ghost var before := r;
      if i > 0 {
        r := r + " ";
      }
      var q := QuoteArg(args[i]);
      r := r + q;
      assert args[..i + 1] == args[..i] + [args[i]];
      JoinSnoc(args[..i], args[i]);
    }
    assert args[..|args|] == args;
  }

  lemma {:induction false} JoinSnoc(args: seq<string>, a: string)
    ensures Join(args + [a]) == (if args == [] then "" else Join(args) + " ") + Quote(a)
  {
    hide Quote;
    if args == [] {
      assert args + [a] == [a];
    } else {
      assert (args + [a])[0] == args[0] && (args + [a])[1..] == args[1..] + [a];
      JoinSnoc(args[1..], a);
      if |args| > 1 {
        assert Quote(args[0]) + " " + (Join(args[1..]) + " " + Quote(a)) == Join(args) + " " + Quote(a);
      }
    }
  }

  // ----- the Microsoft rules -----

  predicate Blank(c: char) { c == ' ' || c == '\t' }

  function Backslashes(s: string): (n: nat)
    ensures n <= |s| && (forall k | 0 <= k < n :: s[k] == '\\') && (n < |s| ==> s[n] != '\\')
  {
    if s != "" && s[0] == '\\' then 1 + Backslashes(s[1..]) else 0
  }

  /**
   One argument from its first character on, and what is left. Backslashes count only before a
   quote: an even number halves and leaves the quote a delimiter, an odd number halves and makes
   it a character. Libraries differ on two quotes inside quotes: `twice` takes them for one
   quote character, otherwise they close and reopen.
   */
  function Arg(s: string, inQuotes: bool, twice: bool): (r: (string, string))
    ensures |r.1| <= |s| && (s != "" && !Blank(s[0]) ==> |r.1| < |s|)
    decreases |s|
  {
    if s == "" || (!inQuotes && Blank(s[0])) then ("", s)
    else if s[0] == '\\' then
      var n := Backslashes(s);
      if n < |s| && s[n] == '"' then
        if n % 2 == 1 then
          var (a, rest) := Arg(s[n + 1..], inQuotes, twice);
          (Repeat('\\', n / 2) + "\"" + a, rest)
        else
          var (a, rest) := Arg(s[n..], inQuotes, twice);
          (Repeat('\\', n / 2) + a, rest)
      else
        var (a, rest) := Arg(s[n..], inQuotes, twice);
        (Repeat('\\', n) + a, rest)
    else if s[0] == '"' then
      if inQuotes && twice && |s| > 1 && s[1] == '"' then
        var (a, rest) := Arg(s[2..], inQuotes, twice);
        ("\"" + a, rest)
      else Arg(s[1..], !inQuotes, twice)
    else
      var (a, rest) := Arg(s[1..], inQuotes, twice);
      ([s[0]] + a, rest)
  }

  function Args(s: string, twice: bool): seq<string>
    decreases |s|
  {
    if s == "" then []
    else if Blank(s[0]) then Args(s[1..], twice)
    else
      var (a, rest) := Arg(s, false, twice);
      [a] + Args(rest, twice)
  }

  // ----- the round trip -----

  predicate Ends(tail: string) { tail == "" || tail[0] == ' ' }

  lemma BackslashRun(k: nat, rest: string)
    requires rest == "" || rest[0] != '\\'
    ensures Backslashes(Repeat('\\', k) + rest) == k
  {
    var s := Repeat('\\', k) + rest;
    if rest != "" {
      assert s[k] == rest[0];
    }
  }

  /** The rule for a run of `m` backslashes, with `rest` behind it. */
  lemma ArgRun(m: nat, rest: string, inQuotes: bool, twice: bool)
    requires m > 0 && (rest == "" || rest[0] != '\\')
    ensures var s := Repeat('\\', m) + rest;
            Arg(s, inQuotes, twice) ==
              if rest != "" && rest[0] == '"' then
                if m % 2 == 1 then
                  (Repeat('\\', m / 2) + "\"" + Arg(rest[1..], inQuotes, twice).0, Arg(rest[1..], inQuotes, twice).1)
                else (Repeat('\\', m / 2) + Arg(rest, inQuotes, twice).0, Arg(rest, inQuotes, twice).1)
              else (Repeat('\\', m) + Arg(rest, inQuotes, twice).0, Arg(rest, inQuotes, twice).1)
  {
    var s := Repeat('\\', m) + rest;
    BackslashRun(m, rest);
    hide Backslashes;
    assert s[0] == '\\' && s[m..] == rest && (rest != "" ==> s[m] == rest[0] && s[m + 1..] == rest[1..]);
    assert s == "" || (!inQuotes && Blank(s[0])) <==> false;
  }

  /** Backslashes in front of anything but a quote stand for themselves. */
  lemma ArgLiteral(k: nat, rest: string, inQuotes: bool, twice: bool)
    requires rest == "" || (rest[0] != '\\' && rest[0] != '"')
    ensures var (a, left) := Arg(rest, inQuotes, twice);
            Arg(Repeat('\\', k) + rest, inQuotes, twice) == (Repeat('\\', k) + a, left)
  {
    hide Arg;
    if k == 0 {
      NoBackslashes(rest, Arg(rest, inQuotes, twice).0);
    } else {
      ArgRun(k, rest, inQuotes, twice);
    }
  }

  lemma NoBackslashes(rest: string, a: string)
    ensures Repeat('\\', 0) + rest == rest && Repeat('\\', 0) + a == a
  {
  }

  /** An even number of backslashes in front of a quote halves. */
  lemma ArgEven(k: nat, rest: string, inQuotes: bool, twice: bool)
    requires rest != "" && rest[0] == '"'
    ensures var (a, left) := Arg(rest, inQuotes, twice);
            Arg(Repeat('\\', 2 * k) + rest, inQuotes, twice) == (Repeat('\\', k) + a, left)
  {
    hide Arg;
    if k == 0 {
      NoBackslashes(rest, Arg(rest, inQuotes, twice).0);
    } else {
      ArgRun(2 * k, rest, inQuotes, twice);
    }
  }

  /** An odd number of backslashes in front of a quote halves and keeps the quote. */
  lemma ArgOdd(k: nat, rest: string, inQuotes: bool, twice: bool)
    ensures var (a, left) := Arg(rest, inQuotes, twice);
            Arg(Repeat('\\', 2 * k) + "\\\"" + rest, inQuotes, twice) == (Repeat('\\', k) + "\"" + a, left)
  {
    hide Arg;
    var quoted := "\"" + rest;
    assert quoted[1..] == rest;
    OneMore(2 * k, rest);
    ArgRun(2 * k + 1, quoted, inQuotes, twice);
  }

  lemma OneMore(k: nat, rest: string)
    ensures Repeat('\\', k) + "\\\"" + rest == Repeat('\\', k + 1) + ("\"" + rest)
  {
  }

  lemma ArgEnds(tail: string, twice: bool)
    requires Ends(tail)
    ensures Arg(tail, false, twice) == ("", tail)
    ensures Arg("\"" + tail, true, twice) == ("", tail)
  {
    assert ("\"" + tail)[1..] == tail;
  }

  lemma ArgPlain(c: char, rest: string, inQuotes: bool, twice: bool)
    requires c != '\\' && c != '"' && (inQuotes || !Blank(c))
    ensures var (a, left) := Arg(rest, inQuotes, twice); Arg([c] + rest, inQuotes, twice) == ([c] + a, left)
  {
    assert ([c] + rest)[1..] == rest;
  }

  lemma QuotedPlain(k: nat, c: char, s: string, rest: string, tail: string, twice: bool)
    requires c != '\\' && c != '"' && Arg(rest, true, twice) == (s, tail)
    ensures Arg(Repeat('\\', k) + [c] + rest, true, twice) == (Repeat('\\', k) + ([c] + s), tail)
  {
    hide Arg;
    ArgPlain(c, rest, true, twice);
    ArgLiteral(k, [c] + rest, true, twice);
    assert Repeat('\\', k) + [c] + rest == Repeat('\\', k) + ([c] + rest);
  }

  lemma QuotedQuote(k: nat, s: string, rest: string, tail: string, twice: bool)
    requires Arg(rest, true, twice) == (s, tail)
    ensures Arg(Repeat('\\', 2 * k) + "\\\"" + rest, true, twice) == (Repeat('\\', k) + (['"'] + s), tail)
  {
    hide Arg;
    ArgOdd(k, rest, true, twice);
    assert Repeat('\\', k) + "\"" + s == Repeat('\\', k) + (['"'] + s);
  }

  /** Inside quotes, what was quoted is read back with the backslashes that were held back. */
  lemma {:induction false} QuotedReads(s: string, k: nat, tail: string, twice: bool)
    requires Ends(tail)
    ensures Arg(Quoted(s, k) + tail, true, twice) == (Repeat('\\', k) + s, tail)
  {
    hide Arg, Repeat, Quoted;
    QuotedCases(s, k, tail);
    if s == "" {
      ArgEnds(tail, twice);
      ArgEven(k, "\"" + tail, true, twice);
    } else if s[0] == '\\' {
      QuotedReads(s[1..], k + 1, tail, twice);
    } else {
      var rest := Quoted(s[1..], 0) + tail;
      QuotedReads(s[1..], 0, tail, twice);
      HeldBack(0, s[1..]);
      assert [s[0]] + s[1..] == s;
      if s[0] == '"' {
        QuotedQuote(k, s[1..], rest, tail, twice);
      } else {
        QuotedPlain(k, s[0], s[1..], rest, tail, twice);
      }
    }
    HeldBack(k, s);
  }

  lemma QuotedCases(s: string, k: nat, tail: string)
    ensures Quoted(s, k) + tail ==
            if s == "" then Repeat('\\', 2 * k) + ("\"" + tail)
            else if s[0] == '\\' then Quoted(s[1..], k + 1) + tail
            else if s[0] == '"' then Repeat('\\', 2 * k) + "\\\"" + (Quoted(s[1..], 0) + tail)
            else Repeat('\\', k) + [s[0]] + (Quoted(s[1..], 0) + tail)
  {
    hide Repeat;
  }

  lemma HeldBack(k: nat, s: string)
    ensures s != "" && s[0] == '\\' ==> Repeat('\\', k + 1) + s[1..] == Repeat('\\', k) + s
    ensures Repeat('\\', 0) + s == s
    ensures s == "" ==> Repeat('\\', k) + "" == Repeat('\\', k) + s
  {
  }

  lemma LeadingBackslashes(s: string)
    ensures s == Repeat('\\', Backslashes(s)) + s[Backslashes(s)..]
  {
  }

  /** An argument that needs no quotes is read back as it is. */
  lemma {:induction false} SimpleReads(s: string, tail: string, twice: bool)
    requires Ends(tail) && forall c <- s :: !Special(c)
    ensures Arg(s + tail, false, twice) == (s, tail)
    decreases |s|
  {
    hide Arg, Repeat;
    if s == "" {
      assert s + tail == tail;
      ArgEnds(tail, twice);
    } else if s[0] == '\\' {
      var n := Backslashes(s);
      var rest := s[n..];
      LeadingBackslashes(s);
      SimpleReads(rest, tail, twice);
      assert s + tail == Repeat('\\', n) + (rest + tail);
      assert rest != "" ==> rest[0] in s;
      ArgLiteral(n, rest + tail, false, twice);
    } else {
      assert s[0] in s;
      SimpleReads(s[1..], tail, twice);
      ArgPlain(s[0], s[1..] + tail, false, twice);
      assert [s[0]] + (s[1..] + tail) == s + tail;
      assert [s[0]] + s[1..] == s;
    }
  }

  lemma QuoteReads(s: string, tail: string, twice: bool)
    requires Ends(tail)
    ensures Quote(s) != "" && !Blank(Quote(s)[0])
    ensures Arg(Quote(s) + tail, false, twice) == (s, tail)
  {
    if Simple(s) {
      assert s[0] in s;
      SimpleReads(s, tail, twice);
    } else {
      QuotedReads(s, 0, tail, twice);
      assert Quote(s) + tail == "\"" + (Quoted(s, 0) + tail);
      assert ("\"" + (Quoted(s, 0) + tail))[1..] == Quoted(s, 0) + tail;
      assert Repeat('\\', 0) + s == s;
    }
  }

  /** Taking a joined command line apart gives back exactly the arguments, under either reading of double quotes. */
  lemma {:induction false} JoinRoundTrip(args: seq<string>, twice: bool)
    ensures Args(Join(args), twice) == args
  {
    hide Quote, Arg;
    if args != [] {
      var tail := if |args| == 1 then "" else " " + Join(args[1..]);
      assert Join(args) == Quote(args[0]) + tail;
      QuoteReads(args[0], tail, twice);
      if |args| == 1 {
        assert Args("", twice) == [];
        assert args == [args[0]];
      } else {
        JoinRoundTrip(args[1..], twice);
        assert tail[1..] == Join(args[1..]);
        assert Args(tail, twice) == args[1..];
        assert args == [args[0]] + args[1..];
      }
    }
  }

  lemma {:induction false} QuotedLonger(s: string, k: nat)
    ensures |Quoted(s, k)| > |s| + k
    decreases |s|
  {
    if s != "" {
      QuotedLonger(s[1..], if s[0] == '\\' then k + 1 else 0);
    }
  }

  /** Exactly the empty argument and those with a blank, a line end, a vertical tab or a quote are quoted. */
  lemma QuotedOnlyIfNeeded(s: string)
    ensures Quote(s) == s <==> s != "" && forall c <- s :: c !in {' ', '\t', '\n', '\U{0B}', '"'}
  {
    QuotedLonger(s, 0);
  }
}
