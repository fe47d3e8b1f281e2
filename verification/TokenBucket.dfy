/**
 The token bucket that paces packets. Tokens are reals; time is counted in nanoseconds and only
 moves forward, by any amount between two readings, and by at least the requested time in a sleep.
 */
module TokenBucket {

  const SECOND := 1_000_000_000
  const MILLISECOND := 1_000_000
  const MIN_BURST := 65536.0

  /** Tokens earned in a span of nanoseconds. */
  function Earned(rate: real, span: int): real {
    rate * span as real / 1_000_000_000.0
  }

  lemma EarnedAdds(rate: real, a: int, b: int)
    ensures Earned(rate, a + b) == Earned(rate, a) + Earned(rate, b) && Earned(rate, 0) == 0.0
  {
  }

  lemma EarnedMono(rate: real, a: int, b: int)
    requires rate >= 0.0 && a <= b
    ensures Earned(rate, a) <= Earned(rate, b)
  {
    assert rate * (b - a) as real >= 0.0;
    assert rate * b as real == rate * a as real + rate * (b - a) as real;
  }

  /** The sleep asked for: the deficit in whole nanoseconds, rounded down, and at least a millisecond. */
  function SleepFor(rate: real, deficit: real): (d: int)
    requires rate > 0.0
    ensures d >= MILLISECOND
  {
    var ns := (deficit / rate * 1_000_000_000.0).Floor;
    if ns < MILLISECOND then MILLISECOND else ns
  }

  /** The exact time to wait, in nanoseconds. */
  function Quotient(rate: real, deficit: real): real
    requires rate > 0.0
  {
    deficit / rate * 1_000_000_000.0
  }

  lemma QuotientEarns(rate: real, deficit: real, ns: int)
    requires rate > 0.0
    ensures Earned(rate, ns) >= deficit <==> ns as real >= Quotient(rate, deficit)
  {
    var x := Quotient(rate, deficit);
    assert rate * x == deficit * 1_000_000_000.0;
    if ns as real >= x {
      assert rate * ns as real >= rate * x;
      DivMono(rate * x, rate * ns as real);
    } else {
      assert rate * ns as real < rate * x;
      DivMono(rate * ns as real, rate * x);
    }
  }

  lemma DivMono(a: real, b: real)
    requires a <= b
    ensures a / 1_000_000_000.0 <= b / 1_000_000_000.0
    ensures a < b ==> a / 1_000_000_000.0 < b / 1_000_000_000.0
  {
  }

  /** The time to wait needs no rounding, or the shortest sleep covers it. */
  predicate Exact(rate: real, deficit: real)
    requires rate > 0.0
  {
    var x := Quotient(rate, deficit);
    x <= MILLISECOND as real || x == x.Floor as real
  }

  /**
   A sleep earns the deficit exactly if the time to wait is a whole number of nanoseconds or no more than
   the shortest sleep; and it never misses more than one nanosecond's worth.
   */
  lemma SleepEarnsDeficit(rate: real, deficit: real)
    requires rate > 0.0
    ensures Earned(rate, SleepFor(rate, deficit)) >= deficit <==> Exact(rate, deficit)
    ensures Earned(rate, SleepFor(rate, deficit)) > deficit - Earned(rate, 1)
  {
    hide Earned;
    var x := Quotient(rate, deficit);
    var d := SleepFor(rate, deficit);
    QuotientEarns(rate, deficit, d);
    QuotientEarns(rate, deficit, d + 1);
    EarnedAdds(rate, d, 1);
    NextEarnsMore(rate, deficit, d);
  }

  lemma NextEarnsMore(rate: real, deficit: real, d: int)
    requires rate > 0.0 && (d + 1) as real > Quotient(rate, deficit)
    ensures Earned(rate, d + 1) > deficit
  {
    var x := Quotient(rate, deficit);
    assert rate * x == deficit * 1_000_000_000.0;
    assert rate * (d + 1) as real > rate * x;
    DivMono(rate * x, rate * (d + 1) as real);
  }

  /** What the shortest sleep earns needs no rounding. */
  lemma ShortIsExact(rate: real, deficit: real)
    requires rate > 0.0
    ensures deficit <= Earned(rate, MILLISECOND) ==> Exact(rate, deficit)
  {
    hide Earned;
    QuotientEarns(rate, deficit, MILLISECOND);
  }

  /** A rate of three bytes a second and a deficit of a million: a third of a nanosecond goes missing. */
  lemma ThirdGoesMissing()
    ensures Earned(3.0, SleepFor(3.0, 1000000.0)) < 1000000.0
    ensures !Exact(3.0, 1000000.0)
  {
    var x := Quotient(3.0, 1000000.0);
    assert 3.0 * x == 1_000_000_000_000_000.0;
    assert x.Floor == 333_333_333_333_333;
  }

  class Clock {
    var now: int

    constructor (start: int)
      ensures now == start
    {
      now := start;
    }

    method Now() returns (t: int)
      modifies this
      ensures t == now >= old(now)
    {
      var passes: int :| passes >= 0;
      now := now + passes;
      t := now;
    }

    method Sleep(d: int)
      requires d >= 0
      modifies this
      ensures now >= old(now) + d
    {
      var late: int :| late >= 0;
      now := now + d + late;
    }
  }

  class Bucket {
    const rate: real
    const clock: Clock
    var burst: real
    var tokens: real
    var last: int
    // What has been let through since creation, and when and with how much it began.
    ghost var admitted: real
    ghost const created: int
    ghost const firstBurst: real

    /** Tokens stay between zero and the burst; what went through is covered by the first burst and the time since. */
    ghost predicate Valid()
      reads this, clock
    {
      && 0.0 <= tokens <= burst
      && last <= clock.now
      && (rate > 0.0 ==> admitted + tokens <= firstBurst + Earned(rate, last - created))
    }

    constructor (rate: real, clock: Clock)
      modifies clock
      ensures Valid() && this.rate == rate && this.clock == clock && admitted == 0.0
      ensures firstBurst == tokens == burst == (if rate * 0.25 < MIN_BURST then MIN_BURST else rate * 0.25)
      ensures created == last == clock.now
    {
      this.rate, this.clock := rate, clock;
      var b := if rate * 0.25 < MIN_BURST then MIN_BURST else rate * 0.25;
      burst, tokens, firstBurst, admitted := b, b, b, 0.0;
      var now := clock.Now();
      last, created := now, now;
      new;
      assert Earned(rate, 0) == 0.0;
    }

    /** The refill: tokens for the time since the last reading, capped at the burst. */
    method Refill()
      requires Valid() && rate > 0.0
      modifies this`tokens, this`last, clock
      ensures Valid() && old(last) <= old(clock.now) <= last == clock.now
      ensures tokens == (var t := old(tokens) + Earned(rate, last - old(last)); if t > burst then burst else t)
    {
      var now := clock.Now();
      EarnedAdds(rate, last - created, now - last);
      EarnedMono(rate, 0, now - last);
      tokens := tokens + Earned(rate, now - last);
      last := now;
      if tokens > burst {
        tokens := burst;
      }
    }

    /**
     Wait until n bytes may pass. It takes no more than two sleeps, and a second one only if the deficit
     found before the first was no exact number of nanoseconds; then what is missing is less than one
     nanosecond's worth. What passes is paid for by the tokens at the start and the time waited.
     */
    method Wait(n: nat) returns (sleeps: nat, ghost deficit: real)
      requires Valid()
      modifies this, clock
      ensures Valid() && old(clock.now) <= clock.now && old(last) <= last
      ensures admitted == old(admitted) + if rate > 0.0 then n as real else 0.0
      ensures burst == if rate > 0.0 && n as real > old(burst) then n as real else old(burst)
      ensures rate > 0.0 ==> n as real + tokens <= old(tokens) + Earned(rate, last - old(last))
      ensures sleeps <= 2
      ensures sleeps > 0 ==> rate > 0.0 && 0.0 < deficit <= n as real - old(tokens)
      ensures sleeps == 2 ==> !Exact(rate, deficit)
    {
      sleeps, deficit := 0, 0.0;
      if rate <= 0.0 { return; }
      if n as real > burst {
        burst := n as real;
      }
      hide Earned, Exact;
      ghost var tokens0, last0 := tokens, last;
      EarnedAdds(rate, 0, 0);
      EarnedMono(rate, 1, MILLISECOND);
      while true
        invariant Valid() && old(clock.now) <= clock.now && last0 <= last
        invariant burst >= n as real && burst == if n as real > old(burst) then n as real else old(burst)
        invariant admitted == old(admitted)
        invariant tokens <= tokens0 + Earned(rate, last - last0)
        invariant sleeps <= 2
        invariant sleeps == 0 ==> tokens == tokens0 && last == last0
        invariant sleeps > 0 ==> 0.0 < deficit <= n as real - tokens0
        invariant sleeps == 1 ==> Pending() > n as real - Earned(rate, 1)
        invariant sleeps == 1 && Pending() < n as real ==> !Exact(rate, deficit)
        invariant sleeps == 2 ==> Pending() >= n as real && !Exact(rate, deficit)
        decreases 2 - sleeps
      {
        ghost var last1, now1 := last, clock.now;
        EarnedMono(rate, 0, now1 - last1);
        var passed := TryPass(n);
        EarnedAdds(rate, last1 - last0, last - last1);
        if passed { return; }
        if sleeps == 0 {
          deficit := n as real - tokens;
        } else {
          ShortIsExact(rate, n as real - tokens);
        }
        SleepOff(n);
        sleeps := sleeps + 1;
      }
    }

    /** The tokens a refill would find now. */
    ghost function Pending(): real
      reads this, clock
    {
      tokens + Earned(rate, clock.now - last)
    }

    /** Refill, and let n bytes pass if there are tokens for them. */
    method TryPass(n: nat) returns (passed: bool)
      requires Valid() && rate > 0.0 && burst >= n as real
      modifies this`tokens, this`last, this`admitted, clock
      ensures Valid() && old(clock.now) <= clock.now == last && old(last) <= last
      ensures admitted == old(admitted) + if passed then n as real else 0.0
      ensures tokens + (if passed then n as real else 0.0) <= old(tokens) + Earned(rate, last - old(last))
      ensures !passed ==> old(Pending()) <= tokens < n as real
    {
      ghost var start, last1, now1 := tokens, last, clock.now;
      Refill();
      EarnedMono(rate, now1 - last1, last - last1);
      passed := tokens >= n as real;
      if passed {
        tokens := tokens - n as real;
        admitted := admitted + n as real;
      }
    }

    /** Sleep for the deficit. */
    method SleepOff(n: nat)
      requires Valid() && rate > 0.0 && tokens < n as real && last == clock.now
      modifies clock
      ensures Valid() && old(clock.now) <= clock.now
      ensures Pending() > n as real - Earned(rate, 1)
      ensures Exact(rate, n as real - tokens) ==> Pending() >= n as real
    {
      hide Earned, Exact, SleepFor;
      var deficit := n as real - tokens;
      SleepEarnsDeficit(rate, deficit);
      var d := SleepFor(rate, deficit);
      clock.Sleep(d);
      EarnedMono(rate, d, clock.now - last);
    }

    function Total(packets: seq<nat>): nat {
      if packets == [] then 0 else Total(packets[..|packets| - 1]) + packets[|packets| - 1]
    }

    /** Any run of packets from any moment on: no more passes than the tokens then and the rate times the time allow. */
    method Shape(packets: seq<nat>)
      requires Valid() && rate > 0.0
      modifies this, clock
      ensures Valid() && old(last) <= last
      ensures admitted == old(admitted) + Total(packets) as real
      ensures Total(packets) as real <= old(tokens) + Earned(rate, last - old(last))
      ensures admitted <= firstBurst + Earned(rate, last - created)
    {
      assert Earned(rate, 0) == 0.0;
      for i := 0 to |packets|
        invariant Valid() && old(last) <= last
        invariant admitted == old(admitted) + Total(packets[..i]) as real
        invariant Total(packets[..i]) as real + tokens <= old(tokens) + Earned(rate, last - old(last))
      {
        ghost var lastBefore := last;
        var sleeps, deficit := Wait(packets[i]);
        EarnedAdds(rate, lastBefore - old(last), last - lastBefore);
        assert packets[..i + 1][..i] == packets[..i];
      }
      assert packets[..|packets|] == packets;
    }
  }
}
