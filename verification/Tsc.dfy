/** Time-stamp counter conversions (src/arch/amd64/tsc.rs). */
module Tsc {
  import opened Arithmetic
  import opened Memory

  const NS_PER_SECOND: nat := 1_000_000_000

  /** `x * a / b`, computed on 128 bits and cut to 64. */
  function Scale(x: nat, a: nat, b: nat): nat
    requires b > 0
  {
    x * a / b % WORD_LIMIT
  }

  function TscToNs(freq: nat, ticks: nat): nat
  {
    if freq == 0 then 0 else Scale(ticks, NS_PER_SECOND, freq)
  }

  function NsToTsc(freq: nat, ns: nat): nat
  {
    if freq == 0 then 0 else Scale(ns, freq, NS_PER_SECOND)
  }

  /** Scaling by `a / b` and back, both rounded down, never exceeds the start and falls short of
      it by at most `b / a + 1`. */
  lemma ThereAndBack(x: nat, a: nat, b: nat)
    requires a > 0 && b > 0 && x < WORD_LIMIT && x * a / b < WORD_LIMIT
    ensures 0 <= x - Scale(Scale(x, a, b), b, a) <= b / a + 1
  {
    var n := x * a / b;
    DivBounds(x * a, b);
    Back(x, a, b, n);
    SmallMod(n, WORD_LIMIT);
    SmallMod(n * b / a, WORD_LIMIT);
  }

  /** The way back from `n`, which `n * b <= x * a < n * b + b` places. */
  lemma Back(x: nat, a: nat, b: nat, n: nat)
    requires a > 0 && b > 0 && n * b <= x * a < n * b + b
    ensures 0 <= x - n * b / a <= b / a + 1
  {
    var nb := n * b;
    var back := nb / a;
    DivBounds(nb, a);
    MulCancel(back, x, a);
    Gap(x, back, a, b);
  }

  lemma Gap(x: nat, back: nat, a: nat, b: nat)
    requires a > 0 && x * a < back * a + a + b
    ensures x - back <= b / a + 1
  {
    var q := b / a;
    DivBounds(b, a);
    Distribute(q, 2, a);
    Distribute(x, back, a);
    MulCancelStrict(x - back, q + 2, a);
  }

  /** The detour loses no more than that exactly when the value in between fits 64 bits. */
  lemma DetourIff(x: nat, a: nat, b: nat)
    requires a > 0 && b > 0 && x < WORD_LIMIT && a + b < WORD_LIMIT * b
    ensures 0 <= x - Scale(Scale(x, a, b), b, a) <= b / a + 1 <==> x * a / b < WORD_LIMIT
  {
    hide Scale;
    if x * a / b < WORD_LIMIT {
      ThereAndBack(x, a, b);
    } else {
      WrapsOff(x, a, b, x * a / b);
    }
  }

  lemma WrapsOff(x: nat, a: nat, b: nat, n: nat)
    requires a > 0 && b > 0 && x < WORD_LIMIT && a + b < WORD_LIMIT * b && n == x * a / b >= WORD_LIMIT
    ensures x - Scale(Scale(x, a, b), b, a) > b / a + 1
  {
    hide Scale;
    var m := n % WORD_LIMIT;
    WrappedAtLeast(n, WORD_LIMIT);
    NotAbove(x * a, b, n);
    var back := Wrapped(x, a, b, n, m);
    SmallMod(back, WORD_LIMIT);
    ScaleIs(x, a, b, n);
    ScaleIs(m, b, a, back);
  }

  lemma NotAbove(y: nat, b: nat, n: nat)
    requires b > 0 && n == y / b
    ensures n * b <= y
  {
    DivBounds(y, b);
  }

  lemma ScaleIs(x: nat, a: nat, b: nat, n: nat)
    requires b > 0 && n == x * a / b
    ensures Scale(x, a, b) == n % WORD_LIMIT
  {
  }

  /** Ticks survive the detour over nanoseconds up to `freq / 10^9 + 1` exactly when the
      nanoseconds fit 64 bits. */
  lemma TicksRoundTripIff(freq: nat, ticks: nat)
    requires 0 < freq && ticks < WORD_LIMIT
    ensures 0 <= ticks - NsToTsc(freq, TscToNs(freq, ticks)) <= freq / NS_PER_SECOND + 1 <==>
      ticks * NS_PER_SECOND / freq < WORD_LIMIT
  {
    hide Scale;
    DetourIff(ticks, NS_PER_SECOND, freq);
  }

  /** For instance: at 500 MHz, 2^63 ticks are 2^64 nanoseconds, which 64 bits read as none;
      at 2 GHz the same happens to 2^63 nanoseconds. */
  lemma WrapExample()
    ensures TscToNs(500_000_000, 0x8000_0000_0000_0000) == 0
    ensures NsToTsc(500_000_000, TscToNs(500_000_000, 0x8000_0000_0000_0000)) == 0
    ensures NsToTsc(2_000_000_000, 0x8000_0000_0000_0000) == 0
  {
  }

  /** Nanoseconds survive the detour over ticks up to `10^9 / freq + 1` exactly when the ticks fit
      64 bits. */
  lemma NanosecondsRoundTripIff(freq: nat, ns: nat)
    requires 0 < freq < WORD_LIMIT && ns < WORD_LIMIT
    ensures 0 <= ns - TscToNs(freq, NsToTsc(freq, ns)) <= NS_PER_SECOND / freq + 1 <==>
      ns * freq / NS_PER_SECOND < WORD_LIMIT
  {
    hide Scale;
    DetourIff(ns, freq, NS_PER_SECOND);
  }

  lemma SmallMod(x: nat, d: nat)
    requires x < d
    ensures x % d == x
  {
  }

  lemma WrappedAtLeast(x: nat, d: nat)
    requires 0 < d <= x
    ensures x % d + d <= x
  {
    DivBounds(x, d);
    MulAtLeast(x / d, d);
  }

  /** Losing 2^64 in between costs far more than rounding does. */
  lemma Wrapped(x: nat, a: nat, b: nat, n: nat, m: nat) returns (back: nat)
    requires a > 0 && a + b < WORD_LIMIT * b && m + WORD_LIMIT <= n && n * b <= x * a
    ensures back == m * b / a && back < x && x - back > b / a + 1
  {
    back := m * b / a;
    var q := b / a;
    DivBounds(m * b, a);
    DivBounds(b, a);
    MulLe(m + WORD_LIMIT, n, b);
    Distribute(m, WORD_LIMIT, b);
    Distribute(back, q + 1, a);
    Distribute(q, 1, a);
    MulCancelStrict(back + q + 1, x, a);
  }

  /** Both conversions are monotone as long as the larger result fits. */
  lemma Monotone(freq: nat, x: nat, y: nat)
    requires x <= y
    ensures freq > 0 && y * NS_PER_SECOND / freq < WORD_LIMIT ==> TscToNs(freq, x) <= TscToNs(freq, y)
    ensures y * freq / NS_PER_SECOND < WORD_LIMIT ==> NsToTsc(freq, x) <= NsToTsc(freq, y)
  {
    if freq > 0 {
      ScaleMono(x, y, NS_PER_SECOND, freq);
      ScaleMono(x, y, freq, NS_PER_SECOND);
    }
  }

  lemma ScaleMono(x: nat, y: nat, a: nat, b: nat)
    requires x <= y && b > 0
    ensures y * a / b < WORD_LIMIT ==> Scale(x, a, b) <= Scale(y, a, b)
  {
    MulLe(x, y, a);
    DivMono(x * a, y * a, b);
    if y * a / b < WORD_LIMIT {
      SmallMod(x * a / b, WORD_LIMIT);
      SmallMod(y * a / b, WORD_LIMIT);
    }
  }
}
