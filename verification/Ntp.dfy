/** Wall-clock time to the 64-bit NTP format (section 6 of RFC 5905), 32 bits of seconds and 32 of fraction,
    and back to milliseconds. */
module Ntp {
  import opened Numbers

  const BILLION := 1_000_000_000
  const TWO32 := 0x1_0000_0000

  /** The nanoseconds after which the 32 bits of seconds wrap. */
  const ERA := 4_294_967_296_000_000_000

  /** 2^32nds of a second, rounded to the nearest. */
  function Fraction(nanos: nat): nat {
    var scaled := nanos * TWO32;
    if scaled % BILLION >= BILLION / 2 then scaled / BILLION + 1 else scaled / BILLION
  }

  /** `ns` nanoseconds since the epoch; the seconds keep 32 bits once shifted in 64. */
  function ToNtp(ns: nat): nat {
    BitOr(Shl(ns / BILLION % TWO32, 32), Fraction(ns % BILLION))
  }

  function NtpToMillis(ntp: nat): nat {
    ntp % TWO32 * 1000 / TWO32 + ntp / TWO32 * 1000
  }

  lemma {:induction false} FractionNearest(nanos: nat)
    ensures -500_000_000 <= Fraction(nanos) * BILLION - nanos * TWO32 <= 500_000_000
  {
  }

  /** A nanosecond is more than four fractions, and the fraction never carries into the seconds. */
  lemma {:induction false} FractionSpread(a: nat, b: nat)
    requires a < b < BILLION
    ensures Fraction(a) + 4 <= Fraction(b) < TWO32 - 3
  {
  }

  /** The two halves do not touch. */
  lemma {:induction false} Parts(ns: nat)
    ensures Fraction(ns % BILLION) < TWO32
    ensures ToNtp(ns) == ns / BILLION % TWO32 * TWO32 + Fraction(ns % BILLION)
    ensures ToNtp(ns) / TWO32 == ns / BILLION % TWO32 && ToNtp(ns) % TWO32 == Fraction(ns % BILLION)
  {
    hide Fraction, BitOr, Shl;
    var sec := ns / BILLION % TWO32;
    if ns % BILLION > 0 {
      FractionSpread(0, ns % BILLION);
    } else {
      FractionSpread(0, 1);
    }
    Shl32(sec);
    OrAdds(sec, Fraction(ns % BILLION), 32);
  }

  /** The fraction is the nearest to the nanoseconds: it is off by at most half of one. */
  lemma {:induction false} PartsNearest(ns: nat)
    ensures -500_000_000 <= ToNtp(ns) % 0x1_0000_0000 * 1_000_000_000 - ns % 1_000_000_000 * 0x1_0000_0000 <= 500_000_000
  {
    hide Fraction, ToNtp;
    FractionNearest(ns % BILLION);
    Parts(ns);
  }

  lemma {:induction false} Shl32(x: nat)
    ensures Shl(x, 32) == x * TWO32 && Shl(1, 32) == TWO32
  {
    ShlTwice(x, 16, 16);
    Shl13(x);
    Shl13(Shl(x, 16));
    ShlTwice(1, 16, 16);
    Shl13(1);
    Shl13(0x1_0000);
  }

  /** Within an era NTP times are ordered strictly as the nanoseconds are, so none is lost, and an era
      later the same time comes again. */
  lemma {:induction false} OrderKept(a: nat, b: nat)
    ensures ToNtp(a) < ToNtp(b) <==> a % ERA < b % ERA
  {
    hide Fraction, ToNtp;
    Halves(a);
    Halves(b);
    var (s, n, t, m) := (a / BILLION % TWO32, a % BILLION, b / BILLION % TWO32, b % BILLION);
    if n < m {
      FractionSpread(n, m);
    } else if m < n {
      FractionSpread(m, n);
    }
    Parts(a);
    Parts(b);
  }

  lemma {:induction false} Halves(ns: nat)
    ensures ns % ERA == ns / BILLION % TWO32 * BILLION + ns % BILLION
  {
  }

  /** Is `nanos` a whole number of milliseconds that no fraction meets and that is rounded down? */
  predicate RoundsBelow(nanos: nat) {
    nanos % 1_000_000 == 0 && 0 < nanos / 1_000_000 * TWO32 % 1000 < 500
  }

  lemma {:induction false} FractionMillis(nanos: nat)
    requires nanos < BILLION
    ensures Fraction(nanos) * 1000 / TWO32 == nanos / 1_000_000 - (if RoundsBelow(nanos) then 1 else 0)
  {
    if nanos % 1_000_000 == 0 {
      WholeMillis(nanos / 1_000_000);
    } else {
      BetweenMillis(nanos);
    }
  }

  lemma {:induction false} WholeMillis(k: nat)
    requires k < 1000
    ensures Fraction(1_000_000 * k) * 1000 / TWO32 == k - (if 0 < k * TWO32 % 1000 < 500 then 1 else 0)
  {
    var scaled := 1_000_000 * k * TWO32;
    assert scaled / BILLION == k * TWO32 / 1000;
    assert scaled % BILLION == 1_000_000 * (k * TWO32 % 1000);
  }

  lemma {:induction false} BetweenMillis(nanos: nat)
    requires nanos < BILLION && nanos % 1_000_000 > 0
    ensures Fraction(nanos) * 1000 / TWO32 == nanos / 1_000_000
  {
  }

  /** Back in milliseconds the time is rounded down, except that a whole number of milliseconds whose
      fraction was rounded down comes back one less. */
  lemma {:induction false} MillisBack(ns: nat)
    ensures NtpToMillis(ToNtp(ns)) == ns % ERA / 1_000_000 - (if RoundsBelow(ns % BILLION) then 1 else 0)
  {
    hide Fraction, ToNtp, RoundsBelow;
    Parts(ns);
    Halves(ns);
    FractionMillis(ns % BILLION);
  }
}
