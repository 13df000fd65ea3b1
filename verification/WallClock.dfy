/** The wall clock: setting it stores the time less the ticks so far, and
    reading it adds the ticks back. */
module WallClock {
  import opened DivMod

  const WORD: nat := 0x1_0000_0000
  const US: nat := 1_000_000

  /** A 32-bit word read as a signed number. */
  function Signed(x: int): (r: int)
    ensures -0x8000_0000 <= r < 0x8000_0000
    ensures -0x8000_0000 <= x < 0x8000_0000 ==> r == x
  {
    var w := x % WORD;
    if w >= 0x8000_0000 then w - WORD else w
  }

  lemma SignedSum(x: int, y: int)
    ensures Signed(Signed(x) + y) == Signed(x + y)
  {
  }

  datatype Time = Time(sec: int, usec: int)
  datatype Zone = Zone(minutesWest: int, dst: int)
  datatype Status = Ok | NotSupported | NoClock

  function Seconds(n: nat, rate: nat): nat
    requires rate > 0
  {
    n / rate
  }

  /** The microseconds of `n` ticks. */
  function Elapsed(n: nat, rate: nat): nat
    requires rate > 0
  {
    n * (US / rate)
  }

  /** The microseconds past the second after `n` ticks, in full. */
  function Micros(n: nat, rate: nat): nat
    requires rate > 0
  {
    Elapsed(n, rate) % US
  }

  /** The same as set computes it: the product is cut to 32 bits. */
  function CutMicros(n: nat, rate: nat): nat
    requires rate > 0
  {
    Elapsed(n, rate) % WORD % US
  }

  /** What setting the clock to `t` after `n` ticks stores. */
  function Stored(t: Time, n: nat, rate: nat): Time
    requires rate > 0
  {
    Time(Signed(t.sec - Seconds(n, rate)), Signed(t.usec - CutMicros(n, rate)))
  }

  /** Seconds and microseconds in normal form; what lies before zero is zero. */
  function Normal(s: int, u: int): Time {
    if u < 0 && (s < 0 || s * US + u < 0) then Time(0, 0) else Time((s * US + u) / US, (s * US + u) % US)
  }

  /** What reading the clock after `n` ticks returns. */
  function Now(reset: Time, n: nat, rate: nat): Time
    requires rate > 0
  {
    Normal(Signed(reset.sec + Seconds(n, rate)), Signed(reset.usec + Micros(n, rate)))
  }

  class Clock {
    var rate: nat
    var nticks: nat
    var resetTime: Time
    var zone: Zone

    constructor (rate: nat)
      ensures this.rate == rate && nticks == 0 && resetTime == Time(0, 0)
    {
      this.rate, nticks, resetTime, zone := rate, 0, Time(0, 0), Zone(0, 0);
    }

    method Set(t: Time, tz: Zone) returns (rc: Status)
      modifies this
      ensures rate == old(rate) && nticks == old(nticks)
      ensures if rate > 0 then rc == Ok && resetTime == Stored(t, nticks, rate) && zone == tz
              else rc == NoClock && resetTime == old(resetTime) && zone == old(zone)
    {
      if rate > 0 {
        hide Signed;
        resetTime := Time(Signed(t.sec - nticks / rate), resetTime.usec);
        resetTime := Time(resetTime.sec, Signed(t.usec - nticks * (US / rate) % WORD % US));
        zone := tz;
        return Ok;
      }
      rc := NoClock;
    }

    method Get() returns (rc: Status, t: Time, tz: Zone)
      ensures if rate > 0 then rc == Ok && t == Now(resetTime, nticks, rate) && tz == zone else rc == NotSupported
    {
      t, tz := Time(0, 0), zone;
      if rate == 0 {
        return NotSupported, t, tz;
      }
      hide Signed;
      var s := Signed(resetTime.sec + nticks / rate);
      var u := Signed(resetTime.usec + nticks * (US / rate) % US);
      t := Normalise(s, u);
      rc := Ok;
    }

    static method Normalise(s0: int, u0: int) returns (t: Time)
      ensures t == Normal(s0, u0)
    {
      var s, u := s0, u0;
      while u < 0
        invariant Normal(s, u) == Normal(s0, u0)
        decreases -u
      {
        if s <= 0 {
          s, u := 0, 0;
          break;
        } else {
          s, u := s - 1, u + US;
        }
      }
      while u >= US
        invariant u >= 0 && Normal(s, u) == Normal(s0, u0)
      {
        s, u := s + 1, u - US;
      }
      t := Time(s, u);
    }
  }

  // ------------------------------------------------------------------
  // Setting, then reading
  // ------------------------------------------------------------------

  lemma Expand(n: nat, rate: nat, k: nat, q: nat, r: nat)
    requires n == rate * q + r && rate * k == US && k * r < k * rate
    ensures n * k == US * q + r * k && r * k < US
  {
    assert n * k == rate * q * k + r * k;
    assert rate * q * k == rate * k * q;
  }

  /** Cutting the product to 32 bits does no harm exactly when the part cut off
      is a multiple of 15,625 words. */
  lemma CutHarmless(m: nat)
    ensures m % WORD % US == m % US <==> m / WORD % 15625 == 0
  {
    var j, low := m / WORD, m % WORD;
    assert m == WORD * j + low;
    assert WORD == 4294 * US + 967296;
    var c, b := j / 15625, j % 15625;
    assert 967296 * j == US * (15114 * c) + 967296 * b;
    assert m - low == US * (4294 * j + 15114 * c) + 967296 * b;
    SameRemainder(m, low, 4294 * j + 15114 * c, b);
  }

  lemma SameRemainder(m: nat, low: nat, a: nat, b: nat)
    requires m - low == US * a + 967296 * b && b < 15625
    ensures low % US == m % US <==> b == 0
  {
    if low % US == m % US {
      var e := m / US - low / US - a;
      assert US * e == 967296 * b;
      assert 15625 * e == 15114 * b;
      Coprime(e, b);
    }
  }

  /** 15,114 and 15,625 have no common factor: 12,659 times the one is one more
      than a multiple of the other. */
  lemma Coprime(e: int, b: nat)
    requires 15625 * e == 15114 * b && b < 15625
    ensures b == 0
  {
  }

  /** The microseconds gone by in `d` ticks, rounded down. */
  function Gone(d: nat, rate: nat): nat
    requires rate > 0
  {
    d * US / rate
  }

  /** The time the clock should show `d` ticks after it was set to `t`, in
      microseconds. */
  function Total(t: Time, d: nat, rate: nat): int
    requires rate > 0
  {
    t.sec * US + t.usec + Gone(d, rate)
  }

  /** How often the 32-bit tick counter wraps between tick `n` and tick n + d. */
  function Wraps(n: nat, d: nat): nat {
    (n + d) / WORD - n / WORD
  }

  /** Seconds are ticks divided by the rate, microseconds are ticks times a whole
      number of microseconds.  By so many whole seconds the one is ahead of the
      other after `n` ticks. */
  function Lead(n: nat, rate: nat): int
    requires rate > 0
  {
    Seconds(n, rate) - Elapsed(n, rate) / US
  }

  /** The microseconds that rounding takes off each tick, over `d` ticks. */
  function Rounded(d: nat, rate: nat): nat
    requires rate > 0
  {
    d * (US % rate) / rate
  }

  /** By how much the clock, set at tick `n` and read `d` ticks later, is ahead: by
      the seconds the lead has grown, less the ticks the counter has lost to
      wraps and what rounding has taken off, and by what the 32-bit product of
      the setting failed to subtract. */
  function Ahead(n: nat, d: nat, rate: nat): int
    requires rate > 0
  {
    var a, b := n % WORD, (n + d) % WORD;
    US * (Lead(b, rate) - Lead(a, rate)) - WORD * Elapsed(Wraps(n, d), rate) - Rounded(d, rate)
    + Micros(a, rate) - CutMicros(a, rate)
  }

  /** Set the clock to a time in normal form at tick `n` and read it `d` ticks
      later, counted without wrap-around, at any rate.  It shows exactly the time
      gone by, in normal form, if and only if it is ahead by a multiple of 2^32
      seconds (or it was set to zero and is read at once, since nothing lies
      before zero). */
  lemma ReadsWhatWasSet(t: Time, n: nat, d: nat, rate: nat)
    requires rate > 0
    requires 0 <= t.sec && 0 <= t.usec < US && Total(t, d, rate) / US < 0x7fff_ffff
    ensures var total, counter := Total(t, d, rate), n % WORD;
            Now(Stored(t, counter, rate), (n + d) % WORD, rate) == Time(total / US, total % US)
            <==> Ahead(n, d, rate) % (WORD * US) == 0
                 || (total == 0 && CutMicros(counter, rate) > Micros(counter, rate))
  {
    hide Seconds, Elapsed, Micros, CutMicros, Signed, Normal, Gone, Ahead;
    var a, b := n % WORD, (n + d) % WORD;
    MicrosFit(a, rate);
    MicrosFit(b, rate);
    TicksGone(n, d, rate);
    AtOnce(n, d, rate);
    ReadsLinear(t, Seconds(a, rate), Seconds(b, rate), Micros(a, rate), CutMicros(a, rate), Micros(b, rate),
                Gone(d, rate), Ahead(n, d, rate));
  }

  lemma MicrosFit(n: nat, rate: nat)
    requires rate > 0
    ensures Micros(n, rate) < US && CutMicros(n, rate) < US
  {
    hide Elapsed;
  }

  /** What the counter says at the reading, less what was stored for the setting. */
  lemma TicksGone(n: nat, d: nat, rate: nat)
    requires rate > 0
    ensures var a, b := n % WORD, (n + d) % WORD;
            Seconds(b, rate) * US + Micros(b, rate)
            == Seconds(a, rate) * US + CutMicros(a, rate) + Gone(d, rate) + Ahead(n, d, rate)
  {
    var a, b, w := n % WORD, (n + d) % WORD, Wraps(n, d);
    CounterIs(n, d);
    Distribute(a, d, w, US / rate);
    GoneIs(d, rate);
    hide Wraps, Seconds, Elapsed, CutMicros, Gone, Rounded;
    assert Elapsed(b, rate) == Elapsed(a, rate) + Elapsed(d, rate) - WORD * Elapsed(w, rate) by {
      ElapsedIs(a, d, w, b, rate);
    }
    TickMicros(a, rate);
    TickMicros(b, rate);
    hide Micros, Lead;
  }

  lemma CounterIs(n: nat, d: nat)
    ensures (n + d) % WORD == n % WORD + d - WORD * Wraps(n, d)
  {
  }

  lemma ElapsedIs(a: nat, d: nat, w: nat, b: nat, rate: nat)
    requires rate > 0 && b == a + d - WORD * w
    ensures Elapsed(b, rate) == Elapsed(a, rate) + Elapsed(d, rate) - WORD * Elapsed(w, rate)
  {
    Distribute(a, d, w, US / rate);
  }

  lemma Distribute(a: nat, d: nat, w: nat, k: nat)
    requires a + d - WORD * w >= 0
    ensures (a + d - WORD * w) * k == a * k + d * k - WORD * (w * k) && d * k >= 0 && w * k >= 0 && a * k >= 0
  {
  }

  /** Seconds and microseconds of a tick count are its microseconds and its lead. */
  lemma TickMicros(n: nat, rate: nat)
    requires rate > 0
    ensures Seconds(n, rate) * US + Micros(n, rate) == Elapsed(n, rate) + US * Lead(n, rate)
  {
    hide Seconds, Elapsed;
  }

  lemma GoneIs(d: nat, rate: nat)
    requires rate > 0
    ensures Gone(d, rate) == Elapsed(d, rate) + Rounded(d, rate)
  {
    var k, e := US / rate, US % rate;
    QuotientOf(US, rate);
    QuotientOf(d * e, rate);
    GoneExpand(d, rate, k, e);
    QuotientIs(d * US, rate, d * k + d * e / rate, d * e % rate);
  }

  lemma GoneExpand(d: nat, rate: nat, k: nat, e: nat)
    requires rate > 0 && US == rate * k + e && d * e == rate * (d * e / rate) + d * e % rate
    ensures d * US == rate * (d * k + d * e / rate) + d * e % rate
  {
    assert d * US == d * (rate * k) + d * e;
    assert d * (rate * k) == rate * (d * k);
  }

  /** If no microsecond has gone by, the counter stands where it stood, or it
      ticks too fast to show any. */
  lemma AtOnce(n: nat, d: nat, rate: nat)
    requires rate > 0
    ensures var a, b := n % WORD, (n + d) % WORD;
            || Gone(d, rate) > 0
            || (Seconds(b, rate) == Seconds(a, rate) && Micros(b, rate) == Micros(a, rate))
            || (Micros(a, rate) == 0 && CutMicros(a, rate) == 0 && Micros(b, rate) == 0)
  {
    QuotientOf(d * US, rate);
    if rate <= US {
      MultipleIs(US, d);
      assert Gone(d, rate) == 0 ==> d == 0;
    } else {
      QuotientIs(US, rate, 0, US);
    }
  }

  /** The same with the products named: `q` and `q'` are whole seconds of ticks,
      `x` and `y` the microseconds past them, `x'` what was stored for `x`;
      `gone` are the microseconds gone by, and the clock is `ahead`. */
  lemma ReadsLinear(t: Time, q: nat, q': nat, x: nat, x': nat, y: nat, gone: nat, ahead: int)
    requires x < US && x' < US && y < US && q' * US + y == q * US + x' + gone + ahead
    requires 0 <= t.sec && 0 <= t.usec < US && (t.sec * US + t.usec + gone) / US < 0x7fff_ffff
    requires gone == 0 ==> (q' == q && y == x) || (x == 0 && x' == 0 && y == 0)
    ensures var total := t.sec * US + t.usec + gone;
            Normal(Signed(Signed(t.sec - q) + q'), Signed(Signed(t.usec - x') + y)) == Time(total / US, total % US)
            <==> ahead % (WORD * US) == 0 || (total == 0 && x' > x)
  {
    var total := t.sec * US + t.usec + gone;
    var s, u := t.sec - q + q', t.usec - x' + y;
    SignedSum(t.sec - q, q');
    SignedSum(t.usec - x', y);
    assert Signed(u) == u;
    assert s * US + u == total + ahead;
    if ahead % (WORD * US) == 0 {
      var c := ahead / (WORD * US);
      assert ahead == WORD * US * c;
      SecondsFit(total, s - WORD * c, u);
      SignedPlus(s, -c);
      Shows(total, s - WORD * c, u);
    } else {
      SignedIs(s);
      var j := (Signed(s) - s) / WORD;
      NotWhole(ahead, j);
      ShowsElse(total, Signed(s), u);
    }
    hide Signed, Normal;
  }

  lemma SecondsFit(total: int, s: int, u: int)
    requires 0 <= total && total / US < 0x7fff_ffff && s * US + u == total && 0 < u + US && u < 2 * US
    ensures -1 <= s < 0x8000_0000
  {
  }

  lemma SignedPlus(s: int, c: int)
    requires -1 <= s + WORD * c < 0x8000_0000
    ensures Signed(s) == s + WORD * c
  {
  }

  lemma SignedIs(s: int)
    ensures Signed(s) == s + WORD * ((Signed(s) - s) / WORD)
  {
  }

  lemma NotWhole(ahead: int, j: int)
    requires ahead % (WORD * US) != 0
    ensures ahead + WORD * US * j != 0
  {
  }

  lemma Shows(total: int, s: int, u: int)
    requires total >= 0 && s * US + u == total
    ensures Normal(s, u) == Time(total / US, total % US)
  {
  }

  /** What is shown when seconds and microseconds do not make up the total. */
  lemma ShowsElse(total: int, s: int, u: int)
    requires total >= 0 && s * US + u != total
    ensures Normal(s, u) == Time(total / US, total % US) <==> total == 0 && u < 0 && s * US + u < 0
  {
    var v := s * US + u;
    assert v == v / US * US + v % US && total == total / US * US + total % US;
  }

  // ------------------------------------------------------------------
  // Rates that divide a million
  // ------------------------------------------------------------------

  /** The seconds of the wraps come out even. */
  predicate EvenWraps(n: nat, d: nat, rate: nat)
    requires rate > 0
  {
    Wraps(n, d) % rate == 0
  }

  /** What setting the clock at tick `n` cuts off its product does no harm. */
  predicate Harmless(n: nat, rate: nat)
    requires rate > 0
  {
    Elapsed(n, rate) / WORD % 15625 == 0
  }

  /** At a rate that divides a million the seconds are never ahead, and nothing is
      rounded: the clock is right if and only if the tick counter wrapped a
      multiple of `rate` times in between and the 32-bit product of the setting
      was harmless (or it was set to zero and is read at once). */
  lemma ReadsAtEvenRate(t: Time, n: nat, d: nat, rate: nat)
    requires rate > 0 && US % rate == 0
    requires 0 <= t.sec && 0 <= t.usec < US && Total(t, d, rate) / US < 0x7fff_ffff
    ensures var total, counter := Total(t, d, rate), n % WORD;
            Now(Stored(t, counter, rate), (n + d) % WORD, rate) == Time(total / US, total % US)
            <==> EvenWraps(n, d, rate)
                 && (Harmless(counter, rate) || (total == 0 && CutMicros(counter, rate) > Micros(counter, rate)))
  {
    var a, b, w := n % WORD, (n + d) % WORD, Wraps(n, d);
    ReadsWhatWasSet(t, n, d, rate);
    NoLead(a, rate);
    NoLead(b, rate);
    MicrosFit(a, rate);
    CutIs(a, rate);
    WholeWraps(w, rate);
    QuotientIs(0, rate, 0, 0);
    assert Rounded(d, rate) == 0;
    hide Seconds, Elapsed, Micros, CutMicros, Now, Stored, Gone, Lead, Rounded, Harmless;
    AheadByWords(Elapsed(w, rate), Micros(a, rate), CutMicros(a, rate));
    if Gone(d, rate) == 0 {
      NoneGone(n, d, rate);
    }
  }

  lemma NoneGone(n: nat, d: nat, rate: nat)
    requires rate > 0 && US % rate == 0 && Gone(d, rate) == 0
    ensures EvenWraps(n, d, rate)
  {
    QuotientOf(d * US, rate);
    QuotientOf(US, rate);
    MultipleIs(rate, US / rate);
    MultipleIs(US, d);
    assert d == 0;
    assert Wraps(n, 0) == 0;
    QuotientIs(0, rate, 0, 0);
  }

  lemma NoLead(n: nat, rate: nat)
    requires rate > 0 && US % rate == 0
    ensures Lead(n, rate) == 0
  {
    var k, q, r := US / rate, n / rate, n % rate;
    QuotientOf(US, rate);
    QuotientOf(n, rate);
    Below(k, rate, r, 0);
    Expand(n, rate, k, q, r);
    QuotientIs(n * k, US, q, r * k);
  }

  lemma AheadByWords(lost: nat, x: nat, x': nat)
    requires x < US && x' < US
    ensures (x - x' - WORD * lost) % (WORD * US) == 0 <==> lost % US == 0 && x == x'
  {
    var v := x - x' - WORD * lost;
    if v % (WORD * US) == 0 {
      var c := v / (WORD * US);
      assert v == WORD * (US * c);
      assert WORD * (US * c + lost) == x - x';
      assert US * c + lost == 0;
      assert lost == US * -c;
    }
  }

  lemma CutIs(a: nat, rate: nat)
    requires rate > 0
    ensures CutMicros(a, rate) == Micros(a, rate) <==> Harmless(a, rate)
  {
    hide Elapsed;
    CutHarmless(Elapsed(a, rate));
  }

  /** The microseconds of the wraps are whole words of seconds exactly if the
      wraps are a multiple of the rate. */
  lemma WholeWraps(w: nat, rate: nat)
    requires rate > 0 && US % rate == 0
    ensures Elapsed(w, rate) % US == 0 <==> w % rate == 0
  {
    var k, q, r := US / rate, w / rate, w % rate;
    QuotientOf(US, rate);
    QuotientOf(w, rate);
    Below(k, rate, r, 0);
    Expand(w, rate, k, q, r);
    QuotientIs(w * k, US, q, r * k);
    MultipleIs(k, r);
  }

  // ------------------------------------------------------------------
  // Clocks that show the wrong time
  // ------------------------------------------------------------------

  /** Set at reset and read one second of ticks later, the clock is right if and
      only if the rate divides a million, or is more than a million. */
  lemma OneSecondOn(t: Time, rate: nat)
    requires 0 < rate < WORD && 0 <= t.sec < 0x7fff_fffe && 0 <= t.usec < US
    ensures Now(Stored(t, 0, rate), rate, rate) == Time(t.sec + 1, t.usec) <==> US % rate == 0 || rate > US
  {
    var k, e := US / rate, US % rate;
    QuotientOf(US, rate);
    MultipleIs(rate, k);
    OneSecond(rate, k, e);
    assert Gone(rate, rate) == US && Elapsed(rate, rate) == rate * k && Rounded(rate, rate) == e;
    assert Seconds(rate, rate) == 1 && Seconds(0, rate) == 0 && Elapsed(0, rate) == 0;
    assert Total(t, rate, rate) == (t.sec + 1) * US + t.usec;
    ReadsWhatWasSet(t, 0, rate, rate);
    assert Wraps(0, rate) == 0;
    assert Lead(rate, rate) == if e == 0 then 0 else 1;
    assert Micros(0, rate) == 0 && CutMicros(0, rate) == 0 && Lead(0, rate) == 0;
    hide Now, Stored, Elapsed, Lead, Rounded, Micros, CutMicros, Gone;
    assert Ahead(0, rate, rate) == if e == 0 then 0 else US - e;
  }

  lemma OneSecond(rate: nat, k: nat, e: nat)
    requires rate > 0 && US == rate * k + e && e < rate
    ensures rate * US / rate == US && rate * e / rate == e && rate / rate == 1 && 0 / rate == 0
    ensures (rate * k) / US == (if e == 0 then 1 else 0)
    ensures e == US <==> rate > US
  {
    QuotientIs(rate * US, rate, US, 0);
    QuotientIs(rate * e, rate, e, 0);
    QuotientIs(rate, rate, 1, 0);
    QuotientIs(0, rate, 0, 0);
    MultipleIs(rate, k);
  }

  /** Not so, for one, with a thousand ticks to the second, some seventy-two
      minutes after reset: a clock set then does not show what it was set to. */
  lemma SetLateReadsWrong(t: Time)
    requires 0 < t.sec < 0x7fff_ffff && 0 <= t.usec < US
    ensures Now(Stored(t, 4_294_968, 1000), 4_294_968, 1000) != t
  {
    assert Elapsed(0, 1000) == 0 && !Harmless(4_294_968, 1000);
    ReadsAtEvenRate(t, 4_294_968, 0, 1000);
    hide Now, Stored, Elapsed, Harmless, EvenWraps;
    assert Total(t, 0, 1000) / US == t.sec && Total(t, 0, 1000) % US == t.usec;
  }

  /** Nor, with a hundred ticks to the second, across one wrap of the counter. */
  lemma ReadAfterWrapReadsWrong(t: Time)
    requires 0 < t.sec < 0x7fff_fffe && 0 <= t.usec < US
    ensures var total := t.sec * US + t.usec + 10_000;
            Now(Stored(t, WORD - 1, 100), 0, 100) != Time(total / US, total % US)
  {
    assert Elapsed(1, 100) == 10_000 && !EvenWraps(WORD - 1, 1, 100);
    ReadsAtEvenRate(t, WORD - 1, 1, 100);
    hide Now, Stored, Elapsed, Harmless, EvenWraps;
  }
}
