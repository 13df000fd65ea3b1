/** The integer conversions of the boot-time logging printf. */
module LogFormat {
  import opened DivMod

  const WORD: nat := 0x1_0000_0000
  const SIGN: nat := 0x8000_0000

  // ------------------------------------------------------------------
  // Numerals
  // ------------------------------------------------------------------

  predicate IsBase(base: nat) { base == 8 || base == 10 || base == 16 }

  function DigitChar(d: nat, upper: bool): char
    requires d < 16
  {
    if d < 10 then '0' + d as char else (if upper then 'A' else 'a') + (d - 10) as char
  }

  function DigitValue(c: char): nat {
    if '0' <= c <= '9' then (c - '0') as nat
    else if 'A' <= c <= 'F' then (c - 'A') as nat + 10
    else if 'a' <= c <= 'f' then (c - 'a') as nat + 10
    else 0
  }

  /** A digit above nine is a letter, of the case asked for. */
  lemma DigitIs(d: nat, upper: bool)
    requires d < 16
    ensures DigitChar(d, upper) == (if upper then "0123456789ABCDEF" else "0123456789abcdef")[d]
  {
  }

  lemma DigitReadsBack(d: nat, upper: bool)
    requires d < 16
    ensures DigitValue(DigitChar(d, upper)) == d && (DigitChar(d, upper) == '0' <==> d == 0)
    ensures DigitChar(d, upper) != ' ' && DigitChar(d, upper) != '-'
  {
  }

  /** The shortest numeral of a number. */
  function Numeral(v: nat, base: nat, upper: bool): (s: string)
    requires IsBase(base)
    ensures |s| > 0
    decreases v
  {
    if v < base then [DigitChar(v, upper)]
    else Numeral(v / base, base, upper) + [DigitChar(v % base, upper)]
  }

  function Parse(s: string, base: nat): nat {
    if s == [] then 0 else Parse(s[..|s| - 1], base) * base + DigitValue(s[|s| - 1])
  }

  lemma ParseMore(s: string, c: char, base: nat)
    ensures Parse(s + [c], base) == Parse(s, base) * base + DigitValue(c)
  {
    assert (s + [c])[..|s|] == s;
  }

  /** A numeral reads back as its number. */
  lemma {:induction false} NumeralReadsBack(v: nat, base: nat, upper: bool)
    requires IsBase(base)
    ensures Parse(Numeral(v, base, upper), base) == v
    decreases v
  {
    if v < base {
      DigitReadsBack(v, upper);
      hide DigitChar, DigitValue;
      ParseMore([], DigitChar(v, upper), base);
    } else {
      var q, e := v / base, v % base;
      Recompose(v, base);
      DigitReadsBack(e, upper);
      UnfoldNumeral(v, base, upper);
      hide DigitChar, DigitValue, Parse, Numeral;
      NumeralReadsBack(q, base, upper);
      ParseMore(Numeral(q, base, upper), DigitChar(e, upper), base);
    }
  }

  lemma Recompose(v: nat, base: nat)
    requires IsBase(base)
    ensures v == v / base * base + v % base && v % base < base <= 16
  {
  }

  lemma UnfoldNumeral(v: nat, base: nat, upper: bool)
    requires IsBase(base) && v >= base
    ensures v / base < v && v % base < 16
    ensures Numeral(v, base, upper) == Numeral(v / base, base, upper) + [DigitChar(v % base, upper)]
  {
  }

  /** And it has no superfluous digit: only zero's begins with a zero. */
  lemma {:induction false} NumeralIsShort(v: nat, base: nat, upper: bool)
    requires IsBase(base)
    ensures Numeral(v, base, upper)[0] == '0' <==> v == 0
    ensures v == 0 ==> Numeral(v, base, upper) == "0"
    decreases v
  {
    if v < base {
      DigitReadsBack(v, upper);
    } else {
      NumeralIsShort(v / base, base, upper);
      hide DigitChar;
    }
  }

  function Power(base: nat, k: nat): nat {
    if k == 0 then 1 else base * Power(base, k - 1)
  }

  /** The last `n` digits of a number. */
  function Padded(v: nat, n: nat, base: nat, upper: bool): (s: string)
    requires IsBase(base)
    ensures |s| == n
  {
    if n == 0 then [] else Padded(v / base, n - 1, base, upper) + [DigitChar(v % base, upper)]
  }

  lemma {:induction false} PowerPositive(base: nat, k: nat)
    requires base > 0
    ensures Power(base, k) > 0
  {
    if k > 0 {
      PowerPositive(base, k - 1);
    }
  }

  /** Digits from the front: the quotient by the place value, then the rest. */
  lemma {:induction false} LeadingDigit(v: nat, n: nat, base: nat, upper: bool)
    requires IsBase(base) && n > 0 && v < Power(base, n)
    ensures Power(base, n - 1) > 0
    ensures v / Power(base, n - 1) < base && v % Power(base, n - 1) < Power(base, n - 1)
    ensures Padded(v, n, base, upper)
            == [DigitChar(v / Power(base, n - 1), upper)] + Padded(v % Power(base, n - 1), n - 1, base, upper)
  {
    hide DigitChar;
    PowerPositive(base, n - 1);
    if n == 1 {
      assert Power(base, 0) == 1;
    } else {
      var p, q := Power(base, n - 2), Power(base, n - 1);
      PowerPositive(base, n - 2);
      assert q == base * p && Power(base, n) == base * q;
      hide Power, IsBase;
      DivideBelow(v, base, q);
      TwoSteps(v, base, p, q);
      LeadingDigit(v / base, n - 1, base, upper);
      UnfoldPadded(v, n, base, upper);
      UnfoldPadded(v % q, n - 1, base, upper);
    }
  }

  lemma UnfoldPadded(v: nat, n: nat, base: nat, upper: bool)
    requires IsBase(base) && n > 0
    ensures base > 0 && v % base < 16
    ensures Padded(v, n, base, upper) == Padded(v / base, n - 1, base, upper) + [DigitChar(v % base, upper)]
  {
  }

  lemma DivideBelow(v: nat, b: nat, p: nat)
    requires b > 0 && v < b * p
    ensures v / b < p
  {
    assert v == b * (v / b) + v % b;
    MultipleIs(b, p - v / b);
    MultipleIs(b, v / b - p);
  }

  /** The shortest numeral has as many digits as the number of divisions that
      leave something, and is all of the number's digits. */
  lemma {:induction false} NumeralIsPadded(v: nat, base: nat, upper: bool)
    requires IsBase(base)
    ensures Padded(v, |Numeral(v, base, upper)|, base, upper) == Numeral(v, base, upper)
    ensures v < Power(base, |Numeral(v, base, upper)|)
    decreases v
  {
    if v >= base {
      NumeralIsPadded(v / base, base, upper);
    } else {
      assert Power(base, 0) == 1;
    }
  }

  // ------------------------------------------------------------------
  // The conversion
  // ------------------------------------------------------------------

  function Repeat(c: char, n: int): (s: string)
    ensures |s| == if n > 0 then n else 0
    ensures forall i :: 0 <= i < |s| ==> s[i] == c
  {
    if n <= 0 then [] else seq(n, _ => c)
  }

  function Sign(negative: bool): string { if negative then "-" else "" }

  /** A numeral in a field: zeros go after the sign, spaces before it. */
  function Rendered(v: nat, negative: bool, base: nat, upper: bool, leadingZero: bool, field: int): string
    requires IsBase(base)
  {
    var numeral, sign := Numeral(v, base, upper), Sign(negative);
    var pad := field - |numeral| - |sign|;
    if leadingZero then sign + Repeat('0', pad) + numeral else Repeat(' ', pad) + sign + numeral
  }

  /** The magnitude of a 32-bit word, and whether it is below zero. */
  function Negative(raw: nat, isSigned: bool): bool { isSigned && raw >= SIGN }

  function Magnitude(raw: nat, isSigned: bool): nat
    requires raw < WORD
  {
    if Negative(raw, isSigned) then WORD - raw else raw
  }

  /** The value a 32-bit argument stands for. */
  function Meaning(raw: nat, isSigned: bool): int {
    if isSigned && raw >= SIGN then raw - WORD else raw
  }

  // ------------------------------------------------------------------
  // The loops
  // ------------------------------------------------------------------

  /** The loop that counts digits has divided `c` times. */
  ghost predicate Counted(v: nat, base: nat, c: nat, p: nat, shrink: nat)
    requires IsBase(base)
  {
    NextPlace(base, c);
    && c > 0 && p == Power(base, c - 1) && p < WORD
    && shrink == v / Power(base, c)
    && |Numeral(v, base, false)| == c + (if shrink == 0 then 0 else |Numeral(shrink, base, false)|)
  }

  lemma CountBegins(v: nat, base: nat)
    requires v < WORD && IsBase(base)
    ensures Counted(v, base, 1, 1, v / base)
  {
    NextPlace(base, 0);
    NumeralLength(v, base);
  }

  /** A place value never exceeds the number, so it never overflows. */
  lemma CountStep(v: nat, base: nat, c: nat, p: nat, shrink: nat)
    requires v < WORD && IsBase(base) && Counted(v, base, c, p, shrink) && shrink > 0
    ensures p * base <= v && shrink / base < shrink
    ensures Counted(v, base, c + 1, p * base, shrink / base)
  {
    NextPlace(base, c - 1);
    NextPlace(base, c);
    NumeralLength(shrink, base);
    PlaceFits(v, Power(base, c));
    TwoSteps(v, Power(base, c), base, Power(base, c + 1));
    hide Power, Numeral, IsBase;
  }

  /** Count digits, and find the place value of the first. */
  method CountDigits(v: nat, base: nat) returns (digitCount: nat, p: nat)
    requires v < WORD && IsBase(base)
    ensures digitCount == |Numeral(v, base, false)| && p == Power(base, digitCount - 1) && p < WORD
  {
    CountBegins(v, base);
    assert base > 0;
    hide Counted, Power, Numeral, IsBase;
    var shrink: nat := v / base;
    p, digitCount := 1, 1;
    while shrink > 0
      invariant Counted(v, base, digitCount, p, shrink)
      decreases shrink
    {
      CountStep(v, base, digitCount, p, shrink);
      digitCount := digitCount + 1;
      p := p * base;
      shrink := shrink / base;
    }
    CountEnds(v, base, digitCount, p);
  }

  lemma CountEnds(v: nat, base: nat, c: nat, p: nat)
    requires IsBase(base) && Counted(v, base, c, p, 0)
    ensures c == |Numeral(v, base, false)| && p == Power(base, c - 1) && p < WORD
  {
  }

  lemma NextPlace(base: nat, k: nat)
    requires IsBase(base)
    ensures Power(base, 0) == 1 && Power(base, k) > 0 && Power(base, k + 1) > 0
    ensures Power(base, k + 1) == Power(base, k) * base
    ensures k == 0 ==> Power(base, 1) == base
  {
    PowerPositive(base, k);
    PowerPositive(base, k + 1);
  }

  lemma PlaceFits(v: nat, q: nat)
    requires q > 0 && v / q > 0
    ensures q <= v
  {
    assert v == q * (v / q) + v % q;
    MultipleIs(q, v / q);
  }

  lemma NumeralLength(v: nat, base: nat)
    requires IsBase(base)
    ensures base > 0 && (v > 0 ==> v / base < v) && (v / base == 0 <==> v < base)
    ensures |Numeral(v, base, false)| == 1 + (if v / base == 0 then 0 else |Numeral(v / base, base, false)|)
  {
    hide DigitChar;
    if v >= base {
      UnfoldNumeral(v, base, false);
      AtLeastOne(v, base);
    }
  }

  lemma AtLeastOne(v: nat, base: nat)
    requires IsBase(base) && v >= base
    ensures v / base > 0
  {
  }

  /** The digits from the front, by place values. */
  method PrintDigits(v0: nat, p0: nat, ghost n: nat, base: nat, upper: bool) returns (out: string)
    requires IsBase(base) && n > 0 && v0 < Power(base, n) && p0 == Power(base, n - 1)
    ensures out == Padded(v0, n, base, upper)
  {
    DigitsBegin(v0, n, base, upper);
    assert base > 0;
    hide Printing, IsBase, Power, Padded, DigitChar, Quotient, Remainder;
    var v: nat, p: nat := v0, p0;
    ghost var k: nat := n;
    out := [];
    while p > 0
      invariant Printing(v0, n, base, upper, v, p, k, out)
      decreases k
    {
      var d := Quotient(v, p);
      DigitsStep(v0, n, base, upper, v, p, k, out);
      out := out + [DigitChar(d, upper)];
      v := Remainder(v, p);
      p := Quotient(p, base);
      k := k - 1;
    }
    DigitsEnd(v0, n, base, upper, v, k, out);
  }

  /** The printing loop has `k` of the `n` digits left, those of `v`. */
  ghost predicate Printing(v0: nat, n: nat, base: nat, upper: bool, v: nat, p: nat, k: nat, out: string)
    requires IsBase(base)
  {
    && (if k == 0 then p == 0 else p == Power(base, k - 1) && p > 0)
    && v < Power(base, k) && out + Padded(v, k, base, upper) == Padded(v0, n, base, upper)
  }

  lemma DigitsBegin(v0: nat, n: nat, base: nat, upper: bool)
    requires IsBase(base) && n > 0 && v0 < Power(base, n)
    ensures Printing(v0, n, base, upper, v0, Power(base, n - 1), n, [])
  {
    PowerPositive(base, n - 1);
    hide Power, Padded;
    assert [] + Padded(v0, n, base, upper) == Padded(v0, n, base, upper);
  }

  lemma DigitsStep(v0: nat, n: nat, base: nat, upper: bool, v: nat, p: nat, k: nat, out: string)
    requires IsBase(base) && Printing(v0, n, base, upper, v, p, k, out) && p > 0
    ensures k > 0 && Quotient(v, p) < 16
    ensures Printing(v0, n, base, upper, Remainder(v, p), Quotient(p, base), k - 1,
                     out + [DigitChar(Quotient(v, p), upper)])
  {
    LeadingDigit(v, k, base, upper);
    PlaceBelow(base, k);
    var d, rest := Quotient(v, p), Remainder(v, p);
    hide Power, Padded, DigitChar;
    var tail := Padded(rest, k - 1, base, upper);
    assert out + ([DigitChar(d, upper)] + tail) == (out + [DigitChar(d, upper)]) + tail;
  }

  lemma DigitsEnd(v0: nat, n: nat, base: nat, upper: bool, v: nat, k: nat, out: string)
    requires IsBase(base) && Printing(v0, n, base, upper, v, 0, k, out)
    ensures out == Padded(v0, n, base, upper)
  {
    assert k == 0;
    assert out + Padded(v, 0, base, upper) == out;
  }

  lemma PlaceBelow(base: nat, k: nat)
    requires IsBase(base) && k > 0
    ensures base > 0 && Power(base, k - 1) / base == if k == 1 then 0 else Power(base, k - 2)
    ensures k > 1 ==> Power(base, k - 2) > 0
  {
    if k > 1 {
      PowerPositive(base, k - 2);
      QuotientIs(Power(base, k - 1), base, Power(base, k - 2), 0);
    }
  }

  method RepeatChar(c: char, r: int) returns (out: string)
    ensures out == Repeat(c, r)
  {
    out := [];
    var left := r;
    while left > 0
      invariant out == Repeat(c, r - left) && (r > 0 ==> 0 <= left) && (r <= 0 ==> left == r)
    {
      out := out + [c];
      left := left - 1;
    }
  }

  /** Print one 32-bit argument. */
  method PrintInteger(raw: nat, isSigned: bool, base: nat, upper: bool, leadingZero: bool, field: int)
    returns (out: string)
    requires raw < WORD && IsBase(base)
    ensures out == Rendered(Magnitude(raw, isSigned), Negative(raw, isSigned), base, upper, leadingZero, field)
  {
    var v: nat, sign := raw, false;
    if isSigned && v >= SIGN {
      v := (WORD - 1 - v + 1) % WORD;
      sign := true;
    }
    assert v == Magnitude(raw, isSigned) && sign == Negative(raw, isSigned);
    var digitCount, p := CountDigits(v, base);
    CaseDoesNotMatter(v, base, upper);
    NumeralIsPadded(v, base, upper);
    hide Numeral, Padded, Power, IsBase, Repeat;
    var lead := PrintLead(sign, leadingZero, field - digitCount);
    var digits := PrintDigits(v, p, digitCount, base, upper);
    out := lead + digits;
  }

  /** Print leading characters and sign. */
  method PrintLead(sign: bool, leadingZero: bool, field: int) returns (out: string)
    ensures out == var pad := field - |Sign(sign)|;
                   if leadingZero then Sign(sign) + Repeat('0', pad) else Repeat(' ', pad) + Sign(sign)
  {
    hide Repeat;
    var pad := field;
    out := [];
    if leadingZero {
      if sign {
        out := out + ['-'];
        pad := pad - 1;
      }
      var fill := RepeatChar('0', pad);
      out := out + fill;
    } else {
      if sign {
        pad := pad - 1;
      }
      var fill := RepeatChar(' ', pad);
      out := out + fill;
      if sign {
        out := out + ['-'];
      }
    }
  }

  lemma {:induction false} CaseDoesNotMatter(v: nat, base: nat, upper: bool)
    requires IsBase(base)
    ensures |Numeral(v, base, upper)| == |Numeral(v, base, false)|
    decreases v
  {
    if v >= base {
      Recompose(v, base);
      CaseDoesNotMatter(v / base, base, upper);
    }
  }

  // ------------------------------------------------------------------
  // Reading the text back
  // ------------------------------------------------------------------

  function Skip(s: string): string {
    if s != [] && s[0] == ' ' then Skip(s[1..]) else s
  }

  function Signed(negative: bool, v: int): int { if negative then -v else v }

  function ReadValue(s: string, base: nat): int {
    var t := Skip(s);
    if t != [] && t[0] == '-' then Signed(true, Parse(t[1..], base)) else Signed(false, Parse(t, base))
  }

  lemma {:induction false} SkipsPadding(n: int, t: string)
    ensures Skip(Repeat(' ', n) + t) == Skip(t)
    decreases if n < 0 then 0 else n
  {
    var s := Repeat(' ', n) + t;
    if n > 0 {
      assert s[0] == ' ' && s[1..] == Repeat(' ', n - 1) + t;
      SkipsPadding(n - 1, t);
    } else {
      assert s == t;
    }
  }

  lemma {:induction false} ZerosDoNotCount(n: int, s: string, base: nat)
    ensures Parse(Repeat('0', n) + s, base) == Parse(s, base)
    decreases (if n < 0 then 0 else n) + |s|
  {
    var z := Repeat('0', n);
    if s != [] {
      ZerosDoNotCount(n, s[..|s| - 1], base);
      ParseMore(s[..|s| - 1], s[|s| - 1], base);
      ParseMore(z + s[..|s| - 1], s[|s| - 1], base);
      assert z + s == (z + s[..|s| - 1]) + [s[|s| - 1]];
      assert s == s[..|s| - 1] + [s[|s| - 1]];
    } else if n > 0 {
      ZerosDoNotCount(n - 1, [], base);
      ParseMore(Repeat('0', n - 1), '0', base);
      assert z + s == Repeat('0', n - 1) + ['0'] && Repeat('0', n - 1) + [] == Repeat('0', n - 1);
    } else {
      assert z + s == [];
    }
  }

  lemma {:induction false} NumeralHead(v: nat, base: nat, upper: bool)
    requires IsBase(base)
    ensures Numeral(v, base, upper)[0] != ' ' && Numeral(v, base, upper)[0] != '-'
    decreases v
  {
    if v < base {
      DigitReadsBack(v, upper);
    } else {
      Recompose(v, base);
      NumeralHead(v / base, base, upper);
      UnfoldNumeral(v, base, upper);
      hide Numeral, DigitChar;
    }
  }

  /** What is printed for any 32-bit word reads back as the value it stands
      for, whatever the field and the filling. */
  lemma PrintReadsBack(raw: nat, isSigned: bool, base: nat, upper: bool, leadingZero: bool, field: int)
    requires raw < WORD && IsBase(base)
    ensures var text := Rendered(Magnitude(raw, isSigned), Negative(raw, isSigned), base, upper, leadingZero, field);
            ReadValue(text, base) == Meaning(raw, isSigned)
  {
    var v, negative := Magnitude(raw, isSigned), Negative(raw, isSigned);
    var numeral, sign := Numeral(v, base, upper), Sign(negative);
    var pad := field - |numeral| - |sign|;
    NumeralReadsBack(v, base, upper);
    NumeralHead(v, base, upper);
    hide Parse, Numeral, Repeat, Skip, Sign, ReadValue;
    if leadingZero {
      ReadsSigned(negative, pad, numeral, base);
    } else {
      ReadsPadded(negative, pad, numeral, base);
    }
  }

  lemma ReadsPadded(negative: bool, pad: int, numeral: string, base: nat)
    requires numeral != [] && numeral[0] != ' ' && numeral[0] != '-'
    ensures ReadValue(Repeat(' ', pad) + Sign(negative) + numeral, base) == Signed(negative, Parse(numeral, base))
  {
    var t := Sign(negative) + numeral;
    SkipsPadding(pad, t);
    ReadsSigned(negative, 0, numeral, base);
    hide Parse, Skip, Sign, ReadValue;
    assert Repeat(' ', pad) + Sign(negative) + numeral == Repeat(' ', pad) + t;
    assert Sign(negative) + Repeat('0', 0) + numeral == t;
    SkipTwice(Repeat(' ', pad) + t, t, base);
  }

  lemma ReadsSigned(negative: bool, pad: int, numeral: string, base: nat)
    requires numeral != [] && numeral[0] != ' ' && numeral[0] != '-'
    ensures var s := Sign(negative) + Repeat('0', pad) + numeral;
            && Skip(s) == s
            && ReadValue(s, base) == Signed(negative, Parse(numeral, base))
  {
    var rest := Repeat('0', pad) + numeral;
    var s := Sign(negative) + Repeat('0', pad) + numeral;
    ZerosDoNotCount(pad, numeral, base);
    hide Parse, Repeat;
    assert rest[0] != ' ' && rest[0] != '-';
    if negative {
      assert s == "-" + rest && s[0] == '-' && s[1..] == rest;
    } else {
      assert s == rest;
    }
  }

  lemma SkipTwice(s: string, t: string, base: nat)
    requires Skip(s) == t && Skip(t) == t
    ensures ReadValue(s, base) == ReadValue(t, base)
  {
  }

  /** The text is exactly as wide as the field, or as the number if that is wider. */
  lemma PrintWidth(v: nat, negative: bool, base: nat, upper: bool, leadingZero: bool, field: int)
    requires IsBase(base)
    ensures var least := |Numeral(v, base, upper)| + (if negative then 1 else 0);
            |Rendered(v, negative, base, upper, leadingZero, field)| == if field > least then field else least
  {
    hide Numeral;
  }

  /** Where everything is in what is printed: the numeral at the end, the sign at
      the beginning or right before it, and filling of one kind between. */
  lemma PrintLayout(v: nat, negative: bool, base: nat, upper: bool, leadingZero: bool, field: int, i: nat)
    requires IsBase(base)
    ensures var out := Rendered(v, negative, base, upper, leadingZero, field);
            var numeral := Numeral(v, base, upper);
            var at, sign := |out| - |numeral|, if negative then 1 else 0;
            && sign <= at && out[at..] == numeral
            && (leadingZero ==> (negative ==> out[0] == '-') && (sign <= i < at ==> out[i] == '0'))
            && (!leadingZero ==> (negative ==> out[at - 1] == '-') && (i < at - sign ==> out[i] == ' '))
  {
    hide Numeral;
  }
}
