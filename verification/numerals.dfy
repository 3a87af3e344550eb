/** strconv: printing numbers in a base up to 36. */
module Numerals {
  import opened Outcomes
  import opened Bytes

  const DASH := 45

  /** The digit 0-9 a-z. */
  function Digit(d: int): (c: byte)
    requires 0 <= d < 36
    ensures c != DASH
  {
    if d < 10 then d + 48 else d + 87
  }

  lemma DigitInjective(a: int, b: int)
    requires 0 <= a < 36 && 0 <= b < 36 && Digit(a) == Digit(b)
    ensures a == b
  {
  }

  /** strconv.FormatInt(v, base) for a non-negative v. */
  function Format(v: nat, base: nat): (t: Text)
    requires 2 <= base <= 36
    ensures t != [] && forall i :: 0 <= i < |t| ==> t[i] != DASH
  {
    if v < base then [Digit(v)]
    else
      QuotientSmaller(v, base);
      Format(v / base, base) + [Digit(v % base)]
  }

  lemma FormatShort(v: nat, w: nat, base: nat)
    requires 2 <= base <= 36 && v < base && Format(v, base) == Format(w, base)
    ensures v == w
  {
    if w < base {
      DigitInjective(v, w);
    }
  }

  lemma FormatLast(v: nat, base: nat)
    requires 2 <= base <= 36 && v >= base
    ensures var t := Format(v, base); |t| > 1 && t[..|t| - 1] == Format(v / base, base) && t[|t| - 1] == Digit(v % base)
  {
  }

  lemma DivMod(v: nat, w: nat, base: nat)
    requires base > 0 && v / base == w / base && v % base == w % base
    ensures v == w
  {
  }

  lemma QuotientSmaller(v: nat, base: nat)
    requires base >= 2 && v > 0
    ensures 0 <= v / base < v
  {
  }

  lemma FormatStep(v: nat, w: nat, base: nat)
    requires 2 <= base <= 36 && v >= base && w >= base && Format(v, base) == Format(w, base)
    ensures Format(v / base, base) == Format(w / base, base) && v % base == w % base
  {
    FormatLast(v, base);
    FormatLast(w, base);
    var a, b := v % base, w % base;
    assert Digit(a) == Digit(b);
    DigitInjective(a, b);
  }

  lemma {:induction false} FormatInjective(v: nat, w: nat, base: nat)
    requires 2 <= base <= 36 && Format(v, base) == Format(w, base)
    ensures v == w
  {
    if v < base {
      FormatShort(v, w, base);
    } else if w < base {
      FormatShort(w, v, base);
    } else {
      FormatStep(v, w, base);
      QuotientSmaller(v, base);
      FormatInjective(v / base, w / base, base);
      DivMod(v, w, base);
    }
  }

  function Power36(n: nat): nat { if n == 0 then 1 else 36 * Power36(n - 1) }

  lemma {:induction false} FormatLength(v: nat, n: nat)
    requires n > 0 && v < Power36(n)
    ensures |Format(v, 36)| <= n
  {
    if v >= 36 {
      FormatLength(v / 36, n - 1);
    }
  }

  /** The value of a digit 0-9 or a-z below the base. */
  function DigitValue(c: byte, base: nat): Option<nat> {
    if 48 <= c <= 57 && c - 48 < base then Some(c - 48)
    else if 97 <= c <= 122 && c - 87 < base then Some(c - 87)
    else None
  }

  /** strconv.ParseInt for a non-negative number. */
  function ReadBack(t: Text, base: nat): Option<nat> {
    if t == [] then None
    else if |t| == 1 then DigitValue(t[0], base)
    else
      match (ReadBack(t[..|t| - 1], base), DigitValue(t[|t| - 1], base))
      case (Some(high), Some(low)) => Some(high * base + low)
      case _ => None
  }

  lemma DigitReadsBack(d: nat, base: nat)
    requires d < base <= 36
    ensures DigitValue(Digit(d), base) == Some(d) && (d > 0 ==> Digit(d) != 48)
  {
  }

  lemma ReadBackSnoc(t: Text, front: Text, c: byte, base: nat, high: nat, low: nat)
    requires t == front + [c] && front != [] && ReadBack(front, base) == Some(high) && DigitValue(c, base) == Some(low)
    ensures ReadBack(t, base) == Some(high * base + low) && t[0] == front[0]
  {
    assert t[..|t| - 1] == front && t[|t| - 1] == c;
  }

  /** What is printed reads back as the number, and has no leading zero. */
  lemma {:induction false} FormatReadsBack(v: nat, base: nat)
    requires 2 <= base <= 36
    ensures ReadBack(Format(v, base), base) == Some(v)
    ensures v > 0 ==> Format(v, base)[0] != 48
    decreases v
  {
    if v < base {
      DigitReadsBack(v, base);
    } else {
      var high, low := v / base, v % base;
      QuotientSmaller(v, base);
      QuotientPositive(v, base);
      FormatReadsBack(high, base);
      DigitReadsBack(low, base);
      FormatSnoc(v, base, high, low);
      ReadBackSnoc(Format(v, base), Format(high, base), Digit(low), base, high, low);
      Parts(v, base, high, low);
    }
  }

  lemma FormatSnoc(v: nat, base: nat, high: nat, low: nat)
    requires 2 <= base <= 36 && v >= base && high == v / base && low == v % base
    ensures Format(v, base) == Format(high, base) + [Digit(low)]
  {
  }

  lemma Parts(v: nat, base: nat, high: nat, low: nat)
    requires base > 0 && high == v / base && low == v % base
    ensures high * base + low == v
  {
  }

  lemma QuotientPositive(v: nat, base: nat)
    requires 2 <= base <= v
    ensures v / base > 0
  {
  }
}
