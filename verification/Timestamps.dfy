/** The UTC timestamps the stores write with `isoformat()` and compare as strings. */
module Timestamps {
  import opened StringOrder

  /** A UTC datetime: four-digit year down to microseconds. */
  datatype Stamp = Stamp(year: nat, month: nat, day: nat, hour: nat, minute: nat, second: nat, micro: nat)

  predicate Valid(t: Stamp) {
    && 1 <= t.year <= 9999 && 1 <= t.month <= 12 && 1 <= t.day <= 31
    && t.hour < 24 && t.minute < 60 && t.second < 60 && t.micro < 1_000_000
  }

  /** The order of time: the first differing field decides. */
  predicate Earlier(a: Stamp, b: Stamp) {
    || a.year < b.year
    || (a.year == b.year && (a.month < b.month
    || (a.month == b.month && (a.day < b.day
    || (a.day == b.day && (a.hour < b.hour
    || (a.hour == b.hour && (a.minute < b.minute
    || (a.minute == b.minute && (a.second < b.second
    || (a.second == b.second && a.micro < b.micro)))))))))))
  }

  function Pow10(w: nat): (p: nat)
    ensures p > 0
  {
    if w == 0 then 1 else 10 * Pow10(w - 1)
  }

  function Digit(d: nat): char
    requires d < 10
  {
    '0' + d as char
  }

  /** The decimal digits of `n`, padded with zeros to width `w`. */
  function Digits(n: nat, w: nat): (s: string)
    requires n < Pow10(w)
    ensures |s| == w
    decreases w
  {
    if w == 0 then "" else Digits(n / 10, w - 1) + [Digit(n % 10)]
  }

  /** A microsecond of zero is left out. */
  function Fraction(micro: nat): string
    requires micro < 1_000_000
  {
    (if micro == 0 then "" else "." + Six(micro)) + "+00:00"
  }

  function Six(n: nat): (s: string)
    requires n < 1_000_000
    ensures |s| == 6
  {
    assert Pow10(6) == 1_000_000 by { assert Pow10(3) == 1000; }
    Digits(n, 6)
  }

  function Two(n: nat): (s: string)
    requires n < 100
    ensures |s| == 2
  {
    assert Pow10(2) == 100;
    Digits(n, 2)
  }

  function Four(n: nat): (s: string)
    requires n < 10_000
    ensures |s| == 4
  {
    assert Pow10(4) == 10_000 by { assert Pow10(2) == 100; }
    Digits(n, 4)
  }

  /** `datetime.isoformat()` with offset zero. */
  function IsoFormat(t: Stamp): string
    requires Valid(t)
  {
    Four(t.year) + ("-" + (Two(t.month) + ("-" + (Two(t.day) + ("T" + (Two(t.hour) + (":" + (Two(t.minute)
    + (":" + (Two(t.second) + Fraction(t.micro)))))))))))
  }

  lemma {:induction false} DigitsOrder(m: nat, n: nat, w: nat)
    requires m < Pow10(w) && n < Pow10(w)
    ensures Less(Digits(m, w), Digits(n, w)) <==> m < n
    decreases w
  {
    if w == 0 {
    } else {
      DigitsOrder(m / 10, n / 10, w - 1);
      DigitsOrder(n / 10, m / 10, w - 1);
      Prefixes(Digits(m / 10, w - 1), Digits(n / 10, w - 1), [Digit(m % 10)], [Digit(n % 10)]);
      if m / 10 != n / 10 { Irreflexive(Digits(m / 10, w - 1)); }
      assert Less([Digit(m % 10)], [Digit(n % 10)]) <==> m % 10 < n % 10;
    }
  }

  /** A fixed-width field and what follows it. */
  lemma Field(m: nat, n: nat, w: nat, a: string, b: string)
    requires m < Pow10(w) && n < Pow10(w)
    ensures Less(Digits(m, w) + a, Digits(n, w) + b) <==> m < n || (m == n && Less(a, b))
  {
    DigitsOrder(m, n, w);
    Prefixes(Digits(m, w), Digits(n, w), a, b);
    if m < n { Irreflexive(Digits(m, w)); } else if n < m { DigitsOrder(n, m, w); Irreflexive(Digits(m, w)); }
  }

  lemma FieldTwo(m: nat, n: nat, c: string, a: string, b: string)
    requires m < 100 && n < 100 && |c| == 1
    ensures Less(Two(m) + (c + a), Two(n) + (c + b)) <==> m < n || (m == n && Less(a, b))
  {
    assert Pow10(2) == 100;
    Field(m, n, 2, c + a, c + b);
    Prefixes(c, c, a, b);
    Irreflexive(c);
  }

  const ZONE := "+00:00"

  lemma WrittenFraction(m: nat)
    requires 0 < m < 1_000_000
    ensures Fraction(m) == "." + (Six(m) + ZONE)
  {
  }

  lemma BothFractions(m: nat, n: nat)
    requires 0 < m < 1_000_000 && 0 < n < 1_000_000
    ensures Less(Fraction(m), Fraction(n)) <==> m < n
  {
    WrittenFraction(m);
    WrittenFraction(n);
    assert Pow10(6) == 1_000_000 by { assert Pow10(3) == 1000; }
    Field(m, n, 6, ZONE, ZONE);
    Irreflexive(ZONE);
    Prefixes(".", ".", Six(m) + ZONE, Six(n) + ZONE);
    Irreflexive(".");
  }

  lemma WholeBeforeFraction(n: nat)
    requires 0 < n < 1_000_000
    ensures Less(Fraction(0), Fraction(n)) && !Less(Fraction(n), Fraction(0))
  {
    WrittenFraction(n);
    assert Fraction(n)[0] == '.';
    assert Fraction(0) == ZONE && ZONE[0] == '+';
  }

  /** "+" sorts below ".", so a whole second precedes its fractions. */
  lemma FractionOrder(m: nat, n: nat)
    requires m < 1_000_000 && n < 1_000_000
    ensures Less(Fraction(m), Fraction(n)) <==> m < n
  {
    if m != 0 && n != 0 {
      BothFractions(m, n);
    } else if m != 0 {
      WholeBeforeFraction(m);
    } else if n != 0 {
      WholeBeforeFraction(n);
    } else {
      Irreflexive(Fraction(0));
    }
  }

  lemma SecondsOrder(a: Stamp, b: Stamp)
    requires Valid(a) && Valid(b)
    ensures Less(Two(a.second) + Fraction(a.micro), Two(b.second) + Fraction(b.micro))
       <==> a.second < b.second || (a.second == b.second && a.micro < b.micro)
  {
    assert Pow10(2) == 100;
    Field(a.second, b.second, 2, Fraction(a.micro), Fraction(b.micro));
    FractionOrder(a.micro, b.micro);
  }

  function TimeOfDay(t: Stamp): string
    requires Valid(t)
  {
    Two(t.hour) + (":" + (Two(t.minute) + (":" + (Two(t.second) + Fraction(t.micro)))))
  }

  lemma TimeOfDayOrder(a: Stamp, b: Stamp)
    requires Valid(a) && Valid(b)
    ensures Less(TimeOfDay(a), TimeOfDay(b))
       <==> a.hour < b.hour || (a.hour == b.hour && (a.minute < b.minute || (a.minute == b.minute
            && (a.second < b.second || (a.second == b.second && a.micro < b.micro)))))
  {
    var sa, sb := Two(a.second) + Fraction(a.micro), Two(b.second) + Fraction(b.micro);
    SecondsOrder(a, b);
    FieldTwo(a.minute, b.minute, ":", sa, sb);
    FieldTwo(a.hour, b.hour, ":", Two(a.minute) + (":" + sa), Two(b.minute) + (":" + sb));
  }

  /** String order is time order, whether or not the microseconds are written out. */
  lemma IsoOrderIsTimeOrder(a: Stamp, b: Stamp)
    requires Valid(a) && Valid(b)
    ensures Less(IsoFormat(a), IsoFormat(b)) <==> Earlier(a, b)
  {
    var ta, tb := TimeOfDay(a), TimeOfDay(b);
    TimeOfDayOrder(a, b);
    FieldTwo(a.day, b.day, "T", ta, tb);
    var da, db := Two(a.day) + ("T" + ta), Two(b.day) + ("T" + tb);
    FieldTwo(a.month, b.month, "-", da, db);
    var ma, mb := Two(a.month) + ("-" + da), Two(b.month) + ("-" + db);
    assert Pow10(4) == 10_000 by { assert Pow10(2) == 100; }
    Field(a.year, b.year, 4, "-" + ma, "-" + mb);
    Prefixes("-", "-", ma, mb);
    Irreflexive("-");
  }

  /** Different times are written differently. */
  lemma IsoIsInjective(a: Stamp, b: Stamp)
    requires Valid(a) && Valid(b)
    ensures IsoFormat(a) == IsoFormat(b) <==> a == b
  {
    IsoOrderIsTimeOrder(a, b);
    IsoOrderIsTimeOrder(b, a);
    Irreflexive(IsoFormat(a));
  }

  /** Filters such as `next_run_at <= now` select exactly the times not after `now`. */
  lemma AtMostIsNotLater(a: Stamp, b: Stamp)
    requires Valid(a) && Valid(b)
    ensures Less(IsoFormat(a), IsoFormat(b)) || IsoFormat(a) == IsoFormat(b) <==> !Earlier(b, a)
  {
    IsoOrderIsTimeOrder(a, b);
    IsoOrderIsTimeOrder(b, a);
    IsoIsInjective(a, b);
    Total(IsoFormat(a), IsoFormat(b));
  }

  lemma DigitIs(d: nat)
    requires d < 10
    ensures Digit(d) == "0123456789"[d]
  {
  }

  /** Two characters and a separator in front of a rest. */
  lemma Pair(field: string, separator: string, rest: string)
    requires |field| == 2 && |separator| == 1
    ensures var s := field + (separator + rest); s[..2] == field && s[2..3] == separator && s[3..] == rest
  {
  }

  /** The written form: the date, "T", the time of day, and a fraction when there is one, with the offset. */
  lemma IsoShape(t: Stamp)
    requires Valid(t)
    ensures var s := IsoFormat(t);
            && |s| >= 25 && s[..4] == Four(t.year) && s[4..5] == "-"
            && s[5..][..2] == Two(t.month) && s[5..][2..3] == "-"
            && s[8..][..2] == Two(t.day) && s[8..][2..3] == "T"
            && s[11..][..2] == Two(t.hour) && s[11..][2..3] == ":"
            && s[14..][..2] == Two(t.minute) && s[14..][2..3] == ":"
            && s[17..] == Two(t.second) + (if t.micro == 0 then "+00:00" else "." + Six(t.micro) + "+00:00")
  {
    var s := IsoFormat(t);
    var second := Two(t.second) + Fraction(t.micro);
    var minute := Two(t.minute) + (":" + second);
    var hour := Two(t.hour) + (":" + minute);
    var day := Two(t.day) + ("T" + hour);
    var month := Two(t.month) + ("-" + day);
    assert s == Four(t.year) + ("-" + month);
    assert s[..4] == Four(t.year) && s[4..5] == "-" && s[5..] == month;
    Pair(Two(t.month), "-", day);
    Pair(Two(t.day), "T", hour);
    Pair(Two(t.hour), ":", minute);
    Pair(Two(t.minute), ":", second);
    assert s[8..] == s[5..][3..] && s[11..] == s[8..][3..] && s[14..] == s[11..][3..] && s[17..] == s[14..][3..];
    assert "" + "+00:00" == "+00:00";
  }
}
