/** The text form of UTC instants that fleet writers stamp into `created_at`, and the byte order
    in which the stores compare it (`kernel/graph_support.py`). */
module CreatedAt {
  import opened Options
  import opened Props

  /** A UTC datetime; Python compares two of them field by field. */
  datatype Instant = Instant(year: nat, month: nat, day: nat, hour: nat, minute: nat, second: nat, micro: nat)

  predicate Valid(i: Instant) {
    && i.year < 10000 && i.month < 100 && i.day < 100
    && i.hour < 100 && i.minute < 100 && i.second < 100 && i.micro < 1000000
  }

  predicate Before(a: Instant, b: Instant) {
    if a.year != b.year then a.year < b.year
    else if a.month != b.month then a.month < b.month
    else if a.day != b.day then a.day < b.day
    else if a.hour != b.hour then a.hour < b.hour
    else if a.minute != b.minute then a.minute < b.minute
    else if a.second != b.second then a.second < b.second
    else a.micro < b.micro
  }

  /** Python's `str` order, which is the byte order of ASCII text. */
  predicate Less(a: string, b: string) {
    b != [] && (a == [] || a[0] < b[0] || (a[0] == b[0] && Less(a[1..], b[1..])))
  }

  function Power10(w: nat): nat { if w == 0 then 1 else 10 * Power10(w - 1) }

  function Digit(d: nat): char requires d < 10 { '0' + d as char }

  /** `n` in decimal, zero-padded to `w` places. */
  function Digits(n: nat, w: nat): (r: string)
    ensures |r| == w
  {
    if w == 0 then "" else Digits(n / 10, w - 1) + [Digit(n % 10)]
  }

  /** `isoformat()` of a UTC datetime: no fraction when it is zero, else six digits. */
  function IsoFormat(i: Instant): string {
    Digits(i.year, 4) + ("-" + (Digits(i.month, 2) + ("-" + (Digits(i.day, 2) + ("T" + (Digits(i.hour, 2)
    + (":" + (Digits(i.minute, 2) + (":" + (Digits(i.second, 2) + Fraction(i.micro)))))))))))
  }

  function Fraction(micro: nat): string {
    if micro == 0 then "+00:00" else "." + (Digits(micro, 6) + "+00:00")
  }

  lemma {:induction false} LessAsymmetric(a: string, b: string)
    requires Less(a, b)
    ensures !Less(b, a)
  {
    if a != [] && a[0] == b[0] { LessAsymmetric(a[1..], b[1..]); }
  }

  lemma {:induction false} LessIrreflexive(a: string)
    ensures !Less(a, a)
  {
    if a != [] { LessIrreflexive(a[1..]); }
  }

  lemma {:induction false} LessTransitive(a: string, b: string, c: string)
    requires Less(a, b) && Less(b, c)
    ensures Less(a, c)
  {
    if a != [] && a[0] == b[0] == c[0] { LessTransitive(a[1..], b[1..], c[1..]); }
  }

  lemma {:induction false} LessTotal(a: string, b: string)
    requires a != b
    ensures Less(a, b) || Less(b, a)
  {
    if a != [] && b != [] && a[0] == b[0] {
      assert a == [a[0]] + a[1..] && b == [b[0]] + b[1..];
      LessTotal(a[1..], b[1..]);
    }
  }

  lemma {:induction false} CancelPrefix(p: string, a: string, b: string)
    ensures Less(p + a, p + b) <==> Less(a, b)
  {
    if p == [] {
      assert p + a == a && p + b == b;
    } else {
      CancelPrefix(p[1..], a, b);
      assert (p + a)[1..] == p[1..] + a && (p + b)[1..] == p[1..] + b;
    }
  }

  lemma {:induction false} SmallerDigitsFirst(n: nat, m: nat, w: nat, a: string, b: string)
    requires n < m < Power10(w)
    ensures Less(Digits(n, w) + a, Digits(m, w) + b)
  {
    var x, y := [Digit(n % 10)] + a, [Digit(m % 10)] + b;
    assert Digits(n, w) + a == Digits(n / 10, w - 1) + x;
    assert Digits(m, w) + b == Digits(m / 10, w - 1) + y;
    if n / 10 == m / 10 {
      CancelPrefix(Digits(n / 10, w - 1), x, y);
    } else {
      SmallerDigitsFirst(n / 10, m / 10, w - 1, x, y);
    }
  }

  /** A zero-padded field decides the order unless it is equal on both sides. */
  lemma FieldDecides(n: nat, m: nat, w: nat, a: string, b: string)
    requires n < Power10(w) && m < Power10(w)
    ensures Less(Digits(n, w) + a, Digits(m, w) + b) <==> n < m || (n == m && Less(a, b))
  {
    if n < m {
      SmallerDigitsFirst(n, m, w, a, b);
    } else if m < n {
      SmallerDigitsFirst(m, n, w, b, a);
      LessAsymmetric(Digits(m, w) + b, Digits(n, w) + a);
    } else {
      CancelPrefix(Digits(n, w), a, b);
    }
  }

  lemma SeparatedField(sep: char, n: nat, m: nat, w: nat, a: string, b: string)
    requires n < Power10(w) && m < Power10(w)
    ensures Less([sep] + (Digits(n, w) + a), [sep] + (Digits(m, w) + b)) <==> n < m || (n == m && Less(a, b))
  {
    CancelPrefix([sep], Digits(n, w) + a, Digits(m, w) + b);
    FieldDecides(n, m, w, a, b);
  }

  /** A missing fraction sorts before every nonzero one, because `+` sorts before `.`. */
  lemma FractionOrder(n: nat, m: nat)
    requires n < 1000000 && m < 1000000
    ensures Less(Fraction(n), Fraction(m)) <==> n < m
  {
    assert Power10(6) == 1000000;
    if n == 0 || m == 0 {
      if n == m { LessIrreflexive(Fraction(n)); }
    } else {
      SeparatedField('.', n, m, 6, "+00:00", "+00:00");
      LessIrreflexive("+00:00");
    }
  }

  /** Byte order of the stamps is time order, in both directions and across both widths. */
  lemma TextOrderIsTimeOrder(a: Instant, b: Instant)
    requires Valid(a) && Valid(b)
    ensures Less(IsoFormat(a), IsoFormat(b)) <==> Before(a, b)
  {
    assert Power10(2) == 100 && Power10(4) == 10000;
    var sa, sb := Fraction(a.micro), Fraction(b.micro);
    FractionOrder(a.micro, b.micro);
    var ma, mb := ":" + (Digits(a.second, 2) + sa), ":" + (Digits(b.second, 2) + sb);
    SeparatedField(':', a.second, b.second, 2, sa, sb);
    var ha, hb := ":" + (Digits(a.minute, 2) + ma), ":" + (Digits(b.minute, 2) + mb);
    SeparatedField(':', a.minute, b.minute, 2, ma, mb);
    var da, db := "T" + (Digits(a.hour, 2) + ha), "T" + (Digits(b.hour, 2) + hb);
    SeparatedField('T', a.hour, b.hour, 2, ha, hb);
    var ya, yb := "-" + (Digits(a.day, 2) + da), "-" + (Digits(b.day, 2) + db);
    SeparatedField('-', a.day, b.day, 2, da, db);
    var za, zb := "-" + (Digits(a.month, 2) + ya), "-" + (Digits(b.month, 2) + yb);
    SeparatedField('-', a.month, b.month, 2, ya, yb);
    FieldDecides(a.year, b.year, 4, za, zb);
  }

  const CREATED_AT := "created_at"

  /** `created_at_on_or_after`: only a string stamp can pass a bound. */
  predicate OnOrAfter(props: Props, bound: Option<string>) {
    bound.None? || (CREATED_AT in props && props[CREATED_AT].Text? && !Less(props[CREATED_AT].s, bound.value))
  }

  /** On fleet stamps the text filter keeps exactly the nodes created at or after the bound. */
  lemma BoundKeepsExactly(props: Props, created: Instant, bound: Instant)
    requires Valid(created) && Valid(bound)
    requires CREATED_AT in props && props[CREATED_AT] == Text(IsoFormat(created))
    ensures OnOrAfter(props, Some(IsoFormat(bound))) <==> !Before(created, bound)
  {
    TextOrderIsTimeOrder(created, bound);
  }
}
