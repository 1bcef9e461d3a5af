/** The 95% Wilson score interval (`orchestration/agreement.py`) over the reals. `root` stands for
    the result of `math.sqrt`: a nonnegative number whose square is the radicand. */
module Wilson {
  import opened Options

  const Z95 := 1.959963984540054

  function Times(a: real, b: real): (r: real)
    ensures a > 0.0 && b > 0.0 ==> r > 0.0
  {
    a * b
  }

  function Squared(z: real): real { Times(z, z) }

  function Proportion(matched: int, compared: int): real
    requires compared > 0
  {
    matched as real / compared as real
  }

  function Radicand(z: real, matched: int, compared: int): real
    requires compared > 0
  {
    var p, n := Proportion(matched, compared), compared as real;
    p * (1.0 - p) / n + Squared(z) / (4.0 * (n * n))
  }

  predicate IsRoot(root: real, square: real) { root >= 0.0 && root * root == square }

  /** The score interval for any critical value `z`. */
  function ScoreInterval(z: real, matched: int, compared: int, root: real): Option<(real, real)>
    requires z > 0.0
  {
    if compared <= 0 then None
    else
      var p, n := Proportion(matched, compared), compared as real;
      Quotient(Squared(z), n);
      var denominator := 1.0 + Squared(z) / n;
      var centre := (p + Squared(z) / (2.0 * n)) / denominator;
      var spread := z * root / denominator;
      Some((centre - spread, centre + spread))
  }

  /** `wilson_interval`. */
  function WilsonInterval(matched: int, compared: int, root: real): Option<(real, real)> {
    ScoreInterval(Z95, matched, compared, root)
  }

  // ----- signs of products ---------------------------------------------------------------------

  lemma Positive(a: real, b: real)
    requires a > 0.0 && b > 0.0
    ensures a * b > 0.0
  {
  }

  lemma NonNegative(a: real, b: real)
    requires a >= 0.0 && b >= 0.0
    ensures a * b >= 0.0
  {
  }

  lemma Square(a: real)
    ensures a * a >= 0.0
  {
    if a >= 0.0 { NonNegative(a, a); } else { NonNegative(-a, -a); }
  }

  lemma Quotient(y: real, a: real)
    requires a > 0.0
    ensures y / a * a == y && (y > 0.0 ==> y / a > 0.0) && (y >= 0.0 ==> y / a >= 0.0)
  {
    if y / a < 0.0 { Positive(-(y / a), a); }
  }

  lemma SquareLess(a: real, b: real)
    requires 0.0 <= b < a
    ensures b * b < a * a
  {
    Positive(a - b, a + b);
    assert (a - b) * (a + b) == a * a - b * b;
  }

  lemma SquareOrder(a: real, b: real)
    requires b >= 0.0
    ensures -b <= a <= b <==> a * a <= b * b
  {
    if a > b {
      SquareLess(a, b);
    } else if -a > b {
      SquareLess(-a, b);
    } else {
      NonNegative(b - a, b + a);
      assert (b - a) * (b + a) == b * b - a * a;
    }
  }

  lemma SignOfProduct(a: real, y: real)
    requires a > 0.0
    ensures a * y <= 0.0 <==> y <= 0.0
  {
    if y > 0.0 { Positive(a, y); } else { NonNegative(a, -y); }
  }

  lemma Scale(a: real, y: real, x: real)
    requires a > 0.0
    ensures (y / a <= x <==> y <= a * x) && (x <= y / a <==> a * x <= y)
  {
    Quotient(y, a);
    var v := y / a;
    SignOfProduct(a, v - x);
    SignOfProduct(a, x - v);
    assert a * (v - x) == y - a * x && a * (x - v) == a * x - y;
  }

  // ----- the interval in terms of u = z^2 / n and q = z * root --------------------------------

  predicate Solves(p: real, u: real, q: real) {
    u > 0.0 && q >= 0.0 && q * q == u * (p * (1.0 - p)) + u * u / 4.0
  }

  function Low(p: real, u: real, q: real): real
    requires u > 0.0
  {
    (p + u / 2.0) / (1.0 + u) - q / (1.0 + u)
  }

  function High(p: real, u: real, q: real): real
    requires u > 0.0
  {
    (p + u / 2.0) / (1.0 + u) + q / (1.0 + u)
  }

  /** `x` is compatible with the proportion `p`: the score test does not reject it. */
  predicate Scores(p: real, u: real, x: real) { (p - x) * (p - x) <= u * (x * (1.0 - x)) }

  /** The quadratic the interval solves. */
  lemma Quadratic(p: real, u: real, q: real, x: real)
    requires Solves(p, u, q)
    ensures var a, b := 1.0 + u, p + u / 2.0;
            (a * x - b) * (a * x - b) - q * q == a * ((p - x) * (p - x) - u * (x * (1.0 - x)))
  {
    var a, b := 1.0 + u, p + u / 2.0;
    assert (a * x - b) * (a * x - b) == a * a * (x * x) - 2.0 * (a * (b * x)) + b * b;
    assert b * b == p * p + u * p + u * u / 4.0;
    assert b * b - q * q == a * (p * p);
    assert (p - x) * (p - x) - u * (x * (1.0 - x)) == a * (x * x) - 2.0 * (b * x) + p * p;
  }

  lemma BetweenRoots(p: real, u: real, q: real, x: real)
    requires Solves(p, u, q)
    ensures -q <= (1.0 + u) * x - (p + u / 2.0) <= q <==> Scores(p, u, x)
  {
    var a, t, e := 1.0 + u, (1.0 + u) * x - (p + u / 2.0), (p - x) * (p - x) - u * (x * (1.0 - x));
    Quadratic(p, u, q, x);
    SquareOrder(t, q);
    SignOfProduct(a, e);
    assert t * t - q * q == a * e;
  }

  lemma Divided(a: real, b: real, q: real, x: real)
    requires a > 0.0
    ensures b / a - q / a <= x <= b / a + q / a <==> -q <= a * x - b <= q
  {
    Quotient(b, a);
    Quotient(q, a);
    var c, r := b / a, q / a;
    SignOfProduct(a, c - r - x);
    SignOfProduct(a, x - c - r);
    assert a * (c - r - x) == b - q - a * x && a * (x - c - r) == a * x - b - q;
  }

  lemma Bounds(p: real, u: real, q: real, x: real)
    requires u > 0.0 && Solves(p, u, q)
    ensures Low(p, u, q) <= x <= High(p, u, q) <==> Scores(p, u, x)
  {
    hide Scores;
    BetweenRoots(p, u, q, x);
    Divided(1.0 + u, p + u / 2.0, q, x);
  }

  lemma ScoresInUnit(p: real, u: real, x: real)
    requires u > 0.0 && Scores(p, u, x)
    ensures 0.0 <= x <= 1.0
  {
    Square(p - x);
    if x < 0.0 {
      Positive(-x, 1.0 - x);
      Positive(u, -x * (1.0 - x));
    } else if x > 1.0 {
      Positive(x, x - 1.0);
      Positive(u, x * (x - 1.0));
    }
  }

  lemma InUnit(p: real, u: real, q: real)
    requires Solves(p, u, q) && 0.0 <= p <= 1.0
    ensures 0.0 <= Low(p, u, q) <= p <= High(p, u, q) <= 1.0
  {
    hide Scores;
    Quotient(q, 1.0 + u);
    Bounds(p, u, q, Low(p, u, q));
    Bounds(p, u, q, High(p, u, q));
    ScoresInUnit(p, u, Low(p, u, q));
    ScoresInUnit(p, u, High(p, u, q));
    Bounds(p, u, q, p);
    ScoresItself(p, u);
  }

  lemma ScoresItself(p: real, u: real)
    requires u > 0.0 && 0.0 <= p <= 1.0
    ensures Scores(p, u, p)
  {
    NonNegative(p, 1.0 - p);
    NonNegative(u, p * (1.0 - p));
  }

  /** What a nearer proportion than `a` accepts, `b` accepts. */
  lemma NearerScores(a: real, b: real, u: real, x: real)
    requires (a <= b <= x || x <= b <= a) && Scores(a, u, x)
    ensures Scores(b, u, x)
  {
    if a <= b <= x { NonNegative(b - a, (x - b) + (x - a)); } else { NonNegative(a - b, (b - x) + (a - x)); }
    assert (a - x) * (a - x) - (b - x) * (b - x) == (b - a) * ((x - b) + (x - a));
    assert (b - a) * ((x - b) + (x - a)) == (a - b) * ((b - x) + (a - x));
  }

  lemma Monotone(p1: real, p2: real, u: real, q1: real, q2: real)
    requires u > 0.0 && Solves(p1, u, q1) && Solves(p2, u, q2) && 0.0 <= p1 <= p2 <= 1.0
    ensures Low(p1, u, q1) <= Low(p2, u, q2) && High(p1, u, q1) <= High(p2, u, q2)
  {
    hide Scores, Low, High, Solves;
    InUnit(p1, u, q1);
    InUnit(p2, u, q2);
    var high1, low2 := High(p1, u, q1), Low(p2, u, q2);
    Bounds(p1, u, q1, high1);
    Bounds(p2, u, q2, high1);
    Bounds(p1, u, q1, low2);
    Bounds(p2, u, q2, low2);
    if High(p2, u, q2) < high1 { NearerScores(p1, p2, u, high1); }
    if low2 < Low(p1, u, q1) { NearerScores(p2, p1, u, low2); }
  }

  // ----- back to counts ------------------------------------------------------------------------

  /** u = z^2 / n. */
  function Scaled(z: real, compared: int): real
    requires compared > 0
  {
    Squared(z) / compared as real
  }

  lemma ScaledPositive(z: real, compared: int)
    requires z > 0.0 && compared > 0
    ensures Scaled(z, compared) > 0.0 && Scaled(z, compared) * compared as real == Squared(z)
  {
    Quotient(Squared(z), compared as real);
  }

  /** (w / n)^2 / 4 two ways. */
  lemma QuarterSquare(w: real, n: real)
    requires n > 0.0
    ensures w * (w / (4.0 * (n * n))) == (w / n) * (w / n) / 4.0
  {
    var u, k := w / n, w / (4.0 * (n * n));
    assert k * (4.0 * (n * n)) == w;
    assert n * (4.0 * (k * n) - u) == 0.0;
    assert 4.0 * (k * n) == u;
    assert w * k == u * (k * n);
  }

  lemma RadicandTimes(w: real, n: real, v: real)
    requires n > 0.0
    ensures w * (v / n + w / (4.0 * (n * n))) == (w / n) * v + (w / n) * (w / n) / 4.0
  {
    QuarterSquare(w, n);
    var k, h := v / n, w / (4.0 * (n * n));
    assert w * (k + h) == w * k + w * h;
    Quotient(v, n);
    Quotient(w, n);
    assert (w / n) * v == (w / n) * (k * n) == w * k;
  }

  lemma SquareOfProduct(z: real, r: real)
    ensures (z * r) * (z * r) == z * z * (r * r)
  {
  }

  lemma RootTimesZ(z: real, matched: int, compared: int, root: real)
    requires z > 0.0 && compared > 0 && IsRoot(root, Radicand(z, matched, compared))
    ensures Scaled(z, compared) > 0.0
    ensures Solves(Proportion(matched, compared), Scaled(z, compared), z * root)
  {
    hide Proportion;
    var n, v := compared as real, Proportion(matched, compared) * (1.0 - Proportion(matched, compared));
    ScaledPositive(z, compared);
    var w := Squared(z);
    NonNegative(z, root);
    RadicandTimes(w, n, v);
    SquareOfProduct(z, root);
    assert (z * root) * (z * root) == w * (root * root) == w * (v / n + w / (4.0 * (n * n)));
  }

  lemma Rewritten(z: real, matched: int, compared: int, root: real)
    requires z > 0.0 && compared > 0 && Scaled(z, compared) > 0.0
    ensures var p, u, q := Proportion(matched, compared), Scaled(z, compared), z * root;
            ScoreInterval(z, matched, compared, root) == Some((Low(p, u, q), High(p, u, q)))
  {
    var w, n := Squared(z), compared as real;
    assert w / (2.0 * n) == w / n / 2.0;
  }

  // ----- the results ---------------------------------------------------------------------------

  /** `x` lies in the interval exactly when the score test with critical value `z` does not reject it. */
  lemma IntervalIsScoreTest(z: real, matched: int, compared: int, root: real, x: real)
    requires z > 0.0 && compared > 0 && IsRoot(root, Radicand(z, matched, compared))
    ensures ScoreInterval(z, matched, compared, root).Some?
    ensures var p, (low, high) := Proportion(matched, compared), ScoreInterval(z, matched, compared, root).value;
            low <= x <= high <==> compared as real * ((p - x) * (p - x)) <= Squared(z) * (x * (1.0 - x))
  {
    hide Low, High, Solves, Radicand, IsRoot, Scaled, ScoreInterval, Proportion;
    var n, p, u := compared as real, Proportion(matched, compared), Scaled(z, compared);
    RootTimesZ(z, matched, compared, root);
    Rewritten(z, matched, compared, root);
    Bounds(p, u, z * root, x);
    ScaledPositive(z, compared);
    ScaledTest(n, u, Squared(z), (p - x) * (p - x), x * (1.0 - x));
  }

  lemma ScaledTest(n: real, u: real, w: real, d: real, v: real)
    requires n > 0.0 && u * n == w
    ensures d <= u * v <==> n * d <= w * v
  {
    SignOfProduct(n, d - u * v);
    assert n * (d - u * v) == n * d - w * v;
  }

  lemma ProportionInUnit(matched: int, compared: int)
    requires 0 <= matched <= compared && compared > 0
    ensures 0.0 <= Proportion(matched, compared) <= 1.0
  {
    Scale(compared as real, matched as real, 0.0);
    Scale(compared as real, matched as real, 1.0);
  }

  /** No clamping is needed: the bounds stay in [0, 1] around the proportion. */
  lemma IntervalInUnit(z: real, matched: int, compared: int, root: real)
    requires z > 0.0 && 0 <= matched <= compared && compared > 0 && IsRoot(root, Radicand(z, matched, compared))
    ensures ScoreInterval(z, matched, compared, root).Some?
    ensures var (low, high) := ScoreInterval(z, matched, compared, root).value;
            0.0 <= low <= Proportion(matched, compared) <= high <= 1.0
  {
    hide Low, High, Solves, Radicand, IsRoot, Proportion, Scaled, ScoreInterval;
    RootTimesZ(z, matched, compared, root);
    Rewritten(z, matched, compared, root);
    ProportionInUnit(matched, compared);
    InUnit(Proportion(matched, compared), Scaled(z, compared), z * root);
  }

  /** More matches never lower either bound. */
  lemma MonotoneInMatches(z: real, fewer: int, more: int, compared: int, r: real, s: real)
    requires z > 0.0 && 0 <= fewer <= more <= compared && compared > 0
    requires IsRoot(r, Radicand(z, fewer, compared)) && IsRoot(s, Radicand(z, more, compared))
    ensures ScoreInterval(z, fewer, compared, r).Some? && ScoreInterval(z, more, compared, s).Some?
    ensures var (low1, high1) := ScoreInterval(z, fewer, compared, r).value;
            var (low2, high2) := ScoreInterval(z, more, compared, s).value;
            low1 <= low2 && high1 <= high2
  {
    hide Low, High, Solves, Radicand, IsRoot, ScoreInterval, Proportion, Scaled;
    RootTimesZ(z, fewer, compared, r);
    RootTimesZ(z, more, compared, s);
    Rewritten(z, fewer, compared, r);
    Rewritten(z, more, compared, s);
    ProportionInUnit(fewer, compared);
    ProportionInUnit(more, compared);
    ProportionGrows(fewer, more, compared);
    Monotone(Proportion(fewer, compared), Proportion(more, compared), Scaled(z, compared), z * r, z * s);
  }

  lemma ProportionGrows(fewer: int, more: int, compared: int)
    requires fewer <= more && compared > 0
    ensures Proportion(fewer, compared) <= Proportion(more, compared)
  {
    Quotient(more as real, compared as real);
    Scale(compared as real, fewer as real, Proportion(more, compared));
  }

  /** All of it for the interval the metrics report, which is there exactly when something was compared:
      the score test at the 95% critical value, bounds in [0, 1] around the proportion, and bounds that
      grow with the matches. */
  lemma WilsonIntervalHolds(matched: int, more: int, compared: int, root: real, rootMore: real, x: real)
    requires 0 <= matched <= more <= compared
    requires compared > 0 ==> IsRoot(root, Radicand(Z95, matched, compared)) && IsRoot(rootMore, Radicand(Z95, more, compared))
    ensures WilsonInterval(matched, compared, root).Some? == WilsonInterval(more, compared, rootMore).Some? == (compared > 0)
    ensures compared > 0 ==>
      var p, (low, high) := Proportion(matched, compared), WilsonInterval(matched, compared, root).value;
      && (low <= x <= high <==> compared as real * ((p - x) * (p - x)) <= Squared(Z95) * (x * (1.0 - x)))
      && 0.0 <= low <= p <= high <= 1.0
    ensures compared > 0 ==>
      var (low, high) := WilsonInterval(matched, compared, root).value;
      var (lowMore, highMore) := WilsonInterval(more, compared, rootMore).value;
      low <= lowMore && high <= highMore
  {
    hide Squared, Radicand, IsRoot, Proportion, Times;
    if compared > 0 {
      hide ScoreInterval;
      IntervalIsScoreTest(Z95, matched, compared, root, x);
      IntervalInUnit(Z95, matched, compared, root);
      MonotoneInMatches(Z95, matched, more, compared, root, rootMore);
    }
  }
}
