/** The 95% Wilson score lower bound that gates a model switch, over exact reals. Its square root enters as a value
    whose square is the discriminant. */
module Wilson {

  /** The radicand of the half width. */
  function Discriminant(w: nat, n: nat, z: real): real
    requires n > 0
  {
    Radicand(w as real / n as real, n as real, z)
  }

  function Radicand(p: real, N: real, z: real): real
    requires N > 0.0
  {
    Divide(p * (1.0 - p), N) + Divide(z * z, 4.0 * N * N)
  }

  ghost predicate IsRoot(root: real, x: real) {
    root >= 0.0 && root * root == x
  }

  function LowerBound(w: nat, n: nat, z: real, root: real): real {
    if n == 0 then 0.0
    else
      var p := w as real / n as real;
      var denom := 1.0 + z * z / n as real;
      Divide(p + z * z / (2.0 * n as real), denom) - Divide(z * root, denom)
  }

  function Divide(x: real, y: real): real {
    if y == 0.0 then 0.0 else x / y
  }

  /** The bound with its fractions cleared: N trials, a share p of wins, S twice the scaled root. */
  lemma Cleared(w: nat, n: nat, z: real, root: real) returns (N: real, p: real, S: real)
    requires n > 0 && w <= n && z > 0.0 && IsRoot(root, Discriminant(w, n, z))
    ensures N == n as real && N >= 1.0 && p == w as real / n as real && p * N == w as real && 0.0 <= p <= 1.0
    ensures S >= 0.0 && S * S == 4.0 * N * p * (1.0 - p) + z * z
    ensures LowerBound(w, n, z, root) * (2.0 * (N + z * z)) == 2.0 * p * N + z * z - z * S
  {
    N := n as real;
    p := w as real / N;
    S := 2.0 * N * root;
    ShareInRange(w as real, N, p);
    RootScaled(N, p, z, root);
    BoundScaled(N, p, z, root, LowerBound(w, n, z, root));
  }

  lemma Product(x: real, y: real)
    requires x > 0.0 && y > 0.0
    ensures x * y > 0.0
  {
  }

  lemma DivideBack(x: real, y: real)
    requires y != 0.0
    ensures Divide(x, y) * y == x
  {
  }

  lemma DivideBackProduct(x: real, y: real, c: real)
    requires y > 0.0 && c > 0.0
    ensures Divide(x, y * c) * (y * c) == x
  {
    Product(y, c);
  }

  lemma ShareInRange(w: real, N: real, p: real)
    requires N > 0.0 && 0.0 <= w <= N && p == w / N
    ensures p * N == w && 0.0 <= p <= 1.0
  {
    assert p * N == w;
    assert (p - 1.0) * N == w - N;
    if p > 1.0 {
      Product(p - 1.0, N);
    }
  }

  lemma RootScaled(N: real, p: real, z: real, root: real)
    requires N > 0.0 && root * root == Radicand(p, N, z)
    ensures (2.0 * N * root) * (2.0 * N * root) == 4.0 * N * p * (1.0 - p) + z * z
  {
    var u, v := Divide(p * (1.0 - p), N), Divide(z * z, 4.0 * N * N);
    DivideBack(p * (1.0 - p), N);
    DivideBackProduct(z * z, 4.0 * N, N);
    calc {
      (2.0 * N * root) * (2.0 * N * root);
      (4.0 * N * N) * (root * root);
      (4.0 * N * N) * (u + v);
      (4.0 * N * N) * u + (4.0 * N * N) * v;
      4.0 * N * (u * N) + v * (4.0 * N * N);
      4.0 * N * (p * (1.0 - p)) + z * z;
    }
  }

  lemma BoundScaled(N: real, p: real, z: real, root: real, bound: real)
    requires N > 0.0
    requires bound == Divide(p + z * z / (2.0 * N), 1.0 + z * z / N) - Divide(z * root, 1.0 + z * z / N)
    ensures bound * (2.0 * (N + z * z)) == 2.0 * p * N + z * z - z * (2.0 * N * root)
  {
    var q := z * z / N;
    assert q * N == z * z && z * z >= 0.0;
    assert q >= 0.0;
    var h := z * z / (2.0 * N);
    assert h * (2.0 * N) == z * z;
    var denom := 1.0 + q;
    assert bound * denom == (p + h) - z * root;
    calc {
      bound * (2.0 * (N + z * z));
      bound * (2.0 * (N + q * N));
      bound * denom * (2.0 * N);
      (p + h - z * root) * (2.0 * N);
      2.0 * p * N + h * (2.0 * N) - z * (2.0 * N * root);
    }
  }

  lemma SquareCompare(L: real, R: real)
    requires R >= 0.0
    ensures L >= R <==> L >= 0.0 && L * L >= R * R
  {
    assert R * R - L * L == (R - L) * (R + L);
    if 0.0 <= L < R {
      Product(R - L, R + L);
    } else if L > R {
      Product(L - R, R + L);
      assert (L - R) * (R + L) == -((R - L) * (R + L));
    }
  }

  /** The two sides of the gate differ by a positive factor. */
  lemma GateIdentity(N: real, d: real, p: real, z: real, t: real, L: real)
    requires d == p - t && L == 2.0 * d * N + z * z * (1.0 - 2.0 * t)
    ensures L * L - z * z * (4.0 * N * p * (1.0 - p) + z * z)
         == 4.0 * (N + z * z) * (N * d * d - z * z * t * (1.0 - t))
  {
    var Z := z * z;
    var k := 1.0 - 2.0 * t;
    assert k * k == 1.0 - 4.0 * t * (1.0 - t);
    assert p * (1.0 - p) == t * (1.0 - t) + d * k - d * d;
    calc {
      L * L - Z * (4.0 * N * p * (1.0 - p) + Z);
      4.0 * N * N * d * d + 4.0 * N * d * Z * k + Z * Z * (k * k) - 4.0 * Z * N * (p * (1.0 - p)) - Z * Z;
      4.0 * N * N * d * d + 4.0 * N * d * Z * k - 4.0 * Z * Z * (t * (1.0 - t)) - 4.0 * Z * N * (t * (1.0 - t) + d * k - d * d);
      4.0 * N * N * d * d - 4.0 * Z * Z * (t * (1.0 - t)) - 4.0 * Z * N * (t * (1.0 - t)) + 4.0 * Z * N * (d * d);
      4.0 * (N + Z) * (N * d * d - Z * t * (1.0 - t));
    }
  }

  lemma ProductMonotone(x: real, y: real, c: real)
    requires c >= 0.0 && x <= y
    ensures x * c <= y * c
  {
  }

  /** The sign of L follows the sign of d wherever the quadratic condition holds. The square of z is written z * y. */
  lemma GateSign(N: real, d: real, p: real, z: real, y: real, t: real, L: real)
    requires N > 0.0 && 0.0 <= p <= 1.0 && z > 0.0 && y > 0.0 && 0.0 < t < 1.0
    requires d == p - t && L == 2.0 * d * N + z * y * (1.0 - 2.0 * t)
    requires N * d * d >= z * y * t * (1.0 - t)
    ensures L >= 0.0 <==> d >= 0.0
  {
    var Y := z * y;
    Product(z, y);
    if d >= 0.0 {
      // d <= 1 - t, so (1 - t) N d >= N d d >= z y t (1 - t)
      SignOfProduct(d, N);
      HalfGate(N * d, d, Y * t, 1.0 - t);
      assert L == 2.0 * (N * d) + Y - 2.0 * (Y * t);
    } else {
      // -d <= t, so t N (-d) >= N d d >= z y t (1 - t)
      SignOfProduct(-d, N);
      assert N * -d * -d == N * d * d && Y * (1.0 - t) * t == Y * t * (1.0 - t);
      HalfGate(N * -d, -d, Y * (1.0 - t), t);
      assert L == Y - 2.0 * (N * -d) - 2.0 * (Y * t) && Y * (1.0 - t) == Y - Y * t;
    }
  }

  lemma HalfGate(x: real, d: real, y: real, c: real)
    requires x >= 0.0 && d <= c && c > 0.0 && x * d >= y * c
    ensures x >= y
  {
    ProductMonotone(d, c, x);
    Cancel(x, y, c);
  }

  lemma Cancel(x: real, y: real, c: real)
    requires c > 0.0 && x * c >= y * c
    ensures x >= y
  {
    if x < y {
      Product(y - x, c);
    }
  }

  /** The gate without a square root. */
  predicate Clears(w: nat, n: nat, z: real, t: real) {
    n > 0 && ClearsShare(w as real, n as real, t, Level(z, z, t))
  }

  function Level(z: real, y: real, t: real): real {
    z * y * t * (1.0 - t)
  }

  predicate ClearsShare(w: real, N: real, t: real, k: real) {
    w - t * N >= 0.0 && (w - t * N) * (w - t * N) >= k * N
  }

  predicate MeetsShare(w: real, N: real, t: real, k: real) {
    (w - t * N) * (w - t * N) == k * N
  }

  lemma ClearedGate(N: real, p: real, z: real, t: real, S: real, bound: real)
    requires N > 0.0 && 0.0 <= p <= 1.0 && z > 0.0 && 0.0 < t < 1.0
    requires S >= 0.0 && S * S == 4.0 * N * p * (1.0 - p) + z * z
    requires bound * (2.0 * (N + z * z)) == 2.0 * p * N + z * z - z * S
    ensures bound >= t <==> p >= t && N * (p - t) * (p - t) >= Level(z, z, t)
    ensures bound == t ==> N * (p - t) * (p - t) == Level(z, z, t)
  {
    var L := 2.0 * (p - t) * N + z * z * (1.0 - 2.0 * t);
    var q := N * (p - t) * (p - t) - Level(z, z, t);
    Numerator(N, p, z, t, S, bound, L);
    RootGate(N, z, z, t, S, bound, L);
    GateFactor(N, p, z, t, S, L, q);
    SignOfGate(N, z, z, q);
    if q >= 0.0 {
      GateDirection(N, p, z, z, t, L);
    }
  }

  lemma GateDirection(N: real, p: real, z: real, y: real, t: real, L: real)
    requires N > 0.0 && 0.0 <= p <= 1.0 && z > 0.0 && y > 0.0 && 0.0 < t < 1.0
    requires L == 2.0 * (p - t) * N + z * y * (1.0 - 2.0 * t)
    requires N * (p - t) * (p - t) - Level(z, y, t) >= 0.0
    ensures L >= 0.0 <==> p >= t
  {
    GateSign(N, p - t, p, z, y, t, L);
  }

  lemma Numerator(N: real, p: real, z: real, t: real, S: real, bound: real, L: real)
    requires bound * (2.0 * (N + z * z)) == 2.0 * p * N + z * z - z * S
    requires L == 2.0 * (p - t) * N + z * z * (1.0 - 2.0 * t)
    ensures bound * (2.0 * (N + z * z)) - t * (2.0 * (N + z * z)) == L - z * S
  {
  }

  lemma GateFactor(N: real, p: real, z: real, t: real, S: real, L: real, q: real)
    requires S * S == 4.0 * N * p * (1.0 - p) + z * z
    requires L == 2.0 * (p - t) * N + z * z * (1.0 - 2.0 * t) && q == N * (p - t) * (p - t) - Level(z, z, t)
    ensures L * L - z * z * (S * S) == 4.0 * (N + z * z) * q
  {
    GateIdentity(N, p - t, p, z, t, L);
  }

  /** The square of z is written z * y. */
  lemma SignOfGate(N: real, z: real, y: real, q: real)
    requires N > 0.0 && z > 0.0 && y > 0.0
    ensures q >= 0.0 <==> 4.0 * (N + z * y) * q >= 0.0
    ensures q == 0.0 <==> 4.0 * (N + z * y) * q == 0.0
  {
    Product(z, y);
    SignOfProduct(q, 4.0 * (N + z * y));
    SignOfProduct(-q, 4.0 * (N + z * y));
  }

  /** The bound reaches t when the cleared numerator is at least the scaled root. The square of z is written z * y. */
  lemma RootGate(N: real, z: real, y: real, t: real, S: real, bound: real, L: real)
    requires N > 0.0 && z > 0.0 && y > 0.0 && S >= 0.0
    requires bound * (2.0 * (N + z * y)) - t * (2.0 * (N + z * y)) == L - z * S
    ensures bound >= t <==> L >= 0.0 && L * L - z * z * (S * S) >= 0.0
    ensures bound == t ==> L * L - z * z * (S * S) == 0.0
  {
    Product(z, y);
    SignOfProduct(bound - t, 2.0 * (N + z * y));
    ProductMonotone(0.0, S, z);
    SquareCompare(L, z * S);
    assert (z * S) * (z * S) == z * z * (S * S);
  }

  lemma SignOfProduct(x: real, c: real)
    requires c > 0.0
    ensures x >= 0.0 <==> x * c >= 0.0
  {
    if x < 0.0 {
      Product(-x, c);
      assert (-x) * c == -(x * c);
    }
  }

  lemma GateScaled(w: real, N: real, p: real, t: real, k: real)
    requires N > 0.0 && p * N == w
    ensures p >= t && N * (p - t) * (p - t) >= k <==> ClearsShare(w, N, t, k)
    ensures N * (p - t) * (p - t) == k ==> MeetsShare(w, N, t, k)
  {
    assert w - t * N == (p - t) * N;
    SignOfProduct(p - t, N);
    assert (w - t * N) * (w - t * N) == ((p - t) * N) * ((p - t) * N) == (N * (p - t) * (p - t)) * N;
    SignOfProduct(N * (p - t) * (p - t) - k, N);
  }

  /** The bound reaches t exactly when the rootless gate does. */
  lemma GateWithoutRoot(w: nat, n: nat, z: real, t: real, root: real)
    requires n > 0 && w <= n && z > 0.0 && 0.0 < t < 1.0 && IsRoot(root, Discriminant(w, n, z))
    ensures LowerBound(w, n, z, root) >= t <==> Clears(w, n, z, t)
    ensures LowerBound(w, n, z, root) == t ==> MeetsShare(w as real, n as real, t, Level(z, z, t))
  {
    var N, p, S := Cleared(w, n, z, root);
    ClearedGate(N, p, z, t, S, LowerBound(w, n, z, root));
    GateScaled(w as real, N, p, t, Level(z, z, t));
  }

  lemma ZeroIdentity(N: real, p: real, Z: real)
    ensures (2.0 * p * N + Z) * (2.0 * p * N + Z) - Z * (4.0 * N * p * (1.0 - p) + Z) == 4.0 * (p * p) * (N * (N + Z))
  {
    var e := 2.0 * p * N;
    calc {
      (e + Z) * (e + Z) - Z * (4.0 * N * p * (1.0 - p) + Z);
      e * e + 2.0 * e * Z - Z * (4.0 * N * p - 4.0 * N * p * p);
      e * e + 2.0 * e * Z - Z * (2.0 * e - 4.0 * N * p * p);
      e * e + 4.0 * Z * N * p * p;
      4.0 * (p * p) * (N * (N + Z));
    }
  }

  lemma ShareIdentity(N: real, p: real, Z: real)
    ensures Z * (4.0 * N * p * (1.0 - p) + Z) - (Z * (1.0 - 2.0 * p)) * (Z * (1.0 - 2.0 * p))
         == 4.0 * (p * (1.0 - p)) * (Z * (N + Z))
  {
    var k, m := 1.0 - 2.0 * p, p * (1.0 - p);
    assert k * k == 1.0 - 4.0 * m;
    calc {
      Z * (4.0 * N * p * (1.0 - p) + Z) - (Z * k) * (Z * k);
      Z * (4.0 * N * m + Z) - Z * Z * (k * k);
      4.0 * Z * N * m + 4.0 * Z * Z * m;
      4.0 * m * (Z * (N + Z));
    }
  }

  lemma NonNegative(x: real, y: real)
    requires x >= 0.0 && y >= 0.0
    ensures x * y >= 0.0
  {
  }

  lemma AboveRoot(N: real, p: real, Z: real, R: real, L: real)
    requires N > 0.0 && 0.0 <= p && Z > 0.0 && R >= 0.0
    requires R * R == Z * (4.0 * N * p * (1.0 - p) + Z) && L == 2.0 * p * N + Z
    ensures L >= R && (p > 0.0 ==> L > R)
  {
    ZeroIdentity(N, p, Z);
    NonNegative(p, p);
    Product(N, N + Z);
    NonNegative(p * p, N * (N + Z));
    NonNegative(p, N);
    SquareCompare(L, R);
    if p > 0.0 {
      Product(p, N * (N + Z));
      Product(p, p * (N * (N + Z)));
    }
  }

  /** The square of z is written z * y. */
  lemma RangeCleared(N: real, p: real, z: real, y: real, S: real, bound: real)
    requires N > 0.0 && 0.0 <= p <= 1.0 && z > 0.0 && y > 0.0 && S >= 0.0
    requires S * S == 4.0 * N * p * (1.0 - p) + z * y && (z * S) * (z * S) == z * y * (S * S)
    requires bound * (2.0 * (N + z * y)) == 2.0 * p * N + z * y - z * S
    ensures 0.0 <= bound <= p && bound < 1.0 && (p > 0.0 ==> bound > 0.0)
  {
    var Z := z * y;
    Product(z, y);
    NonNegative(z, S);
    AboveRoot(N, p, Z, z * S, 2.0 * p * N + Z);
    SignOfProduct(bound, 2.0 * (N + Z));
    SignOfProduct(-bound, 2.0 * (N + Z));
    BelowShare(N, p, Z, z * S);
    assert (p - bound) * (2.0 * (N + Z)) == z * S - Z * (1.0 - 2.0 * p);
    SignOfProduct(p - bound, 2.0 * (N + Z));
    ProductMonotone(p, 1.0, N);
    assert (bound - 1.0) * (2.0 * (N + Z)) < 0.0;
    SignOfProduct(bound - 1.0, 2.0 * (N + Z));
  }

  lemma BelowShare(N: real, p: real, Z: real, R: real)
    requires N > 0.0 && 0.0 <= p <= 1.0 && Z > 0.0 && R >= 0.0 && R * R == Z * (4.0 * N * p * (1.0 - p) + Z)
    ensures R >= Z * (1.0 - 2.0 * p)
  {
    ShareIdentity(N, p, Z);
    NonNegative(p, 1.0 - p);
    Product(Z, N + Z);
    NonNegative(p * (1.0 - p), Z * (N + Z));
    if 1.0 - 2.0 * p >= 0.0 {
      NonNegative(Z, 1.0 - 2.0 * p);
      SquareCompare(R, Z * (1.0 - 2.0 * p));
    } else {
      NonNegative(Z, 2.0 * p - 1.0);
    }
  }

  /** The bound lies between zero and the observed share, and never reaches one. */
  lemma BoundInRange(w: nat, n: nat, z: real, root: real)
    requires n > 0 && w <= n && z > 0.0 && IsRoot(root, Discriminant(w, n, z))
    ensures 0.0 <= LowerBound(w, n, z, root) <= w as real / n as real
    ensures LowerBound(w, n, z, root) < 1.0
    ensures w > 0 ==> LowerBound(w, n, z, root) > 0.0
  {
    var N, p, S := Cleared(w, n, z, root);
    assert (z * S) * (z * S) == z * z * (S * S);
    RangeCleared(N, p, z, z, S, LowerBound(w, n, z, root));
  }

  /** An added loss cannot help a threshold, an added win cannot hurt it. */
  lemma LossStep(w: real, N: real, t: real, k: real)
    requires N > 0.0 && k >= 0.0 && 0.0 < t < 1.0 && ClearsShare(w, N + 1.0, t, k)
    ensures ClearsShare(w, N, t, k)
  {
    var a := w - t * (N + 1.0);
    NonNegative(a, t);
    assert w - t * N == a + t;
    assert (a + t) * (a + t) == a * a + 2.0 * (a * t) + t * t;
    NonNegative(t, t);
  }

  /** The square of z is written z * y. */
  lemma WinStep(w: real, N: real, t: real, z: real, y: real)
    requires N > 0.0 && z > 0.0 && y > 0.0 && 0.0 < t < 1.0 && w <= N && ClearsShare(w, N, t, Level(z, y, t))
    ensures ClearsShare(w + 1.0, N + 1.0, t, Level(z, y, t)) && !MeetsShare(w + 1.0, N + 1.0, t, Level(z, y, t))
  {
    var a, u, m := w - t * N, 1.0 - t, z * y * t;
    Product(z, y);
    Product(z * y, t);
    LeadAtLeast(a, u, m, N);
    WinMargin(a, u, m, N);
    assert (w + 1.0) - t * (N + 1.0) == a + u;
  }

  /** A cleared lead is at least m. */
  lemma LeadAtLeast(a: real, u: real, m: real, N: real)
    requires N > 0.0 && u > 0.0 && 0.0 <= a <= N * u && a * a >= (m * u) * N
    ensures a >= m
  {
    ProductMonotone(a, N * u, a);
    assert (a * N) * u >= (m * N) * u;
    Cancel(a * N, m * N, u);
    Cancel(a, m, N);
  }

  lemma WinMargin(a: real, u: real, m: real, N: real)
    requires u > 0.0 && m > 0.0 && a >= m && a * a >= (m * u) * N
    ensures (a + u) * (a + u) > (m * u) * (N + 1.0)
  {
    ProductMonotone(m, a, u);
    Product(m, u);
    NonNegative(u, u);
    assert (a + u) * (a + u) == a * a + 2.0 * (a * u) + u * u;
  }

  lemma LevelPositive(z: real, y: real, t: real)
    requires z > 0.0 && y > 0.0 && 0.0 < t < 1.0
    ensures Level(z, y, t) > 0.0
  {
    Product(z, y);
    Product(z * y, t);
    Product(z * y * t, 1.0 - t);
  }

  lemma ClearsWin(w: nat, n: nat, z: real, t: real)
    requires w <= n && z > 0.0 && 0.0 < t < 1.0 && Clears(w, n, z, t)
    ensures Clears(w + 1, n + 1, z, t) && !MeetsShare((w + 1) as real, (n + 1) as real, t, Level(z, z, t))
  {
    WinStep(w as real, n as real, t, z, z);
    assert (w + 1) as real == w as real + 1.0 && (n + 1) as real == n as real + 1.0;
  }

  lemma ClearsLoss(w: nat, n: nat, z: real, t: real)
    requires n > 0 && z > 0.0 && 0.0 < t < 1.0 && Clears(w, n + 1, z, t)
    ensures Clears(w, n, z, t)
  {
    LevelPositive(z, z, t);
    assert (n + 1) as real == n as real + 1.0;
    LossStep(w as real, n as real, t, Level(z, z, t));
  }

  /** A win added to the pool raises the bound. */
  lemma WinRaisesBound(w: nat, n: nat, z: real, root: real, next: real)
    requires n > 0 && w <= n && z > 0.0
    requires IsRoot(root, Discriminant(w, n, z)) && IsRoot(next, Discriminant(w + 1, n + 1, z))
    ensures LowerBound(w + 1, n + 1, z, next) > LowerBound(w, n, z, root)
  {
    var t := LowerBound(w, n, z, root);
    BoundInRange(w, n, z, root);
    BoundInRange(w + 1, n + 1, z, next);
    if t > 0.0 {
      GateWithoutRoot(w, n, z, t, root);
      ClearsWin(w, n, z, t);
      GateWithoutRoot(w + 1, n + 1, z, t, next);
    }
  }

  /** A loss added to the pool never raises the bound. */
  lemma LossLowersBound(w: nat, n: nat, z: real, root: real, next: real)
    requires n > 0 && w <= n && z > 0.0
    requires IsRoot(root, Discriminant(w, n, z)) && IsRoot(next, Discriminant(w, n + 1, z))
    ensures LowerBound(w, n + 1, z, next) <= LowerBound(w, n, z, root)
  {
    var t := LowerBound(w, n + 1, z, next);
    BoundInRange(w, n, z, root);
    BoundInRange(w, n + 1, z, next);
    if t > 0.0 {
      GateWithoutRoot(w, n + 1, z, t, next);
      ClearsLoss(w, n, z, t);
      GateWithoutRoot(w, n, z, t, root);
    }
  }

  /** At 95% the radicand is negative, so that the bound is no real number, exactly when there are more wins than
      cases. */
  lemma RadicandIff(w: nat, n: nat)
    requires n > 0
    ensures Discriminant(w, n, 1.96) >= 0.0 <==> w <= n
  {
    var N, p, W := n as real, w as real / n as real, w as real;
    var E := 4.0 * (N * (p * (1.0 - p))) + 1.96 * 1.96;
    assert p * N == W;
    RadicandScaled(N, p, 1.96);
    ShareProduct(N, p, W);
    assert E * N == 4.0 * (N * (p * (1.0 - p)) * N) + 3.8416 * N;
    FourSquares(N);
    RadicandSign(Discriminant(w, n, 1.96), 4.0 * N * N, E, N, W * (N - W));
    if w <= n {
      NonNegative(W, N - W);
    } else {
      Excess(W, N);
    }
  }

  lemma ShareProduct(N: real, p: real, W: real)
    requires p * N == W
    ensures N * (p * (1.0 - p)) * N == W * (N - W)
  {
    calc {
      N * (p * (1.0 - p)) * N;
      (p * N) * ((1.0 - p) * N);
      W * (N - p * N);
    }
  }

  lemma Excess(W: real, N: real)
    requires N > 0.0 && W - N >= 1.0
    ensures W * (N - W) <= -N
  {
    ProductMonotone(1.0, W - N, W);
    assert (W - N) * W == -(W * (N - W));
  }

  lemma FourSquares(N: real)
    requires N > 0.0
    ensures 4.0 * N * N > 0.0
  {
    Product(N, N);
  }

  lemma RadicandSign(x: real, c: real, e: real, N: real, f: real)
    requires N > 0.0 && c > 0.0 && x * c == e && e * N == 4.0 * f + 3.8416 * N
    ensures x >= 0.0 <==> 4.0 * f + 3.8416 * N >= 0.0
  {
    SignOfProduct(x, c);
    SignOfProduct(e, N);
  }

  lemma RadicandScaled(N: real, p: real, z: real)
    requires N > 0.0
    ensures Radicand(p, N, z) * (4.0 * N * N) == 4.0 * (N * (p * (1.0 - p))) + z * z
  {
    var u, v := Divide(p * (1.0 - p), N), Divide(z * z, 4.0 * N * N);
    DivideBack(p * (1.0 - p), N);
    DivideBackProduct(z * z, 4.0 * N, N);
    calc {
      (u + v) * (4.0 * N * N);
      u * (4.0 * N * N) + v * (4.0 * N * N);
      4.0 * N * (u * N) + v * (4.0 * N * N);
      4.0 * (N * (p * (1.0 - p))) + z * z;
    }
  }

  /** At 95% and a threshold of 0.70, fewer than nine pooled cases cannot clear the gate; nine wins can. */
  lemma NineCasesNeeded(w: nat, n: nat)
    requires w <= n
    ensures n < 9 ==> !Clears(w, n, 1.96, 0.70)
    ensures Clears(9, 9, 1.96, 0.70)
  {
    assert Level(1.96, 1.96, 0.70) == 0.806736;
    if 0 < n < 9 && ClearsShare(w as real, n as real, 0.70, 0.806736) {
      SmallPool(w as real - 0.70 * n as real, w as real - 0.70 * n as real, 0.30 * n as real);
    }
  }

  /** Both factors are the same lead over the threshold. */
  lemma SmallPool(x: real, y: real, c: real)
    requires 0.0 <= x <= c && 0.0 <= y <= c && c <= 2.4
    ensures x * y <= 2.4 * c
  {
    ProductMonotone(x, c, y);
    ProductMonotone(y, 2.4, c);
  }
}
