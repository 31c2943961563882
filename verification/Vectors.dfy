/** Embedding vectors over the reals and their cosine
    (crates/episcience-core/src/wiki/seed.rs,
    crates/episcience-db/src/synthesis/novelty_backend_internal.rs). */
module Vectors {
  import opened Base

  type Vector = seq<real>

  /** A square root on the non-negative reals. */
  ghost predicate IsRoot(root: real -> real) {
    forall x: real :: x >= 0.0 ==> root(x) >= 0.0 && root(x) * root(x) == x
  }

  function Dot(a: Vector, b: Vector): real
    requires |a| == |b|
  {
    if a == [] then 0.0 else Dot(a[..|a| - 1], b[..|b| - 1]) + a[|a| - 1] * b[|b| - 1]
  }

  /** A vector an embedding comparison can use: not empty and not zero. */
  predicate Usable(a: Vector) {
    a != [] && Dot(a, a) != 0.0
  }

  lemma {:induction false} DotSelf(a: Vector)
    ensures Dot(a, a) >= 0.0
  {
    if a != [] {
      DotSelf(a[..|a| - 1]);
    }
  }

  lemma {:induction false} DotSymmetric(a: Vector, b: Vector)
    requires |a| == |b|
    ensures Dot(a, b) == Dot(b, a)
  {
    if a != [] {
      DotSymmetric(a[..|a| - 1], b[..|b| - 1]);
    }
  }

  /** One round of the accumulation keeps the Cauchy-Schwarz inequality. */
  lemma RoundKeepsBound(d: real, n: real, m: real, x: real, y: real)
    requires n >= 0.0 && m >= 0.0 && d * d <= n * m
    ensures (d + x * y) * (d + x * y) <= (n + x * x) * (m + y * y)
  {
    CrossTermBounded(d, n, m, x, y);
    assert (d + x * y) * (d + x * y) == d * d + 2.0 * d * x * y + (x * x) * (y * y);
    assert (n + x * x) * (m + y * y) == n * m + n * (y * y) + m * (x * x) + (x * x) * (y * y);
  }

  lemma CrossTermBounded(d: real, n: real, m: real, x: real, y: real)
    requires n >= 0.0 && m >= 0.0 && d * d <= n * m
    ensures 2.0 * d * x * y <= n * (y * y) + m * (x * x)
  {
    var gap := n * (y * y) + m * (x * x) - 2.0 * d * x * y;
    if n == 0.0 {
      ZeroSquare(d, d * d);
      assert m * (x * x) >= 0.0;
    } else {
      var u := n * y - d * x;
      assert n * gap == u * u + (n * m - d * d) * (x * x);
      ProductPositive(n * m - d * d, x * x);
      assert n * gap >= 0.0;
      FactorPositive(n, gap);
    }
  }

  lemma StrictProduct(p: real, q: real, s: real)
    requires p > 0.0 && q > 0.0 && s == p * q
    ensures s > 0.0
  {
  }

  lemma ZeroSquare(d: real, s: real)
    requires s == d * d && s <= 0.0
    ensures d == 0.0
  {
    if d > 0.0 {
      StrictProduct(d, d, s);
    } else if d < 0.0 {
      StrictProduct(-d, -d, s);
    }
  }

  lemma ProductPositive(p: real, q: real)
    requires p >= 0.0 && q >= 0.0
    ensures p * q >= 0.0
  {
  }

  lemma FactorPositive(n: real, gap: real)
    requires n > 0.0 && n * gap >= 0.0
    ensures gap >= 0.0
  {
  }

  /** Cauchy-Schwarz, by induction along the loop. */
  lemma {:induction false} CauchySchwarz(a: Vector, b: Vector)
    requires |a| == |b|
    ensures Dot(a, b) * Dot(a, b) <= Dot(a, a) * Dot(b, b)
  {
    if a != [] {
      var i := |a| - 1;
      CauchySchwarz(a[..i], b[..i]);
      DotSelf(a[..i]);
      DotSelf(b[..i]);
      RoundKeepsBound(Dot(a[..i], b[..i]), Dot(a[..i], a[..i]), Dot(b[..i], b[..i]), a[i], b[i]);
    }
  }

  lemma RootPositive(root: real -> real, x: real)
    requires IsRoot(root) && x > 0.0
    ensures root(x) > 0.0
  {
    assert root(x) * root(x) == x;
  }

  function Ratio(d: real, p: real, q: real): real
    requires p > 0.0 && q > 0.0
  {
    d / (p * q)
  }

  function Cosine(root: real -> real, a: Vector, b: Vector): Option<real>
    requires IsRoot(root)
  {
    if |a| != |b| || !Usable(a) || !Usable(b) then None
    else
      DotSelf(a); DotSelf(b); RootPositive(root, Dot(a, a)); RootPositive(root, Dot(b, b));
      Some(Ratio(Dot(a, b), root(Dot(a, a)), root(Dot(b, b))))
  }

  /** The loop that accumulates the product and the two norms. */
  method Accumulate(a: Vector, b: Vector) returns (d: real, na: real, nb: real)
    requires |a| == |b|
    ensures d == Dot(a, b) && na == Dot(a, a) && nb == Dot(b, b)
  {
    d, na, nb := 0.0, 0.0, 0.0;
    for i := 0 to |a|
      invariant d == Dot(a[..i], b[..i]) && na == Dot(a[..i], a[..i]) && nb == Dot(b[..i], b[..i])
    {
      assert a[..i + 1][..i] == a[..i] && b[..i + 1][..i] == b[..i];
      d, na, nb := d + a[i] * b[i], na + a[i] * a[i], nb + b[i] * b[i];
    }
    assert a[..|a|] == a && b[..|b|] == b;
  }

  method CosineOf(root: real -> real, a: Vector, b: Vector) returns (c: Option<real>)
    requires IsRoot(root)
    ensures c == Cosine(root, a, b)
  {
    if a == [] || |a| != |b| {
      return None;
    }
    var d, na, nb := Accumulate(a, b);
    if na == 0.0 || nb == 0.0 {
      return None;
    }
    DotSelf(a);
    DotSelf(b);
    RootPositive(root, na);
    RootPositive(root, nb);
    c := Some(Ratio(d, root(na), root(nb)));
  }

  /** |d| <= p whenever d^2 <= p^2. */
  lemma SquareOrder(d: real, p: real)
    requires p >= 0.0 && d * d <= p * p
    ensures -p <= d <= p
  {
    assert (d - p) * (d + p) == d * d - p * p;
    assert (-d - p) * (-d + p) == d * d - p * p;
    if d > p {
      StrictProduct(d - p, d + p, d * d - p * p);
    } else if d < -p {
      StrictProduct(-d - p, -d + p, d * d - p * p);
    }
  }

  lemma QuotientBounded(d: real, p: real)
    requires p > 0.0 && -p <= d <= p
    ensures -1.0 <= d / p <= 1.0
  {
  }

  lemma RatioBounded(d: real, p: real, q: real)
    requires p > 0.0 && q > 0.0 && d * d <= (p * p) * (q * q)
    ensures -1.0 <= Ratio(d, p, q) <= 1.0
  {
    StrictProduct(p, q, p * q);
    SquareOfProduct(p, q);
    SquareOrder(d, p * q);
    QuotientBounded(d, p * q);
  }

  lemma RatioSymmetric(d: real, p: real, q: real)
    requires p > 0.0 && q > 0.0
    ensures Ratio(d, p, q) == Ratio(d, q, p)
  {
    assert p * q == q * p;
  }

  /** A cosine exists exactly for usable vectors of one length, lies in
      [-1, 1], is symmetric, and is 1 from a vector to itself. */
  lemma CosineIsCosine(root: real -> real, a: Vector, b: Vector)
    requires IsRoot(root)
    ensures Cosine(root, a, b).Some? <==> |a| == |b| && Usable(a) && Usable(b)
    ensures Cosine(root, a, b).Some? ==> -1.0 <= Cosine(root, a, b).value <= 1.0
    ensures Cosine(root, a, b) == Cosine(root, b, a)
    ensures Usable(a) ==> Cosine(root, a, a) == Some(1.0)
  {
    hide Dot, Ratio;
    if |a| == |b| && Usable(a) && Usable(b) {
      var na, nb := Dot(a, a), Dot(b, b);
      DotSelf(a);
      DotSelf(b);
      RootPositive(root, na);
      RootPositive(root, nb);
      CauchySchwarz(a, b);
      DotSymmetric(a, b);
      var p, q := root(na), root(nb);
      assert p * p == na && q * q == nb;
      RatioBounded(Dot(a, b), p, q);
      RatioSymmetric(Dot(a, b), p, q);
    }
    if Usable(a) {
      DotSelf(a);
      RootPositive(root, Dot(a, a));
      RatioOfSelf(Dot(a, a), root(Dot(a, a)));
    }
  }

  lemma RatioOfSelf(n: real, p: real)
    requires p > 0.0 && p * p == n
    ensures Ratio(n, p, p) == 1.0
  {
    StrictProduct(p, p, n);
    assert n / n == 1.0;
  }

  lemma SquareOfProduct(x: real, y: real)
    ensures (x * y) * (x * y) == (x * x) * (y * y)
  {
  }

  // ── When the cosine is 1 ────────────────────────────────────────────────

  /** b is c times a. */
  ghost predicate IsMultiple(b: Vector, c: real, a: Vector) {
    |a| == |b| && forall i :: 0 <= i < |a| ==> b[i] == c * a[i]
  }

  /** r is b less c times a. */
  ghost predicate IsRest(r: Vector, b: Vector, c: real, a: Vector) {
    |r| == |a| == |b| && forall i :: 0 <= i < |a| ==> r[i] == b[i] - c * a[i]
  }

  /** One vector is a positive multiple of the other. */
  ghost predicate SameDirection(a: Vector, b: Vector) {
    exists c: real :: c > 0.0 && IsMultiple(b, c, a)
  }

  lemma {:induction false} DotMultiple(a: Vector, b: Vector, c: real)
    requires IsMultiple(b, c, a)
    ensures Dot(a, b) == c * Dot(a, a)
    ensures Dot(b, b) == c * c * Dot(a, a)
  {
    hide Dot;
    DotUnfolds(a, a);
    DotUnfolds(a, b);
    DotUnfolds(b, b);
    if a != [] {
      var n := |a| - 1;
      DotMultiple(a[..n], b[..n], c);
      MultipleRound(Dot(a[..n], a[..n]), Dot(a[..n], b[..n]), Dot(b[..n], b[..n]), a[n], b[n], c);
    }
  }

  lemma MultipleRound(d: real, e: real, f: real, x: real, y: real, c: real)
    requires e == c * d && f == c * c * d && y == c * x
    ensures e + x * y == c * (d + x * x)
    ensures f + y * y == c * c * (d + x * x)
  {
    assert x * (c * x) == c * (x * x);
    assert (c * x) * (c * x) == c * c * (x * x);
  }

  lemma {:induction false} DotRest(r: Vector, b: Vector, c: real, a: Vector)
    requires IsRest(r, b, c, a)
    ensures Dot(r, r) == Dot(b, b) - 2.0 * c * Dot(a, b) + c * c * Dot(a, a)
  {
    hide Dot;
    DotUnfolds(r, r);
    DotUnfolds(b, b);
    DotUnfolds(a, b);
    DotUnfolds(a, a);
    if a != [] {
      var n := |a| - 1;
      DotRest(r[..n], b[..n], c, a[..n]);
      RestRound(Dot(b[..n], b[..n]), Dot(a[..n], b[..n]), Dot(a[..n], a[..n]), a[n], b[n], c);
    }
  }

  lemma DotUnfolds(a: Vector, b: Vector)
    requires |a| == |b|
    ensures Dot(a, b) == if a == [] then 0.0 else Dot(a[..|a| - 1], b[..|b| - 1]) + a[|a| - 1] * b[|b| - 1]
  {
  }

  lemma RestRound(m: real, d: real, n: real, x: real, y: real, c: real)
    ensures (m - 2.0 * c * d + c * c * n) + (y - c * x) * (y - c * x) == (m + y * y) - 2.0 * c * (d + x * y) + c * c * (n + x * x)
  {
  }

  /** Only the zero vector has norm 0. */
  lemma {:induction false} ZeroNorm(a: Vector)
    requires Dot(a, a) <= 0.0
    ensures forall i :: 0 <= i < |a| ==> a[i] == 0.0
  {
    if a != [] {
      var n := |a| - 1;
      DotSelf(a[..n]);
      SquareNotNegative(a[n], a[n] * a[n]);
      ZeroSquare(a[n], a[n] * a[n]);
      ZeroNorm(a[..n]);
      assert forall i :: 0 <= i < n ==> a[..n][i] == a[i];
    }
  }

  lemma SquareNotNegative(x: real, s: real)
    requires s == x * x
    ensures s >= 0.0
  {
  }

  /** p q / (p q) is 1 only when d is p q. */
  lemma RatioOne(d: real, p: real, q: real)
    requires p > 0.0 && q > 0.0
    ensures Ratio(d, p, q) == 1.0 <==> d == p * q
  {
    var s := p * q;
    StrictProduct(p, q, s);
    assert d / s == 1.0 <==> d == s;
  }

  lemma RootOfScaled(p: real, q: real, c: real)
    requires p > 0.0 && q > 0.0 && c > 0.0 && q * q == c * c * (p * p)
    ensures q == c * p
  {
    var r := c * p;
    StrictProduct(c, p, r);
    assert r * r == c * c * (p * p);
    assert (q - r) * (q + r) == q * q - r * r == 0.0;
    if q > r {
      StrictProduct(q - r, q + r, 0.0);
    } else if q < r {
      StrictProduct(r - q, q + r, 0.0);
    }
  }

  lemma VanishingRest(p: real, q: real, c: real, n: real, m: real, d: real)
    requires c * p == q && p * p == n && q * q == m && d == p * q
    ensures m - 2.0 * c * d + c * c * n == 0.0
  {
    assert m == (c * p) * (c * p) == c * c * n;
    assert c * d == c * (p * (c * p)) == c * c * n;
  }

  /** The equality case of Cauchy-Schwarz: the cosine is 1 exactly for positive
      multiples. */
  lemma CosineOneIff(root: real -> real, a: Vector, b: Vector)
    requires IsRoot(root)
    ensures Cosine(root, a, b) == Some(1.0) <==> Usable(a) && SameDirection(a, b)
  {
    hide Dot, Ratio, IsMultiple;
    if Cosine(root, a, b) == Some(1.0) {
      CosineOneScales(root, a, b);
    }
    if Usable(a) && SameDirection(a, b) {
      var c: real :| c > 0.0 && IsMultiple(b, c, a);
      MultipleHasCosineOne(root, a, b, c);
    }
  }

  lemma CosineOneScales(root: real -> real, a: Vector, b: Vector)
    requires IsRoot(root) && Cosine(root, a, b) == Some(1.0)
    ensures SameDirection(a, b)
  {
    hide Dot, Ratio;
    var na, nb := Dot(a, a), Dot(b, b);
    DotSelf(a);
    DotSelf(b);
    RootPositive(root, na);
    RootPositive(root, nb);
    var p, q := root(na), root(nb);
    assert p * p == na && q * q == nb;
    RatioOne(Dot(a, b), p, q);
    var c := q / p;
    assert c * p == q;
    PositiveQuotient(q, p);
    VanishingRest(p, q, c, na, nb, Dot(a, b));
    var r := seq(|a|, i requires 0 <= i < |a| => b[i] - c * a[i]);
    DotRest(r, b, c, a);
    ZeroNorm(r);
    assert forall i :: 0 <= i < |a| ==> r[i] == 0.0;
    assert IsMultiple(b, c, a);
  }

  lemma PositiveQuotient(q: real, p: real)
    requires p > 0.0 && q > 0.0
    ensures q / p > 0.0
  {
  }

  lemma MultipleHasCosineOne(root: real -> real, a: Vector, b: Vector, c: real)
    requires IsRoot(root) && Usable(a) && c > 0.0 && IsMultiple(b, c, a)
    ensures Cosine(root, a, b) == Some(1.0)
  {
    hide Dot, Ratio;
    var na, nb := Dot(a, a), Dot(b, b);
    DotMultiple(a, b, c);
    DotSelf(a);
    StrictProduct(c, c, c * c);
    StrictProduct(c * c, na, nb);
    RootPositive(root, na);
    RootPositive(root, nb);
    var p, q := root(na), root(nb);
    assert p * p == na && q * q == nb;
    RootOfScaled(p, q, c);
    assert c * na == p * (c * p);
    RatioOne(Dot(a, b), p, q);
  }

  // ── The cosine, written out ─────────────────────────────────────────────

  function Sum(xs: seq<real>): real {
    if xs == [] then 0.0 else Sum(xs[..|xs| - 1]) + xs[|xs| - 1]
  }

  function Products(a: Vector, b: Vector): (xs: seq<real>)
    requires |a| == |b|
  {
    seq(|a|, i requires 0 <= i < |a| => a[i] * b[i])
  }

  lemma {:induction false} DotIsSum(a: Vector, b: Vector)
    requires |a| == |b|
    ensures Dot(a, b) == Sum(Products(a, b))
  {
    if a != [] {
      var n := |a| - 1;
      DotIsSum(a[..n], b[..n]);
      forall i | 0 <= i < n ensures Products(a, b)[..n][i] == Products(a[..n], b[..n])[i] {
        assert a[..n][i] == a[i] && b[..n][i] == b[i];
      }
      assert Products(a, b)[..n] == Products(a[..n], b[..n]);
    }
  }

  /** A vector is usable when some coordinate is not zero. */
  lemma UsableMeans(a: Vector)
    ensures Usable(a) <==> exists i :: 0 <= i < |a| && a[i] != 0.0
  {
    hide Dot;
    if a != [] && Dot(a, a) == 0.0 {
      ZeroNorm(a);
    }
    if forall i :: 0 <= i < |a| ==> a[i] == 0.0 {
      ZerosHaveNoNorm(a);
    }
  }

  lemma {:induction false} ZerosHaveNoNorm(a: Vector)
    requires forall i :: 0 <= i < |a| ==> a[i] == 0.0
    ensures Dot(a, a) == 0.0
  {
    if a != [] {
      ZerosHaveNoNorm(a[..|a| - 1]);
    }
  }

  /** The cosine is the sum of the products over the product of the lengths,
      for vectors of one length with some coordinate each; else there is none. */
  lemma CosineMeans(root: real -> real, a: Vector, b: Vector)
    requires IsRoot(root)
    ensures Cosine(root, a, b).Some? <==>
      |a| == |b| && (exists i :: 0 <= i < |a| && a[i] != 0.0) && exists i :: 0 <= i < |b| && b[i] != 0.0
    ensures Cosine(root, a, b).Some? ==>
      Cosine(root, a, b).value * (root(Sum(Products(a, a))) * root(Sum(Products(b, b)))) == Sum(Products(a, b))
  {
    hide Dot, Sum, Products;
    UsableMeans(a);
    UsableMeans(b);
    if Cosine(root, a, b).Some? {
      DotIsSum(a, a);
      DotIsSum(b, b);
      DotIsSum(a, b);
      DotSelf(a);
      DotSelf(b);
      RootPositive(root, Dot(a, a));
      RootPositive(root, Dot(b, b));
      RatioTimes(Dot(a, b), root(Dot(a, a)), root(Dot(b, b)));
    }
  }

  lemma RatioTimes(d: real, p: real, q: real)
    requires p > 0.0 && q > 0.0
    ensures p * q > 0.0 && Ratio(d, p, q) * (p * q) == d
  {
    StrictProduct(p, q, p * q);
    QuotientTimes(d, p * q);
  }

  lemma QuotientTimes(d: real, m: real)
    requires m > 0.0
    ensures d / m * m == d
  {
  }
}
