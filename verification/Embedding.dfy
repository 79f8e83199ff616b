/**
 Hashed bag-of-words vectors in exact arithmetic: counts divided by their Euclidean
 norm, compared by their inner product.
 */
module Embeddings {
  /** The sum of products of two vectors; as with `zip`, the longer one is cut. */
  function Dot(a: seq<real>, b: seq<real>): real {
    if a == [] || b == [] then 0.0 else a[0] * b[0] + Dot(a[1..], b[1..])
  }

  /** The number of tokens that fall into a cell, counted from the first `k` tokens. */
  function CountAt(tokens: seq<string>, hash: string -> int, dim: nat, cell: nat, k: nat): nat
    requires k <= |tokens| && dim > 0
  {
    if k == 0 then 0
    else CountAt(tokens, hash, dim, cell, k - 1) + if hash(tokens[k - 1]) % dim == cell then 1 else 0
  }

  function Counts(tokens: seq<string>, hash: string -> int, dim: nat): (v: seq<real>)
    requires dim > 0
    ensures |v| == dim
  {
    seq(dim, cell requires 0 <= cell < dim => CountAt(tokens, hash, dim, cell, |tokens|) as real)
  }

  /** The square root, as `math.sqrt` gives it in exact arithmetic. */
  ghost predicate IsSqrt(sqrt: real -> real) {
    forall x :: x >= 0.0 ==> sqrt(x) >= 0.0 && sqrt(x) * sqrt(x) == x
  }

  /** The norm, or 1 for the zero vector. */
  function Norm(v: seq<real>, sqrt: real -> real): real {
    var n := sqrt(Dot(v, v));
    if n == 0.0 then 1.0 else n
  }

  function Scaled(v: seq<real>, n: real): (r: seq<real>)
    requires n != 0.0
    ensures |r| == |v|
  {
    seq(|v|, i requires 0 <= i < |v| => v[i] / n)
  }

  function Embedded(tokens: seq<string>, hash: string -> int, dim: nat, sqrt: real -> real): seq<real>
    requires dim > 0
  {
    var v := Counts(tokens, hash, dim);
    Scaled(v, Norm(v, sqrt))
  }

  method Embed(tokens: seq<string>, hash: string -> int, dim: nat, sqrt: real -> real) returns (r: seq<real>)
    requires dim > 0
    ensures r == Embedded(tokens, hash, dim, sqrt)
  {
    var vec := new real[dim](_ => 0.0);
    for k := 0 to |tokens|
      invariant forall cell :: 0 <= cell < dim ==> vec[cell] == CountAt(tokens, hash, dim, cell, k) as real
    {
      var cell := hash(tokens[k]) % dim;
      vec[cell] := vec[cell] + 1.0;
    }
    assert vec[..] == Counts(tokens, hash, dim);
    var counts := vec[..];
    r := Scaled(counts, Norm(counts, sqrt));
  }

  method Cosine(a: seq<real>, b: seq<real>) returns (sum: real)
    ensures sum == Dot(a, b)
  {
    sum := 0.0;
    var i := 0;
    while i < |a| && i < |b|
      invariant 0 <= i <= |a| && i <= |b|
      invariant sum + Dot(a[i..], b[i..]) == Dot(a, b)
    {
      sum := sum + a[i] * b[i];
      assert a[i..][1..] == a[i + 1..] && b[i..][1..] == b[i + 1..];
      i := i + 1;
    }
  }

  // ------------------------------------------------------------------ Cauchy-Schwarz

  predicate NonNegative(v: seq<real>) {
    forall i :: 0 <= i < |v| ==> v[i] >= 0.0
  }

  lemma {:induction false} Square(x: real)
    ensures x * x >= 0.0
  {
  }

  lemma {:induction false} ProductNonNegative(x: real, y: real)
    requires x >= 0.0 && y >= 0.0
    ensures x * y >= 0.0
  {
  }

  lemma {:induction false} ProductPositive(x: real, y: real)
    requires x > 0.0 && y > 0.0
    ensures x * y > 0.0
  {
  }

  lemma {:induction false} DotNonNegative(a: seq<real>, b: seq<real>)
    requires NonNegative(a) && NonNegative(b)
    ensures Dot(a, b) >= 0.0
  {
    if a != [] && b != [] {
      ProductNonNegative(a[0], b[0]);
      DotNonNegative(a[1..], b[1..]);
    }
  }

  lemma {:induction false} NormSquared(v: seq<real>)
    ensures Dot(v, v) >= 0.0
  {
    if v != [] {
      Square(v[0]);
      NormSquared(v[1..]);
    }
  }

  /** A number is at most a non-negative one when its square is. */
  lemma {:induction false} SquareOrder(r: real, s: real)
    requires s >= 0.0 && r * r <= s * s
    ensures r <= s
  {
    if r > s {
      ProductPositive(r - s, r + s);
    }
  }

  /** Twice a geometric mean is at most the sum. */
  lemma {:induction false} MeansOrder(r: real, p: real, q: real)
    requires p >= 0.0 && q >= 0.0 && r * r <= p * q
    ensures 2.0 * r <= p + q
  {
    var t := 2.0 * r;
    assert t * t == 4.0 * (r * r);
    Square(p - q);
    assert (p + q) * (p + q) == (p - q) * (p - q) + 4.0 * (p * q);
    SquareOrder(t, p + q);
  }

  lemma {:induction false} CrossTerms(d: real, a: real, b: real, x: real, y: real)
    requires a >= 0.0 && b >= 0.0 && d * d <= a * b
    ensures 2.0 * (d * (x * y)) <= a * (y * y) + b * (x * x)
  {
    Square(x);
    Square(y);
    ProductNonNegative(a, y * y);
    ProductNonNegative(b, x * x);
    var s := (x * x) * (y * y);
    ProductNonNegative(x * x, y * y);
    var r := d * (x * y);
    assert r * r == (d * d) * s;
    assert (a * (y * y)) * (b * (x * x)) == (a * b) * s;
    Scale(d * d, a * b, s);
    MeansOrder(r, a * (y * y), b * (x * x));
  }

  lemma {:induction false} Scale(x: real, y: real, s: real)
    requires x <= y && s >= 0.0
    ensures x * s <= y * s
  {
    assert y * s - x * s == (y - x) * s;
    ProductNonNegative(y - x, s);
  }

  lemma {:induction false} OneMoreTerm(d: real, p: real, q: real, x: real, y: real)
    requires p >= 0.0 && q >= 0.0 && d * d <= p * q
    ensures (x * y + d) * (x * y + d) <= (x * x + p) * (y * y + q)
  {
    CrossTerms(d, p, q, x, y);
    assert (x * y + d) * (x * y + d) == (x * x) * (y * y) + 2.0 * (d * (x * y)) + d * d;
    assert (x * x + p) * (y * y + q) == (x * x) * (y * y) + p * (y * y) + q * (x * x) + p * q;
  }

  lemma {:induction false} CauchySchwarz(a: seq<real>, b: seq<real>)
    requires |a| == |b|
    ensures Dot(a, b) * Dot(a, b) <= Dot(a, a) * Dot(b, b)
  {
    if a != [] {
      var u, v := a[1..], b[1..];
      CauchySchwarz(u, v);
      NormSquared(u);
      NormSquared(v);
      OneMoreTerm(Dot(u, v), Dot(u, u), Dot(v, v), a[0], b[0]);
    }
  }

  // ------------------------------------------------------------------ the score bound

  lemma {:induction false} ScaledTerm(a: real, b: real, m: real, n: real)
    requires m > 0.0 && n > 0.0
    ensures (a / m) * (b / n) * (m * n) == a * b
  {
    var x, y := a / m, b / n;
    assert x * m == a && y * n == b;
    assert (x * y) * (m * n) == (x * m) * (y * n);
  }

  lemma {:induction false} Distribute(x: real, y: real, s: real)
    ensures (x + y) * s == x * s + y * s
  {
  }

  lemma {:induction false} DotScaled(a: seq<real>, b: seq<real>, m: real, n: real, s: real)
    requires m > 0.0 && n > 0.0 && s == m * n && |a| == |b|
    ensures Dot(Scaled(a, m), Scaled(b, n)) * s == Dot(a, b)
  {
    if a != [] {
      DotScaled(a[1..], b[1..], m, n, s);
      assert Scaled(a, m)[1..] == Scaled(a[1..], m) && Scaled(b, n)[1..] == Scaled(b[1..], n);
      ScaledTerm(a[0], b[0], m, n);
      Distribute((a[0] / m) * (b[0] / n), Dot(Scaled(a[1..], m), Scaled(b[1..], n)), s);
    }
  }

  /** The score of two scaled vectors, from their inner product and the product of the scales. */
  lemma {:induction false} ScaledCosine(a: seq<real>, b: seq<real>, m: real, n: real, s: real, d: real)
    requires m > 0.0 && n > 0.0 && s == m * n && |a| == |b| && Dot(a, b) == d && 0.0 <= d <= s
    ensures
      var c := Dot(Scaled(a, m), Scaled(b, n));
      0.0 <= c <= 1.0 && (d == 0.0 ==> c == 0.0) && (d == s ==> c == 1.0)
  {
    DotScaled(a, b, m, n, s);
    ProductPositive(m, n);
    Unscale(Dot(Scaled(a, m), Scaled(b, n)), s, d);
  }

  lemma {:induction false} NormIsPositive(v: seq<real>, sqrt: real -> real)
    requires IsSqrt(sqrt)
    ensures Norm(v, sqrt) > 0.0
    ensures Dot(v, v) != 0.0 ==> Norm(v, sqrt) * Norm(v, sqrt) == Dot(v, v)
    ensures Dot(v, v) <= Norm(v, sqrt) * Norm(v, sqrt)
  {
    NormSquared(v);
    assert sqrt(Dot(v, v)) >= 0.0;
  }

  /** What a number is, from what it is at a positive scale. */
  lemma {:induction false} Unscale(c: real, s: real, d: real)
    requires s > 0.0 && c * s == d && 0.0 <= d <= s
    ensures 0.0 <= c <= 1.0 && (d == 0.0 ==> c == 0.0) && (d == s ==> c == 1.0)
  {
    if c < 0.0 {
      ProductPositive(-c, s);
    } else if c > 1.0 {
      ProductPositive(c - 1.0, s);
    } else if 0.0 < c < 1.0 {
      ProductPositive(1.0 - c, s);
      ProductPositive(c, s);
    }
  }

  /** The score of two texts lies between 0 and 1, whatever the token hash. */
  lemma {:induction false} ScoreBound(s: seq<string>, t: seq<string>, hash: string -> int, dim: nat, sqrt: real -> real)
    requires dim > 0 && IsSqrt(sqrt)
    ensures 0.0 <= Dot(Embedded(s, hash, dim, sqrt), Embedded(t, hash, dim, sqrt)) <= 1.0
  {
    var a, b := Counts(s, hash, dim), Counts(t, hash, dim);
    NormIsPositive(a, sqrt);
    NormIsPositive(b, sqrt);
    CosineBound(a, b, Norm(a, sqrt), Norm(b, sqrt));
  }

  lemma {:induction false} CosineBound(a: seq<real>, b: seq<real>, m: real, n: real)
    requires |a| == |b| && NonNegative(a) && NonNegative(b) && m > 0.0 && n > 0.0
    requires Dot(a, a) <= m * m && Dot(b, b) <= n * n
    ensures 0.0 <= Dot(Scaled(a, m), Scaled(b, n)) <= 1.0
  {
    DotNonNegative(a, b);
    CauchySchwarz(a, b);
    NormSquared(a);
    NormSquared(b);
    UnderNorms(Dot(a, b), Dot(a, a), Dot(b, b), m, n);
    ScaledCosine(a, b, m, n, m * n, Dot(a, b));
  }

  lemma {:induction false} UnderNorms(d: real, p: real, q: real, m: real, n: real)
    requires m > 0.0 && n > 0.0 && 0.0 <= p <= m * m && 0.0 <= q <= n * n && d * d <= p * q
    ensures d <= m * n
  {
    Scale(p, m * m, q);
    Square(m);
    Scale(q, n * n, m * m);
    assert (m * n) * (m * n) == (m * m) * (n * n);
    ProductPositive(m, n);
    SquareOrder(d, m * n);
  }

  lemma {:induction false} SomeCellCounts(tokens: seq<string>, hash: string -> int, dim: nat, k: nat)
    requires dim > 0 && 0 < k <= |tokens|
    ensures CountAt(tokens, hash, dim, hash(tokens[k - 1]) % dim, k) >= 1
  {
  }

  lemma {:induction false} DotPositive(v: seq<real>, i: nat)
    requires i < |v| && v[i] > 0.0
    ensures Dot(v, v) > 0.0
    decreases i
  {
    var x := v[0];
    var xx := Squared(x);
    NormSquared(v[1..]);
    if i > 0 {
      DotPositive(v[1..], i - 1);
    }
    SumPositive(xx, Dot(v[1..], v[1..]), Dot(v, v));
  }

  lemma {:induction false} Squared(x: real) returns (xx: real)
    ensures xx == x * x && xx >= 0.0 && (x > 0.0 ==> xx > 0.0)
  {
    Square(x);
    xx := x * x;
    if x > 0.0 {
      NamedProduct(x, x, xx);
    }
  }

  lemma {:induction false} NamedProduct(x: real, y: real, p: real)
    requires x > 0.0 && y > 0.0 && p == x * y
    ensures p > 0.0
  {
  }

  lemma {:induction false} SumPositive(x: real, y: real, z: real)
    requires x >= 0.0 && y >= 0.0 && (x > 0.0 || y > 0.0) && z == x + y
    ensures z > 0.0
  {
  }

  /** A text with at least one token scores exactly 1 against itself. */
  lemma {:induction false} SelfScore(tokens: seq<string>, hash: string -> int, dim: nat, sqrt: real -> real)
    requires dim > 0 && IsSqrt(sqrt)
    ensures Dot(Embedded(tokens, hash, dim, sqrt), Embedded(tokens, hash, dim, sqrt)) ==
            if tokens == [] then 0.0 else 1.0
  {
    var v := Counts(tokens, hash, dim);
    NormIsPositive(v, sqrt);
    if tokens == [] {
      ZeroDot(v);
      ProductPositive(Norm(v, sqrt), Norm(v, sqrt));
    } else {
      SomeCellCounts(tokens, hash, dim, |tokens|);
      DotPositive(v, hash(tokens[|tokens| - 1]) % dim);
    }
    NormSquared(v);
    var n, d := Norm(v, sqrt), Dot(v, v);
    ScaledCosine(v, v, n, n, n * n, d);
  }

  lemma {:induction false} ZeroDot(v: seq<real>)
    requires forall i :: 0 <= i < |v| ==> v[i] == 0.0
    ensures Dot(v, v) == 0.0
  {
    if v != [] {
      ZeroDot(v[1..]);
    }
  }

  // ------------------------------------------------------------------ what the cells count

  /** The positions, among the first `k` tokens, of those that fall into a cell. */
  ghost function FallingInto(tokens: seq<string>, hash: string -> int, dim: nat, cell: nat, k: nat): set<int>
    requires k <= |tokens| && dim > 0
  {
    set i | 0 <= i < k && hash(tokens[i]) % dim == cell
  }

  /** Every occurrence of a token counts, once, in the cell of its hash. */
  lemma {:induction false} CountIsOccurrences(tokens: seq<string>, hash: string -> int, dim: nat, cell: nat, k: nat)
    requires k <= |tokens| && dim > 0
    ensures CountAt(tokens, hash, dim, cell, k) == |FallingInto(tokens, hash, dim, cell, k)|
  {
    if k > 0 {
      CountIsOccurrences(tokens, hash, dim, cell, k - 1);
      var before, now := FallingInto(tokens, hash, dim, cell, k - 1), FallingInto(tokens, hash, dim, cell, k);
      if hash(tokens[k - 1]) % dim == cell {
        assert now == before + {k - 1};
      } else {
        assert now == before;
      }
    }
  }

  /** A component of an embedding is the number of occurrences in its cell over a length that all components share. */
  lemma {:induction false} EmbeddedCounts(tokens: seq<string>, hash: string -> int, dim: nat, sqrt: real -> real)
    returns (length: real)
    requires dim > 0
    ensures length != 0.0 && |Embedded(tokens, hash, dim, sqrt)| == dim
    ensures forall cell: nat :: cell < dim ==>
              Embedded(tokens, hash, dim, sqrt)[cell] ==
              |FallingInto(tokens, hash, dim, cell, |tokens|)| as real / length
  {
    length := Norm(Counts(tokens, hash, dim), sqrt);
    forall cell: nat | cell < dim
      ensures Embedded(tokens, hash, dim, sqrt)[cell] ==
              |FallingInto(tokens, hash, dim, cell, |tokens|)| as real / length
    {
      CountIsOccurrences(tokens, hash, dim, cell, |tokens|);
    }
  }
}
