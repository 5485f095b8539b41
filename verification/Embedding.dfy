/** The bag-of-words embedder, cosine similarity, and top-k retrieval, over exact reals. The hash and
    the square root are parameters. */
module Embedding {
  import opened Text
  import opened Ranking

  type Vector = seq<real>

  predicate IsToken(c: char) {
    'a' <= c <= 'z' || IsDigit(c)
  }

  /** The maximal runs of lower-case letters and digits. */
  function Runs(s: string, run: string): seq<string>
    decreases |s|
  {
    if s == "" then if run == "" then [] else [run]
    else if IsToken(s[0]) then Runs(s[1..], run + [s[0]])
    else (if run == "" then [] else [run]) + Runs(s[1..], "")
  }

  function Tokenize(text: string): seq<string> {
    Runs(Lower(text), "")
  }

  /** How many of the tokens hash to bucket `j`. */
  function Occurrences(tokens: seq<string>, j: nat, dim: nat, hash: string -> nat): nat
    requires dim > 0
  {
    if tokens == [] then 0
    else Occurrences(tokens[..|tokens| - 1], j, dim, hash) + if hash(tokens[|tokens| - 1]) % dim == j then 1 else 0
  }

  function Counts(tokens: seq<string>, dim: nat, hash: string -> nat): (v: Vector)
    requires dim > 0
    ensures |v| == dim && forall j | 0 <= j < dim :: v[j] == Occurrences(tokens, j, dim, hash) as real
  {
    seq(dim, (j: nat) => Occurrences(tokens, j, dim, hash) as real)
  }

  function Times(x: real, y: real): real {
    x * y
  }

  function Dot(a: Vector, b: Vector): real
    requires |a| == |b|
  {
    if a == [] then 0.0 else Times(a[0], b[0]) + Dot(a[1..], b[1..])
  }

  function SumOfSquares(a: Vector): real {
    Dot(a, a)
  }

  /** A square root function. */
  ghost predicate IsSqrt(sqrt: real -> real) {
    forall x: real | x >= 0.0 :: sqrt(x) >= 0.0 && sqrt(x) * sqrt(x) == x
  }

  /** Divides a vector by its norm, unless that is 0. */
  function Normalized(v: Vector, sqrt: real -> real): (r: Vector)
    ensures |r| == |v|
    ensures forall j | 0 <= j < |v| ::
              r[j] == if sqrt(SumOfSquares(v)) == 0.0 then v[j] else v[j] / sqrt(SumOfSquares(v))
  {
    var norm := sqrt(SumOfSquares(v));
    if norm == 0.0 then v else seq(|v|, i requires 0 <= i < |v| => v[i] / norm)
  }

  /** `embed_text` on the tokens of a text: counts in place, then normalises. */
  method EmbedTokens(tokens: seq<string>, dim: nat, hash: string -> nat, sqrt: real -> real) returns (embedding: Vector)
    requires dim > 0
    ensures embedding == Normalized(Counts(tokens, dim, hash), sqrt)
  {
    var vec := new real[dim](_ => 0.0);
    for i := 0 to |tokens|
      invariant vec[..] == Counts(tokens[..i], dim, hash)
    {
      var h := hash(tokens[i]) % dim;
      assert tokens[..i + 1][..i] == tokens[..i];
      vec[h] := vec[h] + 1.0;
    }
    assert tokens[..|tokens|] == tokens;
    var norm := sqrt(SumOfSquares(vec[..]));
    if norm == 0.0 {
      return vec[..];
    }
    embedding := seq(dim, i requires 0 <= i < dim reads vec => vec[i] / norm);
    assert embedding == Normalized(vec[..], sqrt);
  }

  function Cosine(a: Vector, b: Vector, sqrt: real -> real): real {
    if a == [] || b == [] || |a| != |b| then 0.0
    else
      var na, nb := sqrt(SumOfSquares(a)), sqrt(SumOfSquares(b));
      if na == 0.0 || nb == 0.0 then 0.0 else Dot(a, b) / (na * nb)
  }

  lemma PositiveProduct(x: real, y: real)
    requires x > 0.0 && y > 0.0
    ensures x * y > 0.0 && Times(x, y) > 0.0
  {
  }

  lemma SquareIsNonNegative(x: real)
    ensures Times(x, x) >= 0.0
    ensures Times(x, x) == 0.0 <==> x == 0.0
  {
    if x > 0.0 {
      PositiveProduct(x, x);
    } else if x < 0.0 {
      PositiveProduct(-x, -x);
      assert Times(-x, -x) == Times(x, x);
    } else {
      assert Times(0.0, x) == 0.0;
    }
  }

  lemma {:induction false} DotWithZero(a: Vector, b: Vector)
    requires |a| == |b| && forall i | 0 <= i < |a| :: a[i] == 0.0
    ensures Dot(a, b) == 0.0
  {
    if a != [] {
      assert forall i | 0 <= i < |a[1..]| :: a[1..][i] == a[i + 1];
      DotWithZero(a[1..], b[1..]);
    }
  }

  lemma {:induction false} SquaresAreNonNegative(a: Vector)
    ensures SumOfSquares(a) >= 0.0
    ensures SumOfSquares(a) == 0.0 <==> forall i | 0 <= i < |a| :: a[i] == 0.0
  {
    if a != [] {
      SquaresAreNonNegative(a[1..]);
      SquareIsNonNegative(a[0]);
      assert SumOfSquares(a) == Times(a[0], a[0]) + SumOfSquares(a[1..]);
      if SumOfSquares(a) == 0.0 {
        forall i | 0 <= i < |a| ensures a[i] == 0.0 {
          if i > 0 { assert a[i] == a[1..][i - 1]; }
        }
      }
      if forall i | 0 <= i < |a| :: a[i] == 0.0 {
        DotWithZero(a, a);
      }
    }
  }

  /** The vector `t * a - b`. */
  function Combine(t: real, a: Vector, b: Vector): (c: Vector)
    requires |a| == |b|
    ensures |c| == |a|
  {
    if a == [] then [] else [t * a[0] - b[0]] + Combine(t, a[1..], b[1..])
  }

  lemma SquareOfDifference(t: real, x: real, y: real)
    ensures Times(t * x - y, t * x - y) == t * t * Times(x, x) - 2.0 * t * Times(x, y) + Times(y, y)
  {
  }

  lemma {:induction false} SquaresOfCombination(t: real, a: Vector, b: Vector)
    requires |a| == |b|
    ensures SumOfSquares(Combine(t, a, b)) == t * t * SumOfSquares(a) - 2.0 * t * Dot(a, b) + SumOfSquares(b)
  {
    if a != [] {
      SquaresOfCombination(t, a[1..], b[1..]);
      SquareOfDifference(t, a[0], b[0]);
      assert Combine(t, a, b)[1..] == Combine(t, a[1..], b[1..]);
    }
  }

  lemma Discriminant(aa: real, bb: real, d: real)
    requires aa > 0.0
    requires var t := d / aa; t * t * aa - 2.0 * t * d + bb >= 0.0
    ensures d * d <= aa * bb
  {
    var t := d / aa;
    assert t * aa == d;
    assert t * t * aa == t * (t * aa) == t * d;
    assert bb >= t * d;
    assert aa * bb >= aa * (t * d);
    assert aa * (t * d) == (t * aa) * d;
  }

  /** Cauchy-Schwarz, in every dimension. */
  lemma CauchySchwarz(a: Vector, b: Vector)
    requires |a| == |b|
    ensures Dot(a, b) * Dot(a, b) <= SumOfSquares(a) * SumOfSquares(b)
  {
    hide Dot, Combine;
    var aa, bb, d := SumOfSquares(a), SumOfSquares(b), Dot(a, b);
    SquaresAreNonNegative(a);
    if aa == 0.0 {
      DotWithZero(a, b);
    } else {
      SquaresOfCombination(d / aa, a, b);
      SquaresAreNonNegative(Combine(d / aa, a, b));
      Discriminant(aa, bb, d);
    }
  }

  lemma SquaresGrow(x: real, y: real)
    requires 0.0 <= x < y
    ensures x * x < y * y
  {
    PositiveProduct(y - x, y + x);
    assert (y - x) * (y + x) == y * y - x * x;
  }

  lemma QuotientIsNonNegative(x: real, y: real)
    requires x >= 0.0 && y > 0.0
    ensures x / y >= 0.0
  {
  }

  lemma BoundedBySquares(d: real, n: real)
    requires n > 0.0 && d * d <= n * n
    ensures -n <= d <= n
  {
    if d > n {
      SquaresGrow(n, d);
    } else if -d > n {
      assert (-d) * (-d) == d * d;
      SquaresGrow(n, -d);
    }
  }

  lemma QuotientIsBounded(d: real, n: real)
    requires n > 0.0 && -n <= d <= n
    ensures -1.0 <= d / n <= 1.0
  {
    var q := d / n;
    assert q * n == d;
    QuotientIsNonNegative(n - d, n);
    QuotientIsNonNegative(n + d, n);
    assert (1.0 - q) * n == n - d && (1.0 + q) * n == n + d;
  }

  /** Cosine similarity lies between -1 and 1, whatever the vectors. */
  lemma CosineIsBounded(a: Vector, b: Vector, sqrt: real -> real)
    requires IsSqrt(sqrt)
    ensures -1.0 <= Cosine(a, b, sqrt) <= 1.0
  {
    hide Dot, SumOfSquares;
    if a != [] && |a| == |b| {
      var na, nb := sqrt(SumOfSquares(a)), sqrt(SumOfSquares(b));
      SquaresAreNonNegative(a);
      SquaresAreNonNegative(b);
      if na != 0.0 && nb != 0.0 {
        CauchySchwarz(a, b);
        assert (na * nb) * (na * nb) == (na * na) * (nb * nb);
        assert na * nb > 0.0;
        BoundedBySquares(Dot(a, b), na * nb);
        QuotientIsBounded(Dot(a, b), na * nb);
        assert Cosine(a, b, sqrt) == Dot(a, b) / (na * nb);
      }
    }
  }

  /** A non-zero vector is entirely similar to itself. */
  lemma CosineWithSelf(a: Vector, sqrt: real -> real)
    requires IsSqrt(sqrt) && exists i :: 0 <= i < |a| && a[i] != 0.0
    ensures Cosine(a, a, sqrt) == 1.0
  {
    SquaresAreNonNegative(a);
    var na := sqrt(SumOfSquares(a));
    assert na * na == SumOfSquares(a) != 0.0;
    OverItself(na * na);
  }

  lemma OverItself(x: real)
    requires x != 0.0
    ensures x / x == 1.0
  {
  }

  predicate NonNegative(v: Vector) {
    forall i | 0 <= i < |v| :: v[i] >= 0.0
  }

  lemma {:induction false} DotIsNonNegative(a: Vector, b: Vector)
    requires |a| == |b| && NonNegative(a) && NonNegative(b)
    ensures Dot(a, b) >= 0.0
  {
    if a != [] {
      DotIsNonNegative(a[1..], b[1..]);
      assert Times(a[0], b[0]) >= 0.0;
    }
  }

  lemma EmbeddingIsNonNegative(tokens: seq<string>, dim: nat, hash: string -> nat, sqrt: real -> real)
    requires dim > 0 && IsSqrt(sqrt)
    ensures NonNegative(Normalized(Counts(tokens, dim, hash), sqrt))
  {
    SquaresAreNonNegative(Counts(tokens, dim, hash));
  }

  /** Embeddings never point away from each other. */
  lemma CosineOfEmbeddings(s: seq<string>, t: seq<string>, dim: nat, hash: string -> nat, sqrt: real -> real)
    requires dim > 0 && IsSqrt(sqrt)
    ensures 0.0 <= Cosine(Normalized(Counts(s, dim, hash), sqrt), Normalized(Counts(t, dim, hash), sqrt), sqrt) <= 1.0
  {
    var a, b := Normalized(Counts(s, dim, hash), sqrt), Normalized(Counts(t, dim, hash), sqrt);
    EmbeddingIsNonNegative(s, dim, hash, sqrt);
    EmbeddingIsNonNegative(t, dim, hash, sqrt);
    CosineIsBounded(a, b, sqrt);
    DotIsNonNegative(a, b);
    SquaresAreNonNegative(a);
    SquaresAreNonNegative(b);
    var na, nb := sqrt(SumOfSquares(a)), sqrt(SumOfSquares(b));
    if na != 0.0 && nb != 0.0 {
      assert na * nb > 0.0;
      QuotientIsNonNegative(Dot(a, b), na * nb);
    }
  }

  lemma {:induction false} OccurrencesOfConcat(s: seq<string>, t: seq<string>, j: nat, dim: nat, hash: string -> nat)
    requires dim > 0
    ensures Occurrences(s + t, j, dim, hash) == Occurrences(s, j, dim, hash) + Occurrences(t, j, dim, hash)
  {
    if t == [] {
      assert s + t == s;
    } else {
      OccurrencesOfConcat(s, t[..|t| - 1], j, dim, hash);
      assert (s + t)[..|s + t| - 1] == s + t[..|t| - 1];
    }
  }

  lemma OccurrencesWithout(t: seq<string>, k: nat, j: nat, dim: nat, hash: string -> nat)
    requires dim > 0 && k < |t|
    ensures Occurrences(t, j, dim, hash) ==
            Occurrences(t[..k] + t[k + 1..], j, dim, hash) + if hash(t[k]) % dim == j then 1 else 0
  {
    assert t == t[..k + 1] + t[k + 1..] && t[..k + 1][..k] == t[..k];
    OccurrencesOfConcat(t[..k + 1], t[k + 1..], j, dim, hash);
    OccurrencesOfConcat(t[..k], t[k + 1..], j, dim, hash);
  }

  lemma MultisetWithout(t: seq<string>, k: nat)
    requires k < |t|
    ensures multiset(t[..k] + t[k + 1..]) == multiset(t) - multiset{t[k]}
  {
    assert t == t[..k] + [t[k]] + t[k + 1..];
  }

  lemma {:induction false} OccurrencesOfPermutation(s: seq<string>, t: seq<string>, j: nat, dim: nat, hash: string -> nat)
    requires dim > 0 && multiset(s) == multiset(t)
    ensures Occurrences(s, j, dim, hash) == Occurrences(t, j, dim, hash)
  {
    assert |s| == |multiset(s)| == |multiset(t)| == |t|;
    if s != [] {
      var n := |s| - 1;
      assert s[n] in multiset(t);
      var k :| 0 <= k < |t| && t[k] == s[n];
      MultisetWithout(s, n);
      MultisetWithout(t, k);
      assert s[..n] + s[n + 1..] == s[..n];
      OccurrencesOfPermutation(s[..n], t[..k] + t[k + 1..], j, dim, hash);
      OccurrencesWithout(t, k, j, dim, hash);
    }
  }

  /** An embedding depends only on which tokens occur how often. */
  lemma EmbeddingIgnoresOrder(s: seq<string>, t: seq<string>, dim: nat, hash: string -> nat)
    requires dim > 0 && multiset(s) == multiset(t)
    ensures Counts(s, dim, hash) == Counts(t, dim, hash)
  {
    forall j | 0 <= j < dim ensures Counts(s, dim, hash)[j] == Counts(t, dim, hash)[j] {
      OccurrencesOfPermutation(s, t, j, dim, hash);
    }
  }

  /** It is the zero vector exactly when there are no tokens. */
  lemma EmbeddingIsZero(tokens: seq<string>, dim: nat, hash: string -> nat, sqrt: real -> real)
    requires dim > 0 && IsSqrt(sqrt)
    ensures (forall j | 0 <= j < dim :: Normalized(Counts(tokens, dim, hash), sqrt)[j] == 0.0) <==> tokens == []
  {
    var v := Counts(tokens, dim, hash);
    SquaresAreNonNegative(v);
    if tokens != [] {
      var h := hash(tokens[|tokens| - 1]) % dim;
      assert v[h] >= 1.0;
      assert Normalized(v, sqrt)[h] != 0.0;
    }
  }

  /** One chunk row of a vendor, as far as retrieval reads it. */
  datatype Row<T> = Row(chunk: T, embedding: Vector)

  function ScoreKey<T>(scored: (T, real)): Key {
    Key(0, scored.1)
  }

  function Scored<T>(rows: seq<Row<T>>, query: Vector, sqrt: real -> real): (r: seq<(T, real)>)
    ensures |r| == |rows|
    ensures forall i | 0 <= i < |rows| :: r[i] == (rows[i].chunk, Cosine(query, rows[i].embedding, sqrt))
  {
    seq(|rows|, i requires 0 <= i < |rows| => (rows[i].chunk, Cosine(query, rows[i].embedding, sqrt)))
  }

  /** `retrieve_chunks` on the rows of one vendor. */
  function Retrieve<T>(rows: seq<Row<T>>, query: Vector, topK: nat, sqrt: real -> real): seq<(T, real)> {
    var sorted := Sorted(Scored(rows, query, sqrt), (x: (T, real)) => ScoreKey(x));
    if topK < |rows| then sorted[..topK] else sorted
  }

  /** The row positions that are returned, in order. */
  function Picked<T>(rows: seq<Row<T>>, query: Vector, topK: nat, sqrt: real -> real): seq<nat> {
    OrderOf(Keys(Scored(rows, query, sqrt), (x: (T, real)) => ScoreKey(x)), |rows|)[..if topK < |rows| then topK else |rows|]
  }

  /** Retrieval returns the picked rows with their scores: as many as there are, up to `topK`, and none twice. */
  lemma RetrieveReturnsPicked<T>(rows: seq<Row<T>>, query: Vector, topK: nat, sqrt: real -> real)
    ensures |Picked(rows, query, topK, sqrt)| == |Retrieve(rows, query, topK, sqrt)| == if topK < |rows| then topK else |rows|
    ensures forall a | 0 <= a < |Picked(rows, query, topK, sqrt)| ::
              var p := Picked(rows, query, topK, sqrt)[a];
              p < |rows| && Retrieve(rows, query, topK, sqrt)[a] == (rows[p].chunk, Cosine(query, rows[p].embedding, sqrt))
    ensures forall a, b | 0 <= a < b < |Picked(rows, query, topK, sqrt)| ::
              Picked(rows, query, topK, sqrt)[a] != Picked(rows, query, topK, sqrt)[b]
  {
    var keys := Keys(Scored(rows, query, sqrt), (x: (T, real)) => ScoreKey(x));
    OrderIsOrdered(keys, |rows|);
    var order := OrderOf(keys, |rows|);
    forall a, b | 0 <= a < b < |order| ensures order[a] != order[b] {
      assert Before(keys, order[a], order[b]);
    }
  }

  /** No row that is left out, or returned later, beats a returned one: it scores less, or the same
      and stands later in row order. So the result is a top-k set with its ties in row order. */
  lemma PickedAreBest<T>(rows: seq<Row<T>>, query: Vector, topK: nat, sqrt: real -> real, a: nat, row: nat)
    requires a < |Picked(rows, query, topK, sqrt)| && row < |rows| && row !in Picked(rows, query, topK, sqrt)[..a + 1]
    ensures var p := Picked(rows, query, topK, sqrt)[a];
            && p < |rows|
            && var s, t := Cosine(query, rows[p].embedding, sqrt), Cosine(query, rows[row].embedding, sqrt);
               s > t || (s == t && p < row)
  {
    var keys := Keys(Scored(rows, query, sqrt), (x: (T, real)) => ScoreKey(x));
    var picked := Picked(rows, query, topK, sqrt);
    assert picked[..a + 1] == OrderOf(keys, |rows|)[..a + 1];
    OrderLeavesOutLater(keys, a, row);
    assert keys[row].score == Cosine(query, rows[row].embedding, sqrt);
    assert keys[picked[a]].score == Cosine(query, rows[picked[a]].embedding, sqrt);
  }
}
