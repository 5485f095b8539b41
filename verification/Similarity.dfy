/** What cosine similarity measures, and what retrieval by it prefers. */
module Similarity {
  import opened Text
  import opened Embedding
  import opened Ranking

  // Cosine similarity by coordinates.

  /** The sum of the products of the first `n` coordinates. */
  function ProductSum(a: Vector, b: Vector, n: nat): real
    requires n <= |a| == |b|
  {
    if n == 0 then 0.0 else ProductSum(a, b, n - 1) + a[n - 1] * b[n - 1]
  }

  lemma {:induction false} ProductSumNext(a: Vector, b: Vector, n: nat)
    requires a != [] && n < |a| == |b|
    ensures ProductSum(a, b, n + 1) == a[0] * b[0] + ProductSum(a[1..], b[1..], n)
  {
    if n > 0 {
      ProductSumNext(a, b, n - 1);
      assert a[1..][n - 1] == a[n] && b[1..][n - 1] == b[n];
    }
  }

  lemma {:induction false} DotIsProductSum(a: Vector, b: Vector)
    requires |a| == |b|
    ensures Dot(a, b) == ProductSum(a, b, |a|)
  {
    if a != [] {
      DotIsProductSum(a[1..], b[1..]);
      ProductSumNext(a, b, |a| - 1);
    }
  }

  predicate IsZero(a: Vector) {
    forall i | 0 <= i < |a| :: a[i] == 0.0
  }

  function Norm(a: Vector, sqrt: real -> real): real {
    sqrt(SumOfSquares(a))
  }

  /** The product of the norms. */
  function Norms(a: Vector, b: Vector, sqrt: real -> real): real {
    Norm(a, sqrt) * Norm(b, sqrt)
  }

  /** The norm is the root of the sum of the squares of the coordinates. */
  lemma NormByCoordinates(a: Vector, sqrt: real -> real)
    requires IsSqrt(sqrt)
    ensures Norm(a, sqrt) >= 0.0 && Norm(a, sqrt) * Norm(a, sqrt) == ProductSum(a, a, |a|)
  {
    DotIsProductSum(a, a);
    SquaresAreNonNegative(a);
  }

  lemma NormIsZeroExactly(a: Vector, sqrt: real -> real)
    requires IsSqrt(sqrt)
    ensures Norm(a, sqrt) >= 0.0
    ensures Norm(a, sqrt) == 0.0 <==> IsZero(a)
  {
    NormByCoordinates(a, sqrt);
    DotIsProductSum(a, a);
    SquaresAreNonNegative(a);
    hide IsSqrt, Norm, Dot, ProductSum;
    var n := Norm(a, sqrt);
    if n > 0.0 { PositiveProduct(n, n); }
  }

  lemma TimesQuotient(x: real, y: real)
    requires y != 0.0
    ensures x / y * y == x
  {
  }

  lemma CosineIsQuotient(a: Vector, b: Vector, sqrt: real -> real)
    requires |a| == |b| && Norm(a, sqrt) > 0.0 && Norm(b, sqrt) > 0.0 && a != []
    ensures Norms(a, b, sqrt) > 0.0 && Cosine(a, b, sqrt) * Norms(a, b, sqrt) == Dot(a, b)
  {
    hide Dot, SumOfSquares;
    PositiveProduct(Norm(a, sqrt), Norm(b, sqrt));
    var n := Norms(a, b, sqrt);
    assert Cosine(a, b, sqrt) == Dot(a, b) / n;
    hide Cosine, Norm, Norms;
    TimesQuotient(Dot(a, b), n);
  }

  /** Similarity times both norms is the sum of the products of the coordinates; without two non-zero vectors of one
      length it is 0. */
  lemma CosineByCoordinates(a: Vector, b: Vector, sqrt: real -> real)
    requires IsSqrt(sqrt)
    ensures |a| == |b| && !IsZero(a) && !IsZero(b) ==>
              Norms(a, b, sqrt) > 0.0 && Cosine(a, b, sqrt) * Norms(a, b, sqrt) == ProductSum(a, b, |a|)
    ensures |a| != |b| || IsZero(a) || IsZero(b) ==> Cosine(a, b, sqrt) == 0.0
  {
    hide IsSqrt, Dot, SumOfSquares, ProductSum, Norms;
    NormIsZeroExactly(a, sqrt);
    NormIsZeroExactly(b, sqrt);
    if |a| == |b| && !IsZero(a) && !IsZero(b) {
      hide Norm, Cosine;
      CosineIsQuotient(a, b, sqrt);
      DotIsProductSum(a, b);
    }
  }

  /** The vectors point the same way. */
  ghost predicate Parallel(a: Vector, b: Vector) {
    exists t: real :: t > 0.0 && IsMultiple(a, b, t)
  }

  predicate IsMultiple(a: Vector, b: Vector, t: real) {
    |a| == |b| && forall i | 0 <= i < |a| :: b[i] == t * a[i]
  }

  lemma {:induction false} ProductSumOfMultiple(a: Vector, b: Vector, t: real, n: nat)
    requires IsMultiple(a, b, t) && n <= |a|
    ensures ProductSum(a, b, n) == t * ProductSum(a, a, n)
    ensures ProductSum(b, b, n) == t * t * ProductSum(a, a, n)
  {
    if n > 0 {
      ProductSumOfMultiple(a, b, t, n - 1);
      ScaledSums(t, ProductSum(a, a, n - 1), a[n - 1], ProductSum(a, b, n - 1), ProductSum(b, b, n - 1));
    }
  }

  lemma ScaledSums(t: real, aa: real, x: real, ab: real, bb: real)
    requires ab == t * aa && bb == t * t * aa
    ensures ab + x * (t * x) == t * (aa + x * x)
    ensures bb + (t * x) * (t * x) == t * t * (aa + x * x)
  {
    assert t * t * (aa + x * x) == t * t * aa + t * t * (x * x);
  }

  lemma {:induction false} CombineIs(t: real, a: Vector, b: Vector)
    requires |a| == |b|
    ensures forall i | 0 <= i < |a| :: Combine(t, a, b)[i] == t * a[i] - b[i]
  {
    if a != [] { CombineIs(t, a[1..], b[1..]); }
  }

  lemma EqualSquares(x: real, y: real)
    requires x >= 0.0 && y >= 0.0 && x * x == y * y
    ensures x == y
  {
    if x < y { SquaresGrow(x, y); } else if y < x { SquaresGrow(y, x); }
  }

  lemma ZeroCombination(t: real, a: Vector, b: Vector)
    requires |a| == |b| && SumOfSquares(Combine(t, a, b)) == 0.0
    ensures IsMultiple(a, b, t)
  {
    SquaresAreNonNegative(Combine(t, a, b));
    CombineIs(t, a, b);
    hide Dot, SumOfSquares, Combine;
    forall i | 0 <= i < |a| ensures b[i] == t * a[i] {
      assert Combine(t, a, b)[i] == 0.0;
    }
  }

  /** If the dot product is the product of the norms, the vectors are parallel. */
  lemma EqualityIsParallel(a: Vector, b: Vector, na: real, nb: real)
    requires |a| == |b| && na > 0.0 && nb > 0.0 && na * na == SumOfSquares(a) && nb * nb == SumOfSquares(b)
    requires Dot(a, b) == na * nb
    ensures Parallel(a, b)
  {
    hide Dot, SumOfSquares, Combine, IsMultiple;
    var t := nb / na;
    TimesQuotient(nb, na);
    PositiveQuotient(nb, na);
    SquaresOfCombination(t, a, b);
    VanishingSquare(t, na, nb);
    ZeroCombination(t, a, b);
  }

  lemma PositiveQuotient(x: real, y: real)
    requires x > 0.0 && y > 0.0
    ensures x / y > 0.0
  {
    assert x / y * y == x;
  }

  lemma VanishingSquare(t: real, na: real, nb: real)
    requires t * na == nb
    ensures t * t * (na * na) - 2.0 * t * (na * nb) + nb * nb == 0.0
  {
    assert t * t * (na * na) == (t * na) * (t * na) == nb * nb;
    assert t * (na * nb) == (t * na) * nb == nb * nb;
  }

  lemma ScaledNorm(t: real, na: real, nb: real, aa: real)
    requires t > 0.0 && na >= 0.0 && nb >= 0.0 && na * na == aa && nb * nb == t * t * aa
    ensures t * aa == na * nb
  {
    assert (t * na) * (t * na) == t * t * (na * na);
    assert t * na >= 0.0;
    EqualSquares(nb, t * na);
    assert na * (t * na) == t * (na * na);
  }

  lemma NormsOfMultiple(a: Vector, b: Vector, t: real, sqrt: real -> real)
    requires IsSqrt(sqrt) && !IsZero(a) && t > 0.0 && IsMultiple(a, b, t)
    ensures !IsZero(b) && ProductSum(a, b, |a|) == Norms(a, b, sqrt)
  {
    hide Dot, ProductSum, Norm, IsSqrt;
    ProductSumOfMultiple(a, b, t, |a|);
    NormByCoordinates(a, sqrt);
    NormByCoordinates(b, sqrt);
    var i :| 0 <= i < |a| && a[i] != 0.0;
    assert b[i] == t * a[i] != 0.0;
    hide IsMultiple, IsZero;
    ScaledNorm(t, Norm(a, sqrt), Norm(b, sqrt), ProductSum(a, a, |a|));
  }

  lemma CosineOfParallel(a: Vector, b: Vector, sqrt: real -> real)
    requires IsSqrt(sqrt) && !IsZero(a) && Parallel(a, b)
    ensures !IsZero(b) && Cosine(a, b, sqrt) == 1.0
  {
    var t :| t > 0.0 && IsMultiple(a, b, t);
    assert |a| == |b|;
    hide *;
    NormsOfMultiple(a, b, t, sqrt);
    CosineByCoordinates(a, b, sqrt);
    var c, n := Cosine(a, b, sqrt), Norms(a, b, sqrt);
    assert c * n == ProductSum(a, b, |a|) == n;
    QuotientIsUnique(c, n);
  }

  lemma QuotientIsUnique(x: real, y: real)
    requires y > 0.0 && x * y == y
    ensures x == 1.0
  {
    assert (x - 1.0) * y == 0.0;
  }

  /** Similarity is 1 exactly for vectors that point the same way. */
  lemma CosineIsOneExactly(a: Vector, b: Vector, sqrt: real -> real)
    requires IsSqrt(sqrt) && !IsZero(a) && !IsZero(b)
    ensures Cosine(a, b, sqrt) == 1.0 <==> Parallel(a, b)
  {
    if Cosine(a, b, sqrt) == 1.0 {
      CosineByCoordinates(a, b, sqrt);
      NormByCoordinates(a, sqrt);
      NormByCoordinates(b, sqrt);
      NormIsZeroExactly(a, sqrt);
      NormIsZeroExactly(b, sqrt);
      DotIsProductSum(a, a);
      DotIsProductSum(b, b);
      DotIsProductSum(a, b);
      hide Dot, ProductSum, IsZero, Cosine, Parallel, IsSqrt, Norm;
      EqualityIsParallel(a, b, Norm(a, sqrt), Norm(b, sqrt));
    }
    if Parallel(a, b) { CosineOfParallel(a, b, sqrt); }
  }

  // Similarity of embeddings, and what it makes retrieval prefer.

  /** Some token of each hashes to the same bucket. */
  predicate ShareBucket(s: seq<string>, t: seq<string>, dim: nat, hash: string -> nat)
    requires dim > 0
  {
    exists x, y :: x in s && y in t && hash(x) % dim == hash(y) % dim
  }

  function Embed(tokens: seq<string>, dim: nat, hash: string -> nat, sqrt: real -> real): Vector
    requires dim > 0
  {
    Normalized(Counts(tokens, dim, hash), sqrt)
  }

  lemma {:induction false} OccursExactly(tokens: seq<string>, j: nat, dim: nat, hash: string -> nat)
    requires dim > 0
    ensures Occurrences(tokens, j, dim, hash) > 0 <==> exists x :: x in tokens && hash(x) % dim == j
  {
    if tokens != [] {
      var n := |tokens| - 1;
      OccursExactly(tokens[..n], j, dim, hash);
      assert tokens == tokens[..n] + [tokens[n]];
    }
  }

  /** A coordinate is positive exactly if some token hashes to it, and is 0 otherwise. */
  lemma CoordinateOccurs(tokens: seq<string>, j: nat, dim: nat, hash: string -> nat, sqrt: real -> real)
    requires dim > 0 && IsSqrt(sqrt) && j < dim
    ensures Embed(tokens, dim, hash, sqrt)[j] >= 0.0
    ensures Embed(tokens, dim, hash, sqrt)[j] > 0.0 <==> exists x :: x in tokens && hash(x) % dim == j
  {
    var v := Counts(tokens, dim, hash);
    OccursExactly(tokens, j, dim, hash);
    SquaresAreNonNegative(v);
    var norm := sqrt(SumOfSquares(v));
    hide SumOfSquares, Occurrences;
    if norm != 0.0 && v[j] > 0.0 { PositiveQuotient(v[j], norm); }
  }

  lemma {:induction false} PositiveSum(a: Vector, b: Vector, n: nat)
    requires n <= |a| == |b| && NonNegative(a) && NonNegative(b)
    ensures ProductSum(a, b, n) >= 0.0
    ensures ProductSum(a, b, n) > 0.0 <==> exists i :: 0 <= i < n && a[i] > 0.0 && b[i] > 0.0
  {
    if n > 0 {
      PositiveSum(a, b, n - 1);
      if a[n - 1] > 0.0 && b[n - 1] > 0.0 {
        PositiveProduct(a[n - 1], b[n - 1]);
      } else {
        assert a[n - 1] == 0.0 || b[n - 1] == 0.0;
        assert a[n - 1] * b[n - 1] == 0.0;
      }
    }
  }

  lemma CommonCoordinate(s: seq<string>, t: seq<string>, dim: nat, hash: string -> nat, sqrt: real -> real)
    requires dim > 0 && IsSqrt(sqrt)
    ensures var a, b := Embed(s, dim, hash, sqrt), Embed(t, dim, hash, sqrt);
            && NonNegative(a) && NonNegative(b)
            && ((exists i :: 0 <= i < dim && a[i] > 0.0 && b[i] > 0.0) <==> ShareBucket(s, t, dim, hash))
  {
    var a, b := Embed(s, dim, hash, sqrt), Embed(t, dim, hash, sqrt);
    forall j | 0 <= j < dim
      ensures a[j] >= 0.0 && (a[j] > 0.0 <==> exists x :: x in s && hash(x) % dim == j)
      ensures b[j] >= 0.0 && (b[j] > 0.0 <==> exists y :: y in t && hash(y) % dim == j)
    {
      CoordinateOccurs(s, j, dim, hash, sqrt);
      CoordinateOccurs(t, j, dim, hash, sqrt);
    }
    hide Embed;
    if ShareBucket(s, t, dim, hash) {
      var x, y :| x in s && y in t && hash(x) % dim == hash(y) % dim;
      var j := hash(x) % dim;
      assert a[j] > 0.0 && b[j] > 0.0;
    }
  }

  lemma CosineIsPositiveExactly(a: Vector, b: Vector, sqrt: real -> real)
    requires IsSqrt(sqrt) && |a| == |b| && NonNegative(a) && NonNegative(b) && Cosine(a, b, sqrt) >= 0.0
    ensures Cosine(a, b, sqrt) > 0.0 <==> exists i :: 0 <= i < |a| && a[i] > 0.0 && b[i] > 0.0
  {
    PositiveSum(a, b, |a|);
    assert IsZero(a) || IsZero(b) ==> !exists i :: 0 <= i < |a| && a[i] > 0.0 && b[i] > 0.0;
    hide IsSqrt, Cosine, ProductSum, Norms, IsZero;
    CosineByCoordinates(a, b, sqrt);
    if Cosine(a, b, sqrt) > 0.0 { PositiveProduct(Cosine(a, b, sqrt), Norms(a, b, sqrt)); }
  }

  /** Texts are similar exactly if they have a bucket in common; otherwise their similarity is 0. */
  lemma SimilarExactly(s: seq<string>, t: seq<string>, dim: nat, hash: string -> nat, sqrt: real -> real)
    requires dim > 0 && IsSqrt(sqrt)
    ensures var similarity := Cosine(Embed(s, dim, hash, sqrt), Embed(t, dim, hash, sqrt), sqrt);
            similarity >= 0.0 && (similarity > 0.0 <==> ShareBucket(s, t, dim, hash))
  {
    CosineOfEmbeddings(s, t, dim, hash, sqrt);
    hide IsSqrt, ShareBucket, Cosine;
    CommonCoordinate(s, t, dim, hash, sqrt);
    CosineIsPositiveExactly(Embed(s, dim, hash, sqrt), Embed(t, dim, hash, sqrt), sqrt);
  }

  /** Rows that are embedded from these token lists. */
  ghost predicate EmbeddedFrom<T>(rows: seq<Row<T>>, tokens: seq<seq<string>>, dim: nat, hash: string -> nat, sqrt: real -> real)
    requires dim > 0
  {
    |rows| == |tokens| && forall i | 0 <= i < |rows| :: rows[i].embedding == Embed(tokens[i], dim, hash, sqrt)
  }

  /** A chunk that has no bucket in common with the query is never returned before, or instead of, one that has. */
  lemma RelevantFirst<T>(rows: seq<Row<T>>, tokens: seq<seq<string>>, query: seq<string>, topK: nat,
                         dim: nat, hash: string -> nat, sqrt: real -> real, a: nat, row: nat)
    requires dim > 0 && IsSqrt(sqrt) && EmbeddedFrom(rows, tokens, dim, hash, sqrt)
    requires var picked := Picked(rows, Embed(query, dim, hash, sqrt), topK, sqrt);
             a < |picked| && row < |rows| && row !in picked[..a + 1]
    requires ShareBucket(query, tokens[row], dim, hash)
    ensures var p := Picked(rows, Embed(query, dim, hash, sqrt), topK, sqrt)[a];
            p < |rows| && ShareBucket(query, tokens[p], dim, hash)
  {
    hide Picked, Cosine, Embed, ShareBucket;
    var p := Picked(rows, Embed(query, dim, hash, sqrt), topK, sqrt)[a];
    PickedAreBest(rows, Embed(query, dim, hash, sqrt), topK, sqrt, a, row);
    SimilarExactly(query, tokens[row], dim, hash, sqrt);
    SimilarExactly(query, tokens[p], dim, hash, sqrt);
  }

  // Tokens.

  lemma {:induction false} RunsOfConcat(s: string, run: string, c: char, t: string)
    requires !IsToken(c)
    ensures Runs(s + [c] + t, run) == Runs(s, run) + Runs(t, "")
    decreases |s|
  {
    var u := s + [c] + t;
    if s == "" {
      assert u[0] == c && u[1..] == t;
    } else {
      assert u[0] == s[0] && u[1..] == s[1..] + [c] + t;
      RunsOfConcat(s[1..], if IsToken(s[0]) then run + [s[0]] else "", c, t);
    }
  }

  lemma {:induction false} RunsOfRun(s: string, run: string)
    requires forall c | c in s :: IsToken(c)
    ensures Runs(s, run) == if run + s == "" then [] else [run + s]
    decreases |s|
  {
    if s != "" {
      assert s[0] in s && forall c | c in s[1..] :: c in s;
      RunsOfRun(s[1..], run + [s[0]]);
      assert run + [s[0]] + s[1..] == run + s;
    } else {
      assert run + s == run;
    }
  }

  lemma LowerOfConcat(a: string, b: string)
    ensures Lower(a + b) == Lower(a) + Lower(b)
  {
  }

  /** A text is tokenised part by part: any character that is no letter or digit divides tokens, */
  lemma TokensAreDivided(s: string, c: char, t: string)
    requires !('a' <= c <= 'z') && !('A' <= c <= 'Z') && !('0' <= c <= '9')
    ensures Tokenize(s + [c] + t) == Tokenize(s) + Tokenize(t)
  {
    LowerOfConcat(s + [c], t);
    LowerOfConcat(s, [c]);
    assert Lower([c]) == [c];
    RunsOfConcat(Lower(s), "", c, Lower(t));
  }

  /** a part without such characters is one token, in lower case, */
  lemma RunIsToken(s: string)
    requires s != "" && forall c | c in s :: 'a' <= c <= 'z' || 'A' <= c <= 'Z' || '0' <= c <= '9'
    ensures Tokenize(s) == [Lower(s)] && Tokenize("") == []
  {
    forall c | c in Lower(s) ensures IsToken(c) {
      var i :| 0 <= i < |s| && Lower(s)[i] == c;
      assert s[i] in s;
    }
    RunsOfRun(Lower(s), "");
    assert "" + Lower(s) == Lower(s) && Lower("") == "";
  }

  /** and case does not matter. */
  lemma TokensIgnoreCase(s: string, t: string)
    requires Lower(s) == Lower(t)
    ensures Tokenize(s) == Tokenize(t)
  {
  }
}
