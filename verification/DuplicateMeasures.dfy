/** The quantities in a duplicate report: tolerance, closeness, confidences, reasons and notes. */
module DuplicateMeasures {
  import opened JsonValues
  import opened DuplicateDetector
  import opened DuplicateRanking
  import opened Parsing
  import Rounding

  /** The larger of the absolute amounts. */
  function Base(a: real, b: real): real {
    Larger(Abs(a), Abs(b))
  }

  lemma BaseIsLarger(a: real, b: real)
    ensures Base(a, b) == Base(b, a) && Base(a, b) >= a && Base(a, b) >= b && Base(a, b) >= -a && Base(a, b) >= -b
    ensures Base(a, b) in {a, b, -a, -b}
    ensures Abs(a - b) == if a >= b then a - b else b - a
  {
  }

  lemma PctTimesBase(a: real, b: real)
    requires a != b
    ensures Base(a, b) > 0.0 && DifferencePct(a, b) * Base(a, b) == 100.0 * Abs(a - b)
  {
    var base := Base(a, b);
    var q := Quotient(Abs(a - b), base);
    assert q * base == Abs(a - b);
    assert q * 100.0 * base == 100.0 * (q * base);
  }

  lemma Compare(x: real, y: real, base: real)
    requires base > 0.0
    ensures x <= y <==> x * base <= y * base
  {
    if x < y { assert (y - x) * base > 0.0; } else if y < x { assert (x - y) * base > 0.0; }
  }

  /** Amounts agree exactly if both are known and their difference is at most the tolerance, in percent of the larger
      one. */
  lemma WithinToleranceExactly(a: Option<real>, b: Option<real>, tolerance: real)
    ensures Closeness(a, b, tolerance).0 <==>
            a.Some? && b.Some? &&
            (a == b || 100.0 * Abs(a.value - b.value) <= tolerance * Base(a.value, b.value))
  {
    if a.Some? && b.Some? && a != b {
      PctTimesBase(a.value, b.value);
      hide DifferencePct, Base;
      ScaledBound(DifferencePct(a.value, b.value), Base(a.value, b.value), Abs(a.value - b.value), tolerance);
    }
  }

  lemma ScaledBound(pct: real, base: real, difference: real, tolerance: real)
    requires base > 0.0 && pct * base == 100.0 * difference
    ensures pct <= tolerance <==> 100.0 * difference <= tolerance * base
  {
    Compare(pct, tolerance, base);
  }

  /** The closeness is 1 for equal amounts, and falls to 0 by their difference relative to the larger one. */
  lemma ClosenessIsRelative(a: real, b: real, tolerance: real)
    ensures var closeness := Closeness(Some(a), Some(b), tolerance).1;
            && (a == b ==> closeness == 1.0)
            && (a != b ==> closeness * Base(a, b) == Larger(0.0, Base(a, b) - Abs(a - b)))
    ensures Closeness(None, Some(b), tolerance).1 == Closeness(Some(a), None, tolerance).1 == 0.0
  {
    if a != b {
      PctTimesBase(a, b);
      ScaledShare(DifferencePct(a, b), Base(a, b), Abs(a - b));
    }
  }

  lemma ScaledShare(pct: real, base: real, difference: real)
    requires base > 0.0 && pct * base == 100.0 * difference
    ensures Larger(0.0, 1.0 - pct / 100.0) * base == Larger(0.0, base - difference)
  {
    var x := 1.0 - pct / 100.0;
    ShareOf(pct, base);
    assert x * base == base - difference;
    if x > 0.0 { assert x * base > 0.0; } else { assert x * base <= 0.0 by { Compare(x, 0.0, base); } }
  }

  lemma ShareOf(pct: real, base: real)
    ensures (1.0 - pct / 100.0) * base == base - pct * base / 100.0
  {
    assert pct / 100.0 * base == pct * base / 100.0;
  }

  lemma TenThousandthsIsNear(x: real)
    ensures -0.00005 <= TenThousandths(x) - x <= 0.00005
    ensures (10000.0 * TenThousandths(x)).Floor as real == 10000.0 * TenThousandths(x)
  {
    var n := Rounding.HalfEven(10000.0 * x);
    hide Rounding.HalfEven;
    assert 10000.0 * TenThousandths(x) == n as real;
  }

  /** The confidence of an exact match runs from 0.9 to 1 with the closeness of the amounts. */
  lemma ExactConfidenceIs(request: Request, other: Facts)
    ensures var closeness := Closeness(request.facts.amount, other.amount, request.tolerance).1;
            -0.00005 <= ExactConfidence(request, other) - (0.9 + closeness / 10.0) <= 0.00005
  {
    hide TenThousandths, Closeness;
    TenThousandthsIsNear(Capped(0.9 + 0.1 * Closeness(request.facts.amount, other.amount, request.tolerance).1));
  }

  /** The confidence of a near match, for a similarity in percent: half a point, up to 0.3 for the vendor, up to 0.2 for
      the amount, and 0.05 for the day, but never more than 1. */
  lemma NearConfidenceIs(request: Request, other: Facts, fuzz: Fuzz)
    requires 0.0 <= Similarity(request.facts.vendorName, other.vendorName, fuzz) <= 100.0
    ensures var similarity := Similarity(request.facts.vendorName, other.vendorName, fuzz);
            var closeness := Closeness(request.facts.amount, other.amount, request.tolerance).1;
            var sum := 0.5 + 3.0 * similarity / 1000.0 + closeness / 5.0 + if SameDay(request.facts, other) then 0.05 else 0.0;
            && (sum <= 1.0 ==> -0.00005 <= NearConfidence(request, other, fuzz) - sum <= 0.00005)
            && (sum >= 1.0 ==> NearConfidence(request, other, fuzz) == 1.0)
  {
    hide TenThousandths, Closeness, Similarity;
    TenThousandthsIsNear(Capped(NearScore(request, other, fuzz)));
    Fixpoints();
  }

  /** The reasons say what a match rests on. */
  lemma ReasonsExactly(request: Request, c: Candidate, fuzz: Fuzz)
    ensures var m := Evaluation(request, c, fuzz);
            m.Some? ==>
              && m.value.candidate == c && m.value.reasons != []
              && (m.value.reasons[0] == SameNumberSameVendor <==> m.value.matchType == Exact)
              && (m.value.reasons[0] == VendorAndAmount <==>
                  m.value.matchType == Near && SameVendor(request.facts, c.facts, request.threshold, fuzz))
              && (m.value.reasons[0] == SameNumberOnly <==>
                  m.value.matchType == Near && !SameVendor(request.facts, c.facts, request.threshold, fuzz))
              && (AmountsMatch in m.value.reasons <==>
                  m.value.matchType == Exact && Closeness(request.facts.amount, c.facts.amount, request.tolerance).0)
              && (SameDate in m.value.reasons <==>
                  m.value.reasons[0] == VendorAndAmount && c.facts.date.Some? && request.facts.date == c.facts.date)
  {
    hide Similarity, SameNumber, Closeness, TenThousandths;
  }

  /** When a candidate matches at all: on the number, or on vendor and amount. */
  lemma MatchesExactlyWhen(request: Request, c: Candidate, fuzz: Fuzz)
    ensures Evaluation(request, c, fuzz).Some? <==>
            SameNumber(request.facts, c.facts) ||
            (SameVendor(request.facts, c.facts, request.threshold, fuzz)
                  && Closeness(request.facts.amount, c.facts.amount, request.tolerance).0)
  {
    hide Similarity, SameNumber, Closeness, TenThousandths;
  }

  /** A near duplicate: the same number under another vendor, or another number from the vendor on an amount within the
      tolerance. */
  predicate NearlyDuplicates(request: Request, other: Facts, fuzz: Fuzz) {
    if SameNumber(request.facts, other) then !SameVendor(request.facts, other, request.threshold, fuzz)
    else SameVendor(request.facts, other, request.threshold, fuzz)
          && Closeness(request.facts.amount, other.amount, request.tolerance).0
  }

  lemma NearEvaluation(request: Request, c: Candidate, fuzz: Fuzz)
    ensures var m := Evaluation(request, c, fuzz);
            m.Some? && m.value.matchType == Near <==> NearlyDuplicates(request, c.facts, fuzz)
  {
    hide Similarity, SameNumber, Closeness, TenThousandths, NearScore;
  }

  /** A near duplicate is reported exactly when some candidate in the window is one. */
  lemma NearExactly(request: Request, fuzz: Fuzz)
    requires Detected(request, fuzz).Ok?
    ensures Detected(request, fuzz).value.isNear <==>
            exists c :: c in request.candidates && InWindow(request, c.facts) && NearlyDuplicates(request, c.facts, fuzz)
  {
    ReportBySet(request, fuzz);
    var r := Detected(request, fuzz).value;
    hide Evaluation, InWindow, NearlyDuplicates, Detected;
    if r.isNear {
      var m :| m in r.matches && m.matchType == Near;
      var c :| Yields(request, c, m, fuzz);
      NearEvaluation(request, c, fuzz);
    }
    if c :| c in request.candidates && InWindow(request, c.facts) && NearlyDuplicates(request, c.facts, fuzz) {
      NearEvaluation(request, c, fuzz);
      var m := Evaluation(request, c, fuzz).value;
      assert Yields(request, c, m, fuzz);
      assert m in r.matches;
    }
  }

  /** Vendors with one normal form are entirely similar, whatever the fuzzy score; a missing name is like no other. */
  lemma SimilarityOfNames(a: string, b: string, fuzz: Fuzz)
    ensures a != "" && b != "" && NormalizeVendorName(a) == NormalizeVendorName(b) != "" ==>
          Similarity(Some(a), Some(b), fuzz) == 100.0
    ensures a == "" || b == "" ==> Similarity(Some(a), Some(b), fuzz) == 0.0
    ensures Similarity(None, Some(b), fuzz) == Similarity(Some(a), None, fuzz) == 0.0
  {
    hide NormalizeVendorName;
  }

  function Outside(request: Request, candidates: seq<Candidate>): nat {
    if candidates == [] then 0
    else Outside(request, candidates[..|candidates| - 1]) + if InWindow(request, candidates[|candidates| - 1].facts) then 0 else 1
  }

  lemma {:induction false} RecentAndOutside(request: Request, candidates: seq<Candidate>)
    ensures |Recent(request, candidates)| + Outside(request, candidates) == |candidates|
  {
    hide InWindow;
    if candidates != [] { RecentAndOutside(request, candidates[..|candidates| - 1]); }
  }

  lemma MatchesMeanFlags(request: Request, fuzz: Fuzz)
    requires Detected(request, fuzz).Ok?
    ensures var r := Detected(request, fuzz).value; r.matches == [] <==> !r.isNear && !r.isDuplicate
  {
    ReportBySet(request, fuzz);
    hide Detected, Yields;
    var r := Detected(request, fuzz).value;
    if r.matches != [] { assert r.matches[0] in r.matches; }
  }

  /** The notes: first how many candidates lie before the window, if any do, and last the verdict. */
  lemma NotesExactly(request: Request, fuzz: Fuzz)
    requires Detected(request, fuzz).Ok?
    ensures var r, skipped := Detected(request, fuzz).value, Outside(request, request.candidates);
            && |r.notes| == (if skipped > 0 then 2 else 1)
            && (skipped > 0 ==> r.notes[0] == Ignored(skipped))
            && (ExactFound in r.notes <==> r.isDuplicate)
            && (NearFound in r.notes <==> r.isNear && !r.isDuplicate)
            && (NothingFound in r.notes <==> r.matches == [])
  {
    RecentAndOutside(request, request.candidates);
    MatchesMeanFlags(request, fuzz);
    hide MatchesOf, Recent, Outside, Evaluation, Contains, WindowOverflows;
  }

  /** Invoices dated before the window are ignored, undated ones never are, and nothing is if no window is asked for. */
  lemma WindowExactly(request: Request, other: Facts)
    ensures request.lookback.None? || request.facts.date.None? || other.date.None? ==> InWindow(request, other)
    ensures request.lookback.Some? && request.facts.date.Some? && other.date.Some? ==>
              (InWindow(request, other) <==> request.facts.date.value - other.date.value <= request.lookback.value)
  {
  }
}
