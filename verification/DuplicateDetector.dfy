/** Finding duplicates of an invoice among recent ones (`duplicate_detector.py`). Amounts are exact reals
    and dates are day ordinals; the fuzzy score of two normal forms is a parameter. */
module DuplicateDetector {
  import opened JsonValues
  import opened Parsing
  import opened Ranking
  import Rounding

  datatype Facts = Facts(vendorName: Option<string>, number: Option<string>, amount: Option<real>, date: Option<int>)

  datatype Candidate = Candidate(id: nat, facts: Facts)

  datatype Request = Request(
    facts: Facts, candidates: seq<Candidate>, tolerance: real, threshold: real, lookback: Option<nat>)

  datatype MatchType = Near | Exact

  datatype Reason = SameNumberSameVendor | AmountsMatch | VendorAndAmount | SameDate | SameNumberOnly

  datatype Match = Match(candidate: Candidate, matchType: MatchType, confidence: real, reasons: seq<Reason>)

  datatype Note = Ignored(count: nat) | ExactFound | NearFound | NothingFound

  datatype Report = Report(
    isDuplicate: bool, isNear: bool, highest: real, matches: seq<Match>, notes: seq<Note>)

  type Fuzz = (string, string) -> real

  function Abs(x: real): real {
    if x < 0.0 then -x else x
  }

  function Larger(x: real, y: real): real {
    if x >= y then x else y
  }

  /** A present, non-empty string. */
  predicate Given(s: Option<string>) {
    s.Some? && s.value != ""
  }

  function Similarity(a: Option<string>, b: Option<string>, fuzz: Fuzz): real {
    if !Given(a) || !Given(b) then 0.0
    else
      var na, nb := NormalizeVendorName(a.value), NormalizeVendorName(b.value);
      if na != "" && na == nb then 100.0 else fuzz(na, nb)
  }

  function Quotient(x: real, y: real): real
    requires y != 0.0
  {
    x / y
  }

  /** The difference in percent of the larger amount. */
  function DifferencePct(a: real, b: real): (pct: real)
    requires a != b
    ensures pct > 0.0
  {
    var base := Larger(Abs(a), Abs(b));
    assert base > 0.0;
    QuotientIsPositive(Abs(a - b), base);
    Quotient(Abs(a - b), base) * 100.0
  }

  lemma QuotientIsPositive(x: real, y: real)
    requires x > 0.0 && y > 0.0
    ensures Quotient(x, y) > 0.0
  {
    assert Quotient(x, y) * y == x;
  }

  /** Whether the amounts agree within the tolerance, and how close they are. */
  function Closeness(a: Option<real>, b: Option<real>, tolerance: real): (r: (bool, real))
    ensures 0.0 <= r.1 <= 1.0
  {
    if a.None? || b.None? then (false, 0.0)
    else if a == b then (true, 1.0)
    else
      var pct := DifferencePct(a.value, b.value);
      (pct <= tolerance, Larger(0.0, 1.0 - pct / 100.0))
  }

  predicate SameNumber(a: Facts, b: Facts) {
    Given(a.number) && Given(b.number) &&
    NormalizeInvoiceNumber(a.number.value) == NormalizeInvoiceNumber(b.number.value)
  }

  predicate SameVendor(a: Facts, b: Facts, threshold: real, fuzz: Fuzz) {
    Similarity(a.vendorName, b.vendorName, fuzz) >= threshold
  }

  predicate SameDay(a: Facts, b: Facts) {
    a.date.Some? && a.date == b.date
  }

  function Capped(x: real): real {
    if x > 1.0 then 1.0 else x
  }

  /** `round(x, 4)` */
  function TenThousandths(x: real): real {
    Rounding.HalfEven(10000.0 * x) as real / 10000.0
  }

  function NearScore(request: Request, other: Facts, fuzz: Fuzz): real {
    var similarity := Similarity(request.facts.vendorName, other.vendorName, fuzz);
    var closeness := Closeness(request.facts.amount, other.amount, request.tolerance).1;
    var score := 0.5 + 0.3 * (similarity / 100.0) + 0.2 * closeness;
    if SameDay(request.facts, other) then Capped(score + 0.05) else score
  }

  /** What one candidate contributes. */
  function Evaluation(request: Request, candidate: Candidate, fuzz: Fuzz): Option<Match> {
    var other := candidate.facts;
    var (within, closeness) := Closeness(request.facts.amount, other.amount, request.tolerance);
    if SameVendor(request.facts, other, request.threshold, fuzz) then
      if SameNumber(request.facts, other) then
        Some(Match(candidate, Exact, TenThousandths(Capped(0.9 + 0.1 * closeness)),
                   [SameNumberSameVendor] + if within then [AmountsMatch] else []))
      else if within then
        Some(Match(candidate, Near, TenThousandths(Capped(NearScore(request, other, fuzz))),
                   [VendorAndAmount] + if SameDay(request.facts, other) then [SameDate] else []))
      else None
    else if SameNumber(request.facts, other) then Some(Match(candidate, Near, 0.6, [SameNumberOnly]))
    else None
  }

  method EvaluateCandidate(request: Request, candidate: Candidate, fuzz: Fuzz) returns (r: Option<Match>)
    ensures r == Evaluation(request, candidate, fuzz)
  {
    hide NormalizeVendorName, NormalizeInvoiceNumber, Similarity, DifferencePct, TenThousandths;
    var reasons: seq<Reason> := [];
    var other := candidate.facts;
    var sameNumber := false;
    if Given(request.facts.number) && Given(other.number) {
      sameNumber := NormalizeInvoiceNumber(request.facts.number.value) == NormalizeInvoiceNumber(other.number.value);
    }
    var similarity := Similarity(request.facts.vendorName, other.vendorName, fuzz);
    var vendorMatch := similarity >= request.threshold;
    var (within, closeness) := Closeness(request.facts.amount, other.amount, request.tolerance);
    var sameDate := request.facts.date.Some? && other.date.Some? && request.facts.date.value == other.date.value;
    if sameNumber && vendorMatch {
      reasons := reasons + [SameNumberSameVendor];
      if within { reasons := reasons + [AmountsMatch]; }
      assert reasons == [SameNumberSameVendor] + if within then [AmountsMatch] else [];
      return Some(Match(candidate, Exact, TenThousandths(Capped(0.9 + 0.1 * closeness)), reasons));
    }
    if vendorMatch && within {
      var score := 0.5 + 0.3 * (similarity / 100.0) + 0.2 * closeness;
      reasons := reasons + [VendorAndAmount];
      if sameNumber {
        reasons := reasons + [SameNumberOnly];
        score := Capped(score + 0.1);
      }
      if sameDate {
        reasons := reasons + [SameDate];
        score := Capped(score + 0.05);
      }
      assert Capped(score) == Capped(NearScore(request, other, fuzz));
      assert reasons == [VendorAndAmount] + if SameDay(request.facts, other) then [SameDate] else [];
      return Some(Match(candidate, Near, TenThousandths(Capped(score)), reasons));
    }
    if sameNumber && Given(request.facts.number) {
      reasons := reasons + [SameNumberOnly];
      assert reasons == [SameNumberOnly];
      return Some(Match(candidate, Near, 0.6, reasons));
    }
    return None;
  }

  /** The first representable day. */
  const FIRST_DAY := 1

  /** The lookback window reaches before the first representable day. */
  predicate WindowOverflows(request: Request) {
    request.lookback.Some? && request.facts.date.Some? &&
    request.facts.date.value - request.lookback.value < FIRST_DAY
  }

  predicate InWindow(request: Request, other: Facts) {
    request.lookback.Some? && request.facts.date.Some? && other.date.Some? ==>
      other.date.value >= request.facts.date.value - request.lookback.value
  }

  function Recent(request: Request, candidates: seq<Candidate>): (r: seq<Candidate>)
    ensures |r| <= |candidates|
    ensures forall c :: c in r <==> c in candidates && InWindow(request, c.facts)
  {
    if candidates == [] then []
    else
      var last := candidates[|candidates| - 1];
      assert candidates == candidates[..|candidates| - 1] + [last];
      Recent(request, candidates[..|candidates| - 1]) + if InWindow(request, last.facts) then [last] else []
  }

  function MatchesOf(request: Request, candidates: seq<Candidate>, fuzz: Fuzz): seq<Match> {
    if candidates == [] then []
    else
      var last := Evaluation(request, candidates[|candidates| - 1], fuzz);
      MatchesOf(request, candidates[..|candidates| - 1], fuzz) + if last.Some? then [last.value] else []
  }

  function ByConfidence(m: Match): Key {
    Key(0, m.confidence)
  }

  predicate Contains(matches: seq<Match>, t: MatchType) {
    exists m :: m in matches && m.matchType == t
  }

  function Detected(request: Request, fuzz: Fuzz): Result<Report> {
    if WindowOverflows(request) then Raised
    else
      var recent := Recent(request, request.candidates);
      var matches := Sorted(MatchesOf(request, recent, fuzz), ByConfidence);
      var skipped := |request.candidates| - |recent|;
      Ok(Report(
           Contains(matches, Exact), Contains(matches, Near),
           if matches == [] then 0.0 else matches[0].confidence,
           matches,
           (if skipped > 0 then [Ignored(skipped)] else []) +
           [if Contains(matches, Exact) then ExactFound else if Contains(matches, Near) then NearFound else NothingFound]))
  }

  /** The candidates within the lookback window. */
  method KeepRecent(request: Request) returns (r: Result<seq<Candidate>>)
    ensures r == if WindowOverflows(request) then Raised else Ok(Recent(request, request.candidates))
  {
    var candidates := request.candidates;
    if request.lookback.None? || request.facts.date.None? {
      NoWindowKeepsAll(request, candidates);
      return Ok(candidates);
    }
    if request.facts.date.value - request.lookback.value < FIRST_DAY { return Raised; }
    var cutoff := request.facts.date.value - request.lookback.value;
    var kept: seq<Candidate> := [];
    for i := 0 to |candidates|
      invariant kept == Recent(request, candidates[..i])
    {
      assert candidates[..i + 1][..i] == candidates[..i];
      var date := candidates[i].facts.date;
      if date.None? || date.value >= cutoff { kept := kept + [candidates[i]]; }
    }
    assert candidates[..|candidates|] == candidates;
    return Ok(kept);
  }

  method EvaluateAll(request: Request, candidates: seq<Candidate>, fuzz: Fuzz) returns (matches: seq<Match>)
    ensures matches == MatchesOf(request, candidates, fuzz)
  {
    hide Evaluation;
    matches := [];
    for i := 0 to |candidates|
      invariant matches == MatchesOf(request, candidates[..i], fuzz)
    {
      assert candidates[..i + 1][..i] == candidates[..i];
      var found := EvaluateCandidate(request, candidates[i], fuzz);
      if found.Some? { matches := matches + [found.value]; }
    }
    assert candidates[..|candidates|] == candidates;
  }

  method DetectDuplicates(request: Request, fuzz: Fuzz) returns (r: Result<Report>)
    ensures r == Detected(request, fuzz)
  {
    hide MatchesOf, Contains, WindowOverflows;
    var notes: seq<Note> := [];
    var recent := KeepRecent(request);
    if recent.Raised? { return Raised; }
    var skipped := |request.candidates| - |recent.value|;
    if skipped > 0 { notes := notes + [Ignored(skipped)]; }
    var matches := EvaluateAll(request, recent.value, fuzz);
    matches := Sorted(matches, ByConfidence);
    var highest := if matches == [] then 0.0 else matches[0].confidence;
    var isDuplicate, isNear := Contains(matches, Exact), Contains(matches, Near);
    if isDuplicate {
      notes := notes + [ExactFound];
    } else if isNear {
      notes := notes + [NearFound];
    } else {
      notes := notes + [NothingFound];
    }
    assert notes == (if skipped > 0 then [Ignored(skipped)] else []) +
                    [if isDuplicate then ExactFound else if isNear then NearFound else NothingFound];
    return Ok(Report(isDuplicate, isNear, highest, matches, notes));
  }

  lemma {:induction false} NoWindowKeepsAll(request: Request, candidates: seq<Candidate>)
    requires request.lookback.None? || request.facts.date.None?
    ensures Recent(request, candidates) == candidates
  {
    if candidates != [] {
      NoWindowKeepsAll(request, candidates[..|candidates| - 1]);
    }
  }

  // The amount comparison.

  /** Comparing amounts is symmetric. */
  lemma ToleranceIsSymmetric(a: Option<real>, b: Option<real>, tolerance: real)
    ensures Closeness(a, b, tolerance) == Closeness(b, a, tolerance)
  {
    if a.Some? && b.Some? && a != b {
      assert Abs(a.value - b.value) == Abs(b.value - a.value);
    }
  }

  lemma ScaledAbs(k: real, x: real, u: real)
    requires k > 0.0 && u == k * x
    ensures Abs(u) == k * Abs(x)
  {
    if x < 0.0 {
      assert k * -x > 0.0;
    } else {
      assert k * x >= 0.0;
    }
  }

  lemma ScaledLarger(k: real, x: real, y: real, u: real, v: real)
    requires k > 0.0 && u == k * x && v == k * y
    ensures Larger(u, v) == k * Larger(x, y)
  {
    if x >= y {
      assert k * (x - y) >= 0.0;
    } else {
      assert k * (y - x) > 0.0;
    }
  }

  lemma QuotientByDefinition(q: real, u: real, v: real)
    requires v > 0.0 && u == q * v
    ensures Quotient(u, v) == q
  {
  }

  lemma ScaledQuotient(k: real, x: real, y: real, u: real, v: real)
    requires k > 0.0 && y > 0.0 && v > 0.0 && u == k * x && v == k * y
    ensures Quotient(u, v) == Quotient(x, y)
  {
    var q := Quotient(x, y);
    assert x == q * y;
    assert u == q * v by {
      assert k * (q * y) == q * (k * y);
    }
    QuotientByDefinition(q, u, v);
  }

  lemma DifferencePctScales(a: real, b: real, c: real, d: real, k: real)
    requires k > 0.0 && a != b && c != d && c == k * a && d == k * b
    ensures DifferencePct(c, d) == DifferencePct(a, b)
  {
    hide Quotient;
    assert c - d == k * (a - b);
    ScaledAbs(k, a, c);
    ScaledAbs(k, b, d);
    ScaledAbs(k, a - b, c - d);
    ScaledLarger(k, Abs(a), Abs(b), Abs(c), Abs(d));
    assert Larger(Abs(a), Abs(b)) > 0.0 && Larger(Abs(c), Abs(d)) > 0.0;
    hide Abs, Larger;
    ScaledQuotient(k, Abs(a - b), Larger(Abs(a), Abs(b)), Abs(c - d), Larger(Abs(c), Abs(d)));
  }

  lemma ClosenessByPct(a: real, b: real, c: real, d: real, tolerance: real)
    requires a != b && c != d && DifferencePct(a, b) == DifferencePct(c, d)
    ensures Closeness(Some(a), Some(b), tolerance) == Closeness(Some(c), Some(d), tolerance)
  {
    hide DifferencePct;
  }

  lemma ClosenessOfEqual(a: real, b: real, tolerance: real)
    requires a == b
    ensures Closeness(Some(a), Some(b), tolerance) == (true, 1.0)
  {
  }

  /** ... and does not depend on the unit of the amounts. */
  lemma ToleranceIsScaleInvariant(a: real, b: real, c: real, d: real, k: real, tolerance: real)
    requires k > 0.0 && c == k * a && d == k * b
    ensures Closeness(Some(c), Some(d), tolerance) == Closeness(Some(a), Some(b), tolerance)
  {
    hide DifferencePct;
    if a == b {
      ClosenessOfEqual(c, d, tolerance);
      ClosenessOfEqual(a, b, tolerance);
    } else {
      ProductsDiffer(k, a, b);
      DifferencePctScales(a, b, c, d, k);
      ClosenessByPct(c, d, a, b, tolerance);
    }
  }

  lemma ProductsDiffer(k: real, a: real, b: real)
    requires k > 0.0 && a != b
    ensures k * a != k * b
  {
    if a > b {
      assert k * (a - b) > 0.0;
    } else {
      assert k * (b - a) > 0.0;
    }
  }

  // Confidences.

  /** An exact match: the same normalised number, from a similar enough vendor. */
  predicate ExactlyMatches(request: Request, other: Facts, fuzz: Fuzz) {
    SameNumber(request.facts, other) && SameVendor(request.facts, other, request.threshold, fuzz)
  }

  lemma TenThousandthsIsMonotone(x: real, y: real)
    requires x <= y
    ensures TenThousandths(x) <= TenThousandths(y)
  {
    Rounding.HalfEvenIsMonotone(10000.0 * x, 10000.0 * y);
  }

  lemma NearScoreIsPositive(request: Request, other: Facts, fuzz: Fuzz)
    requires Similarity(request.facts.vendorName, other.vendorName, fuzz) >= 0.0
    ensures 0.0 <= Capped(NearScore(request, other, fuzz)) <= 1.0
  {
    hide Similarity, Closeness;
  }

  /** Every confidence is a probability, and an exact match has at least 0.9. */
  lemma ConfidenceBounds(request: Request, candidate: Candidate, fuzz: Fuzz)
    requires request.threshold >= 0.0
    ensures var m := Evaluation(request, candidate, fuzz);
            m.Some? ==> 0.0 <= m.value.confidence <= 1.0 && (m.value.matchType == Exact ==> m.value.confidence >= 0.9)
  {
    hide Similarity, SameNumber, TenThousandths, NearScore, Closeness, SameDay;
    Fixpoints();
    var closeness := Closeness(request.facts.amount, candidate.facts.amount, request.tolerance).1;
    TenThousandthsIsMonotone(0.9, Capped(0.9 + 0.1 * closeness));
    TenThousandthsIsMonotone(Capped(0.9 + 0.1 * closeness), 1.0);
    if Similarity(request.facts.vendorName, candidate.facts.vendorName, fuzz) >= 0.0 {
      var score := Capped(NearScore(request, candidate.facts, fuzz));
      NearScoreIsPositive(request, candidate.facts, fuzz);
      TenThousandthsIsMonotone(0.0, score);
      TenThousandthsIsMonotone(score, 1.0);
    }
  }

  lemma Fixpoints()
    ensures TenThousandths(0.0) == 0.0 && TenThousandths(0.9) == 0.9 && TenThousandths(1.0) == 1.0
  {
    Rounding.WholeIsFixed(0);
    Rounding.WholeIsFixed(9000);
    Rounding.WholeIsFixed(10000);
  }

  // What the report says of the set of candidates.

  lemma ExactEvaluation(request: Request, candidate: Candidate, fuzz: Fuzz)
    ensures var m := Evaluation(request, candidate, fuzz);
            m.Some? && m.value.matchType == Exact <==> ExactlyMatches(request, candidate.facts, fuzz)
  {
  }

  lemma {:induction false} MatchesAreEvaluations(request: Request, candidates: seq<Candidate>, fuzz: Fuzz)
    ensures forall m :: m in MatchesOf(request, candidates, fuzz) <==>
              exists c :: c in candidates && Evaluation(request, c, fuzz) == Some(m)
  {
    hide Evaluation;
    if candidates != [] {
      var n := |candidates| - 1;
      MatchesAreEvaluations(request, candidates[..n], fuzz);
      assert candidates == candidates[..n] + [candidates[n]];
    }
  }

  /** The candidate counts: it is within the window and yields this match. */
  predicate Yields(request: Request, c: Candidate, m: Match, fuzz: Fuzz) {
    c in request.candidates && InWindow(request, c.facts) && Evaluation(request, c, fuzz) == Some(m)
  }

  /** The report's flags and highest confidence by the set of candidates alone. */
  lemma ReportBySet(request: Request, fuzz: Fuzz)
    requires Detected(request, fuzz).Ok?
    ensures var r := Detected(request, fuzz).value;
            && (forall m :: m in r.matches <==> exists c :: Yields(request, c, m, fuzz))
            && (r.isDuplicate <==> exists m :: m in r.matches && m.matchType == Exact)
            && (r.isNear <==> exists m :: m in r.matches && m.matchType == Near)
            && (forall m | m in r.matches :: m.confidence <= r.highest)
            && (r.matches != [] ==> exists m :: m in r.matches && m.confidence == r.highest)
  {
    hide Evaluation, InWindow;
    var recent := Recent(request, request.candidates);
    var matches := MatchesOf(request, recent, fuzz);
    var sorted := Sorted(matches, ByConfidence);
    MatchesAreEvaluations(request, recent, fuzz);
    SortedElements(matches, ByConfidence);
    forall m ensures m in sorted <==> exists c :: Yields(request, c, m, fuzz) {
      if m in sorted {
        var c :| c in recent && Evaluation(request, c, fuzz) == Some(m);
        assert Yields(request, c, m, fuzz);
      }
    }
    forall m | m in sorted ensures m.confidence <= sorted[0].confidence {
      var j :| 0 <= j < |sorted| && sorted[j] == m;
      assert j > 0 ==> !Above(ByConfidence(sorted[j]), ByConfidence(sorted[0]));
    }
    if sorted != [] { assert sorted[0] in sorted; }
  }

  /** An exact duplicate is reported exactly when some candidate in the window matches exactly. */
  lemma DuplicateExactly(request: Request, fuzz: Fuzz)
    requires Detected(request, fuzz).Ok?
    ensures Detected(request, fuzz).value.isDuplicate <==>
            exists c :: c in request.candidates && InWindow(request, c.facts) && ExactlyMatches(request, c.facts, fuzz)
  {
    ReportBySet(request, fuzz);
    var r := Detected(request, fuzz).value;
    hide Evaluation, InWindow, ExactlyMatches, Detected;
    if r.isDuplicate {
      var m :| m in r.matches && m.matchType == Exact;
      var c :| Yields(request, c, m, fuzz);
      ExactEvaluation(request, c, fuzz);
    }
    if c :| c in request.candidates && InWindow(request, c.facts) && ExactlyMatches(request, c.facts, fuzz) {
      ExactEvaluation(request, c, fuzz);
      var m := Evaluation(request, c, fuzz).value;
      assert Yields(request, c, m, fuzz);
      assert m in r.matches;
    }
  }

  /** `wide` asks about the same invoice with at least the candidates, the window and the tolerance. */
  ghost predicate Widens(narrow: Request, wide: Request) {
    && wide.facts == narrow.facts && wide.threshold == narrow.threshold
    && (forall c | c in narrow.candidates :: c in wide.candidates)
    && narrow.tolerance <= wide.tolerance
    && (wide.lookback.Some? ==> narrow.lookback.Some? && narrow.lookback.value <= wide.lookback.value)
  }

  /** A wider tolerance keeps every match, its kind and its confidence. */
  lemma EvaluationWidens(narrow: Request, wide: Request, c: Candidate, fuzz: Fuzz)
    requires Widens(narrow, wide) && Evaluation(narrow, c, fuzz).Some?
    ensures var m, w := Evaluation(narrow, c, fuzz).value, Evaluation(wide, c, fuzz);
            w.Some? && w.value.matchType == m.matchType && w.value.confidence == m.confidence
  {
    hide SameNumber, Similarity, DifferencePct, TenThousandths;
  }

  lemma WindowGrows(narrow: Request, wide: Request)
    requires Widens(narrow, wide)
    ensures forall f | InWindow(narrow, f) :: InWindow(wide, f)
  {
  }

  /** Flags and highest confidence never decrease when candidates are added or the window or tolerance grows. */
  lemma DetectionIsMonotone(narrow: Request, wide: Request, fuzz: Fuzz)
    requires Widens(narrow, wide) && narrow.threshold >= 0.0
    requires Detected(narrow, fuzz).Ok? && Detected(wide, fuzz).Ok?
    ensures var n, w := Detected(narrow, fuzz).value, Detected(wide, fuzz).value;
            && (n.isDuplicate ==> w.isDuplicate)
            && (n.isNear ==> w.isNear)
            && n.highest <= w.highest
  {
    ReportBySet(narrow, fuzz);
    ReportBySet(wide, fuzz);
    var n, w := Detected(narrow, fuzz).value, Detected(wide, fuzz).value;
    assert n.matches == [] ==> n.highest == 0.0;
    assert w.matches == [] ==> w.highest == 0.0;
    hide Evaluation, Detected;
    WindowGrows(narrow, wide);
    hide InWindow;
    forall m | m in n.matches
      ensures exists v :: v in w.matches && v.matchType == m.matchType && v.confidence == m.confidence
    {
      var c :| Yields(narrow, c, m, fuzz);
      EvaluationWidens(narrow, wide, c, fuzz);
      assert Yields(wide, c, Evaluation(wide, c, fuzz).value, fuzz);
    }
    if w.matches != [] {
      var m :| m in w.matches && m.confidence == w.highest;
      var c :| Yields(wide, c, m, fuzz);
      ConfidenceBounds(wide, c, fuzz);
    }
  }

  /** Candidate order and repetition do not matter. */
  lemma DetectionIgnoresOrder(request: Request, candidates: seq<Candidate>, fuzz: Fuzz)
    requires request.threshold >= 0.0
    requires forall c :: c in candidates <==> c in request.candidates
    ensures var other := Detected(request.(candidates := candidates), fuzz);
            var r := Detected(request, fuzz);
            && (r.Ok? <==> other.Ok?)
            && (r.Ok? ==> r.value.isDuplicate == other.value.isDuplicate && r.value.isNear == other.value.isNear
                          && r.value.highest == other.value.highest)
  {
    var permuted := request.(candidates := candidates);
    if Detected(request, fuzz).Ok? {
      DetectionIsMonotone(request, permuted, fuzz);
      DetectionIsMonotone(permuted, request, fuzz);
    }
  }
}
