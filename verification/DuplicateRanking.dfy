/** Whether an exact match leads the report of the duplicate detector. */
module DuplicateRanking {
  import opened JsonValues
  import opened DuplicateDetector
  import opened Parsing

  function ExactConfidence(request: Request, other: Facts): real {
    TenThousandths(Capped(0.9 + 0.1 * Closeness(request.facts.amount, other.amount, request.tolerance).1))
  }

  function NearConfidence(request: Request, other: Facts, fuzz: Fuzz): real {
    TenThousandths(Capped(NearScore(request, other, fuzz)))
  }

  /** A near match by vendor and amount. */
  predicate NearlyMatches(request: Request, other: Facts, fuzz: Fuzz) {
    SameVendor(request.facts, other, request.threshold, fuzz) && !SameNumber(request.facts, other) &&
    Closeness(request.facts.amount, other.amount, request.tolerance).0
  }

  predicate Considered(request: Request, c: Candidate) {
    c in request.candidates && InWindow(request, c.facts)
  }

  lemma EvaluationConfidence(request: Request, c: Candidate, fuzz: Fuzz)
    ensures var m := Evaluation(request, c, fuzz);
            && (m.Some? && m.value.matchType == Exact <==> ExactlyMatches(request, c.facts, fuzz))
            && (ExactlyMatches(request, c.facts, fuzz) ==> m.value.confidence == ExactConfidence(request, c.facts))
            && (NearlyMatches(request, c.facts, fuzz) ==> m.Some? && m.value.confidence == NearConfidence(request, c.facts, fuzz))
            && (m.Some? && m.value.matchType == Near && !NearlyMatches(request, c.facts, fuzz) ==> m.value.confidence == 0.6)
  {
    hide Similarity, SameNumber, TenThousandths, NearScore, Closeness, SameDay;
  }

  lemma ExactConfidenceFloor(request: Request, other: Facts)
    ensures ExactConfidence(request, other) >= 0.9
  {
    hide TenThousandths, Closeness;
    Fixpoints();
    TenThousandthsIsMonotone(0.9, Capped(0.9 + 0.1 * Closeness(request.facts.amount, other.amount, request.tolerance).1));
  }

  /** Some exact match has the highest confidence of the report. */
  ghost predicate ExactLeads(report: Report) {
    exists m :: m in report.matches && m.matchType == Exact && m.confidence == report.highest
  }

  /** No near match by vendor and amount is more confident than an exact match with this candidate. */
  predicate Unbeaten(request: Request, c: Candidate, fuzz: Fuzz) {
    forall o | o in request.candidates && InWindow(request, o.facts) && NearlyMatches(request, o.facts, fuzz) ::
      ExactConfidence(request, c.facts) >= NearConfidence(request, o.facts, fuzz)
  }

  lemma LeaderIsUnbeaten(request: Request, m: Match, fuzz: Fuzz) returns (c: Candidate)
    requires Detected(request, fuzz).Ok?
    requires var r := Detected(request, fuzz).value; m in r.matches && m.matchType == Exact && m.confidence == r.highest
    ensures Considered(request, c) && ExactlyMatches(request, c.facts, fuzz) && Unbeaten(request, c, fuzz)
  {
    ReportBySet(request, fuzz);
    hide Evaluation, InWindow, ExactlyMatches, NearlyMatches, Detected, ExactConfidence, NearConfidence;
    c :| Yields(request, c, m, fuzz);
    EvaluationConfidence(request, c, fuzz);
    forall o | o in request.candidates && InWindow(request, o.facts) && NearlyMatches(request, o.facts, fuzz)
      ensures ExactConfidence(request, c.facts) >= NearConfidence(request, o.facts, fuzz)
    {
      EvaluationConfidence(request, o, fuzz);
      assert Yields(request, o, Evaluation(request, o, fuzz).value, fuzz);
    }
  }

  lemma UnbeatenLeads(request: Request, c: Candidate, fuzz: Fuzz)
    requires Detected(request, fuzz).Ok?
    requires Considered(request, c) && ExactlyMatches(request, c.facts, fuzz) && Unbeaten(request, c, fuzz)
    ensures ExactLeads(Detected(request, fuzz).value)
  {
    ReportBySet(request, fuzz);
    var r := Detected(request, fuzz).value;
    hide Evaluation, InWindow, ExactlyMatches, NearlyMatches, Detected, ExactConfidence, NearConfidence;
    EvaluationConfidence(request, c, fuzz);
    ExactConfidenceFloor(request, c.facts);
    var m := Evaluation(request, c, fuzz).value;
    assert Yields(request, c, m, fuzz);
    assert m in r.matches;
    var h :| h in r.matches && h.confidence == r.highest;
    var o :| Yields(request, o, h, fuzz);
    EvaluationConfidence(request, o, fuzz);
  }

  /** An exact match has the highest confidence exactly if some exact candidate in the window is at least as
      confident as every other one of the same vendor and amount. */
  lemma ExactLeadsExactly(request: Request, fuzz: Fuzz)
    requires Detected(request, fuzz).Ok?
    ensures ExactLeads(Detected(request, fuzz).value) <==>
            exists c :: Considered(request, c) && ExactlyMatches(request, c.facts, fuzz) && Unbeaten(request, c, fuzz)
  {
    var r := Detected(request, fuzz).value;
    hide Detected, ExactlyMatches, Unbeaten, Considered;
    if ExactLeads(r) {
      var m :| m in r.matches && m.matchType == Exact && m.confidence == r.highest;
      var c := LeaderIsUnbeaten(request, m, fuzz);
    }
    if c :| Considered(request, c) && ExactlyMatches(request, c.facts, fuzz) && Unbeaten(request, c, fuzz) {
      UnbeatenLeads(request, c, fuzz);
    }
  }

  const NAME := "zed"

  lemma NameIsNormal()
    ensures NormalizeVendorName(NAME) == NAME
  {
    CanonicalIsFixed(NAME);
    WordsOfWord(NAME, "");
    NormalFormByWords(NAME);
    hide NormalizeVendorName, IsSuffix;
    assert Words(Folded(NAME)) == [NAME];
    assert Significant([NAME]) == [] || Significant([NAME]) == [NAME];
  }

  const ASKED := Facts(Some(NAME), Some("1"), Some(100.0), None)
  const SAME_NUMBER := Candidate(0, Facts(Some(NAME), Some("1"), None, None))
  const SAME_AMOUNT := Candidate(1, Facts(Some(NAME), Some("2"), Some(100.0), None))
  const OUTRANKED := Request(ASKED, [SAME_NUMBER, SAME_AMOUNT], 5.0, 85.0, None)

  lemma NumbersDiffer()
    ensures SameNumber(ASKED, SAME_NUMBER.facts) && !SameNumber(ASKED, SAME_AMOUNT.facts)
  {
    assert NormalizeInvoiceNumber("1") == "1" && NormalizeInvoiceNumber("2") == "2";
  }

  lemma OutrankedConfidences(fuzz: Fuzz)
    ensures ExactlyMatches(OUTRANKED, SAME_NUMBER.facts, fuzz) && ExactConfidence(OUTRANKED, SAME_NUMBER.facts) == 0.9
    ensures NearlyMatches(OUTRANKED, SAME_AMOUNT.facts, fuzz) && NearConfidence(OUTRANKED, SAME_AMOUNT.facts, fuzz) == 1.0
    ensures !ExactlyMatches(OUTRANKED, SAME_AMOUNT.facts, fuzz)
  {
    NameIsNormal();
    NumbersDiffer();
    Fixpoints();
    hide TenThousandths, SameNumber, NormalizeVendorName;
  }

  lemma LeadIsHighest(request: Request, fuzz: Fuzz)
    ensures Detected(request, fuzz).Ok? <==> !WindowOverflows(request)
    ensures Detected(request, fuzz).Ok? && Detected(request, fuzz).value.matches != [] ==>
              Detected(request, fuzz).value.highest == Detected(request, fuzz).value.matches[0].confidence
  {
    hide MatchesOf, Contains, Recent, WindowOverflows;
  }

  lemma UnledReport(request: Request, fuzz: Fuzz)
    requires Detected(request, fuzz).Ok?
    requires var r := Detected(request, fuzz).value; r.isDuplicate && !ExactLeads(r)
    ensures var r := Detected(request, fuzz).value; r.matches != [] && r.matches[0].matchType == Near
  {
    ReportBySet(request, fuzz);
    LeadIsHighest(request, fuzz);
    hide Detected, Yields;
    var r := Detected(request, fuzz).value;
    assert r.matches[0] in r.matches;
  }

  lemma BeatenBySameAmount(c: Candidate, fuzz: Fuzz)
    requires Considered(OUTRANKED, c) && ExactlyMatches(OUTRANKED, c.facts, fuzz)
    ensures !Unbeaten(OUTRANKED, c, fuzz)
  {
    OutrankedConfidences(fuzz);
    hide ExactlyMatches, NearlyMatches, ExactConfidence, NearConfidence;
    assert c == SAME_NUMBER;
    assert SAME_AMOUNT in OUTRANKED.candidates;
  }

  /** An input on which it does not: an exact duplicate is found, and yet the report begins with a near match,
      whatever the fuzzy scores. The exact candidate has no amount, and the other one the same amount. */
  lemma NearMatchLeads(fuzz: Fuzz)
    ensures var r := Detected(OUTRANKED, fuzz);
            r.Ok? && r.value.isDuplicate && r.value.matches != [] && r.value.matches[0].matchType == Near
  {
    OutrankedConfidences(fuzz);
    assert Considered(OUTRANKED, SAME_NUMBER) && Considered(OUTRANKED, SAME_AMOUNT);
    assert !WindowOverflows(OUTRANKED);
    hide *;
    LeadIsHighest(OUTRANKED, fuzz);
    DuplicateExactly(OUTRANKED, fuzz);
    ExactLeadsExactly(OUTRANKED, fuzz);
    forall c | Considered(OUTRANKED, c) && ExactlyMatches(OUTRANKED, c.facts, fuzz)
      ensures !Unbeaten(OUTRANKED, c, fuzz)
    {
      BeatenBySameAmount(c, fuzz);
    }
    UnledReport(OUTRANKED, fuzz);
  }
}
