/** What the pipeline compares an invoice with, and what the duplicate check finds of the stored invoices. */
module PipelineChecks {
  import opened JsonValues
  import opened LlmDecision
  import opened Pipeline
  import opened PipelineSafety
  import opened PipelineTheorems
  import Calendar
  import D = DuplicateDetector
  import M = DuplicateMeasures
  import V = VendorPolicies

  /** How many invoices other than `id` are newer than `x`, among those below number `k`. */
  function Newer(invoices: map<nat, Invoice>, k: nat, id: nat, x: nat): nat {
    if k <= x + 1 then 0 else Newer(invoices, k - 1, id, x) + if k - 1 in invoices && k - 1 != id then 1 else 0
  }

  /** The candidates are exactly the most recent other invoices: those with fewer than `limit` newer ones. */
  lemma {:induction false} CandidatesAreMostRecent(invoices: map<nat, Invoice>, k: nat, id: nat, limit: nat, x: nat)
    requires x in invoices && x != id && x < k
    ensures D.Candidate(x, FactsOf(invoices[x].header.rawVendor, invoices[x].header)) in Candidates(invoices, k, id, limit) <==>
            Newer(invoices, k, id, x) < limit
    decreases k
  {
    hide FactsOf;
    if limit > 0 && x < k - 1 {
      if k - 1 in invoices && k - 1 != id {
        CandidatesAreMostRecent(invoices, k - 1, id, limit - 1, x);
      } else {
        CandidatesAreMostRecent(invoices, k - 1, id, limit, x);
      }
    }
  }

  lemma {:induction false} CandidatesAreInvoices(invoices: map<nat, Invoice>, k: nat, id: nat, limit: nat)
    ensures forall c | c in Candidates(invoices, k, id, limit) ::
              c.id in invoices && c.id != id && c.id < k
                    && c == D.Candidate(c.id, FactsOf(invoices[c.id].header.rawVendor, invoices[c.id].header))
    ensures |Candidates(invoices, k, id, limit)| <= limit
    decreases k
  {
    hide FactsOf;
    if k > 0 && limit > 0 {
      CandidatesAreInvoices(invoices, k - 1, id, limit - 1);
      CandidatesAreInvoices(invoices, k - 1, id, limit);
    }
  }

  /** The stored invoice `x` is compared with: it is another one, among the most recent. */
  predicate Compared(config: Config, s: State, id: nat, x: nat) {
    x in s.invoices && x != id && x < s.nextInvoice && Newer(s.invoices, s.nextInvoice, id, x) < config.limit
  }

  lemma ComparedIsCandidate(config: Config, s: State, id: nat, x: nat)
    requires Compared(config, s, id, x)
    ensures D.Candidate(x, StoredFacts(s, x)) in Candidates(s.invoices, s.nextInvoice, id, config.limit)
  {
    CandidatesAreMostRecent(s.invoices, s.nextInvoice, id, config.limit, x);
  }

  lemma CandidateIsCompared(config: Config, s: State, id: nat, c: D.Candidate)
    requires c in Candidates(s.invoices, s.nextInvoice, id, config.limit)
    ensures Compared(config, s, id, c.id) && c.facts == StoredFacts(s, c.id)
  {
    CandidatesAreInvoices(s.invoices, s.nextInvoice, id, config.limit);
    CandidatesAreMostRecent(s.invoices, s.nextInvoice, id, config.limit, c.id);
  }

  /** The names agree: one normal form, or a fuzzy score of at least the threshold. */
  predicate SameName(config: Config, a: Option<string>, b: Option<string>) {
    D.Similarity(a, b, config.fuzz) >= MATCH_THRESHOLD
  }

  predicate SameAmount(a: Option<real>, b: Option<real>, tolerance: real) {
    a.Some? && b.Some? && (a == b || 100.0 * D.Abs(a.value - b.value) <= tolerance * M.Base(a.value, b.value))
  }

  /** `x` is dated at most `lookback` days before the invoice, as far as both are dated. */
  predicate IsRecent(header: Header, other: Header, lookback: nat) {
    header.date.Some? && other.date.Some? ==>
      Calendar.Ordinal(header.date.value) - Calendar.Ordinal(other.date.value) <= lookback
  }

  predicate SameNumbers(header: Header, other: Header) {
    D.SameNumber(FactsOf(None, header), FactsOf(None, other))
  }

  /** What the duplicate check of an invoice finds, in terms of the stored invoices, the policy that governs and the name
      resolved to: an exact duplicate has the same number and vendor; a near one has the same number under another
      vendor, or another number from the vendor on an amount within the tolerance. */
  lemma ChecksExactly(config: Config, s: State, id: nat, name: Option<string>, rules: V.Rules)
    requires id in s.invoices && D.Detected(DuplicateRequest(config, s, id, name, rules), config.fuzz).Ok?
    ensures var report := D.Detected(DuplicateRequest(config, s, id, name, rules), config.fuzz).value;
            var header := s.invoices[id].header;
            var called := if name.Some? && name.value != "" then name else header.rawVendor;
            && (report.isDuplicate <==>
                exists x :: Compared(config, s, id, x) && IsDuplicateOf(config, s, header, called, rules, x))
            && (report.isNear <==> exists x :: Compared(config, s, id, x) && IsNear(config, s, header, called, rules, x))
  {
    var request := DuplicateRequest(config, s, id, name, rules);
    var header := s.invoices[id].header;
    var called := if name.Some? && name.value != "" then name else header.rawVendor;
    D.DuplicateExactly(request, config.fuzz);
    M.NearExactly(request, config.fuzz);
    hide D.Detected, Compared, IsDuplicateOf, IsNear, Candidates, D.ExactlyMatches, M.NearlyDuplicates, D.InWindow;
    forall x | Compared(config, s, id, x)
      ensures D.Candidate(x, StoredFacts(s, x)) in request.candidates
      ensures D.InWindow(request, StoredFacts(s, x)) && D.ExactlyMatches(request, StoredFacts(s, x), config.fuzz) <==>
              IsDuplicateOf(config, s, header, called, rules, x)
      ensures D.InWindow(request, StoredFacts(s, x)) && M.NearlyDuplicates(request, StoredFacts(s, x), config.fuzz) <==>
              IsNear(config, s, header, called, rules, x)
    {
      ComparedIsCandidate(config, s, id, x);
      assert x in s.invoices by { ComparedIsStored(config, s, id, x); }
      StoredMatches(config, s, id, name, rules, x);
    }
    forall c | c in request.candidates ensures Compared(config, s, id, c.id) && c.facts == StoredFacts(s, c.id) {
      CandidateIsCompared(config, s, id, c);
    }
  }

  lemma ComparedIsStored(config: Config, s: State, id: nat, x: nat)
    requires Compared(config, s, id, x)
    ensures x in s.invoices
  {
  }

  predicate IsDuplicateOf(config: Config, s: State, header: Header, called: Option<string>, rules: V.Rules, x: nat) {
    && x in s.invoices && IsRecent(header, s.invoices[x].header, rules.lookback)
    && SameNumbers(header, s.invoices[x].header) && SameName(config, called, s.invoices[x].header.rawVendor)
  }

  predicate IsNear(config: Config, s: State, header: Header, called: Option<string>, rules: V.Rules, x: nat) {
    && x in s.invoices && IsRecent(header, s.invoices[x].header, rules.lookback)
    && if SameNumbers(header, s.invoices[x].header) then !SameName(config, called, s.invoices[x].header.rawVendor)
       else SameName(config, called, s.invoices[x].header.rawVendor)
             && SameAmount(header.amount, s.invoices[x].header.amount, rules.tolerance)
  }

  lemma StoredMatches(config: Config, s: State, id: nat, name: Option<string>, rules: V.Rules, x: nat)
    requires id in s.invoices && x in s.invoices
    ensures var request := DuplicateRequest(config, s, id, name, rules);
            var header := s.invoices[id].header;
            var called := if name.Some? && name.value != "" then name else header.rawVendor;
            && (D.InWindow(request, StoredFacts(s, x)) && D.ExactlyMatches(request, StoredFacts(s, x), config.fuzz) <==>
                IsDuplicateOf(config, s, header, called, rules, x))
            && (D.InWindow(request, StoredFacts(s, x)) && M.NearlyDuplicates(request, StoredFacts(s, x), config.fuzz) <==>
                IsNear(config, s, header, called, rules, x))
  {
    hide D.Similarity, D.Closeness, Calendar.Ordinal, Candidates, M.Base, D.Abs;
    M.WithinToleranceExactly(s.invoices[id].header.amount, s.invoices[x].header.amount, rules.tolerance);
  }

  /** What the check finds is recorded in the trail, with the lookback of the policy, and decides: an exact duplicate is
      rejected. */
  lemma CheckIsRecorded(config: Config, s: State, id: nat, call: Call)
    requires id in s.invoices && Processed(config, s, id, call).Ok?
    ensures var r := Resolve(config, s, s.invoices[id], call);
            && r.Ok? && RulesFor(r.value.policies, r.value.vendorId).Ok?
            && var rules := RulesFor(r.value.policies, r.value.vendorId).value;
               var report := D.Detected(DuplicateRequest(config, s, id, r.value.name, rules), config.fuzz);
               && report.Ok?
               && DuplicatesChecked(report.value.isDuplicate, report.value.isNear, rules.lookback)
                  in Processed(config, s, id, call).value.invoices[id].events
  {
    hide Resolve, RulesFor, D.Detected, DuplicateRequest, DueFrom, Decide;
    var r := Resolve(config, s, s.invoices[id], call).value;
    var f := FindingsFor(config, s, id, r).value;
    assert DuplicatesChecked(f.isDuplicate, f.isNear, f.lookback) == ChecksOf(f)[1];
  }
}
