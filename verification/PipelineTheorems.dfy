/** Approvals, onboarding, failures and policies over every serial run of the pipeline. */
module PipelineTheorems {
  import opened JsonValues
  import opened Calendar
  import opened LlmDecision
  import opened Pipeline
  import opened PipelineSafety
  import D = DuplicateDetector
  import N = VendorNormaliser
  import P = Parsing
  import PaymentTerms
  import T = TermsParser
  import Text
  import V = VendorPolicies

  // No two matching invoices are both approved.

  /** The name under which the invoice was last compared with others, by its audit trail. */
  function JudgedName(invoice: Invoice): Option<string> {
    NameFor(LastName(invoice.events), invoice.header)
  }

  predicate Within(facts: D.Facts, other: D.Facts, days: nat) {
    facts.date.Some? && other.date.Some? ==> other.date.value >= facts.date.value - days
  }

  function JudgedFacts(s: State, y: nat): D.Facts
    requires y in s.invoices
  {
    FactsOf(JudgedName(s.invoices[y]), s.invoices[y].header)
  }

  function StoredFacts(s: State, x: nat): D.Facts
    requires x in s.invoices
  {
    FactsOf(s.invoices[x].header.rawVendor, s.invoices[x].header)
  }

  predicate MatchesExactly(config: Config, facts: D.Facts, other: D.Facts) {
    D.SameNumber(facts, other) && D.SameVendor(facts, other, MATCH_THRESHOLD, config.fuzz)
  }

  /** The stored invoice `x` lies inside the lookback that `y` was last judged with. */
  predicate InWindowOf(s: State, y: nat, x: nat)
    requires x in s.invoices && y in s.invoices
  {
    var lookback := LastLookback(s.invoices[y].events);
    lookback.Some? && Within(JudgedFacts(s, y), StoredFacts(s, x), lookback.value)
  }

  /** Invoice `y`, as it was judged, matches the stored invoice `x` exactly, and `x` lies inside its lookback
      and among the most recent invoices. */
  predicate Flags(config: Config, s: State, y: nat, x: nat)
    requires x in s.invoices && y in s.invoices
  {
    && MatchesExactly(config, JudgedFacts(s, y), StoredFacts(s, x))
    && InWindowOf(s, y, x)
    && s.nextInvoice - x <= config.limit
  }

  predicate IsApproved(s: State, x: nat) {
    x in s.invoices && s.invoices[x].recommended == Some(AutoApprove)
  }

  /** No two invoices that the pipeline approved match each other exactly. */
  ghost predicate Guarded(config: Config, s: State) {
    forall x, y | x != y && IsApproved(s, x) && IsApproved(s, y) :: !(Flags(config, s, x, y) && Flags(config, s, y, x))
  }

  lemma {:induction false} RecentIsCandidate(invoices: map<nat, Invoice>, k: nat, id: nat, limit: nat, x: nat)
    requires x in invoices && x != id && x < k && k - x <= limit
    ensures D.Candidate(x, FactsOf(invoices[x].header.rawVendor, invoices[x].header)) in Candidates(invoices, k, id, limit)
  {
    if x < k - 1 {
      if k - 1 in invoices && k - 1 != id {
        RecentIsCandidate(invoices, k - 1, id, limit - 1, x);
      } else {
        RecentIsCandidate(invoices, k - 1, id, limit, x);
      }
    }
  }

  /** A matching recent invoice is found by the duplicate check. */
  lemma FlaggedIsFound(config: Config, s: State, s': State, id: nat, name: Option<string>, rules: V.Rules, x: nat)
    requires id in s.invoices && x in s.invoices && x != id && x < s.nextInvoice && id in s'.invoices && x in s'.invoices
    requires s'.invoices[x].header == s.invoices[x].header && s'.invoices[id].header == s.invoices[id].header
    requires JudgedName(s'.invoices[id]) == NameFor(name, s.invoices[id].header)
    requires s'.nextInvoice == s.nextInvoice && LastLookback(s'.invoices[id].events) == Some(rules.lookback)
    requires Flags(config, s', id, x)
    requires D.Detected(DuplicateRequest(config, s, id, name, rules), config.fuzz).Ok?
    ensures D.Detected(DuplicateRequest(config, s, id, name, rules), config.fuzz).value.isDuplicate
  {
    var request := DuplicateRequest(config, s, id, name, rules);
    D.DuplicateExactly(request, config.fuzz);
    hide D.Detected, D.SameNumber, D.SameVendor, FactsOf, JudgedName, NameFor;
    RecentIsCandidate(s.invoices, s.nextInvoice, id, config.limit, x);
    var c := D.Candidate(x, StoredFacts(s, x));
    assert c in request.candidates;
    assert D.ExactlyMatches(request, c.facts, config.fuzz);
    assert Within(request.facts, c.facts, rules.lookback);
    assert D.InWindow(request, c.facts);
  }

  /** An invoice that is approved matches no recent invoice exactly. */
  lemma ApprovedMatchesNone(config: Config, s: State, id: nat, call: Call, x: nat)
    requires Consistent(s) && SameEntries(call.scan, s.vendors) && id in s.invoices && Processed(config, s, id, call).Ok?
    requires x in s.invoices && x != id
    requires IsApproved(Processed(config, s, id, call).value, id)
    ensures !Flags(config, Processed(config, s, id, call).value, id, x)
  {
    var s' := Processed(config, s, id, call).value;
    var r := Resolve(config, s, s.invoices[id], call).value;
    var rules := RulesFor(r.policies, r.vendorId).value;
    ProcessedJudges(config, s, id, call);
    hide Resolve, D.Detected, Processed, Flags, DuplicateRequest, JudgedName;
    if Flags(config, s', id, x) { FlaggedIsFound(config, s, s', id, r.name, rules, x); }
  }

  /** What a successful processing leaves of the invoice, in terms of the steps. */
  lemma ProcessedJudges(config: Config, s: State, id: nat, call: Call)
    requires Consistent(s) && SameEntries(call.scan, s.vendors) && id in s.invoices && Processed(config, s, id, call).Ok?
    ensures var s' := Processed(config, s, id, call).value;
            var r := Resolve(config, s, s.invoices[id], call);
            && r.Ok? && RulesFor(r.value.policies, r.value.vendorId).Ok?
            && var rules := RulesFor(r.value.policies, r.value.vendorId).value;
               var report := D.Detected(DuplicateRequest(config, s, id, r.value.name, rules), config.fuzz);
               && report.Ok?
               && (report.value.isDuplicate ==> !IsApproved(s', id))
               && id in s'.invoices
               && JudgedName(s'.invoices[id]) == NameFor(r.value.name, s.invoices[id].header)
               && LastLookback(s'.invoices[id].events) == Some(rules.lookback)
               && s'.invoices[id].header == s.invoices[id].header
               && (forall i | i != id :: i in s.invoices <==> i in s'.invoices)
               && (forall i | i != id && i in s.invoices :: s'.invoices[i] == s.invoices[i])
               && s'.policies == r.value.policies && s'.vendors == r.value.vendors && s'.nextInvoice == s.nextInvoice
  {
    hide D.Detected, FactsOf, EventsOf, Resolve, NameFor, Audited, V.WellVersioned, VendorsConsistent, DuplicateRequest,
      RulesFor, DueFrom;
    var invoice := s.invoices[id];
    ResolutionIsConsistent(config, s, invoice, call);
    var r := Resolve(config, s, invoice, call).value;
    var f := FindingsFor(config, s, id, r).value;
    var decision := Decide(f.isDuplicate, if r.vendorId.Some? then call.retrieved else 0, call.answer).value.decision;
    JudgedIsAudited(invoice, r, f, decision);
  }

  /** A match that is in force after a request was in force before it. */
  lemma FlagsShrink(config: Config, s: State, s': State, y: nat, x: nat)
    requires x in s.invoices && y in s.invoices && x in s'.invoices && y in s'.invoices
    requires s'.invoices[x].header == s.invoices[x].header && s'.invoices[y].header == s.invoices[y].header
    requires JudgedName(s'.invoices[y]) == JudgedName(s.invoices[y])
    requires LastLookback(s'.invoices[y].events) == LastLookback(s.invoices[y].events)
    requires s.nextInvoice <= s'.nextInvoice
    requires Flags(config, s', y, x)
    ensures Flags(config, s, y, x)
  {
    hide MatchesExactly, JudgedName, FactsOf;
  }

  /** Everything but the judged invoice stays as it was. */
  ghost predicate Unchanged(s: State, s': State, i: nat) {
    i in s.invoices && i in s'.invoices && s'.invoices[i].header == s.invoices[i].header &&
    JudgedName(s'.invoices[i]) == JudgedName(s.invoices[i]) &&
    LastLookback(s'.invoices[i].events) == LastLookback(s.invoices[i].events) &&
    s'.invoices[i].recommended == s.invoices[i].recommended
  }

  /** Requests that judge nothing keep the guarantee. */
  lemma UnjudgedKeepsGuard(config: Config, s: State, s': State)
    requires Guarded(config, s) && s.nextInvoice <= s'.nextInvoice
    requires forall i | IsApproved(s', i) :: Unchanged(s, s', i)
    ensures Guarded(config, s')
  {
    hide Flags, JudgedName;
    forall x, y | x != y && IsApproved(s', x) && IsApproved(s', y)
      ensures !(Flags(config, s', x, y) && Flags(config, s', y, x))
    {
      assert IsApproved(s, x) && IsApproved(s, y);
      if Flags(config, s', x, y) { FlagsShrink(config, s, s', x, y); }
      if Flags(config, s', y, x) { FlagsShrink(config, s, s', y, x); }
    }
  }

  lemma ProcessedKeepsGuard(config: Config, s: State, id: nat, call: Call)
    requires Consistent(s) && SameEntries(call.scan, s.vendors) && Guarded(config, s)
    requires id in s.invoices && Processed(config, s, id, call).Ok?
    ensures Guarded(config, Processed(config, s, id, call).value)
  {
    var s' := Processed(config, s, id, call).value;
    ProcessedJudges(config, s, id, call);
    hide Flags, JudgedName, Processed, Consistent, D.Detected, RulesFor, Resolve;
    forall x, y | x != y && IsApproved(s', x) && IsApproved(s', y)
      ensures !(Flags(config, s', x, y) && Flags(config, s', y, x))
    {
      if y == id {
        ApprovedMatchesNone(config, s, id, call, x);
      } else if x == id {
        ApprovedMatchesNone(config, s, id, call, y);
      } else {
        assert IsApproved(s, x) && IsApproved(s, y);
        if Flags(config, s', x, y) { FlagsShrink(config, s, s', x, y); }
        if Flags(config, s', y, x) { FlagsShrink(config, s, s', y, x); }
      }
    }
  }

  lemma RespondKeepsGuard(config: Config, s: State, request: Request)
    requires Consistent(s) && Admissible(s, request) && Guarded(config, s)
    ensures Guarded(config, Respond(config, s, request).0)
  {
    hide Processed, Consistent, Guarded, Text.Strip, V.WithNewVersion, IsKnownName, LastName, LastLookback, NameFor, IsTaken,
      Edited;
    var s' := Respond(config, s, request).0;
    match request
    case Create(_, _, _) => UnjudgedKeepsGuard(config, s, s');
    case Ingest(_, _) => UnjudgedKeepsGuard(config, s, s');
    case ProcessNew(header, dueDate, call) =>
      var s1 := Added(s, header, None, dueDate, Extracted);
      UnjudgedKeepsGuard(config, s, s1);
      AddedIsConsistent(s, header, None, dueDate, Extracted);
      if Processed(config, s1, s.nextInvoice, call).Ok? { ProcessedKeepsGuard(config, s1, s.nextInvoice, call); }
    case Process(id, call) =>
      if id in s.invoices && Processed(config, s, id, call).Ok? { ProcessedKeepsGuard(config, s, id, call); }
    case SetStatus(id, target) =>
      if id in s.invoices { ReplayOne(Received, s.invoices[id].events, StatusChanged(s.invoices[id].status, target)); }
      UnjudgedKeepsGuard(config, s, s');
    case Delete(_) => UnjudgedKeepsGuard(config, s, s');
    case CreateVendor(_, _, _) => UnjudgedKeepsGuard(config, s, s');
    case UpdateVendor(_, _, _) => UnjudgedKeepsGuard(config, s, s');
    case CreatePolicy(_, _) => UnjudgedKeepsGuard(config, s, s');
  }

  /** In every run, whatever the model answers, however often invoices are reprocessed and however vendors
      are renamed, no two invoices that match each other exactly - under the names they were last judged by,
      each inside the lookback the other was judged with, and inside the candidate limit - are both approved
      by the pipeline. */
  lemma {:induction false} NoMatchingApprovals(config: Config, requests: seq<Request>)
    requires IsRun(config, requests)
    ensures Guarded(config, Run(config, requests))
  {
    hide Respond, Consistent, Flags;
    if requests != [] {
      var front := requests[..|requests| - 1];
      NoMatchingApprovals(config, front);
      ReachableIsConsistent(config, front);
      RespondKeepsGuard(config, Run(config, front), requests[|requests| - 1]);
    }
  }

  /** The invoice's vendor name and the name it was judged under have this normal form, and it is recent. */
  predicate Bears(config: Config, s: State, i: nat, normal: string) {
    && i in s.invoices && s.nextInvoice - i <= config.limit
    && D.Given(s.invoices[i].header.rawVendor) && P.NormalizeVendorName(s.invoices[i].header.rawVendor.value) == normal
    && D.Given(JudgedName(s.invoices[i])) && P.NormalizeVendorName(JudgedName(s.invoices[i]).value) == normal
  }

  /** The part of the guarantee that can be read off the stored rows: of two invoices with the same number
      and vendor names of the same normal form, each judged under a name of that normal form and inside the
      other's window, at most one is approved. */
  lemma NamesakesAreNotBothApproved(config: Config, requests: seq<Request>, x: nat, y: nat, normal: string)
    requires IsRun(config, requests) && x != y && normal != ""
    requires Bears(config, Run(config, requests), x, normal) && Bears(config, Run(config, requests), y, normal)
    requires var s := Run(config, requests);
             D.SameNumber(JudgedFacts(s, x), StoredFacts(s, y)) && InWindowOf(s, x, y) && InWindowOf(s, y, x)
    ensures !(IsApproved(Run(config, requests), x) && IsApproved(Run(config, requests), y))
  {
    hide P.NormalizeVendorName, InWindowOf, JudgedName, Run, IsRun, P.NormalizeInvoiceNumber;
    NoMatchingApprovals(config, requests);
    var s := Run(config, requests);
    assert Flags(config, s, x, y) && Flags(config, s, y, x);
  }

  // Approval, and when processing fails.

  /** An approval needs a vendor with an indexed policy, no exact duplicate, and the model's own verdict. */
  lemma ApprovalIsEarned(config: Config, s: State, id: nat, call: Call)
    requires id in s.invoices && Processed(config, s, id, call).Ok?
    requires IsApproved(Processed(config, s, id, call).value, id)
    ensures call.retrieved > 0 && call.answer.Verdict? && call.answer.decision == AutoApprove
    ensures Processed(config, s, id, call).value.invoices[id].vendorId.Some?
    ensures Processed(config, s, id, call).value.invoices[id].status == Approved
  {
    hide Resolve, FindingsFor, EventsOf;
  }

  /** Onboarding never meets a vendor of the same name: resolving a vendor cannot fail. */
  lemma OnboardingNeverCollides(config: Config, s: State, invoice: Invoice, call: Call)
    requires SameEntries(call.scan, s.vendors)
    ensures Resolve(config, s, invoice, call).Ok?
  {
    hide N.Normalised, Text.Strip;
    if MatchOf(config, invoice.header, call.scan).None? && D.Given(invoice.header.rawVendor) {
      var raw := invoice.header.rawVendor.value;
      N.MatchIffRecognised(raw, call.scan, config.fuzz, MATCH_THRESHOLD, SUGGESTIONS);
      N.UnrecognisedNeverCollides(raw, call.scan, config.fuzz, MATCH_THRESHOLD, SUGGESTIONS);
    }
  }

  /** In a consistent state the policy lookup never meets two active rows. */
  lemma LookupNeverFails(config: Config, s: State, invoice: Invoice, call: Call)
    requires Consistent(s) && SameEntries(call.scan, s.vendors) && (invoice.vendorId.Some? ==>
             invoice.vendorId.value < |s.vendors|)
    ensures var r := Resolve(config, s, invoice, call); r.Ok? && RulesFor(r.value.policies, r.value.vendorId).Ok?
  {
    OnboardingNeverCollides(config, s, invoice, call);
    ResolutionIsConsistent(config, s, invoice, call);
    hide Resolve, V.ActivePolicy, V.WellVersioned;
    var r := Resolve(config, s, invoice, call).value;
    if r.vendorId.Some? { V.ActivePolicyIsLatest(r.policies, r.vendorId.value); }
  }

  /** The lookback window of the comparison reaches before the first representable day. */
  predicate WindowFails(header: Header, rules: V.Rules) {
    header.date.Some? && Ordinal(header.date.value) - rules.lookback < D.FIRST_DAY
  }

  /** Payment terms are to be calculated, but the amount is negative or a day they ask for lies beyond the calendar. */
  predicate TermsFail(header: Header, rules: V.Rules) {
    header.date.Some? && TermsFor(header, rules) != "" &&
    ((header.amount.Some? && header.amount.value < 0.0) ||
     Ordinal(header.date.value) + PaymentTerms.Reach(header.date.value, T.Parse(TermsFor(header, rules))) > LAST_ORDINAL)
  }

  lemma TermsFailExactly(header: Header, rules: V.Rules)
    ensures DueFrom(header, rules).Raised? <==> TermsFail(header, rules)
  {
    hide PaymentTerms.Calculated, PaymentTerms.Reach, T.Parse, Ordinal;
    if header.date.Some? {
      PaymentTerms.RaisesExactlyBeyondCalendar(
        PaymentTerms.Request(header.date.value, TermsFor(header, rules), header.amount, None));
    }
  }

  /** Processing an invoice fails, and then changes nothing, exactly when its lookback window or its payment
      terms leave the calendar, when it has a negative amount although its terms are to be calculated, or
      when the model is needed and unavailable. */
  lemma ProcessingFailsExactly(config: Config, s: State, id: nat, call: Call)
    requires Consistent(s) && SameEntries(call.scan, s.vendors) && id in s.invoices
    ensures var header := s.invoices[id].header;
            var r := Resolve(config, s, s.invoices[id], call);
            && r.Ok? && RulesFor(r.value.policies, r.value.vendorId).Ok?
            && var rules := RulesFor(r.value.policies, r.value.vendorId).value;
               var report := D.Detected(DuplicateRequest(config, s, id, r.value.name, rules), config.fuzz);
               (Processed(config, s, id, call).Raised? <==>
                WindowFails(header, rules) || TermsFail(header, rules) ||
                (report.Ok? && !report.value.isDuplicate && r.value.vendorId.Some? && call.retrieved > 0
                 && call.answer == Unavailable))
  {
    LookupNeverFails(config, s, s.invoices[id], call);
    var r := Resolve(config, s, s.invoices[id], call).value;
    var rules := RulesFor(r.policies, r.vendorId).value;
    WindowFailsExactly(config, s, id, r.name, rules);
    TermsFailExactly(s.invoices[id].header, rules);
    hide Resolve, RulesFor, D.Detected, DueFrom, EventsOf, DuplicateRequest, WindowFails, TermsFail, Consistent;
  }

  lemma WindowFailsExactly(config: Config, s: State, id: nat, name: Option<string>, rules: V.Rules)
    requires id in s.invoices
    ensures D.Detected(DuplicateRequest(config, s, id, name, rules), config.fuzz).Raised? <==>
            WindowFails(s.invoices[id].header, rules)
  {
    hide Candidates, D.MatchesOf, D.Contains, Ordinal;
  }

  /** A dated invoice with a negative amount can never be processed under terms that are not empty. */
  lemma NegativeAmountIsNeverProcessed(config: Config, s: State, id: nat, call: Call)
    requires Consistent(s) && SameEntries(call.scan, s.vendors) && id in s.invoices
    requires s.invoices[id].header.date.Some? && s.invoices[id].header.amount.Some? && s.invoices[id].header.amount.value < 0.0
    requires D.Given(s.invoices[id].header.paymentTerms)
    ensures Respond(config, s, Process(id, call)) == (s, SERVER_ERROR)
  {
    hide Resolve, RulesFor, D.Detected, EventsOf, DuplicateRequest, Consistent;
  }

  // Onboarding happens once.

  ghost predicate IsRecognized(config: Config, vendors: seq<N.Entry>, raw: string) {
    N.Normalised(raw, vendors, config.fuzz, MATCH_THRESHOLD, SUGGESTIONS).isRecognized
  }

  lemma ResolutionMakesKnown(config: Config, s: State, invoice: Invoice, call: Call)
    requires SameEntries(call.scan, s.vendors) && call.autoOnboard && D.Given(invoice.header.rawVendor)
    requires Resolve(config, s, invoice, call).Ok?
    ensures var raw := invoice.header.rawVendor.value;
            var vendors := Resolve(config, s, invoice, call).value.vendors;
            && IsRecognized(config, vendors, raw)
            && (vendors != s.vendors ==>
                  && vendors == s.vendors + [N.Entry(|s.vendors|, Text.Strip(raw), [])]
                  && forall v, name | v in s.vendors && name in N.Names(v) ::
                       P.NormalizeVendorName(name) != P.NormalizeVendorName(raw))
  {
    hide Text.Strip, P.NormalizeVendorName, N.Normalised, N.Names, V.WithDefault;
    var raw := invoice.header.rawVendor.value;
    var vendors := Resolve(config, s, invoice, call).value.vendors;
    N.MatchIffRecognised(raw, call.scan, config.fuzz, MATCH_THRESHOLD, SUGGESTIONS);
    if N.Normalised(raw, call.scan, config.fuzz, MATCH_THRESHOLD, SUGGESTIONS).isRecognized {
      N.RecognitionGrows(raw, call.scan, raw, vendors, config.fuzz, MATCH_THRESHOLD, SUGGESTIONS);
    } else {
      N.UnrecognisedNeverCollides(raw, call.scan, config.fuzz, MATCH_THRESHOLD, SUGGESTIONS);
      N.OnboardedIsFound(raw, call.scan, config.fuzz, MATCH_THRESHOLD, SUGGESTIONS, |s.vendors|, vendors, raw);
      N.MatchIffRecognised(raw, vendors, config.fuzz, MATCH_THRESHOLD, SUGGESTIONS);
    }
  }

  lemma ResolutionOfRecognized(config: Config, s: State, invoice: Invoice, call: Call)
    requires SameEntries(call.scan, s.vendors) && D.Given(invoice.header.rawVendor)
    requires IsRecognized(config, s.vendors, invoice.header.rawVendor.value)
    requires Resolve(config, s, invoice, call).Ok?
    ensures Resolve(config, s, invoice, call).value.vendors == s.vendors
  {
    hide Text.Strip, P.NormalizeVendorName, N.Normalised;
    var raw := invoice.header.rawVendor.value;
    N.RecognitionGrows(raw, s.vendors, raw, call.scan, config.fuzz, MATCH_THRESHOLD, SUGGESTIONS);
    N.MatchIffRecognised(raw, call.scan, config.fuzz, MATCH_THRESHOLD, SUGGESTIONS);
  }

  /** A vendor is onboarded only if no known name or alias has its normal form; afterwards the name is recognised. */
  lemma OnboardingMakesKnown(config: Config, s: State, id: nat, call: Call)
    requires Consistent(s) && SameEntries(call.scan, s.vendors) && id in s.invoices && Processed(config, s, id, call).Ok?
    requires call.autoOnboard && D.Given(s.invoices[id].header.rawVendor)
    ensures var raw := s.invoices[id].header.rawVendor.value;
            var s' := Processed(config, s, id, call).value;
            && IsRecognized(config, s'.vendors, raw)
            && (s'.vendors != s.vendors ==>
                  && s'.vendors == s.vendors + [N.Entry(|s.vendors|, Text.Strip(raw), [])]
                  && forall v, name | v in s.vendors && name in N.Names(v) ::
                       P.NormalizeVendorName(name) != P.NormalizeVendorName(raw))
  {
    hide Processed, D.Detected, RulesFor, DuplicateRequest, JudgedName, Text.Strip, P.NormalizeVendorName, Consistent,
      N.Normalised, N.Names, IsApproved, IsRecognized, Resolve;
    ProcessedJudges(config, s, id, call);
    ResolutionMakesKnown(config, s, s.invoices[id], call);
  }

  /** Exactly the unrecognised names are onboarded. */
  lemma OnboardsExactlyUnrecognised(config: Config, s: State, id: nat, call: Call)
    requires Consistent(s) && SameEntries(call.scan, s.vendors) && id in s.invoices && Processed(config, s, id, call).Ok?
    requires call.autoOnboard && D.Given(s.invoices[id].header.rawVendor)
    ensures Processed(config, s, id, call).value.vendors == s.vendors <==>
            IsRecognized(config, s.vendors, s.invoices[id].header.rawVendor.value)
  {
    hide Processed, Consistent, IsRecognized;
    OnboardingMakesKnown(config, s, id, call);
    if IsRecognized(config, s.vendors, s.invoices[id].header.rawVendor.value) { RecognizedOnboardsNothing(config, s, id, call); }
  }

  /** A recognised name onboards nothing. */
  lemma RecognizedOnboardsNothing(config: Config, s: State, id: nat, call: Call)
    requires Consistent(s) && SameEntries(call.scan, s.vendors) && id in s.invoices && D.Given(s.invoices[id].header.rawVendor)
    requires IsRecognized(config, s.vendors, s.invoices[id].header.rawVendor.value)
    ensures Respond(config, s, Process(id, call)).0.vendors == s.vendors
  {
    hide Processed, D.Detected, RulesFor, DuplicateRequest, JudgedName, Consistent, IsApproved, IsRecognized, Resolve;
    if Processed(config, s, id, call).Ok? {
      ProcessedJudges(config, s, id, call);
      ResolutionOfRecognized(config, s, s.invoices[id], call);
    }
  }

  /** Vendors are only ever added or edited in place, and older policies keep everything but their flag. */
  lemma TablesOnlyGrow(config: Config, s: State, request: Request)
    requires Consistent(s) && Admissible(s, request)
    ensures var s' := Respond(config, s, request).0;
            && |s.vendors| <= |s'.vendors|
            && (forall i | 0 <= i < |s.vendors| :: s'.vendors[i].id == s.vendors[i].id)
            && (forall i | 0 <= i < |s.vendors| && !(request.UpdateVendor?
                  && request.vendor == i) :: s'.vendors[i] == s.vendors[i])
            && |s.policies| <= |s'.policies|
            && forall i | 0 <= i < |s.policies| :: s'.policies[i] == s.policies[i].(isActive := s'.policies[i].isActive)
  {
    hide Processed, Consistent, Text.Strip, IsKnownName, IsTaken, V.WellVersioned;
    match request
    case ProcessNew(header, dueDate, call) =>
      AddedIsConsistent(s, header, None, dueDate, Extracted);
      ProcessedGrows(config, Added(s, header, None, dueDate, Extracted), s.nextInvoice, call);
    case Process(id, call) => if id in s.invoices { ProcessedGrows(config, s, id, call); }
    case _ =>
  }

  lemma ProcessedGrows(config: Config, s: State, id: nat, call: Call)
    requires Consistent(s) && SameEntries(call.scan, s.vendors) && id in s.invoices
    ensures var p := Processed(config, s, id, call); p.Ok? ==> s.vendors <= p.value.vendors && s.policies <= p.value.policies
  {
    if Processed(config, s, id, call).Ok? {
      ProcessedJudges(config, s, id, call);
      ResolutionIsConsistent(config, s, s.invoices[id], call);
    }
  }

  /** Without edits the vendors of a run stay the first vendors of its continuations. */
  lemma {:induction false} RunOnlyGrows(config: Config, a: seq<Request>, b: seq<Request>)
    requires a <= b && IsRun(config, b) && forall k | |a| <= k < |b| :: !b[k].UpdateVendor?
    ensures IsRun(config, a) && Run(config, a).vendors <= Run(config, b).vendors
    decreases |b|
  {
    hide Respond, Consistent;
    if |a| < |b| {
      var front := b[..|b| - 1];
      RunOnlyGrows(config, a, front);
      ReachableIsConsistent(config, front);
      TablesOnlyGrow(config, Run(config, front), b[|b| - 1]);
    } else {
      assert a == b;
    }
  }

  /** Once a processing run has auto-onboarded or recognised a name, no later processing of any invoice
      whose vendor name has the same normal form onboards another vendor, whatever happens in between short
      of an edit of a vendor. */
  lemma OnboardingHappensOnce(config: Config, a: seq<Request>, first: nat, call: Call, b: seq<Request>, later: nat, again: Call)
    requires IsRun(config, a + [Process(first, call)]) && call.autoOnboard
    requires Respond(config, Run(config, a), Process(first, call)).1 == OK
    requires a + [Process(first, call)] <= b && IsRun(config, b + [Process(later, again)])
    requires forall k | |a| < k < |b| :: !b[k].UpdateVendor?
    requires first in Run(config, a).invoices && later in Run(config, b).invoices
    requires var raw, name := Run(config, a).invoices[first].header.rawVendor, Run(config, b).invoices[later].header.rawVendor;
             D.Given(raw) && D.Given(name) && P.NormalizeVendorName(name.value) == P.NormalizeVendorName(raw.value)
    ensures Respond(config, Run(config, b), Process(later, again)).0.vendors == Run(config, b).vendors
  {
    hide Processed, Consistent, P.NormalizeVendorName, N.Normalised, Text.Strip;
    var s, t := Run(config, a), Run(config, b);
    var raw, name := s.invoices[first].header.rawVendor.value, t.invoices[later].header.rawVendor.value;
    var done := a + [Process(first, call)];
    assert done[..|done| - 1] == a;
    assert (b + [Process(later, again)])[..|b|] == b;
    assert Run(config, done) == Respond(config, s, Process(first, call)).0;
    ReachableIsConsistent(config, a);
    ReachableIsConsistent(config, b);
    RunOnlyGrows(config, done, b);
    OnboardingMakesKnown(config, s, first, call);
    hide Respond, Run, IsRun;
    N.RecognitionGrows(raw, Run(config, done).vendors, name, t.vendors, config.fuzz, MATCH_THRESHOLD, SUGGESTIONS);
    RecognizedOnboardsNothing(config, t, later, again);
  }

  // What consistency means in every reachable state.

  /** Audit replay: the recorded status changes chain from the creation status to the current one, the
      recommended action is the last recorded decision, and NORMALIZED, VALIDATED and PAID are never reached. */
  lemma AuditReplays(config: Config, requests: seq<Request>, id: nat)
    requires IsRun(config, requests) && id in Run(config, requests).invoices
    ensures var invoice := Run(config, requests).invoices[id];
            && (exists start :: IsCreationStatus(start) && Replay(start, invoice.events) == Some(invoice.status))
            && LastDecision(invoice.events) == invoice.recommended
            && invoice.status !in {Normalized, Validated, Paid}
  {
    ReachableIsConsistent(config, requests);
    assert Audited(Run(config, requests).invoices[id]);
  }

  /** Every vendor's policy versions are 1 to n in every reachable state, version n alone is active, and
      the lookup of the active policy finds it. */
  lemma PoliciesAreVersioned(config: Config, requests: seq<Request>, vendor: nat)
    requires IsRun(config, requests)
    ensures var rows := Run(config, requests).policies;
            var n := V.Count(rows, vendor);
            && (forall k | 1 <= k <= n :: V.HasVersion(rows, |rows|, vendor, k))
            && (forall i | 0 <= i < |rows| && rows[i].vendorId == vendor ::
                  1 <= rows[i].version <= n && (rows[i].isActive <==> rows[i].version == n))
            && V.ActivePolicy(rows, vendor).Ok?
            && (V.ActivePolicy(rows, vendor).value.None? <==> n == 0)
            && (n > 0 ==> V.ActivePolicy(rows, vendor).value.value.version == n)
  {
    ReachableIsConsistent(config, requests);
    V.VersionsAreConsecutive(Run(config, requests).policies, vendor);
    V.ActivePolicyIsLatest(Run(config, requests).policies, vendor);
  }
}
