/** How far the duplicate guardrail reaches. An invoice is compared under its vendor's canonical name with the
    raw names on the other invoices, so what counts is whether every vendor that a name resolves to has a
    canonical name that the duplicate check takes for that name. */
module DuplicateCoverage {
  import opened Calendar
  import opened JsonValues
  import opened LlmDecision
  import opened Pipeline
  import opened PipelineSafety
  import opened PipelineTheorems
  import D = DuplicateDetector
  import N = VendorNormaliser
  import P = Parsing
  import PaymentTerms
  import Text
  import V = VendorPolicies

  /** The duplicate check takes the canonical name for a name of this normal form. A vendor without a name is
      passed over in favour of the raw name. */
  predicate Alike(config: Config, canonical: string, normal: string) {
    || canonical == ""
    || P.NormalizeVendorName(canonical) == normal
    || config.fuzz(P.NormalizeVendorName(canonical), normal) >= MATCH_THRESHOLD
  }

  /** Every vendor that names of this normal form resolve to has a canonical name like them. */
  predicate Covered(config: Config, vendors: seq<N.Entry>, normal: string) {
    forall v | v in vendors && N.Resolves(v, normal, config.fuzz, MATCH_THRESHOLD) :: Alike(config, v.canonicalName, normal)
  }

  // Where the vendors cover a name, the guardrail does.

  /** The invoice was last judged under the canonical name of a vendor that its own name resolves to. */
  ghost predicate NamedByVendor(config: Config, vendors: seq<N.Entry>, invoice: Invoice) {
    LastName(invoice.events).Some? ==>
      && D.Given(invoice.header.rawVendor)
      && exists v :: v in vendors && v.canonicalName == LastName(invoice.events).value &&
           N.Resolves(v, P.NormalizeVendorName(invoice.header.rawVendor.value), config.fuzz, MATCH_THRESHOLD)
  }

  ghost predicate AllNamedByVendors(config: Config, s: State) {
    forall i | i in s.invoices :: NamedByVendor(config, s.vendors, s.invoices[i])
  }

  lemma ResolutionNamesVendor(config: Config, s: State, invoice: Invoice, call: Call)
    requires SameEntries(call.scan, s.vendors) && Resolve(config, s, invoice, call).Ok?
    ensures var r := Resolve(config, s, invoice, call).value;
            r.name.Some? ==>
              && D.Given(invoice.header.rawVendor)
              && exists v :: v in r.vendors && v.canonicalName == r.name.value &&
                   N.Resolves(v, P.NormalizeVendorName(invoice.header.rawVendor.value), config.fuzz, MATCH_THRESHOLD)
  {
    hide N.Normalised, N.Knows, N.Weak, P.NormalizeVendorName, Text.Strip, V.WithDefault;
    if D.Given(invoice.header.rawVendor) {
      var raw := invoice.header.rawVendor.value;
      N.MatchIffRecognised(raw, call.scan, config.fuzz, MATCH_THRESHOLD, SUGGESTIONS);
      if MatchOf(config, invoice.header, call.scan).Some? {
        N.MatchIsVendor(raw, call.scan, config.fuzz, MATCH_THRESHOLD, SUGGESTIONS);
      } else if call.autoOnboard {
        OnboardedKnowsName(raw, |s.vendors|);
        var v := N.Entry(|s.vendors|, Text.Strip(raw), []);
        assert v in Resolve(config, s, invoice, call).value.vendors;
      }
    }
  }

  lemma OnboardedKnowsName(raw: string, id: nat)
    ensures N.Knows(N.Entry(id, Text.Strip(raw), []), P.NormalizeVendorName(raw))
  {
    P.NormalizationIgnoresPadding(raw);
    var v := N.Entry(id, Text.Strip(raw), []);
    assert N.Names(v)[0] in N.Names(v);
  }

  lemma NamedByMoreVendors(config: Config, vendors: seq<N.Entry>, more: seq<N.Entry>, before: Invoice, after: Invoice)
    requires NamedByVendor(config, vendors, before) && vendors <= more
    requires after.header == before.header && LastName(after.events) == LastName(before.events)
    ensures NamedByVendor(config, more, after)
  {
    hide N.Resolves, P.NormalizeVendorName, LastName;
    if LastName(before.events).Some? {
      var v :| v in vendors && v.canonicalName == LastName(before.events).value &&
        N.Resolves(v, P.NormalizeVendorName(before.header.rawVendor.value), config.fuzz, MATCH_THRESHOLD);
      assert v in more;
    }
  }

  lemma ProcessedNamesVendor(config: Config, s: State, id: nat, call: Call)
    requires Consistent(s) && SameEntries(call.scan, s.vendors) && AllNamedByVendors(config, s)
    requires id in s.invoices && Processed(config, s, id, call).Ok?
    ensures AllNamedByVendors(config, Processed(config, s, id, call).value)
  {
    var s' := Processed(config, s, id, call).value;
    ProcessedResolves(config, s, id, call);
    ResolutionNamesVendor(config, s, s.invoices[id], call);
    ProcessedGrows(config, s, id, call);
    hide Processed, Resolve, Consistent, P.NormalizeVendorName, N.Resolves, LastName;
    forall i | i in s'.invoices && i != id ensures NamedByVendor(config, s'.vendors, s'.invoices[i]) {
      NamedByMoreVendors(config, s.vendors, s'.vendors, s.invoices[i], s'.invoices[i]);
    }
  }

  /** Processing records the name that the vendor was resolved to. */
  lemma ProcessedResolves(config: Config, s: State, id: nat, call: Call)
    requires Consistent(s) && SameEntries(call.scan, s.vendors) && id in s.invoices && Processed(config, s, id, call).Ok?
    ensures var s' := Processed(config, s, id, call).value;
            var r := Resolve(config, s, s.invoices[id], call);
            && r.Ok? && id in s'.invoices && LastName(s'.invoices[id].events) == r.value.name
            && s'.invoices[id].header == s.invoices[id].header && s'.vendors == r.value.vendors
            && (forall i | i != id :: i in s.invoices <==> i in s'.invoices)
            && (forall i | i != id && i in s.invoices :: s'.invoices[i] == s.invoices[i])
  {
    hide D.Detected, EventsOf, Resolve, NameFor, Audited, V.WellVersioned, VendorsConsistent, DuplicateRequest, FindingsFor;
    ResolutionIsConsistent(config, s, s.invoices[id], call);
    var r := Resolve(config, s, s.invoices[id], call).value;
    var f := FindingsFor(config, s, id, r).value;
    var decision := Decide(f.isDuplicate, if r.vendorId.Some? then call.retrieved else 0, call.answer).value.decision;
    JudgedIsAudited(s.invoices[id], r, f, decision);
  }

  lemma RespondKeepsNames(config: Config, s: State, request: Request)
    requires Consistent(s) && Admissible(s, request) && AllNamedByVendors(config, s) && !request.UpdateVendor?
    ensures AllNamedByVendors(config, Respond(config, s, request).0)
  {
    hide Processed, Consistent, Text.Strip, V.WithNewVersion, IsKnownName, NamedByVendor;
    var s' := Respond(config, s, request).0;
    match request
    case ProcessNew(header, dueDate, call) =>
      AddedIsNamed(config, s, header, None, dueDate, Extracted);
      AddedIsConsistent(s, header, None, dueDate, Extracted);
      var s1 := Added(s, header, None, dueDate, Extracted);
      if Processed(config, s1, s.nextInvoice, call).Ok? { ProcessedNamesVendor(config, s1, s.nextInvoice, call); }
    case Process(id, call) =>
      if id in s.invoices && Processed(config, s, id, call).Ok? { ProcessedNamesVendor(config, s, id, call); }
    case Create(header, vendorId, dueDate) => AddedIsNamed(config, s, header, vendorId, dueDate, Received);
    case Ingest(header, dueDate) => AddedIsNamed(config, s, header, None, dueDate, Extracted);
    case SetStatus(id, target) =>
      if id in s.invoices && IsAllowedTarget(target) {
        ReplayOne(Received, s.invoices[id].events, StatusChanged(s.invoices[id].status, target));
        NamedByMoreVendors(config, s.vendors, s.vendors, s.invoices[id], Transitioned(s.invoices[id], target));
      }
    case CreateVendor(_, _, _) =>
      forall i | i in s.invoices ensures NamedByVendor(config, s'.vendors, s'.invoices[i]) {
        NamedByMoreVendors(config, s.vendors, s'.vendors, s.invoices[i], s'.invoices[i]);
      }
    case _ =>
  }

  lemma AddedIsNamed(config: Config, s: State, header: Header, vendorId: Option<nat>, dueDate: Option<Date>, status: Status)
    requires AllNamedByVendors(config, s)
    ensures AllNamedByVendors(config, Added(s, header, vendorId, dueDate, status))
  {
    assert NamedByVendor(config, s.vendors, Invoice(header, vendorId, dueDate, status, None, []));
    hide NamedByVendor;
  }

  lemma {:induction false} InvoicesAreNamedByVendors(config: Config, requests: seq<Request>)
    requires IsRun(config, requests) && forall k | 0 <= k < |requests| :: !requests[k].UpdateVendor?
    ensures AllNamedByVendors(config, Run(config, requests))
  {
    hide Respond, Consistent, NamedByVendor;
    if requests != [] {
      var front := requests[..|requests| - 1];
      InvoicesAreNamedByVendors(config, front);
      ReachableIsConsistent(config, front);
      RespondKeepsNames(config, Run(config, front), requests[|requests| - 1]);
    }
  }

  /** The invoice bears a name of this normal form and is recent enough. */
  predicate Bearing(config: Config, s: State, i: nat, normal: string) {
    && i in s.invoices && s.nextInvoice - i <= config.limit
    && D.Given(s.invoices[i].header.rawVendor) && P.NormalizeVendorName(s.invoices[i].header.rawVendor.value) == normal
  }

  lemma CoveredNamesMatch(config: Config, s: State, x: nat, y: nat, normal: string)
    requires Bearing(config, s, x, normal) && Bearing(config, s, y, normal) && normal != ""
    requires NamedByVendor(config, s.vendors, s.invoices[x]) && Covered(config, s.vendors, normal)
    ensures D.SameVendor(JudgedFacts(s, x), StoredFacts(s, y), MATCH_THRESHOLD, config.fuzz)
  {
    hide P.NormalizeVendorName, LastName, N.Resolves;
  }

  /** Where every vendor that a name resolves to has a canonical name like it, no two invoices of that name
      and with the same number, each inside the other's lookback, are ever both approved. */
  lemma CoveredTwinsAreNotBothApproved(config: Config, requests: seq<Request>, x: nat, y: nat, normal: string)
    requires IsRun(config, requests) && forall k | 0 <= k < |requests| :: !requests[k].UpdateVendor?
    requires var s := Run(config, requests);
             && x != y && normal != "" && Covered(config, s.vendors, normal)
             && Bearing(config, s, x, normal) && Bearing(config, s, y, normal)
             && D.SameNumber(StoredFacts(s, x), StoredFacts(s, y)) && InWindowOf(s, x, y) && InWindowOf(s, y, x)
    ensures !(IsApproved(Run(config, requests), x) && IsApproved(Run(config, requests), y))
  {
    InvoicesAreNamedByVendors(config, requests);
    NoMatchingApprovals(config, requests);
    hide Run, IsRun, P.NormalizeVendorName, InWindowOf, NamedByVendor, Covered, D.SameVendor, P.NormalizeInvoiceNumber,
          JudgedName;
    var s := Run(config, requests);
    CoveredNamesMatch(config, s, x, y, normal);
    CoveredNamesMatch(config, s, y, x, normal);
    assert Flags(config, s, x, y) && Flags(config, s, y, x);
  }

  // Where they do not, it does not.

  /** A vendor that the name resolves to although its canonical name is unlike it. */
  predicate Uncovering(config: Config, v: N.Entry, name: string) {
    && v.id == 0 && Text.Trimmed(v.canonicalName) && name != ""
    && N.Resolves(v, P.NormalizeVendorName(name), config.fuzz, MATCH_THRESHOLD)
    && !Alike(config, v.canonicalName, P.NormalizeVendorName(name))
  }

  lemma UncoveringResolves(config: Config, v: N.Entry, name: string)
    requires Uncovering(config, v, name)
    ensures var m := N.Normalised(name, [v], config.fuzz, MATCH_THRESHOLD, SUGGESTIONS).match_;
            m.Some? && m.value.vendorId == 0 && m.value.canonicalName == v.canonicalName
  {
    hide P.NormalizeVendorName, N.Knows, N.Weak, N.Normalised, Alike;
    assert v in [v];
    N.RecognisedExactly(name, [v], config.fuzz, MATCH_THRESHOLD, SUGGESTIONS);
    N.MatchIffRecognised(name, [v], config.fuzz, MATCH_THRESHOLD, SUGGESTIONS);
    N.MatchIsVendor(name, [v], config.fuzz, MATCH_THRESHOLD, SUGGESTIONS);
  }

  function Twin(name: string, number: string): Header {
    Header(Some(name), Some(number), None, None, None)
  }

  function Approving(v: N.Entry): Call {
    Call(false, [v], 1, Verdict(AutoApprove, 1.0))
  }

  lemma NothingMatches(config: Config, s: State, id: nat, v: N.Entry, name: string, number: string)
    requires Uncovering(config, v, name) && id in s.invoices
    requires forall i | i in s.invoices :: s.invoices[i].header == Twin(name, number)
    ensures var report := D.Detected(DuplicateRequest(config, s, id, Some(v.canonicalName), V.DEFAULT_RULES), config.fuzz);
            report.Ok? && !report.value.isDuplicate
  {
    hide P.NormalizeVendorName, D.MatchesOf, D.Contains, N.Resolves;
    var request := DuplicateRequest(config, s, id, Some(v.canonicalName), V.DEFAULT_RULES);
    assert D.Detected(request, config.fuzz).Ok?;
    D.DuplicateExactly(request, config.fuzz);
    hide D.Detected;
    forall c | c in request.candidates ensures !D.ExactlyMatches(request, c.facts, config.fuzz) {
      CandidatesAreStored(s.invoices, s.nextInvoice, id, config.limit, c);
      assert c.facts.vendorName == Some(name);
    }
  }

  lemma {:induction false} CandidatesAreStored(invoices: map<nat, Invoice>, k: nat, id: nat, limit: nat, c: D.Candidate)
    requires c in Candidates(invoices, k, id, limit)
    ensures c.id in invoices && c.id != id && c.facts == FactsOf(invoices[c.id].header.rawVendor, invoices[c.id].header)
  {
    if k - 1 in invoices && k - 1 != id {
      if c != Candidates(invoices, k, id, limit)[0] { CandidatesAreStored(invoices, k - 1, id, limit - 1, c); }
    } else {
      CandidatesAreStored(invoices, k - 1, id, limit, c);
    }
  }

  /** An invoice is approved although the others bear its name and its number. */
  lemma TwinIsApproved(config: Config, s: State, id: nat, v: N.Entry, name: string, number: string)
    requires Uncovering(config, v, name) && s.vendors == [v] && s.policies == [] && id in s.invoices
    requires forall i | i in s.invoices :: s.invoices[i].header == Twin(name, number)
    ensures var p := Processed(config, s, id, Approving(v));
            && p.Ok? && IsApproved(p.value, id)
            && p.value.vendors == s.vendors && p.value.policies == s.policies && p.value.nextInvoice == s.nextInvoice
            && p.value.invoices == s.invoices[id := p.value.invoices[id]]
            && p.value.invoices[id].header == s.invoices[id].header
  {
    hide N.Normalised, D.Detected, EventsOf, DuplicateRequest, P.NormalizeVendorName, PaymentTerms.Calculated, N.Resolves;
    UncoveringResolves(config, v, name);
    NothingMatches(config, s, id, v, name, number);
    hide Uncovering;
    var r := Resolve(config, s, s.invoices[id], Approving(v)).value;
    assert r.vendorId == Some(0) && r.name == Some(v.canonicalName) && r.policies == s.policies && r.vendors == s.vendors;
    hide Resolve;
    assert RulesFor(r.policies, r.vendorId) == Ok(V.DEFAULT_RULES);
    assert DueFrom(s.invoices[id].header, V.DEFAULT_RULES) == Ok(None);
    hide DueFrom, RulesFor;
    assert FindingsFor(config, s, id, r).Ok? && !FindingsFor(config, s, id, r).value.isDuplicate;
  }

  lemma AnotherIsApproved(config: Config, s: State, v: N.Entry, name: string, number: string)
    requires Uncovering(config, v, name) && s.vendors == [v] && s.policies == []
    requires forall i | i in s.invoices :: s.invoices[i].header == Twin(name, number) && i < s.nextInvoice
    ensures var request := ProcessNew(Twin(name, number), None, Approving(v));
            var s' := Respond(config, s, request).0;
            && Admissible(s, request)
            && s'.vendors == s.vendors && s'.policies == s.policies && s'.nextInvoice == s.nextInvoice + 1
            && s'.invoices.Keys == s.invoices.Keys + {s.nextInvoice}
            && IsApproved(s', s.nextInvoice) && s'.invoices[s.nextInvoice].header == Twin(name, number)
            && forall i | i in s.invoices :: s'.invoices[i] == s.invoices[i]
  {
    hide Uncovering, Processed;
    TwinIsApproved(config, Added(s, Twin(name, number), None, None, Extracted), s.nextInvoice, v, name, number);
  }

  lemma NextStep(config: Config, front: seq<Request>, request: Request)
    ensures Run(config, front + [request]) == Respond(config, Run(config, front), request).0
    ensures IsRun(config, front + [request]) <==> IsRun(config, front) && Admissible(Run(config, front), request)
  {
    hide Respond;
    assert (front + [request])[..|front|] == front;
  }

  /** The run that creates the vendor. */
  lemma VendorStep(config: Config, v: N.Entry)
    requires v.id == 0 && v.canonicalName != "" && Text.Trimmed(v.canonicalName)
    ensures var requests := [CreateVendor(v.canonicalName, v.aliases, None)];
            IsRun(config, requests) && Run(config, requests) == State(map[], [v], [], 0)
  {
    var request := CreateVendor(v.canonicalName, v.aliases, None);
    assert Text.Strip(v.canonicalName) == v.canonicalName;
    hide Text.Strip;
    assert Respond(config, EMPTY, request).0 == State(map[], [v], [], 0);
    hide Respond;
    assert Run(config, []) == EMPTY && IsRun(config, []);
    hide Run, IsRun;
    NextStep(config, [], request);
    assert [] + [request] == [request];
  }

  /** Two invoices bear the name and the number, and both are approved. */
  ghost predicate TwinsApproved(s: State, name: string, number: string) {
    && IsApproved(s, 0) && IsApproved(s, 1)
    && s.invoices[0].header == Twin(name, number) && s.invoices[1].header == Twin(name, number)
  }

  function FirstTwin(v: N.Entry, name: string, number: string): seq<Request> {
    [CreateVendor(v.canonicalName, v.aliases, None)] + [ProcessNew(Twin(name, number), None, Approving(v))]
  }

  lemma FirstTwinRuns(config: Config, v: N.Entry, name: string, number: string)
    requires Uncovering(config, v, name)
    ensures var requests, s := FirstTwin(v, name, number), Run(config, FirstTwin(v, name, number));
            && IsRun(config, requests) && s.vendors == [v] && s.policies == [] && s.nextInvoice == 1
            && s.invoices.Keys == {0} && IsApproved(s, 0) && s.invoices[0].header == Twin(name, number)
  {
    VendorStep(config, v);
    hide Uncovering, Respond, Run, IsRun, Admissible, IsApproved;
    var first := [CreateVendor(v.canonicalName, v.aliases, None)];
    AnotherIsApproved(config, Run(config, first), v, name, number);
    NextStep(config, first, ProcessNew(Twin(name, number), None, Approving(v)));
  }

  function BothTwins(v: N.Entry, name: string, number: string): seq<Request> {
    FirstTwin(v, name, number) + [ProcessNew(Twin(name, number), None, Approving(v))]
  }

  lemma BothTwinsRun(config: Config, v: N.Entry, name: string, number: string)
    requires Uncovering(config, v, name)
    ensures IsRun(config, BothTwins(v, name, number)) && TwinsApproved(Run(config, BothTwins(v, name, number)), name, number)
    ensures v in Run(config, BothTwins(v, name, number)).vendors
  {
    FirstTwinRuns(config, v, name, number);
    hide Uncovering, Respond, Run, IsRun, Admissible, FirstTwin;
    AnotherIsApproved(config, Run(config, FirstTwin(v, name, number)), v, name, number);
    NextStep(config, FirstTwin(v, name, number), ProcessNew(Twin(name, number), None, Approving(v)));
  }

  /** Wherever the vendors do not cover a name, two invoices of that name with the same number can both be
      approved: a run that starts from an uncovering vendor approves them, whatever vendors are created after. */
  lemma {:induction false} UncoveredTwinsAreApproved(
      config: Config, v: N.Entry, name: string, number: string, others: seq<Request>)
    requires Uncovering(config, v, name) && forall k | 0 <= k < |others| :: others[k].CreateVendor?
    ensures var requests := BothTwins(v, name, number) + others;
            && IsRun(config, requests) && TwinsApproved(Run(config, requests), name, number)
            && v in Run(config, requests).vendors
            && !Covered(config, Run(config, requests).vendors, P.NormalizeVendorName(name))
    decreases |others|
  {
    hide Run, IsRun, BothTwins, P.NormalizeVendorName, N.Resolves, Alike, TwinsApproved;
    if others == [] {
      assert BothTwins(v, name, number) + others == BothTwins(v, name, number);
      BothTwinsRun(config, v, name, number);
    } else {
      var n := |others| - 1;
      UncoveredTwinsAreApproved(config, v, name, number, others[..n]);
      var front := BothTwins(v, name, number) + others[..n];
      assert BothTwins(v, name, number) + others == front + [others[n]];
      NextStep(config, front, others[n]);
      CreatingKeepsTwins(config, Run(config, front), others[n], name, number);
    }
  }

  lemma CreatingKeepsTwins(config: Config, s: State, request: Request, name: string, number: string)
    requires request.CreateVendor? && TwinsApproved(s, name, number)
    ensures var s' := Respond(config, s, request).0;
            Admissible(s, request) && TwinsApproved(s', name, number) && s.vendors <= s'.vendors
  {
    hide Text.Strip, IsKnownName, V.WithNewVersion;
  }
}
