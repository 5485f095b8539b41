/** Where each request leaves the invoice it names: statuses, decisions, vendors and due dates, for one request and
    over every run. */
module PipelineOutcomes {
  import opened JsonValues
  import opened Calendar
  import opened LlmDecision
  import opened Pipeline
  import opened PipelineSafety
  import opened PipelineTheorems
  import D = DuplicateDetector
  import N = VendorNormaliser
  import P = Parsing
  import PaymentTerms
  import T = TermsParser
  import Text
  import V = VendorPolicies

  // The decision and the status of a processed invoice.

  /** The status tells the decision: APPROVED stands for AUTO_APPROVE, and so on. */
  predicate StatusTellsDecision(invoice: Invoice) {
    && invoice.recommended.Some?
    && (invoice.status == Approved <==> invoice.recommended == Some(AutoApprove))
    && (invoice.status == Held <==> invoice.recommended == Some(HoldForReview))
    && (invoice.status == Flagged <==> invoice.recommended == Some(FlagInvoice))
    && (invoice.status == Rejected <==> invoice.recommended == Some(RejectInvoice))
  }

  lemma JudgedTells(invoice: Invoice, r: Resolution, f: Findings, decision: Decision)
    ensures var judged := Judged(invoice, r, f, decision);
            && StatusTellsDecision(judged) && judged.recommended == Some(decision)
            && LastDecision(judged.events) == Some(decision)
            && |judged.events| > |invoice.events| && judged.events[..|invoice.events|] == invoice.events
            && judged.events[|judged.events| - 1] == StatusChanged(invoice.status, judged.status)
  {
    hide LastDecision, ChecksOf;
    var judged := Judged(invoice, r, f, decision);
    var changed := StatusChanged(invoice.status, judged.status);
    var before := invoice.events + (r.events + ChecksOf(f) + [PolicyEvaluated(decision)]);
    assert judged.events == before + [DecisionMade(decision)] + [changed];
    ReplayOne(Received, before, DecisionMade(decision));
    ReplayOne(Received, before + [DecisionMade(decision)], changed);
  }

  /** A processing records a decision, recommends it, and sets the status that stands for it; the last event of the
      trail is that change. */
  lemma ProcessingSetsStatus(config: Config, s: State, id: nat, call: Call)
    requires id in s.invoices && Processed(config, s, id, call).Ok?
    ensures var invoice := Processed(config, s, id, call).value.invoices[id];
            && StatusTellsDecision(invoice) && LastDecision(invoice.events) == invoice.recommended
            && |invoice.events| > 0
            && invoice.events[|invoice.events| - 1] == StatusChanged(s.invoices[id].status, invoice.status)
  {
    hide Resolve, FindingsFor, Decide, Judged, LastDecision, StatusTellsDecision;
    var r := Resolve(config, s, s.invoices[id], call).value;
    var f := FindingsFor(config, s, id, r).value;
    JudgedTells(s.invoices[id], r, f,
                Decide(f.isDuplicate, if r.vendorId.Some? then call.retrieved else 0, call.answer).value.decision);
  }

  /** How every processing ends: an exact duplicate is rejected whatever the model says; otherwise an invoice without
      a vendor or without policy text is held, and so is one on which the model's answer cannot be read; and
      otherwise the model's decision stands. */
  lemma OutcomeExactly(config: Config, s: State, id: nat, call: Call)
    requires Consistent(s) && SameEntries(call.scan, s.vendors) && id in s.invoices && Processed(config, s, id, call).Ok?
    ensures var invoice := Processed(config, s, id, call).value.invoices[id];
            var r := Resolve(config, s, s.invoices[id], call);
            && r.Ok? && RulesFor(r.value.policies, r.value.vendorId).Ok?
            && var rules := RulesFor(r.value.policies, r.value.vendorId).value;
            var report := D.Detected(DuplicateRequest(config, s, id, r.value.name, rules), config.fuzz);
            && report.Ok?
            && (report.value.isDuplicate ==> invoice.recommended == Some(RejectInvoice) && invoice.status == Rejected)
            && (!report.value.isDuplicate && (invoice.vendorId.None? || call.retrieved == 0 || call.answer == Unparseable) ==>
                  invoice.recommended == Some(HoldForReview) && invoice.status == Held)
            && (!report.value.isDuplicate && invoice.vendorId.Some? && call.retrieved > 0 && call.answer.Verdict? ==>
                  invoice.recommended == Some(call.answer.decision) && StatusTellsDecision(invoice))
  {
    ProcessedJudges(config, s, id, call);
    ProcessingSetsStatus(config, s, id, call);
    hide Resolve, RulesFor, D.Detected, DueFrom, EventsOf, DuplicateRequest, Consistent, JudgedName, LastLookback, LastDecision;
  }

  /** An invoice that exactly matches a recent one inside its lookback is rejected. */
  lemma MatchIsRejected(config: Config, s: State, id: nat, call: Call, x: nat)
    requires Consistent(s) && SameEntries(call.scan, s.vendors) && id in s.invoices && Processed(config, s, id, call).Ok?
    requires x in s.invoices && x != id && Flags(config, Processed(config, s, id, call).value, id, x)
    ensures var invoice := Processed(config, s, id, call).value.invoices[id];
            invoice.recommended == Some(RejectInvoice) && invoice.status == Rejected
  {
    OutcomeExactly(config, s, id, call);
    ProcessedJudges(config, s, id, call);
    var r := Resolve(config, s, s.invoices[id], call).value;
    var rules := RulesFor(r.policies, r.vendorId).value;
    hide Resolve, RulesFor, D.Detected, Processed, Flags, DuplicateRequest, JudgedName;
    FlaggedIsFound(config, s, Processed(config, s, id, call).value, id, r.name, rules, x);
  }

  // Manual transitions.

  /** A status request sets exactly the status asked for, if that is one of the four, and records the change. */
  lemma TransitionSetsTarget(config: Config, s: State, id: nat, target: Status)
    ensures var (s', code) := Respond(config, s, SetStatus(id, target));
            && (code == OK <==>
                  id in s.invoices && (target == Approved || target == Held || target == Flagged || target == Rejected))
            && (code != OK ==> s' == s)
            && (code == OK ==>
                  && s'.invoices[id].status == target
                  && s'.invoices[id].events == s.invoices[id].events + [StatusChanged(s.invoices[id].status, target)]
                  && s'.invoices[id].(status := s.invoices[id].status, events := s.invoices[id].events) == s.invoices[id]
                  && s' == s.(invoices := s.invoices[id := s'.invoices[id]]))
  {
  }

  // Where the status of an invoice comes from.

  /** The request processes the invoice, successfully. */
  predicate ProcessesInvoice(config: Config, s: State, request: Request, id: nat) {
    || (request.Process? && request.id == id && id in s.invoices && Processed(config, s, id, request.call).Ok?)
    || (request.ProcessNew? && s.nextInvoice == id
        && Processed(config, Added(s, request.header, None, request.dueDate, Extracted), id, request.call).Ok?)
  }

  predicate SetsManually(s: State, request: Request, id: nat, target: Status) {
    request == SetStatus(id, target) && id in s.invoices && IsAllowedTarget(target)
  }

  /** What a request leaves of an invoice: the four ways to touch it, or nothing. */
  lemma InvoiceAfter(config: Config, s: State, request: Request, id: nat)
    requires Consistent(s) && Admissible(s, request) && id in Respond(config, s, request).0.invoices
    ensures var invoice := Respond(config, s, request).0.invoices[id];
            || (id in s.invoices && invoice == s.invoices[id])
            || (id == s.nextInvoice && request.Create?
                  && invoice == Invoice(request.header, request.vendorId, request.dueDate, Received, None, []))
            || (id == s.nextInvoice && request.Ingest?
                  && invoice == Invoice(request.header, None, request.dueDate, Extracted, None, []))
            || (SetsManually(s, request, id, invoice.status) && invoice == Transitioned(s.invoices[id], invoice.status))
            || (ProcessesInvoice(config, s, request, id) && StatusTellsDecision(invoice))
  {
    hide Processed, Consistent, StatusTellsDecision, IsKnownName, IsTaken, Edited, Text.Strip, V.WithNewVersion;
    match request
    case Process(i, call) =>
      if i in s.invoices && Processed(config, s, i, call).Ok? {
        ProcessedJudges(config, s, i, call);
        ProcessingSetsStatus(config, s, i, call);
      }
    case ProcessNew(header, dueDate, call) =>
      var s1 := Added(s, header, None, dueDate, Extracted);
      AddedIsConsistent(s, header, None, dueDate, Extracted);
      if Processed(config, s1, s.nextInvoice, call).Ok? {
        ProcessedJudges(config, s1, s.nextInvoice, call);
        ProcessingSetsStatus(config, s1, s.nextInvoice, call);
      }
    case _ =>
  }

  /** Requests leave every invoice they do not name as it is. */
  lemma OthersAreUntouched(config: Config, s: State, request: Request, id: nat)
    requires Consistent(s) && Admissible(s, request) && id in s.invoices
    requires request.Process? || request.SetStatus? || request.Delete? ==> request.id != id
    ensures id in Respond(config, s, request).0.invoices && Respond(config, s, request).0.invoices[id] == s.invoices[id]
  {
    hide Processed, VendorsConsistent, PoliciesConsistent, Audited, IsKnownName, IsTaken, Edited, Text.Strip, V.WithNewVersion;
    match request
    case Process(i, call) =>
      if i in s.invoices && Processed(config, s, i, call).Ok? { ProcessedJudges(config, s, i, call); }
    case ProcessNew(header, dueDate, call) =>
      var s1 := Added(s, header, None, dueDate, Extracted);
      AddedIsConsistent(s, header, None, dueDate, Extracted);
      if Processed(config, s1, s.nextInvoice, call).Ok? { ProcessedJudges(config, s1, s.nextInvoice, call); }
    case _ =>
  }

  /** A creation adds the invoice under the next number, as given, with no vendor of its own unless it is created by
      hand, in its initial status and with an empty trail; a deletion removes the one named. */
  lemma CreationAndDeletion(config: Config, s: State, request: Request)
    ensures var (s', code) := Respond(config, s, request);
            && (request.Create? && code == CREATED ==>
                  s'.invoices == s.invoices[s.nextInvoice :=
                      Invoice(request.header, request.vendorId, request.dueDate, Received, None, [])])
            && (request.Ingest? && code == CREATED ==>
                  s'.invoices == s.invoices[s.nextInvoice := Invoice(request.header, None, request.dueDate, Extracted, None, [])])
            && (request.Delete? && code == NO_CONTENT ==> s'.invoices == s.invoices - {request.id})
            && ((request.Create? || request.Ingest?) && code == CREATED ==> s'.nextInvoice == s.nextInvoice + 1)
  {
    hide Processed, IsKnownName, IsTaken, Edited, Text.Strip, V.WithNewVersion;
  }

  function Before(config: Config, requests: seq<Request>, k: nat): State
    requires k <= |requests|
  {
    Run(config, requests[..k])
  }

  /** What last touched the invoice: a manual transition to this status, or a processing with this decision; since
      then the invoice has not changed. */
  ghost predicate LastTouched(config: Config, requests: seq<Request>, id: nat, invoice: Invoice, k: nat)
    requires k < |requests|
  {
    && (SetsManually(Before(config, requests, k), requests[k], id, invoice.status)
        || (ProcessesInvoice(config, Before(config, requests, k), requests[k], id) && StatusTellsDecision(invoice)))
    && forall j | k < j <= |requests| ::
         var s := Before(config, requests, j); id in s.invoices && s.invoices[id] == invoice
  }

  /** Over every run: an invoice that is no longer as it was created owes its status to the last request that touched
      it, which set just this status by hand or processed the invoice with the decision that the status stands for. */
  lemma {:induction false} StatusIsAccountedFor(config: Config, requests: seq<Request>, id: nat) returns (k: nat)
    requires IsRun(config, requests) && id in Run(config, requests).invoices
    requires !IsCreationStatus(Run(config, requests).invoices[id].status)
    ensures k < |requests| && LastTouched(config, requests, id, Run(config, requests).invoices[id], k)
  {
    hide Respond, Consistent, SetsManually, ProcessesInvoice, StatusTellsDecision;
    var n := |requests| - 1;
    var front := requests[..n];
    var s, invoice := Run(config, front), Run(config, requests).invoices[id];
    ReachableIsConsistent(config, front);
    InvoiceAfter(config, s, requests[n], id);
    assert requests[..n + 1] == requests;
    if SetsManually(s, requests[n], id, invoice.status) || (ProcessesInvoice(config, s, requests[n], id)
          && StatusTellsDecision(invoice)) {
      k := n;
    } else {
      k := StatusIsAccountedFor(config, front, id);
      assert front[..k] == requests[..k];
      forall j | k < j <= |requests|
        ensures id in Before(config, requests, j).invoices && Before(config, requests, j).invoices[id] == invoice
      {
        if j <= n {
          assert front[..j] == requests[..j];
          assert Before(config, front, j) == Before(config, requests, j);
        }
      }
    }
  }

  /** An approved invoice was approved by the pipeline, with AUTO_APPROVE as the last decision of its trail, or by
      hand, by a request after which it was not touched again. */
  lemma ApprovalIsAccountedFor(config: Config, requests: seq<Request>, id: nat) returns (k: nat)
    requires IsRun(config, requests) && id in Run(config, requests).invoices
             && Run(config, requests).invoices[id].status == Approved
    ensures k < |requests| && LastTouched(config, requests, id, Run(config, requests).invoices[id], k)
    ensures requests[k] == SetStatus(id, Approved) || LastDecision(Run(config, requests).invoices[id].events) == Some(AutoApprove)
  {
    k := StatusIsAccountedFor(config, requests, id);
    AuditReplays(config, requests, id);
    hide Run, IsRun, LastDecision, Replay, ProcessesInvoice;
  }

  /** The guardrail for the status itself: of two invoices that match each other exactly, each inside the lookback the
      other was judged with, not both have the status APPROVED, unless one of them was last approved by hand. */
  lemma MatchingInvoicesAreNotBothApproved(config: Config, requests: seq<Request>, x: nat, y: nat) returns (z: nat, k: nat)
    requires IsRun(config, requests) && x != y
    requires var s := Run(config, requests);
             && x in s.invoices && y in s.invoices && Flags(config, s, x, y) && Flags(config, s, y, x)
             && s.invoices[x].status == Approved && s.invoices[y].status == Approved
    ensures (z == x || z == y) && k < |requests| && requests[k] == SetStatus(z, Approved)
    ensures LastTouched(config, requests, z, Run(config, requests).invoices[z], k)
  {
    var s := Run(config, requests);
    NoMatchingApprovals(config, requests);
    z := if s.invoices[x].recommended == Some(AutoApprove) then y else x;
    hide Flags, Run, IsRun, LastTouched;
    assert !IsApproved(s, z);
    k := ApprovalIsAccountedFor(config, requests, z);
    AuditReplays(config, requests, z);
  }

  // Vendor, terms and due date.

  /** Processing changes the vendor only if the name is recognised or onboarded, keeps the number, amount, date and
      terms, and gives a due date only to an invoice without one. */
  lemma ProcessingKeepsHeader(config: Config, s: State, id: nat, call: Call)
    requires id in s.invoices && Processed(config, s, id, call).Ok?
    ensures var before, after := s.invoices[id], Processed(config, s, id, call).value.invoices[id];
            && after.header == before.header
            && (before.dueDate.Some? ==> after.dueDate == before.dueDate)
            && (before.header.date.None? ==> after.dueDate == before.dueDate)
  {
    hide Resolve, RulesFor, D.Detected, EventsOf, DuplicateRequest, PaymentTerms.Calculated;
  }

  /** Which vendor an invoice is processed for: the one its name is recognised as, the one onboarded for it, or the one
      it had. */
  lemma VendorOfProcessed(config: Config, s: State, id: nat, call: Call)
    requires Consistent(s) && SameEntries(call.scan, s.vendors) && id in s.invoices && Processed(config, s, id, call).Ok?
    ensures var before, s' := s.invoices[id], Processed(config, s, id, call).value;
            var after := s'.invoices[id];
            var named := D.Given(before.header.rawVendor);
            var known := named && IsRecognized(config, call.scan, before.header.rawVendor.value);
            && (known ==>
                  && after.vendorId.Some? && after.vendorId.value < |s.vendors|
                  && N.Resolves(s.vendors[after.vendorId.value],
                                P.NormalizeVendorName(before.header.rawVendor.value), config.fuzz, MATCH_THRESHOLD))
            && (!known && named && call.autoOnboard ==>
                  && after.vendorId == Some(|s.vendors|) && |s'.vendors| == |s.vendors| + 1
                  && s'.vendors[|s.vendors|] == N.Entry(|s.vendors|, Text.Strip(before.header.rawVendor.value), [])
                  && V.ActivePolicy(s'.policies, |s.vendors|) == Ok(Some(V.Row(|s.vendors|, 1, true, V.DEFAULT_RULES))))
            && (!known && !(named && call.autoOnboard) ==> after.vendorId == before.vendorId && s'.vendors == s.vendors)
  {
    hide RulesFor, D.Detected, EventsOf, DuplicateRequest, DueFrom, N.Normalised, P.NormalizeVendorName, N.Resolves, Text.Strip,
      V.ActivePolicy, V.WellVersioned, InvoicesConsistent, V.WithDefault, IsKnownName;
    V.DefaultIsActive(s.policies, |s.vendors|);
    if D.Given(s.invoices[id].header.rawVendor) {
      var raw := s.invoices[id].header.rawVendor.value;
      N.MatchIffRecognised(raw, call.scan, config.fuzz, MATCH_THRESHOLD, SUGGESTIONS);
      if IsRecognized(config, call.scan, raw) {
        N.MatchIsVendor(raw, call.scan, config.fuzz, MATCH_THRESHOLD, SUGGESTIONS);
        var m := N.Normalised(raw, call.scan, config.fuzz, MATCH_THRESHOLD, SUGGESTIONS).match_.value;
        var e :| e in call.scan && N.Resolves(e, P.NormalizeVendorName(raw), config.fuzz, MATCH_THRESHOLD) && m.vendorId == e.id;
        assert e in s.vendors;
      }
    }
  }

  lemma DueByTerms(header: Header, rules: V.Rules)
    requires header.date.Some? && DueFrom(header, rules).Ok?
    ensures var terms := if D.Given(header.paymentTerms) then header.paymentTerms.value else rules.paymentTerms;
            var due := PaymentTerms.Calculated(PaymentTerms.Request(header.date.value, terms, header.amount, None));
            && (terms != "" ==> due.Ok? && DueFrom(header, rules).value == Some(due.value.dueDate))
            && (terms == "" ==> DueFrom(header, rules).value == None)
  {
    hide PaymentTerms.Calculated;
  }

  lemma DueOfProcessed(config: Config, s: State, id: nat, call: Call)
    requires id in s.invoices && Processed(config, s, id, call).Ok?
    ensures var r := Resolve(config, s, s.invoices[id], call);
            && r.Ok? && RulesFor(r.value.policies, r.value.vendorId).Ok?
            && var due := DueFrom(s.invoices[id].header, RulesFor(r.value.policies, r.value.vendorId).value);
               && due.Ok?
               && (s.invoices[id].dueDate.None? ==>
                     Processed(config, s, id, call).value.invoices[id].dueDate ==
                           if due.value.Some? then due.value.value else None)
  {
    hide Resolve, RulesFor, D.Detected, EventsOf, DuplicateRequest, DueFrom, Decide;
  }

  /** The terms an invoice is due by are its own, if it has any, whatever the policy says; otherwise the policy's. */
  lemma DueDateFollowsTerms(config: Config, s: State, id: nat, call: Call)
    requires id in s.invoices && Processed(config, s, id, call).Ok?
    requires s.invoices[id].header.date.Some? && s.invoices[id].dueDate.None?
    ensures var header := s.invoices[id].header;
            var r := Resolve(config, s, s.invoices[id], call);
            && r.Ok? && RulesFor(r.value.policies, r.value.vendorId).Ok?
            && var ruled := RulesFor(r.value.policies, r.value.vendorId).value.paymentTerms;
               var terms := if D.Given(header.paymentTerms) then header.paymentTerms.value else ruled;
               var due := PaymentTerms.Calculated(PaymentTerms.Request(header.date.value, terms, header.amount, None));
               && (terms != "" ==> due.Ok? && Processed(config, s, id, call).value.invoices[id].dueDate == due.value.dueDate)
               && (terms == "" ==> Processed(config, s, id, call).value.invoices[id].dueDate == None)
  {
    hide Resolve, RulesFor, Processed, DueFrom, PaymentTerms.Calculated;
    DueOfProcessed(config, s, id, call);
    var r := Resolve(config, s, s.invoices[id], call).value;
    DueByTerms(s.invoices[id].header, RulesFor(r.policies, r.vendorId).value);
  }

  /** A policy governs as soon as it is created: for that vendor its rules are the ones looked up. */
  lemma NewPolicyGoverns(config: Config, s: State, vendor: nat, rules: V.Rules)
    requires Consistent(s) && vendor < |s.vendors|
    ensures var (s', code) := Respond(config, s, CreatePolicy(vendor, rules));
            && code == CREATED && RulesFor(s'.policies, Some(vendor)) == Ok(rules)
            && forall v | v != vendor :: RulesFor(s'.policies, Some(v)) == RulesFor(s.policies, Some(v))
  {
    V.NewVersionIsActive(s.policies, vendor, rules);
  }

  /** It stays in force until the next one is created for that vendor: no other request changes what is looked up. */
  lemma PolicyStands(config: Config, s: State, request: Request, vendor: nat)
    requires Consistent(s) && Admissible(s, request) && vendor < |s.vendors|
    requires request.CreatePolicy? ==> request.vendor != vendor
    ensures RulesFor(Respond(config, s, request).0.policies, Some(vendor)) == RulesFor(s.policies, Some(vendor))
  {
    hide Processed, VendorsConsistent, InvoicesConsistent, IsKnownName, IsTaken, Edited, Text.Strip, V.WithNewVersion,
      V.ActivePolicy, V.WellVersioned;
    match request
    case Process(id, call) =>
      if id in s.invoices && Processed(config, s, id, call).Ok? { ProcessingKeepsPolicies(config, s, id, call, vendor); }
    case ProcessNew(header, dueDate, call) =>
      var s1 := Added(s, header, None, dueDate, Extracted);
      AddedIsConsistent(s, header, None, dueDate, Extracted);
      if Processed(config, s1, s.nextInvoice, call).Ok? { ProcessingKeepsPolicies(config, s1, s.nextInvoice, call, vendor); }
    case CreateVendor(_, _, policy) => if policy.Some? { V.NewVersionIsActive(s.policies, |s.vendors|, policy.value); }
    case CreatePolicy(v, rules) => if v < |s.vendors| { V.NewVersionIsActive(s.policies, v, rules); }
    case _ =>
  }

  lemma ProcessingKeepsPolicies(config: Config, s: State, id: nat, call: Call, vendor: nat)
    requires Consistent(s) && SameEntries(call.scan, s.vendors) && id in s.invoices && Processed(config, s, id, call).Ok?
    requires vendor < |s.vendors|
    ensures RulesFor(Processed(config, s, id, call).value.policies, Some(vendor)) == RulesFor(s.policies, Some(vendor))
  {
    ProcessedJudges(config, s, id, call);
    hide Processed, D.Detected, DuplicateRequest, JudgedName, LastLookback, MatchOf, V.WellVersioned, V.ActivePolicy, IsKnownName,
      VendorsConsistent, InvoicesConsistent, V.WithDefault, V.WithNewVersion;
    V.DefaultKeepsVersions(s.policies, |s.vendors|);
    V.NewVersionIsActive(s.policies, |s.vendors|, V.DEFAULT_RULES);
  }

  /** An accepted edit gives the named vendor the new name, stripped, and the new aliases, where they are given, and
      changes nothing else; it is accepted exactly for a vendor that exists and a name that is neither blank nor
      another vendor's. */
  lemma EditChangesNamedVendor(config: Config, s: State, vendor: nat, name: Option<string>, aliases: Option<seq<string>>)
    ensures var (s', code) := Respond(config, s, UpdateVendor(vendor, name, aliases));
            && (code == OK <==>
                  && vendor < |s.vendors| && (name.Some? ==> !Text.Blank(name.value))
                  && var called := if name.Some? then Text.Strip(name.value) else s.vendors[vendor].canonicalName;
                     forall i | 0 <= i < |s.vendors| && i != vendor :: s.vendors[i].canonicalName != called)
            && (code != OK ==> s' == s)
            && (code == OK ==>
                  && vendor < |s.vendors| && s' == s.(vendors := s.vendors[vendor := s'.vendors[vendor]])
                  && s'.vendors[vendor].id == s.vendors[vendor].id
                  && (name.Some? ==> s'.vendors[vendor].canonicalName == Text.Strip(name.value) != "")
                  && (name.None? ==> s'.vendors[vendor].canonicalName == s.vendors[vendor].canonicalName)
                  && (aliases.Some? ==> s'.vendors[vendor].aliases == aliases.value)
                  && (aliases.None? ==> s'.vendors[vendor].aliases == s.vendors[vendor].aliases))
  {
    hide Text.Strip;
  }

  /** An accepted creation adds the vendor under its stripped name, with its policy if one is given. */
  lemma CreationAddsVendor(config: Config, s: State, name: string, aliases: seq<string>, policy: Option<V.Rules>)
    requires Consistent(s)
    ensures var (s', code) := Respond(config, s, CreateVendor(name, aliases, policy));
            && (code != CREATED ==> s' == s)
            && (code == CREATED <==> !Text.Blank(name) && forall v | v in s.vendors :: v.canonicalName != Text.Strip(name))
            && (code == CREATED ==>
                  && s'.vendors == s.vendors + [N.Entry(|s.vendors|, Text.Strip(name), aliases)] && s'.invoices == s.invoices
                  && RulesFor(s'.policies, Some(|s.vendors|)) == Ok(if policy.Some? then policy.value else V.DEFAULT_RULES))
  {
    hide Text.Blank, V.WithNewVersion, V.ActivePolicy, V.WellVersioned, VendorsConsistent, InvoicesConsistent;
    if policy.Some? { V.NewVersionIsActive(s.policies, |s.vendors|, policy.value); }
    V.NoRowsNoPolicy(s.policies, |s.vendors|);
  }
}
