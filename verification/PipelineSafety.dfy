/** What holds of the pipeline over every serial run of requests. */
module PipelineSafety {
  import opened JsonValues
  import opened Calendar
  import opened LlmDecision
  import opened Pipeline
  import D = DuplicateDetector
  import N = VendorNormaliser
  import P = Parsing
  import PaymentTerms
  import Text
  import V = VendorPolicies

  function Run(config: Config, requests: seq<Request>): State {
    if requests == [] then EMPTY
    else Respond(config, Run(config, requests[..|requests| - 1]), requests[|requests| - 1]).0
  }

  ghost predicate SameEntries(scan: seq<N.Entry>, vendors: seq<N.Entry>) {
    forall e :: e in scan <==> e in vendors
  }

  /** The vendor rows a processing request reads are the current ones, in any order. */
  ghost predicate Admissible(s: State, request: Request) {
    request.Process? || request.ProcessNew? ==> SameEntries(request.call.scan, s.vendors)
  }

  ghost predicate IsRun(config: Config, requests: seq<Request>) {
    requests != [] ==>
      var front := requests[..|requests| - 1];
      IsRun(config, front) && Admissible(Run(config, front), requests[|requests| - 1])
  }

  // The audit trail.

  /** The status that the recorded changes lead to, if each starts where the one before ended. */
  function Replay(start: Status, events: seq<Event>): Option<Status> {
    if events == [] then Some(start)
    else
      var before := Replay(start, events[..|events| - 1]);
      match events[|events| - 1]
      case StatusChanged(from, to) => if before == Some(from) then Some(to) else None
      case _ => before
  }

  /** The last recorded decision. */
  function LastDecision(events: seq<Event>): Option<Decision> {
    if events == [] then None
    else
      match events[|events| - 1]
      case DecisionMade(decision) => Some(decision)
      case _ => LastDecision(events[..|events| - 1])
  }

  /** The canonical name of the vendor last matched or onboarded. */
  function LastName(events: seq<Event>): Option<string> {
    if events == [] then None
    else
      match events[|events| - 1]
      case VendorMatched(canonical) => canonical
      case Onboarded(_, name) => Some(name)
      case _ => LastName(events[..|events| - 1])
  }

  /** The lookback of the last duplicate check. */
  function LastLookback(events: seq<Event>): Option<nat> {
    if events == [] then None
    else
      match events[|events| - 1]
      case DuplicatesChecked(_, _, lookback) => Some(lookback)
      case _ => LastLookback(events[..|events| - 1])
  }

  predicate IsCreationStatus(status: Status) {
    status == Received || status == Extracted
  }

  ghost predicate Audited(invoice: Invoice) {
    && (exists start :: IsCreationStatus(start) && Replay(start, invoice.events) == Some(invoice.status))
    && LastDecision(invoice.events) == invoice.recommended
    && invoice.status in {Received, Extracted, Approved, Held, Flagged, Rejected}
  }

  lemma ReplayOne(start: Status, events: seq<Event>, event: Event)
    ensures Replay(start, events + [event]) ==
            (match event
             case StatusChanged(from, to) => if Replay(start, events) == Some(from) then Some(to) else None
             case _ => Replay(start, events))
    ensures LastDecision(events + [event]) == if event.DecisionMade? then Some(event.decision) else LastDecision(events)
    ensures LastName(events + [event]) ==
            (match event
             case VendorMatched(canonical) => canonical
             case Onboarded(_, name) => Some(name)
             case _ => LastName(events))
    ensures LastLookback(events + [event]) ==
            if event.DuplicatesChecked? then Some(event.lookback) else LastLookback(events)
  {
    assert (events + [event])[..|events|] == events;
  }

  predicate IsQuiet(event: Event) {
    event.CompletenessChecked? || event.DuplicatesChecked? || event.TermsCalculated? || event.PolicyEvaluated?
  }

  lemma {:induction false} QuietEvents(start: Status, events: seq<Event>, quiet: seq<Event>)
    requires forall e | e in quiet :: IsQuiet(e)
    ensures Replay(start, events + quiet) == Replay(start, events)
    ensures LastDecision(events + quiet) == LastDecision(events)
    ensures LastName(events + quiet) == LastName(events)
  {
    if quiet == [] {
      assert events + quiet == events;
    } else {
      var n := |quiet| - 1;
      QuietEvents(start, events, quiet[..n]);
      assert quiet[n] in quiet;
      assert events + quiet == (events + quiet[..n]) + [quiet[n]];
      ReplayOne(start, events + quiet[..n], quiet[n]);
    }
  }

  /** A vendor was matched under this name, or onboarded under it, or neither. */
  ghost predicate NamesVendor(r: Resolution) {
    r.events == [VendorMatched(r.name)] ||
    exists v, name :: r.events == [VendorMatched(None), Onboarded(v, name)] && r.name == Some(name)
  }

  lemma MatchEvents(start: Status, events: seq<Event>, r: Resolution)
    requires NamesVendor(r)
    ensures Replay(start, events + r.events) == Replay(start, events)
    ensures LastName(events + r.events) == r.name
  {
    if r.events == [VendorMatched(r.name)] {
      ReplayOne(start, events, r.events[0]);
    } else {
      assert events + r.events == events + [r.events[0]] + [r.events[1]];
      ReplayOne(start, events, r.events[0]);
      ReplayOne(start, events + [r.events[0]], r.events[1]);
    }
  }

  lemma ChecksAreQuiet(f: Findings)
    ensures forall e | e in ChecksOf(f) :: IsQuiet(e)
  {
  }

  lemma ChecksLookback(events: seq<Event>, f: Findings)
    ensures LastLookback(events + ChecksOf(f)) == Some(f.lookback)
  {
    var check := DuplicatesChecked(f.isDuplicate, f.isNear, f.lookback);
    ReplayOne(Received, events + [CompletenessChecked], check);
    assert events + [CompletenessChecked, check] == events + [CompletenessChecked] + [check];
    if f.terms.Some? {
      ReplayOne(Received, events + [CompletenessChecked, check], TermsCalculated(f.terms.value));
      assert events + ChecksOf(f) == events + [CompletenessChecked, check] + [TermsCalculated(f.terms.value)];
    } else {
      assert events + ChecksOf(f) == events + [CompletenessChecked, check];
    }
  }

  lemma Regroup(a: seq<Event>, b: seq<Event>, c: seq<Event>, d: seq<Event>, e: seq<Event>, f: seq<Event>)
    ensures a + (b + c + d + e + f) == a + b + c + d + e + f
  {
  }

  /** What one processing appends to the trail. */
  lemma ProcessingEvents(start: Status, events: seq<Event>, r: Resolution, f: Findings, decision: Decision, previous: Status)
    requires NamesVendor(r) && Replay(start, events) == Some(previous)
    ensures var after := events + EventsOf(r, f, decision, previous);
            && Replay(start, after) == Some(StatusFor(decision))
            && LastDecision(after) == Some(decision)
            && LastName(after) == r.name
            && LastLookback(after) == Some(f.lookback)
  {
    hide ChecksOf, NamesVendor, Replay, LastDecision, LastName, LastLookback;
    var matched := events + r.events;
    MatchEvents(start, events, r);
    ChecksAreQuiet(f);
    QuietEvents(start, matched, ChecksOf(f));
    ChecksLookback(matched, f);
    var checked := matched + ChecksOf(f);
    ReplayOne(start, checked, PolicyEvaluated(decision));
    ReplayOne(start, checked + [PolicyEvaluated(decision)], DecisionMade(decision));
    ReplayOne(start, checked + [PolicyEvaluated(decision)] + [DecisionMade(decision)],
              StatusChanged(previous, StatusFor(decision)));
    Regroup(events, r.events, ChecksOf(f), [PolicyEvaluated(decision)], [DecisionMade(decision)],
            [StatusChanged(previous, StatusFor(decision))]);
  }

  // Consistency of the tables.

  predicate VendorsConsistent(vendors: seq<N.Entry>) {
    && (forall i | 0 <= i < |vendors| :: vendors[i].id == i)
    && (forall i, j | 0 <= i < j < |vendors| :: vendors[i].canonicalName != vendors[j].canonicalName)
  }

  predicate PoliciesConsistent(s: State) {
    V.WellVersioned(s.policies) && forall i | 0 <= i < |s.policies| :: s.policies[i].vendorId < |s.vendors|
  }

  ghost predicate InvoicesConsistent(s: State) {
    forall i | i in s.invoices ::
      && i < s.nextInvoice
      && (s.invoices[i].vendorId.Some? ==> s.invoices[i].vendorId.value < |s.vendors|)
      && Audited(s.invoices[i])
  }

  /** Invoices, vendors and policies refer to rows that exist; vendor names are unique; every trail replays
      to the stored status and decision; every vendor's policies are versioned consecutively. */
  ghost predicate Consistent(s: State) {
    VendorsConsistent(s.vendors) && PoliciesConsistent(s) && InvoicesConsistent(s)
  }

  lemma AddedVendor(vendors: seq<N.Entry>, name: string, aliases: seq<string>)
    requires VendorsConsistent(vendors) && !IsKnownName(vendors, name)
    ensures VendorsConsistent(vendors + [N.Entry(|vendors|, name, aliases)])
  {
    var added := vendors + [N.Entry(|vendors|, name, aliases)];
    forall i, j | 0 <= i < j < |added| ensures added[i].canonicalName != added[j].canonicalName {
      if j == |vendors| { assert added[i] in vendors; }
    }
  }

  lemma EditedVendor(vendors: seq<N.Entry>, vendor: nat, name: Option<string>, aliases: Option<seq<string>>)
    requires VendorsConsistent(vendors) && vendor < |vendors|
    requires !IsTaken(vendors, vendor, Edited(vendors[vendor], name, aliases).canonicalName)
    ensures VendorsConsistent(vendors[vendor := Edited(vendors[vendor], name, aliases)])
  {
    hide Text.Strip;
  }

  /** A resolved vendor exists, and the tables it leaves are consistent. */
  lemma ResolutionIsConsistent(config: Config, s: State, invoice: Invoice, call: Call)
    requires Consistent(s) && SameEntries(call.scan, s.vendors)
    requires invoice.vendorId.Some? ==> invoice.vendorId.value < |s.vendors|
    requires Resolve(config, s, invoice, call).Ok?
    ensures var r := Resolve(config, s, invoice, call).value;
            && VendorsConsistent(r.vendors) && PoliciesConsistent(s.(vendors := r.vendors, policies := r.policies))
            && s.vendors <= r.vendors && s.policies <= r.policies
            && (r.vendorId.Some? ==> r.vendorId.value < |r.vendors|)
            && NamesVendor(r)
  {
    hide N.Normalised, P.NormalizeVendorName, V.WellVersioned, Audited, Text.Strip;
    if MatchOf(config, invoice.header, call.scan).Some? {
      var raw := invoice.header.rawVendor.value;
      N.MatchIffRecognised(raw, call.scan, config.fuzz, MATCH_THRESHOLD, SUGGESTIONS);
      N.MatchIsVendor(raw, call.scan, config.fuzz, MATCH_THRESHOLD, SUGGESTIONS);
      var m := N.Normalised(raw, call.scan, config.fuzz, MATCH_THRESHOLD, SUGGESTIONS).match_.value;
      var e :| e in call.scan && m.vendorId == e.id;
      assert e in s.vendors;
    } else if call.autoOnboard && D.Given(invoice.header.rawVendor) {
      var name := Text.Strip(invoice.header.rawVendor.value);
      AddedVendor(s.vendors, name, []);
      V.DefaultKeepsVersions(s.policies, |s.vendors|);
    }
  }

  lemma {:induction false} ProcessedIsConsistent(config: Config, s: State, id: nat, call: Call)
    requires Consistent(s) && SameEntries(call.scan, s.vendors) && id in s.invoices && Processed(config, s, id, call).Ok?
    ensures Consistent(Processed(config, s, id, call).value)
  {
    hide Resolve, FindingsFor, Decide, EventsOf, VendorsConsistent, Replay;
    var invoice := s.invoices[id];
    ResolutionIsConsistent(config, s, invoice, call);
    var r := Resolve(config, s, invoice, call).value;
    var f := FindingsFor(config, s, id, r).value;
    var decision := Decide(f.isDuplicate, if r.vendorId.Some? then call.retrieved else 0, call.answer).value.decision;
    JudgedIsAudited(invoice, r, f, decision);
  }

  lemma JudgedIsAudited(invoice: Invoice, r: Resolution, f: Findings, decision: Decision)
    requires Audited(invoice)
    requires NamesVendor(r)
    ensures Audited(Judged(invoice, r, f, decision))
    ensures LastName(Judged(invoice, r, f, decision).events) == r.name
    ensures LastLookback(Judged(invoice, r, f, decision).events) == Some(f.lookback)
  {
    hide EventsOf;
    var start :| IsCreationStatus(start) && Replay(start, invoice.events) == Some(invoice.status);
    ProcessingEvents(start, invoice.events, r, f, decision, invoice.status);
  }

  lemma TransitionedIsAudited(invoice: Invoice, target: Status)
    requires Audited(invoice) && IsAllowedTarget(target)
    ensures Audited(Transitioned(invoice, target))
    ensures LastName(Transitioned(invoice, target).events) == LastName(invoice.events)
    ensures LastLookback(Transitioned(invoice, target).events) == LastLookback(invoice.events)
  {
    var start :| IsCreationStatus(start) && Replay(start, invoice.events) == Some(invoice.status);
    ReplayOne(start, invoice.events, StatusChanged(invoice.status, target));
  }

  lemma AddedIsConsistent(s: State, header: Header, vendorId: Option<nat>, dueDate: Option<Date>, status: Status)
    requires Consistent(s) && IsCreationStatus(status) && (vendorId.Some? ==> vendorId.value < |s.vendors|)
    ensures Consistent(Added(s, header, vendorId, dueDate, status))
  {
    hide VendorsConsistent, V.WellVersioned;
    assert Replay(status, []) == Some(status);
    assert Audited(Invoice(header, vendorId, dueDate, status, None, []));
  }

  lemma CreatedKeepsConsistency(config: Config, s: State, name: string, aliases: seq<string>, policy: Option<V.Rules>)
    requires Consistent(s)
    ensures Consistent(Respond(config, s, CreateVendor(name, aliases, policy)).0)
  {
    hide Processed, V.WellVersioned, VendorsConsistent, Audited, Text.Strip, V.WithNewVersion, IsKnownName;
    if !IsKnownName(s.vendors, Text.Strip(name)) { AddedVendor(s.vendors, Text.Strip(name), aliases); }
    if policy.Some? {
      V.NewVersionKeepsVersions(s.policies, |s.vendors|, policy.value);
      NewVersionVendors(s.policies, |s.vendors|, policy.value);
    }
  }

  lemma RespondKeepsConsistency(config: Config, s: State, request: Request)
    requires Consistent(s) && Admissible(s, request)
    ensures Consistent(Respond(config, s, request).0)
  {
    hide Processed, VendorsConsistent, V.WellVersioned, Audited, Added, Text.Strip, V.WithNewVersion, IsKnownName, IsTaken,
      Edited;
    match request
    case Create(header, vendorId, dueDate) =>
      if vendorId.None? || vendorId.value < |s.vendors| { AddedIsConsistent(s, header, vendorId, dueDate, Received); }
    case Ingest(header, dueDate) => AddedIsConsistent(s, header, None, dueDate, Extracted);
    case ProcessNew(header, dueDate, call) =>
      AddedIsConsistent(s, header, None, dueDate, Extracted);
      AddedKeepsVendors(s, header, None, dueDate, Extracted);
      var s1 := Added(s, header, None, dueDate, Extracted);
      if Processed(config, s1, s.nextInvoice, call).Ok? { ProcessedIsConsistent(config, s1, s.nextInvoice, call); }
    case Process(id, call) =>
      if id in s.invoices && Processed(config, s, id, call).Ok? { ProcessedIsConsistent(config, s, id, call); }
    case SetStatus(id, target) =>
      if id in s.invoices && IsAllowedTarget(target) { TransitionedIsAudited(s.invoices[id], target); }
    case Delete(id) =>
    case CreateVendor(name, aliases, policy) => CreatedKeepsConsistency(config, s, name, aliases, policy);
    case UpdateVendor(vendor, name, aliases) =>
      if vendor < |s.vendors| && !IsTaken(s.vendors, vendor, Edited(s.vendors[vendor], name, aliases).canonicalName) {
        EditedVendor(s.vendors, vendor, name, aliases);
      }
    case CreatePolicy(vendor, rules) =>
      V.NewVersionKeepsVersions(s.policies, vendor, rules);
      NewVersionVendors(s.policies, vendor, rules);
  }

  lemma AddedKeepsVendors(s: State, header: Header, vendorId: Option<nat>, dueDate: Option<Date>, status: Status)
    ensures var t := Added(s, header, vendorId, dueDate, status);
            t.vendors == s.vendors && t.policies == s.policies && t.nextInvoice == s.nextInvoice + 1
            && s.nextInvoice in t.invoices
  {
  }

  lemma NewVersionVendors(rows: seq<V.Row>, vendor: nat, rules: V.Rules)
    ensures var r := V.WithNewVersion(rows, vendor, rules);
            && |r| == |rows| + 1 && r[|rows|].vendorId == vendor
            && forall i | 0 <= i < |rows| :: r[i].vendorId == rows[i].vendorId && r[i].rules == rows[i].rules
  {
  }

  /** Every state that requests lead to is consistent. */
  lemma {:induction false} ReachableIsConsistent(config: Config, requests: seq<Request>)
    requires IsRun(config, requests)
    ensures Consistent(Run(config, requests))
  {
    hide Respond;
    if requests != [] {
      ReachableIsConsistent(config, requests[..|requests| - 1]);
      RespondKeepsConsistency(config, Run(config, requests[..|requests| - 1]), requests[|requests| - 1]);
    }
  }
}
