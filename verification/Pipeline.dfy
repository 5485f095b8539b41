/** The invoice pipeline of one organization (`orchestrator.py`, `workflow.py`, the invoice and vendor routes)
    over its invoices, vendors and policies. The model's verdict, the number of policy chunks retrieved for it
    and the order in which vendor rows are read are inputs of each request. */
module Pipeline {
  import opened JsonValues
  import opened Calendar
  import opened LlmDecision
  import D = DuplicateDetector
  import N = VendorNormaliser
  import PaymentTerms
  import Text
  import V = VendorPolicies

  datatype Status = Received | Extracted | Normalized | Validated | Approved | Held | Flagged | Rejected | Paid

  /** The audit trail, as far as it records names, decisions and statuses. The duplicate check is recorded
      with the lookback of the policy it was made under. */
  datatype Event =
    | VendorMatched(canonical: Option<string>)
    | Onboarded(vendor: nat, name: string)
    | CompletenessChecked
    | DuplicatesChecked(isDuplicate: bool, isNear: bool, lookback: nat)
    | TermsCalculated(due: Option<Date>)
    | PolicyEvaluated(decision: Decision)
    | DecisionMade(decision: Decision)
    | StatusChanged(from: Status, to: Status)

  /** The extracted header fields, which no request changes. */
  datatype Header = Header(
    rawVendor: Option<string>, number: Option<string>, amount: Option<real>, date: Option<Day>,
    paymentTerms: Option<string>)

  datatype Invoice = Invoice(
    header: Header, vendorId: Option<nat>, dueDate: Option<Date>, status: Status, recommended: Option<Decision>,
    events: seq<Event>)

  /** Invoices by number of creation, vendors by position, and the policy rows. */
  datatype State = State(invoices: map<nat, Invoice>, vendors: seq<N.Entry>, policies: seq<V.Row>, nextInvoice: nat)

  const EMPTY := State(map[], [], [], 0)

  /** The fuzzy score both matchers use, and the number of recent invoices compared with. */
  datatype Config = Config(fuzz: N.Fuzz, limit: nat)

  const MATCH_THRESHOLD := 85.0
  const SUGGESTIONS := 3

  /** What a processing request brings along: the flag, the order of the vendor rows, the number of policy
      chunks retrieved, and the model's answer. */
  datatype Call = Call(autoOnboard: bool, scan: seq<N.Entry>, retrieved: nat, answer: Answer)

  datatype Request =
    | Create(header: Header, vendorId: Option<nat>, dueDate: Option<Date>)
    | Ingest(header: Header, dueDate: Option<Date>)
    | ProcessNew(header: Header, dueDate: Option<Date>, call: Call)
    | Process(id: nat, call: Call)
    | SetStatus(id: nat, target: Status)
    | Delete(id: nat)
    | CreateVendor(name: string, aliases: seq<string>, policy: Option<V.Rules>)
    | UpdateVendor(vendor: nat, newName: Option<string>, newAliases: Option<seq<string>>)
    | CreatePolicy(vendor: nat, rules: V.Rules)

  const OK := 200
  const CREATED := 201
  const NO_CONTENT := 204
  const NOT_FOUND := 404
  const CONFLICT := 409
  const UNPROCESSABLE := 422
  /** Stands for every error that ends a request after it has begun to change rows. */
  const SERVER_ERROR := 500

  /** `_DECISION_STATUS` */
  function StatusFor(decision: Decision): Status {
    match decision
    case AutoApprove => Approved
    case HoldForReview => Held
    case FlagInvoice => Flagged
    case RejectInvoice => Rejected
  }

  /** `ALLOWED_TARGETS` */
  predicate IsAllowedTarget(status: Status) {
    status in {Approved, Held, Flagged, Rejected}
  }

  function FactsOf(name: Option<string>, header: Header): D.Facts {
    D.Facts(name, header.number, header.amount, if header.date.Some? then Some(Ordinal(header.date.value)) else None)
  }

  /** The newest invoices below number `k` other than `id`, at most `limit` of them. */
  function Candidates(invoices: map<nat, Invoice>, k: nat, id: nat, limit: nat): seq<D.Candidate> {
    if k == 0 || limit == 0 then []
    else if k - 1 in invoices && k - 1 != id then
      [D.Candidate(k - 1, FactsOf(invoices[k - 1].header.rawVendor, invoices[k - 1].header))] +
      Candidates(invoices, k - 1, id, limit - 1)
    else Candidates(invoices, k - 1, id, limit)
  }

  // The steps of processing an invoice.

  /** The vendor an invoice is resolved to. */
  datatype Resolution = Resolution(
    vendorId: Option<nat>, name: Option<string>, vendors: seq<N.Entry>, policies: seq<V.Row>, events: seq<Event>)

  function MatchOf(config: Config, header: Header, scan: seq<N.Entry>): Option<N.Match> {
    if D.Given(header.rawVendor)
    then N.Normalised(header.rawVendor.value, scan, config.fuzz, MATCH_THRESHOLD, SUGGESTIONS).match_
    else None
  }

  predicate IsKnownName(vendors: seq<N.Entry>, name: string) {
    exists v :: v in vendors && v.canonicalName == name
  }

  function Resolve(config: Config, s: State, invoice: Invoice, call: Call): Result<Resolution> {
    var found := MatchOf(config, invoice.header, call.scan);
    if found.Some? then
      Ok(Resolution(Some(found.value.vendorId), Some(found.value.canonicalName), s.vendors, s.policies,
                    [VendorMatched(Some(found.value.canonicalName))]))
    else if call.autoOnboard && D.Given(invoice.header.rawVendor) then
      var name := Text.Strip(invoice.header.rawVendor.value);
      if IsKnownName(s.vendors, name) then Raised
      else
        Ok(Resolution(Some(|s.vendors|), Some(name), s.vendors + [N.Entry(|s.vendors|, name, [])],
                      V.WithDefault(s.policies, |s.vendors|), [VendorMatched(None), Onboarded(|s.vendors|, name)]))
    else Ok(Resolution(invoice.vendorId, None, s.vendors, s.policies, [VendorMatched(None)]))
  }

  /** The settings of the governing policy. */
  function RulesFor(policies: seq<V.Row>, vendorId: Option<nat>): Result<V.Rules> {
    if vendorId.None? then Ok(V.DEFAULT_RULES)
    else
      match V.ActivePolicy(policies, vendorId.value)
      case Raised => Raised
      case Ok(None) => Ok(V.DEFAULT_RULES)
      case Ok(Some(row)) => Ok(row.rules)
  }

  /** The name an invoice is compared under: the vendor's canonical name, or its own raw one. */
  function NameFor(canonical: Option<string>, header: Header): Option<string> {
    if D.Given(canonical) then canonical else header.rawVendor
  }

  function DuplicateRequest(config: Config, s: State, id: nat, canonical: Option<string>, rules: V.Rules): D.Request
    requires id in s.invoices
  {
    var header := s.invoices[id].header;
    D.Request(FactsOf(NameFor(canonical, header), header), Candidates(s.invoices, s.nextInvoice, id, config.limit),
              rules.tolerance, MATCH_THRESHOLD, Some(rules.lookback))
  }

  /** The payment terms that apply; empty when neither the invoice nor the policy names any. */
  function TermsFor(header: Header, rules: V.Rules): string {
    if D.Given(header.paymentTerms) then header.paymentTerms.value else rules.paymentTerms
  }

  /** The due date from the terms, or nothing when no terms are calculated. The calculation admits no
      negative amount. */
  function DueFrom(header: Header, rules: V.Rules): Result<Option<Option<Date>>> {
    var terms := TermsFor(header, rules);
    if header.date.None? || terms == "" then Ok(None)
    else if header.amount.Some? && header.amount.value < 0.0 then Raised
    else
      var calculated := PaymentTerms.Calculated(PaymentTerms.Request(header.date.value, terms, header.amount, None));
      if calculated.Raised? then Raised else Ok(Some(calculated.value.dueDate))
  }

  /** The facts the decision rests on. */
  datatype Findings = Findings(isDuplicate: bool, isNear: bool, lookback: nat, terms: Option<Option<Date>>)

  function FindingsFor(config: Config, s: State, id: nat, r: Resolution): Result<Findings>
    requires id in s.invoices
  {
    var rules := RulesFor(r.policies, r.vendorId);
    if rules.Raised? then Raised
    else
      var report := D.Detected(DuplicateRequest(config, s, id, r.name, rules.value), config.fuzz);
      var due := DueFrom(s.invoices[id].header, rules.value);
      if report.Raised? || due.Raised? then Raised
      else Ok(Findings(report.value.isDuplicate, report.value.isNear, rules.value.lookback, due.value))
  }

  /** The events between resolving the vendor and deciding. */
  function ChecksOf(f: Findings): seq<Event> {
    [CompletenessChecked, DuplicatesChecked(f.isDuplicate, f.isNear, f.lookback)] +
    if f.terms.Some? then [TermsCalculated(f.terms.value)] else []
  }

  function EventsOf(r: Resolution, f: Findings, decision: Decision, previous: Status): seq<Event> {
    r.events + ChecksOf(f) + [PolicyEvaluated(decision)] + [DecisionMade(decision)] +
    [StatusChanged(previous, StatusFor(decision))]
  }

  function Judged(invoice: Invoice, r: Resolution, f: Findings, decision: Decision): Invoice {
    invoice.(
    vendorId := r.vendorId,
    dueDate := if invoice.dueDate.None? && f.terms.Some? then f.terms.value else invoice.dueDate,
    recommended := Some(decision),
    status := StatusFor(decision),
    events := invoice.events + EventsOf(r, f, decision, invoice.status))
  }

  /** `process_invoice` */
  function Processed(config: Config, s: State, id: nat, call: Call): Result<State>
    requires id in s.invoices
  {
    var r := Resolve(config, s, s.invoices[id], call);
    if r.Raised? then Raised
    else
      var f := FindingsFor(config, s, id, r.value);
      if f.Raised? then Raised
      else
        var evaluation := Decide(f.value.isDuplicate, if r.value.vendorId.Some? then call.retrieved else 0, call.answer);
        if evaluation.Raised? then Raised
        else
          Ok(s.(invoices := s.invoices[id := Judged(s.invoices[id], r.value, f.value, evaluation.value.decision)],
                vendors := r.value.vendors,
                policies := r.value.policies))
  }

  /** `transition_status` */
  function Transitioned(invoice: Invoice, target: Status): Invoice {
    invoice.(status := target, events := invoice.events + [StatusChanged(invoice.status, target)])
  }

  function Added(s: State, header: Header, vendorId: Option<nat>, dueDate: Option<Date>, status: Status): State {
    s.(invoices := s.invoices[s.nextInvoice := Invoice(header, vendorId, dueDate, status, None, [])],
       nextInvoice := s.nextInvoice + 1)
  }

  /** The vendor with the given fields replaced. */
  function Edited(entry: N.Entry, name: Option<string>, aliases: Option<seq<string>>): N.Entry {
    entry.(canonicalName := if name.Some? then Text.Strip(name.value) else entry.canonicalName,
           aliases := if aliases.Some? then aliases.value else entry.aliases)
  }

  /** Another vendor has this canonical name. */
  predicate IsTaken(vendors: seq<N.Entry>, vendor: nat, name: string) {
    exists i :: 0 <= i < |vendors| && i != vendor && vendors[i].canonicalName == name
  }

  /** What a request leaves in the database, and its response status. */
  function Respond(config: Config, s: State, request: Request): (State, nat) {
    match request
    case Create(header, vendorId, dueDate) =>
      if vendorId.Some? && vendorId.value >= |s.vendors| then (s, SERVER_ERROR)
      else (Added(s, header, vendorId, dueDate, Received), CREATED)
    case Ingest(header, dueDate) => (Added(s, header, None, dueDate, Extracted), CREATED)
    case ProcessNew(header, dueDate, call) =>
      var r := Processed(config, Added(s, header, None, dueDate, Extracted), s.nextInvoice, call);
      if r.Ok? then (r.value, CREATED) else (s, SERVER_ERROR)
    case Process(id, call) =>
      if id !in s.invoices then (s, NOT_FOUND)
      else
        var r := Processed(config, s, id, call);
        if r.Ok? then (r.value, OK) else (s, SERVER_ERROR)
    case SetStatus(id, target) =>
      if id !in s.invoices then (s, NOT_FOUND)
      else if !IsAllowedTarget(target) then (s, UNPROCESSABLE)
      else (s.(invoices := s.invoices[id := Transitioned(s.invoices[id], target)]), OK)
    case Delete(id) =>
      if id !in s.invoices then (s, NOT_FOUND) else (s.(invoices := s.invoices - {id}), NO_CONTENT)
    case CreateVendor(name, aliases, policy) =>
      if Text.Strip(name) == "" then (s, UNPROCESSABLE)
      else if IsKnownName(s.vendors, Text.Strip(name)) then (s, CONFLICT)
      else
        (s.(vendors := s.vendors + [N.Entry(|s.vendors|, Text.Strip(name), aliases)],
            policies := if policy.Some? then V.WithNewVersion(s.policies, |s.vendors|, policy.value) else s.policies),
         CREATED)
    case UpdateVendor(vendor, name, aliases) =>
      if name.Some? && Text.Strip(name.value) == "" then (s, UNPROCESSABLE)
      else if vendor >= |s.vendors| then (s, NOT_FOUND)
      else
        var edited := Edited(s.vendors[vendor], name, aliases);
        if IsTaken(s.vendors, vendor, edited.canonicalName) then (s, CONFLICT)
        else (s.(vendors := s.vendors[vendor := edited]), OK)
    case CreatePolicy(vendor, rules) =>
      if vendor >= |s.vendors| then (s, NOT_FOUND)
      else (s.(policies := V.WithNewVersion(s.policies, vendor, rules)), CREATED)
  }

  /** A request's session: uncommitted changes to the tables. */
  class Session {
    var invoices: map<nat, Invoice>
    var vendors: seq<N.Entry>
    var policies: seq<V.Row>
    var nextInvoice: nat

    function Current(): State
      reads this
    {
      State(invoices, vendors, policies, nextInvoice)
    }

    constructor (s: State)
      ensures Current() == s
    {
      invoices, vendors, policies, nextInvoice := s.invoices, s.vendors, s.policies, s.nextInvoice;
    }

    /** Matching the vendor, and onboarding one that is not recognised if asked to. */
    method ResolveVendor(config: Config, id: nat, call: Call) returns (r: Result<Resolution>)
      requires id in invoices
      modifies this
      ensures r == Resolve(config, old(Current()), old(invoices)[id], call)
      ensures nextInvoice == old(nextInvoice)
      ensures r.Ok? ==> vendors == r.value.vendors && policies == r.value.policies
      ensures r.Ok? ==> invoices == old(invoices)[id := old(invoices)[id].(vendorId := r.value.vendorId)]
    {
      hide N.Normalised, V.WithDefault;
      var canonical: Option<string> := None;
      var recognized := false;
      var invoice := invoices[id];
      if D.Given(invoice.header.rawVendor) {
        var outcome := N.NormaliseVendor(invoice.header.rawVendor.value, call.scan, config.fuzz, MATCH_THRESHOLD, SUGGESTIONS);
        N.MatchIffRecognised(invoice.header.rawVendor.value, call.scan, config.fuzz, MATCH_THRESHOLD, SUGGESTIONS);
        recognized := outcome.isRecognized;
        if outcome.match_.Some? {
          invoice := invoice.(vendorId := Some(outcome.match_.value.vendorId));
          canonical := Some(outcome.match_.value.canonicalName);
        }
      }
      var events := [VendorMatched(canonical)];
      if call.autoOnboard && !recognized && D.Given(invoice.header.rawVendor) {
        var name := Text.Strip(invoice.header.rawVendor.value);
        if IsKnownName(vendors, name) { return Raised; }
        var vendor := |vendors|;
        vendors := vendors + [N.Entry(vendor, name, [])];
        policies := V.WithDefault(policies, vendor);
        invoice := invoice.(vendorId := Some(vendor));
        canonical := Some(name);
        events := events + [Onboarded(vendor, name)];
        assert events == [VendorMatched(None), Onboarded(vendor, name)];
      }
      invoices := invoices[id := invoice];
      r := Ok(Resolution(invoice.vendorId, canonical, vendors, policies, events));
    }

    /** The governing policy, the duplicate check and the payment terms, with the events they leave. */
    method Examine(config: Config, id: nat, resolution: Resolution) returns (r: Result<Findings>, events: seq<Event>)
      requires id in invoices && policies == resolution.policies && invoices[id].vendorId == resolution.vendorId
      ensures r == FindingsFor(config, Current(), id, resolution)
      ensures r.Ok? ==> events == ChecksOf(r.value)
    {
      hide D.Detected, PaymentTerms.Calculated, V.ActivePolicy, FactsOf;
      events := [];
      var header := invoices[id].header;
      var rules := RulesFor(policies, invoices[id].vendorId);
      if rules.Raised? { return Raised, events; }
      events := events + [CompletenessChecked];
      var report := D.DetectDuplicates(DuplicateRequest(config, Current(), id, resolution.name, rules.value), config.fuzz);
      if report.Raised? { return Raised, events; }
      events := events + [DuplicatesChecked(report.value.isDuplicate, report.value.isNear, rules.value.lookback)];
      var terms := TermsFor(header, rules.value);
      var due: Option<Option<Date>> := None;
      if header.date.Some? && terms != "" {
        if header.amount.Some? && header.amount.value < 0.0 { return Raised, events; }
        var calculated := PaymentTerms.CalculatePaymentTerms(
          PaymentTerms.Request(header.date.value, terms, header.amount, None));
        if calculated.Raised? { return Raised, events; }
        due := Some(calculated.value.dueDate);
        events := events + [TermsCalculated(calculated.value.dueDate)];
      }
      r := Ok(Findings(report.value.isDuplicate, report.value.isNear, rules.value.lookback, due));
    }

    method ProcessInvoice(config: Config, id: nat, call: Call) returns (r: Result<Decision>)
      requires id in invoices
      modifies this
      ensures var p := Processed(config, old(Current()), id, call);
              && (r.Ok? <==> p.Ok?)
              && (r.Ok? ==> Current() == p.value && Some(r.value) == invoices[id].recommended)
    {
      hide Resolve, FindingsFor, Decide;
      ghost var before := Current();
      var resolved := ResolveVendor(config, id, call);
      if resolved.Raised? { return Raised; }
      var resolution := resolved.value;
      var invoice := invoices[id];
      HeadersDecideFindings(config, before, Current(), id, resolution);
      var findings, events := Examine(config, id, resolution);
      if findings.Raised? { return Raised; }
      events := resolution.events + events;
      if invoice.dueDate.None? && findings.value.terms.Some? {
        invoice := invoice.(dueDate := findings.value.terms.value);
      }
      var evaluation := Decide(findings.value.isDuplicate, if invoice.vendorId.Some? then call.retrieved else 0, call.answer);
      if evaluation.Raised? { return Raised; }
      var decision := evaluation.value.decision;
      events := events + [PolicyEvaluated(decision)];
      var previous := invoice.status;
      invoice := invoice.(recommended := Some(decision));
      invoice := invoice.(status := StatusFor(decision));
      events := events + [DecisionMade(decision)];
      events := events + [StatusChanged(previous, invoice.status)];
      assert events == EventsOf(resolution, findings.value, decision, previous);
      invoices := invoices[id := invoice.(events := invoice.events + events)];
      assert invoices[id] == Judged(before.invoices[id], resolution, findings.value, decision);
      assert invoices == before.invoices[id := invoices[id]];
      r := Ok(decision);
    }

    method TransitionStatus(id: nat, target: Status) returns (ok: bool)
      requires id in invoices
      modifies this
      ensures ok == IsAllowedTarget(target)
      ensures Current() == if ok then old(Current()).(invoices := old(invoices)[id := Transitioned(old(invoices)[id], target)])
                           else old(Current())
    {
      if !IsAllowedTarget(target) { return false; }
      var invoice := invoices[id];
      var previous := invoice.status;
      invoice := invoice.(status := target);
      invoices := invoices[id := invoice.(events := invoice.events + [StatusChanged(previous, target)])];
      return true;
    }
  }

  /** Duplicate candidates depend on the headers of the other invoices only. */
  lemma {:induction false} OwnVendorIsIrrelevant(
      before: map<nat, Invoice>, after: map<nat, Invoice>, id: nat, k: nat, limit: nat)
    requires before.Keys == after.Keys && forall i | i in before :: before[i].header == after[i].header
    ensures Candidates(before, k, id, limit) == Candidates(after, k, id, limit)
    decreases k
  {
    if k > 0 && limit > 0 {
      OwnVendorIsIrrelevant(before, after, id, k - 1, limit - 1);
      OwnVendorIsIrrelevant(before, after, id, k - 1, limit);
    }
  }

  /** So the findings are the same before and after the vendor is resolved. */
  lemma HeadersDecideFindings(config: Config, before: State, after: State, id: nat, r: Resolution)
    requires id in before.invoices && before.nextInvoice == after.nextInvoice
    requires before.invoices.Keys == after.invoices.Keys
    requires forall i | i in before.invoices :: before.invoices[i].header == after.invoices[i].header
    ensures FindingsFor(config, before, id, r) == FindingsFor(config, after, id, r)
  {
    hide D.Detected, DueFrom, RulesFor, FactsOf, Candidates;
    OwnVendorIsIrrelevant(before.invoices, after.invoices, id, before.nextInvoice, config.limit);
  }

  /** The processing requests: the work is committed if it succeeds, and rolled back otherwise. */
  method Serve(config: Config, s: State, request: Request) returns (after: State, code: nat)
    requires request.Process? || request.ProcessNew? || request.SetStatus?
    ensures (after, code) == Respond(config, s, request)
  {
    hide Processed, Transitioned;
    match request
    case Process(id, call) =>
      if id !in s.invoices { return s, NOT_FOUND; }
      var session := new Session(s);
      var r := session.ProcessInvoice(config, id, call);
      if r.Raised? { return s, SERVER_ERROR; }
      return session.Current(), OK;
    case ProcessNew(header, dueDate, call) =>
      var session := new Session(Added(s, header, None, dueDate, Extracted));
      var r := session.ProcessInvoice(config, s.nextInvoice, call);
      if r.Raised? { return s, SERVER_ERROR; }
      return session.Current(), CREATED;
    case SetStatus(id, target) =>
      if id !in s.invoices { return s, NOT_FOUND; }
      var session := new Session(s);
      var ok := session.TransitionStatus(id, target);
      if !ok { return s, UNPROCESSABLE; }
      return session.Current(), OK;
  }
}
