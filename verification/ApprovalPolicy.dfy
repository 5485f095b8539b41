/** The pipeline together with the policy tables it retrieves from: every approval rests on a document. */
module ApprovalPolicy {
  import opened JsonValues
  import opened LlmDecision
  import opened Embedding
  import I = PolicyIndex
  import S = PolicyIndexSafety
  import P = Pipeline
  import PS = PipelineSafety
  import PT = PipelineTheorems

  /** The settings of both parts; `key` is the number of the pipeline's vendors in the policy tables. */
  datatype Config = Config(pipeline: P.Config, index: I.Config, key: nat -> nat, topK: nat, sqrt: real -> real)

  datatype World = World(state: P.State, tables: I.Tables)

  /** A processing request comes with the embedding of its retrieval query. */
  datatype Step = Invoicing(request: P.Request, query: Vector) | Indexing(change: I.Request)

  const EMPTY := World(P.EMPTY, I.EMPTY)

  function Next(config: Config, w: World, step: Step): World {
    match step
    case Invoicing(request, _) => w.(state := P.Respond(config.pipeline, w.state, request).0)
    case Indexing(change) => w.(tables := I.Respond(w.tables, change, config.index).0)
  }

  function Run(config: Config, steps: seq<Step>): World {
    if steps == [] then EMPTY else Next(config, Run(config, steps[..|steps| - 1]), steps[|steps| - 1])
  }

  /** The state that a processing request works on, which for a new invoice has it added. */
  function Subject(s: P.State, request: P.Request): P.State {
    match request
    case ProcessNew(header, dueDate, _) => P.Added(s, header, None, dueDate, P.Extracted)
    case _ => s
  }

  predicate Judges(s: P.State, request: P.Request, id: nat) {
    id in Subject(s, request).invoices &&
    ((request.Process? && request.id == id) || (request.ProcessNew? && s.nextInvoice == id))
  }

  /** The vendor an invoice is judged for. */
  function VendorOf(config: Config, s: P.State, request: P.Request, id: nat): Option<nat>
    requires Judges(s, request, id)
  {
    var r := P.Resolve(config.pipeline, Subject(s, request), Subject(s, request).invoices[id], request.call);
    if r.Ok? then r.value.vendorId else None
  }

  /** The number of chunks retrieved for a vendor. */
  function Retrieved(config: Config, tables: I.Tables, vendor: nat, query: Vector): nat {
    |Retrieve(S.VendorRows(tables, config.key(vendor)), query, config.topK, config.sqrt)|
  }

  /** Processing retrieves from the current policy tables. */
  ghost predicate Admissible(config: Config, w: World, step: Step) {
    step.Invoicing? ==>
      && PS.Admissible(w.state, step.request)
      && forall id | Judges(w.state, step.request, id) ::
           var vendor := VendorOf(config, w.state, step.request, id);
           vendor.Some? ==> step.request.call.retrieved == Retrieved(config, w.tables, vendor.value, step.query)
  }

  ghost predicate IsRun(config: Config, steps: seq<Step>) {
    steps != [] ==>
      var front := steps[..|steps| - 1];
      IsRun(config, front) && Admissible(config, Run(config, front), steps[|steps| - 1])
  }

  /** The step judges the invoice for a vendor that has a policy document. */
  predicate JudgesWithDocument(config: Config, w: World, step: Step, id: nat) {
    step.Invoicing? && Judges(w.state, step.request, id) &&
    var vendor := VendorOf(config, w.state, step.request, id);
    vendor.Some? && I.DocumentsOf(w.tables, config.key(vendor.value)) != {}
  }

  lemma {:induction false} ReachableIsConsistent(config: Config, steps: seq<Step>)
    requires IsRun(config, steps)
    ensures PS.Consistent(Run(config, steps).state) && S.Consistent(Run(config, steps).tables, config.index)
  {
    hide P.Respond, I.Respond, S.DocumentConsistent;
    if steps != [] {
      var front := steps[..|steps| - 1];
      ReachableIsConsistent(config, front);
      var w, step := Run(config, front), steps[|steps| - 1];
      hide PS.Consistent, S.Consistent;
      match step
      case Invoicing(request, _) => PS.RespondKeepsConsistency(config.pipeline, w.state, request);
      case Indexing(change) => S.RespondKeepsConsistency(w.tables, change, config.index);
    }
  }

  lemma RetrievedMeansDocument(config: Config, tables: I.Tables, vendor: nat, query: Vector)
    requires S.Consistent(tables, config.index) && Retrieved(config, tables, vendor, query) > 0
    ensures I.DocumentsOf(tables, config.key(vendor)) != {}
  {
    hide I.DocumentRows, I.Keep, S.DocumentConsistent;
    RetrieveReturnsPicked(S.VendorRows(tables, config.key(vendor)), query, config.topK, config.sqrt);
    S.RowsBelongToVendor(tables, config.index);
    var rows := I.Keep(tables.chunks, S.OfVendor(config.key(vendor)));
    assert rows[0] in rows;
    assert rows[0].document in I.DocumentsOf(tables, config.key(vendor));
  }

  /** An approval that a request gives, or one that it leaves. */
  lemma ApprovedNowOrBefore(config: Config, w: World, request: P.Request, query: Vector, id: nat)
    requires PS.Consistent(w.state) && S.Consistent(w.tables, config.index)
    requires Admissible(config, w, Invoicing(request, query))
    requires PT.IsApproved(P.Respond(config.pipeline, w.state, request).0, id) && !PT.IsApproved(w.state, id)
    ensures JudgesWithDocument(config, w, Invoicing(request, query), id)
  {
    var s := Subject(w.state, request);
    hide P.Processed, PS.Consistent, S.Consistent, P.Resolve, P.IsKnownName, P.IsTaken, P.Edited, Retrieved;
    NewApprovalIsJudged(config, w.state, request, id);
    ApprovalHasVendor(config.pipeline, s, id, request.call);
    var vendor := VendorOf(config, w.state, request, id);
    RetrievedMeansDocument(config, w.tables, vendor.value, query);
  }

  lemma NewApprovalIsJudged(config: Config, s: P.State, request: P.Request, id: nat)
    requires PS.Consistent(s) && PS.Admissible(s, request)
    requires PT.IsApproved(P.Respond(config.pipeline, s, request).0, id) && !PT.IsApproved(s, id)
    ensures Judges(s, request, id)
    ensures var p := P.Processed(config.pipeline, Subject(s, request), id, request.call); p.Ok? && PT.IsApproved(p.value, id)
  {
    hide P.Processed, PS.Consistent, P.IsKnownName, P.IsTaken, P.Edited;
    match request
    case Process(i, call) =>
      if i in s.invoices && P.Processed(config.pipeline, s, i, call).Ok? { PT.ProcessedJudges(config.pipeline, s, i, call); }
    case ProcessNew(header, dueDate, call) =>
      var s1 := P.Added(s, header, None, dueDate, P.Extracted);
      PS.AddedIsConsistent(s, header, None, dueDate, P.Extracted);
      if P.Processed(config.pipeline, s1, s.nextInvoice, call).Ok? {
        PT.ProcessedJudges(config.pipeline, s1, s.nextInvoice, call);
      }
    case _ =>
  }

  /** An approval is for a vendor, and retrieved something. */
  lemma ApprovalHasVendor(config: P.Config, s: P.State, id: nat, call: P.Call)
    requires id in s.invoices && P.Processed(config, s, id, call).Ok? && PT.IsApproved(P.Processed(config, s, id, call).value, id)
    ensures var r := P.Resolve(config, s, s.invoices[id], call); r.Ok? && r.value.vendorId.Some? && call.retrieved > 0
  {
    PT.ApprovalIsEarned(config, s, id, call);
    hide P.Resolve, P.FindingsFor, P.EventsOf;
  }

  /** Over every combined run of pipeline requests and changes of the policy tables, each approved invoice was
      judged, at some step, for a vendor that had a policy document then. */
  lemma {:induction false} ApprovedHadDocument(config: Config, steps: seq<Step>, id: nat) returns (k: nat)
    requires IsRun(config, steps) && PT.IsApproved(Run(config, steps).state, id)
    ensures k < |steps| && JudgesWithDocument(config, Run(config, steps[..k]), steps[k], id)
  {
    hide P.Respond, I.Respond, PS.Consistent, S.Consistent, JudgesWithDocument, Admissible;
    var n := |steps| - 1;
    var front := steps[..n];
    if PT.IsApproved(Run(config, front).state, id) {
      k := ApprovedHadDocument(config, front, id);
      assert front[..k] == steps[..k];
    } else {
      ReachableIsConsistent(config, front);
      ApprovedNowOrBefore(config, Run(config, front), steps[n].request, steps[n].query, id);
      k := n;
    }
  }
}
