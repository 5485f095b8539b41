/** What each change of the policy tables adds, removes and leaves alone. */
module PolicyIndexFrames {
  import opened JsonValues
  import opened Text
  import opened PolicyIndex
  import opened PolicyIndexSafety

  function OfDocumentRule(id: nat): Rule -> bool { (r: Rule) => r.document == Some(id) }

  /** The rules compiled from a document. */
  function RulesOf(t: Tables, id: nat): seq<Rule> {
    Keep(t.rules, OfDocumentRule(id))
  }

  /** The document, its rows and its rules are as before. */
  ghost predicate SameDocument(t: Tables, t': Tables, d: nat) {
    && d in t.documents && d in t'.documents && t'.documents[d] == t.documents[d]
    && RowsOf(t'.chunks, d) == RowsOf(t.chunks, d)
    && RulesOf(t', d) == RulesOf(t, d)
  }

  lemma {:induction false} RulesWithout(rules: seq<Rule>, keep: Rule -> bool, d: nat)
    requires forall r | r in rules && r.document == Some(d) :: keep(r)
    ensures Keep(Keep(rules, keep), OfDocumentRule(d)) == Keep(rules, OfDocumentRule(d))
  {
    KeepUnaffected(rules, keep, OfDocumentRule(d));
  }

  /** Dropping documents leaves the rows of the others. */
  lemma DroppingKeepsRows(t: Tables, ids: set<nat>, d: nat)
    requires d !in ids
    ensures RowsOf(DropDocuments(t, ids).chunks, d) == RowsOf(t.chunks, d)
  {
    hide Keep;
    KeepUnaffected(t.chunks, OutsideDocuments(ids), OfDocument(d));
  }

  /** Clearing a vendor removes its documents and keeps every other one with its rows and rules. */
  lemma ClearingKeepsOthers(t: Tables, vendor: nat, config: Config, d: nat)
    requires Consistent(t, config) && d in t.documents && t.documents[d].vendor != vendor
    ensures SameDocument(t, Cleared(t, vendor), d)
  {
    hide Keep, DocumentConsistent;
    var t1 := t.(rules := Keep(t.rules, RuleOutsideVendor(vendor)));
    var ids := DocumentsOf(t, vendor);
    forall r | r in t1.rules ensures r.document.Some? && r.document.value !in ids {
      assert RuleConsistent(t, r);
    }
    assert DropDocuments(t1, ids).rules == t1.rules;
    forall r | r in t.rules && r.document == Some(d) ensures RuleOutsideVendor(vendor)(r) {
      assert RuleConsistent(t, r);
    }
    RulesWithout(t.rules, RuleOutsideVendor(vendor), d);
    DroppingKeepsRows(t1, ids, d);
  }

  /** Adding a document and indexing it keeps every other one. */
  lemma AddingKeepsOthers(t: Tables, id: nat, document: Document, n: nat, config: Config, d: nat)
    requires d in t.documents && d != id
    ensures var t2 := t.(documents := t.documents[id := document], nextId := id + 1);
            var t3 := Embedded(t2, id, config);
            SameDocument(t, t3.(rules := t3.rules + CompiledRules(document.vendor, id, n)), d)
  {
    hide Keep, DocumentRows;
    var t2 := t.(documents := t.documents[id := document], nextId := id + 1);
    EmbeddedRows(t2, id, d, config);
    KeepOfConcat(t.rules, CompiledRules(document.vendor, id, n), OfDocumentRule(d));
    KeepNone(CompiledRules(document.vendor, id, n), OfDocumentRule(d));
  }

  /** The uploaded document is stored stripped, with its rows and its rules. */
  lemma UploadStoresDocument(t: Tables, request: Request, config: Config)
    requires Consistent(t, config) && request.Upload? && Respond(t, request, config).1 == CREATED
    ensures var t', id := Respond(t, request, config).0, t.nextId;
            && id !in t.documents && id in t'.documents
            && t'.documents[id] == Document(request.organization, request.vendor, Strip(request.text))
            && RowsOf(t'.chunks, id) == DocumentRows(id, t'.documents[id], config)
            && RulesOf(t', id) == CompiledRules(request.vendor, id, request.compiled)
  {
    hide Keep, DocumentRows, Cleared, DocumentConsistent;
    var id, document := t.nextId, Document(request.organization, request.vendor, Strip(request.text));
    var t1 := if request.replace then Cleared(t, request.vendor) else t;
    ClearingKeepsConsistency(t, request.vendor, config);
    ClearingKeepsVendors(t, request.vendor);
    NextIdIsNew(t, config);
    NextIdIsNew(t1, config);
    EmbeddedRows(t1.(documents := t1.documents[id := document], nextId := id + 1), id, id, config);
    KeepOfConcat(t1.rules, CompiledRules(request.vendor, id, request.compiled), OfDocumentRule(id));
    KeepAll(CompiledRules(request.vendor, id, request.compiled), OfDocumentRule(id));
    KeepNone(t1.rules, OfDocumentRule(id));
  }

  /** The next id names no document, and no rule. */
  lemma NextIdIsNew(t: Tables, config: Config)
    requires Consistent(t, config)
    ensures t.nextId !in t.documents && forall r | r in t.rules :: r.document != Some(t.nextId)
  {
    hide Keep, DocumentRows;
    assert t.nextId in t.documents ==> DocumentConsistent(t, t.nextId, config);
    forall r | r in t.rules ensures r.document != Some(t.nextId) {
      assert RuleConsistent(t, r);
    }
  }

  lemma UploadKeepsDocument(t: Tables, request: Request, config: Config, d: nat)
    requires Consistent(t, config) && request.Upload? && Respond(t, request, config).1 == CREATED
    requires d in t.documents && (request.replace ==> t.documents[d].vendor != request.vendor)
    ensures SameDocument(t, Respond(t, request, config).0, d)
  {
    hide Keep, DocumentRows, SameDocument, Strip, Cleared, Embedded;
    var document := Document(request.organization, request.vendor, Strip(request.text));
    var t1 := if request.replace then Cleared(t, request.vendor) else t;
    NextIdIsNew(t, config);
    Unchanged(t, d);
    if request.replace { ClearingKeepsOthers(t, request.vendor, config, d); }
    SameIsKept(t, t1, d);
    AddingKeepsOthers(t1, t.nextId, document, request.compiled, config, d);
    hide Consistent;
    SameTwice(t, t1, Respond(t, request, config).0, d);
  }

  /** The documents that an upload leaves in place. */
  function Remaining(t: Tables, vendor: nat, replace: bool): set<nat> {
    if replace then t.documents.Keys - DocumentsOf(t, vendor) else t.documents.Keys
  }

  lemma UploadAddsId(t: Tables, request: Request, config: Config)
    requires t.nextId !in t.documents && request.Upload? && Respond(t, request, config).1 == CREATED
    ensures var t' := Respond(t, request, config).0;
            && t'.documents.Keys == Remaining(t, request.vendor, request.replace) + {t.nextId}
            && t'.documents[t.nextId].vendor == request.vendor
            && forall d | d in t'.documents && d != t.nextId :: t'.documents[d] == t.documents[d]
  {
    hide Keep, DocumentRows, DocumentsOf, Strip;
  }

  lemma UploadAddsToVendor(t: Tables, t': Tables, vendor: nat, id: nat, replace: bool)
    requires t'.documents.Keys == Remaining(t, vendor, replace) + {id}
    requires t'.documents[id].vendor == vendor && forall d | d in t'.documents && d != id :: t'.documents[d] == t.documents[d]
    requires id !in t.documents
    ensures DocumentsOf(t', vendor) == (if replace then {} else DocumentsOf(t, vendor)) + {id}
  {
    forall d ensures d in t'.documents <==> d == id || (d in t.documents && !(replace && d in DocumentsOf(t, vendor))) {
      assert d in t'.documents <==> d in t'.documents.Keys;
    }
  }

  /** An upload adds the new document to the vendor's documents and keeps every earlier one, with its rows and rules,
      unless it replaces them; replacing, it removes the vendor's documents and no others. */
  lemma UploadKeepsOthers(t: Tables, request: Request, config: Config)
    requires Consistent(t, config) && request.Upload? && Respond(t, request, config).1 == CREATED
    ensures var t' := Respond(t, request, config).0;
            && t'.documents.Keys == Remaining(t, request.vendor, request.replace) + {t.nextId}
            && DocumentsOf(t', request.vendor) == (if request.replace then {} else DocumentsOf(t, request.vendor)) + {t.nextId}
            && forall d | d in t.documents && (request.replace ==>
                  t.documents[d].vendor != request.vendor) :: SameDocument(t, t', d)
  {
    hide Respond, Consistent, SameDocument, DocumentsOf;
    NextIdIsNew(t, config);
    UploadAddsId(t, request, config);
    UploadAddsToVendor(t, Respond(t, request, config).0, request.vendor, t.nextId, request.replace);
    forall d | d in t.documents && (request.replace ==> t.documents[d].vendor != request.vendor)
      ensures SameDocument(t, Respond(t, request, config).0, d)
    {
      UploadKeepsDocument(t, request, config, d);
    }
  }

  lemma SameIsKept(t: Tables, t1: Tables, d: nat)
    requires SameDocument(t, t1, d)
    ensures d in t1.documents
  {
  }

  lemma SameTwice(t: Tables, t1: Tables, t2: Tables, d: nat)
    requires SameDocument(t, t1, d) && SameDocument(t1, t2, d)
    ensures SameDocument(t, t2, d)
  {
  }

  /** A deletion removes exactly the named document, with its rows and its rules. */
  lemma DeleteRemovesOne(t: Tables, request: Request, config: Config)
    requires Consistent(t, config) && request.Delete? && Respond(t, request, config).1 == NO_CONTENT
    ensures var t' := Respond(t, request, config).0;
            && request.id in t.documents && t'.documents.Keys == t.documents.Keys - {request.id}
            && RowsOf(t'.chunks, request.id) == [] && RulesOf(t', request.id) == []
            && forall d | d in t.documents && d != request.id :: SameDocument(t, t', d)
  {
    hide Keep, DocumentConsistent;
    var id := request.id;
    var t' := Respond(t, request, config).0;
    var t1 := t.(rules := Keep(t.rules, RuleOutsideDocument(id)));
    forall r | r in t1.rules ensures r.document.Some? && r.document.value != id {
      assert RuleConsistent(t, r);
    }
    assert DropDocuments(t1, {id}).rules == t1.rules;
    KeepNone(t'.chunks, OfDocument(id));
    KeepNone(t'.rules, OfDocumentRule(id));
    forall d | d in t.documents && d != id ensures SameDocument(t, t', d) {
      DroppingKeepsRows(t1, {id}, d);
      RulesWithout(t.rules, RuleOutsideDocument(id), d);
    }
  }

  /** Deleting a vendor removes it with its documents, and nothing of any other vendor. */
  lemma DeletingVendorRemovesOne(t: Tables, request: Request, config: Config)
    requires Consistent(t, config) && request.DeleteVendor? && Respond(t, request, config).1 == NO_CONTENT
    ensures var t' := Respond(t, request, config).0;
            && t'.vendors == t.vendors - {request.vendor}
            && t'.documents.Keys == t.documents.Keys - DocumentsOf(t, request.vendor)
            && forall d | d in t.documents && t.documents[d].vendor != request.vendor :: SameDocument(t, t', d)
  {
    hide Keep, DocumentConsistent;
    var vendor := request.vendor;
    var t1 := Cleared(t, vendor);
    ClearingKeepsConsistency(t, vendor, config);
    RowsBelongToVendor(t1, config);
    KeepAll(t1.chunks, OutsideVendor(vendor));
    forall d | d in t.documents && t.documents[d].vendor != vendor ensures SameDocument(t, Respond(t, request, config).0, d) {
      ClearingKeepsOthers(t, vendor, config, d);
    }
  }

  /** No request changes documents, rows or rules of a vendor other than the one it names. */
  lemma OtherVendorsAreUntouched(t: Tables, request: Request, config: Config, d: nat)
    requires Consistent(t, config) && d in t.documents
    requires request.Upload? || request.Delete? || request.DeleteVendor? ==> t.documents[d].vendor != request.vendor
    ensures SameDocument(t, Respond(t, request, config).0, d)
  {
    hide Keep, DocumentRows, SameDocument, DocumentConsistent;
    match request
    case Upload(_, _, _, _, _, _) =>
      if Respond(t, request, config).1 == CREATED { UploadKeepsOthers(t, request, config); } else { Unchanged(t, d); }
    case Delete(_, _, _) =>
      if Respond(t, request, config).1 == NO_CONTENT { DeleteRemovesOne(t, request, config); } else { Unchanged(t, d); }
    case DeleteVendor(_, _) =>
      if Respond(t, request, config).1 == NO_CONTENT { DeletingVendorRemovesOne(t, request, config); } else { Unchanged(t, d); }
    case Reembed(id) => ReembedKeepsDocument(t, id, config, d);
    case CreateVendor(_) => CreatingKeepsDocument(t, request, config, d);
  }

  lemma Unchanged(t: Tables, d: nat)
    requires d in t.documents
    ensures SameDocument(t, t, d)
  {
  }

  lemma CreatingKeepsDocument(t: Tables, request: Request, config: Config, d: nat)
    requires request.CreateVendor? && d in t.documents
    ensures SameDocument(t, Respond(t, request, config).0, d)
  {
  }

  /** Indexing again restores the rows of a document, whatever they were, and leaves those of the others. */
  lemma ReembedRestoresRows(t: Tables, id: nat, config: Config, d: nat)
    requires id in t.documents
    ensures var (t', status) := Respond(t, Reembed(id), config);
            && status == OK && t'.documents == t.documents && t'.rules == t.rules
            && RowsOf(t'.chunks, d) == if d == id then DocumentRows(id, t.documents[id], config) else RowsOf(t.chunks, d)
  {
    hide Keep, DocumentRows;
    EmbeddedRows(t, id, d, config);
  }

  /** A new vendor belongs to the organization that creates it, under a new id; only a deletion removes a vendor, and
      nothing hands one over. */
  lemma VendorsKeepOwners(t: Tables, request: Request, config: Config)
    requires Consistent(t, config)
    ensures var t' := Respond(t, request, config).0;
            && (request.CreateVendor? ==>
                  t.nextId !in t.vendors && t'.vendors == t.vendors[t.nextId := request.organization]
                        && t'.documents == t.documents)
            && (request.DeleteVendor? ==>
                  forall v | v in t.vendors && v != request.vendor :: v in t'.vendors && t'.vendors[v] == t.vendors[v])
            && (!request.CreateVendor? && !request.DeleteVendor? ==> t'.vendors == t.vendors)
  {
    hide Keep, DocumentRows, DocumentConsistent;
  }

  /** Indexing again changes nothing of a consistent store. */
  lemma ReembedKeepsDocument(t: Tables, id: nat, config: Config, d: nat)
    requires Consistent(t, config) && d in t.documents
    ensures SameDocument(t, Respond(t, Reembed(id), config).0, d)
  {
    hide Keep, DocumentRows;
    if id in t.documents {
      assert DocumentConsistent(t, d, config);
      EmbeddedRows(t, id, d, config);
    }
  }

  /** Who may do what: an upload needs an owned vendor and a text that is neither blank nor flagged, a deletion an
      owned vendor and one of its own documents; a refused request changes nothing. */
  lemma AcceptedExactly(t: Tables, request: Request, config: Config)
    requires Consistent(t, config) && (request.Upload? || request.Delete? || request.DeleteVendor?)
    ensures var (t', status) := Respond(t, request, config);
            var owned := request.vendor in t.vendors && t.vendors[request.vendor] == request.organization;
            && (request.Upload? ==> (status == CREATED <==> owned && !Blank(request.text) && !request.flagged))
            && (request.Delete? ==> (status == NO_CONTENT <==> owned && request.id in DocumentsOf(t, request.vendor)))
            && (request.DeleteVendor? ==> (status == NO_CONTENT <==> owned))
            && (status >= 400 <==> status != CREATED && status != NO_CONTENT)
            && (status >= 400 ==> t' == t)
  {
    hide Keep, DocumentRows, Cleared, DropDocuments;
    if request.Delete? && request.id in t.documents { assert DocumentConsistent(t, request.id, config); }
  }

  /** Organizations are isolated: no request of one of them changes a document of another, its rows or its rules. */
  lemma OrganizationsAreIsolated(t: Tables, request: Request, config: Config, d: nat)
    requires Consistent(t, config) && d in t.documents
    requires request.Upload? || request.Delete? || request.DeleteVendor? ==> t.documents[d].organization != request.organization
    ensures SameDocument(t, Respond(t, request, config).0, d)
  {
    assert DocumentConsistent(t, d, config);
    hide Respond, Keep, DocumentRows, SameDocument, DocumentConsistent;
    if request.Upload? || request.Delete? || request.DeleteVendor? {
      if request.vendor == t.documents[d].vendor {
        AcceptedExactly(t, request, config);
        Unchanged(t, d);
        RefusedStatus(t, request, config);
      } else {
        OtherVendorsAreUntouched(t, request, config, d);
      }
    } else {
      OtherVendorsAreUntouched(t, request, config, d);
    }
  }

  lemma RefusedStatus(t: Tables, request: Request, config: Config)
    requires request.Upload? || request.Delete? || request.DeleteVendor?
    ensures var status := Respond(t, request, config).1;
            status in {CREATED, NO_CONTENT, NOT_FOUND, UNPROCESSABLE} && (request.Upload? ==> status != NO_CONTENT)
            && (!request.Upload? ==> status != CREATED)
  {
    hide Keep, DocumentRows, Cleared, DropDocuments;
  }
}
