/** What every run of uploads, replacing uploads, deletions and re-embeddings keeps. */
module PolicyIndexSafety {
  import opened JsonValues
  import opened Text
  import opened Paragraphs
  import opened Chunking
  import opened ChunkingTheorems
  import opened Embedding
  import opened LlmDecision
  import opened PolicyIndex

  /** Every document belongs to a vendor of its organization, is not blank, and has exactly its own
      chunk rows, in order; there are no other rows; every rule points to a document of its vendor. */
  ghost predicate Consistent(t: Tables, config: Config) {
    && (forall v | v in t.vendors :: v < t.nextId)
    && (forall d | d in t.documents :: DocumentConsistent(t, d, config))
    && (forall c | c in t.chunks :: c.document in t.documents)
    && (forall r | r in t.rules :: RuleConsistent(t, r))
  }

  predicate DocumentConsistent(t: Tables, d: nat, config: Config)
    requires d in t.documents
  {
    var document := t.documents[d];
    && d < t.nextId && Owns(t, document.organization, document.vendor)
    && !Blank(document.text) && Trimmed(document.text)
    && RowsOf(t.chunks, d) == DocumentRows(d, document, config)
  }

  predicate RuleConsistent(t: Tables, r: Rule) {
    r.document.Some? && r.document.value in t.documents && t.documents[r.document.value].vendor == r.vendor
  }

  lemma {:induction false} KeepOfConcat<T(!new)>(a: seq<T>, b: seq<T>, keep: T -> bool)
    ensures Keep(a + b, keep) == Keep(a, keep) + Keep(b, keep)
  {
    if a == [] {
      assert a + b == b;
    } else {
      KeepOfConcat(a[1..], b, keep);
      assert (a + b)[0] == a[0] && (a + b)[1..] == a[1..] + b;
      var head := if keep(a[0]) then [a[0]] else [];
      assert head + (Keep(a[1..], keep) + Keep(b, keep)) == head + Keep(a[1..], keep) + Keep(b, keep);
    }
  }

  lemma {:induction false} KeepUnaffected<T(!new)>(xs: seq<T>, outer: T -> bool, inner: T -> bool)
    requires forall x | x in xs && inner(x) :: outer(x)
    ensures Keep(Keep(xs, outer), inner) == Keep(xs, inner)
  {
    if xs != [] {
      KeepUnaffected(xs[1..], outer, inner);
      var rest := Keep(xs[1..], outer);
      if outer(xs[0]) {
        assert Keep(xs, outer)[0] == xs[0] && Keep(xs, outer)[1..] == rest;
      } else {
        assert !inner(xs[0]) && Keep(xs, outer) == rest;
      }
    }
  }

  lemma {:induction false} KeepAll<T(!new)>(xs: seq<T>, keep: T -> bool)
    requires forall x | x in xs :: keep(x)
    ensures Keep(xs, keep) == xs
  {
    if xs != [] { KeepAll(xs[1..], keep); }
  }

  lemma {:induction false} KeepNone<T(!new)>(xs: seq<T>, keep: T -> bool)
    requires forall x | x in xs :: !keep(x)
    ensures Keep(xs, keep) == []
  {
    if xs != [] { KeepNone(xs[1..], keep); }
  }

  lemma DocumentRowsBelong(d: nat, document: Document, config: Config)
    ensures forall c | c in DocumentRows(d, document, config) :: c.document == d && c.vendor == document.vendor
  {
    hide Chunks, ParagraphsOf;
  }

  /** The rows of a vendor's documents are rows of that vendor. */
  lemma RowsBelongToVendor(t: Tables, config: Config)
    requires Consistent(t, config)
    ensures forall c | c in t.chunks :: c.document in t.documents && t.documents[c.document].vendor == c.vendor
  {
    hide DocumentRows, Keep;
    forall c | c in t.chunks ensures t.documents[c.document].vendor == c.vendor {
      assert DocumentConsistent(t, c.document, config);
      assert c in RowsOf(t.chunks, c.document);
      DocumentRowsBelong(c.document, t.documents[c.document], config);
    }
  }

  lemma DropKeepsConsistency(t: Tables, ids: set<nat>, config: Config)
    requires Consistent(t, config)
    requires forall r | r in t.rules :: r.document.value !in ids
    ensures Consistent(DropDocuments(t, ids), config)
    ensures DropDocuments(t, ids).rules == t.rules
  {
    hide DocumentRows, Keep, Blank;
    var t' := DropDocuments(t, ids);
    assert t'.rules == t.rules;
    forall d | d in t'.documents ensures DocumentConsistent(t', d, config) {
      assert DocumentConsistent(t, d, config);
      KeepUnaffected(t.chunks, OutsideDocuments(ids), OfDocument(d));
    }
    forall r | r in t'.rules ensures RuleConsistent(t', r) {
      assert RuleConsistent(t, r);
    }
  }

  lemma EmbeddedRows(t: Tables, id: nat, d: nat, config: Config)
    requires id in t.documents
    ensures RowsOf(Embedded(t, id, config).chunks, d) ==
            if d == id then DocumentRows(id, t.documents[id], config) else RowsOf(t.chunks, d)
  {
    hide DocumentRows, Keep;
    var others := Keep(t.chunks, OutsideDocuments({id}));
    var rows := DocumentRows(id, t.documents[id], config);
    DocumentRowsBelong(id, t.documents[id], config);
    KeepOfConcat(others, rows, OfDocument(d));
    if d == id {
      KeepNone(others, OfDocument(d));
      KeepAll(rows, OfDocument(d));
    } else {
      KeepUnaffected(t.chunks, OutsideDocuments({id}), OfDocument(d));
      KeepNone(rows, OfDocument(d));
    }
  }

  /** Indexing a document repairs its rows, whatever they were, and leaves the others alone. */
  lemma EmbeddingKeepsConsistency(t: Tables, id: nat, config: Config)
    requires id in t.documents
    requires forall v | v in t.vendors :: v < t.nextId
    requires forall d | d in t.documents && d != id :: DocumentConsistent(t, d, config)
    requires var document := t.documents[id];
             id < t.nextId && Owns(t, document.organization, document.vendor) && !Blank(document.text) && Trimmed(document.text)
    requires forall c | c in t.chunks :: c.document in t.documents
    requires forall r | r in t.rules :: RuleConsistent(t, r)
    ensures Consistent(Embedded(t, id, config), config)
  {
    hide DocumentRows, Keep, Blank;
    var t' := Embedded(t, id, config);
    DocumentRowsBelong(id, t.documents[id], config);
    forall d | d in t'.documents ensures DocumentConsistent(t', d, config) {
      assert d != id ==> DocumentConsistent(t, d, config);
      EmbeddedRows(t, id, d, config);
    }
    forall r | r in t'.rules ensures RuleConsistent(t', r) {
      assert RuleConsistent(t, r);
    }
  }

  /** Changing only the rules, the vendors or the next id keeps documents consistent. */
  lemma SameDocuments(t: Tables, t': Tables, config: Config)
    requires Consistent(t, config) && t'.documents == t.documents && t'.chunks == t.chunks && t.nextId <= t'.nextId
    requires forall v | v in t.vendors :: v in t'.vendors && t'.vendors[v] == t.vendors[v]
    requires forall v | v in t'.vendors :: v < t'.nextId
    requires forall r | r in t'.rules :: RuleConsistent(t, r)
    ensures Consistent(t', config)
  {
    hide DocumentRows, Keep, Blank;
    forall d | d in t'.documents ensures DocumentConsistent(t', d, config) {
      assert DocumentConsistent(t, d, config);
    }
    forall r | r in t'.rules ensures RuleConsistent(t', r) {
      assert RuleConsistent(t, r);
    }
  }

  lemma ClearingKeepsConsistency(t: Tables, vendor: nat, config: Config)
    requires Consistent(t, config)
    ensures Consistent(Cleared(t, vendor), config)
    ensures DocumentsOf(Cleared(t, vendor), vendor) == {} && forall r | r in Cleared(t, vendor).rules :: r.vendor != vendor
  {
    hide DocumentConsistent, Keep;
    var t1 := t.(rules := Keep(t.rules, RuleOutsideVendor(vendor)));
    SameDocuments(t, t1, config);
    DropKeepsConsistency(t1, DocumentsOf(t, vendor), config);
  }

  /** A new document, before it is indexed. */
  lemma AddedDocument(t: Tables, id: nat, document: Document, config: Config)
    requires Consistent(t, config) && id == t.nextId && Owns(t, document.organization, document.vendor)
    requires !Blank(document.text) && Trimmed(document.text)
    ensures id !in t.documents
    ensures Consistent(Embedded(t.(documents := t.documents[id := document], nextId := id + 1), id, config), config)
  {
    hide DocumentRows, Keep, Blank;
    assert id !in t.documents by { assert id in t.documents ==> DocumentConsistent(t, id, config); }
    var t2 := t.(documents := t.documents[id := document], nextId := id + 1);
    forall d | d in t2.documents && d != id ensures DocumentConsistent(t2, d, config) {
      assert DocumentConsistent(t, d, config);
    }
    forall r | r in t2.rules ensures RuleConsistent(t2, r) {
      assert RuleConsistent(t, r);
    }
    EmbeddingKeepsConsistency(t2, id, config);
  }

  lemma UploadKeepsConsistency(t: Tables, request: Request, config: Config)
    requires Consistent(t, config) && request.Upload?
    ensures Consistent(Respond(t, request, config).0, config)
  {
    hide DocumentRows, Keep, Blank, DropDocuments, DocumentConsistent;
    if Respond(t, request, config).1 == CREATED {
      var id, document := t.nextId, Document(request.organization, request.vendor, Strip(request.text));
      ClearingKeepsConsistency(t, request.vendor, config);
      ClearingKeepsVendors(t, request.vendor);
      var t1 := if request.replace then Cleared(t, request.vendor) else t;
      assert Strip(document.text) == document.text != "";
      AddedDocument(t1, id, document, config);
      var t3 := Embedded(t1.(documents := t1.documents[id := document], nextId := id + 1), id, config);
      AddingRulesKeepsConsistency(t3, CompiledRules(request.vendor, id, request.compiled), config);
    }
  }

  lemma ClearingKeepsVendors(t: Tables, vendor: nat)
    ensures Cleared(t, vendor).vendors == t.vendors && Cleared(t, vendor).nextId == t.nextId
  {
  }

  lemma AddingRulesKeepsConsistency(t: Tables, rules: seq<Rule>, config: Config)
    requires Consistent(t, config) && forall r | r in rules :: RuleConsistent(t, r)
    ensures Consistent(t.(rules := t.rules + rules), config)
  {
    hide DocumentConsistent;
    SameDocuments(t, t.(rules := t.rules + rules), config);
  }

  lemma DeletingKeepsConsistency(t: Tables, request: Request, config: Config)
    requires Consistent(t, config) && request.Delete?
    ensures Consistent(Respond(t, request, config).0, config)
  {
    hide DocumentConsistent, DropDocuments;
    if Respond(t, request, config).1 == NO_CONTENT {
      var t1 := t.(rules := Keep(t.rules, RuleOutsideDocument(request.id)));
      SameDocuments(t, t1, config);
      DropKeepsConsistency(t1, {request.id}, config);
    }
  }

  lemma DeletingVendorKeepsConsistency(t: Tables, request: Request, config: Config)
    requires Consistent(t, config) && request.DeleteVendor?
    ensures Consistent(Respond(t, request, config).0, config)
  {
    hide DropDocuments, DocumentRows, Keep, Blank;
    var vendor := request.vendor;
    if Respond(t, request, config).1 == NO_CONTENT {
      ClearingKeepsConsistency(t, vendor, config);
      var t1 := Cleared(t, vendor);
      RowsBelongToVendor(t1, config);
      assert forall d | d in t1.documents :: d !in DocumentsOf(t1, vendor);
      KeepAll(t1.chunks, OutsideVendor(vendor));
      var t' := Respond(t, request, config).0;
      assert t' == t1.(vendors := t1.vendors - {vendor});
      forall d | d in t'.documents ensures DocumentConsistent(t', d, config) {
        assert DocumentConsistent(t1, d, config);
      }
      forall r | r in t'.rules ensures RuleConsistent(t', r) {
        assert RuleConsistent(t1, r);
      }
    }
  }

  lemma RespondKeepsConsistency(t: Tables, request: Request, config: Config)
    requires Consistent(t, config)
    ensures Consistent(Respond(t, request, config).0, config)
  {
    match request
    case Upload(_, _, _, _, _, _) => UploadKeepsConsistency(t, request, config);
    case Delete(_, _, _) => DeletingKeepsConsistency(t, request, config);
    case DeleteVendor(_, _) => DeletingVendorKeepsConsistency(t, request, config);
    case Reembed(id) =>
      if id in t.documents {
        hide Embedded, DocumentRows;
        assert DocumentConsistent(t, id, config);
        EmbeddingKeepsConsistency(t, id, config);
      }
    case CreateVendor(_) =>
      hide DocumentConsistent;
      SameDocuments(t, Respond(t, request, config).0, config);
  }

  function Run(t: Tables, requests: seq<Request>, config: Config): Tables
    decreases |requests|
  {
    if requests == [] then t else Run(Respond(t, requests[0], config).0, requests[1..], config)
  }

  /** Every reachable state is consistent. */
  lemma {:induction false} ReachableIsConsistent(t: Tables, requests: seq<Request>, config: Config)
    requires Consistent(t, config)
    ensures Consistent(Run(t, requests, config), config)
    decreases |requests|
  {
    if requests != [] {
      RespondKeepsConsistency(t, requests[0], config);
      ReachableIsConsistent(Respond(t, requests[0], config).0, requests[1..], config);
    }
  }

  /** After a replacing upload the new document is the vendor's only one. */
  lemma ReplaceLeavesOneDocument(t: Tables, request: Request, config: Config)
    requires Consistent(t, config) && request.Upload? && request.replace && Respond(t, request, config).1 == CREATED
    ensures DocumentsOf(Respond(t, request, config).0, request.vendor) == {t.nextId}
    ensures forall r | r in Respond(t, request, config).0.rules && r.vendor == request.vendor :: r.document == Some(t.nextId)
  {
    hide DocumentRows, Keep;
    ClearingKeepsConsistency(t, request.vendor, config);
    ClearingKeepsVendors(t, request.vendor);
    assert Strip(Strip(request.text)) == Strip(request.text) != "";
    AddedDocument(Cleared(t, request.vendor), t.nextId,
                  Document(request.organization, request.vendor, Strip(request.text)), config);
  }

  function OfVendor(vendor: nat): Chunk -> bool { (c: Chunk) => c.vendor == vendor }

  /** The rows that retrieval reads for a vendor. */
  function VendorRows(t: Tables, vendor: nat): seq<Row<Chunk>> {
    var rows := Keep(t.chunks, OfVendor(vendor));
    seq(|rows|, i requires 0 <= i < |rows| => Row(rows[i], rows[i].embedding))
  }

  /** In every consistent state, a vendor has chunk rows exactly when it has documents. */
  lemma RowsExactlyWithDocuments(t: Tables, vendor: nat, config: Config)
    requires Consistent(t, config) && config.size >= 1
    ensures VendorRows(t, vendor) == [] <==> DocumentsOf(t, vendor) == {}
  {
    hide Keep, Chunks, ParagraphsOf;
    if d :| d in DocumentsOf(t, vendor) {
      assert DocumentConsistent(t, d, config);
      ChunksExistUnlessBlank(t.documents[d].text, config.size, config.overlap);
      var row := DocumentRows(d, t.documents[d], config)[0];
      assert row in RowsOf(t.chunks, d);
      assert row in Keep(t.chunks, OfVendor(vendor));
    } else {
      RowsBelongToVendor(t, config);
      assert forall d | d in t.documents && t.documents[d].vendor == vendor :: d in DocumentsOf(t, vendor);
      KeepNone(t.chunks, OfVendor(vendor));
    }
  }

  /** So, for an invoice that is no duplicate, the no-policy hold fires exactly when its vendor has no
      document, whatever the query and the model's answer. */
  lemma NoPolicyHoldExactlyWithoutDocuments(t: Tables, vendor: nat, query: Vector, topK: nat, sqrt: real -> real,
                                            answer: Answer, config: Config)
    requires Consistent(t, config) && config.size >= 1 && topK >= 1
    ensures var retrieved := |Retrieve(VendorRows(t, vendor), query, topK, sqrt)|;
            (exists e :: Decide(false, retrieved, answer) == Ok(e) && e.decidedBy == NoPolicyGuardrail) <==>
            DocumentsOf(t, vendor) == {}
  {
    hide Retrieve, VendorRows, DocumentsOf, Consistent, Picked;
    RowsExactlyWithDocuments(t, vendor, config);
    RetrieveReturnsPicked(VendorRows(t, vendor), query, topK, sqrt);
    if DocumentsOf(t, vendor) == {} {
      assert Decide(false, 0, answer) == Ok(Evaluation(HoldForReview, 0.5, NoPolicyGuardrail));
    }
  }
}
