/** Policy documents, the chunk rows indexed from them, and the rules compiled from them. */
module PolicyIndex {
  import opened JsonValues
  import opened Text
  import opened Paragraphs
  import opened Chunking
  import opened Embedding

  datatype Document = Document(organization: nat, vendor: nat, text: string)
  datatype Chunk = Chunk(document: nat, vendor: nat, index: nat, text: string, embedding: Vector)
  datatype Rule = Rule(vendor: nat, document: Option<nat>)

  /** The tables: vendors with their organizations, documents by id, chunk and rule rows. New vendors
      and documents take the next unused id. */
  datatype Tables =
    Tables(vendors: map<nat, nat>, documents: map<nat, Document>, chunks: seq<Chunk>, rules: seq<Rule>, nextId: nat)

  const EMPTY: Tables := Tables(map[], map[], [], [], 0)

  datatype Config = Config(size: nat, overlap: int, embed: string -> Vector)

  const OK := 200
  const CREATED := 201
  const NO_CONTENT := 204
  const NOT_FOUND := 404
  const UNPROCESSABLE := 422

  /** The rows of a document's chunks, numbered from 0. */
  function ChunkRows(id: nat, vendor: nat, texts: seq<string>, config: Config): (rows: seq<Chunk>)
    ensures |rows| == |texts|
    ensures forall i | 0 <= i < |texts| :: rows[i] == Chunk(id, vendor, i, texts[i], config.embed(texts[i]))
  {
    seq(|texts|, i requires 0 <= i < |texts| => Chunk(id, vendor, i, texts[i], config.embed(texts[i])))
  }

  /** What indexing a document should leave in the chunk table. */
  function DocumentRows(id: nat, document: Document, config: Config): seq<Chunk> {
    ChunkRows(id, document.vendor, Chunks(ParagraphsOf(document.text), config.size, config.overlap), config)
  }

  function Keep<T(!new)>(rows: seq<T>, keep: T -> bool): (kept: seq<T>)
    ensures forall x :: x in kept <==> x in rows && keep(x)
  {
    if rows == [] then []
    else
      assert rows == [rows[0]] + rows[1..];
      (if keep(rows[0]) then [rows[0]] else []) + Keep(rows[1..], keep)
  }

  /** Row filters. */
  function OfDocument(id: nat): Chunk -> bool { (c: Chunk) => c.document == id }
  function OutsideDocuments(ids: set<nat>): Chunk -> bool { (c: Chunk) => c.document !in ids }
  function OutsideVendor(vendor: nat): Chunk -> bool { (c: Chunk) => c.vendor != vendor }
  function RuleOutsideVendor(vendor: nat): Rule -> bool { (r: Rule) => r.vendor != vendor }
  function RuleOutsideDocument(id: nat): Rule -> bool { (r: Rule) => r.document != Some(id) }

  function RowsOf(chunks: seq<Chunk>, id: nat): seq<Chunk> {
    Keep(chunks, OfDocument(id))
  }

  function DocumentsOf(t: Tables, vendor: nat): set<nat> {
    set d | d in t.documents && t.documents[d].vendor == vendor
  }

  /** Deleting documents: their chunk rows go with them, and rules lose their reference. */
  function DropDocuments(t: Tables, ids: set<nat>): Tables {
    t.(documents := t.documents - ids,
       chunks := Keep(t.chunks, OutsideDocuments(ids)),
       rules := seq(|t.rules|, i requires 0 <= i < |t.rules| =>
         if t.rules[i].document.Some? && t.rules[i].document.value in ids then t.rules[i].(document := None) else t.rules[i]))
  }

  /** `embed_document`: replaces the document's rows. */
  function Embedded(t: Tables, id: nat, config: Config): Tables
    requires id in t.documents
  {
    t.(chunks := Keep(t.chunks, OutsideDocuments({id})) + DocumentRows(id, t.documents[id], config))
  }

  /** `_clear_vendor_policy`. */
  function Cleared(t: Tables, vendor: nat): Tables {
    DropDocuments(t.(rules := Keep(t.rules, RuleOutsideVendor(vendor))), DocumentsOf(t, vendor))
  }

  datatype Request =
    | Upload(organization: nat, vendor: nat, text: string, replace: bool, flagged: bool, compiled: nat)
    | Delete(organization: nat, vendor: nat, id: nat)
    | Reembed(id: nat)
    | DeleteVendor(organization: nat, vendor: nat)
    | CreateVendor(organization: nat)

  predicate Owns(t: Tables, organization: nat, vendor: nat) {
    vendor in t.vendors && t.vendors[vendor] == organization
  }

  function CompiledRules(vendor: nat, id: nat, n: nat): (rules: seq<Rule>)
    ensures |rules| == n && forall i | 0 <= i < n :: rules[i] == Rule(vendor, Some(id))
  {
    seq(n, i => Rule(vendor, Some(id)))
  }

  /** What a request leaves in the tables, and its status. A text counts as flagged when the screening
      for instructions to the model rejects it. */
  function Respond(t: Tables, request: Request, config: Config): (Tables, nat) {
    match request
    case Upload(organization, vendor, text, replace, flagged, compiled) =>
      if Strip(text) == "" then (t, UNPROCESSABLE)
      else if !Owns(t, organization, vendor) then (t, NOT_FOUND)
      else if flagged then (t, UNPROCESSABLE)
      else
        var id := t.nextId;
        var t1 := if replace then Cleared(t, vendor) else t;
        var t2 := t1.(documents := t1.documents[id := Document(organization, vendor, Strip(text))], nextId := id + 1);
        var t3 := Embedded(t2, id, config);
        (t3.(rules := t3.rules + CompiledRules(vendor, id, compiled)), CREATED)
    case Delete(organization, vendor, id) =>
      if !Owns(t, organization, vendor) || id !in t.documents || t.documents[id].vendor != vendor
         || t.documents[id].organization != organization then (t, NOT_FOUND)
      else (DropDocuments(t.(rules := Keep(t.rules, RuleOutsideDocument(id))), {id}), NO_CONTENT)
    case Reembed(id) =>
      if id in t.documents then (Embedded(t, id, config), OK) else (t, NOT_FOUND)
    case DeleteVendor(organization, vendor) =>
      if !Owns(t, organization, vendor) then (t, NOT_FOUND)
      else
        var t1 := Cleared(t, vendor);
        (t1.(vendors := t1.vendors - {vendor}, chunks := Keep(t1.chunks, OutsideVendor(vendor))), NO_CONTENT)
    case CreateVendor(organization) =>
      (t.(vendors := t.vendors[t.nextId := organization], nextId := t.nextId + 1), CREATED)
  }

  /** The loop that builds the rows. */
  method EnumerateChunks(id: nat, vendor: nat, texts: seq<string>, config: Config) returns (rows: seq<Chunk>)
    ensures rows == ChunkRows(id, vendor, texts, config)
  {
    rows := [];
    for index := 0 to |texts|
      invariant |rows| == index
      invariant forall i | 0 <= i < index :: rows[i] == Chunk(id, vendor, i, texts[i], config.embed(texts[i]))
    {
      rows := rows + [Chunk(id, vendor, index, texts[index], config.embed(texts[index]))];
    }
  }

  /** The session's tables. Every handler checks before it writes, so a rejected request leaves them alone. */
  class PolicyStore {
    const config: Config
    var vendors: map<nat, nat>
    var documents: map<nat, Document>
    var chunks: seq<Chunk>
    var rules: seq<Rule>
    var nextId: nat

    constructor (config: Config)
      ensures this.config == config && View() == EMPTY
    {
      this.config := config;
      vendors, documents, chunks, rules, nextId := map[], map[], [], [], 0;
    }

    function View(): Tables
      reads this
    {
      Tables(vendors, documents, chunks, rules, nextId)
    }

    method EmbedDocument(id: nat)
      requires id in documents && config.size >= 1
      modifies this`chunks
      ensures View() == Embedded(old(View()), id, config)
    {
      hide Chunks, ParagraphsOf, Keep;
      chunks := Keep(chunks, OutsideDocuments({id}));
      var texts := ChunkText(documents[id].text, config.size, config.overlap);
      var rows := EnumerateChunks(id, documents[id].vendor, texts, config);
      chunks := chunks + rows;
    }

    method DropRowsOf(ids: set<nat>)
      modifies this`documents, this`chunks, this`rules
      ensures View() == DropDocuments(old(View()), ids)
    {
      documents := documents - ids;
      chunks := Keep(chunks, OutsideDocuments(ids));
      rules := DropDocuments(View(), ids).rules;
    }

    method ClearVendorPolicy(vendor: nat)
      modifies this`documents, this`chunks, this`rules
      ensures View() == Cleared(old(View()), vendor)
    {
      rules := Keep(rules, RuleOutsideVendor(vendor));
      var ids := set d | d in documents && documents[d].vendor == vendor;
      assert ids == DocumentsOf(old(View()), vendor);
      DropRowsOf(ids);
    }

    method UploadDocument(organization: nat, vendor: nat, text: string, replace: bool, flagged: bool, compiled: nat)
      returns (status: nat)
      requires config.size >= 1
      modifies this`documents, this`chunks, this`rules, this`nextId
      ensures (View(), status) ==
              Respond(old(View()), Upload(organization, vendor, text, replace, flagged, compiled), config)
    {
      hide Keep, DocumentRows, DropDocuments;
      var payload := Strip(text);
      if payload == "" {
        return UNPROCESSABLE;
      }
      if vendor !in vendors || vendors[vendor] != organization {
        return NOT_FOUND;
      }
      if flagged {
        return UNPROCESSABLE;
      }
      if replace {
        ClearVendorPolicy(vendor);
      }
      var id := nextId;
      documents, nextId := documents[id := Document(organization, vendor, payload)], id + 1;
      EmbedDocument(id);
      rules := rules + CompiledRules(vendor, id, compiled);
      return CREATED;
    }

    method DeleteDocument(organization: nat, vendor: nat, id: nat) returns (status: nat)
      modifies this`documents, this`chunks, this`rules
      ensures (View(), status) == Respond(old(View()), Delete(organization, vendor, id), config)
    {
      if vendor !in vendors || vendors[vendor] != organization {
        return NOT_FOUND;
      }
      if id !in documents || documents[id].vendor != vendor || documents[id].organization != organization {
        return NOT_FOUND;
      }
      rules := Keep(rules, RuleOutsideDocument(id));
      DropRowsOf({id});
      return NO_CONTENT;
    }
  }
}
