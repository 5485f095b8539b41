/** `_clean_schema_for_gemini`: inlines `$ref`, drops `title` and `default`, and turns a
    nullable `anyOf` into `nullable`. */
module SchemaCleaner {
  import opened JsonValues

  /** Keywords that `resolve` drops wherever they occur. */
  const STRIPPED: set<Name> := {Default, Title}

  /** The last component of a path split at slashes. */
  function LastSegment(path: string): string {
    if '/' in path then LastSegment(path[1..]) else path
  }

  /** The last component is what follows the last slash, or the whole path if it has none. */
  lemma {:induction false} LastSegmentIsLast(path: string, last: string)
    requires '/' !in last
    ensures LastSegment(last) == last && LastSegment(path + "/" + last) == last
  {
    var whole := path + "/" + last;
    assert whole[|path|] == '/';
    if path == "" {
      assert whole[1..] == last;
    } else {
      LastSegmentIsLast(path[1..], last);
      assert whole[1..] == path[1..] + "/" + last;
    }
  }

  /** The definition name that a reference ends in. */
  function Target(path: string): Name {
    NameOf(LastSegment(path))
  }

  /** The definition that an object's `$ref` selects, if the definitions have it. */
  function ReferredName(m: map<Name, Json>, defs: map<Name, Json>): Option<Name> {
    if Ref in m && m[Ref].Str? && Target(m[Ref].s) in defs then Some(Target(m[Ref].s)) else None
  }

  /** Python's recursion on dicts and lists. Following a reference may nest `depth` deep; beyond
      that, as on every cyclic definition, Python raises `RecursionError`. */
  function Resolve(node: Json, defs: map<Name, Json>, depth: nat): Result<Json>
    decreases depth, node
  {
    match node
    case Arr(items) =>
      if forall i | 0 <= i < |items| :: Resolve(items[i], defs, depth).Ok? then
        Ok(Arr(seq(|items|, i requires 0 <= i < |items| && Resolve(items[i], defs, depth).Ok? =>
          Resolve(items[i], defs, depth).value)))
      else Raised
    case Obj(m) =>
      var kept := m - STRIPPED;
      if Ref in kept && !kept[Ref].Str? then Raised
      else if ReferredName(kept, defs).Some? then
        if depth == 0 then Raised
        else
          match Resolve(defs[ReferredName(kept, defs).value], defs, depth - 1) {
            case Ok(Obj(target)) => Ok(Obj(target + (kept - {Ref})))
            case _ => Raised
          }
      else if forall k | k in kept :: Resolve(kept[k], defs, depth).Ok? then
        Ok(Obj(map k | k in kept :: Resolve(kept[k], defs, depth).value))
      else Raised
    case _ => Ok(node)
  }

  /** An option that the nullable rewrite can keep. */
  predicate NonNull(option: Json) {
    option.Obj? && (Type in option.fields ==> option.fields[Type] != Str("null"))
  }

  /** The first option that is an object whose `type` is not `null`. */
  function FirstNonNull(options: seq<Json>): (r: Option<Json>)
    ensures r.None? <==> forall i | 0 <= i < |options| :: !NonNull(options[i])
    ensures r.Some? ==> exists i :: 0 <= i < |options| && options[i] == r.value && NonNull(r.value)
                                    && forall j | 0 <= j < i :: !NonNull(options[j])
  {
    if options == [] then None
    else if NonNull(options[0]) then Some(options[0])
    else
      var r := FirstNonNull(options[1..]);
      assert r.Some? ==> exists i :: 0 <= i < |options[1..]| && options[1..][i] == r.value
                                     && (forall j | 0 <= j < i :: !NonNull(options[1..][j]))
                                     && options[i + 1] == options[1..][i];
      assert forall j | 0 < j < |options| :: options[j] == options[1..][j - 1];
      r
  }

  /** The search loop inside `simplify_anyof`. */
  method FindNonNull(options: seq<Json>) returns (found: Option<Json>)
    ensures found == FirstNonNull(options)
  {
    found := None;
    for i := 0 to |options|
      invariant found.None?
      invariant FirstNonNull(options) == FirstNonNull(options[i..])
    {
      assert options[i..][1..] == options[i + 1..];
      if NonNull(options[i]) {
        found := Some(options[i]);
        break;
      }
    }
  }

  /** What a `for` loop over the argument of `anyOf` visits, as far as it can be an object. */
  function Options(anyOf: Json): Result<seq<Json>> {
    match anyOf
    case Arr(items) => Ok(items)
    case Str(_) => Ok([])
    case Obj(_) => Ok([])
    case _ => Raised
  }

  function Simplify(node: Json): Result<Json>
    decreases node
  {
    match node
    case Arr(items) =>
      if forall i | 0 <= i < |items| :: Simplify(items[i]).Ok? then
        Ok(Arr(seq(|items|, i requires 0 <= i < |items| && Simplify(items[i]).Ok? => Simplify(items[i]).value)))
      else Raised
    case Obj(m) =>
      if AnyOf in m && Options(m[AnyOf]).Raised? then Raised
      else
        var pick := if AnyOf in m then FirstNonNull(Options(m[AnyOf]).value) else None;
        if pick.Some? && pick.value.fields != map[] then
          match Simplify(pick.value) {
            case Ok(Obj(kept)) => Ok(Obj(kept + (m - {AnyOf}) + map[Nullable := Bool(true)]))
            case _ => Raised
          }
        else if forall k | k in m :: Simplify(m[k]).Ok? then
          Ok(Obj(map k | k in m :: Simplify(m[k]).value))
        else Raised
    case _ => Ok(node)
  }

  /** The definitions that the cleaner pops from its private copy of the schema. */
  function DefsOf(schema: map<Name, Json>): map<Name, Json>
    requires Defs in schema ==> schema[Defs].Obj?
  {
    if Defs in schema then schema[Defs].fields else map[]
  }

  function Body(schema: map<Name, Json>): Json {
    Obj(schema - {Defs})
  }

  /** The whole cleaner. JSON Schema Core 2020-12, section 8.2.4, makes `$defs` an object. */
  function Clean(schema: map<Name, Json>, depth: nat): Result<Json>
    requires Defs in schema ==> schema[Defs].Obj?
  {
    match Resolve(Body(schema), DefsOf(schema), depth)
    case Ok(flat) => Simplify(flat)
    case Raised => Raised
  }
}
