/** What a schema accepts, and the fragment of schemas on which the cleaner is studied. One
    definition reads both dialects: `$ref`, `$defs` and `anyOf` as in JSON Schema Core 2020-12
    (sections 8.2.3.1, 8.2.4 and 10.2.1.2), `nullable` as in OpenAPI 3.0.3 (section 4.7.24). */
module SchemaMeaning {
  import opened JsonValues
  import opened SchemaCleaner

  /** A keyword's argument, with every subschema in it replaced by the set of values it accepts. */
  datatype Argument =
    | Literal(arg: Json)
    | One(accepted: iset<Json>)
    | Each(byName: map<Name, iset<Json>>)
    | Row(inOrder: seq<iset<Json>>)

  /** No keyword, no constraint. */
  ghost predicate IsNeutral(meaning: (map<Name, Argument>, Json) -> bool) {
    forall v :: meaning(map[], v)
  }

  /** The meaning of all keywords but `$ref`, `anyOf`, `type` and `nullable`, taken together: any condition
      on their arguments and the value. It sees subschemas only through what they accept. */
  type Vocabulary = meaning: (map<Name, Argument>, Json) -> bool | IsNeutral(meaning) ghost witness (m, v) => true

  /** Keywords that constrain nothing (sections 9.1 to 9.5 of JSON Schema Validation 2020-12). */
  predicate IsAnnotation(k: Name) {
    k in STRIPPED || k.Note?
  }

  /** Keywords that the cleaner treats specially wherever they occur as an object member. */
  const SPECIAL: set<Name> := {Ref, AnyOf, Default, Title, Defs}

  predicate HasType(name: string, v: Json) {
    match v
    case Null => name == "null"
    case Bool(_) => name == "boolean"
    case Num(n) => name == "number" || (name == "integer" && n == n.Floor as real)
    case Str(_) => name == "string"
    case Arr(_) => name == "array"
    case Obj(_) => name == "object"
  }

  /** The `type` keyword with one name or a list of names. */
  predicate TypeAllows(arg: Json, v: Json) {
    match arg
    case Str(name) => HasType(name, v)
    case Arr(names) => exists i :: 0 <= i < |names| && names[i].Str? && HasType(names[i].s, v)
    case _ => false
  }

  predicate AllowsNull(m: map<Name, Json>) {
    Nullable in m && m[Nullable] == Bool(true)
  }

  predicate TypeHolds(m: map<Name, Json>, v: Json) {
    Type in m ==> TypeAllows(m[Type], v) || (v.Null? && AllowsNull(m))
  }

  /** The definition that a `$ref` of the form `#/$defs/Name` points to. */
  predicate PointsToDefinition(arg: Json, defs: map<Name, Json>) {
    arg.Str? && Target(arg.s) in defs && arg.s == "#/$defs/" + LastSegment(arg.s)
  }

  /** Keywords whose meaning is left to the vocabulary. */
  predicate IsVocabulary(k: Name) {
    k.Single? || k.Mapped? || k.Listed? || k.Other?
  }

  /** The schemas `true` and `false`. */
  predicate Passes(b: bool, v: Json) {
    b
  }

  ghost predicate InSome(v: Json, sets: seq<iset<Json>>) {
    exists i :: 0 <= i < |sets| && v in sets[i]
  }

  /** The values that schema `s` accepts, following references at most `depth` deep. */
  ghost function Meaning(s: Json, defs: map<Name, Json>, depth: nat, vocab: Vocabulary): iset<Json>
    decreases depth, s, 1
  {
    match s
    case Bool(b) => iset v: Json | Passes(b, v)
    case Obj(m) =>
      iset v: Json |
        && (Ref in m ==> v in ReferenceMeans(m[Ref], defs, depth, vocab))
        && (AnyOf in m ==> v in OptionsMean(m[AnyOf], defs, depth, vocab))
        && TypeHolds(m, v)
        && vocab(Arguments(s, defs, depth, vocab), v)
    case _ => iset{}
  }

  ghost function ReferenceMeans(arg: Json, defs: map<Name, Json>, depth: nat, vocab: Vocabulary): iset<Json>
    decreases depth, arg
  {
    if PointsToDefinition(arg, defs) && depth > 0 then Meaning(defs[Target(arg.s)], defs, depth - 1, vocab) else iset{}
  }

  ghost function OptionsMean(arg: Json, defs: map<Name, Json>, depth: nat, vocab: Vocabulary): iset<Json>
    decreases depth, arg
  {
    if arg.Arr? then
      var sets := seq(|arg.items|, i requires 0 <= i < |arg.items| => Meaning(arg.items[i], defs, depth, vocab));
      iset v: Json | InSome(v, sets)
    else iset{}
  }

  /** The arguments of the vocabulary keywords. */
  ghost function Arguments(s: Json, defs: map<Name, Json>, depth: nat, vocab: Vocabulary): map<Name, Argument>
    requires s.Obj?
    decreases depth, s, 0
  {
    map k | k in s.fields && IsVocabulary(k) :: ArgumentOf(k, s.fields[k], defs, depth, vocab)
  }

  ghost function ArgumentOf(k: Name, arg: Json, defs: map<Name, Json>, depth: nat, vocab: Vocabulary): Argument
    decreases depth, arg, 2
  {
    if k.Single? then One(Meaning(arg, defs, depth, vocab))
    else if k.Mapped? && arg.Obj? then Each(map p | p in arg.fields :: Meaning(arg.fields[p], defs, depth, vocab))
    else if k.Listed? && arg.Arr? then
      Row(seq(|arg.items|, i requires 0 <= i < |arg.items| => Meaning(arg.items[i], defs, depth, vocab)))
    else Literal(arg)
  }

  /** What a schema without definitions accepts. */
  ghost function MeaningAlone(s: Json, vocab: Vocabulary): iset<Json> {
    Meaning(s, map[], 0, vocab)
  }

  /** `t` is a subschema in the argument of keyword `k`. */
  predicate IsPart(t: Json, k: Name, arg: Json) {
    if k.Single? then t == arg
    else if k.Mapped? then arg.Obj? && exists p :: p in arg.fields && arg.fields[p] == t
    else if k.Listed? then arg.Arr? && t in arg.items
    else false
  }

  /** `t` is a subschema directly inside `s`, not counting the options of a union. */
  predicate IsInside(t: Json, s: Json) {
    s.Obj? && exists k :: k in s.fields && IsPart(t, k, s.fields[k])
  }

  lemma InsideIsSmaller(t: Json, s: Json)
    requires IsInside(t, s)
    ensures t < s
  {
    var k :| k in s.fields && IsPart(t, k, s.fields[k]);
    if k.Mapped? {
      var p :| p in s.fields[k].fields && s.fields[k].fields[p] == t;
    }
  }

  /** No object at any depth has a member named in `names`. */
  predicate Without(j: Json, names: set<Name>) {
    match j
    case Arr(items) => forall i | 0 <= i < |items| :: Without(items[i], names)
    case Obj(m) => forall k | k in m :: k !in names && Without(m[k], names)
    case _ => true
  }

  predicate Plain(j: Json) {
    Without(j, SPECIAL)
  }

  const NULL_SCHEMA: Json := Obj(map[Type := Str("null")])

  /** Two options, one of which is the schema of `null`. */
  predicate IsNullUnion(arg: Json) {
    arg.Arr? && |arg.items| == 2 && (arg.items[0] == NULL_SCHEMA || arg.items[1] == NULL_SCHEMA)
  }

  function Kept(arg: Json): (kept: Json)
    requires IsNullUnion(arg)
    ensures kept in arg.items
  {
    if arg.items[0] == NULL_SCHEMA then arg.items[1] else arg.items[0]
  }

  /** All members except `but` are annotations with inert arguments. */
  predicate OnlyAnnotationsBesides(m: map<Name, Json>, but: Name) {
    forall k | k in m && k != but && k !in STRIPPED :: IsAnnotation(k) && Plain(m[k])
  }

  /** A reference's siblings, as `resolve` merges them. */
  function Siblings(m: map<Name, Json>): map<Name, Json> {
    m - STRIPPED - {Ref}
  }

  /** An object schema that, behind any chain of references, is not itself the schema of `null`. */
  predicate NotNullType(s: Json, defs: map<Name, Json>, depth: nat)
    decreases depth
  {
    && s.Obj?
    && if Ref in s.fields then
         PointsToDefinition(s.fields[Ref], defs) && depth > 0 && NotNullType(defs[Target(s.fields[Ref].s)], defs, depth - 1)
       else
         Type in s.fields ==> s.fields[Type] != Str("null")
  }

  /** An object schema that keeps a member when references are inlined and `title` and `default` dropped. */
  predicate NonEmpty(s: Json, defs: map<Name, Json>, depth: nat)
    decreases depth
  {
    && s.Obj?
    && if Ref in s.fields then
         || Siblings(s.fields) != map[]
         || (PointsToDefinition(s.fields[Ref], defs) && depth > 0 && NonEmpty(defs[Target(s.fields[Ref].s)], defs, depth - 1))
       else
         s.fields - STRIPPED != map[]
  }

  /** The argument has the shape that its keyword asks for: no property is named like a keyword that the
      cleaner treats specially, and no such keyword occurs in a literal. */
  predicate WellShaped(k: Name, arg: Json) {
    if k.Single? then true
    else if k.Mapped? then arg.Obj? && forall p | p in arg.fields :: p !in SPECIAL
    else if k.Listed? then arg.Arr?
    else Plain(arg)
  }

  /** The fragment: references and unions stand alone up to annotations, and every union is a non-empty
      schema or `null`. */
  ghost predicate InFragment(s: Json, defs: map<Name, Json>, depth: nat)
    decreases s
  {
    || s.Bool?
    || (&& s.Obj?
        && var m := s.fields;
           if Ref in m then
             PointsToDefinition(m[Ref], defs) && OnlyAnnotationsBesides(m, Ref)
           else if AnyOf in m then
             OnlyAnnotationsBesides(m, AnyOf) && UnionInFragment(m[AnyOf], defs, depth)
           else
             && Defs !in m && Nullable !in m
             && (forall k | k in m && k !in STRIPPED :: WellShaped(k, m[k]))
             && (forall t | t < s && IsInside(t, s) :: InFragment(t, defs, depth)))
  }

  ghost predicate UnionInFragment(arg: Json, defs: map<Name, Json>, depth: nat)
    decreases arg
  {
    && IsNullUnion(arg) && InFragment(Kept(arg), defs, depth)
    && NotNullType(Kept(arg), defs, depth) && NonEmpty(Kept(arg), defs, depth)
  }

  ghost predicate DefsInFragment(defs: map<Name, Json>, depth: nat) {
    forall d | d in defs :: defs[d].Obj? && InFragment(defs[d], defs, depth)
  }

  /** The schema, behind references, lets `null` past its vocabulary keywords; a union does so anyway. */
  ghost predicate NullPasses(s: Json, defs: map<Name, Json>, depth: nat, vocab: Vocabulary)
    decreases depth
  {
    s.Obj? ==>
      if Ref in s.fields && PointsToDefinition(s.fields[Ref], defs) then
        depth > 0 && NullPasses(defs[Target(s.fields[Ref].s)], defs, depth - 1, vocab)
      else AnyOf in s.fields || vocab(Arguments(s, defs, depth, vocab), Null)
  }

  /** The schema kept by every union, in `s` itself and behind references, lets `null` pass. */
  ghost predicate UnionsReady(s: Json, defs: map<Name, Json>, depth: nat, vocab: Vocabulary)
    decreases depth, s
  {
    s.Obj? ==>
      && (Ref in s.fields && PointsToDefinition(s.fields[Ref], defs) ==>
            depth > 0 && UnionsReady(defs[Target(s.fields[Ref].s)], defs, depth - 1, vocab))
      && (AnyOf in s.fields ==> OptionReady(s.fields[AnyOf], defs, depth, vocab))
      && (forall t | t < s && IsInside(t, s) :: UnionsReady(t, defs, depth, vocab))
  }

  ghost predicate OptionReady(arg: Json, defs: map<Name, Json>, depth: nat, vocab: Vocabulary)
    decreases depth, arg
  {
    IsNullUnion(arg) ==> NullPasses(Kept(arg), defs, depth, vocab) && UnionsReady(Kept(arg), defs, depth, vocab)
  }

  /** Beside a reference or a union nothing constrains: no vocabulary keyword and no type. */
  lemma AnnotationsSayNothing(m: map<Name, Json>, but: Name, defs: map<Name, Json>, depth: nat, vocab: Vocabulary)
    requires but in {Ref, AnyOf} && OnlyAnnotationsBesides(m, but)
    ensures Arguments(Obj(m), defs, depth, vocab) == map[] && Type !in m
    ensures forall t :: !IsInside(t, Obj(m))
  {
    assert forall k | k in m :: !IsVocabulary(k);
  }

  /** A union in the fragment accepts `null` and whatever its kept option accepts. */
  lemma UnionMeaning(m: map<Name, Json>, defs: map<Name, Json>, depth: nat, vocab: Vocabulary)
    requires Ref !in m && AnyOf in m && OnlyAnnotationsBesides(m, AnyOf) && IsNullUnion(m[AnyOf])
    ensures Meaning(Obj(m), defs, depth, vocab) == Meaning(Kept(m[AnyOf]), defs, depth, vocab) + iset{Null}
  {
    hide TypeAllows, ArgumentOf;
    AnnotationsSayNothing(m, AnyOf, defs, depth, vocab);
    var options := m[AnyOf].items;
    NullSchemaMeaning(defs, depth, vocab);
    hide Meaning;
    forall v
      ensures v in OptionsMean(m[AnyOf], defs, depth, vocab) <==> v in Meaning(Kept(m[AnyOf]), defs, depth, vocab) + iset{Null}
    {
      var sets := seq(|options|, i requires 0 <= i < |options| => Meaning(options[i], defs, depth, vocab));
      assert InSome(v, sets) <==> v in sets[0] || v in sets[1];
    }
    UnionIsOptions(m, defs, depth, vocab);
  }

  lemma NullSchemaMeaning(defs: map<Name, Json>, depth: nat, vocab: Vocabulary)
    ensures Meaning(NULL_SCHEMA, defs, depth, vocab) == iset{Null}
  {
    assert Arguments(NULL_SCHEMA, defs, depth, vocab) == map[];
    assert forall v :: TypeHolds(NULL_SCHEMA.fields, v) <==> v.Null?;
  }

  lemma UnionIsOptions(m: map<Name, Json>, defs: map<Name, Json>, depth: nat, vocab: Vocabulary)
    requires Ref !in m && AnyOf in m && OnlyAnnotationsBesides(m, AnyOf)
    ensures Meaning(Obj(m), defs, depth, vocab) == OptionsMean(m[AnyOf], defs, depth, vocab)
  {
    hide TypeAllows, ArgumentOf, OptionsMean;
    AnnotationsSayNothing(m, AnyOf, defs, depth, vocab);
  }

  /** A reference in the fragment means what its definition means. */
  lemma ReferenceMeaning(m: map<Name, Json>, defs: map<Name, Json>, depth: nat, vocab: Vocabulary)
    requires Ref in m && PointsToDefinition(m[Ref], defs) && OnlyAnnotationsBesides(m, Ref) && depth > 0
    ensures Meaning(Obj(m), defs, depth, vocab) == Meaning(defs[Target(m[Ref].s)], defs, depth - 1, vocab)
    ensures UnionsReady(Obj(m), defs, depth, vocab) <==> UnionsReady(defs[Target(m[Ref].s)], defs, depth - 1, vocab)
  {
    hide TypeAllows, ArgumentOf, OptionsMean, OptionReady, IsInside;
    AnnotationsSayNothing(m, Ref, defs, depth, vocab);
    assert AnyOf !in m;
  }
}
