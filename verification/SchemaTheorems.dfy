/** What the schema cleaner guarantees as a whole. */
module SchemaTheorems {
  import opened JsonValues
  import opened SchemaCleaner
  import opened SchemaMeaning
  import opened SchemaInlining
  import opened SchemaRewriting

  /** A schema whose body and definitions lie in the fragment. */
  ghost predicate Fragment(schema: map<Name, Json>, depth: nat) {
    && (Defs in schema ==> schema[Defs].Obj?)
    && InFragment(Body(schema), DefsOf(schema), depth)
    && DefsInFragment(DefsOf(schema), depth)
  }

  // Meaning.

  /** The rewrite preserves the meaning of `s` and of every schema inside it. */
  ghost predicate PreservedThroughout(s: Json, vocab: Vocabulary)
    decreases s
  {
    && Preserved(s, vocab)
    && (s.Obj? && AnyOf in s.fields && IsNullUnion(s.fields[AnyOf]) && Kept(s.fields[AnyOf]) < s ==>
          PreservedThroughout(Kept(s.fields[AnyOf]), vocab))
    && (forall t | t < s && IsInside(t, s) :: PreservedThroughout(t, vocab))
  }

  lemma {:induction false} ReadyIsPreserved(s: Json, vocab: Vocabulary)
    requires WellInlined(s) && UnionsReady(s, map[], 0, vocab)
    ensures PreservedThroughout(s, vocab)
    decreases s
  {
    hide Meaning, Simplify, NullPasses, OptionReady, Without, IsInside;
    if s.Bool? {
      BooleanIsPreserved(s, vocab);
    } else if AnyOf in s.fields {
      var m := s.fields;
      UnionParts(m);
      ReadyByParts(m, map[], 0, vocab);
      KeptIsReady(m[AnyOf], vocab);
      var kept := Kept(m[AnyOf]);
      ReadyIsPreserved(kept, vocab);
      forall t | IsInside(t, kept) ensures Preserved(t, vocab) { InsideIsSmaller(t, kept); }
      UnionIsPreservedExactly(m, vocab);
      AnnotationsSayNothing(m, AnyOf, map[], 0, vocab);
    } else {
      MemberParts(s.fields);
      ReadyByParts(s.fields, map[], 0, vocab);
      forall t | IsInside(t, s) ensures PreservedThroughout(t, vocab) { ReadyIsPreserved(t, vocab); }
      RewrittenMembersMean(s.fields, vocab);
    }
  }

  lemma BooleanIsPreserved(s: Json, vocab: Vocabulary)
    requires s.Bool?
    ensures Preserved(s, vocab) && forall t :: !IsInside(t, s)
  {
  }

  lemma KeptIsReady(arg: Json, vocab: Vocabulary)
    requires IsNullUnion(arg)
    ensures OptionReady(arg, map[], 0, vocab) <==>
            NullPasses(Kept(arg), map[], 0, vocab) && UnionsReady(Kept(arg), map[], 0, vocab)
  {
  }

  lemma {:induction false} PreservedIsReady(s: Json, vocab: Vocabulary)
    requires WellInlined(s) && PreservedThroughout(s, vocab)
    ensures UnionsReady(s, map[], 0, vocab)
    decreases s
  {
    hide Meaning, Simplify, NullPasses, OptionReady, Without, IsInside;
    if s.Bool? {
    } else if AnyOf in s.fields {
      var m := s.fields;
      UnionParts(m);
      ReadyByParts(m, map[], 0, vocab);
      KeptIsReady(m[AnyOf], vocab);
      var kept := Kept(m[AnyOf]);
      PreservedIsReady(kept, vocab);
      forall t | IsInside(t, kept) ensures Preserved(t, vocab) { InsideIsSmaller(t, kept); }
      UnionIsPreservedExactly(m, vocab);
      AnnotationsSayNothing(m, AnyOf, map[], 0, vocab);
    } else {
      MemberParts(s.fields);
      ReadyByParts(s.fields, map[], 0, vocab);
      forall t | IsInside(t, s) ensures UnionsReady(t, map[], 0, vocab) { PreservedIsReady(t, vocab); }
    }
  }

  /** Exactness: the rewrite preserves the meaning of every schema inside an inlined fragment schema
      if and only if each nullable schema lets `null` past its other keywords. */
  lemma RewriteIsExact(s: Json, vocab: Vocabulary)
    requires WellInlined(s)
    ensures PreservedThroughout(s, vocab) <==> UnionsReady(s, map[], 0, vocab)
  {
    if UnionsReady(s, map[], 0, vocab) { ReadyIsPreserved(s, vocab); }
    if PreservedThroughout(s, vocab) { PreservedIsReady(s, vocab); }
  }

  /** The cleaned schema, which no longer has definitions, accepts exactly what the original accepts
      under its definitions, provided every nullable schema lets `null` past its other keywords. */
  lemma CleanPreservesMeaning(schema: map<Name, Json>, depth: nat, deeper: nat, vocab: Vocabulary)
    requires Fragment(schema, depth) && Clean(schema, depth).Ok? && depth <= deeper
    requires UnionsReady(Body(schema), DefsOf(schema), deeper, vocab)
    ensures MeaningAlone(Clean(schema, depth).value, vocab) == Meaning(Body(schema), DefsOf(schema), deeper, vocab)
  {
    hide Resolve, Simplify, Meaning, InFragment, UnionsReady;
    InlineIsFaithful(Body(schema), DefsOf(schema), depth, deeper, depth, vocab);
    ReadyIsPreserved(Resolve(Body(schema), DefsOf(schema), depth).value, vocab);
  }

  /** And that condition, read off the original schema and its definitions, is exact: it holds if and only if
      the rewrite preserves the meaning of every schema inside the inlined one. */
  lemma CleanIsExact(schema: map<Name, Json>, depth: nat, deeper: nat, vocab: Vocabulary)
    requires Fragment(schema, depth) && Resolve(Body(schema), DefsOf(schema), depth).Ok? && depth <= deeper
    ensures UnionsReady(Body(schema), DefsOf(schema), deeper, vocab) <==>
            PreservedThroughout(Resolve(Body(schema), DefsOf(schema), depth).value, vocab)
  {
    hide Resolve, Simplify, Meaning, InFragment, UnionsReady, PreservedThroughout;
    InlineIsFaithful(Body(schema), DefsOf(schema), depth, deeper, depth, vocab);
    RewriteIsExact(Resolve(Body(schema), DefsOf(schema), depth).value, vocab);
  }

  function NoKeywords(): Vocabulary {
    (args: map<Name, Argument>, v: Json) => true
  }

  /** A cleaned schema has no `$ref`, `anyOf`, `title`, `default` or `$defs` at any depth, and
      cleaning it again changes nothing. */
  lemma CleanIsIdempotent(schema: map<Name, Json>, depth: nat, again: nat)
    requires Fragment(schema, depth) && Clean(schema, depth).Ok?
    ensures var cleaned := Clean(schema, depth).value;
            && cleaned.Obj? && Plain(cleaned)
            && Defs !in cleaned.fields && Clean(cleaned.fields, again) == Ok(cleaned)
  {
    InlineIsFaithful(Body(schema), DefsOf(schema), depth, depth, depth, NoKeywords());
    hide Simplify, InFragment, Meaning;
    RewriteShape(Resolve(Body(schema), DefsOf(schema), depth).value);
    var cleaned := Clean(schema, depth).value;
    assert Defs !in cleaned.fields && cleaned.fields - {Defs} == cleaned.fields;
    ResolveFixesPlain(cleaned, map[], again);
    SimplifyFixesPlain(cleaned);
  }

  // Termination.

  /** Every reference that `resolve` follows from `node` selects a definition ranked below `level`. */
  ghost predicate RefsBelow(node: Json, defs: map<Name, Json>, rank: map<Name, nat>, level: nat)
    requires defs.Keys <= rank.Keys
  {
    match node
    case Arr(items) => forall i | 0 <= i < |items| :: RefsBelow(items[i], defs, rank, level)
    case Obj(m) =>
      if ReferredName(m, defs).Some? then rank[ReferredName(m, defs).value] < level
      else forall k | k in m && k !in STRIPPED :: RefsBelow(m[k], defs, rank, level)
    case _ => true
  }

  /** `rank` orders the definitions so that each refers only to lower ones: there is no cycle. */
  ghost predicate Ranked(defs: map<Name, Json>, rank: map<Name, nat>) {
    && defs.Keys <= rank.Keys
    && forall d | d in defs :: RefsBelow(defs[d], defs, rank, rank[d])
  }

  lemma {:induction false} RefsStayBelow(s: Json, defs: map<Name, Json>, rank: map<Name, nat>, low: nat, level: nat)
    requires defs.Keys <= rank.Keys && RefsBelow(s, defs, rank, low) && low <= level
    ensures RefsBelow(s, defs, rank, level)
  {
    match s
    case Arr(items) =>
      forall i | 0 <= i < |items| ensures RefsBelow(items[i], defs, rank, level) {
        RefsStayBelow(items[i], defs, rank, low, level);
      }
    case Obj(m) =>
      if ReferredName(m, defs).None? {
        forall k | k in m && k !in STRIPPED ensures RefsBelow(m[k], defs, rank, level) {
          RefsStayBelow(m[k], defs, rank, low, level);
        }
      }
    case _ =>
  }

  lemma ReferredAfterStripping(m: map<Name, Json>, defs: map<Name, Json>)
    ensures ReferredName(m - STRIPPED, defs) == ReferredName(m, defs)
  {
    assert Ref in m <==> Ref in m - STRIPPED;
  }

  /** On acyclic definitions the recursion ends: whatever the schema, references nest at most `level` deep,
      so that every larger recursion limit gives the same result. */
  lemma {:induction false} AcyclicEnds(
      node: Json, defs: map<Name, Json>, rank: map<Name, nat>, level: nat, deeper: nat)
    requires Ranked(defs, rank) && RefsBelow(node, defs, rank, level) && level <= deeper
    ensures Resolve(node, defs, deeper) == Resolve(node, defs, level)
    decreases level, node
  {
    match node
    case Arr(items) =>
      forall i | 0 <= i < |items| ensures Resolve(items[i], defs, deeper) == Resolve(items[i], defs, level) {
        AcyclicEnds(items[i], defs, rank, level, deeper);
      }
      ResolvesList(items, defs, level);
      ResolvesList(items, defs, deeper);
      hide Resolve, RefsBelow;
      SameList(Resolve(node, defs, level), Resolve(node, defs, deeper));
    case Obj(m) =>
      ReferredAfterStripping(m, defs);
      if ReferredName(m, defs).Some? {
        var name := ReferredName(m, defs).value;
        RefsStayBelow(defs[name], defs, rank, rank[name], level - 1);
        AcyclicEnds(defs[name], defs, rank, level - 1, deeper - 1);
      } else {
        forall k | k in m && k !in STRIPPED ensures Resolve(m[k], defs, deeper) == Resolve(m[k], defs, level) {
          AcyclicEnds(m[k], defs, rank, level, deeper);
        }
        hide RefsBelow;
        SameMembers(m, defs, level, deeper);
      }
    case _ =>
  }

  lemma SameList(r: Result<Json>, q: Result<Json>)
    requires (r.Ok? <==> q.Ok?) && (r.Ok? ==> r.value.Arr? && q.value.Arr? && |r.value.items| == |q.value.items|)
    requires r.Ok? ==> forall i | 0 <= i < |r.value.items| :: r.value.items[i] == q.value.items[i]
    ensures r == q
  {
    if r.Ok? { assert r.value.items == q.value.items; }
  }

  lemma SameMembers(m: map<Name, Json>, defs: map<Name, Json>, level: nat, deeper: nat)
    requires ReferredName(m, defs).None?
    requires forall k | k in m && k !in STRIPPED :: Resolve(m[k], defs, deeper) == Resolve(m[k], defs, level)
    ensures Resolve(Obj(m), defs, deeper) == Resolve(Obj(m), defs, level)
  {
    ReferredAfterStripping(m, defs);
    var kept := m - STRIPPED;
    assert forall k | k in kept :: k in m && kept[k] == m[k];
    var low, high := Resolve(Obj(m), defs, level), Resolve(Obj(m), defs, deeper);
    if low.Ok? && high.Ok? { assert low.value.fields == high.value.fields; }
  }

  /** Every `$ref` is a string, as section 8.2.3.1 of JSON Schema Core 2020-12 demands. */
  predicate SoundRefs(node: Json, defs: map<Name, Json>) {
    match node
    case Arr(items) => forall i | 0 <= i < |items| :: SoundRefs(items[i], defs)
    case Obj(m) =>
      && (Ref in m ==> m[Ref].Str?)
      && (ReferredName(m, defs).None? ==> forall k | k in m && k !in STRIPPED :: SoundRefs(m[k], defs))
    case _ => true
  }

  predicate SoundDefs(defs: map<Name, Json>) {
    forall d | d in defs :: defs[d].Obj? && SoundRefs(defs[d], defs)
  }

  /** And nothing is raised, if references are strings and definitions objects. */
  lemma {:induction false} AcyclicResolves(node: Json, defs: map<Name, Json>, rank: map<Name, nat>, level: nat)
    requires Ranked(defs, rank) && RefsBelow(node, defs, rank, level) && SoundRefs(node, defs) && SoundDefs(defs)
    ensures Resolve(node, defs, level).Ok? && (node.Obj? ==> Resolve(node, defs, level).value.Obj?)
    decreases level, node
  {
    match node
    case Arr(items) =>
      forall i | 0 <= i < |items| ensures Resolve(items[i], defs, level).Ok? {
        AcyclicResolves(items[i], defs, rank, level);
      }
    case Obj(m) =>
      ReferredAfterStripping(m, defs);
      if ReferredName(m, defs).Some? {
        var name := ReferredName(m, defs).value;
        RefsStayBelow(defs[name], defs, rank, rank[name], level - 1);
        AcyclicResolves(defs[name], defs, rank, level - 1);
      } else {
        forall k | k in m && k !in STRIPPED ensures Resolve(m[k], defs, level).Ok? {
          AcyclicResolves(m[k], defs, rank, level);
        }
        assert forall k | k in m - STRIPPED :: k in m && (m - STRIPPED)[k] == m[k];
      }
    case _ =>
  }

  lemma {:induction false} PlainIsSound(j: Json, defs: map<Name, Json>)
    requires Plain(j)
    ensures SoundRefs(j, defs)
  {
    match j
    case Arr(items) =>
      forall i | 0 <= i < |items| ensures SoundRefs(items[i], defs) { PlainIsSound(items[i], defs); }
    case Obj(m) =>
      forall k | k in m ensures SoundRefs(m[k], defs) { PlainIsSound(m[k], defs); }
    case _ =>
  }

  lemma {:induction false} FragmentIsSound(s: Json, defs: map<Name, Json>, depth: nat)
    requires InFragment(s, defs, depth)
    ensures SoundRefs(s, defs)
    decreases s, 0
  {
    hide WellShaped, NotNullType, NonEmpty, Plain;
    if s.Obj? && Ref !in s.fields {
      var m := s.fields;
      forall k | k in m && k !in STRIPPED ensures SoundRefs(m[k], defs) {
        if AnyOf in m {
          if k == AnyOf {
            FragmentIsSound(Kept(m[k]), defs, depth);
            assert SoundRefs(NULL_SCHEMA, defs);
            assert SoundRefs(m[k], defs);
          } else {
            PlainIsSound(m[k], defs);
          }
        } else {
          forall t | IsPart(t, k, m[k]) ensures SoundRefs(t, defs) && t < s {
            assert IsInside(t, s);
            InsideIsSmaller(t, s);
            FragmentIsSound(t, defs, depth);
          }
          ArgumentIsSound(k, m[k], defs);
        }
      }
    }
  }

  lemma ArgumentIsSound(k: Name, arg: Json, defs: map<Name, Json>)
    requires WellShaped(k, arg) && forall t | IsPart(t, k, arg) :: SoundRefs(t, defs)
    ensures SoundRefs(arg, defs)
  {
    if k.Single? {
      assert IsPart(arg, k, arg);
    } else if k.Mapped? {
      assert forall p | p in arg.fields :: IsPart(arg.fields[p], k, arg);
    } else if k.Listed? {
      assert forall i | 0 <= i < |arg.items| :: IsPart(arg.items[i], k, arg);
    } else {
      PlainIsSound(arg, defs);
    }
  }

  /** A rank above all that `rank` gives. */
  ghost function Top(rank: map<Name, nat>): (top: nat)
    ensures forall d | d in rank :: rank[d] < top
    decreases |rank|
  {
    if rank == map[] then 0
    else
      var d :| d in rank;
      var rest := rank - {d};
      var top := Top(rest);
      assert forall e | e in rank && e != d :: e in rest && rest[e] == rank[e];
      if rank[d] < top then top else rank[d] + 1
  }

  lemma {:induction false} AllRefsBelowTop(node: Json, defs: map<Name, Json>, rank: map<Name, nat>)
    requires defs.Keys <= rank.Keys
    ensures RefsBelow(node, defs, rank, Top(rank))
  {
    match node
    case Arr(items) =>
      forall i | 0 <= i < |items| ensures RefsBelow(items[i], defs, rank, Top(rank)) {
        AllRefsBelowTop(items[i], defs, rank);
      }
    case Obj(m) =>
      forall k | k in m ensures RefsBelow(m[k], defs, rank, Top(rank)) {
        AllRefsBelowTop(m[k], defs, rank);
      }
    case _ =>
  }

  /** Cleaning ends on every acyclic schema, and on those of the fragment it succeeds. */
  lemma AcyclicCleans(schema: map<Name, Json>, rank: map<Name, nat>, deeper: nat, horizon: nat)
    requires (Defs in schema ==> schema[Defs].Obj?) && Ranked(DefsOf(schema), rank) && Top(rank) <= deeper
    ensures Clean(schema, deeper) == Clean(schema, Top(rank))
    ensures Fragment(schema, horizon) ==> Clean(schema, deeper).Ok?
  {
    hide Resolve, Simplify, InFragment, Meaning;
    var body, defs := Body(schema), DefsOf(schema);
    AllRefsBelowTop(body, defs, rank);
    AcyclicEnds(body, defs, rank, Top(rank), deeper);
    if Fragment(schema, horizon) {
      FragmentIsSound(body, defs, horizon);
      forall d | d in defs ensures SoundRefs(defs[d], defs) { FragmentIsSound(defs[d], defs, horizon); }
      AcyclicResolves(body, defs, rank, Top(rank));
      InlineIsFaithful(body, defs, Top(rank), Top(rank), horizon, NoKeywords());
      RewriteShape(Resolve(body, defs, Top(rank)).value);
    }
  }

  /** Resolving `node` follows some reference to a definition in `names`. */
  predicate FollowsInto(node: Json, defs: map<Name, Json>, names: set<Name>) {
    match node
    case Arr(items) => exists i :: 0 <= i < |items| && FollowsInto(items[i], defs, names)
    case Obj(m) =>
      if ReferredName(m, defs).Some? then ReferredName(m, defs).value in names
      else exists k :: k in m && k !in STRIPPED && FollowsInto(m[k], defs, names)
    case _ => false
  }

  /** It never ends on cyclic ones: definitions that keep referring to one another exhaust every
      recursion limit. */
  lemma {:induction false} CyclicNeverResolves(node: Json, defs: map<Name, Json>, cycle: set<Name>, depth: nat)
    requires cycle <= defs.Keys && forall d | d in cycle :: FollowsInto(defs[d], defs, cycle)
    requires FollowsInto(node, defs, cycle)
    ensures Resolve(node, defs, depth).Raised?
    decreases depth, node
  {
    match node
    case Arr(items) =>
      var i :| 0 <= i < |items| && FollowsInto(items[i], defs, cycle);
      CyclicNeverResolves(items[i], defs, cycle, depth);
    case Obj(m) =>
      ReferredAfterStripping(m, defs);
      if ReferredName(m, defs).Some? {
        if depth > 0 {
          CyclicNeverResolves(defs[ReferredName(m, defs).value], defs, cycle, depth - 1);
        }
      } else {
        var k :| k in m && k !in STRIPPED && FollowsInto(m[k], defs, cycle);
        CyclicNeverResolves(m[k], defs, cycle, depth);
        assert k in m - STRIPPED && (m - STRIPPED)[k] == m[k];
      }
    case _ =>
  }

  // What goes wrong outside.

  const ENUM: Name := Other("enum")

  /** The `enum` keyword, and nothing else. */
  ghost function EnumVocabulary(): Vocabulary {
    (args: map<Name, Argument>, v: Json) => ENUM in args && args[ENUM].Literal? && args[ENUM].arg.Arr? ==>
          v in args[ENUM].arg.items
  }

  function Enumeration(values: seq<Json>): Json {
    Obj(map[ENUM := Arr(values)])
  }

  function Nullably(s: Json): Json {
    Obj(map[AnyOf := Arr([s, NULL_SCHEMA])])
  }

  lemma EnumerationIsInlined(values: seq<Json>)
    requires Plain(Arr(values))
    ensures WellInlined(Enumeration(values)) && Keepable(Enumeration(values))
    ensures forall t :: !IsInside(t, Enumeration(values))
  {
    PlainIsWithout(Arr(values), INLINED);
    hide Without;
    assert ENUM in Enumeration(values).fields;
    WithoutByMembers(Enumeration(values).fields, INLINED);
  }

  lemma NullablyIsInlined(s: Json)
    requires WellInlined(s) && Keepable(s) && s != NULL_SCHEMA
    ensures WellInlined(Nullably(s)) && Kept(Nullably(s).fields[AnyOf]) == s
  {
    assert Plain(Str("null"));
    assert s.fields - STRIPPED != map[] by {
      var k :| k in s.fields;
      assert Without(s, INLINED);
      assert k in s.fields - STRIPPED;
    }
    hide IsInside, WellShaped, InFragment;
    var arg := Arr([s, NULL_SCHEMA]);
    assert Without(NULL_SCHEMA, INLINED) && Without(s, INLINED) && Without(arg, INLINED);
    assert UnionInFragment(arg, map[], 0);
    InlinedUnion(arg);
  }

  lemma InlinedUnion(arg: Json)
    requires UnionInFragment(arg, map[], 0) && Without(arg, INLINED)
    ensures WellInlined(Obj(map[AnyOf := arg]))
  {
  }

  /** The condition on a nullable enumeration, typed or not: it keeps its meaning exactly if `null` is among
      its values. */
  lemma NullableEnumExactly(values: seq<Json>)
    requires Plain(Arr(values))
    ensures Preserved(Nullably(Enumeration(values)), EnumVocabulary()) <==> Null in values
  {
    var s := Enumeration(values);
    EnumerationIsInlined(values);
    NullablyIsInlined(s);
    var vocab := EnumVocabulary();
    assert AnyOf !in s.fields;
    RewrittenMembersMean(s.fields, vocab);
    hide Simplify, WellInlined, Meaning, Kept, IsNullUnion, Preserved;
    assert ENUM in Arguments(s, map[], 0, vocab) && Arguments(s, map[], 0, vocab)[ENUM] == Literal(Arr(values));
    UnionIsPreservedExactly(Nullably(s).fields, vocab);
  }

  const COLOUR: Json := Obj(map[Type := Str("string"), ENUM := Arr([Str("red")])])

  /** A union whose kept schema stops `null` accepts it before the rewrite and rejects it afterwards, because
      `nullable` only widens `type`. */
  lemma UnreadyUnionLosesNull(m: map<Name, Json>, vocab: Vocabulary)
    requires WellInlined(Obj(m)) && AnyOf in m && IsNullUnion(m[AnyOf]) && UnionsReady(Kept(m[AnyOf]), map[], 0, vocab)
    requires !NullPasses(Kept(m[AnyOf]), map[], 0, vocab)
    ensures Simplify(Obj(m)).Ok?
    ensures Null in MeaningAlone(Obj(m), vocab) && Null !in MeaningAlone(Simplify(Obj(m)).value, vocab)
  {
    var kept := Kept(m[AnyOf]);
    UnionParts(m);
    UnionMeaning(m, map[], 0, vocab);
    ReadyIsPreserved(kept, vocab);
    assert AnyOf !in kept.fields && !vocab(Arguments(kept, map[], 0, vocab), Null);
    hide Simplify, WellInlined, Meaning, UnionsReady, Arguments, IsNullUnion, Kept, OnlyAnnotationsBesides;
    forall t | IsInside(t, kept) ensures Preserved(t, vocab) { InsideIsSmaller(t, kept); }
    RewrittenMembersMean(kept.fields, vocab);
    RewrittenUnionMeans(m, vocab);
    if Null in MeaningAlone(Simplify(kept).value, vocab) { NullOnlyIfPasses(Simplify(kept).value, vocab); }
  }

  lemma ColourIsInlined()
    ensures WellInlined(COLOUR) && Keepable(COLOUR) && COLOUR != NULL_SCHEMA && AnyOf !in COLOUR.fields
    ensures forall t :: !IsInside(t, COLOUR)
  {
    assert Plain(Str("red")) && Plain(Str("string"));
    assert Plain(Arr([Str("red")]));
    PlainIsWithout(Arr([Str("red")]), INLINED);
    PlainIsWithout(Str("string"), INLINED);
    hide Without;
    var m := COLOUR.fields;
    assert m.Keys == {Type, ENUM} && m[Type] == Str("string") && ENUM !in NULL_SCHEMA.fields;
    WithoutByMembers(m, INLINED);
    assert forall t :: !IsInside(t, COLOUR);
    hide IsInside, IsPart;
  }

  /** So a nullable enumeration without `null` among its values loses `null`. */
  lemma NullableEnumLosesNull()
    ensures Simplify(Nullably(COLOUR)).Ok?
    ensures Null in MeaningAlone(Nullably(COLOUR), EnumVocabulary())
    ensures Null !in MeaningAlone(Simplify(Nullably(COLOUR)).value, EnumVocabulary())
  {
    var vocab := EnumVocabulary();
    ColourIsInlined();
    NullablyIsInlined(COLOUR);
    assert ENUM in Arguments(COLOUR, map[], 0, vocab);
    assert Arguments(COLOUR, map[], 0, vocab)[ENUM] == Literal(Arr([Str("red")]));
    hide Simplify, WellInlined, Meaning, Kept, IsInside, Arguments;
    UnreadyUnionLosesNull(Nullably(COLOUR).fields, vocab);
  }

  const TEXT: Json := Obj(map[Type := Str("string")])
  const INTEGER: Json := Obj(map[Type := Str("integer")])
  const TEXT_OR_INTEGER: Json := Obj(map[AnyOf := Arr([TEXT, INTEGER])])

  lemma TextOrIntegerBecomesText()
    ensures Simplify(TEXT_OR_INTEGER) == Ok(Obj(map[Type := Str("string"), Nullable := Bool(true)]))
  {
    assert Plain(Str("string"));
    SimplifyFixesPlain(TEXT);
    assert FirstNonNull([TEXT, INTEGER]) == Some(TEXT);
    hide Plain, Without, FirstNonNull;
    assert Simplify(TEXT_OR_INTEGER).value.fields == map[Type := Str("string"), Nullable := Bool(true)];
  }

  /** The union shape is needed: of two non-null options the rewrite forgets the second. */
  lemma SecondOptionIsForgotten(n: int, vocab: Vocabulary)
    ensures Simplify(TEXT_OR_INTEGER).Ok?
    ensures Num(n as real) in MeaningAlone(TEXT_OR_INTEGER, vocab)
    ensures Num(n as real) !in MeaningAlone(Simplify(TEXT_OR_INTEGER).value, vocab)
  {
    hide Simplify;
    TextOrIntegerBecomesText();
    var v := Num(n as real);
    var options := TEXT_OR_INTEGER.fields[AnyOf];
    assert Arguments(INTEGER, map[], 0, vocab) == map[] && TypeHolds(INTEGER.fields, v);
    assert v in Meaning(INTEGER, map[], 0, vocab);
    UnionIsOptions(TEXT_OR_INTEGER.fields, map[], 0, vocab);
    var sets := seq(|options.items|, i requires 0 <= i < |options.items| => Meaning(options.items[i], map[], 0, vocab));
    assert v in sets[1] && InSome(v, sets);
    hide Meaning;
    assert v in OptionsMean(options, map[], 0, vocab);
    TypeRejects(map[Type := Str("string"), Nullable := Bool(true)], v, vocab);
  }

  lemma TypeRejects(m: map<Name, Json>, v: Json, vocab: Vocabulary)
    requires !TypeHolds(m, v)
    ensures v !in MeaningAlone(Obj(m), vocab)
  {
  }

  /** The option must not be empty: an empty one, which accepts everything, is not kept, and the union stays. */
  lemma EmptyOptionKeepsUnion(m: map<Name, Json>)
    requires AnyOf in m && m[AnyOf].Arr? && FirstNonNull(m[AnyOf].items) == Some(Obj(map[])) && Simplify(Obj(m)).Ok?
    ensures Simplify(Obj(m)).value.Obj? && Simplify(Obj(m)).value.fields.Keys == m.Keys
    ensures Nullable !in m ==> Nullable !in Simplify(Obj(m)).value.fields
  {
    hide FirstNonNull;
  }

  /** The names are needed: a property called `title` disappears, and so does its constraint. */
  lemma TitlePropertyIsDropped(constraint: Json, defs: map<Name, Json>, depth: nat)
    ensures var properties := Mapped("properties");
            Resolve(Obj(map[properties := Obj(map[Title := constraint])]), defs, depth) ==
            Ok(Obj(map[properties := Obj(map[])]))
  {
    var properties := Mapped("properties");
    var inner := map[Title := constraint];
    assert inner - STRIPPED == map[];
    assert Resolve(Obj(inner), defs, depth).value.fields == map[];
    var outer := map[properties := Obj(inner)];
    ResolvesMembers(outer, defs, depth);
    assert Resolve(Obj(outer), defs, depth).value.fields == map[properties := Obj(map[])];
  }
}
