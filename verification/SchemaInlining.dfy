/** Inlining references and dropping annotations keeps the meaning of every fragment schema. */
module SchemaInlining {
  import opened JsonValues
  import opened SchemaCleaner
  import opened SchemaMeaning

  /** What inlining leaves nowhere in a schema. */
  const INLINED: set<Name> := {Ref, Default, Title, Defs}

  lemma {:induction false} PlainIsWithout(j: Json, names: set<Name>)
    requires Plain(j) && names <= SPECIAL
    ensures Without(j, names)
  {
    match j
    case Arr(items) =>
      forall i | 0 <= i < |items| ensures Without(items[i], names) {
        PlainIsWithout(items[i], names);
      }
    case Obj(m) =>
      forall k | k in m ensures Without(m[k], names) {
        PlainIsWithout(m[k], names);
      }
    case _ =>
  }

  lemma {:induction false} ResolveFixesPlain(j: Json, defs: map<Name, Json>, depth: nat)
    requires Plain(j)
    ensures Resolve(j, defs, depth) == Ok(j)
  {
    match j
    case Arr(items) =>
      forall i | 0 <= i < |items| ensures Resolve(items[i], defs, depth) == Ok(items[i]) {
        ResolveFixesPlain(items[i], defs, depth);
      }
      assert Resolve(j, defs, depth).value.items == items;
    case Obj(m) =>
      assert Ref !in m && m - STRIPPED == m;
      forall k | k in m ensures Resolve(m[k], defs, depth) == Ok(m[k]) {
        ResolveFixesPlain(m[k], defs, depth);
      }
      assert Resolve(j, defs, depth).value.fields == m;
    case _ =>
  }

  // How `resolve` treats references, other objects and lists.

  predicate Inert(a: map<Name, Json>) {
    forall k | k in a :: k.Note? && Plain(a[k])
  }

  /** A reference that can be followed becomes the resolved definition, overwritten by its siblings. */
  lemma ResolvesReference(m: map<Name, Json>, defs: map<Name, Json>, depth: nat)
    requires Ref in m && PointsToDefinition(m[Ref], defs) && OnlyAnnotationsBesides(m, Ref)
    requires Resolve(Obj(m), defs, depth).Ok?
    ensures depth > 0 && Inert(Siblings(m))
    ensures var target := Resolve(defs[Target(m[Ref].s)], defs, depth - 1);
            && target.Ok? && target.value.Obj?
            && Resolve(Obj(m), defs, depth).value == Obj(target.value.fields + Siblings(m))
  {
    assert m[Ref] == (m - STRIPPED)[Ref];
  }

  lemma ResolvesMembers(m: map<Name, Json>, defs: map<Name, Json>, depth: nat)
    requires Ref !in m
    ensures Resolve(Obj(m), defs, depth).Ok? <==> forall k | k in m && k !in STRIPPED :: Resolve(m[k], defs, depth).Ok?
    ensures Resolve(Obj(m), defs, depth).Ok? ==>
              var r := Resolve(Obj(m), defs, depth).value;
              && r.Obj? && r.fields.Keys == m.Keys - STRIPPED
              && forall k | k in r.fields :: Ok(r.fields[k]) == Resolve(m[k], defs, depth)
  {
    var kept := m - STRIPPED;
    assert forall k | k in m && k !in STRIPPED :: k in kept && kept[k] == m[k];
    assert forall k | k in kept :: k in m && kept[k] == m[k];
  }

  lemma ResolvesList(items: seq<Json>, defs: map<Name, Json>, depth: nat)
    ensures Resolve(Arr(items), defs, depth).Ok? <==> forall i | 0 <= i < |items| :: Resolve(items[i], defs, depth).Ok?
    ensures Resolve(Arr(items), defs, depth).Ok? ==>
              var r := Resolve(Arr(items), defs, depth).value;
              && r.Arr? && |r.items| == |items|
              && forall i | 0 <= i < |items| :: Ok(r.items[i]) == Resolve(items[i], defs, depth)
  {
  }

  // Annotations.

  lemma InertIsOutside(m: map<Name, Json>, a: map<Name, Json>, vocab: Vocabulary)
    requires Inert(a)
    ensures Arguments(Obj(m + a), map[], 0, vocab) == Arguments(Obj(m), map[], 0, vocab)
    ensures forall t :: IsInside(t, Obj(m + a)) <==> IsInside(t, Obj(m))
    ensures forall k | k in {Ref, AnyOf, Type, Nullable, Defs} ::
              (k in m + a <==> k in m) && (k in m ==> (m + a)[k] == m[k])
  {
    hide ArgumentOf;
    var both := m + a;
    assert forall k | IsVocabulary(k) :: (k in both <==> k in m) && (k in m ==> both[k] == m[k]);
    forall t | IsInside(t, Obj(m)) ensures IsInside(t, Obj(both)) {
      var k :| k in m && IsPart(t, k, m[k]);
      assert k in both && both[k] == m[k];
    }
    forall t | IsInside(t, Obj(both)) ensures IsInside(t, Obj(m)) {
      var k :| k in both && IsPart(t, k, both[k]);
      assert k in m && both[k] == m[k];
    }
  }

  /** Every schema directly inside is ready. */
  ghost predicate InsideReady(s: Json, defs: map<Name, Json>, depth: nat, vocab: Vocabulary) {
    forall t | IsInside(t, s) :: UnionsReady(t, defs, depth, vocab)
  }

  lemma ReadyByParts(m: map<Name, Json>, defs: map<Name, Json>, depth: nat, vocab: Vocabulary)
    requires Ref !in m
    ensures UnionsReady(Obj(m), defs, depth, vocab) <==>
            (AnyOf in m ==> OptionReady(m[AnyOf], defs, depth, vocab)) && InsideReady(Obj(m), defs, depth, vocab)
  {
    hide OptionReady;
    forall t | IsInside(t, Obj(m)) ensures t < Obj(m) { InsideIsSmaller(t, Obj(m)); }
  }

  /** Annotations written over an inlined schema change nothing. */
  lemma InertMeansNothing(m: map<Name, Json>, a: map<Name, Json>, vocab: Vocabulary)
    requires Inert(a) && Ref !in m
    ensures MeaningAlone(Obj(m + a), vocab) == MeaningAlone(Obj(m), vocab)
    ensures NullPasses(Obj(m + a), map[], 0, vocab) <==> NullPasses(Obj(m), map[], 0, vocab)
    ensures UnionsReady(Obj(m + a), map[], 0, vocab) <==> UnionsReady(Obj(m), map[], 0, vocab)
  {
    hide OptionsMean, OptionReady, UnionsReady, IsInside, Arguments;
    InertIsOutside(m, a, vocab);
    ReadyByParts(m, map[], 0, vocab);
    ReadyByParts(m + a, map[], 0, vocab);
  }

  lemma AddAnnotations(m: map<Name, Json>, a: map<Name, Json>, vocab: Vocabulary)
    requires Inert(a) && WellInlined(Obj(m))
    ensures WellInlined(Obj(m + a))
  {
    InertIsOutside(m, a, vocab);
    hide UnionInFragment, IsInside, WellShaped, Arguments;
    forall k | k in m + a ensures k !in INLINED && Without((m + a)[k], INLINED) {
      if k in a { PlainIsWithout(a[k], INLINED); }
    }
    forall k | k in m + a && k !in STRIPPED && AnyOf !in m ensures WellShaped(k, (m + a)[k]) {
      if k in a { NoteIsWellShaped(k, a[k]); }
    }
    forall t | IsInside(t, Obj(m)) ensures t < Obj(m) { InsideIsSmaller(t, Obj(m)); }
  }

  lemma NoteIsWellShaped(k: Name, arg: Json)
    requires k.Note? && Plain(arg)
    ensures WellShaped(k, arg)
  {
  }

  // Inlining.

  /** What inlining makes of a fragment schema. */
  ghost predicate WellInlined(s: Json) {
    InFragment(s, map[], 0) && Without(s, INLINED)
  }

  /** `r` stands for `s` without its definitions: the same values, and the same readiness for the rewrite. */
  ghost predicate Faithful(s: Json, r: Json, defs: map<Name, Json>, depth: nat, vocab: Vocabulary) {
    && WellInlined(r) && (s.Obj? <==> r.Obj?)
    && Meaning(s, defs, depth, vocab) == MeaningAlone(r, vocab)
    && (UnionsReady(s, defs, depth, vocab) <==> UnionsReady(r, map[], 0, vocab))
    && (NullPasses(s, defs, depth, vocab) <==> NullPasses(r, map[], 0, vocab))
  }

  /** The same for a keyword's argument. */
  ghost predicate FaithfulArgument(k: Name, arg: Json, r: Json, defs: map<Name, Json>, depth: nat, vocab: Vocabulary) {
    && WellShaped(k, r) && Without(r, INLINED) && (forall t | IsPart(t, k, r) :: WellInlined(t))
    && ArgumentOf(k, arg, defs, depth, vocab) == ArgumentOf(k, r, map[], 0, vocab)
    && (PartsReady(k, arg, defs, depth, vocab) <==> PartsReady(k, r, map[], 0, vocab))
  }

  ghost predicate PartsReady(k: Name, arg: Json, defs: map<Name, Json>, depth: nat, vocab: Vocabulary) {
    forall t | IsPart(t, k, arg) :: UnionsReady(t, defs, depth, vocab)
  }

  /** Inlining preserves meaning: the inlined schema, read alone, accepts what the original accepts under
      its definitions, at every depth that inlining can reach. */
  lemma {:induction false} InlineIsFaithful(s: Json, defs: map<Name, Json>, depth: nat, deeper: nat, horizon: nat,
        vocab: Vocabulary)
    requires DefsInFragment(defs, horizon) && InFragment(s, defs, horizon)
    requires Resolve(s, defs, depth).Ok? && depth <= deeper
    ensures Faithful(s, Resolve(s, defs, depth).value, defs, deeper, vocab)
    decreases depth, s, 2
  {
    if s.Bool? {
      assert forall t :: !IsInside(t, s);
    } else if Ref in s.fields {
      InlineReference(s.fields, defs, depth, deeper, horizon, vocab);
    } else if AnyOf in s.fields {
      InlineUnion(s.fields, defs, depth, deeper, horizon, vocab);
    } else {
      InlineMembers(s.fields, defs, depth, deeper, horizon, vocab);
    }
  }

  lemma {:induction false} InlineReference(
      m: map<Name, Json>, defs: map<Name, Json>, depth: nat, deeper: nat, horizon: nat, vocab: Vocabulary)
    requires DefsInFragment(defs, horizon) && InFragment(Obj(m), defs, horizon) && Ref in m
    requires Resolve(Obj(m), defs, depth).Ok? && depth <= deeper
    ensures Faithful(Obj(m), Resolve(Obj(m), defs, depth).value, defs, deeper, vocab)
    decreases depth, Obj(m), 1
  {
    hide Resolve, Inert, Siblings, OnlyAnnotationsBesides, IsInside, Arguments, WellShaped, UnionsReady, Meaning;
    ResolvesReference(m, defs, depth);
    var definition := defs[Target(m[Ref].s)];
    var target := Resolve(definition, defs, depth - 1).value.fields;
    InlineIsFaithful(definition, defs, depth - 1, deeper - 1, horizon, vocab);
    ReferenceMeaning(m, defs, deeper, vocab);
    assert NullPasses(Obj(m), defs, deeper, vocab) <==> NullPasses(definition, defs, deeper - 1, vocab);
    hide NullPasses;
    assert Ref !in target;
    hide InFragment, Without;
    InertMeansNothing(target, Siblings(m), vocab);
    AddAnnotations(target, Siblings(m), vocab);
  }

  lemma {:induction false} InlineUnion(
      m: map<Name, Json>, defs: map<Name, Json>, depth: nat, deeper: nat, horizon: nat, vocab: Vocabulary)
    requires DefsInFragment(defs, horizon) && InFragment(Obj(m), defs, horizon) && Ref !in m && AnyOf in m
    requires Resolve(Obj(m), defs, depth).Ok? && depth <= deeper
    ensures Faithful(Obj(m), Resolve(Obj(m), defs, depth).value, defs, deeper, vocab)
    decreases depth, Obj(m), 1
  {
    hide Resolve, Meaning, Arguments, WellShaped, UnionsReady, NotNullType, NonEmpty, Without, NullPasses;
    ResolvesMembers(m, defs, depth);
    var r := Resolve(Obj(m), defs, depth).value.fields;
    var kept := Kept(m[AnyOf]);
    ResolvesList(m[AnyOf].items, defs, depth);
    InlineIsFaithful(kept, defs, depth, deeper, horizon, vocab);
    InlineNotNull(kept, defs, depth, horizon, horizon);
    InlineNonEmpty(kept, defs, depth, horizon, horizon);
    InlinedOptions(m[AnyOf], defs, depth);
    NotesAreFixed(m, AnyOf, defs, depth);
    hide IsNullUnion, Kept;
    AnnotationsSayNothing(m, AnyOf, defs, deeper, vocab);
    AnnotationsSayNothing(r, AnyOf, map[], 0, vocab);
    UnionMeaning(m, defs, deeper, vocab);
    UnionMeaning(r, map[], 0, vocab);
    hide IsInside, OnlyAnnotationsBesides;
    ReadyByParts(m, defs, deeper, vocab);
    ReadyByParts(r, map[], 0, vocab);
    UnionPassesNull(m, defs, deeper, vocab);
    UnionPassesNull(r, map[], 0, vocab);
    assert UnionInFragment(r[AnyOf], map[], 0);
  }

  lemma UnionPassesNull(m: map<Name, Json>, defs: map<Name, Json>, depth: nat, vocab: Vocabulary)
    requires Ref !in m && AnyOf in m
    ensures NullPasses(Obj(m), defs, depth, vocab)
  {
  }

  /** Members that are annotations with inert arguments stay, and so does what they lack. */
  lemma NotesAreFixed(m: map<Name, Json>, but: Name, defs: map<Name, Json>, depth: nat)
    requires Ref !in m && but in m && but in {AnyOf} && OnlyAnnotationsBesides(m, but) && Resolve(Obj(m), defs, depth).Ok?
    requires Without(Resolve(Obj(m), defs, depth).value.fields[but], INLINED)
    ensures var r := Resolve(Obj(m), defs, depth).value.fields;
            OnlyAnnotationsBesides(r, but) && Without(Obj(r), INLINED) && Ref !in r
  {
    hide Resolve, Without;
    ResolvesMembers(m, defs, depth);
    var r := Resolve(Obj(m), defs, depth).value.fields;
    forall k | k in r && k != but ensures r[k] == m[k] && k.Note? && Plain(r[k]) && Without(r[k], INLINED) {
      ResolveFixesPlain(m[k], defs, depth);
      PlainIsWithout(m[k], INLINED);
    }
    WithoutByMembers(r, INLINED);
  }

  lemma WithoutByMembers(m: map<Name, Json>, names: set<Name>)
    requires forall k | k in m :: k !in names && Without(m[k], names)
    ensures Without(Obj(m), names)
  {
  }

  /** Resolving both options of a union resolves the kept one and leaves the other. */
  lemma InlinedOptions(arg: Json, defs: map<Name, Json>, depth: nat)
    requires IsNullUnion(arg) && Resolve(arg, defs, depth).Ok? && Resolve(Kept(arg), defs, depth).Ok?
    requires NotNullType(Resolve(Kept(arg), defs, depth).value, map[], 0)
    requires Ref !in Resolve(Kept(arg), defs, depth).value.fields
    requires Without(Resolve(Kept(arg), defs, depth).value, INLINED)
    ensures var r := Resolve(arg, defs, depth).value;
            IsNullUnion(r) && Ok(Kept(r)) == Resolve(Kept(arg), defs, depth) && Without(r, INLINED)
  {
    hide Resolve;
    ResolvesList(arg.items, defs, depth);
    assert Plain(Str("null"));
    ResolveFixesPlain(NULL_SCHEMA, defs, depth);
    PlainIsWithout(NULL_SCHEMA, INLINED);
    assert Resolve(Kept(arg), defs, depth).value != NULL_SCHEMA;
  }

  lemma {:induction false} InlineNotNull(s: Json, defs: map<Name, Json>, depth: nat, horizon: nat, level: nat)
    requires DefsInFragment(defs, horizon) && InFragment(s, defs, horizon)
    requires NotNullType(s, defs, level) && Resolve(s, defs, depth).Ok?
    ensures var r := Resolve(s, defs, depth).value;
            r.Obj? && Ref !in r.fields && NotNullType(r, map[], 0)
    decreases depth
  {
    hide Resolve, Inert, Siblings, UnionInFragment, IsInside;
    var m := s.fields;
    if Ref in m {
      ResolvesReference(m, defs, depth);
      InlineNotNull(defs[Target(m[Ref].s)], defs, depth - 1, horizon, level - 1);
      SiblingsAreNotes(m);
    } else {
      ResolvesMembers(m, defs, depth);
      if Type in m {
        assert Plain(m[Type]);
        ResolveFixesPlain(m[Type], defs, depth);
      }
    }
  }

  lemma SiblingsAreNotes(m: map<Name, Json>)
    requires Inert(Siblings(m))
    ensures forall k | k in Siblings(m) :: k.Note?
  {
  }

  lemma {:induction false} InlineNonEmpty(s: Json, defs: map<Name, Json>, depth: nat, horizon: nat, level: nat)
    requires DefsInFragment(defs, horizon) && InFragment(s, defs, horizon)
    requires NonEmpty(s, defs, level) && Resolve(s, defs, depth).Ok?
    ensures var r := Resolve(s, defs, depth).value;
            r.Obj? && (Ref !in r.fields ==> NonEmpty(r, map[], 0)) && exists k :: k in r.fields && k !in STRIPPED
    decreases depth
  {
    hide Resolve, Inert, UnionInFragment, IsInside, OnlyAnnotationsBesides, WellShaped;
    var m := s.fields;
    if Ref in m {
      ResolvesReference(m, defs, depth);
      SiblingsAreNotes(m);
      if Siblings(m) != map[] {
        var k :| k in Siblings(m);
        assert k in Resolve(s, defs, depth).value.fields;
      } else {
        InlineNonEmpty(defs[Target(m[Ref].s)], defs, depth - 1, horizon, level - 1);
      }
      SomeMemberIsNonEmpty(Resolve(s, defs, depth).value);
    } else {
      ResolvesMembers(m, defs, depth);
      var k :| k in m - STRIPPED;
      assert k in Resolve(s, defs, depth).value.fields;
      SomeMemberIsNonEmpty(Resolve(s, defs, depth).value);
    }
  }

  lemma SomeMemberIsNonEmpty(r: Json)
    requires r.Obj? && exists k :: k in r.fields && k !in STRIPPED
    ensures Ref !in r.fields ==> NonEmpty(r, map[], 0)
  {
    var k :| k in r.fields && k !in STRIPPED;
    assert k in r.fields - STRIPPED;
  }

  lemma {:induction false} InlineMembers(
      m: map<Name, Json>, defs: map<Name, Json>, depth: nat, deeper: nat, horizon: nat, vocab: Vocabulary)
    requires DefsInFragment(defs, horizon) && InFragment(Obj(m), defs, horizon) && Ref !in m && AnyOf !in m
    requires Resolve(Obj(m), defs, depth).Ok? && depth <= deeper
    ensures Faithful(Obj(m), Resolve(Obj(m), defs, depth).value, defs, deeper, vocab)
    decreases depth, Obj(m), 1
  {
    hide Resolve, WellShaped, IsPart, FaithfulArgument;
    ResolvesMembers(m, defs, depth);
    var r := Resolve(Obj(m), defs, depth).value.fields;
    forall k | k in r ensures FaithfulArgument(k, m[k], r[k], defs, deeper, vocab) {
      forall t | IsPart(t, k, m[k]) ensures InFragment(t, defs, horizon) {
        assert IsInside(t, Obj(m));
        InsideIsSmaller(t, Obj(m));
      }
      hide InFragment;
      InlineArgument(k, m[k], defs, depth, deeper, horizon, vocab);
    }
    MembersAreFaithful(m, r, defs, deeper, vocab);
  }

  /** An object is inlined faithfully if each of its arguments is. */
  lemma MembersAreFaithful(m: map<Name, Json>, r: map<Name, Json>, defs: map<Name, Json>, depth: nat, vocab: Vocabulary)
    requires Ref !in m && AnyOf !in m && Defs !in m && Nullable !in m
    requires r.Keys == m.Keys - STRIPPED
    requires forall k | k in r :: FaithfulArgument(k, m[k], r[k], defs, depth, vocab)
    ensures Faithful(Obj(m), Obj(r), defs, depth, vocab)
  {
    MembersWellInlined(m, r, defs, depth, vocab);
    MembersMeanTheSame(m, r, defs, depth, vocab);
    MembersReadyAlike(m, r, defs, depth, vocab);
    hide Meaning, UnionsReady, FaithfulArgument, WellInlined;
  }

  lemma MembersWellInlined(m: map<Name, Json>, r: map<Name, Json>, defs: map<Name, Json>, depth: nat, vocab: Vocabulary)
    requires Ref !in m && AnyOf !in m && Defs !in m && Nullable !in m
    requires r.Keys == m.Keys - STRIPPED
    requires forall k | k in r :: FaithfulArgument(k, m[k], r[k], defs, depth, vocab)
    ensures WellInlined(Obj(r))
  {
    hide ArgumentOf, PartsReady, WellShaped, IsPart, UnionInFragment;
    forall t | IsInside(t, Obj(r)) ensures WellInlined(t) {
      var k :| k in r && IsPart(t, k, r[k]);
      assert FaithfulArgument(k, m[k], r[k], defs, depth, vocab);
    }
    forall k | k in r ensures WellShaped(k, r[k]) && k !in INLINED && Without(r[k], INLINED) {
      assert FaithfulArgument(k, m[k], r[k], defs, depth, vocab);
    }
    WithoutByMembers(r, INLINED);
  }

  lemma MembersMeanTheSame(m: map<Name, Json>, r: map<Name, Json>, defs: map<Name, Json>, depth: nat, vocab: Vocabulary)
    requires Ref !in m && AnyOf !in m && Nullable !in m
    requires r.Keys == m.Keys - STRIPPED
    requires forall k | k in r :: FaithfulArgument(k, m[k], r[k], defs, depth, vocab)
    ensures Arguments(Obj(m), defs, depth, vocab) == Arguments(Obj(r), map[], 0, vocab)
    ensures Meaning(Obj(m), defs, depth, vocab) == MeaningAlone(Obj(r), vocab)
    ensures NullPasses(Obj(m), defs, depth, vocab) <==> NullPasses(Obj(r), map[], 0, vocab)
  {
    hide WellShaped, Without, IsPart, PartsReady, WellInlined, TypeAllows, Arguments, Meaning;
    forall k | k in r ensures ArgumentOf(k, m[k], defs, depth, vocab) == ArgumentOf(k, r[k], map[], 0, vocab) {
      assert FaithfulArgument(k, m[k], r[k], defs, depth, vocab);
    }
    if Type in m {
      assert ArgumentOf(Type, m[Type], defs, depth, vocab) == Literal(m[Type]);
      assert ArgumentOf(Type, r[Type], map[], 0, vocab) == Literal(r[Type]);
    }
    hide ArgumentOf, FaithfulArgument;
    SameArguments(m, r, defs, depth, vocab);
    SameMeaning(m, r, defs, depth, vocab);
  }

  lemma SameArguments(m: map<Name, Json>, r: map<Name, Json>, defs: map<Name, Json>, depth: nat, vocab: Vocabulary)
    requires r.Keys == m.Keys - STRIPPED
    requires forall k | k in r :: ArgumentOf(k, m[k], defs, depth, vocab) == ArgumentOf(k, r[k], map[], 0, vocab)
    ensures Arguments(Obj(m), defs, depth, vocab) == Arguments(Obj(r), map[], 0, vocab)
  {
    hide ArgumentOf;
    assert forall k | IsVocabulary(k) :: k in m <==> k in r;
  }

  lemma SameMeaning(m: map<Name, Json>, r: map<Name, Json>, defs: map<Name, Json>, depth: nat, vocab: Vocabulary)
    requires Ref !in m && AnyOf !in m && Nullable !in m && Ref !in r && AnyOf !in r && Nullable !in r
    requires (Type in m <==> Type in r) && (Type in m ==> r[Type] == m[Type])
    requires Arguments(Obj(m), defs, depth, vocab) == Arguments(Obj(r), map[], 0, vocab)
    ensures Meaning(Obj(m), defs, depth, vocab) == MeaningAlone(Obj(r), vocab)
    ensures NullPasses(Obj(m), defs, depth, vocab) <==> NullPasses(Obj(r), map[], 0, vocab)
  {
    hide Arguments, TypeAllows;
    assert forall v :: TypeHolds(m, v) <==> TypeHolds(r, v);
  }

  lemma MembersReadyAlike(m: map<Name, Json>, r: map<Name, Json>, defs: map<Name, Json>, depth: nat, vocab: Vocabulary)
    requires Ref !in m && AnyOf !in m
    requires r.Keys == m.Keys - STRIPPED
    requires forall k | k in r :: FaithfulArgument(k, m[k], r[k], defs, depth, vocab)
    ensures UnionsReady(Obj(m), defs, depth, vocab) <==> UnionsReady(Obj(r), map[], 0, vocab)
  {
    ReadyByParts(m, defs, depth, vocab);
    ReadyByParts(r, map[], 0, vocab);
    forall k | k in r ensures PartsReady(k, m[k], defs, depth, vocab) <==> PartsReady(k, r[k], map[], 0, vocab) {
      assert FaithfulArgument(k, m[k], r[k], defs, depth, vocab);
    }
    hide UnionsReady, FaithfulArgument;
    ReadyByArguments(m, defs, depth, vocab);
    ReadyByArguments(r, map[], 0, vocab);
    hide PartsReady, InsideReady;
  }

  lemma ReadyByArguments(m: map<Name, Json>, defs: map<Name, Json>, depth: nat, vocab: Vocabulary)
    ensures InsideReady(Obj(m), defs, depth, vocab) <==>
            forall k | k in m && k !in STRIPPED :: PartsReady(k, m[k], defs, depth, vocab)
  {
    hide UnionsReady;
    if InsideReady(Obj(m), defs, depth, vocab) {
      forall k | k in m ensures PartsReady(k, m[k], defs, depth, vocab) {
        assert forall t | IsPart(t, k, m[k]) :: IsInside(t, Obj(m));
      }
    }
  }

  lemma {:induction false} InlineArgument(
      k: Name, arg: Json, defs: map<Name, Json>, depth: nat, deeper: nat, horizon: nat, vocab: Vocabulary)
    requires DefsInFragment(defs, horizon) && WellShaped(k, arg) && forall t | IsPart(t, k, arg) :: InFragment(t, defs, horizon)
    requires Resolve(arg, defs, depth).Ok? && depth <= deeper
    ensures FaithfulArgument(k, arg, Resolve(arg, defs, depth).value, defs, deeper, vocab)
    decreases depth, arg, 3
  {
    hide Resolve, Meaning, InFragment, UnionsReady, NullPasses;
    var r := Resolve(arg, defs, depth).value;
    if k.Single? {
      assert IsPart(arg, k, arg);
      InlineIsFaithful(arg, defs, depth, deeper, horizon, vocab);
    } else if k.Mapped? {
      InlineMap(k, arg.fields, defs, depth, deeper, horizon, vocab);
    } else if k.Listed? {
      InlineList(k, arg.items, defs, depth, deeper, horizon, vocab);
    } else {
      ResolveFixesPlain(arg, defs, depth);
      PlainIsWithout(arg, INLINED);
    }
  }

  lemma {:induction false} InlineMap(
      k: Name, m: map<Name, Json>, defs: map<Name, Json>, depth: nat, deeper: nat, horizon: nat, vocab: Vocabulary)
    requires k.Mapped? && DefsInFragment(defs, horizon)
    requires forall p | p in m :: p !in SPECIAL && IsPart(m[p], k, Obj(m))
    requires forall t | IsPart(t, k, Obj(m)) :: InFragment(t, defs, horizon)
    requires Resolve(Obj(m), defs, depth).Ok? && depth <= deeper
    ensures FaithfulArgument(k, Obj(m), Resolve(Obj(m), defs, depth).value, defs, deeper, vocab)
    decreases depth, Obj(m), 0
  {
    hide Resolve, Meaning, InFragment, UnionsReady, NullPasses, WellInlined;
    ResolvesMembers(m, defs, depth);
    var r := Resolve(Obj(m), defs, depth).value.fields;
    assert r.Keys == m.Keys;
    forall p | p in m ensures Faithful(m[p], r[p], defs, deeper, vocab) && Without(r[p], INLINED) {
      InlineIsFaithful(m[p], defs, depth, deeper, horizon, vocab);
      WellInlinedIsWithout(r[p]);
    }
    WithoutByMembers(r, INLINED);
    MapIsFaithful(k, m, r, defs, deeper, vocab);
  }

  lemma MapIsFaithful(k: Name, m: map<Name, Json>, r: map<Name, Json>, defs: map<Name, Json>, depth: nat, vocab: Vocabulary)
    requires k.Mapped? && r.Keys == m.Keys && Without(Obj(r), INLINED)
    requires forall p | p in m :: p !in SPECIAL && Faithful(m[p], r[p], defs, depth, vocab)
    ensures FaithfulArgument(k, Obj(m), Obj(r), defs, depth, vocab)
  {
    hide Meaning, InFragment, UnionsReady, NullPasses, Without;
    assert ArgumentOf(k, Obj(m), defs, depth, vocab) == ArgumentOf(k, Obj(r), map[], 0, vocab) by {
      assert (map p | p in m :: Meaning(m[p], defs, depth, vocab)) == (map p | p in r :: Meaning(r[p], map[], 0, vocab));
    }
    hide ArgumentOf, WellInlined;
    MapPartsReady(k, m, defs, depth, vocab);
    MapPartsReady(k, r, map[], 0, vocab);
    forall t | IsPart(t, k, Obj(r)) ensures WellInlined(t) {
      var p :| p in r && r[p] == t;
      assert Faithful(m[p], r[p], defs, depth, vocab);
    }
    hide IsPart, PartsReady;
  }

  lemma MapPartsReady(k: Name, m: map<Name, Json>, defs: map<Name, Json>, depth: nat, vocab: Vocabulary)
    requires k.Mapped?
    ensures PartsReady(k, Obj(m), defs, depth, vocab) <==> forall p | p in m :: UnionsReady(m[p], defs, depth, vocab)
  {
    hide UnionsReady;
    if PartsReady(k, Obj(m), defs, depth, vocab) {
      forall p | p in m ensures UnionsReady(m[p], defs, depth, vocab) {
        assert IsPart(m[p], k, Obj(m));
      }
    }
  }

  lemma WellInlinedIsWithout(s: Json)
    requires WellInlined(s)
    ensures Without(s, INLINED)
  {
  }

  lemma {:induction false} InlineList(
      k: Name, items: seq<Json>, defs: map<Name, Json>, depth: nat, deeper: nat, horizon: nat, vocab: Vocabulary)
    requires k.Listed? && DefsInFragment(defs, horizon) && forall t | IsPart(t, k, Arr(items)) :: InFragment(t, defs, horizon)
    requires Resolve(Arr(items), defs, depth).Ok? && depth <= deeper
    ensures FaithfulArgument(k, Arr(items), Resolve(Arr(items), defs, depth).value, defs, deeper, vocab)
    decreases depth, Arr(items), 0
  {
    hide Resolve, Meaning, InFragment, UnionsReady, NullPasses, WellInlined;
    ResolvesList(items, defs, depth);
    var r := Resolve(Arr(items), defs, depth).value.items;
    forall i | 0 <= i < |items| ensures Faithful(items[i], r[i], defs, deeper, vocab) && Without(r[i], INLINED) {
      assert IsPart(items[i], k, Arr(items));
      InlineIsFaithful(items[i], defs, depth, deeper, horizon, vocab);
      WellInlinedIsWithout(r[i]);
    }
    assert forall i | 0 <= i < |items| :: IsPart(items[i], k, Arr(items)) && IsPart(r[i], k, Arr(r));
    assert seq(|items|, i requires 0 <= i < |items| => Meaning(items[i], defs, deeper, vocab)) ==
           seq(|r|, i requires 0 <= i < |r| => Meaning(r[i], map[], 0, vocab));
  }
}
