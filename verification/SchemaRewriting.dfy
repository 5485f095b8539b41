/** The nullable rewrite of unions: what it keeps, and exactly when it keeps meaning. */
module SchemaRewriting {
  import opened JsonValues
  import opened SchemaCleaner
  import opened SchemaMeaning
  import opened SchemaInlining

  const NULLABLE: map<Name, Json> := map[Nullable := Bool(true)]

  lemma {:induction false} SimplifyFixesPlain(j: Json)
    requires Plain(j)
    ensures Simplify(j) == Ok(j)
  {
    match j
    case Arr(items) =>
      forall i | 0 <= i < |items| ensures Simplify(items[i]) == Ok(items[i]) {
        SimplifyFixesPlain(items[i]);
      }
      assert Simplify(j).value.items == items;
    case Obj(m) =>
      assert AnyOf !in m;
      forall k | k in m ensures Simplify(m[k]) == Ok(m[k]) {
        SimplifyFixesPlain(m[k]);
      }
      assert Simplify(j).value.fields == m;
    case _ =>
  }

  // The shape of inlined schemas.

  /** A schema that the rewrite keeps: an object with members that is not the schema of `null`. */
  predicate Keepable(s: Json) {
    s.Obj? && s.fields != map[] && Ref !in s.fields && (Type in s.fields ==> s.fields[Type] != Str("null"))
  }

  lemma UnionParts(m: map<Name, Json>)
    requires WellInlined(Obj(m)) && AnyOf in m
    ensures Ref !in m && OnlyAnnotationsBesides(m, AnyOf) && IsNullUnion(m[AnyOf]) && Without(Obj(m), INLINED)
    ensures WellInlined(Kept(m[AnyOf])) && Keepable(Kept(m[AnyOf])) && Kept(m[AnyOf]) < Obj(m)
    ensures Inert(m - {AnyOf})
  {
    hide IsInside, WellShaped;
    assert Without(m[AnyOf], INLINED);
    assert UnionInFragment(m[AnyOf], map[], 0);
    var kept := Kept(m[AnyOf]);
    assert Without(kept, INLINED);
    assert kept.fields - STRIPPED != map[];
  }

  lemma MemberParts(m: map<Name, Json>)
    requires WellInlined(Obj(m)) && AnyOf !in m
    ensures Ref !in m && Nullable !in m
    ensures forall k | k in m :: k !in SPECIAL && WellShaped(k, m[k]) && Without(m[k], INLINED)
    ensures forall t | IsInside(t, Obj(m)) :: WellInlined(t) && t < Obj(m)
  {
    hide UnionInFragment, WellShaped;
    assert forall k | k in m :: Without(m[k], INLINED);
    forall t | IsInside(t, Obj(m)) ensures WellInlined(t) && t < Obj(m) {
      InsideIsSmaller(t, Obj(m));
      var k :| k in m && IsPart(t, k, m[k]);
      PartIsWithout(t, k, m[k]);
    }
  }

  lemma PartIsWithout(t: Json, k: Name, arg: Json)
    requires IsPart(t, k, arg) && Without(arg, INLINED)
    ensures Without(t, INLINED)
  {
  }

  // The rewrite itself.

  lemma PicksKept(arg: Json)
    requires IsNullUnion(arg) && Keepable(Kept(arg))
    ensures Options(arg) == Ok(arg.items) && FirstNonNull(arg.items) == Some(Kept(arg)) && Kept(arg).fields != map[]
  {
    assert !NonNull(NULL_SCHEMA) && NonNull(Kept(arg));
    if arg.items[0] == NULL_SCHEMA {
      assert arg.items[1..][0] == arg.items[1];
    }
  }

  /** A union becomes its kept option, the annotations beside it, and `nullable`. */
  lemma SimplifiesUnion(m: map<Name, Json>)
    requires AnyOf in m && IsNullUnion(m[AnyOf]) && Keepable(Kept(m[AnyOf]))
    requires Simplify(Kept(m[AnyOf])).Ok? && Simplify(Kept(m[AnyOf])).value.Obj?
    ensures Simplify(Obj(m)) ==
            Ok(Obj(Simplify(Kept(m[AnyOf])).value.fields + (m - {AnyOf}) + NULLABLE))
  {
    hide Kept, IsNullUnion, FirstNonNull, Keepable;
    PicksKept(m[AnyOf]);
  }

  lemma SimplifiesMembers(m: map<Name, Json>)
    requires AnyOf !in m
    requires forall k | k in m :: Simplify(m[k]).Ok?
    ensures var r := Simplify(Obj(m));
            && r.Ok? && r.value.Obj? && r.value.fields.Keys == m.Keys
            && forall k | k in m :: Ok(r.value.fields[k]) == Simplify(m[k])
  {
  }

  lemma SimplifiesList(items: seq<Json>)
    requires forall i | 0 <= i < |items| :: Simplify(items[i]).Ok?
    ensures var r := Simplify(Arr(items));
            && r.Ok? && r.value.Arr? && |r.value.items| == |items|
            && forall i | 0 <= i < |items| :: Ok(r.value.items[i]) == Simplify(items[i])
  {
  }

  /** The rewrite succeeds, and leaves none of the special names. */
  predicate Cleaned(s: Json) {
    Simplify(s).Ok? && (Simplify(s).value.Obj? <==> s.Obj?) && Plain(Simplify(s).value)
  }

  /** `r` is the argument with its subschemas rewritten, and nothing else. */
  predicate Rewritten(k: Name, arg: Json, r: Json) {
    && Plain(r)
    && if k.Single? then Ok(r) == Simplify(arg)
       else if k.Mapped? then
         arg.Obj? && r.Obj? && r.fields.Keys == arg.fields.Keys
         && forall p | p in arg.fields :: Ok(r.fields[p]) == Simplify(arg.fields[p])
       else if k.Listed? then
         arg.Arr? && r.Arr? && |r.items| == |arg.items|
         && forall i | 0 <= i < |arg.items| :: Ok(r.items[i]) == Simplify(arg.items[i])
       else r == arg
  }

  lemma RewriteArgument(k: Name, arg: Json)
    requires WellShaped(k, arg) && forall t | IsPart(t, k, arg) :: Cleaned(t)
    ensures Simplify(arg).Ok? && Rewritten(k, arg, Simplify(arg).value)
  {
    hide Simplify;
    if k.Single? {
      assert IsPart(arg, k, arg);
    } else if k.Mapped? {
      assert forall p | p in arg.fields :: IsPart(arg.fields[p], k, arg);
      SimplifiesMembers(arg.fields);
    } else if k.Listed? {
      assert forall i | 0 <= i < |arg.items| :: IsPart(arg.items[i], k, arg);
      SimplifiesList(arg.items);
    } else {
      SimplifyFixesPlain(arg);
    }
  }

  /** Without a union at the top, the rewrite changes only subschemas. */
  lemma RewriteMembers(m: map<Name, Json>)
    requires WellInlined(Obj(m)) && AnyOf !in m && forall t | IsInside(t, Obj(m)) :: Cleaned(t)
    ensures Cleaned(Obj(m)) && Simplify(Obj(m)).value.fields.Keys == m.Keys
    ensures forall k | k in m :: Rewritten(k, m[k], Simplify(Obj(m)).value.fields[k])
  {
    MemberParts(m);
    hide Simplify, WellInlined, WellShaped, Rewritten;
    forall k | k in m ensures Simplify(m[k]).Ok? && Rewritten(k, m[k], Simplify(m[k]).value) {
      assert forall t | IsPart(t, k, m[k]) :: IsInside(t, Obj(m));
      RewriteArgument(k, m[k]);
    }
    SimplifiesMembers(m);
    var r := Simplify(Obj(m)).value.fields;
    forall k | k in r ensures k !in SPECIAL && Plain(r[k]) { RewrittenIsPlain(k, m[k], r[k]); }
    WithoutByMembers(r, SPECIAL);
  }

  lemma RewrittenIsPlain(k: Name, arg: Json, r: Json)
    requires Rewritten(k, arg, r)
    ensures Plain(r)
  {
  }

  lemma PlainWithNotes(t: map<Name, Json>, a: map<Name, Json>)
    requires Plain(Obj(t)) && forall k | k in a :: k !in SPECIAL && Plain(a[k])
    ensures Plain(Obj(t + a + NULLABLE))
  {
  }

  lemma RewriteUnion(m: map<Name, Json>)
    requires WellInlined(Obj(m)) && AnyOf in m && IsNullUnion(m[AnyOf]) && Cleaned(Kept(m[AnyOf]))
    ensures Cleaned(Obj(m))
  {
    hide Simplify, WellInlined, IsNullUnion, Kept, Plain;
    UnionParts(m);
    SimplifiesUnion(m);
    PlainWithNotes(Simplify(Kept(m[AnyOf])).value.fields, m - {AnyOf});
  }

  /** The rewrite always succeeds on an inlined fragment schema, and leaves none of the special names. */
  lemma {:induction false} RewriteShape(s: Json)
    requires WellInlined(s)
    ensures Cleaned(s)
    decreases s
  {
    if s.Bool? {
    } else if AnyOf in s.fields {
      UnionParts(s.fields);
      RewriteShape(Kept(s.fields[AnyOf]));
      RewriteUnion(s.fields);
    } else {
      MemberParts(s.fields);
      forall t | IsInside(t, s) ensures Cleaned(t) { RewriteShape(t); }
      RewriteMembers(s.fields);
    }
  }

  // Its meaning.

  /** The rewrite preserves the meaning of `s`. */
  ghost predicate Preserved(s: Json, vocab: Vocabulary) {
    Simplify(s).Ok? && MeaningAlone(Simplify(s).value, vocab) == MeaningAlone(s, vocab)
  }

  /** An argument whose subschemas keep their meaning keeps its own. */
  lemma RewrittenArgument(k: Name, arg: Json, r: Json, vocab: Vocabulary)
    requires Rewritten(k, arg, r) && forall t | IsPart(t, k, arg) :: Preserved(t, vocab)
    ensures ArgumentOf(k, r, map[], 0, vocab) == ArgumentOf(k, arg, map[], 0, vocab)
  {
    hide Simplify, Meaning, Plain;
    if k.Single? {
      assert IsPart(arg, k, arg);
    } else if k.Mapped? {
      forall p | p in arg.fields
        ensures Meaning(r.fields[p], map[], 0, vocab) == Meaning(arg.fields[p], map[], 0, vocab)
      {
        assert IsPart(arg.fields[p], k, arg);
      }
      assert (map p | p in arg.fields :: Meaning(arg.fields[p], map[], 0, vocab)) ==
             (map p | p in r.fields :: Meaning(r.fields[p], map[], 0, vocab));
    } else if k.Listed? {
      forall i | 0 <= i < |arg.items|
        ensures Meaning(r.items[i], map[], 0, vocab) == Meaning(arg.items[i], map[], 0, vocab)
      {
        assert IsPart(arg.items[i], k, arg);
      }
      assert seq(|r.items|, i requires 0 <= i < |r.items| => Meaning(r.items[i], map[], 0, vocab)) ==
             seq(|arg.items|, i requires 0 <= i < |arg.items| => Meaning(arg.items[i], map[], 0, vocab));
    }
  }

  /** An object whose subschemas keep their meaning keeps its own. */
  lemma RewrittenMembersMean(m: map<Name, Json>, vocab: Vocabulary)
    requires WellInlined(Obj(m)) && AnyOf !in m && forall t | IsInside(t, Obj(m)) :: Preserved(t, vocab)
    ensures Cleaned(Obj(m)) && Preserved(Obj(m), vocab)
    ensures Arguments(Simplify(Obj(m)).value, map[], 0, vocab) == Arguments(Obj(m), map[], 0, vocab)
  {
    MemberParts(m);
    forall t | IsInside(t, Obj(m)) ensures Cleaned(t) { RewriteShape(t); }
    RewriteMembers(m);
    hide Simplify, WellInlined, Rewritten, WellShaped, Plain, ArgumentOf;
    var r := Simplify(Obj(m)).value.fields;
    forall k | k in m ensures ArgumentOf(k, r[k], map[], 0, vocab) == ArgumentOf(k, m[k], map[], 0, vocab) {
      assert forall t | IsPart(t, k, m[k]) :: IsInside(t, Obj(m));
      RewrittenArgument(k, m[k], r[k], vocab);
    }
    if Type in m { TypeIsKept(m[Type], r[Type]); }
    SameArguments(m, r, map[], 0, vocab);
    SameMeaning(m, r, map[], 0, vocab);
  }

  lemma TypeIsKept(arg: Json, r: Json)
    requires Rewritten(Type, arg, r)
    ensures r == arg
  {
  }

  ghost function NullIf(b: bool): iset<Json> {
    if b then iset{Null} else iset{}
  }

  /** Adding annotations and `nullable` adds `null`, exactly if the other keywords let it pass. */
  lemma NullableMeaning(t: map<Name, Json>, a: map<Name, Json>, vocab: Vocabulary)
    requires Inert(a) && Ref !in t && AnyOf !in t
    ensures MeaningAlone(Obj(t + a + NULLABLE), vocab) ==
            MeaningAlone(Obj(t), vocab) + NullIf(vocab(Arguments(Obj(t), map[], 0, vocab), Null))
  {
    hide TypeAllows, ArgumentOf, Arguments;
    InertIsOutside(t, a, vocab);
    NullableIsNoArgument(t + a, vocab);
    var r := t + a + NULLABLE;
    assert AllowsNull(r) && Ref !in r && AnyOf !in r;
    assert forall v :: TypeHolds(r, v) <==> TypeHolds(t, v) || v.Null?;
  }

  lemma NullableIsNoArgument(t: map<Name, Json>, vocab: Vocabulary)
    ensures Arguments(Obj(t + NULLABLE), map[], 0, vocab) == Arguments(Obj(t), map[], 0, vocab)
  {
    hide ArgumentOf;
    assert forall k | IsVocabulary(k) :: k in t + NULLABLE <==> k in t;
  }

  /** What the rewritten union accepts, in terms of its rewritten option. */
  lemma RewrittenUnionMeans(m: map<Name, Json>, vocab: Vocabulary)
    requires WellInlined(Obj(m)) && AnyOf in m && IsNullUnion(m[AnyOf]) && Cleaned(Kept(m[AnyOf]))
    ensures Cleaned(Obj(m)) && Kept(m[AnyOf]).Obj?
    ensures var kept := Simplify(Kept(m[AnyOf])).value;
            MeaningAlone(Simplify(Obj(m)).value, vocab) ==
            MeaningAlone(kept, vocab) + NullIf(vocab(Arguments(kept, map[], 0, vocab), Null))
  {
    UnionParts(m);
    RewriteUnion(m);
    SimplifiesUnion(m);
    assert Plain(Simplify(Kept(m[AnyOf])).value);
    hide Simplify, WellInlined, Meaning, Arguments, IsNullUnion, Kept;
    NullableMeaning(Simplify(Kept(m[AnyOf])).value.fields, m - {AnyOf}, vocab);
  }

  lemma NullOnlyIfPasses(s: Json, vocab: Vocabulary)
    requires s.Obj? && Null in MeaningAlone(s, vocab)
    ensures vocab(Arguments(s, map[], 0, vocab), Null)
  {
    hide Arguments;
  }

  /** A union of a union keeps its meaning: `null` is accepted already. */
  lemma UnionOfUnionIsPreserved(m: map<Name, Json>, vocab: Vocabulary)
    requires WellInlined(Obj(m)) && AnyOf in m && IsNullUnion(m[AnyOf]) && Cleaned(Kept(m[AnyOf]))
    requires Kept(m[AnyOf]).Obj? && AnyOf in Kept(m[AnyOf]).fields && Preserved(Kept(m[AnyOf]), vocab)
    ensures Preserved(Obj(m), vocab)
  {
    UnionParts(m);
    var kept := Kept(m[AnyOf]);
    UnionParts(kept.fields);
    hide Simplify, Arguments, OnlyAnnotationsBesides, WellInlined, Meaning, Inert, Kept;
    UnionMeaning(m, map[], 0, vocab);
    UnionMeaning(kept.fields, map[], 0, vocab);
    RewrittenUnionMeans(m, vocab);
  }

  /** A union of any other schema keeps its meaning exactly if that schema lets `null` past its keywords. */
  lemma UnionOfMembersIsPreserved(m: map<Name, Json>, vocab: Vocabulary)
    requires WellInlined(Obj(m)) && AnyOf in m && IsNullUnion(m[AnyOf]) && Cleaned(Kept(m[AnyOf]))
    requires var kept := Kept(m[AnyOf]);
             && kept.Obj? && AnyOf !in kept.fields && Preserved(kept, vocab)
             && Arguments(Simplify(kept).value, map[], 0, vocab) == Arguments(kept, map[], 0, vocab)
    ensures Preserved(Obj(m), vocab) <==> vocab(Arguments(Kept(m[AnyOf]), map[], 0, vocab), Null)
  {
    UnionParts(m);
    var kept := Kept(m[AnyOf]);
    hide Simplify, Arguments, OnlyAnnotationsBesides, WellInlined, Meaning, Inert, Kept;
    UnionMeaning(m, map[], 0, vocab);
    RewrittenUnionMeans(m, vocab);
    if Null in MeaningAlone(Simplify(kept).value, vocab) { NullOnlyIfPasses(Simplify(kept).value, vocab); }
    assert Null in MeaningAlone(Obj(m), vocab);
  }

  /** A union whose kept option keeps its meaning keeps its own exactly if the option lets `null` pass. */
  lemma UnionIsPreservedExactly(m: map<Name, Json>, vocab: Vocabulary)
    requires WellInlined(Obj(m)) && AnyOf in m && IsNullUnion(m[AnyOf]) && Preserved(Kept(m[AnyOf]), vocab)
    requires forall t | IsInside(t, Kept(m[AnyOf])) :: Preserved(t, vocab)
    ensures Preserved(Obj(m), vocab) <==> NullPasses(Kept(m[AnyOf]), map[], 0, vocab)
  {
    UnionParts(m);
    var kept := Kept(m[AnyOf]);
    RewriteShape(kept);
    hide Simplify, OnlyAnnotationsBesides, WellInlined, Meaning, Arguments, Inert, Kept, Preserved;
    if AnyOf in kept.fields {
      UnionOfUnionIsPreserved(m, vocab);
    } else {
      RewrittenMembersMean(kept.fields, vocab);
      UnionOfMembersIsPreserved(m, vocab);
    }
  }
}
