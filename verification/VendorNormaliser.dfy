/** Matching a raw vendor name against the vendor master (`vendor_normaliser.py`).
    The fuzzy score of two normal forms is a parameter. */
module VendorNormaliser {
  import opened JsonValues
  import opened Text
  import opened Parsing
  import opened Ranking
  import Rounding

  datatype Entry = Entry(id: nat, canonicalName: string, aliases: seq<string>)

  datatype MatchType = Fuzzy | Alias | Exact

  datatype Match = Match(vendorId: nat, canonicalName: string, score: real, matchType: MatchType)

  datatype Outcome = Outcome(isRecognized: bool, match_: Option<Match>, suggestions: seq<Match>)

  type Fuzz = (string, string) -> real

  function Names(entry: Entry): (names: seq<string>)
    ensures |names| == 1 + |entry.aliases| && names[0] == entry.canonicalName && names[1..] == entry.aliases
  {
    [entry.canonicalName] + entry.aliases
  }

  function NormalForms(names: seq<string>): (forms: seq<string>)
    ensures |forms| == |names| && forall i | 0 <= i < |names| :: forms[i] == NormalizeVendorName(names[i])
  {
    seq(|names|, i requires 0 <= i < |names| => NormalizeVendorName(names[i]))
  }

  function FirstIndex<T(==)>(x: T, xs: seq<T>): (k: nat)
    ensures k <= |xs| && (k < |xs| ==> xs[k] == x) && forall i | 0 <= i < k :: xs[i] != x
  {
    if xs == [] || xs[0] == x then 0 else 1 + FirstIndex(x, xs[1..])
  }

  /** The first name with this normal form, or the number of names. */
  function FirstEqual(query: string, names: seq<string>): nat {
    FirstIndex(query, NormalForms(names))
  }

  function Max(a: real, b: real): real {
    if a >= b then a else b
  }

  function BestScore(query: string, names: seq<string>, fuzz: Fuzz): real {
    if names == [] then -1.0
    else Max(BestScore(query, names[..|names| - 1], fuzz), fuzz(query, NormalizeVendorName(names[|names| - 1])))
  }

  /** `round(score, 2)` */
  function Hundredths(score: real): real {
    Rounding.HalfEven(100.0 * score) as real / 100.0
  }

  function EntryMatch(query: string, entry: Entry, fuzz: Fuzz): Option<Match> {
    var names := Names(entry);
    var k := FirstEqual(query, names);
    if k < |names| then Some(Match(entry.id, entry.canonicalName, 100.0, if k > 0 then Alias else Exact))
    else
      var best := BestScore(query, names, fuzz);
      if best < 0.0 then None
      else Some(Match(entry.id, entry.canonicalName, Hundredths(best), Fuzzy))
  }

  method BestMatchForEntry(query: string, entry: Entry, fuzz: Fuzz) returns (r: Option<Match>)
    ensures r == EntryMatch(query, entry, fuzz)
  {
    hide NormalizeVendorName, Max;
    var names := Names(entry);
    var best := -1.0;
    var i := 0;
    while i < |names|
      invariant i <= |names|
      invariant best == BestScore(query, names[..i], fuzz)
      invariant forall j | 0 <= j < i :: NormalizeVendorName(names[j]) != query
    {
      var normal := NormalizeVendorName(names[i]);
      if normal == query {
        return Some(Match(entry.id, entry.canonicalName, 100.0, if i > 0 then Alias else Exact));
      }
      best := Max(best, fuzz(query, normal));
      assert names[..i + 1][..i] == names[..i];
      i := i + 1;
    }
    assert names[..|names|] == names;
    if best < 0.0 { return None; }
    return Some(Match(entry.id, entry.canonicalName, Hundredths(best), Fuzzy));
  }

  function Candidates(query: string, master: seq<Entry>, fuzz: Fuzz): seq<Match> {
    if master == [] then []
    else
      var last := EntryMatch(query, master[|master| - 1], fuzz);
      Candidates(query, master[..|master| - 1], fuzz) + if last.Some? then [last.value] else []
  }

  function TypeRank(t: MatchType): int {
    match t case Exact => 2 case Alias => 1 case Fuzzy => 0
  }

  function RankOf(m: Match): Key {
    Key(TypeRank(m.matchType), m.score)
  }

  predicate Confident(m: Match, threshold: real) {
    m.matchType != Fuzzy || m.score >= threshold
  }

  function Normalised(raw: string, master: seq<Entry>, fuzz: Fuzz, threshold: real, limit: nat): Outcome {
    var sorted := Sorted(Candidates(NormalizeVendorName(raw), master, fuzz), RankOf);
    var recognized := sorted != [] && Confident(sorted[0], threshold);
    var others := if recognized then sorted[1..] else sorted;
    Outcome(recognized, if recognized then Some(sorted[0]) else None, if |others| > limit then others[..limit] else others)
  }

  method NormaliseVendor(raw: string, master: seq<Entry>, fuzz: Fuzz, threshold: real, limit: nat)
      returns (r: Outcome)
    ensures r == Normalised(raw, master, fuzz, threshold, limit)
  {
    hide NormalizeVendorName, EntryMatch;
    var query := NormalizeVendorName(raw);
    var candidates: seq<Match> := [];
    var i := 0;
    while i < |master|
      invariant i <= |master|
      invariant candidates == Candidates(query, master[..i], fuzz)
    {
      var found := BestMatchForEntry(query, master[i], fuzz);
      if found.Some? { candidates := candidates + [found.value]; }
      assert master[..i + 1][..i] == master[..i];
      i := i + 1;
    }
    assert master[..|master|] == master;
    candidates := Sorted(candidates, RankOf);
    var best: Option<Match> := if candidates != [] then Some(candidates[0]) else None;
    var recognized := best.Some? && (best.value.matchType != Fuzzy || best.value.score >= threshold);
    if !recognized { best := None; }
    var suggestions := if recognized then candidates[1..] else candidates;
    r := Outcome(recognized, best, if |suggestions| > limit then suggestions[..limit] else suggestions);
  }

  lemma MatchIffRecognised(raw: string, master: seq<Entry>, fuzz: Fuzz, threshold: real, limit: nat)
    ensures var r := Normalised(raw, master, fuzz, threshold, limit); r.match_.Some? <==> r.isRecognized
  {
  }

  // What the ranking decides.

  lemma {:induction false} CandidatesAreMatches(query: string, master: seq<Entry>, fuzz: Fuzz)
    ensures forall m :: m in Candidates(query, master, fuzz) <==>
              exists i :: 0 <= i < |master| && EntryMatch(query, master[i], fuzz) == Some(m)
  {
    hide EntryMatch;
    if master != [] {
      var n := |master| - 1;
      var before := master[..n];
      CandidatesAreMatches(query, before, fuzz);
      forall m
        ensures m in Candidates(query, master, fuzz) <==>
                exists i :: 0 <= i < |master| && EntryMatch(query, master[i], fuzz) == Some(m)
      {
        if m in Candidates(query, before, fuzz) {
          var i :| 0 <= i < |before| && EntryMatch(query, before[i], fuzz) == Some(m);
          assert master[i] == before[i];
        } else if exists i :: 0 <= i < |master| && EntryMatch(query, master[i], fuzz) == Some(m) {
          var i :| 0 <= i < |master| && EntryMatch(query, master[i], fuzz) == Some(m);
          if i < n { assert before[i] == master[i]; }
        }
      }
    }
  }

  /** Some name of the entry has this normal form. */
  predicate Knows(entry: Entry, query: string) {
    exists name :: name in Names(entry) && NormalizeVendorName(name) == query
  }

  /** Every entry scores too low for a fuzzy match. */
  predicate Weak(entry: Entry, query: string, fuzz: Fuzz, threshold: real) {
    var best := BestScore(query, Names(entry), fuzz);
    best < 0.0 || Hundredths(best) < threshold
  }

  lemma EntryMatchKinds(query: string, entry: Entry, fuzz: Fuzz, threshold: real)
    ensures var m := EntryMatch(query, entry, fuzz);
            && (Knows(entry, query) <==> m.Some? && m.value.matchType != Fuzzy)
            && (NormalizeVendorName(entry.canonicalName) == query <==> m.Some? && m.value.matchType == Exact)
            && (m.Some? && m.value.matchType == Exact ==> m.value == Match(entry.id, entry.canonicalName, 100.0, Exact))
            && (m.Some? && Confident(m.value, threshold) <==> Knows(entry, query) || !Weak(entry, query, fuzz, threshold))
  {
    hide NormalizeVendorName, BestScore, Hundredths;
    var names := Names(entry);
    var k := FirstEqual(query, names);
    if k < |names| {
      assert names[k] in names;
      assert k > 0 ==> NormalizeVendorName(names[0]) != query;
    } else {
      assert forall name | name in names :: NormalizeVendorName(name) != query;
    }
  }

  /** A name is recognised exactly when some vendor is known by it or scores at least the threshold:
      the ranking loses no confident match, and the order of the vendors does not matter. */
  lemma RecognisedExactly(raw: string, master: seq<Entry>, fuzz: Fuzz, threshold: real, limit: nat)
    ensures var query := NormalizeVendorName(raw);
            Normalised(raw, master, fuzz, threshold, limit).isRecognized <==>
            exists e :: e in master && (Knows(e, query) || !Weak(e, query, fuzz, threshold))
  {
    hide NormalizeVendorName, EntryMatch, Knows, Weak;
    var query := NormalizeVendorName(raw);
    var candidates := Candidates(query, master, fuzz);
    var sorted := Sorted(candidates, RankOf);
    CandidatesAreMatches(query, master, fuzz);
    SortedElements(candidates, RankOf);
    if e :| e in master && (Knows(e, query) || !Weak(e, query, fuzz, threshold)) {
      EntryMatchKinds(query, e, fuzz, threshold);
      var m := EntryMatch(query, e, fuzz).value;
      assert m in sorted;
      var j :| 0 <= j < |sorted| && sorted[j] == m;
      assert j > 0 ==> !Above(RankOf(sorted[j]), RankOf(sorted[0]));
    }
    if sorted != [] && Confident(sorted[0], threshold) {
      assert sorted[0] in candidates;
      var i :| 0 <= i < |master| && EntryMatch(query, master[i], fuzz) == Some(sorted[0]);
      EntryMatchKinds(query, master[i], fuzz, threshold);
      assert master[i] in master;
    }
  }

  /** The vendor is known by the name, or scores at least the threshold. */
  predicate Resolves(e: Entry, query: string, fuzz: Fuzz, threshold: real) {
    Knows(e, query) || !Weak(e, query, fuzz, threshold)
  }

  /** A match is one of the vendors that the name resolves to. */
  lemma MatchIsVendor(raw: string, master: seq<Entry>, fuzz: Fuzz, threshold: real, limit: nat)
    requires Normalised(raw, master, fuzz, threshold, limit).isRecognized
    ensures exists e :: e in master && Resolves(e, NormalizeVendorName(raw), fuzz, threshold) &&
              Normalised(raw, master, fuzz, threshold, limit).match_.value.vendorId == e.id &&
              Normalised(raw, master, fuzz, threshold, limit).match_.value.canonicalName == e.canonicalName
  {
    hide NormalizeVendorName, BestScore, FirstEqual, Knows, Weak;
    var query := NormalizeVendorName(raw);
    var candidates := Candidates(query, master, fuzz);
    var sorted := Sorted(candidates, RankOf);
    CandidatesAreMatches(query, master, fuzz);
    SortedElements(candidates, RankOf);
    assert sorted[0] in sorted;
    var i :| 0 <= i < |master| && EntryMatch(query, master[i], fuzz) == Some(sorted[0]);
    EntryMatchKinds(query, master[i], fuzz, threshold);
    assert master[i] in master;
  }

  /** Adding vendors never makes a name unrecognised; names with the same normal form are alike. */
  lemma RecognitionGrows(raw: string, master: seq<Entry>, name: string, more: seq<Entry>,
                         fuzz: Fuzz, threshold: real, limit: nat)
    requires Normalised(raw, master, fuzz, threshold, limit).isRecognized
    requires forall e | e in master :: e in more
    requires NormalizeVendorName(name) == NormalizeVendorName(raw)
    ensures Normalised(name, more, fuzz, threshold, limit).isRecognized
  {
    RecognisedExactly(raw, master, fuzz, threshold, limit);
    RecognisedExactly(name, more, fuzz, threshold, limit);
  }

  /** An exact match beats everything else, whatever the fuzzy scores. */
  lemma ExactWins(raw: string, master: seq<Entry>, fuzz: Fuzz, threshold: real, limit: nat, e: Entry)
    requires e in master && NormalizeVendorName(e.canonicalName) == NormalizeVendorName(raw)
    ensures var r := Normalised(raw, master, fuzz, threshold, limit);
            && r.isRecognized && r.match_.Some?
            && exists other :: other in master &&
                 NormalizeVendorName(other.canonicalName) == NormalizeVendorName(raw) &&
                 r.match_.value == Match(other.id, other.canonicalName, 100.0, Exact)
  {
    hide NormalizeVendorName, EntryMatch, Knows, Weak;
    var query := NormalizeVendorName(raw);
    var candidates := Candidates(query, master, fuzz);
    var sorted := Sorted(candidates, RankOf);
    CandidatesAreMatches(query, master, fuzz);
    SortedElements(candidates, RankOf);
    EntryMatchKinds(query, e, fuzz, threshold);
    var m := EntryMatch(query, e, fuzz).value;
    assert m in sorted;
    var j :| 0 <= j < |sorted| && sorted[j] == m;
    assert j > 0 ==> !Above(RankOf(sorted[j]), RankOf(sorted[0]));
    assert sorted[0] in candidates;
    var i :| 0 <= i < |master| && EntryMatch(query, master[i], fuzz) == Some(sorted[0]);
    EntryMatchKinds(query, master[i], fuzz, threshold);
    assert master[i] in master;
  }

  /** Reported scores are the fuzzy ones to the nearest hundredth. */
  lemma HundredthsIsNear(score: real)
    ensures -0.005 <= Hundredths(score) - score <= 0.005
    ensures (100.0 * Hundredths(score)).Floor as real == 100.0 * Hundredths(score)
  {
    var n := Rounding.HalfEven(100.0 * score);
    hide Rounding.HalfEven;
    assert 100.0 * Hundredths(score) == n as real;
  }

  lemma MatchIsTop(raw: string, master: seq<Entry>, fuzz: Fuzz, threshold: real, limit: nat, e: Entry)
    requires Normalised(raw, master, fuzz, threshold, limit).isRecognized && e in master
    ensures var m := EntryMatch(NormalizeVendorName(raw), e, fuzz);
            m.Some? ==> !Above(RankOf(m.value), RankOf(Normalised(raw, master, fuzz, threshold, limit).match_.value))
  {
    hide NormalizeVendorName, EntryMatch, RankOf, Above;
    var query := NormalizeVendorName(raw);
    var candidates := Candidates(query, master, fuzz);
    var sorted := Sorted(candidates, RankOf);
    CandidatesAreMatches(query, master, fuzz);
    SortedElements(candidates, RankOf);
    var m := EntryMatch(query, e, fuzz);
    if m.Some? {
      assert m.value in sorted;
      var j :| 0 <= j < |sorted| && sorted[j] == m.value;
      NotAboveItself(RankOf(m.value));
    }
  }

  lemma NotAboveItself(k: Key)
    ensures !Above(k, k)
  {
  }

  /** An alias beats every fuzzy score: unless a canonical name is equal, a name that some vendor knows is matched to a
      vendor that knows it as an alias, with the full score. */
  lemma AliasBeatsFuzzy(raw: string, master: seq<Entry>, fuzz: Fuzz, threshold: real, limit: nat, e: Entry)
    requires e in master && Knows(e, NormalizeVendorName(raw))
    requires forall o | o in master :: NormalizeVendorName(o.canonicalName) != NormalizeVendorName(raw)
    ensures var r := Normalised(raw, master, fuzz, threshold, limit);
            && r.isRecognized && r.match_.Some? && r.match_.value.matchType == Alias && r.match_.value.score == 100.0
            && exists o :: o in master && Knows(o, NormalizeVendorName(raw))
                 && r.match_.value.vendorId == o.id && r.match_.value.canonicalName == o.canonicalName
  {
    var query := NormalizeVendorName(raw);
    RecognisedExactly(raw, master, fuzz, threshold, limit);
    hide NormalizeVendorName, Knows, Weak, EntryMatch, Normalised;
    assert Knows(e, query) || !Weak(e, query, fuzz, threshold);
    MatchIsTop(raw, master, fuzz, threshold, limit, e);
    var o := MatchIsOfEntry(raw, master, fuzz, threshold, limit);
    EntryMatchKinds(query, e, fuzz, threshold);
    EntryMatchKinds(query, o, fuzz, threshold);
    KnownScore(query, o, fuzz);
  }

  lemma KnownScore(query: string, e: Entry, fuzz: Fuzz)
    ensures var m := EntryMatch(query, e, fuzz);
            m.Some? ==> m.value.vendorId == e.id && m.value.canonicalName == e.canonicalName
                        && m.value.score ==
                            if m.value.matchType == Fuzzy then Hundredths(BestScore(query, Names(e), fuzz)) else 100.0
  {
    hide NormalizeVendorName, BestScore, Hundredths, FirstEqual;
  }

  lemma MatchIsOfEntry(raw: string, master: seq<Entry>, fuzz: Fuzz, threshold: real, limit: nat) returns (o: Entry)
    requires Normalised(raw, master, fuzz, threshold, limit).isRecognized
    ensures o in master && Normalised(raw, master, fuzz, threshold, limit).match_ == EntryMatch(NormalizeVendorName(raw), o, fuzz)
    ensures Normalised(raw, master, fuzz, threshold, limit).match_.Some?
  {
    hide NormalizeVendorName, EntryMatch, Confident;
    var query := NormalizeVendorName(raw);
    var candidates := Candidates(query, master, fuzz);
    var sorted := Sorted(candidates, RankOf);
    CandidatesAreMatches(query, master, fuzz);
    SortedElements(candidates, RankOf);
    assert sorted[0] in sorted;
    var i :| 0 <= i < |master| && EntryMatch(query, master[i], fuzz) == Some(sorted[0]);
    o := master[i];
  }

  /** Without an equal name or alias the best score wins: the match has the highest rounded score of all vendors, and it
      is at least the threshold. */
  lemma FuzzyMatchIsBest(raw: string, master: seq<Entry>, fuzz: Fuzz, threshold: real, limit: nat)
    requires Normalised(raw, master, fuzz, threshold, limit).isRecognized
    requires forall e | e in master :: !Knows(e, NormalizeVendorName(raw))
    ensures var m := Normalised(raw, master, fuzz, threshold, limit).match_;
            && m.Some? && m.value.matchType == Fuzzy && m.value.score >= threshold
            && (exists o :: o in master
                  && m.value == Match(o.id, o.canonicalName,
                                      Hundredths(BestScore(NormalizeVendorName(raw), Names(o), fuzz)), Fuzzy))
            && (forall e | e in master && BestScore(NormalizeVendorName(raw), Names(e), fuzz) >= 0.0 ::
                  Hundredths(BestScore(NormalizeVendorName(raw), Names(e), fuzz)) <= m.value.score)
  {
    var query := NormalizeVendorName(raw);
    var r := Normalised(raw, master, fuzz, threshold, limit);
    assert Confident(r.match_.value, threshold);
    hide NormalizeVendorName, Knows, EntryMatch, Normalised, BestScore, Hundredths;
    var o := MatchIsOfEntry(raw, master, fuzz, threshold, limit);
    EntryMatchKinds(query, o, fuzz, threshold);
    KnownScore(query, o, fuzz);
    var m := r.match_.value;
    assert m == Match(o.id, o.canonicalName, Hundredths(BestScore(query, Names(o), fuzz)), Fuzzy);
    forall e | e in master && BestScore(query, Names(e), fuzz) >= 0.0
      ensures Hundredths(BestScore(query, Names(e), fuzz)) <= m.score
    {
      MatchIsTop(raw, master, fuzz, threshold, limit, e);
      EntryMatchKinds(query, e, fuzz, threshold);
      KnownScore(query, e, fuzz);
      ScoredWhenPositive(query, e, fuzz);
    }
  }

  lemma ScoredWhenPositive(query: string, e: Entry, fuzz: Fuzz)
    requires BestScore(query, Names(e), fuzz) >= 0.0
    ensures EntryMatch(query, e, fuzz).Some?
  {
    hide NormalizeVendorName, BestScore, Hundredths, FirstEqual;
  }

  /** The suggestions are the sorted candidates after the match, up to the limit. */
  lemma SuggestionsAreSorted(raw: string, master: seq<Entry>, fuzz: Fuzz, threshold: real, limit: nat)
    ensures var r := Normalised(raw, master, fuzz, threshold, limit);
            var sorted := Sorted(Candidates(NormalizeVendorName(raw), master, fuzz), RankOf);
            var offset := if r.isRecognized then 1 else 0;
            && offset + |r.suggestions| <= |sorted| && |r.suggestions| <= limit
            && (|r.suggestions| < limit ==> offset + |r.suggestions| == |sorted|)
            && (r.isRecognized ==> r.match_ == Some(sorted[0]))
            && (forall i | 0 <= i < |r.suggestions| :: r.suggestions[i] == sorted[offset + i])
  {
    hide NormalizeVendorName, Candidates, RankOf;
  }

  /** The suggestions are the best of the other candidates: nothing left out, and no later suggestion, ranks
      above one of them, and none ranks above the match. */
  lemma SuggestionsAreRunnersUp(raw: string, master: seq<Entry>, fuzz: Fuzz, threshold: real, limit: nat)
    ensures var r := Normalised(raw, master, fuzz, threshold, limit);
            var candidates := Candidates(NormalizeVendorName(raw), master, fuzz);
            && |r.suggestions| <= limit
            && (forall i, j | 0 <= i < j < |r.suggestions| :: !Above(RankOf(r.suggestions[j]), RankOf(r.suggestions[i])))
            && (forall m | m in r.suggestions :: m in candidates && (r.isRecognized ==>
                  !Above(RankOf(m), RankOf(r.match_.value))))
            && (forall m, k | m in candidates && 0 <= k < |r.suggestions| && Above(RankOf(m), RankOf(r.suggestions[k])) ::
                  m in r.suggestions || r.match_ == Some(m))
  {
    hide NormalizeVendorName, Candidates, RankOf, Above, Normalised;
    SuggestionsAreSorted(raw, master, fuzz, threshold, limit);
    var r := Normalised(raw, master, fuzz, threshold, limit);
    var candidates := Candidates(NormalizeVendorName(raw), master, fuzz);
    var sorted := Sorted(candidates, RankOf);
    SortedElements(candidates, RankOf);
    var offset := if r.isRecognized then 1 else 0;
    forall m | m in r.suggestions ensures exists j :: offset <= j < |sorted| && sorted[j] == m && m in candidates {
      var i :| 0 <= i < |r.suggestions| && r.suggestions[i] == m;
      assert sorted[offset + i] in sorted;
    }
    forall m, k | m in candidates && 0 <= k < |r.suggestions| && Above(RankOf(m), RankOf(r.suggestions[k]))
      ensures m in r.suggestions || r.match_ == Some(m)
    {
      assert m in sorted;
      var j :| 0 <= j < |sorted| && sorted[j] == m;
      if j >= offset {
        assert r.suggestions[k] == sorted[offset + k];
        assert r.suggestions[j - offset] == m;
      }
    }
  }

  /** The best score is the highest of all names, and is reached by one of them. */
  lemma {:induction false} BestScoreIsHighest(query: string, names: seq<string>, fuzz: Fuzz)
    requires names != [] && forall i | 0 <= i < |names| :: fuzz(query, NormalizeVendorName(names[i])) >= 0.0
    ensures forall i | 0 <= i < |names| :: fuzz(query, NormalizeVendorName(names[i])) <= BestScore(query, names, fuzz)
    ensures exists i :: 0 <= i < |names| && fuzz(query, NormalizeVendorName(names[i])) == BestScore(query, names, fuzz)
  {
    hide NormalizeVendorName;
    var n := |names| - 1;
    var front := names[..n];
    assert BestScore(query, names, fuzz) == Max(BestScore(query, front, fuzz), fuzz(query, NormalizeVendorName(names[n])));
    if n == 0 {
      assert BestScore(query, front, fuzz) == -1.0;
    } else {
      assert forall i | 0 <= i < n :: front[i] == names[i];
      BestScoreIsHighest(query, front, fuzz);
      var k :| 0 <= k < n && fuzz(query, NormalizeVendorName(front[k])) == BestScore(query, front, fuzz);
      assert front[k] == names[k];
      hide BestScore;
    }
  }

  // Onboarding an unrecognised vendor under its stripped raw name.

  /** No name of any known vendor has the normal form of an unrecognised name; in particular no canonical
      name equals the one the vendor would be onboarded under. */
  lemma UnrecognisedNeverCollides(raw: string, master: seq<Entry>, fuzz: Fuzz, threshold: real, limit: nat)
    requires !Normalised(raw, master, fuzz, threshold, limit).isRecognized
    ensures forall e, name | e in master && name in Names(e) :: NormalizeVendorName(name) != NormalizeVendorName(raw)
    ensures forall e | e in master :: e.canonicalName != Strip(raw)
  {
    RecognisedExactly(raw, master, fuzz, threshold, limit);
    NormalizationIgnoresPadding(raw);
    forall e, name | e in master && name in Names(e)
      ensures NormalizeVendorName(name) != NormalizeVendorName(raw)
    {
      assert !Knows(e, NormalizeVendorName(raw));
    }
    forall e | e in master ensures e.canonicalName != Strip(raw) {
      assert Names(e)[0] in Names(e);
    }
  }

  /** Once onboarded, every name with the same normal form resolves to the new vendor by an exact match,
      in whatever order the vendors are read and whatever the fuzzy scores. */
  lemma OnboardedIsFound(raw: string, master: seq<Entry>, fuzz: Fuzz, threshold: real, limit: nat,
                         id: nat, after: seq<Entry>, name: string)
    requires !Normalised(raw, master, fuzz, threshold, limit).isRecognized
    requires forall e :: e in after <==> e in master || e == Entry(id, Strip(raw), [])
    requires NormalizeVendorName(name) == NormalizeVendorName(raw)
    ensures Normalised(name, after, fuzz, threshold, limit).match_ == Some(Match(id, Strip(raw), 100.0, Exact))
  {
    UnrecognisedNeverCollides(raw, master, fuzz, threshold, limit);
    NormalizationIgnoresPadding(raw);
    hide NormalizeVendorName, Normalised;
    ExactWins(name, after, fuzz, threshold, limit, Entry(id, Strip(raw), []));
    var other :| other in after
                 && NormalizeVendorName(other.canonicalName) == NormalizeVendorName(name)
                 && Normalised(name, after, fuzz, threshold, limit).match_.value ==
                    Match(other.id, other.canonicalName, 100.0, Exact);
    assert Names(other)[0] in Names(other);
  }
}
