/** Scoring an invoice against its mandatory fields (`completeness.py`). */
module Completeness {
  import Rounding
  import Text

  /** A field value, as far as presence looks at it. */
  datatype Value = Absent | Str(text: string) | Collection(size: nat) | Scalar

  datatype Action = ReturnToVendor | Hold | Process

  datatype Status = Status(field: string, present: bool)

  datatype Request = Request(
    fields: map<string, Value>, mandatory: seq<string>, processThreshold: real, holdThreshold: real)

  datatype Report = Report(
    score: real, present: seq<string>, missing: seq<string>, statuses: seq<Status>, action: Action)

  predicate IsPresent(value: Value) {
    match value
    case Absent => false
    case Str(text) => Text.Strip(text) != ""
    case Collection(size) => size > 0
    case Scalar => true
  }

  /** The field is there and not blank. */
  predicate Has(fields: map<string, Value>, field: string) {
    IsPresent(if field in fields then fields[field] else Absent)
  }

  /** The listed fields that are there (or that are not), in order and with repetitions. */
  function Select(required: seq<string>, fields: map<string, Value>, there: bool): seq<string> {
    if required == [] then []
    else
      var last := required[|required| - 1];
      Select(required[..|required| - 1], fields, there) + if Has(fields, last) == there then [last] else []
  }

  /** Whatever is selected is required, and there or not as asked. */
  lemma {:induction false} SelectedAreRequired(required: seq<string>, fields: map<string, Value>, there: bool)
    ensures forall f :: f in Select(required, fields, there) <==> f in required && Has(fields, f) == there
  {
    hide Has;
    if required != [] {
      var n := |required| - 1;
      SelectedAreRequired(required[..n], fields, there);
      assert required == required[..n] + [required[n]];
    }
  }

  /** The percentage, rounded half up to hundredths. */
  function Score(present: nat, total: nat): real
    requires present <= total
  {
    if total == 0 then 100.0 else Rounding.HalfUp(10000.0 * (present as real / total as real)) as real / 100.0
  }

  function ActionFor(score: real, processThreshold: real, holdThreshold: real): Action {
    if score >= processThreshold then Process else if score >= holdThreshold then Hold else ReturnToVendor
  }

  lemma SelectLast(required: seq<string>, fields: map<string, Value>, there: bool)
    requires required != []
    ensures var n := |required| - 1;
            Select(required, fields, there) ==
            if Has(fields, required[n]) == there then Select(required[..n], fields, there) + [required[n]]
            else Select(required[..n], fields, there)
  {
  }

  lemma SelectNone(fields: map<string, Value>, there: bool)
    ensures Select([], fields, there) == []
  {
  }

  /** Two lists hold the elements of a third, together and with repetitions. */
  ghost predicate Partition<T>(all: seq<T>, yes: seq<T>, no: seq<T>) {
    multiset(all) == multiset(yes) + multiset(no) && |all| == |yes| + |no|
  }

  lemma PartitionExtended<T>(all: seq<T>, yes: seq<T>, no: seq<T>, x: T)
    requires Partition(all, yes, no)
    ensures Partition(all + [x], yes + [x], no) && Partition(all + [x], yes, no + [x])
  {
  }

  lemma PartitionOfNone<T>()
    ensures Partition<T>([], [], [])
  {
  }

  lemma {:induction false} Selected(required: seq<string>, fields: map<string, Value>)
    ensures Partition(required, Select(required, fields, true), Select(required, fields, false))
  {
    hide Has, Select, Partition;
    if required == [] {
      SelectNone(fields, true);
      SelectNone(fields, false);
      PartitionOfNone<string>();
    } else {
      var front, x := required[..|required| - 1], required[|required| - 1];
      Selected(front, fields);
      SelectLast(required, fields, true);
      SelectLast(required, fields, false);
      assert required == front + [x];
      PartitionExtended(front, Select(front, fields, true), Select(front, fields, false), x);
    }
  }

  lemma SelectionsPartition(required: seq<string>, fields: map<string, Value>)
    ensures multiset(required) == multiset(Select(required, fields, true)) + multiset(Select(required, fields, false))
    ensures |required| == |Select(required, fields, true)| + |Select(required, fields, false)|
  {
    hide Select;
    Selected(required, fields);
  }

  method CheckCompleteness(request: Request) returns (r: Report)
    ensures r.present == Select(request.mandatory, request.fields, true)
    ensures r.missing == Select(request.mandatory, request.fields, false)
    ensures multiset(r.present) + multiset(r.missing) == multiset(request.mandatory)
    ensures |r.statuses| == |request.mandatory|
    ensures forall i | 0 <= i < |r.statuses| ::
              r.statuses[i] == Status(request.mandatory[i], Has(request.fields, request.mandatory[i]))
    ensures |r.present| <= |request.mandatory| && r.score == Score(|r.present|, |request.mandatory|)
    ensures r.action == ActionFor(r.score, request.processThreshold, request.holdThreshold)
  {
    SelectNone(request.fields, true);
    SelectNone(request.fields, false);
    hide Has, Score, Select;
    var required := request.mandatory;
    var statuses: seq<Status> := [];
    var present: seq<string> := [];
    var missing: seq<string> := [];
    for i := 0 to |required|
      invariant |statuses| == i
      invariant present == Select(required[..i], request.fields, true)
      invariant missing == Select(required[..i], request.fields, false)
      invariant forall j | 0 <= j < i :: statuses[j] == Status(required[j], Has(request.fields, required[j]))
    {
      assert required[..i + 1][..i] == required[..i];
      SelectLast(required[..i + 1], request.fields, true);
      SelectLast(required[..i + 1], request.fields, false);
      var ok := Has(request.fields, required[i]);
      statuses := statuses + [Status(required[i], ok)];
      if ok { present := present + [required[i]]; } else { missing := missing + [required[i]]; }
    }
    assert required[..|required|] == required;
    SelectionsPartition(required, request.fields);
    var score := Score(|present|, |required|);
    r := Report(score, present, missing, statuses, ActionFor(score, request.processThreshold, request.holdThreshold));
  }

  lemma SignOfProduct(t: real, y: real)
    requires t > 0.0
    ensures t * y <= 0.0 <==> y <= 0.0
  {
    if y > 0.0 { assert t * y > 0.0; }
  }

  lemma Distributed(t: real, x: real)
    ensures t * (19999.0 - 20000.0 * x) == 19999.0 * t - 20000.0 * (x * t)
  {
  }

  /** When the share `x` of the fields that are there rounds to the whole. */
  lemma ShareBounds(x: real, present: nat, total: nat)
    requires total > 0 && x * total as real == present as real
    ensures 10000.0 * x >= 9999.5 <==> 20000 * (total - present) <= total
  {
    var t := total as real;
    Distributed(t, x);
    SignOfProduct(t, 19999.0 - 20000.0 * x);
    assert t * (19999.0 - 20000.0 * x) == (19999 * total - 20000 * present) as real;
  }

  lemma ShareIsAtMostWhole(x: real, present: nat, total: nat)
    requires total > 0 && present <= total && x * total as real == present as real
    ensures x <= 1.0
  {
    var t := total as real;
    assert t * (x - 1.0) == x * t - t;
    SignOfProduct(t, x - 1.0);
  }

  lemma ShareDefinition(present: nat, total: nat)
    requires total > 0
    ensures (present as real / total as real) * total as real == present as real
  {
  }

  lemma RoundsToWhole(share: real)
    requires share <= 10000.0
    ensures Rounding.HalfUp(share) == 10000 <==> share >= 9999.5
  {
  }

  /** The score reads 100.00 exactly when fewer than one field in 20000 is missing. */
  lemma FullScoreExactly(present: nat, total: nat)
    requires present <= total
    ensures Score(present, total) == 100.0 <==> 20000 * (total - present) <= total
  {
    if total > 0 {
      var x := present as real / total as real;
      ShareDefinition(present, total);
      ShareBounds(x, present, total);
      ShareIsAtMostWhole(x, present, total);
      RoundsToWhole(10000.0 * x);
    }
  }

  /** With fewer than 20000 mandatory fields a full score means that nothing is missing. */
  lemma FullScoreMeansComplete(fields: map<string, Value>, mandatory: seq<string>)
    requires |mandatory| < 20000
    ensures var present, missing := Select(mandatory, fields, true), Select(mandatory, fields, false);
            && |present| <= |mandatory|
            && (Score(|present|, |mandatory|) == 100.0 <==> missing == [])
  {
    SelectionsPartition(mandatory, fields);
    FullScoreExactly(|Select(mandatory, fields, true)|, |mandatory|);
  }

  /** From 20000 fields on, an invoice that lacks one of them already scores 100.00. */
  lemma OneMissingOfTwentyThousand(total: nat)
    requires total > 0
    ensures Score(total - 1, total) == 100.0 <==> total >= 20000
  {
    FullScoreExactly(total - 1, total);
  }

  const DEFAULT_PROCESS_THRESHOLD := 100.0
  const DEFAULT_HOLD_THRESHOLD := 60.0

  lemma HoldBounds(x: real, present: nat, total: nat)
    requires total > 0 && x * total as real == present as real
    ensures 10000.0 * x >= 5999.5 <==> 20000 * present >= 11999 * total
  {
    var t := total as real;
    assert t * (11999.0 - 20000.0 * x) == 11999.0 * t - 20000.0 * (x * t);
    SignOfProduct(t, 11999.0 - 20000.0 * x);
    assert t * (11999.0 - 20000.0 * x) == (11999 * total - 20000 * present) as real;
  }

  lemma RoundsToSixty(share: real)
    ensures Rounding.HalfUp(share) >= 6000 <==> share >= 5999.5
  {
  }

  /** The action under the default thresholds, by the number of fields: an invoice is processed exactly when
      at most one field in 20000 is missing, and returned exactly when less than 59.995 percent are there. */
  lemma DefaultActionExactly(present: nat, total: nat)
    requires present <= total
    ensures var action := ActionFor(Score(present, total), DEFAULT_PROCESS_THRESHOLD, DEFAULT_HOLD_THRESHOLD);
            && (action == Process <==> 20000 * (total - present) <= total)
            && (action == ReturnToVendor <==> 20000 * present < 11999 * total)
  {
    FullScoreExactly(present, total);
    if total > 0 {
      var x := present as real / total as real;
      ShareDefinition(present, total);
      HoldBounds(x, present, total);
      RoundsToSixty(10000.0 * x);
      ScoreIsMonotone(present, total, total);
      FullScoreExactly(total, total);
      hide Rounding.HalfUp;
      assert Score(present, total) >= 60.0 <==> Rounding.HalfUp(10000.0 * x) >= 6000;
    }
  }

  lemma QuotientsAreOrdered(x: real, y: real, t: real)
    requires t > 0.0 && x <= y
    ensures x / t <= y / t
  {
    assert (x / t) * t == x && (y / t) * t == y;
    assert t * (x / t - y / t) == x - y;
    SignOfProduct(t, x / t - y / t);
  }

  lemma ScoreIsMonotone(fewer: nat, more: nat, total: nat)
    requires fewer <= more <= total
    ensures Score(fewer, total) <= Score(more, total)
  {
    if total > 0 {
      var t := total as real;
      QuotientsAreOrdered(fewer as real, more as real, t);
      Rounding.HalfUpIsMonotone(10000.0 * (fewer as real / t), 10000.0 * (more as real / t));
    }
  }

  predicate AtLeast(a: Action, b: Action) {
    a == Process || b == ReturnToVendor || a == b
  }

  lemma {:induction false} MorePresent(mandatory: seq<string>, fields: map<string, Value>, better: map<string, Value>)
    requires forall f | Has(fields, f) :: Has(better, f)
    ensures |Select(mandatory, fields, true)| <= |Select(mandatory, better, true)|
  {
    if mandatory != [] {
      MorePresent(mandatory[..|mandatory| - 1], fields, better);
    }
  }

  /** Filling in fields never lowers the score and never worsens the recommended action. */
  lemma FillingInHelps(request: Request, better: map<string, Value>)
    requires forall f | Has(request.fields, f) :: Has(better, f)
    ensures var n := |request.mandatory|;
            var before, after := |Select(request.mandatory, request.fields, true)|, |Select(request.mandatory, better, true)|;
            && before <= after <= n
            && Score(before, n) <= Score(after, n)
            && AtLeast(ActionFor(Score(after, n), request.processThreshold, request.holdThreshold),
                       ActionFor(Score(before, n), request.processThreshold, request.holdThreshold))
  {
    SelectionsPartition(request.mandatory, request.fields);
    SelectionsPartition(request.mandatory, better);
    MorePresent(request.mandatory, request.fields, better);
    hide Score, Has;
    ScoreIsMonotone(|Select(request.mandatory, request.fields, true)|, |Select(request.mandatory, better, true)|,
                    |request.mandatory|);
  }

  /** A field is there unless it is absent, a text of nothing but white space, or an empty collection. */
  lemma PresentExactly(fields: map<string, Value>, field: string)
    ensures !Has(fields, field) <==>
            || field !in fields || fields[field] == Absent || fields[field] == Collection(0)
            || (fields[field].Str? && forall i | 0 <= i < |fields[field].text| :: Text.IsSpace(fields[field].text[i]))
  {
  }

  /** The score is the percentage of the fields that are there, to the nearest hundredth, and 100 if none is asked for. */
  lemma ScoreIsPercentage(present: nat, total: nat)
    requires present <= total
    ensures total == 0 ==> Score(present, total) == 100.0
    ensures total > 0 ==> -0.005 <= Score(present, total) - 100.0 * (present as real / total as real) <= 0.005
    ensures (100.0 * Score(present, total)).Floor as real == 100.0 * Score(present, total)
  {
    if total > 0 {
      var x := present as real / total as real;
      var n := Rounding.HalfUp(10000.0 * x);
      hide Rounding.HalfUp;
      assert 100.0 * Score(present, total) == n as real;
    }
  }
}
