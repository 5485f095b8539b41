/** The versioned policies of vendors (`vendors.py`, and the default policy of an onboarded vendor). */
module VendorPolicies {
  import opened JsonValues

  /** What a policy says, as far as the pipeline reads it. */
  datatype Rules = Rules(paymentTerms: string, tolerance: real, lookback: nat)

  /** The column defaults, which are also the settings used when a vendor has no policy. */
  const DEFAULT_RULES := Rules("Net 30", 5.0, 90)

  datatype Row = Row(vendorId: nat, version: int, isActive: bool, rules: Rules)

  function Max(a: int, b: int): int {
    if a >= b then a else b
  }

  /** The highest version of the vendor, or 0. */
  function MaxVersion(rows: seq<Row>, vendor: nat): (max: int)
    ensures forall i | 0 <= i < |rows| && rows[i].vendorId == vendor :: rows[i].version <= max
  {
    if rows == [] then 0
    else
      var last := rows[|rows| - 1];
      var max := MaxVersion(rows[..|rows| - 1], vendor);
      if last.vendorId == vendor then Max(max, last.version) else max
  }

  /** The vendor's rows with `is_active` cleared. */
  function Deactivated(rows: seq<Row>, vendor: nat): (r: seq<Row>)
    ensures |r| == |rows|
    ensures forall i | 0 <= i < |rows| ::
              r[i] == if rows[i].vendorId == vendor then rows[i].(isActive := false) else rows[i]
  {
    seq(|rows|, i requires 0 <= i < |rows| =>
      if rows[i].vendorId == vendor then rows[i].(isActive := false) else rows[i])
  }

  function WithNewVersion(rows: seq<Row>, vendor: nat, rules: Rules): seq<Row> {
    Deactivated(rows, vendor) + [Row(vendor, MaxVersion(rows, vendor) + 1, true, rules)]
  }

  /** The default policy of a vendor that was just onboarded. */
  function WithDefault(rows: seq<Row>, vendor: nat): seq<Row> {
    rows + [Row(vendor, 1, true, DEFAULT_RULES)]
  }

  predicate IsActiveOf(row: Row, vendor: nat) {
    row.vendorId == vendor && row.isActive
  }

  function ActiveRows(rows: seq<Row>, vendor: nat): seq<Row> {
    if rows == [] then []
    else
      var last := rows[|rows| - 1];
      ActiveRows(rows[..|rows| - 1], vendor) + if IsActiveOf(last, vendor) then [last] else []
  }

  /** The vendor's active policy; the lookup raises when it meets two rows. */
  function ActivePolicy(rows: seq<Row>, vendor: nat): Result<Option<Row>> {
    var active := ActiveRows(rows, vendor);
    if |active| > 1 then Raised else if active == [] then Ok(None) else Ok(Some(active[0]))
  }

  class PolicyTable {
    var rows: seq<Row>

    /** Inserts a row; the table admits one row for each vendor and version. */
    method Insert(row: Row) returns (r: Result<Row>)
      modifies this
      ensures r == if exists i :: && 0 <= i < |old(rows)|
                                  && old(rows)[i].vendorId == row.vendorId && old(rows)[i].version == row.version
                   then Raised else Ok(row)
      ensures rows == if r.Ok? then old(rows) + [row] else old(rows)
    {
      if exists i :: 0 <= i < |rows| && rows[i].vendorId == row.vendorId && rows[i].version == row.version {
        return Raised;
      }
      rows := rows + [row];
      return Ok(row);
    }

    /** Creates the next version and makes it the active one. It never violates the uniqueness of versions. */
    method CreatePolicyVersion(vendor: nat, rules: Rules) returns (r: Result<Row>)
      modifies this
      ensures rows == WithNewVersion(old(rows), vendor, rules)
      ensures r == Ok(rows[|rows| - 1])
    {
      var next := MaxVersion(rows, vendor) + 1;
      rows := Deactivated(rows, vendor);
      r := Insert(Row(vendor, next, true, rules));
    }

    method OnboardDefault(vendor: nat) returns (r: Result<Row>)
      modifies this
      ensures r.Ok? <==> forall i | 0 <= i < |old(rows)| && old(rows)[i].vendorId == vendor :: old(rows)[i].version != 1
      ensures rows == if r.Ok? then WithDefault(old(rows), vendor) else old(rows)
    {
      r := Insert(Row(vendor, 1, true, DEFAULT_RULES));
    }
  }

  // What every table built by these operations satisfies.

  /** How many policies the vendor has. */
  function Count(rows: seq<Row>, vendor: nat): nat {
    if rows == [] then 0
    else Count(rows[..|rows| - 1], vendor) + if rows[|rows| - 1].vendorId == vendor then 1 else 0
  }

  /** The vendor's versions are 1, 2, ... in order of creation, and the last one alone is active. */
  predicate WellVersioned(rows: seq<Row>) {
    forall i | 0 <= i < |rows| ::
      rows[i].version == Count(rows[..i], rows[i].vendorId) + 1 &&
      (rows[i].isActive <==> Count(rows, rows[i].vendorId) == rows[i].version)
  }

  lemma {:induction false} CountGrows(rows: seq<Row>, i: nat, j: nat, vendor: nat)
    requires i <= j <= |rows|
    ensures Count(rows[..i], vendor) <= Count(rows[..j], vendor)
    ensures i < j && rows[i].vendorId == vendor ==> Count(rows[..i], vendor) < Count(rows[..j], vendor)
    decreases j
  {
    if i < j {
      CountGrows(rows, i, j - 1, vendor);
      assert rows[..j][..j - 1] == rows[..j - 1];
    }
  }

  /** One of the first `n` rows is this version of the vendor's policy. */
  predicate HasVersion(rows: seq<Row>, n: nat, vendor: nat, version: int)
    requires n <= |rows|
  {
    exists i :: 0 <= i < n && rows[i].vendorId == vendor && rows[i].version == version
  }

  /** Versions of one vendor are distinct, run from 1 to their number, and the highest alone is active. */
  lemma VersionsAreConsecutive(rows: seq<Row>, vendor: nat)
    requires WellVersioned(rows)
    ensures forall i | 0 <= i < |rows| && rows[i].vendorId == vendor ::
              && 1 <= rows[i].version <= Count(rows, vendor)
              && (rows[i].isActive <==> rows[i].version == Count(rows, vendor))
    ensures forall i, j | 0 <= i < j < |rows| && rows[i].vendorId == rows[j].vendorId == vendor ::
              rows[i].version < rows[j].version
    ensures forall k | 1 <= k <= Count(rows, vendor) :: HasVersion(rows, |rows|, vendor, k)
  {
    hide Count, HasVersion;
    assert rows[..|rows|] == rows;
    forall i | 0 <= i < |rows| && rows[i].vendorId == vendor ensures 1 <= rows[i].version <= Count(rows, vendor) {
      CountGrows(rows, i, |rows|, vendor);
    }
    forall i, j | 0 <= i < j < |rows| && rows[i].vendorId == rows[j].vendorId == vendor
      ensures rows[i].version < rows[j].version
    {
      CountGrows(rows, i, j, vendor);
    }
    forall k | 1 <= k <= Count(rows, vendor) ensures HasVersion(rows, |rows|, vendor, k) {
      VersionExists(rows, |rows|, vendor, k);
    }
  }

  lemma {:induction false} VersionExists(rows: seq<Row>, n: nat, vendor: nat, k: nat)
    requires WellVersioned(rows) && n <= |rows| && 1 <= k <= Count(rows[..n], vendor)
    ensures HasVersion(rows, n, vendor, k)
  {
    assert n > 0 && rows[..n][..n - 1] == rows[..n - 1];
    if k <= Count(rows[..n - 1], vendor) {
      VersionExists(rows, n - 1, vendor, k);
    } else {
      assert rows[n - 1].vendorId == vendor && rows[n - 1].version == k;
    }
  }

  lemma {:induction false} MaxVersionIsCount(rows: seq<Row>, vendor: nat)
    requires forall i | 0 <= i < |rows| :: rows[i].version == Count(rows[..i], rows[i].vendorId) + 1
    ensures MaxVersion(rows, vendor) == Count(rows, vendor)
  {
    if rows != [] {
      var n := |rows| - 1;
      forall i | 0 <= i < n ensures rows[..n][i].version == Count(rows[..n][..i], rows[..n][i].vendorId) + 1 {
        assert rows[..n][..i] == rows[..i];
      }
      MaxVersionIsCount(rows[..n], vendor);
    }
  }

  lemma {:induction false} SameVendorsSameCount(rows: seq<Row>, others: seq<Row>, vendor: nat)
    requires |rows| == |others| && forall i | 0 <= i < |rows| :: rows[i].vendorId == others[i].vendorId
    ensures Count(rows, vendor) == Count(others, vendor)
  {
    if rows != [] {
      SameVendorsSameCount(rows[..|rows| - 1], others[..|rows| - 1], vendor);
    }
  }

  lemma NewVersionRows(rows: seq<Row>, vendor: nat, rules: Rules)
    requires WellVersioned(rows)
    ensures WithNewVersion(rows, vendor, rules) == Deactivated(rows, vendor) + [Row(vendor, Count(rows, vendor) + 1, true, rules)]
  {
    MaxVersionIsCount(rows, vendor);
  }

  lemma NewVersionCount(rows: seq<Row>, row: Row, vendor: nat)
    ensures Count(Deactivated(rows, row.vendorId) + [row], vendor) ==
            Count(rows, vendor) + if vendor == row.vendorId then 1 else 0
  {
    var quiet := Deactivated(rows, row.vendorId);
    assert (quiet + [row])[..|rows|] == quiet;
    SameVendorsSameCount(rows, quiet, vendor);
  }

  /** A new version keeps the versions consecutive, and of the older policies it changes the flag only. */
  lemma NewVersionKeepsVersions(rows: seq<Row>, vendor: nat, rules: Rules)
    requires WellVersioned(rows)
    ensures var r := WithNewVersion(rows, vendor, rules);
            && WellVersioned(r) && Count(r, vendor) == Count(rows, vendor) + 1
            && (forall i | 0 <= i < |rows| :: r[i] == rows[i].(isActive := r[i].isActive))
            && (forall i | 0 <= i < |rows| && rows[i].vendorId != vendor :: r[i] == rows[i])
  {
    hide Count, WithNewVersion;
    NewVersionRows(rows, vendor, rules);
    var quiet := Deactivated(rows, vendor);
    var r := WithNewVersion(rows, vendor, rules);
    assert r[..|rows|] == quiet && rows[..|rows|] == rows;
    forall v ensures Count(r, v) == Count(rows, v) + if v == vendor then 1 else 0 {
      NewVersionCount(rows, r[|rows|], v);
    }
    forall i | 0 <= i < |rows| ensures rows[i].version <= Count(rows, rows[i].vendorId) {
      CountGrows(rows, i, |rows|, rows[i].vendorId);
    }
    forall i | 0 <= i < |r|
      ensures r[i].version == Count(r[..i], r[i].vendorId) + 1
      ensures r[i].isActive <==> Count(r, r[i].vendorId) == r[i].version
    {
      if i < |rows| {
        assert r[..i] == quiet[..i];
        SameVendorsSameCount(rows[..i], quiet[..i], r[i].vendorId);
      } else {
        assert r[..i] == quiet;
        SameVendorsSameCount(rows, quiet, vendor);
      }
    }
  }

  /** Onboarding gives the new vendor version 1. */
  lemma DefaultKeepsVersions(rows: seq<Row>, vendor: nat)
    requires WellVersioned(rows) && forall i | 0 <= i < |rows| :: rows[i].vendorId != vendor
    ensures WithDefault(rows, vendor) == WithNewVersion(rows, vendor, DEFAULT_RULES)
    ensures WellVersioned(WithDefault(rows, vendor))
  {
    NoRowsNoMax(rows, vendor);
    assert Deactivated(rows, vendor) == rows;
    NewVersionKeepsVersions(rows, vendor, DEFAULT_RULES);
  }

  lemma {:induction false} NoRowsNoMax(rows: seq<Row>, vendor: nat)
    requires forall i | 0 <= i < |rows| :: rows[i].vendorId != vendor
    ensures MaxVersion(rows, vendor) == 0
  {
    if rows != [] { NoRowsNoMax(rows[..|rows| - 1], vendor); }
  }

  lemma {:induction false} ActiveRowsAre(rows: seq<Row>, vendor: nat)
    ensures forall row :: row in ActiveRows(rows, vendor) <==> row in rows && IsActiveOf(row, vendor)
  {
    if rows != [] {
      var n := |rows| - 1;
      ActiveRowsAre(rows[..n], vendor);
      assert rows == rows[..n] + [rows[n]];
    }
  }

  lemma {:induction false} NoActiveRows(rows: seq<Row>, vendor: nat)
    requires forall i | 0 <= i < |rows| :: !IsActiveOf(rows[i], vendor)
    ensures ActiveRows(rows, vendor) == []
  {
    if rows != [] { NoActiveRows(rows[..|rows| - 1], vendor); }
  }

  lemma {:induction false} OneActiveRow(rows: seq<Row>, vendor: nat)
    requires forall i, j | 0 <= i < j < |rows| :: !(IsActiveOf(rows[i], vendor) && IsActiveOf(rows[j], vendor))
    ensures |ActiveRows(rows, vendor)| <= 1
  {
    if rows != [] {
      var n := |rows| - 1;
      OneActiveRow(rows[..n], vendor);
      if IsActiveOf(rows[n], vendor) { NoActiveRows(rows[..n], vendor); }
    }
  }

  /** The lookup of the active policy never meets two rows: it finds the latest version, and nothing
      exactly when the vendor has no policy. */
  lemma ActivePolicyIsLatest(rows: seq<Row>, vendor: nat)
    requires WellVersioned(rows)
    ensures var active := ActivePolicy(rows, vendor);
            && active.Ok?
            && (active.value.None? <==> Count(rows, vendor) == 0)
            && (active.value.Some? ==> active.value.value in rows && active.value.value.vendorId == vendor
                                       && active.value.value.version == Count(rows, vendor))
  {
    VersionsAreConsecutive(rows, vendor);
    ActiveRowsAre(rows, vendor);
    hide Count, WellVersioned, ActiveRows;
    OneActiveRow(rows, vendor);
    var active := ActiveRows(rows, vendor);
    if active != [] { assert active[0] in active; }
    if Count(rows, vendor) > 0 {
      assert HasVersion(rows, |rows|, vendor, Count(rows, vendor));
      var i :| 0 <= i < |rows| && rows[i].vendorId == vendor && rows[i].version == Count(rows, vendor);
      assert rows[i] in active;
    }
  }

  lemma {:induction false} SameRowsOf(rows: seq<Row>, others: seq<Row>, vendor: nat)
    requires |rows| == |others|
    requires forall i | 0 <= i < |rows| :: (IsActiveOf(rows[i], vendor) || IsActiveOf(others[i], vendor)) ==> rows[i] == others[i]
    ensures ActiveRows(rows, vendor) == ActiveRows(others, vendor)
  {
    if rows != [] { SameRowsOf(rows[..|rows| - 1], others[..|rows| - 1], vendor); }
  }

  lemma ActiveOfAppended(rows: seq<Row>, row: Row, vendor: nat)
    ensures ActiveRows(rows + [row], vendor) == ActiveRows(rows, vendor) + if IsActiveOf(row, vendor) then [row] else []
  {
    assert (rows + [row])[..|rows|] == rows;
  }

  lemma ActiveAfter(rows: seq<Row>, row: Row, vendor: nat)
    requires row.isActive
    ensures ActiveRows(Deactivated(rows, row.vendorId) + [row], vendor) ==
              if vendor == row.vendorId then [row] else ActiveRows(rows, vendor)
  {
    hide ActiveRows;
    var quiet := Deactivated(rows, row.vendorId);
    ActiveOfAppended(quiet, row, vendor);
    if vendor == row.vendorId { NoActiveRows(quiet, vendor); } else { SameRowsOf(rows, quiet, vendor); }
  }

  /** The new version carries the rules submitted and is the one looked up from then on; the lookup for every other
      vendor finds what it found before. */
  lemma NewVersionIsActive(rows: seq<Row>, vendor: nat, rules: Rules)
    requires WellVersioned(rows)
    ensures var r := WithNewVersion(rows, vendor, rules);
            && ActivePolicy(r, vendor) == Ok(Some(Row(vendor, Count(rows, vendor) + 1, true, rules)))
            && forall v | v != vendor :: ActivePolicy(r, v) == ActivePolicy(rows, v)
  {
    hide Count, WellVersioned, ActiveRows, Deactivated, WithNewVersion;
    NewVersionRows(rows, vendor, rules);
    var row := Row(vendor, Count(rows, vendor) + 1, true, rules);
    ActiveAfter(rows, row, vendor);
    forall v | v != vendor ensures ActivePolicy(WithNewVersion(rows, vendor, rules), v) == ActivePolicy(rows, v) {
      ActiveAfter(rows, row, v);
    }
  }

  lemma NoRowsNoPolicy(rows: seq<Row>, vendor: nat)
    requires forall i | 0 <= i < |rows| :: rows[i].vendorId != vendor
    ensures ActivePolicy(rows, vendor) == Ok(None)
  {
    NoActiveRows(rows, vendor);
  }

  /** The default policy is the one looked up for an onboarded vendor. */
  lemma DefaultIsActive(rows: seq<Row>, vendor: nat)
    requires forall i | 0 <= i < |rows| :: rows[i].vendorId != vendor
    ensures ActivePolicy(WithDefault(rows, vendor), vendor) == Ok(Some(Row(vendor, 1, true, Rules("Net 30", 5.0, 90))))
  {
    NoActiveRows(rows, vendor);
    ActiveOfAppended(rows, Row(vendor, 1, true, DEFAULT_RULES), vendor);
  }
}
