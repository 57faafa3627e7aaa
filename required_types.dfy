/** Fuel 10.0: every release gets the same `required_component_types`. */
module RequiredComponentTypes {
  import opened Schema

  /** The JSON list written into every row. */
  const RequiredTypes: seq<string> := ["hypervisor", "network", "storage"]

  /** `UPDATE releases SET required_component_types = :required_types`, as the
      table it leaves (the statement has no WHERE clause). */
  function WithRequiredTypes(releases: seq<Release>): seq<Release>
  {
    if releases == [] then []
    else
      var n := |releases| - 1;
      WithRequiredTypes(releases[..n]) + [releases[n].(requiredComponentTypes := RequiredTypes)]
  }

  /** Every release now lists the three required types, whatever it held
      before, and keeps its id and roles metadata. */
  lemma {:induction false} WithRequiredTypesAt(releases: seq<Release>, i: int)
    requires 0 <= i < |releases|
    ensures |WithRequiredTypes(releases)| == |releases|
    ensures WithRequiredTypes(releases)[i].requiredComponentTypes == ["hypervisor", "network", "storage"]
    ensures WithRequiredTypes(releases)[i].id == releases[i].id
    ensures WithRequiredTypes(releases)[i].rolesMetadata == releases[i].rolesMetadata
  {
    var n := |releases| - 1;
    WithRequiredTypesLength(releases[..n]);
    if i < n {
      WithRequiredTypesAt(releases[..n], i);
    }
  }

  lemma {:induction false} WithRequiredTypesLength(releases: seq<Release>)
    ensures |WithRequiredTypes(releases)| == |releases|
  {
    if releases != [] {
      WithRequiredTypesLength(releases[..|releases| - 1]);
    }
  }

  /** Running the update twice leaves the same table as running it once. */
  lemma {:induction false} WithRequiredTypesIdempotent(releases: seq<Release>)
    ensures WithRequiredTypes(WithRequiredTypes(releases)) == WithRequiredTypes(releases)
  {
    if releases != [] {
      var n := |releases| - 1;
      var once := WithRequiredTypes(releases);
      WithRequiredTypesLength(releases[..n]);
      assert once[..n] == WithRequiredTypes(releases[..n]);
      WithRequiredTypesIdempotent(releases[..n]);
    }
  }

  /** The update keeps the primary key of `releases`. */
  lemma WithRequiredTypesKeepsIds(releases: seq<Release>)
    requires DistinctIds(releases, ReleaseId)
    ensures DistinctIds(WithRequiredTypes(releases), ReleaseId)
  {
    WithRequiredTypesLength(releases);
    forall i | 0 <= i < |releases|
      ensures WithRequiredTypes(releases)[i].id == releases[i].id
    {
      WithRequiredTypesAt(releases, i);
    }
  }

  /** One more row extends the updated table by that row, updated. */
  lemma WithRequiredTypesSnoc(releases: seq<Release>, i: int)
    requires 0 <= i < |releases|
    ensures WithRequiredTypes(releases[..i + 1]) ==
            WithRequiredTypes(releases[..i]) + [releases[i].(requiredComponentTypes := RequiredTypes)]
  {
    var p := releases[..i + 1];
    assert p[..i] == releases[..i];
    assert p[i] == releases[i];
  }

  /** The UPDATE statement, applied row by row to the `releases` table. */
  method UpgradeReleaseRequiredComponentTypes(releases: array<Release>)
    modifies releases
    ensures releases[..] == WithRequiredTypes(old(releases[..]))
  {
    ghost var rows := releases[..];
    for i := 0 to releases.Length
      invariant releases[..i] == WithRequiredTypes(rows[..i])
      invariant forall j :: i <= j < releases.Length ==> releases[j] == rows[j]
    {
      WithRequiredTypesSnoc(rows, i);
      releases[i] := releases[i].(requiredComponentTypes := RequiredTypes);
      assert releases[..i + 1] == releases[..i] + [releases[i]];
    }
    assert releases[..] == releases[..releases.Length];
    assert rows == rows[..releases.Length];
  }
}
