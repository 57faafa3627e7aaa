/** Fuel 9.0.1: the wrong default '{}' of `clusters.replaced_deployment_info`
    is rewritten to '[]' on upgrade, and back on downgrade. */
module ReplacedInfo {
  import opened Schema

  const EmptyObject: string := "{}"
  const EmptyList: string := "[]"

  /** `UPDATE clusters SET replaced_deployment_info = to
      WHERE replaced_deployment_info = from`, as the table it leaves.
      A NULL cell never equals `from`. */
  function Rewritten(rows: seq<Cluster>, from: string, to: string): seq<Cluster>
  {
    if rows == [] then []
    else
      var last := rows[|rows| - 1];
      Rewritten(rows[..|rows| - 1], from, to)
        + [if last.replacedDeploymentInfo == Some(from) then last.(replacedDeploymentInfo := Some(to)) else last]
  }

  function Upgraded(rows: seq<Cluster>): seq<Cluster>
  {
    Rewritten(rows, EmptyObject, EmptyList)
  }

  function Downgraded(rows: seq<Cluster>): seq<Cluster>
  {
    Rewritten(rows, EmptyList, EmptyObject)
  }

  /** Row by row: a cell holding `from` now holds `to`; every other cell, and
      every other column, is as it was. */
  lemma {:induction false} RewrittenAt(rows: seq<Cluster>, from: string, to: string, i: int)
    requires 0 <= i < |rows|
    ensures |Rewritten(rows, from, to)| == |rows|
    ensures Rewritten(rows, from, to)[i].id == rows[i].id
    ensures Rewritten(rows, from, to)[i].releaseId == rows[i].releaseId
    ensures rows[i].replacedDeploymentInfo == Some(from) ==>
              Rewritten(rows, from, to)[i].replacedDeploymentInfo == Some(to)
    ensures rows[i].replacedDeploymentInfo != Some(from) ==>
              Rewritten(rows, from, to)[i] == rows[i]
  {
    var n := |rows| - 1;
    if i < n {
      RewrittenAt(rows[..n], from, to, i);
    } else {
      RewrittenLength(rows[..n], from, to);
    }
  }

  lemma {:induction false} RewrittenLength(rows: seq<Cluster>, from: string, to: string)
    ensures |Rewritten(rows, from, to)| == |rows|
  {
    if rows != [] {
      RewrittenLength(rows[..|rows| - 1], from, to);
    }
  }

  /** After the rewrite no cell holds `from` any more. */
  lemma RewrittenClearsSource(rows: seq<Cluster>, from: string, to: string)
    requires from != to
    ensures forall i :: 0 <= i < |Rewritten(rows, from, to)| ==>
              Rewritten(rows, from, to)[i].replacedDeploymentInfo != Some(from)
  {
    RewrittenLength(rows, from, to);
    forall i | 0 <= i < |rows|
      ensures Rewritten(rows, from, to)[i].replacedDeploymentInfo != Some(from)
    {
      RewrittenAt(rows, from, to, i);
    }
  }

  /** A table with no `from` cell is left as it is. */
  lemma {:induction false} RewrittenNoMatch(rows: seq<Cluster>, from: string, to: string)
    requires forall i :: 0 <= i < |rows| ==> rows[i].replacedDeploymentInfo != Some(from)
    ensures Rewritten(rows, from, to) == rows
  {
    if rows != [] {
      var n := |rows| - 1;
      var init := rows[..n];
      forall i | 0 <= i < |init| ensures init[i].replacedDeploymentInfo != Some(from) {
        assert init[i] == rows[i];
      }
      RewrittenNoMatch(init, from, to);
      assert rows[n].replacedDeploymentInfo != Some(from);
      assert Rewritten(rows, from, to) == init + [rows[n]];
      assert init + [rows[n]] == rows;
    }
  }

  /** Upgrade: every '{}' becomes '[]', and nothing else changes. */
  lemma UpgradedAt(rows: seq<Cluster>, i: int)
    requires 0 <= i < |rows|
    ensures |Upgraded(rows)| == |rows|
    ensures rows[i].replacedDeploymentInfo == Some(EmptyObject) ==>
              Upgraded(rows)[i] == rows[i].(replacedDeploymentInfo := Some(EmptyList))
    ensures rows[i].replacedDeploymentInfo != Some(EmptyObject) ==> Upgraded(rows)[i] == rows[i]
  {
    RewrittenAt(rows, EmptyObject, EmptyList, i);
  }

  /** Downgrade: every '[]' becomes '{}', and nothing else changes. */
  lemma DowngradedAt(rows: seq<Cluster>, i: int)
    requires 0 <= i < |rows|
    ensures |Downgraded(rows)| == |rows|
    ensures rows[i].replacedDeploymentInfo == Some(EmptyList) ==>
              Downgraded(rows)[i] == rows[i].(replacedDeploymentInfo := Some(EmptyObject))
    ensures rows[i].replacedDeploymentInfo != Some(EmptyList) ==> Downgraded(rows)[i] == rows[i]
  {
    RewrittenAt(rows, EmptyList, EmptyObject, i);
  }

  /** The upgrade is idempotent: a second run finds no '{}' and changes nothing. */
  lemma UpgradeIdempotent(rows: seq<Cluster>)
    ensures Upgraded(Upgraded(rows)) == Upgraded(rows)
  {
    RewrittenClearsSource(rows, EmptyObject, EmptyList);
    RewrittenNoMatch(Upgraded(rows), EmptyObject, EmptyList);
  }

  /** Downgrade after upgrade restores every row that did not hold '[]'
      before; a row that held '[]' ends as '{}', so the round trip is lossy. */
  lemma DowngradeAfterUpgrade(rows: seq<Cluster>, i: int)
    requires 0 <= i < |rows|
    ensures |Downgraded(Upgraded(rows))| == |rows|
    ensures rows[i].replacedDeploymentInfo != Some(EmptyList) ==> Downgraded(Upgraded(rows))[i] == rows[i]
    ensures rows[i].replacedDeploymentInfo == Some(EmptyList) ==>
              Downgraded(Upgraded(rows))[i] == rows[i].(replacedDeploymentInfo := Some(EmptyObject))
  {
    UpgradedAt(rows, i);
    DowngradedAt(Upgraded(rows), i);
  }

  /** A table on which the round trip does not give back the original. */
  lemma RoundTripIsLossy()
    ensures var rows := [Cluster(1, 1, Some(EmptyList))];
            Downgraded(Upgraded(rows)) != rows
  {
    var rows := [Cluster(1, 1, Some(EmptyList))];
    DowngradeAfterUpgrade(rows, 0);
  }

  /** One more row extends the rewritten table by that row, rewritten. */
  lemma RewrittenSnoc(rows: seq<Cluster>, from: string, to: string, i: int)
    requires 0 <= i < |rows|
    ensures Rewritten(rows[..i + 1], from, to) ==
            Rewritten(rows[..i], from, to)
              + [if rows[i].replacedDeploymentInfo == Some(from) then rows[i].(replacedDeploymentInfo := Some(to)) else rows[i]]
  {
    var p := rows[..i + 1];
    assert p[..i] == rows[..i];
    assert p[i] == rows[i];
  }

  /** The UPDATE statement, applied row by row to the `clusters` table. */
  method RewriteReplacedInfo(clusters: array<Cluster>, from: string, to: string)
    modifies clusters
    ensures clusters[..] == Rewritten(old(clusters[..]), from, to)
  {
    ghost var rows := clusters[..];
    for i := 0 to clusters.Length
      invariant clusters[..i] == Rewritten(rows[..i], from, to)
      invariant forall j :: i <= j < clusters.Length ==> clusters[j] == rows[j]
    {
      RewrittenSnoc(rows, from, to, i);
      if clusters[i].replacedDeploymentInfo == Some(from) {
        clusters[i] := clusters[i].(replacedDeploymentInfo := Some(to));
      }
      assert clusters[..i + 1] == clusters[..i] + [clusters[i]];
    }
    assert clusters[..] == clusters[..clusters.Length];
    assert rows == rows[..clusters.Length];
  }

  method UpgradeClustersReplacedInfoWrongDefault(clusters: array<Cluster>)
    modifies clusters
    ensures clusters[..] == Upgraded(old(clusters[..]))
  {
    RewriteReplacedInfo(clusters, EmptyObject, EmptyList);
  }

  method DowngradeClustersReplacedInfoWrongDefault(clusters: array<Cluster>)
    modifies clusters
    ensures clusters[..] == Downgraded(old(clusters[..]))
  {
    RewriteReplacedInfo(clusters, EmptyList, EmptyObject);
  }
}
