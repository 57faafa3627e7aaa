/** Fuel 10.0: duplicate plugin links are deleted before the unique
    constraints on `plugin_links(url)` and `cluster_plugin_links(cluster_id, url)`
    are created. The statement for both tables is
    `DELETE FROM t WHERE id NOT IN (SELECT MIN(id) FROM t GROUP BY key)`. */
module PluginLinks {
  import opened Schema

  /** `r` has the smallest id of its group in `all`. */
  predicate IsGroupMinimum<T, K(==)>(all: seq<T>, id: T -> int, key: T -> K, r: T)
  {
    forall j :: 0 <= j < |all| && key(all[j]) == key(r) ==> id(r) <= id(all[j])
  }

  /** The rows of `rows` that the DELETE keeps, judged against the whole table `all`. */
  function Survivors<T, K(==)>(all: seq<T>, rows: seq<T>, id: T -> int, key: T -> K): seq<T>
  {
    if rows == [] then []
    else
      var n := |rows| - 1;
      Survivors(all, rows[..n], id, key) + (if IsGroupMinimum(all, id, key, rows[n]) then [rows[n]] else [])
  }

  /** A row survives exactly when it is in the table and has the smallest id of its group. */
  lemma {:induction false} SurvivorsMembership<T, K>(all: seq<T>, rows: seq<T>, id: T -> int, key: T -> K, r: T)
    ensures r in Survivors(all, rows, id, key) <==> r in rows && IsGroupMinimum(all, id, key, r)
  {
    if rows != [] {
      var n := |rows| - 1;
      SurvivorsMembership(all, rows[..n], id, key, r);
      assert rows == rows[..n] + [rows[n]];
    }
  }

  /** Rows are only deleted: the surviving rows are a sub-multiset of the table. */
  lemma {:induction false} SurvivorsOnlyDelete<T, K>(all: seq<T>, rows: seq<T>, id: T -> int, key: T -> K)
    ensures multiset(Survivors(all, rows, id, key)) <= multiset(rows)
  {
    if rows != [] {
      var n := |rows| - 1;
      SurvivorsOnlyDelete(all, rows[..n], id, key);
      assert rows == rows[..n] + [rows[n]];
    }
  }

  /** Deleting rows keeps the primary key. */
  lemma {:induction false} SurvivorsDistinctIds<T, K>(all: seq<T>, rows: seq<T>, id: T -> int, key: T -> K)
    requires DistinctIds(rows, id)
    ensures DistinctIds(Survivors(all, rows, id, key), id)
  {
    if rows != [] {
      var n := |rows| - 1;
      assert DistinctIds(rows[..n], id);
      SurvivorsDistinctIds(all, rows[..n], id, key);
      var s := Survivors(all, rows[..n], id, key);
      forall x | x in s ensures id(x) != id(rows[n]) {
        SurvivorsMembership(all, rows[..n], id, key, x);
        var j :| 0 <= j < n && rows[j] == x;
      }
    }
  }

  /** Every group of the table has a row with the smallest id. */
  lemma {:induction false} GroupMinimumExists<T, K>(all: seq<T>, id: T -> int, key: T -> K, i: int)
    requires 0 <= i < |all|
    ensures exists m :: 0 <= m < |all| && key(all[m]) == key(all[i]) && IsGroupMinimum(all, id, key, all[m])
  {
    var m := i;
    var j := 0;
    while j < |all|
      invariant 0 <= j <= |all|
      invariant 0 <= m < |all| && key(all[m]) == key(all[i])
      invariant forall k :: 0 <= k < j && key(all[k]) == key(all[i]) ==> id(all[m]) <= id(all[k])
    {
      if key(all[j]) == key(all[i]) && id(all[j]) < id(all[m]) {
        m := j;
      }
      j := j + 1;
    }
  }

  /** Two surviving rows never share a key, so the unique constraint created
      next holds. */
  lemma SurvivorsUnique<T, K>(rows: seq<T>, id: T -> int, key: T -> K)
    requires DistinctIds(rows, id)
    ensures UniqueOn(Survivors(rows, rows, id, key), key)
  {
    var s := Survivors(rows, rows, id, key);
    SurvivorsDistinctIds(rows, rows, id, key);
    forall a, b | 0 <= a < |s| && 0 <= b < |s| && key(s[a]) == key(s[b]) ensures a == b {
      SurvivorsMembership(rows, rows, id, key, s[a]);
      SurvivorsMembership(rows, rows, id, key, s[b]);
      var ia :| 0 <= ia < |rows| && rows[ia] == s[a];
      var ib :| 0 <= ib < |rows| && rows[ib] == s[b];
      assert id(s[a]) <= id(rows[ib]) && id(s[b]) <= id(rows[ia]);
    }
  }

  /** No key disappears: every key of the table is still held by a surviving row. */
  lemma NoKeyLost<T, K>(rows: seq<T>, id: T -> int, key: T -> K, i: int)
    requires 0 <= i < |rows|
    ensures exists s :: s in Survivors(rows, rows, id, key) && key(s) == key(rows[i])
  {
    GroupMinimumExists(rows, id, key, i);
    var m :| 0 <= m < |rows| && key(rows[m]) == key(rows[i]) && IsGroupMinimum(rows, id, key, rows[m]);
    SurvivorsMembership(rows, rows, id, key, rows[m]);
  }

  /** One more row of the table adds that row to the survivors exactly when it
      is its group's minimum. */
  lemma SurvivorsSnoc<T, K>(all: seq<T>, rows: seq<T>, id: T -> int, key: T -> K, i: int)
    requires 0 <= i < |rows|
    ensures Survivors(all, rows[..i + 1], id, key) ==
            Survivors(all, rows[..i], id, key) + (if IsGroupMinimum(all, id, key, rows[i]) then [rows[i]] else [])
  {
    var p := rows[..i + 1];
    assert p[..i] == rows[..i];
    assert p[i] == rows[i];
  }

  /** `minId` maps every key of `rows[..n]` to the smallest id of its group there,
      as `SELECT MIN(id) ... GROUP BY key` does. */
  predicate MinIdsOf<T, K(==)>(rows: seq<T>, id: T -> int, key: T -> K, minId: map<K, int>, n: int)
    requires 0 <= n <= |rows|
  {
    && (forall j :: 0 <= j < n ==> key(rows[j]) in minId && minId[key(rows[j])] <= id(rows[j]))
    && (forall k :: k in minId ==> exists j :: 0 <= j < n && key(rows[j]) == k && id(rows[j]) == minId[k])
  }

  /** Folding row `i` into the minima of `rows[..i]` gives the minima of `rows[..i + 1]`. */
  lemma MinIdsStep<T, K>(rows: seq<T>, id: T -> int, key: T -> K, minId: map<K, int>, i: int)
    requires 0 <= i < |rows|
    requires MinIdsOf(rows, id, key, minId, i)
    ensures var k := key(rows[i]);
            MinIdsOf(rows, id, key, if k !in minId || id(rows[i]) < minId[k] then minId[k := id(rows[i])] else minId, i + 1)
  {
    var k := key(rows[i]);
    var next := if k !in minId || id(rows[i]) < minId[k] then minId[k := id(rows[i])] else minId;
    forall k' | k' in next
      ensures exists j :: 0 <= j < i + 1 && key(rows[j]) == k' && id(rows[j]) == next[k']
    {
      if k' == k && next[k'] == id(rows[i]) {
        assert key(rows[i]) == k' && id(rows[i]) == next[k'];
      } else {
        var j :| 0 <= j < i && key(rows[j]) == k' && id(rows[j]) == minId[k'];
        assert key(rows[j]) == k' && id(rows[j]) == next[k'];
      }
    }
  }

  /** A row's id is one of the group minima exactly when the row is its group's minimum. */
  lemma InMinIds<T, K>(rows: seq<T>, id: T -> int, key: T -> K, minId: map<K, int>, i: int)
    requires DistinctIds(rows, id)
    requires MinIdsOf(rows, id, key, minId, |rows|)
    requires 0 <= i < |rows|
    ensures (exists k :: k in minId && minId[k] == id(rows[i])) <==> IsGroupMinimum(rows, id, key, rows[i])
  {
    if exists k :: k in minId && minId[k] == id(rows[i]) {
      var k :| k in minId && minId[k] == id(rows[i]);
      var j :| 0 <= j < |rows| && key(rows[j]) == k && id(rows[j]) == minId[k];
      assert j == i;
    }
    if IsGroupMinimum(rows, id, key, rows[i]) {
      var k := key(rows[i]);
      var j :| 0 <= j < |rows| && key(rows[j]) == k && id(rows[j]) == minId[k];
      assert minId[k] == id(rows[i]);
    }
  }

  /** The subquery `SELECT MIN(id) FROM t GROUP BY key`: the id of a row is
      among its results exactly when the row is its group's minimum. */
  method GroupMinimumIds<T, K(==)>(rows: seq<T>, id: T -> int, key: T -> K) returns (minIds: set<int>)
    requires DistinctIds(rows, id)
    ensures forall j :: 0 <= j < |rows| ==> (id(rows[j]) in minIds <==> IsGroupMinimum(rows, id, key, rows[j]))
  {
    var minId: map<K, int> := map[];
    var i := 0;
    while i < |rows|
      invariant 0 <= i <= |rows|
      invariant MinIdsOf(rows, id, key, minId, i)
    {
      var k := key(rows[i]);
      MinIdsStep(rows, id, key, minId, i);
      if k !in minId || id(rows[i]) < minId[k] {
        minId := minId[k := id(rows[i])];
      }
      i := i + 1;
    }
    minIds := set k | k in minId :: minId[k];
    forall j | 0 <= j < |rows|
      ensures id(rows[j]) in minIds <==> IsGroupMinimum(rows, id, key, rows[j])
    {
      InMinIds(rows, id, key, minId, j);
    }
  }

  /** The DELETE as the store runs it: every row whose id is not among the
      group minima is removed. */
  method DeleteNonMinimal<T, K(==)>(rows: seq<T>, id: T -> int, key: T -> K) returns (kept: seq<T>)
    requires DistinctIds(rows, id)
    ensures kept == Survivors(rows, rows, id, key)
  {
    var minIds := GroupMinimumIds(rows, id, key);
    kept := [];
    for i := 0 to |rows|
      invariant kept == Survivors(rows, rows[..i], id, key)
    {
      SurvivorsSnoc(rows, rows, id, key, i);
      if id(rows[i]) in minIds {
        kept := kept + [rows[i]];
      }
    }
    assert rows[..|rows|] == rows;
  }

  function PluginLinkId(l: PluginLink): int { l.id }
  function PluginLinkUrl(l: PluginLink): string { l.url }
  function ClusterPluginLinkId(l: ClusterPluginLink): int { l.id }
  function ClusterPluginLinkKey(l: ClusterPluginLink): (int, string) { (l.clusterId, l.url) }

  /** The two link tables. */
  class LinkTables {
    var pluginLinks: seq<PluginLink>
    var clusterPluginLinks: seq<ClusterPluginLink>

    /** The primary keys of both tables. */
    ghost predicate Valid()
      reads this
    {
      DistinctIds(pluginLinks, PluginLinkId) && DistinctIds(clusterPluginLinks, ClusterPluginLinkId)
    }

    /** `upgrade_plugin_links_constraints`: deduplicate, then the unique
        constraints `plugin_links_url_uc` and
        `cluster_plugin_links_cluster_id_url_uc` hold. */
    method UpgradePluginLinksConstraints()
      requires Valid()
      modifies this
      ensures Valid()
      ensures pluginLinks == Survivors(old(pluginLinks), old(pluginLinks), PluginLinkId, PluginLinkUrl)
      ensures clusterPluginLinks ==
                Survivors(old(clusterPluginLinks), old(clusterPluginLinks), ClusterPluginLinkId, ClusterPluginLinkKey)
      ensures UniqueOn(pluginLinks, PluginLinkUrl)
      ensures UniqueOn(clusterPluginLinks, ClusterPluginLinkKey)
    {
      SurvivorsUnique(pluginLinks, PluginLinkId, PluginLinkUrl);
      SurvivorsDistinctIds(pluginLinks, pluginLinks, PluginLinkId, PluginLinkUrl);
      pluginLinks := DeleteNonMinimal(pluginLinks, PluginLinkId, PluginLinkUrl);
      SurvivorsUnique(clusterPluginLinks, ClusterPluginLinkId, ClusterPluginLinkKey);
      SurvivorsDistinctIds(clusterPluginLinks, clusterPluginLinks, ClusterPluginLinkId, ClusterPluginLinkKey);
      clusterPluginLinks := DeleteNonMinimal(clusterPluginLinks, ClusterPluginLinkId, ClusterPluginLinkKey);
    }
  }
}
