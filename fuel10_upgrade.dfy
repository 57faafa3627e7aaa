/** Fuel 10.0, `upgrade()`: the data steps in the order the migration runs
    them. */
module Fuel10Upgrade {
  import opened Schema
  import opened PluginLinks
  import opened RequiredComponentTypes
  import opened TagTables
  import opened TagBackfill

  /** Deduplicate the plugin links, fill `required_component_types`, create
      the empty tag tables, then backfill them. */
  method Upgrade(links: LinkTables, releases: array<Release>, clusters: seq<Cluster>, nodes: seq<Node>)
    returns (db: Tables, ok: bool)
    requires links.Valid()
    requires DistinctIds(releases[..], ReleaseId)
    modifies links, releases
    ensures links.Valid()
    ensures links.pluginLinks ==
              Survivors(old(links.pluginLinks), old(links.pluginLinks), PluginLinkId, PluginLinkUrl)
    ensures links.clusterPluginLinks ==
              Survivors(old(links.clusterPluginLinks), old(links.clusterPluginLinks), ClusterPluginLinkId, ClusterPluginLinkKey)
    ensures UniqueOn(links.pluginLinks, PluginLinkUrl)
    ensures UniqueOn(links.clusterPluginLinks, ClusterPluginLinkKey)
    ensures releases[..] == WithRequiredTypes(old(releases[..]))
    ensures fresh(db) && db.Valid()
    ensures ok <==> AllInsertable(releases[..])
    ensures ok ==> TagRows(db.tags) == ReleaseTags(releases[..])
    ensures ok ==> db.nodeTags == Assigned(QueryRows(nodes, clusters, releases[..]), db.tags)
  {
    links.UpgradePluginLinksConstraints();
    WithRequiredTypesKeepsIds(releases[..]);
    UpgradeReleaseRequiredComponentTypes(releases);
    db := new Tables();
    ok := UpgradeTagsExistingNodes(db, releases[..], clusters, nodes);
  }
}
