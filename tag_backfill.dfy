/** Fuel 10.0, `upgrade_tags_existing_nodes`: one tag per role of every
    release that has roles metadata, then one `node_tags` row per role entry
    of every node whose cluster and release join. */
module TagBackfill {
  import opened Schema
  import opened TagTables

  // ---------------------------------------------------------------------
  // Tag creation
  // ---------------------------------------------------------------------

  /** `roles_metadata.get('has_primary', False)`: the key is looked up in the
      release's whole roles map, not in the metadata of the role being
      tagged, so every role of a release gets the same value. */
  function HasPrimaryValue(meta: map<string, Json>): Json
  {
    if "has_primary" in meta then meta["has_primary"] else JBool(false)
  }

  /** The release's `has_primary` value can be stored in the boolean column. */
  predicate Adaptable(rel: Release)
  {
    rel.rolesMetadata.Some? ==> BooleanColumn(HasPrimaryValue(rel.rolesMetadata.value)).Ok?
  }

  /** Every role name of the release fits the `tags.tag` column. */
  predicate NamesFit(rel: Release)
  {
    rel.rolesMetadata.Some? ==> forall name :: name in rel.rolesMetadata.value ==> |name| <= MaxTagLength
  }

  /** Every tag INSERT for the release's roles can succeed. */
  predicate Insertable(rel: Release)
  {
    Adaptable(rel) && NamesFit(rel)
  }

  predicate AllInsertable(releases: seq<Release>)
  {
    forall i :: 0 <= i < |releases| ==> Insertable(releases[i])
  }

  /** A `tags` row without its generated id. */
  datatype TagRow = TagRow(tag: string, ownerId: int, ownerType: string, hasPrimary: Option<bool>, readOnly: bool)

  function RowOf(t: Tag): TagRow
  {
    TagRow(t.tag, t.ownerId, t.ownerType, t.hasPrimary, t.readOnly)
  }

  /** The contents of `tags`, ids left aside. */
  function TagRows(tags: seq<Tag>): set<TagRow>
  {
    set t | t in tags :: RowOf(t)
  }

  /** The `has_primary` cell a release's tags get (meaningful when the release is adaptable). */
  function StoredHasPrimary(meta: map<string, Json>): Option<bool>
  {
    match BooleanColumn(HasPrimaryValue(meta))
    case Ok(cell) => cell
    case Err(_) => None
  }

  /** The row the tag INSERT writes for role `name` of the release `ownerId`. */
  function RoleTagRow(ownerId: int, meta: map<string, Json>, name: string): TagRow
  {
    TagRow(name, ownerId, ReleaseOwner, StoredHasPrimary(meta), true)
  }

  function RoleTags(ownerId: int, meta: map<string, Json>, names: set<string>): set<TagRow>
  {
    set name | name in names :: RoleTagRow(ownerId, meta, name)
  }

  /** The tag rows created for `releases`: those with NULL roles metadata
      are skipped by the `WHERE roles_metadata IS NOT NULL` selection. */
  function ReleaseTags(releases: seq<Release>): set<TagRow>
  {
    if releases == [] then {}
    else
      var n := |releases| - 1;
      ReleaseTags(releases[..n]) +
        match releases[n].rolesMetadata
        case None => {}
        case Some(meta) => RoleTags(releases[n].id, meta, meta.Keys)
  }

  /** Every created row is the tag of a role of a release with metadata. */
  lemma {:induction false} ReleaseTagOrigin(releases: seq<Release>, row: TagRow)
    requires row in ReleaseTags(releases)
    ensures exists j :: 0 <= j < |releases| && releases[j].rolesMetadata.Some? &&
              row.tag in releases[j].rolesMetadata.value &&
              row == RoleTagRow(releases[j].id, releases[j].rolesMetadata.value, row.tag)
  {
    var n := |releases| - 1;
    if row in ReleaseTags(releases[..n]) {
      ReleaseTagOrigin(releases[..n], row);
      var j :| 0 <= j < n && releases[..n][j].rolesMetadata.Some? &&
               row.tag in releases[..n][j].rolesMetadata.value &&
               row == RoleTagRow(releases[..n][j].id, releases[..n][j].rolesMetadata.value, row.tag);
      assert releases[..n][j] == releases[j];
    } else {
      assert releases[n].rolesMetadata.Some?;
    }
  }

  /** Every role of a release with metadata gets its tag row. */
  lemma {:induction false} EveryRoleTagged(releases: seq<Release>, j: int, name: string)
    requires 0 <= j < |releases| && releases[j].rolesMetadata.Some?
    requires name in releases[j].rolesMetadata.value
    ensures RoleTagRow(releases[j].id, releases[j].rolesMetadata.value, name) in ReleaseTags(releases)
  {
    var n := |releases| - 1;
    if j < n {
      assert releases[..n][j] == releases[j];
      EveryRoleTagged(releases[..n], j, name);
    } else {
      var meta := releases[n].rolesMetadata.value;
      assert RoleTagRow(releases[n].id, meta, name) in RoleTags(releases[n].id, meta, meta.Keys);
    }
  }

  lemma TagRowsAppend(tags: seq<Tag>, t: Tag)
    ensures TagRows(tags + [t]) == TagRows(tags) + {RowOf(t)}
  {
    forall row | row in TagRows(tags + [t]) ensures row in TagRows(tags) + {RowOf(t)} {
      var u :| u in tags + [t] && RowOf(u) == row;
      if u != t {
        assert u in tags;
      }
    }
    forall row | row in TagRows(tags) + {RowOf(t)} ensures row in TagRows(tags + [t]) {
      if row != RowOf(t) {
        var u :| u in tags && RowOf(u) == row;
        assert u in tags + [t];
      } else {
        assert t in tags + [t];
      }
    }
  }

  lemma RoleTagsAdd(ownerId: int, meta: map<string, Json>, done: set<string>, name: string)
    ensures RoleTags(ownerId, meta, done + {name}) == RoleTags(ownerId, meta, done) + {RoleTagRow(ownerId, meta, name)}
  {
  }

  /** Appending the tag of role `name` extends the tagged roles by `name`. */
  lemma RoleTagStep(
    before: seq<Tag>, after: seq<Tag>, prefix: seq<Release>, ownerId: int, meta: map<string, Json>,
    done: set<string>, name: string)
    requires TagRows(before) == ReleaseTags(prefix) + RoleTags(ownerId, meta, done)
    requires |after| == |before| + 1 && after[..|before|] == before
    requires RowOf(after[|before|]) == RoleTagRow(ownerId, meta, name)
    ensures TagRows(after) == ReleaseTags(prefix) + RoleTags(ownerId, meta, done + {name})
  {
    assert after == before + [after[|before|]];
    TagRowsAppend(before, after[|before|]);
    RoleTagsAdd(ownerId, meta, done, name);
  }

  /** While one release's roles are being tagged, the key of a role not yet
      tagged is free: earlier releases have other ids, and the names already
      tagged are distinct keys of one map. */
  lemma NewKeyIsFree(
    prefix: seq<Release>, ownerId: int, meta: map<string, Json>, done: set<string>, name: string, tags: seq<Tag>)
    requires TagRows(tags) == ReleaseTags(prefix) + RoleTags(ownerId, meta, done)
    requires forall j :: 0 <= j < |prefix| ==> prefix[j].id != ownerId
    requires name !in done
    ensures !HasKey(tags, ReleaseOwner, ownerId, name)
  {
    if HasKey(tags, ReleaseOwner, ownerId, name) {
      var k :| 0 <= k < |tags| && tags[k].ownerType == ReleaseOwner && tags[k].ownerId == ownerId && tags[k].tag == name;
      var row := RowOf(tags[k]);
      assert tags[k] in tags;
      assert row in TagRows(tags);
      if row in ReleaseTags(prefix) {
        ReleaseTagOrigin(prefix, row);
      }
    }
  }

  /** One more release adds the tags of its roles, if it has metadata. */
  lemma ReleaseTagsSnoc(releases: seq<Release>, i: int)
    requires 0 <= i < |releases|
    ensures ReleaseTags(releases[..i + 1]) ==
            ReleaseTags(releases[..i]) +
              match releases[i].rolesMetadata
              case None => {}
              case Some(meta) => RoleTags(releases[i].id, meta, meta.Keys)
  {
    var p := releases[..i + 1];
    assert p[..i] == releases[..i];
    assert p[i] == releases[i];
  }

  /** The inner loop over `roles_metadata.items()` of one release, inserting
      one tag per role. The items are visited in no particular order. It
      fails exactly when the release has roles and its `has_primary` value
      cannot be stored, or when a role name is too long for the `tag`
      column; a unique violation never happens, since no earlier release has
      this id. */
  method CreateRoleTags(db: Tables, prefix: seq<Release>, ownerId: int, meta: map<string, Json>) returns (ok: bool)
    requires db.Valid() && TagRows(db.tags) == ReleaseTags(prefix)
    requires forall j :: 0 <= j < |prefix| ==> prefix[j].id != ownerId
    modifies db
    ensures db.Valid() && db.nodeTags == old(db.nodeTags)
    ensures ok <==>
              (BooleanColumn(HasPrimaryValue(meta)).Ok? || meta.Keys == {}) &&
              (forall name :: name in meta ==> |name| <= MaxTagLength)
    ensures ok ==> TagRows(db.tags) == ReleaseTags(prefix) + RoleTags(ownerId, meta, meta.Keys)
  {
    var todo := meta.Keys;
    ghost var done: set<string> := {};
    while todo != {}
      invariant done !! todo && done + todo == meta.Keys
      invariant db.Valid() && db.nodeTags == old(db.nodeTags)
      invariant TagRows(db.tags) == ReleaseTags(prefix) + RoleTags(ownerId, meta, done)
      invariant done != {} ==> BooleanColumn(HasPrimaryValue(meta)).Ok?
      invariant forall name :: name in done ==> |name| <= MaxTagLength
      decreases todo
    {
      var name :| name in todo;
      NewKeyIsFree(prefix, ownerId, meta, done, name, db.tags);
      ghost var before := db.tags;
      var r := db.InsertReleaseTag(name, ownerId, HasPrimaryValue(meta));
      if r.Err? {
        assert BooleanColumn(HasPrimaryValue(meta)).Err? || |name| > MaxTagLength;
        return false;
      }
      RoleTagStep(before, db.tags, prefix, ownerId, meta, done, name);
      done := done + {name};
      todo := todo - {name};
    }
    return true;
  }

  /** The loop over `SELECT id, roles_metadata FROM releases WHERE roles_metadata
      IS NOT NULL`, tagging the roles of each. The step fails (and the
      migration with it) exactly when some release's `has_primary` value
      cannot be stored or one of its role names is too long for the `tag`
      column; a unique violation never happens. */
  method CreateReleaseTags(db: Tables, releases: seq<Release>) returns (ok: bool)
    requires db.Valid() && db.tags == []
    requires DistinctIds(releases, ReleaseId)
    modifies db
    ensures db.Valid() && db.nodeTags == old(db.nodeTags)
    ensures ok <==> AllInsertable(releases)
    ensures ok ==> TagRows(db.tags) == ReleaseTags(releases)
  {
    for i := 0 to |releases|
      invariant db.Valid() && db.nodeTags == old(db.nodeTags)
      invariant AllInsertable(releases[..i])
      invariant TagRows(db.tags) == ReleaseTags(releases[..i])
    {
      var rel := releases[i];
      ReleaseTagsSnoc(releases, i);
      assert forall j :: 0 <= j < i ==> releases[..i][j] == releases[j];
      if rel.rolesMetadata.Some? {
        var meta := rel.rolesMetadata.value;
        ok := CreateRoleTags(db, releases[..i], rel.id, meta);
        if !ok {
          assert !Insertable(releases[i]);
          return;
        }
        assert meta.Keys == {} ==> "has_primary" !in meta;
      }
      assert Insertable(releases[i]);
      assert forall j :: 0 <= j < i + 1 ==> releases[..i + 1][j] == releases[j];
    }
    assert releases[..|releases|] == releases;
    return true;
  }

  /** After tag creation each role of a release with metadata has exactly one
      tag, the lookup finds it, and it holds owner_type 'release', the
      release's id, read_only true and the `has_primary` value of the whole
      roles map; any other name (every name, for a release with NULL
      metadata) has no tag. */
  lemma TagsOfRelease(releases: seq<Release>, tags: seq<Tag>, j: int, name: string)
    requires TagRows(tags) == ReleaseTags(releases)
    requires UniqueOn(tags, OwnerKey)
    requires DistinctIds(releases, ReleaseId)
    requires 0 <= j < |releases|
    ensures releases[j].rolesMetadata.Some? && name in releases[j].rolesMetadata.value ==>
              exists k :: 0 <= k < |tags| &&
                RowOf(tags[k]) == RoleTagRow(releases[j].id, releases[j].rolesMetadata.value, name) &&
                FindTag(tags, releases[j].id, name) == Some(tags[k].id)
    ensures !(releases[j].rolesMetadata.Some? && name in releases[j].rolesMetadata.value) ==>
              FindTag(tags, releases[j].id, name) == None
  {
    var rel := releases[j];
    if rel.rolesMetadata.Some? && name in rel.rolesMetadata.value {
      EveryRoleTagged(releases, j, name);
      var row := RoleTagRow(rel.id, rel.rolesMetadata.value, name);
      assert row in TagRows(tags);
      var t :| t in tags && RowOf(t) == row;
      var k :| 0 <= k < |tags| && tags[k] == t;
      FindTagUnique(tags, k);
    } else {
      FindTagSound(tags, rel.id, name);
      if FindTag(tags, rel.id, name).Some? {
        var k :| 0 <= k < |tags| && tags[k].ownerType == ReleaseOwner && tags[k].ownerId == rel.id && tags[k].tag == name;
        assert tags[k] in tags;
        assert RowOf(tags[k]) in TagRows(tags);
        ReleaseTagOrigin(releases, RowOf(tags[k]));
      }
    }
  }

  /** If no role is literally named 'has_primary', every tag gets
      has_primary = false, whatever the roles' own metadata says. */
  lemma HasPrimaryIgnoresRoleMetadata(ownerId: int, meta: map<string, Json>, name: string)
    requires "has_primary" !in meta
    ensures RoleTagRow(ownerId, meta, name).hasPrimary == Some(false)
  {
  }

  /** When every role's metadata is a JSON object, tag creation fails exactly
      when some role is named 'has_primary' (its object cannot be stored in
      the boolean column). */
  lemma AdaptableUnlessRoleNamedHasPrimary(rel: Release)
    requires rel.rolesMetadata.Some?
    requires forall name :: name in rel.rolesMetadata.value ==> rel.rolesMetadata.value[name].JObject?
    ensures Adaptable(rel) <==> "has_primary" !in rel.rolesMetadata.value
  {
  }

  // ---------------------------------------------------------------------
  // Node tag assignment
  // ---------------------------------------------------------------------

  /** One row of `SELECT n.id, unnest(roles || pending_roles) AS role,
      primary_roles, r.id AS release_id FROM nodes n JOIN clusters c ...
      JOIN releases r ...`. */
  datatype NodeRoleRow = NodeRoleRow(nodeId: int, role: string, primaryRoles: seq<string>, releaseId: int)

  function FindCluster(clusters: seq<Cluster>, id: int): Option<Cluster>
  {
    if clusters == [] then None
    else if clusters[0].id == id then Some(clusters[0])
    else FindCluster(clusters[1..], id)
  }

  predicate HasRelease(releases: seq<Release>, id: int)
  {
    exists i :: 0 <= i < |releases| && releases[i].id == id
  }

  /** The release a node joins to through its cluster, if the joins succeed
      (cluster ids and release ids are primary keys, so each join matches
      at most one row). */
  function NodeRelease(n: Node, clusters: seq<Cluster>, releases: seq<Release>): Option<int>
  {
    match n.clusterId
    case None => None
    case Some(c) =>
      match FindCluster(clusters, c)
      case None => None
      case Some(cl) => if HasRelease(releases, cl.releaseId) then Some(cl.releaseId) else None
  }

  /** `unnest(...)`: one query row per entry of the role list, duplicates kept. */
  function UnnestRoles(nodeId: int, roles: seq<string>, primaryRoles: seq<string>, releaseId: int): seq<NodeRoleRow>
  {
    if roles == [] then []
    else
      var n := |roles| - 1;
      UnnestRoles(nodeId, roles[..n], primaryRoles, releaseId) + [NodeRoleRow(nodeId, roles[n], primaryRoles, releaseId)]
  }

  function NodeRows(n: Node, clusters: seq<Cluster>, releases: seq<Release>): seq<NodeRoleRow>
  {
    match NodeRelease(n, clusters, releases)
    case None => []
    case Some(r) => UnnestRoles(n.id, n.roles + n.pendingRoles, n.primaryRoles, r)
  }

  /** The node query's result (its order is the store's; the rows inserted
      are compared as a multiset below). */
  function QueryRows(nodes: seq<Node>, clusters: seq<Cluster>, releases: seq<Release>): seq<NodeRoleRow>
  {
    if nodes == [] then [] else NodeRows(nodes[0], clusters, releases) + QueryRows(nodes[1..], clusters, releases)
  }

  /** One pass of the loop body: look the tag up, skip the row if there is
      none, else insert a node tag. */
  function AssignedRow(row: NodeRoleRow, tags: seq<Tag>): seq<NodeTag>
  {
    match FindTag(tags, row.releaseId, row.role)
    case None => []
    case Some(tagId) => [NodeTag(row.nodeId, tagId, row.role in row.primaryRoles)]
  }

  /** The `node_tags` rows the loop inserts for the query rows `rows`. */
  function Assigned(rows: seq<NodeRoleRow>, tags: seq<Tag>): seq<NodeTag>
  {
    if rows == [] then []
    else
      var n := |rows| - 1;
      Assigned(rows[..n], tags) + AssignedRow(rows[n], tags)
  }

  lemma {:induction false} AssignedAppend(a: seq<NodeRoleRow>, b: seq<NodeRoleRow>, tags: seq<Tag>)
    ensures Assigned(a + b, tags) == Assigned(a, tags) + Assigned(b, tags)
  {
    if b == [] {
      assert a + b == a;
    } else {
      var n := |b| - 1;
      assert (a + b)[..|a + b| - 1] == a + b[..n];
      AssignedAppend(a, b[..n], tags);
    }
  }

  /** Every inserted row comes from some query row and names a tag of that
      row's release whose name is the row's role; it is primary exactly when
      the role is among the node's primary roles. */
  lemma {:induction false} AssignedSound(rows: seq<NodeRoleRow>, tags: seq<Tag>, x: NodeTag)
    requires x in Assigned(rows, tags)
    ensures exists i, k :: 0 <= i < |rows| && 0 <= k < |tags| &&
              x.nodeId == rows[i].nodeId && x.tagId == tags[k].id &&
              tags[k].ownerType == ReleaseOwner && tags[k].ownerId == rows[i].releaseId &&
              tags[k].tag == rows[i].role && x.isPrimary == (rows[i].role in rows[i].primaryRoles)
  {
    var n := |rows| - 1;
    if x in Assigned(rows[..n], tags) {
      AssignedSound(rows[..n], tags, x);
      var i, k :| 0 <= i < |rows[..n]| && 0 <= k < |tags| &&
                  x.nodeId == rows[..n][i].nodeId && x.tagId == tags[k].id &&
                  tags[k].ownerType == ReleaseOwner && tags[k].ownerId == rows[..n][i].releaseId &&
                  tags[k].tag == rows[..n][i].role && x.isPrimary == (rows[..n][i].role in rows[..n][i].primaryRoles);
      assert rows[..n][i] == rows[i];
    } else {
      FindTagSound(tags, rows[n].releaseId, rows[n].role);
    }
  }

  lemma {:induction false} UnnestRolesAt(nodeId: int, roles: seq<string>, primaryRoles: seq<string>, releaseId: int, i: int)
    requires 0 <= i < |roles|
    ensures |UnnestRoles(nodeId, roles, primaryRoles, releaseId)| == |roles|
    ensures UnnestRoles(nodeId, roles, primaryRoles, releaseId)[i] == NodeRoleRow(nodeId, roles[i], primaryRoles, releaseId)
  {
    var n := |roles| - 1;
    if i < n {
      UnnestRolesAt(nodeId, roles[..n], primaryRoles, releaseId, i);
    } else if n > 0 {
      UnnestRolesAt(nodeId, roles[..n], primaryRoles, releaseId, 0);
    }
  }

  lemma {:induction false} UnnestRolesLength(nodeId: int, roles: seq<string>, primaryRoles: seq<string>, releaseId: int)
    ensures |UnnestRoles(nodeId, roles, primaryRoles, releaseId)| == |roles|
  {
    if roles != [] {
      UnnestRolesLength(nodeId, roles[..|roles| - 1], primaryRoles, releaseId);
    }
  }

  /** Every query row belongs to a node of the table that joins to the row's
      release, and its role is an entry of that node's roles or pending roles. */
  lemma {:induction false} QueryRowsSound(nodes: seq<Node>, clusters: seq<Cluster>, releases: seq<Release>, i: int)
    requires 0 <= i < |QueryRows(nodes, clusters, releases)|
    ensures var row := QueryRows(nodes, clusters, releases)[i];
            exists j :: 0 <= j < |nodes| && row.nodeId == nodes[j].id &&
              NodeRelease(nodes[j], clusters, releases) == Some(row.releaseId) &&
              row.role in nodes[j].roles + nodes[j].pendingRoles && row.primaryRoles == nodes[j].primaryRoles
  {
    var head := NodeRows(nodes[0], clusters, releases);
    var rows := QueryRows(nodes, clusters, releases);
    if i < |head| {
      var n := nodes[0];
      var entries := n.roles + n.pendingRoles;
      UnnestRolesLength(n.id, entries, n.primaryRoles, NodeRelease(n, clusters, releases).value);
      UnnestRolesAt(n.id, entries, n.primaryRoles, NodeRelease(n, clusters, releases).value, i);
      assert rows[i] == head[i];
    } else {
      QueryRowsSound(nodes[1..], clusters, releases, i - |head|);
      var j :| 0 <= j < |nodes[1..]| && rows[i].nodeId == nodes[1..][j].id &&
               NodeRelease(nodes[1..][j], clusters, releases) == Some(rows[i].releaseId) &&
               rows[i].role in nodes[1..][j].roles + nodes[1..][j].pendingRoles &&
               rows[i].primaryRoles == nodes[1..][j].primaryRoles;
      assert nodes[1..][j] == nodes[j + 1];
    }
  }

  /** Every `node_tags` row the backfill inserts references an existing node
      and an existing tag (the two foreign keys hold); the tag is one of the
      node's own release, named by an entry of its roles or pending roles,
      and the row is primary exactly when that name is a primary role. */
  lemma NodeTagSound(nodes: seq<Node>, clusters: seq<Cluster>, releases: seq<Release>, tags: seq<Tag>, x: NodeTag)
    requires x in Assigned(QueryRows(nodes, clusters, releases), tags)
    ensures exists j, k :: 0 <= j < |nodes| && 0 <= k < |tags| &&
              x.nodeId == nodes[j].id && x.tagId == tags[k].id && tags[k].ownerType == ReleaseOwner &&
              NodeRelease(nodes[j], clusters, releases) == Some(tags[k].ownerId) &&
              tags[k].tag in nodes[j].roles + nodes[j].pendingRoles &&
              x.isPrimary == (tags[k].tag in nodes[j].primaryRoles)
  {
    var rows := QueryRows(nodes, clusters, releases);
    AssignedSound(rows, tags, x);
    var i, k :| 0 <= i < |rows| && 0 <= k < |tags| &&
                x.nodeId == rows[i].nodeId && x.tagId == tags[k].id &&
                tags[k].ownerType == ReleaseOwner && tags[k].ownerId == rows[i].releaseId &&
                tags[k].tag == rows[i].role && x.isPrimary == (rows[i].role in rows[i].primaryRoles);
    QueryRowsSound(nodes, clusters, releases, i);
  }

  /** A node whose cluster or release does not join (a node outside any
      cluster in particular) gets no `node_tags` row. */
  lemma UnjoinedNodeGetsNoTags(nodes: seq<Node>, clusters: seq<Cluster>, releases: seq<Release>, tags: seq<Tag>, j: int)
    requires DistinctIds(nodes, NodeId)
    requires 0 <= j < |nodes| && NodeRelease(nodes[j], clusters, releases) == None
    ensures forall x :: x in Assigned(QueryRows(nodes, clusters, releases), tags) ==> x.nodeId != nodes[j].id
  {
    forall x | x in Assigned(QueryRows(nodes, clusters, releases), tags) ensures x.nodeId != nodes[j].id {
      NodeTagSound(nodes, clusters, releases, tags, x);
    }
  }

  lemma AssignedSnoc(rows: seq<NodeRoleRow>, row: NodeRoleRow, tags: seq<Tag>)
    ensures Assigned(rows + [row], tags) == Assigned(rows, tags) + AssignedRow(row, tags)
  {
    assert (rows + [row])[..|rows|] == rows;
  }

  /** One query row yields the node tag for tag `tags[k]` once when its role
      is that tag's name, and not at all otherwise. */
  lemma AssignedRowCount(nodeId: int, role: string, primaryRoles: seq<string>, tags: seq<Tag>, k: int, p: bool)
    requires UniqueOn(tags, OwnerKey) && DistinctIds(tags, TagId)
    requires 0 <= k < |tags| && tags[k].ownerType == ReleaseOwner
    ensures multiset(AssignedRow(NodeRoleRow(nodeId, role, primaryRoles, tags[k].ownerId), tags))[NodeTag(nodeId, tags[k].id, p)] ==
              if role == tags[k].tag && p == (role in primaryRoles) then 1 else 0
  {
    var tg := tags[k];
    if role == tg.tag {
      FindTagUnique(tags, k);
    } else {
      FindTagSound(tags, tg.ownerId, role);
      var found := FindTag(tags, tg.ownerId, role);
      if found.Some? {
        var k' :| 0 <= k' < |tags| && tags[k'].id == found.value &&
                  tags[k'].ownerType == ReleaseOwner && tags[k'].ownerId == tg.ownerId && tags[k'].tag == role;
        assert k' != k;
        assert found.value != tg.id;
      }
    }
  }

  lemma MultisetSnoc<T>(s: seq<T>)
    requires s != []
    ensures multiset(s) == multiset(s[..|s| - 1]) + multiset{s[|s| - 1]}
  {
    assert s == s[..|s| - 1] + [s[|s| - 1]];
  }

  /** For one node: the rows naming tag `tags[k]` number the occurrences of
      the tag's name in the node's role entries (a name listed twice gives two
      rows), all with is_primary = name in primary roles. */
  lemma {:induction false} UnnestMultiplicity(
    nodeId: int, roles: seq<string>, primaryRoles: seq<string>, tags: seq<Tag>, k: int, p: bool)
    requires UniqueOn(tags, OwnerKey) && DistinctIds(tags, TagId)
    requires 0 <= k < |tags| && tags[k].ownerType == ReleaseOwner
    ensures multiset(Assigned(UnnestRoles(nodeId, roles, primaryRoles, tags[k].ownerId), tags))[NodeTag(nodeId, tags[k].id, p)] ==
              if p == (tags[k].tag in primaryRoles) then multiset(roles)[tags[k].tag] else 0
  {
    if roles != [] {
      var n := |roles| - 1;
      var x := roles[n];
      var row := NodeRoleRow(nodeId, x, primaryRoles, tags[k].ownerId);
      var prefixRows := UnnestRoles(nodeId, roles[..n], primaryRoles, tags[k].ownerId);
      UnnestMultiplicity(nodeId, roles[..n], primaryRoles, tags, k, p);
      AssignedSnoc(prefixRows, row, tags);
      AssignedRowCount(nodeId, x, primaryRoles, tags, k, p);
      MultisetSnoc(roles);
    }
  }

  /** A node's rows all carry the node's id and name tags of the node's release. */
  lemma NodeRowsShape(n: Node, clusters: seq<Cluster>, releases: seq<Release>, tags: seq<Tag>, x: NodeTag)
    requires x in Assigned(NodeRows(n, clusters, releases), tags)
    ensures x.nodeId == n.id
    ensures exists k :: 0 <= k < |tags| && tags[k].id == x.tagId &&
              NodeRelease(n, clusters, releases) == Some(tags[k].ownerId)
  {
    match NodeRelease(n, clusters, releases)
    case None =>
      assert false;
    case Some(r) =>
      var rows := NodeRows(n, clusters, releases);
      AssignedSound(rows, tags, x);
      var i, k :| 0 <= i < |rows| && 0 <= k < |tags| &&
                  x.nodeId == rows[i].nodeId && x.tagId == tags[k].id &&
                  tags[k].ownerType == ReleaseOwner && tags[k].ownerId == rows[i].releaseId;
      UnnestRolesLength(n.id, n.roles + n.pendingRoles, n.primaryRoles, r);
      UnnestRolesAt(n.id, n.roles + n.pendingRoles, n.primaryRoles, r, i);
  }

  /** The count for one node's own rows. */
  lemma NodeRowsCount(n: Node, clusters: seq<Cluster>, releases: seq<Release>, tags: seq<Tag>, k: int, p: bool)
    requires UniqueOn(tags, OwnerKey) && DistinctIds(tags, TagId)
    requires 0 <= k < |tags| && tags[k].ownerType == ReleaseOwner
    ensures multiset(Assigned(NodeRows(n, clusters, releases), tags))[NodeTag(n.id, tags[k].id, p)] ==
              if NodeRelease(n, clusters, releases) == Some(tags[k].ownerId) && p == (tags[k].tag in n.primaryRoles)
              then multiset(n.roles + n.pendingRoles)[tags[k].tag]
              else 0
  {
    var target := NodeTag(n.id, tags[k].id, p);
    if NodeRelease(n, clusters, releases) == Some(tags[k].ownerId) {
      UnnestMultiplicity(n.id, n.roles + n.pendingRoles, n.primaryRoles, tags, k, p);
    } else if target in Assigned(NodeRows(n, clusters, releases), tags) {
      NodeRowsShape(n, clusters, releases, tags, target);
    }
  }

  /** Nodes none of which has the id of `x` yield no copy of `x`. */
  lemma AbsentNodeCount(nodes: seq<Node>, clusters: seq<Cluster>, releases: seq<Release>, tags: seq<Tag>, x: NodeTag)
    requires forall j :: 0 <= j < |nodes| ==> nodes[j].id != x.nodeId
    ensures multiset(Assigned(QueryRows(nodes, clusters, releases), tags))[x] == 0
  {
    if x in Assigned(QueryRows(nodes, clusters, releases), tags) {
      NodeTagSound(nodes, clusters, releases, tags, x);
    }
  }

  /** The `node_tags` rows of the whole backfill, counted: for a node and a
      release tag, the rows pairing them number the occurrences of the tag's
      name in `roles || pending_roles` when the node joins to that release,
      each with is_primary = (name in primary_roles); there are none otherwise. */
  lemma {:induction false} NodeTagMultiplicity(
    nodes: seq<Node>, clusters: seq<Cluster>, releases: seq<Release>, tags: seq<Tag>, j: int, k: int, p: bool)
    requires DistinctIds(nodes, NodeId)
    requires UniqueOn(tags, OwnerKey) && DistinctIds(tags, TagId)
    requires 0 <= j < |nodes| && 0 <= k < |tags| && tags[k].ownerType == ReleaseOwner
    ensures multiset(Assigned(QueryRows(nodes, clusters, releases), tags))[NodeTag(nodes[j].id, tags[k].id, p)] ==
              if NodeRelease(nodes[j], clusters, releases) == Some(tags[k].ownerId) && p == (tags[k].tag in nodes[j].primaryRoles)
              then multiset(nodes[j].roles + nodes[j].pendingRoles)[tags[k].tag]
              else 0
  {
    if j == 0 {
      FirstNodeCount(nodes, clusters, releases, tags, NodeTag(nodes[0].id, tags[k].id, p));
      NodeRowsCount(nodes[0], clusters, releases, tags, k, p);
    } else {
      LaterNodeCount(nodes, clusters, releases, tags, j, NodeTag(nodes[j].id, tags[k].id, p));
      NodeIdsTail(nodes);
      assert nodes[1..][j - 1] == nodes[j];
      NodeTagMultiplicity(nodes[1..], clusters, releases, tags, j - 1, k, p);
    }
  }

  /** The first node's rows are the only ones naming it. */
  lemma FirstNodeCount(nodes: seq<Node>, clusters: seq<Cluster>, releases: seq<Release>, tags: seq<Tag>, x: NodeTag)
    requires nodes != [] && DistinctIds(nodes, NodeId) && x.nodeId == nodes[0].id
    ensures multiset(Assigned(QueryRows(nodes, clusters, releases), tags))[x] ==
            multiset(Assigned(NodeRows(nodes[0], clusters, releases), tags))[x]
  {
    QueryRowsCount(nodes, clusters, releases, tags, x);
    FirstIdUnique(nodes);
    AbsentNodeCount(nodes[1..], clusters, releases, tags, x);
  }

  /** A later node's rows are counted in the rest of the table alone. */
  lemma LaterNodeCount(nodes: seq<Node>, clusters: seq<Cluster>, releases: seq<Release>, tags: seq<Tag>, j: int, x: NodeTag)
    requires DistinctIds(nodes, NodeId) && 0 < j < |nodes| && x.nodeId == nodes[j].id
    ensures multiset(Assigned(QueryRows(nodes, clusters, releases), tags))[x] ==
            multiset(Assigned(QueryRows(nodes[1..], clusters, releases), tags))[x]
  {
    QueryRowsCount(nodes, clusters, releases, tags, x);
    assert NodeId(nodes[0]) != NodeId(nodes[j]);
    OtherNodeCount(nodes[0], clusters, releases, tags, x);
  }

  /** The count over all nodes is the first node's count plus the rest's. */
  lemma QueryRowsCount(nodes: seq<Node>, clusters: seq<Cluster>, releases: seq<Release>, tags: seq<Tag>, x: NodeTag)
    requires nodes != []
    ensures multiset(Assigned(QueryRows(nodes, clusters, releases), tags))[x] ==
            multiset(Assigned(NodeRows(nodes[0], clusters, releases), tags))[x] +
            multiset(Assigned(QueryRows(nodes[1..], clusters, releases), tags))[x]
  {
    AssignedAppend(NodeRows(nodes[0], clusters, releases), QueryRows(nodes[1..], clusters, releases), tags);
  }

  /** The rest of a table with a primary key keeps it. */
  lemma NodeIdsTail(nodes: seq<Node>)
    requires nodes != [] && DistinctIds(nodes, NodeId)
    ensures DistinctIds(nodes[1..], NodeId)
  {
    forall i, j | 0 <= i < |nodes[1..]| && 0 <= j < |nodes[1..]| && NodeId(nodes[1..][i]) == NodeId(nodes[1..][j])
      ensures i == j
    {
      assert nodes[1..][i] == nodes[i + 1] && nodes[1..][j] == nodes[j + 1];
    }
  }

  /** No later row of a table with a primary key has the first row's id. */
  lemma FirstIdUnique(nodes: seq<Node>)
    requires nodes != [] && DistinctIds(nodes, NodeId)
    ensures forall j :: 0 <= j < |nodes[1..]| ==> nodes[1..][j].id != nodes[0].id
  {
    forall j | 0 <= j < |nodes[1..]| ensures nodes[1..][j].id != nodes[0].id {
      assert nodes[1..][j] == nodes[j + 1];
      assert NodeId(nodes[j + 1]) != NodeId(nodes[0]);
    }
  }

  /** A node yields no copy of a node tag for another node. */
  lemma OtherNodeCount(n: Node, clusters: seq<Cluster>, releases: seq<Release>, tags: seq<Tag>, x: NodeTag)
    requires n.id != x.nodeId
    ensures multiset(Assigned(NodeRows(n, clusters, releases), tags))[x] == 0
  {
    if x in Assigned(NodeRows(n, clusters, releases), tags) {
      NodeRowsShape(n, clusters, releases, tags, x);
    }
  }

  /** The backfill end to end: for a node joined to a release and a role of
      that release, the role's tag is paired with the node once per
      occurrence of the role in `roles || pending_roles`, with is_primary
      telling whether the role is among the node's primary roles. */
  lemma BackfilledRoleCount(
    releases: seq<Release>, clusters: seq<Cluster>, nodes: seq<Node>, tags: seq<Tag>, j: int, r: int, name: string)
    requires TagRows(tags) == ReleaseTags(releases) && UniqueOn(tags, OwnerKey) && DistinctIds(tags, TagId)
    requires DistinctIds(releases, ReleaseId) && DistinctIds(nodes, NodeId)
    requires 0 <= j < |nodes| && 0 <= r < |releases|
    requires NodeRelease(nodes[j], clusters, releases) == Some(releases[r].id)
    requires releases[r].rolesMetadata.Some? && name in releases[r].rolesMetadata.value
    ensures exists k :: 0 <= k < |tags| &&
              RowOf(tags[k]) == RoleTagRow(releases[r].id, releases[r].rolesMetadata.value, name) &&
              multiset(Assigned(QueryRows(nodes, clusters, releases), tags))
                [NodeTag(nodes[j].id, tags[k].id, name in nodes[j].primaryRoles)] ==
              multiset(nodes[j].roles + nodes[j].pendingRoles)[name]
  {
    TagsOfRelease(releases, tags, r, name);
    var k :| 0 <= k < |tags| &&
             RowOf(tags[k]) == RoleTagRow(releases[r].id, releases[r].rolesMetadata.value, name) &&
             FindTag(tags, releases[r].id, name) == Some(tags[k].id);
    NodeTagMultiplicity(nodes, clusters, releases, tags, j, k, name in nodes[j].primaryRoles);
  }

  /** The loop over the node query: each row's tag is looked up and, when
      found, a `node_tags` row is inserted; a row with no tag is skipped. */
  method AssignNodeTags(db: Tables, rows: seq<NodeRoleRow>)
    requires db.Valid()
    modifies db`nodeTags
    ensures db.Valid() && db.tags == old(db.tags)
    ensures db.nodeTags == old(db.nodeTags) + Assigned(rows, db.tags)
  {
    var i := 0;
    while i < |rows|
      invariant 0 <= i <= |rows|
      invariant db.Valid() && db.tags == old(db.tags)
      invariant db.nodeTags == old(db.nodeTags) + Assigned(rows[..i], db.tags)
    {
      var row := rows[i];
      assert rows[..i + 1][..i] == rows[..i];
      var tag := FindTag(db.tags, row.releaseId, row.role);
      if tag.None? {
        i := i + 1;
        continue;
      }
      db.InsertNodeTag(NodeTag(row.nodeId, tag.value, row.role in row.primaryRoles));
      i := i + 1;
    }
    assert rows[..i] == rows;
  }

  /** `upgrade_tags_existing_nodes`, run on the freshly created, empty tag
      tables. It fails exactly when tag creation does; on success the tags
      are those of `ReleaseTags` and the node tags those of `Assigned` over
      the node query. */
  method UpgradeTagsExistingNodes(db: Tables, releases: seq<Release>, clusters: seq<Cluster>, nodes: seq<Node>)
    returns (ok: bool)
    requires db.Valid() && db.tags == [] && db.nodeTags == []
    requires DistinctIds(releases, ReleaseId)
    modifies db
    ensures db.Valid()
    ensures ok <==> AllInsertable(releases)
    ensures ok ==> TagRows(db.tags) == ReleaseTags(releases)
    ensures ok ==> db.nodeTags == Assigned(QueryRows(nodes, clusters, releases), db.tags)
  {
    ok := CreateReleaseTags(db, releases);
    if !ok {
      return;
    }
    AssignNodeTags(db, QueryRows(nodes, clusters, releases));
  }
}
