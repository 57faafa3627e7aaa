# nailgun schema migrations fuel 9.0.1 and fuel 10.0, modelled in Dafny

This project models the data rewriting done by two Alembic migrations of
nailgun, the Fuel deployment backend. The SQL engine is not modelled: each
table is a sequence of rows (a `seq` field of a class, or an `array` where the
migration updates rows in place), and each statement is a method whose
contract ties the new table to a specification function of the old one.
Lemmas about those functions state what the migration promises.

- **fuel 9.0.1** (`ReplacedInfo`). The upgrade rewrites
  `clusters.replaced_deployment_info` from `'{}'` to `'[]'`. The downgrade
  rewrites `'[]'` back to `'{}'`. Both are one `UPDATE … WHERE`, modelled as a
  loop over an array of cluster rows.
- **fuel 10.0**, in the order `upgrade()` runs the steps (`Fuel10Upgrade.Upgrade`):
  1. `PluginLinks`: `DELETE … WHERE id NOT IN (SELECT MIN(id) … GROUP BY key)`.
     The key is `url` for `plugin_links` and `(cluster_id, url)` for
     `cluster_plugin_links`. One method computes the minimum id per key with
     a map, as the subquery does, and another filters the rows. It is proved
     equal to a filter that keeps the group minima. Lemmas prove that the
     unique constraints created afterwards hold, that no key is lost, and
     that rows are only deleted.
  2. `RequiredComponentTypes`: every release's `required_component_types`
     becomes `["hypervisor", "network", "storage"]`.
  3. `TagTables`: the `tags` and `node_tags` tables start empty. The class
     keeps the primary key of `tags`, the unique constraint on
     `(owner_type, owner_id, tag)` and the serial sequence for tag ids.
     It also models the two INSERT statements and the tag lookup.
  4. `TagBackfill`: one tag is created per role of every release whose
     `roles_metadata` is not NULL. Then every row of the node query
     (nodes joined to clusters and releases, one row per entry of
     `roles || pending_roles`) gets a `node_tags` row if its role names a
     tag of the node's release. Otherwise the row is skipped.

Three behaviours of the backfill are easy to misread:

- `has_primary` is read from the release's whole `roles_metadata` map
  (`roles_metadata.get('has_primary', False)`), not from the role's own
  metadata. Every tag of a release therefore gets the same value. That
  value is `false` unless some role is literally named `has_primary`. When
  such a role exists, its definition (a JSON object) cannot be bound to the
  boolean column, and the migration fails
  (`TagBackfill.HasPrimaryIgnoresRoleMetadata`,
  `TagBackfill.AdaptableUnlessRoleNamedHasPrimary`).
- Tags are written with plain INSERTs. The proof shows that one run from
  the empty table never violates the unique constraint. A second run would
  violate it, so idempotence is not stated.
- Node tags come from the list concatenation `roles || pending_roles`. A
  role listed in both lists yields two rows
  (`TagBackfill.NodeTagMultiplicity`).

The code does not depend on the order of `roles_metadata.items()`, so the
tag loop picks role names with `:|`, and the tag table is specified as a set of rows
without their ids. SQL result order is not specified either, so the node-tag
lemmas count rows with multisets.

## Model

| member | source | states |
|---|---|---|
| `ReplacedInfo.RewrittenAt` | nailgun/nailgun/db/migration/alembic_migrations/versions/fuel_9_0_1.py:58-60 | The UPDATE keeps the row count. A cell equal to `from` becomes `to`. Every other cell, and the id and release id of every row, are unchanged. |
| `ReplacedInfo.RewrittenClearsSource` | nailgun/nailgun/db/migration/alembic_migrations/versions/fuel_9_0_1.py:58-60 | When `from != to`, no cell holds `from` after the UPDATE. |
| `ReplacedInfo.RewrittenNoMatch` | nailgun/nailgun/db/migration/alembic_migrations/versions/fuel_9_0_1.py:58-60 | A table with no `from` cell is left exactly as it was. |
| `ReplacedInfo.UpgradedAt` | nailgun/nailgun/db/migration/alembic_migrations/versions/fuel_9_0_1.py:56-61 | Upgrade turns a `'{}'` row into the same row with `'[]'`, and leaves every other row identical. |
| `ReplacedInfo.DowngradedAt` | nailgun/nailgun/db/migration/alembic_migrations/versions/fuel_9_0_1.py:64-69 | Downgrade turns a `'[]'` row into the same row with `'{}'`, and leaves every other row identical. |
| `ReplacedInfo.UpgradeIdempotent` | nailgun/nailgun/db/migration/alembic_migrations/versions/fuel_9_0_1.py:58-61 | Upgrading twice gives the same table as upgrading once. |
| `ReplacedInfo.DowngradeAfterUpgrade` | nailgun/nailgun/db/migration/alembic_migrations/versions/fuel_9_0_1.py:58-60 | Downgrade after upgrade restores every row that was not `'[]'`. A row that was `'[]'` ends as `'{}'`. |
| `ReplacedInfo.RoundTripIsLossy` | nailgun/nailgun/db/migration/alembic_migrations/versions/fuel_9_0_1.py:66-68 | A one-row table holding `'[]'` is not restored by upgrade then downgrade. |
| `ReplacedInfo.RewriteReplacedInfo` | nailgun/nailgun/db/migration/alembic_migrations/versions/fuel_9_0_1.py:58-61 | The in-place loop over the clusters array leaves exactly the table `Rewritten(old, from, to)`. |
| `ReplacedInfo.UpgradeClustersReplacedInfoWrongDefault` | nailgun/nailgun/db/migration/alembic_migrations/versions/fuel_9_0_1.py:56-61 | The clusters array becomes the upgraded table (`'{}'` to `'[]'`). |
| `ReplacedInfo.DowngradeClustersReplacedInfoWrongDefault` | nailgun/nailgun/db/migration/alembic_migrations/versions/fuel_9_0_1.py:64-69 | The clusters array becomes the downgraded table (`'[]'` to `'{}'`). |
| `RequiredComponentTypes.WithRequiredTypesAt` | nailgun/nailgun/db/migration/alembic_migrations/versions/fuel_10_0.py:207-211 | Every release lists `hypervisor`, `network`, `storage`, whatever it held before. Its id and roles metadata are unchanged and no row is added or removed. |
| `RequiredComponentTypes.WithRequiredTypesIdempotent` | nailgun/nailgun/db/migration/alembic_migrations/versions/fuel_10_0.py:207-211 | Running the UPDATE twice gives the same table as running it once. |
| `RequiredComponentTypes.WithRequiredTypesKeepsIds` | nailgun/nailgun/db/migration/alembic_migrations/versions/fuel_10_0.py:207-211 | The UPDATE keeps the primary key of `releases`. |
| `RequiredComponentTypes.UpgradeReleaseRequiredComponentTypes` | nailgun/nailgun/db/migration/alembic_migrations/versions/fuel_10_0.py:196-211 | The in-place loop over the releases array leaves exactly `WithRequiredTypes(old)`. |
| `PluginLinks.SurvivorsMembership` | nailgun/nailgun/db/migration/alembic_migrations/versions/fuel_10_0.py:155-163 | A row survives the DELETE if and only if it is in the table and has the smallest id of its key group. |
| `PluginLinks.SurvivorsOnlyDelete` | nailgun/nailgun/db/migration/alembic_migrations/versions/fuel_10_0.py:155-163 | The surviving rows form a sub-multiset of the table. Rows are only deleted, never changed or added. |
| `PluginLinks.SurvivorsDistinctIds` | nailgun/nailgun/db/migration/alembic_migrations/versions/fuel_10_0.py:155-163 | Deleting rows keeps the primary key. |
| `PluginLinks.GroupMinimumExists` | nailgun/nailgun/db/migration/alembic_migrations/versions/fuel_10_0.py:159-161 | Every key group of the table has a row holding its `MIN(id)`. |
| `PluginLinks.SurvivorsUnique` | nailgun/nailgun/db/migration/alembic_migrations/versions/fuel_10_0.py:155-186 | After the DELETE no two rows share a key, so the unique constraint created next holds. |
| `PluginLinks.NoKeyLost` | nailgun/nailgun/db/migration/alembic_migrations/versions/fuel_10_0.py:155-181 | Every key of the table is still held by some surviving row. |
| `PluginLinks.GroupMinimumIds` | nailgun/nailgun/db/migration/alembic_migrations/versions/fuel_10_0.py:158-162 | The subquery `SELECT MIN(id) … GROUP BY key` returns a row's id if and only if that row is its group's minimum. |
| `PluginLinks.DeleteNonMinimal` | nailgun/nailgun/db/migration/alembic_migrations/versions/fuel_10_0.py:155-164 | Deleting every row whose id is not among the group minima leaves exactly the group-minimum filter `Survivors`. |
| `PluginLinks.LinkTables.UpgradePluginLinksConstraints` | nailgun/nailgun/db/migration/alembic_migrations/versions/fuel_10_0.py:151-186 | Both link tables are deduplicated on their keys (`url`, and `(cluster_id, url)`). The primary keys are kept, and both unique constraints hold afterwards. |
| `TagTables.FindTagSound` | nailgun/nailgun/db/migration/alembic_migrations/versions/fuel_10_0.py:63-66 | The tag lookup finds a row if and only if a release tag with that owner and name exists. The id it returns belongs to such a row. |
| `TagTables.FindTagUnique` | nailgun/nailgun/db/migration/alembic_migrations/versions/fuel_10_0.py:88-92 | Under the unique constraint, `fetchone()` returns the id of the one tag with that key. |
| `TagTables.Tables.constructor` | nailgun/nailgun/db/migration/alembic_migrations/versions/fuel_10_0.py:106-137 | Both tables are created empty, with the keys and the unique constraint holding. |
| `TagTables.Tables.InsertReleaseTag` | nailgun/nailgun/db/migration/alembic_migrations/versions/fuel_10_0.py:71-74 | A `has_primary` value that is neither a boolean nor null fails with CannotAdapt. A name longer than the 64 characters of the `tag` column (line 109) fails with ValueTooLong. A taken key fails with UniqueViolation. A failed statement changes nothing. Otherwise one row is appended: the sequence's next id, owner `'release'` and `read_only` true, and the sequence advances by one. The table's keys still hold. |
| `TagTables.Tables.InsertNodeTag` | nailgun/nailgun/db/migration/alembic_migrations/versions/fuel_10_0.py:59-62 | Appends exactly the given row to `node_tags` and leaves `tags` unchanged. |
| `TagBackfill.ReleaseTagOrigin` | nailgun/nailgun/db/migration/alembic_migrations/versions/fuel_10_0.py:67-85 | Every created tag row is the tag of a role of a release with non-NULL metadata: that release's id, owner `'release'`, `read_only` true, and the `has_primary` of the whole map. |
| `TagBackfill.EveryRoleTagged` | nailgun/nailgun/db/migration/alembic_migrations/versions/fuel_10_0.py:77-85 | Every role name of every release with metadata gets its tag row. |
| `TagBackfill.NewKeyIsFree` | nailgun/nailgun/db/migration/alembic_migrations/versions/fuel_10_0.py:77-85 | During the loop, the key of a role not yet tagged is free. Earlier releases have other ids, and role names are distinct map keys. |
| `TagBackfill.CreateRoleTags` | nailgun/nailgun/db/migration/alembic_migrations/versions/fuel_10_0.py:79-85 | Tagging one release's roles, in any order, fails exactly when the release has roles and its `has_primary` value cannot be stored, or when a role name is longer than 64 characters. On success it adds exactly one tag row per role and keeps the table's keys. |
| `TagBackfill.CreateReleaseTags` | nailgun/nailgun/db/migration/alembic_migrations/versions/fuel_10_0.py:67-85 | Starting from an empty `tags` table, the step fails exactly when some release with metadata has a `has_primary` value that cannot be stored or a role name longer than 64 characters. A unique violation never happens. On success the table holds exactly `ReleaseTags(releases)` and keeps its keys. |
| `TagBackfill.TagsOfRelease` | nailgun/nailgun/db/migration/alembic_migrations/versions/fuel_10_0.py:63-85 | After creation, each role of a release with metadata has one tag with the expected contents, and the lookup returns it. Any other name, and every name of a release with NULL metadata, has no tag. |
| `TagBackfill.HasPrimaryIgnoresRoleMetadata` | nailgun/nailgun/db/migration/alembic_migrations/versions/fuel_10_0.py:79-85 | Unless a role is named `has_primary`, every tag gets `has_primary = false`, whatever the role's own metadata says. |
| `TagBackfill.AdaptableUnlessRoleNamedHasPrimary` | nailgun/nailgun/db/migration/alembic_migrations/versions/fuel_10_0.py:84 | When every role's metadata is a JSON object, tag creation fails exactly when a role is named `has_primary`. |
| `TagBackfill.QueryRowsSound` | nailgun/nailgun/db/migration/alembic_migrations/versions/fuel_10_0.py:53-58 | Every node-query row belongs to a node whose cluster and release join. Its role is an entry of that node's `roles \|\| pending_roles`, and its primary roles are the node's. |
| `TagBackfill.AssignedSound` | nailgun/nailgun/db/migration/alembic_migrations/versions/fuel_10_0.py:87-102 | Every inserted node tag comes from a query row whose role names a release tag of that row's release. `is_primary` is true if and only if the role is in `primary_roles`. |
| `TagBackfill.NodeTagSound` | nailgun/nailgun/db/migration/alembic_migrations/versions/fuel_10_0.py:87-102 | Every inserted row references an existing node and an existing tag, so both foreign keys hold. The tag belongs to the node's own release and is named by one of its role entries. `is_primary` is true if and only if that name is a primary role. |
| `TagBackfill.UnjoinedNodeGetsNoTags` | nailgun/nailgun/db/migration/alembic_migrations/versions/fuel_10_0.py:53-58 | A node with no cluster, or whose cluster or release does not join, gets no `node_tags` row. |
| `TagBackfill.AssignedRowCount` | nailgun/nailgun/db/migration/alembic_migrations/versions/fuel_10_0.py:88-102 | One query row yields the node tag for a given tag once if its role is that tag's name, and not at all otherwise. Rows with no matching tag are skipped. |
| `TagBackfill.UnnestMultiplicity` | nailgun/nailgun/db/migration/alembic_migrations/versions/fuel_10_0.py:53-54 | For one node, the rows for a tag number the occurrences of its name in the node's role entries, and all carry `is_primary = name in primary_roles`. |
| `TagBackfill.NodeTagMultiplicity` | nailgun/nailgun/db/migration/alembic_migrations/versions/fuel_10_0.py:53-102 | Over the whole backfill, the rows pairing a node with a release tag number the occurrences of the tag's name in `roles \|\| pending_roles`. This holds when the node joins that release and `is_primary` matches; otherwise there are none. A role in both lists gives two rows. |
| `TagBackfill.BackfilledRoleCount` | nailgun/nailgun/db/migration/alembic_migrations/versions/fuel_10_0.py:51-102 | End to end: for a node joined to a release and a role of that release, the role's tag is paired with the node once per occurrence of the role in the node's entries. |
| `TagBackfill.AssignNodeTags` | nailgun/nailgun/db/migration/alembic_migrations/versions/fuel_10_0.py:87-102 | The loop appends exactly `Assigned(rows, tags)` to `node_tags` and changes no other column of the database: `tags` and the next tag id are as they were. |
| `TagBackfill.UpgradeTagsExistingNodes` | nailgun/nailgun/db/migration/alembic_migrations/versions/fuel_10_0.py:51-102 | On the empty tag tables: fails if and only if some release's `has_primary` value cannot be stored or one of its role names is longer than 64 characters. On success, `tags` holds `ReleaseTags(releases)` under its constraints and `node_tags` holds `Assigned` over the node query. |
| `Fuel10Upgrade.Upgrade` | nailgun/nailgun/db/migration/alembic_migrations/versions/fuel_10_0.py:38-42 | Runs plugin-link dedup, then the required-types fill, then the creation of the empty tag tables, then the backfill. States each step's result on the tables it changes, and that the run fails exactly when the tag backfill does. |

## Left out

- Schema DDL (creating and dropping tables, columns, indexes, constraints and the owner-type enum) is left out, as are the `downgrade_*` functions that only drop structure. The constraints those statements declare are kept as invariants or checks: the primary keys, `__tag_owner_uc`, the two plugin-link unique constraints, and the 64-character limit of `tags.tag`.
- The `releases.tags_metadata` column, the `deployment_history` index and the `tasks.tasks_snapshot` column are left out. They only add or drop structure.
- Alembic and SQLAlchemy execution and connection binding are left out. The SQL result order is taken to be table order, and claims that depend on order are stated as multisets or sets.
- JSON decoding and encoding (`jsonutils.loads`/`dumps`) are left out. `roles_metadata` is taken as an already decoded JSON object. A non-object value, which would make `.items()` raise, is not modelled.
- `TagTables.Tables.InsertReleaseTag`: a name longer than 64 characters is always refused with ValueTooLong. PostgreSQL instead stores such a name cut to 64 characters when all the extra characters are spaces. That case, and the unique violations it can cause, is not modelled.
- `TagTables.Tables.InsertReleaseTag`: a failed statement leaves the id sequence as it was. In PostgreSQL a failed INSERT may already have consumed a sequence value, but the migration aborts at that point anyway.
- `TagBackfill.CreateRoleTags`: a role name longer than 64 characters whose extra characters are all spaces counts as a failure. PostgreSQL would store it cut to 64 characters.
- `TagBackfill.CreateReleaseTags`: same as above for such role names.
- `TagBackfill.UpgradeTagsExistingNodes`: same as above for such role names.
- `Fuel10Upgrade.Upgrade`: same as above for such role names.
- `TagTables.BooleanColumn`: PostgreSQL's coercion of quoted text such as `'t'` or `'yes'` into a boolean is not modelled. A JSON string, number, array or object bound to `has_primary` is treated as a failed statement.
- `TagBackfill.CreateReleaseTags`: says nothing about the tables after a failed insert, because the migration then aborts and its transaction is rolled back by the runner, which is not modelled.
- `TagBackfill.CreateRoleTags`: same as above for a failed insert.
- `TagBackfill.UpgradeTagsExistingNodes`: same as above for a failed run. The ids of the created tags are only known to be distinct and below the sequence's next value; the exact serial values are not stated.
- `Fuel10Upgrade.Upgrade`: after a failed run the contract gives the link and release tables as they were when the backfill failed: deduplicated and updated. The runner's rollback, which restores them, is not modelled.
- Re-running the backfill is not modelled. Its plain INSERTs would break the tag unique constraint on a second run, and `node_tags` has no uniqueness of its own.
- NULL `roles`, `pending_roles` or `primary_roles` arrays are not modelled. The model takes them as (possibly empty) lists.
- The cluster and release joins are modelled as lookups of the first row with a matching id. This equals the SQL join because those ids are primary keys.
- The `id` column of `node_tags` (never written) and the `ON DELETE CASCADE` behaviour of its foreign keys are left out. No node or tag is deleted during the upgrade.
- The ordering of fuel 9.0.1's `upgrade()`/`downgrade()` is not modelled beyond the rewrite step. Its other steps only add or drop structure.
- `nailgun/nailgun/api/v1/validators/json_schema/extension.py` is not part of this model. It holds two JSON-schema constants and no logic.
- The role HTTP API exercised by `nailgun/nailgun/test/integration/test_role_api.py` is not part of this model. That covers role validation, the role registry and the delete guard; their implementations are not among the files modelled.
