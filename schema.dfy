/** Rows of the nailgun tables that the fuel 9.0.1 and fuel 10.0 migrations
    read or rewrite, with only the columns those migrations touch. */
module Schema {

  datatype Option<+T> = None | Some(value: T)

  /** A decoded JSON document (the value of a JSON text column after loading). */
  datatype Json =
    | JNull
    | JBool(b: bool)
    | JNumber(n: int)
    | JString(s: string)
    | JArray(items: seq<Json>)
    | JObject(fields: map<string, Json>)

  /** Why the store refuses a statement. */
  datatype DbError =
    | CannotAdapt       // a bound parameter has no value in the column's type
    | ValueTooLong      // a string is longer than its VARCHAR column allows
    | UniqueViolation   // the row would break a unique constraint

  datatype Result<+T> = Ok(value: T) | Err(error: DbError)

  /** `releases`: `roles_metadata` is a JSON object from role name to the role's
      definition, or NULL; `required_component_types` is a JSON list. */
  datatype Release = Release(
    id: int,
    rolesMetadata: Option<map<string, Json>>,
    requiredComponentTypes: seq<string>)

  /** `clusters`: `replaced_deployment_info` is JSON text, compared as text. */
  datatype Cluster = Cluster(
    id: int,
    releaseId: int,
    replacedDeploymentInfo: Option<string>)

  /** `nodes`: the three role lists are PostgreSQL text arrays. */
  datatype Node = Node(
    id: int,
    clusterId: Option<int>,
    roles: seq<string>,
    pendingRoles: seq<string>,
    primaryRoles: seq<string>)

  /** `plugin_links`. */
  datatype PluginLink = PluginLink(
    id: int,
    pluginId: int,
    title: string,
    url: string,
    description: string,
    hidden: bool)

  /** `cluster_plugin_links`. */
  datatype ClusterPluginLink = ClusterPluginLink(
    id: int,
    clusterId: int,
    title: string,
    url: string,
    description: string,
    hidden: bool)

  /** `tags`: `owner_type` is an enumeration of owner kinds, of which the
      migration uses only 'release'. */
  datatype Tag = Tag(
    id: int,
    tag: string,
    ownerId: int,
    ownerType: string,
    hasPrimary: Option<bool>,
    readOnly: bool)

  /** `node_tags`: its own `id` column is never written by the migration. */
  datatype NodeTag = NodeTag(nodeId: int, tagId: int, isPrimary: bool)

  /** A primary key: no two rows share an `id`. */
  predicate DistinctIds<T>(rows: seq<T>, id: T -> int)
  {
    forall i, j :: 0 <= i < |rows| && 0 <= j < |rows| && id(rows[i]) == id(rows[j]) ==> i == j
  }

  /** A unique constraint on `key`. */
  predicate UniqueOn<T, K(==)>(rows: seq<T>, key: T -> K)
  {
    forall i, j :: 0 <= i < |rows| && 0 <= j < |rows| && key(rows[i]) == key(rows[j]) ==> i == j
  }

  function ReleaseId(r: Release): int { r.id }
  function NodeId(n: Node): int { n.id }
  function TagId(t: Tag): int { t.id }
}
