/** The `tags` and `node_tags` tables that fuel 10.0 creates, with the two
    INSERT statements and the tag lookup the backfill issues against them. */
module TagTables {
  import opened Schema

  /** The only owner type the migration writes or queries. */
  const ReleaseOwner: string := "release"

  /** `tags.tag` is a `String(64)` column. */
  const MaxTagLength: nat := 64

  /** How a JSON value bound to the nullable boolean `has_primary` column is
      stored: None stands for NULL; a value that is neither a boolean nor
      null cannot be adapted and the statement fails. */
  function BooleanColumn(v: Json): Result<Option<bool>>
  {
    match v
    case JNull => Ok(None)
    case JBool(b) => Ok(Some(b))
    case _ => Err(CannotAdapt)
  }

  /** Some row of `tags` already has the key (owner_type, owner_id, tag). */
  predicate HasKey(tags: seq<Tag>, ownerType: string, ownerId: int, name: string)
  {
    exists i :: 0 <= i < |tags| && tags[i].ownerType == ownerType && tags[i].ownerId == ownerId && tags[i].tag == name
  }

  /** The columns of the unique constraint `__tag_owner_uc`. */
  function OwnerKey(t: Tag): (string, int, string)
  {
    (t.ownerType, t.ownerId, t.tag)
  }

  /** `SELECT id FROM tags WHERE owner_id=:id AND owner_type='release' AND tag=:tag`,
      then `fetchone()`: the id of the first matching row, if any. */
  function FindTag(tags: seq<Tag>, ownerId: int, name: string): Option<int>
  {
    if tags == [] then None
    else if tags[0].ownerType == ReleaseOwner && tags[0].ownerId == ownerId && tags[0].tag == name then Some(tags[0].id)
    else FindTag(tags[1..], ownerId, name)
  }

  /** The lookup finds a row exactly when one has the key, and what it
      returns is the id of such a row. */
  lemma {:induction false} FindTagSound(tags: seq<Tag>, ownerId: int, name: string)
    ensures FindTag(tags, ownerId, name).Some? <==> HasKey(tags, ReleaseOwner, ownerId, name)
    ensures FindTag(tags, ownerId, name).Some? ==>
              exists k :: 0 <= k < |tags| && tags[k].id == FindTag(tags, ownerId, name).value &&
                tags[k].ownerType == ReleaseOwner && tags[k].ownerId == ownerId && tags[k].tag == name
  {
    if tags != [] && !(tags[0].ownerType == ReleaseOwner && tags[0].ownerId == ownerId && tags[0].tag == name) {
      FindTagSound(tags[1..], ownerId, name);
      if HasKey(tags, ReleaseOwner, ownerId, name) {
        var i :| 0 <= i < |tags| && tags[i].ownerType == ReleaseOwner && tags[i].ownerId == ownerId && tags[i].tag == name;
        assert tags[1..][i - 1] == tags[i];
      }
      if FindTag(tags, ownerId, name).Some? {
        var k :| 0 <= k < |tags[1..]| && tags[1..][k].id == FindTag(tags, ownerId, name).value &&
                 tags[1..][k].ownerType == ReleaseOwner && tags[1..][k].ownerId == ownerId && tags[1..][k].tag == name;
        assert tags[k + 1] == tags[1..][k];
      }
    }
  }

  /** Under the unique constraint the lookup returns the id of THE row with the key. */
  lemma FindTagUnique(tags: seq<Tag>, k: int)
    requires UniqueOn(tags, OwnerKey)
    requires 0 <= k < |tags| && tags[k].ownerType == ReleaseOwner
    ensures FindTag(tags, tags[k].ownerId, tags[k].tag) == Some(tags[k].id)
  {
    FindTagSound(tags, tags[k].ownerId, tags[k].tag);
  }

  /** The two tables created by `upgrade_node_tagging`, and the serial
      sequence that hands out tag ids. */
  class Tables {
    var tags: seq<Tag>
    var nextTagId: int
    var nodeTags: seq<NodeTag>

    /** The primary key and the unique constraint of `tags`; every id
        handed out so far is below the sequence's next value. */
    ghost predicate Valid()
      reads this
    {
      && UniqueOn(tags, OwnerKey)
      && DistinctIds(tags, TagId)
      && (forall i :: 0 <= i < |tags| ==> tags[i].id < nextTagId)
    }

    /** Both tables start empty. */
    constructor ()
      ensures Valid()
      ensures tags == [] && nodeTags == []
    {
      tags := [];
      nextTagId := 1;
      nodeTags := [];
    }

    /** `INSERT INTO tags (tag, owner_id, owner_type, has_primary, read_only)
        VALUES(:tag, :owner_id, 'release', :has_primary, true) RETURNING id`.
        The statement fails, changing nothing, when `hasPrimary` cannot be
        stored in a boolean column, when the name is longer than the `tag`
        column allows, or when the key is already taken. Otherwise the row
        gets the sequence's next id. */
    method InsertReleaseTag(name: string, ownerId: int, hasPrimary: Json) returns (r: Result<int>)
      requires Valid()
      modifies this
      ensures Valid()
      ensures nodeTags == old(nodeTags)
      ensures BooleanColumn(hasPrimary).Err? ==>
                r == Err(CannotAdapt) && tags == old(tags) && nextTagId == old(nextTagId)
      ensures BooleanColumn(hasPrimary).Ok? && |name| > MaxTagLength ==>
                r == Err(ValueTooLong) && tags == old(tags) && nextTagId == old(nextTagId)
      ensures BooleanColumn(hasPrimary).Ok? && |name| <= MaxTagLength && HasKey(old(tags), ReleaseOwner, ownerId, name) ==>
                r == Err(UniqueViolation) && tags == old(tags) && nextTagId == old(nextTagId)
      ensures BooleanColumn(hasPrimary).Ok? && |name| <= MaxTagLength && !HasKey(old(tags), ReleaseOwner, ownerId, name) ==>
                && r == Ok(old(nextTagId))
                && tags == old(tags) + [Tag(r.value, name, ownerId, ReleaseOwner, BooleanColumn(hasPrimary).value, true)]
                && nextTagId == old(nextTagId) + 1
    {
      var cell := BooleanColumn(hasPrimary);
      if cell.Err? {
        return Err(CannotAdapt);
      }
      if |name| > MaxTagLength {
        return Err(ValueTooLong);
      }
      if HasKey(tags, ReleaseOwner, ownerId, name) {
        return Err(UniqueViolation);
      }
      var id := nextTagId;
      nextTagId := nextTagId + 1;
      tags := tags + [Tag(id, name, ownerId, ReleaseOwner, cell.value, true)];
      r := Ok(id);
    }

    /** `INSERT INTO node_tags (node_id, tag_id, is_primary) VALUES(...)`. */
    method InsertNodeTag(nodeTag: NodeTag)
      requires Valid()
      modifies this`nodeTags
      ensures Valid()
      ensures nodeTags == old(nodeTags) + [nodeTag]
    {
      nodeTags := nodeTags + [nodeTag];
    }
  }
}
