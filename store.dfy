/** The note database, in memory: zettel records (nanoid → title, the
    nanoid unique), tag records (nanoid → name and colour) and the set of
    (zettel nanoid, tag nanoid) associations, whose composite primary key
    makes it a set and whose foreign keys make each side refer to a record. */
module Store {
  import opened Errors

  /** The database error text; the model does not distinguish `sqlx::Error`s. */
  const SqlFailure: string := "database error"

  /** No value occurs twice. */
  predicate Distinct(s: seq<string>) {
    forall j, k :: 0 <= j < k < |s| ==> s[j] != s[k]
  }

  datatype TagRecord = TagRecord(name: string, color: string)

  class Db {
    var zettels: map<string, string>
    var tags: map<string, TagRecord>
    var assoc: set<(string, string)>

    /** The foreign keys: every association joins a stored zettel and a stored tag. */
    predicate Valid()
      reads this
    {
      forall a :: a in assoc ==> a.0 in zettels && a.1 in tags
    }

    constructor ()
      ensures zettels == map[] && tags == map[] && assoc == {}
      ensures Valid()
    {
      zettels := map[];
      tags := map[];
      assoc := {};
    }

    /** The nanoids of the tags associated with zettel `z`. */
    function TagsOf(z: string): (r: set<string>)
      reads this
      ensures forall t :: t in r <==> (z, t) in assoc
    {
      set a | a in assoc && a.0 == z :: a.1
    }

    /** `order` lists the tags associated with zettel `z`, each once: the
        order in which a query for the zettel's tags returns them. */
    ghost predicate Enumerates(z: string, order: seq<string>)
      reads this
    {
      Distinct(order) && forall t :: (z, t) in assoc <==> t in order
    }

    /** Inserting a zettel record: a nanoid already present violates the
        unique key and fails with `DbError`, changing nothing. */
    method InsertZettel(nanoid: string, title: string) returns (r: Result<()>)
      requires Valid()
      modifies this
      ensures Valid()
      ensures r.Ok? <==> nanoid !in old(zettels)
      ensures r.Err? ==> r.error == DbError(SqlFailure) && zettels == old(zettels)
      ensures r.Ok? ==> zettels == old(zettels)[nanoid := title]
      ensures tags == old(tags) && assoc == old(assoc)
    {
      if nanoid in zettels {
        r := Err(DbError(SqlFailure));
      } else {
        zettels := zettels[nanoid := title];
        r := Ok(());
      }
    }

    /** Updating a record's title: no record to update fails with `DbError`. */
    method UpdateTitle(nanoid: string, title: string) returns (r: Result<()>)
      requires Valid()
      modifies this
      ensures Valid()
      ensures r.Ok? <==> nanoid in old(zettels)
      ensures r.Err? ==> r.error == DbError(SqlFailure) && zettels == old(zettels)
      ensures r.Ok? ==> zettels == old(zettels)[nanoid := title]
      ensures tags == old(tags) && assoc == old(assoc)
    {
      if nanoid !in zettels {
        r := Err(DbError(SqlFailure));
      } else {
        zettels := zettels[nanoid := title];
        r := Ok(());
      }
    }

    /** Inserting a tag record: a nanoid already present fails with `DbError`. */
    method InsertTag(nanoid: string, record: TagRecord) returns (r: Result<()>)
      requires Valid()
      modifies this
      ensures Valid()
      ensures r.Ok? <==> nanoid !in old(tags)
      ensures r.Err? ==> r.error == DbError(SqlFailure) && tags == old(tags)
      ensures r.Ok? ==> tags == old(tags)[nanoid := record]
      ensures zettels == old(zettels) && assoc == old(assoc)
    {
      if nanoid in tags {
        r := Err(DbError(SqlFailure));
      } else {
        tags := tags[nanoid := record];
        r := Ok(());
      }
    }

    /** Inserting an association: an existing pair (the composite key) or a
        side with no record (the foreign keys) fails with `DbError`. */
    method InsertAssoc(z: string, t: string) returns (r: Result<()>)
      requires Valid()
      modifies this
      ensures Valid()
      ensures r.Ok? <==> (z, t) !in old(assoc) && z in zettels && t in tags
      ensures r.Err? ==> r.error == DbError(SqlFailure) && assoc == old(assoc)
      ensures r.Ok? ==> assoc == old(assoc) + {(z, t)}
      ensures zettels == old(zettels) && tags == old(tags)
    {
      if (z, t) in assoc || z !in zettels || t !in tags {
        r := Err(DbError(SqlFailure));
      } else {
        assoc := assoc + {(z, t)};
        r := Ok(());
      }
    }

    /** Deleting an association row. */
    method DeleteAssoc(z: string, t: string)
      requires Valid()
      modifies this
      ensures Valid()
      ensures assoc == old(assoc) - {(z, t)}
      ensures zettels == old(zettels) && tags == old(tags)
    {
      assoc := assoc - {(z, t)};
    }
  }
}
