/**
 * The build catalog (src/used_queries.rs): the table
 * `tabulae.sparql_queries (name PRIMARY KEY, query, mtime)` that records,
 * per query name, the text and modification time of the query the current
 * table was built from. Being keyed by name, it behaves as a map from name
 * to entry; statements against it fail while the schema does not exist.
 */
module UsedQueries {
  import opened Base

  /** One catalog row: the query text and its modification time in microseconds. */
  datatype Entry = Entry(query: string, mtime: int)

  /** A statement against `tabulae.sparql_queries` before that table exists. */
  datatype CatalogError = MissingSchema

  /** The stored modification time of `name`, as `get_mtime` reads it. */
  function MtimeOf(entries: map<string, Entry>, name: string): Option<int>
  {
    if name in entries then Some(entries[name].mtime) else None
  }

  class Catalog {
    /** Whether schema `tabulae` and its table exist. */
    var schemaReady: bool
    /** The rows of `tabulae.sparql_queries`, keyed by their primary key. */
    var entries: map<string, Entry>

    /** A fresh database file: no schema yet, no rows. */
    constructor ()
      ensures !schemaReady && entries == map[]
    {
      schemaReady := false;
      entries := map[];
    }

    /**
     * `ensure_metadata_schema`: both statements are `IF NOT EXISTS`, so
     * running it again changes nothing and existing rows are kept.
     */
    method EnsureMetadataSchema()
      modifies this
      ensures schemaReady
      ensures entries == old(entries)
    {
      schemaReady := true;
    }

    /** `get_mtime`: the stored time of `name`, None when no row has that name. */
    method GetMtime(name: string) returns (r: Result<Option<int>, CatalogError>)
      ensures !schemaReady ==> r == Err(MissingSchema)
      ensures schemaReady ==> r.Ok?
      ensures r.Ok? ==> (r.value.Some? <==> name in entries)
      ensures r.Ok? && r.value.Some? ==> r.value.value == entries[name].mtime
    {
      if !schemaReady {
        return Err(MissingSchema);
      }
      if name in entries {
        r := Ok(Some(entries[name].mtime));
      } else {
        r := Ok(None);
      }
    }

    /**
     * `touch_mtime`: `INSERT OR REPLACE` on the primary key, an upsert that
     * leaves every other name's row as it was.
     */
    method TouchMtime(name: string, query: string, mtime: int) returns (r: Result<(), CatalogError>)
      modifies this
      ensures schemaReady == old(schemaReady)
      ensures r.Ok? <==> schemaReady
      ensures r.Ok? ==> entries == old(entries)[name := Entry(query, mtime)]
      ensures r.Err? ==> entries == old(entries)
    {
      if !schemaReady {
        return Err(MissingSchema);
      }
      entries := entries[name := Entry(query, mtime)];
      r := Ok(());
    }

    /**
     * `all_query_names`: every stored name once, in the order the table
     * scan yields them.
     */
    method AllQueryNames() returns (r: Result<seq<string>, CatalogError>)
      ensures !schemaReady ==> r == Err(MissingSchema)
      ensures schemaReady ==> r.Ok?
      ensures r.Ok? ==> (forall n :: n in r.value <==> n in entries)
      ensures r.Ok? ==> |r.value| == |entries.Keys|
      ensures r.Ok? ==> forall i, j :: 0 <= i < j < |r.value| ==> r.value[i] != r.value[j]
    {
      if !schemaReady {
        return Err(MissingSchema);
      }
      var names: seq<string> := [];
      var rest := entries.Keys;
      while rest != {}
        invariant rest <= entries.Keys
        invariant forall n :: n in names <==> n in entries && n !in rest
        invariant |names| + |rest| == |entries.Keys|
        invariant forall i, j :: 0 <= i < j < |names| ==> names[i] != names[j]
        decreases |rest|
      {
        var n :| n in rest;
        names := names + [n];
        rest := rest - {n};
      }
      r := Ok(names);
    }

    /** `delete`: removes the row of `name`; other rows stay, and an absent name is no change. */
    method Delete(name: string) returns (r: Result<(), CatalogError>)
      modifies this
      ensures schemaReady == old(schemaReady)
      ensures r.Ok? <==> schemaReady
      ensures r.Ok? ==> entries == old(entries) - {name}
      ensures r.Err? ==> entries == old(entries)
    {
      if !schemaReady {
        return Err(MissingSchema);
      }
      entries := entries - {name};
      r := Ok(());
    }
  }

  /**
   * Reading back after an upsert gives the new time for that name and the
   * old answer for every other name.
   */
  lemma TouchThenGet(entries: map<string, Entry>, name: string, query: string, mtime: int, other: string)
    ensures MtimeOf(entries[name := Entry(query, mtime)], name) == Some(mtime)
    ensures other != name ==> MtimeOf(entries[name := Entry(query, mtime)], other) == MtimeOf(entries, other)
  {
  }

  /**
   * After a delete the name has no time; deleting an absent name changes
   * nothing, and other names keep their times.
   */
  lemma DeleteThenGet(entries: map<string, Entry>, name: string, other: string)
    ensures MtimeOf(entries - {name}, name) == None
    ensures name !in entries ==> entries - {name} == entries
    ensures other != name ==> MtimeOf(entries - {name}, other) == MtimeOf(entries, other)
  {
  }
}
