/**
 * The identifier allow-list of internal/model/tables.go: a map from table name to its
 * column names, filled from the schema catalog and queried before an identifier is
 * placed into a dynamically built query. The catalog's answers are an input here.
 */
module Tables {
  import opened Outcomes

  type Registry = map<string, seq<string>>

  /** One table the catalog listed, with its column listing, or None when the column
      query, a scan of its rows or their iteration failed. */
  datatype TableColumns = TableColumns(name: string, columns: Option<seq<string>>)

  /** The answer to the base-table listing: a failure (query, scan or iteration) or the tables. */
  datatype Catalog = ListingFailed | Listing(tables: seq<TableColumns>)

  datatype InitError = TablesUnavailable | ColumnsUnavailable(table: string)

  /** Index of the first table whose column listing failed, or the number of tables. */
  function FirstFailure(ts: seq<TableColumns>): (k: nat)
    ensures k <= |ts|
    ensures forall i :: 0 <= i < k ==> ts[i].columns.Some?
    ensures k < |ts| ==> ts[k].columns.None?
  {
    if ts == [] then 0 else if ts[0].columns.None? then 0 else 1 + FirstFailure(ts[1..])
  }

  /** The registry after `tables[t] = columns` for each listed table, in order. */
  function Fill(m: Registry, ts: seq<TableColumns>): Registry
  {
    if ts == [] then m
    else
      var last := ts[|ts| - 1];
      var before := Fill(m, ts[..|ts| - 1]);
      if last.columns.Some? then before[last.name := last.columns.value] else before
  }

  /** Names of the listed tables that carry a column listing. */
  function Written(ts: seq<TableColumns>): set<string>
  {
    set i | 0 <= i < |ts| && ts[i].columns.Some? :: ts[i].name
  }

  /** The columns of the last listing entry for table t. */
  function LastColumns(ts: seq<TableColumns>, t: string): seq<string>
    requires t in Written(ts)
  {
    var last := ts[|ts| - 1];
    if last.name == t && last.columns.Some? then last.columns.value
    else
      assert t in Written(ts[..|ts| - 1]) by {
        var i :| 0 <= i < |ts| && ts[i].columns.Some? && ts[i].name == t;
        assert ts[..|ts| - 1][i] == ts[i];
      }
      LastColumns(ts[..|ts| - 1], t)
  }

  /** What `Initialize` leaves behind and returns: nothing written when the listing failed;
      otherwise the tables before the first failing column listing written, then its error. */
  function Initialized(m: Registry, c: Catalog): (Registry, Option<InitError>)
  {
    match c
    case ListingFailed => (m, Some(TablesUnavailable))
    case Listing(ts) =>
      var k := FirstFailure(ts);
      (Fill(m, ts[..k]), if k < |ts| then Some(ColumnsUnavailable(ts[k].name)) else None)
  }

  /** The validity check: the table is known, and the column is empty or one of its columns. */
  predicate Allows(m: Registry, table: string, column: string)
  {
    table in m && (column == "" || column in m[table])
  }

  class AllowedTables {
    var tables: Registry

    /** A fresh registry knows no table. */
    constructor ()
      ensures tables == map[]
    {
      tables := map[];
    }

    /** Fills the registry from the catalog, stopping at the first failure. */
    method Initialize(catalog: Catalog) returns (err: Option<InitError>)
      modifies this
      ensures (tables, err) == Initialized(old(tables), catalog)
    {
      if catalog.ListingFailed? {
        return Some(TablesUnavailable);
      }
      var ts := catalog.tables;
      var i := 0;
      while i < |ts|
        invariant 0 <= i <= |ts|
        invariant forall j :: 0 <= j < i ==> ts[j].columns.Some?
        invariant tables == Fill(old(tables), ts[..i])
      {
        if ts[i].columns.None? {
          assert FirstFailure(ts) == i by { FirstFailureAt(ts, i); }
          return Some(ColumnsUnavailable(ts[i].name));
        }
        assert ts[..i + 1][..i] == ts[..i];
        tables := tables[ts[i].name := ts[i].columns.value];
        i := i + 1;
      }
      assert ts[..i] == ts;
      FirstFailureAt(ts, i);
      return None;
    }

    /** Table lookup, then a linear search of its column list. */
    method IsValid(table: string, column: string) returns (ok: bool)
      ensures ok <==> Allows(tables, table, column)
    {
      if table !in tables {
        return false;
      }
      if column == "" {
        return true;
      }
      var columns := tables[table];
      var i := 0;
      while i < |columns|
        invariant 0 <= i <= |columns|
        invariant column !in columns[..i]
      {
        if columns[i] == column {
          return true;
        }
        assert columns[..i + 1] == columns[..i] + [columns[i]];
        i := i + 1;
      }
      assert columns[..i] == columns;
      return false;
    }
  }

  /** The first failure is the first index whose listing is missing. */
  lemma {:induction false} FirstFailureAt(ts: seq<TableColumns>, i: nat)
    requires i <= |ts|
    requires forall j :: 0 <= j < i ==> ts[j].columns.Some?
    requires i < |ts| ==> ts[i].columns.None?
    ensures FirstFailure(ts) == i
  {
    if i > 0 {
      FirstFailureAt(ts[1..], i - 1);
    }
  }

  /** Unlisted tables keep their entry (or their absence); listed tables hold their last listing. */
  lemma {:induction false} FillEntry(m: Registry, ts: seq<TableColumns>, t: string)
    ensures t !in Written(ts) ==> (t in Fill(m, ts) <==> t in m) && (t in m ==> Fill(m, ts)[t] == m[t])
    ensures t in Written(ts) ==> t in Fill(m, ts) && Fill(m, ts)[t] == LastColumns(ts, t)
  {
    if ts != [] {
      var init := ts[..|ts| - 1];
      FillEntry(m, init, t);
      assert Written(ts) == Written(init) + (if ts[|ts| - 1].columns.Some? then {ts[|ts| - 1].name} else {}) by {
        forall x | x in Written(ts) ensures x in Written(init) + (if ts[|ts| - 1].columns.Some? then {ts[|ts| - 1].name} else {}) {
          var i :| 0 <= i < |ts| && ts[i].columns.Some? && ts[i].name == x;
          if i < |ts| - 1 { assert init[i] == ts[i]; }
        }
        forall x | x in Written(init) ensures x in Written(ts) {
          var i :| 0 <= i < |init| && init[i].columns.Some? && init[i].name == x;
          assert ts[i] == init[i];
        }
      }
    }
  }

  /** The keys after filling are the old keys plus the listed tables. */
  lemma FillKeys(m: Registry, ts: seq<TableColumns>)
    ensures Fill(m, ts).Keys == m.Keys + Written(ts)
  {
    forall t ensures t in Fill(m, ts) <==> t in m || t in Written(ts) {
      FillEntry(m, ts, t);
    }
  }

  /** Filling twice from the same listing gives the same registry as filling once. */
  lemma FillIdempotent(m: Registry, ts: seq<TableColumns>)
    ensures Fill(Fill(m, ts), ts) == Fill(m, ts)
  {
    var once := Fill(m, ts);
    var twice := Fill(once, ts);
    forall t ensures (t in twice <==> t in once) && (t in once ==> twice[t] == once[t]) {
      FillEntry(m, ts, t);
      FillEntry(once, ts, t);
    }
  }

  /** Running `Initialize` a second time with the same catalog changes nothing and reports the same result. */
  lemma InitializeIdempotent(m: Registry, c: Catalog)
    ensures Initialized(Initialized(m, c).0, c) == Initialized(m, c)
  {
    if c.Listing? {
      FillIdempotent(m, c.tables[..FirstFailure(c.tables)]);
    }
  }

  /** After `Initialize`, a table the catalog listed before the first failure holds its listed
      columns; every other table (including those after the failure) keeps its old entry. */
  lemma InitializeEntries(m: Registry, ts: seq<TableColumns>, t: string)
    ensures var k := FirstFailure(ts);
            var r := Initialized(m, Listing(ts)).0;
            (t in Written(ts[..k]) ==> t in r && r[t] == LastColumns(ts[..k], t))
            && (t !in Written(ts[..k]) ==> (t in r <==> t in m) && (t in m ==> r[t] == m[t]))
  {
    FillEntry(m, ts[..FirstFailure(ts)], t);
  }

  /** A fresh registry rejects every table and column. */
  lemma FreshRejectsAll(table: string, column: string)
    ensures !Allows(map[], table, column)
  {
  }

  /** An unknown table is rejected whatever the column. */
  lemma UnknownTableRejected(m: Registry, table: string, column: string)
    requires table !in m
    ensures !Allows(m, table, column)
  {
  }

  /** After filling from a listing, a listed table accepts the empty column (even with no columns)
      and exactly its listed columns; the others answer as before. */
  lemma AllowsAfterFill(m: Registry, ts: seq<TableColumns>, table: string, column: string)
    ensures table in Written(ts) ==>
              (Allows(Fill(m, ts), table, column) <==> column == "" || column in LastColumns(ts, table))
    ensures table !in Written(ts) ==> (Allows(Fill(m, ts), table, column) <==> Allows(m, table, column))
  {
    FillEntry(m, ts, table);
  }
}
