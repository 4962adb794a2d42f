/**
 Schema discovery: the introspected tables and columns, their conversion into
 Doctrine table schemas, and lookup of a discovered table by name.
 */
module Tables {
  import opened Results
  import opened TypeMapper

  /** One row of the schema builder's column listing: a name and a native type name. */
  datatype RawColumn = RawColumn(name: string, typeName: string)

  /**
   One row of the schema builder's table listing, together with the column
   listing the builder returns for that table's name.
   */
  datatype RawTable = RawTable(name: string, columns: seq<RawColumn>)

  /** A Doctrine column: its name and its portable type. */
  datatype Column = Column(name: string, typ: LogicalType)

  /** A Doctrine table: its name and its columns in the order they were added. */
  datatype TableSchema = TableSchema(name: string, columns: seq<Column>)

  /** The error `getTable` throws: "Invalid table name {name}". */
  datatype LoadError = InvalidTableName(name: string)
  {
    /** The exception's message text. */
    function Message(): string
    {
      "Invalid table name " + name
    }
  }

  /** The names of a list of tables, in order. */
  function Names(tables: seq<TableSchema>): seq<string>
  {
    seq(|tables|, i requires 0 <= i < |tables| => tables[i].name)
  }

  /** No two tables share a name, as in one database's catalogue. */
  ghost predicate DistinctNames(tables: seq<TableSchema>)
  {
    forall i, j :: 0 <= i < j < |tables| ==> tables[i].name != tables[j].name
  }

  /**
   The inner loop of `createDoctrineTables`: each listed column is added, in
   order, under its own name with the mapped type of its native type name.
   */
  function AddColumns(columns: seq<RawColumn>): (r: seq<Column>)
    ensures |r| == |columns|
    ensures forall j :: 0 <= j < |columns| ==>
      r[j] == Column(columns[j].name, MapType(columns[j].typeName))
  {
    if columns == [] then []
    else [Column(columns[0].name, MapType(columns[0].typeName))] + AddColumns(columns[1..])
  }

  /**
   `createDoctrineTables`: one Doctrine table per listed table, in listing
   order, named as listed and holding the listed columns in order, each typed
   by the type mapper.
   */
  function CreateDoctrineTables(tables: seq<RawTable>): (r: seq<TableSchema>)
    ensures |r| == |tables|
    ensures forall i :: 0 <= i < |tables| ==>
      r[i].name == tables[i].name && |r[i].columns| == |tables[i].columns|
    ensures forall i, j :: 0 <= i < |tables| && 0 <= j < |tables[i].columns| ==>
      r[i].columns[j] == Column(tables[i].columns[j].name, MapType(tables[i].columns[j].typeName))
  {
    if tables == [] then []
    else [TableSchema(tables[0].name, AddColumns(tables[0].columns))] + CreateDoctrineTables(tables[1..])
  }

  /**
   `getTable`: the first discovered table whose name equals `name` exactly;
   when none does, the "Invalid table name" error.
   */
  function GetTable(tables: seq<TableSchema>, name: string): (r: Result<TableSchema, LoadError>)
    ensures r.Ok? <==> name in Names(tables)
    ensures r.Ok? ==> r.value.name == name
    ensures r.Ok? ==> exists i :: 0 <= i < |tables| && tables[i] == r.value && name !in Names(tables[..i])
    ensures r.Err? ==> r.error == InvalidTableName(name)
    ensures r.Err? ==> r.error.Message() == "Invalid table name " + name
  {
    if tables == [] then Err(InvalidTableName(name))
    else if tables[0].name == name then
      assert Names(tables)[0] == name;
      assert tables[..0] == [];
      Ok(tables[0])
    else
      var r := GetTable(tables[1..], name);
      assert Names(tables) == [tables[0].name] + Names(tables[1..]);
      if r.Ok? then
        var i :| 0 <= i < |tables[1..]| && tables[1..][i] == r.value && name !in Names(tables[1..][..i]);
        assert Names(tables[..i + 1]) == [tables[0].name] + Names(tables[1..][..i]);
        r
      else r
  }

  /** With distinct table names, looking a table up by its own name finds that table. */
  lemma GetTableByOwnName(tables: seq<TableSchema>, i: nat)
    requires DistinctNames(tables) && i < |tables|
    ensures GetTable(tables, tables[i].name) == Ok(tables[i])
  {
    var name := tables[i].name;
    assert Names(tables)[i] == name;
    var r := GetTable(tables, name);
    var j :| 0 <= j < |tables| && tables[j] == r.value && name !in Names(tables[..j]);
    assert tables[j].name == name;
  }
}
