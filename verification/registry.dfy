/**
 The DumpSchema registry: the declared intent (the all-tables flag and the
 per-table customizers), the discovery cache, and `load`, which resolves the
 intent against the discovered tables into the dump plan.

 A DumpSchema object is a value of `DumpSchema`; each PHP method that changes
 the object is a function from the old value to the new one.
 */
module Registry {
  import opened Results
  import opened OrderedMaps
  import opened Tables
  import opened Definitions

  /**
   The fields of a DumpSchema object. `introspections` counts the discovery
   rounds issued to the schema builder (one table listing, then one column
   listing per table); the PHP object has no such field.
   */
  datatype DumpSchema = DumpSchema(
    availableTables: seq<TableSchema>,
    dumpTables: OrderedMap<string, TableDef>,
    loadAllTables: bool,
    customizedTables: OrderedMap<string, Customizer>,
    introspections: nat)

  /** How a call that may throw ended, with the state it left behind either way. */
  datatype Outcome<S> = Completed(state: S) | Threw(state: S, error: LoadError)

  /** A freshly constructed object: nothing discovered, declared or planned. */
  function Define(): (s: DumpSchema)
    ensures s.availableTables == [] && s.dumpTables == [] && s.customizedTables == []
    ensures !s.loadAllTables && s.introspections == 0
  {
    DumpSchema([], [], false, [], 0)
  }

  /**
   `table($name, $callback)`: the callback becomes the one registered for
   `name`, at the position `name` was first registered; nothing else changes.
   */
  function Table(s: DumpSchema, name: string, c: Customizer): (r: DumpSchema)
    ensures Lookup(r.customizedTables, name) == Some(c)
    ensures forall other :: other != name ==> Lookup(r.customizedTables, other) == Lookup(s.customizedTables, other)
    ensures Keys(r.customizedTables) == if name in Keys(s.customizedTables) then Keys(s.customizedTables)
                                        else Keys(s.customizedTables) + [name]
    ensures r.(customizedTables := s.customizedTables) == s
  {
    s.(customizedTables := Update(s.customizedTables, name, c))
  }

  /**
   `schemaOnly($name)`: registers the schema-only callback for `name`, as
   `table` would, so `name` keeps the position it was first registered at.
   */
  function RegisterSchemaOnly(s: DumpSchema, name: string): (r: DumpSchema)
    ensures Lookup(r.customizedTables, name) == Some(SchemaOnly)
    ensures forall other :: other != name ==> Lookup(r.customizedTables, other) == Lookup(s.customizedTables, other)
    ensures Keys(r.customizedTables) == if name in Keys(s.customizedTables) then Keys(s.customizedTables)
                                        else Keys(s.customizedTables) + [name]
    ensures r.(customizedTables := s.customizedTables) == s
  {
    Table(s, name, SchemaOnly)
  }

  /** `allTables()`: turns the all-tables flag on and changes nothing else. */
  function AllTables(s: DumpSchema): (r: DumpSchema)
    ensures r.loadAllTables
    ensures r.(loadAllTables := s.loadAllTables) == s
  {
    s.(loadAllTables := true)
  }

  /** `getDumpTables()`: the plan as it stands, left as the last `load` wrote it. */
  function GetDumpTables(s: DumpSchema): (plan: OrderedMap<string, TableDef>)
    ensures plan == s.dumpTables
  {
    s.dumpTables
  }

  /**
   `loadAvailableTables()`: a non-empty cache is kept and nothing is queried;
   an empty one is filled from one discovery round over `db`, the listing
   the schema builder returns.
   */
  function LoadAvailableTables(s: DumpSchema, db: seq<RawTable>): (r: DumpSchema)
    ensures s.availableTables != [] ==> r == s
    ensures s.availableTables == [] ==>
      && r.availableTables == CreateDoctrineTables(db)
      && r.introspections == s.introspections + 1
      && r.(availableTables := s.availableTables, introspections := s.introspections) == s
  {
    if s.availableTables != [] then s
    else s.(availableTables := CreateDoctrineTables(db), introspections := s.introspections + 1)
  }

  /** Every registered name is the name of a discovered table. */
  ghost predicate AllAvailable(tables: seq<TableSchema>, cs: seq<(string, Customizer)>)
  {
    forall i :: 0 <= i < |cs| ==> cs[i].0 in Names(tables)
  }

  /**
   The position of the first registration whose name is not that of a
   discovered table, or the number of registrations when every name is.
   */
  function FirstUnknown(tables: seq<TableSchema>, cs: seq<(string, Customizer)>): (i: nat)
    ensures i <= |cs|
    ensures forall k :: 0 <= k < i ==> cs[k].0 in Names(tables)
    ensures i < |cs| ==> cs[i].0 !in Names(tables)
  {
    if cs == [] || cs[0].0 !in Names(tables) then 0
    else
      var i := FirstUnknown(tables, cs[1..]);
      assert cs[..i + 1] == [cs[0]] + cs[1..][..i];
      i + 1
  }

  /** The entry `load` writes for a customized table: a fresh definition of it, given to its callback. */
  function Customized(tables: seq<TableSchema>, name: string, c: Customizer): (d: TableDef)
    requires name in Names(tables)
    ensures c.SchemaOnly? ==> d == TableDef(GetTable(tables, name).value, true)
    ensures c.Custom? ==> d == c.apply(TableDef(GetTable(tables, name).value, false))
  {
    Customize(c, NewDefinition(GetTable(tables, name).value))
  }

  /** The entries `load` writes for the registrations `cs`, in registration order. */
  function Resolve(tables: seq<TableSchema>, cs: seq<(string, Customizer)>): (r: seq<(string, TableDef)>)
    requires AllAvailable(tables, cs)
    ensures |r| == |cs|
    ensures forall i :: 0 <= i < |cs| ==> r[i] == (cs[i].0, Customized(tables, cs[i].0, cs[i].1))
  {
    if cs == [] then []
    else
      assert AllAvailable(tables, cs[1..]) by {
        assert forall i :: 0 <= i < |cs[1..]| ==> cs[1..][i] == cs[i + 1];
      }
      [(cs[0].0, Customized(tables, cs[0].0, cs[0].1))] + Resolve(tables, cs[1..])
  }

  /** The entries `allTables` seeds: a fresh definition per discovered table, keyed by its name. */
  function Defaults(tables: seq<TableSchema>): (r: seq<(string, TableDef)>)
    ensures |r| == |tables|
    ensures forall i :: 0 <= i < |tables| ==> r[i] == (tables[i].name, NewDefinition(tables[i]))
  {
    if tables == [] then []
    else [(tables[0].name, NewDefinition(tables[0]))] + Defaults(tables[1..])
  }

  /** A fresh, rows-dumping definition of one of `tables`, stored under that table's name. */
  ghost predicate IsDefaultEntry(tables: seq<TableSchema>, e: (string, TableDef))
  {
    e.1.table in tables && e.1.table.name == e.0 && !e.1.schemaOnly
  }

  /**
   `collect($availableTables)->mapWithKeys(...)->toArray()`: the defaults
   written one by one into an empty array. Its keys are exactly the
   discovered names, and every entry is a fresh definition of a discovered
   table with that name.
   */
  function DefaultPlan(tables: seq<TableSchema>): (plan: OrderedMap<string, TableDef>)
    ensures forall k :: k in Keys(plan) <==> k in Names(tables)
    ensures forall i :: 0 <= i < |plan| ==> IsDefaultEntry(tables, plan[i])
  {
    var d := Defaults(tables);
    assert Keys(d) == Names(tables);
    UpdateAllEntries([], d);
    UpdateAll([], d)
  }

  /**
   The plan `load` starts from. With the all-tables flag the earlier plan is
   discarded for one holding a fresh definition of each discovered table,
   under its name; without it, the plan left by earlier calls is kept.
   */
  function Seed(s: DumpSchema): (plan: OrderedMap<string, TableDef>)
    ensures s.loadAllTables ==> forall k :: k in Keys(plan) <==> k in Names(s.availableTables)
    ensures s.loadAllTables ==> forall i :: 0 <= i < |plan| ==> IsDefaultEntry(s.availableTables, plan[i])
    ensures !s.loadAllTables ==> plan == s.dumpTables
  {
    if s.loadAllTables then DefaultPlan(s.availableTables) else s.dumpTables
  }

  /**
   The loop of `load` over the registrations: each name is looked up (the
   first unknown one throws), and the customized fresh definition is written
   under it. Whether it throws or not, the plan ends up holding the entries
   of every registration before the first unknown name, written in order.
   */
  function ApplyCustomizers(tables: seq<TableSchema>, plan: OrderedMap<string, TableDef>,
                            cs: seq<(string, Customizer)>): (out: Outcome<OrderedMap<string, TableDef>>)
    ensures out.Completed? <==> FirstUnknown(tables, cs) == |cs|
    ensures out.state == UpdateAll(plan, Resolve(tables, cs[..FirstUnknown(tables, cs)]))
    ensures out.Threw? ==> out.error == InvalidTableName(cs[FirstUnknown(tables, cs)].0)
    decreases |cs|
  {
    if cs == [] then
      assert cs[..0] == [];
      Completed(plan)
    else
      match GetTable(tables, cs[0].0)
      case Err(e) =>
        assert cs[..0] == [];
        Threw(plan, e)
      case Ok(_) =>
        var entry := FirstEntry(tables, cs);
        var out := ApplyCustomizers(tables, Update(plan, entry.0, entry.1), cs[1..]);
        ApplyCustomizersStep(tables, plan, cs);
        out
  }

  /** The entry the loop's first step writes. */
  function FirstEntry(tables: seq<TableSchema>, cs: seq<(string, Customizer)>): (string, TableDef)
    requires cs != [] && cs[0].0 in Names(tables)
  {
    (cs[0].0, Customized(tables, cs[0].0, cs[0].1))
  }

  /** After a first step that succeeds, the loop writes the first entry and then those of the rest. */
  lemma ApplyCustomizersStep(tables: seq<TableSchema>, plan: OrderedMap<string, TableDef>,
                             cs: seq<(string, Customizer)>)
    requires cs != [] && cs[0].0 in Names(tables)
    ensures FirstUnknown(tables, cs) == FirstUnknown(tables, cs[1..]) + 1
    ensures UpdateAll(plan, Resolve(tables, cs[..FirstUnknown(tables, cs)]))
         == UpdateAll(Update(plan, FirstEntry(tables, cs).0, FirstEntry(tables, cs).1),
                      Resolve(tables, cs[1..][..FirstUnknown(tables, cs[1..])]))
  {
    var i := FirstUnknown(tables, cs[1..]);
    ResolveTail(tables, cs[..i + 1]);
    assert cs[..i + 1][1..] == cs[1..][..i];
  }

  /** The entries for a list are its first entry followed by the entries for the rest. */
  lemma ResolveTail(tables: seq<TableSchema>, cs: seq<(string, Customizer)>)
    requires cs != [] && AllAvailable(tables, cs)
    ensures AllAvailable(tables, cs[1..])
    ensures Resolve(tables, cs) == [FirstEntry(tables, cs)] + Resolve(tables, cs[1..])
  {
  }

  /** Every registered name is found exactly when there is no first unknown one. */
  lemma AllAvailableIffNoUnknown(tables: seq<TableSchema>, cs: seq<(string, Customizer)>)
    ensures AllAvailable(tables, cs) <==> FirstUnknown(tables, cs) == |cs|
  {
    assert cs[..|cs|] == cs;
  }

  /**
   `load()`: fill the discovery cache if it is empty; reseed the plan with
   the defaults when the all-tables flag is on (otherwise keep the plan of
   earlier calls); then write each registered name's customized definition in
   registration order. It throws exactly when some registered name is not a
   discovered table, and leaves the declared intent as it was.
   */
  function Load(s: DumpSchema, db: seq<RawTable>): (out: Outcome<DumpSchema>)
    ensures out.state.availableTables == LoadAvailableTables(s, db).availableTables
    ensures out.state.introspections == LoadAvailableTables(s, db).introspections
    ensures out.state.loadAllTables == s.loadAllTables
    ensures out.state.customizedTables == s.customizedTables
    ensures out.Completed? <==> AllAvailable(out.state.availableTables, s.customizedTables)
    ensures out.Threw? ==> (
      && out.error.name in Keys(s.customizedTables)
      && out.error.name !in Names(out.state.availableTables))
  {
    var loaded := LoadAvailableTables(s, db);
    var cs := loaded.customizedTables;
    AllAvailableIffNoUnknown(loaded.availableTables, cs);
    var out := ApplyCustomizers(loaded.availableTables, Seed(loaded), cs);
    assert out.Threw? ==> Keys(cs)[FirstUnknown(loaded.availableTables, cs)] == out.error.name;
    Settle(loaded, out)
  }

  /** The object after the loop: the plan the loop left, and its exception if it threw. */
  function Settle(loaded: DumpSchema, out: Outcome<OrderedMap<string, TableDef>>): Outcome<DumpSchema>
  {
    match out
    case Completed(plan) => Completed(loaded.(dumpTables := plan))
    case Threw(plan, e) => Threw(loaded.(dumpTables := plan), e)
  }
}
