/**
 What `load` and the registry operations guarantee about the dump plan, the
 discovery cache and the declared intent, stated over all inputs.
 */
module LoadProperties {
  import opened Results
  import opened OrderedMaps
  import opened Tables
  import opened Definitions
  import opened Registry

  /** The keys of the registrations' entries are the registered names. */
  lemma ResolveKeys(tables: seq<TableSchema>, cs: seq<(string, Customizer)>)
    requires AllAvailable(tables, cs)
    ensures Keys(Resolve(tables, cs)) == Keys(cs)
  {
  }

  /** A registered name's entry is its callback applied to a fresh definition of its table. */
  lemma ResolveLookup(tables: seq<TableSchema>, cs: OrderedMap<string, Customizer>, k: string)
    requires AllAvailable(tables, cs) && k in Keys(cs)
    ensures Lookup(Resolve(tables, cs), k) == Some(Customized(tables, k, Lookup(cs, k).value))
  {
    ResolveKeys(tables, cs);
  }

  /**
   With distinct table names, the all-tables seed has one key per discovered
   table, in discovery order, each holding a fresh definition of that table.
   */
  lemma DefaultPlanEntries(tables: seq<TableSchema>, k: string)
    requires DistinctNames(tables)
    ensures Keys(DefaultPlan(tables)) == Names(tables)
    ensures k in Names(tables) ==> Lookup(DefaultPlan(tables), k) == Some(NewDefinition(GetTable(tables, k).value))
  {
    var d := Defaults(tables);
    assert Keys(d) == Names(tables);
    UpdateAllKeys([], d);
    WithoutNothing(Keys(d));
    UpdateAllLookup([], d, k);
    if k in Names(tables) {
      var i := IndexOf(Names(tables), k);
      GetTableByOwnName(tables, i);
    }
  }

  /**
   The plan `load` leaves, whether it completes or throws: the plan it
   started from with the entries of every registration before the first
   unknown name written into it, in order.
   */
  lemma LoadPlan(s: DumpSchema, db: seq<RawTable>)
    ensures var loaded := LoadAvailableTables(s, db);
      var cs := s.customizedTables;
      GetDumpTables(Load(s, db).state)
        == UpdateAll(Seed(loaded), Resolve(loaded.availableTables, cs[..FirstUnknown(loaded.availableTables, cs)]))
  {
  }

  /**
   Over tables with distinct names, writing the entries of registrations that
   all name discovered tables into the all-tables defaults adds no key: the
   keys stay the discovered names in discovery order.
   */
  lemma AllTablesPlanKeys(tables: seq<TableSchema>, cs: seq<(string, Customizer)>)
    requires DistinctNames(tables) && AllAvailable(tables, cs) && Distinct(Keys(cs))
    ensures Keys(UpdateAll(DefaultPlan(tables), Resolve(tables, cs))) == Names(tables) + Without(Keys(cs), Names(tables))
    ensures Keys(UpdateAll(DefaultPlan(tables), Resolve(tables, cs))) == Names(tables)
  {
    DefaultPlanEntries(tables, "");
    ResolveKeys(tables, cs);
    UpdateAllKeys(DefaultPlan(tables), Resolve(tables, cs));
    WithoutCovered(Keys(cs), Names(tables));
  }

  /**
   `load` with `allTables` on, when it completes over tables with distinct
   names: the plan's keys are the discovered names followed by the
   registered names not among them, which, since every registered name was
   found, is exactly the discovered names in discovery order.
   */
  lemma LoadAllTablesKeys(s: DumpSchema, db: seq<RawTable>)
    requires s.loadAllTables && Load(s, db).Completed?
    requires DistinctNames(Load(s, db).state.availableTables)
    ensures var names := Names(Load(s, db).state.availableTables);
      && Keys(GetDumpTables(Load(s, db).state)) == names + Without(Keys(s.customizedTables), names)
      && Keys(GetDumpTables(Load(s, db).state)) == names
  {
    var tables := LoadAvailableTables(s, db).availableTables;
    var cs := s.customizedTables;
    LoadPlan(s, db);
    AllAvailableIffNoUnknown(tables, cs);
    assert cs[..|cs|] == cs;
    AllTablesPlanKeys(tables, cs);
  }

  /**
   `load` with `allTables` on, when it completes over tables with distinct
   names: a customized table's entry is its callback applied to a fresh
   definition of it; every other table's entry is a fresh, default definition.
   */
  lemma LoadAllTablesEntry(s: DumpSchema, db: seq<RawTable>, k: string)
    requires s.loadAllTables && Load(s, db).Completed?
    requires DistinctNames(Load(s, db).state.availableTables)
    requires k in Names(Load(s, db).state.availableTables)
    ensures var tables := Load(s, db).state.availableTables;
      Lookup(GetDumpTables(Load(s, db).state), k) ==
        if k in Keys(s.customizedTables) then Some(Customized(tables, k, Lookup(s.customizedTables, k).value))
        else Some(NewDefinition(GetTable(tables, k).value))
  {
    var tables := LoadAvailableTables(s, db).availableTables;
    var cs := s.customizedTables;
    LoadPlan(s, db);
    AllAvailableIffNoUnknown(tables, cs);
    assert cs[..|cs|] == cs;
    AllTablesPlanEntry(tables, cs, k);
  }

  /**
   Over tables with distinct names, after the entries of registrations that
   all name discovered tables are written into the all-tables defaults, a
   registered table holds its customized entry and any other discovered
   table its default one.
   */
  lemma AllTablesPlanEntry(tables: seq<TableSchema>, cs: OrderedMap<string, Customizer>, k: string)
    requires DistinctNames(tables) && AllAvailable(tables, cs) && k in Names(tables)
    ensures Lookup(UpdateAll(DefaultPlan(tables), Resolve(tables, cs)), k) ==
      if k in Keys(cs) then Some(Customized(tables, k, Lookup(cs, k).value))
      else Some(NewDefinition(GetTable(tables, k).value))
  {
    DefaultPlanEntries(tables, k);
    ResolveKeys(tables, cs);
    UpdateAllLookup(DefaultPlan(tables), Resolve(tables, cs), k);
    if k in Keys(cs) {
      ResolveLookup(tables, cs, k);
    }
  }

  /**
   With `allTables` on and only `schemaOnly` registrations, a completed
   `load` marks exactly the registered tables schema-only, and every entry
   wraps the discovered table it is keyed by.
   */
  lemma SchemaOnlyMarksExactlyRegistered(s: DumpSchema, db: seq<RawTable>, k: string)
    requires s.loadAllTables && Load(s, db).Completed?
    requires DistinctNames(Load(s, db).state.availableTables)
    requires forall i :: 0 <= i < |s.customizedTables| ==> s.customizedTables[i].1.SchemaOnly?
    requires k in Names(Load(s, db).state.availableTables)
    ensures Lookup(GetDumpTables(Load(s, db).state), k).Some?
    ensures Lookup(GetDumpTables(Load(s, db).state), k).value.schemaOnly <==> k in Keys(s.customizedTables)
    ensures Lookup(GetDumpTables(Load(s, db).state), k).value.table == GetTable(Load(s, db).state.availableTables, k).value
  {
    LoadAllTablesEntry(s, db, k);
    var cs := s.customizedTables;
    if k in Keys(cs) {
      assert cs[IndexOf(Keys(cs), k)].1.SchemaOnly?;
    }
  }

  /**
   `load` with `allTables` off, when it completes: the plan left by earlier
   calls keeps its keys and order, registered names not yet in it are
   appended in registration order, registered names get their customized
   entries, and every other entry is untouched.
   */
  lemma LoadKeepsEarlierPlan(s: DumpSchema, db: seq<RawTable>, k: string)
    requires !s.loadAllTables && Load(s, db).Completed?
    ensures Keys(GetDumpTables(Load(s, db).state))
         == Keys(s.dumpTables) + Without(Keys(s.customizedTables), Keys(s.dumpTables))
    ensures k !in Keys(s.customizedTables) ==> Lookup(GetDumpTables(Load(s, db).state), k) == Lookup(s.dumpTables, k)
    ensures k in Keys(s.customizedTables) ==>
      Lookup(GetDumpTables(Load(s, db).state), k)
        == Some(Customized(Load(s, db).state.availableTables, k, Lookup(s.customizedTables, k).value))
  {
    var tables := Load(s, db).state.availableTables;
    var cs := s.customizedTables;
    assert cs[..|cs|] == cs;
    var r := Resolve(tables, cs);
    ResolveKeys(tables, cs);
    UpdateAllKeys(s.dumpTables, r);
    UpdateAllLookup(s.dumpTables, r, k);
    if k in Keys(cs) {
      ResolveLookup(tables, cs, k);
    }
  }

  /**
   On a fresh object without `allTables`, a completed `load` plans exactly the
   registered tables, in registration order.
   */
  lemma LoadOnlyRegisteredTables(s: DumpSchema, db: seq<RawTable>)
    requires !s.loadAllTables && s.dumpTables == [] && Load(s, db).Completed?
    ensures Keys(GetDumpTables(Load(s, db).state)) == Keys(s.customizedTables)
  {
    LoadKeepsEarlierPlan(s, db, "");
    WithoutNothing(Keys(s.customizedTables));
  }

  /**
   When the registration loop stops at the first registered name that is not
   a discovered table, the entry of every earlier registration `j` has been
   written.
   */
  lemma ApplyWritesEarlierEntries(tables: seq<TableSchema>, plan: OrderedMap<string, TableDef>,
                                  cs: OrderedMap<string, Customizer>, j: int)
    requires 0 <= j < FirstUnknown(tables, cs)
    ensures Lookup(ApplyCustomizers(tables, plan, cs).state, cs[j].0) == Some(Customized(tables, cs[j].0, cs[j].1))
  {
    var i := FirstUnknown(tables, cs);
    var prefix := cs[..i];
    assert Keys(prefix) == Keys(cs)[..i];
    var r := Resolve(tables, prefix);
    ResolveKeys(tables, prefix);
    assert prefix[j] == cs[j];
    assert Keys(prefix)[j] == cs[j].0;
    UpdateAllLookup(plan, r, cs[j].0);
    ResolveLookup(tables, prefix, cs[j].0);
    IndexOfDistinct(Keys(prefix), j);
  }

  /**
   Whether the registration loop completes or throws, every key not
   registered before the first unknown name holds what the starting plan
   held.
   */
  lemma ApplyKeepsUnwrittenKeys(tables: seq<TableSchema>, plan: OrderedMap<string, TableDef>,
                                cs: OrderedMap<string, Customizer>, k: string)
    requires k !in Keys(cs[..FirstUnknown(tables, cs)])
    ensures Lookup(ApplyCustomizers(tables, plan, cs).state, k) == Lookup(plan, k)
  {
    var i := FirstUnknown(tables, cs);
    var prefix := cs[..i];
    assert Keys(prefix) == Keys(cs)[..i];
    ResolveKeys(tables, prefix);
    UpdateAllLookup(plan, Resolve(tables, prefix), k);
  }

  /**
   When `load` throws, it throws "Invalid table name" for the first
   registered name that is not a discovered table, after the entry of every
   earlier registration has been written into the plan it started from;
   every key not registered before that name holds what the starting plan
   held. A load that throws at its first registration writes nothing.
   */
  lemma LoadThrowsAfterEarlierEntries(s: DumpSchema, db: seq<RawTable>, k: string)
    requires Load(s, db).Threw?
    ensures var tables := LoadAvailableTables(s, db).availableTables;
      var cs := s.customizedTables;
      && FirstUnknown(tables, cs) < |cs|
      && Load(s, db).error == InvalidTableName(cs[FirstUnknown(tables, cs)].0)
      && (forall j :: 0 <= j < FirstUnknown(tables, cs) ==>
            Lookup(GetDumpTables(Load(s, db).state), cs[j].0) == Some(Customized(tables, cs[j].0, cs[j].1)))
      && (k !in Keys(cs[..FirstUnknown(tables, cs)]) ==>
            Lookup(GetDumpTables(Load(s, db).state), k) == Lookup(Seed(LoadAvailableTables(s, db)), k))
  {
    var loaded := LoadAvailableTables(s, db);
    var tables := loaded.availableTables;
    var cs := s.customizedTables;
    assert GetDumpTables(Load(s, db).state) == ApplyCustomizers(tables, Seed(loaded), cs).state;
    forall j | 0 <= j < FirstUnknown(tables, cs)
      ensures Lookup(GetDumpTables(Load(s, db).state), cs[j].0) == Some(Customized(tables, cs[j].0, cs[j].1))
    {
      ApplyWritesEarlierEntries(tables, Seed(loaded), cs, j);
    }
    if k !in Keys(cs[..FirstUnknown(tables, cs)]) {
      ApplyKeepsUnwrittenKeys(tables, Seed(loaded), cs, k);
    }
  }

  /**
   Running the registration loop a second time over the plan it produced
   gives the same outcome: every entry it writes is already there.
   */
  lemma ApplyCustomizersTwice(tables: seq<TableSchema>, plan: OrderedMap<string, TableDef>,
                              cs: OrderedMap<string, Customizer>)
    ensures ApplyCustomizers(tables, ApplyCustomizers(tables, plan, cs).state, cs) == ApplyCustomizers(tables, plan, cs)
  {
    var prefix := cs[..FirstUnknown(tables, cs)];
    assert Keys(prefix) == Keys(cs)[..FirstUnknown(tables, cs)];
    ResolveKeys(tables, prefix);
    UpdateAllIdempotent(plan, Resolve(tables, prefix));
  }

  /**
   Once tables have been discovered, calling `load` again, whatever the
   database now lists, neither queries it nor changes the outcome: the
   defaults are reseeded identically, or the earlier plan already holds
   every entry the registrations write.
   */
  lemma LoadIsIdempotent(s: DumpSchema, db: seq<RawTable>, db': seq<RawTable>)
    requires Load(s, db).state.availableTables != []
    ensures Load(Load(s, db).state, db') == Load(s, db)
  {
    var loaded := LoadAvailableTables(s, db);
    var s1 := Load(s, db).state;
    var tables := loaded.availableTables;
    var cs := s.customizedTables;
    var first := ApplyCustomizers(tables, Seed(loaded), cs);
    assert s1 == loaded.(dumpTables := first.state);
    assert LoadAvailableTables(s1, db') == s1;
    if !s.loadAllTables {
      ApplyCustomizersTwice(tables, Seed(loaded), cs);
    }
    assert ApplyCustomizers(tables, Seed(s1), cs) == first;
    assert Load(s1, db') == Settle(s1, first);
  }

  /**
   `loadAvailableTables` queries the database only while the cache is empty:
   once a query found tables, later calls keep them and query nothing.
   */
  lemma DiscoveryIsCached(s: DumpSchema, db: seq<RawTable>, db': seq<RawTable>)
    requires LoadAvailableTables(s, db).availableTables != []
    ensures LoadAvailableTables(LoadAvailableTables(s, db), db') == LoadAvailableTables(s, db)
    ensures LoadAvailableTables(s, db).introspections <= s.introspections + 1
  {
  }

  /**
   The emptiness check does not tell "never queried" from "queried and found
   no tables": against a database without tables, every `load` queries again.
   */
  lemma EmptyDatabaseIsRequeried(s: DumpSchema)
    requires s.availableTables == []
    ensures Load(s, []).state.availableTables == []
    ensures Load(s, []).state.introspections == s.introspections + 1
    ensures Load(Load(s, []).state, []).state.introspections == s.introspections + 2
  {
  }

  /**
   Registering a second callback for a name replaces the first one in place:
   the result is as if only the second had been registered.
   */
  lemma LastRegistrationWins(s: DumpSchema, name: string, c1: Customizer, c2: Customizer)
    ensures Table(Table(s, name, c1), name, c2) == Table(s, name, c2)
  {
    UpdateOverwrites(s.customizedTables, name, c1, c2);
  }
}
