# DumpSchema: the dump plan of laravel-masked-db-dump

This project models, in Dafny, the `DumpSchema` class of the Laravel masked
database dumper. A `DumpSchema` object collects what a caller declares about a
dump (dump every table, and per-table callbacks such as "schema only") and,
on `load()`, resolves it against the tables the database reports into the
dump plan: an ordered array from table name to table definition that the
dump writer consumes.

Modules, one per part of the class:

- `Results`: `Option` and `Result`.
- `OrderedMaps`: PHP ordered arrays as association lists with unique keys.
  `Update` is `$a[$k] = $v` (an existing key keeps its place, a new key is
  appended). `UpdateAll` is a sequence of such writes.
- `TypeMapper`: `mapType`. It maps native column type names to Doctrine
  types, with the switch's rows kept as an explicit table (`NativeTypes`).
- `Tables`: the introspected listing (`RawTable`, `RawColumn`), Doctrine
  tables (`TableSchema`, `Column`), `createDoctrineTables` and `getTable`.
- `Definitions`: a table definition (the table and the schema-only flag) and
  the registered callbacks (`SchemaOnly`, or an opaque `Custom` function).
- `Registry`: the object's fields as a `DumpSchema` value. It has `table`,
  `schemaOnly` (as `RegisterSchemaOnly`), `allTables`, `getDumpTables`, `loadAvailableTables` and
  `load`. Each method that changes the object is a function from the old
  value to the new one. `load` returns `Completed(state)` or
  `Threw(state, error)`, and in both cases `state` is what the object holds
  afterwards. `Define()` is a newly constructed object.
  `GetDumpTables` is the plain field read.
- `LoadProperties`: what `load` guarantees about the plan, the cache and the
  declared intent.

The database is not modelled. Each call that may run discovery takes the
listing the schema builder would return, `db: seq<RawTable>`: every table's
name together with its column listing. The field `introspections` counts
discovery rounds. It does not exist in PHP and is there so that the caching
behaviour can be stated.

Three behaviours of `load` are worth knowing:

- Discovery is guarded by an emptiness check, not a loaded flag. A database
  with no tables is therefore queried again on every `load`
  (`EmptyDatabaseIsRequeried`).
- The plan is only reassigned when `allTables` is on. Without it, entries
  from earlier `load` calls stay in the plan (`LoadKeepsEarlierPlan`).
- An unknown table name throws only after the entries of earlier
  registrations have been written into the plan
  (`LoadThrowsAfterEarlierEntries`).

The model follows the code in all three, even where a reader might expect
discovery to happen at most once, a fresh plan per `load`, or no partial
plan after a failure.

## Model

| member | source | states |
|---|---|---|
| `OrderedMaps.Update` | src/DumpSchema.php:170 | a write makes the key hold the new value; every other key keeps its value; an existing key keeps its position and a new key is appended at the end |
| `OrderedMaps.UpdateAll` | src/DumpSchema.php:166-171 | a run of writes leaves exactly the old keys and the written keys |
| `OrderedMaps.UpdateAllEntries` | src/DumpSchema.php:166-171 | after a run of writes every pair in the array was either there before or written |
| `OrderedMaps.UpdateAllKeys` | src/DumpSchema.php:166-171 | after a run of writes with distinct keys, the keys are the old keys in their old order followed by the new keys in the order they were written |
| `OrderedMaps.UpdateAllLookup` | src/DumpSchema.php:166-171 | after a run of writes with distinct keys, a written key holds its written value and every other key holds its old value |
| `OrderedMaps.UpdateAllIdempotent` | src/DumpSchema.php:166-171 | writing the same distinct-keyed entries a second time leaves the array unchanged |
| `OrderedMaps.UpdateOverwrites` | src/DumpSchema.php:39 | writing a key twice gives the same array as writing only the second value |
| `TypeMapper.NamesDistinct` | src/DumpSchema.php:120-152 | no two of the Doctrine types the mapper returns share a `Types::` constant, so returning the type loses nothing of the returned string |
| `TypeMapper.NativeNamesAreTableKeys` | src/DumpSchema.php:122-149 | the recognised names are exactly the case labels, in source order |
| `TypeMapper.MapType` | src/DumpSchema.php:120-152 | total; every name outside the switch's cases, including other spellings, maps to TEXT |
| `TypeMapper.MapTypeAgreesWithTable` | src/DumpSchema.php:122-149 | every case of the switch maps its name to the type that case returns |
| `TypeMapper.MapTypeOnlyFromTable` | src/DumpSchema.php:120-152 | a type other than TEXT is produced only by a listed name whose case returns that type |
| `TypeMapper.StringSynonyms` | src/DumpSchema.php:123-125 | char and varchar both map to STRING |
| `TypeMapper.IntegerSynonyms` | src/DumpSchema.php:126-128 | int and integer both map to INTEGER |
| `TypeMapper.TextSynonyms` | src/DumpSchema.php:129-132 | text, longtext and mediumtext all map to TEXT |
| `TypeMapper.DateTimeSynonyms` | src/DumpSchema.php:135-137 | datetime and timestamp both map to DATETIME |
| `TypeMapper.BigIntSynonyms` | src/DumpSchema.php:138-140 | bigint and mediumint both map to BIGINT |
| `TypeMapper.SmallIntSynonyms` | src/DumpSchema.php:141-143 | tinyint and smallint both map to SMALLINT |
| `TypeMapper.MapTypeCaseSensitive` | src/DumpSchema.php:122-151 | matching is exact: any name containing an ASCII upper-case letter (A–Z), so every upper- or mixed-case spelling of a known name, maps to TEXT |
| `Tables.AddColumns` | src/DumpSchema.php:106-112 | one column per listed column, in listing order, with the listed name and the mapped type |
| `Tables.CreateDoctrineTables` | src/DumpSchema.php:97-118 | exactly one table per listed table, in input order, with the listed name; its columns are the listed columns in order, each typed by the mapper |
| `Tables.GetTable` | src/DumpSchema.php:67-78 | succeeds exactly when some table has the name; returns the first table with exactly that name; otherwise fails with InvalidTableName for that name, whose message is "Invalid table name " followed by the name |
| `Tables.GetTableByOwnName` | src/DumpSchema.php:67-71 | when table names are distinct, looking up a table's own name returns that table |
| `Definitions.NewDefinition` | src/DumpSchema.php:167 | a new definition wraps the given table and is not schema-only |
| `Definitions.MarkSchemaOnly` | src/DumpSchema.php:33 | marks the definition schema-only and keeps the table it wraps |
| `Definitions.Customize` | src/DumpSchema.php:168 | invoking a callback: the schema-only closure marks the definition schema-only and keeps its table; any other callback yields what it returns for the definition |
| `Registry.Define` | src/DumpSchema.php:13-23 | a new object has discovered nothing, registered nothing, planned nothing and has the all-tables flag off |
| `Registry.Table` | src/DumpSchema.php:37-42 | the name's callback becomes the new one, at the name's first position (appended if the name is new); other names' callbacks and all other fields are unchanged |
| `Registry.RegisterSchemaOnly` | src/DumpSchema.php:30-35 | registers the schema-only callback for the name, at the name's first position (appended if the name is new); other names' callbacks and all other fields are unchanged |
| `Registry.AllTables` | src/DumpSchema.php:44-49 | turns the all-tables flag on; nothing else changes |
| `Registry.GetDumpTables` | src/DumpSchema.php:83-86 | returns the plan as the last `load` left it |
| `Registry.LoadAvailableTables` | src/DumpSchema.php:88-95 | a non-empty cache leaves the whole object unchanged and runs no query; an empty cache is replaced by the converted listing, with one more discovery round counted |
| `Registry.FirstUnknown` | src/DumpSchema.php:166-167 | the position of the first registration whose name is not a discovered table (or the count when every name is found); all names before it are found |
| `Registry.Customized` | src/DumpSchema.php:167-168 | the entry for a registered name: with the schema-only callback, a schema-only definition of the first table with that name; with any other callback, what the callback returns for a fresh definition of the first table with that name |
| `Registry.Resolve` | src/DumpSchema.php:166-171 | one entry per registration, in registration order: the name, and that name's callback applied to a fresh definition of the table |
| `Registry.Defaults` | src/DumpSchema.php:161-163 | one entry per discovered table, in discovery order: its name and a fresh definition of it |
| `Registry.DefaultPlan` | src/DumpSchema.php:161-163 | the all-tables defaults have exactly the discovered names as keys, and every entry is a fresh, rows-dumping definition of a discovered table with that name |
| `Registry.Seed` | src/DumpSchema.php:160-164 | with the all-tables flag the earlier plan is replaced by the defaults (keys exactly the discovered names, every entry a fresh definition); without it the earlier plan is kept as it is |
| `Registry.ApplyCustomizers` | src/DumpSchema.php:166-171 | completes exactly when no registered name is unknown; either way the plan holds the entries of every registration before the first unknown name, written in order; a throw names that unknown name |
| `Registry.Load` | src/DumpSchema.php:156-172 | fills the cache as loadAvailableTables does; keeps the flag and callbacks; completes exactly when every registered name is a discovered table; a throw names a registered name that is not one |
| `LoadProperties.ResolveKeys` | src/DumpSchema.php:170 | the keys written by the registration loop are the registered names |
| `LoadProperties.ResolveLookup` | src/DumpSchema.php:166-171 | the entry written for a registered name is its callback applied to a fresh definition of its table |
| `LoadProperties.DefaultPlanEntries` | src/DumpSchema.php:160-164 | with distinct names, the all-tables seed has the discovered names as keys, in discovery order, each holding a fresh definition of its table |
| `LoadProperties.LoadPlan` | src/DumpSchema.php:156-171 | whether load completes or throws, its plan is the starting plan with the entries of every registration before the first unknown name written in order |
| `LoadProperties.AllTablesPlanKeys` | src/DumpSchema.php:160-171 | writing registrations that all name discovered tables into the all-tables defaults adds no key: the keys remain the discovered names in order |
| `LoadProperties.AllTablesPlanEntry` | src/DumpSchema.php:160-171 | after those writes a registered table holds its customized entry and every other discovered table its default one |
| `LoadProperties.LoadAllTablesKeys` | src/DumpSchema.php:156-171 | with allTables on and a completed load, the plan's keys are the discovered names followed by the registered names not among them; this is exactly the discovered names |
| `LoadProperties.LoadAllTablesEntry` | src/DumpSchema.php:160-171 | with allTables on and a completed load, a customized table's entry is its callback applied to a fresh definition, and every other table's entry is a default definition |
| `LoadProperties.SchemaOnlyMarksExactlyRegistered` | src/DumpSchema.php:156-171 | with allTables on and only schemaOnly registrations, exactly the registered tables are schema-only, and each entry wraps the table it is keyed by |
| `LoadProperties.LoadKeepsEarlierPlan` | src/DumpSchema.php:160-171 | with allTables off and a completed load, earlier entries keep their keys and order, new registered names are appended, registered names hold their customized entries, and other entries are untouched |
| `LoadProperties.LoadOnlyRegisteredTables` | src/DumpSchema.php:166-171 | on a fresh object without allTables, a completed load plans exactly the registered tables, in registration order |
| `LoadProperties.ApplyWritesEarlierEntries` | src/DumpSchema.php:166-171 | every registration before the first unknown name has its customized entry written under its name |
| `LoadProperties.ApplyKeepsUnwrittenKeys` | src/DumpSchema.php:166-171 | whether the loop completes or throws, every key not registered before the first unknown name keeps its starting value |
| `LoadProperties.LoadThrowsAfterEarlierEntries` | src/DumpSchema.php:166-171 | a throwing load throws InvalidTableName for the first unknown registered name (also when that is the first registration); the entries of all earlier registrations are in the plan getDumpTables returns; every other key keeps its value from the starting plan |
| `LoadProperties.ApplyCustomizersTwice` | src/DumpSchema.php:166-171 | running the registration loop again over the plan it produced gives the same outcome and the same plan |
| `LoadProperties.LoadIsIdempotent` | src/DumpSchema.php:156-171 | once tables are cached, a second load gives the same outcome and the same object, whatever the database now lists |
| `LoadProperties.DiscoveryIsCached` | src/DumpSchema.php:88-95 | once discovery has found tables, further calls change nothing and query nothing; a call counts at most one discovery round |
| `LoadProperties.EmptyDatabaseIsRequeried` | src/DumpSchema.php:90-94 | against a database with no tables the cache stays empty, and each load counts one more discovery round |
| `LoadProperties.LastRegistrationWins` | src/DumpSchema.php:39 | registering two callbacks for one name gives the same object as registering only the second |

## Left out

- `getBuilder`, `getConnection` and the `Schema` facade (src/DumpSchema.php:54-65) are database I/O. The listings they return are the `db` parameter. A failing introspection query is not modelled.
- The connection name, the constructor and the static `define` are left out, and so is the `return $this` chaining. `Define()` stands for a newly constructed object.
- The `Faker\Factory::create()` argument given to callbacks is left out. It is an opaque value generator.
- Doctrine's `Table` and `addColumn` internals are not shown, so the model does not cover them. This includes the exception on a duplicate column name and any normalisation of names. A table is its name and its columns in order.
- `TableDefinition` is not part of this model beyond the table it wraps and its schema-only flag. Masking rules, ordering and limits are whatever an opaque callback does.
- A callback is a function from definition to definition. Callbacks that throw, or that change anything other than the definition they are given, are not modelled.
- GetTableByOwnName: assumes distinct table names, as in one database's catalogue. With a duplicated name, the lookup finds the first table of that name, not necessarily the given one.
- DefaultPlanEntries: assumes distinct table names, as in one database's catalogue. With duplicated names, the defaults hold one key per distinct name; the entry is the last such table, kept at the first one's position, while `getTable` picks the first.
- AllTablesPlanKeys: assumes distinct table names, as in one database's catalogue. With duplicated names, the keys are still the discovered names without repetitions (see `DefaultPlan`), but this ordering statement is not proved.
- AllTablesPlanEntry: assumes distinct table names, as in one database's catalogue. With duplicated names, the default entry of a name may wrap a different table of that name than the one `getTable` returns.
- LoadAllTablesKeys: assumes distinct table names, as in one database's catalogue. It inherits the assumption from `AllTablesPlanKeys`.
- LoadAllTablesEntry: assumes distinct table names, as in one database's catalogue. It inherits the assumption from `AllTablesPlanEntry`.
- SchemaOnlyMarksExactlyRegistered: assumes distinct table names, as in one database's catalogue. It inherits the assumption from `LoadAllTablesEntry`.
- `MapType`: its own contract states only the TEXT default. The value for each listed name is stated by `MapTypeAgreesWithTable` and the synonym lemmas.
- PHP turns decimal-integer strings used as array keys into integer keys, so a table named `"42"` is keyed by `42`. Keys here are plain strings, so that coercion is not modelled. Lookups and order are unaffected, because table names are compared as the same strings either way.
- The defaults are built with `mapWithKeys(...)->toArray()`. The model assumes this leaves each `TableDefinition` object as it is. `TableDefinition` is not part of this model, so whether `toArray()` would convert it is not covered.
