/**
 Table definitions and the customizers registered for them.

 A TableDefinition wraps one discovered table. Of its contents this model keeps
 the table's schema and the schema-only flag; everything else a customizer
 may set on it (masking rules, ordering, limits) is part of what an opaque
 customizer does.
 */
module Definitions {
  import opened Tables

  /** A per-table dump definition: the table it wraps and whether only its structure is dumped. */
  datatype TableDef = TableDef(table: TableSchema, schemaOnly: bool)

  /** `new TableDefinition($table)`: a definition of the table that dumps its rows. */
  function NewDefinition(table: TableSchema): (d: TableDef)
    ensures d.table == table && !d.schemaOnly
  {
    TableDef(table, false)
  }

  /** `TableDefinition::schemaOnly()`: dump the structure only; the wrapped table is untouched. */
  function MarkSchemaOnly(d: TableDef): (d': TableDef)
    ensures d'.schemaOnly && d'.table == d.table
  {
    d.(schemaOnly := true)
  }

  /**
   A callback registered for a table: the closure `schemaOnly` registers, or
   an arbitrary callable applied to the fresh definition.
   */
  datatype Customizer = SchemaOnly | Custom(apply: TableDef -> TableDef)

  /**
   Invoking a registered callback on a definition: the schema-only closure
   marks it and keeps its table; any other callback's result is what it
   returns for that definition.
   */
  function Customize(c: Customizer, d: TableDef): (d': TableDef)
    ensures c.SchemaOnly? ==> d'.schemaOnly && d'.table == d.table
    ensures c.Custom? ==> d' == c.apply(d)
  {
    match c
    case SchemaOnly => MarkSchemaOnly(d)
    case Custom(f) => f(d)
  }
}
