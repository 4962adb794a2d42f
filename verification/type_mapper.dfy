/**
 The type mapper of DumpSchema: database-native column type names, as the
 schema builder reports them, to the portable Doctrine DBAL type vocabulary.
 */
module TypeMapper {
  import opened OrderedMaps

  /**
   The Doctrine DBAL types the mapper can produce. `mapType` returns the
   `Types::` constant's string; `Name` gives it, and `NamesDistinct` shows
   that no two types share one, so nothing is lost by returning the type.
   */
  datatype LogicalType =
    | String | Integer | Text | Date | DateTime | BigInt | SmallInt | Binary | Json | Decimal
  {
    /** The Doctrine `Types::` constant's value for this type. */
    function Name(): string
    {
      match this
      case String => "string"
      case Integer => "integer"
      case Text => "text"
      case Date => "date"
      case DateTime => "datetime"
      case BigInt => "bigint"
      case SmallInt => "smallint"
      case Binary => "binary"
      case Json => "json"
      case Decimal => "decimal"
    }
  }

  /**
   The fixed table of recognised native names, one row per `case` label of
   the mapper's switch, in source order.
   */
  const NativeTypes: seq<(string, LogicalType)> := [
    ("char", String), ("varchar", String),
    ("int", Integer), ("integer", Integer),
    ("text", Text), ("longtext", Text), ("mediumtext", Text),
    ("date", Date),
    ("datetime", DateTime), ("timestamp", DateTime),
    ("bigint", BigInt), ("mediumint", BigInt),
    ("tinyint", SmallInt), ("smallint", SmallInt),
    ("binary", Binary),
    ("json", Json),
    ("decimal", Decimal)
  ]

  /**
   The native names the mapper recognises, spelled out so that `mapType`'s
   default case can be checked against them; `NativeNamesAreTableKeys` shows
   they are exactly the first column of the table.
   */
  const NativeNames: seq<string> := [
    "char", "varchar", "int", "integer", "text", "longtext", "mediumtext",
    "date", "datetime", "timestamp", "bigint", "mediumint", "tinyint", "smallint",
    "binary", "json", "decimal"
  ]

  /** The spelled-out names are the table's first column, in the same order. */
  lemma NativeNamesAreTableKeys()
    ensures NativeNames == Keys(NativeTypes)
  {
  }

  /**
   `mapType`: a case-sensitive switch on the native name. Every name the
   table lists maps to the type the table gives it; every other name,
   including the empty string, maps to TEXT.
   */
  function MapType(typeName: string): (t: LogicalType)
    ensures typeName !in NativeNames ==> t == Text
  {
    match typeName
    case "char" => String
    case "varchar" => String
    case "int" => Integer
    case "integer" => Integer
    case "text" => Text
    case "longtext" => Text
    case "mediumtext" => Text
    case "date" => Date
    case "datetime" => DateTime
    case "timestamp" => DateTime
    case "bigint" => BigInt
    case "mediumint" => BigInt
    case "tinyint" => SmallInt
    case "smallint" => SmallInt
    case "binary" => Binary
    case "json" => Json
    case "decimal" => Decimal
    case _ => Text
  }

  /** Every row of the table is what the mapper answers for that row's name. */
  lemma {:induction false} MapTypeAgreesWithTable(i: nat)
    requires i < |NativeTypes|
    ensures NativeTypes[i].0 in NativeNames
    ensures MapType(NativeTypes[i].0) == NativeTypes[i].1
  {
    assert NativeTypes[i].0 == NativeNames[i];
  }

  /**
   A type other than TEXT is produced only from a listed name whose row
   carries that type.
   */
  lemma MapTypeOnlyFromTable(typeName: string)
    ensures MapType(typeName) != Text ==> (typeName, MapType(typeName)) in NativeTypes
  {
  }

  /** The synonym groups of the switch share one type. */
  lemma StringSynonyms()
    ensures MapType("char") == MapType("varchar") == String
  {
  }

  lemma IntegerSynonyms()
    ensures MapType("int") == MapType("integer") == Integer
  {
  }

  lemma TextSynonyms()
    ensures MapType("text") == MapType("longtext") == MapType("mediumtext") == Text
  {
  }

  lemma DateTimeSynonyms()
    ensures MapType("datetime") == MapType("timestamp") == DateTime
  {
  }

  lemma BigIntSynonyms()
    ensures MapType("bigint") == MapType("mediumint") == BigInt
  {
  }

  lemma SmallIntSynonyms()
    ensures MapType("tinyint") == MapType("smallint") == SmallInt
  {
  }

  /** No recognised name is spelled with an upper-case letter. */
  lemma KnownNamesLowerCase(j: nat, s: string, i: nat)
    requires j < |NativeNames| && i < |s| && 'A' <= s[i] <= 'Z'
    ensures NativeNames[j] != s
  {
  }

  /**
   Matching is exact and case-sensitive: a name with an upper-case letter
   anywhere, such as an upper- or mixed-case spelling of a known name, falls
   back to TEXT.
   */
  lemma MapTypeCaseSensitive(typeName: string, i: nat)
    requires i < |typeName| && 'A' <= typeName[i] <= 'Z'
    ensures MapType(typeName) == Text
  {
    forall j | 0 <= j < |NativeNames|
      ensures NativeNames[j] != typeName
    {
      KnownNamesLowerCase(j, typeName, i);
    }
  }

  /** Distinct types have distinct `Types::` constants. */
  lemma NamesDistinct(a: LogicalType, b: LogicalType)
    ensures a.Name() == b.Name() ==> a == b
  {
  }
}
