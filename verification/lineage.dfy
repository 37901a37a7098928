/** The output dataset name of `DatabricksCopyIntoOperator`'s lineage: the
    target table name split on dots, completed with the hook's defaults. */
module CopyIntoLineage {
  import opened Wrappers
  import opened Strings

  /** The parts of a target table name; a missing part is `None`. */
  datatype TableRef = TableRef(catalog: Option<string>, schema: Option<string>, table: string)

  /** `a or b` on optional strings. */
  function OrElse(a: Option<string>, b: Option<string>): Option<string>
  {
    if Truthy(a) then a else b
  }

  /** `table_name.split(".")` read as `catalog.schema.table` when it has three
      parts, `schema.table` when it has two, and as a bare table otherwise. */
  function SplitTableName(name: string): (r: TableRef)
    ensures Count(name, '.') == 2 <==> r.catalog.Some?
    ensures Count(name, '.') == 1 <==> r.catalog.None? && r.schema.Some?
    ensures r.catalog.Some? ==> r.schema.Some? && r.catalog.value + "." + r.schema.value + "." + r.table == name
    ensures r.catalog.None? && r.schema.Some? ==> r.schema.value + "." + r.table == name
    ensures r.schema.None? ==> r.catalog.None? && r.table == name
    ensures r.schema.Some? ==> '.' !in r.table && '.' !in r.schema.value
    ensures r.catalog.Some? ==> '.' !in r.catalog.value
  {
    var parts := Split(name, '.');
    SplitCount(name, '.');
    if |parts| == 3 then
      ThreeParts(name);
      TableRef(Some(parts[0]), Some(parts[1]), parts[2])
    else if |parts| == 2 then
      TwoParts(name);
      TableRef(None, Some(parts[0]), parts[1])
    else TableRef(None, None, name)
  }

  lemma ThreeParts(name: string)
    requires |Split(name, '.')| == 3
    ensures var p := Split(name, '.'); p[0] + "." + p[1] + "." + p[2] == name
  {
    var p := Split(name, '.');
    JoinSplit(name, '.');
    var tail := p[1..];
    assert tail[0] == p[1] && tail[1..] == [p[2]];
    assert Join(tail, ".") == p[1] + "." + p[2];
    assert Join(p, ".") == p[0] + "." + (p[1] + "." + p[2]);
    assert p[0] + "." + (p[1] + "." + p[2]) == p[0] + "." + p[1] + "." + p[2];
  }

  lemma TwoParts(name: string)
    requires |Split(name, '.')| == 2
    ensures var p := Split(name, '.'); p[0] + "." + p[1] == name
  {
    var p := Split(name, '.');
    JoinSplit(name, '.');
    JoinCons(p[0], [p[1]], ".");
    assert p == [p[0]] + [p[1]];
  }

  /** The fully qualified name: the table, prefixed by the schema (or else the
      default schema) and then by the catalog (or else the hook's catalog),
      each prefix only when it is non-empty. */
  function FullyQualifiedName(name: string, defaultSchema: Option<string>, hookCatalog: Option<string>): (r: string)
    ensures var ref := SplitTableName(name);
            var schema := OrElse(ref.schema, defaultSchema);
            var catalog := OrElse(ref.catalog, hookCatalog);
            && (Truthy(schema) && Truthy(catalog) ==> r == catalog.value + "." + schema.value + "." + ref.table)
            && (Truthy(schema) && !Truthy(catalog) ==> r == schema.value + "." + ref.table)
            && (!Truthy(schema) && Truthy(catalog) ==> r == catalog.value + "." + ref.table)
            && (!Truthy(schema) && !Truthy(catalog) ==> r == ref.table)
  {
    var ref := SplitTableName(name);
    var schema := OrElse(ref.schema, defaultSchema);
    var catalog := OrElse(ref.catalog, hookCatalog);
    var withSchema := if Truthy(schema) then schema.value + "." + ref.table else ref.table;
    if Truthy(catalog) then catalog.value + "." + withSchema else withSchema
  }

  /** A name that spells all three parts, none empty, is already fully
      qualified: the defaults are never consulted. */
  lemma ThreePartNameIsKept(name: string, defaultSchema: Option<string>, hookCatalog: Option<string>)
    requires Count(name, '.') == 2
    requires var ref := SplitTableName(name); ref.catalog.value != "" && ref.schema.value != ""
    ensures FullyQualifiedName(name, defaultSchema, hookCatalog) == name
  {
  }

  /** A `schema.table` name with a non-empty schema gains only the hook's
      catalog, if there is one. */
  lemma TwoPartNameGainsCatalog(name: string, defaultSchema: Option<string>, hookCatalog: Option<string>)
    requires Count(name, '.') == 1
    requires SplitTableName(name).schema.value != ""
    ensures Truthy(hookCatalog) ==> FullyQualifiedName(name, defaultSchema, hookCatalog) == hookCatalog.value + "." + name
    ensures !Truthy(hookCatalog) ==> FullyQualifiedName(name, defaultSchema, hookCatalog) == name
  {
    var ref := SplitTableName(name);
    if Truthy(hookCatalog) {
      assert hookCatalog.value + "." + (ref.schema.value + "." + ref.table)
          == hookCatalog.value + "." + ref.schema.value + "." + ref.table;
    }
  }

  /** A name with no dot, or with more than two, is taken whole as the table;
      the defaults alone decide the prefixes. */
  lemma OtherNameIsTable(name: string, defaultSchema: Option<string>, hookCatalog: Option<string>)
    requires Count(name, '.') != 1 && Count(name, '.') != 2
    ensures SplitTableName(name) == TableRef(None, None, name)
    ensures !Truthy(defaultSchema) && !Truthy(hookCatalog) ==> FullyQualifiedName(name, defaultSchema, hookCatalog) == name
  {
  }
}
