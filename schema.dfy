/** The compact schema text that grounds the SQL agent's prompt: one line
    `- <table>: <c1>, <c2>, ...` per usable table, lines joined by a newline.
    The database's metadata arrives as a catalog: the tables in the order
    `get_usable_table_names()` lists them, each with the column records the
    inspector's `get_columns(table)` gives, in the inspector's order. */
module Schema {
  import opened Text

  /** One column record from the inspector; only its name is rendered. */
  datatype Column = Column(name: string, typeName: string)

  datatype TableMeta = TableMeta(name: string, columns: seq<Column>)

  type Catalog = seq<TableMeta>

  /** `[col['name'] for col in columns]`. */
  function ColumnNames(columns: seq<Column>): (names: seq<string>)
    ensures |names| == |columns|
    ensures forall i :: 0 <= i < |columns| ==> names[i] == columns[i].name
  {
    seq(|columns|, i requires 0 <= i < |columns| => columns[i].name)
  }

  /** The line rendered for one table. */
  function RenderLine(t: TableMeta): string {
    "- " + t.name + ": " + Join(", ", ColumnNames(t.columns))
  }

  /** The lines in catalog order, one per table. */
  function SchemaLines(catalog: Catalog): (lines: seq<string>)
    ensures |lines| == |catalog|
  {
    seq(|catalog|, i requires 0 <= i < |catalog| => RenderLine(catalog[i]))
  }

  /** `get_compact_schema` as a join over a generator. The text is empty
      exactly when there are no usable tables. */
  function CompactSchema(catalog: Catalog): (text: string)
    ensures text == "" <==> catalog == []
  {
    var lines := SchemaLines(catalog);
    assert lines != [] ==> |Join("\n", lines)| >= 2 by {
      if lines != [] {
        JoinStartsWith("\n", lines);
      }
    }
    Join("\n", lines)
  }

  /** A line consists of `- `, the table name, `: ` and then the column names
      in inspector order joined by `, `; a table without columns gives
      `- <table>: ` and nothing after it. */
  lemma LineShape(t: TableMeta)
    ensures var head := "- " + t.name + ": ";
      && |RenderLine(t)| >= |head|
      && RenderLine(t)[..|head|] == head
      && RenderLine(t)[|head|..] == Join(", ", ColumnNames(t.columns))
    ensures t.columns == [] ==> RenderLine(t) == "- " + t.name + ": "
  {
    var head := "- " + t.name + ": ";
    assert RenderLine(t) == head + Join(", ", ColumnNames(t.columns));
  }

  /** No table or column name contains a line break. */
  predicate SingleLineNames(catalog: Catalog) {
    forall i :: 0 <= i < |catalog| ==>
      '\n' !in catalog[i].name
      && forall j :: 0 <= j < |catalog[i].columns| ==> '\n' !in catalog[i].columns[j].name
  }

  lemma LineHasNoBreak(t: TableMeta)
    requires '\n' !in t.name
    requires forall j :: 0 <= j < |t.columns| ==> '\n' !in t.columns[j].name
    ensures '\n' !in RenderLine(t)
  {
    JoinAvoids('\n', ", ", ColumnNames(t.columns));
  }

  /** Reading the schema text back line by line gives exactly one line per
      usable table, in catalog order, nothing dropped, merged or reordered,
      and no empty line after the last. Names with line breaks in them would
      of course split further. */
  lemma OneLinePerTable(catalog: Catalog)
    requires catalog != []
    requires SingleLineNames(catalog)
    ensures Split('\n', CompactSchema(catalog)) == SchemaLines(catalog)
    ensures forall i :: 0 <= i < |catalog| ==>
      Split('\n', CompactSchema(catalog))[i] == RenderLine(catalog[i])
  {
    var lines := SchemaLines(catalog);
    forall i | 0 <= i < |lines| ensures '\n' !in lines[i] {
      LineHasNoBreak(catalog[i]);
    }
    SplitJoin('\n', lines);
  }

  /** `get_compact_schema` of the script variant: a loop appending one line
      per table to `schema_lines`, then a join. It renders the same text as
      the generator variant. */
  method CompactSchemaLoop(catalog: Catalog) returns (text: string)
    ensures text == CompactSchema(catalog)
  {
    var schemaLines: seq<string> := [];
    for i := 0 to |catalog|
      invariant |schemaLines| == i
      invariant forall k :: 0 <= k < i ==> schemaLines[k] == RenderLine(catalog[k])
    {
      var table := catalog[i];
      var colNames := ColumnNames(table.columns);
      schemaLines := schemaLines + ["- " + table.name + ": " + Join(", ", colNames)];
    }
    assert schemaLines == SchemaLines(catalog);
    text := Join("\n", schemaLines);
  }
}
