/** The part of the schema model the behavior talks to: column definitions and a table. */
module Schema {
  import opened Wrappers
  import opened Config

  /**
   * A column's default expression: the three the timestampable behavior uses,
   * or any other SQL expression.
   */
  datatype DefaultExpr =
    | ZeroTimestamp             // MySQL's zero timestamp
    | CurrentTimestampOnUpdate  // MySQL: set on insert and on every update
    | CurrentTimestamp          // PostgreSQL's current time
    | OtherDefault(sql: string)

  /** The SQL text of a default expression. */
  function Sql(e: DefaultExpr): string
  {
    match e
    case ZeroTimestamp => "'0000-00-00 00:00:00'"
    case CurrentTimestampOnUpdate => "CURRENT_TIMESTAMP ON UPDATE CURRENT_TIMESTAMP"
    case CurrentTimestamp => "current_timestamp"
    case OtherDefault(sql) => sql
  }

  /**
   * A column definition as handed to the table: its name, its SQL type, and
   * the `required` and default-expression attributes, each possibly unset.
   */
  datatype ColumnSpec = ColumnSpec(
    name: string,
    sqlType: string,
    required: Option<bool>,
    defaultExpr: Option<DefaultExpr>)

  /** The names of a column list. */
  function Names(cols: seq<ColumnSpec>): set<string>
  {
    set c | c in cols :: c.name
  }

  /** Adding one column, at the front or at the end of the list. */
  function Insert(cols: seq<ColumnSpec>, c: ColumnSpec, atFront: bool): seq<ColumnSpec>
  {
    if atFront then [c] + cols else cols + [c]
  }

  lemma NamesOfInsert(cols: seq<ColumnSpec>, c: ColumnSpec, atFront: bool)
    ensures Names(Insert(cols, c, atFront)) == Names(cols) + {c.name}
  {
    var r := Insert(cols, c, atFront);
    assert c in r;
    forall x | x in cols ensures x in r { }
    forall n | n in Names(r) ensures n in Names(cols) + {c.name} {
      var x :| x in r && x.name == n;
      assert x == c || x in cols;
    }
  }

  /** A table of the schema: an ordered column list and the database it belongs to. */
  class Table {
    var columns: seq<ColumnSpec>
    const database: Option<Database>

    constructor (columns: seq<ColumnSpec>, database: Option<Database>)
      ensures this.columns == columns && this.database == database
    {
      this.columns := columns;
      this.database := database;
    }

    /** Whether the table already has a column of this name. */
    predicate HasColumn(name: string)
      reads this
    {
      name in Names(columns)
    }

    /** Add a column definition, at the front of the list or at its end. */
    method AddColumn(spec: ColumnSpec, atFront: bool)
      modifies this
      ensures columns == Insert(old(columns), spec, atFront)
      ensures Names(columns) == Names(old(columns)) + {spec.name}
    {
      NamesOfInsert(columns, spec, atFront);
      columns := if atFront then [spec] + columns else columns + [spec];
    }
  }
}
