/**
 * The configuration of the timestampable behavior: its parameters with their
 * defaults, the three `withX` switches derived from them, and the platform
 * the table's database is bound to.
 */
module Config {
  import opened Wrappers

  /**
   * The behavior's parameters once the host has merged the user's values over
   * the defaults.  The `disable_*` flags are the already-coerced booleans;
   * `first` is the raw flag that `modifyTable` tests directly.
   */
  datatype Parameters = Parameters(
    createColumn: string,
    updateColumn: string,
    deleteColumn: string,
    first: bool,
    disableCreatedAt: bool,
    disableUpdatedAt: bool,
    disableDeletedAt: bool)

  /** The parameter defaults declared by the behavior. */
  const Defaults: Parameters :=
    Parameters("created_at", "updated_at", "deleted_at", false, false, false, true)

  predicate WithCreatedAt(p: Parameters) { !p.disableCreatedAt }

  predicate WithUpdatedAt(p: Parameters) { !p.disableUpdatedAt }

  predicate WithDeletedAt(p: Parameters) { !p.disableDeletedAt }

  /** The default parameters track creation and update but not deletion. */
  lemma DefaultSwitches()
    ensures WithCreatedAt(Defaults) && WithUpdatedAt(Defaults) && !WithDeletedAt(Defaults)
    ensures Defaults.createColumn == "created_at" && Defaults.updateColumn == "updated_at"
    ensures Defaults.deleteColumn == "deleted_at" && !Defaults.first
  {
  }

  /** The three logical timestamp fields the behavior manages. */
  datatype Field = Create | Update | Delete

  /** The order in which the fields are visited when `first` is not set. */
  const Fields: seq<Field> := [Create, Update, Delete]

  /** The configured column name of a field (`create_column`, `update_column`, `delete_column`). */
  function ColumnName(p: Parameters, f: Field): string
  {
    match f
    case Create => p.createColumn
    case Update => p.updateColumn
    case Delete => p.deleteColumn
  }

  /** The `withX` switch that governs a field. */
  predicate Enabled(p: Parameters, f: Field)
  {
    match f
    case Create => WithCreatedAt(p)
    case Update => WithUpdatedAt(p)
    case Delete => WithDeletedAt(p)
  }

  /** A platform is identified by the database type it reports ("mysql", "pgsql", ...). */
  datatype Platform = Platform(databaseType: string)

  /** The table's owning database, which may not have a platform bound yet. */
  datatype Database = Database(platform: Option<Platform>)

  /** A database is bound, it has a platform, and that platform reports "mysql". */
  predicate IsMySql(db: Option<Database>)
  {
    db.Some? && db.value.platform.Some? && db.value.platform.value.databaseType == "mysql"
  }

  /** A database is bound, it has a platform, and that platform reports "pgsql". */
  predicate IsPgSql(db: Option<Database>)
  {
    db.Some? && db.value.platform.Some? && db.value.platform.value.databaseType == "pgsql"
  }
}
