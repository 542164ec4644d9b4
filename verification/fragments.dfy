/**
 * The code fragments the timestampable behavior contributes to the generated
 * classes: the pre-insert and pre-update hook rules, the extra object method
 * and the extra query methods.  A fragment is described by its kind and by
 * the column constant it references; an empty sequence is the empty fragment.
 */
module Fragments {
  import opened Wrappers
  import opened Config
  import opened Schema
  import opened Mutator

  /**
   * What the class builder supplies: the generated constant and PHP name of a
   * column (given by its name), and the generated class names.
   */
  datatype Builder = Builder(
    columnConstant: string -> string,
    columnPhpName: string -> string,
    objectClassName: string,
    queryClassName: string)

  /** The generated constant of the column a field is configured to use. */
  function ColumnConstant(p: Parameters, f: Field, b: Builder): string
  {
    b.columnConstant(ColumnName(p, f))
  }

  /** The generated setter of the column a field is configured to use. */
  function ColumnSetter(p: Parameters, f: Field, b: Builder): string
  {
    "set" + b.columnPhpName(ColumnName(p, f))
  }

  /**
   * The hooks test update tracking first and stop there when it is off.
   * Otherwise they test only for a missing database: a bound database is
   * asked for its platform's type without a check, so it must have a platform.
   */
  predicate HooksDefined(p: Parameters, db: Option<Database>)
  {
    !WithUpdatedAt(p) || db.None? || db.value.platform.Some?
  }

  /** Pre-insert rule: if the column was not set explicitly, set it to the current time. */
  datatype InsertRule = StampIfUnset(field: Field, constant: string, setter: string)

  /** Pre-update rule: if the record has changes and the column was not set explicitly, set it to the current time. */
  datatype UpdateRule = StampIfChanged(constant: string, setter: string)

  /** Object method `keepUpdateDateUnchanged`: mark the update column as modified, return the object. */
  datatype ObjectMethod = KeepUpdateDateUnchanged(constant: string, objectClass: string)

  /** What a query method does with its column. */
  datatype QueryOp =
    | RecentWithinDays(defaultDays: nat)  // column >= now - days
    | OrderDescending
    | OrderAscending

  /** A chainable query method on one of the behavior's columns. */
  datatype QueryMethod = QueryMethod(name: string, field: Field, op: QueryOp, constant: string, queryClass: string)

  /** The fields a sequence of insert rules stamps. */
  function StampedFields(r: seq<InsertRule>): set<Field>
  {
    set rule | rule in r :: rule.field
  }

  /** `preUpdate` */
  function PreUpdate(p: Parameters, db: Option<Database>, b: Builder): (r: seq<UpdateRule>)
    requires HooksDefined(p, db)
    ensures r == [] <==> !WithUpdatedAt(p) || IsMySql(db)
    ensures forall rule :: rule in r ==>
      rule == StampIfChanged(ColumnConstant(p, Update, b), ColumnSetter(p, Update, b))
    ensures |r| <= 1
  {
    if WithUpdatedAt(p) && (db.None? || db.value.platform.value.databaseType != "mysql") then
      [StampIfChanged(ColumnConstant(p, Update, b), ColumnSetter(p, Update, b))]
    else
      []
  }

  /** `preInsert` */
  function PreInsert(p: Parameters, db: Option<Database>, b: Builder): (r: seq<InsertRule>)
    requires HooksDefined(p, db)
    ensures Create in StampedFields(r) <==> WithCreatedAt(p)
    ensures Update in StampedFields(r) <==> WithUpdatedAt(p) && !IsMySql(db)
    ensures Delete !in StampedFields(r)
    ensures forall i, j :: 0 <= i < j < |r| ==> r[i].field == Create && r[j].field == Update
    ensures forall rule :: rule in r ==>
      rule.constant == ColumnConstant(p, rule.field, b) && rule.setter == ColumnSetter(p, rule.field, b)
  {
    var script := if WithCreatedAt(p) then
      [StampIfUnset(Create, ColumnConstant(p, Create, b), ColumnSetter(p, Create, b))]
    else
      [];
    if WithUpdatedAt(p) && (db.None? || db.value.platform.value.databaseType != "mysql") then
      script + [StampIfUnset(Update, ColumnConstant(p, Update, b), ColumnSetter(p, Update, b))]
    else
      script
  }

  /** `objectMethods` */
  function ObjectMethods(p: Parameters, b: Builder): (r: seq<ObjectMethod>)
    ensures r == [] <==> !WithUpdatedAt(p)
    ensures forall m :: m in r ==>
      m == KeepUpdateDateUnchanged(ColumnConstant(p, Update, b), b.objectClassName)
    ensures |r| <= 1
  {
    if !WithUpdatedAt(p) then
      []
    else
      [KeepUpdateDateUnchanged(ColumnConstant(p, Update, b), b.objectClassName)]
  }

  /** The names of the query methods the behavior adds. */
  function QueryMethodNames(r: seq<QueryMethod>): set<string>
  {
    set m | m in r :: m.name
  }

  const UpdateQueryMethodNames: set<string> := {"recentlyUpdated", "lastUpdatedFirst", "firstUpdatedFirst"}
  const CreateQueryMethodNames: set<string> := {"lastCreatedFirst", "recentlyCreated", "firstCreatedFirst"}

  /**
   * The operation each query method's documentation promises, read off its
   * name: `recently*` keeps the rows stamped within the last days (7 by
   * default), `last*First` orders newest first, `first*First` oldest first.
   */
  predicate DoesWhatItsNameSays(m: QueryMethod)
  {
    match m.op
    case RecentWithinDays(days) => days == 7 && m.name in {"recentlyUpdated", "recentlyCreated"}
    case OrderDescending => m.name in {"lastUpdatedFirst", "lastCreatedFirst"}
    case OrderAscending => m.name in {"firstUpdatedFirst", "firstCreatedFirst"}
  }

  /**
   * A query method is generated on its own field's configured column, never
   * on the delete column: the update names on the update column, the create
   * names on the create column. It does what its name says and belongs to
   * the generated query class.
   */
  predicate OnItsColumn(p: Parameters, b: Builder, m: QueryMethod)
  {
    m.field != Delete
    && (m.field == Update <==> m.name in UpdateQueryMethodNames)
    && (m.field == Create <==> m.name in CreateQueryMethodNames)
    && DoesWhatItsNameSays(m)
    && m.constant == ColumnConstant(p, m.field, b)
    && m.queryClass == b.queryClassName
  }

  /** The three query methods on the update column. */
  function UpdateQueryMethods(p: Parameters, b: Builder): (r: seq<QueryMethod>)
    ensures |r| == 3 && QueryMethodNames(r) == UpdateQueryMethodNames
    ensures forall m :: m in r ==>
      m.field == Update && OnItsColumn(p, b, m)
  {
    var c, q := ColumnConstant(p, Update, b), b.queryClassName;
    var r := [ QueryMethod("recentlyUpdated", Update, RecentWithinDays(7), c, q),
               QueryMethod("lastUpdatedFirst", Update, OrderDescending, c, q),
               QueryMethod("firstUpdatedFirst", Update, OrderAscending, c, q) ];
    assert r[0] in r && r[1] in r && r[2] in r;
    r
  }

  /** The three query methods on the create column. */
  function CreateQueryMethods(p: Parameters, b: Builder): (r: seq<QueryMethod>)
    ensures |r| == 3 && QueryMethodNames(r) == CreateQueryMethodNames
    ensures forall m :: m in r ==>
      m.field == Create && OnItsColumn(p, b, m)
  {
    var c, q := ColumnConstant(p, Create, b), b.queryClassName;
    var r := [ QueryMethod("lastCreatedFirst", Create, OrderDescending, c, q),
               QueryMethod("recentlyCreated", Create, RecentWithinDays(7), c, q),
               QueryMethod("firstCreatedFirst", Create, OrderAscending, c, q) ];
    assert r[0] in r && r[1] in r && r[2] in r;
    r
  }

  lemma QueryMethodNamesConcat(a: seq<QueryMethod>, c: seq<QueryMethod>)
    ensures QueryMethodNames(a + c) == QueryMethodNames(a) + QueryMethodNames(c)
  {
    forall n | n in QueryMethodNames(a + c) ensures n in QueryMethodNames(a) + QueryMethodNames(c) {
      var m :| m in a + c && m.name == n;
      assert m in a || m in c;
    }
    forall n | n in QueryMethodNames(a) + QueryMethodNames(c) ensures n in QueryMethodNames(a + c) {
      if n in QueryMethodNames(a) {
        var m :| m in a && m.name == n;
        assert m in a + c;
      } else {
        var m :| m in c && m.name == n;
        assert m in a + c;
      }
    }
  }

  /** `queryMethods` */
  function QueryMethods(p: Parameters, b: Builder): (r: seq<QueryMethod>)
    ensures |r| == (if WithUpdatedAt(p) then 3 else 0) + (if WithCreatedAt(p) then 3 else 0)
    ensures QueryMethodNames(r)
         == (if WithUpdatedAt(p) then UpdateQueryMethodNames else {})
          + (if WithCreatedAt(p) then CreateQueryMethodNames else {})
    ensures forall m :: m in r ==>
      (m.field == Update ==> WithUpdatedAt(p)) && (m.field == Create ==> WithCreatedAt(p)) && OnItsColumn(p, b, m)
  {
    var updated := if WithUpdatedAt(p) then UpdateQueryMethods(p, b) else [];
    var created := if WithCreatedAt(p) then CreateQueryMethods(p, b) else [];
    QueryMethodNamesConcat(updated, created);
    assert forall m :: m in updated + created ==> m in updated || m in created;
    updated + created
  }

  /**
   * On the hooks' domain their MySQL test agrees with the one `FieldSpec`
   * uses: the hooks stamp the update column exactly when the definition
   * `modifyTable` builds for it does not carry MySQL's ON UPDATE default.
   * A column the table already had is left as it was by `modifyTable` and is
   * not covered here.
   */
  lemma UpdateStampedByOneSide(p: Parameters, db: Option<Database>, b: Builder)
    requires HooksDefined(p, db) && WithUpdatedAt(p)
    ensures var onUpdate := FieldSpec(p, db, Update).defaultExpr == Some(CurrentTimestampOnUpdate);
      (Update in StampedFields(PreInsert(p, db, b)) <==> !onUpdate)
      && (PreUpdate(p, db, b) != [] <==> !onUpdate)
  {
    FieldSpecByDialect(p, db, Update);
    if !IsMySql(db) && IsPgSql(db) {
      assert FieldSpec(p, db, Update).defaultExpr == Some(CurrentTimestamp);
    }
  }

  /**
   * With update tracking off the hooks never look at the platform: a bound
   * database without one yields no pre-update rule and only the create rule
   * (when create tracking is on) before insert.
   */
  lemma HooksWithoutPlatform(p: Parameters, b: Builder)
    requires !WithUpdatedAt(p)
    ensures PreUpdate(p, Some(Database(None)), b) == []
    ensures PreInsert(p, Some(Database(None)), b)
         == if WithCreatedAt(p) then [StampIfUnset(Create, ColumnConstant(p, Create, b), ColumnSetter(p, Create, b))] else []
  {
  }

  /** Renaming the update column redirects every update-column fragment to the new column's constant. */
  lemma UpdateFragmentsFollowColumnName(p: Parameters, db: Option<Database>, b: Builder, name: string)
    requires HooksDefined(p, db)
    ensures var p' := p.(updateColumn := name);
      (forall m :: m in QueryMethods(p', b) && m.field == Update ==> m.constant == b.columnConstant(name))
      && (forall m :: m in ObjectMethods(p', b) ==> m.constant == b.columnConstant(name))
      && (forall rule :: rule in PreUpdate(p', db, b) ==> rule.constant == b.columnConstant(name))
      && (forall rule :: rule in PreInsert(p', db, b) && rule.field == Update ==> rule.constant == b.columnConstant(name))
  {
  }
}
