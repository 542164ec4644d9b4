/**
 * The schema mutation of the timestampable behavior (`modifyTable`): up to
 * three TIMESTAMP columns are added to the table, each only when its switch
 * is on and the table lacks a column of that name, at the front of the list
 * or at its end according to `first`.
 */
module Mutator {
  import opened Wrappers
  import opened Config
  import opened Schema

  /** The column definition built for a field, with the dialect overrides applied. */
  function FieldSpec(p: Parameters, db: Option<Database>, f: Field): (c: ColumnSpec)
    ensures c.name == ColumnName(p, f) && c.sqlType == "TIMESTAMP"
  {
    var plain := ColumnSpec(ColumnName(p, f), "TIMESTAMP", None, None);
    match f
    case Create =>
      if IsMySql(db) then plain.(required := Some(true), defaultExpr := Some(ZeroTimestamp)) else plain
    case Update =>
      var c := if IsMySql(db)
        then plain.(required := Some(true), defaultExpr := Some(CurrentTimestampOnUpdate))
        else plain;
      if IsPgSql(db) then c.(defaultExpr := Some(CurrentTimestamp)) else c
    case Delete =>
      if IsMySql(db) then plain.(required := Some(true), defaultExpr := Some(ZeroTimestamp)) else plain
  }

  /** The dialect overrides, field by field. */
  lemma FieldSpecByDialect(p: Parameters, db: Option<Database>, f: Field)
    ensures IsMySql(db) ==> FieldSpec(p, db, f).required == Some(true)
    ensures IsMySql(db) && f != Update ==> FieldSpec(p, db, f).defaultExpr == Some(ZeroTimestamp)
    ensures IsMySql(db) && f == Update ==> FieldSpec(p, db, f).defaultExpr == Some(CurrentTimestampOnUpdate)
    ensures IsPgSql(db) && f == Update ==> FieldSpec(p, db, f) == ColumnSpec(p.updateColumn, "TIMESTAMP", None, Some(CurrentTimestamp))
    ensures Sql(ZeroTimestamp) == "'0000-00-00 00:00:00'"
    ensures Sql(CurrentTimestampOnUpdate) == "CURRENT_TIMESTAMP ON UPDATE CURRENT_TIMESTAMP"
    ensures Sql(CurrentTimestamp) == "current_timestamp"
    ensures !IsMySql(db) && !(IsPgSql(db) && f == Update) ==>
      FieldSpec(p, db, f) == ColumnSpec(ColumnName(p, f), "TIMESTAMP", None, None)
  {
  }

  /** The definitions the behavior builds, one per field. */
  datatype Definitions = Definitions(create: ColumnSpec, update: ColumnSpec, delete: ColumnSpec)
  {
    function Of(f: Field): ColumnSpec
    {
      match f
      case Create => create
      case Update => update
      case Delete => delete
    }
  }

  /** Each definition carries its field's configured column name. */
  predicate NamedAfter(p: Parameters, d: Definitions)
  {
    d.create.name == p.createColumn && d.update.name == p.updateColumn && d.delete.name == p.deleteColumn
  }

  /** The definitions `modifyTable` builds for the table's platform. */
  function FieldDefinitions(p: Parameters, db: Option<Database>): (d: Definitions)
    ensures NamedAfter(p, d)
    ensures d.create.sqlType == "TIMESTAMP" && d.update.sqlType == "TIMESTAMP" && d.delete.sqlType == "TIMESTAMP"
  {
    Definitions(FieldSpec(p, db, Create), FieldSpec(p, db, Update), FieldSpec(p, db, Delete))
  }

  /** A field contributes a column: its switch is on and no column has its name yet. */
  predicate Needed(p: Parameters, cols: seq<ColumnSpec>, f: Field)
  {
    Enabled(p, f) && ColumnName(p, f) !in Names(cols)
  }

  /** One step of the field loop. */
  function ApplyField(p: Parameters, d: Definitions, cols: seq<ColumnSpec>, f: Field): seq<ColumnSpec>
  {
    if Needed(p, cols, f) then Insert(cols, d.Of(f), p.first) else cols
  }

  /** The field loop run over `fs`, first element first. */
  function ApplyFields(p: Parameters, d: Definitions, cols: seq<ColumnSpec>, fs: seq<Field>): seq<ColumnSpec>
    decreases |fs|
  {
    if fs == [] then cols
    else ApplyField(p, d, ApplyFields(p, d, cols, fs[..|fs| - 1]), fs[|fs| - 1])
  }

  /** The fields in the opposite order. */
  function Reversed(fs: seq<Field>): (r: seq<Field>)
    ensures |r| == |fs|
    ensures forall i :: 0 <= i < |fs| ==> r[i] == fs[|fs| - 1 - i]
  {
    if fs == [] then [] else Reversed(fs[1..]) + [fs[0]]
  }

  /** The order in which `modifyTable` visits the fields: create, update, delete, or the reverse with `first`. */
  function FieldOrder(first: bool): (r: seq<Field>)
    ensures r == if first then [Delete, Update, Create] else [Create, Update, Delete]
  {
    if first then Reversed(Fields) else Fields
  }

  /** The column list `modifyTable` leaves behind. */
  function ModifiedColumns(p: Parameters, db: Option<Database>, cols: seq<ColumnSpec>): seq<ColumnSpec>
  {
    ApplyFields(p, FieldDefinitions(p, db), cols, FieldOrder(p.first))
  }

  /** One pass of `modifyTable`'s loop: add the field's column when its switch is on and the table lacks it. */
  method VisitField(table: Table, p: Parameters, f: Field)
    modifies table
    ensures table.columns == ApplyField(p, FieldDefinitions(p, table.database), old(table.columns), f)
  {
    var db := table.database;
    match f {
      case Create =>
        if WithCreatedAt(p) && !table.HasColumn(p.createColumn) {
          var def := ColumnSpec(p.createColumn, "TIMESTAMP", None, None);
          if IsMySql(db) {
            def := def.(required := Some(true), defaultExpr := Some(ZeroTimestamp));
          }
          table.AddColumn(def, p.first);
        }
      case Update =>
        if WithUpdatedAt(p) && !table.HasColumn(p.updateColumn) {
          var def := ColumnSpec(p.updateColumn, "TIMESTAMP", None, None);
          if IsMySql(db) {
            def := def.(required := Some(true), defaultExpr := Some(CurrentTimestampOnUpdate));
          }
          if IsPgSql(db) {
            def := def.(defaultExpr := Some(CurrentTimestamp));
          }
          table.AddColumn(def, p.first);
        }
      case Delete =>
        if WithDeletedAt(p) && !table.HasColumn(p.deleteColumn) {
          var def := ColumnSpec(p.deleteColumn, "TIMESTAMP", None, None);
          if IsMySql(db) {
            def := def.(required := Some(true), defaultExpr := Some(ZeroTimestamp));
          }
          table.AddColumn(def, p.first);
        }
    }
  }

  /** `modifyTable`: visit the fields and add each needed column to the table. */
  method ModifyTable(table: Table, p: Parameters)
    modifies table
    ensures table.columns == ModifiedColumns(p, table.database, old(table.columns))
  {
    ghost var defs := FieldDefinitions(p, table.database);
    var fields := Fields;
    if p.first {
      fields := Reversed(fields);
    }
    for i := 0 to |fields|
      invariant table.columns == ApplyFields(p, defs, old(table.columns), fields[..i])
    {
      assert fields[..i + 1][..i] == fields[..i];
      VisitField(table, p, fields[i]);
    }
    assert fields[..|fields|] == fields;
  }

  /** Every enabled field among `fs` already has a column of its name. */
  predicate Covered(p: Parameters, cols: seq<ColumnSpec>, fs: seq<Field>)
  {
    forall i :: 0 <= i < |fs| && Enabled(p, fs[i]) ==> ColumnName(p, fs[i]) in Names(cols)
  }

  /** The field loop only ever adds names. */
  lemma {:induction false} ApplyFieldsKeepsNames(p: Parameters, d: Definitions, cols: seq<ColumnSpec>, fs: seq<Field>)
    ensures Names(cols) <= Names(ApplyFields(p, d, cols, fs))
  {
    if fs != [] {
      var init := fs[..|fs| - 1];
      ApplyFieldsKeepsNames(p, d, cols, init);
      NamesOfInsert(ApplyFields(p, d, cols, init), d.Of(fs[|fs| - 1]), p.first);
    }
  }

  /** After the field loop, every enabled field it visited has a column of its name. */
  lemma {:induction false} ApplyFieldsCovers(p: Parameters, d: Definitions, cols: seq<ColumnSpec>, fs: seq<Field>)
    requires NamedAfter(p, d)
    ensures Covered(p, ApplyFields(p, d, cols, fs), fs)
  {
    if fs != [] {
      var init, f := fs[..|fs| - 1], fs[|fs| - 1];
      var r0 := ApplyFields(p, d, cols, init);
      var r := ApplyFields(p, d, cols, fs);
      ApplyFieldsCovers(p, d, cols, init);
      NamesOfInsert(r0, d.Of(f), p.first);
      assert Names(r0) <= Names(r);
      assert Enabled(p, f) ==> ColumnName(p, f) in Names(r) by {
        match f
        case Create =>
        case Update =>
        case Delete =>
      }
      forall i | 0 <= i < |fs| && Enabled(p, fs[i])
        ensures ColumnName(p, fs[i]) in Names(r)
      {
        if i < |init| {
          assert fs[i] == init[i];
        }
      }
    }
  }

  /** The field loop leaves a table alone when every enabled field already has its column. */
  lemma {:induction false} ApplyFieldsSkipsCovered(p: Parameters, d: Definitions, cols: seq<ColumnSpec>, fs: seq<Field>)
    requires Covered(p, cols, fs)
    ensures ApplyFields(p, d, cols, fs) == cols
  {
    if fs != [] {
      var init := fs[..|fs| - 1];
      assert Covered(p, cols, init) by {
        forall i | 0 <= i < |init| ensures init[i] == fs[i] { }
      }
      ApplyFieldsSkipsCovered(p, d, cols, init);
      assert !Needed(p, cols, fs[|fs| - 1]);
    }
  }

  /** Running `modifyTable` on its own output changes nothing. */
  lemma ModifyTableIdempotent(p: Parameters, db: Option<Database>, cols: seq<ColumnSpec>)
    ensures ModifiedColumns(p, db, ModifiedColumns(p, db, cols)) == ModifiedColumns(p, db, cols)
  {
    var d := FieldDefinitions(p, db);
    ApplyFieldsCovers(p, d, cols, FieldOrder(p.first));
    ApplyFieldsSkipsCovered(p, d, ModifiedColumns(p, db, cols), FieldOrder(p.first));
  }

  /** The original list is still there as one block: at the end when inserting at the front, at the start otherwise. */
  predicate KeepsBlock(cols: seq<ColumnSpec>, r: seq<ColumnSpec>, atFront: bool)
  {
    |cols| <= |r| && if atFront then r[|r| - |cols|..] == cols else r[..|cols|] == cols
  }

  /** The columns outside the original block. */
  function AddedPart(cols: seq<ColumnSpec>, r: seq<ColumnSpec>, atFront: bool): seq<ColumnSpec>
    requires |cols| <= |r|
  {
    if atFront then r[..|r| - |cols|] else r[|cols|..]
  }

  /** Every added column has a name the original list lacks and no other added column has. */
  predicate FreshDistinct(cols: seq<ColumnSpec>, added: seq<ColumnSpec>)
  {
    (forall k :: 0 <= k < |added| ==> added[k].name !in Names(cols))
    && (forall j, k :: 0 <= j < k < |added| ==> added[j].name != added[k].name)
  }

  /** The definitions of the enabled fields. */
  function EnabledDefinitions(p: Parameters, d: Definitions): set<ColumnSpec>
  {
    (if WithCreatedAt(p) then {d.create} else {})
    + (if WithUpdatedAt(p) then {d.update} else {})
    + (if WithDeletedAt(p) then {d.delete} else {})
  }

  /** Every added column is the definition of an enabled field. */
  predicate OnlyEnabledDefinitions(p: Parameters, d: Definitions, added: seq<ColumnSpec>)
  {
    forall k :: 0 <= k < |added| ==> added[k] in EnabledDefinitions(p, d)
  }

  lemma FreshDistinctExtend(cols: seq<ColumnSpec>, r0: seq<ColumnSpec>, a0: seq<ColumnSpec>, s: ColumnSpec)
    requires FreshDistinct(cols, a0)
    requires forall k :: 0 <= k < |a0| ==> a0[k] in r0
    requires Names(cols) <= Names(r0) && s.name !in Names(r0)
    ensures FreshDistinct(cols, [s] + a0) && FreshDistinct(cols, a0 + [s])
  {
    assert forall k :: 0 <= k < |a0| ==> a0[k].name in Names(r0);
  }

  /** Inserting a column whose name is new keeps the original block and the freshness of the added part. */
  lemma InsertKeepsBlock(cols: seq<ColumnSpec>, r0: seq<ColumnSpec>, s: ColumnSpec, atFront: bool)
    requires KeepsBlock(cols, r0, atFront) && FreshDistinct(cols, AddedPart(cols, r0, atFront))
    requires Names(cols) <= Names(r0) && s.name !in Names(r0)
    ensures var r := Insert(r0, s, atFront);
      KeepsBlock(cols, r, atFront) && FreshDistinct(cols, AddedPart(cols, r, atFront))
  {
    var a0 := AddedPart(cols, r0, atFront);
    var r := Insert(r0, s, atFront);
    var a := AddedPart(cols, r, atFront);
    if atFront {
      assert r[|r| - |cols|..] == r0[|r0| - |cols|..];
      assert a == [s] + a0;
      assert forall k :: 0 <= k < |a0| ==> a0[k] == r0[k];
    } else {
      assert r[..|cols|] == r0[..|cols|];
      assert a == a0 + [s];
      assert forall k :: 0 <= k < |a0| ==> a0[k] == r0[|cols| + k];
    }
    FreshDistinctExtend(cols, r0, a0, s);
  }

  /** The field loop keeps the original columns in order and adds only fresh, pairwise distinct names. */
  lemma {:induction false} ApplyFieldsKeepsBlock(p: Parameters, d: Definitions, cols: seq<ColumnSpec>, fs: seq<Field>)
    requires NamedAfter(p, d)
    ensures var r := ApplyFields(p, d, cols, fs);
      KeepsBlock(cols, r, p.first) && FreshDistinct(cols, AddedPart(cols, r, p.first))
      && |r| <= |cols| + |fs|
  {
    if fs == [] {
      assert AddedPart(cols, cols, p.first) == [];
    } else {
      var init, f := fs[..|fs| - 1], fs[|fs| - 1];
      var r0 := ApplyFields(p, d, cols, init);
      ApplyFieldsKeepsBlock(p, d, cols, init);
      ApplyFieldsKeepsNames(p, d, cols, init);
      if Needed(p, r0, f) {
        assert d.Of(f).name == ColumnName(p, f) by {
          match f
          case Create =>
          case Update =>
          case Delete =>
        }
        InsertKeepsBlock(cols, r0, d.Of(f), p.first);
      }
    }
  }

  /** The field loop never shortens the list. */
  lemma {:induction false} ApplyFieldsGrows(p: Parameters, d: Definitions, cols: seq<ColumnSpec>, fs: seq<Field>)
    ensures |cols| <= |ApplyFields(p, d, cols, fs)|
  {
    if fs != [] {
      ApplyFieldsGrows(p, d, cols, fs[..|fs| - 1]);
    }
  }

  /** Inserting an enabled definition keeps the added part made of enabled definitions. */
  lemma OnlyEnabledExtend(p: Parameters, d: Definitions, cols: seq<ColumnSpec>, r0: seq<ColumnSpec>, s: ColumnSpec)
    requires |cols| <= |r0| && s in EnabledDefinitions(p, d)
    requires OnlyEnabledDefinitions(p, d, AddedPart(cols, r0, p.first))
    ensures OnlyEnabledDefinitions(p, d, AddedPart(cols, Insert(r0, s, p.first), p.first))
  {
    var a0 := AddedPart(cols, r0, p.first);
    var a := AddedPart(cols, Insert(r0, s, p.first), p.first);
    assert a == if p.first then [s] + a0 else a0 + [s];
    forall k | 0 <= k < |a| ensures a[k] in EnabledDefinitions(p, d) {
      if p.first && k > 0 {
        assert a[k] == a0[k - 1];
      } else if !p.first && k < |a0| {
        assert a[k] == a0[k];
      }
    }
  }

  /** Every column the field loop adds is the definition of an enabled field. */
  lemma {:induction false} ApplyFieldsOnlyEnabled(p: Parameters, d: Definitions, cols: seq<ColumnSpec>, fs: seq<Field>)
    ensures var r := ApplyFields(p, d, cols, fs);
      |cols| <= |r| && OnlyEnabledDefinitions(p, d, AddedPart(cols, r, p.first))
  {
    ApplyFieldsGrows(p, d, cols, fs);
    if fs == [] {
      assert AddedPart(cols, cols, p.first) == [];
    } else {
      var init, f := fs[..|fs| - 1], fs[|fs| - 1];
      var r0 := ApplyFields(p, d, cols, init);
      ApplyFieldsOnlyEnabled(p, d, cols, init);
      if Needed(p, r0, f) {
        assert d.Of(f) in EnabledDefinitions(p, d) by {
          match f
          case Create =>
          case Update =>
          case Delete =>
        }
        OnlyEnabledExtend(p, d, cols, r0, d.Of(f));
      }
    }
  }

  /** What `modifyTable` does to any column list, whatever the parameters and the platform. */
  lemma ModifyTableAddsOnlyFreshEnabledColumns(p: Parameters, db: Option<Database>, cols: seq<ColumnSpec>)
    ensures var r := ModifiedColumns(p, db, cols);
      KeepsBlock(cols, r, p.first) && |r| <= |cols| + 3
      && FreshDistinct(cols, AddedPart(cols, r, p.first))
      && OnlyEnabledDefinitions(p, FieldDefinitions(p, db), AddedPart(cols, r, p.first))
  {
    var fs := FieldOrder(p.first);
    ApplyFieldsKeepsBlock(p, FieldDefinitions(p, db), cols, fs);
    ApplyFieldsOnlyEnabled(p, FieldDefinitions(p, db), cols, fs);
  }

  /** The dialect attributes of every column `modifyTable` adds. */
  lemma AddedColumnsByDialect(p: Parameters, db: Option<Database>, cols: seq<ColumnSpec>)
    ensures var r := ModifiedColumns(p, db, cols);
      |cols| <= |r| &&
      forall k :: 0 <= k < |AddedPart(cols, r, p.first)| ==>
        var c := AddedPart(cols, r, p.first)[k];
        c.sqlType == "TIMESTAMP"
        && (IsMySql(db) ==>
              c.required == Some(true)
              && c.defaultExpr == Some(if c == FieldSpec(p, db, Update) then CurrentTimestampOnUpdate else ZeroTimestamp))
        && (!IsMySql(db) ==> c.required == None)
        && (!IsPgSql(db) && !IsMySql(db) ==> c.defaultExpr == None)
        && (IsPgSql(db) ==> (c.defaultExpr.Some? <==> c == FieldSpec(p, db, Update)))
  {
    ModifyTableAddsOnlyFreshEnabledColumns(p, db, cols);
    var r := ModifiedColumns(p, db, cols);
    var a := AddedPart(cols, r, p.first);
    FieldSpecByDialect(p, db, Create);
    FieldSpecByDialect(p, db, Update);
    FieldSpecByDialect(p, db, Delete);
    forall k | 0 <= k < |a|
      ensures a[k].sqlType == "TIMESTAMP"
      ensures IsMySql(db) ==>
        a[k].required == Some(true)
        && a[k].defaultExpr == Some(if a[k] == FieldSpec(p, db, Update) then CurrentTimestampOnUpdate else ZeroTimestamp)
      ensures !IsMySql(db) ==> a[k].required == None
      ensures !IsPgSql(db) && !IsMySql(db) ==> a[k].defaultExpr == None
      ensures IsPgSql(db) ==> (a[k].defaultExpr.Some? <==> a[k] == FieldSpec(p, db, Update))
    {
      assert a[k] in EnabledDefinitions(p, FieldDefinitions(p, db));
    }
  }

  /** The configured names of the enabled fields are pairwise different. */
  predicate DistinctEnabledNames(p: Parameters)
  {
    (WithCreatedAt(p) && WithUpdatedAt(p) ==> p.createColumn != p.updateColumn)
    && (WithCreatedAt(p) && WithDeletedAt(p) ==> p.createColumn != p.deleteColumn)
    && (WithUpdatedAt(p) && WithDeletedAt(p) ==> p.updateColumn != p.deleteColumn)
  }

  /** The definition of a field when it is needed, and nothing otherwise. */
  function Contribution(p: Parameters, d: Definitions, cols: seq<ColumnSpec>, f: Field): seq<ColumnSpec>
  {
    if Needed(p, cols, f) then [d.Of(f)] else []
  }

  /** The columns a table lacks: create, update, delete, read left to right. */
  function Contributed(p: Parameters, d: Definitions, cols: seq<ColumnSpec>): seq<ColumnSpec>
  {
    Contribution(p, d, cols, Create) + Contribution(p, d, cols, Update) + Contribution(p, d, cols, Delete)
  }

  /** The field loop over `fs` followed by one more field. */
  lemma ApplyFieldsSnoc(p: Parameters, d: Definitions, cols: seq<ColumnSpec>, fs: seq<Field>, f: Field)
    ensures ApplyFields(p, d, cols, fs + [f]) == ApplyField(p, d, ApplyFields(p, d, cols, fs), f)
  {
    assert (fs + [f])[..|fs|] == fs;
  }

  lemma ApplyThreeFields(p: Parameters, d: Definitions, cols: seq<ColumnSpec>, f1: Field, f2: Field, f3: Field)
    ensures ApplyFields(p, d, cols, [f1, f2, f3])
         == ApplyField(p, d, ApplyField(p, d, ApplyField(p, d, cols, f1), f2), f3)
  {
    ApplyFieldsSnoc(p, d, cols, [], f1);
    assert [] + [f1] == [f1];
    ApplyFieldsSnoc(p, d, cols, [f1], f2);
    assert [f1] + [f2] == [f1, f2];
    ApplyFieldsSnoc(p, d, cols, [f1, f2], f3);
    assert [f1, f2] + [f3] == [f1, f2, f3];
  }

  /** With distinct names, adding one field's column does not change whether another field is needed. */
  lemma NeededAfterOther(p: Parameters, d: Definitions, cols: seq<ColumnSpec>, f: Field, g: Field)
    requires NamedAfter(p, d) && DistinctEnabledNames(p) && f != g
    ensures Needed(p, ApplyField(p, d, cols, f), g) == Needed(p, cols, g)
  {
    if Needed(p, cols, f) {
      NamesOfInsert(cols, d.Of(f), p.first);
    }
  }

  /** A step whose need is the same as on `base` contributes what it would contribute to `base`. */
  lemma StepAsOnBase(p: Parameters, d: Definitions, cols: seq<ColumnSpec>, base: seq<ColumnSpec>, f: Field)
    requires Needed(p, cols, f) == Needed(p, base, f)
    ensures ApplyField(p, d, cols, f)
         == if p.first then Contribution(p, d, base, f) + cols else cols + Contribution(p, d, base, f)
  {
  }

  /** Two steps on distinct fields, each contributing what it would contribute to the original list. */
  lemma TwoSteps(p: Parameters, d: Definitions, cols: seq<ColumnSpec>, f: Field, g: Field)
    requires NamedAfter(p, d) && DistinctEnabledNames(p) && f != g
    ensures var c := ApplyField(p, d, ApplyField(p, d, cols, f), g);
      c == if p.first then Contribution(p, d, cols, g) + (Contribution(p, d, cols, f) + cols)
           else (cols + Contribution(p, d, cols, f)) + Contribution(p, d, cols, g)
  {
    StepAsOnBase(p, d, cols, cols, f);
    NeededAfterOther(p, d, cols, f, g);
    StepAsOnBase(p, d, ApplyField(p, d, cols, f), cols, g);
  }

  /** A third step on a field distinct from the first two. */
  lemma ThirdStep(p: Parameters, d: Definitions, cols: seq<ColumnSpec>, f: Field, g: Field, h: Field)
    requires NamedAfter(p, d) && DistinctEnabledNames(p) && f != g && f != h && g != h
    ensures var c1 := ApplyField(p, d, cols, f);
      var c2 := ApplyField(p, d, c1, g);
      ApplyField(p, d, c2, h)
        == if p.first then Contribution(p, d, cols, h) + c2 else c2 + Contribution(p, d, cols, h)
  {
    var c1 := ApplyField(p, d, cols, f);
    NeededAfterOther(p, d, cols, f, h);
    NeededAfterOther(p, d, c1, g, h);
    StepAsOnBase(p, d, ApplyField(p, d, c1, g), cols, h);
  }

  lemma ConcatAssoc(a: seq<ColumnSpec>, b: seq<ColumnSpec>, c: seq<ColumnSpec>, cols: seq<ColumnSpec>)
    ensures a + (b + (c + cols)) == (a + b + c) + cols
    ensures ((cols + a) + b) + c == cols + (a + b + c)
  {
  }

  /** Three steps on distinct fields: each contributes what it would contribute to the original list. */
  lemma ThreeSteps(p: Parameters, d: Definitions, cols: seq<ColumnSpec>, f: Field, g: Field, h: Field)
    requires NamedAfter(p, d) && DistinctEnabledNames(p) && f != g && f != h && g != h
    ensures var cf, cg, ch := Contribution(p, d, cols, f), Contribution(p, d, cols, g), Contribution(p, d, cols, h);
      ApplyFields(p, d, cols, [f, g, h]) == if p.first then (ch + cg + cf) + cols else cols + (cf + cg + ch)
  {
    ApplyThreeFields(p, d, cols, f, g, h);
    TwoSteps(p, d, cols, f, g);
    ThirdStep(p, d, cols, f, g, h);
    ConcatAssoc(Contribution(p, d, cols, h), Contribution(p, d, cols, g), Contribution(p, d, cols, f), cols);
    ConcatAssoc(Contribution(p, d, cols, f), Contribution(p, d, cols, g), Contribution(p, d, cols, h), cols);
  }

  /**
   * The net effect of `modifyTable` when the enabled names differ: the columns
   * the table lacks, in create, update, delete order, are appended, or with
   * `first` set (fields visited in reverse, each put at the front) they open
   * the table in that same order.
   */
  lemma ModifiedColumnsClosedForm(p: Parameters, db: Option<Database>, cols: seq<ColumnSpec>)
    requires DistinctEnabledNames(p)
    ensures var added := Contributed(p, FieldDefinitions(p, db), cols);
      ModifiedColumns(p, db, cols) == if p.first then added + cols else cols + added
  {
    if p.first {
      ThreeSteps(p, FieldDefinitions(p, db), cols, Delete, Update, Create);
    } else {
      ThreeSteps(p, FieldDefinitions(p, db), cols, Create, Update, Delete);
    }
  }

  /** With distinct names the table grows by exactly the number of enabled fields it lacked. */
  lemma ModifyTableCount(p: Parameters, db: Option<Database>, cols: seq<ColumnSpec>)
    requires DistinctEnabledNames(p)
    ensures |ModifiedColumns(p, db, cols)| == |cols|
      + (if Needed(p, cols, Create) then 1 else 0)
      + (if Needed(p, cols, Update) then 1 else 0)
      + (if Needed(p, cols, Delete) then 1 else 0)
  {
    ModifiedColumnsClosedForm(p, db, cols);
  }

  /** All three fields enabled and absent: with or without `first`, they read create, update, delete. */
  lemma AllFieldsOrdering(p: Parameters, db: Option<Database>, cols: seq<ColumnSpec>)
    requires WithCreatedAt(p) && WithUpdatedAt(p) && WithDeletedAt(p)
    requires p.createColumn != p.updateColumn && p.createColumn != p.deleteColumn && p.updateColumn != p.deleteColumn
    requires p.createColumn !in Names(cols) && p.updateColumn !in Names(cols) && p.deleteColumn !in Names(cols)
    ensures var added := [FieldSpec(p, db, Create), FieldSpec(p, db, Update), FieldSpec(p, db, Delete)];
      ModifiedColumns(p, db, cols) == if p.first then added + cols else cols + added
  {
    ModifiedColumnsClosedForm(p, db, cols);
    assert Contributed(p, FieldDefinitions(p, db), cols)
        == [FieldSpec(p, db, Create), FieldSpec(p, db, Update), FieldSpec(p, db, Delete)];
  }

  /** The default parameters add `created_at` then `updated_at` at the end, and never `deleted_at`. */
  lemma DefaultsAddCreatedAndUpdated(db: Option<Database>, cols: seq<ColumnSpec>)
    requires "created_at" !in Names(cols) && "updated_at" !in Names(cols)
    ensures ModifiedColumns(Defaults, db, cols)
         == cols + [FieldSpec(Defaults, db, Create), FieldSpec(Defaults, db, Update)]
    ensures ModifiedColumns(Defaults, db, [])
         == [FieldSpec(Defaults, db, Create), FieldSpec(Defaults, db, Update)]
  {
    ModifiedColumnsClosedForm(Defaults, db, cols);
    ModifiedColumnsClosedForm(Defaults, db, []);
  }

  /** Only the delete switch on: exactly one column, the delete column, is added when missing. */
  lemma OnlyDeleteEnabled(p: Parameters, db: Option<Database>, cols: seq<ColumnSpec>)
    requires p.disableCreatedAt && p.disableUpdatedAt && !p.disableDeletedAt
    ensures ModifiedColumns(p, db, cols)
         == if p.deleteColumn in Names(cols) then cols else Insert(cols, FieldSpec(p, db, Delete), p.first)
  {
    var d := FieldDefinitions(p, db);
    ModifiedColumnsClosedForm(p, db, cols);
    assert Contribution(p, d, cols, Create) == [] && Contribution(p, d, cols, Update) == [];
    assert Contributed(p, d, cols) == Contribution(p, d, cols, Delete);
  }

  /**
   * When the create and update columns share a name, the field visited first
   * wins: without `first` the create definition is added, with `first` the
   * update definition is.
   */
  lemma SharedCreateUpdateName(p: Parameters, db: Option<Database>, cols: seq<ColumnSpec>)
    requires WithCreatedAt(p) && WithUpdatedAt(p) && !WithDeletedAt(p)
    requires p.createColumn == p.updateColumn && p.createColumn !in Names(cols)
    ensures ModifiedColumns(p, db, cols)
         == if p.first then [FieldSpec(p, db, Update)] + cols else cols + [FieldSpec(p, db, Create)]
  {
    var d := FieldDefinitions(p, db);
    if p.first {
      ApplyThreeFields(p, d, cols, Delete, Update, Create);
      NamesOfInsert(cols, d.update, true);
    } else {
      ApplyThreeFields(p, d, cols, Create, Update, Delete);
      NamesOfInsert(cols, d.create, false);
    }
  }
}
