# Timestampable behavior, modelled in Dafny

Propel's `TimestampableBehavior` is a schema behavior attached to one table.
It does two things:

- During the schema build (`modifyTable`) it adds up to three TIMESTAMP columns to the
  table: the create, update and delete columns. A column is added only when its
  `disable_*` switch is off and the table has no column of that name yet. The new
  column goes at the end of the column list, or at the front when `first` is set. On
  MySQL and PostgreSQL the column definitions carry dialect-specific `required` and
  default attributes.
- During class generation it contributes code fragments: pre-insert and pre-update
  hook rules that stamp the columns with the current time, the object method
  `keepUpdateDateUnchanged`, and six query methods (`recentlyUpdated`,
  `lastUpdatedFirst`, `firstUpdatedFirst`, `lastCreatedFirst`, `recentlyCreated`,
  `firstCreatedFirst`).

The model is split into five modules:

- `Wrappers` (wrappers.dfy): `Option`.
- `Config` (config.dfy): the parameters and their defaults, the three `withX` switches,
  the field enumeration, and the database and platform a table may be bound to.
- `Schema` (schema.dfy): column definitions, whose default is one of the three SQL
  expressions the behavior uses or any other expression, and a `Table` class. The class holds a
  mutable, ordered column list and offers `HasColumn` and `AddColumn` (add at the
  front or at the end).
- `Mutator` (mutator.dfy): `ModifyTable` is an imperative method that loops over the
  fields and changes the table in place. It is proved against the function
  `ModifiedColumns`, which folds the single loop step `ApplyField` over the visiting
  order. The lemmas about the function cover non-clobbering, idempotence, preservation
  of the original columns, the dialect attributes, and the exact resulting order.
- `Fragments` (fragments.dfy): the four generators, written as functions. Each returns
  a sequence of abstract fragments; an empty sequence is the empty string. A fragment
  records its kind and the generated column constant it references.

The code is followed in one place where the behavior's documented intent says
something else: when update tracking is on, the hooks check only whether a database
is bound, and a bound database without a platform is then dereferenced anyway. The
hook functions therefore require that, with update tracking on, a bound database has
a platform (`HooksDefined`). With update tracking off the test stops before the
platform is touched, and the hooks are defined for every database. `modifyTable`
accepts both a missing database and a missing platform.

## Model

| member | source | states |
|---|---|---|
| `Config.DefaultSwitches` | src/Propel/Generator/Behavior/Timestampable/TimestampableBehavior.php:23-47 | With the default parameters, create and update tracking are on and delete tracking is off; the default column names are `created_at`, `updated_at`, `deleted_at`, and `first` is off |
| `Config.IsMySql` | src/Propel/Generator/Behavior/Timestampable/TimestampableBehavior.php:67 | A database is bound, it has a platform, and the platform's type is `mysql`; the same test is repeated at lines 81 and 99, and the hooks' test at lines 136 and 161 agrees with it wherever the hooks are defined |
| `Config.IsPgSql` | src/Propel/Generator/Behavior/Timestampable/TimestampableBehavior.php:86 | A database is bound, it has a platform, and the platform's type is `pgsql` |
| `Config.WithCreatedAt` | src/Propel/Generator/Behavior/Timestampable/TimestampableBehavior.php:39-42 | Create tracking is on exactly when `disable_created_at` is off |
| `Config.WithUpdatedAt` | src/Propel/Generator/Behavior/Timestampable/TimestampableBehavior.php:34-37 | Update tracking is on exactly when `disable_updated_at` is off |
| `Config.WithDeletedAt` | src/Propel/Generator/Behavior/Timestampable/TimestampableBehavior.php:44-47 | Delete tracking is on exactly when `disable_deleted_at` is off |
| `Schema.Table.AddColumn` | src/Propel/Generator/Behavior/Timestampable/TimestampableBehavior.php:72 | The table's column list becomes the old list with the definition put in front (`first` set) or at the end, and its name set gains exactly the new name |
| `Mutator.FieldSpec` | src/Propel/Generator/Behavior/Timestampable/TimestampableBehavior.php:63-103 | The definition built for a field carries the field's configured column name and type TIMESTAMP |
| `Mutator.FieldSpecByDialect` | src/Propel/Generator/Behavior/Timestampable/TimestampableBehavior.php:63-103 | On MySQL every definition is required; create and delete default to `'0000-00-00 00:00:00'` and update to `CURRENT_TIMESTAMP ON UPDATE CURRENT_TIMESTAMP`. On pgsql only update gets `current_timestamp` and `required` stays unset. Otherwise (no database, no platform, another type) the definition is a plain TIMESTAMP |
| `Mutator.Reversed` | src/Propel/Generator/Behavior/Timestampable/TimestampableBehavior.php:56-58 | The reversed list has the same length and holds the element at position `n-1-i` at position `i` |
| `Mutator.FieldOrder` | src/Propel/Generator/Behavior/Timestampable/TimestampableBehavior.php:56-58 | The fields are visited create, update, delete, or delete, update, create when `first` is set |
| `Mutator.ApplyField` | src/Propel/Generator/Behavior/Timestampable/TimestampableBehavior.php:62-105 | Reference definition of one loop pass: a field whose switch is on and whose column name the list lacks gets its definition inserted (front with `first`, else end); otherwise the list is unchanged. Its properties are the `ApplyFields*` lemmas |
| `Mutator.ApplyFields` | src/Propel/Generator/Behavior/Timestampable/TimestampableBehavior.php:59-108 | Reference definition of the loop: the passes applied in visiting order |
| `Mutator.ModifiedColumns` | src/Propel/Generator/Behavior/Timestampable/TimestampableBehavior.php:52-111 | Reference definition of `modifyTable`'s result: the loop over `FieldOrder(first)` with the platform's definitions. Its properties are the `ModifyTable*` and closed-form lemmas |
| `Mutator.VisitField` | src/Propel/Generator/Behavior/Timestampable/TimestampableBehavior.php:62-105 | One pass of the loop changes the table's columns to exactly `ApplyField` of the old ones, with the has-column guard and the dialect overrides |
| `Mutator.ModifyTable` | src/Propel/Generator/Behavior/Timestampable/TimestampableBehavior.php:52-111 | The loop over the fields (reversed when `first`), with its has-column guards, leaves exactly `ModifiedColumns` of the old column list in the table |
| `Mutator.ApplyFieldsKeepsNames` | src/Propel/Generator/Behavior/Timestampable/TimestampableBehavior.php:59-108 | The field loop never removes a column name |
| `Mutator.ApplyFieldsCovers` | src/Propel/Generator/Behavior/Timestampable/TimestampableBehavior.php:59-108 | After the loop, every enabled field it visited has a column of its configured name |
| `Mutator.ApplyFieldsSkipsCovered` | src/Propel/Generator/Behavior/Timestampable/TimestampableBehavior.php:62-94 | When every enabled field already has its column, the has-column guards make the loop change nothing |
| `Mutator.ModifyTableIdempotent` | src/Propel/Generator/Behavior/Timestampable/TimestampableBehavior.php:52-111 | Running `modifyTable` on its own output leaves the column list unchanged |
| `Mutator.InsertKeepsBlock` | src/Propel/Generator/Behavior/Timestampable/TimestampableBehavior.php:72 | Adding a column with a new name keeps the original columns as one block and keeps the added names fresh and distinct |
| `Mutator.ApplyFieldsKeepsBlock` | src/Propel/Generator/Behavior/Timestampable/TimestampableBehavior.php:59-108 | Over any field sequence, the original columns stay as one block, in their order (at the end with `first`, at the start otherwise). Every added column has a name the table lacked and no other added column has. At most one column is added per visited field |
| `Mutator.ApplyFieldsOnlyEnabled` | src/Propel/Generator/Behavior/Timestampable/TimestampableBehavior.php:59-108 | Over any field sequence, every added column is the definition of an enabled field |
| `Mutator.ModifyTableAddsOnlyFreshEnabledColumns` | src/Propel/Generator/Behavior/Timestampable/TimestampableBehavior.php:52-111 | For any parameters and platform, `modifyTable` keeps the original columns in order as one block and adds at most three columns. Each added column has a fresh name not shared with another added column, and is the definition of an enabled field |
| `Mutator.AddedColumnsByDialect` | src/Propel/Generator/Behavior/Timestampable/TimestampableBehavior.php:62-105 | Every added column is a TIMESTAMP. On MySQL it is required, with the ON UPDATE default for the update definition and the zero timestamp otherwise. Off MySQL `required` is unset. On pgsql exactly the update definition has a default. Anywhere else no default is set |
| `Mutator.ModifiedColumnsClosedForm` | src/Propel/Generator/Behavior/Timestampable/TimestampableBehavior.php:56-108 | When the enabled fields have distinct names, the missing enabled columns, in create, update, delete order, are appended without `first` and open the table in that same order with `first` |
| `Mutator.ThreeSteps` | src/Propel/Generator/Behavior/Timestampable/TimestampableBehavior.php:56-108 | Visiting three different fields with distinct enabled names, each visit adds what it would add to the original list: appended in visiting order, or, with `first`, each put at the front so the last visited comes first |
| `Mutator.ModifyTableCount` | src/Propel/Generator/Behavior/Timestampable/TimestampableBehavior.php:59-108 | With distinct enabled names, the column count grows by exactly the number of enabled fields whose column was missing |
| `Mutator.AllFieldsOrdering` | src/Propel/Generator/Behavior/Timestampable/TimestampableBehavior.php:56-108 | With all three fields enabled, distinct and missing, the table reads create, update, delete at its end, or at its front with `first` |
| `Mutator.DefaultsAddCreatedAndUpdated` | src/Propel/Generator/Behavior/Timestampable/TimestampableBehavior.php:23-111 | With the default parameters, a table lacking `created_at` and `updated_at` gets exactly those two definitions appended, in that order, and no `deleted_at`. A fresh table ends up with exactly those two columns |
| `Mutator.OnlyDeleteEnabled` | src/Propel/Generator/Behavior/Timestampable/TimestampableBehavior.php:93-105 | With only the delete switch on, the table gains the delete column (front or end) when it lacks that name and is otherwise unchanged |
| `Mutator.SharedCreateUpdateName` | src/Propel/Generator/Behavior/Timestampable/TimestampableBehavior.php:56-91 | When the create and update columns share a name, only the definition of the field visited first is added: the create definition without `first`, the update definition with `first` |
| `Fragments.ColumnConstant` | src/Propel/Generator/Behavior/Timestampable/TimestampableBehavior.php:124-127 | The constant referenced for a field is the builder's generated constant of the column the field's parameter names |
| `Fragments.ColumnSetter` | src/Propel/Generator/Behavior/Timestampable/TimestampableBehavior.php:119-122 | The setter for a field is `set` followed by the PHP name of the column the field's parameter names |
| `Fragments.HooksDefined` | src/Propel/Generator/Behavior/Timestampable/TimestampableBehavior.php:134-169 | The hooks are defined when update tracking is off (the short-circuit test never reaches the platform), when no database is bound, or when the bound database has a platform |
| `Fragments.HooksWithoutPlatform` | src/Propel/Generator/Behavior/Timestampable/TimestampableBehavior.php:134-169 | With update tracking off and a bound database without a platform, the pre-update hook is empty and the pre-insert hook holds exactly the create rule when create tracking is on |
| `Fragments.PreUpdate` | src/Propel/Generator/Behavior/Timestampable/TimestampableBehavior.php:134-143 | The fragment is empty exactly when update tracking is off or the platform is MySQL. Otherwise it is the single on-change rule on the update column's constant and setter |
| `Fragments.PreInsert` | src/Propel/Generator/Behavior/Timestampable/TimestampableBehavior.php:150-169 | The create rule is present iff create tracking is on. The update rule is present iff update tracking is on and the platform is not MySQL. There is never a delete rule, a create rule comes before an update rule, and each rule references its own field's configured constant and setter |
| `Fragments.ObjectMethods` | src/Propel/Generator/Behavior/Timestampable/TimestampableBehavior.php:171-190 | The fragment is empty iff update tracking is off. Otherwise it is `keepUpdateDateUnchanged` on the update column's constant and the object class name |
| `Fragments.UpdateQueryMethods` | src/Propel/Generator/Behavior/Timestampable/TimestampableBehavior.php:198-233 | Exactly `recentlyUpdated`, `lastUpdatedFirst`, `firstUpdatedFirst`, all on the update column's constant and the query class. `recentlyUpdated` filters to the last days with a default of 7, `lastUpdatedFirst` orders descending, `firstUpdatedFirst` ascending |
| `Fragments.CreateQueryMethods` | src/Propel/Generator/Behavior/Timestampable/TimestampableBehavior.php:235-270 | Exactly `lastCreatedFirst`, `recentlyCreated`, `firstCreatedFirst`, all on the create column's constant and the query class. `recentlyCreated` filters to the last days with a default of 7, `lastCreatedFirst` orders descending, `firstCreatedFirst` ascending |
| `Fragments.QueryMethods` | src/Propel/Generator/Behavior/Timestampable/TimestampableBehavior.php:192-273 | The three update methods appear iff update tracking is on, and the three create methods iff create tracking is on. A method is on the update column exactly when its name is an update name, and on the create column exactly when it is a create name. Each references the constant of its field's configured column, never a delete column, and does what its name says (7-day filter, descending, ascending) |
| `Fragments.UpdateStampedByOneSide` | src/Propel/Generator/Behavior/Timestampable/TimestampableBehavior.php:81-169 | With update tracking on, the hooks' MySQL test agrees with the one the column definitions use. The pre-insert and pre-update hooks stamp the update column exactly when the definition `modifyTable` builds for it lacks MySQL's ON UPDATE default. A column the table already had is not covered |
| `Fragments.UpdateFragmentsFollowColumnName` | src/Propel/Generator/Behavior/Timestampable/TimestampableBehavior.php:119-127 | After renaming `update_column`, every update-column fragment (hooks, object method, query methods) references the new column's constant |

## Left out

- Boolean coercion (`booleanValue`) is left out: the `disable_*` flags are taken as already-coerced booleans. `first` is a plain boolean, so PHP truthiness of raw parameter strings (a string `"false"` is truthy) is not modelled.
- `getParameter`, `getColumnForParameter`, `getPhpName` and the builder's `getColumnConstant`, `getObjectClassName` and `getQueryClassName` are not part of this model. Column constants, PHP names and class names are opaque values of the `Builder` parameter, keyed by the configured column name.
- `Table::addColumn` internals are not part of this model: the meaning of its third argument at line 104, and any error on a duplicate name. It is modelled only as putting a definition at the front or at the end.
- The literal PHP text of the fragments is left out, as is the runtime behavior of the generated code (`time()`, `isModified`, `addUsingAlias`, the `nbDays * 86400` arithmetic). Fragments record only their kind, the referenced column constant or setter, and the default of 7 days.
- Calling the hooks with update tracking on, on a bound database without a platform, is a fatal error in PHP. The requires `HooksDefined` excludes that case instead of modelling it.
- Mutator.ModifiedColumnsClosedForm: stated only when the enabled fields have pairwise different column names, because otherwise the field visited first wins. That case is stated for create and update by `Mutator.SharedCreateUpdateName`. `Mutator.ModifyTableAddsOnlyFreshEnabledColumns` covers any names.
- Mutator.ModifyTableCount: exact only for pairwise different enabled names, for the same reason.
