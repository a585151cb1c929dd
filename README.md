# php-snake persistence core, modelled in Dafny

php-snake is a small PHP persistence layer. An entity class maps onto one
table. The table name comes from the class name, the columns are the
instance properties, and the key is an optional static
`$primary_definition` (column => auto-increment flag). When a class
declares no key, the key is `['id' => true]`. This project models the
three classes that make up the core:

- `EntityMeta` (module `Meta`, file `meta.dfy`):
  - derives the table name;
  - reads the key definition, the columns and an entity's column values;
  - writes generated ids back onto entities.
- `EntityPersister` (module `Persister`, file `persister.dfy`):
  - builds the INSERT, UPDATE, DELETE and SELECT statements for one class;
  - keeps the queue of pending inserts;
  - runs all of these against the connection.
- `EntityManager` (module `Manager`, file `manager.dfy`):
  - `find` normalises an id and looks it up, first in the identity map, then in the table;
  - `getEntityState` and `persist`;
  - the per-class caches of metadata objects and persisters.

Supporting modules:

- `PhpArrays` models ordered PHP arrays with string keys, plus the array functions the core uses.
- `Values` models property values, the PHP string cast behind `implode` and SQL `=`.
- `Entities` models class descriptors, which stand in for reflection, and entity objects.
- `Storage` models an in-memory database behind the connection. Its tables have rows, an optional auto-increment column and a key counter. Statements are structured rather than SQL text.
- `Fixtures` models the test fixture classes `FooEntity`, `BarEntity`, `FaultyEntity` and `FaultyArrayEntity`, and what the metadata functions give for them.

Objects the code updates in place are Dafny classes:

- the entity, whose properties are assigned;
- the persister, which owns the insert queue;
- the manager, which owns the identity map, the state tables and the caches;
- the connection, which owns the database.

Loops in the source are methods with loop invariants:

- the write-back loop of `setColumnWithValue`;
- the insert loop of `executeInserts`;
- the key loop of `find`;
- building the objects of `fetchAll`.

The first three are proved against a function that states their result (`WrittenProps`, `InsertBatch`, `CanonicalId`); the `fetchAll` loop is proved against the per-entity facts it guarantees: entity j is fresh, of the class, and holds row j.

Some behaviour of the code is easy to misread:

- A failed batch of inserts keeps the queue. The code clears the queue only after the loop.
- `persist` only checks the entity's state. It neither queues the entity nor re-attaches it.
- The metadata tests expect `getPrimaryKeyColumns` to return a list of column names. The code returns a column => flag array, and the model follows the code.
- The INSERT leaves out every key column, auto-incremented or not.

Two quirks of the code are kept and proved as lemmas.

- The identity map keys an id by `implode(' ', ...)` of its values, so different ids can share one entry (`IdentityKeyCollisions`).
- `getEntityState` probes with the key definition itself, `['id' => true]`. As a result, every untracked entity is DETACHED once the row with id 1 exists or is loaded (`IdentityMapDetachesAll`, `TableRowDetachesAll`).

## Model

| member | source | states |
|---|---|---|
| Meta.SimpleName | src/EntityMeta.php:175-176 | the part of the class name after the last backslash; with no backslash the name loses its first character, since `strrpos` gives false, which counts as 0 |
| Meta.TableName | src/EntityMeta.php:173-187 | the table name holds no upper-case letter |
| Meta.TableNameIsSnakeCase | src/EntityMeta.php:175-186 | `lcfirst`, the `[A-Z]` → `_\0` replacement and `strtolower` together give the one-pass snake case of the simple name: the first letter lowered, every later capital turned into `_` and its lower-case form |
| Meta.TableNameLength | src/EntityMeta.php:173-187 | the table name is the simple name's length plus one underscore per capital after the first character |
| Meta.PrimaryKeyColumns | src/EntityMeta.php:42-70 | no declared `primary_definition` gives `['id' => true]`; an instance property gives the "must be static" error; a non-array gives the "expected array" error naming the type; otherwise the declared array |
| Meta.HasAutoIncrementPrimary | src/EntityMeta.php:72-81 | true exactly when some key column's flag is true; a key-definition error propagates; the default key is auto-incremented |
| Meta.DefaultColumns | src/EntityMeta.php:87-105 | exactly the non-static properties, none twice, in declaration order (a subsequence of the declared names) |
| Meta.NonStaticInOrder | src/EntityMeta.php:87-105 | filtering out the static properties keeps the order of the others: the result is a subsequence of the declared names |
| Meta.ColumnsWithValues | src/EntityMeta.php:112-125 | the columns in declaration order, each with the entity's value (null when never assigned) |
| Meta.ReadColumns | src/EntityMeta.php:112-125 | reading the columns of an object of another class fails exactly when there is a column to read; otherwise the columns with values |
| Meta.PrimaryColumnsWithValues | src/EntityMeta.php:133-145 | an entry is in the result exactly when it is a column value of a key column and not null; the result keeps the order of `getColumnsWithValues` (a subsequence of it); the column-read error comes first, then the key-definition error |
| Meta.EntityMeta.constructor | src/EntityMeta.php:22-36 | keeps the class and derives its table name |
| Meta.EntityMeta.SetColumnWithValue | src/EntityMeta.php:154-171 | a missing property fails before anything is written; otherwise each entity up to the first one of another class gets `values[i]` (null past the end), the last write winning for an entity listed twice, and that entity stops the loop with the "not instance of" error |
| Meta.EntityMeta.WriteColumn | src/EntityMeta.php:159-170 | the write-back loop, with the same outcome and final properties as above |
| Fixtures.FooTableName | tests/EntityMetaTest.php:22-25 | `FooEntity` is stored in `foo_entity` |
| Fixtures.UnqualifiedNameLosesFirstCharacter | src/EntityMeta.php:175-176 | a class name without namespace, `FooEntity`, maps to `oo_entity` |
| Fixtures.AcronymTableName | src/EntityMeta.php:177 | acronyms are not special-cased: `App\HTTPBar` maps to `h_t_t_p_bar` |
| Fixtures.FooColumns | tests/EntityMetaTest.php:60-70 | `FooEntity`'s columns skip the static `$decoy`, and a fresh instance reads all null |
| Fixtures.FixturePrimaryKeys | tests/EntityMetaTest.php:27-58 | Foo gets the default key, Bar its composite non-auto key, the two faulty classes their two errors; auto-increment is true for Foo, false for Bar |
| Persister.InsertStatement | src/EntityPersister.php:143-161 | the INSERT names exactly the columns that are not key columns; a key-definition error propagates |
| Persister.InsertColumnsInOrder | src/EntityPersister.php:150-158 | the INSERT columns keep declaration order and are distinct |
| Persister.InsertParamsLineUp | src/EntityPersister.php:47-51 | the values bound for one entity line up with the INSERT columns: one per column, that column's current value |
| Persister.UpdateSql | src/EntityPersister.php:163-186 | key-definition errors come first, then the wrong-object error; a built statement is an UPDATE of the class's table |
| Persister.UpdateSqlColumns | src/EntityPersister.php:171-183 | SET names exactly the non-key columns and WHERE exactly the key columns, both in declaration order |
| Persister.UpdateSqlParams | src/EntityPersister.php:171-185 | the parameters are the SET values, then the WHERE values, each its column's current value |
| Persister.DeleteSql | src/EntityPersister.php:188-208 | same error order as the UPDATE; a built statement is a DELETE of the class's table |
| Persister.DeleteSqlColumns | src/EntityPersister.php:195-205 | WHERE names exactly the key columns, in declaration order |
| Persister.DeleteSqlParams | src/EntityPersister.php:195-207 | one parameter per key column, its current value |
| Persister.WhereKeyMatches | src/EntityPersister.php:181-183 | a WHERE over the key columns bound to the entity's values selects exactly the rows whose key columns hold those values |
| Persister.UpdateWritesEntity | src/EntityPersister.php:64-71 | after an update, rows holding the entity's key have every non-key column set to the entity's value; every other row, and every key or unmapped column, is unchanged |
| Persister.DeleteRemovesEntity | src/EntityPersister.php:73-80 | after a delete no row holds the entity's key, every row that did not is still there, and the remaining rows are old rows in their old order (a subsequence) |
| Persister.CriteriaMatch | src/EntityPersister.php:87-89 | one `column = value` condition per criterion, all of which the row must meet |
| Persister.TracedResumes | src/EntityPersister.php:47-56 | after some successful turns, the insert loop carries on from the state they reached with the remaining entities |
| Persister.BatchOutcome | src/EntityPersister.php:47-56 | with the INSERT prepared, the loop executes once per entity up to the first entity of another class, where it stops with that error; otherwise it runs to the end |
| Persister.BatchRows | src/EntityPersister.php:47-52 | each execution appends one row holding that entity's INSERT column values; existing rows stay, in order |
| Persister.BatchIds | src/EntityPersister.php:51-55 | when the table generates the key, the j-th reported id is the counter plus j and is stored in the j-th new row; otherwise every reported id is 0 |
| Persister.IdMapLookup | src/EntityPersister.php:53-54 | the result maps exactly the queued entities, each to the id reported after its own INSERT |
| Persister.EntityPersister.constructor | src/EntityPersister.php:24-28 | keeps the metadata and the connection; the queue starts empty |
| Persister.EntityPersister.AddInsert | src/EntityPersister.php:30-33 | queues the entity once; adding the same object again leaves the queue as it was |
| Persister.EntityPersister.ExecuteInserts | src/EntityPersister.php:35-62 | an empty queue returns an empty map without touching the database; key and prepare errors change nothing; otherwise the database ends where the insert loop ends, and success empties the queue and returns the id map when the key has an auto-increment column (an empty map otherwise), while failure keeps the queue |
| Persister.EntityPersister.InsertEach | src/EntityPersister.php:47-56 | the loop reaches the database state and outcome of the insert loop and collects the reported ids per entity |
| Persister.EntityPersister.InsertOne | src/EntityPersister.php:48-51 | one turn: read the entity's columns (the wrong-object error changes nothing), then execute the INSERT on them |
| Persister.EntityPersister.Update | src/EntityPersister.php:64-71 | a build error changes nothing; otherwise the UPDATE runs, or its execution error is returned with the database unchanged |
| Persister.EntityPersister.Delete | src/EntityPersister.php:73-80 | a build error changes nothing; otherwise the DELETE runs, or its execution error is returned with the database unchanged |
| Persister.EntityPersister.Exists | src/EntityPersister.php:82-97 | true exactly when some row meets every criterion; execution errors are returned |
| Persister.EntityPersister.Load | src/EntityPersister.php:99-119 | none exactly when no row meets the criteria; otherwise a new instance of the class holding the first such row |
| Persister.EntityPersister.LoadAll | src/EntityPersister.php:121-141 | one new, distinct instance of the class per row, in storage order, each holding its row |
| Persister.EntityPersister.Materialize | src/EntityPersister.php:134 | `fetchAll(FETCH_CLASS)`: one new, distinct instance per row, properties from its columns |
| Manager.CanonicalId | src/EntityManager.php:59-80 | succeeds exactly when every key column is set (present and not null) and the id names no other column; then it lists the id's key values in declaration order; a missing column is reported first, at the first unset key column; otherwise the error lists exactly the id's non-key columns, in the order the id gives them |
| Manager.SortId | src/EntityManager.php:59-80 | the key loop of `find` computes CanonicalId |
| Manager.CanonicalIdReorder | src/EntityManager.php:59-72 | the order in which an id lists its columns does not matter |
| Manager.ScalarIdDefaultKey | src/EntityManager.php:55-57 | with the default key a scalar id `v` becomes `['id' => v]`, or the missing-key error when `v` is null |
| Manager.ScalarIdCompositeKey | src/EntityManager.php:55-68 | a scalar id never satisfies a key of two or more columns |
| Manager.IdentityKeyCollisions | src/EntityManager.php:185-190 | `implode(' ', ...)` makes `["x y","z"]` and `["x","y z"]` share one entry, and `1`, `"1"` and `true` too |
| Manager.EntityManager.constructor | src/EntityManager.php:38-41 | every table and cache starts empty |
| Manager.EntityManager.GetByIdRegistered | src/EntityManager.php:185-201 | the identity map only returns managed entities of that class whose recorded ids hash to the looked-up key |
| Manager.EntityManager.GetEntityMeta | src/EntityManager.php:167-174 | one metadata object per class, made on first use and returned unchanged afterwards; no other cached object is dropped |
| Manager.EntityManager.GetEntityPersister | src/EntityManager.php:176-183 | one persister per class, over that class's cached metadata and the manager's connection, made on first use together with the metadata when that is missing; every cached metadata object and persister is kept |
| Manager.EntityManager.Find | src/EntityManager.php:50-95 | key and id errors leave tracking unchanged; an identity-map hit returns that object; no matching row returns none; otherwise a new entity holding the first matching row is returned, managed and stored under the canonical id, and that is the only identity-map entry added or changed; in every case the cached metadata objects and persisters are kept |
| Manager.EntityManager.FindCanonical | src/EntityManager.php:82-94 | the identity map first, then the persister, with the outcomes above |
| Manager.EntityManager.LoadManaged | src/EntityManager.php:86-94 | the persister's load, then registration of what it found |
| Manager.EntityManager.GetEntityState | src/EntityManager.php:129-155 | the recorded state of a tracked entity; otherwise NEW for an empty key, DETACHED when the key definition taken as an id is in the identity map or matches a row, and NEW otherwise; tracking is unchanged and the caches are kept |
| Manager.EntityManager.GetProbeState | src/EntityManager.php:146-154 | the two DETACHED probes of getEntityState, the identity map first; tracking is unchanged and the caches are kept |
| Manager.EntityManager.ProbeTable | src/EntityManager.php:150-154 | DETACHED exactly when some row meets the probe |
| Manager.EntityManager.Persist | src/EntityManager.php:97-127 | persisting a DETACHED entity fails; a state error propagates; every other state passes; tracking is unchanged and the caches are kept |
| Manager.EntityManager.AdmittedKeepsOthers | src/EntityManager.php:192-200 | after `find` loads a row, every identity-map lookup under another class or another identity key returns what it returned before |
| Manager.EntityManager.FindAgainIsCached | src/EntityManager.php:82-84 | once an entity is stored under the canonical id, finding that id again returns the same object |
| Manager.EntityManager.ResolveReorder | src/EntityManager.php:59-84 | a composite id given in another column order finds the same entity |
| Manager.EntityManager.ResolveScalar | src/EntityManager.php:55-58 | with the default key a scalar id is looked up as `['id' => value]` |
| Manager.EntityManager.TrackedIsManaged | src/EntityManager.php:131-135 | only MANAGED is ever recorded, so a tracked entity's state is MANAGED |
| Manager.EntityManager.UntrackedStateIgnoresValues | src/EntityManager.php:139-154 | two untracked entities of one class always get the same state, whatever their values |
| Manager.EntityManager.IdentityMapDetachesAll | src/EntityManager.php:140-148 | with the default key, once the entity with id 1 is in the identity map every untracked entity of the class is DETACHED |
| Manager.EntityManager.TableRowDetachesAll | src/EntityManager.php:140-152 | with the default key, while a row with id 1 exists every untracked entity of the class is DETACHED |
| Manager.EntityManager.AddToIdentityMap | src/EntityManager.php:192-201 | stores the entity under its class and the hash of its recorded id, and nothing else; the identity map stays consistent |
| Manager.EntityManager.RegisterManaged | src/EntityManager.php:157-165 | records MANAGED and the id, then stores the entity in the identity map |
| Manager.AddKeepsConsistent | src/EntityManager.php:192-201 | storing a managed entity under the hash of its id keeps every identity-map entry managed and correctly keyed |
| Manager.TrackKeepsConsistent | src/EntityManager.php:157-163 | tracking an entity nothing tracked yet disturbs no existing entry |

## Left out

- Reflection and class loading:
  - Class inheritance is not modelled: a class descriptor has no parent. An entity of a subclass therefore counts as an entity of another class, and `executeInserts`, `update` and `delete` reject it with `WrongObject`, where PHP's `ReflectionProperty::getValue` would accept it. The exact `get_class` check of `setColumnWithValue` is modelled as it is.
  - Classes are explicit descriptors held in the manager's `classes` map.
  - A class that does not exist is not modelled: `find`, `getEntityState` and `persist` require a declared class.
- `getClassName` and `getTableName` are the constant fields `decl.name` and `tableName` of `EntityMeta`. `getSelectQueryBuilder` is the SELECT of `SelectSql`.
- The database is modelled as follows:
  - PDO, SQL text and the query builder are left out: statements are structured values, run against an in-memory database.
  - `closeCursor` is not modelled.
  - Collations, type affinity and the way the query builder binds `null` in a `where` are not modelled: SQL `=` is `SqlEquals`.
  - src/Connection.php is not part of this model.
- The in-memory tables enforce no constraints: no NOT NULL columns, no key uniqueness, no column types. A prepared INSERT, UPDATE or DELETE therefore always runs, and the errors a database raises when a row breaks a constraint are not produced. For example, inserting a `BarEntity` leaves out its NOT NULL key columns, which MySQL would refuse; the model appends the row with nulls there.
- `lastInsertId` returns a string in PHP. It is modelled as the integer it holds.
- The regex-failure branch of `convertClassToTableName` is left out. `preg_replace` with a constant, valid pattern does not fail on these inputs.
- The builder callback of `loadAll` is not modelled. The model always loads every row.
- `flush`, transactions and the insert/update/delete scheduling sets are left out: the source declares the sets but never uses them, and defines no `flush`.
- The default branch of `persist`, "Unexpected entity state", is left out. Only the four states are ever recorded, so it cannot be reached.
- `spl_object_id` is modelled as object identity.
- Entity arrays passed to `setColumnWithValue` are sequences indexed from 0. Other PHP array keys are not modelled.
- Persister.BatchRows: states only the INSERT columns of each new row, plus the generated id in `BatchIds`. Columns the INSERT leaves out read as null, which is not stated.
- Manager.EntityManager.RegisterManaged: requires an untracked entity. Its only caller passes an entity it has just loaded.
- Manager.EntityManager.Find: requires the class to be declared.
- Manager.EntityManager.GetEntityState: requires the class to be declared.
- Manager.EntityManager.Persist: requires the class to be declared.
- Meta.EntityMeta.SetColumnWithValue: does not model writing a static property, which changes the class rather than the entity. The generated-key column is always an instance property.
