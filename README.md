# jSqlBox context and 25-letter UUIDs, modelled in Dafny

This project models two parts of jSqlBox.

The first is `SqlBoxContext`, the object that holds the database settings. It keeps:

- the flags `showSql` and `formatSql`;
- the `JdbcTemplate`, the data source and the database metadata (database type and real table names);
- per thread, the pending pagination end, the SQL Server `order by` clause, the cache of boxes bound to beans, and the depth counter used to detect a circular entity net.

The model covers the context's constructors and setters, `close`, the box cache (`bind`, `getBindedBox`, `getBox`, `findAndBuildSqlBox`), `findRealTableName`, `logSql` and the outcomes of `execute` and `executeQuiet`. It also covers the dialect-specific SQL fragments of `pagination` and `orderBy`, and the O-R mapping `transfer`. `transfer` finds the single root mapping and builds one root entity per distinct root key, using `createEntity`, `buildRootEntity`, `buildChildEntity` and `increaseCircleDependency`.

The second is `UUID25Generator`. It compresses a UUID to 25 characters of `0-9a-z`: it re-renders the UUID's 128 bits in base 36 and right-pads the result with `'0'`.

Files:

- `wrappers.dfy` (`Wrappers`): `Option`, `Result`, `Outcome`.
- `java_lang.dfy` (`JavaLang`): the parts of the Java library the sources rely on:
  - 32-bit `int` wrap-around;
  - `Character.digit` and `forDigit`;
  - `BigInteger` radix rendering and parsing;
  - `Integer.toString`;
  - ASCII `toLowerCase` and `toUpperCase`.
- `sql_box_types.dfy` (`SqlBoxTypes`): column values, rows, database types, metadata, beans, `SqlAndParameters`, exceptions, what reflection can find (`ClassPath`), and the `JdbcTemplate` and `SqlBox` objects the context updates.
- `sql_text.dfy` (`SqlText`): the pure text of pagination, `order by`, the SQL log line and the table-name lookup, with their properties.
- `entity_net.dfy` (`EntityNet`): the mapping graph and the root-entity construction.
- `sql_box_context.dfy` (`SqlBoxContext`): the context class and its methods.
- `uuid25_generator.dfy` (`UUID25Generator`): the identifier generator.

The two places where the code is looser than its documentation are stated as properties rather than reported as defects:

- `pagination` computes in Java `int` and so wraps around for large pages.
- Right-padding makes the 25-letter identifier a function of the UUID that is not one-to-one.

## Model

| member | source | states |
|---|---|---|
| `SqlBoxContext.SqlBoxContext.constructor` | jsqlbox/src/main/java/com/github/drinkjava2/jsqlbox/SqlBoxContext.java:98-100 | a new context has no data source and no metadata, shows no SQL, and its thread-local slots are at their initial values (no pagination end, no order-by, empty box cache, depth 0) |
| `SqlBoxContext.SqlBoxContext.WithDataSource` | jsqlbox/src/main/java/com/github/drinkjava2/jsqlbox/SqlBoxContext.java:105-111 | the data source is stored; only a non-null one is given to the `JdbcTemplate` and causes the metadata to be read |
| `SqlBoxContext.SqlBoxContext.SetDataSource` | jsqlbox/src/main/java/com/github/drinkjava2/jsqlbox/SqlBoxContext.java:128-133 | the context and its `JdbcTemplate` both get the new data source, and the metadata is the freshly read one |
| `SqlBoxContext.SqlBoxContext.SetShowSql` | jsqlbox/src/main/java/com/github/drinkjava2/jsqlbox/SqlBoxContext.java:139-142 | `showSql` becomes the given flag |
| `SqlBoxContext.SqlBoxContext.SetFormatSql` | jsqlbox/src/main/java/com/github/drinkjava2/jsqlbox/SqlBoxContext.java:148-151 | `formatSql` becomes the given flag |
| `SqlBoxContext.SqlBoxContext.Bind` | jsqlbox/src/main/java/com/github/drinkjava2/jsqlbox/SqlBoxContext.java:174-182 | a null bean fails and changes neither the cache nor the box; otherwise the box records the bean and the bean's class, the cache maps the bean to the box, and `getBindedBox` then returns that box |
| `SqlBoxContext.SqlBoxContext.GetBindedBox` | jsqlbox/src/main/java/com/github/drinkjava2/jsqlbox/SqlBoxContext.java:187-192 | fails exactly for a null bean; otherwise returns a box exactly when the bean is cached, and then the cached one |
| `SqlBoxContext.BindThenGet` | jsqlbox/src/main/java/com/github/drinkjava2/jsqlbox/SqlBoxContext.java:174-192 | after binding a box to a bean and another box to a different bean, `getBindedBox` still returns the first box for the first bean |
| `SqlBoxContext.SqlBoxContext.Close` | jsqlbox/src/main/java/com/github/drinkjava2/jsqlbox/SqlBoxContext.java:204-208 | data source and metadata become null and SQL is no longer shown; `formatSql` and the `JdbcTemplate` with its data source are kept |
| `SqlBoxContext.SqlBoxContext.GetBox` | jsqlbox/src/main/java/com/github/drinkjava2/jsqlbox/SqlBoxContext.java:213-220 | a null bean fails; a cached box is returned as is; otherwise the call succeeds exactly when the box can be built, and then returns a fresh box of the class `findAndBuildSqlBox` chooses, bound to the bean, with the cache extended by that one entry |
| `SqlBoxContext.GetBoxTwice` | jsqlbox/src/main/java/com/github/drinkjava2/jsqlbox/SqlBoxContext.java:213-220 | asking twice for a bean's box gives the same box when the first call succeeded, and a second failure when it failed |
| `SqlBoxContext.BoxClassFor` | jsqlbox/src/main/java/com/github/drinkjava2/jsqlbox/SqlBoxContext.java:270-276 | a box class is found exactly when one of the three candidates (the class itself, `<name>BX`, `<name>$<simple name>BX`) is a SqlBox class, and it is the first such candidate in that order |
| `SqlBoxContext.SqlBoxContext.FindAndBuildSqlBox` | jsqlbox/src/main/java/com/github/drinkjava2/jsqlbox/SqlBoxContext.java:264-293 | a null class fails; otherwise the call succeeds exactly when the chosen box class is instantiable (or none is found), and returns a fresh unbound box whose box class is the first candidate found and whose entity class is the one the box class declares, or else the class asked for |
| `SqlBoxContext.SqlBoxContext.GetDatabaseType` | jsqlbox/src/main/java/com/github/drinkjava2/jsqlbox/SqlBoxContext.java:310-312 | succeeds exactly when the metadata is not null |
| `SqlText.RealTableName` | jsqlbox/src/main/java/com/github/drinkjava2/jsqlbox/SqlBoxContext.java:298-308 | the result is a non-empty value of the table-name map; it is null exactly when neither the lower-cased name nor its plural with `s` has a non-empty entry; the entry for the lower-cased name is returned when it is non-empty, and otherwise the entry for the name with `s` appended |
| `SqlText.RealTableNameIgnoresCase` | jsqlbox/src/main/java/com/github/drinkjava2/jsqlbox/SqlBoxContext.java:301-304 | two names that differ only in letter case resolve to the same real table name |
| `SqlBoxContext.SqlBoxContext.FindRealTableName` | jsqlbox/src/main/java/com/github/drinkjava2/jsqlbox/SqlBoxContext.java:298-308 | a null metadata is a null dereference; otherwise the result is the lookup above on the metadata's table names |
| `SqlBoxContext.SqlBoxContext.LogSql` | jsqlbox/src/main/java/com/github/drinkjava2/jsqlbox/SqlBoxContext.java:323-343 | nothing is logged when `showSql` is off; otherwise the line logged is the SQL followed by the parameter line, passed through the formatter exactly when `formatSql` is on |
| `SqlText.LogTextShape` | jsqlbox/src/main/java/com/github/drinkjava2/jsqlbox/SqlBoxContext.java:327-338 | the log line starts with the SQL, is the SQL alone exactly when there are no parameters, and otherwise ends with a line break |
| `SqlText.LogTextSingleParameter` | jsqlbox/src/main/java/com/github/drinkjava2/jsqlbox/SqlBoxContext.java:331-337 | a single parameter is logged with no comma |
| `SqlBoxContext.Execute` | jsqlbox/src/main/java/com/github/drinkjava2/jsqlbox/SqlBoxContext.java:410-419 | fails exactly when the JDBC call fails; -1 is returned exactly for SQL without parameters; with parameters the JDBC update count is returned |
| `SqlBoxContext.ExecuteQuiet` | jsqlbox/src/main/java/com/github/drinkjava2/jsqlbox/SqlBoxContext.java:440-447 | -2 exactly when `execute` throws, -1 exactly for SQL without parameters that ran, and a non-negative update count exactly for SQL with parameters that ran |
| `SqlText.ConcatPieceAt` | jsqlbox/src/main/java/com/github/drinkjava2/jsqlbox/SqlBoxContext.java:479-481 | the concatenated `order by` pieces contain every piece, in order, at the offset where the earlier pieces end |
| `SqlBoxContext.SqlBoxContext.OrderBy` | jsqlbox/src/main/java/com/github/drinkjava2/jsqlbox/SqlBoxContext.java:478-487 | a null metadata fails and stores nothing; on SQL Server the clause `" order by "` + pieces is stored for pagination and a blank is returned; elsewhere that clause is returned and nothing is stored |
| `SqlText.PageWindow` | jsqlbox/src/main/java/com/github/drinkjava2/jsqlbox/SqlBoxContext.java:495-513 | a window exists exactly for H2, MySQL, SQL Server and Oracle; it is a `limit` on the first two, a `row_number` range on SQL Server and a `ROWNUM` range on Oracle, with its bounds computed in 32-bit `int` arithmetic |
| `SqlText.PageWindowRows` | jsqlbox/src/main/java/com/github/drinkjava2/jsqlbox/SqlBoxContext.java:495-511 | when `pageNumber*pageSize` does not overflow, every dialect selects exactly the rows `(p-1)*s+1 .. p*s` |
| `SqlText.DialectsAgree` | jsqlbox/src/main/java/com/github/drinkjava2/jsqlbox/SqlBoxContext.java:495-511 | the three dialect forms select the same rows |
| `SqlText.EveryRowOnOnePage` | jsqlbox/src/main/java/com/github/drinkjava2/jsqlbox/SqlBoxContext.java:495-511 | row k is on page p exactly when `p == (k-1)/s + 1`: pages of one size tile the rows without gaps or overlaps |
| `SqlText.PageWindowWraps` | jsqlbox/src/main/java/com/github/drinkjava2/jsqlbox/SqlBoxContext.java:497 | the `int` arithmetic wraps: page 65536 of size 65536 gives MySQL a negative offset |
| `SqlBoxContext.SqlBoxContext.Pagination` | jsqlbox/src/main/java/com/github/drinkjava2/jsqlbox/SqlBoxContext.java:492-516 | a null metadata or an unsupported database fails and leaves the pagination end unchanged; otherwise the dialect's start fragment is returned and the end fragment of the page window is stored |
| `JavaLang.Wrap32` | jsqlbox/src/main/java/com/github/drinkjava2/jsqlbox/SqlBoxContext.java:497-511 | the result is a 32-bit `int` congruent to the exact value modulo 2^32, and equals the exact value when that is in range |
| `JavaLang.IntToStringRoundTrip` | jsqlbox/src/main/java/com/github/drinkjava2/jsqlbox/SqlBoxContext.java:497-511 | reading back the decimal text of an `int` gives the number itself |
| `SqlBoxContext.SqlBoxContext.IncreaseCircleDependency` | jsqlbox/src/main/java/com/github/drinkjava2/jsqlbox/SqlBoxContext.java:521-527 | the depth is raised by one and the old depth returned; it fails exactly when the old depth is over 2000, and then the depth stays raised |
| `SqlBoxContext.SqlBoxContext.BuildChildEntity` | jsqlbox/src/main/java/com/github/drinkjava2/jsqlbox/SqlBoxContext.java:532-544 | fails exactly when the depth is over 2000; otherwise returns the empty child list and restores the depth |
| `EntityNet.CollectRootRows` | jsqlbox/src/main/java/com/github/drinkjava2/jsqlbox/SqlBoxContext.java:556-562 | the loop computes the root-key table: the distinct non-null keys in first-seen order, each with its first row |
| `EntityNet.CollectRootsSpec` | jsqlbox/src/main/java/com/github/drinkjava2/jsqlbox/SqlBoxContext.java:558-562 | the keys are distinct and non-null; every non-null key of a row is among them; each maps to the first row carrying it; there are no more keys than rows |
| `EntityNet.SetFieldValues` | jsqlbox/src/main/java/com/github/drinkjava2/jsqlbox/SqlBoxContext.java:567-572 | a field is set exactly when the row has its upper-cased alias column, and it is set to that column's value |
| `EntityNet.RootEntities` | jsqlbox/src/main/java/com/github/drinkjava2/jsqlbox/SqlBoxContext.java:563-577 | one entity per distinct root key, no more than there are rows; entity i has the class `createEntity` gives, the field values copied from the first row with the i-th key, and an empty child list |
| `SqlBoxContext.SqlBoxContext.CreateEntity` | jsqlbox/src/main/java/com/github/drinkjava2/jsqlbox/SqlBoxContext.java:237-254 | succeeds exactly when the box for the class can be built and the box's entity class can be instantiated, and then gives that entity class |
| `SqlBoxContext.SqlBoxContext.BuildOneRootEntity` | jsqlbox/src/main/java/com/github/drinkjava2/jsqlbox/SqlBoxContext.java:564-576 | fails exactly when the entity cannot be created or the depth is over 2000; otherwise gives the entity of the created class with the row's field values and an empty child list, and leaves the depth as it was; a creation failure leaves the depth unchanged, a depth failure leaves it raised |
| `SqlBoxContext.SqlBoxContext.BuildRootEntity` | jsqlbox/src/main/java/com/github/drinkjava2/jsqlbox/SqlBoxContext.java:549-579 | fails exactly when there is at least one root key and either the root's entity cannot be created or the depth is over 2000; otherwise returns the root entities above and leaves the depth as it was; after a failure the depth is unchanged if creation failed and raised by one otherwise |
| `SqlBoxContext.IsRootMapping` | jsqlbox/src/main/java/com/github/drinkjava2/jsqlbox/SqlBoxContext.java:600-606 | the inner loop finds a mapping to be a root exactly when no mapping's other entity is its this-entity |
| `SqlBoxContext.MarkRoots` | jsqlbox/src/main/java/com/github/drinkjava2/jsqlbox/SqlBoxContext.java:597-612 | every root mapping is flagged and no other flag changes; the counter counts the root positions and `root` is the last root |
| `EntityNet.RootCountZero` | jsqlbox/src/main/java/com/github/drinkjava2/jsqlbox/SqlBoxContext.java:607-615 | the root count is zero exactly when no mapping is a root |
| `EntityNet.RootCountOne` | jsqlbox/src/main/java/com/github/drinkjava2/jsqlbox/SqlBoxContext.java:613-615 | the root count is one exactly when some position holds the only root |
| `EntityNet.LastRootFound` | jsqlbox/src/main/java/com/github/drinkjava2/jsqlbox/SqlBoxContext.java:607-616 | a last root exists exactly when the count is positive, and it is a root from the list |
| `SqlBoxContext.SqlBoxContext.Transfer` | jsqlbox/src/main/java/com/github/drinkjava2/jsqlbox/SqlBoxContext.java:592-617 | more than 100000 rows fail before anything changes; otherwise every root mapping is flagged, a root count other than one fails, and with one root the result is the root entities of the last root found, failing exactly as `buildRootEntity` does and leaving the depth as `buildRootEntity` does |
| `UUID25Generator.UuidBounds` | jsqlbox/src/main/java/com/github/drinkjava2/jsqlbox/id/UUID25Generator.java:24 | 2^128 = 16^32 < 36^25, so every UUID fits in 25 base-36 digits |
| `UUID25Generator.HexGroupValue` | jsqlbox/src/main/java/com/github/drinkjava2/jsqlbox/id/UUID25Generator.java:38 | each zero-padded hex group of `UUID.toString` denotes the number it renders |
| `UUID25Generator.UuidHexDigits` | jsqlbox/src/main/java/com/github/drinkjava2/jsqlbox/id/UUID25Generator.java:38-39 | removing the dashes of the canonical UUID text leaves 32 hex digits whose value is the UUID's 128 bits |
| `JavaLang.RadixRoundTrip` | jsqlbox/src/main/java/com/github/drinkjava2/jsqlbox/id/UUID25Generator.java:39-40 | `toString(36)` of a number parses back to that number |
| `JavaLang.RadixLength` | jsqlbox/src/main/java/com/github/drinkjava2/jsqlbox/id/UUID25Generator.java:40-41 | the base-36 text has at most k digits exactly when the number is below 36^k |
| `UUID25Generator.Radix36Text` | jsqlbox/src/main/java/com/github/drinkjava2/jsqlbox/id/UUID25Generator.java:38-40 | the base-36 text of a UUID has 1 to 25 lower-case digits and denotes the UUID |
| `UUID25Generator.Get25LettersRadix36UUID` | jsqlbox/src/main/java/com/github/drinkjava2/jsqlbox/id/UUID25Generator.java:37-44 | the identifier has exactly 25 characters, all in `0-9a-z`; it starts with the UUID's base-36 text and is `'0'` after it, so it is the identifier `Id25` the lemmas below are about |
| `JavaLang.ParseAppendZeros` | jsqlbox/src/main/java/com/github/drinkjava2/jsqlbox/id/UUID25Generator.java:41-42 | appending m zeros multiplies the value by 36^m |
| `UUID25Generator.Id25Value` | jsqlbox/src/main/java/com/github/drinkjava2/jsqlbox/id/UUID25Generator.java:40-43 | read back in base 36, the identifier is the UUID times 36 to the number of padding zeros |
| `UUID25Generator.RightPaddingCollides` | jsqlbox/src/main/java/com/github/drinkjava2/jsqlbox/id/UUID25Generator.java:41-42 | the UUIDs 1 and 36^24 get the same identifier, so the padding loses information |

## Left out

- I/O: the `JdbcTemplate` calls, the logger and `DBMetaData.getMetaData` are not modelled. Their results are parameters: `fetched` metadata, `jdbcOutcome`, and the `formatSQL` function. `logSql` returns the line it would log.
- `SqlHelper.prepareSQLandParameters` is not part of this model. `Execute` and `ExecuteQuiet` take the prepared `SqlAndParameters`.
- Reflection is a `ClassPath` value: which names are SqlBox classes, the entity class each box class declares, and which classes cannot be instantiated. `SqlBoxUtils.checkSqlBoxClassExist` and its cache are covered by this value.
- `CreateEntity` returns only the class of the new entity: the new bean, its binding into the box cache and the `setContext` on an already bound box are not modelled. `buildRootEntity` builds each root entity as a value of that class.
- `buildRealColumns` and the `Column` objects are replaced by the entity's list of field IDs and its alias function. `configAlias` is not modelled.
- `RootEntities` and `CollectRootRows` list the root entities in the order their keys first appear. The source walks `HashMap.values()`, whose order is unspecified. The set of entities and the row each is built from agree.
- `buildChildEntity` only adjusts the depth counter and returns an empty list. The source leaves filling the child list as a TODO.
- The thread-local slots are fields of the one context. They are static in the source and so shared by all contexts of a thread. Threads are not modelled.
- `ToLowerCase` and `ToUpperCase` map only ASCII letters. Java's Unicode and locale-sensitive case mapping is not modelled.
- `Value.ToJavaString` renders numbers in decimal and null as `null`. Other parameter types' `toString` is not modelled.
- Null references other than the bean, the class and the metadata are not modelled. A null table name, null rows, a null mapping list and a null box are all excluded by the types.
- `FindAndBuildSqlBox`: the exception message renders the class as `class <name>`. The `interface <name>` form `Class.toString` uses for interfaces is not modelled.
- `getDefaultSqlBoxContext`, `setDefaultSqlBoxContext` and `getDefaultBox` are not modelled: they go through the static default context.
- `bindBoxToBean` is not modelled separately. It binds through the box's own context, which `findAndBuildSqlBox` has set to this context, so `GetBox` inlines it.
- Beans are keys of the box cache by an identity number. The source's `HashMap` compares them with `equals` and `hashCode`; the model assumes entity classes do not override those, so that equal beans are the same bean.
- `logCachedSQL`, `cacheSQL`, `executeCachedSQLs`, `executeInsert`, the `queryFor*` methods, `load` and the plain getters and setters are outside the modelled core.
- The warning `transfer` logs for more than 10000 rows is not modelled.
- `Transfer` and `MarkRoots` keep the root count in an unbounded number. The source's `int` counter could only wrap after 2^31 mappings.
- `getNextID` only delegates to `get25LettersRadix36UUID`. `UUID.randomUUID` is the input `u`; version and variant bits are not singled out.
