/** Model of `SqlBoxContext`: its settings (`showSql`, `formatSql`, the
    `JdbcTemplate`, the data source and the metadata), the thread-local slots
    it keeps (pagination end, SQL Server order-by, the box cache, the
    circle-dependency depth) as fields of the one context object, and the
    operations on them. */
module SqlBoxContext {
  import opened Wrappers
  import opened JavaLang
  import opened SqlBoxTypes
  import opened SqlText
  import opened EntityNet

  const SQLBOX_IDENTITY: string := "BX"
  const MAX_TRANSFER_ROWS: nat := 100000
  const MAX_CIRCLE_DEPTH: int := 2000

  // ----- box-class lookup -----

  /** The class names `findAndBuildSqlBox` tries, in order: the class itself
      (a `SqlBox` class), `<name>BX`, and the nested `<name>$<simple name>BX`. */
  function BoxClassCandidates(c: ClassRef): seq<string>
  {
    [c.name, c.name + SQLBOX_IDENTITY, c.name + "$" + c.simpleName + SQLBOX_IDENTITY]
  }

  /** The box class `findAndBuildSqlBox` instantiates: the first candidate
      that is a `SqlBox` class on the class path, or none. */
  function BoxClassFor(cp: ClassPath, c: ClassRef): (r: Option<string>)
    ensures r.Some? <==> exists i | 0 <= i < 3 :: BoxClassCandidates(c)[i] in cp.boxClasses
    ensures r.Some? ==> exists i | 0 <= i < 3 ::
      r.value == BoxClassCandidates(c)[i] && r.value in cp.boxClasses &&
      forall j | 0 <= j < i :: BoxClassCandidates(c)[j] !in cp.boxClasses
  {
    var candidates := BoxClassCandidates(c);
    if candidates[0] in cp.boxClasses then Some(candidates[0])
    else if candidates[1] in cp.boxClasses then Some(candidates[1])
    else if candidates[2] in cp.boxClasses then Some(candidates[2])
    else None
  }

  /** `findAndBuildSqlBox` fails only when the chosen box class cannot be instantiated. */
  predicate BuildSucceeds(cp: ClassPath, c: ClassRef)
  {
    BoxClassFor(cp, c).None? || BoxClassFor(cp, c).value !in cp.uninstantiable
  }

  /** The entity class of the box `findAndBuildSqlBox` builds: the one a box
      class's constructor declares, otherwise the class asked for. */
  function BuiltEntityClass(cp: ClassPath, c: ClassRef): ClassRef
  {
    match BoxClassFor(cp, c)
    case None => c
    case Some(bc) => if bc in cp.declaredEntityClass then cp.declaredEntityClass[bc] else c
  }

  /** `createEntity` succeeds when the box can be built and its entity
      class can be instantiated. */
  predicate CanCreateEntity(cp: ClassPath, c: ClassRef)
  {
    BuildSucceeds(cp, c) && BuiltEntityClass(cp, c).name !in cp.uninstantiable
  }

  // ----- execute -----

  /** `execute` once `sp` is prepared: the JDBC update count for SQL with
      parameters, -1 after running SQL without parameters. `jdbcOutcome` is
      what the `JdbcTemplate` call did. */
  function Execute(sp: SqlAndParameters, jdbcOutcome: Result<nat, Error>): (r: Result<int, Error>)
    ensures r.Err? <==> jdbcOutcome.Err?
    ensures r.Ok? ==> (r.value == -1 <==> |sp.parameters| == 0)
    ensures r.Ok? && |sp.parameters| > 0 ==> r.value == jdbcOutcome.value
  {
    if jdbcOutcome.Err? then Err(jdbcOutcome.error)
    else if |sp.parameters| != 0 then Ok(jdbcOutcome.value as int)
    else Ok(-1 as int)
  }

  /** `executeQuiet`: `execute` with every exception turned into -2, so the
      three kinds of outcome are told apart by the result alone. */
  function ExecuteQuiet(sp: SqlAndParameters, jdbcOutcome: Result<nat, Error>): (r: int)
    ensures r == -2 <==> jdbcOutcome.Err?
    ensures r == -1 <==> jdbcOutcome.Ok? && |sp.parameters| == 0
    ensures r >= 0 <==> jdbcOutcome.Ok? && |sp.parameters| > 0
  {
    match Execute(sp, jdbcOutcome)
    case Ok(n) => n
    case Err(_) => -2
  }

  // ----- the context -----

  class SqlBoxContext {
    var showSql: bool
    var formatSql: bool
    var jdbc: JdbcTemplate
    var dataSource: Option<DataSource>
    var metaData: Option<DBMetaData>
    /** What reflection would find; fixed for the life of the context. */
    const classPath: ClassPath

    // The thread-local slots, for the single thread this model considers.
    var paginationEnd: Option<string>
    var paginationOrderBy: Option<string>
    var boxCache: map<Bean, SqlBox>
    var circleDependency: Int32

    /** `new SqlBoxContext()`: no data source, no metadata, SQL not shown;
        the thread-local slots at their initial values. */
    constructor (classPath: ClassPath)
      ensures !showSql && !formatSql && fresh(jdbc) && jdbc.dataSource == None
      ensures dataSource == None && metaData == None && this.classPath == classPath
      ensures paginationEnd == None && paginationOrderBy == None
      ensures boxCache == map[] && circleDependency == 0
    {
      showSql, formatSql := false, false;
      jdbc := new JdbcTemplate();
      dataSource, metaData := None, None;
      this.classPath := classPath;
      paginationEnd, paginationOrderBy := None, None;
      boxCache, circleDependency := map[], 0;
    }

    /** `new SqlBoxContext(dataSource)`: a non-null data source is handed to
        the `JdbcTemplate` and the metadata is read from the database
        (`fetched` is what `DBMetaData.getMetaData` returns). */
    constructor WithDataSource(classPath: ClassPath, dataSource: Option<DataSource>, fetched: DBMetaData)
      ensures !showSql && !formatSql && fresh(jdbc)
      ensures this.dataSource == dataSource && jdbc.dataSource == dataSource
      ensures metaData == if dataSource.Some? then Some(fetched) else None
      ensures this.classPath == classPath
      ensures paginationEnd == None && paginationOrderBy == None
      ensures boxCache == map[] && circleDependency == 0
    {
      showSql, formatSql := false, false;
      jdbc := new JdbcTemplate();
      this.dataSource := dataSource;
      metaData := None;
      this.classPath := classPath;
      paginationEnd, paginationOrderBy := None, None;
      boxCache, circleDependency := map[], 0;
      new;
      if dataSource.Some? {
        jdbc.dataSource := dataSource;
        metaData := Some(fetched);
      }
    }

    /** `setDataSource`: the data source goes to the context and to its
        `JdbcTemplate`, and the metadata is read again. */
    method SetDataSource(ds: Option<DataSource>, fetched: Option<DBMetaData>)
      modifies this`dataSource, this`metaData, jdbc
      ensures dataSource == ds && jdbc.dataSource == ds && metaData == fetched
    {
      dataSource := ds;
      jdbc.dataSource := ds;
      metaData := fetched;
    }

    method SetShowSql(show: bool)
      modifies this`showSql
      ensures showSql == show
    {
      showSql := show;
    }

    method SetFormatSql(format: bool)
      modifies this`formatSql
      ensures formatSql == format
    {
      formatSql := format;
    }

    /** `close`: forget the data source and the metadata and stop showing
        SQL; `formatSql`, the `JdbcTemplate` and its data source stay. */
    method Close()
      modifies this`dataSource, this`metaData, this`showSql
      ensures dataSource == None && metaData == None && !showSql
      ensures formatSql == old(formatSql) && jdbc == old(jdbc) && jdbc.dataSource == old(jdbc.dataSource)
    {
      dataSource := None;
      metaData := None;
      showSql := false;
    }

    /** `getDatabaseType`: a null metadata is a null dereference. */
    function GetDatabaseType(): (r: Result<DatabaseType, Error>)
      reads this
      ensures r.Ok? <==> metaData.Some?
    {
      if metaData.None? then Err(NullPointerException) else Ok(metaData.value.databaseType)
    }

    // ----- box cache -----

    /** `getBindedBox`: the box cached for a bean; a null bean is an error. */
    function GetBindedBox(bean: Option<Bean>): (r: Result<Option<SqlBox>, Error>)
      reads this
      ensures r.Err? <==> bean.None?
      ensures r.Ok? ==> (r.value.Some? <==> bean.value in boxCache)
      ensures r.Ok? && r.value.Some? ==> r.value.value == boxCache[bean.value]
    {
      if bean.None? then Err(SqlBoxException("SqlBoxContext putBox error, entityBean can not be null"))
      else if bean.value in boxCache then Ok(Some(boxCache[bean.value]))
      else Ok(None)
    }

    /** `bind`: the box is told its bean and the bean's class and is cached
        for the bean; a null bean is an error and changes nothing. */
    method Bind(bean: Option<Bean>, box: SqlBox) returns (r: Outcome<Error>)
      modifies this`boxCache, box
      ensures bean.None? ==> r.Fail? && boxCache == old(boxCache) && unchanged(box)
      ensures bean.Some? ==> r.Pass? && boxCache == old(boxCache)[bean.value := box]
      ensures bean.Some? ==> box.entityBean == bean && box.entityClass == Some(bean.value.beanClass)
      ensures bean.Some? ==> GetBindedBox(bean) == Ok(Some(box))
    {
      if bean.None? {
        return Fail(SqlBoxException("SqlBoxContext putBox error, entityBean can not be null"));
      }
      box.entityBean := bean;
      box.entityClass := Some(bean.value.beanClass);
      boxCache := boxCache[bean.value := box];
      return Pass;
    }

    /** `findAndBuildSqlBox`: a fresh box of the first box class found, or a
        plain box; an instantiation failure and a null class are errors. */
    method FindAndBuildSqlBox(entityOrBoxClass: Option<ClassRef>) returns (r: Result<SqlBox, Error>)
      ensures entityOrBoxClass.None? ==> r.Err?
      ensures entityOrBoxClass.Some? ==> (r.Ok? <==> BuildSucceeds(classPath, entityOrBoxClass.value))
      ensures r.Ok? ==> fresh(r.value) && r.value.entityBean == None
      ensures r.Ok? ==> r.value.boxClass == BoxClassFor(classPath, entityOrBoxClass.value)
      ensures r.Ok? ==> r.value.entityClass == Some(BuiltEntityClass(classPath, entityOrBoxClass.value))
    {
      if entityOrBoxClass.None? {
        return Err(SqlBoxException("SqlBoxContext findAndBuildSqlBox error! Bean Or SqlBox Class not set"));
      }
      var c := entityOrBoxClass.value;
      var boxClass := BoxClassFor(classPath, c);
      if boxClass.None? {
        var box := new SqlBox(None, Some(c));
        return Ok(box);
      }
      var bc := boxClass.value;
      if bc in classPath.uninstantiable {
        return Err(SqlBoxException(
          "SqlBoxContext findAndBuildSqlBox error! Can not create SqlBox instance: class " + c.name));
      }
      var declared := if bc in classPath.declaredEntityClass then Some(classPath.declaredEntityClass[bc]) else None;
      var box := new SqlBox(boxClass, declared);
      if box.entityClass.None? {
        box.entityClass := Some(c);
      }
      return Ok(box);
    }

    /** `getBox`: the cached box of a bean, else a new box built for the
        bean's class and bound to it, so that the next call finds it. */
    method GetBox(bean: Option<Bean>) returns (r: Result<SqlBox, Error>)
      modifies this`boxCache
      ensures bean.None? ==> r.Err? && boxCache == old(boxCache)
      ensures bean.Some? && bean.value in old(boxCache) ==>
        r == Ok(old(boxCache)[bean.value]) && boxCache == old(boxCache)
      ensures bean.Some? && bean.value !in old(boxCache) ==>
        (r.Ok? <==> BuildSucceeds(classPath, bean.value.beanClass))
      ensures bean.Some? && bean.value !in old(boxCache) && r.Ok? ==>
        fresh(r.value) && boxCache == old(boxCache)[bean.value := r.value] &&
        r.value.entityBean == bean && r.value.entityClass == Some(bean.value.beanClass) &&
        r.value.boxClass == BoxClassFor(classPath, bean.value.beanClass)
      ensures r.Err? ==> boxCache == old(boxCache)
    {
      var cached := GetBindedBox(bean);
      if cached.Err? {
        return Err(cached.error);
      }
      if cached.value.Some? {
        return Ok(cached.value.value);
      }
      var built := FindAndBuildSqlBox(Some(bean.value.beanClass));
      if built.Err? {
        return built;
      }
      var box := built.value;
      box.entityBean := bean;
      var bound := Bind(bean, box);
      return Ok(box);
    }

    /** `createEntity`, reduced to what `buildRootEntity` uses: the class of
        the new entity, which is the entity class of the box built for the
        class asked for. Building the box or instantiating that class fails. */
    method CreateEntity(entityOrBoxClass: ClassRef) returns (r: Result<ClassRef, Error>)
      ensures r.Ok? <==> CanCreateEntity(classPath, entityOrBoxClass)
      ensures r.Ok? ==> r.value == BuiltEntityClass(classPath, entityOrBoxClass)
    {
      var box := FindAndBuildSqlBox(Some(entityOrBoxClass));
      if box.Err? {
        return Err(box.error);
      }
      var entityClass := box.value.entityClass.value;
      if entityClass.name in classPath.uninstantiable {
        return Err(SqlBoxException("SqlBoxContext create error"));
      }
      return Ok(entityClass);
    }

    // ----- SQL text -----

    /** `findRealTableName` against the metadata's table names. */
    function FindRealTableName(tableName: string): (r: Result<Option<string>, Error>)
      reads this
      ensures r.Err? <==> metaData.None?
      ensures r.Ok? ==> r.value == RealTableName(metaData.value.tableNames, tableName)
    {
      if metaData.None? then Err(NullPointerException)
      else Ok(RealTableName(metaData.value.tableNames, tableName))
    }

    /** `logSql`: nothing when SQL is not shown; otherwise the line written,
        passed through `formatSQL` when `formatSql` is set. */
    method LogSql(sp: SqlAndParameters, formatSQL: string -> string) returns (line: Option<string>)
      ensures !showSql ==> line == None
      ensures showSql && !formatSql ==> line == Some(LogText(sp))
      ensures showSql && formatSql ==> line == Some(formatSQL(LogText(sp)))
    {
      if !showSql {
        return None;
      }
      var sb := sp.sql;
      var args := sp.parameters;
      if |args| > 0 {
        sb := AppendParameters(sb + "\r\nParameters: ", args);
      }
      assert sb == LogText(sp);
      var sql := sb;
      if formatSql {
        sql := formatSQL(sql);
      }
      return Some(sql);
    }

    /** `orderBy`: on SQL Server the clause is kept for the pagination SQL
        and a blank is returned; elsewhere the clause is returned. */
    method OrderBy(pieces: seq<string>) returns (r: Result<string, Error>)
      modifies this`paginationOrderBy
      ensures metaData.None? ==> r == Err(NullPointerException) && paginationOrderBy == old(paginationOrderBy)
      ensures metaData.Some? && metaData.value.databaseType.MsSqlServer? ==>
        r == Ok(" ") && paginationOrderBy == Some(OrderByText(pieces))
      ensures metaData.Some? && !metaData.value.databaseType.MsSqlServer? ==>
        r == Ok(OrderByText(pieces)) && paginationOrderBy == old(paginationOrderBy)
    {
      var sb := " order by ";
      for i := 0 to |pieces|
        invariant sb == " order by " + Concat(pieces[..i])
      {
        assert pieces[..i + 1][..i] == pieces[..i];
        sb := sb + pieces[i];
      }
      assert pieces[..|pieces|] == pieces;
      var db := GetDatabaseType();
      if db.Err? {
        return Err(db.error);
      }
      if db.value.MsSqlServer? {
        paginationOrderBy := Some(sb);
        return Ok(" ");
      }
      return Ok(sb);
    }

    /** `pagination`: for a supported database the end fragment is kept for
        the end of the query and the start fragment returned; otherwise an
        error, before anything is kept. */
    method Pagination(pageNumber: Int32, pageSize: Int32) returns (r: Result<string, Error>)
      modifies this`paginationEnd
      ensures metaData.None? ==> r == Err(NullPointerException)
      ensures metaData.Some? && !Supported(metaData.value.databaseType) ==> r.Err?
      ensures r.Err? ==> paginationEnd == old(paginationEnd)
      ensures metaData.Some? && Supported(metaData.value.databaseType) ==>
        var db := metaData.value.databaseType;
        r == Ok(PaginationStart(db)) &&
        paginationEnd == Some(PaginationEnd(PageWindow(db, pageNumber, pageSize).value))
    {
      var db := GetDatabaseType();
      if db.Err? {
        return Err(db.error);
      }
      var window := PageWindow(db.value, pageNumber, pageSize);
      if window.None? {
        return Err(SqlBoxException("pagination error: so far do not support this database."));
      }
      paginationEnd := Some(PaginationEnd(window.value));
      return Ok(PaginationStart(db.value));
    }

    // ----- entity net -----

    /** `increaseCircleDependency`: the depth goes up by one (in `int`
        arithmetic) and the old depth is returned, or an error once the old
        depth exceeds 2000, with the depth still raised. */
    method IncreaseCircleDependency() returns (r: Result<Int32, Error>)
      modifies this`circleDependency
      ensures circleDependency == Wrap32(old(circleDependency) + 1)
      ensures r.Err? <==> old(circleDependency) > MAX_CIRCLE_DEPTH
      ensures r.Ok? ==> r.value == old(circleDependency)
    {
      var count := circleDependency;
      circleDependency := Wrap32(count + 1);
      if count > MAX_CIRCLE_DEPTH {
        return Err(SqlBoxException("Error: circle dependency or too deep tree(>2000)."));
      }
      return Ok(count);
    }

    /** `buildChildEntity`: the child list is not filled yet, so it is empty;
        the depth is restored on return and left raised by an error. */
    method BuildChildEntity(parent: Entity, rows: seq<Row>, mappings: seq<Mapping>)
      returns (r: Result<seq<Row>, Error>)
      modifies this`circleDependency
      ensures r.Err? <==> old(circleDependency) > MAX_CIRCLE_DEPTH
      ensures r.Ok? ==> r.value == [] && circleDependency == old(circleDependency)
      ensures r.Err? ==> circleDependency == Wrap32(old(circleDependency) + 1)
    {
      var count := IncreaseCircleDependency();
      if count.Err? {
        return Err(count.error);
      }
      var thisList: seq<Row> := [];
      circleDependency := count.value;
      return Ok(thisList);
    }

    /** `buildRootEntity`: one entity per distinct non-null root key, filled
        from the first row with that key. Each entity is created before its
        child list is built, so a creation failure leaves the depth as it was. */
    method BuildRootEntity(rootMapping: Mapping, rows: seq<Row>, mappings: seq<Mapping>)
      returns (r: Result<seq<BuiltEntity>, Error>)
      modifies this`circleDependency
      ensures var keys := CollectRoots(rows, RootColumn(rootMapping)).keys;
        var creatable := CanCreateEntity(classPath, rootMapping.thisEntity.entityClass);
        (r.Err? <==> (|keys| > 0 && (!creatable || old(circleDependency) > MAX_CIRCLE_DEPTH)))
      ensures r.Ok? ==>
        r.value == RootEntities(rootMapping, rows, BuiltEntityClass(classPath, rootMapping.thisEntity.entityClass)) &&
        circleDependency == old(circleDependency)
      ensures var creatable := CanCreateEntity(classPath, rootMapping.thisEntity.entityClass);
        r.Err? ==> (circleDependency == if creatable then Wrap32(old(circleDependency) + 1) else old(circleDependency))
    {
      var root := rootMapping.thisEntity;
      var rootAliasColumnName := ToUpperCase(root.aliasByFieldID(rootMapping.thisField));
      var rootValueMap := CollectRootRows(rows, rootAliasColumnName);
      RootKeysMapped(rows, rootAliasColumnName);
      ghost var expected := RootEntities(rootMapping, rows, BuiltEntityClass(classPath, root.entityClass));
      var resultList: seq<BuiltEntity> := [];
      for i := 0 to |rootValueMap.keys|
        invariant circleDependency == old(circleDependency)
        invariant i > 0 ==> CanCreateEntity(classPath, root.entityClass) && old(circleDependency) <= MAX_CIRCLE_DEPTH
        invariant resultList == expected[..i]
      {
        var entity := BuildOneRootEntity(root, rootValueMap.firstRow[rootValueMap.keys[i]], rows, mappings);
        if entity.Err? {
          return Err(entity.error);
        }
        assert expected[..i + 1] == expected[..i] + [entity.value];
        resultList := resultList + [entity.value];
      }
      assert expected[..|rootValueMap.keys|] == expected;
      return Ok(resultList);
    }

    /** The body of the second loop of `buildRootEntity`: create the entity,
        copy the row's values into its fields, then build its child list. */
    method BuildOneRootEntity(root: Entity, oneLine: Row, rows: seq<Row>, mappings: seq<Mapping>)
      returns (r: Result<BuiltEntity, Error>)
      modifies this`circleDependency
      ensures r.Err? <==> !CanCreateEntity(classPath, root.entityClass) || old(circleDependency) > MAX_CIRCLE_DEPTH
      ensures r.Ok? ==> circleDependency == old(circleDependency)
      ensures r.Ok? ==> (r.value == BuiltEntity(BuiltEntityClass(classPath, root.entityClass),
                                                EntityFields(oneLine, root.fieldIDs, root.aliasByFieldID), []))
      ensures r.Err? ==>
        (circleDependency == if CanCreateEntity(classPath, root.entityClass)
                             then Wrap32(old(circleDependency) + 1) else old(circleDependency))
    {
      var entity := CreateEntity(root.entityClass);
      if entity.Err? {
        return Err(entity.error);
      }
      var fields := SetFieldValues(oneLine, root.fieldIDs, root.aliasByFieldID);
      var childList := BuildChildEntity(root, rows, mappings);
      if childList.Err? {
        return Err(childList.error);
      }
      return Ok(BuiltEntity(entity.value, fields, childList.value));
    }

    /** `transfer`: rejects more than 100000 rows, marks every root mapping
        (one whose this-entity is no mapping's other entity), and builds the
        root entities when there is exactly one root, failing otherwise. */
    method Transfer(rows: seq<Row>, mappings: seq<Mapping>) returns (r: Result<seq<BuiltEntity>, Error>)
      modifies this`circleDependency, mappings
      ensures |rows| > MAX_TRANSFER_ROWS ==> r.Err? && circleDependency == old(circleDependency)
      ensures |rows| > MAX_TRANSFER_ROWS ==> forall m | m in mappings :: m.isRoot == old(m.isRoot)
      ensures |rows| <= MAX_TRANSFER_ROWS ==>
        forall m | m in mappings :: m.isRoot == (old(m.isRoot) || IsRootIn(mappings, m))
      ensures |rows| <= MAX_TRANSFER_ROWS && RootCount(mappings, mappings) != 1 ==>
        r.Err? && circleDependency == old(circleDependency)
      ensures |rows| <= MAX_TRANSFER_ROWS && RootCount(mappings, mappings) == 1 ==>
        LastRoot(mappings, mappings).Some? &&
        var root := LastRoot(mappings, mappings).value;
        var keys := CollectRoots(rows, RootColumn(root)).keys;
        var creatable := CanCreateEntity(classPath, root.thisEntity.entityClass);
        (r.Err? <==> |keys| > 0 && (!creatable || old(circleDependency) > MAX_CIRCLE_DEPTH)) &&
        (r.Ok? ==> r.value == RootEntities(root, rows, BuiltEntityClass(classPath, root.thisEntity.entityClass))) &&
        (r.Ok? ==> circleDependency == old(circleDependency)) &&
        (r.Err? ==> circleDependency == if creatable then Wrap32(old(circleDependency) + 1) else old(circleDependency))
    {
      if |rows| > MAX_TRANSFER_ROWS {
        return Err(SqlBoxException("SqlBoxContext transfer Error: transfer for list size >100000 is not supported."));
      }
      var isRootCount, root := MarkRoots(mappings);
      if isRootCount != 1 {
        return Err(SqlBoxException(
          "SqlBoxContext checkAndBuildEntityList error: should have and only have 1 root entity"));
      }
      LastRootFound(mappings, mappings);
      var rootMapping := root.value;
      r := BuildRootEntity(rootMapping, rows, mappings);
    }
  }

  /** The parameter loop of `logSql`: each parameter's text followed by `,`,
      the last one by a line break. */
  method AppendParameters(header: string, args: seq<Value>) returns (sb: string)
    requires |args| > 0
    ensures sb == header + Join(ParameterTexts(args), ",") + "\r\n"
  {
    ghost var texts := ParameterTexts(args);
    ghost var body := "";
    sb := header;
    for i := 0 to |args|
      invariant sb == header + body
      invariant i == 0 ==> body == ""
      invariant 0 < i < |args| ==> body == Join(texts[..i], ",") + ","
      invariant i == |args| ==> body == Join(texts, ",") + "\r\n"
    {
      JoinStep(texts, ",", i);
      var text := args[i].ToJavaString();
      AppendAssoc(header, body, text);
      sb, body := sb + text, body + text;
      assert i == 0 ==> body == texts[0];
      if i != |args| - 1 {
        AppendAssoc(header, body, ",");
        sb, body := sb + ",", body + ",";
      } else {
        assert texts[..i + 1] == texts;
        AppendAssoc(header, body, "\r\n");
        sb, body := sb + "\r\n", body + "\r\n";
      }
    }
  }

  lemma AppendAssoc(a: string, b: string, c: string)
    ensures a + b + c == a + (b + c)
  {
  }

  /** Whether no mapping has `mp`'s this-entity as its other entity: the
      inner loop of `transfer`, which stops at the first match. */
  method IsRootMapping(mappings: seq<Mapping>, mp: Mapping) returns (isRoot: bool)
    ensures isRoot == IsRootIn(mappings, mp)
  {
    isRoot := true;
    var j := 0;
    while j < |mappings|
      invariant 0 <= j <= |mappings|
      invariant forall k | 0 <= k < j :: mappings[k].otherEntity != mp.thisEntity
    {
      if mappings[j].otherEntity == mp.thisEntity {
        isRoot := false;
        break;
      }
      j := j + 1;
    }
  }

  /** The outer loop of `transfer`: every root mapping is flagged, roots are
      counted per position, and the last root is kept. */
  method MarkRoots(mappings: seq<Mapping>) returns (isRootCount: nat, root: Option<Mapping>)
    modifies mappings
    ensures isRootCount == RootCount(mappings, mappings)
    ensures root == LastRoot(mappings, mappings)
    ensures forall m | m in mappings :: m.isRoot == (old(m.isRoot) || IsRootIn(mappings, m))
  {
    isRootCount := 0;
    root := None;
    for i := 0 to |mappings|
      invariant isRootCount == RootCount(mappings, mappings[..i])
      invariant root == LastRoot(mappings, mappings[..i])
      invariant forall m | m in mappings ::
        m.isRoot == (old(m.isRoot) || (m in mappings[..i] && IsRootIn(mappings, m)))
    {
      assert mappings[..i + 1][..i] == mappings[..i];
      var mp1 := mappings[i];
      var isRoot := IsRootMapping(mappings, mp1);
      if isRoot {
        mp1.isRoot := isRoot;
        root := Some(mp1);
        isRootCount := isRootCount + 1;
      }
    }
    assert mappings[..|mappings|] == mappings;
  }

  /** A client of the box cache: asking twice for a bean's box gives the same
      box, and a failure to build one repeats. */
  method GetBoxTwice(ctx: SqlBoxContext, bean: Bean) returns (first: Result<SqlBox, Error>, second: Result<SqlBox, Error>)
    modifies ctx`boxCache
    ensures first.Ok? ==> second == first
    ensures first.Err? ==> second.Err?
  {
    first := ctx.GetBox(Some(bean));
    second := ctx.GetBox(Some(bean));
  }

  /** A client of `bind`: a bound box is what `getBindedBox` returns, until
      the bean is bound again. */
  method BindThenGet(ctx: SqlBoxContext, bean: Bean, box: SqlBox, other: Bean, otherBox: SqlBox)
    returns (found: Result<Option<SqlBox>, Error>)
    requires other != bean
    modifies ctx`boxCache, box, otherBox
    ensures found == Ok(Some(box))
  {
    var b1 := ctx.Bind(Some(bean), box);
    var b2 := ctx.Bind(Some(other), otherBox);
    found := ctx.GetBindedBox(Some(bean));
  }
}
