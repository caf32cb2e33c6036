/** The collaborators of `SqlBoxContext` whose code is not part of this model,
    reduced to what the context's own logic observes of them. */
module SqlBoxTypes {
  import opened Wrappers
  import opened JavaLang

  /** A column value of a result row or an SQL parameter; `Null` is Java's null. */
  datatype Value = Null | Text(text: string) | Number(number: int) {
    /** `"" + value`: Java's string conversion of the object. */
    function ToJavaString(): string
    {
      match this
      case Null => "null"
      case Text(t) => t
      case Number(n) => IntToString(n)
    }
  }

  /** One row of a `queryForList` result: column label to value. */
  type Row = map<string, Value>

  /** `row.get(column)`: null when the row has no such column. */
  function Get(row: Row, column: string): Value
  {
    if column in row then row[column] else Null
  }

  /** The database kinds `DatabaseType` tells apart here: the four the context
      has pagination SQL for, and every other one. */
  datatype DatabaseType = H2 | MySql | MsSqlServer | Oracle | OtherDatabase

  /** What the context reads of `DBMetaData`: the database kind and the map
      from lower-case table name to the table's real name. */
  datatype DBMetaData = DBMetaData(databaseType: DatabaseType, tableNames: map<string, string>)

  datatype DataSource = DataSource(url: string)

  /** A class as `Class.getName()` and `Class.getSimpleName()` name it. */
  datatype ClassRef = ClassRef(name: string, simpleName: string)

  /** An entity bean as the box cache sees it: the key the cache's `HashMap`
      compares it by, and its class. */
  datatype Bean = Bean(identity: nat, beanClass: ClassRef)

  /** `SqlAndParameters`: the SQL text and its parameters. */
  datatype SqlAndParameters = SqlAndParameters(sql: string, parameters: seq<Value>)

  /** Exceptions raised by the context (`SqlBoxException`) or by a null
      reference. */
  datatype Error = SqlBoxException(message: string) | NullPointerException

  /** What reflection finds on the class path: the names of the `SqlBox`
      classes (for `isAssignableFrom` and `checkSqlBoxClassExist`), the entity
      class each one's constructor sets, and the classes (box or entity)
      whose `newInstance` throws. */
  datatype ClassPath = ClassPath(
    boxClasses: set<string>,
    declaredEntityClass: map<string, ClassRef>,
    uninstantiable: set<string>)

  /** Spring's `JdbcTemplate`, reduced to the data source it is bound to. */
  class JdbcTemplate {
    var dataSource: Option<DataSource>

    constructor ()
      ensures dataSource == None
    {
      dataSource := None;
    }
  }

  /** A `SqlBox`: the class it was instantiated from (None for a plain
      `new SqlBox(context)`), its entity class and the bean bound to it. */
  class SqlBox {
    const boxClass: Option<string>
    var entityClass: Option<ClassRef>
    var entityBean: Option<Bean>

    constructor (boxClass: Option<string>, entityClass: Option<ClassRef>)
      ensures this.boxClass == boxClass && this.entityClass == entityClass
      ensures entityBean == None
    {
      this.boxClass := boxClass;
      this.entityClass := entityClass;
      entityBean := None;
    }
  }
}
