/** The SQL-text logic of `SqlBoxContext`: the pagination fragments of each
    dialect and the rows they select, the `order by` fragment, the text of an
    SQL log line, table-name resolution, and the results of `execute` and
    `executeQuiet`. */
module SqlText {
  import opened Wrappers
  import opened JavaLang
  import opened SqlBoxTypes

  // ----- pagination -----

  /** The databases `pagination` has SQL for. */
  predicate Supported(db: DatabaseType)
  {
    db.H2? || db.MySql? || db.MsSqlServer? || db.Oracle?
  }

  /** The row window an end fragment prints, with its numbers. */
  datatype RowWindow =
    | Limit(offset: int, count: int)            // " limit offset, count "
    | RowNumberBetween(first: int, last: int)   // "rownum between first and last"
    | RowNumRange(atMost: int, above: int)      // "ROWNUM <= atMost ... r_num > above"

  /** Whether a window keeps the row at 1-based position `k` of the inner query. */
  predicate Selects(w: RowWindow, k: int)
  {
    match w
    case Limit(offset, count) => offset < k <= offset + count
    case RowNumberBetween(first, last) => first <= k <= last
    case RowNumRange(atMost, above) => k <= atMost && above < k
  }

  /** The window `pagination(pageNumber, pageSize)` prints for a database,
      computed in Java `int` arithmetic; none for an unsupported database. */
  function PageWindow(db: DatabaseType, pageNumber: Int32, pageSize: Int32): (w: Option<RowWindow>)
    ensures w.Some? <==> Supported(db)
    ensures db.H2? || db.MySql? ==> w.Some? && w.value.Limit?
    ensures db.MsSqlServer? ==> w.Some? && w.value.RowNumberBetween?
    ensures db.Oracle? ==> w.Some? && w.value.RowNumRange?
  {
    var skipped := Wrap32(Wrap32(pageNumber - 1) * pageSize);
    var last := Wrap32(pageNumber * pageSize);
    if db.H2? || db.MySql? then Some(Limit(skipped, pageSize))
    else if db.MsSqlServer? then Some(RowNumberBetween(Wrap32(skipped + 1), last))
    else if db.Oracle? then Some(RowNumRange(last, skipped))
    else None
  }

  /** The fragment `pagination` returns, placed after "select". */
  function PaginationStart(db: DatabaseType): string
    requires Supported(db)
  {
    if db.H2? || db.MySql? then " "
    else if db.MsSqlServer? then " a_tb.* from (select row_number() over(__orderby__) as rownum, "
    else " * FROM (SELECT a_tb.*, ROWNUM r_num FROM ( SELECT "
  }

  /** The fragment `pagination` stores for the end of the query. */
  function PaginationEnd(w: RowWindow): string
  {
    match w
    case Limit(offset, count) =>
      " limit " + IntToString(offset) + ", " + IntToString(count) + " "
    case RowNumberBetween(first, last) =>
      ") as a_tb where rownum between " + IntToString(first) + " and " + IntToString(last) + " "
    case RowNumRange(atMost, above) =>
      " ) a_tb WHERE ROWNUM <= " + IntToString(atMost) + ") WHERE r_num > " + IntToString(above) + " "
  }

  lemma PageArithmetic(p: int, s: int)
    requires 1 <= p && 1 <= s && p * s <= INT_MAX
    ensures 0 <= (p - 1) * s && (p - 1) * s + s == p * s
  {
    assert (p - 1) * s == p * s - s;
  }

  /** Without overflow every dialect selects exactly the 1-based rows
      (p-1)*s+1 .. p*s of the inner query: s consecutive rows. */
  lemma PageWindowRows(db: DatabaseType, p: Int32, s: Int32, k: int)
    requires Supported(db) && 1 <= p && 1 <= s && p * s <= INT_MAX
    ensures Selects(PageWindow(db, p, s).value, k) <==> (p - 1) * s < k <= p * s
  {
    PageArithmetic(p, s);
  }

  /** The three dialects agree on every row. */
  lemma DialectsAgree(db1: DatabaseType, db2: DatabaseType, p: Int32, s: Int32, k: int)
    requires Supported(db1) && Supported(db2) && 1 <= p && 1 <= s && p * s <= INT_MAX
    ensures Selects(PageWindow(db1, p, s).value, k) == Selects(PageWindow(db2, p, s).value, k)
  {
    PageWindowRows(db1, p, s, k);
    PageWindowRows(db2, p, s, k);
  }

  lemma MulGap(a: int, b: int, s: int)
    requires s >= 1
    ensures a < b ==> a * s + s <= b * s
  {
    if a < b {
      assert b * s - a * s == (b - a) * s;
      assert (b - a) * s >= s by { assert b - a >= 1; }
    }
  }

  lemma FloorDivUnique(n: int, s: int, q: int)
    requires s >= 1
    ensures q * s <= n < q * s + s <==> n / s == q
  {
    var d := n / s;
    assert n == d * s + n % s && 0 <= n % s < s;
    MulGap(d, q, s);
    MulGap(q, d, s);
  }

  /** Pages of one size tile the rows: row k is on page p exactly when
      p = (k-1)/s + 1, so consecutive pages are adjacent and never overlap. */
  lemma EveryRowOnOnePage(db: DatabaseType, p: Int32, s: Int32, k: int)
    requires Supported(db) && 1 <= p && 1 <= s && p * s <= INT_MAX
    ensures Selects(PageWindow(db, p, s).value, k) <==> p == (k - 1) / s + 1
  {
    PageWindowRows(db, p, s, k);
    PageArithmetic(p, s);
    FloorDivUnique(k - 1, s, p - 1);
  }

  /** The arithmetic is Java's: page 65536 of size 65536 overflows, and MySQL
      is given a negative offset. */
  lemma PageWindowWraps()
    ensures PageWindow(MySql, 65536, 65536) == Some(Limit(-65536, 65536))
  {
  }

  // ----- order by -----

  /** The pieces concatenated in order (the `StringBuilder` appends). */
  function Concat(pieces: seq<string>): string
  {
    if pieces == [] then "" else Concat(pieces[..|pieces| - 1]) + pieces[|pieces| - 1]
  }

  lemma {:induction false} ConcatAppend(a: seq<string>, b: seq<string>)
    ensures Concat(a + b) == Concat(a) + Concat(b)
    decreases |b|
  {
    if b == [] {
      assert a + b == a;
    } else {
      var front := b[..|b| - 1];
      assert (a + b)[..|a + b| - 1] == a + front;
      assert (a + b)[|a + b| - 1] == b[|b| - 1];
      ConcatAppend(a, front);
    }
  }

  /** Concatenation keeps every piece, in order, at the offset the earlier pieces end. */
  lemma {:induction false} ConcatPieceAt(pieces: seq<string>, i: nat)
    requires i < |pieces|
    ensures Concat(pieces) == Concat(pieces[..i]) + pieces[i] + Concat(pieces[i + 1..])
  {
    assert pieces == pieces[..i] + [pieces[i]] + pieces[i + 1..];
    ConcatAppend(pieces[..i] + [pieces[i]], pieces[i + 1..]);
    ConcatAppend(pieces[..i], [pieces[i]]);
    assert Concat([pieces[i]]) == pieces[i] by {
      assert [pieces[i]][..0] == [];
    }
  }

  /** The `order by` clause `orderBy(...)` builds. */
  function OrderByText(pieces: seq<string>): string
  {
    " order by " + Concat(pieces)
  }

  // ----- SQL log line -----

  /** The items separated by `sep`. */
  function Join(items: seq<string>, sep: string): string
  {
    if |items| == 0 then ""
    else if |items| == 1 then items[0]
    else Join(items[..|items| - 1], sep) + sep + items[|items| - 1]
  }

  /** Joining one more item appends the separator and the item. */
  lemma JoinStep(items: seq<string>, sep: string, i: nat)
    requires i < |items|
    ensures Join(items[..i + 1], sep) == if i == 0 then items[0] else Join(items[..i], sep) + sep + items[i]
  {
    assert items[..i + 1][..i] == items[..i];
  }

  /** Each parameter as `"" + parameter` renders it. */
  function ParameterTexts(ps: seq<Value>): (r: seq<string>)
    ensures |r| == |ps|
    ensures forall i | 0 <= i < |ps| :: r[i] == ps[i].ToJavaString()
  {
    seq(|ps|, i requires 0 <= i < |ps| => ps[i].ToJavaString())
  }

  /** The line `logSql` writes before formatting: the SQL and, only when there
      are parameters, a parameter line with the parameters separated by `,`. */
  function LogText(sp: SqlAndParameters): string
  {
    if |sp.parameters| > 0 then
      sp.sql + "\r\nParameters: " + Join(ParameterTexts(sp.parameters), ",") + "\r\n"
    else sp.sql
  }

  /** The log line starts with the SQL and is the SQL alone exactly when
      there are no parameters; otherwise it ends with a line break. */
  lemma LogTextShape(sp: SqlAndParameters)
    ensures |LogText(sp)| >= |sp.sql| && LogText(sp)[..|sp.sql|] == sp.sql
    ensures LogText(sp) == sp.sql <==> |sp.parameters| == 0
    ensures |sp.parameters| > 0 ==> LogText(sp)[|LogText(sp)| - 2..] == "\r\n"
  {
  }

  /** One parameter is logged without any separator. */
  lemma LogTextSingleParameter(sql: string, v: Value)
    ensures LogText(SqlAndParameters(sql, [v])) == sql + "\r\nParameters: " + v.ToJavaString() + "\r\n"
  {
  }

  // ----- table names -----

  /** `SqlBoxUtils.isEmptyStr` negated, on a map lookup that gives null for
      a missing key. */
  predicate HasRealName(tableNames: map<string, string>, key: string)
  {
    key in tableNames && tableNames[key] != ""
  }

  /** `findRealTableName` on the metadata's table-name map: the entry for the
      lower-cased name, else the entry for its plural with `s`, else null. */
  function RealTableName(tableNames: map<string, string>, tableName: string): (r: Option<string>)
    ensures r.Some? ==> r.value != "" && r.value in tableNames.Values
    ensures r.None? <==> (!HasRealName(tableNames, ToLowerCase(tableName)) &&
                          !HasRealName(tableNames, ToLowerCase(tableName) + "s"))
    ensures HasRealName(tableNames, ToLowerCase(tableName)) ==>
              r == Some(tableNames[ToLowerCase(tableName)])
    ensures !HasRealName(tableNames, ToLowerCase(tableName)) && HasRealName(tableNames, ToLowerCase(tableName) + "s") ==>
              r == Some(tableNames[ToLowerCase(tableName) + "s"])
  {
    var lower := ToLowerCase(tableName);
    if HasRealName(tableNames, lower) then Some(tableNames[lower])
    else if HasRealName(tableNames, lower + "s") then Some(tableNames[lower + "s"])
    else None
  }

  /** Names that differ only in ASCII letter case resolve to the same table. */
  lemma RealTableNameIgnoresCase(tableNames: map<string, string>, a: string, b: string)
    requires |a| == |b| && forall i | 0 <= i < |a| :: LowerChar(a[i]) == LowerChar(b[i])
    ensures RealTableName(tableNames, a) == RealTableName(tableNames, b)
  {
    assert ToLowerCase(a) == ToLowerCase(b);
  }
}
