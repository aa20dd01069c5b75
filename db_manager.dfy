/**
 * The generic SQLite table editor behind the database window: identifier quoting, the
 * choice of a row identifier, the column lists of INSERT and UPDATE statements, the
 * read/modify decision of the SQL console, and the connection the manager holds.
 * The SQLite engine itself is not modelled: `PRAGMA table_info` and the
 * `sqlite_master` row of a table are parameters, and the manager records the
 * statements it sends and the commits it makes.
 */
module DbManager {
  import opened Wrappers
  import opened Text

  // ---------------------------------------------------------------------------
  // quote_identifier
  // ---------------------------------------------------------------------------

  /** `name.replace('"', '""')`. */
  function Escape(name: string): (e: string)
    ensures |e| >= |name|
  {
    if name == [] then []
    else (if name[0] == '"' then "\"\"" else [name[0]]) + Escape(name[1..])
  }

  /** `quote_identifier`: the escaped name between double quotes. */
  function QuoteIdentifier(name: string): (q: string)
    ensures |q| >= 2 && q[0] == '"' && q[|q| - 1] == '"'
  {
    "\"" + Escape(name) + "\""
  }

  /** How SQLite reads the inside of a quoted identifier: `""` is one quote, a lone quote ends it early. */
  function Unescape(body: string): Option<string> {
    if body == [] then Some([])
    else if body[0] != '"' then
      match Unescape(body[1..])
      case Some(rest) => Some([body[0]] + rest)
      case None => None
    else if |body| >= 2 && body[1] == '"' then
      match Unescape(body[2..])
      case Some(rest) => Some("\"" + rest)
      case None => None
    else None
  }

  /** The name a double-quoted identifier stands for, if it is one whole identifier. */
  function UnquoteIdentifier(q: string): Option<string> {
    if |q| >= 2 && q[0] == '"' && q[|q| - 1] == '"' then Unescape(q[1..|q| - 1]) else None
  }

  lemma {:induction false} UnescapeEscape(name: string)
    ensures Unescape(Escape(name)) == Some(name)
  {
    if name != [] {
      UnescapeEscape(name[1..]);
      var e := Escape(name);
      if name[0] == '"' {
        assert e[2..] == Escape(name[1..]);
      } else {
        assert e[1..] == Escape(name[1..]);
      }
      assert [name[0]] + name[1..] == name;
    }
  }

  /** Quoting can be undone: every name, quotes included, comes back as one identifier. */
  lemma QuoteRoundTrip(name: string)
    ensures UnquoteIdentifier(QuoteIdentifier(name)) == Some(name)
  {
    var q := QuoteIdentifier(name);
    assert q[1..|q| - 1] == Escape(name);
    UnescapeEscape(name);
  }

  /** Different names never share a quoted form. */
  lemma QuoteInjective(a: string, b: string)
    requires QuoteIdentifier(a) == QuoteIdentifier(b)
    ensures a == b
  {
    QuoteRoundTrip(a);
    QuoteRoundTrip(b);
  }

  // ---------------------------------------------------------------------------
  // Row identifiers
  // ---------------------------------------------------------------------------

  /** A row of `PRAGMA table_info`: the column's name, declared type (NULL as None) and primary-key position (0 if none). */
  datatype ColumnInfo = ColumnInfo(name: string, declared: Option<string>, pk: int)

  /** `RowIdentifier`: `kind` is "pk" or "rowid". */
  datatype RowIdentifier = RowIdentifier(kind: string, column: string, isRowidAlias: bool)

  /** `[col["name"] for col in table_info]`. */
  function Names(info: seq<ColumnInfo>): (names: seq<string>)
    ensures |names| == |info| && forall i :: 0 <= i < |info| ==> names[i] == info[i].name
  {
    seq(|info|, i requires 0 <= i < |info| => info[i].name)
  }

  /** `[col for col in table_info if col["pk"]]`. */
  function PkColumns(info: seq<ColumnInfo>): (pks: seq<ColumnInfo>)
    ensures forall c :: c in pks <==> c in info && c.pk != 0
  {
    if info == [] then []
    else (if info[0].pk != 0 then [info[0]] else []) + PkColumns(info[1..])
  }

  /**
   * `"INT" in (type or "").upper()`: the manager's own test for a key that stands for the rowid.
   * It is looser than SQLite, where only a column declared exactly `INTEGER PRIMARY KEY`
   * aliases the rowid (a `BIGINT PRIMARY KEY` passes this test but does not).
   */
  predicate IntegerType(declared: Option<string>) {
    Contains(AsciiUpper(declared.GetOr("")), "INT")
  }

  /**
   * `table_has_rowid`, given the `sql` column of the table's `sqlite_master` row
   * (None when there is no row, `Some(None)` when the column is NULL).
   */
  function TableHasRowid(master: Option<Option<string>>): (has: bool)
    ensures master.None? || master.value.None? ==> has
    ensures master.Some? && master.value.Some? ==> (has <==> !Contains(AsciiUpper(master.value.value), "WITHOUT ROWID"))
  {
    match master
    case None => true
    case Some(None) => true
    case Some(Some(sql)) => !Contains(AsciiUpper(sql), "WITHOUT ROWID")
  }

  /**
   * `get_row_identifier`: a table with exactly one key column is edited through that
   * key; otherwise through `rowid` when the table has one; otherwise not at all.
   */
  function GetRowIdentifier(info: seq<ColumnInfo>, master: Option<Option<string>>): (r: Option<RowIdentifier>)
    ensures |PkColumns(info)| == 1 ==>
      r.Some? && r.value.kind == "pk" && r.value.column == PkColumns(info)[0].name
      && r.value.column in Names(info)
      && (r.value.isRowidAlias <==> IntegerType(PkColumns(info)[0].declared))
    ensures |PkColumns(info)| != 1 ==>
      (r.Some? <==> TableHasRowid(master)) && (r.Some? ==> r.value == RowIdentifier("rowid", "rowid", false))
  {
    var pks := PkColumns(info);
    if |pks| == 1 then
      assert pks[0] in info;
      Some(RowIdentifier("pk", pks[0].name, IntegerType(pks[0].declared)))
    else if TableHasRowid(master) then Some(RowIdentifier("rowid", "rowid", false))
    else None
  }

  /** A statement with no letter `w` in either case cannot say `WITHOUT ROWID`. */
  lemma NoWithoutRowid(sql: string)
    requires forall i :: 0 <= i < |sql| ==> sql[i] != 'W' && sql[i] != 'w'
    ensures TableHasRowid(Some(Some(sql)))
  {
    var u := AsciiUpper(sql);
    forall i | 0 <= i <= |u|
      ensures !("WITHOUT ROWID" <= u[i..])
    {
      if i < |u| {
        assert u[i..][0] == AsciiUpperChar(sql[i]);
      }
    }
  }

  /** The editor's test table `items (id INTEGER PRIMARY KEY, name TEXT, qty INTEGER)` is edited through its integer key `id`. */
  lemma ItemsIdentifier(master: Option<Option<string>>)
    ensures GetRowIdentifier([ColumnInfo("id", Some("INTEGER"), 1), ColumnInfo("name", Some("TEXT"), 0),
                              ColumnInfo("qty", Some("INTEGER"), 0)], master)
            == Some(RowIdentifier("pk", "id", true))
  {
    var items := [ColumnInfo("id", Some("INTEGER"), 1), ColumnInfo("name", Some("TEXT"), 0), ColumnInfo("qty", Some("INTEGER"), 0)];
    assert PkColumns(items) == [items[0]] by {
      assert PkColumns(items[2..]) == [];
      assert PkColumns(items[1..]) == [];
    }
    assert AsciiUpper("INTEGER") == "INTEGER";
    assert "INT" <= AsciiUpper("INTEGER")[0..];
  }

  /** The editor's test table `logs (message TEXT NOT NULL)` has no key and is edited through `rowid`. */
  lemma LogsIdentifier()
    ensures GetRowIdentifier([ColumnInfo("message", Some("TEXT"), 0)], Some(Some("CREATE TABLE logs (message TEXT NOT NULL)")))
            == Some(RowIdentifier("rowid", "rowid", false))
  {
    var logs := [ColumnInfo("message", Some("TEXT"), 0)];
    assert PkColumns(logs) == [];
    NoWithoutRowid("CREATE TABLE logs (message TEXT NOT NULL)");
  }

  // ---------------------------------------------------------------------------
  // insert_row and update_row: the columns and parameters
  // ---------------------------------------------------------------------------

  /** `values_by_column.get(col)`: None for a column without a value. */
  function Lookup(values: map<string, Value>, col: string): Value {
    if col in values then values[col] else Null
  }

  /** The parameters for a column list, in column order. */
  function Params(values: map<string, Value>, cols: seq<string>): (ps: seq<Value>)
    ensures |ps| == |cols| && forall i :: 0 <= i < |cols| ==> ps[i] == Lookup(values, cols[i])
  {
    seq(|cols|, i requires 0 <= i < |cols| => Lookup(values, cols[i]))
  }

  /** `integer_pk`: the name of the lone key column when its type is an integer type. */
  function IntegerPk(info: seq<ColumnInfo>): Option<string> {
    var pks := PkColumns(info);
    if |pks| == 1 && IntegerType(pks[0].declared) then Some(pks[0].name) else None
  }

  /** `insert_cols`: the table's columns, without the integer key when it has no value. */
  function InsertColumns(columns: seq<string>, integerPk: Option<string>, values: map<string, Value>): seq<string> {
    if columns == [] then []
    else
      var col := columns[|columns| - 1];
      InsertColumns(columns[..|columns| - 1], integerPk, values)
      + (if integerPk == Some(col) && Lookup(values, col) == Null then [] else [col])
  }

  /** `", ".join(["?"] * n)`. */
  function Placeholders(n: nat): string {
    if n == 0 then "" else if n == 1 then "?" else Placeholders(n - 1) + ", ?"
  }

  function QuoteAll(cols: seq<string>): (qs: seq<string>)
    ensures |qs| == |cols| && forall i :: 0 <= i < |cols| ==> qs[i] == QuoteIdentifier(cols[i])
  {
    seq(|cols|, i requires 0 <= i < |cols| => QuoteIdentifier(cols[i]))
  }

  /** The INSERT statement: `DEFAULT VALUES` when no column is left. */
  function InsertSql(table: string, cols: seq<string>): string {
    if cols == [] then "INSERT INTO " + QuoteIdentifier(table) + " DEFAULT VALUES"
    else "INSERT INTO " + QuoteIdentifier(table) + " (" + Join(", ", QuoteAll(cols)) + ") VALUES (" + Placeholders(|cols|) + ")"
  }

  /** `insert_row`'s loop and statement: the SQL and its parameters. */
  method InsertStatement(table: string, info: seq<ColumnInfo>, values: map<string, Value>)
    returns (sql: string, params: seq<Value>)
    ensures var cols := InsertColumns(Names(info), IntegerPk(info), values);
      sql == InsertSql(table, cols) && params == Params(values, cols)
  {
    var columns := Names(info);
    var integerPk := IntegerPk(info);
    var insertCols: seq<string> := [];
    params := [];
    for i := 0 to |columns|
      invariant insertCols == InsertColumns(columns[..i], integerPk, values)
      invariant params == Params(values, insertCols)
    {
      InsertColumnsStep(columns, i, integerPk, values);
      var col := columns[i];
      var value := Lookup(values, col);
      if !(integerPk == Some(col) && value == Null) {
        ParamsAppend(values, insertCols, col);
        insertCols := insertCols + [col];
        params := params + [value];
      }
    }
    assert columns[..|columns|] == columns;
    sql := InsertSql(table, insertCols);
  }

  lemma InsertColumnsStep(columns: seq<string>, i: nat, integerPk: Option<string>, values: map<string, Value>)
    requires i < |columns|
    ensures InsertColumns(columns[..i + 1], integerPk, values) == InsertColumns(columns[..i], integerPk, values)
      + (if integerPk == Some(columns[i]) && Lookup(values, columns[i]) == Null then [] else [columns[i]])
  {
    assert columns[..i + 1][..i] == columns[..i];
  }

  lemma ParamsAppend(values: map<string, Value>, cols: seq<string>, col: string)
    ensures Params(values, cols + [col]) == Params(values, cols) + [Lookup(values, col)]
  {
  }

  /**
   * Every column of the table is inserted, in table order, except the integer key
   * when no value is given for it; without such a key every column is inserted.
   */
  lemma {:induction false} InsertColumnsHas(columns: seq<string>, integerPk: Option<string>, values: map<string, Value>)
    ensures forall c :: c in InsertColumns(columns, integerPk, values) <==>
      c in columns && !(integerPk == Some(c) && Lookup(values, c) == Null)
    ensures integerPk.None? ==> InsertColumns(columns, integerPk, values) == columns
    ensures |InsertColumns(columns, integerPk, values)| <= |columns|
  {
    InsertColumnsMembers(columns, integerPk, values);
    InsertColumnsShorter(columns, integerPk, values);
    if integerPk.None? {
      InsertColumnsWithoutKey(columns, values);
    }
  }

  lemma {:induction false} InsertColumnsMembers(columns: seq<string>, integerPk: Option<string>, values: map<string, Value>)
    ensures forall c :: c in InsertColumns(columns, integerPk, values) <==>
      c in columns && !(integerPk == Some(c) && Lookup(values, c) == Null)
  {
    if columns != [] {
      var init := columns[..|columns| - 1];
      InsertColumnsMembers(init, integerPk, values);
      assert columns == init + [columns[|columns| - 1]];
    }
  }

  lemma {:induction false} InsertColumnsWithoutKey(columns: seq<string>, values: map<string, Value>)
    ensures InsertColumns(columns, None, values) == columns
  {
    if columns != [] {
      var init := columns[..|columns| - 1];
      InsertColumnsWithoutKey(init, values);
      assert columns == init + [columns[|columns| - 1]];
    }
  }

  lemma {:induction false} InsertColumnsShorter(columns: seq<string>, integerPk: Option<string>, values: map<string, Value>)
    ensures |InsertColumns(columns, integerPk, values)| <= |columns|
  {
    if columns != [] {
      InsertColumnsShorter(columns[..|columns| - 1], integerPk, values);
    }
  }

  /** `DEFAULT VALUES` is used exactly when every column is the integer key left without a value. */
  lemma DefaultValuesExactly(columns: seq<string>, integerPk: Option<string>, values: map<string, Value>)
    ensures InsertColumns(columns, integerPk, values) == [] <==>
      forall c :: c in columns ==> integerPk == Some(c) && Lookup(values, c) == Null
  {
    InsertColumnsHas(columns, integerPk, values);
    if InsertColumns(columns, integerPk, values) != [] {
      assert InsertColumns(columns, integerPk, values)[0] in InsertColumns(columns, integerPk, values);
    }
  }

  /** The placeholder list has one `?` per column. */
  lemma {:induction false} PlaceholderCount(n: nat)
    ensures multiset(Placeholders(n))['?'] == n
  {
    if n > 1 {
      PlaceholderCount(n - 1);
      assert multiset(Placeholders(n)) == multiset(Placeholders(n - 1)) + multiset(", ?");
    }
  }

  /** `set_cols`: every column, except the identifier's own column for a rowid identifier. */
  function SetColumns(columns: seq<string>, identifier: RowIdentifier): seq<string> {
    if columns == [] then []
    else
      var col := columns[|columns| - 1];
      SetColumns(columns[..|columns| - 1], identifier)
      + (if identifier.kind == "rowid" && col == identifier.column then [] else [col])
  }

  function Assignments(cols: seq<string>): (assigns: seq<string>)
    ensures |assigns| == |cols| && forall i :: 0 <= i < |cols| ==> assigns[i] == QuoteIdentifier(cols[i]) + " = ?"
  {
    seq(|cols|, i requires 0 <= i < |cols| => QuoteIdentifier(cols[i]) + " = ?")
  }

  /** The column of the WHERE clause: bare `rowid`, or the quoted key column. */
  function WhereColumn(identifier: RowIdentifier): string {
    if identifier.kind == "rowid" then "rowid" else QuoteIdentifier(identifier.column)
  }

  function UpdateSql(table: string, cols: seq<string>, identifier: RowIdentifier): string {
    "UPDATE " + QuoteIdentifier(table) + " SET " + Join(", ", Assignments(cols))
    + " WHERE " + WhereColumn(identifier) + " = ?"
  }

  /** `update_row`'s loop and statement: the SQL and its parameters, the identifier's value last. */
  method UpdateStatement(table: string, info: seq<ColumnInfo>, values: map<string, Value>,
                         identifier: RowIdentifier, identifierValue: Value)
    returns (sql: string, params: seq<Value>)
    ensures var cols := SetColumns(Names(info), identifier);
      sql == UpdateSql(table, cols, identifier) && params == Params(values, cols) + [identifierValue]
  {
    var columns := Names(info);
    var setCols: seq<string> := [];
    params := [];
    for i := 0 to |columns|
      invariant setCols == SetColumns(columns[..i], identifier)
      invariant params == Params(values, setCols)
    {
      assert columns[..i + 1][..i] == columns[..i];
      var col := columns[i];
      if !(identifier.kind == "rowid" && col == identifier.column) {
        setCols := setCols + [col];
        params := params + [Lookup(values, col)];
      }
    }
    assert columns[..|columns|] == columns;
    sql := UpdateSql(table, setCols, identifier);
    params := params + [identifierValue];
  }

  /**
   * A key identifier assigns every column; a rowid identifier assigns every column but
   * its own, in table order.
   */
  lemma {:induction false} SetColumnsHas(columns: seq<string>, identifier: RowIdentifier)
    ensures identifier.kind != "rowid" ==> SetColumns(columns, identifier) == columns
    ensures forall c :: c in SetColumns(columns, identifier) <==>
      c in columns && !(identifier.kind == "rowid" && c == identifier.column)
  {
    if columns != [] {
      var init := columns[..|columns| - 1];
      SetColumnsHas(init, identifier);
      assert columns == init + [columns[|columns| - 1]];
    }
  }

  // ---------------------------------------------------------------------------
  // _is_read_query
  // ---------------------------------------------------------------------------

  /** The leading run of non-space characters. */
  function TakeToken(s: string): (t: string)
    ensures t <= s && forall i :: 0 <= i < |t| ==> !IsSpace(t[i])
    ensures |t| < |s| ==> IsSpace(s[|t|])
  {
    if s == [] || IsSpace(s[0]) then [] else [s[0]] + TakeToken(s[1..])
  }

  /** `sql.lstrip().split(None, 1)[0]`: None when the text is blank (the index raises). */
  function FirstToken(sql: string): (t: Option<string>)
    ensures t.None? <==> AllSpace(sql)
    ensures t.Some? ==> t.value != []
  {
    var rest := TrimLeft(sql);
    if rest == [] then None else Some(TakeToken(rest))
  }

  /** The statements the console treats as reads. */
  predicate ReadKeyword(word: string) {
    word == "select" || word == "pragma" || word == "with" || word == "explain"
  }

  /** `_is_read_query`: whether the first word, lower-cased, is a read statement's keyword. */
  function IsReadQuery(sql: string): Option<bool> {
    match FirstToken(sql)
    case None => None
    case Some(token) => Some(ReadKeyword(AsciiLower(token)))
  }

  /**
   * A statement that opens with a read keyword in any letter case, before a space or
   * the end, is a read query; one that opens with any other word is not.
   */
  lemma KeywordOpens(k: string, rest: string)
    requires k != [] && forall i :: 0 <= i < |k| ==> !IsSpace(k[i])
    requires rest == [] || IsSpace(rest[0])
    ensures FirstToken(k + rest) == Some(k)
    ensures IsReadQuery(k + rest) == Some(ReadKeyword(AsciiLower(k)))
  {
    assert (k + rest)[0] == k[0];
    TakeTokenOf(k, rest);
  }

  /** Leading whitespace never changes how a statement is classified. */
  lemma LeadingSpaceIgnored(pad: string, sql: string)
    requires AllSpace(pad)
    ensures IsReadQuery(pad + sql) == IsReadQuery(sql)
  {
    TrimLeftSkipsSpace(pad, sql);
  }

  lemma {:induction false} TakeTokenOf(k: string, rest: string)
    requires forall i :: 0 <= i < |k| ==> !IsSpace(k[i])
    requires rest == [] || IsSpace(rest[0])
    ensures TakeToken(k + rest) == k
  {
    if k != [] {
      assert (k + rest)[1..] == k[1..] + rest;
      TakeTokenOf(k[1..], rest);
      assert [k[0]] + k[1..] == k;
    }
  }

  /** A word made of the given capital letters: no whitespace, and lower-casing shifts each letter. */
  lemma CapitalWord(w: string, lower: string)
    requires |w| == |lower|
    requires forall i :: 0 <= i < |w| ==> 'A' <= w[i] <= 'Z' && lower[i] == (w[i] as int + 32) as char
    ensures forall i :: 0 <= i < |w| ==> !IsSpace(w[i])
    ensures AsciiLower(w) == lower
  {
  }

  /** The console's SELECT statement in the editor's tests is a read, whatever follows `SELECT`. */
  lemma SelectIsRead(rest: string)
    requires rest == [] || IsSpace(rest[0])
    ensures IsReadQuery("SELECT" + rest) == Some(true)
  {
    var w := "SELECT";
    var lower := "select";
    assert w[0] == 'S' && w[1] == 'E' && w[2] == 'L' && w[3] == 'E' && w[4] == 'C' && w[5] == 'T';
    assert lower[0] == 's' && lower[1] == 'e' && lower[2] == 'l' && lower[3] == 'e' && lower[4] == 'c' && lower[5] == 't';
    CapitalWord(w, lower);
    KeywordOpens(w, rest);
  }

  /** The console's UPDATE statement in the editor's tests is a modification, whatever follows `UPDATE`. */
  lemma UpdateIsModify(rest: string)
    requires rest == [] || IsSpace(rest[0])
    ensures IsReadQuery("UPDATE" + rest) == Some(false)
  {
    var w := "UPDATE";
    var lower := "update";
    assert w[0] == 'U' && w[1] == 'P' && w[2] == 'D' && w[3] == 'A' && w[4] == 'T' && w[5] == 'E';
    assert lower[0] == 'u' && lower[1] == 'p' && lower[2] == 'd' && lower[3] == 'a' && lower[4] == 't' && lower[5] == 'e';
    CapitalWord(w, lower);
    KeywordOpens(w, rest);
    UpdateNotRead();
  }

  lemma UpdateNotRead()
    ensures !ReadKeyword("update")
  {
    var u := "update";
    assert u[0] == 'u';
    assert u != "select" by { assert "select"[0] == 's'; }
    assert u != "pragma" by { assert "pragma"[0] == 'p'; }
  }

  // ---------------------------------------------------------------------------
  // DatabaseManager
  // ---------------------------------------------------------------------------

  /** An open connection: the file it was opened on, and which `sqlite3.connect` call made it. */
  datatype Connection = Connection(path: string, serial: nat)

  /** What `execute_sql` reports: the rows of a read, or a modification. */
  datatype QueryKind = Select | Modify

  /** What `execute_sql` returns once the statement has run, by whether it reads. */
  function Executed(read: Option<bool>): (r: Result<QueryKind, DbError>)
    ensures r.Failure? <==> read.None?
    ensures r == Success(Select) <==> read == Some(true)
  {
    match read
    case None => Failure(BlankStatement)
    case Some(true) => Success(Select)
    case Some(false) => Success(Modify)
  }

  /**
   * The exceptions the manager lets through: a missing database file, a statement
   * sent with no connection open, and a blank statement in the console.
   */
  datatype DbError = NotFound(path: string) | NotConnected | BlankStatement

  /** The text Python shows for each error. */
  function Message(e: DbError): string {
    match e
    case NotFound(path) => "Database file not found: " + path
    case NotConnected => "'NoneType' object has no attribute 'execute'"
    case BlankStatement => "list index out of range"
  }

  class DatabaseManager {
    var dbPath: Option<string>
    var connection: Option<Connection>
    /** How many connections have been opened. */
    var openCount: nat
    /** The statements sent on the connection, with their parameters, in order. */
    var executed: seq<(string, seq<Value>)>
    /** How many times the connection was committed. */
    var commits: nat
    /** The connections closed so far, in order. */
    ghost var closed: seq<Connection>

    /** The fields `__init__` sets before it calls `open`. */
    constructor()
      ensures dbPath == None && connection == None && openCount == 0
      ensures executed == [] && commits == 0 && closed == []
    {
      dbPath := None;
      connection := None;
      openCount := 0;
      executed := [];
      commits := 0;
      closed := [];
    }

    /** `close`: the connection, if any, is closed and dropped. */
    method Close()
      modifies this
      ensures connection == None
      ensures closed == old(closed) + (if old(connection).Some? then [old(connection).value] else [])
      ensures dbPath == old(dbPath) && openCount == old(openCount) && executed == old(executed) && commits == old(commits)
    {
      if connection.Some? {
        closed := closed + [connection.value];
        connection := None;
      }
    }

    /**
     * `open`, given the paths that exist: a missing file raises before the current
     * connection is touched; otherwise the current connection is closed and a new one
     * opened on the path.
     */
    method Open(existing: set<string>, path: string) returns (r: Result<(), DbError>)
      modifies this
      ensures path !in existing ==>
        r == Failure(NotFound(path))
        && connection == old(connection) && dbPath == old(dbPath) && openCount == old(openCount) && closed == old(closed)
      ensures path in existing ==>
        r.Success? && connection == Some(Connection(path, old(openCount))) && dbPath == Some(path)
        && openCount == old(openCount) + 1
        && closed == old(closed) + (if old(connection).Some? then [old(connection).value] else [])
      ensures executed == old(executed) && commits == old(commits)
    {
      if path !in existing {
        return Failure(NotFound(path));
      }
      Close();
      connection := Some(Connection(path, openCount));
      openCount := openCount + 1;
      dbPath := Some(path);
      r := Success(());
    }

    /** `insert_row`, given the table's `PRAGMA table_info`: one statement, then a commit. */
    method InsertRow(table: string, info: seq<ColumnInfo>, values: map<string, Value>) returns (r: Result<(), DbError>)
      modifies this`executed, this`commits
      ensures connection.None? ==> r == Failure(NotConnected) && executed == old(executed) && commits == old(commits)
      ensures connection.Some? ==>
        var cols := InsertColumns(Names(info), IntegerPk(info), values);
        r.Success? && executed == old(executed) + [(InsertSql(table, cols), Params(values, cols))]
        && commits == old(commits) + 1
    {
      if connection.None? {
        return Failure(NotConnected);
      }
      var sql, params := InsertStatement(table, info, values);
      executed := executed + [(sql, params)];
      commits := commits + 1;
      r := Success(());
    }

    /** `update_row`, given the table's `PRAGMA table_info`: one statement, then a commit. */
    method UpdateRow(table: string, info: seq<ColumnInfo>, values: map<string, Value>,
                     identifier: RowIdentifier, identifierValue: Value) returns (r: Result<(), DbError>)
      modifies this`executed, this`commits
      ensures connection.None? ==> r == Failure(NotConnected) && executed == old(executed) && commits == old(commits)
      ensures connection.Some? ==>
        var cols := SetColumns(Names(info), identifier);
        r.Success? && executed == old(executed) + [(UpdateSql(table, cols, identifier), Params(values, cols) + [identifierValue])]
        && commits == old(commits) + 1
    {
      if connection.None? {
        return Failure(NotConnected);
      }
      var sql, params := UpdateStatement(table, info, values, identifier, identifierValue);
      executed := executed + [(sql, params)];
      commits := commits + 1;
      r := Success(());
    }

    /**
     * `execute_sql`: the stripped statement is executed; a read returns its rows with no
     * commit, anything else is committed; a blank statement raises after executing.
     */
    method ExecuteSql(sql: string) returns (r: Result<QueryKind, DbError>)
      modifies this`executed, this`commits
      ensures connection.None? ==> r == Failure(NotConnected) && executed == old(executed) && commits == old(commits)
      ensures connection.Some? ==> executed == old(executed) + [(Strip(sql), [])]
      ensures connection.Some? ==> r == Executed(IsReadQuery(Strip(sql)))
      ensures connection.Some? ==> commits == old(commits) + (if r == Success(Modify) then 1 else 0)
    {
      if connection.None? {
        return Failure(NotConnected);
      }
      var cleaned := Strip(sql);
      r := Executed(IsReadQuery(cleaned));
      Record(cleaned, r == Success(Modify));
    }

    /** One statement sent without parameters, then committed when asked. */
    method Record(statement: string, commit: bool)
      modifies this`executed, this`commits
      ensures executed == old(executed) + [(statement, [])]
      ensures commits == old(commits) + (if commit then 1 else 0)
    {
      var noParams: seq<Value> := [];
      executed := executed + [(statement, noParams)];
      if commit {
        commits := commits + 1;
      }
    }
  }
}
