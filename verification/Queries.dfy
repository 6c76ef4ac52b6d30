/** The six queries of server/sql_helpers.c, what they mean on the two tables,
    and which of them fit the child's read window. */
module Queries {
  import opened Text
  import opened Session
  import opened SqlText
  import opened SqlReader
  import opened SqlPipe

  datatype Tables = Tables(users: seq<UserRow>, nextId: nat, files: seq<FileRow>, nextFile: nat)

  // ------------------------------------------------------- table semantics of SQL

  function Bit(b: bool): string {
    if b then "1" else "0"
  }

  /** A quoted text without its quotes; a bare word as it is. */
  function Inner(value: string): string {
    if Quoted(value) then value[1..|value| - 1] else value
  }

  /** A value in a row of `users`: a double-quoted word that names a column is that
      column, a single-quoted text is itself, and a bare word is a number. */
  function UserValue(u: UserRow, value: string): Cell {
    if Quoted(value) then
      if value[0] == '"' then InUser(u, Inner(value)) else Chars(Inner(value))
    else Number(Atoi(value))
  }

  function FileValue(f: FileRow, value: string): Cell {
    if Quoted(value) then
      if value[0] == '"' then InFile(f, Inner(value)) else Chars(Inner(value))
    else Number(Atoi(value))
  }

  predicate Equal(cell: Cell, value: Cell) {
    match cell
    case Chars(s) => Same(s, value)
    case Number(n) => if value.Number? then n == value.n else Same(value.s, cell)
  }

  predicate CondHolds(cell: Cell, op: string, value: Cell) {
    if op == "=" then Equal(cell, value)
    else if op == "LIKE" && cell.Chars? && value.Chars? && value.s != "" && value.s[|value.s| - 1] == '%' then
      Like(value.s[..|value.s| - 1], cell.s)
    else false
  }

  predicate UserCond(u: UserRow, c: Cond) {
    match UserColumnOf(c.column)
    case None => false
    case Some(column) => CondHolds(UserCell(u, column), c.op, UserValue(u, c.value))
  }

  predicate FileCond(f: FileRow, c: Cond) {
    match FileColumnOf(c.column)
    case None => false
    case Some(column) => CondHolds(FileCell(f, column), c.op, FileValue(f, c.value))
  }

  predicate UserHolds(u: UserRow, conds: seq<Cond>) {
    forall c :: c in conds ==> UserCond(u, c)
  }

  predicate FileHolds(f: FileRow, conds: seq<Cond>) {
    forall c :: c in conds ==> FileCond(f, c)
  }

  /** The cells of the shown columns, as text. */
  function UserCells(u: UserRow, columns: seq<string>): seq<string> {
    seq(|columns|, i requires 0 <= i < |columns| =>
      match UserColumnOf(columns[i]) case None => "" case Some(column) => Stored(UserCell(u, column)))
  }

  function FileCells(f: FileRow, columns: seq<string>): seq<string> {
    seq(|columns|, i requires 0 <= i < |columns| =>
      match FileColumnOf(columns[i]) case None => "" case Some(column) => Stored(FileCell(f, column)))
  }

  function SelectUsers(users: seq<UserRow>, columns: seq<string>, conds: seq<Cond>): Rows
    decreases |users|
  {
    if users == [] then []
    else (if UserHolds(users[0], conds) then [UserCells(users[0], columns)] else [])
         + SelectUsers(users[1..], columns, conds)
  }

  function SelectFiles(files: seq<FileRow>, columns: seq<string>, conds: seq<Cond>): Rows
    decreases |files|
  {
    if files == [] then []
    else (if FileHolds(files[0], conds) then [FileCells(files[0], columns)] else [])
         + SelectFiles(files[1..], columns, conds)
  }

  /** The value given for a column, or the empty text. */
  function Given(columns: seq<string>, values: seq<string>, column: string): string
    requires |columns| == |values|
    decreases |columns|
  {
    if columns == [] then ""
    else if columns[0] == column then Inner(values[0])
    else Given(columns[1..], values[1..], column)
  }

  function UpdateUsers(users: seq<UserRow>, pass: string, conds: seq<Cond>): (r: seq<UserRow>)
    ensures |r| == |users|
  {
    seq(|users|, i requires 0 <= i < |users| =>
      if UserHolds(users[i], conds) then users[i].(password := Stored(UserValue(users[i], pass))) else users[i])
  }

  /** One statement on the two tables of the server; an UPDATE only ever sets passwords. */
  function RunQuery(t: Tables, q: Query): (Tables, Rows)
    requires Shaped(q)
  {
    match q
    case Select(table, columns, conds) =>
      if table == "users" then (t, SelectUsers(t.users, columns, conds))
      else if table == "files" then (t, SelectFiles(t.files, columns, conds))
      else (t, [])
    case Insert(table, columns, values) =>
      if table == "users" then
        (t.(users := t.users + [UserRow(t.nextId, Given(columns, values, "username"),
                                Given(columns, values, "password"), Given(columns, values, "home"),
                                Given(columns, values, "is_admin") == "1")],
            nextId := t.nextId + 1), [])
      else if table == "files" then
        (t.(files := t.files + [FileRow(t.nextFile, Given(columns, values, "path"),
                                Given(columns, values, "alias"), Atoi(Given(columns, values, "owner")))],
            nextFile := t.nextFile + 1), [])
      else (t, [])
    case Update(table, columns, values, conds) =>
      if table == "users" && columns == ["password"]
      then (t.(users := UpdateUsers(t.users, values[0], conds)), [])
      else (t, [])
  }

  // ------------------------------------------------------------- the six queries

  function Quote(s: string): string {
    "\"" + s + "\""
  }

  function HomePattern(home: string): string {
    "'" + home + "%'"
  }

  function FileQuery(alias: string, home: string): Query {
    Select("files", ["path"], [Cond("alias", "=", Quote(alias)), Cond("path", "LIKE", HomePattern(home))])
  }

  function AddFileQuery(alias: string, home: string): Query {
    Insert("files", ["path", "owner", "alias"], [Quote(home + "/" + alias), "2", Quote(alias)])
  }

  function LoginQuery(name: string, pass: string): Query {
    Select("users", ["home", "user_id", "is_admin"],
           [Cond("username", "=", Quote(name)), Cond("password", "=", Quote(pass))])
  }

  function UserQuery(name: string): Query {
    Select("users", ["home"], [Cond("username", "=", Quote(name))])
  }

  function AddUserQuery(name: string, pass: string, admin: bool): Query {
    Insert("users", ["username", "password", "home", "is_admin"],
           [Quote(name), Quote(pass), Quote("/fs/" + name), Quote(Bit(admin))])
  }

  function PassQuery(id: nat, pass: string): Query {
    Update("users", ["password"], [Quote(pass)], [Cond("user_id", "=", Decimal(id))])
  }

  lemma QuoteInner(s: string)
    requires '"' !in s
    ensures Quoted(Quote(s)) && Inner(Quote(s)) == s && |Quote(s)| == |s| + 2
  {
  }

  lemma PatternInner(home: string)
    requires '\'' !in home
    ensures Quoted(HomePattern(home)) && Inner(HomePattern(home)) == home + "%" && |HomePattern(home)| == |home| + 3
  {
  }

  lemma DecimalBare(n: nat)
    ensures Bare(Decimal(n)) && !Quoted(Decimal(n))
  {
  }

  lemma FileQueryWellFormed(alias: string, home: string)
    requires '"' !in alias && '\'' !in home
    ensures WellFormed(FileQuery(alias, home))
    ensures |Render(FileQuery(alias, home))| == 66 + |alias| + |home|
  {
    QuoteInner(alias);
    PatternInner(home);
    var c, d := Cond("alias", "=", Quote(alias)), Cond("path", "LIKE", HomePattern(home));
    assert GoodCond(c) && GoodCond(d);
    assert |CondText(c)| == 15 + |alias| && |CondText(d)| == 18 + |home|;
    TwoConds(c, d);
    OneField("path");
  }

  lemma OneCond(c: Cond)
    ensures |Where([c])| == 3 + |CondText(c)|
  {
    var s := [c];
    assert s[1..] == [];
    assert Conds(s) == CondText(c) + Conds(s[1..]);
    assert |Where(s)| == 3 + |Conds(s)|;
  }

  lemma TwoConds(c: Cond, d: Cond)
    ensures |Where([c, d])| == 3 + |CondText(c)| + |CondText(d)|
  {
    var s := [c, d];
    assert s[1..] == [d];
    OneCond(d);
    assert Conds(s) == CondText(c) + Conds(s[1..]);
    assert |Where(s)| == 3 + |Conds(s)|;
  }

  lemma FieldsStep(fs: seq<string>)
    requires |fs| > 1
    ensures |Fields(fs)| == |fs[0]| + 1 + |Fields(fs[1..])|
  {
  }

  lemma OneField(f: string)
    ensures Fields([f]) == f
  {
  }

  lemma ThreeFields(f: string, g: string, h: string)
    ensures |Fields([f, g, h])| == |f| + |g| + |h| + 2
  {
    var s, t := [f, g, h], [g, h];
    assert s[1..] == t && t[1..] == [h];
    FieldsStep(s);
    FieldsStep(t);
    OneField(h);
  }

  lemma FourFields(e: string, f: string, g: string, h: string)
    ensures |Fields([e, f, g, h])| == |e| + |f| + |g| + |h| + 3
  {
    var s := [e, f, g, h];
    assert s[1..] == [f, g, h];
    FieldsStep(s);
    ThreeFields(f, g, h);
  }

  lemma AddFileQueryWellFormed(alias: string, home: string)
    requires '"' !in alias && '"' !in home
    ensures WellFormed(AddFileQuery(alias, home))
    ensures |Render(AddFileQuery(alias, home))| == 53 + |home| + 2 * |alias|
  {
    QuoteInner(alias);
    QuoteInner(home + "/" + alias);
    var vals := [Quote(home + "/" + alias), "2", Quote(alias)];
    assert forall v :: v in vals ==> ValueText(v);
    ThreeFields("path", "owner", "alias");
    ThreeFields(vals[0], vals[1], vals[2]);
  }

  lemma ColumnNames()
    ensures NameText("username") && NameText("password") && NameText("users")
    ensures NameText("home") && NameText("user_id") && NameText("is_admin")
  {
  }

  lemma InsertWellFormed(table: string, columns: seq<string>, values: seq<string>)
    requires NameText(table) && 0 < |columns| == |values| < MAX_COLUMNS
    requires forall i :: 0 <= i < |columns| ==> NameText(columns[i]) && ValueText(values[i])
    ensures WellFormed(Insert(table, columns, values))
  {
  }

  lemma SelectWellFormed(table: string, columns: seq<string>, conds: seq<Cond>)
    requires NameText(table) && |columns| < MAX_COLUMNS
    requires forall i :: 0 <= i < |columns| ==> NameText(columns[i])
    requires forall i :: 0 <= i < |conds| ==> GoodCond(conds[i])
    ensures WellFormed(Select(table, columns, conds))
  {
  }

  lemma GoodEquals(column: string, s: string)
    requires NameText(column) && '"' !in s
    ensures GoodCond(Cond(column, "=", Quote(s)))
  {
  }

  lemma LoginQueryLength(name: string, pass: string)
    ensures |Render(LoginQuery(name, pass))| == 86 + |name| + |pass|
  {
    var c, d := Cond("username", "=", Quote(name)), Cond("password", "=", Quote(pass));
    assert |CondText(c)| == 18 + |name| && |CondText(d)| == 18 + |pass|;
    TwoConds(c, d);
    ThreeFields("home", "user_id", "is_admin");
  }

  lemma LoginQueryWellFormed(name: string, pass: string)
    requires '"' !in name && '"' !in pass
    ensures WellFormed(LoginQuery(name, pass))
    ensures |Render(LoginQuery(name, pass))| == 86 + |name| + |pass|
  {
    ColumnNames();
    GoodEquals("username", name);
    GoodEquals("password", pass);
    SelectWellFormed("users", ["home", "user_id", "is_admin"],
                     [Cond("username", "=", Quote(name)), Cond("password", "=", Quote(pass))]);
    LoginQueryLength(name, pass);
  }

  lemma UserQueryWellFormed(name: string)
    requires '"' !in name
    ensures WellFormed(UserQuery(name))
    ensures |Render(UserQuery(name))| == 51 + |name|
  {
    QuoteInner(name);
    var c := Cond("username", "=", Quote(name));
    assert GoodCond(c);
    assert |CondText(c)| == 18 + |name|;
    OneCond(c);
    OneField("home");
  }

  lemma AddUserQueryLength(name: string, pass: string, admin: bool)
    ensures |Render(AddUserQuery(name, pass, admin))| == 76 + 2 * |name| + |pass|
  {
    var q := AddUserQuery(name, pass, admin);
    assert |q.values[0]| == |name| + 2 && |q.values[1]| == |pass| + 2;
    assert |q.values[2]| == |name| + 6 && |q.values[3]| == 3;
    FourFields("username", "password", "home", "is_admin");
    FourFields(q.values[0], q.values[1], q.values[2], q.values[3]);
  }

  lemma AddUserQueryWellFormed(name: string, pass: string, admin: bool)
    requires '"' !in name && '"' !in pass
    ensures WellFormed(AddUserQuery(name, pass, admin))
    ensures |Render(AddUserQuery(name, pass, admin))| == 76 + 2 * |name| + |pass|
  {
    QuoteInner(name);
    QuoteInner(pass);
    QuoteInner("/fs/" + name);
    QuoteInner(Bit(admin));
    ColumnNames();
    InsertWellFormed("users", ["username", "password", "home", "is_admin"],
                     [Quote(name), Quote(pass), Quote("/fs/" + name), Quote(Bit(admin))]);
    AddUserQueryLength(name, pass, admin);
  }

  lemma PassQueryWellFormed(id: nat, pass: string)
    requires '"' !in pass
    ensures WellFormed(PassQuery(id, pass))
    ensures |Render(PassQuery(id, pass))| == 54 + |pass| + |Decimal(id)|
  {
    QuoteInner(pass);
    DecimalBare(id);
    var c := Cond("user_id", "=", Decimal(id));
    assert GoodCond(c);
    assert |CondText(c)| == 15 + |Decimal(id)|;
    OneCond(c);
    var ps := Pairs(["password"], [Quote(pass)]);
    assert ps == ["password" + "=" + Quote(pass)];
    OneField(ps[0]);
  }

  // ------------------------------------------------------------------ the six texts

  lemma TwoCondText(c: Cond, d: Cond)
    ensures Conds([c, d]) == CondText(c) + CondText(d)
  {
    assert [c, d][1..] == [d];
    OneCondText(d);
  }

  lemma OneCondText(c: Cond)
    ensures Conds([c]) == CondText(c)
  {
    assert [c][1..] == [];
    assert CondText(c) + "" == CondText(c);
  }

  lemma ThreeFieldText(f: string, g: string, h: string)
    ensures Fields([f, g, h]) == f + "," + g + "," + h
  {
    var s := [f, g, h];
    assert s[1..] == [g, h] && [g, h][1..] == [h];
    OneField(h);
    assert Fields([g, h]) == g + ("," + h);
  }

  lemma FourFieldText(e: string, f: string, g: string, h: string)
    ensures Fields([e, f, g, h]) == e + "," + f + "," + g + "," + h
  {
    var s := [e, f, g, h];
    assert s[1..] == [f, g, h];
    ThreeFieldText(f, g, h);
  }

  lemma SelectPieces(table: string, columns: seq<string>, conds: seq<Cond>)
    ensures RenderSelect(table, columns, conds) ==
      ("SELECT " + Fields(Shown(columns)) + " FROM " + table + " WHERE 1=1") + Conds(conds) + ";"
  {
    SelectRegroup("SELECT ", Fields(Shown(columns)), " FROM ", table, " WHERE ", "1=1", Conds(conds), ";");
    assert " WHERE " + "1=1" == " WHERE 1=1";
  }

  /** A SELECT for which no column was set asks for all of them. */
  lemma StarText(table: string, conds: seq<Cond>)
    ensures Render(Select(table, [], conds)) == "SELECT * FROM " + table + " WHERE 1=1" + Conds(conds) + ";"
  {
    SelectPieces(table, [], conds);
    OneField("*");
    assert "SELECT " + "*" + " FROM " == "SELECT * FROM ";
  }

  lemma SelectRegroup(a: string, b: string, c: string, d: string, e: string, f: string, g: string, h: string)
    ensures a + (b + (c + (d + (e + ((f + g) + h))))) == (a + b + c + d + (e + f)) + g + h
  {
  }

  lemma EqualsText(column: string, s: string)
    ensures CondText(Cond(column, "=", Quote(s))) == (" AND " + column + " = \"") + s + "\""
  {
    assert " = \"" == " " + "=" + " " + "\"";
  }

  /** Byte for byte, for every alias and home. */
  lemma FileText(alias: string, home: string)
    ensures Render(FileQuery(alias, home)) ==
      "SELECT path FROM files WHERE 1=1" + (" AND alias = \"" + alias + "\"" + (" AND path LIKE '" + home + "%'")) + ";"
  {
    var c, d := Cond("alias", "=", Quote(alias)), Cond("path", "LIKE", HomePattern(home));
    SelectPieces("files", ["path"], [c, d]);
    OneField("path");
    TwoCondText(c, d);
    EqualsText("alias", alias);
    assert " AND " + "alias" + " = \"" == " AND alias = \"";
    LikeText(home);
    assert "SELECT " + "path" + " FROM " + "files" + " WHERE 1=1" == "SELECT path FROM files WHERE 1=1";
  }

  lemma LikeText(home: string)
    ensures CondText(Cond("path", "LIKE", HomePattern(home))) == " AND path LIKE '" + home + "%'"
  {
    assert " AND " + "path" + " " + "LIKE" + " " + "'" == " AND path LIKE '";
  }

  lemma InsertPieces(table: string, names: string, values: string)
    ensures "INSERT INTO " + (table + ("(" + (names + (") VALUES(" + (values + ");"))))) ==
      ("INSERT INTO " + table + "(") + names + ") VALUES(" + values + ");"
  {
  }

  lemma AddFileText(alias: string, home: string)
    ensures Render(AddFileQuery(alias, home)) == "INSERT INTO files(" + "path,owner,alias" + ") VALUES("
      + (Quote(home + "/" + alias) + ",2," + Quote(alias)) + ");"
  {
    var values := Quote(home + "/" + alias) + ",2," + Quote(alias);
    ThreeFieldText(Quote(home + "/" + alias), "2", Quote(alias));
    assert Quote(home + "/" + alias) + "," + "2" + "," + Quote(alias) == values;
    InsertPieces("files", Fields(["path", "owner", "alias"]), values);
    AddFileNames();
    assert "INSERT INTO " + "files" + "(" == "INSERT INTO files(";
  }

  lemma AddFileNames()
    ensures Fields(["path", "owner", "alias"]) == "path,owner,alias"
  {
    ThreeFieldText("path", "owner", "alias");
    assert "path" + "," + "owner" + "," + "alias" == "path,owner,alias";
  }

  lemma LoginText(name: string, pass: string)
    ensures Render(LoginQuery(name, pass)) == "SELECT home,user_id,is_admin" + " FROM users WHERE 1=1"
      + (" AND username = \"" + name + "\"" + (" AND password = \"" + pass + "\"")) + ";"
  {
    var c, d := Cond("username", "=", Quote(name)), Cond("password", "=", Quote(pass));
    SelectPieces("users", ["home", "user_id", "is_admin"], [c, d]);
    LoginHead();
    TwoCondText(c, d);
    UsernameText(name);
    PasswordText(pass);
  }

  lemma LoginHead()
    ensures "SELECT " + Fields(["home", "user_id", "is_admin"]) + " FROM " + "users" + " WHERE 1=1" ==
      "SELECT home,user_id,is_admin" + " FROM users WHERE 1=1"
  {
    ThreeFieldText("home", "user_id", "is_admin");
    assert "SELECT " + ("home" + "," + "user_id" + "," + "is_admin") == "SELECT home,user_id,is_admin";
    assert " FROM " + "users" + " WHERE 1=1" == " FROM users WHERE 1=1";
  }

  lemma UsernameText(name: string)
    ensures CondText(Cond("username", "=", Quote(name))) == " AND username = \"" + name + "\""
  {
    EqualsText("username", name);
    assert " AND " + "username" + " = \"" == " AND username = \"";
  }

  lemma PasswordText(pass: string)
    ensures CondText(Cond("password", "=", Quote(pass))) == " AND password = \"" + pass + "\""
  {
    EqualsText("password", pass);
    assert " AND " + "password" + " = \"" == " AND password = \"";
  }

  lemma UserText(name: string)
    ensures Render(UserQuery(name)) ==
      "SELECT home FROM users WHERE 1=1" + (" AND username = \"" + name + "\"") + ";"
  {
    var c := Cond("username", "=", Quote(name));
    SelectPieces("users", ["home"], [c]);
    OneField("home");
    OneCondText(c);
    UsernameText(name);
    assert "SELECT " + "home" + " FROM " + "users" + " WHERE 1=1" == "SELECT home FROM users WHERE 1=1";
  }

  lemma AddUserText(name: string, pass: string, admin: bool)
    ensures Render(AddUserQuery(name, pass, admin)) ==
      "INSERT INTO users(" + "username,password,home,is_admin" + ") VALUES("
      + (Quote(name) + "," + Quote(pass) + "," + Quote("/fs/" + name) + "," + (if admin then "\"1\"" else "\"0\""))
      + ");"
  {
    var flag := if admin then "\"1\"" else "\"0\"";
    assert Quote(Bit(admin)) == flag;
    FourFieldText(Quote(name), Quote(pass), Quote("/fs/" + name), flag);
    InsertPieces("users", Fields(["username", "password", "home", "is_admin"]),
                 Quote(name) + "," + Quote(pass) + "," + Quote("/fs/" + name) + "," + flag);
    AddUserNames();
    assert "INSERT INTO " + "users" + "(" == "INSERT INTO users(";
  }

  lemma AddUserNames()
    ensures Fields(["username", "password", "home", "is_admin"]) == "username,password,home,is_admin"
  {
    FourFieldText("username", "password", "home", "is_admin");
    assert "username" + "," + "password" == "username,password";
    assert "," + "home" + "," + "is_admin" == ",home,is_admin";
    assert "username,password" + ",home,is_admin" == "username,password,home,is_admin";
  }

  lemma UpdatePieces(table: string, pair: string, conds: string)
    ensures "UPDATE " + (table + (" SET " + (pair + (" WHERE " + ("1=1" + conds + ";"))))) ==
      ("UPDATE " + table + " SET ") + pair + " WHERE 1=1" + conds + ";"
  {
    UpdateRegroup("UPDATE ", table, " SET ", pair, " WHERE ", "1=1", conds, ";");
    assert " WHERE " + "1=1" == " WHERE 1=1";
  }

  lemma UpdateRegroup(a: string, b: string, c: string, d: string, e: string, f: string, g: string, h: string)
    ensures a + (b + (c + (d + (e + (f + g + h))))) == (a + b + c) + d + (e + f) + g + h
  {
  }

  lemma PassText(id: nat, pass: string)
    ensures Render(PassQuery(id, pass)) ==
      "UPDATE users SET " + ("password=" + Quote(pass)) + " WHERE 1=1" + (" AND user_id = " + Decimal(id)) + ";"
  {
    var c, pair := Cond("user_id", "=", Decimal(id)), "password=" + Quote(pass);
    var pairs := Pairs(["password"], [Quote(pass)]);
    assert "password" + "=" == "password=";
    assert pairs == [pair];
    OneField(pair);
    OneCondText(c);
    assert " AND " + "user_id" + " " + "=" + " " == " AND user_id = ";
    UpdatePieces("users", pair, CondText(c));
    assert "UPDATE " + "users" + " SET " == "UPDATE users SET ";
  }

  // ------------------------------------------------------------------ the engine

  /** Words that text columns can be compared with as texts: they name no integer. */
  predicate UserWord(word: string) {
    Clean(word) && UserColumnOf(word) != Some(UserId) && UserColumnOf(word) != Some(IsAdmin)
  }

  predicate FileWord(word: string) {
    Clean(word) && FileColumnOf(word) != Some(FileId) && FileColumnOf(word) != Some(Owner)
  }

  /** The queries of server/sql_helpers.c, on texts that stay inside their quotes and
      are not compared with integers. */
  ghost predicate Issued(q: Query) {
    || (exists alias, home :: FileWord(alias) && HomeText(home) && q == FileQuery(alias, home))
    || (exists alias, home :: Clean(alias) && Clean(home) && q == AddFileQuery(alias, home))
    || (exists name, pass :: UserWord(name) && UserWord(pass) && q == LoginQuery(name, pass))
    || (exists name :: UserWord(name) && q == UserQuery(name))
    || (exists name, pass, admin :: Clean(name) && Clean(pass) && q == AddUserQuery(name, pass, admin))
    || (exists id, pass :: Clean(pass) && q == PassQuery(id, pass))
  }

  // ------------------------------------------------ what a text does to the tables

  /** A token in a row: digits are a number, another word a column, and a quoted text
      what its quotes make of it. */
  function UserTerm(u: UserRow, t: Token): Option<Cell> {
    match t
    case Word(w) =>
      if Digits(w) then Some(Number(Atoi(w)))
      else (match UserColumnOf(w) case None => None case Some(column) => Some(UserCell(u, column)))
    case QuotedText(quote, text) => Some(if quote == '"' then InUser(u, text) else Chars(text))
    case Mark(_) => None
  }

  function FileTerm(f: FileRow, t: Token): Option<Cell> {
    match t
    case Word(w) =>
      if Digits(w) then Some(Number(Atoi(w)))
      else (match FileColumnOf(w) case None => None case Some(column) => Some(FileCell(f, column)))
    case QuotedText(quote, text) => Some(if quote == '"' then InFile(f, text) else Chars(text))
    case Mark(_) => None
  }

  predicate Compare(a: Option<Cell>, op: string, b: Option<Cell>) {
    a.Some? && b.Some? && CondHolds(a.value, op, b.value)
  }

  predicate UserPasses(u: UserRow, tests: seq<Test>) {
    forall x :: x in tests ==> Compare(UserTerm(u, x.left), x.op, UserTerm(u, x.right))
  }

  predicate FilePasses(f: FileRow, tests: seq<Test>) {
    forall x :: x in tests ==> Compare(FileTerm(f, x.left), x.op, FileTerm(f, x.right))
  }

  function TokenAt(item: Item, i: nat): Token {
    if i < |item| then item[i] else STOP
  }

  function Shows(cell: Option<Cell>): string {
    match cell case None => "" case Some(c) => Stored(c)
  }

  function UserShown(u: UserRow, columns: seq<Item>): Row {
    seq(|columns|, i requires 0 <= i < |columns| => Shows(UserTerm(u, TokenAt(columns[i], 0))))
  }

  function FileShown(f: FileRow, columns: seq<Item>): Row {
    seq(|columns|, i requires 0 <= i < |columns| => Shows(FileTerm(f, TokenAt(columns[i], 0))))
  }

  function UsersPassing(users: seq<UserRow>, columns: seq<Item>, tests: seq<Test>): Rows {
    if users == [] then []
    else (if UserPasses(users[0], tests) then [UserShown(users[0], columns)] else [])
         + UsersPassing(users[1..], columns, tests)
  }

  function FilesPassing(files: seq<FileRow>, columns: seq<Item>, tests: seq<Test>): Rows {
    if files == [] then []
    else (if FilePasses(files[0], tests) then [FileShown(files[0], columns)] else [])
         + FilesPassing(files[1..], columns, tests)
  }

  /** In the values of an INSERT no column is in scope. */
  function Spelled(t: Token): string {
    match t case Word(w) => w case QuotedText(_, text) => text case Mark(_) => ""
  }

  function ValueFor(columns: seq<Item>, values: seq<Item>, column: string): string
    requires |columns| == |values|
    decreases |columns|
  {
    if columns == [] then ""
    else if TokenAt(columns[0], 0) == Word(column) then Spelled(TokenAt(values[0], 0))
    else ValueFor(columns[1..], values[1..], column)
  }

  function UserInserted(t: Tables, columns: seq<Item>, values: seq<Item>): Tables
    requires |columns| == |values|
  {
    t.(users := t.users + [UserRow(t.nextId, ValueFor(columns, values, "username"),
                           ValueFor(columns, values, "password"), ValueFor(columns, values, "home"),
                           ValueFor(columns, values, "is_admin") == "1")],
       nextId := t.nextId + 1)
  }

  function FileInserted(t: Tables, columns: seq<Item>, values: seq<Item>): Tables
    requires |columns| == |values|
  {
    t.(files := t.files + [FileRow(t.nextFile, ValueFor(columns, values, "path"),
                           ValueFor(columns, values, "alias"), Atoi(ValueFor(columns, values, "owner")))],
       nextFile := t.nextFile + 1)
  }

  /** UPDATE users SET password = value */
  function PasswordsSet(users: seq<UserRow>, value: Token, tests: seq<Test>): seq<UserRow> {
    seq(|users|, i requires 0 <= i < |users| =>
      if UserPasses(users[i], tests) then users[i].(password := Shows(UserTerm(users[i], value))) else users[i])
  }

  function RunStatement(t: Tables, st: Statement): (Tables, Rows) {
    match st
    case SelectRows(columns, table, tests) =>
      if table == "users" then (t, UsersPassing(t.users, columns, tests))
      else if table == "files" then (t, FilesPassing(t.files, columns, tests))
      else (t, [])
    case InsertRow(table, columns, values) =>
      if |columns| != |values| then (t, [])
      else if table == "users" then (UserInserted(t, columns, values), [])
      else if table == "files" then (FileInserted(t, columns, values), [])
      else (t, [])
    case UpdateRows(table, sets, tests) =>
      if table == "users" && |sets| == 1 && TokenAt(sets[0], 0) == Word("password")
      then (t.(users := PasswordsSet(t.users, TokenAt(sets[0], 2), tests)), [])
      else (t, [])
  }

  /** What running a text does: it is read, without knowing how it was made, and the
      statement is carried out row by row. */
  function RunText(t: Tables, text: string): (Tables, Rows) {
    match Read(text)
    case None => (t, [])
    case Some(st) => RunStatement(t, st)
  }

  // ------------------------------------------ the text does what the builder was told

  /** Words are columns or numbers, as their place asks for. */
  predicate ColumnWord(s: string) {
    WordText(s) && !Digits(s)
  }

  predicate NumberOrText(v: string) {
    Quoted(v) || (WordText(v) && Digits(v))
  }

  predicate CondClear(c: Cond) {
    ColumnWord(c.column) && c.op in {"=", "LIKE"} && NumberOrText(c.value)
  }

  predicate ClearText(q: Query) {
    && Shaped(q) && WordText(q.table) && q.columns != []
    && (forall c :: c in q.columns ==> ColumnWord(c))
    && (!q.Select? ==> forall v :: v in q.values ==> NumberOrText(v))
    && (!q.Insert? ==> forall c :: c in q.conds ==> CondClear(c))
  }

  lemma WordNotQuoted(s: string)
    requires WordText(s)
    ensures !Quoted(s) && TokenOf(s) == Word(s)
  {
    assert WordChar(s[0]);
  }

  lemma UserTestExact(u: UserRow, c: Cond)
    requires CondClear(c)
    ensures var x := TestOf(c); Compare(UserTerm(u, x.left), x.op, UserTerm(u, x.right)) <==> UserCond(u, c)
  {
  }

  lemma FileTestExact(f: FileRow, c: Cond)
    requires CondClear(c)
    ensures var x := TestOf(c); Compare(FileTerm(f, x.left), x.op, FileTerm(f, x.right)) <==> FileCond(f, c)
  {
  }

  lemma UserAlways(u: UserRow)
    ensures Compare(UserTerm(u, ALWAYS.left), ALWAYS.op, UserTerm(u, ALWAYS.right))
  {
  }

  lemma FileAlways(f: FileRow)
    ensures Compare(FileTerm(f, ALWAYS.left), ALWAYS.op, FileTerm(f, ALWAYS.right))
  {
  }

  /** The tests read from a WHERE: the constant one, and one for each condition. */
  lemma TestsIn(cs: seq<Cond>)
    ensures ALWAYS in [ALWAYS] + TestsOf(cs)
    ensures forall c :: c in cs ==> TestOf(c) in [ALWAYS] + TestsOf(cs)
    ensures forall x :: x in [ALWAYS] + TestsOf(cs) ==> x == ALWAYS || exists c :: c in cs && x == TestOf(c)
  {
    var tests := [ALWAYS] + TestsOf(cs);
    assert tests[0] == ALWAYS;
    forall c | c in cs
      ensures TestOf(c) in tests
    {
      var i :| 0 <= i < |cs| && cs[i] == c;
      assert tests[i + 1] == TestOf(c);
    }
    forall x | x in tests && x != ALWAYS
      ensures exists c :: c in cs && x == TestOf(c)
    {
      var i :| 0 <= i < |tests| && tests[i] == x;
      assert cs[i - 1] in cs && x == TestOf(cs[i - 1]);
    }
  }

  lemma UserPassesExact(u: UserRow, cs: seq<Cond>)
    requires forall c :: c in cs ==> CondClear(c)
    ensures UserPasses(u, [ALWAYS] + TestsOf(cs)) <==> UserHolds(u, cs)
  {
    TestsIn(cs);
    UserAlways(u);
    forall c | c in cs
      ensures Compare(UserTerm(u, TestOf(c).left), TestOf(c).op, UserTerm(u, TestOf(c).right)) <==> UserCond(u, c)
    {
      UserTestExact(u, c);
    }
  }

  lemma FilePassesExact(f: FileRow, cs: seq<Cond>)
    requires forall c :: c in cs ==> CondClear(c)
    ensures FilePasses(f, [ALWAYS] + TestsOf(cs)) <==> FileHolds(f, cs)
  {
    TestsIn(cs);
    FileAlways(f);
    forall c | c in cs
      ensures Compare(FileTerm(f, TestOf(c).left), TestOf(c).op, FileTerm(f, TestOf(c).right)) <==> FileCond(f, c)
    {
      FileTestExact(f, c);
    }
  }

  lemma UserShownExact(u: UserRow, columns: seq<string>)
    requires forall c :: c in columns ==> ColumnWord(c)
    ensures UserShown(u, Singles(columns)) == UserCells(u, columns)
  {
    forall i | 0 <= i < |columns|
      ensures UserShown(u, Singles(columns))[i] == UserCells(u, columns)[i]
    {
      assert columns[i] in columns;
      WordNotQuoted(columns[i]);
    }
  }

  lemma FileShownExact(f: FileRow, columns: seq<string>)
    requires forall c :: c in columns ==> ColumnWord(c)
    ensures FileShown(f, Singles(columns)) == FileCells(f, columns)
  {
    forall i | 0 <= i < |columns|
      ensures FileShown(f, Singles(columns))[i] == FileCells(f, columns)[i]
    {
      assert columns[i] in columns;
      WordNotQuoted(columns[i]);
    }
  }

  lemma {:induction false} UsersPassingExact(users: seq<UserRow>, columns: seq<string>, cs: seq<Cond>)
    requires (forall c :: c in columns ==> ColumnWord(c)) && (forall c :: c in cs ==> CondClear(c))
    ensures UsersPassing(users, Singles(columns), [ALWAYS] + TestsOf(cs)) == SelectUsers(users, columns, cs)
    decreases |users|
  {
    if users != [] {
      UserPassesExact(users[0], cs);
      UserShownExact(users[0], columns);
      UsersPassingExact(users[1..], columns, cs);
    }
  }

  lemma {:induction false} FilesPassingExact(files: seq<FileRow>, columns: seq<string>, cs: seq<Cond>)
    requires (forall c :: c in columns ==> ColumnWord(c)) && (forall c :: c in cs ==> CondClear(c))
    ensures FilesPassing(files, Singles(columns), [ALWAYS] + TestsOf(cs)) == SelectFiles(files, columns, cs)
    decreases |files|
  {
    if files != [] {
      FilePassesExact(files[0], cs);
      FileShownExact(files[0], columns);
      FilesPassingExact(files[1..], columns, cs);
    }
  }

  lemma {:induction false} ValueForExact(columns: seq<string>, values: seq<string>, column: string)
    requires |columns| == |values|
    requires (forall c :: c in columns ==> WordText(c)) && (forall v :: v in values ==> ValueOk(v))
    ensures ValueFor(Singles(columns), Singles(values), column) == Given(columns, values, column)
    decreases |columns|
  {
    if columns != [] {
      assert columns[0] in columns && values[0] in values;
      WordNotQuoted(columns[0]);
      assert Singles(columns)[1..] == Singles(columns[1..]) && Singles(values)[1..] == Singles(values[1..]);
      ValueForExact(columns[1..], values[1..], column);
    }
  }

  lemma PasswordsSetExact(users: seq<UserRow>, value: string, cs: seq<Cond>)
    requires NumberOrText(value) && forall c :: c in cs ==> CondClear(c)
    ensures PasswordsSet(users, TokenOf(value), [ALWAYS] + TestsOf(cs)) == UpdateUsers(users, value, cs)
  {
    forall i | 0 <= i < |users|
      ensures UserPasses(users[i], [ALWAYS] + TestsOf(cs)) <==> UserHolds(users[i], cs)
    {
      UserPassesExact(users[i], cs);
    }
  }

  lemma SelectMeans(t: Tables, q: Query)
    requires ClearText(q) && q.Select?
    ensures RunText(t, Render(q)) == RunQuery(t, q)
  {
    ReadSelectExact(q);
    UsersPassingExact(t.users, q.columns, q.conds);
    FilesPassingExact(t.files, q.columns, q.conds);
  }

  lemma UserInsertMeans(t: Tables, q: Query)
    requires ClearText(q) && q.Insert? && q.table == "users"
    ensures RunStatement(t, InsertRow(q.table, Singles(q.columns), Singles(q.values))) == RunQuery(t, q)
  {
    ValueForExact(q.columns, q.values, "username");
    ValueForExact(q.columns, q.values, "password");
    ValueForExact(q.columns, q.values, "home");
    ValueForExact(q.columns, q.values, "is_admin");
  }

  lemma FileInsertMeans(t: Tables, q: Query)
    requires ClearText(q) && q.Insert? && q.table == "files"
    ensures RunStatement(t, InsertRow(q.table, Singles(q.columns), Singles(q.values))) == RunQuery(t, q)
  {
    ValueForExact(q.columns, q.values, "path");
    ValueForExact(q.columns, q.values, "alias");
    ValueForExact(q.columns, q.values, "owner");
  }

  lemma InsertMeans(t: Tables, q: Query)
    requires ClearText(q) && q.Insert?
    ensures RunText(t, Render(q)) == RunQuery(t, q)
  {
    ReadInsertExact(q);
    if q.table == "users" {
      UserInsertMeans(t, q);
    } else if q.table == "files" {
      FileInsertMeans(t, q);
    }
  }

  lemma UpdateMeans(t: Tables, q: Query)
    requires ClearText(q) && q.Update?
    ensures RunText(t, Render(q)) == RunQuery(t, q)
  {
    ReadUpdateExact(q);
    FirstSet(q.columns, q.values);
    if q.table == "users" && q.columns == ["password"] {
      assert q.values[0] in q.values;
      PasswordsSetExact(t.users, q.values[0], q.conds);
    }
  }

  lemma FirstSet(columns: seq<string>, values: seq<string>)
    requires 0 < |columns| == |values|
    ensures TokenAt(Sets(columns, values)[0], 0) == Word(columns[0])
    ensures TokenAt(Sets(columns, values)[0], 2) == TokenOf(values[0])
    ensures columns == ["password"] <==> |Sets(columns, values)| == 1 && columns[0] == "password"
  {
  }

  /** The text does to the tables what the builder was told: it is read back without
      knowledge of the builder, its constant comparison holds of every row, and what is
      left selects, adds and changes exactly the rows and columns meant. */
  lemma TextMeans(t: Tables, q: Query)
    requires ClearText(q)
    ensures RunText(t, Render(q)) == RunQuery(t, q)
  {
    match q
    case Select(_, _, _) => SelectMeans(t, q);
    case Insert(_, _, _) => InsertMeans(t, q);
    case Update(_, _, _, _) => UpdateMeans(t, q);
  }

  lemma QuoteClear(s: string)
    requires '"' !in s
    ensures NumberOrText(Quote(s))
  {
    QuoteInner(s);
  }

  lemma LetterFirst(s: string)
    requires WordText(s) && 'a' <= s[0] <= 'z'
    ensures ColumnWord(s)
  {
  }

  lemma WordsClear()
    ensures ColumnWord("username") && ColumnWord("password") && ColumnWord("home") && ColumnWord("user_id")
    ensures ColumnWord("is_admin") && WordText("users")
  {
    LetterFirst("username");
    LetterFirst("password");
    LetterFirst("home");
    LetterFirst("user_id");
    LetterFirst("is_admin");
  }

  lemma FileWordsClear()
    ensures ColumnWord("path") && ColumnWord("owner") && ColumnWord("alias")
    ensures WordText("files") && NumberOrText("2")
  {
    LetterFirst("path");
    LetterFirst("owner");
    LetterFirst("alias");
  }

  lemma DecimalClear(n: nat)
    ensures NumberOrText(Decimal(n))
  {
  }

  lemma EqualsClear(column: string, s: string)
    requires ColumnWord(column) && '"' !in s
    ensures CondClear(Cond(column, "=", Quote(s)))
  {
    QuoteClear(s);
  }

  lemma FileClear(alias: string, home: string)
    requires '"' !in alias && '\'' !in home
    ensures ClearText(FileQuery(alias, home))
  {
    FileWordsClear();
    EqualsClear("alias", alias);
    PatternInner(home);
    assert CondClear(Cond("path", "LIKE", HomePattern(home)));
  }

  lemma AddFileClear(alias: string, home: string)
    requires '"' !in alias && '"' !in home
    ensures ClearText(AddFileQuery(alias, home))
  {
    FileWordsClear();
    QuoteClear(home + "/" + alias);
    QuoteClear(alias);
  }

  lemma LoginClear(name: string, pass: string)
    requires '"' !in name && '"' !in pass
    ensures ClearText(LoginQuery(name, pass))
  {
    WordsClear();
    EqualsClear("username", name);
    EqualsClear("password", pass);
  }

  lemma UserClear(name: string)
    requires '"' !in name
    ensures ClearText(UserQuery(name))
  {
    WordsClear();
    EqualsClear("username", name);
  }

  lemma AddUserClear(name: string, pass: string, admin: bool)
    requires '"' !in name && '"' !in pass
    ensures ClearText(AddUserQuery(name, pass, admin))
  {
    WordsClear();
    QuoteClear(name);
    QuoteClear(pass);
    QuoteClear("/fs/" + name);
    QuoteClear(Bit(admin));
  }

  lemma PassClear(id: nat, pass: string)
    requires '"' !in pass
    ensures ClearText(PassQuery(id, pass))
  {
    WordsClear();
    QuoteClear(pass);
    DecimalClear(id);
    assert CondClear(Cond("user_id", "=", Decimal(id)));
  }

  lemma IssuedClear(q: Query)
    requires Issued(q)
    ensures ClearText(q)
  {
    if alias, home :| FileWord(alias) && HomeText(home) && q == FileQuery(alias, home) {
      FileClear(alias, home);
    } else if alias, home :| Clean(alias) && Clean(home) && q == AddFileQuery(alias, home) {
      AddFileClear(alias, home);
    } else if name, pass :| UserWord(name) && UserWord(pass) && q == LoginQuery(name, pass) {
      LoginClear(name, pass);
    } else if name :| UserWord(name) && q == UserQuery(name) {
      UserClear(name);
    } else if name, pass, admin :| Clean(name) && Clean(pass) && q == AddUserQuery(name, pass, admin) {
      AddUserClear(name, pass, admin);
    } else {
      var id, pass :| Clean(pass) && q == PassQuery(id, pass);
      PassClear(id, pass);
    }
  }

  /** What is assumed of the SQL engine: on the texts of these queries it does what
      reading them says, taking quoted column names for columns. */
  ghost predicate EngineOk(exec: Engine<Tables>) {
    forall t: Tables, q: Query :: Issued(q) && Shaped(q) ==> exec(t, Render(q)) == RunText(t, Render(q))
  }

  /** So the engine does what the builder was told. */
  lemma EngineMeans(exec: Engine<Tables>, t: Tables, q: Query)
    requires EngineOk(exec) && Issued(q)
    ensures Shaped(q) && exec(t, Render(q)) == RunQuery(t, q)
  {
    IssuedClear(q);
    TextMeans(t, q);
  }

  /** Such an engine exists: the reader itself. */
  lemma EngineExists()
    ensures exists exec: Engine<Tables> :: EngineOk(exec)
  {
    ghost var exec: Engine<Tables> := (t: Tables, text: string) => RunText(t, text);
    assert EngineOk(exec);
  }

  // --------------------------------------------------- what the six queries return

  lemma ShownColumns()
    ensures UserColumnOf("username") == Some(Username) && UserColumnOf("password") == Some(Password)
    ensures UserColumnOf("home") == Some(Home) && UserColumnOf("user_id") == Some(UserId)
    ensures UserColumnOf("is_admin") == Some(IsAdmin)
    ensures FileColumnOf("alias") == Some(AliasColumn) && FileColumnOf("path") == Some(PathColumn)
  {
    assert Lower("username") == "username" && Lower("password") == "password" && Lower("home") == "home";
    assert Lower("user_id") == "user_id" && Lower("is_admin") == "is_admin";
    assert Lower("alias") == "alias" && Lower("path") == "path";
  }

  lemma AliasCond(f: FileRow, alias: string)
    requires '"' !in alias
    ensures FileCond(f, Cond("alias", "=", Quote(alias))) <==> Same(f.alias, InFile(f, alias))
  {
    QuoteInner(alias);
    ShownColumns();
  }

  lemma PathCond(f: FileRow, home: string)
    requires '\'' !in home
    ensures FileCond(f, Cond("path", "LIKE", HomePattern(home))) <==> Like(home, f.path)
  {
    PatternInner(home);
    ShownColumns();
    var pattern := home + "%";
    assert pattern[..|pattern| - 1] == home;
  }

  lemma FileHoldsExact(f: FileRow, alias: string, home: string)
    requires '"' !in alias && '\'' !in home
    ensures FileHolds(f, FileQuery(alias, home).conds) <==> IsFile(f, alias, home)
  {
    AliasCond(f, alias);
    PathCond(f, home);
    BothHold(f, Cond("alias", "=", Quote(alias)), Cond("path", "LIKE", HomePattern(home)));
  }

  lemma BothHold(f: FileRow, c: Cond, d: Cond)
    ensures FileHolds(f, [c, d]) <==> FileCond(f, c) && FileCond(f, d)
  {
    assert forall x :: x in [c, d] <==> x == c || x == d;
  }

  lemma PathCell(f: FileRow)
    ensures FileCells(f, ["path"]) == [f.path]
  {
    ShownColumns();
  }

  lemma {:induction false} FileRows(files: seq<FileRow>, alias: string, home: string)
    requires '"' !in alias && '\'' !in home
    ensures var rows := SelectFiles(files, ["path"], FileQuery(alias, home).conds);
      match FindPath(files, alias, home)
      case Some(path) => rows != [] && rows[0] == [path]
      case None => rows == []
    decreases |files|
  {
    if files != [] {
      FileHoldsExact(files[0], alias, home);
      FileRows(files[1..], alias, home);
      PathCell(files[0]);
    }
  }

  lemma LoginHoldsExact(u: UserRow, name: string, pass: string)
    requires '"' !in name && '"' !in pass
    ensures UserHolds(u, LoginQuery(name, pass).conds) <==> HasLogin(u, name, pass)
  {
    QuoteInner(name);
    QuoteInner(pass);
    ShownColumns();
    var c, d := Cond("username", "=", Quote(name)), Cond("password", "=", Quote(pass));
    assert UserCond(u, c) <==> Same(u.username, InUser(u, name));
    assert UserCond(u, d) <==> Same(u.password, InUser(u, pass));
    assert LoginQuery(name, pass).conds == [c, d];
    assert forall x :: x in [c, d] <==> x == c || x == d;
  }

  function LoginCells(u: UserRow): Row {
    [u.home, Decimal(u.id), Bit(u.admin)]
  }

  lemma LoginCellsShown(u: UserRow)
    ensures UserCells(u, ["home", "user_id", "is_admin"]) == LoginCells(u)
  {
    ShownColumns();
    assert Bit(true) == Decimal(1) && Bit(false) == Decimal(0);
  }

  lemma {:induction false} LoginRows(users: seq<UserRow>, name: string, pass: string)
    requires '"' !in name && '"' !in pass
    ensures var rows := SelectUsers(users, ["home", "user_id", "is_admin"], LoginQuery(name, pass).conds);
      match FindLogin(users, name, pass)
      case Some(u) => rows != [] && rows[0] == LoginCells(u)
      case None => rows == []
    decreases |users|
  {
    if users != [] {
      LoginHoldsExact(users[0], name, pass);
      LoginRows(users[1..], name, pass);
      LoginCellsShown(users[0]);
    }
  }

  lemma UserHoldsExact(u: UserRow, name: string)
    requires '"' !in name
    ensures UserHolds(u, UserQuery(name).conds) <==> Same(u.username, InUser(u, name))
  {
    QuoteInner(name);
    ShownColumns();
    var c := Cond("username", "=", Quote(name));
    assert UserCond(u, c) <==> Same(u.username, InUser(u, name));
    assert UserQuery(name).conds == [c];
  }

  lemma {:induction false} UserRows(users: seq<UserRow>, name: string)
    requires '"' !in name
    ensures SelectUsers(users, ["home"], UserQuery(name).conds) != [] <==> Found(users, name)
    decreases |users|
  {
    if users != [] {
      UserHoldsExact(users[0], name);
      UserRows(users[1..], name);
      FoundStep(users, name);
    }
  }

  lemma FoundStep(users: seq<UserRow>, name: string)
    requires users != []
    ensures Found(users, name) <==> Same(users[0].username, InUser(users[0], name)) || Found(users[1..], name)
  {
    assert forall i :: 0 < i < |users| ==> users[i] == users[1..][i - 1];
  }

  lemma AddFileValues(alias: string, home: string)
    requires '"' !in alias && '"' !in home
    ensures var q := AddFileQuery(alias, home);
      && Given(q.columns, q.values, "path") == FilePath(home, alias)
      && Given(q.columns, q.values, "owner") == "2"
      && Given(q.columns, q.values, "alias") == alias
  {
    QuoteInner(alias);
    QuoteInner(home + "/" + alias);
    var c, v := ["path", "owner", "alias"], [Quote(home + "/" + alias), "2", Quote(alias)];
    GivenNext(c, v, "owner");
    GivenNext(c, v, "alias");
    GivenNext(c[1..], v[1..], "alias");
  }

  lemma AddFileMeaning(t: Tables, alias: string, home: string)
    requires '"' !in alias && '"' !in home
    ensures RunQuery(t, AddFileQuery(alias, home)) ==
      (t.(files := t.files + [FileRow(t.nextFile, FilePath(home, alias), alias, 2)], nextFile := t.nextFile + 1), [])
  {
    AddFileValues(alias, home);
    assert Decimal(2) == "2";
    AtoiDecimal(2);
  }

  lemma GivenNext(c: seq<string>, v: seq<string>, column: string)
    requires 0 < |c| == |v| && c[0] != column
    ensures Given(c, v, column) == Given(c[1..], v[1..], column)
  {
  }

  lemma AddUserValues(name: string, pass: string, admin: bool)
    requires '"' !in name && '"' !in pass
    ensures var q := AddUserQuery(name, pass, admin);
      && Given(q.columns, q.values, "username") == name
      && Given(q.columns, q.values, "password") == pass
      && Given(q.columns, q.values, "home") == "/fs/" + name
      && Given(q.columns, q.values, "is_admin") == Bit(admin)
  {
    QuoteInner(name);
    QuoteInner(pass);
    QuoteInner("/fs/" + name);
    QuoteInner(Bit(admin));
    var c := ["username", "password", "home", "is_admin"];
    var v := [Quote(name), Quote(pass), Quote("/fs/" + name), Quote(Bit(admin))];
    var c1, v1 := c[1..], v[1..];
    var c2, v2 := c1[1..], v1[1..];
    GivenNext(c, v, "password");
    GivenNext(c, v, "home");
    GivenNext(c1, v1, "home");
    GivenNext(c, v, "is_admin");
    GivenNext(c1, v1, "is_admin");
    GivenNext(c2, v2, "is_admin");
  }

  lemma AddUserMeaning(t: Tables, name: string, pass: string, admin: bool)
    requires '"' !in name && '"' !in pass
    ensures RunQuery(t, AddUserQuery(name, pass, admin)) ==
      (t.(users := t.users + [UserRow(t.nextId, name, pass, "/fs/" + name, admin)], nextId := t.nextId + 1), [])
  {
    AddUserValues(name, pass, admin);
    assert Bit(admin) == "1" <==> admin;
  }

  lemma PassMeaning(t: Tables, id: nat, pass: string)
    requires '"' !in pass
    ensures RunQuery(t, PassQuery(id, pass)) == (t.(users := SetPassword(t.users, id, pass)), [])
  {
    QuoteInner(pass);
    forall i | 0 <= i < |t.users|
      ensures UserHolds(t.users[i], PassQuery(id, pass).conds) <==> t.users[i].id == id
    {
      IdHoldsExact(t.users[i], id, pass);
    }
    assert UpdateUsers(t.users, Quote(pass), PassQuery(id, pass).conds) == SetPassword(t.users, id, pass);
  }

  lemma IdHoldsExact(u: UserRow, id: nat, pass: string)
    ensures UserHolds(u, PassQuery(id, pass).conds) <==> u.id == id
  {
    DecimalBare(id);
    AtoiDecimal(id);
    ShownColumns();
    var c := Cond("user_id", "=", Decimal(id));
    assert UserCond(u, c) <==> u.id == id;
    assert PassQuery(id, pass).conds == [c];
  }

  /** A text with a quote in it ends early: logging in with one's password, a quote
      and one more condition is another query, and it finds the row. */
  lemma QuoteEndsText(u: UserRow)
    requires Clean(u.username) && Clean(u.password) && Clean(u.home)
    requires UserColumnOf(u.username) == None && UserColumnOf(u.password) == None && UserColumnOf(u.home) == None
    ensures var pass := TwoInOne(u.password, u.home);
      && pass != u.password
      && Render(LoginQuery(u.username, pass)) == Render(Select("users", ["home", "user_id", "is_admin"], OwnConds(u)))
      && UserHolds(u, OwnConds(u))
  {
    var pass := TwoInOne(u.password, u.home);
    assert |pass| > |u.password|;
    OwnCondsHold(u);
    TwoInOneText(u.password, u.home);
    SplitCond(Cond("username", "=", Quote(u.username)), Cond("password", "=", Quote(pass)),
              Cond("password", "=", Quote(u.password)), Cond("home", "=", Quote(u.home)));
  }

  /** A password, the quote that ends it, and a second condition. */
  function TwoInOne(pass: string, home: string): string {
    pass + ("\"" + " AND home = " + "\"") + home
  }

  function OwnConds(u: UserRow): seq<Cond> {
    [Cond("username", "=", Quote(u.username)), Cond("password", "=", Quote(u.password)),
     Cond("home", "=", Quote(u.home))]
  }

  lemma OwnCondHolds(u: UserRow, column: string, text: string)
    requires '"' !in text && UserColumnOf(text) == None && UserColumnOf(column).Some?
    requires UserCell(u, UserColumnOf(column).value) == Chars(text)
    ensures UserCond(u, Cond(column, "=", Quote(text)))
  {
    QuoteInner(text);
  }

  lemma OwnCondsHold(u: UserRow)
    requires Clean(u.username) && Clean(u.password) && Clean(u.home)
    requires UserColumnOf(u.username) == None && UserColumnOf(u.password) == None && UserColumnOf(u.home) == None
    ensures UserHolds(u, OwnConds(u))
  {
    ShownColumns();
    OwnCondHolds(u, "username", u.username);
    OwnCondHolds(u, "password", u.password);
    OwnCondHolds(u, "home", u.home);
  }

  lemma TwoInOneText(pass: string, home: string)
    ensures CondText(Cond("password", "=", Quote(TwoInOne(pass, home)))) ==
      CondText(Cond("password", "=", Quote(pass))) + CondText(Cond("home", "=", Quote(home)))
  {
    QuoteRegroup(" AND password = ", "\"", pass, " AND home = ", home);
    assert " AND " + "password" + " " + "=" + " " == " AND password = ";
    assert " AND " + "home" + " " + "=" + " " == " AND home = ";
  }

  lemma QuoteRegroup(pre: string, q: string, p: string, mid: string, h: string)
    ensures pre + (q + (p + (q + mid + q) + h) + q) == (pre + (q + p + q)) + (mid + (q + h + q))
  {
  }

  lemma SplitCond(c: Cond, both: Cond, d: Cond, e: Cond)
    requires CondText(both) == CondText(d) + CondText(e)
    ensures Where([c, both]) == Where([c, d, e])
  {
    assert [c, both][1..] == [both] && [both][1..] == [];
    assert [c, d, e][1..] == [d, e] && [d, e][1..] == [e] && [e][1..] == [];
    assert Conds([both]) == CondText(d) + CondText(e) + "";
    assert Conds([d, e]) == CondText(d) + (CondText(e) + "");
  }

  // ------------------------------------------------------ which queries come through

  /** A query that is cut once, at its end, and whose rows the caller can read. */
  predicate Fits(t: Tables, q: Query)
    requires Shaped(q)
  {
    WellFormed(q) && QueryText(Render(q)) && |Render(q)| <= WINDOW && GoodRows(RunQuery(t, q).1)
  }

  predicate Plain(s: string) {
    ';' !in s
  }

  lemma {:induction false} PlainFields(fs: seq<string>)
    requires forall f :: f in fs ==> Plain(f)
    ensures Plain(Fields(fs))
    decreases |fs|
  {
    if fs != [] {
      assert fs[0] in fs;
      if |fs| > 1 { PlainFields(fs[1..]); }
    }
  }

  /** The last character is not that of the close text. */
  predicate EndsWell(s: string) {
    s != "" && s[|s| - 1] != 'N'
  }

  predicate PlainCond(c: Cond) {
    Plain(c.column) && Plain(c.op) && Plain(c.value) && EndsWell(c.value)
  }

  lemma {:induction false} PlainConds(cs: seq<Cond>)
    requires forall c :: c in cs ==> PlainCond(c)
    ensures Plain(Conds(cs))
    decreases |cs|
  {
    if cs != [] {
      assert cs[0] in cs;
      PlainConds(cs[1..]);
      assert Plain(CondText(cs[0]));
    }
  }

  lemma {:induction false} CondsEnd(cs: seq<Cond>)
    requires cs != [] && forall c :: c in cs ==> PlainCond(c)
    ensures EndsWell(Conds(cs))
    decreases |cs|
  {
    assert cs[0] in cs && EndsWell(CondText(cs[0]));
    if |cs| > 1 {
      CondsEnd(cs[1..]);
    }
  }

  lemma WhereEnds(cs: seq<Cond>)
    requires forall c :: c in cs ==> PlainCond(c)
    ensures EndsWell(Where(cs))
  {
    if cs != [] {
      CondsEnd(cs);
    }
  }

  lemma {:induction false} NotClosing(text: string)
    requires |text| < 2 || text[|text| - 2] != 'N'
    ensures CLOSE !in Pieces(text)
    decreases |text|
  {
    if |text| > WINDOW {
      NotClosing(text[WINDOW..]);
    } else {
      assert CLOSE[|CLOSE| - 2] == 'N';
    }
  }

  lemma EndsPlain(body: string)
    requires Plain(body) && EndsWell(body)
    ensures QueryText(body + ";")
  {
    var text := body + ";";
    assert text[..|text| - 1] == body && text[|text| - 2] == body[|body| - 1];
    NotClosing(text);
  }

  lemma PlainSelect(t: string, shown: seq<string>, conds: seq<Cond>)
    requires Plain(t) && (forall c :: c in shown ==> Plain(c)) && (forall c :: c in conds ==> PlainCond(c))
    ensures QueryText("SELECT " + (Fields(shown) + (" FROM " + (t + (" WHERE " + (Where(conds) + ";"))))))
  {
    PlainFields(shown);
    PlainConds(conds);
    WhereEnds(conds);
    var body := "SELECT " + (Fields(shown) + (" FROM " + (t + (" WHERE " + Where(conds)))));
    EndsPlain(body);
    assert body + ";" == "SELECT " + (Fields(shown) + (" FROM " + (t + (" WHERE " + (Where(conds) + ";")))));
  }

  lemma PlainInsert(t: string, cols: seq<string>, vals: seq<string>)
    requires Plain(t) && (forall c :: c in cols ==> Plain(c)) && (forall v :: v in vals ==> Plain(v))
    ensures QueryText(RenderInsert(t, cols, vals))
  {
    PlainFields(cols);
    PlainFields(vals);
    var body := "INSERT INTO " + (t + ("(" + (Fields(cols) + (") VALUES(" + (Fields(vals) + ")")))));
    EndsPlain(body);
    assert body + ";" == RenderInsert(t, cols, vals);
  }

  lemma PlainUpdate(t: string, pairs: seq<string>, conds: seq<Cond>)
    requires Plain(t) && (forall p :: p in pairs ==> Plain(p)) && (forall c :: c in conds ==> PlainCond(c))
    ensures QueryText(RenderUpdate(t, pairs, conds))
  {
    PlainFields(pairs);
    PlainConds(conds);
    WhereEnds(conds);
    var body := "UPDATE " + (t + (" SET " + (Fields(pairs) + (" WHERE " + Where(conds)))));
    EndsPlain(body);
    assert body + ";" == RenderUpdate(t, pairs, conds);
  }

  /** Texts without ';' render to a query that is cut only at its end. */
  lemma PlainQuery(q: Query)
    requires Shaped(q) && Plain(q.table)
    requires forall c :: c in q.columns ==> Plain(c)
    requires !q.Select? ==> forall v :: v in q.values ==> Plain(v)
    requires !q.Insert? ==> forall c :: c in q.conds ==> PlainCond(c)
    ensures QueryText(Render(q))
  {
    match q
    case Select(t, cols, conds) => PlainSelect(t, Shown(cols), conds);
    case Insert(t, cols, vals) => PlainInsert(t, cols, vals);
    case Update(t, cols, vals, conds) =>
      PlainPairs(cols, vals);
      PlainUpdate(t, Pairs(cols, vals), conds);
  }

  lemma PlainPairs(cols: seq<string>, vals: seq<string>)
    requires |cols| == |vals|
    requires (forall c :: c in cols ==> Plain(c)) && (forall v :: v in vals ==> Plain(v))
    ensures forall p :: p in Pairs(cols, vals) ==> Plain(p)
  {
    forall i | 0 <= i < |cols|
      ensures Plain(Pairs(cols, vals)[i])
    {
      assert cols[i] in cols && vals[i] in vals;
    }
  }

  /** The login query comes through exactly when name and password together have at
      most 15 bytes, given that its rows can be read. */
  lemma LoginFits(t: Tables, name: string, pass: string)
    requires Clean(name) && Clean(pass) && GoodRows(RunQuery(t, LoginQuery(name, pass)).1)
    ensures Fits(t, LoginQuery(name, pass)) <==> |name| + |pass| <= 15
  {
    LoginQueryWellFormed(name, pass);
    PlainQuery(LoginQuery(name, pass));
  }

  lemma FileFits(t: Tables, alias: string, home: string)
    requires Clean(alias) && Plain(home) && '\'' !in home && GoodRows(RunQuery(t, FileQuery(alias, home)).1)
    ensures Fits(t, FileQuery(alias, home)) <==> |alias| + |home| <= 35
  {
    FileQueryWellFormed(alias, home);
    PlainQuery(FileQuery(alias, home));
  }

  lemma AddFileFits(t: Tables, alias: string, home: string)
    requires Clean(alias) && Clean(home)
    ensures Fits(t, AddFileQuery(alias, home)) <==> |home| + 2 * |alias| <= 48
  {
    AddFileQueryWellFormed(alias, home);
    AddFileMeaning(t, alias, home);
    PlainQuery(AddFileQuery(alias, home));
  }

  lemma UserFits(t: Tables, name: string)
    requires Clean(name) && GoodRows(RunQuery(t, UserQuery(name)).1)
    ensures Fits(t, UserQuery(name)) <==> |name| <= 50
  {
    UserQueryWellFormed(name);
    PlainQuery(UserQuery(name));
  }

  lemma AddUserPlain(name: string, pass: string, admin: bool)
    requires Clean(name) && Clean(pass)
    ensures QueryText(Render(AddUserQuery(name, pass, admin)))
  {
    var q := AddUserQuery(name, pass, admin);
    assert Plain(Quote("/fs/" + name)) && Plain(Quote(Bit(admin)));
    assert Plain("username") && Plain("password") && Plain("home") && Plain("is_admin") && Plain("users");
    PlainInsert(q.table, q.columns, q.values);
  }

  lemma AddUserFits(t: Tables, name: string, pass: string, admin: bool)
    requires Clean(name) && Clean(pass)
    ensures Fits(t, AddUserQuery(name, pass, admin)) <==> 2 * |name| + |pass| <= 25
  {
    AddUserQueryWellFormed(name, pass, admin);
    AddUserPlain(name, pass, admin);
    AddUserMeaning(t, name, pass, admin);
    FitsExact(t, AddUserQuery(name, pass, admin));
  }

  lemma FitsExact(t: Tables, q: Query)
    requires WellFormed(q) && QueryText(Render(q)) && RunQuery(t, q).1 == []
    ensures Fits(t, q) <==> |Render(q)| <= WINDOW
  {
  }

  lemma PassFits(t: Tables, id: nat, pass: string)
    requires Clean(pass)
    ensures Fits(t, PassQuery(id, pass)) <==> |Decimal(id)| + |pass| <= 47
  {
    PassQueryWellFormed(id, pass);
    PassMeaning(t, id, pass);
    DecimalBare(id);
    PlainQuery(PassQuery(id, pass));
  }
}
