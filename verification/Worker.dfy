/** One worker process: the session variable, the file tree, and the database
    reached through the SQL pipes (server/responder.c over server/sql_helpers.c). */
module Worker {
  import opened Text
  import opened FileCoding
  import opened Session
  import opened SqlText
  import opened SqlBuilders
  import opened SqlPipe
  import opened Queries
  import Tokenizer

  function TablesOf(w: World): Tables {
    Tables(w.users, w.nextId, w.files, w.nextFile)
  }

  lemma OneCell(cell: string)
    ensures Line([cell]) == cell
  {
    var row := [cell];
    assert row[1..] == [];
    assert RowText("", row) == RowText(cell, row[1..]);
  }

  lemma WordToken(s: string)
    requires s != "" && ' ' !in s && '"' !in s
    ensures Tokenizer.Token(s)
  {
    NoQuotes(s);
  }

  lemma {:induction false} NoQuotes(s: string)
    requires '"' !in s
    ensures Tokenizer.Quotes(s) == 0
    decreases |s|
  {
    if s != "" {
      NoQuotes(s[1..]);
    }
  }

  // ------------------------------- when a command's queries come through the pipes

  predicate FileAskable(t: Tables, alias: string, home: string) {
    FileWord(alias) && HomeText(home) && Fits(t, FileQuery(alias, home))
  }

  predicate PostAskable(t: Tables, alias: string, home: string) {
    && FileAskable(t, alias, home)
    && (FindPath(t.files, alias, home) == None ==> Clean(home) && Fits(t, AddFileQuery(alias, home)))
  }

  /** The home of a user who logs in is one word. */
  predicate Word(s: string) {
    s != "" && ' ' !in s && '"' !in s && NulFree(s)
  }

  predicate UserAskable(t: Tables, name: string) {
    UserWord(name) && Fits(t, UserQuery(name))
  }

  predicate AddUserAskable(t: Tables, name: string, pass: string, admin: bool) {
    Clean(name) && Clean(pass) && Fits(t, AddUserQuery(name, pass, admin))
  }

  predicate NewUserAskable(t: Tables, name: string, pass: string, admin: bool) {
    UserAskable(t, name) && (!Found(t.users, name) ==> AddUserAskable(t, name, pass, admin))
  }

  predicate LoginAskable(t: Tables, name: string, pass: string) {
    && UserWord(name) && UserWord(pass) && Fits(t, LoginQuery(name, pass))
    && (FindLogin(t.users, name, pass).Some? ==> Word(FindLogin(t.users, name, pass).value.home))
  }

  /** Every query this command issues in this state is cut once and answered readably. */
  predicate Serviceable(w: World, c: Command) {
    var t := TablesOf(w);
    if c.Login? then w.user == None ==> LoginAskable(t, c.name, c.pass)
    else
      w.user.Some? ==>
        var u := w.user.value;
        match c
        case Get(alias) => FileAskable(t, alias, u.home)
        case Post(alias, _, _) => PostAskable(t, alias, u.home)
        case NewUser(name, pass, admin) => u.admin ==> NewUserAskable(t, name, pass, admin)
        case ChangePass(pass) => Clean(pass) && Fits(t, PassQuery(u.id, pass))
        case Logout => true
  }

  // ---------------------------------------------------- the texts sql_helpers.c builds

  method FileQueryText(alias: string, home: string) returns (text: string)
    ensures text == Render(FileQuery(alias, home))
  {
    var query := new SelectQuery("files");
    query.SetAtribute("path");
    query.SetWhere("alias", "=", Quote(alias));
    query.SetWhere("path", "LIKE", HomePattern(home));
    assert query.columns == ["path"];
    assert query.conds == [Cond("alias", "=", Quote(alias)), Cond("path", "LIKE", HomePattern(home))];
    text := query.ToStr();
  }

  method AddFileQueryText(alias: string, home: string) returns (text: string)
    ensures text == Render(AddFileQuery(alias, home))
  {
    var slots := new PairedSlots();
    slots.SetValue("path", Quote(home + "/" + alias));
    slots.SetValue("owner", "2");
    slots.SetValue("alias", Quote(alias));
    assert slots.columns == AddFileQuery(alias, home).columns && slots.raws == AddFileQuery(alias, home).values;
    var r := slots.InsertToStr("files");
    text := r.value;
  }

  method LoginQueryText(name: string, pass: string) returns (text: string)
    ensures text == Render(LoginQuery(name, pass))
  {
    var query := new SelectQuery("users");
    query.SetAtribute("home");
    query.SetAtribute("user_id");
    query.SetAtribute("is_admin");
    query.SetWhere("username", "=", Quote(name));
    query.SetWhere("password", "=", Quote(pass));
    assert query.columns == ["home", "user_id", "is_admin"];
    assert query.conds == [Cond("username", "=", Quote(name)), Cond("password", "=", Quote(pass))];
    text := query.ToStr();
  }

  method UserQueryText(name: string) returns (text: string)
    ensures text == Render(UserQuery(name))
  {
    var query := new SelectQuery("users");
    query.SetAtribute("home");
    query.SetWhere("username", "=", Quote(name));
    assert query.columns == ["home"] && query.conds == [Cond("username", "=", Quote(name))];
    text := query.ToStr();
  }

  method AddUserQueryText(name: string, pass: string, admin: bool) returns (text: string)
    ensures text == Render(AddUserQuery(name, pass, admin))
  {
    var slots := new PairedSlots();
    slots.SetValue("username", Quote(name));
    slots.SetValue("password", Quote(pass));
    slots.SetValue("home", Quote("/fs/" + name));
    slots.SetValue("is_admin", Quote(Bit(admin)));
    assert slots.columns == AddUserQuery(name, pass, admin).columns;
    assert slots.raws == AddUserQuery(name, pass, admin).values;
    var r := slots.InsertToStr("users");
    text := r.value;
  }

  method PassQueryText(id: nat, pass: string) returns (text: string)
    ensures text == Render(PassQuery(id, pass))
  {
    var slots := new PairedSlots();
    slots.SetValue("password", Quote(pass));
    assert slots.columns == PassQuery(id, pass).columns && slots.raws == PassQuery(id, pass).values;
    ghost var none: seq<Cond> := [];
    var where := GrowWhere("1=1", "user_id", "=", Decimal(id), none);
    assert none + [Cond("user_id", "=", Decimal(id))] == PassQuery(id, pass).conds;
    var r := slots.UpdateToStr("users", where, PassQuery(id, pass).conds);
    text := r.value;
  }

  class Process {
    const conn: SqlConnection<Tables>
    var user: Option<Logged>
    var tree: map<string, seq<byte>>
    var dirs: set<string>

    /** Between commands nothing is left in either pipe. */
    ghost predicate Ready()
      reads this, conn
    {
      conn.Valid() && conn.pending == [] && conn.buffer == "" && conn.running && EngineOk(conn.exec)
    }

    ghost function View(): World
      reads this, conn
    {
      World(conn.db.users, conn.db.nextId, conn.db.files, conn.db.nextFile, tree, dirs, user)
    }

    constructor (exec: Engine<Tables>, t: Tables, tree: map<string, seq<byte>>, dirs: set<string>)
      requires EngineOk(exec)
      ensures Ready() && fresh(conn)
      ensures View() == World(t.users, t.nextId, t.files, t.nextFile, tree, dirs, None)
    {
      conn := new SqlConnection<Tables>(exec, t);
      user := None;
      this.tree, this.dirs := tree, dirs;
    }

    // ------------------------------------------------------------- sql_helpers.c

    /** `run_..._sqlite_query` on a rendered query. */
    method Ask(text: string, ghost q: Query) returns (answer: string)
      requires Ready() && Shaped(q) && Issued(q) && Fits(conn.db, q) && text == Render(q)
      modifies conn
      ensures Ready() && conn.db == RunQuery(old(conn.db), q).0
      ensures answer == First(RunQuery(old(conn.db), q).1)
    {
      ghost var db := conn.db;
      EngineMeans(conn.exec, db, q);
      ServeQuery(conn.exec, db, text);
      assert Pieces(text) == [text] && Pieces(text)[1..] == [];
      assert RunPieces(conn.exec, db, Pieces(text)).1 == [RunQuery(db, q).1];
      CallExact(conn.exec, Link(conn.State(), conn.pending), text);
      assert [] + [RunQuery(db, q).1] == [RunQuery(db, q).1];
      var a := conn.RunSqliteQuery(text);
      answer := a.value;
    }

    method AskForFileToDb(alias: string, home: string) returns (r: Option<string>)
      requires Ready() && FileAskable(conn.db, alias, home)
      modifies conn
      ensures Ready() && conn.db == old(conn.db)
      ensures r == FindPath(conn.db.files, alias, home)
    {
      var text := FileQueryText(alias, home);
      FileRows(conn.db.files, alias, home);
      ghost var rows := RunQuery(conn.db, FileQuery(alias, home)).1;
      assert rows != [] ==> GoodRow(rows[0]);
      var answer := Ask(text, FileQuery(alias, home));
      if answer == END { return None; }
      assert rows != [] ==> Line(rows[0]) == rows[0][0] by {
        if rows != [] { OneCell(rows[0][0]); }
      }
      return Some(answer);
    }

    method InsertAliasInDb(alias: string, home: string)
      requires Ready() && Clean(alias) && Clean(home) && Fits(conn.db, AddFileQuery(alias, home))
      modifies conn
      ensures Ready()
      ensures var db := old(conn.db);
        conn.db == db.(files := db.files + [FileRow(db.nextFile, FilePath(home, alias), alias, 2)],
                       nextFile := db.nextFile + 1)
    {
      var text := AddFileQueryText(alias, home);
      AddFileMeaning(conn.db, alias, home);
      var answer := Ask(text, AddFileQuery(alias, home));
    }

    method UserIdentificationInDb(name: string, pass: string) returns (r: Option<Logged>)
      requires Ready() && LoginAskable(conn.db, name, pass)
      modifies conn
      ensures Ready() && conn.db == old(conn.db)
      ensures r == match FindLogin(conn.db.users, name, pass)
                   case None => None
                   case Some(u) => Some(Logged(name, u.home, u.admin, u.id))
    {
      var text := LoginQueryText(name, pass);
      LoginRows(conn.db.users, name, pass);
      ghost var rows := RunQuery(conn.db, LoginQuery(name, pass)).1;
      assert rows != [] ==> GoodRow(rows[0]);
      var response := Ask(text, LoginQuery(name, pass));
      if response == END { return None; }
      ghost var u := FindLogin(conn.db.users, name, pass).value;
      LoginLine(u);
      var cells := Tokenizer.SplitArguments(response);
      assert cells[..] == LoginCells(u) + [""];
      return Some(Logged(name, cells[0], Atoi(cells[2]) != 0, Atoi(cells[1])));
    }

    method UserInDb(name: string) returns (r: bool)
      requires Ready() && UserAskable(conn.db, name)
      modifies conn
      ensures Ready() && conn.db == old(conn.db)
      ensures r == Found(conn.db.users, name)
    {
      var text := UserQueryText(name);
      UserRows(conn.db.users, name);
      ghost var rows := RunQuery(conn.db, UserQuery(name)).1;
      assert rows != [] ==> GoodRow(rows[0]);
      var response := Ask(text, UserQuery(name));
      return response != END;
    }

    method NewUserInDb(name: string, pass: string, admin: bool)
      requires Ready() && AddUserAskable(conn.db, name, pass, admin)
      modifies conn
      ensures Ready() && conn.db.files == old(conn.db).files && conn.db.nextFile == old(conn.db).nextFile
      ensures conn.db.nextId == old(conn.db).nextId + 1
      ensures conn.db.users == old(conn.db).users + [UserRow(old(conn.db).nextId, name, pass, "/fs/" + name, admin)]
    {
      var text := AddUserQueryText(name, pass, admin);
      AddUserMeaning(conn.db, name, pass, admin);
      var answer := Ask(text, AddUserQuery(name, pass, admin));
    }

    method UpdatePassInDb(id: nat, pass: string)
      requires Ready() && Clean(pass) && Fits(conn.db, PassQuery(id, pass))
      modifies conn
      ensures Ready() && conn.db == old(conn.db).(users := SetPassword(old(conn.db).users, id, pass))
    {
      var text := PassQueryText(id, pass);
      PassMeaning(conn.db, id, pass);
      var answer := Ask(text, PassQuery(id, pass));
    }

    // --------------------------------------------------------------- responder.c

    /** `raw_data_from_file` then `encode_raw_data` */
    method SendFile(path: string) returns (reply: Reply)
      ensures reply == Fetch(View(), path)
    {
      var file := Squeeze("." + path);
      if file !in tree { return Crash; }
      var data := tree[file];
      var contents := new byte[|data|](i requires 0 <= i < |data| => data[i]);
      assert contents[..] == data;
      var text := EncodeRawData(contents);
      return File(text, contents.Length);
    }

    method ProcessGetCmd(c: Command) returns (reply: Reply)
      requires Ready() && c.Get? && Valid(c) && Serviceable(View(), c)
      modifies this, conn
      ensures Ready() && (View(), reply) == Step(old(View()), c)
    {
      if user == None { return Said(NotLogged); }
      var path := AskForFileToDb(c.alias, user.value.home);
      if path == None { return Said(NotInDb); }
      reply := SendFile(path.value);
    }

    /** `insert_alias_in_db`, then `decode_to_raw_data` and `file_from_raw_data` */
    method SaveFile(alias: string, data: string, size: nat)
      requires |data| % 3 == 0 && 3 * size <= |data|
      requires Ready() && user.Some? && Clean(alias) && Clean(user.value.home)
      requires Fits(conn.db, AddFileQuery(alias, user.value.home))
      modifies this`tree, conn
      ensures Ready() && View() == Save(old(View()), user.value, alias, Decode(data)[..size])
    {
      var home := user.value.home;
      InsertAliasInDb(alias, home);
      var raw := DecodeToRawData(data);
      if Folder(home) in dirs && FileAt(home, alias) !in dirs {
        tree := tree[FileAt(home, alias) := raw[..size]];
      }
    }

    /** The part of a post after `check_user_logged`. */
    method PostFile(alias: string, data: string, size: nat) returns (reply: Reply)
      requires Ready() && user.Some? && |data| % 3 == 0 && 3 * size <= |data|
      requires PostAskable(conn.db, alias, user.value.home)
      modifies this`tree, conn
      ensures Ready()
      ensures (View(), reply) ==
        if FindPath(old(View()).files, alias, user.value.home).Some? then (old(View()), Said(FileExists))
        else (Save(old(View()), user.value, alias, Decode(data)[..size]), Said(FileOk))
    {
      var found := AskForFileToDb(alias, user.value.home);
      if found.Some? { return Said(FileExists); }
      SaveFile(alias, data, size);
      return Said(FileOk);
    }

    method ProcessPostCmd(c: Command) returns (reply: Reply)
      requires Ready() && c.Post? && Valid(c) && Serviceable(View(), c)
      modifies this, conn
      ensures Ready() && (View(), reply) == Step(old(View()), c)
    {
      if user == None { return Said(NotLogged); }
      reply := PostFile(c.alias, c.data, c.size);
    }

    method ProcessLoginCmd(c: Command) returns (reply: Reply)
      requires Ready() && c.Login? && Valid(c) && Serviceable(View(), c)
      modifies this, conn
      ensures Ready() && (View(), reply) == Step(old(View()), c)
    {
      if user.Some? { return Said(AlreadyIn); }
      user := UserIdentificationInDb(c.name, c.pass);
      return Said(if user == None then LoginFailed else LoggedIn);
    }

    method ProcessLogoutCmd(c: Command) returns (reply: Reply)
      requires Ready() && c.Logout?
      modifies this
      ensures Ready() && (View(), reply) == Step(old(View()), c)
    {
      if user == None { return Said(NotLogged); }
      user := None;
      return Said(LoggedOut);
    }

    /** `create_user_folder`: mkdir needs its parent, and leaves alone what is there. */
    method CreateUserFolder(name: string)
      modifies this`dirs
      ensures dirs == Made(old(dirs), tree, name)
    {
      var path := USERS + "/" + name;
      if USERS in dirs && path !in tree {
        dirs := dirs + {path};
      }
    }

    method RegisterUser(name: string, pass: string, admin: bool)
      requires Ready() && AddUserAskable(conn.db, name, pass, admin)
      modifies this`dirs, conn
      ensures Ready() && View() == Register(old(View()), name, pass, admin)
    {
      ghost var w := View();
      CreateUserFolder(name);
      assert View() == w.(dirs := Made(w.dirs, w.tree, name));
      NewUserInDb(name, pass, admin);
    }

    /** The part of a new-user command after the permission check. */
    method AddUser(name: string, pass: string, admin: bool) returns (reply: Reply)
      requires Ready() && NewUserAskable(conn.db, name, pass, admin)
      modifies this`dirs, conn
      ensures Ready()
      ensures (View(), reply) ==
        if Found(old(View()).users, name) then (old(View()), Said(UserExists))
        else (Register(old(View()), name, pass, admin), Said(Registered))
    {
      var known := UserInDb(name);
      if known { return Said(UserExists); }
      RegisterUser(name, pass, admin);
      return Said(Registered);
    }

    method ProcessNewUserCmd(c: Command) returns (reply: Reply)
      requires Ready() && c.NewUser? && Valid(c) && Serviceable(View(), c)
      modifies this, conn
      ensures Ready() && (View(), reply) == Step(old(View()), c)
    {
      if user == None { return Said(NotLogged); }
      if !user.value.admin { return Said(NoPermission); }
      reply := AddUser(c.name, c.pass, c.admin);
    }

    method ProcessChangePassCmd(c: Command) returns (reply: Reply)
      requires Ready() && c.ChangePass? && Valid(c) && Serviceable(View(), c)
      modifies this, conn
      ensures Ready() && (View(), reply) == Step(old(View()), c)
    {
      if user == None { return Said(NotLogged); }
      UpdatePassInDb(user.value.id, c.pass);
      return Said(Updated);
    }

    /** The dispatch of `server_responder`, under the worker's lock. */
    method Dispatch(c: Command) returns (reply: Reply)
      requires Ready() && Valid(c) && Serviceable(View(), c)
      modifies this, conn
      ensures Ready() && (View(), reply) == Step(old(View()), c)
    {
      match c
      case Get(_) => reply := ProcessGetCmd(c);
      case Post(_, _, _) => reply := ProcessPostCmd(c);
      case Login(_, _) => reply := ProcessLoginCmd(c);
      case Logout => reply := ProcessLogoutCmd(c);
      case NewUser(_, _, _) => reply := ProcessNewUserCmd(c);
      case ChangePass(_) => reply := ProcessChangePassCmd(c);
    }
  }

  lemma LoginLine(u: UserRow)
    requires Word(u.home)
    ensures NulFree(Line(LoginCells(u))) && Tokenizer.Split(Line(LoginCells(u))) == Some(LoginCells(u))
    ensures Atoi(Decimal(u.id)) == u.id && (Atoi(Bit(u.admin)) != 0 <==> u.admin)
  {
    var cells := LoginCells(u);
    WordToken(u.home);
    DecimalBare(u.id);
    WordToken(Decimal(u.id));
    WordToken(Bit(u.admin));
    AtoiDecimal(u.id);
    assert Bit(true) == Decimal(1) && Bit(false) == Decimal(0);
    AtoiDecimal(1);
    AtoiDecimal(0);
    RowRoundTrip(cells);
    LoginLineText(u.home, Decimal(u.id), Bit(u.admin));
  }

  lemma LoginLineText(a: string, b: string, c: string)
    requires a != ""
    ensures Line([a, b, c]) == a + " " + b + " " + c
  {
    var s := [a, b, c];
    assert s[1..] == [b, c] && [b, c][1..] == [c] && [c][1..] == [];
    assert RowText(a + " " + b, [c]) == RowText(a + " " + b + " " + c, []);
    assert RowText(a, [b, c]) == RowText(a + " " + b, [c]);
  }
}
