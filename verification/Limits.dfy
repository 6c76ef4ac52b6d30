/** How long names may be: which commands' queries get through the SQL pipes. */
module Limits {
  import opened Text
  import opened Session
  import opened FileStore
  import opened SqlText
  import opened SqlPipe
  import opened Queries
  import opened Worker

  // ------------------------------------------------- rows the caller can always read

  /** A home directory as the server makes them: one word, no quote, '%', newline or ';'. */
  predicate HomeOk(home: string) {
    Word(home) && HomeText(home) && '\n' !in home && home[0] == '/' && |home| <= 1000
  }

  /** The homes of which a look-up below h can find files. */
  function SeenHomes(users: seq<UserRow>, h: string): set<string> {
    set u | u in users && Sees(h, u.home) :: u.home
  }

  /** Few enough for the caller's ten slots: homes may overlap, as that of an
      administrator in `/fs/` does with all others. */
  ghost predicate FewSeen(users: seq<UserRow>) {
    forall i :: 0 <= i < |users| ==> |SeenHomes(users, users[i].home)| < MAX_LINES
  }

  ghost predicate Tidy(w: World) {
    && Orderly(w) && FewSeen(w.users)
    && (forall i :: 0 <= i < |w.users| ==> HomeOk(w.users[i].home) && |Decimal(w.users[i].id)| <= 20)
    && (forall k :: 0 <= k < |w.files| ==> |w.files[k].alias| <= 1000)
  }

  /** At most one row of a table meets the conditions. */
  lemma {:induction false} FewUsers(users: seq<UserRow>, columns: seq<string>, conds: seq<Cond>, name: string)
    requires Unique(users)
    requires forall u :: u in users && UserHolds(u, conds) ==> u.username == name
    ensures var rows := SelectUsers(users, columns, conds);
      && |rows| <= 1
      && (rows != [] ==> exists u :: u in users && u.username == name && rows[0] == UserCells(u, columns))
      && ((forall u :: u in users ==> u.username != name) ==> rows == [])
    decreases |users|
  {
    if users != [] {
      var rest := users[1..];
      FewUsers(rest, columns, conds, name);
      assert users[0] in users;
      if UserHolds(users[0], conds) {
        assert forall u :: u in rest ==> u.username != name by {
          assert forall i :: 0 <= i < |rest| ==> rest[i] == users[i + 1];
        }
      }
    }
  }

  predicate PathUnder(path: string, homes: set<string>, alias: string) {
    exists g :: g in homes && path == FilePath(g, alias)
  }

  /** No more rows than homes, when each row is below a home of its own. */
  lemma {:induction false} FewFiles(files: seq<FileRow>, columns: seq<string>, conds: seq<Cond>,
                                    homes: set<string>, alias: string)
    requires forall k, m :: 0 <= k < m < |files| ==> files[k].path != files[m].path
    requires forall f :: f in files && FileHolds(f, conds) ==> PathUnder(f.path, homes, alias)
    ensures var rows := SelectFiles(files, columns, conds);
      && |rows| <= |homes|
      && forall r :: r in rows ==> exists f :: f in files && r == FileCells(f, columns)
    decreases |files|
  {
    if files != [] {
      var rest, others := files[1..], homes;
      assert files[0] in files;
      if FileHolds(files[0], conds) {
        var g :| g in homes && files[0].path == FilePath(g, alias);
        others := homes - {g};
      }
      forall f | f in rest && FileHolds(f, conds)
        ensures PathUnder(f.path, others, alias)
      {
        assert f in files && f.path != files[0].path;
        var g :| g in homes && f.path == FilePath(g, alias);
        assert g in others;
      }
      FewFiles(rest, columns, conds, others, alias);
    }
  }

  lemma PathLineGood(path: string)
    requires path != "" && path[0] == '/' && '\n' !in path && |path| <= 2046
    ensures GoodRow([path])
  {
    OneCell(path);
  }

  lemma LoginLineGood(u: UserRow)
    requires HomeOk(u.home) && |Decimal(u.id)| <= 20
    ensures GoodRow(LoginCells(u))
  {
    LoginLineText(u.home, Decimal(u.id), Bit(u.admin));
    var d := Decimal(u.id);
    assert '\n' !in d;
    var line := u.home + " " + d + " " + Bit(u.admin);
    assert line[0] == '/';
    assert '\n' !in line;
  }

  lemma LoginCellsGood(w: World, row: Row, name: string)
    requires Tidy(w)
    requires exists u :: u in w.users && u.username == name && row == UserCells(u, ["home", "user_id", "is_admin"])
    ensures GoodRow(row)
  {
    var u :| u in w.users && u.username == name && row == UserCells(u, ["home", "user_id", "is_admin"]);
    var i :| 0 <= i < |w.users| && w.users[i] == u;
    LoginCellsShown(u);
    LoginLineGood(u);
  }

  lemma AtMostOne(rows: Rows)
    requires |rows| <= 1 && (rows != [] ==> GoodRow(rows[0]))
    ensures GoodRows(rows)
  {
  }

  lemma OneLoginGood(w: World, conds: seq<Cond>, name: string)
    requires Tidy(w) && forall u :: u in w.users && UserHolds(u, conds) ==> u.username == name
    ensures GoodRows(SelectUsers(w.users, ["home", "user_id", "is_admin"], conds))
  {
    var columns := ["home", "user_id", "is_admin"];
    FewUsers(w.users, columns, conds, name);
    var rows := SelectUsers(w.users, columns, conds);
    if rows != [] {
      LoginCellsGood(w, rows[0], name);
    }
    AtMostOne(rows);
  }

  lemma LoginRowsGood(w: World, name: string, pass: string)
    requires Tidy(w) && Clean(name) && Clean(pass) && UserColumnOf(name) == None
    ensures GoodRows(RunQuery(TablesOf(w), LoginQuery(name, pass)).1)
  {
    forall u | u in w.users && UserHolds(u, LoginQuery(name, pass).conds)
      ensures u.username == name
    {
      LoginHoldsExact(u, name, pass);
    }
    OneLoginGood(w, LoginQuery(name, pass).conds, name);
  }

  lemma HomeCell(u: UserRow)
    ensures UserCells(u, ["home"]) == [u.home]
  {
    ShownColumns();
  }

  lemma HomeCellsGood(w: World, row: Row, name: string)
    requires Tidy(w)
    requires exists u :: u in w.users && u.username == name && row == UserCells(u, ["home"])
    ensures GoodRow(row)
  {
    var u :| u in w.users && u.username == name && row == UserCells(u, ["home"]);
    var i :| 0 <= i < |w.users| && w.users[i] == u;
    HomeCell(u);
    assert HomeOk(u.home);
    PathLineGood(u.home);
  }

  lemma OneHomeGood(w: World, conds: seq<Cond>, name: string)
    requires Tidy(w) && forall u :: u in w.users && UserHolds(u, conds) ==> u.username == name
    ensures GoodRows(SelectUsers(w.users, ["home"], conds))
  {
    FewUsers(w.users, ["home"], conds, name);
    var rows := SelectUsers(w.users, ["home"], conds);
    if rows != [] {
      HomeCellsGood(w, rows[0], name);
    }
    AtMostOne(rows);
  }

  lemma UserRowsGood(w: World, name: string)
    requires Tidy(w) && Clean(name) && UserColumnOf(name) == None
    ensures GoodRows(RunQuery(TablesOf(w), UserQuery(name)).1)
  {
    forall u | u in w.users && UserHolds(u, UserQuery(name).conds)
      ensures u.username == name
    {
      UserHoldsExact(u, name);
    }
    OneHomeGood(w, UserQuery(name).conds, name);
  }

  lemma AliasClean(alias: string)
    requires Name(alias)
    ensures Clean(alias) && '\'' !in alias && '\n' !in alias
  {
  }

  lemma FileRowsGood(w: World, i: int, alias: string)
    requires Tidy(w) && 0 <= i < |w.users| && Name(alias) && FileColumnOf(alias) == None
    ensures GoodRows(RunQuery(TablesOf(w), FileQuery(alias, w.users[i].home)).1)
  {
    var home := w.users[i].home;
    AliasClean(alias);
    forall f | f in w.files && FileHolds(f, FileQuery(alias, home).conds)
      ensures PathUnder(f.path, SeenHomes(w.users, home), alias)
    {
      FileHoldsExact(f, alias, home);
      SeenFile(w, home, f, alias);
    }
    FewPathsGood(w, FileQuery(alias, home).conds, SeenHomes(w.users, home), alias);
  }

  lemma FewPathsGood(w: World, conds: seq<Cond>, homes: set<string>, alias: string)
    requires Tidy(w) && |homes| < MAX_LINES
    requires forall f :: f in w.files && FileHolds(f, conds) ==> PathUnder(f.path, homes, alias)
    ensures GoodRows(SelectFiles(w.files, ["path"], conds))
  {
    FewFiles(w.files, ["path"], conds, homes, alias);
    var rows := SelectFiles(w.files, ["path"], conds);
    forall k | 0 <= k < |rows|
      ensures GoodRow(rows[k])
    {
      assert rows[k] in rows;
      FileCellsGood(w, rows[k]);
    }
  }

  lemma FileCellsGood(w: World, row: Row)
    requires Tidy(w) && exists f :: f in w.files && row == FileCells(f, ["path"])
    ensures GoodRow(row)
  {
    var f :| f in w.files && row == FileCells(f, ["path"]);
    PathCell(f);
    assert Owned(w.users, f);
    var j :| Owns(w.users, j, f);
    PathLineGood(f.path);
  }

  /** A file that a look-up finds is below a home that is seen. */
  lemma SeenFile(w: World, home: string, f: FileRow, alias: string)
    requires Catalogued(w) && f in w.files && IsFile(f, alias, home)
    requires Name(alias) && FileColumnOf(alias) == None
    ensures PathUnder(f.path, SeenHomes(w.users, home), alias)
  {
    assert Owned(w.users, f);
    var j :| Owns(w.users, j, f);
    LikeSees(home, w.users[j].home, alias);
    assert w.users[j] in w.users && w.users[j].home in SeenHomes(w.users, home);
  }

  // ------------------------------------------------------------------- the limits

  /** The lengths that let every query of the command into the child's read window. */
  predicate Short(w: World, c: Command) {
    if c.Login? then w.user == None ==> |c.name| + |c.pass| <= 15
    else
      w.user.Some? ==>
        var u := w.user.value;
        match c
        case Get(alias) => |alias| + |u.home| <= 35
        case Post(alias, _, _) =>
          |alias| + |u.home| <= 35 && (FindPath(w.files, alias, u.home) == None ==> |u.home| + 2 * |alias| <= 48)
        case NewUser(name, pass, _) =>
          u.admin ==> |name| <= 50 && (!Known(w.users, name) ==> 2 * |name| + |pass| <= 25)
        case ChangePass(pass) => |Decimal(u.id)| + |pass| <= 47
        case Logout => true
  }

  lemma LoginAskableExact(w: World, name: string, pass: string)
    requires Tidy(w) && UserWord(name) && UserWord(pass) && UserColumnOf(name) == None
    ensures LoginAskable(TablesOf(w), name, pass) <==> |name| + |pass| <= 15
  {
    LoginRowsGood(w, name, pass);
    LoginFits(TablesOf(w), name, pass);
    var r := FindLogin(w.users, name, pass);
    assert r.Some? ==> Word(r.value.home);
  }

  lemma LoginLimit(w: World, c: Command)
    requires Tidy(w) && c.Login? && Valid(c) && Literal(c)
    ensures Serviceable(w, c) <==> Short(w, c)
  {
    LoginAskableExact(w, c.name, c.pass);
  }

  lemma FileAskableExact(w: World, i: int, alias: string)
    requires Tidy(w) && 0 <= i < |w.users| && Name(alias) && FileColumnOf(alias) == None
    ensures var home := w.users[i].home;
      && (FileAskable(TablesOf(w), alias, home) <==> |alias| + |home| <= 35)
      && (Clean(home) && Fits(TablesOf(w), AddFileQuery(alias, home)) <==> |home| + 2 * |alias| <= 48)
  {
    FileRowsGood(w, i, alias);
    AliasClean(alias);
    FileFits(TablesOf(w), alias, w.users[i].home);
    AddFileFits(TablesOf(w), alias, w.users[i].home);
  }

  lemma FileLimit(w: World, c: Command)
    requires Tidy(w) && (c.Get? || c.Post?) && Valid(c) && Literal(c) && w.user.Some?
    ensures Serviceable(w, c) <==> Short(w, c)
  {
    var i :| IsOwn(w.users, i, w.user.value);
    FileAskableExact(w, i, c.alias);
  }

  lemma UserAskableExact(w: World, name: string)
    requires Tidy(w) && Name(name) && UserColumnOf(name) == None
    ensures UserAskable(TablesOf(w), name) <==> |name| <= 50
  {
    AliasClean(name);
    UserRowsGood(w, name);
    UserFits(TablesOf(w), name);
  }

  lemma AddUserAskableExact(w: World, name: string, pass: string, admin: bool)
    requires Name(name) && Clean(pass)
    ensures AddUserAskable(TablesOf(w), name, pass, admin) <==> 2 * |name| + |pass| <= 25
  {
    AliasClean(name);
    AddUserFits(TablesOf(w), name, pass, admin);
  }

  lemma UserLimit(w: World, c: Command)
    requires Tidy(w) && c.NewUser? && Valid(c) && Literal(c) && w.user.Some?
    ensures Serviceable(w, c) <==> Short(w, c)
  {
    FoundKnown(w.users, c.name);
    UserAskableExact(w, c.name);
    AddUserAskableExact(w, c.name, c.pass, c.admin);
  }

  /** In a tidy world every query of a literal command gets through the pipes exactly when
      the lengths below hold: for a login, name and password of at most 15 bytes
      together. */
  lemma ServiceableExact(w: World, c: Command)
    requires Tidy(w) && Valid(c) && Literal(c)
    ensures Serviceable(w, c) <==> Short(w, c)
  {
    if c.Login? {
      LoginLimit(w, c);
    } else if w.user.Some? {
      match c
      case Get(_) => FileLimit(w, c);
      case Post(_, _, _) => FileLimit(w, c);
      case NewUser(_, _, _) => UserLimit(w, c);
      case ChangePass(pass) => PassFits(TablesOf(w), w.user.value.id, pass);
      case Logout =>
    }
  }

  /** What a long login leaves behind: so many replies nobody reads, which the next
      callers take for their own. */
  lemma LoginLag(exec: Engine<Tables>, t: Tables, name: string, pass: string)
    requires Clean(name) && Clean(pass)
    ensures var k := Call(exec, Link(Child(t, "", true), []), Render(LoginQuery(name, pass))).0;
      |k.pending| == CeilDiv(86 + |name| + |pass|, WINDOW) - 1
  {
    LoginQueryWellFormed(name, pass);
    PlainQuery(LoginQuery(name, pass));
    CallExact(exec, Link(Child(t, "", true), []), Render(LoginQuery(name, pass)));
  }

  // ------------------------------------------------------------------- whole runs

  lemma NewHomeOk(name: string)
    requires Name(name) && |name| <= 50
    ensures HomeOk("/fs/" + name)
  {
  }

  lemma RowsStayTidy(w: World, c: Command)
    requires Valid(c) && Literal(c) && Short(w, c) && |Decimal(w.nextId)| <= 20
    requires forall i :: 0 <= i < |w.users| ==> HomeOk(w.users[i].home) && |Decimal(w.users[i].id)| <= 20
    ensures var us := Step(w, c).0.users;
      forall i :: 0 <= i < |us| ==> HomeOk(us[i].home) && |Decimal(us[i].id)| <= 20
  {
    StepGrows(w, c);
    if c.NewUser? { FoundKnown(w.users, c.name); }
    if c.NewUser? && |c.name| <= 50 {
      NewHomeOk(c.name);
    }
  }

  lemma AliasesStayTidy(w: World, c: Command)
    requires Valid(c) && Short(w, c)
    requires forall k :: 0 <= k < |w.files| ==> |w.files[k].alias| <= 1000
    ensures var fs := Step(w, c).0.files; forall k :: 0 <= k < |fs| ==> |fs[k].alias| <= 1000
  {
  }

  /** Short commands keep a world tidy, as long as no home sees too many others. */
  lemma StepKeepsTidy(w: World, c: Command)
    requires Tidy(w) && Valid(c) && Literal(c) && Short(w, c) && |Decimal(w.nextId)| <= 20
    requires FewSeen(Step(w, c).0.users)
    ensures Tidy(Step(w, c).0)
  {
    StepKeepsOrderly(w, c);
    RowsStayTidy(w, c);
    AliasesStayTidy(w, c);
  }

  lemma Fewer(a: set<string>, b: set<string>)
    requires a <= b
    ensures |a| <= |b|
  {
    assert b == a + (b - a);
  }

  lemma FewSeenEarlier(w: World, cs: seq<Command>)
    requires AllValid(cs) && Session.Rows(w) && FewSeen(Exec(w, cs).users)
    ensures FewSeen(w.users)
  {
    RowsOverRuns(w, cs);
    var us := Exec(w, cs).users;
    forall i | 0 <= i < |w.users|
      ensures |SeenHomes(w.users, w.users[i].home)| < MAX_LINES
    {
      assert us[i].home == w.users[i].home;
      SeenGrow(w.users, us, w.users[i].home);
      Fewer(SeenHomes(w.users, w.users[i].home), SeenHomes(us, w.users[i].home));
    }
  }

  lemma SeenGrow(users: seq<UserRow>, us: seq<UserRow>, h: string)
    requires |users| <= |us| && forall i :: 0 <= i < |users| ==> us[i].home == users[i].home
    ensures SeenHomes(users, h) <= SeenHomes(us, h)
  {
    forall g | g in SeenHomes(users, h)
      ensures g in SeenHomes(us, h)
    {
      var u :| u in users && Sees(h, u.home) && u.home == g;
      var i :| 0 <= i < |users| && users[i] == u;
      assert us[i] in us;
    }
  }

  /** The run never leaves the limits. */
  ghost predicate WithinLimits(w: World, cs: seq<Command>)
    requires AllValid(cs)
    decreases |cs|
  {
    cs != [] ==>
      && Literal(cs[0]) && Short(w, cs[0]) && |Decimal(w.nextId)| <= 20
      && WithinLimits(Step(w, cs[0]).0, cs[1..])
  }

  /** A tidy world with commands left to run. */
  ghost predicate Fit(w: World, cs: seq<Command>) {
    AllValid(cs) && Tidy(w) && WithinLimits(w, cs) && FewSeen(Exec(w, cs).users)
  }

  lemma FitStep(w: World, cs: seq<Command>)
    requires Fit(w, cs) && cs != []
    ensures Valid(cs[0]) && Serviceable(w, cs[0]) && Fit(Step(w, cs[0]).0, cs[1..])
  {
    ServiceableExact(w, cs[0]);
    StepKeepsAccounts(w, cs[0]);
    OwnRow(Step(w, cs[0]).0);
    FewSeenEarlier(Step(w, cs[0]).0, cs[1..]);
    StepKeepsTidy(w, cs[0]);
  }

  /** A whole run of commands through the builders, the text and the two pipes
      answers as the tables alone would. */
  method RunWorker(p: Process, cs: seq<Command>) returns (rs: seq<Reply>)
    requires p.Ready() && Fit(p.View(), cs)
    modifies p, p.conn
    ensures p.Ready() && p.View() == Exec(old(p.View()), cs) && rs == Replies(old(p.View()), cs)
  {
    rs := [];
    var i := 0;
    ghost var all := Replies(p.View(), cs);
    assert cs[0..] == cs;
    while i < |cs|
      invariant i <= |cs| && p.Ready() && Fit(p.View(), cs[i..])
      invariant Exec(p.View(), cs[i..]) == Exec(old(p.View()), cs)
      invariant rs + Replies(p.View(), cs[i..]) == all
    {
      ghost var w, rest, before := p.View(), cs[i..], rs;
      assert rest[0] == cs[i] && rest[1..] == cs[i + 1..];
      FitStep(w, rest);
      var reply := p.Dispatch(cs[i]);
      rs := rs + [reply];
      i := i + 1;
      RepliesCons(w, rest, before);
    }
    assert rs + [] == rs;
  }

  lemma RepliesCons(w: World, cs: seq<Command>, before: seq<Reply>)
    requires AllValid(cs) && cs != []
    ensures var (w1, reply) := Step(w, cs[0]);
      && Exec(w, cs) == Exec(w1, cs[1..])
      && before + Replies(w, cs) == before + [reply] + Replies(w1, cs[1..])
  {
    var (w1, reply) := Step(w, cs[0]);
    assert before + ([reply] + Replies(w1, cs[1..])) == before + [reply] + Replies(w1, cs[1..]);
  }
}
