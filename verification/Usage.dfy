/** What the commands typed at a client achieve (client/commands.c), told by the text
    that comes back and by the tables and files of the worker. */
module Usage {
  import opened Text
  import opened FileCoding
  import opened Session
  import FileStore
  import opened Client
  import opened Message
  import Exchange

  /** The worker answers, and the client's flag tells the truth. */
  predicate Open(s: Sys) {
    Live(s) && s.slots > 0 && Agree(s)
  }

  /** Nothing is sent for a login when logged in, nor for anything else when not. */
  lemma NotSentExact(s: Sys, sh: Shell)
    requires Proper(sh)
    ensures Do(s, sh).1 == NotSent <==> (sh.ShLogin? && s.logged) || (!sh.ShLogin? && !s.logged)
    ensures Do(s, sh).1 == NotSent ==> Do(s, sh).0 == s
  {
  }

  // ----------------------------------------------------------------------- login

  predicate FirstMatch(users: seq<UserRow>, name: string, pass: string, i: int) {
    && 0 <= i < |users| && users[i].username == name && users[i].password == pass
    && forall m :: 0 <= m < i ==> users[m].username != name || users[m].password != pass
  }

  /** The session goes by that name, with the rest from that row. */
  predicate InAs(w: World, name: string, i: int) {
    0 <= i < |w.users| && w.user == Some(Logged(name, w.users[i].home, w.users[i].admin, w.users[i].id))
  }

  lemma LoginFinds(users: seq<UserRow>, name: string, pass: string)
    requires UserColumnOf(name) == None && UserColumnOf(pass) == None
    ensures match FindLogin(users, name, pass)
      case None => forall u :: u in users ==> u.username != name || u.password != pass
      case Some(u) => u in users && exists i :: FirstMatch(users, name, pass, i) && users[i] == u
  {
    assert forall u :: HasLogin(u, name, pass) <==> u.username == name && u.password == pass;
    var found := FindLogin(users, name, pass);
    if found.Some? {
      var i :| FirstLogin(users, name, pass, i) && users[i] == found.value;
      assert FirstMatch(users, name, pass, i);
    }
  }

  lemma LoginReply(w: World, name: string, pass: string)
    requires w.user == None && Clean(name) && Clean(pass)
    requires UserColumnOf(name) == None && UserColumnOf(pass) == None
    ensures var (e, reply) := Step(w, Login(name, pass));
      && e == w.(user := e.user) && reply != Crash
      && ReplyValue(reply).0 == (if e.user.Some? then "Logged in successfully" else FAILED)
      && (ReplyValue(reply).0 == FAILED <==> e.user == None)
      && (e.user.Some? <==> exists u :: u in w.users && u.username == name && u.password == pass)
      && (e.user.Some? ==> exists i :: FirstMatch(w.users, name, pass, i) && InAs(e, name, i))
  {
    LoginFinds(w.users, name, pass);
    FailedText(w, name, pass);
    if FindLogin(w.users, name, pass).Some? {
      var i :| FirstMatch(w.users, name, pass, i) && w.users[i] == FindLogin(w.users, name, pass).value;
      assert InAs(Step(w, Login(name, pass)).0, name, i);
    }
  }

  /** The user name typed first and the password typed second log in the first row that
      has both, or nobody; the client is told which, and nothing else changes. */
  lemma LoginAchieves(s: Sys, name: string, pass: string)
    requires Open(s) && !s.logged && Clean(name) && Clean(pass)
    requires UserColumnOf(name) == None && UserColumnOf(pass) == None
    ensures var (e, a) := Do(s, ShLogin(name, pass));
      && Agree(e) && e.world == s.world.(user := e.world.user)
      && (e.logged <==> exists u :: u in s.world.users && u.username == name && u.password == pass)
      && Heard(a) == Some(if e.logged then "Logged in successfully" else "Login failed")
      && (e.logged ==> exists i :: FirstMatch(s.world.users, name, pass, i) && InAs(e.world, name, i))
  {
    TransactTaken(s, Login(name, pass));
    LoginReply(s.world, name, pass);
  }

  lemma LogoutAchieves(s: Sys)
    requires Open(s) && s.logged
    ensures var (e, a) := Do(s, ShLogout);
      !e.logged && e.world == s.world.(user := None) && Heard(a) == Some("Log out successful")
      && e.slots == s.slots - 1 && Live(e)
  {
  }

  // --------------------------------------------------------------- post, then get

  /** The commands of a client that its worker ran. */
  lemma {:induction false} UseRuns(s: Sys, shs: seq<Shell>) returns (cs: seq<Command>)
    requires AllProper(shs)
    ensures AllValid(cs) && Use(s, shs).world == Exec(s.world, cs)
    decreases |shs|
  {
    cs := [];
    if shs != [] {
      assert shs[0] in shs;
      var s1 := Do(s, shs[0]).0;
      var more := UseRuns(s1, shs[1..]);
      cs := more;
      if s1.world != s.world {
        var c := Request(shs[0]);
        cs := [c] + more;
        assert cs[1..] == more;
      }
    }
  }

  lemma PostTold(s: Sys, alias: string, bytes: seq<byte>)
    requires Open(s) && s.logged && Name(alias)
    requires Heard(Do(s, ShPost(alias, bytes)).1) == Some("File OK")
    ensures var post := Exchange.PostOf(alias, bytes);
      FileStore.PostDone(s.world, post) && Do(s, ShPost(alias, bytes)).0.world == Step(s.world, post).0
  {
    Exchange.PostValid(alias, bytes);
    var post := Exchange.PostOf(alias, bytes);
    TransactTaken(s, post);
    assert |Wording(FileExists).0| != |"File OK"|;
  }

  /** A file posted under "File OK", then anything, then a get of its alias in a session
      with that home: the text received is the code of exactly the bytes posted. */
  lemma PostThenGetAchieves(s: Sys, alias: string, bytes: seq<byte>, shs: seq<Shell>)
    requires Open(s) && s.logged && Placed(s.world) && Name(alias) && FileStore.Findable(alias) && AllProper(shs)
    requires Writable(s.world, s.world.user.value.home, alias)
    requires Heard(Do(s, ShPost(alias, bytes)).1) == Some("File OK")
    requires var e := Use(Do(s, ShPost(alias, bytes)).0, shs);
      Open(e) && e.logged && FileStore.SameHome(s.world, e.world)
    ensures var e := Use(Do(s, ShPost(alias, bytes)).0, shs);
      var heard := Heard(Do(e, ShGet(alias)).1);
      heard.Some? && |heard.value| % 3 == 0 && Decode(heard.value) == bytes
  {
    var post := Exchange.PostOf(alias, bytes);
    PostTold(s, alias, bytes);
    Exchange.PostValid(alias, bytes);
    var s1 := Do(s, ShPost(alias, bytes)).0;
    var cs := UseRuns(s1, shs);
    FileStore.PostThenGet(s.world, post, cs);
    TransactTaken(Use(s1, shs), Get(alias));
    DecodeEncode(bytes);
  }

  /** A get without a post before it: the contents of the file its row leads to, or the
      notice that there is no row. */
  lemma GetAchieves(s: Sys, alias: string)
    requires Open(s) && s.logged && Name(alias)
    ensures var heard := Heard(Do(s, ShGet(alias)).1);
      match FindPath(s.world.files, alias, s.world.user.value.home)
      case None => heard == Some("FILE IS NOT IN DB")
      case Some(path) =>
        var file := Squeeze("." + path);
        file in s.world.tree ==>
          heard.Some? && |heard.value| % 3 == 0 && Decode(heard.value) == s.world.tree[file]
  {
    TransactTaken(s, Get(alias));
    var path := FindPath(s.world.files, alias, s.world.user.value.home);
    if path.Some? && Squeeze("." + path.value) in s.world.tree {
      DecodeEncode(s.world.tree[Squeeze("." + path.value)]);
    }
  }

  // ------------------------------------------------------------ users and passwords

  /** An administrator adds a user whose name is not found: a new last row with that
      name, that password, that flag, and a home of its own. */
  lemma NewUserAchieves(s: Sys, name: string, admin: bool, pass: string)
    requires Open(s) && s.logged && s.world.user.value.admin && Name(name) && Clean(pass)
    requires !Found(s.world.users, name)
    ensures var (e, a) := Do(s, ShNewUser(name, admin, pass));
      && e.world.users == s.world.users + [UserRow(s.world.nextId, name, pass, "/fs/" + name, admin)]
      && Heard(a) == Some("User registered")
      && e.logged && e.world.user == s.world.user && Live(e) && e.slots == s.slots - 1
  {
  }

  lemma NameClean(name: string)
    requires Name(name)
    ensures Clean(name)
  {
    assert !Alnum('"') && !Alnum(';') && !Alnum(NUL);
  }

  lemma NewMatch(users: seq<UserRow>, u: UserRow, i: int)
    requires !Found(users, u.username) && UserColumnOf(u.username) == None
    requires FirstMatch(users + [u], u.username, u.password, i)
    ensures i == |users|
  {
    FoundKnown(users, u.username);
  }

  lemma NewUserCanLogIn(s: Sys, u: UserRow, before: seq<UserRow>)
    requires Open(s) && !s.logged && Clean(u.username) && Clean(u.password) && s.world.users == before + [u]
    requires !Found(before, u.username) && UserColumnOf(u.username) == None && UserColumnOf(u.password) == None
    ensures var e := Do(s, ShLogin(u.username, u.password)).0;
      e.logged && e.world.user == Some(Logged(u.username, u.home, u.admin, u.id))
  {
    LoginAchieves(s, u.username, u.password);
    assert s.world.users[|before|] == u;
    var e := Do(s, ShLogin(u.username, u.password)).0;
    var i :| FirstMatch(s.world.users, u.username, u.password, i) && InAs(e.world, u.username, i);
    NewMatch(before, u, i);
  }

  /** And that user can log in with that password. */
  lemma NewUserLogsIn(s: Sys, name: string, admin: bool, pass: string)
    requires Open(s) && s.slots >= 3 && s.logged && s.world.user.value.admin && Name(name) && Clean(pass)
    requires !Found(s.world.users, name) && UserColumnOf(name) == None && UserColumnOf(pass) == None
    ensures var out := Do(Do(s, ShNewUser(name, admin, pass)).0, ShLogout).0;
      Clean(name) && !out.logged &&
      var e := Do(out, ShLogin(name, pass)).0;
      e.logged && e.world.user == Some(Logged(name, "/fs/" + name, admin, s.world.nextId))
  {
    NameClean(name);
    NewUserAchieves(s, name, admin, pass);
    var s1 := Do(s, ShNewUser(name, admin, pass)).0;
    LogoutAchieves(s1);
    var u := UserRow(s.world.nextId, name, pass, "/fs/" + name, admin);
    NewUserCanLogIn(Do(s1, ShLogout).0, u, s.world.users);
  }

  /** The session's row, and no other, gets the password typed. */
  lemma ChangePassAchieves(s: Sys, pass: string, i: int)
    requires Open(s) && s.logged && Rows(s.world) && IsRow(s.world.users, i, s.world.user.value)
    requires Clean(pass) && UserColumnOf(pass) == None
    ensures var (e, a) := Do(s, ShChPass(pass));
      && e.world == s.world.(users := s.world.users[i := s.world.users[i].(password := pass)])
      && Heard(a) == Some("PASSWORD UPDATED")
  {
  }
}
