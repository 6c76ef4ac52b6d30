/** What the responder commands mean: accounts, and a write-once map from
    (user, alias) to bytes.  The tables and the file tree refine it exactly when
    no user's home can match another user's files. */
module FileStore {
  import opened Text
  import opened FileCoding
  import opened Session

  datatype Account = Account(pass: string, admin: bool)

  datatype Store = Store(
    accounts: map<string, Account>, files: map<(string, string), seq<byte>>, who: Option<string>)

  predicate Ok(a: Store) {
    a.who.Some? ==> a.who.value in a.accounts
  }

  function SpecStep(a: Store, c: Command): (r: (Store, Reply))
    requires Valid(c) && Ok(a)
    ensures Ok(r.0)
  {
    if c.Login? then
      if a.who.Some? then (a, Said(AlreadyIn))
      else if c.name in a.accounts && a.accounts[c.name].pass == c.pass then (a.(who := Some(c.name)), Said(LoggedIn))
      else (a, Said(LoginFailed))
    else if a.who == None then (a, Said(NotLogged))
    else
      var me := a.who.value;
      match c
      case Get(alias) =>
        if (me, alias) in a.files
        then (a, File(Encode(a.files[(me, alias)]), |a.files[(me, alias)]|))
        else (a, Said(NotInDb))
      case Post(alias, data, size) =>
        if (me, alias) in a.files then (a, Said(FileExists))
        else (a.(files := a.files[(me, alias) := Decode(data)[..size]]), Said(FileOk))
      case Logout => (a.(who := None), Said(LoggedOut))
      case NewUser(name, pass, admin) =>
        if !a.accounts[me].admin then (a, Said(NoPermission))
        else if name in a.accounts then (a, Said(UserExists))
        else (a.(accounts := a.accounts[name := Account(pass, admin)]), Said(Registered))
      case ChangePass(pass) =>
        (a.(accounts := a.accounts[me := a.accounts[me].(pass := pass)]), Said(Updated))
  }

  // -------------------------------------------------- homes that match each other

  /** Pattern and text agree wherever both have a character. */
  predicate Agree(h: string, g: string) {
    forall i :: 0 <= i < |h| && i < |g| ==> Matches(h[i], g[i])
  }

  /** Some alias of the owner of home g is found by the owner of home h. */
  predicate Sees(h: string, g: string) {
    && Agree(h, g)
    && (|h| > |g| ==>
        Matches(h[|g|], '/') && forall i :: |g| < i < |h| ==> h[i] == '_' || Alnum(h[i]))
  }

  ghost predicate Separated(users: seq<UserRow>) {
    forall i, j :: 0 <= i < |users| && 0 <= j < |users| && i != j ==> !Sees(users[i].home, users[j].home)
  }

  lemma LikeSees(h: string, g: string, alias: string)
    requires Name(alias) && Like(h, FilePath(g, alias))
    ensures Sees(h, g)
  {
  }

  /** Past "/fs/" pattern and text are the two names. */
  lemma NamesAgree(n: string, m: string)
    ensures Agree("/fs/" + n, "/fs/" + m) <==>
      forall i :: 0 <= i < |n| && i < |m| ==> Matches(n[i], m[i])
  {
    var h, g := "/fs/" + n, "/fs/" + m;
    assert h[..4] == g[..4] == "/fs/";
    assert forall i :: 0 <= i < |n| ==> h[i + 4] == n[i];
    assert forall i :: 0 <= i < |m| ==> g[i + 4] == m[i];
    if Agree(h, g) {
      forall i | 0 <= i < |n| && i < |m|
        ensures Matches(n[i], m[i])
      {
        assert Matches(h[i + 4], g[i + 4]);
      }
    }
    if forall i :: 0 <= i < |n| && i < |m| ==> Matches(n[i], m[i]) {
      forall i | 0 <= i < |h| && i < |g|
        ensures Matches(h[i], g[i])
      {
        if i >= 4 {
          assert h[i] == n[i - 4] && g[i] == m[i - 4];
        } else {
          assert h[i] == h[..4][i] == g[..4][i] == g[i];
        }
      }
    }
  }

  /** For users added by the server: one sees the other exactly when its name is a
      prefix of the other's, ignoring case. */
  lemma SeesNames(n: string, m: string)
    requires Name(n) && Name(m)
    ensures Sees("/fs/" + n, "/fs/" + m) <==>
      |n| <= |m| && forall i :: 0 <= i < |n| ==> Fold(n[i]) == Fold(m[i])
  {
    NamesAgree(n, m);
    var h, g := "/fs/" + n, "/fs/" + m;
    assert forall i :: 0 <= i < |n| ==> Alnum(n[i]);
    assert |n| > |m| ==> h[|g|] == n[|m|] && !Matches(n[|m|], '/');
  }

  /** A user `bob` sees the files of `bobby`; so does a user `Bob` those of `bob`. */
  lemma HomesThatClash()
    ensures Sees("/fs/bob", "/fs/bobby") && Sees("/fs/Bob", "/fs/bob") && !Sees("/fs/bobby", "/fs/bob")
    ensures Sees("/fs/b_b", "/fs/bob") && !Sees("/fs/bob", "/fs/b_b")
  {
    assert !Matches("/fs/bob"[5], "/fs/b_b"[5]);
  }

  lemma LikeSelf(h: string, alias: string)
    ensures Like(h, FilePath(h, alias))
  {
  }

  // ----------------------------------------------------------------- refinement

  predicate HasPath(files: seq<FileRow>, path: string) {
    exists k :: 0 <= k < |files| && files[k].path == path
  }

  ghost predicate UsersRefine(w: World, a: Store) {
    && (forall i :: 0 <= i < |w.users| ==>
        w.users[i].username in a.accounts &&
        a.accounts[w.users[i].username] == Account(w.users[i].password, w.users[i].admin))
    && (forall n :: n in a.accounts ==> Known(w.users, n))
    && a.who == (if w.user.Some? then Some(w.user.value.name) else None)
  }

  /** The file of (name, alias) in one world and the other. */
  ghost predicate FileRefines(w: World, a: Store, name: string, home: string, alias: string) {
    var path := FilePath(home, alias);
    && ((name, alias) in a.files <==> HasPath(w.files, path))
    && (HasPath(w.files, path) ==>
        FileAt(home, alias) in w.tree && a.files[(name, alias)] == w.tree[FileAt(home, alias)])
  }

  ghost predicate FilesRefine(w: World, a: Store) {
    && (forall i, alias | 0 <= i < |w.users| && Name(alias) ::
        FileRefines(w, a, w.users[i].username, w.users[i].home, alias))
    && (forall key :: key in a.files ==> Known(w.users, key.0))
  }

  ghost predicate Refines(w: World, a: Store) {
    UsersRefine(w, a) && FilesRefine(w, a)
  }

  /** What a user's look-up finds, when homes are separated. */
  lemma FindExact(w: World, i: int, alias: string)
    requires Inv(w) && Separated(w.users) && 0 <= i < |w.users| && Name(alias) && FileColumnOf(alias) == None
    ensures var path := FilePath(w.users[i].home, alias);
      FindPath(w.files, alias, w.users[i].home) == if HasPath(w.files, path) then Some(path) else None
  {
    var home := w.users[i].home;
    var path := FilePath(home, alias);
    var r := FindPath(w.files, alias, home);
    if r.Some? {
      var k :| 0 <= k < |w.files| && IsFile(w.files[k], alias, home) && w.files[k].path == r.value;
      assert Owned(w.users, w.files[k]);
      var j :| Owns(w.users, j, w.files[k]);
      LikeSees(home, w.users[j].home, alias);
      assert i == j;
    }
    if HasPath(w.files, path) {
      var k :| 0 <= k < |w.files| && w.files[k].path == path;
      assert Owned(w.users, w.files[k]);
      var j :| Owns(w.users, j, w.files[k]);
      PathInjective(home, alias, w.users[j].home, w.files[k].alias);
      LikeSelf(home, alias);
      assert IsFile(w.files[k], alias, home);
    }
  }

  ghost predicate Simulates(w: World, a: Store, c: Command)
    requires Valid(c)
  {
    && Ok(a)
    && Step(w, c).1 == SpecStep(a, c).1
    && Inv(Step(w, c).0) && Refines(Step(w, c).0, SpecStep(a, c).0)
  }

  lemma LoginFound(w: World, a: Store, name: string, pass: string)
    requires Accounts(w) && UsersRefine(w, a) && UserColumnOf(name) == None && UserColumnOf(pass) == None
    ensures FindLogin(w.users, name, pass).Some? <==> name in a.accounts && a.accounts[name].pass == pass
  {
    var r := FindLogin(w.users, name, pass);
    if r.Some? {
      var i :| 0 <= i < |w.users| && w.users[i] == r.value;
    }
    if name in a.accounts && a.accounts[name].pass == pass {
      var i :| 0 <= i < |w.users| && w.users[i].username == name;
      assert w.users[i] in w.users && HasLogin(w.users[i], name, pass);
    }
  }

  lemma LoginSteps(w: World, a: Store, c: Command)
    requires Accounts(w) && UsersRefine(w, a) && Ok(a) && c.Login? && Valid(c) && Literal(c)
    ensures Step(w, c).1 == SpecStep(a, c).1
    ensures Step(w, c).0 == w.(user := Step(w, c).0.user)
    ensures SpecStep(a, c).0 ==
      a.(who := if Step(w, c).0.user.Some? then Some(Step(w, c).0.user.value.name) else None)
  {
    LoginFound(w, a, c.name, c.pass);
  }

  lemma SimulateLogin(w: World, a: Store, c: Command)
    requires Inv(w) && Refines(w, a) && c.Login? && Valid(c) && Literal(c)
    ensures Simulates(w, a, c)
  {
    UserKnown(w, a);
    LoginSteps(w, a, c);
    StepKeepsAccounts(w, c);
    SessionMoves(w, a, Step(w, c).0.user);
  }

  lemma UserKnown(w: World, a: Store)
    requires Accounts(w) && UsersRefine(w, a)
    ensures Ok(a)
  {
  }

  /** Another session over the same tables. */
  lemma SessionMoves(w: World, a: Store, user: Option<Logged>)
    requires Inv(w) && Refines(w, a) && Accounts(w.(user := user))
    ensures Inv(w.(user := user))
    ensures Refines(w.(user := user), a.(who := if user.Some? then Some(user.value.name) else None))
  {
    var w', a' := w.(user := user), a.(who := if user.Some? then Some(user.value.name) else None);
    forall i, alias | 0 <= i < |w.users| && Name(alias)
      ensures FileRefines(w', a', w.users[i].username, w.users[i].home, alias)
    {
      assert FileRefines(w, a, w.users[i].username, w.users[i].home, alias);
    }
  }

  lemma GetSteps(w: World, a: Store, i: int, alias: string)
    requires Inv(w) && Separated(w.users) && Refines(w, a) && Ok(a) && w.user.Some?
    requires IsOwn(w.users, i, w.user.value) && Name(alias) && FileColumnOf(alias) == None
    ensures Step(w, Get(alias)) == (w, SpecStep(a, Get(alias)).1) && SpecStep(a, Get(alias)).0 == a
  {
    FindExact(w, i, alias);
    assert FileRefines(w, a, w.users[i].username, w.users[i].home, alias);
  }

  lemma SimulateGet(w: World, a: Store, c: Command)
    requires Inv(w) && Separated(w.users) && Refines(w, a) && w.user.Some? && c.Get? && Valid(c)
    requires Literal(c)
    ensures Simulates(w, a, c)
  {
    UserKnown(w, a);
    var i :| IsOwn(w.users, i, w.user.value);
    GetSteps(w, a, i, c.alias);
  }

  /** The world with one more file below the home, as `Save` leaves it when the file can
      be written. */
  function Saved(w: World, home: string, alias: string, bytes: seq<byte>): World {
    w.(files := w.files + [FileRow(w.nextFile, FilePath(home, alias), alias, 2)], nextFile := w.nextFile + 1,
       tree := w.tree[FileAt(home, alias) := bytes])
  }

  /** Saving one user's new file leaves every other (user, alias) as it was. */
  lemma SavedElsewhere(w: World, a: Store, i: int, alias: string, bytes: seq<byte>, j: int, b: string)
    requires Inv(w) && Separated(w.users) && Refines(w, a)
    requires 0 <= i < |w.users| && 0 <= j < |w.users| && Name(alias) && Name(b)
    requires !HasPath(w.files, FilePath(w.users[i].home, alias))
    requires (i, alias) != (j, b)
    ensures var w' := Saved(w, w.users[i].home, alias, bytes);
      var a' := a.(files := a.files[(w.users[i].username, alias) := bytes]);
      FileRefines(w', a', w.users[j].username, w.users[j].home, b)
  {
    var path, other := FilePath(w.users[i].home, alias), FilePath(w.users[j].home, b);
    assert FileRefines(w, a, w.users[j].username, w.users[j].home, b);
    FilesApart(w, i, alias, j, b);
    OtherListed(w.files, FileRow(w.nextFile, path, alias, 2), other);
  }

  lemma OtherListed(files: seq<FileRow>, row: FileRow, path: string)
    requires row.path != path
    ensures HasPath(files + [row], path) <==> HasPath(files, path)
  {
    assert forall k :: 0 <= k < |files| ==> (files + [row])[k] == files[k];
  }

  /** With separate homes, different users and aliases have different files. */
  lemma FilesApart(w: World, i: int, alias: string, j: int, b: string)
    requires Separated(w.users) && Spelled(w.users) && 0 <= i < |w.users| && 0 <= j < |w.users|
    requires Name(alias) && Name(b) && (i, alias) != (j, b)
    ensures FileAt(w.users[i].home, alias) != FileAt(w.users[j].home, b)
    ensures FilePath(w.users[i].home, alias) != FilePath(w.users[j].home, b)
  {
    SeesSelf(w.users[i].home);
    if FileAt(w.users[i].home, alias) == FileAt(w.users[j].home, b) {
      FileAtInjective(w.users[i].home, alias, w.users[j].home, b);
    }
  }

  lemma SeesSelf(h: string)
    ensures Sees(h, h)
  {
  }

  /** A new file in world and store: the two still agree about all files. */
  lemma SavedRefines(w: World, a: Store, i: int, alias: string, bytes: seq<byte>)
    requires Inv(w) && Separated(w.users) && Refines(w, a) && 0 <= i < |w.users| && Name(alias)
    requires !HasPath(w.files, FilePath(w.users[i].home, alias))
    ensures FilesRefine(Saved(w, w.users[i].home, alias, bytes),
                        a.(files := a.files[(w.users[i].username, alias) := bytes]))
  {
    var path := FilePath(w.users[i].home, alias);
    var w' := Saved(w, w.users[i].home, alias, bytes);
    var a' := a.(files := a.files[(w.users[i].username, alias) := bytes]);
    assert w'.files[|w.files|].path == path;
    forall j, b | 0 <= j < |w'.users| && Name(b)
      ensures FileRefines(w', a', w'.users[j].username, w'.users[j].home, b)
    {
      if j != i || b != alias {
        SavedElsewhere(w, a, i, alias, bytes, j, b);
      }
    }
  }

  /** The file system does not stand in the command's way: no folder where it puts a
      file, no file where it makes a folder. */
  ghost predicate Open(w: World, c: Command) {
    && (c.Post? && w.user.Some? ==> FileAt(w.user.value.home, c.alias) !in w.dirs)
    && (c.NewUser? ==> USERS in w.dirs && USERS + "/" + c.name !in w.tree)
  }

  lemma SaveWrites(w: World, u: Logged, alias: string, bytes: seq<byte>)
    requires Writable(w, u.home, alias)
    ensures Save(w, u, alias, bytes) == Saved(w, u.home, alias, bytes)
  {
  }

  lemma PostStep(w: World, i: int, c: Command)
    requires Inv(w) && Separated(w.users) && w.user.Some? && c.Post? && Valid(c)
    requires Literal(c) && IsOwn(w.users, i, w.user.value) && Open(w, c)
    ensures var path, bytes := FilePath(w.users[i].home, c.alias), Decode(c.data)[..c.size];
      Step(w, c) == if HasPath(w.files, path) then (w, Said(FileExists))
                    else (Saved(w, w.users[i].home, c.alias, bytes), Said(FileOk))
  {
    FindExact(w, i, c.alias);
    SaveWrites(w, w.user.value, c.alias, Decode(c.data)[..c.size]);
  }

  lemma PostSpecStep(w: World, a: Store, i: int, c: Command)
    requires Refines(w, a) && Ok(a) && w.user.Some? && c.Post? && Valid(c) && IsOwn(w.users, i, w.user.value)
    ensures var path, bytes := FilePath(w.users[i].home, c.alias), Decode(c.data)[..c.size];
      SpecStep(a, c) == if HasPath(w.files, path) then (a, Said(FileExists))
                        else (a.(files := a.files[(w.users[i].username, c.alias) := bytes]), Said(FileOk))
  {
    assert FileRefines(w, a, w.users[i].username, w.users[i].home, c.alias);
  }

  lemma SimulatePost(w: World, a: Store, c: Command)
    requires Inv(w) && Separated(w.users) && Refines(w, a) && w.user.Some? && c.Post? && Valid(c)
    requires Literal(c) && Open(w, c)
    ensures Simulates(w, a, c)
  {
    UserKnown(w, a);
    var i :| IsOwn(w.users, i, w.user.value);
    PostStep(w, i, c);
    PostSpecStep(w, a, i, c);
    var path := FilePath(w.users[i].home, c.alias);
    if !HasPath(w.files, path) {
      var bytes := Decode(c.data)[..c.size];
      SavedInv(w, i, c.alias, bytes);
      SavedRefines(w, a, i, c.alias, bytes);
    }
  }

  lemma SavedInv(w: World, i: int, alias: string, bytes: seq<byte>)
    requires Inv(w) && 0 <= i < |w.users| && Name(alias) && FileAt(w.users[i].home, alias) !in w.dirs
    requires !HasPath(w.files, FilePath(w.users[i].home, alias))
    ensures Inv(Saved(w, w.users[i].home, alias, bytes))
  {
    var home := w.users[i].home;
    var u := Logged("", home, false, 0);
    assert Save(w, u, alias, bytes) == Saved(w, home, alias, bytes);
    SavedFileSystem(w, u, alias, bytes);
    SavedCatalogued(w, i, alias, bytes);
  }

  lemma SavedCatalogued(w: World, i: int, alias: string, bytes: seq<byte>)
    requires Catalogued(w) && 0 <= i < |w.users| && Name(alias)
    requires !HasPath(w.files, FilePath(w.users[i].home, alias))
    ensures Catalogued(Saved(w, w.users[i].home, alias, bytes))
  {
    var row := FileRow(w.nextFile, FilePath(w.users[i].home, alias), alias, 2);
    assert Owns(w.users, i, row);
  }

  lemma SimulateLogout(w: World, a: Store, c: Command)
    requires Inv(w) && Refines(w, a) && w.user.Some? && c.Logout?
    ensures Simulates(w, a, c)
  {
    UserKnown(w, a);
    SessionMoves(w, a, None);
    assert Step(w, c) == (w.(user := None), Said(LoggedOut));
    assert SpecStep(a, c) == (a.(who := None), Said(LoggedOut));
  }

  /** Users may be added, and passwords change. */
  lemma CataloguedStays(w: World, users: seq<UserRow>)
    requires Catalogued(w) && |w.users| <= |users|
    requires forall i :: 0 <= i < |w.users| ==> users[i].home == w.users[i].home
    ensures Catalogued(w.(users := users))
  {
    forall k | 0 <= k < |w.files|
      ensures Owned(users, w.files[k])
    {
      assert Owned(w.users, w.files[k]);
      var j :| Owns(w.users, j, w.files[k]);
      assert Owns(users, j, w.files[k]);
    }
  }

  lemma ChangedInv(w: World, id: nat, pass: string)
    requires Inv(w)
    ensures Inv(w.(users := SetPassword(w.users, id, pass)))
  {
    var users := SetPassword(w.users, id, pass);
    if w.user.Some? {
      var i :| IsOwn(w.users, i, w.user.value);
      assert IsOwn(users, i, w.user.value);
    }
    CataloguedStays(w, users);
  }

  lemma ChangedUsers(w: World, a: Store, i: int, pass: string)
    requires UserColumnOf(pass) == None
    requires Unique(w.users) && UsersRefine(w, a) && w.user.Some? && IsOwn(w.users, i, w.user.value)
    ensures var users := SetPassword(w.users, w.users[i].id, pass);
      var name := w.users[i].username;
      UsersRefine(w.(users := users), a.(accounts := a.accounts[name := a.accounts[name].(pass := pass)]))
  {
  }

  lemma ChangedFiles(w: World, a: Store, users: seq<UserRow>, accounts: map<string, Account>)
    requires FilesRefine(w, a) && |users| == |w.users|
    requires forall i :: 0 <= i < |users| ==>
      users[i].home == w.users[i].home && users[i].username == w.users[i].username
    ensures FilesRefine(w.(users := users), a.(accounts := accounts))
  {
  }

  lemma ChangedRefines(w: World, a: Store, i: int, pass: string)
    requires UserColumnOf(pass) == None && Unique(w.users) && Refines(w, a)
    requires w.user.Some? && IsOwn(w.users, i, w.user.value)
    ensures var users, name := SetPassword(w.users, w.users[i].id, pass), w.users[i].username;
      Refines(w.(users := users), a.(accounts := a.accounts[name := a.accounts[name].(pass := pass)]))
  {
    var users, name := SetPassword(w.users, w.users[i].id, pass), w.users[i].username;
    ChangedUsers(w, a, i, pass);
    ChangedFiles(w, a, users, a.accounts[name := a.accounts[name].(pass := pass)]);
  }

  lemma SimulateChangePass(w: World, a: Store, c: Command)
    requires Inv(w) && Refines(w, a) && w.user.Some? && c.ChangePass? && Valid(c) && Literal(c)
    ensures Simulates(w, a, c)
  {
    var i :| IsOwn(w.users, i, w.user.value);
    ChangedInv(w, w.user.value.id, c.pass);
    ChangedRefines(w, a, i, c.pass);
  }

  lemma KnownSame(users: seq<UserRow>, users': seq<UserRow>)
    requires |users| <= |users'|
    requires forall i :: 0 <= i < |users| ==> users[i].username == users'[i].username
    ensures forall n :: Known(users, n) ==> Known(users', n)
  {
  }

  lemma RegisteredInv(w: World, name: string, pass: string, admin: bool)
    requires Inv(w) && w.user.Some? && Name(name) && !Known(w.users, name) && Open(w, NewUser(name, pass, admin))
    ensures Inv(Register(w, name, pass, admin))
  {
    var w' := Register(w, name, pass, admin);
    var i :| IsOwn(w.users, i, w.user.value);
    assert IsOwn(w'.users, i, w'.user.value);
    CataloguedStays(w, w'.users);
    RegisteredSited(w, name, pass, admin);
    RegisteredHomes(w, name, pass, admin);
  }

  /** A user whose home nobody sees starts without files. */
  lemma NewHomeEmpty(w: World, home: string, alias: string)
    requires Inv(w) && Name(alias)
    requires forall j :: 0 <= j < |w.users| ==> !Sees(home, w.users[j].home)
    ensures !HasPath(w.files, FilePath(home, alias))
  {
    if HasPath(w.files, FilePath(home, alias)) {
      var k :| 0 <= k < |w.files| && w.files[k].path == FilePath(home, alias);
      assert Owned(w.users, w.files[k]);
      var j :| Owns(w.users, j, w.files[k]);
      PathInjective(home, alias, w.users[j].home, w.files[k].alias);
      SeesSelf(home);
      assert false;
    }
  }

  /** A new user's (empty) files and everybody else's. */
  lemma RegisteredFiles(w: World, a: Store, name: string, pass: string, admin: bool)
    requires Inv(w) && FilesRefine(w, a) && !Known(w.users, name)
    requires Separated(Register(w, name, pass, admin).users)
    ensures FilesRefine(Register(w, name, pass, admin), a.(accounts := a.accounts[name := Account(pass, admin)]))
  {
    var w', a' := Register(w, name, pass, admin), a.(accounts := a.accounts[name := Account(pass, admin)]);
    var n := |w.users|;
    KnownSame(w.users, w'.users);
    forall j, b | 0 <= j < |w'.users| && Name(b)
      ensures FileRefines(w', a', w'.users[j].username, w'.users[j].home, b)
    {
      if j < n {
        assert FileRefines(w, a, w.users[j].username, w.users[j].home, b);
      } else {
        assert forall m :: 0 <= m < n ==> w'.users[m] == w.users[m] && !Sees(w'.users[n].home, w'.users[m].home);
        NewHomeEmpty(w, w'.users[n].home, b);
        assert (name, b) !in a.files;
      }
    }
  }

  lemma NewUserSteps(w: World, a: Store, c: Command)
    requires Accounts(w) && UsersRefine(w, a) && Ok(a) && w.user.Some? && c.NewUser? && Valid(c) && Literal(c)
    ensures if w.user.value.admin && !Known(w.users, c.name) then
        && Step(w, c) == (Register(w, c.name, c.pass, c.admin), Said(Registered))
        && SpecStep(a, c) == (a.(accounts := a.accounts[c.name := Account(c.pass, c.admin)]), Said(Registered))
      else Step(w, c) == (w, SpecStep(a, c).1) && SpecStep(a, c).0 == a
  {
  }

  lemma RegisteredUsers(w: World, a: Store, name: string, pass: string, admin: bool)
    requires UsersRefine(w, a) && !Known(w.users, name)
    ensures UsersRefine(Register(w, name, pass, admin), a.(accounts := a.accounts[name := Account(pass, admin)]))
  {
    var w' := Register(w, name, pass, admin);
    KnownSame(w.users, w'.users);
    assert w'.users[|w.users|].username == name;
  }

  lemma SimulateNewUser(w: World, a: Store, c: Command)
    requires Inv(w) && Refines(w, a) && w.user.Some? && c.NewUser? && Valid(c) && Literal(c) && Open(w, c)
    requires Separated(Step(w, c).0.users)
    ensures Simulates(w, a, c)
  {
    UserKnown(w, a);
    NewUserSteps(w, a, c);
    if w.user.value.admin && !Known(w.users, c.name) {
      RegisteredInv(w, c.name, c.pass, c.admin);
      RegisteredUsers(w, a, c.name, c.pass, c.admin);
      RegisteredFiles(w, a, c.name, c.pass, c.admin);
    }
  }

  lemma SimulateStep(w: World, a: Store, c: Command)
    requires Inv(w) && Refines(w, a) && Valid(c) && Literal(c) && Open(w, c)
    requires Separated(w.users) && Separated(Step(w, c).0.users)
    ensures Simulates(w, a, c)
  {
    if c.Login? {
      SimulateLogin(w, a, c);
    } else if w.user.Some? {
      match c
      case Get(_) => SimulateGet(w, a, c);
      case Post(_, _, _) => SimulatePost(w, a, c);
      case Logout => SimulateLogout(w, a, c);
      case NewUser(_, _, _) => SimulateNewUser(w, a, c);
      case ChangePass(_) => SimulateChangePass(w, a, c);
    }
  }

  // ------------------------------------------------------------------ whole runs

  function SpecExec(a: Store, cs: seq<Command>): (r: Store)
    requires AllValid(cs) && Ok(a)
    ensures Ok(r)
    decreases |cs|
  {
    if cs == [] then a else SpecExec(SpecStep(a, cs[0]).0, cs[1..])
  }

  function SpecReplies(a: Store, cs: seq<Command>): (rs: seq<Reply>)
    requires AllValid(cs) && Ok(a)
    ensures |rs| == |cs|
    decreases |cs|
  {
    if cs == [] then [] else [SpecStep(a, cs[0]).1] + SpecReplies(SpecStep(a, cs[0]).0, cs[1..])
  }

  lemma SeparatedEarlier(w: World, cs: seq<Command>)
    requires AllValid(cs) && Rows(w) && Separated(Exec(w, cs).users)
    ensures Separated(w.users)
  {
    RowsOverRuns(w, cs);
    var us := Exec(w, cs).users;
    assert forall i :: 0 <= i < |w.users| ==> us[i].home == w.users[i].home;
  }

  /** No folder where a user could post a file. */
  ghost predicate NoFolderBelow(w: World) {
    forall i, a :: 0 <= i < |w.users| && Name(a) && FileColumnOf(a) == None ==> FileAt(w.users[i].home, a) !in w.dirs
  }

  ghost predicate NoNewUser(cs: seq<Command>) {
    forall c :: c in cs ==> !c.NewUser?
  }

  /** Nothing in the file system stands in the way of the run: no home is the parent of
      the user folders and no clutter is around, or no folders are made at all. */
  ghost predicate Tame(w: World, cs: seq<Command>) {
    Clear(w) || (NoNewUser(cs) && NoFolderBelow(w))
  }

  lemma TameStep(w: World, cs: seq<Command>)
    requires Inv(w) && Tame(w, cs) && cs != [] && AllValid(cs) && AllLiteral(cs)
    ensures Open(w, cs[0]) && Tame(Step(w, cs[0]).0, cs[1..])
  {
    if w.user.Some? {
      var i :| IsOwn(w.users, i, w.user.value);
    }
    assert cs[0] in cs && Literal(cs[0]);
    if Clear(w) {
      OwnRow(w);
      StepKeepsStocked(w, cs[0]);
    } else {
      StepPlaces(w, cs[0]);
    }
  }

  /** Over every run of literal commands that leaves homes separated, and in whose way
      the file system does not stand, the worker answers as the write-once store does,
      and still refines it at the end. */
  lemma {:induction false} RunRefines(w: World, a: Store, cs: seq<Command>)
    requires AllValid(cs) && AllLiteral(cs) && Inv(w) && Refines(w, a) && Ok(a)
    requires Separated(Exec(w, cs).users) && Tame(w, cs)
    ensures Replies(w, cs) == SpecReplies(a, cs)
    ensures Inv(Exec(w, cs)) && Refines(Exec(w, cs), SpecExec(a, cs))
    decreases |cs|
  {
    if cs != [] {
      var w' := Step(w, cs[0]).0;
      StepKeepsAccounts(w, cs[0]);
      OwnRow(w);
      OwnRow(w');
      SeparatedEarlier(w, cs);
      SeparatedEarlier(w', cs[1..]);
      TameStep(w, cs);
      SimulateStep(w, a, cs[0]);
      RunRefines(w', SpecStep(a, cs[0]).0, cs[1..]);
    }
  }

  /** No command ever changes or removes a file. */
  lemma {:induction false} WriteOnce(a: Store, cs: seq<Command>, key: (string, string))
    requires AllValid(cs) && Ok(a) && key in a.files
    ensures var b := SpecExec(a, cs); key in b.files && b.files[key] == a.files[key]
    decreases |cs|
  {
    if cs != [] {
      WriteOnce(SpecStep(a, cs[0]).0, cs[1..], key);
    }
  }

  // ------------------------------------------- every world is some store's world

  function AccountsOf(users: seq<UserRow>): map<string, Account> {
    if users == [] then map[]
    else
      var n := |users| - 1;
      AccountsOf(users[..n])[users[n].username := Account(users[n].password, users[n].admin)]
  }

  lemma {:induction false} AccountsOfExact(users: seq<UserRow>)
    requires Unique(users)
    ensures forall i :: 0 <= i < |users| ==>
      users[i].username in AccountsOf(users) &&
      AccountsOf(users)[users[i].username] == Account(users[i].password, users[i].admin)
    ensures forall n :: n in AccountsOf(users) ==> Known(users, n)
    decreases |users|
  {
    if users != [] {
      var n := |users| - 1;
      AccountsOfExact(users[..n]);
      KnownSame(users[..n], users);
      assert users[n].username == users[n].username;
    }
  }

  /** The files of one user: the rows below its home. */
  function FilesOf(w: World, files: seq<FileRow>, name: string, home: string): map<(string, string), seq<byte>> {
    if files == [] then map[]
    else
      var n := |files| - 1;
      var rest, row := FilesOf(w, files[..n], name, home), files[n];
      if row.path == FilePath(home, row.alias) && FileAt(home, row.alias) in w.tree
      then rest[(name, row.alias) := w.tree[FileAt(home, row.alias)]] else rest
  }

  ghost predicate Rooted(row: FileRow) {
    exists g :: row.path == FilePath(g, row.alias)
  }

  lemma {:induction false} FilesOfExact(w: World, files: seq<FileRow>, name: string, home: string)
    requires forall k :: 0 <= k < |files| ==> Name(files[k].alias) && Squeeze("." + files[k].path) in w.tree
    requires forall k :: 0 <= k < |files| ==> Rooted(files[k])
    ensures var m := FilesOf(w, files, name, home);
      && (forall key :: key in m ==> key.0 == name)
      && (forall alias :: Name(alias) ==>
          var path := FilePath(home, alias);
          ((name, alias) in m <==> HasPath(files, path)) &&
          (HasPath(files, path) ==>
           FileAt(home, alias) in w.tree && m[(name, alias)] == w.tree[FileAt(home, alias)]))
    decreases |files|
  {
    if files != [] {
      var n := |files| - 1;
      var init, row := files[..n], files[n];
      FilesOfExact(w, init, name, home);
      var m := FilesOf(w, files, name, home);
      forall alias | Name(alias)
        ensures var path := FilePath(home, alias);
          ((name, alias) in m <==> HasPath(files, path)) &&
          (HasPath(files, path) ==>
           FileAt(home, alias) in w.tree && m[(name, alias)] == w.tree[FileAt(home, alias)])
      {
        var path := FilePath(home, alias);
        assert HasPath(files, path) <==> HasPath(init, path) || row.path == path;
        assert Rooted(row);
        var g :| row.path == FilePath(g, row.alias);
        if row.path == path {
          PathInjective(g, row.alias, home, alias);
        }
      }
    }
  }

  function AllFilesOf(w: World, users: seq<UserRow>): map<(string, string), seq<byte>> {
    if users == [] then map[]
    else
      var n := |users| - 1;
      AllFilesOf(w, users[..n]) + FilesOf(w, w.files, users[n].username, users[n].home)
  }

  /** The store a world stands for. */
  function Abstract(w: World): Store {
    Store(AccountsOf(w.users), AllFilesOf(w, w.users), if w.user.Some? then Some(w.user.value.name) else None)
  }

  /** A map of files that is right for the given user. */
  ghost predicate Holds(w: World, m: map<(string, string), seq<byte>>, u: UserRow) {
    forall alias | Name(alias) :: FileRefines(w, Store(map[], m, None), u.username, u.home, alias)
  }

  lemma HoldsAdded(w: World, m: map<(string, string), seq<byte>>, n: map<(string, string), seq<byte>>, u: UserRow)
    requires Holds(w, m, u) && forall key :: key in n ==> key.0 != u.username
    ensures Holds(w, m + n, u) && Holds(w, n + m, u)
  {
  }

  ghost predicate FilesReadable(w: World) {
    forall k :: 0 <= k < |w.files| ==>
      Name(w.files[k].alias) && Squeeze("." + w.files[k].path) in w.tree && Rooted(w.files[k])
  }

  lemma HoldsForAll(w: World, m: map<(string, string), seq<byte>>, n: map<(string, string), seq<byte>>,
                    users: seq<UserRow>)
    requires forall u :: u in users ==> Holds(w, m, u) && forall key :: key in n ==> key.0 != u.username
    ensures forall u :: u in users ==> Holds(w, m + n, u)
  {
  }

  /** Adding one more user's files to those of users with other names. */
  lemma AddFilesOf(w: World, users: seq<UserRow>, u: UserRow, before: map<(string, string), seq<byte>>)
    requires FilesReadable(w) && !Known(users, u.username)
    requires forall key :: key in before ==> Known(users, key.0)
    requires forall v :: v in users ==> Holds(w, before, v)
    ensures var m := before + FilesOf(w, w.files, u.username, u.home);
      && (forall key :: key in m ==> Known(users, key.0) || key.0 == u.username)
      && (forall v :: v in users ==> Holds(w, m, v))
      && Holds(w, m, u)
  {
    FilesOfExact(w, w.files, u.username, u.home);
    var mine := FilesOf(w, w.files, u.username, u.home);
    assert Holds(w, mine, u);
    HoldsAdded(w, mine, before, u);
    HoldsForAll(w, before, mine, users);
  }

  lemma KnownSnoc(users: seq<UserRow>, n: nat)
    requires |users| == n + 1 && Unique(users)
    ensures !Known(users[..n], users[n].username)
    ensures forall name :: Known(users[..n], name) || name == users[n].username ==> Known(users, name)
  {
  }

  lemma AddLast(w: World, users: seq<UserRow>, n: nat, before: map<(string, string), seq<byte>>)
    requires |users| == n + 1 && Unique(users) && FilesReadable(w)
    requires forall key :: key in before ==> Known(users[..n], key.0)
    requires forall u :: u in users[..n] ==> Holds(w, before, u)
    ensures var m := before + FilesOf(w, w.files, users[n].username, users[n].home);
      && (forall key :: key in m ==> Known(users, key.0))
      && (forall u :: u in users ==> Holds(w, m, u))
  {
    KnownSnoc(users, n);
    AddFilesOf(w, users[..n], users[n], before);
    assert users == users[..n] + [users[n]];
  }

  lemma {:induction false} AllFilesOfExact(w: World, users: seq<UserRow>)
    requires Unique(users) && FilesReadable(w)
    ensures forall key :: key in AllFilesOf(w, users) ==> Known(users, key.0)
    ensures forall u :: u in users ==> Holds(w, AllFilesOf(w, users), u)
    decreases |users|
  {
    if users != [] {
      var n := |users| - 1;
      AllFilesOfExact(w, users[..n]);
      AddLast(w, users, n, AllFilesOf(w, users[..n]));
    }
  }

  lemma AbstractRefines(w: World)
    requires Inv(w)
    ensures Refines(w, Abstract(w)) && Ok(Abstract(w))
  {
    AccountsOfExact(w.users);
    forall k | 0 <= k < |w.files|
      ensures Rooted(w.files[k])
    {
      assert Owned(w.users, w.files[k]);
      var j :| Owns(w.users, j, w.files[k]);
    }
    AllFilesOfExact(w, w.users);
    var a := Abstract(w);
    forall i, alias | 0 <= i < |w.users| && Name(alias)
      ensures FileRefines(w, a, w.users[i].username, w.users[i].home, alias)
    {
      assert Holds(w, a.files, w.users[i]);
      assert FileRefines(w, Store(map[], a.files, None), w.users[i].username, w.users[i].home, alias);
    }
    if w.user.Some? {
      var i :| IsOwn(w.users, i, w.user.value);
      assert w.users[i].username in a.accounts;
    }
  }

  // ------------------------------------------------------- without separate homes

  // ---------------------------------------- what a post stores stays, and is found

  /** Aliases under which a posted file is found again. */
  predicate Findable(alias: string) {
    FileColumnOf(alias) in {None, Some(AliasColumn)}
  }

  lemma FileColumnWord(word: string)
    requires FileColumnOf(word).Some?
    ensures |word| >= 3 && !Digits(word)
  {
    assert Lower(word)[0] == Fold(word[0]);
  }

  /** Of the aliases a client can send, all but four are. */
  lemma FindableExact(alias: string)
    requires Name(alias)
    ensures !Findable(alias) <==> Lower(alias) in {"path", "owner", "rowid", "oid"}
  {
    forall i | 0 <= i < |alias|
      ensures Lower(alias)[i] != '_'
    {
      assert Alnum(alias[i]);
    }
    assert "file_id"[4] == '_' && "_rowid_"[0] == '_';
  }

  /** The row that a post adds is seen by its owner's look-up exactly then. */
  lemma OwnRowSeen(row: FileRow, home: string)
    requires row.path == FilePath(home, row.alias)
    ensures IsFile(row, row.alias, home) <==> Findable(row.alias)
  {
    LikeSelf(home, row.alias);
    if FileColumnOf(row.alias).Some? {
      FileColumnWord(row.alias);
    }
  }

  predicate Lists(files: seq<FileRow>, home: string, alias: string) {
    exists k :: 0 <= k < |files| && files[k].alias == alias && files[k].path == FilePath(home, alias)
  }

  lemma ListedFound(files: seq<FileRow>, home: string, alias: string)
    requires Lists(files, home, alias) && Findable(alias)
    ensures FindPath(files, alias, home).Some?
  {
    var k :| 0 <= k < |files| && files[k].alias == alias && files[k].path == FilePath(home, alias);
    OwnRowSeen(files[k], home);
  }

  /** A file of the worker's tree, listed in its table. */
  ghost predicate Holding(w: World, home: string, alias: string, bytes: seq<byte>) {
    var path := FileAt(home, alias);
    Lists(w.files, home, alias) && path in w.tree && w.tree[path] == bytes
  }

  predicate IsHome(users: seq<UserRow>, home: string) {
    exists i :: 0 <= i < |users| && users[i].home == home
  }

  lemma StepKeepsFile(w: World, c: Command, home: string, alias: string, bytes: seq<byte>)
    requires Placed(w) && Valid(c) && Name(alias) && Findable(alias) && Holding(w, home, alias, bytes)
    requires IsHome(w.users, home)
    ensures Holding(Step(w, c).0, home, alias, bytes) && IsHome(Step(w, c).0.users, home)
  {
    StepGrows(w, c);
    var k :| 0 <= k < |w.users| && w.users[k].home == home;
    assert Step(w, c).0.users[k].home == home;
    ListedFound(w.files, home, alias);
    if c.Post? && w.user.Some? && FindPath(w.files, c.alias, w.user.value.home) == None {
      var i :| IsRow(w.users, i, w.user.value);
      if FileAt(w.users[i].home, c.alias) == FileAt(home, alias) {
        FileAtInjective(w.users[i].home, c.alias, home, alias);
      }
      SavedApart(w, w.user.value, c.alias, Decode(c.data)[..c.size], home, alias, bytes);
    }
  }

  lemma SavedApart(w: World, u: Logged, saved: string, contents: seq<byte>,
                   home: string, alias: string, bytes: seq<byte>)
    requires Holding(w, home, alias, bytes) && FileAt(u.home, saved) != FileAt(home, alias)
    ensures Holding(Save(w, u, saved, contents), home, alias, bytes)
  {
    var k :| 0 <= k < |w.files| && w.files[k].alias == alias && w.files[k].path == FilePath(home, alias);
    assert Save(w, u, saved, contents).files[k] == w.files[k];
  }

  /** Over every run, whatever words its commands hold and however homes overlap, no
      command changes or removes a listed file. */
  lemma {:induction false} FileKept(w: World, cs: seq<Command>, home: string, alias: string, bytes: seq<byte>)
    requires Placed(w) && AllValid(cs) && IsHome(w.users, home)
    requires Name(alias) && Findable(alias) && Holding(w, home, alias, bytes)
    ensures Holding(Exec(w, cs), home, alias, bytes)
    decreases |cs|
  {
    if cs != [] {
      StepKeepsPlaced(w, cs[0]);
      StepKeepsFile(w, cs[0], home, alias, bytes);
      FileKept(Step(w, cs[0]).0, cs[1..], home, alias, bytes);
    }
  }

  lemma {:induction false} FindPathGrows(files: seq<FileRow>, more: seq<FileRow>, alias: string, home: string)
    requires FindPath(files, alias, home).Some?
    ensures FindPath(files + more, alias, home) == FindPath(files, alias, home)
    decreases |files|
  {
    assert (files + more)[0] == files[0] && (files + more)[1..] == files[1..] + more;
    if !IsFile(files[0], alias, home) {
      FindPathGrows(files[1..], more, alias, home);
    }
  }

  /** Rows are only appended, so what a look-up finds it goes on finding. */
  lemma {:induction false} FindStays(w: World, cs: seq<Command>, alias: string, home: string)
    requires AllValid(cs) && FindPath(w.files, alias, home).Some?
    ensures FindPath(Exec(w, cs).files, alias, home) == FindPath(w.files, alias, home)
    decreases |cs|
  {
    if cs != [] {
      var w' := Step(w, cs[0]).0;
      assert w'.files == w.files || exists row :: w'.files == w.files + [row];
      if w'.files != w.files {
        var row :| w'.files == w.files + [row];
        FindPathGrows(w.files, [row], alias, home);
      }
      FindStays(w', cs[1..], alias, home);
    }
  }

  lemma {:induction false} FindAppendedOther(files: seq<FileRow>, row: FileRow, alias: string, home: string)
    requires FindPath(files, alias, home) == None && !IsFile(row, alias, home)
    ensures FindPath(files + [row], alias, home) == None
    decreases |files|
  {
    if files == [] {
      assert files + [row] == [row];
    } else {
      assert (files + [row])[1..] == files[1..] + [row];
      FindAppendedOther(files[1..], row, alias, home);
    }
  }

  /** A post that the worker answers with "File OK". */
  ghost predicate PostDone(w: World, c: Command) {
    c.Post? && Valid(c) && w.user.Some? && Step(w, c).1 == Said(FileOk)
  }

  /** The row is there in any case, the file if it could be written. */
  lemma AfterPost(w: World, c: Command)
    requires PostDone(w, c)
    ensures var w1, home, bytes := Step(w, c).0, w.user.value.home, Decode(c.data)[..c.size];
      && w1.user == w.user && w1.dirs == w.dirs && w1.users == w.users
      && FindPath(w1.files, c.alias, home) == (if Findable(c.alias) then Some(FilePath(home, c.alias)) else None)
      && if Writable(w, home, c.alias) then Holding(w1, home, c.alias, bytes) else w1.tree == w.tree
  {
    var u := w.user.value;
    var row := FileRow(w.nextFile, FilePath(u.home, c.alias), c.alias, 2);
    var w1 := Step(w, c).0;
    assert w1.files == w.files + [row] && w1.files[|w.files|] == row;
    OwnRowSeen(row, u.home);
    if Findable(c.alias) {
      FindAppended(w.files, row, c.alias, u.home);
    } else {
      FindAppendedOther(w.files, row, c.alias, u.home);
    }
  }

  /** What a successful post stored is what every later get in a session with the same
      home returns, whatever was done in between, by whom, and in what words. */
  lemma PostThenGet(w: World, c: Command, cs: seq<Command>)
    requires Placed(w) && PostDone(w, c) && AllValid(cs)
    requires Findable(c.alias) && Writable(w, w.user.value.home, c.alias)
    requires SameHome(w, Exec(Step(w, c).0, cs))
    ensures var e := Exec(Step(w, c).0, cs);
      Step(e, Get(c.alias)) == (e, File(Encode(Decode(c.data)[..c.size]), c.size))
  {
    var w1, home := Step(w, c).0, w.user.value.home;
    AfterPost(w, c);
    StepKeepsPlaced(w, c);
    var i :| IsRow(w.users, i, w.user.value);
    assert w1.users[i].home == home;
    FindStays(w1, cs, c.alias, home);
    FileKept(w1, cs, home, c.alias, Decode(c.data)[..c.size]);
  }

  /** A post under "File OK" that could not be written: the next get of it crashes the
      worker. */
  lemma LostPost(w: World, c: Command)
    requires FileSystem(w) && PostDone(w, c) && Findable(c.alias) && !Writable(w, w.user.value.home, c.alias)
    ensures Step(Step(w, c).0, Get(c.alias)) == (Step(w, c).0, Crash)
  {
    AfterPost(w, c);
    if FileAt(w.user.value.home, c.alias) in w.tree {
      ThereWritable(w, w.user.value.home, c.alias);
    }
  }

  /** Both sessions work in one home. */
  predicate SameHome(w: World, e: World) {
    w.user.Some? && e.user.Some? && e.user.value.home == w.user.value.home
  }

  /** The post can be read back after any run that ends in a session with that home. */
  ghost predicate ReadBack(w: World, c: Command)
    requires c.Post? && Valid(c)
  {
    forall cs | AllValid(cs) && SameHome(w, Exec(Step(w, c).0, cs)) ::
      Step(Exec(Step(w, c).0, cs), Get(c.alias)).1 == File(Encode(Decode(c.data)[..c.size]), c.size)
  }

  /** A file that was posted can be read back if and only if its alias names no column
      of the files table, or the column alias, and the home's folder was there and its
      own path was no folder. */
  lemma PostThenGetExact(w: World, c: Command)
    requires Placed(w) && PostDone(w, c)
    ensures ReadBack(w, c) <==> Findable(c.alias) && Writable(w, w.user.value.home, c.alias)
  {
    AfterPost(w, c);
    if !Findable(c.alias) || !Writable(w, w.user.value.home, c.alias) {
      var none: seq<Command> := [];
      assert AllValid(none) && Exec(Step(w, c).0, none) == Step(w, c).0;
      if Findable(c.alias) {
        LostPost(w, c);
      }
    } else {
      forall cs | AllValid(cs) && SameHome(w, Exec(Step(w, c).0, cs))
        ensures Step(Exec(Step(w, c).0, cs), Get(c.alias)).1 == File(Encode(Decode(c.data)[..c.size]), c.size)
      {
        PostThenGet(w, c, cs);
      }
    }
  }

  /** Under an alias that is not findable, `path` for one, the get does not find the
      file, and a second post is accepted and overwrites the first. */
  lemma PostedTwice(w: World, c: Command, data: string, size: nat)
    requires PostDone(w, c) && !Findable(c.alias) && Valid(Post(c.alias, data, size))
    requires Writable(w, w.user.value.home, c.alias)
    ensures var w1, again := Step(w, c).0, Post(c.alias, data, size);
      && Step(w1, Get(c.alias)) == (w1, Said(NotInDb))
      && Step(w1, again).1 == Said(FileOk)
      && Holding(Step(w1, again).0, w.user.value.home, c.alias, Decode(data)[..size])
  {
    AfterPost(w, c);
    AfterPost(Step(w, c).0, Post(c.alias, data, size));
  }

  lemma NothingFound(w: World, i: int, alias: string)
    requires Catalogued(w) && 0 <= i < |w.users| && Name(alias) && FileColumnOf(alias) == None
    requires FindPath(w.files, alias, w.users[i].home) == None
    ensures !HasPath(w.files, FilePath(w.users[i].home, alias))
  {
    var home := w.users[i].home;
    if HasPath(w.files, FilePath(home, alias)) {
      var k :| 0 <= k < |w.files| && w.files[k].path == FilePath(home, alias);
      assert Owned(w.users, w.files[k]);
      var j :| Owns(w.users, j, w.files[k]);
      PathInjective(home, alias, w.users[j].home, w.files[k].alias);
      LikeSelf(home, alias);
      assert false;
    }
  }

  /** Whether or not homes are separated, literal commands keep a world consistent in
      whose way the file system does not stand. */
  lemma StepKeepsInv(w: World, c: Command)
    requires Inv(w) && Valid(c) && Literal(c) && Open(w, c)
    ensures Inv(Step(w, c).0)
  {
    StepKeepsAccounts(w, c);
    if w.user.Some? {
      var i :| IsOwn(w.users, i, w.user.value);
      if c.Post? && FindPath(w.files, c.alias, w.users[i].home) == None {
        NothingFound(w, i, c.alias);
        SavedInv(w, i, c.alias, Decode(c.data)[..c.size]);
      } else if c.NewUser? {
        FoundKnown(w.users, c.name);
        if !Known(w.users, c.name) { RegisteredInv(w, c.name, c.pass, c.admin); }
      } else if c.ChangePass? {
        ChangedInv(w, w.user.value.id, c.pass);
      }
    }
  }

  /** The tables stay in order in any case. */
  lemma StepKeepsOrderly(w: World, c: Command)
    requires Orderly(w) && Valid(c) && Literal(c)
    ensures Orderly(Step(w, c).0)
  {
    StepKeepsAccounts(w, c);
    var w' := Step(w, c).0;
    if w.user.Some? {
      var i :| IsOwn(w.users, i, w.user.value);
      if c.Post? && FindPath(w.files, c.alias, w.users[i].home) == None {
        NothingFound(w, i, c.alias);
        SavedCatalogued(w, i, c.alias, Decode(c.data)[..c.size]);
      } else if c.NewUser? {
        NewHomePlain(c.name);
        CataloguedStays(w, w'.users);
      } else if c.ChangePass? {
        CataloguedStays(w, w'.users);
      }
    }
  }

  // -------------------------------------------------- and only with separate homes

  lemma ReplyTail(w: World, a: Store, c: Command, cs: seq<Command>)
    requires Valid(c) && AllValid(cs) && Ok(a)
    requires Replies(Step(w, c).0, cs) != SpecReplies(SpecStep(a, c).0, cs)
    ensures AllValid([c] + cs) && Replies(w, [c] + cs) != SpecReplies(a, [c] + cs)
  {
    var all := [c] + cs;
    assert all[0] == c && all[1..] == cs;
    assert Replies(w, all)[1..] == Replies(Step(w, c).0, cs);
    assert SpecReplies(a, all)[1..] == SpecReplies(SpecStep(a, c).0, cs);
  }

  function LongestAlias(files: seq<FileRow>): (n: nat)
    ensures forall k :: 0 <= k < |files| ==> |files[k].alias| <= n
  {
    if files == [] then 0
    else
      var n := LongestAlias(files[1..]);
      if |files[0].alias| > n then |files[0].alias| else n
  }

  lemma LongLiteral(word: string)
    requires |word| > 8
    ensures FileColumnOf(word) == None && UserColumnOf(word) == None
  {
  }

  /** An alias no row has, which the owner of h finds among the files of g. */
  lemma SeenAlias(h: string, g: string, longest: nat) returns (alias: string)
    requires Sees(h, g)
    ensures Name(alias) && |alias| > longest && Like(h, FilePath(g, alias))
  {
    var core := if |h| > |g| then h[|g| + 1..] else "";
    alias := seq(|core| + longest + 1, i requires 0 <= i < |core| + longest + 1 =>
      if i < |core| && core[i] != '_' then core[i] else 'a');
    var path := FilePath(g, alias);
    assert forall i :: 0 <= i < |alias| ==> path[|g| + 1 + i] == alias[i];
    forall i | 0 <= i < |h|
      ensures Matches(h[i], path[i])
    {
      if i > |g| {
        assert core[i - |g| - 1] == h[i] && path[i] == alias[i - |g| - 1];
      }
    }
  }

  lemma NoSuchAlias(w: World, home: string, alias: string)
    requires Catalogued(w) && |alias| > LongestAlias(w.files) && Name(alias) && FileColumnOf(alias) == None
    ensures FindPath(w.files, alias, home) == None && !HasPath(w.files, FilePath(home, alias))
  {
    if HasPath(w.files, FilePath(home, alias)) {
      var k :| 0 <= k < |w.files| && w.files[k].path == FilePath(home, alias);
      assert Owned(w.users, w.files[k]);
      var j :| Owns(w.users, j, w.files[k]);
      PathInjective(home, alias, w.users[j].home, w.files[k].alias);
      assert false;
    }
  }

  lemma {:induction false} FindAppended(files: seq<FileRow>, row: FileRow, alias: string, home: string)
    requires FindPath(files, alias, home) == None && IsFile(row, alias, home)
    ensures FindPath(files + [row], alias, home) == Some(row.path)
    decreases |files|
  {
    if files == [] {
      assert files + [row] == [row];
    } else {
      assert (files + [row])[1..] == files[1..] + [row];
      FindAppended(files[1..], row, alias, home);
    }
  }

  /** A user who can log in with what the table holds. */
  predicate Speakable(u: UserRow) {
    Valid(Login(u.username, u.password)) && Literal(Login(u.username, u.password))
  }

  lemma LoginWorks(w: World, i: int)
    requires Unique(w.users) && w.user == None && 0 <= i < |w.users| && Speakable(w.users[i])
    ensures var u := w.users[i];
      Step(w, Login(u.username, u.password)) ==
        (w.(user := Some(Logged(u.username, u.home, u.admin, u.id))), Said(LoggedIn))
  {
    var u := w.users[i];
    assert u in w.users && HasLogin(u, u.username, u.password);
    var r := FindLogin(w.users, u.username, u.password);
    var j :| 0 <= j < |w.users| && w.users[j] == r.value;
  }

  /** Logged out: j posts an empty file under a fresh alias, i logs in and finds it. */
  function Intrusion(ui: UserRow, uj: UserRow, alias: string): seq<Command> {
    [Logout, Login(uj.username, uj.password), Post(alias, "", 0), Logout,
     Login(ui.username, ui.password), Get(alias)]
  }

  /** The world after user j has posted an empty file. */
  function Posted(w: World, uj: UserRow, alias: string): World {
    Saved(w, uj.home, alias, []).(user := Some(Logged(uj.username, uj.home, uj.admin, uj.id)))
  }

  function PostedSpec(a: Store, uj: UserRow, alias: string): Store {
    Store(a.accounts, a.files[(uj.username, alias) := []], Some(uj.username))
  }

  lemma IntruderSaves(w: World, j: int, alias: string)
    requires Inv(w) && w.user == None && 0 <= j < |w.users|
    requires Speakable(w.users[j]) && FileAt(w.users[j].home, alias) !in w.dirs
    requires Name(alias) && |alias| > LongestAlias(w.files) && FileColumnOf(alias) == None
    ensures var uj := w.users[j];
      Step(Step(w, Login(uj.username, uj.password)).0, Post(alias, "", 0)).0 == Posted(w, uj, alias)
  {
    NoSuchAlias(w, w.users[j].home, alias);
    LoginWorks(w, j);
    assert Decode("")[..0] == [];
  }

  lemma IntruderSpec(w: World, a: Store, j: int, alias: string)
    requires Inv(w) && Refines(w, a) && Ok(a) && w.user == None && 0 <= j < |w.users|
    requires Speakable(w.users[j])
    requires Name(alias) && |alias| > LongestAlias(w.files) && FileColumnOf(alias) == None
    ensures var uj := w.users[j];
      SpecStep(SpecStep(a, Login(uj.username, uj.password)).0, Post(alias, "", 0)).0 == PostedSpec(a, uj, alias)
  {
    var uj := w.users[j];
    NoSuchAlias(w, uj.home, alias);
    assert FileRefines(w, a, uj.username, uj.home, alias);
    assert Decode("")[..0] == [];
  }

  lemma IntruderReads(w: World, a: Store, i: int, uj: UserRow, alias: string)
    requires Inv(w.(user := None)) && 0 <= i < |w.users|
    requires w.users[i].username in a.accounts && a.accounts[w.users[i].username].pass == w.users[i].password
    requires w.user.Some? && a.who.Some? && Ok(a) && Speakable(w.users[i])
    requires Name(alias) && FindPath(w.files, alias, w.users[i].home) == Some(FilePath(uj.home, alias))
    requires FileAt(uj.home, alias) in w.tree && w.tree[FileAt(uj.home, alias)] == []
    requires (w.users[i].username, alias) !in a.files
    ensures var cs := Reading(w.users[i], alias);
      AllValid(cs) && Replies(w, cs) != SpecReplies(a, cs)
  {
    var ui := w.users[i];
    var inI, get := Login(ui.username, ui.password), Get(alias);
    var w1, a1 := w.(user := None), a.(who := None);
    assert Step(w, Logout).0 == w1 && SpecStep(a, Logout).0 == a1;
    LoginWorks(w1, i);
    var w2, a2 := Step(w1, inI).0, SpecStep(a1, inI).0;
    assert Step(w2, get).1 == File("", 0);
    assert SpecStep(a2, get).1 == Said(NotInDb);
    assert Replies(w2, [get])[0] != SpecReplies(a2, [get])[0];
    ReplyTail(w1, a1, inI, [get]);
    ReplyTail(w, a, Logout, [inI] + [get]);
  }

  lemma IntrusionFound(w: World, a: Store, i: int, j: int, alias: string)
    requires Inv(w) && Refines(w, a) && Ok(a)
    requires 0 <= i < |w.users| && 0 <= j < |w.users| && i != j
    requires Speakable(w.users[i]) && Speakable(w.users[j]) && FileAt(w.users[j].home, alias) !in w.dirs
    requires Name(alias) && |alias| > LongestAlias(w.files) && FileColumnOf(alias) == None
    requires Like(w.users[i].home, FilePath(w.users[j].home, alias))
    ensures var cs := Intrusion(w.users[i], w.users[j], alias);
      AllValid(cs) && Replies(w, cs) != SpecReplies(a, cs)
  {
    var ui, uj := w.users[i], w.users[j];
    var w1, a1 := w.(user := None), a.(who := None);
    AfterLogout(w, a);
    var path := FilePath(uj.home, alias);
    NoSuchAlias(w, ui.home, alias);
    NoSuchAlias(w, uj.home, alias);
    assert FileRefines(w, a, ui.username, ui.home, alias);
    IntruderSaves(w1, j, alias);
    IntruderSpec(w1, a1, j, alias);
    SavedInv(w1, j, alias, []);
    FindAppended(w.files, FileRow(w.nextFile, path, alias, 2), alias, ui.home);
    IntruderReads(Posted(w1, uj, alias), PostedSpec(a1, uj, alias), i, uj, alias);
    ThreeTails(w, a, Logout, Login(uj.username, uj.password), Post(alias, "", 0), Reading(ui, alias));
    IntrusionParts(ui, uj, alias);
  }

  function Reading(ui: UserRow, alias: string): seq<Command> {
    [Logout] + ([Login(ui.username, ui.password)] + [Get(alias)])
  }

  lemma IntrusionParts(ui: UserRow, uj: UserRow, alias: string)
    ensures Intrusion(ui, uj, alias) ==
      [Logout] + ([Login(uj.username, uj.password)] + ([Post(alias, "", 0)] + Reading(ui, alias)))
  {
  }

  lemma AfterLogout(w: World, a: Store)
    requires Inv(w) && Refines(w, a) && Ok(a)
    ensures Inv(w.(user := None)) && Refines(w.(user := None), a.(who := None))
    ensures Step(w, Logout).0 == w.(user := None) && SpecStep(a, Logout).0 == a.(who := None)
  {
  }

  lemma ThreeTails(w: World, a: Store, c1: Command, c2: Command, c3: Command, cs: seq<Command>)
    requires Valid(c1) && Valid(c2) && Valid(c3) && AllValid(cs) && Ok(a)
    requires Replies(Step(Step(Step(w, c1).0, c2).0, c3).0, cs)
          != SpecReplies(SpecStep(SpecStep(SpecStep(a, c1).0, c2).0, c3).0, cs)
    ensures var all := [c1] + ([c2] + ([c3] + cs)); AllValid(all) && Replies(w, all) != SpecReplies(a, all)
  {
    var w1, a1 := Step(w, c1).0, SpecStep(a, c1).0;
    var w2, a2 := Step(w1, c2).0, SpecStep(a1, c2).0;
    ReplyTail(w2, a2, c3, cs);
    ReplyTail(w1, a1, c2, [c3] + cs);
    ReplyTail(w, a, c1, [c2] + ([c3] + cs));
  }

  lemma {:induction false} HomesStay(w: World, cs: seq<Command>)
    requires AllValid(cs) && NoNewUser(cs)
    ensures var us := Exec(w, cs).users;
      |us| == |w.users| && forall i :: 0 <= i < |us| ==> us[i].home == w.users[i].home
    decreases |cs|
  {
    if cs != [] {
      StepGrows(w, cs[0]);
      HomesStay(Step(w, cs[0]).0, cs[1..]);
    }
  }

  ghost predicate Isolated(w: World)
    requires Ok(Abstract(w))
  {
    forall cs :: AllValid(cs) && AllLiteral(cs) && NoNewUser(cs) ==> Replies(w, cs) == SpecReplies(Abstract(w), cs)
  }

  lemma SeparatedIsolates(w: World)
    requires Inv(w) && Separated(w.users) && NoFolderBelow(w) && Refines(w, Abstract(w)) && Ok(Abstract(w))
    ensures Isolated(w)
  {
    forall cs | AllValid(cs) && AllLiteral(cs) && NoNewUser(cs)
      ensures Replies(w, cs) == SpecReplies(Abstract(w), cs)
    {
      HomesStay(w, cs);
      RunRefines(w, Abstract(w), cs);
    }
  }

  lemma NotIsolated(w: World, cs: seq<Command>)
    requires Ok(Abstract(w)) && AllValid(cs) && AllLiteral(cs) && NoNewUser(cs)
    requires Replies(w, cs) != SpecReplies(Abstract(w), cs)
    ensures !Isolated(w)
  {
  }

  lemma IntrusionLiteral(ui: UserRow, uj: UserRow, alias: string)
    requires Speakable(ui) && Speakable(uj) && Name(alias) && FileColumnOf(alias) == None
    ensures var cs := Intrusion(ui, uj, alias); AllLiteral(cs) && NoNewUser(cs)
  {
  }

  lemma {:induction false} LongestIn(s: set<string>) returns (n: nat)
    ensures forall x :: x in s ==> |x| <= n
    decreases |s|
  {
    n := 0;
    if s != {} {
      var x :| x in s;
      var m := LongestIn(s - {x});
      n := if |x| > m then |x| else m;
      assert forall y :: y in s ==> y == x || y in s - {x};
    }
  }

  lemma ClashOf(w: World, i: int, j: int)
    requires forall u :: u in w.users ==> Speakable(u)
    requires Inv(w) && Refines(w, Abstract(w)) && Ok(Abstract(w))
    requires 0 <= i < |w.users| && 0 <= j < |w.users| && i != j && Sees(w.users[i].home, w.users[j].home)
    ensures !Isolated(w)
  {
    var longest := LongestIn(w.dirs);
    var alias := SeenAlias(w.users[i].home, w.users[j].home, LongestAlias(w.files) + longest + 8);
    LongLiteral(alias);
    FileAtParts(w.users[j].home, alias);
    assert w.users[i] in w.users && w.users[j] in w.users;
    IntrusionFound(w, Abstract(w), i, j, alias);
    IntrusionLiteral(w.users[i], w.users[j], alias);
    NotIsolated(w, Intrusion(w.users[i], w.users[j], alias));
  }

  lemma ClashBreaksIsolation(w: World)
    requires forall u :: u in w.users ==> Speakable(u)
    requires Inv(w) && !Separated(w.users) && Refines(w, Abstract(w)) && Ok(Abstract(w))
    ensures !Isolated(w)
  {
    var i, j :| 0 <= i < |w.users| && 0 <= j < |w.users| && i != j && Sees(w.users[i].home, w.users[j].home);
    ClashOf(w, i, j);
  }

  /** A folder below a home: its owner posts onto it, and the get crashes. */
  function Buried(u: UserRow, alias: string): seq<Command> {
    [Logout] + ([Login(u.username, u.password)] + ([Post(alias, "", 0)] + [Get(alias)]))
  }

  lemma FolderFound(w: World, a: Store, i: int, alias: string)
    requires Inv(w) && Separated(w.users) && Refines(w, a) && Ok(a) && 0 <= i < |w.users| && Speakable(w.users[i])
    requires Name(alias) && FileColumnOf(alias) == None && FileAt(w.users[i].home, alias) in w.dirs
    ensures var cs := Buried(w.users[i], alias);
      AllValid(cs) && Replies(w, cs) != SpecReplies(a, cs)
  {
    var u := w.users[i];
    var w1, a1 := w.(user := None), a.(who := None);
    var login, post := Login(u.username, u.password), Post(alias, "", 0);
    AfterLogout(w, a);
    LoginWorks(w1, i);
    NothingThere(w, a, i, alias);
    assert SpecStep(a1, login).0 == a1.(who := Some(u.username));
    FolderGet(Step(w1, login).0, SpecStep(a1, login).0, post);
    ThreeTails(w, a, Logout, login, post, [Get(alias)]);
  }

  lemma FolderGet(w: World, a: Store, post: Command)
    requires FileSystem(w) && PostDone(w, post) && Literal(post) && !Writable(w, w.user.value.home, post.alias)
    requires Ok(a) && a.who.Some? && (a.who.value, post.alias) !in a.files
    ensures var get := [Get(post.alias)];
      Replies(Step(w, post).0, get) != SpecReplies(SpecStep(a, post).0, get)
  {
    LostPost(w, post);
    SpecGets(SpecStep(a, post).0, post.alias);
    var get := [Get(post.alias)];
    assert Replies(Step(w, post).0, get)[0] != SpecReplies(SpecStep(a, post).0, get)[0];
  }

  lemma NothingThere(w: World, a: Store, i: int, alias: string)
    requires Inv(w) && Separated(w.users) && Refines(w, a) && 0 <= i < |w.users|
    requires Name(alias) && FileColumnOf(alias) == None && FileAt(w.users[i].home, alias) in w.dirs
    ensures FindPath(w.files, alias, w.users[i].home) == None && (w.users[i].username, alias) !in a.files
  {
    FindExact(w, i, alias);
    assert FileRefines(w, a, w.users[i].username, w.users[i].home, alias);
  }

  lemma SpecGets(a: Store, alias: string)
    requires Ok(a) && Name(alias) && a.who.Some? && (a.who.value, alias) in a.files
    ensures SpecStep(a, Get(alias)).1.File?
  {
  }

  lemma BuriedLiteral(u: UserRow, alias: string)
    requires Speakable(u) && Name(alias) && FileColumnOf(alias) == None
    ensures var cs := Buried(u, alias); AllLiteral(cs) && NoNewUser(cs)
  {
  }

  lemma FolderOf(w: World, i: int, alias: string)
    requires Inv(w) && Separated(w.users) && Refines(w, Abstract(w)) && Ok(Abstract(w))
    requires 0 <= i < |w.users| && Speakable(w.users[i])
    requires Name(alias) && FileColumnOf(alias) == None && FileAt(w.users[i].home, alias) in w.dirs
    ensures !Isolated(w)
  {
    FolderFound(w, Abstract(w), i, alias);
    BuriedLiteral(w.users[i], alias);
    NotIsolated(w, Buried(w.users[i], alias));
  }

  lemma FolderBreaksIsolation(w: World)
    requires forall u :: u in w.users ==> Speakable(u)
    requires Inv(w) && Separated(w.users) && !NoFolderBelow(w) && Refines(w, Abstract(w)) && Ok(Abstract(w))
    ensures !Isolated(w)
  {
    var i, alias :| 0 <= i < |w.users| && Name(alias) && FileColumnOf(alias) == None
      && FileAt(w.users[i].home, alias) in w.dirs;
    assert w.users[i] in w.users;
    FolderOf(w, i, alias);
  }

  /** The worker behaves as the write-once store under every run of literal commands
      that adds no user exactly when no user's home pattern can match another user's
      files and no folder is where a user could post, as long as every user can log in
      with what the table holds. */
  lemma IsolationExact(w: World)
    requires Inv(w) && forall u :: u in w.users ==> Speakable(u)
    ensures Ok(Abstract(w)) && (Isolated(w) <==> Separated(w.users) && NoFolderBelow(w))
  {
    AbstractRefines(w);
    if !Separated(w.users) {
      ClashBreaksIsolation(w);
    } else if !NoFolderBelow(w) {
      FolderBreaksIsolation(w);
    } else {
      SeparatedIsolates(w);
    }
  }

  // ------------------------------------------------------------------- passwords

  /** The user with this id does not change its password during the run. */
  predicate Quiet(w: World, cs: seq<Command>, id: nat)
    requires AllValid(cs)
    decreases |cs|
  {
    cs != [] ==>
      !(cs[0].ChangePass? && w.user.Some? && w.user.value.id == id) && Quiet(Step(w, cs[0]).0, cs[1..], id)
  }

  lemma {:induction false} RowStays(w: World, cs: seq<Command>, i: int)
    requires AllValid(cs) && 0 <= i < |w.users| && Quiet(w, cs, w.users[i].id)
    ensures i < |Exec(w, cs).users| && Exec(w, cs).users[i] == w.users[i]
    decreases |cs|
  {
    if cs != [] {
      StepGrows(w, cs[0]);
      RowStays(Step(w, cs[0]).0, cs[1..], i);
    }
  }

  lemma {:induction false} OtherLogins(users: seq<UserRow>, id: nat, pass: string, name: string, q: string)
    requires UserColumnOf(name) == None
    requires forall u :: u in users && u.username == name ==> u.id != id
    ensures FindLogin(SetPassword(users, id, pass), name, q) == FindLogin(users, name, q)
    decreases |users|
  {
    if users != [] {
      assert SetPassword(users, id, pass)[1..] == SetPassword(users[1..], id, pass);
      assert users[0] in users;
      OtherLogins(users[1..], id, pass, name, q);
    }
  }

  /** The only row of its name. */
  ghost predicate Sole(users: seq<UserRow>, i: int) {
    0 <= i < |users| && forall j :: 0 <= j < |users| && users[j].username == users[i].username ==> j == i
  }

  /** A login with literal texts, under a name that only one row has, succeeds exactly
      with that row's password. */
  lemma LoginExact(users: seq<UserRow>, i: int, q: string)
    requires Sole(users, i)
    requires Valid(Login(users[i].username, q)) && Literal(Login(users[i].username, q))
    ensures FindLogin(users, users[i].username, q).Some? <==> q == users[i].password
  {
    var r := FindLogin(users, users[i].username, q);
    assert users[i] in users;
    if r.Some? {
      var j :| 0 <= j < |users| && users[j] == r.value;
    } else {
      assert !HasLogin(users[i], users[i].username, q);
    }
  }

  lemma StepKeepsSole(w: World, c: Command, i: int)
    requires Valid(c) && Sole(w.users, i) && UserColumnOf(w.users[i].username) == None
    ensures Sole(Step(w, c).0.users, i) && Step(w, c).0.users[i].username == w.users[i].username
  {
    StepGrows(w, c);
    if c.NewUser? && c.name == w.users[i].username {
      FoundKnown(w.users, c.name);
    }
  }

  /** A literal name stays the only one of its kind, whatever names others add. */
  lemma {:induction false} SoleStays(w: World, cs: seq<Command>, i: int)
    requires AllValid(cs) && Sole(w.users, i) && UserColumnOf(w.users[i].username) == None
    ensures Sole(Exec(w, cs).users, i) && Exec(w, cs).users[i].username == w.users[i].username
    decreases |cs|
  {
    if cs != [] {
      StepKeepsSole(w, cs[0], i);
      SoleStays(Step(w, cs[0]).0, cs[1..], i);
    }
  }

  /** After a password change, in every continuation up to that user's next change,
      the new password and no other logs in; nobody else's logins were touched.
      This takes a new password and login texts that stay inside their quotes and name
      no column; what is done in between is up to anyone. */
  lemma PasswordChange(w: World, i: int, pass: string, cs: seq<Command>, q: string)
    requires Rows(w) && w.user.Some? && IsRow(w.users, i, w.user.value) && Sole(w.users, i) && AllValid(cs)
    requires Valid(ChangePass(pass)) && Literal(ChangePass(pass))
    requires Valid(Login(w.users[i].username, q)) && Literal(Login(w.users[i].username, q))
    requires Quiet(Step(w, ChangePass(pass)).0, cs, w.users[i].id)
    ensures var w1, name := Step(w, ChangePass(pass)).0, w.users[i].username;
      && (FindLogin(Exec(w1, cs).users, name, q).Some? <==> q == pass)
      && (forall other :: other != name && Valid(Login(other, q)) && Literal(Login(other, q)) ==>
          FindLogin(w1.users, other, q) == FindLogin(w.users, other, q))
  {
    var w1 := Step(w, ChangePass(pass)).0;
    StepKeepsSole(w, ChangePass(pass), i);
    SoleStays(w1, cs, i);
    RowStays(w1, cs, i);
    LoginExact(Exec(w1, cs).users, i, q);
    forall other | other != w.users[i].username && Literal(Login(other, q))
      ensures FindLogin(w1.users, other, q) == FindLogin(w.users, other, q)
    {
      OthersIds(w, i, other);
      OtherLogins(w.users, w.users[i].id, pass, other, q);
    }
  }

  lemma OthersIds(w: World, i: int, other: string)
    requires Rows(w) && 0 <= i < |w.users| && other != w.users[i].username
    ensures forall u :: u in w.users && u.username == other ==> u.id != w.users[i].id
  {
  }
}
