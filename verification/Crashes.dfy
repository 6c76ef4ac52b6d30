/** Lost posts and crashes: when the server can promise a file under "File OK", and
    what the tables it ships with lead to. */
module Crashes {
  import opened Text
  import opened FileCoding
  import opened Session
  import opened FileStore

  // -------------------------------------------------------- the worlds of a server

  /** What holds of a server's tables and folders when it starts: homes and listed files
      are there; no folder is below a home, but for the user folders themselves; and the
      place of user folders is free of files, unless it is somebody's home. */
  ghost predicate Sound(w: World) {
    && Placed(w) && HomesThere(w) && Present(w) && USERS in w.dirs
    && (forall i, a :: 0 <= i < |w.users| && Name(a) && Folder(w.users[i].home) != USERS ==>
        FileAt(w.users[i].home, a) !in w.dirs)
    && (forall n, a :: Name(n) && Name(a) ==> FilePath(USERS + "/" + n, a) !in w.dirs)
    && (Apart(w) ==> forall n :: Name(n) ==> USERS + "/" + n !in w.tree)
  }

  lemma SoundStocked(w: World)
    requires Sound(w) && Apart(w)
    ensures Stocked(w)
  {
  }

  ghost predicate NoCrash(w: World) {
    forall cs :: AllValid(cs) ==> Crash !in Replies(w, cs)
  }

  lemma CrashTail(w: World, c: Command, cs: seq<Command>)
    requires Valid(c) && AllValid(cs) && Crash in Replies(Step(w, c).0, cs)
    ensures AllValid([c] + cs) && Crash in Replies(w, [c] + cs)
  {
    var all := [c] + cs;
    assert all[0] == c && all[1..] == cs;
    assert Replies(w, all)[1..] == Replies(Step(w, c).0, cs);
  }

  lemma CrashTwo(w: World, c: Command, d: Command, cs: seq<Command>)
    requires Valid(c) && Valid(d) && AllValid(cs) && Crash in Replies(Step(Step(w, c).0, d).0, cs)
    ensures AllValid([c] + ([d] + cs)) && Crash in Replies(w, [c] + ([d] + cs))
  {
    CrashTail(Step(w, c).0, d, cs);
    CrashTail(w, c, [d] + cs);
  }

  lemma LostPostCrashes(w: World, post: Command)
    requires FileSystem(w) && PostDone(w, post) && Findable(post.alias)
    requires !Writable(w, w.user.value.home, post.alias)
    ensures Crash in Replies(w, [post] + [Get(post.alias)])
  {
    LostPost(w, post);
    var get := [Get(post.alias)];
    assert Replies(Step(w, post).0, get)[0] == Crash;
    CrashTail(w, post, get);
  }

  function LoggedIn(w: World, u: UserRow): World {
    w.(user := Some(Logged(u.username, u.home, u.admin, u.id)))
  }

  /** Whoever is logged in, the user logs in next. */
  lemma Relogin(w: World, i: int, cs: seq<Command>)
    requires Unique(w.users) && 0 <= i < |w.users| && Speakable(w.users[i]) && AllValid(cs)
    requires Crash in Replies(LoggedIn(w, w.users[i]), cs)
    ensures var u := w.users[i];
      var all := [Logout] + ([Login(u.username, u.password)] + cs);
      AllValid(all) && Crash in Replies(w, all)
  {
    var u, w1 := w.users[i], w.(user := None);
    assert Step(w, Logout).0 == w1;
    LoginWorks(w1, i);
    assert LoggedIn(w1, u) == LoggedIn(w, u);
    CrashTwo(w, Logout, Login(u.username, u.password), cs);
  }

  lemma AliasUnused(files: seq<FileRow>, alias: string, home: string)
    requires FileColumnOf(alias) == None && forall k :: 0 <= k < |files| ==> files[k].alias != alias
    ensures FindPath(files, alias, home) == None
  {
  }

  // --------------------------------------------- a home that is the users' parent

  /** A name, and alias, that nothing has. */
  ghost predicate Fresh(w: World, n: string) {
    && Name(n) && FileColumnOf(n) == None && UserColumnOf(n) == None && !Known(w.users, n)
    && USERS + "/" + n !in w.tree && forall k :: 0 <= k < |w.files| ==> w.files[k].alias != n
  }

  lemma SomeFresh(w: World) returns (n: string)
    ensures Fresh(w, n)
  {
    var a := LongestAlias(w.files);
    var u := LongestIn(set r | r in w.users :: r.username);
    var t := LongestIn(w.tree.Keys);
    n := seq(a + u + t + 9, _ => 'a');
    LongLiteral(n);
    assert forall i :: 0 <= i < |w.users| ==> w.users[i] in w.users && |w.users[i].username| <= u;
    assert |USERS + "/" + n| > t;
  }

  /** An administrator adds a user; the owner of the parent folder posts under that name
      and asks for the file. */
  function Burial(k: UserRow, i: UserRow, n: string): seq<Command> {
    [Logout] + ([Login(k.username, k.password)] + ([NewUser(n, "", false)] +
    ([Logout] + ([Login(i.username, i.password)] + ([Post(n, "", 0)] + [Get(n)])))))
  }

  lemma OwnerLoses(w: World, i: int, n: string)
    requires FileSystem(w) && Unique(w.users) && 0 <= i < |w.users| && Speakable(w.users[i])
    requires Folder(w.users[i].home) == USERS && USERS + "/" + n in w.dirs
    requires Name(n) && FileColumnOf(n) == None && forall k :: 0 <= k < |w.files| ==> w.files[k].alias != n
    ensures var u := w.users[i];
      var cs := [Logout] + ([Login(u.username, u.password)] + ([Post(n, "", 0)] + [Get(n)]));
      AllValid(cs) && Crash in Replies(w, cs)
  {
    var u := w.users[i];
    var w1 := LoggedIn(w, u);
    AliasUnused(w.files, n, u.home);
    FileAtParts(u.home, n);
    LostPostCrashes(w1, Post(n, "", 0));
    Relogin(w, i, [Post(n, "", 0)] + [Get(n)]);
  }

  lemma BurialCrashes(w: World, k: int, i: int, n: string)
    requires Sound(w) && Unique(w.users) && 0 <= k < |w.users| && 0 <= i < |w.users|
    requires Speakable(w.users[k]) && Speakable(w.users[i]) && w.users[k].admin
    requires Folder(w.users[i].home) == USERS && Fresh(w, n)
    ensures var cs := Burial(w.users[k], w.users[i], n); AllValid(cs) && Crash in Replies(w, cs)
  {
    var uk, ui := w.users[k], w.users[i];
    var w1 := LoggedIn(w, uk);
    var add := NewUser(n, "", false);
    FoundKnown(w.users, n);
    var w2 := Register(w1, n, "", false);
    assert Step(w1, add).0 == w2;
    assert forall m :: 0 <= m < |w.users| ==> w2.users[m] == w.users[m];
    AddedUnique(w, w2.users, n);
    RegisteredFileSystem(w1, n, "", false);
    OwnerLoses(w2, i, n);
    var rest := [Logout] + ([Login(ui.username, ui.password)] + ([Post(n, "", 0)] + [Get(n)]));
    CrashTail(w1, add, rest);
    Relogin(w, k, [add] + rest);
  }

  lemma AddedUnique(w: World, users: seq<UserRow>, n: string)
    requires Rows(w) && Unique(w.users) && !Known(w.users, n) && |users| == |w.users| + 1
    requires forall m :: 0 <= m < |w.users| ==> users[m] == w.users[m]
    requires users[|w.users|].username == n && users[|w.users|].id == w.nextId
    ensures Unique(users)
  {
  }

  /** No run of commands ever crashes the worker if and only if no home is the parent of
      the user folders, where all users can log in with what the table holds and one is
      an administrator. */
  lemma NoCrashExact(w: World)
    requires Sound(w) && Unique(w.users) && (forall u :: u in w.users ==> Speakable(u))
    requires exists u :: u in w.users && u.admin
    ensures NoCrash(w) <==> Apart(w)
  {
    if Apart(w) {
      SoundStocked(w);
      forall cs | AllValid(cs)
        ensures Crash !in Replies(w, cs)
      {
        NeverCrashes(w, cs);
      }
    } else {
      var i :| 0 <= i < |w.users| && Folder(w.users[i].home) == USERS;
      var u :| u in w.users && u.admin;
      var k :| 0 <= k < |w.users| && w.users[k] == u;
      var n := SomeFresh(w);
      assert w.users[i] in w.users;
      BurialCrashes(w, k, i, n);
      var cs := Burial(w.users[k], w.users[i], n);
      assert AllValid(cs) && Crash in Replies(w, cs);
    }
  }

  // ------------------------------------------------- a file where a folder should be

  /** A file posted where the folder of a new user should be: the user gets none. */
  lemma FileBlocksFolder(w: World, n: string, pass: string, admin: bool)
    requires FileSystem(w) && Name(n) && USERS + "/" + n in w.tree
    ensures Folder("/fs/" + n) !in Register(w, n, pass, admin).dirs
  {
    UserFolder(n);
  }

  /** When a new user is registered, its folder is there afterwards if and only if it was
      there already, or the parent folder is and no file has its place; no other folder
      comes or goes. */
  lemma FolderMadeExact(w: World, n: string, pass: string, admin: bool)
    requires Name(n) && Clean(pass) && Step(w, NewUser(n, pass, admin)).1 == Said(Registered)
    ensures var dirs, mine := Step(w, NewUser(n, pass, admin)).0.dirs, Folder("/fs/" + n);
      && (mine in dirs <==> mine in w.dirs || (Folder("/fs") in w.dirs && mine !in w.tree))
      && dirs - {mine} == w.dirs - {mine}
  {
    UserFolder(n);
    SqueezeUsers();
    assert "." + "/fs" == USERS;
  }

  function Displaced(n: string, pass: string, x: string): seq<Command> {
    [Post(n, "", 0)] + ([NewUser(n, pass, false)] +
    ([Logout] + ([Login(n, pass)] + ([Post(x, "", 0)] + [Get(x)]))))
  }

  lemma HomelessLoses(w: World, i: int, x: string)
    requires FileSystem(w) && Unique(w.users) && 0 <= i < |w.users| && Speakable(w.users[i])
    requires Folder(w.users[i].home) !in w.dirs
    requires Name(x) && FileColumnOf(x) == None && forall k :: 0 <= k < |w.files| ==> w.files[k].alias != x
    ensures var u := w.users[i];
      var cs := [Logout] + ([Login(u.username, u.password)] + ([Post(x, "", 0)] + [Get(x)]));
      AllValid(cs) && Crash in Replies(w, cs)
  {
    AliasUnused(w.files, x, w.users[i].home);
    LostPostCrashes(LoggedIn(w, w.users[i]), Post(x, "", 0));
    Relogin(w, i, [Post(x, "", 0)] + [Get(x)]);
  }

  /** An administrator at home in the parent folder posts under a name and adds a user
      of that name: that user's first post is lost under "File OK", and the get of it
      crashes the worker. */
  lemma DisplacedCrashes(w: World, n: string, pass: string, x: string)
    requires Placed(w) && Unique(w.users) && w.user.Some? && w.user.value.admin
    requires Folder(w.user.value.home) == USERS && USERS in w.dirs && USERS + "/" + n !in w.dirs
    requires Name(n) && FileColumnOf(n) == None && UserColumnOf(n) == None && !Known(w.users, n)
    requires Clean(pass) && UserColumnOf(pass) == None
    requires Name(x) && FileColumnOf(x) == None && x != n
    requires forall k :: 0 <= k < |w.files| ==> w.files[k].alias != n && w.files[k].alias != x
    ensures var cs := Displaced(n, pass, x); AllValid(cs) && Crash in Replies(w, cs)
  {
    var u := w.user.value;
    var post, add := Post(n, "", 0), NewUser(n, pass, false);
    AliasUnused(w.files, n, u.home);
    FileAtParts(u.home, n);
    var w1 := Save(w, u, n, []);
    assert Decode("")[..0] == [];
    assert Step(w, post).0 == w1;
    SavedFileSystem(w, u, n, []);
    FoundKnown(w.users, n);
    var w2 := Register(w1, n, pass, false);
    assert Step(w1, add).0 == w2;
    AddedUnique(w, w2.users, n);
    FileBlocksFolder(w1, n, pass, false);
    RegisteredFileSystem(w1, n, pass, false);
    NameSpeaks(n, pass);
    HomelessLoses(w2, |w.users|, x);
    CrashTwo(w, post, add, [Logout] + ([Login(n, pass)] + ([Post(x, "", 0)] + [Get(x)])));
  }

  lemma NameSpeaks(n: string, pass: string)
    requires Name(n) && UserColumnOf(n) == None && Clean(pass) && UserColumnOf(pass) == None
    ensures Valid(Login(n, pass)) && Literal(Login(n, pass))
  {
  }

  // ------------------------------------------------------------ the shipped tables

  const ROOT := UserRow(1, "root", "root", "/fs/", true)
  const MGOFFAN := UserRow(2, "mgoffan", "hola", "/fs/mgoffan", false)

  /** The tables of `files.db` and the folders of the repository, root logged in. */
  function Shipped(): World {
    World([ROOT, MGOFFAN], 3, [], 1, map[], {USERS, USERS + "/" + "mgoffan"}, Some(Logged("root", "/fs/", true, 1)))
  }

  lemma RootFolder()
    ensures Folder("/fs/") == USERS
  {
    var s := "./fs/";
    assert "." + "/fs/" == s;
    assert s[1..] == "/fs/" && s[1..][1..] == "fs/" && "fs/"[1..] == "s/" && "s/"[1..] == "/" && "/"[1..] == "";
    assert Squeeze("/") == "" && Squeeze("s/") == "s" && Squeeze("fs/") == "fs" && Squeeze("/fs/") == "/fs";
  }

  lemma MgoffanFolder()
    ensures Name("mgoffan") && Folder("/fs/mgoffan") == USERS + "/" + "mgoffan"
  {
    assert "/fs/" + "mgoffan" == "/fs/mgoffan";
    UserFolder("mgoffan");
  }

  lemma ShippedRows()
    ensures Rows(Shipped()) && Unique(Shipped().users)
  {
    var w := Shipped();
    assert IsRow(w.users, 0, w.user.value);
    assert |ROOT.username| == 4 && |MGOFFAN.username| == 7;
  }

  lemma ShippedHomes()
    ensures PlainHome("/fs/") && PlainHome("/fs/mgoffan")
  {
    MgoffanFolder();
    NewHomePlain("mgoffan");
    assert "/fs/" + "mgoffan" == "/fs/mgoffan";
  }

  lemma ShippedPlaced()
    ensures Placed(Shipped()) && Unique(Shipped().users)
  {
    ShippedRows();
    ShippedSpelled();
    ShippedHomes();
    assert Shipped().users == [ROOT, MGOFFAN];
  }

  lemma ShippedTidy(a: string)
    requires Name(a)
    ensures FileAt("/fs/mgoffan", a) !in Shipped().dirs
    ensures forall n :: Name(n) ==> FilePath(USERS + "/" + n, a) !in Shipped().dirs
  {
    MgoffanFolder();
    FileAtParts("/fs/mgoffan", a);
    NotAFolder("mgoffan", a);
    forall n | Name(n)
      ensures FilePath(USERS + "/" + n, a) !in Shipped().dirs
    {
      NotAFolder(n, a);
    }
  }

  /** The shipped tables are sound, but root's home is the parent of the user folders. */
  lemma ShippedSound()
    ensures Sound(Shipped()) && !Apart(Shipped())
  {
    var w := Shipped();
    RootFolder();
    MgoffanFolder();
    ShippedPlaced();
    assert Folder(w.users[0].home) == USERS;
    forall a | Name(a)
      ensures FileAt("/fs/mgoffan", a) !in w.dirs && forall n :: Name(n) ==> FilePath(USERS + "/" + n, a) !in w.dirs
    {
      ShippedTidy(a);
    }
  }

  lemma NotAFolder(n: string, a: string)
    requires Name(n) && Name(a)
    ensures FilePath(USERS + "/" + n, a) !in Shipped().dirs
  {
    assert Name("mgoffan");
    if FilePath(USERS + "/" + n, a) == FilePath(USERS, "mgoffan") {
      PathInjective(USERS + "/" + n, a, USERS, "mgoffan");
    }
    assert |USERS| == 4;
  }

  lemma ShippedSpelled()
    ensures Spelled([ROOT, MGOFFAN])
  {
    RootFolder();
    MgoffanFolder();
    forall n | Name(n)
      ensures USERS != USERS + "/" + n
      ensures USERS + "/" + "mgoffan" == USERS + "/" + n ==> "/fs/mgoffan" == "/fs/" + n
    {
      assert (USERS + "/" + n)[5..] == n && (USERS + "/" + "mgoffan")[5..] == "mgoffan";
      assert "/fs/" + "mgoffan" == "/fs/mgoffan";
    }
  }

  /** On the shipped tables root posts a file under the alias `mgoffan`, which is a
      folder: it is told "File OK", and the get of it crashes the worker. */
  lemma ShippedLoses(data: string, size: nat)
    requires Valid(Post("mgoffan", data, size))
    ensures Step(Shipped(), Post("mgoffan", data, size)).1 == Said(FileOk)
    ensures Step(Step(Shipped(), Post("mgoffan", data, size)).0, Get("mgoffan")).1 == Crash
  {
    RootFolder();
    FileAtParts("/fs/", "mgoffan");
    assert FileColumnOf("mgoffan") == None by {
      assert Lower("mgoffan") == "mgoffan";
    }
    LostPost(Shipped(), Post("mgoffan", data, size));
  }

  /** Or root posts under the alias `bob` and adds a user of that name, whose own posts
      are then lost. */
  lemma ShippedDisplaces()
    ensures var cs := Displaced("bob", "p", "x"); AllValid(cs) && Crash in Replies(Shipped(), cs)
  {
    ShippedPlaced();
    RootFolder();
    PlainWords();
    DisplacedCrashes(Shipped(), "bob", "p", "x");
  }

  lemma PlainWords()
    ensures Name("bob") && FileColumnOf("bob") == None && UserColumnOf("bob") == None
    ensures Name("x") && FileColumnOf("x") == None
    ensures Clean("p") && UserColumnOf("p") == None
    ensures USERS + "/" + "bob" !in Shipped().dirs && !Known(Shipped().users, "bob")
  {
    assert Lower("bob") == "bob" && |Lower("x")| == 1 && |Lower("p")| == 1;
    assert |USERS + "/" + "bob"| == 8 && |USERS + "/" + "mgoffan"| == 12;
  }
}
