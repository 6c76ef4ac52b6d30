/** Where a user's text is taken for a column.  server/sql_helpers.c puts names,
    passwords and aliases between double quotes, and SQLite reads a double-quoted
    word that names a column as that column: which texts mean themselves, exactly,
    and what the others do. */
module Words {
  import opened Text
  import opened Session

  // ----------------------------------------------------------- what the others do

  /** The password `password` logs in every name that is found. */
  lemma PasswordAsPassword(users: seq<UserRow>, name: string)
    ensures FindLogin(users, name, "password").Some? <==> Found(users, name)
  {
    assert Lower("password") == "password";
    forall i | 0 <= i < |users|
      ensures users[i] in users
      ensures HasLogin(users[i], name, "password") <==> Same(users[i].username, InUser(users[i], name))
    {
    }
    if FindLogin(users, name, "password").Some? {
      var i :| 0 <= i < |users| && users[i] == FindLogin(users, name, "password").value;
      assert HasLogin(users[i], name, "password");
    }
  }

  /** The name `username` logs in with any user's password. */
  lemma UsernameAsName(users: seq<UserRow>, pass: string)
    requires UserColumnOf(pass) == None
    ensures FindLogin(users, "username", pass).Some? <==> exists u :: u in users && u.password == pass
  {
    assert Lower("username") == "username";
    assert forall u :: u in users ==> (HasLogin(u, "username", pass) <==> u.password == pass);
  }

  /** Changing the password to `username` stores the user's own name. */
  lemma UsernameAsNewPassword(users: seq<UserRow>, i: int)
    requires 0 <= i < |users|
    ensures SetPassword(users, users[i].id, "username")[i].password == users[i].username
  {
    assert Lower("username") == "username";
  }

  predicate FirstBelow(files: seq<FileRow>, home: string, k: int) {
    0 <= k < |files| && Like(home, files[k].path) && forall m :: 0 <= m < k ==> !Like(home, files[m].path)
  }

  /** The alias `alias` finds the first file below the home, whatever its alias. */
  lemma AliasAsAlias(files: seq<FileRow>, home: string)
    ensures match FindPath(files, "alias", home)
      case None => forall k :: 0 <= k < |files| ==> !Like(home, files[k].path)
      case Some(path) => exists k :: FirstBelow(files, home, k) && path == files[k].path
  {
    assert Lower("alias") == "alias";
    assert forall k :: 0 <= k < |files| ==> (IsFile(files[k], "alias", home) <==> Like(home, files[k].path));
    if FindPath(files, "alias", home).Some? {
      var k :| FirstFile(files, "alias", home, k) && files[k].path == FindPath(files, "alias", home).value;
      assert FirstBelow(files, home, k);
    }
  }

  lemma LowerWords()
    ensures UserColumnOf("home") == Some(Home) && UserColumnOf("cwd") == Some(Cwd)
    ensures UserColumnOf("is_admin") == Some(IsAdmin)
    ensures UserColumnOf("user_id") == Some(UserId) && UserColumnOf("rowid") == Some(UserId)
    ensures UserColumnOf("oid") == Some(UserId) && UserColumnOf("_rowid_") == Some(UserId)
    ensures FileColumnOf("path") == Some(PathColumn) && FileColumnOf("owner") == Some(Owner)
    ensures FileColumnOf("oid") == Some(FileId)
  {
    assert Lower("home") == "home" && Lower("cwd") == "cwd" && Lower("is_admin") == "is_admin";
    assert Lower("user_id") == "user_id" && Lower("rowid") == "rowid" && Lower("oid") == "oid";
    assert Lower("_rowid_") == "_rowid_" && Lower("path") == "path" && Lower("owner") == "owner";
  }

  lemma NumberText(n: nat)
    ensures Same(Decimal(n), Number(n))
  {
    AtoiDecimal(n);
  }

  /** As passwords, `home` and `cwd` log in the users whose password is their home or
      "/", and the names of the row id those whose password is their own id. */
  lemma OtherPasswords(u: UserRow, name: string)
    requires Same(u.username, InUser(u, name))
    ensures HasLogin(u, name, "home") <==> u.password == u.home
    ensures HasLogin(u, name, "cwd") <==> u.password == "/"
    ensures u.password == Decimal(u.id) ==>
      && HasLogin(u, name, "user_id") && HasLogin(u, name, "rowid")
      && HasLogin(u, name, "oid") && HasLogin(u, name, "_rowid_")
    ensures u.password == (if u.admin then "1" else "0") ==> HasLogin(u, name, "is_admin")
  {
    LowerWords();
    NumberText(u.id);
    assert Decimal(1) == "1" && Decimal(0) == "0";
    NumberText(1);
    NumberText(0);
  }

  /** As aliases, `path` finds files whose alias is their own path, and `owner` and `oid`
      those whose alias is the number of their owner or their own. */
  lemma OtherAliases(f: FileRow, home: string)
    requires Like(home, f.path)
    ensures IsFile(f, "path", home) <==> f.alias == f.path
    ensures f.alias == Decimal(f.owner) ==> IsFile(f, "owner", home)
    ensures f.alias == Decimal(f.id) ==> IsFile(f, "oid", home)
  {
    LowerWords();
    NumberText(f.owner);
    NumberText(f.id);
  }

  // ------------------------------------------------------ which texts mean themselves

  lemma ColumnWord(word: string)
    requires UserColumnOf(word).Some? || FileColumnOf(word).Some?
    ensures |word| >= 3 && !Digits(word)
  {
    assert Lower(word)[0] == Fold(word[0]);
  }

  /** A row in which every column reads the same as name and password. */
  function Uniform(column: UserColumn): UserRow {
    var t := if column == Cwd then "/" else "1";
    UserRow(1, t, t, t, true)
  }

  lemma UniformMatches(column: UserColumn)
    ensures var u := Uniform(column);
      Same(u.username, UserCell(u, column)) && Same(u.password, UserCell(u, column))
      && |u.username| == |u.password| == |Stored(UserCell(u, column))| == 1
  {
    assert Decimal(1) == "1";
    AtoiDecimal(1);
  }

  ghost predicate Own(users: seq<UserRow>, i: int) {
    Unique(users) && 0 <= i < |users| && UserColumnOf(users[i].username) == None
  }

  /** As a password at login, the text q is nobody's password but its own. */
  ghost predicate PasswordMeansItself(q: string) {
    forall users: seq<UserRow>, i :: Own(users, i) ==>
      (FindLogin(users, users[i].username, q).Some? <==> q == users[i].password)
  }

  lemma PasswordExact(q: string)
    requires Clean(q)
    ensures PasswordMeansItself(q) <==> UserColumnOf(q) == None
  {
    if UserColumnOf(q).Some? {
      var u := Uniform(UserColumnOf(q).value);
      UniformMatches(UserColumnOf(q).value);
      ColumnWord(q);
      Alone(u);
      assert HasLogin(u, u.username, q) && [u][0] == u;
      assert q != u.password && FindLogin([u], [u][0].username, q).Some?;
    } else {
      forall users: seq<UserRow>, i | Own(users, i)
        ensures FindLogin(users, users[i].username, q).Some? <==> q == users[i].password
      {
        OwnPassword(users, i, q);
      }
    }
  }

  lemma Alone(u: UserRow)
    requires |u.username| < 3
    ensures UserColumnOf(u.username) == None && Own([u], 0)
  {
    if UserColumnOf(u.username).Some? {
      ColumnWord(u.username);
    }
  }

  lemma OwnPassword(users: seq<UserRow>, i: int, q: string)
    requires Own(users, i) && UserColumnOf(q) == None
    ensures FindLogin(users, users[i].username, q).Some? <==> q == users[i].password
  {
    var r := FindLogin(users, users[i].username, q);
    assert users[i] in users;
    if r.Some? {
      var j :| 0 <= j < |users| && users[j] == r.value;
    }
  }

  /** As a name at login, the text n finds nobody but the user of that name. */
  ghost predicate NameMeansItself(n: string) {
    forall users: seq<UserRow>, q :: UserColumnOf(q) == None && FindLogin(users, n, q).Some? ==>
      FindLogin(users, n, q).value.username == n
  }

  lemma NameExact(n: string)
    requires Clean(n)
    ensures NameMeansItself(n) <==> UserColumnOf(n) == None
  {
    if UserColumnOf(n).Some? {
      var u := Uniform(UserColumnOf(n).value);
      UniformMatches(UserColumnOf(n).value);
      ColumnWord(n);
      Alone(u);
      assert u in [u] && HasLogin(u, n, u.password);
      assert FindLogin([u], n, u.password).Some? && FindLogin([u], n, u.password).value == u;
    }
  }

  /** As a new password, the text p is stored as it is. */
  ghost predicate NewPasswordMeansItself(p: string) {
    forall users: seq<UserRow>, i :: 0 <= i < |users| ==> SetPassword(users, users[i].id, p)[i].password == p
  }

  lemma NewPasswordExact(p: string)
    requires Clean(p)
    ensures NewPasswordMeansItself(p) <==> UserColumnOf(p) == None
  {
    if UserColumnOf(p).Some? {
      var u := Uniform(UserColumnOf(p).value);
      UniformMatches(UserColumnOf(p).value);
      ColumnWord(p);
      assert [u][0] == u && SetPassword([u], [u][0].id, p)[0].password != p;
    }
  }

  /** As an alias, the text a finds a file exactly when one below the home has it. */
  ghost predicate AliasMeansItself(a: string) {
    forall files: seq<FileRow>, home :: FindPath(files, a, home).Some? <==> HasAlias(files, a, home)
  }

  predicate HasAlias(files: seq<FileRow>, a: string, home: string) {
    exists k :: 0 <= k < |files| && files[k].alias == a && Like(home, files[k].path)
  }

  lemma AliasExact(a: string)
    requires Clean(a)
    ensures AliasMeansItself(a) <==> FileColumnOf(a) == None
  {
    if FileColumnOf(a).Some? {
      var f := FileRow(2, "2", "2", 2);
      ColumnWord(a);
      assert Same("2", FileCell(f, FileColumnOf(a).value));
      assert [f][0] == f && IsFile(f, a, "");
      assert FindPath([f], a, "").Some? && !HasAlias([f], a, "");
    } else {
      forall files: seq<FileRow>, home
        ensures FindPath(files, a, home).Some? <==> HasAlias(files, a, home)
      {
        assert forall k :: 0 <= k < |files| ==>
          (IsFile(files[k], a, home) <==> files[k].alias == a && Like(home, files[k].path));
      }
    }
  }

  /** Adding a user of name n never leaves two users of one name. */
  ghost predicate KeepsNamesUnique(n: string)
    requires Name(n)
  {
    forall w: World, pass, admin :: Rows(w) && Unique(w.users) && Clean(pass) ==>
      Unique(Step(w, NewUser(n, pass, admin)).0.users)
  }

  /** Names such as `home` or `password` can be added twice; `username` never can. */
  lemma NewNameExact(n: string)
    requires Name(n)
    ensures KeepsNamesUnique(n) <==> UserColumnOf(n) in {None, Some(Username)}
  {
    if UserColumnOf(n) in {None, Some(Username)} {
      forall w: World, pass, admin | Rows(w) && Unique(w.users) && Clean(pass)
        ensures Unique(Step(w, NewUser(n, pass, admin)).0.users)
      {
        StepKeepsUnique(w, NewUser(n, pass, admin));
      }
    } else {
      var w := WithUser(n);
      AddedTwice(n);
      assert Rows(w) && Unique(w.users) && !Unique(Step(w, NewUser(n, "", false)).0.users);
    }
  }

  /** An administrator at work, and a user of that name already there. */
  function WithUser(n: string): World {
    World([UserRow(0, n, "1", "/", false), UserRow(1, "-", "1", "/fs", true)], 2, [], 0, map[], {},
          Some(Logged("-", "/fs", true, 1)))
  }

  lemma AddedTwice(n: string)
    requires Name(n) && UserColumnOf(n).Some? && UserColumnOf(n) != Some(Username)
    ensures var w := WithUser(n);
      Rows(w) && Unique(w.users) && !Unique(Step(w, NewUser(n, "", false)).0.users)
  {
    var w := WithUser(n);
    ColumnWord(n);
    assert Alnum(n[0]);
    assert IsRow(w.users, 1, w.user.value);
    assert !Found(w.users, n) by {
      assert !Same(w.users[0].username, InUser(w.users[0], n));
      assert !Same(w.users[1].username, InUser(w.users[1], n));
    }
    var users := Step(w, NewUser(n, "", false)).0.users;
    assert users[0].username == n && users[2].username == n;
  }
}
