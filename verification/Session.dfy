/** The tables, the file tree and the responder commands of one worker
    (server/responder.c, server/sql_helpers.c), as a state machine. */
module Session {
  import opened Text
  import opened FileCoding

  /** `create table users`; the id is assigned by the engine. */
  datatype UserRow = UserRow(id: nat, username: string, password: string, home: string, admin: bool)

  /** `create table files`; the id is assigned by the engine. */
  datatype FileRow = FileRow(id: nat, path: string, alias: string, owner: nat)

  /** `fs_user_t` */
  datatype Logged = Logged(name: string, home: string, admin: bool, id: nat)

  datatype World = World(
    users: seq<UserRow>, nextId: nat, files: seq<FileRow>, nextFile: nat,
    tree: map<string, seq<byte>>, dirs: set<string>, user: Option<Logged>)

  // -------------------------------------------------------------- table look-ups

  function Fold(c: char): char {
    if 'A' <= c <= 'Z' then (c as int + 32) as char else c
  }

  function Lower(s: string): string {
    seq(|s|, i requires 0 <= i < |s| => Fold(s[i]))
  }

  datatype UserColumn = UserId | Username | Password | Cwd | Home | IsAdmin

  datatype FileColumn = FileId | AliasColumn | PathColumn | Owner

  /** The column of `users` that SQLite takes a double-quoted word for, ASCII case
      aside; the last three are names of the row's id. */
  function UserColumnOf(word: string): Option<UserColumn> {
    var w := Lower(word);
    if w == "username" then Some(Username)
    else if w == "password" then Some(Password)
    else if w == "cwd" then Some(Cwd)
    else if w == "home" then Some(Home)
    else if w == "is_admin" then Some(IsAdmin)
    else if w == "user_id" || w == "rowid" || w == "oid" || w == "_rowid_" then Some(UserId)
    else None
  }

  function FileColumnOf(word: string): Option<FileColumn> {
    var w := Lower(word);
    if w == "alias" then Some(AliasColumn)
    else if w == "path" then Some(PathColumn)
    else if w == "owner" then Some(Owner)
    else if w == "file_id" || w == "rowid" || w == "oid" || w == "_rowid_" then Some(FileId)
    else None
  }

  /** What a cell holds. */
  datatype Cell = Chars(s: string) | Number(n: nat)

  function UserCell(u: UserRow, column: UserColumn): Cell {
    match column
    case UserId => Number(u.id)
    case Username => Chars(u.username)
    case Password => Chars(u.password)
    case Cwd => Chars("/")
    case Home => Chars(u.home)
    case IsAdmin => Number(if u.admin then 1 else 0)
  }

  function FileCell(f: FileRow, column: FileColumn): Cell {
    match column
    case FileId => Number(f.id)
    case AliasColumn => Chars(f.alias)
    case PathColumn => Chars(f.path)
    case Owner => Number(f.owner)
  }

  /** What a double-quoted word means in a row: the cell of the column it names, or
      itself. */
  function InUser(u: UserRow, word: string): Cell {
    match UserColumnOf(word)
    case None => Chars(word)
    case Some(column) => UserCell(u, column)
  }

  function InFile(f: FileRow, word: string): Cell {
    match FileColumnOf(word)
    case None => Chars(word)
    case Some(column) => FileCell(f, column)
  }

  /** A text column compared with a value; against a number the text is read as one. */
  predicate Same(text: string, value: Cell) {
    match value
    case Chars(s) => text == s
    case Number(n) => text != "" && Digits(text) && Atoi(text) == n
  }

  /** A value written to a text column. */
  function Stored(value: Cell): string {
    match value
    case Chars(s) => s
    case Number(n) => Decimal(n)
  }

  /** One character of a LIKE pattern against one of the text: '_' stands for
      anything, and ASCII case does not count. */
  predicate Matches(p: char, c: char) {
    p == '_' || Fold(p) == Fold(c)
  }

  /** `path LIKE 'home%'` for a home without '%'. */
  predicate Like(home: string, path: string) {
    |home| <= |path| && forall i :: 0 <= i < |home| ==> Matches(home[i], path[i])
  }

  predicate IsFile(row: FileRow, alias: string, home: string) {
    Same(row.alias, InFile(row, alias)) && Like(home, row.path)
  }

  predicate FirstFile(files: seq<FileRow>, alias: string, home: string, k: int) {
    0 <= k < |files| && IsFile(files[k], alias, home) && forall m :: 0 <= m < k ==> !IsFile(files[m], alias, home)
  }

  /** `ask_for_file_to_db`: the first row, or none. */
  function FindPath(files: seq<FileRow>, alias: string, home: string): (r: Option<string>)
    ensures r.Some? ==> exists k :: FirstFile(files, alias, home, k) && files[k].path == r.value
    ensures r == None ==> forall k :: 0 <= k < |files| ==> !IsFile(files[k], alias, home)
  {
    if files == [] then None
    else if IsFile(files[0], alias, home) then
      assert FirstFile(files, alias, home, 0);
      Some(files[0].path)
    else
      var r := FindPath(files[1..], alias, home);
      assert r.Some? ==> exists k :: FirstFile(files, alias, home, k) && files[k].path == r.value by {
        if r.Some? {
          var m :| FirstFile(files[1..], alias, home, m) && files[1..][m].path == r.value;
          assert FirstFile(files, alias, home, m + 1);
        }
      }
      r
  }

  predicate HasLogin(row: UserRow, name: string, pass: string) {
    Same(row.username, InUser(row, name)) && Same(row.password, InUser(row, pass))
  }

  predicate FirstLogin(users: seq<UserRow>, name: string, pass: string, k: int) {
    0 <= k < |users| && HasLogin(users[k], name, pass) && forall m :: 0 <= m < k ==> !HasLogin(users[m], name, pass)
  }

  /** `user_identification_in_db`: the first row, or none. */
  function FindLogin(users: seq<UserRow>, name: string, pass: string): (r: Option<UserRow>)
    ensures r.Some? ==> exists k :: FirstLogin(users, name, pass, k) && users[k] == r.value
    ensures r == None ==> forall u :: u in users ==> !HasLogin(u, name, pass)
  {
    if users == [] then None
    else if HasLogin(users[0], name, pass) then
      assert FirstLogin(users, name, pass, 0);
      Some(users[0])
    else
      var r := FindLogin(users[1..], name, pass);
      assert r.Some? ==> exists k :: FirstLogin(users, name, pass, k) && users[k] == r.value by {
        if r.Some? {
          var m :| FirstLogin(users[1..], name, pass, m) && users[1..][m] == r.value;
          assert FirstLogin(users, name, pass, m + 1);
        }
      }
      r
  }

  predicate Known(users: seq<UserRow>, name: string) {
    exists i :: 0 <= i < |users| && users[i].username == name
  }

  /** `user_in_db` */
  predicate Found(users: seq<UserRow>, name: string) {
    exists i :: 0 <= i < |users| && Same(users[i].username, InUser(users[i], name))
  }

  /** `update_pass_in_db` */
  function SetPassword(users: seq<UserRow>, id: nat, pass: string): (r: seq<UserRow>)
    ensures |r| == |users|
    ensures forall i :: 0 <= i < |users| ==>
      r[i] == if users[i].id == id then users[i].(password := Stored(InUser(users[i], pass))) else users[i]
  {
    seq(|users|, i requires 0 <= i < |users| =>
      if users[i].id == id then users[i].(password := Stored(InUser(users[i], pass))) else users[i])
  }

  function FilePath(home: string, alias: string): string {
    home + "/" + alias
  }

  // ------------------------------------------------------------- the file system

  /** A path as the file system reads it: a run of '/' is one, and the last does not
      count. */
  function Squeeze(path: string): string {
    if path == "" then ""
    else if path[0] == '/' && (|path| == 1 || path[1] == '/') then Squeeze(path[1..])
    else [path[0]] + Squeeze(path[1..])
  }

  /** Where the server runs, the folder of a home. */
  function Folder(home: string): string {
    Squeeze("." + home)
  }

  /** The file of a home and an alias. */
  function FileAt(home: string, alias: string): string {
    Squeeze("." + FilePath(home, alias))
  }

  /** The folder below which the server makes those of its users. */
  const USERS := "./fs"

  // ------------------------------------------------------------------- commands

  /** The parsed requests that the responder dispatches on. */
  datatype Command =
    | Get(alias: string)
    | Post(alias: string, data: string, size: nat)
    | Login(name: string, pass: string)
    | Logout
    | NewUser(name: string, pass: string, admin: bool)
    | ChangePass(pass: string)

  datatype Notice =
    | NotLogged | NotInDb | FileExists | FileOk | AlreadyIn | LoginFailed
    | LoggedIn | LoggedOut | NoPermission | UserExists | Registered | Updated

  /** What a command sends back; Crash is the null contents of a missing file. */
  datatype Reply = Said(notice: Notice) | File(code: string, size: nat) | Crash

  /** The text and the size given to `send_data`. */
  function Wording(n: Notice): (string, nat) {
    match n
    case NotLogged => ("NOT logged", 10)
    case NotInDb => ("FILE IS NOT IN DB", 17)
    case FileExists => ("FILE EXISTS", 11)
    case FileOk => ("File OK", 7)
    case AlreadyIn => ("You are already logged in", 25)
    case LoginFailed => ("Login failed", 12)
    case LoggedIn => ("Logged in successfully", 22)
    case LoggedOut => ("Log out successful", 18)
    case NoPermission => ("HAVE NOT PERMISION", 10)
    case UserExists => ("User already exists", 19)
    case Registered => ("User registered", 15)
    case Updated => ("PASSWORD UPDATED", 16)
  }

  /** One size is not the length of its text. */
  lemma WordingSizes(n: Notice)
    ensures Wording(n).1 == |Wording(n).0| <==> n != NoPermission
    ensures n == NoPermission ==> Wording(n).1 == 10
  {
  }

  predicate Alnum(c: char) {
    'a' <= c <= 'z' || 'A' <= c <= 'Z' || '0' <= c <= '9'
  }

  predicate Name(s: string) {
    s != "" && forall i :: 0 <= i < |s| ==> Alnum(s[i])
  }

  /** Text of a C string that can be put between double quotes in a query. */
  predicate Clean(s: string) {
    '"' !in s && ';' !in s && NulFree(s)
  }

  /** Text that can stand in the pattern of a LIKE. */
  predicate HomeText(home: string) {
    '\'' !in home && ';' !in home && '%' !in home
  }

  /** What the client sends: names of letters and digits, texts that stay inside
      their quotes, and a size that the code text covers. */
  predicate Valid(c: Command) {
    match c
    case Get(a) => Name(a)
    case Post(a, data, size) => Name(a) && NulFree(data) && |data| % 3 == 0 && 3 * size <= |data|
    case NewUser(n, p, _) => Name(n) && Clean(p)
    case Login(n, p) => Clean(n) && Clean(p)
    case ChangePass(p) => Clean(p)
    case Logout => true
  }

  /** No text of the command names a column of the table it is compared with or
      stored in. */
  predicate Literal(c: Command) {
    match c
    case Get(a) => FileColumnOf(a) == None
    case Post(a, _, _) => FileColumnOf(a) == None
    case Login(n, p) => UserColumnOf(n) == None && UserColumnOf(p) == None
    case NewUser(n, _, _) => UserColumnOf(n) == None
    case ChangePass(p) => UserColumnOf(p) == None
    case Logout => true
  }

  /** `raw_data_from_file` then `encode_raw_data`: a missing file is a null pointer, and
      a folder has no size that could be allocated. */
  function Fetch(w: World, path: string): Reply {
    var p := Squeeze("." + path);
    if p in w.tree then File(Encode(w.tree[p]), |w.tree[p]|) else Crash
  }

  /** A file can be written: its folder is there, and it is no folder itself. */
  predicate Writable(w: World, home: string, alias: string) {
    Folder(home) in w.dirs && FileAt(home, alias) !in w.dirs
  }

  /** `insert_alias_in_db`, which gives every row the same owner, then
      `file_from_raw_data`, whose failure is ignored */
  function Save(w: World, u: Logged, alias: string, contents: seq<byte>): World {
    var row := FileRow(w.nextFile, FilePath(u.home, alias), alias, 2);
    var w1 := w.(files := w.files + [row], nextFile := w.nextFile + 1);
    if Writable(w, u.home, alias) then w1.(tree := w.tree[FileAt(u.home, alias) := contents]) else w1
  }

  /** `mkdir`: needs its parent, and leaves alone what is there. */
  function Made(dirs: set<string>, tree: map<string, seq<byte>>, name: string): set<string> {
    var path := USERS + "/" + name;
    if USERS in dirs && path !in tree then dirs + {path} else dirs
  }

  /** `create_user_folder`, whose failure is ignored, then `new_user_in_db` */
  function Register(w: World, name: string, pass: string, admin: bool): World {
    w.(dirs := Made(w.dirs, w.tree, name),
       users := w.users + [UserRow(w.nextId, name, pass, "/fs/" + name, admin)],
       nextId := w.nextId + 1)
  }

  function Step(w: World, c: Command): (World, Reply)
    requires Valid(c)
  {
    if c.Login? then
      if w.user.Some? then (w, Said(AlreadyIn))
      else
        match FindLogin(w.users, c.name, c.pass)
        case None => (w, Said(LoginFailed))
        case Some(u) => (w.(user := Some(Logged(c.name, u.home, u.admin, u.id))), Said(LoggedIn))
    else if w.user == None then (w, Said(NotLogged))
    else
      var u := w.user.value;
      match c
      case Get(alias) =>
        (match FindPath(w.files, alias, u.home)
         case None => (w, Said(NotInDb))
         case Some(path) => (w, Fetch(w, path)))
      case Post(alias, data, size) =>
        if FindPath(w.files, alias, u.home).Some? then (w, Said(FileExists))
        else (Save(w, u, alias, Decode(data)[..size]), Said(FileOk))
      case Logout => (w.(user := None), Said(LoggedOut))
      case NewUser(name, pass, admin) =>
        if !u.admin then (w, Said(NoPermission))
        else if Found(w.users, name) then (w, Said(UserExists))
        else (Register(w, name, pass, admin), Said(Registered))
      case ChangePass(pass) => (w.(users := SetPassword(w.users, u.id, pass)), Said(Updated))
  }

  ghost predicate AllValid(cs: seq<Command>) {
    forall c :: c in cs ==> Valid(c)
  }

  ghost predicate AllLiteral(cs: seq<Command>) {
    forall c :: c in cs ==> Literal(c)
  }

  function Exec(w: World, cs: seq<Command>): World
    requires AllValid(cs)
    decreases |cs|
  {
    if cs == [] then w else Exec(Step(w, cs[0]).0, cs[1..])
  }

  function Replies(w: World, cs: seq<Command>): (rs: seq<Reply>)
    requires AllValid(cs)
    ensures |rs| == |cs|
    decreases |cs|
  {
    if cs == [] then [] else [Step(w, cs[0]).1] + Replies(Step(w, cs[0]).0, cs[1..])
  }

  // ------------------------------------------------------------------ invariants

  /** The row the session stands for, in id, home and admin flag. */
  ghost predicate IsRow(users: seq<UserRow>, i: int, l: Logged) {
    0 <= i < |users| && users[i].home == l.home && users[i].admin == l.admin && users[i].id == l.id
  }

  /** What every command keeps: ids are unique, and the logged-in user matches a row. */
  ghost predicate Rows(w: World) {
    && (forall i, j :: 0 <= i < j < |w.users| ==> w.users[i].id != w.users[j].id)
    && (forall i :: 0 <= i < |w.users| ==> w.users[i].id < w.nextId)
    && (w.user.Some? ==> exists i :: IsRow(w.users, i, w.user.value))
  }

  ghost predicate Unique(users: seq<UserRow>) {
    forall i, j :: 0 <= i < j < |users| ==>
      users[i].username != users[j].username && users[i].id != users[j].id
  }

  /** The same, and it is the row of that name. */
  ghost predicate IsOwn(users: seq<UserRow>, i: int, l: Logged) {
    IsRow(users, i, l) && users[i].username == l.name
  }

  ghost predicate Accounts(w: World) {
    && Unique(w.users)
    && (forall i :: 0 <= i < |w.users| ==> w.users[i].id < w.nextId)
    && (w.user.Some? ==> exists i :: IsOwn(w.users, i, w.user.value))
  }

  predicate Owns(users: seq<UserRow>, i: int, row: FileRow) {
    0 <= i < |users| && row.path == FilePath(users[i].home, row.alias)
  }

  ghost predicate Owned(users: seq<UserRow>, row: FileRow) {
    Name(row.alias) && exists i :: Owns(users, i, row)
  }

  /** The table of files: every row is some user's, and no path is listed twice. */
  ghost predicate Catalogued(w: World) {
    && (forall k :: 0 <= k < |w.files| ==> Owned(w.users, w.files[k]))
    && (forall k, m :: 0 <= k < m < |w.files| ==> w.files[k].path != w.files[m].path)
  }

  /** A home whose name can be put into the queries. */
  predicate PlainHome(home: string) {
    Clean(home) && HomeText(home)
  }

  ghost predicate HomesPlain(users: seq<UserRow>) {
    forall i :: 0 <= i < |users| ==> PlainHome(users[i].home)
  }

  /** The two tables, whatever the files are. */
  ghost predicate Orderly(w: World) {
    Accounts(w) && HomesPlain(w.users) && Catalogued(w)
  }

  /** No two spellings of one folder among the homes; those below `/fs` are spelled as
      the server does. */
  ghost predicate Spelled(users: seq<UserRow>) {
    && (forall i, j :: 0 <= i < |users| && 0 <= j < |users| && Folder(users[i].home) == Folder(users[j].home) ==>
        users[i].home == users[j].home)
    && (forall i, n :: 0 <= i < |users| && Name(n) && Folder(users[i].home) == USERS + "/" + n ==>
        users[i].home == "/fs/" + n)
  }

  predicate InFolder(dirs: set<string>, path: string) {
    exists d :: d in dirs && IsChild(d, path)
  }

  predicate IsChild(d: string, path: string) {
    |path| > |d| + 1 && path[..|d|] == d && path[|d|] == '/' && '/' !in path[|d| + 1..]
  }

  /** Every file is in a folder, and no folder. */
  ghost predicate FileSystem(w: World) {
    forall p :: p in w.tree ==> p !in w.dirs && InFolder(w.dirs, p)
  }

  ghost predicate Sited(w: World) {
    HomesPlain(w.users) && Spelled(w.users) && FileSystem(w)
  }

  /** What every command keeps, whatever words it holds. */
  ghost predicate Placed(w: World) {
    Rows(w) && Sited(w)
  }

  ghost predicate HomesThere(w: World) {
    forall i :: 0 <= i < |w.users| ==> Folder(w.users[i].home) in w.dirs
  }

  /** Every listed file is there. */
  ghost predicate Present(w: World) {
    forall k :: 0 <= k < |w.files| ==> Squeeze("." + w.files[k].path) in w.tree
  }

  ghost predicate Inv(w: World) {
    Orderly(w) && Sited(w) && HomesThere(w) && Present(w)
  }

  // --------------------------------------------------------------- paths, squeezed

  lemma {:induction false} SqueezeName(a: string)
    requires '/' !in a
    ensures Squeeze(a) == a
  {
    if a != "" {
      SqueezeName(a[1..]);
      assert a == [a[0]] + a[1..];
    }
  }

  lemma {:induction false} SqueezeChild(s: string, a: string)
    requires a != "" && '/' !in a
    ensures Squeeze(s + "/" + a) == Squeeze(s) + "/" + a
  {
    var t := s + "/" + a;
    if s == "" {
      assert t[0] == '/' && t[1] == a[0] && t[1..] == a;
      SqueezeName(a);
    } else {
      assert t[0] == s[0] && t[1..] == s[1..] + "/" + a && t[1] == if |s| == 1 then '/' else s[1];
      SqueezeChild(s[1..], a);
      assert [s[0]] + (Squeeze(s[1..]) + "/" + a) == [s[0]] + Squeeze(s[1..]) + "/" + a;
    }
  }

  lemma NameNoSlash(a: string)
    requires Name(a)
    ensures a != "" && '/' !in a
  {
    assert !Alnum('/');
  }

  lemma FileAtParts(home: string, alias: string)
    requires Name(alias)
    ensures FileAt(home, alias) == FilePath(Folder(home), alias)
  {
    NameNoSlash(alias);
    assert "." + FilePath(home, alias) == "." + home + "/" + alias;
    SqueezeChild("." + home, alias);
  }

  lemma UserFolder(name: string)
    requires Name(name)
    ensures Folder("/fs/" + name) == USERS + "/" + name
  {
    NameNoSlash(name);
    assert "." + ("/fs/" + name) == USERS + "/" + name;
    SqueezeChild(USERS, name);
    SqueezeUsers();
  }

  lemma SqueezeUsers()
    ensures Squeeze(USERS) == USERS
  {
    assert USERS[1..] == "/fs" && USERS[1..][1..] == "fs" && "fs"[1..] == "s" && "s"[1..] == "";
    SqueezeName("fs");
    assert Squeeze("/fs") == "/" + Squeeze("fs");
  }

  /** With aliases of letters and digits, a path determines home and alias. */
  lemma PathInjective(g: string, a: string, h: string, b: string)
    requires Name(a) && Name(b) && FilePath(g, a) == FilePath(h, b)
    ensures g == h && a == b
  {
    var p := FilePath(g, a);
    SlashPosition(g, a, h, b);
    assert g == p[..|g|] && h == p[..|h|];
    assert a == p[|g| + 1..] && b == p[|h| + 1..];
  }

  lemma SlashPosition(g: string, a: string, h: string, b: string)
    requires Name(a) && Name(b) && FilePath(g, a) == FilePath(h, b)
    ensures |g| == |h|
  {
    var p := FilePath(g, a);
    assert p[|g|] == '/' && p[|h|] == '/';
    assert forall i :: |g| < i < |p| ==> p[i] == a[i - |g| - 1];
    assert forall i :: |h| < i < |p| ==> p[i] == b[i - |h| - 1];
    assert forall i :: |g| < i < |p| ==> Alnum(p[i]);
    assert forall i :: |h| < i < |p| ==> Alnum(p[i]);
    assert !Alnum('/');
  }

  /** A file determines the folder of the home and the alias. */
  lemma FileAtInjective(g: string, a: string, h: string, b: string)
    requires Name(a) && Name(b) && FileAt(g, a) == FileAt(h, b)
    ensures Folder(g) == Folder(h) && a == b
  {
    FileAtParts(g, a);
    FileAtParts(h, b);
    PathInjective(Folder(g), a, Folder(h), b);
  }

  lemma ChildOf(d: string, alias: string)
    requires Name(alias)
    ensures IsChild(d, FilePath(d, alias))
  {
    NameNoSlash(alias);
    var p := FilePath(d, alias);
    assert p[..|d|] == d && p[|d| + 1..] == alias;
  }

  lemma ParentOf(d: string, g: string, alias: string)
    requires Name(alias) && IsChild(d, FilePath(g, alias))
    ensures d == g
  {
    var p := FilePath(g, alias);
    NameNoSlash(alias);
    assert p[|g|] == '/' && p[..|g|] == g;
    assert forall i :: |g| < i < |p| ==> p[i] == alias[i - |g| - 1];
    assert forall i :: |d| < i < |p| ==> p[i] == p[|d| + 1..][i - |d| - 1];
  }

  /** A file that is there could be written. */
  lemma ThereWritable(w: World, home: string, alias: string)
    requires FileSystem(w) && Name(alias) && FileAt(home, alias) in w.tree
    ensures Writable(w, home, alias)
  {
    FileAtParts(home, alias);
    var d :| d in w.dirs && IsChild(d, FileAt(home, alias));
    ParentOf(d, Folder(home), alias);
  }

  // ------------------------------------------------------------ what commands keep

  lemma OwnRow(w: World)
    requires Accounts(w)
    ensures Rows(w)
  {
  }

  /** Whatever words a command holds, ids stay unique and the session matches a row
      in id, home and admin flag. */
  lemma StepKeepsRows(w: World, c: Command)
    requires Rows(w) && Valid(c)
    ensures Rows(Step(w, c).0)
  {
    var w' := Step(w, c).0;
    if w'.user.Some? && w.user.Some? {
      var i :| IsRow(w.users, i, w.user.value);
      assert IsRow(w'.users, i, w'.user.value);
    } else if w'.user.Some? {
      var u := FindLogin(w.users, c.name, c.pass).value;
      var i :| 0 <= i < |w.users| && w.users[i] == u;
      assert IsRow(w'.users, i, w'.user.value);
    }
  }

  lemma RegisteredSpelled(w: World, name: string, pass: string, admin: bool)
    requires Spelled(w.users) && Name(name)
    ensures Spelled(Register(w, name, pass, admin).users)
  {
    UserFolder(name);
    var users := Register(w, name, pass, admin).users;
    forall i, n | 0 <= i < |users| && Name(n) && Folder(users[i].home) == USERS + "/" + n
      ensures users[i].home == "/fs/" + n
    {
      if i == |w.users| {
        assert (USERS + "/" + n)[5..] == n && (USERS + "/" + name)[5..] == name;
      }
    }
  }

  lemma RegisteredFileSystem(w: World, name: string, pass: string, admin: bool)
    requires FileSystem(w)
    ensures FileSystem(Register(w, name, pass, admin))
  {
    forall p | p in w.tree
      ensures InFolder(Made(w.dirs, w.tree, name), p)
    {
      var d :| d in w.dirs && IsChild(d, p);
      assert d in Made(w.dirs, w.tree, name);
    }
  }

  lemma SavedFileSystem(w: World, u: Logged, alias: string, contents: seq<byte>)
    requires FileSystem(w) && Name(alias)
    ensures FileSystem(Save(w, u, alias, contents))
  {
    FileAtParts(u.home, alias);
    ChildOf(Folder(u.home), alias);
  }

  /** The same homes, files and folders. */
  ghost predicate SamePlaces(w: World, w': World) {
    && |w'.users| == |w.users| && (forall i :: 0 <= i < |w.users| ==> w'.users[i].home == w.users[i].home)
    && w'.files == w.files && w'.tree == w.tree && w'.dirs == w.dirs
  }

  /** What a command does to homes, files and folders. */
  lemma StepPlaces(w: World, c: Command)
    requires Valid(c)
    ensures var w' := Step(w, c).0;
      || SamePlaces(w, w')
      || (c.Post? && w.user.Some? && w' == Save(w, w.user.value, c.alias, Decode(c.data)[..c.size]))
      || (c.NewUser? && w' == Register(w, c.name, c.pass, c.admin))
  {
  }

  lemma RegisteredSited(w: World, name: string, pass: string, admin: bool)
    requires Sited(w) && Name(name)
    ensures Sited(Register(w, name, pass, admin))
  {
    RegisteredSpelled(w, name, pass, admin);
    RegisteredFileSystem(w, name, pass, admin);
    NewHomePlain(name);
  }

  lemma NewHomePlain(name: string)
    requires Name(name)
    ensures PlainHome("/fs/" + name)
  {
  }

  lemma StepKeepsPlaced(w: World, c: Command)
    requires Placed(w) && Valid(c)
    ensures Placed(Step(w, c).0)
  {
    StepKeepsRows(w, c);
    StepPlaces(w, c);
    if SamePlaces(w, Step(w, c).0) {
    } else if c.Post? {
      SavedFileSystem(w, w.user.value, c.alias, Decode(c.data)[..c.size]);
    } else {
      RegisteredSited(w, c.name, c.pass, c.admin);
    }
  }

  // ----------------------------------------------------------- missing files, never

  /** No home is the parent of the user folders. */
  ghost predicate Apart(w: World) {
    forall i :: 0 <= i < |w.users| ==> Folder(w.users[i].home) != USERS
  }

  /** No folders where files will go, and no files where folders will. */
  ghost predicate Clear(w: World) {
    && USERS in w.dirs && Apart(w)
    && (forall i, a :: 0 <= i < |w.users| && Name(a) ==> FileAt(w.users[i].home, a) !in w.dirs)
    && (forall n :: Name(n) ==> USERS + "/" + n !in w.tree)
    && (forall n, a :: Name(n) && Name(a) ==> FilePath(USERS + "/" + n, a) !in w.dirs)
  }

  ghost predicate Supplied(w: World) {
    HomesThere(w) && Present(w) && Clear(w)
  }

  ghost predicate Stocked(w: World) {
    Placed(w) && Supplied(w)
  }

  lemma SavedClear(w: World, u: Logged, alias: string, contents: seq<byte>, i: int)
    requires Clear(w) && Name(alias) && IsRow(w.users, i, u)
    ensures Clear(Save(w, u, alias, contents))
  {
    forall n | Name(n)
      ensures USERS + "/" + n != FileAt(u.home, alias)
    {
      if USERS + "/" + n == FileAt(u.home, alias) {
        FileAtParts(u.home, alias);
        PathInjective(USERS, n, Folder(u.home), alias);
      }
    }
  }

  lemma RegisteredClear(w: World, name: string, pass: string, admin: bool)
    requires Clear(w) && Name(name)
    ensures Clear(Register(w, name, pass, admin))
  {
    var w', made := Register(w, name, pass, admin), USERS + "/" + name;
    UserFolder(name);
    forall i, a | 0 <= i < |w'.users| && Name(a)
      ensures FileAt(w'.users[i].home, a) !in w'.dirs
    {
      FileAtParts(w'.users[i].home, a);
      if FileAt(w'.users[i].home, a) == made {
        PathInjective(Folder(w'.users[i].home), a, USERS, name);
      }
    }
    forall n, a | Name(n) && Name(a)
      ensures FilePath(USERS + "/" + n, a) != made
    {
      if FilePath(USERS + "/" + n, a) == made {
        PathInjective(USERS + "/" + n, a, USERS, name);
      }
    }
  }

  lemma RegisteredHomes(w: World, name: string, pass: string, admin: bool)
    requires HomesThere(w) && USERS in w.dirs && Name(name) && USERS + "/" + name !in w.tree
    ensures HomesThere(Register(w, name, pass, admin))
  {
    UserFolder(name);
  }

  lemma SavedSupplied(w: World, u: Logged, alias: string, contents: seq<byte>, i: int)
    requires Supplied(w) && Name(alias) && IsRow(w.users, i, u)
    ensures Supplied(Save(w, u, alias, contents))
  {
    SavedClear(w, u, alias, contents, i);
  }

  lemma RegisteredSupplied(w: World, name: string, pass: string, admin: bool)
    requires Supplied(w) && Name(name)
    ensures Supplied(Register(w, name, pass, admin))
  {
    RegisteredClear(w, name, pass, admin);
    RegisteredHomes(w, name, pass, admin);
  }

  /** In a stocked world no command, whatever words it holds, meets a missing file. */
  lemma StepKeepsStocked(w: World, c: Command)
    requires Stocked(w) && Valid(c)
    ensures Stocked(Step(w, c).0) && Step(w, c).1 != Crash
  {
    StepKeepsPlaced(w, c);
    StepPlaces(w, c);
    GetFinds(w, c);
    if SamePlaces(w, Step(w, c).0) {
    } else if c.Post? {
      var i :| IsRow(w.users, i, w.user.value);
      SavedSupplied(w, w.user.value, c.alias, Decode(c.data)[..c.size], i);
    } else {
      RegisteredSupplied(w, c.name, c.pass, c.admin);
    }
  }

  lemma GetFinds(w: World, c: Command)
    requires Present(w) && Valid(c)
    ensures Step(w, c).1 != Crash
  {
  }

  /** So over every run: no get finds its file missing. */
  lemma {:induction false} NeverCrashes(w: World, cs: seq<Command>)
    requires Stocked(w) && AllValid(cs)
    ensures Stocked(Exec(w, cs)) && Crash !in Replies(w, cs)
    decreases |cs|
  {
    if cs != [] {
      StepKeepsStocked(w, cs[0]);
      NeverCrashes(Step(w, cs[0]).0, cs[1..]);
    }
  }

  lemma FoundKnown(users: seq<UserRow>, name: string)
    requires UserColumnOf(name) == None
    ensures Found(users, name) <==> Known(users, name)
  {
  }

  /** A name to add that reads as itself, or as the column of names. */
  predicate NameOk(c: Command) {
    c.NewUser? ==> UserColumnOf(c.name) in {None, Some(Username)}
  }

  /** Names stay unique, whatever words commands hold but those of added names. */
  lemma StepKeepsUnique(w: World, c: Command)
    requires Rows(w) && Unique(w.users) && Valid(c) && NameOk(c)
    ensures Unique(Step(w, c).0.users)
  {
    if c.NewUser? && w.user.Some? {
      var i :| IsRow(w.users, i, w.user.value);
      if UserColumnOf(c.name) == None {
        FoundKnown(w.users, c.name);
      } else {
        assert Same(w.users[i].username, InUser(w.users[i], c.name));
      }
    }
  }

  lemma {:induction false} UniqueOverRuns(w: World, cs: seq<Command>)
    requires Rows(w) && Unique(w.users) && AllValid(cs) && forall c :: c in cs ==> NameOk(c)
    ensures Unique(Exec(w, cs).users)
    decreases |cs|
  {
    if cs != [] {
      StepKeepsRows(w, cs[0]);
      StepKeepsUnique(w, cs[0]);
      UniqueOverRuns(Step(w, cs[0]).0, cs[1..]);
    }
  }

  /** No two files have one id, and none has an id still to be given. */
  ghost predicate FileIds(w: World) {
    && (forall k, m :: 0 <= k < m < |w.files| ==> w.files[k].id != w.files[m].id)
    && (forall k :: 0 <= k < |w.files| ==> w.files[k].id < w.nextFile)
  }

  /** Files keep their rows, and get ids of their own, over every run. */
  lemma {:induction false} FilesOverRuns(w: World, cs: seq<Command>)
    requires AllValid(cs) && FileIds(w)
    ensures FileIds(Exec(w, cs)) && w.files <= Exec(w, cs).files
    ensures Exec(w, cs).nextFile - w.nextFile == |Exec(w, cs).files| - |w.files|
    decreases |cs|
  {
    if cs != [] {
      FilesOverRuns(Step(w, cs[0]).0, cs[1..]);
    }
  }

  /** When its words are literal, a command also keeps names unique, and the session
      goes by the name of its row. */
  lemma StepKeepsAccounts(w: World, c: Command)
    requires Accounts(w) && Valid(c) && Literal(c)
    ensures Accounts(Step(w, c).0)
  {
    var w' := Step(w, c).0;
    if c.NewUser? { FoundKnown(w.users, c.name); }
    if w'.user.Some? && w.user.Some? {
      var i :| IsOwn(w.users, i, w.user.value);
      assert IsOwn(w'.users, i, w'.user.value);
    } else if w'.user.Some? {
      var u := FindLogin(w.users, c.name, c.pass).value;
      var i :| 0 <= i < |w.users| && w.users[i] == u;
      assert IsOwn(w'.users, i, w'.user.value);
    }
  }

  /** The rows a command adds or changes: at most one new row, only by a logged-in
      admin, with home `/fs/` ++ name; existing rows keep all but the password. */
  ghost predicate Grown(w: World, w': World) {
    && |w.users| <= |w'.users| <= |w.users| + 1
    && (forall i :: 0 <= i < |w.users| ==> w'.users[i] == w.users[i].(password := w'.users[i].password))
    && (|w'.users| > |w.users| ==>
        w.user.Some? && w.user.value.admin && w'.users[|w.users|].home == "/fs/" + w'.users[|w.users|].username
        && Name(w'.users[|w.users|].username))
  }

  lemma StepGrows(w: World, c: Command)
    requires Valid(c)
    ensures Grown(w, Step(w, c).0)
  {
  }

  /** A users table without an admin never grows, over any run. */
  lemma {:induction false} NoAdminNoGrowth(w: World, cs: seq<Command>)
    requires AllValid(cs) && Rows(w)
    requires forall i :: 0 <= i < |w.users| ==> !w.users[i].admin
    ensures |Exec(w, cs).users| == |w.users|
    decreases |cs|
  {
    if cs != [] {
      var w' := Step(w, cs[0]).0;
      StepKeepsRows(w, cs[0]);
      StepGrows(w, cs[0]);
      if w.user.Some? {
        var i :| IsRow(w.users, i, w.user.value);
      }
      NoAdminNoGrowth(w', cs[1..]);
    }
  }

  /** Over every run ids stay unique, one is used up for each added row, and the session
      matches a row; rows keep everything but their password, and every added row has home
      `/fs/` ++ name. */
  lemma {:induction false} RowsOverRuns(w: World, cs: seq<Command>)
    requires AllValid(cs) && Rows(w)
    ensures var w' := Exec(w, cs);
      && Rows(w') && |w.users| <= |w'.users| && w'.nextId - w.nextId == |w'.users| - |w.users|
      && (forall i :: 0 <= i < |w.users| ==> w'.users[i] == w.users[i].(password := w'.users[i].password))
      && (forall i :: |w.users| <= i < |w'.users| ==> w'.users[i].home == "/fs/" + w'.users[i].username)
    decreases |cs|
  {
    if cs != [] {
      StepKeepsRows(w, cs[0]);
      StepGrows(w, cs[0]);
      RowsOverRuns(Step(w, cs[0]).0, cs[1..]);
    }
  }

  /** Over every run of literal commands names stay unique as well, and the session
      goes by the name of its row. */
  lemma {:induction false} AccountsOverRuns(w: World, cs: seq<Command>)
    requires AllValid(cs) && AllLiteral(cs) && Accounts(w)
    ensures Accounts(Exec(w, cs))
    decreases |cs|
  {
    if cs != [] {
      StepKeepsAccounts(w, cs[0]);
      AccountsOverRuns(Step(w, cs[0]).0, cs[1..]);
    }
  }
}
