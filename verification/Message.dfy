/** Messages as JSON objects and back (lib/serialization/serialization.c). */
module Message {
  import opened Text
  import opened Session

  datatype Json = Str(s: string) | Int(i: int)

  type Object = map<string, Json>

  /** The text form is the JSON library's: all that is used is that it can be read
      back, is not empty and holds no raw NUL (section 7 of RFC 8259). */
  datatype Codec = Codec(write: Object -> string, read: string -> Option<Object>)

  ghost predicate GoodCodec(k: Codec) {
    forall o :: k.read(k.write(o)) == Some(o) && k.write(o) != "" && NulFree(k.write(o))
  }

  /** A C `int` made from a larger number. */
  function Wrap32(n: int): (r: int)
    ensures -0x8000_0000 <= r < 0x8000_0000 && (r - n) % 0x1_0000_0000 == 0
  {
    (n + 0x8000_0000) % 0x1_0000_0000 - 0x8000_0000
  }

  /** A C `size_t` made from an `int`. */
  function ToSize(n: int): (r: nat)
    requires -0x8000_0000 <= n < 0x8000_0000
  {
    if n < 0 then n + 0x1_0000_0000_0000_0000 else n
  }

  // -------------------------------------------------------------------- requests

  function StringifyCommand(c: Command): Object {
    match c
    case Get(path) => map["kind" := Str("command.get"), "path" := Str(path)]
    case Post(dest, data, size) =>
      map["kind" := Str("command.post"), "data" := Str(data), "dest" := Str(dest), "size" := Int(Wrap32(size))]
    case Login(name, pass) =>
      map["kind" := Str("command.login"), "username" := Str(name), "password" := Str(pass)]
    case Logout => map["kind" := Str("command.logout")]
    case NewUser(name, pass, admin) =>
      map["kind" := Str("command.new_user"), "username" := Str(name), "password" := Str(pass),
          "is_admin" := Int(if admin then 1 else 0)]
    case ChangePass(pass) => map["kind" := Str("command.change_pass"), "password" := Str(pass)]
  }

  function GetStr(o: Object, key: string): Option<string> {
    if key in o && o[key].Str? then Some(o[key].s) else None
  }

  function GetInt(o: Object, key: string): Option<int> {
    if key in o && o[key].Int? && -0x8000_0000 <= o[key].i < 0x8000_0000 then Some(o[key].i) else None
  }

  /** `parse_encoded` on the command kinds; None for an unknown kind or a missing member. */
  function ParseCommand(o: Object): Option<Command> {
    var kind := GetStr(o, "kind");
    if kind == Some("command.get") then
      match GetStr(o, "path") case Some(p) => Some(Get(p)) case None => None
    else if kind == Some("command.post") then
      (match (GetStr(o, "data"), GetStr(o, "dest"), GetInt(o, "size"))
       case (Some(data), Some(dest), Some(size)) => Some(Post(dest, data, ToSize(size)))
       case _ => None)
    else if kind == Some("command.login") then
      (match (GetStr(o, "username"), GetStr(o, "password"))
       case (Some(n), Some(p)) => Some(Login(n, p))
       case _ => None)
    else if kind == Some("command.logout") then Some(Logout)
    else if kind == Some("command.new_user") then
      (match (GetStr(o, "username"), GetStr(o, "password"), GetInt(o, "is_admin"))
       case (Some(n), Some(p), Some(a)) => Some(NewUser(n, p, a % 256 != 0))
       case _ => None)
    else if kind == Some("command.change_pass") then
      (match GetStr(o, "password") case Some(p) => Some(ChangePass(p)) case None => None)
    else None
  }

  predicate HasStr(o: Object, key: string, s: string) {
    key in o && o[key] == Str(s)
  }

  predicate HasInt(o: Object, key: string, i: int) {
    key in o && o[key] == Int(i) && -0x8000_0000 <= i < 0x8000_0000
  }

  /** Any object, whatever else it holds, is a request exactly when it has the members of
      one, each under its own name. */
  lemma ParseExact(o: Object, c: Command)
    ensures ParseCommand(o) == Some(c) <==>
      match c
      case Get(alias) => HasStr(o, "kind", "command.get") && HasStr(o, "path", alias)
      case Post(alias, data, size) =>
        && HasStr(o, "kind", "command.post") && HasStr(o, "data", data) && HasStr(o, "dest", alias)
        && exists i :: HasInt(o, "size", i) && size == ToSize(i)
      case Login(name, pass) =>
        HasStr(o, "kind", "command.login") && HasStr(o, "username", name) && HasStr(o, "password", pass)
      case Logout => HasStr(o, "kind", "command.logout")
      case NewUser(name, pass, admin) =>
        && HasStr(o, "kind", "command.new_user") && HasStr(o, "username", name) && HasStr(o, "password", pass)
        && exists i :: HasInt(o, "is_admin", i) && (admin <==> i % 256 != 0)
      case ChangePass(pass) => HasStr(o, "kind", "command.change_pass") && HasStr(o, "password", pass)
  {
    KindsDiffer();
    if c.Post? && GetInt(o, "size").Some? {
      assert HasInt(o, "size", GetInt(o, "size").value);
    }
    if c.NewUser? && GetInt(o, "is_admin").Some? {
      assert HasInt(o, "is_admin", GetInt(o, "is_admin").value);
    }
  }

  lemma KindsDiffer()
    ensures "command.get" != "command.post" && "command.get" != "command.login" && "command.get" != "command.logout"
    ensures "command.get" != "command.new_user" && "command.get" != "command.change_pass"
    ensures "command.post" != "command.login" && "command.post" != "command.logout"
    ensures "command.post" != "command.new_user" && "command.post" != "command.change_pass"
    ensures "command.login" != "command.logout" && "command.login" != "command.new_user"
    ensures "command.login" != "command.change_pass" && "command.logout" != "command.new_user"
    ensures "command.logout" != "command.change_pass" && "command.new_user" != "command.change_pass"
  {
    assert |"command.get"| == 11 && |"command.post"| == 12 && |"command.login"| == 13 && |"command.logout"| == 14;
    assert |"command.new_user"| == 16 && |"command.change_pass"| == 19;
  }

  /** Sizes that an `int` carries: those below its limit, and those a negative
      `int` widens back to. */
  predicate Carried(size: nat) {
    size < 0x8000_0000 || 0x1_0000_0000_0000_0000 - 0x8000_0000 <= size < 0x1_0000_0000_0000_0000
  }

  lemma CarriedExact(size: nat)
    ensures ToSize(Wrap32(size)) == size <==> Carried(size)
  {
  }

  /** A request survives exactly when its size fits a C int. */
  lemma CommandRoundTrip(c: Command)
    ensures ParseCommand(StringifyCommand(c)) == Some(c) <==> (c.Post? ==> Carried(c.size))
  {
  }

  // --------------------------------------------------------------------- replies

  /** `stringify_data` */
  function StringifyData(value: string, size: nat): Object {
    map["kind" := Str("data"), "value" := Str(value), "size" := Int(Wrap32(size))]
  }

  /** The text of a data message; its size is not read back. */
  function ParseData(o: Object): Option<string> {
    if GetStr(o, "kind") == Some("data") then GetStr(o, "value") else None
  }

  /** What a reply says to the client. */
  function ReplyValue(r: Reply): (string, nat) {
    match r
    case Said(n) => Wording(n)
    case File(code, size) => (code, size)
    case Crash => ("", 0)
  }

  function StringifyReply(r: Reply): Object {
    StringifyData(ReplyValue(r).0, ReplyValue(r).1)
  }

  lemma ReplyRoundTrip(r: Reply)
    ensures ParseData(StringifyReply(r)) == Some(ReplyValue(r).0)
  {
  }
}
