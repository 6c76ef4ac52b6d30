/** A request and its reply as bytes: message object, JSON text, frame, channel, and
    back; and a file posted and fetched over them. */
module Exchange {
  import opened Text
  import opened FileCoding
  import opened Session
  import opened FileStore
  import opened Message
  import opened Framing

  datatype Channels = Channels(request: string, response: string)

  const QUIET := Channels("", "")

  function SendText(k: Codec, o: Object, raw: nat): string {
    Frame(GenBoundary(raw), k.write(o))
  }

  /** The worker receives one message, runs it, and replies. */
  function ServerTurn(k: Codec, w: World, ch: Channels, raw: nat): Option<(World, Channels)> {
    match Receive(ch.request)
    case Got(text, rest) =>
      (match k.read(text)
       case None => None
       case Some(o) =>
         match ParseCommand(o)
         case None => None
         case Some(c) =>
           if !Valid(c) then None
           else
             var (w', reply) := Step(w, c);
             if reply == Crash then None
             else Some((w', Channels(rest, ch.response + SendText(k, StringifyReply(reply), raw)))))
    case _ => None
  }

  /** The client reads one reply. */
  function ClientTurn(k: Codec, ch: Channels): Option<(string, Channels)> {
    match Receive(ch.response)
    case Got(text, rest) =>
      (match k.read(text)
       case None => None
       case Some(o) =>
         match ParseData(o) case None => None case Some(value) => Some((value, ch.(response := rest))))
    case _ => None
  }

  /** A command sent, run and answered: the new world, the channels, and the text
      the client was given. */
  function Round(k: Codec, w: World, ch: Channels, c: Command, raw1: nat, raw2: nat)
    : Option<(World, Channels, string)>
  {
    match ServerTurn(k, w, ch.(request := ch.request + SendText(k, StringifyCommand(c), raw1)), raw2)
    case None => None
    case Some((w', ch1)) =>
      match ClientTurn(k, ch1) case None => None case Some((value, ch2)) => Some((w', ch2, value))
  }

  /** Both frames of a round fit and survive framing. */
  ghost predicate FramesFit(k: Codec, w: World, c: Command, raw1: nat, raw2: nat)
    requires Valid(c)
  {
    && Sendable(GenBoundary(raw1), k.write(StringifyCommand(c)))
    && Sendable(GenBoundary(raw2), k.write(StringifyReply(Step(w, c).1)))
  }

  /** Whatever else is in the channels: one request is taken, and one reply added. */
  lemma ServerTurnExact(k: Codec, w: World, c: Command, raw1: nat, raw2: nat, rest: string, sent: string)
    requires GoodCodec(k) && Valid(c) && (c.Post? ==> Carried(c.size))
    requires Sendable(GenBoundary(raw1), k.write(StringifyCommand(c))) && Step(w, c).1 != Crash
    ensures ServerTurn(k, w, Channels(SendText(k, StringifyCommand(c), raw1) + rest, sent), raw2) ==
      Some((Step(w, c).0, Channels(rest, sent + SendText(k, StringifyReply(Step(w, c).1), raw2))))
  {
    ReceiveFrame(GenBoundary(raw1), k.write(StringifyCommand(c)), rest);
    CommandRoundTrip(c);
  }

  lemma ClientTurnExact(k: Codec, r: Reply, raw: nat, request: string, rest: string)
    requires GoodCodec(k) && Sendable(GenBoundary(raw), k.write(StringifyReply(r)))
    ensures ClientTurn(k, Channels(request, SendText(k, StringifyReply(r), raw) + rest)) ==
      Some((ReplyValue(r).0, Channels(request, rest)))
  {
    ReceiveFrame(GenBoundary(raw), k.write(StringifyReply(r)), rest);
    ReplyRoundTrip(r);
  }

  /** From quiet channels every command gets exactly its own reply, and the channels
      are quiet again. */
  lemma RoundExact(k: Codec, w: World, c: Command, raw1: nat, raw2: nat)
    requires GoodCodec(k) && Valid(c) && (c.Post? ==> Carried(c.size)) && FramesFit(k, w, c, raw1, raw2)
    requires Step(w, c).1 != Crash
    ensures Round(k, w, QUIET, c, raw1, raw2) == Some((Step(w, c).0, QUIET, ReplyValue(Step(w, c).1).0))
  {
    ServerTurnExact(k, w, c, raw1, raw2, "", "");
    ClientTurnExact(k, Step(w, c).1, raw2, "", "");
    var frame := SendText(k, StringifyCommand(c), raw1);
    assert "" + frame == frame + "" == frame;
    var answer := SendText(k, StringifyReply(Step(w, c).1), raw2);
    assert "" + answer == answer + "" == answer;
  }

  // ------------------------------------------------------- what the client is told

  /** A command that can be carried and answered in a round. */
  ghost predicate Roundable(k: Codec, w: World, c: Command, raw1: nat, raw2: nat) {
    && GoodCodec(k) && Valid(c) && (c.Post? ==> Carried(c.size)) && FramesFit(k, w, c, raw1, raw2)
    && Step(w, c).1 != Crash
  }

  /** The text of a round, as the client gets it from its frame. */
  function Told(k: Codec, w: World, c: Command, raw1: nat, raw2: nat): string {
    match Round(k, w, QUIET, c, raw1, raw2)
    case None => ""
    case Some((_, _, text)) => text
  }

  lemma RoundTold(k: Codec, w: World, c: Command, raw1: nat, raw2: nat)
    requires Roundable(k, w, c, raw1, raw2)
    ensures Told(k, w, c, raw1, raw2) == ReplyValue(Step(w, c).1).0
  {
    RoundExact(k, w, c, raw1, raw2);
  }

  predicate Listed(w: World, alias: string, home: string) {
    exists i :: 0 <= i < |w.files| && IsFile(w.files[i], alias, home)
  }

  lemma ListedFound(w: World, alias: string, home: string)
    ensures Listed(w, alias, home) <==> FindPath(w.files, alias, home).Some?
  {
    var r := FindPath(w.files, alias, home);
    if r.Some? {
      var i :| FirstFile(w.files, alias, home, i) && w.files[i].path == r.value;
      assert IsFile(w.files[i], alias, home);
    }
  }

  /** A text that decodes to the contents of a file. */
  predicate IsCode(text: string, tree: map<string, seq<byte>>, file: string) {
    file in tree && |text| % 3 == 0 && Decode(text) == tree[file]
  }

  lemma LoginSays(w: World, name: string, pass: string)
    requires Valid(Login(name, pass))
    ensures ReplyValue(Step(w, Login(name, pass)).1).0 ==
      if w.user.Some? then "You are already logged in"
      else if exists u :: u in w.users && HasLogin(u, name, pass) then "Logged in successfully"
      else "Login failed"
  {
    RowFound(w.users, name, pass);
  }

  lemma RowFound(users: seq<UserRow>, name: string, pass: string)
    ensures FindLogin(users, name, pass).Some? <==> exists u :: u in users && HasLogin(u, name, pass)
  {
    var found := FindLogin(users, name, pass);
    if found.Some? {
      var i :| FirstLogin(users, name, pass, i) && users[i] == found.value;
      assert users[i] in users && HasLogin(users[i], name, pass);
    }
  }

  lemma PostSays(w: World, c: Command)
    requires c.Post? && Valid(c) && w.user.Some?
    ensures ReplyValue(Step(w, c).1).0 == if Listed(w, c.alias, w.user.value.home) then "FILE EXISTS" else "File OK"
  {
    ListedFound(w, c.alias, w.user.value.home);
  }

  lemma NewUserSays(w: World, c: Command)
    requires c.NewUser? && Valid(c) && w.user.Some?
    ensures ReplyValue(Step(w, c).1).0 ==
      if !w.user.value.admin then "HAVE NOT PERMISION"
      else if Found(w.users, c.name) then "User already exists"
      else "User registered"
  {
  }

  lemma GetSays(w: World, alias: string)
    requires Name(alias) && w.user.Some? && Step(w, Get(alias)).1 != Crash
    ensures var text := ReplyValue(Step(w, Get(alias)).1).0;
      var home := w.user.value.home;
      if !Listed(w, alias, home) then text == "FILE IS NOT IN DB"
      else exists i :: FirstFile(w.files, alias, home, i) && IsCode(text, w.tree, Squeeze("." + w.files[i].path))
  {
    ListedFound(w, alias, w.user.value.home);
    var r := FindPath(w.files, alias, w.user.value.home);
    if r.Some? {
      DecodeEncode(w.tree[Squeeze("." + r.value)]);
    }
  }

  /** Without a session a login is told apart by the rows alone; with one it is refused. */
  lemma LoginTold(k: Codec, w: World, name: string, pass: string, raw1: nat, raw2: nat)
    requires Roundable(k, w, Login(name, pass), raw1, raw2)
    ensures Told(k, w, Login(name, pass), raw1, raw2) ==
      if w.user.Some? then "You are already logged in"
      else if exists u :: u in w.users && HasLogin(u, name, pass) then "Logged in successfully"
      else "Login failed"
  {
    RoundTold(k, w, Login(name, pass), raw1, raw2);
    LoginSays(w, name, pass);
  }

  /** Every other command needs a session. */
  lemma StrangerTold(k: Codec, w: World, c: Command, raw1: nat, raw2: nat)
    requires Roundable(k, w, c, raw1, raw2) && !c.Login? && w.user == None
    ensures Told(k, w, c, raw1, raw2) == "NOT logged"
  {
    RoundTold(k, w, c, raw1, raw2);
  }

  lemma LogoutTold(k: Codec, w: World, raw1: nat, raw2: nat)
    requires Roundable(k, w, Logout, raw1, raw2) && w.user.Some?
    ensures Told(k, w, Logout, raw1, raw2) == "Log out successful"
  {
    RoundTold(k, w, Logout, raw1, raw2);
  }

  /** A get: the code of the file of the first row that matches, or that there is none. */
  lemma GetTold(k: Codec, w: World, alias: string, raw1: nat, raw2: nat)
    requires Roundable(k, w, Get(alias), raw1, raw2) && w.user.Some?
    ensures var text := Told(k, w, Get(alias), raw1, raw2);
      var home := w.user.value.home;
      if !Listed(w, alias, home) then text == "FILE IS NOT IN DB"
      else exists i :: FirstFile(w.files, alias, home, i) && IsCode(text, w.tree, Squeeze("." + w.files[i].path))
  {
    RoundTold(k, w, Get(alias), raw1, raw2);
    GetSays(w, alias);
  }

  lemma PostTold(k: Codec, w: World, c: Command, raw1: nat, raw2: nat)
    requires c.Post? && Roundable(k, w, c, raw1, raw2) && w.user.Some?
    ensures Told(k, w, c, raw1, raw2) == if Listed(w, c.alias, w.user.value.home) then "FILE EXISTS" else "File OK"
  {
    RoundTold(k, w, c, raw1, raw2);
    PostSays(w, c);
  }

  lemma NewUserTold(k: Codec, w: World, c: Command, raw1: nat, raw2: nat)
    requires c.NewUser? && Roundable(k, w, c, raw1, raw2) && w.user.Some?
    ensures Told(k, w, c, raw1, raw2) ==
      if !w.user.value.admin then "HAVE NOT PERMISION"
      else if Found(w.users, c.name) then "User already exists"
      else "User registered"
  {
    RoundTold(k, w, c, raw1, raw2);
    NewUserSays(w, c);
  }

  lemma ChangePassTold(k: Codec, w: World, pass: string, raw1: nat, raw2: nat)
    requires Roundable(k, w, ChangePass(pass), raw1, raw2) && w.user.Some?
    ensures Told(k, w, ChangePass(pass), raw1, raw2) == "PASSWORD UPDATED"
  {
    RoundTold(k, w, ChangePass(pass), raw1, raw2);
  }

  // --------------------------------------------------------------- whole sessions

  /** A whole session, one round after the other. */
  function Rounds(k: Codec, w: World, ch: Channels, cs: seq<Command>, raws: seq<(nat, nat)>)
    : Option<(World, Channels, seq<string>)>
    requires |raws| == |cs|
    decreases |cs|
  {
    if cs == [] then Some((w, ch, []))
    else
      match Round(k, w, ch, cs[0], raws[0].0, raws[0].1)
      case None => None
      case Some((w1, ch1, value)) =>
        match Rounds(k, w1, ch1, cs[1..], raws[1..])
        case None => None
        case Some((w2, ch2, values)) => Some((w2, ch2, [value] + values))
  }

  /** Every command of the session is carried, and every frame fits. */
  ghost predicate SessionFits(k: Codec, w: World, cs: seq<Command>, raws: seq<(nat, nat)>)
    requires AllValid(cs) && |raws| == |cs|
    decreases |cs|
  {
    cs != [] ==>
      && (cs[0].Post? ==> Carried(cs[0].size)) && FramesFit(k, w, cs[0], raws[0].0, raws[0].1)
      && SessionFits(k, Step(w, cs[0]).0, cs[1..], raws[1..])
  }

  function Texts(rs: seq<Reply>): (ts: seq<string>)
    ensures |ts| == |rs|
  {
    seq(|rs|, i requires 0 <= i < |rs| => ReplyValue(rs[i]).0)
  }

  lemma RoundsCons(k: Codec, w: World, cs: seq<Command>, raws: seq<(nat, nat)>,
                   w1: World, value: string, w2: World, values: seq<string>)
    requires cs != [] && |raws| == |cs|
    requires Round(k, w, QUIET, cs[0], raws[0].0, raws[0].1) == Some((w1, QUIET, value))
    requires Rounds(k, w1, QUIET, cs[1..], raws[1..]) == Some((w2, QUIET, values))
    ensures Rounds(k, w, QUIET, cs, raws) == Some((w2, QUIET, [value] + values))
  {
  }

  lemma TextsCons(w: World, cs: seq<Command>)
    requires AllValid(cs) && cs != []
    ensures var (w1, reply) := Step(w, cs[0]);
      && Exec(w, cs) == Exec(w1, cs[1..])
      && Texts(Replies(w, cs)) == [ReplyValue(reply).0] + Texts(Replies(w1, cs[1..]))
  {
  }

  /** Over a whole session that crashes nothing, as bytes, every command gets its own
      reply, the worker ends in the state of the commands run one by one, and the
      channels are quiet. */
  lemma {:induction false} SessionExact(k: Codec, w: World, cs: seq<Command>, raws: seq<(nat, nat)>)
    requires GoodCodec(k) && AllValid(cs) && |raws| == |cs| && SessionFits(k, w, cs, raws)
    requires Crash !in Replies(w, cs)
    ensures Rounds(k, w, QUIET, cs, raws) == Some((Exec(w, cs), QUIET, Texts(Replies(w, cs))))
    decreases |cs|
  {
    if cs != [] {
      var (w1, reply) := Step(w, cs[0]);
      NoCrashFirst(w, cs);
      RoundExact(k, w, cs[0], raws[0].0, raws[0].1);
      SessionExact(k, w1, cs[1..], raws[1..]);
      TextsCons(w, cs);
      RoundsCons(k, w, cs, raws, w1, ReplyValue(reply).0, Exec(w1, cs[1..]), Texts(Replies(w1, cs[1..])));
    }
  }

  /** The texts of a session, in their order. */
  function SessionTexts(k: Codec, w: World, cs: seq<Command>, raws: seq<(nat, nat)>): seq<string>
    requires |raws| == |cs|
  {
    match Rounds(k, w, QUIET, cs, raws)
    case None => []
    case Some((_, _, texts)) => texts
  }

  lemma SessionTail(k: Codec, w: World, cs: seq<Command>, raws: seq<(nat, nat)>)
    requires GoodCodec(k) && AllValid(cs) && |raws| == |cs| && SessionFits(k, w, cs, raws)
    requires Crash !in Replies(w, cs) && cs != []
    ensures Roundable(k, w, cs[0], raws[0].0, raws[0].1)
    ensures SessionTexts(k, w, cs, raws) ==
      [Told(k, w, cs[0], raws[0].0, raws[0].1)] + SessionTexts(k, Step(w, cs[0]).0, cs[1..], raws[1..])
  {
    NoCrashFirst(w, cs);
    RoundTold(k, w, cs[0], raws[0].0, raws[0].1);
    SessionExact(k, w, cs, raws);
    SessionExact(k, Step(w, cs[0]).0, cs[1..], raws[1..]);
    TextsCons(w, cs);
  }

  lemma SessionRest(k: Codec, w: World, cs: seq<Command>, raws: seq<(nat, nat)>)
    requires AllValid(cs) && |raws| == |cs| && SessionFits(k, w, cs, raws) && Crash !in Replies(w, cs) && cs != []
    ensures SessionFits(k, Step(w, cs[0]).0, cs[1..], raws[1..]) && Crash !in Replies(Step(w, cs[0]).0, cs[1..])
  {
    NoCrashFirst(w, cs);
  }

  lemma ExecTake(w: World, cs: seq<Command>, i: nat)
    requires AllValid(cs) && 0 < i <= |cs|
    ensures Exec(w, cs[..i]) == Exec(Step(w, cs[0]).0, cs[1..][..i - 1])
  {
    assert cs[..i][1..] == cs[1..][..i - 1];
  }

  /** Every text of a session is the one of a round from the state that the commands
      before it lead to, so all of the above holds of it. */
  lemma {:induction false} SessionTold(k: Codec, w: World, cs: seq<Command>, raws: seq<(nat, nat)>, i: nat)
    requires GoodCodec(k) && AllValid(cs) && |raws| == |cs| && SessionFits(k, w, cs, raws)
    requires Crash !in Replies(w, cs) && i < |cs|
    ensures var before := Exec(w, cs[..i]);
      && Roundable(k, before, cs[i], raws[i].0, raws[i].1)
      && i < |SessionTexts(k, w, cs, raws)|
      && SessionTexts(k, w, cs, raws)[i] == Told(k, before, cs[i], raws[i].0, raws[i].1)
    decreases |cs|
  {
    SessionTail(k, w, cs, raws);
    if i > 0 {
      var w1, rest := Step(w, cs[0]).0, SessionTexts(k, Step(w, cs[0]).0, cs[1..], raws[1..]);
      SessionRest(k, w, cs, raws);
      SessionTold(k, w1, cs[1..], raws[1..], i - 1);
      ExecTake(w, cs, i);
      assert cs[1..][i - 1] == cs[i] && raws[1..][i - 1] == raws[i];
      assert SessionTexts(k, w, cs, raws)[i] == rest[i - 1];
    } else {
      assert Exec(w, cs[..0]) == w;
    }
  }

  lemma NoCrashFirst(w: World, cs: seq<Command>)
    requires AllValid(cs) && cs != [] && Crash !in Replies(w, cs)
    ensures Step(w, cs[0]).1 != Crash && Crash !in Replies(Step(w, cs[0]).0, cs[1..])
  {
    var rs := Replies(w, cs);
    assert rs[0] == Step(w, cs[0]).1 && rs[0] in rs;
    assert rs[1..] == Replies(Step(w, cs[0]).0, cs[1..]);
  }

  /** The post that the client sends for a file. */
  function PostOf(alias: string, bytes: seq<byte>): Command {
    Post(alias, Encode(bytes), |bytes|)
  }

  lemma PostValid(alias: string, bytes: seq<byte>)
    requires Name(alias)
    ensures var c := PostOf(alias, bytes);
      Valid(c) && c.Post? && c.alias == alias && c.data == Encode(bytes) && c.size == |bytes|
      && Decode(c.data)[..c.size] == bytes
  {
    DecodeEncode(bytes);
    EncodeDigits(bytes);
  }

  /** A session: a post, anything, a get. */
  function Fetching(alias: string, bytes: seq<byte>, cs: seq<Command>): seq<Command> {
    [PostOf(alias, bytes)] + cs + [Get(alias)]
  }

  lemma {:induction false} LastReply(w: World, cs: seq<Command>, c: Command)
    requires AllValid(cs) && Valid(c)
    ensures AllValid(cs + [c]) && Replies(w, cs + [c])[|cs|] == Step(Exec(w, cs), c).1
    decreases |cs|
  {
    var all := cs + [c];
    if cs == [] {
      assert all == [c];
    } else {
      assert all[0] == cs[0] && all[1..] == cs[1..] + [c];
      LastReply(Step(w, cs[0]).0, cs[1..], c);
    }
  }

  /** What the worker replies at the two ends of such a session. */
  lemma FetchingReplies(w: World, alias: string, bytes: seq<byte>, cs: seq<Command>)
    requires Placed(w) && Name(alias) && Findable(alias) && AllValid(cs) && Valid(PostOf(alias, bytes))
    requires PostDone(w, PostOf(alias, bytes)) && Writable(w, w.user.value.home, alias)
    requires SameHome(w, Exec(Step(w, PostOf(alias, bytes)).0, cs))
    ensures var all := Fetching(alias, bytes, cs);
      && AllValid(all) && Replies(w, all)[0] == Said(FileOk)
      && Replies(w, all)[|all| - 1] == File(Encode(bytes), |bytes|)
  {
    var c, all := PostOf(alias, bytes), Fetching(alias, bytes, cs);
    PostValid(alias, bytes);
    PostThenGet(w, c, cs);
    var first := [c] + cs;
    assert all == first + [Get(alias)] && first[0] == c && first[1..] == cs;
    LastReply(w, first, Get(alias));
    assert all[0] == c;
  }

  lemma FetchingTexts(w: World, alias: string, bytes: seq<byte>, cs: seq<Command>)
    requires Placed(w) && Name(alias) && Findable(alias) && AllValid(cs) && Valid(PostOf(alias, bytes))
    requires PostDone(w, PostOf(alias, bytes)) && Writable(w, w.user.value.home, alias)
    requires SameHome(w, Exec(Step(w, PostOf(alias, bytes)).0, cs))
    ensures var all := Fetching(alias, bytes, cs);
      && AllValid(all)
      && Texts(Replies(w, all))[0] == "File OK" && Texts(Replies(w, all))[|all| - 1] == Encode(bytes)
  {
    FetchingReplies(w, alias, bytes, cs);
  }

  /** A file posted comes back byte for byte to the client that asks for it in a session
      with the same home, after any commands in between, for every byte sequence whose
      frames fit: what the get hands the client decodes to the bytes.  The alias must
      be one that a post can be found under, and the file must be one that can be
      written (`FileStore.PostThenGetExact`). */
  lemma FileRoundTrip(k: Codec, w: World, alias: string, bytes: seq<byte>, cs: seq<Command>, raws: seq<(nat, nat)>)
    requires GoodCodec(k) && Placed(w) && Name(alias) && Findable(alias) && AllValid(cs)
    requires Valid(PostOf(alias, bytes)) && PostDone(w, PostOf(alias, bytes))
    requires Writable(w, w.user.value.home, alias) && SameHome(w, Exec(Step(w, PostOf(alias, bytes)).0, cs))
    requires var all := Fetching(alias, bytes, cs);
      AllValid(all) && |raws| == |all| && SessionFits(k, w, all, raws) && Crash !in Replies(w, all)
    ensures var all := Fetching(alias, bytes, cs);
      var texts := Texts(Replies(w, all));
      && Rounds(k, w, QUIET, all, raws) == Some((Exec(w, all), QUIET, texts))
      && texts[0] == "File OK" && texts[|all| - 1] == Encode(bytes)
    ensures Decode(Encode(bytes)) == bytes
  {
    FetchingTexts(w, alias, bytes, cs);
    SessionExact(k, w, Fetching(alias, bytes, cs), raws);
    DecodeEncode(bytes);
  }

  /** The code text of a file never holds a boundary: it is all digits. */
  lemma CodeHoldsNoBoundary(bytes: seq<byte>, b: string, k: nat)
    requires IsBoundary(b)
    ensures !OccursAt(b, Encode(bytes), k)
  {
    EncodeDigits(bytes);
    var text := Encode(bytes);
    assert k + |b| <= |text| ==> text[k..k + |b|][|b| - 1] == text[k + |b| - 1];
  }
}
