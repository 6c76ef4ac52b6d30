/** The interactive client (client/commands.c) against one worker: which commands
    are sent, and when its `logged` flag tells the truth. */
module Client {
  import opened Text
  import opened FileCoding
  import opened Session
  import Message
  import ThreadTable

  /** Shell commands that expect a reply; get is taken to wait for its answer. */
  datatype Shell =
    | ShLogin(name: string, pass: string)
    | ShLogout
    | ShGet(alias: string)
    | ShPost(alias: string, bytes: seq<byte>)
    | ShNewUser(name: string, admin: bool, pass: string)
    | ShChPass(pass: string)

  function Request(sh: Shell): (c: Command)
    ensures Proper(sh) ==> Valid(c)
  {
    match sh
    case ShLogin(n, p) => Login(n, p)
    case ShLogout => Logout
    case ShGet(a) => Get(a)
    case ShPost(a, bytes) =>
      EncodeDigits(bytes);
      Post(a, Encode(bytes), |bytes|)
    case ShNewUser(n, admin, p) => NewUser(n, p, admin)
    case ShChPass(p) => ChangePass(p)
  }

  /** Names of letters and digits, and texts that stay inside their quotes. */
  predicate Proper(sh: Shell) {
    match sh
    case ShGet(a) => Name(a)
    case ShPost(a, _) => Name(a)
    case ShNewUser(n, _, p) => Name(n) && Clean(p)
    case ShLogin(n, p) => Clean(n) && Clean(p)
    case ShChPass(p) => Clean(p)
    case ShLogout => true
  }

  /** Only login is open to a client that is not logged in, and only to it. */
  predicate Allowed(logged: bool, sh: Shell) {
    sh.ShLogin? <==> !logged
  }

  /** The client's flag, the worker's state, how many requests the worker will
      still take on, and what ended it: a request it refused, or a crash. */
  datatype Sys = Sys(logged: bool, world: World, slots: nat, refused: Option<Command>, crashed: bool)

  predicate Live(s: Sys) {
    s.refused == None && !s.crashed
  }

  datatype Answer = NotSent | Answered(reply: Reply) | MaxedCapacity | NoAnswer

  /** A request sent and its reply received. */
  function Transact(s: Sys, c: Command): (Sys, Answer)
    requires Valid(c)
  {
    if s.refused.Some? || s.crashed then (s, NoAnswer)
    else if s.slots == 0 then (s.(refused := Some(c)), MaxedCapacity)
    else
      var (w, reply) := Step(s.world, c);
      var s1 := s.(world := w, slots := s.slots - 1);
      if reply == Crash then (s1.(crashed := true), NoAnswer) else (s1, Answered(reply))
  }

  lemma TransactTaken(s: Sys, c: Command)
    requires Valid(c) && Live(s) && s.slots > 0
    ensures var (w, reply) := Step(s.world, c);
      Transact(s, c) ==
        (Sys(s.logged, w, s.slots - 1, None, reply == Crash), if reply == Crash then NoAnswer else Answered(reply))
  {
  }

  /** The text the client receives. */
  function Heard(a: Answer): Option<string> {
    match a
    case Answered(reply) => Some(Message.ReplyValue(reply).0)
    case MaxedCapacity => Some("Server maxed capacity")
    case NotSent => None
    case NoAnswer => None
  }

  const FAILED := "Login failed"

  /** The flag after an answer: of all texts only one keeps a login out, so a refusal
      counts as a success. */
  function Flag(sh: Shell, logged: bool, a: Answer): bool {
    if Heard(a) == None then logged
    else if sh.ShLogin? then Heard(a).value != FAILED
    else if sh.ShLogout? then false
    else logged
  }

  /** That text is the reply to a login exactly when no row matches. */
  lemma FailedText(w: World, name: string, pass: string)
    requires Clean(name) && Clean(pass)
    ensures Message.ReplyValue(Step(w, Login(name, pass)).1).0 == FAILED
      <==> w.user == None && forall u :: u in w.users ==> !HasLogin(u, name, pass)
  {
    assert |Wording(LoggedIn).0| != |FAILED| && |Wording(AlreadyIn).0| != |FAILED|;
    var found := FindLogin(w.users, name, pass);
    if found.Some? {
      var k :| FirstLogin(w.users, name, pass, k) && w.users[k] == found.value;
      assert w.users[k] in w.users && HasLogin(w.users[k], name, pass);
    }
  }

  /** One shell command, up to its reply. */
  function Do(s: Sys, sh: Shell): (Sys, Answer)
    requires Proper(sh)
  {
    if !Allowed(s.logged, sh) then (s, NotSent)
    else
      var (s1, a) := Transact(s, Request(sh));
      (s1.(logged := Flag(sh, s.logged, a)), a)
  }

  ghost predicate AllProper(shs: seq<Shell>) {
    forall sh :: sh in shs ==> Proper(sh)
  }

  function Use(s: Sys, shs: seq<Shell>): Sys
    requires AllProper(shs)
    decreases |shs|
  {
    if shs == [] then s else Use(Do(s, shs[0]).0, shs[1..])
  }

  function Answers(s: Sys, shs: seq<Shell>): (r: seq<Answer>)
    requires AllProper(shs)
    ensures |r| == |shs|
    decreases |shs|
  {
    if shs == [] then [] else [Do(s, shs[0]).1] + Answers(Do(s, shs[0]).0, shs[1..])
  }

  predicate Agree(s: Sys) {
    s.logged <==> s.world.user.Some?
  }

  predicate Misled(s: Sys) {
    s.refused.Some? && (s.refused.value.Login? || s.refused.value.Logout?)
  }

  ghost predicate Consistent(s: Sys) {
    Agree(s) <==> !Misled(s)
  }

  lemma DoConsistent(s: Sys, sh: Shell)
    requires Proper(sh) && Consistent(s)
    ensures Consistent(Do(s, sh).0)
  {
    if sh.ShLogin? {
      FailedText(s.world, sh.name, sh.pass);
      assert |Heard(MaxedCapacity).value| != |FAILED|;
    }
  }

  /** At every quiescent point of every session the client believes it is logged in
      exactly when the worker has a user, unless the request the worker refused for
      lack of capacity was a login or a logout; then exactly the opposite holds. */
  lemma {:induction false} AgreementExact(s: Sys, shs: seq<Shell>)
    requires AllProper(shs) && Consistent(s)
    ensures var e := Use(s, shs); Agree(e) <==> !Misled(e)
    decreases |shs|
  {
    if shs != [] {
      assert shs[0] in shs;
      DoConsistent(s, shs[0]);
      AgreementExact(Do(s, shs[0]).0, shs[1..]);
    }
  }

  function CountAnswered(r: seq<Answer>): nat {
    if r == [] then 0 else (if r[0].Answered? then 1 else 0) + CountAnswered(r[1..])
  }

  function CountSent(r: seq<Answer>): nat {
    if r == [] then 0 else (if r[0] != NotSent then 1 else 0) + CountSent(r[1..])
  }

  lemma {:induction false} CrashedStays(s: Sys, shs: seq<Shell>)
    requires AllProper(shs) && s.crashed
    ensures Use(s, shs).crashed && Use(s, shs).refused == s.refused
    decreases |shs|
  {
    if shs != [] {
      assert shs[0] in shs;
      CrashedStays(Do(s, shs[0]).0, shs[1..]);
    }
  }

  lemma {:induction false} RefusedStays(s: Sys, shs: seq<Shell>)
    requires AllProper(shs) && s.refused.Some?
    ensures var e := Use(s, shs);
      e.refused == s.refused && e.slots == s.slots && e.crashed == s.crashed && CountAnswered(Answers(s, shs)) == 0
    decreases |shs|
  {
    if shs != [] {
      assert shs[0] in shs;
      RefusedStays(Do(s, shs[0]).0, shs[1..]);
      assert Answers(s, shs)[1..] == Answers(Do(s, shs[0]).0, shs[1..]);
    }
  }

  /** While no command crashes the worker, answers and free slots make up the slots
      there were, and a request is refused exactly when more are sent than that. */
  lemma {:induction false} AnswersExact(s: Sys, shs: seq<Shell>)
    requires AllProper(shs) && Live(s) && !Use(s, shs).crashed
    ensures var e := Use(s, shs);
      && CountAnswered(Answers(s, shs)) + e.slots == s.slots
      && (e.refused.Some? <==> CountSent(Answers(s, shs)) > s.slots)
    decreases |shs|
  {
    if shs != [] {
      assert shs[0] in shs;
      var s1 := Do(s, shs[0]).0;
      assert Answers(s, shs)[1..] == Answers(s1, shs[1..]);
      if s1.crashed {
        CrashedStays(s1, shs[1..]);
      } else if s1.refused.Some? {
        RefusedStays(s1, shs[1..]);
      } else {
        AnswersExact(s1, shs[1..]);
      }
    }
  }

  /** A new connection to a worker configured with min and max threads. */
  function Connected(w: World, min: nat, max: nat): Sys
    requires min >= 1
  {
    Sys(false, w, ThreadTable.Capacity(min, max), None, false)
  }

  /** As long as no more commands are given than the worker has slots, flag and
      session agree and every command sent is answered: a stocked world crashes none. */
  lemma FirstRequestsAnswered(w: World, min: nat, max: nat, shs: seq<Shell>)
    requires min >= 1 && AllProper(shs) && Stocked(w) && w.user == None && |shs| <= ThreadTable.Capacity(min, max)
    ensures var s := Connected(w, min, max);
      Agree(Use(s, shs)) && forall i :: 0 <= i < |shs| ==> Answers(s, shs)[i].Answered? || Answers(s, shs)[i].NotSent?
  {
    NeverRefused(Connected(w, min, max), shs);
    AgreementExact(Connected(w, min, max), shs);
  }

  lemma {:induction false} NeverRefused(s: Sys, shs: seq<Shell>)
    requires AllProper(shs) && Live(s) && Stocked(s.world) && |shs| <= s.slots
    ensures Live(Use(s, shs))
    ensures forall i :: 0 <= i < |shs| ==> Answers(s, shs)[i].Answered? || Answers(s, shs)[i].NotSent?
    decreases |shs|
  {
    if shs != [] {
      assert shs[0] in shs;
      var s1 := Do(s, shs[0]).0;
      StepKeepsStocked(s.world, Request(shs[0]));
      NeverRefused(s1, shs[1..]);
      assert forall i :: 0 < i < |shs| ==> Answers(s, shs)[i] == Answers(s1, shs[1..])[i - 1];
    }
  }

  lemma {:induction false} NeverCrashed(s: Sys, shs: seq<Shell>)
    requires AllProper(shs) && !s.crashed && Stocked(s.world)
    ensures !Use(s, shs).crashed
    decreases |shs|
  {
    if shs != [] {
      assert shs[0] in shs;
      StepKeepsStocked(s.world, Request(shs[0]));
      NeverCrashed(Do(s, shs[0]).0, shs[1..]);
    }
  }

  /** A worker with min and max threads answers exactly the first min * 2^k - 1 requests
      it is sent, for the largest k within max, and refuses the next. */
  lemma ConnectedExact(w: World, min: nat, max: nat, shs: seq<Shell>) returns (k: nat)
    requires min >= 1 && AllProper(shs) && Stocked(w) && w.user == None
    ensures min * ThreadTable.Pow2(k + 1) > max && (k > 0 ==> min * ThreadTable.Pow2(k) <= max)
    ensures var s := Connected(w, min, max);
      var all, sent := min * ThreadTable.Pow2(k) - 1, CountSent(Answers(s, shs));
      && !s.logged && (Use(s, shs).refused.Some? <==> sent > all)
      && CountAnswered(Answers(s, shs)) + Use(s, shs).slots == all
  {
    k := ThreadTable.CapacityExact(min, max);
    NeverCrashed(Connected(w, min, max), shs);
    AnswersExact(Connected(w, min, max), shs);
  }

  /** A login sent one request too late: the client takes the refusal for success. */
  lemma RefusedLoginMisleads(w: World, name: string, pass: string)
    requires w.user == None && Proper(ShLogin(name, pass))
    ensures var (e, a) := Do(Sys(false, w, 0, None, false), ShLogin(name, pass));
      e.logged && e.world.user == None && Heard(a) == Some("Server maxed capacity")
  {
    assert |Heard(MaxedCapacity).value| != |FAILED|;
  }
}
