/** Any number of responder threads in one worker, each running its command and
    sending its reply byte by byte under the worker's lock (server/main.c). */
module Responders {
  import opened Text
  import opened Session
  import opened Framing

  /** Waiting: created, before `pthread_mutex_lock`.  Writing: the command has been
      run and n bytes of its frame are on the reply channel. */
  datatype Thread = Waiting(c: Command) | Writing(frame: string, n: nat) | Finished

  /** One critical section: the command, its reply, and the frame it sends. */
  datatype Entry = Entry(c: Command, reply: Reply, sent: Sent)

  /** A command that crashes ends the whole process. */
  datatype State = State(
    world: World, threads: seq<Thread>, holder: Option<nat>, channel: string, log: seq<Entry>, alive: bool)

  datatype Action = Spawn(c: Command) | Acquire(i: nat, raw: nat) | Write(i: nat) | Release(i: nat)

  /** How replies are turned into message text. */
  type Printer = Reply -> string

  predicate Enabled(s: State, a: Action) {
    s.alive &&
    match a
    case Spawn(c) => Valid(c)
    case Acquire(i, _) => i < |s.threads| && s.threads[i].Waiting? && s.holder == None && Valid(s.threads[i].c)
    case Write(i) => HoldsAt(s, i) && s.threads[i].n < |s.threads[i].frame|
    case Release(i) => HoldsAt(s, i) && s.threads[i].n == |s.threads[i].frame|
  }

  predicate HoldsAt(s: State, i: nat) {
    i < |s.threads| && s.threads[i].Writing? && s.holder == Some(i)
  }

  function Next(render: Printer, s: State, a: Action): State
    requires Enabled(s, a)
  {
    match a
    case Spawn(c) => s.(threads := s.threads + [Waiting(c)])
    case Acquire(i, raw) =>
      var c := s.threads[i].c;
      var (world, reply) := Step(s.world, c);
      var sent := Sent(GenBoundary(raw), render(reply));
      if reply == Crash then s.(alive := false)
      else s.(world := world, holder := Some(i),
         threads := s.threads[i := Writing(Frame(sent.boundary, sent.payload), 0)],
         log := s.log + [Entry(c, reply, sent)])
    case Write(i) =>
      var t := s.threads[i];
      s.(channel := s.channel + [t.frame[t.n]], threads := s.threads[i := t.(n := t.n + 1)])
    case Release(i) => s.(holder := None, threads := s.threads[i := Finished])
  }

  function Start(w: World): State {
    State(w, [], None, "", [], true)
  }

  /** Any schedule; an action that is not enabled blocks, and nothing happens. */
  function Run(render: Printer, w: World, schedule: seq<Action>): State
    decreases |schedule|
  {
    if schedule == [] then Start(w)
    else
      var n := |schedule| - 1;
      var s := Run(render, w, schedule[..n]);
      if Enabled(s, schedule[n]) then Next(render, s, schedule[n]) else s
  }

  // ----------------------------------------------------------------- the invariant

  function Commands(log: seq<Entry>): (cs: seq<Command>)
    ensures |cs| == |log|
  {
    seq(|log|, i requires 0 <= i < |log| => log[i].c)
  }

  function LogReplies(log: seq<Entry>): (rs: seq<Reply>)
    ensures |rs| == |log|
  {
    seq(|log|, i requires 0 <= i < |log| => log[i].reply)
  }

  function Sents(log: seq<Entry>): (ss: seq<Sent>)
    ensures |ss| == |log|
  {
    seq(|log|, i requires 0 <= i < |log| => log[i].sent)
  }

  ghost predicate Threads(s: State) {
    && (forall i :: 0 <= i < |s.threads| && s.threads[i].Waiting? ==> Valid(s.threads[i].c))
    && (forall i :: 0 <= i < |s.threads| && s.threads[i].Writing? ==> s.holder == Some(i))
    && (s.holder.Some? ==> s.holder.value < |s.threads| && s.threads[s.holder.value].Writing?
                           && s.threads[s.holder.value].n <= |s.threads[s.holder.value].frame|)
  }

  /** The channel: whole frames in lock order, then what the holder has written. */
  ghost predicate Channel(s: State) {
    match s.holder
    case None => s.channel == Frames(Sents(s.log))
    case Some(i) =>
      && i < |s.threads| && s.threads[i].Writing? && s.threads[i].n <= |s.threads[i].frame|
      && s.log != []
      && (var last := s.log[|s.log| - 1].sent;
          s.threads[i].frame == Frame(last.boundary, last.payload))
      && s.channel == Frames(Sents(s.log[..|s.log| - 1])) + s.threads[i].frame[..s.threads[i].n]
  }

  /** The world and the replies are those of the commands run one by one in lock order. */
  ghost predicate Sequential(render: Printer, w: World, s: State) {
    && AllValid(Commands(s.log))
    && s.world == Exec(w, Commands(s.log))
    && LogReplies(s.log) == Replies(w, Commands(s.log))
    && (forall i :: 0 <= i < |s.log| ==>
        s.log[i].sent.payload == render(s.log[i].reply) && IsBoundary(s.log[i].sent.boundary))
  }

  ghost predicate Inv(render: Printer, w: World, s: State) {
    Threads(s) && Channel(s) && Sequential(render, w, s)
  }

  lemma {:induction false} ExecSnoc(w: World, cs: seq<Command>, c: Command)
    requires AllValid(cs) && Valid(c)
    ensures AllValid(cs + [c])
    ensures Exec(w, cs + [c]) == Step(Exec(w, cs), c).0
    ensures Replies(w, cs + [c]) == Replies(w, cs) + [Step(Exec(w, cs), c).1]
    decreases |cs|
  {
    var all := cs + [c];
    if cs == [] {
      assert all == [c] && all[1..] == [];
    } else {
      assert all[1..] == cs[1..] + [c] && all[0] == cs[0];
      ExecSnoc(Step(w, cs[0]).0, cs[1..], c);
    }
  }

  lemma SequentialSnoc(render: Printer, w: World, s: State, c: Command, raw: nat)
    requires Sequential(render, w, s) && Valid(c)
    ensures var (world, reply) := Step(s.world, c);
      var e := Entry(c, reply, Sent(GenBoundary(raw), render(reply)));
      Sequential(render, w, s.(world := world, log := s.log + [e]))
  {
    ExecSnoc(w, Commands(s.log), c);
    GeneratedBoundary(raw);
    var (world, reply) := Step(s.world, c);
    var log := s.log + [Entry(c, reply, Sent(GenBoundary(raw), render(reply)))];
    assert Commands(log) == Commands(s.log) + [c];
    assert LogReplies(log) == LogReplies(s.log) + [reply];
  }

  lemma AcquireKeepsInv(render: Printer, w: World, s: State, a: Action)
    requires Inv(render, w, s) && a.Acquire? && Enabled(s, a)
    ensures Inv(render, w, Next(render, s, a))
  {
    var t := Next(render, s, a);
    if !t.alive { return; }
    SequentialSnoc(render, w, s, s.threads[a.i].c, a.raw);
    assert t.log[..|t.log| - 1] == s.log;
    assert s.channel + "" == s.channel;
  }

  lemma WriteKeepsInv(render: Printer, w: World, s: State, a: Action)
    requires Inv(render, w, s) && a.Write? && Enabled(s, a)
    ensures Inv(render, w, Next(render, s, a))
  {
    var t := s.threads[a.i];
    assert t.frame[..t.n + 1] == t.frame[..t.n] + [t.frame[t.n]];
    var before := Frames(Sents(s.log[..|s.log| - 1]));
    assert before + t.frame[..t.n] + [t.frame[t.n]] == before + t.frame[..t.n + 1];
  }

  lemma ReleaseKeepsInv(render: Printer, w: World, s: State, a: Action)
    requires Inv(render, w, s) && a.Release? && Enabled(s, a)
    ensures Inv(render, w, Next(render, s, a))
  {
    var n := |s.log| - 1;
    var init, last := s.log[..n], s.log[n].sent;
    var t := s.threads[a.i];
    assert Sents(s.log) == Sents(init) + [last];
    FramesAppend(Sents(init), [last]);
    assert Frames([last]) == t.frame + "";
    assert t.frame[..t.n] == t.frame;
  }

  lemma NextKeepsInv(render: Printer, w: World, s: State, a: Action)
    requires Inv(render, w, s) && Enabled(s, a)
    ensures Inv(render, w, Next(render, s, a))
  {
    match a
    case Spawn(_) =>
    case Acquire(_, _) => AcquireKeepsInv(render, w, s, a);
    case Write(_) => WriteKeepsInv(render, w, s, a);
    case Release(_) => ReleaseKeepsInv(render, w, s, a);
  }

  /** Under every schedule of single-byte writes. */
  lemma {:induction false} RunKeepsInv(render: Printer, w: World, schedule: seq<Action>)
    ensures Inv(render, w, Run(render, w, schedule))
    decreases |schedule|
  {
    if schedule != [] {
      var n := |schedule| - 1;
      RunKeepsInv(render, w, schedule[..n]);
      var s := Run(render, w, schedule[..n]);
      if Enabled(s, schedule[n]) {
        NextKeepsInv(render, w, s, schedule[n]);
      }
    }
  }

  /** In a stocked world no schedule kills the worker. */
  lemma {:induction false} StaysAlive(render: Printer, w: World, schedule: seq<Action>)
    requires Stocked(w)
    ensures Run(render, w, schedule).alive && Stocked(Run(render, w, schedule).world)
    decreases |schedule|
  {
    if schedule != [] {
      var n := |schedule| - 1;
      StaysAlive(render, w, schedule[..n]);
      var s := Run(render, w, schedule[..n]);
      if Enabled(s, schedule[n]) && schedule[n].Acquire? {
        StepKeepsStocked(s.world, s.threads[schedule[n].i].c);
      }
    }
  }

  /** No schedule gets stuck: while the worker lives and a thread is
      unfinished some action but a new request is enabled. */
  lemma NeverStuck(render: Printer, w: World, s: State, i: nat)
    requires Inv(render, w, s) && s.alive && i < |s.threads| && s.threads[i] != Finished
    ensures exists a :: Enabled(s, a) && !a.Spawn?
  {
    if s.holder.Some? {
      var h := s.holder.value;
      assert Enabled(s, Write(h)) || Enabled(s, Release(h));
    } else {
      assert Enabled(s, Acquire(i, 0));
    }
  }

  /** The entries whose frames are complete. */
  function Done(s: State): seq<Entry> {
    if s.holder.Some? && s.log != [] then s.log[..|s.log| - 1] else s.log
  }

  /** What the holder has written of its frame. */
  function Partial(s: State): string {
    match s.holder
    case None => ""
    case Some(i) =>
      if i < |s.threads| && s.threads[i].Writing? && s.threads[i].n <= |s.threads[i].frame|
      then s.threads[i].frame[..s.threads[i].n] else ""
  }

  lemma ChannelSplit(s: State)
    requires Threads(s) && Channel(s)
    ensures Done(s) <= s.log && s.channel == Frames(Sents(Done(s))) + Partial(s)
  {
  }

  lemma DonePayloads(render: Printer, w: World, s: State)
    requires Sequential(render, w, s) && Done(s) <= s.log
    ensures Payloads(Sents(Done(s))) == Printed(render, Replies(w, Commands(s.log))[..|Done(s)|])
  {
  }

  /** Under every schedule the client, reading frame by frame, gets whole replies:
      those of the commands run one by one in lock order; what is left is the part
      the lock holder has written. */
  lemma RepliesInLockOrder(render: Printer, w: World, schedule: seq<Action>)
    requires AllSendable(Sents(Run(render, w, schedule).log))
    ensures var s := Run(render, w, schedule);
      var cs := Commands(s.log);
      && AllValid(cs) && s.world == Exec(w, cs)
      && |Done(s)| == |cs| - (if s.holder.Some? then 1 else 0)
      && ReceiveMany(|Done(s)|, s.channel) == Some((Printed(render, Replies(w, cs)[..|Done(s)|]), Partial(s)))
  {
    RunKeepsInv(render, w, schedule);
    var s := Run(render, w, schedule);
    ChannelSplit(s);
    DonePayloads(render, w, s);
    assert forall i :: 0 <= i < |Done(s)| ==> Sents(Done(s))[i] == Sents(s.log)[i];
    ConversationExact(Sents(Done(s)), Partial(s));
  }

  /** The holder has written all of its frame, and is about to give the lock back. */
  predicate Written(s: State) {
    && s.holder.Some? && s.holder.value < |s.threads| && s.threads[s.holder.value].Writing?
    && s.threads[s.holder.value].n == |s.threads[s.holder.value].frame|
  }

  /** Under every schedule the next receive, after the whole frames, waits as long as
      the lock holder has not written all of its frame, or there is no holder; then it
      gets that reply and empties the channel. */
  lemma NextReceive(render: Printer, w: World, schedule: seq<Action>)
    requires AllSendable(Sents(Run(render, w, schedule).log))
    ensures var s := Run(render, w, schedule);
      && (Written(s) ==> s.log != [])
      && Receive(Partial(s)) == if Written(s) then Got(render(s.log[|s.log| - 1].reply), "") else Blocked
  {
    RunKeepsInv(render, w, schedule);
    var s := Run(render, w, schedule);
    if s.holder == None {
      NoBoundaryWaits("");
    } else {
      var last := s.log[|s.log| - 1].sent;
      assert Sents(s.log)[|s.log| - 1] == last;
      HolderReceive(last, Partial(s));
    }
  }

  lemma HolderReceive(last: Sent, part: string)
    requires Sendable(last.boundary, last.payload) && part <= Frame(last.boundary, last.payload)
    ensures Receive(part) ==
      if |part| == |Frame(last.boundary, last.payload)| then Got(last.payload, "") else Blocked
  {
    var whole := Frame(last.boundary, last.payload);
    if |part| == |whole| {
      assert part == whole + "";
      ReceiveFrame(last.boundary, last.payload, "");
    } else {
      ReceiveWaits(last.boundary, last.payload, part);
    }
  }

  function Printed(render: Printer, rs: seq<Reply>): (ts: seq<string>)
    ensures |ts| == |rs|
  {
    seq(|rs|, i requires 0 <= i < |rs| => render(rs[i]))
  }
}
