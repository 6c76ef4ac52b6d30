/** The command handlers of the client (client/commands.c), each sending to the
    worker process and updating the static `logged` flag. */
module Terminal {
  import opened Text
  import opened FileCoding
  import opened Session
  import opened Client
  import opened Worker

  class CommandLine {
    const worker: Process
    var logged: bool
    var slots: nat
    var refused: Option<Command>
    var crashed: bool

    ghost function View(): Sys
      reads this, worker, worker.conn
    {
      Sys(logged, worker.View(), slots, refused, crashed)
    }

    ghost predicate Takes(sh: Shell)
      reads this, worker, worker.conn
    {
      worker.Ready() && Proper(sh) && Serviceable(worker.View(), Request(sh))
    }

    constructor (worker: Process, slots: nat)
      ensures this.worker == worker && !logged && this.slots == slots
      ensures refused == None && !crashed
    {
      this.worker, this.slots, logged, refused, crashed := worker, slots, false, None, false;
    }

    /** A request the worker takes: its reply, or none from a worker that crashed. */
    method Exchange(c: Command) returns (a: Answer)
      requires worker.Ready() && Valid(c) && Serviceable(worker.View(), c) && Live(View()) && slots > 0
      modifies this`slots, this`crashed, worker, worker.conn
      ensures worker.Ready() && refused == None
      ensures var (w, reply) := Step(old(worker.View()), c);
        && worker.View() == w && slots == old(slots) - 1 && crashed == (reply == Crash)
        && a == if reply == Crash then NoAnswer else Answered(reply)
    {
      var reply := worker.Dispatch(c);
      slots := slots - 1;
      crashed := reply == Crash;
      return if crashed then NoAnswer else Answered(reply);
    }

    /** A `send_cmd_*` call and the `receive` after it. */
    method Transact(c: Command) returns (a: Answer)
      requires worker.Ready() && Valid(c) && Serviceable(worker.View(), c)
      modifies this`slots, this`refused, this`crashed, worker, worker.conn
      ensures worker.Ready() && (View(), a) == Client.Transact(old(View()), c)
    {
      if refused.Some? || crashed { return NoAnswer; }
      if slots == 0 {
        refused := Some(c);
        return MaxedCapacity;
      }
      ghost var s := View();
      a := Exchange(c);
      TransactTaken(s, c);
    }

    method CmdLogin(name: string, pass: string) returns (a: Answer)
      requires Takes(ShLogin(name, pass))
      modifies this, worker, worker.conn
      ensures worker.Ready() && (View(), a) == Do(old(View()), ShLogin(name, pass))
    {
      if logged { return NotSent; }
      a := Transact(Login(name, pass));
      var heard := Heard(a);
      if heard == None || heard.value == FAILED { return a; }
      logged := true;
    }

    method CmdLogout() returns (a: Answer)
      requires Takes(ShLogout)
      modifies this, worker, worker.conn
      ensures worker.Ready() && (View(), a) == Do(old(View()), ShLogout)
    {
      if !logged { return NotSent; }
      a := Transact(Logout);
      if a == NoAnswer { return a; }
      logged := false;
    }

    method CmdGet(alias: string) returns (a: Answer)
      requires Takes(ShGet(alias))
      modifies this, worker, worker.conn
      ensures worker.Ready() && (View(), a) == Do(old(View()), ShGet(alias))
    {
      if !logged { return NotSent; }
      a := Transact(Get(alias));
    }

    /** `encode_raw_data` on the local file, then the post. */
    method CmdPost(alias: string, file: array<byte>) returns (a: Answer)
      requires Takes(ShPost(alias, file[..]))
      modifies this, worker, worker.conn
      ensures worker.Ready() && (View(), a) == Do(old(View()), ShPost(alias, old(file[..])))
    {
      if !logged { return NotSent; }
      var data := EncodeRawData(file);
      a := Transact(Post(alias, data, file.Length));
    }

    method CmdNewUser(name: string, admin: bool, pass: string) returns (a: Answer)
      requires Takes(ShNewUser(name, admin, pass))
      modifies this, worker, worker.conn
      ensures worker.Ready() && (View(), a) == Do(old(View()), ShNewUser(name, admin, pass))
    {
      if !logged { return NotSent; }
      a := Transact(NewUser(name, pass, admin));
    }

    method CmdChangePass(pass: string) returns (a: Answer)
      requires Takes(ShChPass(pass))
      modifies this, worker, worker.conn
      ensures worker.Ready() && (View(), a) == Do(old(View()), ShChPass(pass))
    {
      if !logged { return NotSent; }
      a := Transact(ChangePass(pass));
    }
  }
}
