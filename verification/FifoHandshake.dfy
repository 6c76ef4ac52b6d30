/** The handshake with the FIFO names the two programs really build. */
module FifoHandshake {
  import opened Text
  import opened Handshake
  import Address

  const PATH_PREFIX := "/tmp/"
  const EXTENSION := ".fifo"

  function HostOf(url: string): string {
    match Address.FifoHost(url) case Some(h) => h case None => ""
  }

  function ConnPath(server: string): string { PATH_PREFIX + server + ".in" + EXTENSION }
  function ResponsePath(server: string, url: string): string { PATH_PREFIX + server + "." + HostOf(url) + EXTENSION }
  function RequestPath(server: string, url: string): string { PATH_PREFIX + HostOf(url) + "." + server + EXTENSION }

  /** Which paths `mkfifo` can make, where nothing is yet. */
  type Maker = string -> bool

  function Setting(url: string, server: string, existing: set<string>, makes: Maker, capacity: nat): Config {
    Config(url, true, existing, makes, capacity, u => Address.FifoHost(u).Some?, ConnPath(server),
           u => ResponsePath(server, u), u => RequestPath(server, u))
  }

  predicate BothOpen(s: State) {
    s.client.COpen? && s.server.SOpen?
  }

  function UrlOf(name: string): string { "fifo://" + name + ":3000" }

  lemma NamedHost(name: string)
    requires Free(name, Address.STOPS)
    ensures Address.FifoHost(UrlOf(name)) == Some(name)
  {
    Address.FifoRoundTrip(name, ":3000");
  }

  lemma UrlShape(name: string)
    requires NulFree(name)
    ensures NulFree(UrlOf(name)) && |UrlOf(name)| == 12 + |name|
  {
  }

  lemma NamedSetting(name: string, server: string, existing: set<string>, makes: Maker, capacity: nat)
    requires Free(name, Address.STOPS) && |name| < 2000 && capacity > 0
    requires ConnPath(server) in existing
    ensures var cfg := Setting(UrlOf(name), server, existing, makes, capacity);
      cfg.Listening() && (cfg.Good() <==> FreshPaths(name, server, existing, makes))
  {
    NamedHost(name);
    assert NUL in Address.STOPS;
    UrlShape(name);
  }

  function Path(from: string, to: string): string { PATH_PREFIX + from + "." + to + EXTENSION }

  predicate FreshPaths(name: string, server: string, existing: set<string>, makes: Maker) {
    var there, back := Path(name, server), Path(server, name);
    there !in existing && back !in existing && there != back && makes(there) && makes(back)
  }

  /** `fifo://name:3000` reaches a listening server exactly when neither
      direction's FIFO is left over from an earlier session, both can be made and the
      two paths differ; it is then open on both ends after the same number of
      scheduler steps under every schedule. */
  lemma NamedClientConnects(name: string, server: string, existing: set<string>, makes: Maker, capacity: nat)
    requires Free(name, Address.STOPS) && |name| < 2000 && capacity > 0
    requires ConnPath(server) in existing
    ensures var cfg := Setting(UrlOf(name), server, existing, makes, capacity);
      && ((exists schedule :: BothOpen(Run(cfg, schedule))) <==> FreshPaths(name, server, existing, makes))
      && (forall schedule :: BothOpen(Run(cfg, schedule)) ==>
          Done(cfg, Run(cfg, schedule)) && Moves(cfg, schedule) == 92 + 6 * |name|)
  {
    NamedSetting(name, server, existing, makes, capacity);
    UrlShape(name);
    Connects(Setting(UrlOf(name), server, existing, makes, capacity));
  }

  /** Which FIFO is which: the client hears on the one named server first, and talks on
      the one named client first. */
  lemma PathNames(name: string, server: string, existing: set<string>, makes: Maker, capacity: nat)
    requires Free(name, Address.STOPS)
    ensures var cfg := Setting(UrlOf(name), server, existing, makes, capacity);
      && cfg.url == "fifo://" + name + ":3000"
      && cfg.response(cfg.url) == "/tmp/" + server + "." + name + ".fifo"
      && cfg.request(cfg.url) == "/tmp/" + name + "." + server + ".fifo"
      && cfg.conn == "/tmp/" + server + ".in.fifo"
  {
    NamedHost(name);
    assert ".in" + ".fifo" == ".in.fifo";
    assert "/tmp/" + server + ".in" + ".fifo" == "/tmp/" + server + (".in" + ".fifo");
    assert "/tmp/" + server + ".in.fifo" == "/tmp/" + server + (".in" + ".fifo");
  }

  /** A left-over FIFO fails the side that has to make it, with that side's code, under
      every schedule; the server never fails for its client's address. */
  lemma NamedFailures(name: string, server: string, existing: set<string>, makes: Maker, capacity: nat,
                      schedule: seq<Who>)
    requires Free(name, Address.STOPS) && |name| < 2000 && capacity > 0
    requires ConnPath(server) in existing
    ensures var s := Run(Setting(UrlOf(name), server, existing, makes, capacity), schedule);
      var there, back := Path(name, server), Path(server, name);
      && (TheClient in schedule ==> (s.client.CFailed? <==> back in existing || !makes(back)))
      && (s.client.CFailed? ==> s.client.code == 300)
      && (s.server.SFailed? ==> s.server.code == 3003 && (there in existing || !makes(there) || there == back))
  {
    var cfg := Setting(UrlOf(name), server, existing, makes, capacity);
    NamedSetting(name, server, existing, makes, capacity);
    NamedHost(name);
    FailureCodes(cfg, schedule);
    if TheClient in schedule {
      ClientFailsExactly(cfg, schedule);
    }
  }

  lemma Connects(cfg: Config)
    requires cfg.Listening()
    ensures (exists schedule :: BothOpen(Run(cfg, schedule))) <==> cfg.Good()
    ensures forall schedule :: BothOpen(Run(cfg, schedule)) ==>
      Done(cfg, Run(cfg, schedule)) && Moves(cfg, schedule) == 14 + 6 * (|cfg.url| + 1)
  {
    HandshakeExact(cfg);
    if cfg.Good() {
      var schedule :| Run(cfg, schedule).client.COpen? && Run(cfg, schedule).server.SOpen?;
      assert BothOpen(Run(cfg, schedule));
    }
    forall schedule | BothOpen(Run(cfg, schedule))
      ensures Done(cfg, Run(cfg, schedule)) && Moves(cfg, schedule) == 14 + 6 * (|cfg.url| + 1)
    {
      OpenedMeansGood(cfg, schedule);
      DoneExact(cfg, schedule);
    }
  }

  const NAME_MAX := 255

  /** A `/tmp` without directories makes what is one file name. */
  predicate Flat(path: string) {
    |PATH_PREFIX| < |path| <= |PATH_PREFIX| + NAME_MAX && '/' !in path[|PATH_PREFIX|..]
  }

  lemma FlatExact(from: string, to: string)
    ensures Flat(Path(from, to)) <==> '/' !in from && '/' !in to && |from| + |to| <= 249
  {
    var path := Path(from, to);
    var file := path[|PATH_PREFIX|..];
    assert file == from + ("." + (to + EXTENSION));
    if '/' !in from && '/' !in to {
      assert '/' !in EXTENSION && '/' !in "." && '/' !in file;
    } else if '/' in from {
      var k :| 0 <= k < |from| && from[k] == '/';
      assert file[k] == '/';
    } else {
      var k :| 0 <= k < |to| && to[k] == '/';
      assert file[|from| + 1 + k] == '/';
    }
  }

  /** There, names with a slash or of more than 249 bytes together never connect. */
  lemma PlainNamesConnect(name: string, server: string, existing: set<string>, capacity: nat)
    requires Free(name, Address.STOPS) && |name| < 2000 && capacity > 0
    requires ConnPath(server) in existing
    ensures (exists schedule :: BothOpen(Run(Setting(UrlOf(name), server, existing, Flat, capacity), schedule))) <==>
      && '/' !in name && '/' !in server && |name| + |server| <= 249
      && Path(name, server) !in existing && Path(server, name) !in existing && Path(name, server) != Path(server, name)
  {
    NamedClientConnects(name, server, existing, Flat, capacity);
    FlatExact(name, server);
    FlatExact(server, name);
  }

  /** A client named after its server never gets through: both directions would
      use one path, and the server cannot make it again. */
  lemma SameNameNeverConnects(name: string, existing: set<string>, makes: Maker, capacity: nat, schedule: seq<Who>)
    requires Free(name, Address.STOPS) && |name| < 2000 && capacity > 0
    requires ConnPath(name) in existing
    ensures !BothOpen(Run(Setting(UrlOf(name), name, existing, makes, capacity), schedule))
  {
    NamedClientConnects(name, name, existing, makes, capacity);
  }
}
