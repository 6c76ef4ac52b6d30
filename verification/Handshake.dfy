/** The three-way FIFO handshake between `connection_open`
    (comm.connection.fifo.c) and `comm_accept` (comm.read.fifo.c), as two
    programs interleaved one step of the scheduler at a time over shared FIFOs. */
module Handshake {
  import opened Text

  const BUFFER_LENGTH := 2048

  /** One client with address `url`, one server.  The server is known to both by
      name, so both build the same paths from a client address; `accepts` is its
      address parse.  `existing` are the paths already taken when the client starts,
      and `makes` tells for which others `mkfifo` works; `capacity` is how many bytes a
      FIFO holds before a write blocks. */
  datatype Config = Config(
    url: string, valid: bool, existing: set<string>, makes: string -> bool, capacity: nat,
    accepts: string -> bool, conn: string, response: string -> string, request: string -> string)
  {
    /** The server is listening, and the address fits its buffer. */
    ghost predicate Listening() {
      conn in existing && NulFree(url) && |url| < BUFFER_LENGTH && capacity > 0
    }

    /** What a caller can check before opening. */
    predicate Good() {
      && valid && accepts(url)
      && Vacant(response(url)) && Vacant(request(url)) && request(url) != response(url)
    }

    /** A path at which `mkfifo` makes a FIFO at the start. */
    predicate Vacant(path: string) {
      path !in existing && makes(path)
    }
  }

  /** `reader` and `writer` record that some process has arrived at its open of
      that end; an open returns once the other end has arrived. */
  datatype Fifo = Fifo(bytes: string, reader: bool, writer: bool)

  datatype Client =
    | CStart
    | CMade                     // response FIFO made
    | CJoinConn                 // inside open(connection_file, O_WRONLY)
    | CSayUrl(n: nat)           // n bytes of url ++ NUL written
    | CClosed                   // connection file closed
    | CJoinRes                  // inside open(response_fifo, O_RDONLY)
    | CHearAck(got: string)
    | CAcked
    | CJoinReq                  // inside open(request_fifo, O_WRONLY)
    | CSayOk(n: nat)
    | COpen
    | CFailed(code: int)

  datatype Server =
    | SStart
    | SJoinConn                 // inside open(connection_file, O_RDONLY)
    | SHearUrl(got: string)
    | SKnown(url: string)       // address accepted
    | SMade(url: string)        // request FIFO made
    | SJoinRes(url: string)     // inside open(response_fifo, O_WRONLY)
    | SSayAck(url: string, n: nat)
    | SAcked(url: string)
    | SJoinReq(url: string)     // inside open(request_fifo, O_RDONLY)
    | SHearOk(url: string, got: string)
    | SOpen(url: string)
    | SFailed(code: int)

  datatype State = State(client: Client, server: Server, fifos: map<string, Fifo>)

  type Fifos = map<string, Fifo>

  function Init(cfg: Config): State {
    State(CStart, SStart, map p | p in cfg.existing :: Fifo("", false, false))
  }

  // ------------------------------------------------------------------- the steps

  function Arrive(fs: Fifos, path: string, asReader: bool): Fifos
    requires path in fs
  {
    fs[path := if asReader then fs[path].(reader := true) else fs[path].(writer := true)]
  }

  function Push(fs: Fifos, path: string, c: char): Fifos
    requires path in fs
  {
    fs[path := fs[path].(bytes := fs[path].bytes + [c])]
  }

  function Pop(fs: Fifos, path: string): Fifos
    requires path in fs && fs[path].bytes != ""
  {
    fs[path := fs[path].(bytes := fs[path].bytes[1..])]
  }

  predicate Room(cfg: Config, fs: Fifos, path: string) {
    path in fs && |fs[path].bytes| < cfg.capacity
  }

  predicate Ready(fs: Fifos, path: string) {
    path in fs && fs[path].bytes != ""
  }

  /** The next step of `connection_open`; None when it blocks or has returned. */
  function ClientStep(cfg: Config, s: State): Option<State> {
    var fs := s.fifos;
    var u := cfg.url + [NUL];
    var conn, res, req := cfg.conn, cfg.response(cfg.url), cfg.request(cfg.url);
    match s.client
    case CStart =>
      if !cfg.valid then Some(s.(client := CFailed(202)))
      else if res in fs || !cfg.makes(res) then Some(s.(client := CFailed(300)))
      else Some(s.(client := CMade, fifos := fs[res := Fifo("", false, false)]))
    case CMade =>
      if conn !in fs then Some(s.(client := CFailed(203)))
      else Some(s.(client := CJoinConn, fifos := Arrive(fs, conn, false)))
    case CJoinConn =>
      if conn in fs && fs[conn].reader then Some(s.(client := CSayUrl(0))) else None
    case CSayUrl(n) =>
      if n < |u| && Room(cfg, fs, conn)
      then Some(s.(client := if n + 1 < |u| then CSayUrl(n + 1) else CClosed, fifos := Push(fs, conn, u[n])))
      else None
    case CClosed =>
      if res !in fs then Some(s.(client := CFailed(301)))
      else Some(s.(client := CJoinRes, fifos := Arrive(fs, res, true)))
    case CJoinRes =>
      if res in fs && fs[res].writer then Some(s.(client := CHearAck(""))) else None
    case CHearAck(got) =>
      if !Ready(fs, res) then None
      else
        var c := fs[res].bytes[0];
        var now := got + [c];
        Some(s.(fifos := Pop(fs, res),
                client := if |got| < |cfg.url| && c != NUL then CHearAck(now)
                          else if CStr(now) == cfg.url then CAcked else CFailed(201)))
    case CAcked =>
      if req !in fs then Some(s.(client := CFailed(302)))
      else Some(s.(client := CJoinReq, fifos := Arrive(fs, req, false)))
    case CJoinReq =>
      if req in fs && fs[req].reader then Some(s.(client := CSayOk(0))) else None
    case CSayOk(n) =>
      if n < |u| && Room(cfg, fs, req)
      then Some(s.(client := if n + 1 < |u| then CSayOk(n + 1) else COpen, fifos := Push(fs, req, u[n])))
      else None
    case COpen => None
    case CFailed(_) => None
  }

  /** The next step of `comm_accept`. */
  function ServerStep(cfg: Config, s: State): Option<State> {
    var fs := s.fifos;
    var conn := cfg.conn;
    match s.server
    case SStart =>
      if conn !in fs then Some(s.(server := SFailed(3001)))
      else Some(s.(server := SJoinConn, fifos := Arrive(fs, conn, true)))
    case SJoinConn =>
      if conn in fs && fs[conn].writer then Some(s.(server := SHearUrl(""))) else None
    case SHearUrl(got) =>
      if !Ready(fs, conn) then None
      else
        var c := fs[conn].bytes[0];
        var now := got + [c];
        Some(s.(fifos := Pop(fs, conn),
                server := if c != NUL then SHearUrl(now)
                          else if cfg.accepts(CStr(now)) then SKnown(CStr(now)) else SFailed(3002)))
    case SKnown(url) =>
      var req := cfg.request(url);
      if req in fs || !cfg.makes(req) then Some(s.(server := SFailed(3003)))
      else Some(s.(server := SMade(url), fifos := fs[req := Fifo("", false, false)]))
    case SMade(url) =>
      var res := cfg.response(url);
      if res !in fs then Some(s.(server := SFailed(3004)))
      else Some(s.(server := SJoinRes(url), fifos := Arrive(fs, res, false)))
    case SJoinRes(url) =>
      var res := cfg.response(url);
      if res in fs && fs[res].reader then Some(s.(server := SSayAck(url, 0))) else None
    case SSayAck(url, n) =>
      var res, u := cfg.response(url), url + [NUL];
      if n < |u| && Room(cfg, fs, res)
      then Some(s.(server := if n + 1 < |u| then SSayAck(url, n + 1) else SAcked(url), fifos := Push(fs, res, u[n])))
      else None
    case SAcked(url) =>
      var req := cfg.request(url);
      if req !in fs then Some(s.(server := SFailed(3005)))
      else Some(s.(server := SJoinReq(url), fifos := Arrive(fs, req, true)))
    case SJoinReq(url) =>
      var req := cfg.request(url);
      if req in fs && fs[req].writer then Some(s.(server := SHearOk(url, ""))) else None
    case SHearOk(url, got) =>
      var req := cfg.request(url);
      if !Ready(fs, req) then None
      else
        var c := fs[req].bytes[0];
        var now := got + [c];
        Some(s.(fifos := Pop(fs, req),
                server := if |got| < |url| + 1 && c != NUL then SHearOk(url, now)
                          else if CStr(now) == url then SOpen(url) else SFailed(3006)))
    case SOpen(_) => None
    case SFailed(_) => None
  }

  datatype Who = TheClient | TheServer

  function StepOf(cfg: Config, s: State, who: Who): Option<State> {
    if who == TheClient then ClientStep(cfg, s) else ServerStep(cfg, s)
  }

  /** Any interleaving: whoever is scheduled makes a step if it can. */
  function Run(cfg: Config, schedule: seq<Who>): State {
    if schedule == [] then Init(cfg)
    else
      var n := |schedule| - 1;
      var s := Run(cfg, schedule[..n]);
      match StepOf(cfg, s, schedule[n]) case Some(t) => t case None => s
  }

  // ---------------------------------------------------------------- the invariant

  function CRank(c: Client): nat {
    match c
    case CStart => 0 case CFailed(_) => 0 case CMade => 1 case CJoinConn => 2 case CSayUrl(_) => 3
    case CClosed => 4 case CJoinRes => 5 case CHearAck(_) => 6 case CAcked => 7 case CJoinReq => 8
    case CSayOk(_) => 9 case COpen => 10
  }

  function SRank(s: Server): nat {
    match s
    case SStart => 0 case SJoinConn => 1 case SHearUrl(_) => 2 case SKnown(_) => 3 case SFailed(_) => 3
    case SMade(_) => 4 case SJoinRes(_) => 5 case SSayAck(_, _) => 6 case SAcked(_) => 7 case SJoinReq(_) => 8
    case SHearOk(_, _) => 9 case SOpen(_) => 10
  }

  /** How far a transfer at rank `at` has come, given the current rank. */
  function Progress(rank: nat, at: nat, here: nat, all: nat): nat {
    if rank < at then 0 else if rank == at then here else all
  }

  function Here(c: Client): nat {
    match c case CSayUrl(n) => n case CHearAck(g) => |g| case CSayOk(n) => n case _ => 0
  }

  function There(s: Server): nat {
    match s case SHearUrl(g) => |g| case SSayAck(_, n) => n case SHearOk(_, g) => |g| case _ => 0
  }

  /** A FIFO carrying u: r bytes read, w written, the rest still inside. */
  ghost predicate Carries(fs: Fifos, path: string, u: string, r: nat, w: nat, reader: bool, writer: bool) {
    path in fs && r <= w <= |u| && fs[path] == Fifo(u[r..w], reader, writer)
  }

  ghost predicate ClientOk(cfg: Config, c: Client) {
    var u := cfg.url + [NUL];
    && Here(c) < |u|
    && (c.CHearAck? ==> c.got == u[..|c.got|])
    && (c.CFailed? ==> !cfg.Good())
    && (CRank(c) > 0 ==> cfg.valid && cfg.Vacant(cfg.response(cfg.url)))
  }

  ghost predicate ServerOk(cfg: Config, s: Server) {
    var u := cfg.url + [NUL];
    && There(s) < |u|
    && (s.SHearUrl? ==> s.got == u[..|s.got|])
    && (s.SHearOk? ==> s.got == u[..|s.got|])
    && (s.SFailed? ==> !cfg.Good())
    && (SRank(s) >= 3 && !s.SFailed? ==> s.url == cfg.url && cfg.accepts(cfg.url))
    && (SRank(s) >= 4 ==> cfg.Good())
  }

  /** Nobody is past an open whose other end has not arrived. */
  ghost predicate Met(c: nat, s: nat) {
    && (c > 2 ==> s >= 1) && (s > 1 ==> c >= 2)
    && (c > 5 ==> s >= 5) && (s > 5 ==> c >= 5)
    && (c > 8 ==> s >= 8) && (s > 8 ==> c >= 8)
  }

  ghost predicate Channels(cfg: Config, s: State) {
    var u := cfg.url + [NUL];
    var c, v, here, there := CRank(s.client), SRank(s.server), Here(s.client), There(s.server);
    var L := |u|;
    var conn, res, req := cfg.conn, cfg.response(cfg.url), cfg.request(cfg.url);
    && (forall p :: p in s.fifos <==> p in cfg.existing || (c > 0 && p == res) || (v >= 4 && p == req))
    && Carries(s.fifos, conn, u, Progress(v, 2, there, L), Progress(c, 3, here, L), v >= 1, c >= 2)
    && (c > 0 ==> Carries(s.fifos, res, u, Progress(c, 6, here, L), Progress(v, 6, there, L), c >= 5, v >= 5))
    && (v >= 4 ==> Carries(s.fifos, req, u, Progress(v, 9, there, L), Progress(c, 9, here, L), v >= 8, c >= 8))
  }

  ghost predicate Inv(cfg: Config, s: State) {
    && ClientOk(cfg, s.client) && ServerOk(cfg, s.server)
    && Met(CRank(s.client), SRank(s.server))
    && Channels(cfg, s)
  }

  lemma {:induction false} WholeUrl(url: string)
    requires NulFree(url)
    ensures CStr(url + [NUL]) == url
  {
    CStrTerminated(url, "");
    assert url + [NUL] + "" == url + [NUL];
  }

  lemma Slices(u: string, r: nat, w: nat)
    requires r <= w <= |u|
    ensures w < |u| ==> u[r..w] + [u[w]] == u[r..w + 1]
    ensures r < w ==> u[r..w][0] == u[r] && u[r..w][1..] == u[r + 1..w]
    ensures r < |u| ==> u[..r] + [u[r]] == u[..r + 1]
    ensures u[w..w] == ""
  {
  }

  /** Arriving at an open touches no bytes and no other FIFO. */
  lemma CarriesArrive(fs: Fifos, path: string, u: string, r: nat, w: nat, reader: bool, writer: bool, asReader: bool)
    requires Carries(fs, path, u, r, w, reader, writer)
    ensures Carries(Arrive(fs, path, asReader), path, u, r, w, reader || asReader, writer || !asReader)
  {
  }

  /** The reader's loop goes on until the NUL ... */
  lemma HeardMore(url: string, got: string)
    requires NulFree(url) && |got| < |url| && got == (url + [NUL])[..|got|]
    ensures var u := url + [NUL]; u[|got|] != NUL && got + [u[|got|]] == u[..|got| + 1]
  {
  }

  /** ... and then holds the url. */
  lemma HeardAll(url: string, got: string)
    requires NulFree(url) && |got| == |url| && got == (url + [NUL])[..|got|]
    ensures (url + [NUL])[|got|] == NUL && got == url && CStr(got + [NUL]) == url
  {
    assert got == url;
    WholeUrl(url);
  }

  lemma ClientMakes(cfg: Config, s: State)
    requires cfg.Listening() && Inv(cfg, s) && s.client.CStart?
    requires ClientStep(cfg, s).Some?
    ensures Inv(cfg, ClientStep(cfg, s).value)
  {
  }

  lemma ClientJoinsConn(cfg: Config, s: State)
    requires cfg.Listening() && Inv(cfg, s) && s.client.CMade?
    requires ClientStep(cfg, s).Some?
    ensures Inv(cfg, ClientStep(cfg, s).value)
  {
  }

  lemma ClientJoinedConn(cfg: Config, s: State)
    requires cfg.Listening() && Inv(cfg, s) && s.client.CJoinConn?
    requires ClientStep(cfg, s).Some?
    ensures Inv(cfg, ClientStep(cfg, s).value)
  {
  }

  lemma ClientSaysUrl(cfg: Config, s: State)
    requires cfg.Listening() && Inv(cfg, s) && s.client.CSayUrl?
    requires ClientStep(cfg, s).Some?
    ensures Inv(cfg, ClientStep(cfg, s).value)
  {
  }

  lemma ClientJoinsRes(cfg: Config, s: State)
    requires cfg.Listening() && Inv(cfg, s) && s.client.CClosed?
    requires ClientStep(cfg, s).Some?
    ensures Inv(cfg, ClientStep(cfg, s).value)
  {
    var u, res := cfg.url + [NUL], cfg.response(cfg.url);
    var t := ClientStep(cfg, s).value;
    assert res in s.fifos;
    assert t == State(CJoinRes, s.server, Arrive(s.fifos, res, true));
    CarriesArrive(s.fifos, res, u, 0, Progress(SRank(s.server), 6, There(s.server), |u|),
                  false, SRank(s.server) >= 5, true);
    assert ClientOk(cfg, t.client) && Met(CRank(t.client), SRank(t.server));
    assert res != cfg.conn;
    assert SRank(s.server) >= 4 ==> cfg.request(cfg.url) != res;
  }

  lemma ClientJoinedRes(cfg: Config, s: State)
    requires cfg.Listening() && Inv(cfg, s) && s.client.CJoinRes?
    requires ClientStep(cfg, s).Some?
    ensures Inv(cfg, ClientStep(cfg, s).value)
  {
  }

  lemma ClientHearsAckMore(cfg: Config, s: State)
    requires cfg.Listening() && Inv(cfg, s) && s.client.CHearAck? && |s.client.got| < |cfg.url|
    requires ClientStep(cfg, s).Some?
    ensures Inv(cfg, ClientStep(cfg, s).value)
  {
    var u := cfg.url + [NUL];
    HeardMore(cfg.url, s.client.got);
    Slices(u, |s.client.got|, Progress(SRank(s.server), 6, There(s.server), |u|));
  }

  lemma ClientHearsAckLast(cfg: Config, s: State)
    requires cfg.Listening() && Inv(cfg, s) && s.client.CHearAck? && |s.client.got| == |cfg.url|
    requires ClientStep(cfg, s).Some?
    ensures Ready(s.fifos, cfg.response(cfg.url))
    ensures ClientStep(cfg, s) == Some(State(CAcked, s.server, Pop(s.fifos, cfg.response(cfg.url))))
  {
    HeardAll(cfg.url, s.client.got);
  }

  lemma ClientHearsAckAll(cfg: Config, s: State)
    requires cfg.Listening() && Inv(cfg, s) && s.client.CHearAck? && |s.client.got| == |cfg.url|
    requires ClientStep(cfg, s).Some?
    ensures Inv(cfg, ClientStep(cfg, s).value)
  {
    ClientHearsAckLast(cfg, s);
    var u := cfg.url + [NUL];
    Slices(u, |s.client.got|, Progress(SRank(s.server), 6, There(s.server), |u|));
  }

  lemma ClientJoinsReq(cfg: Config, s: State)
    requires cfg.Listening() && Inv(cfg, s) && s.client.CAcked?
    requires ClientStep(cfg, s).Some?
    ensures Inv(cfg, ClientStep(cfg, s).value)
  {
  }

  lemma ClientJoinedReq(cfg: Config, s: State)
    requires cfg.Listening() && Inv(cfg, s) && s.client.CJoinReq?
    requires ClientStep(cfg, s).Some?
    ensures Inv(cfg, ClientStep(cfg, s).value)
  {
  }

  lemma ClientSaysOk(cfg: Config, s: State)
    requires cfg.Listening() && Inv(cfg, s) && s.client.CSayOk?
    requires ClientStep(cfg, s).Some?
    ensures Inv(cfg, ClientStep(cfg, s).value)
  {
  }

  lemma ServerJoinsConn(cfg: Config, s: State)
    requires cfg.Listening() && Inv(cfg, s) && s.server.SStart?
    requires ServerStep(cfg, s).Some?
    ensures Inv(cfg, ServerStep(cfg, s).value)
  {
    var u, path := cfg.url + [NUL], cfg.conn;
    var t := ServerStep(cfg, s).value;
    assert path in s.fifos;
    assert t == State(s.client, SJoinConn, Arrive(s.fifos, path, true));
    CarriesArrive(s.fifos, path, u, 0, Progress(CRank(s.client), 3, Here(s.client), |u|),
                  false, CRank(s.client) >= 2, true);
    assert ClientOk(cfg, t.client) && ServerOk(cfg, t.server) && Met(CRank(t.client), SRank(t.server));
  }

  lemma ServerJoinedConn(cfg: Config, s: State)
    requires cfg.Listening() && Inv(cfg, s) && s.server.SJoinConn?
    requires ServerStep(cfg, s).Some?
    ensures Inv(cfg, ServerStep(cfg, s).value)
  {
  }

  lemma ServerHearsUrlMore(cfg: Config, s: State)
    requires cfg.Listening() && Inv(cfg, s) && s.server.SHearUrl? && |s.server.got| < |cfg.url|
    requires ServerStep(cfg, s).Some?
    ensures Inv(cfg, ServerStep(cfg, s).value)
  {
  }

  lemma ServerHearsUrlAll(cfg: Config, s: State)
    requires cfg.Listening() && Inv(cfg, s) && s.server.SHearUrl? && |s.server.got| == |cfg.url|
    requires ServerStep(cfg, s).Some?
    ensures Inv(cfg, ServerStep(cfg, s).value)
  {
    var u := cfg.url + [NUL];
    HeardAll(cfg.url, s.server.got);
    Slices(u, |s.server.got|, Progress(CRank(s.client), 3, Here(s.client), |u|));
  }

  lemma ServerMakes(cfg: Config, s: State)
    requires cfg.Listening() && Inv(cfg, s) && s.server.SKnown?
    requires ServerStep(cfg, s).Some?
    ensures Inv(cfg, ServerStep(cfg, s).value)
  {
  }

  lemma ServerJoinsRes(cfg: Config, s: State)
    requires cfg.Listening() && Inv(cfg, s) && s.server.SMade?
    requires ServerStep(cfg, s).Some?
    ensures Inv(cfg, ServerStep(cfg, s).value)
  {
  }

  lemma ServerJoinedRes(cfg: Config, s: State)
    requires cfg.Listening() && Inv(cfg, s) && s.server.SJoinRes?
    requires ServerStep(cfg, s).Some?
    ensures Inv(cfg, ServerStep(cfg, s).value)
  {
  }

  lemma ServerSaysAck(cfg: Config, s: State)
    requires cfg.Listening() && Inv(cfg, s) && s.server.SSayAck?
    requires ServerStep(cfg, s).Some?
    ensures Inv(cfg, ServerStep(cfg, s).value)
  {
  }

  lemma ServerJoinsReq(cfg: Config, s: State)
    requires cfg.Listening() && Inv(cfg, s) && s.server.SAcked?
    requires ServerStep(cfg, s).Some?
    ensures Inv(cfg, ServerStep(cfg, s).value)
  {
  }

  lemma ServerJoinedReq(cfg: Config, s: State)
    requires cfg.Listening() && Inv(cfg, s) && s.server.SJoinReq?
    requires ServerStep(cfg, s).Some?
    ensures Inv(cfg, ServerStep(cfg, s).value)
  {
  }

  lemma ServerHearsOkMore(cfg: Config, s: State)
    requires cfg.Listening() && Inv(cfg, s) && s.server.SHearOk? && |s.server.got| < |cfg.url|
    requires ServerStep(cfg, s).Some?
    ensures Inv(cfg, ServerStep(cfg, s).value)
  {
  }

  lemma ServerHearsOkLast(cfg: Config, s: State)
    requires cfg.Listening() && Inv(cfg, s) && s.server.SHearOk? && |s.server.got| == |cfg.url|
    requires ServerStep(cfg, s).Some?
    ensures Ready(s.fifos, cfg.request(cfg.url))
    ensures ServerStep(cfg, s) == Some(State(s.client, SOpen(cfg.url), Pop(s.fifos, cfg.request(cfg.url))))
  {
    HeardAll(cfg.url, s.server.got);
  }

  lemma ServerHearsOkAll(cfg: Config, s: State)
    requires cfg.Listening() && Inv(cfg, s) && s.server.SHearOk? && |s.server.got| == |cfg.url|
    requires ServerStep(cfg, s).Some?
    ensures Inv(cfg, ServerStep(cfg, s).value)
  {
    ServerHearsOkLast(cfg, s);
    var u := cfg.url + [NUL];
    Slices(u, |s.server.got|, Progress(CRank(s.client), 9, Here(s.client), |u|));
  }

  lemma ClientKeepsInv(cfg: Config, s: State)
    requires cfg.Listening() && Inv(cfg, s) && ClientStep(cfg, s).Some?
    ensures Inv(cfg, ClientStep(cfg, s).value)
  {
    match s.client
    case CStart => ClientMakes(cfg, s);
    case CMade => ClientJoinsConn(cfg, s);
    case CJoinConn => ClientJoinedConn(cfg, s);
    case CSayUrl(_) => ClientSaysUrl(cfg, s);
    case CClosed => ClientJoinsRes(cfg, s);
    case CJoinRes => ClientJoinedRes(cfg, s);
    case CHearAck(got) =>
      if |got| < |cfg.url| { ClientHearsAckMore(cfg, s); } else { ClientHearsAckAll(cfg, s); }
    case CAcked => ClientJoinsReq(cfg, s);
    case CJoinReq => ClientJoinedReq(cfg, s);
    case CSayOk(_) => ClientSaysOk(cfg, s);
  }

  lemma ServerKeepsInv(cfg: Config, s: State)
    requires cfg.Listening() && Inv(cfg, s) && ServerStep(cfg, s).Some?
    ensures Inv(cfg, ServerStep(cfg, s).value)
  {
    match s.server
    case SStart => ServerJoinsConn(cfg, s);
    case SJoinConn => ServerJoinedConn(cfg, s);
    case SHearUrl(got) =>
      if |got| < |cfg.url| { ServerHearsUrlMore(cfg, s); } else { ServerHearsUrlAll(cfg, s); }
    case SKnown(_) => ServerMakes(cfg, s);
    case SMade(_) => ServerJoinsRes(cfg, s);
    case SJoinRes(_) => ServerJoinedRes(cfg, s);
    case SSayAck(_, _) => ServerSaysAck(cfg, s);
    case SAcked(_) => ServerJoinsReq(cfg, s);
    case SJoinReq(_) => ServerJoinedReq(cfg, s);
    case SHearOk(_, got) =>
      if |got| < |cfg.url| { ServerHearsOkMore(cfg, s); } else { ServerHearsOkAll(cfg, s); }
  }

  lemma StepKeepsInv(cfg: Config, s: State, who: Who)
    requires cfg.Listening() && Inv(cfg, s) && StepOf(cfg, s, who).Some?
    ensures Inv(cfg, StepOf(cfg, s, who).value)
  {
    if who == TheClient { ClientKeepsInv(cfg, s); } else { ServerKeepsInv(cfg, s); }
  }

  /** The invariant holds under every interleaving. */
  lemma {:induction false} RunKeepsInv(cfg: Config, schedule: seq<Who>)
    requires cfg.Listening()
    ensures Inv(cfg, Run(cfg, schedule))
    decreases |schedule|
  {
    if schedule != [] {
      var n := |schedule| - 1;
      RunKeepsInv(cfg, schedule[..n]);
      var s := Run(cfg, schedule[..n]);
      if StepOf(cfg, s, schedule[n]).Some? {
        StepKeepsInv(cfg, s, schedule[n]);
      }
    }
  }

  // ------------------------------------------------------------- what follows

  /** Both programs returned success, agree on the client, and no FIFO holds a byte. */
  ghost predicate Done(cfg: Config, s: State) {
    && s.client == COpen && s.server == SOpen(cfg.url)
    && (forall p :: p in s.fifos <==> p in cfg.existing || p == cfg.response(cfg.url) || p == cfg.request(cfg.url))
    && cfg.conn in cfg.existing && s.fifos[cfg.conn].bytes == ""
    && s.fifos[cfg.response(cfg.url)].bytes == ""
    && s.fifos[cfg.request(cfg.url)].bytes == ""
  }

  /** If either side ever returns success the paths were fresh and distinct; if
      both do, no handshake byte is left, so the first frame starts aligned. */
  lemma OpenedMeansGood(cfg: Config, schedule: seq<Who>)
    requires cfg.Listening()
    ensures var s := Run(cfg, schedule);
      && (s.client.COpen? || s.server.SOpen? ==> cfg.Good())
      && (s.client.COpen? && s.server.SOpen? ==> Done(cfg, s))
  {
    RunKeepsInv(cfg, schedule);
    var u := cfg.url + [NUL];
    assert u[|u|..|u|] == "";
  }

  /** With fresh, distinct paths nothing fails: every open finds its FIFO made. */
  lemma GoodNeverFails(cfg: Config, schedule: seq<Who>)
    requires cfg.Listening() && cfg.Good()
    ensures !Run(cfg, schedule).client.CFailed? && !Run(cfg, schedule).server.SFailed?
  {
    RunKeepsInv(cfg, schedule);
  }

  /** Why a client fails: its own address, or its FIFO. */
  predicate ClientExplained(cfg: Config, c: Client) {
    match c
    case CFailed(code) => if cfg.valid then code == 300 && !cfg.Vacant(cfg.response(cfg.url)) else code == 202
    case _ => true
  }

  /** Why a server fails: the address it is told, or its FIFO, which must not be the
      client's either. */
  predicate ServerExplained(cfg: Config, v: Server) {
    var req := cfg.request(cfg.url);
    match v
    case SFailed(code) =>
      if cfg.accepts(cfg.url) then code == 3003 && (!cfg.Vacant(req) || req == cfg.response(cfg.url)) else code == 3002
    case _ => true
  }

  lemma ClientFailure(cfg: Config, s: State)
    requires cfg.Listening() && Inv(cfg, s) && ClientStep(cfg, s).Some?
    ensures var t := ClientStep(cfg, s).value;
      ClientExplained(cfg, t.client) && t.server == s.server && !t.client.CStart?
  {
    match s.client
    case CHearAck(got) =>
      if |got| < |cfg.url| {
        HeardMore(cfg.url, got);
      } else {
        ClientHearsAckLast(cfg, s);
      }
    case _ =>
  }

  lemma ServerHears(cfg: Config, s: State)
    requires cfg.Listening() && Inv(cfg, s) && s.server.SHearUrl? && ServerStep(cfg, s).Some?
    ensures ServerExplained(cfg, ServerStep(cfg, s).value.server) && ServerStep(cfg, s).value.client == s.client
  {
    if |s.server.got| < |cfg.url| {
      HeardMore(cfg.url, s.server.got);
    } else {
      HeardAll(cfg.url, s.server.got);
    }
  }

  lemma ServerHearsEnd(cfg: Config, s: State)
    requires cfg.Listening() && Inv(cfg, s) && s.server.SHearOk? && ServerStep(cfg, s).Some?
    ensures ServerExplained(cfg, ServerStep(cfg, s).value.server) && ServerStep(cfg, s).value.client == s.client
  {
    if |s.server.got| < |cfg.url| {
      HeardMore(cfg.url, s.server.got);
    } else {
      ServerHearsOkLast(cfg, s);
    }
  }

  lemma ServerFailure(cfg: Config, s: State)
    requires cfg.Listening() && Inv(cfg, s) && ServerStep(cfg, s).Some?
    ensures ServerExplained(cfg, ServerStep(cfg, s).value.server) && ServerStep(cfg, s).value.client == s.client
  {
    match s.server
    case SHearUrl(_) => ServerHears(cfg, s);
    case SHearOk(_, _) => ServerHearsEnd(cfg, s);
    case _ =>
  }

  /** Under every schedule the codes of failures are these four, each for its own reason;
      the other six exits are never taken while the FIFOs made stay where they are. */
  lemma {:induction false} FailureCodes(cfg: Config, schedule: seq<Who>)
    requires cfg.Listening()
    ensures ClientExplained(cfg, Run(cfg, schedule).client) && ServerExplained(cfg, Run(cfg, schedule).server)
    ensures TheClient in schedule ==> !Run(cfg, schedule).client.CStart?
    decreases |schedule|
  {
    if schedule != [] {
      var n := |schedule| - 1;
      FailureCodes(cfg, schedule[..n]);
      RunKeepsInv(cfg, schedule[..n]);
      var s := Run(cfg, schedule[..n]);
      if StepOf(cfg, s, schedule[n]).Some? {
        if schedule[n] == TheClient { ClientFailure(cfg, s); } else { ServerFailure(cfg, s); }
      }
      assert schedule == schedule[..n] + [schedule[n]];
    }
  }

  /** Once it has been scheduled, the client has failed exactly when its address is not
      valid or its FIFO cannot be made, and the code says which. */
  lemma ClientFailsExactly(cfg: Config, schedule: seq<Who>)
    requires cfg.Listening() && TheClient in schedule
    ensures Run(cfg, schedule).client == CFailed(202) <==> !cfg.valid
    ensures Run(cfg, schedule).client == CFailed(300) <==> cfg.valid && !cfg.Vacant(cfg.response(cfg.url))
  {
    FailureCodes(cfg, schedule);
    RunKeepsInv(cfg, schedule);
  }

  /** Without a connection FIFO: no run gets anywhere. */
  ghost predicate Nowhere(cfg: Config, s: State) {
    var res := cfg.response(cfg.url);
    && s.server in {SStart, SFailed(3001)}
    && s.client in {CStart, CMade, CFailed(203), CFailed(if cfg.valid then 300 else 202)}
    && (s.client == CFailed(300) ==> !cfg.Vacant(res))
    && cfg.conn !in s.fifos
    && (s.client.CStart? ==> s.fifos.Keys == cfg.existing)
  }

  /** A client that finds no connection FIFO fails with its code, and so does a server. */
  lemma {:induction false} NobodyListening(cfg: Config, schedule: seq<Who>)
    requires cfg.conn !in cfg.existing && cfg.conn != cfg.response(cfg.url)
    ensures Nowhere(cfg, Run(cfg, schedule))
    decreases |schedule|
  {
    if schedule != [] {
      NobodyListening(cfg, schedule[..|schedule| - 1]);
    }
  }

  /** Some step is enabled until both sides are open. */
  lemma NoDeadlock(cfg: Config, s: State)
    requires cfg.Listening() && cfg.Good() && Inv(cfg, s)
    requires !(s.client.COpen? && s.server.SOpen?)
    ensures ClientStep(cfg, s).Some? || ServerStep(cfg, s).Some?
  {
    if CRank(s.client) <= SRank(s.server) {
      ClientFirst(cfg, s);
    } else {
      ServerFirst(cfg, s);
    }
  }

  lemma ClientFirst(cfg: Config, s: State)
    requires cfg.Listening() && cfg.Good() && Inv(cfg, s)
    requires CRank(s.client) <= SRank(s.server) && !s.server.SOpen?
    ensures ClientStep(cfg, s).Some? || ServerStep(cfg, s).Some?
  {
  }

  lemma ServerFirst(cfg: Config, s: State)
    requires cfg.Listening() && cfg.Good() && Inv(cfg, s)
    requires SRank(s.server) < CRank(s.client)
    ensures ClientStep(cfg, s).Some? || ServerStep(cfg, s).Some?
  {
  }

  /** Steps still to make before returning success. */
  function ClientLeft(c: Client, L: int): int {
    match c
    case CStart => 7 + 3 * L case CMade => 6 + 3 * L case CJoinConn => 5 + 3 * L
    case CSayUrl(n) => 4 + 3 * L - n case CClosed => 4 + 2 * L case CJoinRes => 3 + 2 * L
    case CHearAck(got) => 2 + 2 * L - |got| case CAcked => 2 + L case CJoinReq => 1 + L
    case CSayOk(n) => L - n case COpen => 0 case CFailed(_) => 0
  }

  function ServerLeft(v: Server, L: int): int {
    match v
    case SStart => 7 + 3 * L case SJoinConn => 6 + 3 * L case SHearUrl(got) => 5 + 3 * L - |got|
    case SKnown(_) => 5 + 2 * L case SMade(_) => 4 + 2 * L case SJoinRes(_) => 3 + 2 * L
    case SSayAck(_, n) => 2 + 2 * L - n case SAcked(_) => 2 + L case SJoinReq(_) => 1 + L
    case SHearOk(_, got) => L - |got| case SOpen(_) => 0 case SFailed(_) => 0
  }

  function Left(cfg: Config, s: State): int {
    ClientLeft(s.client, |cfg.url| + 1) + ServerLeft(s.server, |cfg.url| + 1)
  }

  lemma ClientPlainCounts(cfg: Config, s: State)
    requires Here(s.client) < |cfg.url| + 1 && !s.client.CHearAck?
    requires ClientStep(cfg, s).Some? && !ClientStep(cfg, s).value.client.CFailed?
    ensures Left(cfg, ClientStep(cfg, s).value) == Left(cfg, s) - 1
  {
  }

  lemma ClientHearsCounts(cfg: Config, s: State)
    requires cfg.Listening() && Inv(cfg, s) && ClientStep(cfg, s).Some? && s.client.CHearAck?
    ensures Left(cfg, ClientStep(cfg, s).value) == Left(cfg, s) - 1
  {
    if |s.client.got| < |cfg.url| {
      HeardMore(cfg.url, s.client.got);
    } else {
      ClientHearsAckLast(cfg, s);
    }
  }

  lemma ClientStepCounts(cfg: Config, s: State)
    requires cfg.Listening() && cfg.Good() && Inv(cfg, s) && ClientStep(cfg, s).Some?
    ensures Left(cfg, ClientStep(cfg, s).value) == Left(cfg, s) - 1
  {
    if s.client.CHearAck? {
      ClientHearsCounts(cfg, s);
    } else {
      ClientKeepsInv(cfg, s);
      ClientPlainCounts(cfg, s);
    }
  }

  lemma ServerHearsCounts(cfg: Config, s: State)
    requires cfg.Listening() && cfg.Good() && Inv(cfg, s) && ServerStep(cfg, s).Some?
    requires s.server.SHearOk? || s.server.SHearUrl?
    ensures Left(cfg, ServerStep(cfg, s).value) == Left(cfg, s) - 1
  {
    ServerKeepsInv(cfg, s);
    if |s.server.got| < |cfg.url| {
      HeardMore(cfg.url, s.server.got);
    } else if s.server.SHearOk? {
      ServerHearsOkLast(cfg, s);
    } else {
      HeardAll(cfg.url, s.server.got);
    }
  }

  lemma ServerPlainCounts(cfg: Config, s: State)
    requires There(s.server) < |cfg.url| + 1 && !s.server.SHearUrl? && !s.server.SHearOk?
    requires s.server.SSayAck? ==> s.server.url == cfg.url
    requires ServerStep(cfg, s).Some? && !ServerStep(cfg, s).value.server.SFailed?
    ensures Left(cfg, ServerStep(cfg, s).value) == Left(cfg, s) - 1
  {
  }

  lemma ServerStepCounts(cfg: Config, s: State)
    requires cfg.Listening() && cfg.Good() && Inv(cfg, s) && ServerStep(cfg, s).Some?
    ensures Left(cfg, ServerStep(cfg, s).value) == Left(cfg, s) - 1
  {
    if s.server.SHearOk? || s.server.SHearUrl? {
      ServerHearsCounts(cfg, s);
    } else {
      ServerKeepsInv(cfg, s);
      ServerPlainCounts(cfg, s);
    }
  }

  /** How often the scheduled side could move. */
  function Moves(cfg: Config, schedule: seq<Who>): nat {
    if schedule == [] then 0
    else
      var n := |schedule| - 1;
      Moves(cfg, schedule[..n]) +
      (if StepOf(cfg, Run(cfg, schedule[..n]), schedule[n]).Some? then 1 else 0)
  }

  /** Under every interleaving the handshake takes the same number of
      steps, and it is finished exactly when all of them have been made. */
  lemma {:induction false} MovesExact(cfg: Config, schedule: seq<Who>)
    requires cfg.Listening() && cfg.Good()
    ensures Moves(cfg, schedule) + Left(cfg, Run(cfg, schedule)) == 14 + 6 * (|cfg.url| + 1)
    decreases |schedule|
  {
    if schedule != [] {
      var n := |schedule| - 1;
      MovesExact(cfg, schedule[..n]);
      RunKeepsInv(cfg, schedule[..n]);
      var s := Run(cfg, schedule[..n]);
      if StepOf(cfg, s, schedule[n]).Some? {
        if schedule[n] == TheClient { ClientStepCounts(cfg, s); } else { ServerStepCounts(cfg, s); }
      }
    }
  }

  lemma LeftPositive(cfg: Config, s: State)
    requires Inv(cfg, s) && cfg.Good()
    ensures Left(cfg, s) >= 0
    ensures Left(cfg, s) == 0 <==> s.client.COpen? && s.server.SOpen?
  {
  }

  lemma DoneExact(cfg: Config, schedule: seq<Who>)
    requires cfg.Listening() && cfg.Good()
    ensures Moves(cfg, schedule) <= 14 + 6 * (|cfg.url| + 1)
    ensures Moves(cfg, schedule) == 14 + 6 * (|cfg.url| + 1) <==> Done(cfg, Run(cfg, schedule))
  {
    MovesExact(cfg, schedule);
    RunKeepsInv(cfg, schedule);
    LeftPositive(cfg, Run(cfg, schedule));
    OpenedMeansGood(cfg, schedule);
  }

  /** Every partial run can be completed. */
  lemma {:induction false} Complete(cfg: Config, schedule: seq<Who>) returns (full: seq<Who>)
    requires cfg.Listening() && cfg.Good()
    ensures schedule <= full && Done(cfg, Run(cfg, full))
    decreases 14 + 6 * (|cfg.url| + 1) - Moves(cfg, schedule)
  {
    DoneExact(cfg, schedule);
    var s := Run(cfg, schedule);
    if s.client.COpen? && s.server.SOpen? {
      OpenedMeansGood(cfg, schedule);
      full := schedule;
    } else {
      RunKeepsInv(cfg, schedule);
      NoDeadlock(cfg, s);
      var who := if ClientStep(cfg, s).Some? then TheClient else TheServer;
      var next := schedule + [who];
      assert next[..|schedule|] == schedule;
      full := Complete(cfg, next);
    }
  }

  /** The handshake can succeed exactly when the client's address is accepted and
      the two FIFO paths are fresh and distinct; it then succeeds under every
      schedule that keeps running. */
  lemma HandshakeExact(cfg: Config)
    requires cfg.Listening()
    ensures cfg.Good() <==>
      exists schedule :: Run(cfg, schedule).client.COpen? && Run(cfg, schedule).server.SOpen?
  {
    if cfg.Good() {
      var full := Complete(cfg, []);
    }
    if exists schedule :: Run(cfg, schedule).client.COpen? && Run(cfg, schedule).server.SOpen? {
      var schedule :| Run(cfg, schedule).client.COpen? && Run(cfg, schedule).server.SOpen?;
      OpenedMeansGood(cfg, schedule);
    }
  }
}
