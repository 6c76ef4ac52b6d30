/** `address_from_url` for both transports (comm.addr.socket.c, comm.addr.fifo.c). */
module Address {
  import opened Text

  const NEWLINE: char := '\n'
  const COLON: char := ':'

  /** EOF is -1, which a signed char equals exactly when its byte is 255. */
  const EOF: char := 255 as char

  /** The bytes at which the loops over protocol and host stop. */
  const STOPS: set<char> := {COLON, NEWLINE, EOF, NUL}
  const ENDS: set<char> := {NEWLINE, EOF, NUL}

  datatype Transport = Fifo | Socket

  datatype Code = Ok | InvalidProtocol | MissingProtocolToken | MissingPortToken | InvalidPort

  /** The byte a C pointer sees: the terminating NUL lies just past the text. */
  function At(url: string, i: nat): char
    requires i <= |url|
  {
    if i < |url| then url[i] else NUL
  }

  /** First position from i on whose byte is a stop. */
  function Until(url: string, i: nat, stops: set<char>): (j: nat)
    requires i <= |url| && NUL in stops
    ensures i <= j <= |url| && At(url, j) in stops && Free(url[i..j], stops)
    decreases |url| - i
  {
    if At(url, i) in stops then i else Until(url, i + 1, stops)
  }

  lemma UntilUnique(url: string, i: nat, j: nat, stops: set<char>)
    requires i <= j <= |url| && NUL in stops
    requires At(url, j) in stops && Free(url[i..j], stops)
    ensures Until(url, i, stops) == j
  {
    var u := Until(url, i, stops);
    assert forall k :: i <= k < u ==> url[i..u][k - i] == url[k];
    assert forall k :: i <= k < j ==> url[i..j][k - i] == url[k];
  }

  predicate SlashesAt(url: string, i: nat)
    requires i <= |url|
  {
    At(url, i) == '/' && i < |url| && At(url, i + 1) == '/'
  }

  /** The address record: what each exit of the function leaves in it. */
  class CommAddr {
    var valid: bool
    var url: string
    var protocol: string
    var host: string
    var port: nat

    constructor ()
      ensures !valid && url == "" && protocol == "" && host == "" && port == 0
    {
      valid, url, protocol, host, port := false, "", "", "", 0;
    }

    /** `address_from_url`.  A protocol or port that is simply missing leaves
        `valid` set, as in the source. */
    method FromUrl(kind: Transport, text: string) returns (code: Code)
      requires NulFree(text)
      modifies this
      ensures url == text
      ensures code == Parse(kind, text).code
      ensures if code in {Ok, MissingPortToken, InvalidPort}
        then protocol == Parse(kind, text).protocol && host == Parse(kind, text).host
        else protocol == old(protocol) && host == old(host)
      ensures port == if code == Ok && kind == Socket then Parse(kind, text).port else old(port)
      ensures !valid <==> code in {MissingProtocolToken, InvalidPort}
    {
      valid, url := true, text;
      if At(text, 0) != (if kind == Fifo then 'f' else 's') { return InvalidProtocol; }
      var offset := SkipTo(text, 0, STOPS);
      if At(text, offset) in ENDS { valid := false; return MissingProtocolToken; }
      var index := offset;
      offset := offset + 1;
      if !SlashesAt(text, offset) { valid := false; return MissingProtocolToken; }
      offset := offset + 2;
      protocol := text[..index];
      var start := offset;
      offset := SkipTo(text, offset, STOPS);
      host := text[start..offset];
      if kind == Fifo { return Ok; }
      if At(text, offset) in ENDS { return MissingPortToken; }
      offset := offset + 1;
      start := offset;
      offset := SkipDigits(text, offset);
      if At(text, offset) !in ENDS { valid := false; return InvalidPort; }
      port := Atoi(text[start..]);
      return Ok;
    }
  }

  method SkipTo(url: string, i: nat, stops: set<char>) returns (j: nat)
    requires i <= |url| && NUL in stops
    ensures j == Until(url, i, stops)
  {
    j := i;
    while At(url, j) !in stops
      invariant i <= j <= |url|
      invariant Until(url, i, stops) == Until(url, j, stops)
      decreases |url| - j
    {
      j := j + 1;
    }
  }

  /** First position from i on that is not a digit. */
  function UntilNonDigit(url: string, i: nat): (j: nat)
    requires i <= |url|
    ensures i <= j <= |url| && Digits(url[i..j]) && !('0' <= At(url, j) <= '9')
    decreases |url| - i
  {
    if '0' <= At(url, i) <= '9' then UntilNonDigit(url, i + 1) else i
  }

  lemma UntilNonDigitUnique(url: string, i: nat, j: nat)
    requires i <= j <= |url| && Digits(url[i..j]) && !('0' <= At(url, j) <= '9')
    ensures UntilNonDigit(url, i) == j
  {
    var u := UntilNonDigit(url, i);
    assert forall k :: i <= k < u ==> url[i..u][k - i] == url[k];
    assert forall k :: i <= k < j ==> url[i..j][k - i] == url[k];
  }

  method SkipDigits(url: string, i: nat) returns (j: nat)
    requires i <= |url|
    ensures j == UntilNonDigit(url, i)
  {
    j := i;
    while '0' <= At(url, j) <= '9'
      invariant i <= j <= |url|
      invariant UntilNonDigit(url, i) == UntilNonDigit(url, j)
      decreases |url| - j
    {
      j := j + 1;
    }
  }

  datatype Parsed = Parsed(code: Code, protocol: string, host: string, port: nat)

  function Failed(code: Code): Parsed {
    Parsed(code, "", "", 0)
  }

  function Parse(kind: Transport, url: string): Parsed {
    if At(url, 0) != (if kind == Fifo then 'f' else 's') then Failed(InvalidProtocol)
    else
      var i := Until(url, 0, STOPS);
      if At(url, i) in ENDS || !SlashesAt(url, i + 1) then Failed(MissingProtocolToken)
      else
        var h := Until(url, i + 3, STOPS);
        if kind == Fifo then Parsed(Ok, url[..i], url[i + 3..h], 0)
        else if At(url, h) in ENDS then Parsed(MissingPortToken, url[..i], url[i + 3..h], 0)
        else if At(url, UntilNonDigit(url, h + 1)) !in ENDS
        then Parsed(InvalidPort, url[..i], url[i + 3..h], 0)
        else Parsed(Ok, url[..i], url[i + 3..h], Atoi(url[h + 1..]))
  }

  // ------------------------------------------------------------ what is accepted

  /** The grammar of accepted socket addresses; the tail is ignored. */
  ghost predicate SocketUrl(url: string, protocol: string, host: string, digits: string, tail: string) {
    && url == protocol + "://" + host + ":" + digits + tail
    && protocol != "" && protocol[0] == 's'
    && Free(protocol, STOPS) && Free(host, STOPS) && Digits(digits)
    && (tail == "" || tail[0] in ENDS)
  }

  /** The same by positions: ':' at i and h, digits up to e. */
  ghost predicate Positions(url: string, i: nat, h: nat, e: nat) {
    && 0 < i && i + 3 <= h < e <= |url| && url[0] == 's'
    && url[i] == ':' && url[i + 1] == '/' && url[i + 2] == '/' && url[h] == ':'
    && Free(url[0..i], STOPS) && Free(url[i + 3..h], STOPS) && Digits(url[h + 1..e])
    && (e < |url| ==> url[e] in ENDS)
  }

  lemma PositionsFound(url: string, i: nat, h: nat, e: nat)
    requires Positions(url, i, h, e)
    ensures Until(url, 0, STOPS) == i && Until(url, i + 3, STOPS) == h && UntilNonDigit(url, h + 1) == e
  {
    UntilUnique(url, 0, i, STOPS);
    UntilUnique(url, i + 3, h, STOPS);
    UntilNonDigitUnique(url, h + 1, e);
  }

  lemma ParsePositions(url: string, i: nat, h: nat, e: nat)
    requires Positions(url, i, h, e)
    ensures Parse(Socket, url) == Parsed(Ok, url[..i], url[i + 3..h], Atoi(url[h + 1..e]))
  {
    PositionsFound(url, i, h, e);
    AtoiCut(url, h + 1, e);
    assert At(url, 0) == 's' && At(url, i) == ':' && SlashesAt(url, i + 1);
    assert At(url, h) == ':' && At(url, e) in ENDS;
  }

  lemma AtoiCut(url: string, k: nat, e: nat)
    requires k <= e <= |url| && Digits(url[k..e]) && (e < |url| ==> url[e] in ENDS)
    ensures Atoi(url[k..]) == Atoi(url[k..e])
  {
    assert url[k..] == url[k..e] + url[e..];
    AtoiAppend(url[k..e], url[e..], 0);
  }

  lemma AcceptedPositions(url: string) returns (i: nat, h: nat, e: nat)
    requires NulFree(url) && Parse(Socket, url).code == Ok
    ensures Positions(url, i, h, e)
  {
    i := Until(url, 0, STOPS);
    h := Until(url, i + 3, STOPS);
    e := UntilNonDigit(url, h + 1);
  }

  lemma PositionsUrl(url: string, i: nat, h: nat, e: nat)
    requires Positions(url, i, h, e)
    ensures SocketUrl(url, url[..i], url[i + 3..h], url[h + 1..e], url[e..])
  {
  }

  lemma UrlPositions(url: string, protocol: string, host: string, digits: string, tail: string)
    requires SocketUrl(url, protocol, host, digits, tail)
    ensures var i := |protocol|; var h := i + 3 + |host|; var e := h + 1 + |digits|;
      && Positions(url, i, h, e)
      && url[..i] == protocol && url[i + 3..h] == host && url[h + 1..e] == digits
  {
  }

  lemma SocketSound(url: string) returns (digits: string, tail: string)
    requires NulFree(url) && Parse(Socket, url).code == Ok
    ensures var p := Parse(Socket, url);
      SocketUrl(url, p.protocol, p.host, digits, tail) && p.port == Atoi(digits)
  {
    var i, h, e := AcceptedPositions(url);
    ParsePositions(url, i, h, e);
    PositionsUrl(url, i, h, e);
    digits, tail := url[h + 1..e], url[e..];
  }

  lemma SocketComplete(url: string, protocol: string, host: string, digits: string, tail: string)
    requires SocketUrl(url, protocol, host, digits, tail)
    ensures Parse(Socket, url) == Parsed(Ok, protocol, host, Atoi(digits))
  {
    UrlPositions(url, protocol, host, digits, tail);
    ParsePositions(url, |protocol|, |protocol| + 3 + |host|, |protocol| + 4 + |host| + |digits|);
  }

  ghost predicate Accepted(url: string, protocol: string, host: string, port: nat) {
    exists digits, tail :: SocketUrl(url, protocol, host, digits, tail) && port == Atoi(digits)
  }

  /** The function accepts exactly the addresses of the grammar, and fills in
      exactly their parts. */
  lemma SocketExact(url: string, protocol: string, host: string, port: nat)
    requires NulFree(url)
    ensures Parse(Socket, url) == Parsed(Ok, protocol, host, port) <==> Accepted(url, protocol, host, port)
  {
    var p := Parse(Socket, url);
    if p == Parsed(Ok, protocol, host, port) {
      var digits, tail := SocketSound(url);
      assert SocketUrl(url, protocol, host, digits, tail) && port == Atoi(digits);
    }
    if Accepted(url, protocol, host, port) {
      var digits, tail :| SocketUrl(url, protocol, host, digits, tail) && port == Atoi(digits);
      SocketComplete(url, protocol, host, digits, tail);
    }
  }

  /** An address without a second ':' is told apart from one with a bad port: it names
      its host, and has no port. */
  lemma PortMissing(protocol: string, host: string, tail: string)
    requires protocol != "" && protocol[0] == 's' && Free(protocol, STOPS) && Free(host, STOPS)
    requires tail == "" || tail[0] in ENDS
    ensures Parse(Socket, protocol + "://" + host + tail) == Parsed(MissingPortToken, protocol, host, 0)
  {
    var url := protocol + "://" + host + tail;
    SchemeHost(url, protocol, host);
    assert tail != "" ==> url[|protocol| + 3 + |host|] == tail[0];
    UntilUnique(url, |protocol| + 3, |protocol| + 3 + |host|, STOPS);
  }

  /** Where the protocol ends, and the host begins. */
  lemma SchemeHost(url: string, protocol: string, host: string)
    requires protocol != "" && Free(protocol, STOPS) && protocol + "://" + host <= url
    ensures Until(url, 0, STOPS) == |protocol| && SlashesAt(url, |protocol| + 1)
    ensures url[..|protocol|] == protocol && url[|protocol| + 3..|protocol| + 3 + |host|] == host
    ensures url[0] == protocol[0] && url[|protocol|] == ':'
  {
    var head := protocol + "://" + host;
    assert url[..|head|] == head;
    assert forall k :: 0 <= k < |head| ==> url[k] == head[k];
    assert url[0..|protocol|] == protocol;
    UntilUnique(url, 0, |protocol|, STOPS);
  }

  lemma PortBadAt(url: string, i: nat, h: nat, e: nat)
    requires 0 < i && i + 3 <= h < e < |url| && url[0] == 's' && Until(url, 0, STOPS) == i && SlashesAt(url, i + 1)
    requires url[i] == ':' && url[h] == ':' && Free(url[i + 3..h], STOPS)
    requires Digits(url[h + 1..e]) && url[e] !in ENDS && !('0' <= url[e] <= '9')
    ensures Parse(Socket, url) == Parsed(InvalidPort, url[..i], url[i + 3..h], 0)
  {
    UntilUnique(url, i + 3, h, STOPS);
    UntilNonDigitUnique(url, h + 1, e);
  }

  /** A port that does not go on as digits to the end. */
  lemma PortBad(protocol: string, host: string, digits: string, tail: string)
    requires protocol != "" && protocol[0] == 's' && Free(protocol, STOPS) && Free(host, STOPS)
    requires Digits(digits) && tail != "" && tail[0] !in ENDS && !('0' <= tail[0] <= '9')
    ensures Parse(Socket, protocol + "://" + host + ":" + digits + tail) == Parsed(InvalidPort, protocol, host, 0)
  {
    var front := protocol + "://" + host;
    var url := front + ":" + digits + tail;
    var h, e := |front|, |front| + 1 + |digits|;
    assert front == url[..h];
    SchemeHost(url, protocol, host);
    assert url[h] == ':' && url[h + 1..e] == digits && url[e] == tail[0];
    PortBadAt(url, |protocol|, h, e);
  }

  /** Of another kind: the first letter decides. */
  lemma ProtocolWrong(kind: Transport, url: string)
    requires NulFree(url)
    ensures Parse(kind, url).code == InvalidProtocol
      <==> url == "" || url[0] != (match kind case Fifo => 'f' case Socket => 's')
  {
  }

  /** Without "://" after the protocol. */
  lemma SchemeMissing(kind: Transport, protocol: string, tail: string)
    requires protocol != "" && protocol[0] == (match kind case Fifo => 'f' case Socket => 's')
    requires Free(protocol, STOPS) && NulFree(tail) && (tail == "" || tail[0] in STOPS)
    requires |tail| < 3 || tail[0] != ':' || tail[1] != '/' || tail[2] != '/'
    ensures Parse(kind, protocol + tail).code == MissingProtocolToken
  {
    var url, n := protocol + tail, |protocol|;
    assert url[0] == protocol[0] && url[0..n] == protocol;
    assert forall k :: 0 <= k < |tail| ==> url[n + k] == tail[k];
    UntilUnique(url, 0, n, STOPS);
  }

  /** `sprintf(addr, "socket://%s:%d", name, port)` is parsed back, for every port an
      `int` holds. */
  lemma SocketRoundTrip(host: string, port: nat)
    requires Free(host, STOPS) && port < 0x8000_0000
    ensures Parse(Socket, "socket://" + host + ":" + Decimal(port)) == Parsed(Ok, "socket", host, port)
  {
    var url := "socket://" + host + ":" + Decimal(port);
    assert url == "socket" + "://" + host + ":" + Decimal(port) + "";
    AtoiDecimal(port);
    SocketComplete(url, "socket", host, Decimal(port), "");
  }

  /** The host a FIFO address names, if the address is accepted. */
  function FifoHost(url: string): Option<string> {
    var p := Parse(Fifo, url);
    if p.code == Ok then Some(p.host) else None
  }

  /** The client's own address, `fifo://name:3000`, is accepted for every
      delimiter-free name; the port is never looked at. */
  lemma FifoRoundTrip(host: string, rest: string)
    requires Free(host, STOPS) && (rest == "" || rest[0] in STOPS)
    ensures FifoHost("fifo://" + host + rest) == Some(host)
  {
    var url := "fifo://" + host + rest;
    assert url[0..4] == "fifo" && url[4] == ':' && url[5] == '/' && url[6] == '/';
    UntilUnique(url, 0, 4, STOPS);
    assert url[7..7 + |host|] == host;
    assert rest != "" ==> url[7 + |host|] == rest[0];
    UntilUnique(url, 7, 7 + |host|, STOPS);
  }
}
