/** Boundary framing of messages on a FIFO (comm.send.fifo.c, comm.read.fifo.c,
    gen_boundary in utils.c).  A frame is boundary ++ payload ++ boundary. */
module Framing {
  import opened Text

  const BUFFER_LENGTH := 2048
  const BOUNDARY_LENGTH := 128
  const BOUNDARY_PREFIX := "--boundaryTPSO1IPC"
  const RAND_MAX := 2147483647

  // ---------------------------------------------------------------- boundaries

  /** `getrnd`, with the value `rand()` produced passed in. */
  function GetRnd(raw: nat, min: nat, max: nat): (r: nat)
    requires min < max
    ensures min <= r < max
    ensures raw < max - min ==> r == min + raw
  {
    raw % (max - min) + min
  }

  /** `gen_boundary`: RAND_MAX has ten decimal digits. */
  function GenBoundary(raw: nat): string {
    BOUNDARY_PREFIX + Decimal(GetRnd(raw, Pow10(9), RAND_MAX)) + "__"
  }

  /** No proper prefix of b is also a suffix of it. */
  ghost predicate Borderless(b: string) {
    forall k :: 0 < k < |b| ==> b[..k] != b[|b| - k..]
  }

  /** What the receiver needs of a boundary. */
  ghost predicate IsBoundary(b: string) {
    && 2 <= |b| < BOUNDARY_LENGTH
    && NulFree(b)
    && b[|b| - 2] == '_' && b[|b| - 1] == '_'
    && Free(b[..|b| - 2], {'_'})
    && Borderless(b)
  }

  /** A '_'-free text, not starting like its own second byte, followed by "__",
      is a boundary: its borders would have to end in '_'. */
  lemma BoundaryFromStem(stem: string)
    requires 3 <= |stem| < BOUNDARY_LENGTH - 2
    requires Free(stem, {'_', NUL})
    requires stem[1] != stem[2]
    ensures IsBoundary(stem + "__")
  {
  }

  lemma PrefixShape()
    ensures |BOUNDARY_PREFIX| == 18 && Free(BOUNDARY_PREFIX, {'_', NUL})
    ensures BOUNDARY_PREFIX[1] == '-' && BOUNDARY_PREFIX[2] == 'b'
  {
  }

  /** Every generated boundary is usable, and has 30 bytes. */
  lemma GeneratedBoundary(raw: nat)
    ensures IsBoundary(GenBoundary(raw)) && |GenBoundary(raw)| == 30
  {
    var n := GetRnd(raw, Pow10(9), RAND_MAX);
    Pow10Ten();
    DecimalLength(n, 10);
    PrefixShape();
    BoundaryFromStem(BOUNDARY_PREFIX + Decimal(n));
  }

  /** Two draws give one boundary only if they give one number. */
  lemma BoundariesDiffer(raw1: nat, raw2: nat)
    ensures GenBoundary(raw1) == GenBoundary(raw2)
      <==> GetRnd(raw1, Pow10(9), RAND_MAX) == GetRnd(raw2, Pow10(9), RAND_MAX)
  {
    var n, m := GetRnd(raw1, Pow10(9), RAND_MAX), GetRnd(raw2, Pow10(9), RAND_MAX);
    AtoiDecimal(n);
    AtoiDecimal(m);
    if GenBoundary(raw1) == GenBoundary(raw2) {
      assert GenBoundary(raw1) == BOUNDARY_PREFIX + (Decimal(n) + "__");
      assert GenBoundary(raw2) == BOUNDARY_PREFIX + (Decimal(m) + "__");
      CancelLeft(BOUNDARY_PREFIX, Decimal(n) + "__", Decimal(m) + "__");
      CutAtDelimiter(Decimal(n), "__", Decimal(m), "__", {'_'});
    }
  }

  lemma Pow10Ten()
    ensures Pow10(9) == 1000000000 && Pow10(10) == 10000000000
  {
  }

  // ------------------------------------------------------------------- sending

  function Frame(b: string, payload: string): string {
    b + payload + b
  }

  class Fifo {
    var bytes: string

    constructor ()
      ensures bytes == ""
    {
      bytes := "";
    }
  }

  /** `write_one_by_one_without_zero` */
  method WriteWithoutZero(fd: Fifo, data: string, size: nat)
    requires size <= |data|
    modifies fd
    ensures fd.bytes == old(fd.bytes) + CStr(data[..size])
  {
    var written := 0;
    while written < size && data[written] != NUL
      invariant written <= size
      invariant NulFree(data[..written])
      invariant fd.bytes == old(fd.bytes) + data[..written]
    {
      fd.bytes := fd.bytes + [data[written]];
      written := written + 1;
    }
    if written == size {
      assert data[..written] == data[..size];
      CStrNulFree(data[..size]);
    } else {
      assert data[..size] == data[..written] + [NUL] + data[written + 1..size];
      CStrTerminated(data[..written], data[written + 1..size]);
    }
  }

  /** The three ordered writes of `comm_send_data`. */
  method WriteFrame(fd: Fifo, boundary: string, data: string, size: nat)
    requires NulFree(boundary) && size <= |data|
    modifies fd
    ensures fd.bytes == old(fd.bytes) + Frame(boundary, CStr(data[..size]))
  {
    assert boundary[..|boundary|] == boundary;
    CStrNulFree(boundary);
    WriteWithoutZero(fd, boundary, |boundary|);
    WriteWithoutZero(fd, data, size);
    WriteWithoutZero(fd, boundary, |boundary|);
    assert fd.bytes == old(fd.bytes) + Frame(boundary, CStr(data[..size]));
  }

  /** `comm_send_data` */
  method SendData(fd: Fifo, data: string, size: nat, raw: nat)
    requires size <= |data|
    modifies fd
    ensures fd.bytes == old(fd.bytes) + Frame(GenBoundary(raw), CStr(data[..size]))
  {
    GeneratedBoundary(raw);
    WriteFrame(fd, GenBoundary(raw), data, size);
  }

  // ----------------------------------------------------------------- receiving

  /** Blocked: the channel ran dry and `read` waits.  Overrun: the code would
      touch memory past one of its two buffers. */
  datatype Outcome = Got(payload: string, rest: string) | Blocked | Overrun

  datatype Head = Head(boundary: string, rest: string) | HeadBlocked | HeadOverrun

  /** The first loop, having read m bytes of s: everything up to the first '_',
      and one more byte. */
  function TakeBoundary(s: string, m: nat): Head
    requires m <= |s|
    decreases |s| - m
  {
    if m + 2 >= BOUNDARY_LENGTH then HeadOverrun
    else if m == |s| then HeadBlocked
    else if s[m] != '_' then TakeBoundary(s, m + 1)
    else if m + 1 == |s| then HeadBlocked
    else Head(s[..m + 2], s[m + 2..])
  }

  /** The loop's exit test with k bytes read: the comparison is `strcmp` against
      the last |b| bytes in the buffer. */
  predicate AtEnd(b: string, s: string, k: nat)
    requires k <= |s|
  {
    k > |b| && CStr(s[k - |b|..k]) == CStr(b)
  }

  /** The second loop, having read m bytes of s into the buffer; a NUL is read
      together with the byte after it. */
  function TakePayload(b: string, s: string, m: nat): Outcome
    requires m <= |s|
    decreases |s| - m
  {
    var k := After(s, m);
    if k >= BUFFER_LENGTH then Overrun
    else if k > |s| then Blocked
    else if AtEnd(b, s, k) then Got(s[..k - |b|], s[k..])
    else TakePayload(b, s, k)
  }

  /** What one call of `comm_receive_data` does with the bytes on its channel. */
  function Receive(input: string): Outcome {
    match TakeBoundary(input, 0)
    case Head(b, rest) => TakePayload(b, rest, 0)
    case HeadBlocked => Blocked
    case HeadOverrun => Overrun
  }

  /** `read(fd, buffer + at, 1)`, where the buffer already holds the first `at`
      bytes of the stream s; false when the read would block. */
  method ReadByte(fd: Fifo, buffer: array<char>, at: nat, ghost s: string) returns (ok: bool)
    requires at < buffer.Length && at <= |s|
    requires buffer[..at] == s[..at] && fd.bytes == s[at..]
    modifies fd, buffer
    ensures ok == (at < |s|)
    ensures ok ==> buffer[..at + 1] == s[..at + 1] && fd.bytes == s[at + 1..]
  {
    if fd.bytes == "" { return false; }
    buffer[at] := fd.bytes[0];
    fd.bytes := fd.bytes[1..];
    assert buffer[..at + 1] == s[..at] + [s[at]];
    return true;
  }

  /** First loop of `comm_receive_data`, filling the boundary buffer. */
  method ReadBoundary(fd: Fifo) returns (r: Head)
    modifies fd
    ensures r == TakeBoundary(old(fd.bytes), 0)
    ensures r.Head? ==> fd.bytes == r.rest
  {
    var boundary := new char[BOUNDARY_LENGTH](_ => NUL);
    var readBytes := 0;
    ghost var s := fd.bytes;
    while true
      invariant readBytes + 1 < BOUNDARY_LENGTH && readBytes <= |s|
      invariant boundary[..readBytes] == s[..readBytes] && fd.bytes == s[readBytes..]
      invariant TakeBoundary(s, 0) == TakeBoundary(s, readBytes)
      decreases |s| - readBytes
    {
      if readBytes + 2 >= BOUNDARY_LENGTH { return HeadOverrun; }
      var ok := ReadByte(fd, boundary, readBytes, s);
      if !ok { return HeadBlocked; }
      readBytes := readBytes + 1;
      assert boundary[..readBytes][readBytes - 1] == s[readBytes - 1];
      if boundary[readBytes - 1] == '_' {
        ok := ReadByte(fd, boundary, readBytes, s);
        if !ok { return HeadBlocked; }
        return Head(boundary[..readBytes + 1], fd.bytes);
      }
    }
  }

  lemma AtEndPrefix(b: string, s: string, k: nat)
    requires k <= |s|
    ensures AtEnd(b, s[..k], k) == AtEnd(b, s, k)
  {
    if k > |b| {
      assert s[..k][k - |b|..k] == s[k - |b|..k];
    }
  }

  /** How many bytes the buffer holds after one turn of the second loop. */
  function After(s: string, m: nat): nat {
    if m < |s| && s[m] == NUL then m + 2 else m + 1
  }

  /** The reads of one turn of the second loop. */
  method ReadTurn(fd: Fifo, buffer: array<char>, readBytes: nat, ghost s: string) returns (k: nat, stop: Outcome)
    requires readBytes < buffer.Length == BUFFER_LENGTH && readBytes <= |s|
    requires buffer[..readBytes] == s[..readBytes] && fd.bytes == s[readBytes..]
    modifies fd, buffer
    ensures After(s, readBytes) >= BUFFER_LENGTH ==> stop == Overrun
    ensures After(s, readBytes) < BUFFER_LENGTH && After(s, readBytes) > |s| ==> stop == Blocked
    ensures After(s, readBytes) < BUFFER_LENGTH && After(s, readBytes) <= |s| ==>
      stop.Got? && k == After(s, readBytes) && buffer[..k] == s[..k] && fd.bytes == s[k..]
  {
    k, stop := readBytes, Got("", "");
    if k + 1 >= BUFFER_LENGTH { return k, Overrun; }
    var ok := ReadByte(fd, buffer, k, s);
    if !ok { return k, Blocked; }
    assert buffer[..k + 1][k] == s[k];
    k := k + 1;
    if buffer[k - 1] == NUL {
      if k + 1 >= BUFFER_LENGTH { return k, Overrun; }
      ok := ReadByte(fd, buffer, k, s);
      if !ok { return k, Blocked; }
      k := k + 1;
    }
  }

  /** Second loop of `comm_receive_data`, filling the message buffer. */
  method ReadPayload(fd: Fifo, b: string) returns (r: Outcome)
    modifies fd
    ensures r == TakePayload(b, old(fd.bytes), 0)
    ensures r.Got? ==> fd.bytes == r.rest
  {
    var buffer := new char[BUFFER_LENGTH](_ => NUL);
    var readBytes := 0;
    ghost var s := fd.bytes;
    while true
      invariant readBytes < BUFFER_LENGTH && readBytes <= |s|
      invariant buffer[..readBytes] == s[..readBytes] && fd.bytes == s[readBytes..]
      invariant TakePayload(b, s, 0) == TakePayload(b, s, readBytes)
      decreases |s| - readBytes
    {
      var k, stop := ReadTurn(fd, buffer, readBytes, s);
      if !stop.Got? { return stop; }
      readBytes := k;
      AtEndPrefix(b, s, readBytes);
      var got := buffer[..readBytes];
      if AtEnd(b, got, readBytes) {
        assert got[..readBytes - |b|] == s[..readBytes - |b|];
        return Got(got[..readBytes - |b|], fd.bytes);
      }
    }
  }

  /** `comm_receive_data` */
  method ReceiveData(fd: Fifo) returns (r: Outcome)
    modifies fd
    ensures r == Receive(old(fd.bytes))
    ensures r.Got? ==> fd.bytes == r.rest
  {
    var head := ReadBoundary(fd);
    match head
    case Head(b, _) => r := ReadPayload(fd, b);
    case HeadBlocked => r := Blocked;
    case HeadOverrun => r := Overrun;
  }

  // ------------------------------------------------------- frames come through

  predicate OccursAt(b: string, p: string, k: nat) {
    k + |b| <= |p| && p[k..k + |b|] == b
  }

  /** b occurs in p after its first position. */
  ghost predicate OccursLater(b: string, p: string) {
    exists k: nat :: 0 < k && OccursAt(b, p, k)
  }

  lemma {:induction false} TakeBoundaryExact(b: string, s: string, m: nat)
    requires IsBoundary(b) && b <= s && m <= |b| - 2
    ensures TakeBoundary(s, m) == Head(b, s[|b|..])
    decreases |b| - m
  {
    if m < |b| - 2 {
      assert b[..|b| - 2][m] == b[m] == s[m];
      TakeBoundaryExact(b, s, m + 1);
    } else {
      assert s[m] == b[m] && s[..m + 2] == b;
    }
  }

  /** The string argument: a borderless b cannot end strictly inside p ++ b,
      unless it already ended inside p. */
  lemma NoMatchAcrossSeam(b: string, p: string, k: nat)
    requires Borderless(b) && !OccursLater(b, p)
    requires 0 < k < |p|
    ensures (p + b)[k..k + |b|] != b
  {
    var piece := (p + b)[k..k + |b|];
    if k + |b| <= |p| {
      assert piece == p[k..k + |b|];
      assert !OccursAt(b, p, k);
    } else {
      var overlap := k + |b| - |p|;
      assert piece[|b| - overlap..] == b[..overlap];
    }
  }

  lemma AtEndPlain(b: string, s: string, k: nat)
    requires k <= |s| && NulFree(b)
    ensures AtEnd(b, s, k) <==> k > |b| && s[k - |b|..k] == b
  {
    CStrNulFree(b);
    if k > |b| {
      var piece := s[k - |b|..k];
      CStrShorter(piece);
      if NulFree(piece) { CStrNulFree(piece); }
    }
  }

  /** In p ++ b, or as much of it as is there, no end is seen before the place of b. */
  lemma NoEarlyEnd(b: string, p: string, s: string, k: nat)
    requires IsBoundary(b) && !OccursLater(b, p) && k <= |s| && s[..k] <= p + b && 0 < k < |p| + |b|
    ensures !AtEnd(b, s, k)
  {
    AtEndPlain(b, s, k);
    if k > |b| {
      NoMatchAcrossSeam(b, p, k - |b|);
      assert s[k - |b|..k] == s[..k][k - |b|..] == (p + b)[k - |b|..k];
    }
  }

  lemma EndInPlace(b: string, p: string, s: string)
    requires Sendable(b, p) && p + b <= s
    ensures AtEnd(b, s, |p| + |b|) && s[..|p|] == p
  {
    var k := |p| + |b|;
    assert s[..k] == p + b;
    assert s[|p|..k] == b && s[..|p|] == p;
    AtEndPlain(b, s, k);
  }

  /** So the loop runs on to there. */
  lemma {:induction false} TakePayloadRuns(b: string, p: string, s: string, m: nat)
    requires Sendable(b, p) && p + b <= s && m < |p| + |b|
    ensures TakePayload(b, s, m) == Got(p, s[|p| + |b|..])
    decreases |p| + |b| - m
  {
    assert s[m] == (p + b)[m] && (p + b)[m] != NUL;
    if m + 1 == |p| + |b| {
      EndInPlace(b, p, s);
    } else {
      assert s[..m + 1] == (p + b)[..m + 1];
      NoEarlyEnd(b, p, s, m + 1);
      TakePayloadRuns(b, p, s, m + 1);
    }
  }

  /** Whatever is received ends no later than the first place, after the start,
      where b is read. */
  lemma {:induction false} TakePayloadFirst(b: string, s: string, m: nat, k: nat)
    requires NulFree(b) && 0 < k && OccursAt(b, s, k) && NulFree(s[..k + |b|])
    requires m < k + |b|
    ensures var r := TakePayload(b, s, m); r.Overrun? || (r.Got? && |r.payload| <= k)
    decreases k + |b| - m
  {
    assert s[..k + |b|][m] == s[m];
    AtEndPlain(b, s, m + 1);
    if m + 1 < k + |b| {
      TakePayloadFirst(b, s, m + 1, k);
    }
  }

  lemma {:induction false} TakePayloadBounds(b: string, s: string, m: nat)
    requires m <= |s|
    ensures var r := TakePayload(b, s, m); r.Got? ==> 0 < |r.payload| && |r.payload| + |b| < BUFFER_LENGTH
    decreases |s| - m
  {
    var k := After(s, m);
    if k < BUFFER_LENGTH && k <= |s| && !AtEnd(b, s, k) {
      TakePayloadBounds(b, s, k);
    }
  }

  /** A payload that survives framing with boundary b. */
  ghost predicate Sendable(b: string, p: string) {
    IsBoundary(b) && NulFree(p) && p != "" && |p| + |b| < BUFFER_LENGTH && !OccursLater(b, p)
  }

  lemma FrameSplit(b: string, p: string, rest: string)
    ensures Frame(b, p) + rest == b + (p + b + rest)
  {
  }

  lemma ReceiveOpens(b: string, p: string, rest: string)
    requires IsBoundary(b)
    ensures Receive(Frame(b, p) + rest) == TakePayload(b, p + b + rest, 0)
  {
    FrameSplit(b, p, rest);
    ReceiveHead(b, p + b + rest);
  }

  lemma ReceiveHead(b: string, tail: string)
    requires IsBoundary(b)
    ensures Receive(b + tail) == TakePayload(b, tail, 0)
  {
    TakeBoundaryExact(b, b + tail, 0);
    assert (b + tail)[|b|..] == tail;
  }

  lemma ReceiveFrame(b: string, p: string, rest: string)
    requires Sendable(b, p)
    ensures Receive(Frame(b, p) + rest) == Got(p, rest)
  {
    ReceiveOpens(b, p, rest);
    TakePayloadRuns(b, p, p + b + rest, 0);
    assert (p + b + rest)[|p| + |b|..] == rest;
  }

  lemma ReceiveFails(b: string, p: string, rest: string)
    requires IsBoundary(b) && NulFree(p) && !Sendable(b, p)
    ensures Receive(Frame(b, p) + rest) != Got(p, rest)
  {
    var s := p + b + rest;
    ReceiveOpens(b, p, rest);
    TakePayloadBounds(b, s, 0);
    if OccursLater(b, p) {
      var k: nat :| 0 < k && OccursAt(b, p, k);
      assert s[..k + |b|] == p[..k + |b|];
      assert s[k..k + |b|] == p[k..k + |b|];
      TakePayloadFirst(b, s, 0, k);
    }
  }

  /** One frame comes through unchanged, with nothing consumed beyond it, exactly
      when its payload is non-empty, fits the receive buffer together with the
      boundary, and does not contain the boundary after its first position. */
  lemma ReceiveExact(b: string, p: string, rest: string)
    requires IsBoundary(b) && NulFree(p)
    ensures Receive(Frame(b, p) + rest) == Got(p, rest)
      <==> p != "" && |p| + |b| < BUFFER_LENGTH && !OccursLater(b, p)
  {
    if Sendable(b, p) {
      ReceiveFrame(b, p, rest);
    } else {
      ReceiveFails(b, p, rest);
    }
  }

  // ------------------------------------------------ what is not a whole frame waits

  /** Without '_' the first loop reads on: to the end of the channel, or of its buffer. */
  lemma {:induction false} TakeBoundaryUnended(s: string, m: nat)
    requires m <= |s| && m + 2 <= BOUNDARY_LENGTH && Free(s, {'_'})
    ensures TakeBoundary(s, m) == if |s| + 2 < BOUNDARY_LENGTH then HeadBlocked else HeadOverrun
    decreases |s| - m
  {
    if m + 2 < BOUNDARY_LENGTH && m < |s| {
      TakeBoundaryUnended(s, m + 1);
    }
  }

  /** The first loop on part of a boundary. */
  lemma {:induction false} TakeBoundaryWaits(b: string, s: string, m: nat)
    requires IsBoundary(b) && s < b && m <= |s| && m <= |b| - 2
    ensures TakeBoundary(s, m) == HeadBlocked
    decreases |s| - m
  {
    if m < |s| {
      assert s[m] == b[m];
      if m < |b| - 2 {
        assert b[..|b| - 2][m] == b[m];
        TakeBoundaryWaits(b, s, m + 1);
      }
    }
  }

  /** The second loop on part of p ++ b. */
  lemma {:induction false} TakePayloadWaits(b: string, p: string, s: string, m: nat)
    requires Sendable(b, p) && s < p + b && m <= |s|
    ensures TakePayload(b, s, m) == Blocked
    decreases |s| - m
  {
    if m < |s| {
      assert s[m] == (p + b)[m] && (p + b)[m] != NUL;
      assert s[..m + 1] == (p + b)[..m + 1];
      NoEarlyEnd(b, p, s, m + 1);
      TakePayloadWaits(b, p, s, m + 1);
    }
  }

  /** On any part of a frame, inside its first boundary or after it, the receiver
      waits: nothing is delivered early, and no buffer is left. */
  lemma ReceiveWaits(b: string, p: string, s: string)
    requires Sendable(b, p) && s < Frame(b, p)
    ensures Receive(s) == Blocked
  {
    FrameSplit(b, p, "");
    assert b + (p + b + "") == b + (p + b) == Frame(b, p);
    if |s| < |b| {
      assert s == Frame(b, p)[..|s|] == b[..|s|];
      TakeBoundaryWaits(b, s, 0);
    } else {
      assert s == Frame(b, p)[..|s|];
      assert s == b + s[|b|..];
      assert s[|b|..] == (p + b)[..|s| - |b|];
      ReceiveHead(b, s[|b|..]);
      TakePayloadWaits(b, p, s[|b|..], 0);
    }
  }

  /** An empty message is never delivered: its frame alone leaves the receiver waiting. */
  lemma {:induction false} EmptyWaits(b: string)
    requires IsBoundary(b)
    ensures Receive(Frame(b, "")) == Blocked
  {
    assert Frame(b, "") == b + b;
    ReceiveHead(b, b);
    EmptyTail(b, 0);
  }

  lemma {:induction false} EmptyTail(b: string, m: nat)
    requires IsBoundary(b) && m <= |b|
    ensures TakePayload(b, b, m) == Blocked
    decreases |b| - m
  {
    if m < |b| {
      EmptyTail(b, m + 1);
    }
  }

  /** A message that does not fit the buffer runs past it. */
  lemma {:induction false} TakePayloadLong(b: string, p: string, s: string, m: nat)
    requires IsBoundary(b) && NulFree(p) && !OccursLater(b, p) && |p| + |b| >= BUFFER_LENGTH
    requires p + b <= s && m < BUFFER_LENGTH
    ensures TakePayload(b, s, m) == Overrun
    decreases BUFFER_LENGTH - m
  {
    assert s[m] == (p + b)[m] && (p + b)[m] != NUL;
    if m + 1 < BUFFER_LENGTH {
      assert s[..m + 1] == (p + b)[..m + 1];
      NoEarlyEnd(b, p, s, m + 1);
      TakePayloadLong(b, p, s, m + 1);
    }
  }

  /** A message without its boundary in it overruns the buffer exactly when it is too
      long for it. */
  lemma OverrunExact(b: string, p: string, rest: string)
    requires IsBoundary(b) && NulFree(p) && p != "" && !OccursLater(b, p)
    ensures Receive(Frame(b, p) + rest) == Overrun <==> |p| + |b| >= BUFFER_LENGTH
  {
    if |p| + |b| < BUFFER_LENGTH {
      ReceiveFrame(b, p, rest);
    } else {
      ReceiveOpens(b, p, rest);
      TakePayloadLong(b, p, p + b + rest, 0);
    }
  }

  /** Bytes without '_' are no frame: the receiver waits, until the boundary buffer is
      full. */
  lemma NoBoundaryWaits(s: string)
    requires Free(s, {'_'})
    ensures Receive(s) == if |s| + 2 < BOUNDARY_LENGTH then Blocked else Overrun
  {
    TakeBoundaryUnended(s, 0);
  }

  // --------------------------------------------------------- whole conversations

  datatype Sent = Sent(boundary: string, payload: string)

  ghost predicate AllSendable(sent: seq<Sent>) {
    forall i :: 0 <= i < |sent| ==> Sendable(sent[i].boundary, sent[i].payload)
  }

  function Frames(sent: seq<Sent>): string {
    if sent == [] then "" else Frame(sent[0].boundary, sent[0].payload) + Frames(sent[1..])
  }

  function Payloads(sent: seq<Sent>): seq<string> {
    seq(|sent|, i requires 0 <= i < |sent| => sent[i].payload)
  }

  /** n calls of `comm_receive_data` in a row: the payloads, and what is left. */
  function ReceiveMany(n: nat, input: string): (r: Option<(seq<string>, string)>) {
    if n == 0 then Some(([], input))
    else
      match Receive(input)
      case Got(p, rest) =>
        (match ReceiveMany(n - 1, rest)
         case Some((ps, left)) => Some(([p] + ps, left))
         case None => None)
      case _ => None
  }

  lemma {:induction false} ConversationExact(sent: seq<Sent>, rest: string)
    requires AllSendable(sent)
    ensures ReceiveMany(|sent|, Frames(sent) + rest) == Some((Payloads(sent), rest))
  {
    if sent == [] {
      assert Frames(sent) + rest == rest;
    } else {
      var s, more := sent[0], Frames(sent[1..]) + rest;
      assert Frames(sent) + rest == Frame(s.boundary, s.payload) + more;
      ReceiveFrame(s.boundary, s.payload, more);
      ConversationExact(sent[1..], rest);
      assert Payloads(sent) == [s.payload] + Payloads(sent[1..]);
    }
  }

  lemma {:induction false} FramesAppend(a: seq<Sent>, b: seq<Sent>)
    ensures Frames(a + b) == Frames(a) + Frames(b)
  {
    if a == [] {
      assert a + b == b;
    } else {
      assert (a + b)[1..] == a[1..] + b;
      FramesAppend(a[1..], b);
    }
  }
}
