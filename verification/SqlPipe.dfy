/** SQL over two pipes (lib/sqlite/sqlite.c): the child process cuts its input
    into queries, answers each with row lines and an END line; the caller reads up
    to the first END and keeps the first line. */
module SqlPipe {
  import opened Text
  import Tokenizer

  /** `do { ... } while (strcmp(";", aux) && q++ < 100)` reads at most this much. */
  const WINDOW := 101
  const MAX_LINES := 10
  const MAX_RESPONSE := 2048
  const END := "END"

  /** `SQL_CONNECTION_CLOSE_STR`: the child stops on it, without an END. */
  const CLOSE := "CLOSE CONNECTION;"

  type Row = seq<string>
  type Rows = seq<Row>

  /** The child's database: each piece of text it is given runs to rows. */
  type Engine<!DB> = (DB, string) -> (DB, Rows)

  // ------------------------------------------------------------------- the child

  /** `callback`: a leading empty column leaves no space behind. */
  function RowText(str: string, cells: Row): string
    decreases |cells|
  {
    if cells == [] then str
    else RowText(if str == "" then cells[0] else str + " " + cells[0], cells[1..])
  }

  function Line(row: Row): string {
    RowText("", row)
  }

  /** Columns after the first, each behind a space. */
  function Spaced(cells: Row): string {
    if cells == [] then "" else " " + cells[0] + Spaced(cells[1..])
  }

  lemma {:induction false} RowTextExact(str: string, cells: Row)
    requires str != ""
    ensures RowText(str, cells) == str + Spaced(cells)
    decreases |cells|
  {
    if cells == [] {
      assert str + Spaced(cells) == str;
    } else {
      RowTextExact(str + " " + cells[0], cells[1..]);
      assert str + " " + cells[0] + Spaced(cells[1..]) == str + (" " + cells[0] + Spaced(cells[1..]));
    }
  }

  /** A line: leading empty columns leave nothing, and what follows is separated by one
      space each. */
  lemma LineExact(row: Row)
    ensures row == [] ==> Line(row) == ""
    ensures row != [] && row[0] == "" ==> Line(row) == Line(row[1..])
    ensures row != [] && row[0] != "" ==> Line(row) == row[0] + Spaced(row[1..])
  {
    if row != [] && row[0] != "" {
      RowTextExact(row[0], row[1..]);
    }
  }

  function Lines(rows: Rows): string {
    if rows == [] then "" else Line(rows[0]) + "\n" + Lines(rows[1..])
  }

  /** Everything written for one query. */
  function ReplyText(rows: Rows): string {
    Lines(rows) + (END + "\n")
  }

  function Wire(replies: seq<Rows>): string {
    if replies == [] then "" else ReplyText(replies[0]) + Wire(replies[1..])
  }

  /** The child between two reads: its database, the query read so far, and whether it
      still reads. */
  datatype Child<DB> = Child(db: DB, buffer: string, running: bool)

  predicate Complete(buffer: string) {
    buffer != "" && (buffer[|buffer| - 1] == ';' || |buffer| >= WINDOW)
  }

  /** A complete piece is run, or closes the connection. */
  function Finish<DB>(exec: Engine<DB>, db: DB, piece: string): (Child<DB>, seq<Rows>) {
    if piece == CLOSE then (Child(db, "", false), [])
    else
      var (db1, rows) := exec(db, piece);
      (Child(db1, "", true), [rows])
  }

  function Feed<DB>(exec: Engine<DB>, c: Child<DB>, byte: char): (Child<DB>, seq<Rows>) {
    if !c.running then (c, [])
    else if Complete(c.buffer + [byte]) then Finish(exec, c.db, c.buffer + [byte])
    else (Child(c.db, c.buffer + [byte], true), [])
  }

  function Serve<DB>(exec: Engine<DB>, c: Child<DB>, bytes: string): (Child<DB>, seq<Rows>)
    decreases |bytes|
  {
    if bytes == "" then (c, [])
    else
      var (c1, out) := Feed(exec, c, bytes[0]);
      var (c2, more) := Serve(exec, c1, bytes[1..]);
      (c2, out + more)
  }

  /** What the child does depends on the bytes alone, not on how they arrive. */
  lemma {:induction false} ServeAppend<DB>(exec: Engine<DB>, c: Child<DB>, a: string, b: string)
    ensures var (c1, out1) := Serve(exec, c, a);
      var (c2, out2) := Serve(exec, c1, b);
      Serve(exec, c, a + b) == (c2, out1 + out2)
    decreases |a|
  {
    if a == "" {
      assert a + b == b;
      assert [] + Serve(exec, c, b).1 == Serve(exec, c, b).1;
    } else {
      assert (a + b)[1..] == a[1..] + b;
      var (c1, out) := Feed(exec, c, a[0]);
      ServeAppend(exec, c1, a[1..], b);
      var (c2, more) := Serve(exec, c1, a[1..]);
      var (c3, last) := Serve(exec, c2, b);
      assert out + (more + last) == out + more + last;
    }
  }

  /** A child that has stopped leaves everything unread. */
  lemma {:induction false} ServeStopped<DB>(exec: Engine<DB>, c: Child<DB>, bytes: string)
    requires !c.running
    ensures Serve(exec, c, bytes) == (c, [])
    decreases |bytes|
  {
    if bytes != "" {
      ServeStopped(exec, c, bytes[1..]);
      var none: seq<Rows> := [];
      assert Feed(exec, c, bytes[0]) == (c, none) && none + none == none;
    }
  }

  // ------------------------------------------------------------------ the caller

  /** The reply of one call: the first row's line, or END. */
  function First(rows: Rows): string {
    if rows == [] then END else Line(rows[0])
  }

  /** Rows that come through as lines, and fit the caller's ten slots with END. */
  predicate GoodRow(row: Row) {
    '\n' !in Line(row) && Line(row) != END && |Line(row)| + 2 <= MAX_RESPONSE
  }

  predicate GoodRows(rows: Rows) {
    |rows| < MAX_LINES && forall i :: 0 <= i < |rows| ==> GoodRow(rows[i])
  }

  /** The lines of a reply, in the order the caller reads them. */
  function ReplyLines(rows: Rows): (ls: seq<string>)
    ensures |ls| == |rows| + 1
  {
    seq(|rows|, i requires 0 <= i < |rows| => Line(rows[i])) + [END]
  }

  function JoinLines(ls: seq<string>): string {
    if ls == [] then "" else ls[0] + "\n" + JoinLines(ls[1..])
  }

  lemma {:induction false} ReplyIsLines(rows: Rows)
    ensures ReplyText(rows) == JoinLines(ReplyLines(rows))
    decreases |rows|
  {
    var ls := ReplyLines(rows);
    if rows == [] {
      assert ls == [END] && ls[1..] == [];
    } else {
      assert ls[1..] == ReplyLines(rows[1..]) && ls[0] == Line(rows[0]);
      ReplyIsLines(rows[1..]);
    }
  }

  lemma {:induction false} WireAppend(a: seq<Rows>, b: seq<Rows>)
    ensures Wire(a + b) == Wire(a) + Wire(b)
    decreases |a|
  {
    if a == [] {
      assert a + b == b;
    } else {
      assert (a + b)[1..] == a[1..] + b;
      WireAppend(a[1..], b);
    }
  }

  // ------------------------------------------------- both processes and two pipes

  class SqlConnection<!DB> {
    const exec: Engine<DB>
    var toChild: string
    var toCaller: string
    var db: DB
    var buffer: string
    var running: bool

    /** Replies written by the child and not yet read. */
    ghost var pending: seq<Rows>

    ghost predicate Valid()
      reads this
    {
      (running ==> toChild == "") && toCaller == Wire(pending)
    }

    ghost function State(): Child<DB>
      reads this
    {
      Child(db, buffer, running)
    }

    constructor (exec: Engine<DB>, db: DB)
      ensures Valid() && this.exec == exec && this.db == db && buffer == "" && running && pending == []
    {
      this.exec, this.db, running := exec, db, true;
      toChild, toCaller, buffer, pending := "", "", "", [];
    }

    /** `callback`, building its line in place. */
    method Callback(row: Row)
      modifies this`toCaller
      ensures toCaller == old(toCaller) + Line(row) + "\n"
    {
      var str := "";
      var i := 0;
      while i < |row|
        invariant i <= |row|
        invariant RowText(str, row[i..]) == Line(row)
      {
        str := if str == "" then row[i] else str + " " + row[i];
        i := i + 1;
      }
      toCaller := toCaller + str + "\n";
    }

    method WriteReply(rows: Rows)
      modifies this`toCaller
      ensures toCaller == old(toCaller) + ReplyText(rows)
    {
      var i := 0;
      while i < |rows|
        invariant i <= |rows|
        invariant toCaller + Lines(rows[i..]) == old(toCaller) + Lines(rows)
      {
        ghost var before := toCaller;
        assert rows[i..][0] == rows[i] && rows[i..][1..] == rows[i + 1..];
        assert Lines(rows[i..]) == Line(rows[i]) + "\n" + Lines(rows[i + 1..]);
        Callback(rows[i]);
        assert before + Lines(rows[i..]) == toCaller + Lines(rows[i + 1..]);
        i := i + 1;
      }
      assert rows[i..] == [];
      assert toCaller == old(toCaller) + Lines(rows);
      toCaller := toCaller + (END + "\n");
      assert toCaller == old(toCaller) + ReplyText(rows);
    }

    /** One turn of the child's reading loop, running the query when it is complete. */
    method FeedByte()
      requires running && toChild != "" && toCaller == Wire(pending)
      modifies this
      ensures toCaller == Wire(pending) && toChild == old(toChild)[1..]
      ensures var (c, out) := Feed(exec, old(State()), old(toChild)[0]);
        State() == c && pending == old(pending) + out
    {
      buffer := buffer + [toChild[0]];
      toChild := toChild[1..];
      if Complete(buffer) && buffer == CLOSE {
        running, buffer := false, "";
      } else if Complete(buffer) {
        var result := exec(db, buffer);
        db := result.0;
        WriteReply(result.1);
        buffer := "";
        WireAppend(pending, [result.1]);
        assert Wire([result.1]) == ReplyText(result.1) + "";
        pending := pending + [result.1];
      }
    }

    /** The loop of `init_sqlite_server`, run until its read would block. */
    method RunChild()
      requires toCaller == Wire(pending)
      modifies this
      ensures Valid()
      ensures var (c, out) := Serve(exec, old(State()), old(toChild));
        State() == c && pending == old(pending) + out
    {
      ghost var whole := Serve(exec, State(), toChild);
      while running && toChild != ""
        invariant toCaller == Wire(pending)
        invariant Serve(exec, State(), toChild).0 == whole.0
        invariant pending + Serve(exec, State(), toChild).1 == old(pending) + whole.1
        decreases |toChild|
      {
        ghost var before, out := pending, Feed(exec, State(), toChild[0]).1;
        FeedByte();
        ghost var more := Serve(exec, State(), toChild).1;
        assert before + (out + more) == before + out + more;
      }
      if !running {
        ServeStopped(exec, State(), toChild);
      }
    }

    /** The inner loop of `run_sqlite_query`: one line, without its newline. */
    method ReadLine(ghost line: string, ghost rest: string) returns (response: string)
      requires toCaller == line + "\n" + rest && '\n' !in line
      modifies this`toCaller
      ensures response == line && toCaller == rest
    {
      response := "";
      var aux := ' ';
      while aux != '\n'
        invariant aux != '\n' ==> |response| <= |line| && response == line[..|response|]
        invariant aux != '\n' ==> toCaller == line[|response|..] + "\n" + rest
        invariant aux == '\n' ==> response == line + "\n" && toCaller == rest
        decreases aux != '\n', |toCaller|
      {
        ghost var n := |response|;
        assert toCaller[0] == if n < |line| then line[n] else '\n';
        aux := toCaller[0];
        toCaller := toCaller[1..];
        response := response + [aux];
        assert n < |line| ==> line[n] in line && response == line[..n + 1] && toCaller == line[n + 1..] + "\n" + rest;
      }
      response := response[..|response| - 1];
    }

    /** The outer loop of `run_sqlite_query`: lines up to END, in ten slots. */
    method ReadAnswer(ghost rows: Rows, ghost rest: string) returns (answer: string)
      requires GoodRows(rows) && toCaller == ReplyText(rows) + rest
      modifies this`toCaller
      ensures answer == First(rows) && toCaller == rest
    {
      var vector := new string[MAX_LINES](_ => "");
      var i := 0;
      var response := "";
      ghost var ls := ReplyLines(rows);
      ReplyIsLines(rows);
      while i == 0 || response != END
        invariant i <= |ls|
        invariant toCaller == JoinLines(ls[i..]) + rest
        invariant i > 0 ==> vector[0] == ls[0] && response == ls[i - 1]
        decreases |ls| - i
      {
        assert i < |ls| by {
          assert i == |ls| ==> response == END;
        }
        assert i < |rows| ==> GoodRow(rows[i]);
        assert ls[i..][0] == ls[i] && ls[i..][1..] == ls[i + 1..];
        assert toCaller == ls[i] + "\n" + (JoinLines(ls[i + 1..]) + rest);
        response := ReadLine(ls[i], JoinLines(ls[i + 1..]) + rest);
        vector[i] := response;
        i := i + 1;
      }
      assert i - 1 < |rows| ==> GoodRow(rows[i - 1]);
      assert ls[i..] == [];
      answer := vector[0];
    }

    /** `run_sqlite_query`.  None is a caller left waiting. */
    method RunSqliteQuery(text: string) returns (answer: Option<string>)
      requires Valid() && text != ""
      requires forall r :: r in pending + Serve(exec, State(), text).1 ==> GoodRows(r)
      modifies this
      ensures Valid()
      ensures (Link(State(), pending), answer) == Call(exec, Link(old(State()), old(pending)), text)
    {
      var writtenBytes := 0;
      while writtenBytes < |text|
        invariant writtenBytes <= |text|
        invariant toChild == old(toChild) + text[..writtenBytes]
        invariant toCaller == old(toCaller) && State() == old(State()) && pending == old(pending)
      {
        toChild := toChild + [text[writtenBytes]];
        writtenBytes := writtenBytes + 1;
      }
      assert toChild == old(toChild) + text;
      if running {
        assert toChild == text;
      } else {
        ServeStopped(exec, State(), toChild);
        ServeStopped(exec, State(), text);
      }
      RunChild();
      if toCaller == "" {
        answer := None;
      } else {
        ghost var queue := pending;
        assert queue != [];
        assert queue[0] in queue;
        pending := queue[1..];
        var line := ReadAnswer(queue[0], Wire(queue[1..]));
        answer := Some(line);
      }
    }
  }

  // --------------------------------------------------------------- how queries cut

  /** A query as rendered: its only ';' is its last byte, and no piece of it closes
      the connection. */
  predicate QueryText(text: string) {
    |text| > 0 && text[|text| - 1] == ';' && ';' !in text[..|text| - 1] && CLOSE !in Pieces(text)
  }

  /** The pieces the child runs for one query. */
  function Pieces(text: string): (ps: seq<string>)
    decreases |text|
  {
    if |text| <= WINDOW then [text] else [text[..WINDOW]] + Pieces(text[WINDOW..])
  }

  function CeilDiv(n: nat, d: nat): (r: nat)
    requires d > 0
    ensures n > 0 ==> r > 0
  {
    (n + d - 1) / d
  }

  lemma {:induction false} PiecesExact(text: string)
    requires text != ""
    ensures |Pieces(text)| == CeilDiv(|text|, WINDOW)
    ensures Flatten(Pieces(text)) == text
    decreases |text|
  {
    if |text| > WINDOW {
      PiecesExact(text[WINDOW..]);
      assert text == text[..WINDOW] + text[WINDOW..];
      assert Pieces(text)[1..] == Pieces(text[WINDOW..]);
    } else {
      assert text + "" == text;
    }
  }

  function RunPieces<DB>(exec: Engine<DB>, db: DB, ps: seq<string>): (DB, seq<Rows>) {
    if ps == [] then (db, [])
    else
      var (db1, rows) := exec(db, ps[0]);
      var (db2, more) := RunPieces(exec, db1, ps[1..]);
      (db2, [rows] + more)
  }

  /** Reading on within one piece. */
  lemma {:induction false} ServeWithin<DB>(exec: Engine<DB>, db: DB, piece: string, m: nat, rest: string)
    requires m < |piece| <= WINDOW && ';' !in piece[..|piece| - 1] && Complete(piece)
    ensures var (c1, out) := Finish(exec, db, piece);
      var (c, more) := Serve(exec, c1, rest);
      Serve(exec, Child(db, piece[..m], true), piece[m..] + rest) == (c, out + more)
    decreases |piece| - m
  {
    var s := piece[m..] + rest;
    assert piece[..m] + [s[0]] == piece[..m + 1] && s[1..] == piece[m + 1..] + rest;
    if m + 1 == |piece| {
      assert piece[..m + 1] == piece && piece[m + 1..] + rest == rest;
    } else {
      assert piece[..|piece| - 1][m] == piece[m];
      assert !Complete(piece[..m + 1]);
      ServeWithin(exec, db, piece, m + 1, rest);
      var r := Serve(exec, Child(db, piece[..m + 1], true), piece[m + 1..] + rest);
      assert [] + r.1 == r.1;
    }
  }

  /** From an empty buffer, a query is run piece by piece and nothing is kept back. */
  lemma {:induction false} ServeQuery<DB>(exec: Engine<DB>, db: DB, text: string)
    requires QueryText(text)
    ensures var (db1, out) := RunPieces(exec, db, Pieces(text));
      Serve(exec, Child(db, "", true), text) == (Child(db1, "", true), out)
    decreases |text|
  {
    var piece := if |text| <= WINDOW then text else text[..WINDOW];
    var rest := text[|piece|..];
    assert text == piece[0..] + rest && piece[..0] == "";
    assert Pieces(text)[0] == piece;
    ServeWithin(exec, db, piece, 0, rest);
    var db1 := exec(db, piece).0;
    if rest != "" {
      assert rest[..|rest| - 1] == text[..|text| - 1][WINDOW..];
      assert Pieces(text)[1..] == Pieces(rest);
      ServeQuery(exec, db1, rest);
      assert Pieces(text)[1..] == Pieces(rest);
    } else {
      assert Pieces(text) == [text];
    }
  }

  lemma {:induction false} RunPiecesLength<DB>(exec: Engine<DB>, db: DB, ps: seq<string>)
    ensures |RunPieces(exec, db, ps).1| == |ps|
    decreases |ps|
  {
    if ps != [] {
      RunPiecesLength(exec, exec(db, ps[0]).0, ps[1..]);
    }
  }

  // ------------------------------------------------------------ whole runs of calls

  /** Both pipes between two calls, on values: the child and the unread replies. */
  datatype Link<DB> = Link(child: Child<DB>, pending: seq<Rows>)

  function Call<DB>(exec: Engine<DB>, k: Link<DB>, text: string): (Link<DB>, Option<string>) {
    var (c, out) := Serve(exec, k.child, text);
    var queue := k.pending + out;
    if queue == [] then (Link(c, []), None) else (Link(c, queue[1..]), Some(First(queue[0])))
  }

  function Calls<DB>(exec: Engine<DB>, k: Link<DB>, texts: seq<string>): Link<DB>
    decreases |texts|
  {
    if texts == [] then k else Calls(exec, Call(exec, k, texts[0]).0, texts[1..])
  }

  /** END markers beyond one per query. */
  function Excess(texts: seq<string>): nat
    requires forall t :: t in texts ==> QueryText(t)
    decreases |texts|
  {
    if texts == [] then 0
    else
      assert texts[0] in texts && QueryText(texts[0]);
      CeilDiv(|texts[0]|, WINDOW) - 1 + Excess(texts[1..])
  }

  lemma CallExact<DB>(exec: Engine<DB>, k: Link<DB>, text: string)
    requires QueryText(text) && k.child.buffer == "" && k.child.running
    ensures var (k', answer) := Call(exec, k, text);
      && k'.child.buffer == "" && k'.child.running
      && |k'.pending| == |k.pending| + CeilDiv(|text|, WINDOW) - 1
      && (k.pending != [] ==> answer == Some(First(k.pending[0])))
      && (k.pending == [] && |text| <= WINDOW ==>
          answer == Some(First(exec(k.child.db, text).1)) && k'.child.db == exec(k.child.db, text).0)
  {
    ServeQuery(exec, k.child.db, text);
    RunPiecesLength(exec, k.child.db, Pieces(text));
    PiecesExact(text);
    var queue := k.pending + Serve(exec, k.child, text).1;
    assert |queue| == |k.pending| + CeilDiv(|text|, WINDOW);
    assert k.pending != [] ==> queue[0] == k.pending[0];
    if |text| <= WINDOW {
      assert Pieces(text) == [text] && Pieces(text)[1..] == [];
    }
  }

  /** Over every run, the replies left unread number exactly the END markers the
      queries caused beyond one each: the pipes never realign by themselves. */
  lemma {:induction false} LagExact<DB>(exec: Engine<DB>, k: Link<DB>, texts: seq<string>)
    requires forall t :: t in texts ==> QueryText(t)
    requires k.child.buffer == "" && k.child.running
    ensures var k' := Calls(exec, k, texts);
      k'.child.buffer == "" && k'.child.running && |k'.pending| == |k.pending| + Excess(texts)
    decreases |texts|
  {
    if texts != [] {
      assert texts[0] in texts;
      CallExact(exec, k, texts[0]);
      LagExact(exec, Call(exec, k, texts[0]).0, texts[1..]);
    }
  }

  lemma {:induction false} ExcessZero(texts: seq<string>)
    requires forall t :: t in texts ==> QueryText(t)
    ensures Excess(texts) == 0 <==> forall t :: t in texts ==> |t| <= WINDOW
    decreases |texts|
  {
    if texts != [] {
      ExcessZero(texts[1..]);
      assert texts[0] in texts;
      assert CeilDiv(|texts[0]|, WINDOW) == 1 <==> |texts[0]| <= WINDOW;
      assert forall t :: t in texts <==> t == texts[0] || t in texts[1..];
    }
  }

  /** Starting aligned, both pipes are empty after a run of queries exactly when
      every query fits the child's read window. */
  lemma AlignmentExact<DB>(exec: Engine<DB>, db: DB, texts: seq<string>)
    requires forall t :: t in texts ==> QueryText(t)
    ensures var k' := Calls(exec, Link(Child(db, "", true), []), texts);
      (k'.pending == [] && k'.child.buffer == "" && k'.child.running) <==> forall t :: t in texts ==> |t| <= WINDOW
  {
    LagExact(exec, Link(Child(db, "", true), []), texts);
    ExcessZero(texts);
  }

  // ------------------------------------------------------- the answers of a whole run

  function AllPieces(texts: seq<string>): seq<string> {
    if texts == [] then [] else Pieces(texts[0]) + AllPieces(texts[1..])
  }

  function Answers<DB>(exec: Engine<DB>, k: Link<DB>, texts: seq<string>): (r: seq<Option<string>>)
    ensures |r| == |texts|
    decreases |texts|
  {
    if texts == [] then []
    else [Call(exec, k, texts[0]).1] + Answers(exec, Call(exec, k, texts[0]).0, texts[1..])
  }

  lemma {:induction false} RunPiecesAppend<DB>(exec: Engine<DB>, db: DB, a: seq<string>, b: seq<string>)
    ensures var (db1, out) := RunPieces(exec, db, a);
      var (db2, more) := RunPieces(exec, db1, b);
      RunPieces(exec, db, a + b) == (db2, out + more)
    decreases |a|
  {
    if a == [] {
      assert a + b == b;
      assert [] + RunPieces(exec, db, b).1 == RunPieces(exec, db, b).1;
    } else {
      assert (a + b)[1..] == a[1..] + b;
      var (db1, rows) := exec(db, a[0]);
      RunPiecesAppend(exec, db1, a[1..], b);
      var (db2, out) := RunPieces(exec, db1, a[1..]);
      var more := RunPieces(exec, db2, b).1;
      assert [rows] + (out + more) == [rows] + out + more;
    }
  }

  /** Over every run the i-th caller gets the first row of the i-th reply still to be
      read, its own or not: those left unread before, then those of all pieces run. */
  lemma {:induction false} AnswersExact<DB>(exec: Engine<DB>, k: Link<DB>, texts: seq<string>)
    requires (forall t :: t in texts ==> QueryText(t)) && k.child.buffer == "" && k.child.running
    ensures var replies := k.pending + RunPieces(exec, k.child.db, AllPieces(texts)).1;
      && |texts| <= |replies|
      && forall i :: 0 <= i < |texts| ==> Answers(exec, k, texts)[i] == Some(First(replies[i]))
    decreases |texts|
  {
    if texts != [] {
      var text, rest := texts[0], texts[1..];
      assert text in texts;
      ServeQuery(exec, k.child.db, text);
      CallExact(exec, k, text);
      var (db1, out) := RunPieces(exec, k.child.db, Pieces(text));
      RunPiecesLength(exec, k.child.db, Pieces(text));
      var (k1, answer) := Call(exec, k, text);
      assert k1 == Link(Child(db1, "", true), (k.pending + out)[1..]);
      AnswersExact(exec, k1, rest);
      RunPiecesAppend(exec, k.child.db, Pieces(text), AllPieces(rest));
      var more := RunPieces(exec, db1, AllPieces(rest)).1;
      QueueTurns(k.pending, out, more);
      assert forall i :: 0 < i < |texts| ==> Answers(exec, k, texts)[i] == Answers(exec, k1, rest)[i - 1];
    }
  }

  lemma QueueTurns(pending: seq<Rows>, out: seq<Rows>, more: seq<Rows>)
    requires out != []
    ensures var all := pending + (out + more);
      && all[0] == (pending + out)[0]
      && all[1..] == (pending + out)[1..] + more
  {
  }

  lemma {:induction false} ShortPieces(texts: seq<string>)
    requires forall t :: t in texts ==> |t| <= WINDOW
    ensures AllPieces(texts) == texts
    decreases |texts|
  {
    if texts != [] {
      assert texts[0] in texts && Pieces(texts[0]) == [texts[0]];
      ShortPieces(texts[1..]);
      assert texts == [texts[0]] + texts[1..];
    }
  }

  lemma {:induction false} RunPiecesAt<DB>(exec: Engine<DB>, db: DB, ps: seq<string>, i: nat)
    requires i < |ps| && |RunPieces(exec, db, ps).1| == |ps|
    ensures RunPieces(exec, db, ps).1[i] == exec(RunPieces(exec, db, ps[..i]).0, ps[i]).1
  {
    if i > 0 {
      var db1 := exec(db, ps[0]).0;
      RunPiecesLength(exec, db1, ps[1..]);
      RunPiecesAt(exec, db1, ps[1..], i - 1);
      assert ps[..i][1..] == ps[1..][..i - 1];
    }
  }

  /** From aligned pipes and queries that fit the window, every caller gets its own
      first row, or END. */
  lemma OwnAnswers<DB>(exec: Engine<DB>, db: DB, texts: seq<string>, i: nat)
    requires (forall t :: t in texts ==> QueryText(t) && |t| <= WINDOW) && i < |texts|
    ensures Answers(exec, Link(Child(db, "", true), []), texts)[i] ==
      Some(First(exec(RunPieces(exec, db, texts[..i]).0, texts[i]).1))
  {
    AnswersExact(exec, Link(Child(db, "", true), []), texts);
    ShortPieces(texts);
    RunPiecesLength(exec, db, texts);
    RunPiecesAt(exec, db, texts, i);
  }

  /** A ';' inside a query cuts it early: some reply is left unread, or the child has
      stopped. */
  lemma SemicolonCuts<DB>(exec: Engine<DB>, db: DB, a: string, b: string)
    ensures var k := Call(exec, Link(Child(db, "", true), []), a + ";" + (b + ";")).0;
      k.pending != [] || !k.child.running
  {
    var c := Child(db, "", true);
    EndReplies(exec, c, a);
    EndReplies(exec, Serve(exec, c, a + ";").0, b);
    ServeAppend(exec, c, a + ";", b + ";");
    var c1 := Serve(exec, c, a + ";").0;
    if !c1.running {
      ServeStopped(exec, c1, b + ";");
    }
  }

  lemma EndReplies<DB>(exec: Engine<DB>, c: Child<DB>, a: string)
    ensures Serve(exec, c, a + ";").1 != [] || !Serve(exec, c, a + ";").0.running
  {
    ServeAppend(exec, c, a, ";");
    var c1 := Serve(exec, c, a).0;
    assert Complete(c1.buffer + [';']);
    assert Serve(exec, c1, ";") == (Feed(exec, c1, ';').0, Feed(exec, c1, ';').1 + []);
  }

  // ------------------------------------------------------------- when the child stops

  lemma CloseText()
    ensures 0 < |CLOSE| <= WINDOW && CLOSE[|CLOSE| - 1] == ';' && ';' !in CLOSE[..|CLOSE| - 1]
  {
  }

  lemma ServeClose<DB>(exec: Engine<DB>, db: DB)
    ensures Serve(exec, Child(db, "", true), CLOSE) == (Child(db, "", false), [])
  {
    CloseText();
    ServePiece(exec, db, CLOSE);
  }

  lemma ServePiece<DB>(exec: Engine<DB>, db: DB, piece: string)
    requires 0 < |piece| <= WINDOW && ';' !in piece[..|piece| - 1] && Complete(piece)
    ensures Serve(exec, Child(db, "", true), piece) == Finish(exec, db, piece)
  {
    var r, none: seq<Rows> := Finish(exec, db, piece), [];
    assert piece[..0] == "" && piece[0..] + "" == piece;
    assert Serve(exec, r.0, "") == (r.0, none) && r.1 + none == r.1;
    ServeWithin(exec, db, piece, 0, "");
  }

  /** The close text after a query, as in a login name that holds it between two ';':
      the query is answered and the child stops. */
  lemma CloseAfterQuery<DB>(exec: Engine<DB>, db: DB, text: string)
    requires QueryText(text)
    ensures var (k, answer) := Call(exec, Link(Child(db, "", true), []), text + CLOSE);
      !k.child.running && answer.Some?
  {
    ServeQuery(exec, db, text);
    RunPiecesLength(exec, db, Pieces(text));
    ServeAppend(exec, Child(db, "", true), text, CLOSE);
    ServeClose(exec, RunPieces(exec, db, Pieces(text)).0);
  }

  /** After that the replies still unread go to the next callers, and all others wait
      for ever. */
  lemma {:induction false} AnswersStopped<DB>(exec: Engine<DB>, k: Link<DB>, texts: seq<string>)
    requires !k.child.running
    ensures forall i :: 0 <= i < |texts| ==>
      Answers(exec, k, texts)[i] == if i < |k.pending| then Some(First(k.pending[i])) else None
    decreases |texts|
  {
    if texts != [] {
      ServeStopped(exec, k.child, texts[0]);
      assert k.pending + [] == k.pending;
      AnswersStopped(exec, Call(exec, k, texts[0]).0, texts[1..]);
    }
  }

  // ------------------------------------------------------- rows back into columns

  lemma {:induction false} RowTextJoin(str: string, cells: Row)
    requires str != ""
    requires forall c :: c in cells ==> c != ""
    ensures RowText(str, cells) == Tokenizer.Join([str] + cells)
    decreases |cells|
  {
    var all := [str] + cells;
    if cells == [] {
      assert all == [str];
    } else {
      assert cells[0] in cells;
      var next := str + " " + cells[0];
      assert |next| > 0;
      assert forall c :: c in cells[1..] ==> c in cells;
      RowTextJoin(next, cells[1..]);
      JoinMerge(str, cells[0], cells[1..]);
      assert all == [str, cells[0]] + cells[1..];
    }
  }

  lemma JoinMerge(a: string, b: string, rest: seq<string>)
    ensures Tokenizer.Join([a + " " + b] + rest) == Tokenizer.Join([a, b] + rest)
  {
  }

  /** A row that `callback` prints is split back into its columns by
      `split_arguments` exactly when every column is a token. */
  lemma RowRoundTrip(row: Row)
    requires forall c :: c in row ==> c != ""
    ensures Tokenizer.Split(Line(row)) == Some(row) <==> forall c :: c in row ==> Tokenizer.Token(c)
  {
    if row != [] {
      assert row[0] in row && row[0] != "";
      assert forall c :: c in row[1..] ==> c in row;
      RowTextJoin(row[0], row[1..]);
      assert [row[0]] + row[1..] == row;
      assert Line(row) == RowText(row[0], row[1..]);
    }
    assert Line(row) == Tokenizer.Join(row);
    Tokenizer.SplitJoin(row);
  }
}
