/** The status monitor's table of workers and threads and its screen
    (monitor/main.c). */
module Monitor {
  import opened Text
  import ThreadTable

  const SLOTS := 100
  const DOWN := -1

  datatype ThreadRow = ThreadRow(id: int, status: int)
  datatype WorkerRow = WorkerRow(id: int, threads: seq<ThreadRow>)

  /** One reading of the shared record; the thread id is cut to an int on the way. */
  datatype Sample = Sample(worker: int, thread: int, status: int)

  function Cut32(n: int): (r: int)
    ensures -0x8000_0000 <= r < 0x8000_0000 && (r - n) % 0x1_0000_0000 == 0
  {
    (n + 0x8000_0000) % 0x1_0000_0000 - 0x8000_0000
  }

  function ThreadId(x: Sample): int {
    Cut32(x.thread)
  }

  // ------------------------------------------------------------- what a sample does

  function UpsertThread(ts: seq<ThreadRow>, t: int, status: int): seq<ThreadRow> {
    if ts == [] then [ThreadRow(t, status)]
    else if ts[0].id == t then [ThreadRow(t, status)] + ts[1..]
    else [ts[0]] + UpsertThread(ts[1..], t, status)
  }

  function Upsert(ws: seq<WorkerRow>, w: int, t: int, status: int): seq<WorkerRow> {
    if ws == [] then [WorkerRow(w, [ThreadRow(t, status)])]
    else if ws[0].id == w then [WorkerRow(w, UpsertThread(ws[0].threads, t, status))] + ws[1..]
    else [ws[0]] + Upsert(ws[1..], w, t, status)
  }

  function Take(ws: seq<WorkerRow>, x: Sample): seq<WorkerRow> {
    if x.worker == -1 then ws else Upsert(ws, x.worker, ThreadId(x), x.status)
  }

  predicate ThreadAt(ts: seq<ThreadRow>, t: int, j: nat) {
    j < |ts| && ts[j].id == t && forall m :: 0 <= m < j ==> ts[m].id != t
  }

  predicate WorkerAt(ws: seq<WorkerRow>, w: int, i: nat) {
    i < |ws| && ws[i].id == w && forall m :: 0 <= m < i ==> ws[m].id != w
  }

  lemma {:induction false} UpsertThreadAt(ts: seq<ThreadRow>, t: int, status: int, j: nat)
    requires ThreadAt(ts, t, j)
    ensures UpsertThread(ts, t, status) == ts[j := ThreadRow(t, status)]
    decreases |ts|
  {
    if j > 0 {
      assert ts[1..][j - 1] == ts[j];
      UpsertThreadAt(ts[1..], t, status, j - 1);
      assert [ts[0]] + ts[1..][j - 1 := ThreadRow(t, status)] == ts[j := ThreadRow(t, status)];
    }
  }

  lemma {:induction false} UpsertThreadNew(ts: seq<ThreadRow>, t: int, status: int)
    requires forall m :: 0 <= m < |ts| ==> ts[m].id != t
    ensures UpsertThread(ts, t, status) == ts + [ThreadRow(t, status)]
    decreases |ts|
  {
    if ts != [] {
      UpsertThreadNew(ts[1..], t, status);
      assert ts == [ts[0]] + ts[1..];
    }
  }

  lemma {:induction false} UpsertAt(ws: seq<WorkerRow>, w: int, t: int, status: int, i: nat)
    requires WorkerAt(ws, w, i)
    ensures Upsert(ws, w, t, status) == ws[i := WorkerRow(w, UpsertThread(ws[i].threads, t, status))]
    decreases |ws|
  {
    if i > 0 {
      assert ws[1..][i - 1] == ws[i];
      UpsertAt(ws[1..], w, t, status, i - 1);
      var row := WorkerRow(w, UpsertThread(ws[i].threads, t, status));
      assert [ws[0]] + ws[1..][i - 1 := row] == ws[i := row];
    }
  }

  lemma {:induction false} UpsertNew(ws: seq<WorkerRow>, w: int, t: int, status: int)
    requires forall m :: 0 <= m < |ws| ==> ws[m].id != w
    ensures Upsert(ws, w, t, status) == ws + [WorkerRow(w, [ThreadRow(t, status)])]
    decreases |ws|
  {
    if ws != [] {
      UpsertNew(ws[1..], w, t, status);
      assert ws == [ws[0]] + ws[1..];
    }
  }

  // ------------------------------------------------------------------ the C program

  datatype Line = WorkerLine(id: int) | ThreadLine(id: int, status: int) | Blank

  predicate Live(t: ThreadRow) {
    t.status != DOWN
  }

  function LiveLines(ts: seq<ThreadRow>): seq<Line> {
    if ts == [] then []
    else (if Live(ts[0]) then [ThreadLine(ts[0].id, ts[0].status)] else []) + LiveLines(ts[1..])
  }

  /** What a worker takes on the screen: nothing, or its line and its live threads. */
  function Block(w: WorkerRow): seq<Line> {
    if LiveLines(w.threads) == [] then [] else [WorkerLine(w.id)] + LiveLines(w.threads)
  }

  function Layout(ws: seq<WorkerRow>): seq<Line> {
    if ws == [] then [] else Block(ws[0]) + Layout(ws[1..])
  }

  function LiveCount(ts: seq<ThreadRow>): nat {
    if ts == [] then 0 else (if Live(ts[0]) then 1 else 0) + LiveCount(ts[1..])
  }

  /** Rows on the screen: one plus the live threads, over workers with a live thread. */
  function RowCount(ws: seq<WorkerRow>): nat {
    if ws == [] then 0
    else (if LiveCount(ws[0].threads) == 0 then 0 else 1 + LiveCount(ws[0].threads)) + RowCount(ws[1..])
  }

  /** Every list ends inside its hundred slots, with room for the NULL after it. */
  ghost predicate Roomy(ws: seq<WorkerRow>) {
    |ws| < SLOTS && forall w :: w in ws ==> |w.threads| < SLOTS
  }

  class Table {
    var workers: array<WorkerRow>
    var totalWorkers: nat

    ghost predicate Valid()
      reads this, workers
    {
      workers.Length == SLOTS && totalWorkers < SLOTS && Roomy(workers[..totalWorkers])
    }

    ghost function View(): seq<WorkerRow>
      reads this, workers
      requires Valid()
    {
      workers[..totalWorkers]
    }

    constructor ()
      ensures Valid() && fresh(workers) && View() == []
    {
      workers := new WorkerRow[SLOTS](_ => WorkerRow(0, []));
      totalWorkers := 0;
    }

    /** The inner loop: the thread's row is overwritten, or appended at the end. */
    method UpdateThreads(threads: seq<ThreadRow>, thread: int, status: int) returns (r: seq<ThreadRow>)
      ensures r == UpsertThread(threads, thread, status)
    {
      r := threads;
      var j := 0;
      while j < |threads|
        invariant j <= |threads| && r == threads
        invariant forall m :: 0 <= m < j ==> threads[m].id != thread
      {
        if threads[j].id == thread {
          UpsertThreadAt(threads, thread, status, j);
          r := r[j := ThreadRow(thread, status)];
          return;
        }
        j := j + 1;
      }
      UpsertThreadNew(threads, thread, status);
      r := r + [ThreadRow(thread, status)];
    }

    /** The outer search loop: the worker's slot, or the first free one. */
    method FindSlot(worker: int) returns (i: nat)
      requires Valid()
      ensures i <= totalWorkers
      ensures i < totalWorkers ==> WorkerAt(View(), worker, i)
      ensures i == totalWorkers ==> forall m :: 0 <= m < |View()| ==> View()[m].id != worker
    {
      i := 0;
      while i < totalWorkers
        invariant i <= totalWorkers
        invariant forall m :: 0 <= m < i ==> workers[m].id != worker
      {
        if workers[i].id == worker { return; }
        i := i + 1;
      }
    }

    method SetRow(i: nat, row: WorkerRow)
      requires Valid() && i < totalWorkers && |row.threads| < SLOTS
      modifies workers
      ensures Valid() && View() == old(View())[i := row]
    {
      ghost var before := View();
      workers[i] := row;
      assert workers[..totalWorkers] == before[i := row];
    }

    method AddRow(row: WorkerRow)
      requires Valid() && totalWorkers + 1 < SLOTS && |row.threads| < SLOTS
      modifies this`totalWorkers, workers
      ensures Valid() && View() == old(View()) + [row]
    {
      ghost var before := View();
      workers[totalWorkers] := row;
      totalWorkers := totalWorkers + 1;
      assert workers[..totalWorkers] == before + [row];
    }

    /** One reading of the shared record.  Where a list would leave its slots the C
        code writes past them; here that ends the run. */
    method Read(x: Sample) returns (ok: bool)
      requires Valid()
      modifies this`totalWorkers, workers
      ensures workers == old(workers) && Valid() && (ok <==> Roomy(Take(old(View()), x)))
      ensures View() == if ok then Take(old(View()), x) else old(View())
    {
      if x.worker == -1 { return true; }
      ghost var before, after := View(), Take(View(), x);
      var i := FindSlot(x.worker);
      if i < totalWorkers {
        UpsertAt(before, x.worker, ThreadId(x), x.status, i);
        var threads := UpdateThreads(workers[i].threads, ThreadId(x), x.status);
        assert after[i] in after && after[i].threads == threads;
        if |threads| >= SLOTS { return false; }
        SetRow(i, WorkerRow(x.worker, threads));
      } else {
        UpsertNew(before, x.worker, ThreadId(x), x.status);
        if totalWorkers + 1 >= SLOTS { return false; }
        AddRow(WorkerRow(x.worker, [ThreadRow(ThreadId(x), x.status)]));
      }
      return true;
    }

    /** A whole run from the empty table: it stays in bounds, and ends with the table
        of all samples, exactly when at most 99 workers and at most 99 threads of each
        are sampled. */
    method Watch(xs: seq<Sample>) returns (ok: bool)
      requires Valid() && View() == []
      modifies this`totalWorkers, workers
      ensures workers == old(workers) && Valid() && (ok <==> InBounds(xs))
      ensures ok ==> View() == After(xs)
    {
      var n := 0;
      while n < |xs|
        invariant n <= |xs| && workers == old(workers) && Valid()
        invariant View() == After(xs[..n]) && InBounds(xs[..n])
      {
        assert xs[..n + 1][..n] == xs[..n];
        RoomExact(xs[..n + 1]);
        var read := Read(xs[n]);
        if !read {
          if InBounds(xs) { BoundsShrink(xs, n + 1); }
          return false;
        }
        n := n + 1;
      }
      assert xs[..n] == xs;
      return true;
    }

    /** The thread lines of one worker, below what the screen already shows. */
    method DrawThreads(before: map<nat, Line>, top: nat, threads: seq<ThreadRow>, ghost above: seq<Line>)
      returns (screen: map<nat, Line>, j: nat, l: nat)
      requires Shows(before, above) && top == |above|
      ensures Shows(screen, above + LiveLines(threads))
      ensures l == |LiveLines(threads)| && j == top + l
    {
      screen, j, l := before, top, 0;
      var k := 0;
      assert threads[..0] == [];
      assert above + LiveLines([]) == above;
      while k < |threads|
        invariant k <= |threads|
        invariant l == |LiveLines(threads[..k])| && j == top + l
        invariant Shows(screen, above + LiveLines(threads[..k]))
      {
        LiveSnoc(threads, k);
        if threads[k].status != DOWN {
          screen := screen[j := ThreadLine(threads[k].id, threads[k].status)];
          l := l + 1;
          j := j + 1;
        }
        k := k + 1;
      }
      assert threads[..k] == threads;
    }

    /** One turn of the outer drawing loop: a worker without live threads is
        blanked out again. */
    method DrawWorker(before: map<nat, Line>, top: nat, w: WorkerRow, ghost above: seq<Line>)
      returns (screen: map<nat, Line>, j: nat)
      requires Shows(before, above) && top == |above|
      ensures Shows(screen, above + Block(w)) && j == |above + Block(w)|
      ensures LiveCount(w.threads) == 0 ==> Shows(screen, above) && j == top
      ensures LiveCount(w.threads) > 0 ==> At(screen, top, WorkerLine(w.id)) && j == top + 1 + LiveCount(w.threads)
    {
      LiveLinesCount(w.threads);
      ghost var headed := above + [WorkerLine(w.id)];
      screen := before[top := WorkerLine(w.id)];
      var l: nat;
      screen, j, l := DrawThreads(screen, top + 1, w.threads, headed);
      if l == 0 {
        screen := screen[j - 1 := Blank];
        j := j - 1;
        assert above + Block(w) == above;
      } else {
        assert above + Block(w) == headed + LiveLines(w.threads);
      }
    }

    /** The drawing loops: the rows of the cleared screen, and the final counter. */
    method Draw() returns (screen: map<nat, Line>, j: nat)
      requires Valid()
      ensures j == RowCount(View())
      ensures ByRows(screen, View())
    {
      screen, j := map[], 0;
      var i := 0;
      ghost var all := View();
      while i < totalWorkers
        invariant i <= totalWorkers && all == View()
        invariant DrawnTo(screen, j, all, i)
      {
        LayoutSnoc(all, i);
        screen, j := DrawWorker(screen, j, workers[i], Layout(all[..i]));
        i := i + 1;
      }
      Drawn(screen, j, all);
    }
  }

  /** The first rows of the screen show the given lines, and all others are blank. */
  ghost predicate Shows(screen: map<nat, Line>, lines: seq<Line>) {
    && (forall r :: 0 <= r < |lines| ==> r in screen && screen[r] == lines[r])
    && (forall r :: r in screen && r >= |lines| ==> screen[r] == Blank)
  }

  /** The screen and its counter when the first i workers are drawn. */
  ghost predicate DrawnTo(screen: map<nat, Line>, j: nat, ws: seq<WorkerRow>, i: nat) {
    i <= |ws| && Shows(screen, Layout(ws[..i])) && j == |Layout(ws[..i])|
  }

  lemma {:induction false} LayoutAppend(a: seq<WorkerRow>, b: seq<WorkerRow>)
    ensures Layout(a + b) == Layout(a) + Layout(b)
    decreases |a|
  {
    if a == [] {
      assert a + b == b;
    } else {
      assert (a + b)[1..] == a[1..] + b;
      LayoutAppend(a[1..], b);
    }
  }

  lemma LayoutSnoc(ws: seq<WorkerRow>, i: nat)
    requires i < |ws|
    ensures Layout(ws[..i + 1]) == Layout(ws[..i]) + Block(ws[i])
  {
    assert ws[..i + 1] == ws[..i] + [ws[i]];
    LayoutAppend(ws[..i], [ws[i]]);
    assert Layout([ws[i]]) == Block(ws[i]) + Layout([]);
  }

  lemma {:induction false} LiveAppend(a: seq<ThreadRow>, b: seq<ThreadRow>)
    ensures LiveLines(a + b) == LiveLines(a) + LiveLines(b)
    decreases |a|
  {
    if a == [] {
      assert a + b == b;
    } else {
      assert (a + b)[1..] == a[1..] + b && (a + b)[0] == a[0];
      LiveAppend(a[1..], b);
      var head := if Live(a[0]) then [ThreadLine(a[0].id, a[0].status)] else [];
      assert head + (LiveLines(a[1..]) + LiveLines(b)) == head + LiveLines(a[1..]) + LiveLines(b);
    }
  }

  lemma LiveSnoc(ts: seq<ThreadRow>, k: nat)
    requires k < |ts|
    ensures LiveLines(ts[..k + 1]) ==
      LiveLines(ts[..k]) + (if Live(ts[k]) then [ThreadLine(ts[k].id, ts[k].status)] else [])
  {
    assert ts[..k + 1] == ts[..k] + [ts[k]];
    LiveAppend(ts[..k], [ts[k]]);
    assert LiveLines([ts[k]]) == (if Live(ts[k]) then [ThreadLine(ts[k].id, ts[k].status)] else []) + LiveLines([]);
  }

  // ------------------------------------------------------------------ as a map

  function ThreadStatus(ts: seq<ThreadRow>, t: int): Option<int> {
    if ts == [] then None else if ts[0].id == t then Some(ts[0].status) else ThreadStatus(ts[1..], t)
  }

  function Status(ws: seq<WorkerRow>, w: int, t: int): Option<int> {
    if ws == [] then None else if ws[0].id == w then ThreadStatus(ws[0].threads, t) else Status(ws[1..], w, t)
  }

  lemma {:induction false} UpsertThreadStatus(ts: seq<ThreadRow>, t: int, s: int, u: int)
    ensures ThreadStatus(UpsertThread(ts, t, s), u) == if u == t then Some(s) else ThreadStatus(ts, u)
    decreases |ts|
  {
    if ts != [] && ts[0].id != t {
      UpsertThreadStatus(ts[1..], t, s, u);
    }
  }

  lemma {:induction false} UpsertStatus(ws: seq<WorkerRow>, w: int, t: int, s: int, v: int, u: int)
    ensures Status(Upsert(ws, w, t, s), v, u) == if v == w && u == t then Some(s) else Status(ws, v, u)
    decreases |ws|
  {
    if ws == [] {
      UpsertThreadStatus([], t, s, u);
    } else if ws[0].id == w {
      UpsertThreadStatus(ws[0].threads, t, s, u);
    } else {
      UpsertStatus(ws[1..], w, t, s, v, u);
    }
  }

  /** The table after a run of samples. */
  function After(xs: seq<Sample>): seq<WorkerRow> {
    if xs == [] then [] else Take(After(xs[..|xs| - 1]), xs[|xs| - 1])
  }

  /** The status last sampled for (worker, thread). */
  function LastSeen(xs: seq<Sample>, w: int, t: int): Option<int> {
    if xs == [] then None
    else
      var x := xs[|xs| - 1];
      if x.worker == w && ThreadId(x) == t && w != -1 then Some(x.status) else LastSeen(xs[..|xs| - 1], w, t)
  }

  /** Over every run the table equals the map from (worker, thread) to last sampled status. */
  lemma {:induction false} TableIsMap(xs: seq<Sample>, w: int, t: int)
    ensures Status(After(xs), w, t) == LastSeen(xs, w, t)
    decreases |xs|
  {
    if xs != [] {
      var n := |xs| - 1;
      TableIsMap(xs[..n], w, t);
      if xs[n].worker != -1 {
        UpsertStatus(After(xs[..n]), xs[n].worker, ThreadId(xs[n]), xs[n].status, w, t);
      }
    }
  }

  function Ids(ws: seq<WorkerRow>): (r: seq<int>)
    ensures |r| == |ws|
  {
    seq(|ws|, i requires 0 <= i < |ws| => ws[i].id)
  }

  /** The distinct workers of the samples, in the order first seen. */
  function FirstSeen(xs: seq<Sample>): seq<int> {
    if xs == [] then []
    else
      var before, x := FirstSeen(xs[..|xs| - 1]), xs[|xs| - 1];
      if x.worker == -1 || x.worker in before then before else before + [x.worker]
  }

  ghost predicate Distinct(ids: seq<int>) {
    forall i, j :: 0 <= i < j < |ids| ==> ids[i] != ids[j]
  }

  lemma FindWorker(ws: seq<WorkerRow>, w: int) returns (i: nat)
    requires w in Ids(ws)
    ensures WorkerAt(ws, w, i)
  {
    i := 0;
    while ws[i].id != w
      invariant i < |ws| && forall m :: 0 <= m < i ==> ws[m].id != w
      decreases |ws| - i
    {
      assert i + 1 == |ws| ==> w !in Ids(ws);
      i := i + 1;
    }
  }

  /** Over every run the worker rows have unique ids, in first-seen order. */
  lemma {:induction false} WorkersInOrder(xs: seq<Sample>)
    ensures Ids(After(xs)) == FirstSeen(xs) && Distinct(FirstSeen(xs))
    decreases |xs|
  {
    if xs != [] {
      var n := |xs| - 1;
      WorkersInOrder(xs[..n]);
      var ws, x := After(xs[..n]), xs[n];
      if x.worker != -1 {
        if x.worker in Ids(ws) {
          var i := FindWorker(ws, x.worker);
          UpsertAt(ws, x.worker, ThreadId(x), x.status, i);
        } else {
          assert forall m :: 0 <= m < |ws| ==> Ids(ws)[m] == ws[m].id;
          UpsertNew(ws, x.worker, ThreadId(x), x.status);
        }
      }
    }
  }

  // ------------------------------------------------------- threads, and the bounds

  function ThreadIds(ts: seq<ThreadRow>): (r: seq<int>)
    ensures |r| == |ts|
  {
    seq(|ts|, i requires 0 <= i < |ts| => ts[i].id)
  }

  /** The distinct threads of one worker's samples, in the order first seen. */
  function ThreadsSeen(xs: seq<Sample>, w: int): seq<int> {
    if xs == [] then []
    else
      var before, x := ThreadsSeen(xs[..|xs| - 1], w), xs[|xs| - 1];
      if x.worker != w || w == -1 || ThreadId(x) in before then before else before + [ThreadId(x)]
  }

  lemma {:induction false} ThreadsDistinct(xs: seq<Sample>, w: int)
    ensures Distinct(ThreadsSeen(xs, w))
    ensures w !in FirstSeen(xs) ==> ThreadsSeen(xs, w) == []
    decreases |xs|
  {
    if xs != [] {
      ThreadsDistinct(xs[..|xs| - 1], w);
    }
  }

  lemma UpsertThreadIds(ts: seq<ThreadRow>, t: int, status: int)
    ensures ThreadIds(UpsertThread(ts, t, status)) ==
      if t in ThreadIds(ts) then ThreadIds(ts) else ThreadIds(ts) + [t]
  {
    var ids := ThreadIds(ts);
    if t in ids {
      var j := FindThread(ts, t);
      UpsertThreadAt(ts, t, status, j);
    } else {
      assert forall m :: 0 <= m < |ts| ==> ids[m] == ts[m].id;
      UpsertThreadNew(ts, t, status);
    }
  }

  lemma FindThread(ts: seq<ThreadRow>, t: int) returns (j: nat)
    requires t in ThreadIds(ts)
    ensures ThreadAt(ts, t, j)
  {
    j := 0;
    while ts[j].id != t
      invariant j < |ts| && forall m :: 0 <= m < j ==> ts[m].id != t
      decreases |ts| - j
    {
      assert j + 1 == |ts| ==> t !in ThreadIds(ts);
      j := j + 1;
    }
  }

  /** What one sample does to the threads of every worker. */
  ghost predicate ThreadsOk(xs: seq<Sample>, row: WorkerRow) {
    ThreadIds(row.threads) == ThreadsSeen(xs, row.id)
  }

  lemma ThreadsStep(xs: seq<Sample>, row: WorkerRow)
    requires xs != [] && xs[|xs| - 1].worker != -1 && ThreadsOk(xs[..|xs| - 1], row)
    ensures var x := xs[|xs| - 1];
      ThreadsOk(xs, if row.id == x.worker
                    then WorkerRow(row.id, UpsertThread(row.threads, ThreadId(x), x.status)) else row)
  {
    var x := xs[|xs| - 1];
    UpsertThreadIds(row.threads, ThreadId(x), x.status);
  }

  lemma ThreadsStart(xs: seq<Sample>)
    requires xs != [] && xs[|xs| - 1].worker != -1 && xs[|xs| - 1].worker !in FirstSeen(xs[..|xs| - 1])
    ensures var x := xs[|xs| - 1]; ThreadsOk(xs, WorkerRow(x.worker, [ThreadRow(ThreadId(x), x.status)]))
  {
    ThreadsDistinct(xs[..|xs| - 1], xs[|xs| - 1].worker);
  }

  /** Over every run each worker's thread ids are its sampled ones, unique and in
      first-seen order. */
  lemma {:induction false} ThreadsInOrder(xs: seq<Sample>)
    ensures forall row :: row in After(xs) ==>
      ThreadIds(row.threads) == ThreadsSeen(xs, row.id) && Distinct(ThreadIds(row.threads))
    decreases |xs|
  {
    if xs != [] {
      var n := |xs| - 1;
      ThreadsInOrder(xs[..n]);
      forall row | row in After(xs)
        ensures ThreadsOk(xs, row)
      {
        ThreadsKept(xs, xs[..n], row);
      }
    }
    forall row | row in After(xs)
      ensures Distinct(ThreadIds(row.threads))
    {
      ThreadsDistinct(xs, row.id);
    }
  }

  lemma ThreadsKept(xs: seq<Sample>, before: seq<Sample>, row: WorkerRow)
    requires xs != [] && before == xs[..|xs| - 1] && row in After(xs)
    requires forall r :: r in After(before) ==> ThreadsOk(before, r)
    ensures ThreadsOk(xs, row)
  {
    var n := |xs| - 1;
    var ws, x := After(before), xs[n];
    WorkersInOrder(before);
    if x.worker == -1 {
      assert After(xs) == ws && ThreadsSeen(xs, row.id) == ThreadsSeen(before, row.id);
    } else if x.worker in Ids(ws) {
      var i := FindWorker(ws, x.worker);
      UpsertAt(ws, x.worker, ThreadId(x), x.status, i);
      var k :| 0 <= k < |ws| && After(xs)[k] == row;
      assert ws[k] in ws && ws[i] in ws;
      assert k != i ==> Ids(ws)[k] != Ids(ws)[i];
      ThreadsStep(xs, ws[k]);
    } else {
      assert forall m :: 0 <= m < |ws| ==> Ids(ws)[m] == ws[m].id;
      UpsertNew(ws, x.worker, ThreadId(x), x.status);
      if row in ws {
        var k :| 0 <= k < |ws| && ws[k] == row;
        ThreadsStep(xs, row);
      } else {
        ThreadsStart(xs);
      }
    }
  }

  /** At most 99 workers, and at most 99 threads of each. */
  ghost predicate InBounds(xs: seq<Sample>) {
    |FirstSeen(xs)| < SLOTS && forall w :: |ThreadsSeen(xs, w)| < SLOTS
  }

  lemma RoomExact(xs: seq<Sample>)
    ensures Roomy(After(xs)) <==> InBounds(xs)
  {
    WorkersInOrder(xs);
    ThreadsInOrder(xs);
    var ws := After(xs);
    assert |ws| == |Ids(ws)|;
    forall w
      ensures |ThreadsSeen(xs, w)| == 0 || exists row :: row in ws && |row.threads| == |ThreadsSeen(xs, w)|
    {
      if w in Ids(ws) {
        var i := FindWorker(ws, w);
        assert ws[i] in ws && |ThreadIds(ws[i].threads)| == |ThreadsSeen(xs, w)|;
      } else {
        ThreadsDistinct(xs, w);
      }
    }
    forall row | row in ws
      ensures |row.threads| == |ThreadsSeen(xs, row.id)|
    {
      assert |ThreadIds(row.threads)| == |row.threads|;
    }
  }

  lemma {:induction false} BoundsShrink(xs: seq<Sample>, n: nat)
    requires n <= |xs| && InBounds(xs)
    ensures InBounds(xs[..n])
    decreases |xs|
  {
    if n < |xs| {
      var m := |xs| - 1;
      forall w
        ensures |ThreadsSeen(xs[..m], w)| <= |ThreadsSeen(xs, w)|
      {
      }
      BoundsShrink(xs[..m], n);
      assert xs[..m][..n] == xs[..n];
    } else {
      assert xs[..n] == xs;
    }
  }

  // --------------------------------------------- one worker of a bounded thread table

  function SetOf(a: seq<int>): set<int> {
    set x | x in a
  }

  lemma {:induction false} DistinctSize(a: seq<int>)
    requires Distinct(a)
    ensures |SetOf(a)| == |a|
    decreases |a|
  {
    if a != [] {
      var n := |a| - 1;
      DistinctSize(a[..n]);
      assert SetOf(a) == SetOf(a[..n]) + {a[n]};
    }
  }

  lemma {:induction false} SetSize(a: seq<int>)
    ensures |SetOf(a)| <= |a|
    decreases |a|
  {
    if a != [] {
      var n := |a| - 1;
      SetSize(a[..n]);
      assert SetOf(a) == SetOf(a[..n]) + {a[n]};
    }
  }

  lemma Smaller(a: seq<int>, s: set<int>)
    requires SetOf(a) <= s
    ensures |SetOf(a)| <= |s|
  {
    var rest := s - SetOf(a);
    assert s == SetOf(a) + rest;
  }

  lemma {:induction false} SeenAmong(xs: seq<Sample>, w: int, ids: seq<int>)
    requires forall x :: x in xs && x.worker == w ==> ThreadId(x) in ids
    ensures forall t :: t in ThreadsSeen(xs, w) ==> t in ids
    decreases |xs|
  {
    if xs != [] {
      var n := |xs| - 1;
      assert forall x :: x in xs[..n] ==> x in xs;
      SeenAmong(xs[..n], w, ids);
      assert xs[n] in xs;
    }
  }

  /** The main thread of a worker and the threads it created, by cut id. */
  function IdsOf(created: seq<int>): (r: seq<int>)
    ensures |r| == |created| + 1
  {
    [0] + seq(|created|, i requires 0 <= i < |created| => Cut32(created[i]))
  }

  /** A worker configured with at most 99 threads fits its row of the table: its
      samples are its main thread's and those of the threads it served. */
  lemma WorkerFits(min: nat, max: nat, created: seq<int>, xs: seq<Sample>, w: int)
    requires 1 <= min <= max <= 99 && |created| <= ThreadTable.Capacity(min, max)
    requires forall x :: x in xs && x.worker == w ==> x.thread == 0 || x.thread in created
    ensures |ThreadsSeen(xs, w)| <= ThreadTable.Capacity(min, max) + 1 < SLOTS
  {
    ThreadTable.CapacityBounds(min, max);
    var ids := IdsOf(created);
    forall x | x in xs && x.worker == w
      ensures ThreadId(x) in ids
    {
      if x.thread in created {
        var i :| 0 <= i < |created| && created[i] == x.thread;
        assert ids[i + 1] == Cut32(created[i]);
      } else {
        assert ids[0] == ThreadId(x);
      }
    }
    SeenAmong(xs, w, ids);
    ThreadsDistinct(xs, w);
    DistinctSize(ThreadsSeen(xs, w));
    Smaller(ThreadsSeen(xs, w), SetOf(ids));
    SetSize(ids);
  }

  lemma {:induction false} LiveLinesCount(ts: seq<ThreadRow>)
    ensures |LiveLines(ts)| == LiveCount(ts)
    decreases |ts|
  {
    if ts != [] {
      LiveLinesCount(ts[1..]);
    }
  }

  lemma {:induction false} LayoutRows(ws: seq<WorkerRow>)
    ensures |Layout(ws)| == RowCount(ws)
    decreases |ws|
  {
    if ws != [] {
      LiveLinesCount(ws[0].threads);
      LayoutRows(ws[1..]);
    }
  }

  // ---------------------------------------------------------------- the screen by rows

  ghost predicate At(screen: map<nat, Line>, r: nat, line: Line) {
    r in screen && screen[r] == line
  }

  /** The row of a worker: below those of the workers before it. */
  function WorkerTop(ws: seq<WorkerRow>, i: nat): nat
    requires i < |ws|
  {
    RowCount(ws[..i])
  }

  /** The row of a live thread: below its worker and the live threads before it. */
  function ThreadTop(ws: seq<WorkerRow>, i: nat, k: nat): nat
    requires i < |ws| && k < |ws[i].threads|
  {
    WorkerTop(ws, i) + 1 + LiveCount(ws[i].threads[..k])
  }

  predicate LiveWorker(ws: seq<WorkerRow>, i: nat) {
    i < |ws| && exists k :: 0 <= k < |ws[i].threads| && Live(ws[i].threads[k])
  }

  predicate LiveThread(ws: seq<WorkerRow>, i: nat, k: nat) {
    i < |ws| && k < |ws[i].threads| && Live(ws[i].threads[k])
  }

  /** Which worker or thread a row belongs to. */
  ghost predicate RowOfWorker(ws: seq<WorkerRow>, line: Line, r: nat) {
    exists i: nat :: LiveWorker(ws, i) && r == WorkerTop(ws, i) && line == WorkerLine(ws[i].id)
  }

  ghost predicate RowOfThread(ws: seq<WorkerRow>, line: Line, r: nat) {
    exists i: nat, k: nat :: LiveThread(ws, i, k) && r == ThreadTop(ws, i, k)
      && line == ThreadLine(ws[i].threads[k].id, ws[i].threads[k].status)
  }

  /** Every worker with a live thread and every live thread is on its row, and nothing
      else is anywhere. */
  ghost predicate ByRows(screen: map<nat, Line>, ws: seq<WorkerRow>) {
    && (forall i: nat :: LiveWorker(ws, i) ==> At(screen, WorkerTop(ws, i), WorkerLine(ws[i].id)))
    && (forall i: nat, k: nat :: LiveThread(ws, i, k) ==>
        At(screen, ThreadTop(ws, i, k), ThreadLine(ws[i].threads[k].id, ws[i].threads[k].status)))
    && (forall r :: r in screen ==>
        screen[r] == Blank || RowOfWorker(ws, screen[r], r) || RowOfThread(ws, screen[r], r))
  }

  lemma {:induction false} LiveCountPositive(ts: seq<ThreadRow>)
    ensures LiveCount(ts) > 0 <==> exists k :: 0 <= k < |ts| && Live(ts[k])
    decreases |ts|
  {
    if ts != [] {
      LiveCountPositive(ts[1..]);
      if LiveCount(ts[1..]) > 0 {
        var k :| 0 <= k < |ts[1..]| && Live(ts[1..][k]);
        assert Live(ts[k + 1]);
      }
      assert forall k :: 0 < k < |ts| ==> ts[k] == ts[1..][k - 1];
    }
  }

  /** The line of the k-th thread, among those of the live threads. */
  lemma LiveLineAt(ts: seq<ThreadRow>, k: nat)
    requires k < |ts| && Live(ts[k])
    ensures LiveCount(ts[..k]) < |LiveLines(ts)|
    ensures LiveLines(ts)[LiveCount(ts[..k])] == ThreadLine(ts[k].id, ts[k].status)
  {
    LiveSnoc(ts, k);
    LiveLinesCount(ts[..k]);
    assert ts == ts[..k + 1] + ts[k + 1..];
    LiveAppend(ts[..k + 1], ts[k + 1..]);
  }

  /** And every such line is some thread's. */
  lemma {:induction false} LiveLineOf(ts: seq<ThreadRow>, r: nat) returns (k: nat)
    requires r < |LiveLines(ts)|
    ensures k < |ts| && Live(ts[k]) && r == LiveCount(ts[..k])
    ensures LiveLines(ts)[r] == ThreadLine(ts[k].id, ts[k].status)
    decreases |ts|
  {
    if Live(ts[0]) && r == 0 {
      k := 0;
    } else {
      var below := if Live(ts[0]) then r - 1 else r;
      var m := LiveLineOf(ts[1..], below);
      k := m + 1;
      assert ts[..k][1..] == ts[1..][..m] && ts[..k][0] == ts[0];
    }
  }

  lemma LayoutSplit(ws: seq<WorkerRow>, i: nat)
    requires i < |ws|
    ensures Layout(ws) == Layout(ws[..i]) + Block(ws[i]) + Layout(ws[i + 1..])
    ensures |Layout(ws[..i])| == WorkerTop(ws, i)
  {
    LayoutRows(ws[..i]);
    LayoutSnoc(ws, i);
    LayoutAppend(ws[..i + 1], ws[i + 1..]);
    assert ws == ws[..i + 1] + ws[i + 1..];
  }

  lemma WorkerShown(ws: seq<WorkerRow>, i: nat)
    requires LiveWorker(ws, i)
    ensures WorkerTop(ws, i) < |Layout(ws)| && Layout(ws)[WorkerTop(ws, i)] == WorkerLine(ws[i].id)
  {
    LayoutSplit(ws, i);
    LiveCountPositive(ws[i].threads);
    LiveLinesCount(ws[i].threads);
  }

  lemma ThreadShown(ws: seq<WorkerRow>, i: nat, k: nat)
    requires LiveThread(ws, i, k)
    ensures ThreadTop(ws, i, k) < |Layout(ws)|
    ensures Layout(ws)[ThreadTop(ws, i, k)] == ThreadLine(ws[i].threads[k].id, ws[i].threads[k].status)
  {
    LayoutSplit(ws, i);
    LiveLineAt(ws[i].threads, k);
    var c := LiveCount(ws[i].threads[..k]);
    BlockLine(ws[i], c);
    Middle(Layout(ws[..i]), Block(ws[i]), Layout(ws[i + 1..]), 1 + c);
  }

  lemma BlockLine(w: WorkerRow, m: nat)
    requires m < |LiveLines(w.threads)|
    ensures 1 + m < |Block(w)| && Block(w)[1 + m] == LiveLines(w.threads)[m]
  {
  }

  lemma Middle<T>(a: seq<T>, b: seq<T>, c: seq<T>, m: nat)
    requires m < |b|
    ensures (a + b + c)[|a| + m] == b[m]
  {
  }

  /** Every line of the layout is some worker's or some thread's. */
  lemma {:induction false} LayoutOf(ws: seq<WorkerRow>, n: nat, r: nat)
    requires n <= |ws| && r < |Layout(ws[..n])|
    ensures RowOfWorker(ws, Layout(ws[..n])[r], r) || RowOfThread(ws, Layout(ws[..n])[r], r)
    decreases n
  {
    if n > 0 {
      var i := n - 1;
      LayoutSnoc(ws, i);
      LayoutRows(ws[..i]);
      if r < |Layout(ws[..i])| {
        LayoutOf(ws, i, r);
      } else {
        BlockOf(ws, i, r - |Layout(ws[..i])|);
      }
    }
  }

  lemma BlockOf(ws: seq<WorkerRow>, i: nat, d: nat)
    requires i < |ws| && d < |Block(ws[i])|
    ensures RowOfWorker(ws, Block(ws[i])[d], WorkerTop(ws, i) + d)
      || RowOfThread(ws, Block(ws[i])[d], WorkerTop(ws, i) + d)
  {
    var ts := ws[i].threads;
    if d == 0 {
      LiveLinesCount(ts);
      LiveCountPositive(ts);
      assert LiveWorker(ws, i);
    } else {
      var k := LiveLineOf(ts, d - 1);
      assert LiveThread(ws, i, k) && ThreadTop(ws, i, k) == WorkerTop(ws, i) + d;
    }
  }

  lemma ScreenRows(screen: map<nat, Line>, ws: seq<WorkerRow>)
    requires Shows(screen, Layout(ws))
    ensures ByRows(screen, ws)
  {
    forall i: nat | LiveWorker(ws, i)
      ensures At(screen, WorkerTop(ws, i), WorkerLine(ws[i].id))
    {
      WorkerShown(ws, i);
    }
    forall i: nat, k: nat | LiveThread(ws, i, k)
      ensures At(screen, ThreadTop(ws, i, k), ThreadLine(ws[i].threads[k].id, ws[i].threads[k].status))
    {
      ThreadShown(ws, i, k);
    }
    assert ws[..|ws|] == ws;
    forall r | r in screen && r < |Layout(ws)|
      ensures RowOfWorker(ws, screen[r], r) || RowOfThread(ws, screen[r], r)
    {
      LayoutOf(ws, |ws|, r);
    }
  }

  lemma Drawn(screen: map<nat, Line>, j: nat, ws: seq<WorkerRow>)
    requires DrawnTo(screen, j, ws, |ws|)
    ensures ByRows(screen, ws) && j == RowCount(ws)
  {
    assert ws[..|ws|] == ws;
    LayoutRows(ws);
    ScreenRows(screen, ws);
  }

  // ------------------------------------------------------- the screen by the samples

  lemma {:induction false} ThreadStatusAt(ts: seq<ThreadRow>, k: nat)
    requires k < |ts| && Distinct(ThreadIds(ts))
    ensures ThreadStatus(ts, ts[k].id) == Some(ts[k].status)
    decreases |ts|
  {
    if k > 0 {
      assert ThreadIds(ts)[0] != ThreadIds(ts)[k];
      assert ThreadIds(ts[1..]) == ThreadIds(ts)[1..];
      ThreadStatusAt(ts[1..], k - 1);
    }
  }

  lemma {:induction false} StatusAt(ws: seq<WorkerRow>, i: nat, t: int)
    requires i < |ws| && Distinct(Ids(ws))
    ensures Status(ws, ws[i].id, t) == ThreadStatus(ws[i].threads, t)
    decreases |ws|
  {
    if i > 0 {
      assert Ids(ws)[0] != Ids(ws)[i];
      assert Ids(ws[1..]) == Ids(ws)[1..];
      StatusAt(ws[1..], i - 1, t);
    }
  }

  /** A row of the table is the i-th worker seen, and holds the k-th thread seen of it
      with the status last sampled. */
  lemma RowsAreSamples(xs: seq<Sample>, i: nat, k: nat)
    requires i < |After(xs)| && k < |After(xs)[i].threads|
    ensures var row := After(xs)[i];
      && i < |FirstSeen(xs)| && row.id == FirstSeen(xs)[i]
      && k < |ThreadsSeen(xs, row.id)| && row.threads[k].id == ThreadsSeen(xs, row.id)[k]
      && LastSeen(xs, row.id, row.threads[k].id) == Some(row.threads[k].status)
  {
    var ws := After(xs);
    WorkersInOrder(xs);
    ThreadsInOrder(xs);
    assert ws[i] in ws && Ids(ws)[i] == ws[i].id;
    assert ThreadIds(ws[i].threads)[k] == ws[i].threads[k].id;
    StatusAt(ws, i, ws[i].threads[k].id);
    ThreadStatusAt(ws[i].threads, k);
    TableIsMap(xs, ws[i].id, ws[i].threads[k].id);
  }

  /** After any run of samples: a thread last sampled with another status than DOWN is on
      the screen with that status, below its own worker. */
  lemma ScreenTells(xs: seq<Sample>, screen: map<nat, Line>, i: nat, k: nat)
    requires ByRows(screen, After(xs)) && i < |FirstSeen(xs)| && k < |ThreadsSeen(xs, FirstSeen(xs)[i])|
    ensures var w, t := FirstSeen(xs)[i], ThreadsSeen(xs, FirstSeen(xs)[i])[k];
      var ws, last := After(xs), LastSeen(xs, w, t);
      && i < |ws| && k < |ws[i].threads| && last.Some?
      && (last.value != DOWN ==>
          At(screen, WorkerTop(ws, i), WorkerLine(w)) && At(screen, ThreadTop(ws, i, k), ThreadLine(t, last.value)))
  {
    var ws := After(xs);
    WorkersInOrder(xs);
    ThreadsInOrder(xs);
    assert |Ids(ws)| == |ws| && ws[i] in ws && Ids(ws)[i] == ws[i].id;
    assert |ThreadIds(ws[i].threads)| == |ws[i].threads|;
    RowsAreSamples(xs, i, k);
    assert ws[i].threads[k].status != DOWN ==> LiveThread(ws, i, k) && LiveWorker(ws, i);
  }

  lemma DownNotLive(xs: seq<Sample>, i: nat)
    requires i < |After(xs)| && forall t :: LastSeen(xs, After(xs)[i].id, t) in {None, Some(DOWN)}
    ensures !LiveWorker(After(xs), i)
  {
    forall k | 0 <= k < |After(xs)[i].threads|
      ensures !Live(After(xs)[i].threads[k])
    {
      RowsAreSamples(xs, i, k);
    }
  }

  /** A worker all of whose threads were last sampled DOWN is nowhere on it. */
  lemma ScreenHides(xs: seq<Sample>, screen: map<nat, Line>, w: int, r: nat)
    requires ByRows(screen, After(xs)) && r in screen
    requires forall t :: LastSeen(xs, w, t) in {None, Some(DOWN)}
    ensures screen[r] != WorkerLine(w)
  {
    if RowOfWorker(After(xs), screen[r], r) {
      var i: nat :| LiveWorker(After(xs), i) && r == WorkerTop(After(xs), i)
        && screen[r] == WorkerLine(After(xs)[i].id);
      if After(xs)[i].id == w { DownNotLive(xs, i); }
    }
  }
}
