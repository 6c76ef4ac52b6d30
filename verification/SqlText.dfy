/** The query builders and their rendered text (lib/sqlite). */
module SqlText {
  import opened Text

  const MAX_COLUMNS := 10

  datatype Cond = Cond(column: string, op: string, value: string)

  /** What a builder has been told: the slots in order, the conditions in order. */
  datatype Query =
    | Select(table: string, columns: seq<string>, conds: seq<Cond>)
    | Insert(table: string, columns: seq<string>, values: seq<string>)
    | Update(table: string, columns: seq<string>, values: seq<string>, conds: seq<Cond>)

  // ------------------------------------------------------------------- rendering

  /** `to_fields_string` */
  function Fields(fs: seq<string>): string
    decreases |fs|, 1
  {
    if fs == [] then "" else fs[0] + FieldsTail(fs)
  }

  function FieldsTail(fs: seq<string>): string
    requires fs != []
    decreases |fs|, 0
  {
    if |fs| == 1 then "" else "," + Fields(fs[1..])
  }

  function CondText(c: Cond): string {
    " AND " + c.column + " " + c.op + " " + c.value
  }

  function Conds(cs: seq<Cond>): string {
    if cs == [] then "" else CondText(cs[0]) + Conds(cs[1..])
  }

  function Where(cs: seq<Cond>): string {
    "1=1" + Conds(cs)
  }

  function Pairs(columns: seq<string>, values: seq<string>): (ps: seq<string>)
    requires |columns| == |values|
    ensures |ps| == |columns|
  {
    seq(|columns|, i requires 0 <= i < |columns| => columns[i] + "=" + values[i])
  }

  function Shown(columns: seq<string>): seq<string> {
    if columns == [] then ["*"] else columns
  }

  function RenderSelect(table: string, columns: seq<string>, conds: seq<Cond>): string {
    "SELECT " + (Fields(Shown(columns)) + (" FROM " + (table + (" WHERE " + (Where(conds) + ";")))))
  }

  function RenderInsert(table: string, columns: seq<string>, values: seq<string>): string {
    "INSERT INTO " + (table + ("(" + (Fields(columns) + (") VALUES(" + (Fields(values) + ");")))))
  }

  function RenderUpdate(table: string, pairs: seq<string>, conds: seq<Cond>): string {
    "UPDATE " + (table + (" SET " + (Fields(pairs) + (" WHERE " + (Where(conds) + ";")))))
  }

  function Render(q: Query): string
    requires Shaped(q)
  {
    match q
    case Select(t, cols, conds) => RenderSelect(t, cols, conds)
    case Insert(t, cols, vals) => RenderInsert(t, cols, vals)
    case Update(t, cols, vals, conds) => RenderUpdate(t, Pairs(cols, vals), conds)
  }

  /** Columns and values come in pairs; INSERT and UPDATE have at least one; nine
      slots may be used, the tenth ends the list. */
  predicate Shaped(q: Query) {
    && |q.columns| < MAX_COLUMNS
    && (!q.Select? ==> 0 < |q.columns| == |q.values|)
  }

  // ---------------------------------------------------------- delimiter-free parts

  const ENDS: set<char> := {' ', ',', ';', ')'}
  const MARKS: set<char> := {' ', ',', ';', ')', '(', '=', '*', '"', '\''}

  /** Table, column and alias names. */
  predicate NameText(s: string) {
    s != "" && Free(s, MARKS)
  }

  predicate OpText(s: string) {
    s != "" && Free(s, {' '})
  }

  predicate Quoted(v: string) {
    && |v| >= 2 && v[0] in {'"', '\''} && v[|v| - 1] == v[0]
    && Free(v[1..|v| - 1], {v[0]})
  }

  predicate Bare(v: string) {
    v != "" && Free(v, {' ', ',', ';', ')', '=', '"', '\''})
  }

  /** A quoted text not containing its own quote, or a bare word. */
  predicate ValueText(v: string) {
    Quoted(v) || Bare(v)
  }

  predicate GoodCond(c: Cond) {
    NameText(c.column) && OpText(c.op) && ValueText(c.value)
  }

  predicate WellFormed(q: Query) {
    && Shaped(q) && NameText(q.table)
    && (forall c :: c in q.columns ==> NameText(c))
    && (!q.Select? ==> forall v :: v in q.values ==> ValueText(v))
    && (!q.Insert? ==> forall c :: c in q.conds ==> GoodCond(c))
  }

  predicate Starts(x: string, chars: set<char>) {
    x != "" && x[0] in chars
  }

  lemma CutName(a: string, x: string, b: string, y: string)
    requires NameText(a) && NameText(b) && Starts(x, MARKS) && Starts(y, MARKS)
    requires a + x == b + y
    ensures a == b && x == y
  {
    CutAtDelimiter(a, x, b, y, MARKS);
  }

  lemma CutQuoted(a: string, x: string, b: string, y: string)
    requires Quoted(a) && Quoted(b) && a + x == b + y
    ensures a == b && x == y
  {
    assert (a + x)[0] == a[0] && (b + y)[0] == b[0];
    var q, c, d := [a[0]], a[1..|a| - 1], b[1..|b| - 1];
    assert a == q + c + q && b == q + d + q;
    assert a + x == q + (c + (q + x)) && b + y == q + (d + (q + y));
    CancelLeft(q, c + (q + x), d + (q + y));
    CutAtDelimiter(c, q + x, d, q + y, {a[0]});
    CancelLeft(q, x, y);
  }

  /** Two values followed by delimiters: equal texts have equal values. */
  lemma CutValue(a: string, x: string, b: string, y: string)
    requires ValueText(a) && ValueText(b) && Starts(x, ENDS) && Starts(y, ENDS)
    requires a + x == b + y
    ensures a == b && x == y
  {
    assert (a + x)[0] == a[0] && (b + y)[0] == b[0];
    if Quoted(a) {
      assert Quoted(b);
      CutQuoted(a, x, b, y);
    } else {
      assert Bare(b);
      CutAtDelimiter(a, x, b, y, {' ', ',', ';', ')', '=', '"', '\''});
    }
  }

  predicate IsPair(s: string, n: string, v: string) {
    NameText(n) && ValueText(v) && s == n + "=" + v
  }

  /** Members of a field list: values, or name=value pairs. */
  ghost predicate Item(paired: bool, s: string) {
    if paired then exists n, v :: IsPair(s, n, v) else ValueText(s)
  }

  lemma CutItem(paired: bool, a: string, x: string, b: string, y: string)
    requires Item(paired, a) && Item(paired, b) && Starts(x, ENDS) && Starts(y, ENDS)
    requires a + x == b + y
    ensures a == b && x == y
  {
    if paired {
      var n, v :| IsPair(a, n, v);
      var m, w :| IsPair(b, m, w);
      CutPair(n, v, x, m, w, y);
    } else {
      CutValue(a, x, b, y);
    }
  }

  lemma CutPair(n: string, v: string, x: string, m: string, w: string, y: string)
    requires NameText(n) && NameText(m) && ValueText(v) && ValueText(w) && Starts(x, ENDS) && Starts(y, ENDS)
    requires n + "=" + v + x == m + "=" + w + y
    ensures n == m && v == w && x == y
  {
    assert n + "=" + v + x == n + ("=" + (v + x));
    assert m + "=" + w + y == m + ("=" + (w + y));
    CutName(n, "=" + (v + x), m, "=" + (w + y));
    CancelLeft("=", v + x, w + y);
    CutValue(v, x, w, y);
  }

  lemma HeadFirst(a: seq<string>, x: string)
    requires a != []
    ensures Fields(a) + x == a[0] + (FieldsTail(a) + x)
  {
  }

  lemma NextFirst(a: seq<string>, x: string)
    requires |a| > 1
    ensures FieldsTail(a) + x == "," + (Fields(a[1..]) + x)
  {
  }

  /** The heads of two field lists with equal texts. */
  lemma CutHeads(paired: bool, a: seq<string>, x: string, b: seq<string>, y: string)
    requires a != [] && b != [] && Starts(x, {' ', ')'}) && Starts(y, {' ', ')'})
    requires Item(paired, a[0]) && Item(paired, b[0])
    requires Fields(a) + x == Fields(b) + y
    ensures a[0] == b[0] && (|a| > 1 <==> |b| > 1)
    ensures FieldsTail(a) + x == FieldsTail(b) + y
  {
    HeadFirst(a, x);
    HeadFirst(b, y);
    TailStarts(a, x);
    TailStarts(b, y);
    CutItem(paired, a[0], FieldsTail(a) + x, b[0], FieldsTail(b) + y);
  }

  /** Two field lists ended by a space or a bracket: equal texts have equal members. */
  lemma {:induction false} CutFields(paired: bool, a: seq<string>, x: string, b: seq<string>, y: string)
    requires a != [] && b != [] && Starts(x, {' ', ')'}) && Starts(y, {' ', ')'})
    requires (forall i :: 0 <= i < |a| ==> Item(paired, a[i])) && (forall i :: 0 <= i < |b| ==> Item(paired, b[i]))
    requires Fields(a) + x == Fields(b) + y
    ensures a == b && x == y
    decreases |a|
  {
    CutHeads(paired, a, x, b, y);
    if |a| > 1 {
      NextFirst(a, x);
      NextFirst(b, y);
      CancelLeft(",", Fields(a[1..]) + x, Fields(b[1..]) + y);
      CutFields(paired, a[1..], x, b[1..], y);
      assert a == [a[0]] + a[1..] && b == [b[0]] + b[1..];
    } else {
      assert "" + x == x && "" + y == y;
      assert a == [a[0]] && b == [b[0]];
    }
  }

  lemma TailStarts(a: seq<string>, x: string)
    requires a != [] && Starts(x, {' ', ')'})
    ensures Starts(FieldsTail(a) + x, ENDS)
    ensures (FieldsTail(a) + x)[0] == ',' <==> |a| > 1
  {
  }

  lemma CutCond(c: Cond, x: string, d: Cond, y: string)
    requires GoodCond(c) && GoodCond(d) && Starts(x, ENDS) && Starts(y, ENDS)
    requires CondText(c) + x == CondText(d) + y
    ensures c == d && x == y
  {
    assert CondText(c) + x == " AND " + (c.column + (" " + (c.op + (" " + (c.value + x)))));
    assert CondText(d) + y == " AND " + (d.column + (" " + (d.op + (" " + (d.value + y)))));
    CancelLeft(" AND ", c.column + (" " + (c.op + (" " + (c.value + x)))),
               d.column + (" " + (d.op + (" " + (d.value + y)))));
    CutName(c.column, " " + (c.op + (" " + (c.value + x))), d.column, " " + (d.op + (" " + (d.value + y))));
    CancelLeft(" ", c.op + (" " + (c.value + x)), d.op + (" " + (d.value + y)));
    CutAtDelimiter(c.op, " " + (c.value + x), d.op, " " + (d.value + y), {' '});
    CancelLeft(" ", c.value + x, d.value + y);
    CutValue(c.value, x, d.value, y);
  }

  lemma CondsStart(cs: seq<Cond>)
    ensures Starts(Conds(cs) + ";", ENDS)
    ensures (Conds(cs) + ";")[0] == ';' <==> cs == []
  {
  }

  /** Equal WHERE texts have equal conditions, in order. */
  lemma {:induction false} CutConds(c: seq<Cond>, d: seq<Cond>)
    requires (forall k :: k in c ==> GoodCond(k)) && (forall k :: k in d ==> GoodCond(k))
    requires Conds(c) + ";" == Conds(d) + ";"
    ensures c == d
    decreases |c|
  {
    CondsStart(c);
    CondsStart(d);
    if c != [] && d != [] {
      var x, y := Conds(c[1..]) + ";", Conds(d[1..]) + ";";
      assert Conds(c) + ";" == CondText(c[0]) + x && Conds(d) + ";" == CondText(d[0]) + y;
      CondsStart(c[1..]);
      CondsStart(d[1..]);
      assert c[0] in c && d[0] in d;
      CutCond(c[0], x, d[0], y);
      CutConds(c[1..], d[1..]);
      assert c == [c[0]] + c[1..] && d == [d[0]] + d[1..];
    }
  }

  lemma CutWhere(c: seq<Cond>, d: seq<Cond>)
    requires (forall k :: k in c ==> GoodCond(k)) && (forall k :: k in d ==> GoodCond(k))
    requires Where(c) + ";" == Where(d) + ";"
    ensures c == d
  {
    assert Where(c) + ";" == "1=1" + (Conds(c) + ";") && Where(d) + ";" == "1=1" + (Conds(d) + ";");
    CancelLeft("1=1", Conds(c) + ";", Conds(d) + ";");
    CutConds(c, d);
  }

  // ---------------------------------------------------------------- injectivity

  /** The part of SELECT and UPDATE after the table or the assignments. */
  lemma CutTableWhere(t: string, c: seq<Cond>, u: string, d: seq<Cond>)
    requires NameText(t) && NameText(u)
    requires (forall k :: k in c ==> GoodCond(k)) && (forall k :: k in d ==> GoodCond(k))
    requires t + (" WHERE " + (Where(c) + ";")) == u + (" WHERE " + (Where(d) + ";"))
    ensures t == u && c == d
  {
    CutName(t, " WHERE " + (Where(c) + ";"), u, " WHERE " + (Where(d) + ";"));
    CancelLeft(" WHERE ", Where(c) + ";", Where(d) + ";");
    CutWhere(c, d);
  }

  lemma ShownItems(columns: seq<string>)
    requires forall c :: c in columns ==> NameText(c)
    ensures forall i :: 0 <= i < |Shown(columns)| ==> Item(false, Shown(columns)[i])
  {
    assert forall i :: 0 <= i < |columns| ==> columns[i] in columns;
  }

  lemma SelectInjective(q: Query, r: Query)
    requires WellFormed(q) && WellFormed(r) && q.Select? && r.Select? && Render(q) == Render(r)
    ensures q == r
  {
    var x := " FROM " + (q.table + (" WHERE " + (Where(q.conds) + ";")));
    var y := " FROM " + (r.table + (" WHERE " + (Where(r.conds) + ";")));
    CancelLeft("SELECT ", Fields(Shown(q.columns)) + x, Fields(Shown(r.columns)) + y);
    ShownItems(q.columns);
    ShownItems(r.columns);
    CutFields(false, Shown(q.columns), x, Shown(r.columns), y);
    CancelLeft(" FROM ", q.table + (" WHERE " + (Where(q.conds) + ";")),
               r.table + (" WHERE " + (Where(r.conds) + ";")));
    CutTableWhere(q.table, q.conds, r.table, r.conds);
    ShownInjective(q.columns, r.columns);
  }

  lemma ShownInjective(a: seq<string>, b: seq<string>)
    requires (forall c :: c in a ==> NameText(c)) && (forall c :: c in b ==> NameText(c))
    requires Shown(a) == Shown(b)
    ensures a == b
  {
    assert !NameText("*") by {
      assert "*"[0] in MARKS;
    }
    assert a != [] ==> a[0] in a;
    assert b != [] ==> b[0] in b;
  }

  lemma ListItems(columns: seq<string>, values: seq<string>)
    requires (forall c :: c in columns ==> NameText(c)) && (forall v :: v in values ==> ValueText(v))
    ensures forall i :: 0 <= i < |columns| ==> Item(false, columns[i])
    ensures forall i :: 0 <= i < |values| ==> Item(false, values[i])
  {
    assert forall i :: 0 <= i < |columns| ==> columns[i] in columns;
    assert forall i :: 0 <= i < |values| ==> values[i] in values;
  }

  lemma InsertInjective(q: Query, r: Query)
    requires WellFormed(q) && WellFormed(r) && q.Insert? && r.Insert? && Render(q) == Render(r)
    ensures q == r
  {
    var vx, vy := Fields(q.values) + ");", Fields(r.values) + ");";
    var x, y := Fields(q.columns) + (") VALUES(" + vx), Fields(r.columns) + (") VALUES(" + vy);
    CancelLeft("INSERT INTO ", q.table + ("(" + x), r.table + ("(" + y));
    CutName(q.table, "(" + x, r.table, "(" + y);
    CancelLeft("(", x, y);
    ListItems(q.columns, q.values);
    ListItems(r.columns, r.values);
    CutFields(false, q.columns, ") VALUES(" + vx, r.columns, ") VALUES(" + vy);
    CancelLeft(") VALUES(", vx, vy);
    CutFields(false, q.values, ");", r.values, ");");
  }

  lemma PairsInjective(c: seq<string>, v: seq<string>, d: seq<string>, w: seq<string>)
    requires |c| == |v| && |d| == |w| && Pairs(c, v) == Pairs(d, w)
    requires forall s :: s in c || s in d ==> NameText(s)
    requires forall s :: s in v || s in w ==> ValueText(s)
    ensures c == d && v == w
  {
    forall i | 0 <= i < |c|
      ensures c[i] == d[i] && v[i] == w[i]
    {
      assert Pairs(c, v)[i] == Pairs(d, w)[i];
      assert c[i] in c && d[i] in d && v[i] in v && w[i] in w;
      CutPair(c[i], v[i], " ", d[i], w[i], " ");
    }
    assert |c| == |Pairs(c, v)| && |d| == |Pairs(d, w)|;
  }

  lemma PairItems(c: seq<string>, v: seq<string>)
    requires |c| == |v|
    requires (forall s :: s in c ==> NameText(s)) && (forall s :: s in v ==> ValueText(s))
    ensures forall i :: 0 <= i < |c| ==> Item(true, Pairs(c, v)[i])
  {
    forall i | 0 <= i < |c|
      ensures Item(true, Pairs(c, v)[i])
    {
      assert c[i] in c && v[i] in v;
      assert IsPair(Pairs(c, v)[i], c[i], v[i]);
    }
  }

  lemma UpdateInjective(q: Query, r: Query)
    requires WellFormed(q) && WellFormed(r) && q.Update? && r.Update? && Render(q) == Render(r)
    ensures q == r
  {
    var p, o := Pairs(q.columns, q.values), Pairs(r.columns, r.values);
    var wx, wy := " WHERE " + (Where(q.conds) + ";"), " WHERE " + (Where(r.conds) + ";");
    CancelLeft("UPDATE ", q.table + (" SET " + (Fields(p) + wx)), r.table + (" SET " + (Fields(o) + wy)));
    CutName(q.table, " SET " + (Fields(p) + wx), r.table, " SET " + (Fields(o) + wy));
    CancelLeft(" SET ", Fields(p) + wx, Fields(o) + wy);
    PairItems(q.columns, q.values);
    PairItems(r.columns, r.values);
    CutFields(true, p, wx, o, wy);
    PairsInjective(q.columns, q.values, r.columns, r.values);
    CancelLeft(" WHERE ", Where(q.conds) + ";", Where(r.conds) + ";");
    CutWhere(q.conds, r.conds);
  }

  lemma FirstLetter(q: Query)
    requires Shaped(q)
    ensures Render(q) != "" && Render(q)[0] ==
      (match q case Select(_, _, _) => 'S' case Insert(_, _, _) => 'I' case Update(_, _, _, _) => 'U')
  {
  }

  /** The text determines the query: kind, table, columns, values, and every
      condition in the order it was added. */
  lemma RenderInjective(q: Query, r: Query)
    requires WellFormed(q) && WellFormed(r) && Render(q) == Render(r)
    ensures q == r
  {
    FirstLetter(q);
    FirstLetter(r);
    match q
    case Select(_, _, _) => SelectInjective(q, r);
    case Insert(_, _, _) => InsertInjective(q, r);
    case Update(_, _, _, _) => UpdateInjective(q, r);
  }
}
