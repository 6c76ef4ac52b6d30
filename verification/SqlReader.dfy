/** A reader of SQL text that knows nothing of the builders: words, quoted texts and
    marks, and from them the three statements the server uses. */
module SqlReader {
  import opened Text
  import opened SqlText

  datatype Token = Word(word: string) | QuotedText(quote: char, text: string) | Mark(c: char)

  // ---------------------------------------------------------------------- tokens

  predicate WordChar(c: char) {
    'a' <= c <= 'z' || 'A' <= c <= 'Z' || '0' <= c <= '9' || c == '_'
  }

  /** How many characters of a word are at the front. */
  function WordEnd(s: string): (n: nat)
    ensures n <= |s| && (n > 0 <==> s != "" && WordChar(s[0]))
  {
    if s == "" || !WordChar(s[0]) then 0 else 1 + WordEnd(s[1..])
  }

  /** Where a quoted text ends. */
  function QuoteEnd(s: string, quote: char): (n: nat)
    ensures n <= |s|
  {
    if s == "" || s[0] == quote then 0 else 1 + QuoteEnd(s[1..], quote)
  }

  function Lex(s: string): seq<Token>
    decreases |s|
  {
    if s == "" then []
    else if s[0] == ' ' then Lex(s[1..])
    else if WordChar(s[0]) then [Word(s[..WordEnd(s)])] + Lex(s[WordEnd(s)..])
    else if s[0] in {'"', '\''} && QuoteEnd(s[1..], s[0]) + 1 < |s| then
      var n := QuoteEnd(s[1..], s[0]) + 1;
      [QuotedText(s[0], s[1..n])] + Lex(s[n + 1..])
    else [Mark(s[0])] + Lex(s[1..])
  }

  // ------------------------------------------------------------------ statements

  datatype Test = Test(left: Token, op: string, right: Token)

  /** A member of a list: a word or a value, or word = value. */
  type Item = seq<Token>

  datatype Statement =
    | SelectRows(columns: seq<Item>, table: string, tests: seq<Test>)
    | InsertRow(table: string, columns: seq<Item>, values: seq<Item>)
    | UpdateRows(table: string, sets: seq<Item>, tests: seq<Test>)

  const COMMA := Mark(',')
  const EQUALS := Mark('=')
  const STOP := Mark(';')

  predicate Operand(ts: seq<Token>, i: nat) {
    i < |ts| && !ts[i].Mark?
  }

  predicate Is(ts: seq<Token>, i: nat, t: Token) {
    i < |ts| && ts[i] == t
  }

  function ItemLength(ts: seq<Token>): (n: nat)
    ensures n <= |ts|
  {
    if !Operand(ts, 0) then 0
    else if Is(ts, 1, EQUALS) && Operand(ts, 2) then 3
    else 1
  }

  /** A list of items, and what follows it. */
  function ReadList(ts: seq<Token>): (r: Option<(seq<Item>, seq<Token>)>)
    ensures r.Some? ==> |r.value.1| < |ts|
    decreases |ts|
  {
    var n := ItemLength(ts);
    if n == 0 then None
    else if !Is(ts, n, COMMA) then Some(([ts[..n]], ts[n..]))
    else
      match ReadList(ts[n + 1..])
      case None => None
      case Some((items, rest)) => Some(([ts[..n]] + items, rest))
  }

  function ReadOp(ts: seq<Token>): Option<string> {
    if Is(ts, 1, EQUALS) then Some("=")
    else if Is(ts, 1, Word("LIKE")) then Some("LIKE")
    else None
  }

  /** Comparisons joined by AND, ended by the semicolon that ends the text. */
  function ReadTests(ts: seq<Token>): Option<seq<Test>>
    decreases |ts|
  {
    if !(Operand(ts, 0) && Operand(ts, 2) && ReadOp(ts).Some?) then None
    else
      var test := Test(ts[0], ReadOp(ts).value, ts[2]);
      if ts[3..] == [STOP] then Some([test])
      else if Is(ts, 3, Word("AND")) then
        match ReadTests(ts[4..])
        case None => None
        case Some(tests) => Some([test] + tests)
      else None
  }

  function ReadWhere(ts: seq<Token>): Option<seq<Test>> {
    if Is(ts, 0, Word("WHERE")) then ReadTests(ts[1..]) else None
  }

  function ReadSelect(ts: seq<Token>): Option<Statement> {
    match ReadList(ts)
    case None => None
    case Some((columns, rest)) =>
      if !(Is(rest, 0, Word("FROM")) && |rest| > 1 && rest[1].Word?) then None
      else
        match ReadWhere(rest[2..])
        case None => None
        case Some(tests) => Some(SelectRows(columns, rest[1].word, tests))
  }

  function ReadInsert(ts: seq<Token>): Option<Statement> {
    if !(|ts| > 1 && ts[0].Word? && ts[1] == Mark('(')) then None
    else
      match ReadList(ts[2..])
      case None => None
      case Some((columns, rest)) =>
        if !(Is(rest, 0, Mark(')')) && Is(rest, 1, Word("VALUES")) && Is(rest, 2, Mark('('))) then None
        else
          match ReadList(rest[3..])
          case None => None
          case Some((values, end)) =>
            if end == [Mark(')'), STOP] then Some(InsertRow(ts[0].word, columns, values)) else None
  }

  function ReadUpdate(ts: seq<Token>): Option<Statement> {
    if !(|ts| > 1 && ts[0].Word? && ts[1] == Word("SET")) then None
    else
      match ReadList(ts[2..])
      case None => None
      case Some((sets, rest)) =>
        match ReadWhere(rest)
        case None => None
        case Some(tests) => Some(UpdateRows(ts[0].word, sets, tests))
  }

  function ReadTokens(ts: seq<Token>): Option<Statement> {
    if Is(ts, 0, Word("SELECT")) then ReadSelect(ts[1..])
    else if Is(ts, 0, Word("INSERT")) && Is(ts, 1, Word("INTO")) then ReadInsert(ts[2..])
    else if Is(ts, 0, Word("UPDATE")) then ReadUpdate(ts[1..])
    else None
  }

  /** What a text says; None when it is none of the three statements. */
  function Read(text: string): Option<Statement> {
    ReadTokens(Lex(text))
  }

  // ------------------------------------------------------- texts, token by token

  predicate WordText(s: string) {
    s != "" && forall i :: 0 <= i < |s| ==> WordChar(s[i])
  }

  /** No word goes on here. */
  predicate Cut(x: string) {
    x != "" && !WordChar(x[0])
  }

  lemma {:induction false} WordEnds(w: string, x: string)
    requires (forall i :: 0 <= i < |w| ==> WordChar(w[i])) && Cut(x)
    ensures WordEnd(w + x) == |w|
    decreases |w|
  {
    if w == "" {
      assert w + x == x;
    } else {
      assert (w + x)[0] == w[0] && (w + x)[1..] == w[1..] + x;
      WordEnds(w[1..], x);
    }
  }

  lemma LexWord(w: string, x: string)
    requires WordText(w) && Cut(x)
    ensures Lex(w + x) == [Word(w)] + Lex(x)
  {
    WordEnds(w, x);
    assert (w + x)[0] == w[0] && (w + x)[..|w|] == w && (w + x)[|w|..] == x;
  }

  lemma {:induction false} QuoteEnds(s: string, quote: char, x: string)
    requires quote !in s
    ensures QuoteEnd(s + ([quote] + x), quote) == |s|
    decreases |s|
  {
    var y := [quote] + x;
    if s == "" {
      assert s + y == y;
    } else {
      assert (s + y)[0] == s[0] && (s + y)[1..] == s[1..] + y;
      QuoteEnds(s[1..], quote, x);
    }
  }

  lemma LexQuoted(v: string, x: string)
    requires Quoted(v)
    ensures Lex(v + x) == [QuotedText(v[0], v[1..|v| - 1])] + Lex(x)
  {
    var q, s := v[0], v[1..|v| - 1];
    var t := v + x;
    assert t[0] == q && t[1..] == s + ([q] + x);
    QuoteEnds(s, q, x);
    assert t[1..|s| + 1] == s && t[|s| + 2..] == x;
  }

  lemma LexSpace(x: string)
    ensures Lex(" " + x) == Lex(x)
  {
    assert (" " + x)[1..] == x;
  }

  lemma LexMark(c: char, x: string)
    requires !WordChar(c) && c !in {' ', '"', '\''}
    ensures Lex([c] + x) == [Mark(c)] + Lex(x)
  {
    assert ([c] + x)[1..] == x;
  }

  /** A keyword between spaces. */
  lemma LexKeyword(w: string, x: string)
    requires WordText(w)
    ensures Lex(w + (" " + x)) == [Word(w)] + Lex(x)
  {
    LexWord(w, " " + x);
    LexSpace(x);
  }

  /** Values the reader takes for one token. */
  predicate ValueOk(v: string) {
    Quoted(v) || WordText(v)
  }

  function TokenOf(v: string): Token {
    if Quoted(v) then QuotedText(v[0], v[1..|v| - 1]) else Word(v)
  }

  lemma LexValue(v: string, x: string)
    requires ValueOk(v) && Cut(x)
    ensures Lex(v + x) == [TokenOf(v)] + Lex(x)
  {
    if Quoted(v) {
      LexQuoted(v, x);
    } else {
      LexWord(v, x);
    }
  }

  // ----------------------------------------------------------------------- lists

  /** The text of an item, in front of anything that ends a word. */
  ghost predicate LexesTo(f: string, item: Item) {
    forall x :: Cut(x) ==> Lex(f + x) == item + Lex(x)
  }

  ghost predicate ListLexes(fs: seq<string>, items: seq<Item>) {
    |fs| == |items| > 0 && forall i :: 0 <= i < |fs| ==> LexesTo(fs[i], items[i])
  }

  function Commas(items: seq<Item>): seq<Token> {
    if items == [] then [] else if |items| == 1 then items[0] else items[0] + [COMMA] + Commas(items[1..])
  }

  lemma CommasStep(items: seq<Item>, rest: seq<Token>)
    requires |items| > 1
    ensures Commas(items) + rest == items[0] + ([COMMA] + (Commas(items[1..]) + rest))
  {
  }

  lemma LexFirstField(fs: seq<string>, item: Item, x: string)
    requires |fs| > 1 && LexesTo(fs[0], item)
    ensures Lex(Fields(fs) + x) == item + ([COMMA] + Lex(Fields(fs[1..]) + x))
  {
    var more := Fields(fs[1..]) + x;
    HeadFirst(fs, x);
    NextFirst(fs, x);
    assert Cut("," + more);
    LexMark(',', more);
  }

  lemma {:induction false} LexFields(fs: seq<string>, items: seq<Item>, x: string)
    requires ListLexes(fs, items) && Cut(x)
    ensures Lex(Fields(fs) + x) == Commas(items) + Lex(x)
    decreases |fs|
  {
    assert LexesTo(fs[0], items[0]);
    if |fs| == 1 {
      assert fs[0] + "" == fs[0];
    } else {
      LexFirstField(fs, items[0], x);
      assert ListLexes(fs[1..], items[1..]);
      LexFields(fs[1..], items[1..], x);
      CommasStep(items, Lex(x));
    }
  }

  /** A word or value, or word = value. */
  predicate ItemOk(item: Item) {
    || (|item| == 1 && !item[0].Mark?)
    || (|item| == 3 && !item[0].Mark? && item[1] == EQUALS && !item[2].Mark?)
  }

  /** A list is not followed by what would go on with it. */
  predicate Ends(ts: seq<Token>) {
    ts != [] && ts[0] != COMMA && ts[0] != EQUALS
  }

  lemma ItemFirst(item: Item, rest: seq<Token>)
    requires ItemOk(item) && rest != [] && rest[0] != EQUALS
    ensures ItemLength(item + rest) == |item|
    ensures (item + rest)[..|item|] == item && (item + rest)[|item|..] == rest
  {
    var ts := item + rest;
    assert |item| == 1 ==> ts[1] == rest[0];
  }

  lemma {:induction false} ReadListExact(items: seq<Item>, rest: seq<Token>)
    requires items != [] && (forall i :: 0 <= i < |items| ==> ItemOk(items[i])) && Ends(rest)
    ensures ReadList(Commas(items) + rest) == Some((items, rest))
    decreases |items|
  {
    var item := items[0];
    if |items| == 1 {
      ItemFirst(item, rest);
      assert items == [item];
    } else {
      var more := Commas(items[1..]) + rest;
      assert Commas(items) + rest == item + ([COMMA] + more);
      ItemFirst(item, [COMMA] + more);
      var ts := item + ([COMMA] + more);
      assert ts[|item|] == COMMA && ts[|item| + 1..] == more;
      ReadListExact(items[1..], rest);
      assert items == [item] + items[1..];
    }
  }

  // ------------------------------------------------------------------ conditions

  predicate CondOk(c: Cond) {
    WordText(c.column) && c.op in {"=", "LIKE"} && ValueOk(c.value)
  }

  function OpToken(op: string): Token {
    if op == "=" then EQUALS else Word(op)
  }

  function TestOf(c: Cond): Test {
    Test(Word(c.column), c.op, TokenOf(c.value))
  }

  function TestTokens(c: Cond): seq<Token> {
    [Word(c.column), OpToken(c.op), TokenOf(c.value)]
  }

  function CondTokens(cs: seq<Cond>): seq<Token> {
    if cs == [] then [STOP] else [Word("AND")] + (TestTokens(cs[0]) + CondTokens(cs[1..]))
  }

  lemma LexOp(op: string, x: string)
    requires op in {"=", "LIKE"}
    ensures Lex(op + (" " + x)) == [OpToken(op)] + Lex(x)
  {
    if op == "=" {
      assert op + (" " + x) == ['='] + (" " + x);
      LexMark('=', " " + x);
      LexSpace(x);
    } else {
      LexKeyword(op, x);
    }
  }

  lemma LexTest(c: Cond, x: string)
    requires CondOk(c) && Cut(x)
    ensures Lex(c.column + (" " + (c.op + (" " + (c.value + x))))) == TestTokens(c) + Lex(x)
  {
    LexKeyword(c.column, c.op + (" " + (c.value + x)));
    LexOp(c.op, c.value + x);
    LexValue(c.value, x);
  }

  lemma LexCond(c: Cond, x: string)
    requires CondOk(c) && Cut(x)
    ensures Lex(CondText(c) + x) == [Word("AND")] + (TestTokens(c) + Lex(x))
  {
    var test := c.column + (" " + (c.op + (" " + (c.value + x))));
    assert CondText(c) + x == " " + ("AND" + (" " + test));
    LexSpace("AND" + (" " + test));
    LexKeyword("AND", test);
    LexTest(c, x);
  }

  lemma {:induction false} LexConds(cs: seq<Cond>)
    requires forall c :: c in cs ==> CondOk(c)
    ensures Lex(Conds(cs) + ";") == CondTokens(cs)
    ensures Cut(Conds(cs) + ";")
    decreases |cs|
  {
    if cs == [] {
      assert Conds(cs) + ";" == [';'] + "";
      LexMark(';', "");
    } else {
      assert cs[0] in cs;
      LexConds(cs[1..]);
      assert Conds(cs) + ";" == CondText(cs[0]) + (Conds(cs[1..]) + ";");
      LexCond(cs[0], Conds(cs[1..]) + ";");
    }
  }

  function TestsOf(cs: seq<Cond>): (r: seq<Test>)
    ensures |r| == |cs|
  {
    seq(|cs|, i requires 0 <= i < |cs| => TestOf(cs[i]))
  }

  /** The comparison every WHERE starts with. */
  const ALWAYS := Test(Word("1"), "=", Word("1"))

  predicate TestOk(x: Test) {
    !x.left.Mark? && !x.right.Mark? && x.op in {"=", "LIKE"}
  }

  lemma TestFirst(first: Test, more: seq<Token>)
    requires TestOk(first)
    ensures var ts := [first.left, OpToken(first.op), first.right] + more;
      Operand(ts, 0) && Operand(ts, 2) && ReadOp(ts) == Some(first.op) && ts[3..] == more
      && ts[0] == first.left && ts[2] == first.right
      && (more != [] ==> ts[3] == more[0] && ts[4..] == more[1..])
  {
    assert first.op != "=" ==> Word("LIKE") == OpToken(first.op);
  }

  lemma ReadTestsAnd(ts: seq<Token>, tests: seq<Test>)
    requires Operand(ts, 0) && Operand(ts, 2) && ReadOp(ts).Some? && Is(ts, 3, Word("AND"))
    requires ReadTests(ts[4..]) == Some(tests)
    ensures ReadTests(ts) == Some([Test(ts[0], ReadOp(ts).value, ts[2])] + tests)
  {
    assert ts[3..][0] == ts[3] != STOP;
  }

  /** One comparison, then those of a list of conditions. */
  lemma {:induction false} ReadTestsExact(first: Test, cs: seq<Cond>)
    requires TestOk(first) && forall c :: c in cs ==> CondOk(c)
    ensures ReadTests([first.left, OpToken(first.op), first.right] + CondTokens(cs)) == Some([first] + TestsOf(cs))
    decreases |cs|
  {
    var ts := [first.left, OpToken(first.op), first.right] + CondTokens(cs);
    TestFirst(first, CondTokens(cs));
    if cs == [] {
      assert [first] + TestsOf(cs) == [first];
    } else {
      assert cs[0] in cs;
      ReadTestsExact(TestOf(cs[0]), cs[1..]);
      assert ts[4..] == TestTokens(cs[0]) + CondTokens(cs[1..]);
      ReadTestsAnd(ts, [TestOf(cs[0])] + TestsOf(cs[1..]));
      assert [TestOf(cs[0])] + TestsOf(cs[1..]) == TestsOf(cs);
    }
  }

  /** A comparison of a word with itself, and what follows. */
  lemma LexConstant(n: string, x: string)
    requires WordText(n) && Cut(x)
    ensures Lex(n + (['='] + (n + x))) == [Word(n)] + ([EQUALS] + ([Word(n)] + Lex(x)))
  {
    LexPair(n, n + x);
    LexWord(n, x);
  }

  lemma Flat3<T>(a: T, b: T, c: T, rest: seq<T>)
    ensures [a] + ([b] + ([c] + rest)) == [a, b, c] + rest
  {
  }

  lemma LexWhere(cs: seq<Cond>)
    requires forall c :: c in cs ==> CondOk(c)
    ensures Lex(" WHERE " + (Where(cs) + ";")) ==
      [Word("WHERE")] + ([Word("1"), EQUALS, Word("1")] + CondTokens(cs))
  {
    var x := Conds(cs) + ";";
    var y := "1" + (['='] + ("1" + x));
    WhereText(Conds(cs));
    LexSpace("WHERE" + (" " + y));
    LexKeyword("WHERE", y);
    LexConds(cs);
    LexConstant("1", x);
    Flat3(Word("1"), EQUALS, Word("1"), CondTokens(cs));
  }

  lemma WhereText(conds: string)
    ensures " WHERE " + ("1=1" + conds + ";") == " " + ("WHERE" + (" " + ("1" + (['='] + ("1" + (conds + ";"))))))
  {
    assert " WHERE " == " " + "WHERE" + " " && "1=1" == "1" + ['='] + "1";
  }

  lemma ReadWhereExact(cs: seq<Cond>)
    requires forall c :: c in cs ==> CondOk(c)
    ensures ReadWhere(Lex(" WHERE " + (Where(cs) + ";"))) == Some([ALWAYS] + TestsOf(cs))
    ensures Ends(Lex(" WHERE " + (Where(cs) + ";")))
  {
    LexWhere(cs);
    var ts := [Word("1"), EQUALS, Word("1")] + CondTokens(cs);
    assert ([Word("WHERE")] + ts)[1..] == ts;
    ReadTestsExact(ALWAYS, cs);
  }

  // ------------------------------------------------------- the text says the query

  function Singles(fs: seq<string>): (r: seq<Item>)
    ensures |r| == |fs|
  {
    seq(|fs|, i requires 0 <= i < |fs| => [TokenOf(fs[i])])
  }

  function Sets(columns: seq<string>, values: seq<string>): (r: seq<Item>)
    requires |columns| == |values|
    ensures |r| == |columns|
  {
    seq(|columns|, i requires 0 <= i < |columns| => [Word(columns[i]), EQUALS, TokenOf(values[i])])
  }

  lemma SinglesLex(fs: seq<string>)
    requires fs != [] && forall f :: f in fs ==> ValueOk(f)
    ensures ListLexes(fs, Singles(fs)) && forall i :: 0 <= i < |fs| ==> ItemOk(Singles(fs)[i])
  {
    forall i | 0 <= i < |fs|
      ensures LexesTo(fs[i], Singles(fs)[i])
    {
      assert fs[i] in fs;
      forall x | Cut(x)
        ensures Lex(fs[i] + x) == [TokenOf(fs[i])] + Lex(x)
      {
        LexValue(fs[i], x);
      }
    }
  }

  lemma PairLexes(column: string, value: string, x: string)
    requires WordText(column) && ValueOk(value) && Cut(x)
    ensures Lex(column + "=" + value + x) == [Word(column), EQUALS, TokenOf(value)] + Lex(x)
  {
    PairText(column, value, x);
    LexPair(column, value + x);
    LexValue(value, x);
    Flat3(Word(column), EQUALS, TokenOf(value), Lex(x));
  }

  lemma LexPair(column: string, x: string)
    requires WordText(column)
    ensures Lex(column + (['='] + x)) == [Word(column)] + ([EQUALS] + Lex(x))
  {
    LexWord(column, ['='] + x);
    LexMark('=', x);
  }

  lemma PairText(column: string, value: string, x: string)
    ensures column + "=" + value + x == column + (['='] + (value + x))
  {
  }

  lemma SetsLex(columns: seq<string>, values: seq<string>)
    requires |columns| == |values| > 0
    requires (forall c :: c in columns ==> WordText(c)) && (forall v :: v in values ==> ValueOk(v))
    ensures ListLexes(Pairs(columns, values), Sets(columns, values))
    ensures forall i :: 0 <= i < |columns| ==> ItemOk(Sets(columns, values)[i])
  {
    var ps := Pairs(columns, values);
    forall i | 0 <= i < |columns|
      ensures LexesTo(ps[i], Sets(columns, values)[i])
    {
      assert columns[i] in columns && values[i] in values;
      forall x | Cut(x)
        ensures Lex(ps[i] + x) == Sets(columns, values)[i] + Lex(x)
      {
        PairLexes(columns[i], values[i], x);
      }
    }
  }

  /** Queries of words, quoted texts and the two comparisons. */
  predicate Readable(q: Query) {
    && Shaped(q) && WordText(q.table) && q.columns != []
    && (forall c :: c in q.columns ==> WordText(c))
    && (!q.Select? ==> forall v :: v in q.values ==> ValueOk(v))
    && (!q.Insert? ==> forall c :: c in q.conds ==> CondOk(c))
  }

  lemma LexFrom(second: string, table: string, where: string)
    requires WordText(second) && WordText(table) && Cut(where)
    ensures Lex(" " + (second + (" " + (table + where)))) == [Word(second)] + ([Word(table)] + Lex(where))
  {
    LexSpace(second + (" " + (table + where)));
    LexKeyword(second, table + where);
    LexWord(table, where);
  }

  lemma LexSelect(first: string, fs: seq<string>, second: string, table: string, where: string)
    requires WordText(first) && WordText(second) && WordText(table) && Cut(where)
    requires fs != [] && forall f :: f in fs ==> ValueOk(f)
    ensures Lex(first + (" " + (Fields(fs) + (" " + (second + (" " + (table + where))))))) ==
      [Word(first)] + (Commas(Singles(fs)) + ([Word(second)] + ([Word(table)] + Lex(where))))
  {
    var tail := " " + (second + (" " + (table + where)));
    LexKeyword(first, Fields(fs) + tail);
    SinglesLex(fs);
    LexFields(fs, Singles(fs), tail);
    LexFrom(second, table, where);
  }

  lemma ReadAfterList(columns: seq<Item>, table: string, where: seq<Token>, ts: seq<Token>)
    requires ReadList(ts) == Some((columns, [Word("FROM")] + ([Word(table)] + where))) && ReadWhere(where).Some?
    ensures ReadSelect(ts) == Some(SelectRows(columns, table, ReadWhere(where).value))
  {
    assert ([Word("FROM")] + ([Word(table)] + where))[2..] == where;
  }

  lemma SelectTokens(ts: seq<Token>)
    ensures ReadTokens([Word("SELECT")] + ts) == ReadSelect(ts)
  {
    assert ([Word("SELECT")] + ts)[1..] == ts;
  }

  lemma ReadSelectTokens(columns: seq<Item>, table: string, where: seq<Token>)
    requires columns != [] && (forall i :: 0 <= i < |columns| ==> ItemOk(columns[i])) && ReadWhere(where).Some?
    ensures ReadTokens([Word("SELECT")] + (Commas(columns) + ([Word("FROM")] + ([Word(table)] + where)))) ==
      Some(SelectRows(columns, table, ReadWhere(where).value))
  {
    var rest := [Word("FROM")] + ([Word(table)] + where);
    ReadListExact(columns, rest);
    ReadAfterList(columns, table, where, Commas(columns) + rest);
    SelectTokens(Commas(columns) + rest);
  }

  lemma SelectText(fields: string, table: string, where: string)
    ensures "SELECT " + (fields + (" FROM " + (table + where))) ==
      "SELECT" + (" " + (fields + (" " + ("FROM" + (" " + (table + where))))))
  {
    assert "SELECT " == "SELECT" + " " && " FROM " == " " + "FROM" + " ";
  }

  /** What is read from the text of a SELECT: its columns, its table, and its
      conditions after one that always holds. */
  lemma ReadSelectExact(q: Query)
    requires Readable(q) && q.Select?
    ensures Read(Render(q)) == Some(SelectRows(Singles(q.columns), q.table, [ALWAYS] + TestsOf(q.conds)))
  {
    var where := " WHERE " + (Where(q.conds) + ";");
    SelectText(Fields(q.columns), q.table, where);
    LexSelect("SELECT", q.columns, "FROM", q.table, where);
    ReadWhereExact(q.conds);
    SinglesLex(q.columns);
    ReadSelectTokens(Singles(q.columns), q.table, Lex(where));
  }

  lemma LexTuple(fs: seq<string>, x: string)
    requires fs != [] && (forall f :: f in fs ==> ValueOk(f))
    ensures Lex(['('] + (Fields(fs) + ([')'] + x))) == [Mark('(')] + (Commas(Singles(fs)) + ([Mark(')')] + Lex(x)))
  {
    LexMark('(', Fields(fs) + ([')'] + x));
    SinglesLex(fs);
    LexFields(fs, Singles(fs), [')'] + x);
    LexMark(')', x);
  }

  lemma LexValues(third: string, values: seq<string>)
    requires WordText(third) && values != [] && forall f :: f in values ==> ValueOk(f)
    ensures Lex(" " + (third + (['('] + (Fields(values) + ([')'] + [';']))))) ==
      [Word(third)] + ([Mark('(')] + (Commas(Singles(values)) + [Mark(')'), STOP]))
  {
    var tuple := ['('] + (Fields(values) + ([')'] + [';']));
    LexSpace(third + tuple);
    LexWord(third, tuple);
    LexTuple(values, [';']);
    assert [';'] + "" == [';'];
    LexMark(';', "");
  }

  lemma LexInto(first: string, second: string, table: string, names: seq<string>, x: string)
    requires WordText(first) && WordText(second) && WordText(table)
    requires names != [] && (forall f :: f in names ==> ValueOk(f))
    ensures Lex(first + (" " + (second + (" " + (table + (['('] + (Fields(names) + ([')'] + x)))))))) ==
      [Word(first)] + ([Word(second)] + ([Word(table)] + ([Mark('(')] +
        (Commas(Singles(names)) + ([Mark(')')] + Lex(x))))))
  {
    var more := ['('] + (Fields(names) + ([')'] + x));
    LexKeyword(first, second + (" " + (table + more)));
    LexKeyword(second, table + more);
    LexWord(table, more);
    LexTuple(names, x);
  }

  lemma InsertFlat(a: Token, b: Token, c: Token, d: Token, cols: seq<Token>, e: Token, f: Token, vals: seq<Token>)
    ensures [a] + ([b] + ([c] + ([d] + (cols + ([e] + ([f] + ([d] + vals))))))) ==
      [a, b, c, d] + (cols + ([e, f, d] + vals))
  {
  }

  lemma LexInsert(first: string, second: string, table: string, names: seq<string>, third: string, values: seq<string>)
    requires WordText(first) && WordText(second) && WordText(table) && WordText(third) && names != [] && values != []
    requires (forall f :: f in names ==> ValueOk(f)) && (forall f :: f in values ==> ValueOk(f))
    ensures Lex(first + (" " + (second + (" " + (table + (['('] + (Fields(names) + ([')'] +
                (" " + (third + (['('] + (Fields(values) + ([')'] + [';']))))))))))))) ==
      [Word(first), Word(second), Word(table), Mark('(')] + (Commas(Singles(names)) +
        ([Mark(')'), Word(third), Mark('(')] + (Commas(Singles(values)) + [Mark(')'), STOP])))
  {
    var x := " " + (third + (['('] + (Fields(values) + ([')'] + [';']))));
    LexInto(first, second, table, names, x);
    LexValues(third, values);
    InsertFlat(Word(first), Word(second), Word(table), Mark('('), Commas(Singles(names)),
               Mark(')'), Word(third), Commas(Singles(values)) + [Mark(')'), STOP]);
  }

  lemma ReadAfterTable(table: string, columns: seq<Item>, values: seq<Item>, ts: seq<Token>, vs: seq<Token>)
    requires ReadList(ts) == Some((columns, [Mark(')'), Word("VALUES"), Mark('(')] + vs))
    requires ReadList(vs) == Some((values, [Mark(')'), STOP]))
    ensures ReadInsert([Word(table), Mark('(')] + ts) == Some(InsertRow(table, columns, values))
  {
    assert ([Word(table), Mark('(')] + ts)[2..] == ts;
    assert ([Mark(')'), Word("VALUES"), Mark('(')] + vs)[3..] == vs;
  }

  lemma InsertTokens(table: string, ts: seq<Token>)
    ensures ReadTokens([Word("INSERT"), Word("INTO"), Word(table), Mark('(')] + ts) ==
      ReadInsert([Word(table), Mark('(')] + ts)
  {
    assert ([Word("INSERT"), Word("INTO"), Word(table), Mark('(')] + ts)[2..] == [Word(table), Mark('(')] + ts;
  }

  lemma ReadInsertTokens(table: string, columns: seq<Item>, values: seq<Item>)
    requires columns != [] && (forall i :: 0 <= i < |columns| ==> ItemOk(columns[i]))
    requires values != [] && (forall i :: 0 <= i < |values| ==> ItemOk(values[i]))
    ensures ReadTokens([Word("INSERT"), Word("INTO"), Word(table), Mark('(')] + (Commas(columns) +
        ([Mark(')'), Word("VALUES"), Mark('(')] + (Commas(values) + [Mark(')'), STOP])))) ==
      Some(InsertRow(table, columns, values))
  {
    var more := Commas(values) + [Mark(')'), STOP];
    var rest := [Mark(')'), Word("VALUES"), Mark('(')] + more;
    ReadListExact(columns, rest);
    ReadListExact(values, [Mark(')'), STOP]);
    ReadAfterTable(table, columns, values, Commas(columns) + rest, more);
    InsertTokens(table, Commas(columns) + rest);
  }

  lemma InsertText(table: string, names: string, values: string)
    ensures "INSERT INTO " + (table + ("(" + (names + (") VALUES(" + (values + ");"))))) ==
      "INSERT" + (" " + ("INTO" + (" " + (table + (['('] + (names + ([')'] +
        (" " + ("VALUES" + (['('] + (values + ([')'] + [';']))))))))))))
  {
    assert "INSERT INTO " == "INSERT" + " " + "INTO" + " ";
    assert ") VALUES(" == [')'] + " " + "VALUES" + ['('];
    assert ");" == [')'] + [';'];
  }

  lemma ReadInsertExact(q: Query)
    requires Readable(q) && q.Insert?
    ensures Read(Render(q)) == Some(InsertRow(q.table, Singles(q.columns), Singles(q.values)))
  {
    InsertText(q.table, Fields(q.columns), Fields(q.values));
    LexInsert("INSERT", "INTO", q.table, q.columns, "VALUES", q.values);
    SinglesLex(q.columns);
    SinglesLex(q.values);
    ReadInsertTokens(q.table, Singles(q.columns), Singles(q.values));
  }

  lemma LexUpdate(first: string, table: string, second: string, pairs: seq<string>, sets: seq<Item>, where: string)
    requires WordText(first) && WordText(table) && WordText(second) && Cut(where) && ListLexes(pairs, sets)
    ensures Lex(first + (" " + (table + (" " + (second + (" " + (Fields(pairs) + where))))))) ==
      [Word(first)] + ([Word(table)] + ([Word(second)] + (Commas(sets) + Lex(where))))
  {
    var body := Fields(pairs) + where;
    var more := second + (" " + body);
    LexKeyword(first, table + (" " + more));
    LexKeyword(table, more);
    LexKeyword(second, body);
    LexFields(pairs, sets, where);
  }

  lemma UpdateTokens(ts: seq<Token>)
    ensures ReadTokens([Word("UPDATE")] + ts) == ReadUpdate(ts)
  {
    assert ([Word("UPDATE")] + ts)[1..] == ts;
  }

  lemma ReadAfterSet(table: string, sets: seq<Item>, where: seq<Token>, ts: seq<Token>)
    requires ReadList(ts) == Some((sets, where)) && ReadWhere(where).Some?
    ensures ReadUpdate([Word(table)] + ([Word("SET")] + ts)) == Some(UpdateRows(table, sets, ReadWhere(where).value))
  {
    assert ([Word(table)] + ([Word("SET")] + ts))[2..] == ts;
  }

  lemma ReadUpdateTokens(table: string, sets: seq<Item>, where: seq<Token>)
    requires sets != [] && (forall i :: 0 <= i < |sets| ==> ItemOk(sets[i]))
    requires Ends(where) && ReadWhere(where).Some?
    ensures ReadTokens([Word("UPDATE")] + ([Word(table)] + ([Word("SET")] + (Commas(sets) + where)))) ==
      Some(UpdateRows(table, sets, ReadWhere(where).value))
  {
    var ts := Commas(sets) + where;
    ReadListExact(sets, where);
    ReadAfterSet(table, sets, where, ts);
    UpdateTokens([Word(table)] + ([Word("SET")] + ts));
  }

  lemma UpdateText(table: string, pairs: string, where: string)
    ensures "UPDATE " + (table + (" SET " + (pairs + where))) ==
      "UPDATE" + (" " + (table + (" " + ("SET" + (" " + (pairs + where))))))
  {
    assert "UPDATE " == "UPDATE" + " " && " SET " == " " + "SET" + " ";
  }

  lemma ReadUpdateExact(q: Query)
    requires Readable(q) && q.Update?
    ensures Read(Render(q)) == Some(UpdateRows(q.table, Sets(q.columns, q.values), [ALWAYS] + TestsOf(q.conds)))
  {
    var where, pairs := " WHERE " + (Where(q.conds) + ";"), Pairs(q.columns, q.values);
    UpdateText(q.table, Fields(pairs), where);
    SetsLex(q.columns, q.values);
    LexUpdate("UPDATE", q.table, "SET", pairs, Sets(q.columns, q.values), where);
    ReadWhereExact(q.conds);
    ReadUpdateTokens(q.table, Sets(q.columns, q.values), Lex(where));
  }
}
