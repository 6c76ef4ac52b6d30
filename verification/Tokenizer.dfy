/** `split_arguments`, `add` and `count_elements` (utils.c): cutting shell input
    and database rows into tokens at unquoted spaces. */
module Tokenizer {
  import opened Text

  // --------------------------------------------------- what the scanner computes

  function Quotes(s: string): nat {
    if s == "" then 0 else (if s[0] == '"' then 1 else 0) + Quotes(s[1..])
  }

  predicate Odd(s: string) {
    Quotes(s) % 2 == 1
  }

  lemma {:induction false} QuotesAppend(a: string, b: string)
    ensures Quotes(a + b) == Quotes(a) + Quotes(b)
  {
    if a == "" {
      assert a + b == b;
    } else {
      assert (a + b)[1..] == a[1..] + b;
      QuotesAppend(a[1..], b);
    }
  }

  lemma QuotesSnoc(s: string, c: char)
    ensures Quotes(s + [c]) == Quotes(s) + (if c == '"' then 1 else 0)
  {
    QuotesAppend(s, [c]);
    assert [c][1..] == "";
  }

  /** Every space of s has an odd number of quotes before it. */
  ghost predicate SpacesQuoted(s: string) {
    forall i :: 0 <= i < |s| && s[i] == ' ' ==> Odd(s[..i])
  }

  ghost predicate Token(t: string) {
    t != "" && !Odd(t) && SpacesQuoted(t)
  }

  /** A token whose closing quote is still missing. */
  ghost predicate Unfinished(t: string) {
    Odd(t) && SpacesQuoted(t)
  }

  predicate Spaces(s: string) {
    forall i :: 0 <= i < |s| ==> s[i] == ' '
  }

  datatype Lex = Lex(done: seq<string>, cur: string)

  function Step(l: Lex, c: char): Lex {
    if c != ' ' || Odd(l.cur) then l.(cur := l.cur + [c])
    else if l.cur != "" then Lex(l.done + [l.cur], "")
    else l
  }

  function Run(l: Lex, s: string): Lex
    decreases |s|
  {
    if s == "" then l else Run(Step(l, s[0]), s[1..])
  }

  predicate EndsInSpace(s: string) {
    s == "" || s[|s| - 1] == ' '
  }

  /** None is the C code's NULL. */
  function Split(s: string): Option<seq<string>> {
    var l := Run(Lex([], ""), s);
    if EndsInSpace(s) then Some(l.done)
    else if Odd(l.cur) then None
    else Some(l.done + [l.cur])
  }

  lemma {:induction false} RunAppend(l: Lex, a: string, b: string)
    ensures Run(l, a + b) == Run(Run(l, a), b)
    decreases |a|
  {
    if a == "" {
      assert a + b == b;
    } else {
      assert (a + b)[1..] == a[1..] + b;
      RunAppend(Step(l, a[0]), a[1..], b);
    }
  }

  lemma RunSnoc(l: Lex, s: string, c: char)
    ensures Run(l, s + [c]) == Step(Run(l, s), c)
  {
    RunAppend(l, s, [c]);
    assert [c][1..] == "";
  }

  // ------------------------------------------------------------- the C functions

  /** `add`: a fresh, longer copy with str at its end. */
  method Add(str: string, vector: array<string>, cant: nat) returns (aux: array<string>)
    requires 1 <= cant <= vector.Length + 1
    ensures fresh(aux) && aux[..] == vector[..cant - 1] + [str]
  {
    aux := new string[cant](_ => "");
    var i := 0;
    while i < cant - 1
      invariant 0 <= i <= cant - 1
      invariant aux[..i] == vector[..i]
    {
      aux[i] := vector[i];
      i := i + 1;
    }
    aux[cant - 1] := str;
    assert aux[..] == aux[..cant - 1] + [str];
  }

  /** What index, last_begin, last_was_char and quotation_open mean together. */
  ghost predicate Scanned(s: string, index: int, lastBegin: int, lastWasChar: bool, quotationOpen: bool, l: Lex) {
    && 0 <= lastBegin <= index <= |s|
    && l == Run(Lex([], ""), s[..index])
    && quotationOpen == Odd(l.cur)
    && lastWasChar == !EndsInSpace(s[..index])
    && (lastWasChar || quotationOpen ==> l.cur == s[lastBegin..index] && l.cur != "")
    && (!lastWasChar && !quotationOpen ==> l.cur == "")
  }

  lemma ScannedStep(s: string, index: int, lastBegin: int, lastWasChar: bool, quotationOpen: bool, l: Lex)
    requires index < |s| && Scanned(s, index, lastBegin, lastWasChar, quotationOpen, l)
    ensures s[index] == ' ' ==>
      Scanned(s, index + 1, lastBegin, false, quotationOpen, Step(l, ' '))
    ensures s[index] != ' ' ==>
      Scanned(s, index + 1, if !quotationOpen && !lastWasChar then index else lastBegin, true,
              if s[index] == '"' then !quotationOpen else quotationOpen, Step(l, s[index]))
  {
    assert s[..index + 1] == s[..index] + [s[index]];
    RunSnoc(Lex([], ""), s[..index], s[index]);
    QuotesSnoc(l.cur, s[index]);
    assert s[lastBegin..index + 1] == s[lastBegin..index] + [s[index]];
  }

  /** `split_arguments`.  The vector returned ends with an empty string. */
  method SplitArguments(sentence: string) returns (result: array?<string>)
    requires NulFree(sentence)
    ensures result == null <==> Split(sentence) == None
    ensures result != null ==> fresh(result) && exists tokens ::
      Split(sentence) == Some(tokens) && result[..] == tokens + [""]
  {
    var index, lastBegin, count := 0, 0, 0;
    var lastWasChar, quotationOpen := false, false;
    var vector := new string[0];
    ghost var l := Lex([], "");
    assert sentence[..0] == "";
    while index < |sentence|
      invariant Scanned(sentence, index, lastBegin, lastWasChar, quotationOpen, l)
      invariant fresh(vector) && count == vector.Length && vector[..] == l.done
    {
      ScannedStep(sentence, index, lastBegin, lastWasChar, quotationOpen, l);
      l := Step(l, sentence[index]);
      if sentence[index] == ' ' {
        if lastWasChar && !quotationOpen {
          count := count + 1;
          vector := Add(sentence[lastBegin..index], vector, count);
        }
        lastWasChar := false;
      } else {
        if !quotationOpen && !lastWasChar {
          lastBegin := index;
        }
        lastWasChar := true;
        if sentence[index] == '"' {
          quotationOpen := !quotationOpen;
        }
      }
      index := index + 1;
    }
    assert sentence[..index] == sentence;
    assert l == Run(Lex([], ""), sentence);
    if lastWasChar {
      if quotationOpen {
        return null;
      }
      count := count + 1;
      vector := Add(sentence[lastBegin..index], vector, count);
    }
    ghost var tokens := vector[..];
    assert tokens == if lastWasChar then l.done + [l.cur] else l.done;
    assert Split(sentence) == Some(tokens);
    result := Add("", vector, count + 1);
    assert vector[..count] == tokens;
  }

  /** `count_elements`: the position of the terminating empty string. */
  method CountElements(vector: array<string>) returns (count: nat)
    requires exists k :: 0 <= k < vector.Length && vector[k] == ""
    ensures count < vector.Length && vector[count] == ""
    ensures forall k :: 0 <= k < count ==> vector[k] != ""
  {
    count := 0;
    while vector[count] != ""
      invariant count < vector.Length
      invariant exists k :: count <= k < vector.Length && vector[k] == ""
      invariant forall k :: 0 <= k < count ==> vector[k] != ""
      decreases vector.Length - count
    {
      count := count + 1;
    }
  }

  // ------------------------------------------------------------------ exactness

  /** A token and the spaces after it. */
  datatype Piece = Piece(token: string, gap: string)

  function Weave(pieces: seq<Piece>): string {
    if pieces == [] then "" else pieces[0].token + pieces[0].gap + Weave(pieces[1..])
  }

  function Tokens(pieces: seq<Piece>): (ts: seq<string>)
    ensures |ts| == |pieces|
  {
    seq(|pieces|, i requires 0 <= i < |pieces| => pieces[i].token)
  }

  /** Tokens separated by spaces; the last one may have nothing after it. */
  ghost predicate Woven(pieces: seq<Piece>) {
    && (forall i :: 0 <= i < |pieces| ==> Token(pieces[i].token) && Spaces(pieces[i].gap))
    && (forall i :: 0 <= i < |pieces| - 1 ==> pieces[i].gap != "")
  }

  /** Like Woven, with spaces after the last token too. */
  ghost predicate Closed(pieces: seq<Piece>) {
    Woven(pieces) && (pieces != [] ==> pieces[|pieces| - 1].gap != "")
  }

  lemma {:induction false} RunSpaces(done: seq<string>, gap: string)
    requires Spaces(gap)
    ensures Run(Lex(done, ""), gap) == Lex(done, "")
    decreases |gap|
  {
    if gap != "" {
      assert Quotes("") == 0;
      RunSpaces(done, gap[1..]);
    }
  }

  /** Reading a piece without unquoted spaces only extends the current token. */
  lemma {:induction false} RunPiece(done: seq<string>, t: string, n: nat)
    requires SpacesQuoted(t) && n <= |t|
    ensures Run(Lex(done, ""), t[..n]) == Lex(done, t[..n])
    decreases n
  {
    if n > 0 {
      RunPiece(done, t, n - 1);
      assert t[..n] == t[..n - 1] + [t[n - 1]];
      RunSnoc(Lex(done, ""), t[..n - 1], t[n - 1]);
    }
  }

  lemma RunWhole(done: seq<string>, t: string)
    requires SpacesQuoted(t)
    ensures Run(Lex(done, ""), t) == Lex(done, t)
  {
    RunPiece(done, t, |t|);
    assert t[..|t|] == t;
  }

  lemma RunToken(done: seq<string>, t: string, gap: string)
    requires Token(t) && Spaces(gap) && gap != ""
    ensures Run(Lex(done, ""), t + gap) == Lex(done + [t], "")
  {
    RunWhole(done, t);
    RunAppend(Lex(done, ""), t, gap);
    RunSpaces(done + [t], gap[1..]);
  }

  /** A token cannot end in a space: that space would be quoted an even number of times. */
  lemma TokenEnd(t: string)
    requires Token(t)
    ensures !EndsInSpace(t)
  {
    var n := |t| - 1;
    assert t == t[..n] + [t[n]];
    QuotesSnoc(t[..n], t[n]);
  }

  lemma {:induction false} RunClosed(done: seq<string>, pieces: seq<Piece>)
    requires Closed(pieces)
    ensures Run(Lex(done, ""), Weave(pieces)) == Lex(done + Tokens(pieces), "")
    decreases |pieces|
  {
    if pieces == [] {
      assert done + Tokens(pieces) == done;
    } else {
      var p, rest := pieces[0], pieces[1..];
      RunToken(done, p.token, p.gap);
      RunAppend(Lex(done, ""), p.token + p.gap, Weave(rest));
      RunClosed(done + [p.token], rest);
      assert done + [p.token] + Tokens(rest) == done + Tokens(pieces);
    }
  }

  lemma {:induction false} WeaveSnoc(pieces: seq<Piece>, p: Piece)
    ensures Weave(pieces + [p]) == Weave(pieces) + p.token + p.gap
    decreases |pieces|
  {
    if pieces == [] {
      assert (pieces + [p])[1..] == [];
      assert Weave([]) == "";
      assert Weave(pieces + [p]) == p.token + p.gap + "";
    } else {
      assert (pieces + [p])[1..] == pieces[1..] + [p];
      WeaveSnoc(pieces[1..], p);
    }
  }

  /** A whole sentence: leading spaces, tokens, and a tail still waiting for its quote. */
  datatype Reading = Reading(lead: string, pieces: seq<Piece>, tail: string) {
    function Text(): string { lead + Weave(pieces) + tail }
  }

  ghost predicate Readable(r: Reading) {
    && Spaces(r.lead)
    && (if r.tail == "" then Woven(r.pieces)
        else Closed(r.pieces) && Unfinished(r.tail) && EndsInSpace(r.tail))
  }

  /** The last token may end the sentence. */
  lemma SplitAtToken(lead: string, init: seq<Piece>, t: string)
    requires Spaces(lead) && Closed(init) && Token(t)
    ensures Split(lead + Weave(init) + t) == Some(Tokens(init) + [t])
  {
    var s, l0 := lead + Weave(init) + t, Lex([], "");
    RunSpaces([], lead);
    RunClosed([], init);
    assert [] + Tokens(init) == Tokens(init);
    RunWhole(Tokens(init), t);
    RunAppend(l0, lead + Weave(init), t);
    RunAppend(l0, lead, Weave(init));
    TokenEnd(t);
    assert s[|s| - 1] == t[|t| - 1];
  }

  lemma SplitAtSpace(r: Reading)
    requires Spaces(r.lead) && Closed(r.pieces) && SpacesQuoted(r.tail) && EndsInSpace(r.tail)
    ensures Split(r.Text()) == Some(Tokens(r.pieces))
  {
    var l0 := Lex([], "");
    RunSpaces([], r.lead);
    RunClosed([], r.pieces);
    assert [] + Tokens(r.pieces) == Tokens(r.pieces);
    RunWhole(Tokens(r.pieces), r.tail);
    RunAppend(l0, r.lead + Weave(r.pieces), r.tail);
    RunAppend(l0, r.lead, Weave(r.pieces));
    ReadingEnd(r);
  }

  /** Any spacing of any list of tokens is split back into that list; a tail whose
      quote never closes is dropped when it ends in a space. */
  lemma SplitReading(r: Reading)
    requires Readable(r)
    ensures Split(r.Text()) == Some(Tokens(r.pieces))
  {
    var n := |r.pieces|;
    if n > 0 && r.pieces[n - 1].gap == "" {
      var init, last := r.pieces[..n - 1], r.pieces[n - 1];
      assert r.pieces == init + [last];
      WeaveSnoc(init, last);
      SplitAtToken(r.lead, init, last.token);
      assert r.Text() == r.lead + Weave(init) + last.token;
      assert Tokens(r.pieces) == Tokens(init) + [last.token];
    } else {
      SplitAtSpace(r);
    }
  }

  lemma ReadingEnd(r: Reading)
    requires Spaces(r.lead) && Closed(r.pieces) && EndsInSpace(r.tail)
    ensures EndsInSpace(r.Text())
  {
    var s, n := r.Text(), |r.pieces|;
    if r.tail != "" {
      assert s[|s| - 1] == r.tail[|r.tail| - 1];
    } else if n > 0 {
      var p := r.pieces[n - 1];
      assert r.pieces == r.pieces[..n - 1] + [p];
      WeaveSnoc(r.pieces[..n - 1], p);
      assert s[|s| - 1] == p.gap[|p.gap| - 1];
    } else {
      assert s == r.lead;
    }
  }

  /** What has been read so far, put back together. */
  ghost predicate Accounts(s: string, l: Lex, r: Reading) {
    && Spaces(r.lead) && Closed(r.pieces)
    && s == r.Text() && l == Lex(Tokens(r.pieces), r.tail)
    && SpacesQuoted(r.tail)
    && Odd(s) == Odd(r.tail)
  }

  lemma AccountsExtend(s: string, l: Lex, r: Reading, c: char)
    requires Accounts(s, l, r) && (c != ' ' || Odd(r.tail))
    ensures Accounts(s + [c], Step(l, c), r.(tail := r.tail + [c]))
  {
    QuotesSnoc(s, c);
    QuotesSnoc(r.tail, c);
    var t := r.tail + [c];
    forall i | 0 <= i < |t| && t[i] == ' '
      ensures Odd(t[..i])
    {
      assert t[..i] == r.tail[..i];
      if i == |r.tail| { assert r.tail[..i] == r.tail; }
    }
    assert s + [c] == r.(tail := t).Text();
  }

  lemma AccountsEmit(s: string, l: Lex, r: Reading)
    requires Accounts(s, l, r) && !Odd(r.tail) && r.tail != ""
    ensures Accounts(s + " ", Step(l, ' '), Reading(r.lead, r.pieces + [Piece(r.tail, " ")], ""))
  {
    QuotesSnoc(s, ' ');
    var p := Piece(r.tail, " ");
    var r' := Reading(r.lead, r.pieces + [p], "");
    WeaveSnoc(r.pieces, p);
    assert Tokens(r'.pieces) == Tokens(r.pieces) + [r.tail];
    assert r'.Text() == r.lead + (Weave(r.pieces) + r.tail + " ") + "";
    assert s + " " == r'.Text();
  }

  lemma GrowLastGap(pieces: seq<Piece>) returns (grown: seq<Piece>)
    requires Closed(pieces) && pieces != []
    ensures Closed(grown) && Tokens(grown) == Tokens(pieces) && Weave(grown) == Weave(pieces) + " "
  {
    var n := |pieces| - 1;
    var p, init := pieces[n], pieces[..n];
    var p' := p.(gap := p.gap + " ");
    assert pieces == init + [p];
    grown := init + [p'];
    WeaveSnoc(init, p);
    WeaveSnoc(init, p');
    assert Weave(init) + p.token + p'.gap == Weave(init) + p.token + p.gap + " ";
  }

  lemma AccountsGap(s: string, l: Lex, r: Reading) returns (r': Reading)
    requires Accounts(s, l, r) && r.tail == ""
    ensures Accounts(s + " ", Step(l, ' '), r')
  {
    QuotesSnoc(s, ' ');
    if r.pieces == [] {
      r' := r.(lead := r.lead + " ");
      assert s + " " == r'.Text();
    } else {
      var grown := GrowLastGap(r.pieces);
      r' := r.(pieces := grown);
      assert s + " " == r'.Text();
    }
  }

  lemma AccountsStep(s: string, l: Lex, r: Reading, c: char) returns (r': Reading)
    requires Accounts(s, l, r)
    ensures Accounts(s + [c], Step(l, c), r')
  {
    if c != ' ' || Odd(r.tail) {
      AccountsExtend(s, l, r, c);
      r' := r.(tail := r.tail + [c]);
    } else if r.tail != "" {
      AccountsEmit(s, l, r);
      r' := Reading(r.lead, r.pieces + [Piece(r.tail, " ")], "");
    } else {
      r' := AccountsGap(s, l, r);
    }
  }

  lemma {:induction false} Account(s: string) returns (r: Reading)
    ensures Accounts(s, Run(Lex([], ""), s), r)
    decreases |s|
  {
    if s == "" {
      r := Reading("", [], "");
      assert Tokens([]) == [];
    } else {
      var n := |s| - 1;
      assert s == s[..n] + [s[n]];
      var r0 := Account(s[..n]);
      r := AccountsStep(s[..n], Run(Lex([], ""), s[..n]), r0, s[n]);
      RunSnoc(Lex([], ""), s[..n], s[n]);
    }
  }

  lemma TailEnd(r: Reading)
    requires r.tail != ""
    ensures EndsInSpace(r.Text()) == EndsInSpace(r.tail)
  {
  }

  /** `split_arguments` is exact: NULL for an odd number of quotes not followed by
      a final space, and otherwise the tokens of the one way to read the sentence. */
  lemma SplitExact(s: string, ts: seq<string>)
    ensures Split(s) == None <==> Odd(s) && !EndsInSpace(s)
    ensures Split(s) == Some(ts) <==> exists r :: Readable(r) && r.Text() == s && Tokens(r.pieces) == ts
  {
    var r := Account(s);
    if r.tail != "" { TailEnd(r); }
    if EndsInSpace(s) {
      if r.tail != "" && !Odd(r.tail) { TokenEnd(r.tail); }
      assert Readable(r);
    } else {
      if r.tail == "" { ReadingEnd(r); }
      assert r.tail != "";
      if !Odd(s) {
        var p := Piece(r.tail, "");
        var r' := Reading(r.lead, r.pieces + [p], "");
        WeaveSnoc(r.pieces, p);
        assert r'.Text() == s;
        assert Tokens(r'.pieces) == Tokens(r.pieces) + [r.tail];
        assert Readable(r');
      }
    }
    if exists r :: Readable(r) && r.Text() == s && Tokens(r.pieces) == ts {
      var q :| Readable(q) && q.Text() == s && Tokens(q.pieces) == ts;
      SplitReading(q);
    }
  }

  /** Every token returned is a token, so `count_elements` counts them all. */
  lemma SplitTokens(s: string)
    requires Split(s).Some?
    ensures forall t :: t in Split(s).value ==> Token(t)
  {
    SplitExact(s, Split(s).value);
    var r :| Readable(r) && r.Text() == s && Tokens(r.pieces) == Split(s).value;
  }

  lemma FirstEmpty(v: seq<string>, tokens: seq<string>, n: nat)
    requires v == tokens + [""] && forall t :: t in tokens ==> t != ""
    requires n < |v| && v[n] == "" && forall k :: 0 <= k < n ==> v[k] != ""
    ensures n == |tokens|
  {
    assert v[|tokens|] == "";
    assert forall k :: 0 <= k < |tokens| ==> v[k] == tokens[k] && tokens[k] in tokens;
  }

  /** The two calls that open `cmd_parse`: argc is the number of tokens. */
  method SplitAndCount(sentence: string) returns (argc: nat)
    requires NulFree(sentence) && Split(sentence).Some?
    ensures argc == |Split(sentence).value|
  {
    var comms := SplitArguments(sentence);
    ghost var tokens := Split(sentence).value;
    SplitTokens(sentence);
    assert comms[|tokens|] == "";
    argc := CountElements(comms);
    FirstEmpty(comms[..], tokens, argc);
  }

  // ------------------------------------------------------- tokens joined by spaces

  function Join(ts: seq<string>): string {
    if ts == [] then "" else if |ts| == 1 then ts[0] else ts[0] + " " + Join(ts[1..])
  }

  function JoinPieces(ts: seq<string>): (ps: seq<Piece>)
    ensures Tokens(ps) == ts
  {
    seq(|ts|, i requires 0 <= i < |ts| => Piece(ts[i], if i == |ts| - 1 then "" else " "))
  }

  lemma {:induction false} JoinWeave(ts: seq<string>)
    ensures Join(ts) == Weave(JoinPieces(ts))
    decreases |ts|
  {
    if ts != [] {
      assert JoinPieces(ts)[1..] == JoinPieces(ts[1..]);
      JoinWeave(ts[1..]);
      if |ts| == 1 {
        assert ts[0] + "" + "" == ts[0];
      }
    }
  }

  /** Splitting the space-join of a list gives the list back exactly when every
      member is a token. */
  lemma SplitJoin(ts: seq<string>)
    ensures Split(Join(ts)) == Some(ts) <==> forall t :: t in ts ==> Token(t)
  {
    if Split(Join(ts)) == Some(ts) {
      SplitTokens(Join(ts));
    }
    if forall t :: t in ts ==> Token(t) {
      var r := Reading("", JoinPieces(ts), "");
      JoinWeave(ts);
      assert r.Text() == Join(ts);
      assert Readable(r);
      SplitReading(r);
    }
  }
}
