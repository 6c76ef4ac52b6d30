/** A text form of message objects exists: what `Message.GoodCodec` asks of the JSON
    library can be met. */
module JsonText {
  import opened Text
  import opened Message

  /** A text spelled as the numbers of its characters. */
  function Spell(s: string): string {
    if s == "" then "" else Decimal(s[0] as int) + ("," + Spell(s[1..]))
  }

  lemma {:induction false} SpellPlain(s: string)
    ensures Free(Spell(s), {';', NUL})
  {
    if s != "" {
      SpellPlain(s[1..]);
      DecimalPlain(s[0] as int);
    }
  }

  lemma {:induction false} DecimalPlain(n: nat)
    ensures Digits(Decimal(n)) && Decimal(n) != ""
  {
  }

  lemma {:induction false} SpellInjective(s: string, t: string)
    requires Spell(s) == Spell(t)
    ensures s == t
  {
    if s != "" && t != "" {
      DecimalPlain(s[0] as int);
      DecimalPlain(t[0] as int);
      CutAtDelimiter(Decimal(s[0] as int), "," + Spell(s[1..]), Decimal(t[0] as int), "," + Spell(t[1..]), {','});
      CancelLeft(",", Spell(s[1..]), Spell(t[1..]));
      AtoiDecimal(s[0] as int);
      AtoiDecimal(t[0] as int);
      SpellInjective(s[1..], t[1..]);
      assert s == [s[0]] + s[1..] && t == [t[0]] + t[1..];
    } else {
      assert Spell("") == "";
    }
  }

  function ValueText(v: Json): string {
    match v
    case Str(s) => "s" + Spell(s)
    case Int(i) => if i < 0 then "-" + Decimal(-i) else "+" + Decimal(i)
  }

  lemma ValuePlain(v: Json)
    ensures Free(ValueText(v), {';', NUL})
  {
    match v
    case Str(s) => SpellPlain(s);
    case Int(i) => DecimalPlain(if i < 0 then -i else i);
  }

  lemma ValueInjective(v: Json, w: Json)
    requires ValueText(v) == ValueText(w)
    ensures v == w
  {
    assert ValueText(v)[0] == ValueText(w)[0];
    assert ValueText(v)[1..] == ValueText(w)[1..];
    if v.Str? {
      assert ValueText(v)[1..] == Spell(v.s) && ValueText(w)[1..] == Spell(w.s);
      SpellInjective(v.s, w.s);
    } else {
      var n, m := if v.i < 0 then -v.i else v.i, if w.i < 0 then -w.i else w.i;
      assert ValueText(v)[1..] == Decimal(n) && ValueText(w)[1..] == Decimal(m);
      AtoiDecimal(n);
      AtoiDecimal(m);
    }
  }

  /** The members one after the other, in some order. */
  ghost function Write(o: Object): string
    decreases |o|
  {
    if o == map[] then "."
    else
      var k :| k in o;
      Spell(k) + (";" + (ValueText(o[k]) + (";" + Write(o - {k}))))
  }

  lemma {:induction false} WritePlain(o: Object)
    ensures Write(o) != "" && NulFree(Write(o))
    decreases |o|
  {
    if o != map[] {
      var k :| k in o && Write(o) == Spell(k) + (";" + (ValueText(o[k]) + (";" + Write(o - {k}))));
      SpellPlain(k);
      ValuePlain(o[k]);
      WritePlain(o - {k});
    }
  }

  /** What is written first can be read off the text. */
  lemma CutMember(k: string, v: Json, x: string, l: string, w: Json, y: string)
    requires Spell(k) + (";" + (ValueText(v) + (";" + x))) == Spell(l) + (";" + (ValueText(w) + (";" + y)))
    ensures k == l && v == w && x == y
  {
    SpellPlain(k);
    SpellPlain(l);
    ValuePlain(v);
    ValuePlain(w);
    var p, q := ValueText(v) + (";" + x), ValueText(w) + (";" + y);
    CutAtDelimiter(Spell(k), ";" + p, Spell(l), ";" + q, {';'});
    CancelLeft(";", p, q);
    CutAtDelimiter(ValueText(v), ";" + x, ValueText(w), ";" + y, {';'});
    CancelLeft(";", x, y);
    SpellInjective(k, l);
    ValueInjective(v, w);
  }

  lemma MemberFirst(o: Object) returns (k: string)
    requires o != map[]
    ensures k in o && Write(o) == Spell(k) + (";" + (ValueText(o[k]) + (";" + Write(o - {k})))) && Write(o) != "."
  {
    k :| k in o && Write(o) == Spell(k) + (";" + (ValueText(o[k]) + (";" + Write(o - {k}))));
    assert |Write(o)| > 1;
  }

  lemma {:induction false} WriteInjective(o: Object, p: Object)
    requires Write(o) == Write(p)
    ensures o == p
    decreases |o|
  {
    if o != map[] {
      var k := MemberFirst(o);
      if p != map[] {
        var l := MemberFirst(p);
        CutMember(k, o[k], Write(o - {k}), l, p[l], Write(p - {l}));
        WriteInjective(o - {k}, p - {l});
        assert o == (o - {k})[k := o[k]] && p == (p - {k})[k := p[k]];
      }
    } else if p != map[] {
      var l := MemberFirst(p);
    }
  }

  ghost function Read(text: string): Option<Object> {
    if exists o :: Write(o) == text then
      var o :| Write(o) == text;
      Some(o)
    else None
  }

  lemma CodecExists()
    ensures exists k: Codec :: GoodCodec(k)
  {
    ghost var k := Codec(o => Write(o), text => Read(text));
    forall o: Object
      ensures k.read(k.write(o)) == Some(o) && k.write(o) != "" && NulFree(k.write(o))
    {
      WritePlain(o);
      var p :| Write(p) == Write(o) && Read(Write(o)) == Some(p);
      WriteInjective(p, o);
    }
    assert GoodCodec(k);
  }
}
