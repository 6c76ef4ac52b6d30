/** The query builder records: fixed slot arrays and a where clause grown in place
    (sqlite.select.c, sqlite.insert.c, sqlite.update.c, to_fields_string). */
module SqlBuilders {
  import opened Text
  import opened SqlText

  type Slots = array<Option<string>>

  /** Slots hold the list from the front; the rest is NULL. */
  ghost predicate Filled(slots: Slots, items: seq<string>)
    reads slots
  {
    && slots.Length == MAX_COLUMNS && |items| <= MAX_COLUMNS
    && forall i :: 0 <= i < MAX_COLUMNS ==> slots[i] == if i < |items| then Some(items[i]) else None
  }

  /** The search loop shared by the setters; the tenth slot may be the free one. */
  method FirstFree(slots: Slots, ghost items: seq<string>) returns (i: nat)
    requires Filled(slots, items) && |items| < MAX_COLUMNS
    ensures i == |items|
  {
    i := 0;
    while slots[i] != None
      invariant i <= |items|
      decreases |items| - i
    {
      i := i + 1;
    }
  }

  lemma {:induction false} FieldsSnoc(fs: seq<string>, f: string)
    requires fs != []
    ensures Fields(fs + [f]) == Fields(fs) + "," + f
    decreases |fs|
  {
    var all := fs + [f];
    assert all[1..] == fs[1..] + [f];
    if |fs| == 1 {
      assert all[1..] == [f];
      assert Fields([f]) == f + "";
    } else {
      FieldsSnoc(fs[1..], f);
    }
  }

  /** `to_fields_string`, appending to its buffer; the list must end inside the array. */
  method ToFieldsString(slots: Slots, ghost items: seq<string>) returns (aux: string)
    requires Filled(slots, items) && |items| < MAX_COLUMNS
    ensures aux == Fields(items)
  {
    aux := "";
    var i := 0;
    while slots[i] != None
      invariant i <= |items| && aux == Fields(items[..i])
      decreases |items| - i
    {
      var field := slots[i].value;
      assert items[..i + 1] == items[..i] + [field];
      if i == 0 {
        aux := field;
        assert items[..1] == [field] && Fields([field]) == field + "";
      } else {
        FieldsSnoc(items[..i], field);
        aux := aux + "," + field;
      }
      i := i + 1;
    }
    assert items[..i] == items;
  }

  method NullSlots() returns (slots: Slots)
    ensures fresh(slots) && Filled(slots, [])
  {
    slots := new Option<string>[MAX_COLUMNS](_ => None);
  }

  lemma {:induction false} CondsSnoc(cs: seq<Cond>, c: Cond)
    ensures Conds(cs + [c]) == Conds(cs) + CondText(c)
    decreases |cs|
  {
    if cs == [] {
      assert cs + [c] == [c];
      assert Conds([c]) == CondText(c) + "";
    } else {
      assert (cs + [c])[1..] == cs[1..] + [c];
      CondsSnoc(cs[1..], c);
    }
  }

  /** `sprintf(query->where, "%s AND %s %s %s", query->where, ...)` */
  method GrowWhere(where: string, column: string, op: string, raw: string, ghost cs: seq<Cond>) returns (grown: string)
    requires where == Where(cs)
    ensures grown == Where(cs + [Cond(column, op, raw)])
  {
    CondsSnoc(cs, Cond(column, op, raw));
    grown := where + " AND " + column + " " + op + " " + raw;
    assert grown == where + CondText(Cond(column, op, raw));
  }

  class SelectQuery {
    var table: string
    var atributes: Slots
    var where: string
    ghost var columns: seq<string>
    ghost var conds: seq<Cond>

    ghost predicate Valid()
      reads this, atributes
    {
      Filled(atributes, columns) && where == Where(conds)
    }

    /** `create_select_query` then `set_select_query_table` */
    constructor (name: string)
      ensures Valid() && fresh(atributes) && table == name && columns == [] && conds == []
    {
      table, where, columns, conds := name, "1=1", [], [];
      atributes := new Option<string>[MAX_COLUMNS](_ => None);
    }

    method SetAtribute(atribute: string)
      requires Valid() && |columns| < MAX_COLUMNS
      modifies this`columns, atributes
      ensures Valid() && columns == old(columns) + [atribute]
    {
      var i := FirstFree(atributes, columns);
      atributes[i] := Some(atribute);
      columns := columns + [atribute];
    }

    method SetWhere(column: string, op: string, raw: string)
      requires Valid()
      modifies this`where, this`conds
      ensures Valid() && conds == old(conds) + [Cond(column, op, raw)]
    {
      where := GrowWhere(where, column, op, raw, conds);
      conds := conds + [Cond(column, op, raw)];
    }

    /** `select_query_to_str`: an empty column list is first set to "*". */
    method ToStr() returns (text: string)
      requires Valid() && |columns| < MAX_COLUMNS
      modifies this`columns, atributes
      ensures Valid() && columns == Shown(old(columns))
      ensures text == Render(Select(table, old(columns), conds))
    {
      if atributes[0] == None {
        atributes[0] := Some("*");
        columns := ["*"];
      }
      var fields := ToFieldsString(atributes, columns);
      text := "SELECT " + (fields + (" FROM " + (table + (" WHERE " + (where + ";")))));
    }
  }

  /** The record of INSERT and UPDATE: attribute and value slots in step. */
  class PairedSlots {
    var atributes: Slots
    var values: Slots
    ghost var columns: seq<string>
    ghost var raws: seq<string>

    ghost predicate Valid()
      reads this, atributes, values
    {
      atributes != values && |columns| == |raws| && Filled(atributes, columns) && Filled(values, raws)
    }

    constructor ()
      ensures Valid() && fresh(atributes) && fresh(values) && columns == [] && raws == []
    {
      columns, raws := [], [];
      atributes := new Option<string>[MAX_COLUMNS](_ => None);
      values := new Option<string>[MAX_COLUMNS](_ => None);
    }

    /** `set_insert_query_value`, `set_update_query_value` */
    method SetValue(atribute: string, value: string)
      requires Valid() && |columns| < MAX_COLUMNS
      modifies this`columns, this`raws, atributes, values
      ensures Valid() && columns == old(columns) + [atribute] && raws == old(raws) + [value]
    {
      var i := FirstFree(atributes, columns);
      atributes[i] := Some(atribute);
      values[i] := Some(value);
      columns := columns + [atribute];
      raws := raws + [value];
    }

    /** `insert_query_to_str`, which only reads; None when nothing was set. */
    method InsertToStr(table: string) returns (text: Option<string>)
      requires Valid() && |columns| < MAX_COLUMNS
      ensures text == if columns == [] then None else Some(Render(Insert(table, columns, raws)))
    {
      if atributes[0] == None { return None; }
      var names := ToFieldsString(atributes, columns);
      var vals := ToFieldsString(values, raws);
      text := Some("INSERT INTO " + (table + ("(" + (names + (") VALUES(" + (vals + ");"))))));
    }

    /** `update_query_to_str`, building the list of assignments first. */
    method UpdateToStr(table: string, where: string, ghost conds: seq<Cond>) returns (text: Option<string>)
      requires Valid() && |columns| < MAX_COLUMNS && where == Where(conds)
      ensures text == if columns == [] then None else Some(Render(Update(table, columns, raws, conds)))
    {
      if atributes[0] == None { return None; }
      var aux := NullSlots();
      ghost var pairs := Pairs(columns, raws);
      var i := 0;
      while atributes[i] != None
        invariant i <= |columns| && Valid() && fresh(aux)
        invariant Filled(aux, pairs[..i])
        decreases |columns| - i
      {
        aux[i] := Some(atributes[i].value + "=" + values[i].value);
        assert pairs[..i + 1] == pairs[..i] + [pairs[i]];
        i := i + 1;
      }
      assert pairs[..i] == pairs;
      var list := ToFieldsString(aux, pairs);
      text := Some("UPDATE " + (table + (" SET " + (list + (" WHERE " + (where + ";"))))));
    }
  }
}
