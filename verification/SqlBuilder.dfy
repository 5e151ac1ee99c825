/** `SQLBuilder`: SQL text and its parameters, grown call by call; and the numbering of placeholders
    over any sequence of calls. */
module SqlBuilders {
  import opened Options
  import opened Decimals
  import opened Streams

  datatype Builder = Builder(table: string, sql: string, hasWhere: bool, params: seq<string>, index: nat)

  datatype Call =
    | Select(fields: seq<string>)
    | Insert(fields: seq<string>)
    | Update(fields: seq<string>)
    | Remove
    | Exists
    | Returning(field: string)
    | Where(expr: string, value: string)
    | WhereAny(expr: string, cast: string, values: seq<string>)
    | Limit(n: Option<nat>)
    | Offset(n: Option<nat>)
    | OrderBy(field: string)

  function Slot(k: nat): string {
    "$" + Dec(k)
  }

  /** Placeholders from + 1 to from + n. */
  function Slots(from: nat, n: nat): seq<string> {
    seq(n, i requires 0 <= i < n => Slot(from + 1 + i))
  }

  function Assignments(fields: seq<string>, from: nat): seq<string> {
    seq(|fields|, i requires 0 <= i < |fields| => fields[i] + " = " + Slot(from + 1 + i))
  }

  function ArrayText(values: seq<string>): string {
    "{" + Join(values, ',') + "}"
  }

  function Connective(hasWhere: bool): string {
    if hasWhere then " AND " else " WHERE "
  }

  /** The SQL text one call adds, for the calls that add at the end. */
  function Added(b: Builder, c: Call): string {
    match c
    case Select(fields) => if fields == [] then "SELECT * FROM " + b.table
        else "SELECT " + Join(fields, ',') + " FROM " + b.table
    case Insert(fields) =>
      if fields == [] then ""
      else "INSERT INTO " + b.table + "(" + Join(fields, ',') + ") VALUES (" + Join(Slots(b.index, |fields|), ',') + ")"
    case Update(fields) =>
      if fields == [] then "" else "UPDATE " + b.table + " SET " + Join(Assignments(fields, b.index), ',')
    case Remove => ""
    case Exists => ""
    case Returning(field) => " RETURNING " + field
    case Where(expr, _) => Connective(b.hasWhere) + expr + " = " + Slot(b.index + 1)
    case WhereAny(expr, cast, values) =>
      if values == [] then "" else Connective(b.hasWhere) + expr + " = ANY(" + Slot(b.index + 1) + "::" + cast + "[])"
    case Limit(n) => if n.None? then "" else " LIMIT " + Slot(b.index + 1) + "::int"
    case Offset(n) => if n.None? then "" else " OFFSET " + Slot(b.index + 1) + "::int"
    case OrderBy(field) => " ORDER BY " + field
  }

  /** The parameter a call pushes. */
  function Pushed(c: Call): seq<string> {
    match c
    case Where(_, value) => [value]
    case WhereAny(_, _, values) => if values == [] then [] else [ArrayText(values)]
    case Limit(n) => if n.None? then [] else [Dec(n.value)]
    case Offset(n) => if n.None? then [] else [Dec(n.value)]
    case _ => []
  }

  /** The placeholders a call numbers without pushing a parameter. */
  function FieldSlots(c: Call): nat {
    match c
    case Insert(fields) => |fields|
    case Update(fields) => |fields|
    case _ => 0
  }

  function After(b: Builder, c: Call): Builder {
    var sql := match c
      case Remove => "DELETE FROM " + b.table
      case Exists => "SELECT EXISTS(" + b.sql + ")"
      case _ => b.sql + Added(b, c);
    b.(sql := sql,
    hasWhere := b.hasWhere || c.Where? || (c.WhereAny? && c.values != []),
    params := b.params + Pushed(c),
    index := b.index + |Pushed(c)| + FieldSlots(c))
  }

  function AfterAll(b: Builder, calls: seq<Call>): Builder {
    if calls == [] then b else After(AfterAll(b, calls[..|calls| - 1]), calls[|calls| - 1])
  }

  function Start(table: string): Builder {
    Builder(table, "", false, [], 0)
  }

  class SQLBuilder {
    const table: string
    var sql: string
    var hasWhere: bool
    var params: seq<string>
    var index: nat

    ghost function View(): Builder
      reads this
    {
      Builder(table, sql, hasWhere, params, index)
    }

    constructor (table: string)
      ensures View() == Start(table)
    {
      this.table := table;
      sql, hasWhere, params, index := "", false, [], 0;
    }

    method NextIndex() returns (k: nat)
      modifies this`index
      ensures k == index == old(index) + 1
    {
      index := index + 1;
      k := index;
    }

    method Select(fields: seq<string>)
      modifies this
      ensures View() == After(old(View()), Call.Select(fields))
    {
      if fields == [] {
        sql := sql + ("SELECT * FROM " + table);
        return;
      }
      sql := sql + ("SELECT " + Join(fields, ',') + " FROM " + table);
    }

    method Exists()
      modifies this
      ensures View() == After(old(View()), Call.Exists)
    {
      sql := "SELECT EXISTS(" + sql + ")";
    }

    /** Throws on an empty field list and then changes nothing. */
    method Insert(fields: seq<string>) returns (ok: bool)
      modifies this
      ensures ok <==> fields != []
      ensures View() == After(old(View()), Call.Insert(fields))
    {
      if fields == [] {
        return false;
      }
      var placeholders: seq<string> := [];
      var i := 0;
      while i < |fields|
        invariant i <= |fields| && index == old(index) + i
        invariant placeholders == Slots(old(index), i)
        invariant sql == old(sql) && hasWhere == old(hasWhere) && params == old(params)
      {
        var k := NextIndex();
        assert Slots(old(index), i + 1) == Slots(old(index), i) + [Slot(k)];
        placeholders := placeholders + ["$" + Dec(k)];
        i := i + 1;
      }
      sql := sql + ("INSERT INTO " + table + "(" + Join(fields, ',') + ") VALUES (" + Join(placeholders, ',') + ")");
      return true;
    }

    /** Throws on an empty field list and then changes nothing. */
    method Update(fields: seq<string>) returns (ok: bool)
      modifies this
      ensures ok <==> fields != []
      ensures View() == After(old(View()), Call.Update(fields))
    {
      if fields == [] {
        return false;
      }
      var sets: seq<string> := [];
      var i := 0;
      while i < |fields|
        invariant i <= |fields| && index == old(index) + i
        invariant sets == Assignments(fields[..i], old(index))
        invariant sql == old(sql) && hasWhere == old(hasWhere) && params == old(params)
      {
        var k := NextIndex();
        assert Assignments(fields[..i + 1], old(index))
            == Assignments(fields[..i], old(index)) + [fields[i] + " = " + Slot(k)];
        sets := sets + [fields[i] + " = " + ("$" + Dec(k))];
        i := i + 1;
      }
      assert fields[..i] == fields;
      sql := sql + ("UPDATE " + table + " SET " + Join(sets, ','));
      return true;
    }

    method Remove()
      modifies this
      ensures View() == After(old(View()), Call.Remove)
    {
      sql := "DELETE FROM " + table;
    }

    method Returning(field: string)
      modifies this
      ensures View() == After(old(View()), Call.Returning(field))
    {
      sql := sql + (" RETURNING " + field);
    }

    method Where(expr: string, value: string)
      modifies this
      ensures View() == After(old(View()), Call.Where(expr, value))
    {
      var k := NextIndex();
      if hasWhere {
        sql := sql + (" AND " + expr + " = " + Slot(k));
      } else {
        sql := sql + (" WHERE " + expr + " = " + Slot(k));
        hasWhere := true;
      }
      params := params + [value];
    }

    method WhereAny(expr: string, cast: string, values: seq<string>)
      modifies this
      ensures View() == After(old(View()), Call.WhereAny(expr, cast, values))
    {
      if values == [] {
        return;
      }
      var k := NextIndex();
      if hasWhere {
        sql := sql + (" AND " + expr + " = ANY(" + Slot(k) + "::" + cast + "[])");
      } else {
        sql := sql + (" WHERE " + expr + " = ANY(" + Slot(k) + "::" + cast + "[])");
        hasWhere := true;
      }
      var text := ArrayToPg(values);
      params := params + [text];
    }

    method Limit(n: Option<nat>)
      modifies this
      ensures View() == After(old(View()), Call.Limit(n))
    {
      if n.None? {
        return;
      }
      var k := NextIndex();
      sql := sql + (" LIMIT " + Slot(k) + "::int");
      params := params + [Dec(n.value)];
    }

    method Offset(n: Option<nat>)
      modifies this
      ensures View() == After(old(View()), Call.Offset(n))
    {
      if n.None? {
        return;
      }
      var k := NextIndex();
      sql := sql + (" OFFSET " + Slot(k) + "::int");
      params := params + [Dec(n.value)];
    }

    method OrderBy(field: string)
      modifies this
      ensures View() == After(old(View()), Call.OrderBy(field))
    {
      sql := sql + (" ORDER BY " + field);
    }

    static method ArrayToPg(values: seq<string>) returns (out: string)
      ensures out == ArrayText(values)
    {
      out := "{";
      for i := 0 to |values|
        invariant out == "{" + Join(values[..i], ',')
      {
        JoinAppend(values[..i], values[i], ',');
        assert values[..i + 1] == values[..i] + [values[i]];
        if i > 0 {
          out := out + ",";
        }
        out := out + values[i];
      }
      assert values[..|values|] == values;
      out := out + "}";
    }
  }

  lemma {:induction false} JoinAppend(pieces: seq<string>, last: string, d: char)
    ensures Join(pieces + [last], d) == if pieces == [] then last else Join(pieces, d) + [d] + last
  {
    if |pieces| > 0 {
      assert (pieces + [last])[1..] == pieces[1..] + [last];
      JoinAppend(pieces[1..], last, d);
    }
  }

  // Placeholders in SQL text

  /** The numbers after '$' signs, as the server reads them. */
  function Placeholders(s: string): seq<nat> {
    if s == "" then []
    else if s[0] == '$' && LeadingDigits(s[1..]) > 0 then
      var k := LeadingDigits(s[1..]);
      [Value(s[1..][..k])] + Placeholders(s[1 + k..])
    else Placeholders(s[1..])
  }

  predicate NoDollar(s: string) {
    '$' !in s
  }

  lemma {:induction false} NoDollarNoPlaceholders(s: string)
    requires NoDollar(s)
    ensures Placeholders(s) == []
  {
    if s != "" {
      NoDollarNoPlaceholders(s[1..]);
    }
  }

  lemma NumeralFirst(a: string, b: string)
    requires a != "" && EndsNumeral(b)
    ensures LeadingDigits((a + b)[1..]) == LeadingDigits(a[1..])
    ensures var k := LeadingDigits(a[1..]);
            (a + b)[1..][..k] == a[1..][..k] && (a + b)[1 + k..] == a[1 + k..] + b && (a + b)[1..] == a[1..] + b
  {
    assert (a + b)[1..] == a[1..] + b;
    LeadingDigitsConcat(a[1..], b);
  }

  lemma {:induction false} PlaceholdersConcat(a: string, b: string)
    requires EndsNumeral(b)
    ensures Placeholders(a + b) == Placeholders(a) + Placeholders(b)
  {
    if a == "" {
      assert a + b == b;
    } else {
      NumeralFirst(a, b);
      var k := LeadingDigits(a[1..]);
      if a[0] == '$' && k > 0 {
        PlaceholdersConcat(a[1 + k..], b);
        PrependedTo([Value(a[1..][..k])], Placeholders(a[1 + k..]), Placeholders(b));
      } else {
        PlaceholdersConcat(a[1..], b);
      }
    }
  }

  lemma PrependedTo(a: seq<nat>, b: seq<nat>, c: seq<nat>)
    ensures a + (b + c) == (a + b) + c
  {
  }

  /** Text, one placeholder, text. */
  lemma OnePlaceholder(before: string, k: nat, after: string)
    requires NoDollar(before) && NoDollar(after) && EndsNumeral(after)
    ensures Placeholders(before + Slot(k) + after) == [k]
  {
    DecThenRest(k, after);
    NoDollarNoPlaceholders(before);
    NoDollarNoPlaceholders(after);
    var s := Slot(k) + after;
    assert s[1..] == Dec(k) + after;
    assert s[1 + |Dec(k)|..] == after;
    assert Placeholders(s) == [k] + [];
    assert before + Slot(k) + after == before + s;
    PlaceholdersConcat(before, s);
  }

  lemma {:induction false} JoinNoDollar(pieces: seq<string>)
    requires forall i :: 0 <= i < |pieces| ==> NoDollar(pieces[i])
    ensures NoDollar(Join(pieces, ','))
  {
    if |pieces| > 1 {
      JoinNoDollar(pieces[1..]);
    }
  }

  function UpTo(from: nat, n: nat): seq<nat> {
    seq(n, i requires 0 <= i < n => from + 1 + i)
  }

  lemma {:induction false} JoinedSlots(pieces: seq<string>, names: seq<string>, from: nat)
    requires |pieces| == |names| && pieces != []
    requires forall i :: 0 <= i < |pieces| ==> NoDollar(names[i]) && pieces[i] == names[i] + Slot(from + 1 + i)
    ensures Placeholders(Join(pieces, ',')) == UpTo(from, |pieces|)
  {
    OnePlaceholder(names[0], from + 1, "");
    assert pieces[0] + "" == pieces[0];
    if |pieces| > 1 {
      JoinedSlots(pieces[1..], names[1..], from + 1);
      var rest := Join(pieces[1..], ',');
      assert Join(pieces, ',') == pieces[0] + ([','] + rest);
      PlaceholdersConcat(pieces[0], [','] + rest);
      assert ([','] + rest)[1..] == rest;
      assert UpTo(from, |pieces|) == [from + 1] + UpTo(from + 1, |pieces| - 1);
    }
  }

  // Any sequence of calls

  predicate Starter(c: Call) {
    c.Select? || c.Insert? || c.Update? || c.Remove?
  }

  /** The names the caller passes contain no '$'; values may. */
  predicate PlainNames(c: Call) {
    match c
    case Select(fields) => forall i :: 0 <= i < |fields| ==> NoDollar(fields[i])
    case Insert(fields) => forall i :: 0 <= i < |fields| ==> NoDollar(fields[i])
    case Update(fields) => forall i :: 0 <= i < |fields| ==> NoDollar(fields[i])
    case Returning(field) => NoDollar(field)
    case Where(expr, _) => NoDollar(expr)
    case WhereAny(expr, cast, _) => NoDollar(expr) && NoDollar(cast)
    case OrderBy(field) => NoDollar(field)
    case _ => true
  }

  lemma WherePlaceholders(b: Builder, expr: string, value: string)
    requires NoDollar(expr)
    ensures EndsNumeral(Added(b, Where(expr, value)))
    ensures Placeholders(Added(b, Where(expr, value))) == [b.index + 1]
  {
    var before := Connective(b.hasWhere) + expr + " = ";
    OnePlaceholder(before, b.index + 1, "");
    assert before + Slot(b.index + 1) + "" == Added(b, Where(expr, value));
  }

  lemma WhereAnyPlaceholders(b: Builder, expr: string, cast: string, values: seq<string>)
    requires NoDollar(expr) && NoDollar(cast) && values != []
    ensures EndsNumeral(Added(b, WhereAny(expr, cast, values)))
    ensures Placeholders(Added(b, WhereAny(expr, cast, values))) == [b.index + 1]
  {
    var before, after := Connective(b.hasWhere) + expr + " = ANY(", "::" + cast + "[])";
    OnePlaceholder(before, b.index + 1, after);
    assert before + Slot(b.index + 1) + after == Added(b, WhereAny(expr, cast, values));
  }

  lemma CountPlaceholders(b: Builder, c: Call)
    requires (c.Limit? || c.Offset?) && c.n.Some?
    ensures EndsNumeral(Added(b, c)) && Placeholders(Added(b, c)) == [b.index + 1]
  {
    OnePlaceholder(if c.Limit? then " LIMIT " else " OFFSET ", b.index + 1, "::int");
  }

  lemma NamesPlaceholders(b: Builder, c: Call)
    requires PlainNames(c) && NoDollar(b.table) && (c.Select? || c.Returning? || c.OrderBy?)
    ensures EndsNumeral(Added(b, c)) && Placeholders(Added(b, c)) == []
  {
    if c.Select? {
      JoinNoDollar(c.fields);
    }
    NoDollarNoPlaceholders(Added(b, c));
  }

  lemma AddedPlaceholders(b: Builder, c: Call)
    requires PlainNames(c) && NoDollar(b.table) && !c.Exists? && !c.Remove?
    ensures EndsNumeral(Added(b, c))
    ensures Placeholders(Added(b, c)) == UpTo(b.index, |Pushed(c)| + FieldSlots(c))
  {
    match c
    case Select(_) => NamesPlaceholders(b, c);
    case Insert(fields) => InsertPlaceholders(b, fields);
    case Update(fields) => UpdatePlaceholders(b, fields);
    case Returning(_) => NamesPlaceholders(b, c);
    case OrderBy(_) => NamesPlaceholders(b, c);
    case Where(expr, value) => WherePlaceholders(b, expr, value);
    case WhereAny(expr, cast, values) =>
      if values != [] {
        WhereAnyPlaceholders(b, expr, cast, values);
      }
    case Limit(n) =>
      if n.Some? {
        CountPlaceholders(b, c);
      }
    case Offset(n) =>
      if n.Some? {
        CountPlaceholders(b, c);
      }
  }

  lemma InsertPlaceholders(b: Builder, fields: seq<string>)
    requires NoDollar(b.table) && forall i :: 0 <= i < |fields| ==> NoDollar(fields[i])
    ensures EndsNumeral(Added(b, Insert(fields)))
    ensures Placeholders(Added(b, Insert(fields))) == UpTo(b.index, |fields|)
  {
    if fields != [] {
      var slots := Slots(b.index, |fields|);
      JoinedSlots(slots, seq(|fields|, i => ""), b.index);
      JoinNoDollar(fields);
      var before := "INSERT INTO " + b.table + "(" + Join(fields, ',') + ") VALUES (";
      NoDollarPrefix(before, Join(slots, ',') + ")");
      PlaceholdersConcat(Join(slots, ','), ")");
      NoDollarNoPlaceholders(")");
      assert Added(b, Insert(fields)) == before + (Join(slots, ',') + ")");
    }
  }

  lemma UpdatePlaceholders(b: Builder, fields: seq<string>)
    requires NoDollar(b.table) && forall i :: 0 <= i < |fields| ==> NoDollar(fields[i])
    ensures EndsNumeral(Added(b, Update(fields)))
    ensures Placeholders(Added(b, Update(fields))) == UpTo(b.index, |fields|)
  {
    if fields != [] {
      var sets := Assignments(fields, b.index);
      var names := seq(|fields|, i requires 0 <= i < |fields| => fields[i] + " = ");
      JoinedSlots(sets, names, b.index);
      NoDollarPrefix("UPDATE " + b.table + " SET ", Join(sets, ','));
    }
  }

  function TotalFieldSlots(calls: seq<Call>): nat {
    if calls == [] then 0 else TotalFieldSlots(calls[..|calls| - 1]) + FieldSlots(calls[|calls| - 1])
  }

  /** For any calls on a new builder, one select, insert, update or remove first and none after: the SQL's
      placeholders are 1 to n, once each, in order, and n is the number of insert or update fields plus
      the number of parameters. */
  lemma {:induction false} PlaceholdersAreNumbered(table: string, calls: seq<Call>)
    requires NoDollar(table) && calls != [] && Starter(calls[0])
    requires forall i :: 0 < i < |calls| ==> !Starter(calls[i])
    requires forall i :: 0 <= i < |calls| ==> PlainNames(calls[i])
    ensures var b := AfterAll(Start(table), calls);
            && b.table == table
            && Placeholders(b.sql) == UpTo(0, b.index)
            && b.index == TotalFieldSlots(calls) + |b.params|
  {
    var n := |calls| - 1;
    var last := calls[n];
    if n == 0 {
      assert calls[..n] == [];
      assert AfterAll(Start(table), calls[..n]) == Start(table);
      if last.Remove? {
        NoDollarNoPlaceholders("DELETE FROM " + table);
      } else {
        AddedPlaceholders(Start(table), last);
        assert "" + Added(Start(table), last) == Added(Start(table), last);
      }
    } else {
      var b := AfterAll(Start(table), calls[..n]);
      PlaceholdersAreNumbered(table, calls[..n]);
      StepKeepsNumbering(b, last);
    }
  }

  lemma ExistsPlaceholders(sql: string)
    ensures Placeholders("SELECT EXISTS(" + sql + ")") == Placeholders(sql)
  {
    NoDollarNoPlaceholders(")");
    NoDollarPrefix("SELECT EXISTS(", sql);
    PlaceholdersConcat("SELECT EXISTS(" + sql, ")");
  }

  lemma UpToSplits(n: nat, m: nat)
    ensures UpTo(0, n + m) == UpTo(0, n) + UpTo(n, m)
  {
  }

  lemma StepKeepsNumbering(b: Builder, c: Call)
    requires NoDollar(b.table) && !Starter(c) && PlainNames(c)
    requires Placeholders(b.sql) == UpTo(0, b.index)
    ensures Placeholders(After(b, c).sql) == UpTo(0, After(b, c).index)
  {
    if c.Exists? {
      ExistsPlaceholders(b.sql);
    } else {
      AddedPlaceholders(b, c);
      PlaceholdersConcat(b.sql, Added(b, c));
      UpToSplits(b.index, |Pushed(c)| + FieldSlots(c));
    }
  }

  lemma {:induction false} NoDollarPrefix(a: string, b: string)
    requires NoDollar(a)
    ensures Placeholders(a + b) == Placeholders(b)
  {
    if a == "" {
      assert a + b == b;
    } else {
      assert (a + b)[1..] == a[1..] + b;
      NoDollarPrefix(a[1..], b);
    }
  }
}
