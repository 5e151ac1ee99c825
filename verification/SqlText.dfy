/** The SQL statements the builder writes, as syntax trees: their text, and a reader of that text that
    gives the tree back. */
module SqlTexts {
  import opened Options
  import opened Decimals
  import opened Streams
  import opened SqlBuilders

  datatype Condition = Equals(column: string, slot: nat) | AnyOf(column: string, slot: nat, cast: string)

  datatype Query =
    | SelectQuery(columns: seq<string>, table: string, conditions: seq<Condition>,
                  order: Option<string>, limit: Option<nat>, offset: Option<nat>)
    | UpdateQuery(table: string, sets: seq<(string, nat)>, conditions: seq<Condition>, returning: string)
    | InsertQuery(table: string, columns: seq<string>, slots: seq<nat>, returning: string)

  // Text

  function ConditionText(c: Condition): string {
    match c
    case Equals(column, k) => column + " = " + Slot(k)
    case AnyOf(column, k, cast) => column + " = ANY(" + Slot(k) + "::" + cast + "[])"
  }

  function ConditionsText(cs: seq<Condition>, hasWhere: bool): string {
    if cs == [] then "" else Connective(hasWhere) + ConditionText(cs[0]) + ConditionsText(cs[1..], true)
  }

  function SetText(name: string, k: nat): string {
    name + " = " + Slot(k)
  }

  function SetTexts(sets: seq<(string, nat)>): seq<string> {
    seq(|sets|, i requires 0 <= i < |sets| => SetText(sets[i].0, sets[i].1))
  }

  function SlotTexts(slots: seq<nat>): seq<string> {
    seq(|slots|, i requires 0 <= i < |slots| => Slot(slots[i]))
  }

  function OrderText(order: Option<string>): string {
    if order.None? then "" else " ORDER BY " + order.value
  }

  function LimitText(limit: Option<nat>): string {
    if limit.None? then "" else " LIMIT " + Slot(limit.value) + "::int"
  }

  function OffsetText(offset: Option<nat>): string {
    if offset.None? then "" else " OFFSET " + Slot(offset.value) + "::int"
  }

  function TailText(order: Option<string>, limit: Option<nat>, offset: Option<nat>): string {
    OrderText(order) + (LimitText(limit) + OffsetText(offset))
  }

  function SelectText(q: Query): string
    requires q.SelectQuery?
  {
    Join(q.columns, ',')
    + (" FROM " + (q.table + (ConditionsText(q.conditions, false) + TailText(q.order, q.limit, q.offset))))
  }

  function UpdateText(q: Query): string
    requires q.UpdateQuery?
  {
    q.table
    + (" SET " + (Join(SetTexts(q.sets), ',') + (ConditionsText(q.conditions, false) + (" RETURNING " + q.returning))))
  }

  function InsertText(q: Query): string
    requires q.InsertQuery?
  {
    q.table
    + ("(" + (Join(q.columns, ',')
              + (") VALUES (" + (Join(SlotTexts(q.slots), ',') + (")" + (" RETURNING " + q.returning))))))
  }

  function Text(q: Query): string {
    match q
    case SelectQuery(_, _, _, _, _, _) => "SELECT " + SelectText(q)
    case UpdateQuery(_, _, _, _) => "UPDATE " + UpdateText(q)
    case InsertQuery(_, _, _, _) => "INSERT INTO " + InsertText(q)
  }

  // Reading

  predicate IsNameChar(c: char) {
    'a' <= c <= 'z' || 'A' <= c <= 'Z' || IsDigit(c) || c == '_'
  }

  predicate IsName(s: string) {
    s != "" && forall i :: 0 <= i < |s| ==> IsNameChar(s[i])
  }

  predicate EndsName(rest: string) {
    rest == "" || !IsNameChar(rest[0])
  }

  function LeadingName(s: string): (k: nat)
    ensures k <= |s|
  {
    if s == "" || !IsNameChar(s[0]) then 0 else 1 + LeadingName(s[1..])
  }

  function ReadName(s: string): Option<(string, string)> {
    var k := LeadingName(s);
    if k == 0 then None else Some((s[..k], s[k..]))
  }

  function ReadSlot(s: string): Option<(nat, string)> {
    if s == "" || s[0] != '$' || LeadingDigits(s[1..]) == 0 then None
    else
      var k := LeadingDigits(s[1..]);
      Some((Value(s[1..][..k]), s[1 + k..]))
  }

  function Skip(s: string, expected: string): Option<string> {
    if |expected| <= |s| && s[..|expected|] == expected then Some(s[|expected|..]) else None
  }

  function ReadSet(s: string): Option<((string, nat), string)> {
    var (name, rest0) :- ReadName(s);
    var rest1 :- Skip(rest0, " = ");
    var (k, rest) :- ReadSlot(rest1);
    Some(((name, k), rest))
  }

  /** One or more items between commas. */
  function ReadMany<T>(readOne: string -> Option<(T, string)>, s: string): Option<(seq<T>, string)>
    decreases |s|
  {
    var (item, rest) :- readOne(s);
    if rest == "" || rest[0] != ',' || |rest| > |s| then Some(([item], rest))
    else
      var (items, rest') :- ReadMany(readOne, rest[1..]);
      Some(([item] + items, rest'))
  }

  function ReadAnyOf(column: string, s: string): Option<(Condition, string)> {
    var (k, rest1) :- ReadSlot(s);
    var rest2 :- Skip(rest1, "::");
    var (cast, rest3) :- ReadName(rest2);
    var rest4 :- Skip(rest3, "[])");
    Some((AnyOf(column, k, cast), rest4))
  }

  function ReadCondition(s: string): Option<(Condition, string)> {
    var (column, rest) :- ReadName(s);
    var any := Skip(rest, " = ANY(");
    if any.Some? then ReadAnyOf(column, any.value)
    else
      var rest0 :- Skip(rest, " = ");
      var (k, rest1) :- ReadSlot(rest0);
      Some((Equals(column, k), rest1))
  }

  function ReadConditions(s: string, hasWhere: bool): Option<(seq<Condition>, string)>
    decreases |s|
  {
    var rest0 := Skip(s, Connective(hasWhere));
    if rest0.None? then Some(([], s))
    else
      var (c, rest1) :- ReadCondition(rest0.value);
      if |rest1| >= |s| then None
      else
        var (cs, rest) :- ReadConditions(rest1, true);
        Some(([c] + cs, rest))
  }

  function ReadOrder(s: string): Option<(Option<string>, string)> {
    var rest0 := Skip(s, " ORDER BY ");
    if rest0.None? then Some((None, s))
    else
      var (column, rest) :- ReadName(rest0.value);
      Some((Some(column), rest))
  }

  /** ` LIMIT $k::int` or ` OFFSET $k::int`, if present. */
  function ReadCount(s: string, keyword: string): Option<(Option<nat>, string)> {
    var rest0 := Skip(s, keyword);
    if rest0.None? then Some((None, s))
    else
      var (k, rest1) :- ReadSlot(rest0.value);
      var rest :- Skip(rest1, "::int");
      Some((Some(k), rest))
  }

  function ReadReturning(s: string): Option<string> {
    var rest0 :- Skip(s, " RETURNING ");
    var (column, rest) :- ReadName(rest0);
    if rest == "" then Some(column) else None
  }

  function ReadCounts(s: string): Option<(Option<nat>, Option<nat>)> {
    var (limit, s1) :- ReadCount(s, " LIMIT ");
    var (offset, s2) :- ReadCount(s1, " OFFSET ");
    if s2 == "" then Some((limit, offset)) else None
  }

  /** From the order clause on. */
  function ReadTail(s: string): Option<(Option<string>, Option<nat>, Option<nat>)> {
    var (order, s1) :- ReadOrder(s);
    var (limit, offset) :- ReadCounts(s1);
    Some((order, limit, offset))
  }

  /** From the table name on. */
  function ReadFrom(columns: seq<string>, s: string): Option<Query> {
    var (table, s1) :- ReadName(s);
    var (conditions, s2) :- ReadConditions(s1, false);
    var (order, limit, offset) :- ReadTail(s2);
    Some(SelectQuery(columns, table, conditions, order, limit, offset))
  }

  function ReadSelect(s: string): Option<Query> {
    var (columns, s1) :- ReadMany(ReadName, s);
    var s2 :- Skip(s1, " FROM ");
    ReadFrom(columns, s2)
  }

  /** From the assignments on. */
  function ReadAssignments(table: string, s: string): Option<Query> {
    var (sets, s1) :- ReadMany(ReadSet, s);
    var (conditions, s2) :- ReadConditions(s1, false);
    var returning :- ReadReturning(s2);
    Some(UpdateQuery(table, sets, conditions, returning))
  }

  function ReadUpdate(s: string): Option<Query> {
    var (table, s1) :- ReadName(s);
    var s2 :- Skip(s1, " SET ");
    ReadAssignments(table, s2)
  }

  /** From the values on. */
  function ReadValues(table: string, columns: seq<string>, s: string): Option<Query> {
    var (slots, s1) :- ReadMany(ReadSlot, s);
    var s2 :- Skip(s1, ")");
    var returning :- ReadReturning(s2);
    Some(InsertQuery(table, columns, slots, returning))
  }

  function ReadColumns(table: string, s: string): Option<Query> {
    var (columns, s1) :- ReadMany(ReadName, s);
    var s2 :- Skip(s1, ") VALUES (");
    ReadValues(table, columns, s2)
  }

  function ReadInsert(s: string): Option<Query> {
    var (table, s1) :- ReadName(s);
    var s2 :- Skip(s1, "(");
    ReadColumns(table, s2)
  }

  function Read(s: string): Option<Query> {
    var select := Skip(s, "SELECT ");
    var update := Skip(s, "UPDATE ");
    if select.Some? then ReadSelect(select.value)
    else if update.Some? then ReadUpdate(update.value)
    else
      var rest :- Skip(s, "INSERT INTO ");
      ReadInsert(rest)
  }

  // Reading inverts writing

  predicate NamesIn(c: Condition) {
    IsName(c.column) && (c.AnyOf? ==> IsName(c.cast))
  }

  predicate WellFormed(q: Query) {
    match q
    case SelectQuery(columns, table, conditions, order, _, _) =>
      && columns != [] && (forall i :: 0 <= i < |columns| ==> IsName(columns[i])) && IsName(table)
      && (forall i :: 0 <= i < |conditions| ==> NamesIn(conditions[i]))
      && (order.Some? ==> IsName(order.value))
    case UpdateQuery(table, sets, conditions, returning) =>
      && IsName(table) && sets != [] && (forall i :: 0 <= i < |sets| ==> IsName(sets[i].0))
      && (forall i :: 0 <= i < |conditions| ==> NamesIn(conditions[i])) && IsName(returning)
    case InsertQuery(table, columns, slots, returning) =>
      && IsName(table) && columns != [] && (forall i :: 0 <= i < |columns| ==> IsName(columns[i]))
      && slots != [] && IsName(returning)
  }

  lemma {:induction false} LeadingNameConcat(s: string, rest: string)
    requires (forall i :: 0 <= i < |s| ==> IsNameChar(s[i])) && EndsName(rest)
    ensures LeadingName(s + rest) == |s|
  {
    if s == "" {
      assert s + rest == rest;
    } else {
      assert (s + rest)[1..] == s[1..] + rest;
      LeadingNameConcat(s[1..], rest);
    }
  }

  lemma ReadsName(name: string, rest: string)
    requires IsName(name) && EndsName(rest)
    ensures ReadName(name + rest) == Some((name, rest))
  {
    LeadingNameConcat(name, rest);
  }

  lemma ReadsSlot(k: nat, rest: string)
    requires EndsNumeral(rest)
    ensures ReadSlot(Slot(k) + rest) == Some((k, rest))
  {
    DecThenRest(k, rest);
    var s := Slot(k) + rest;
    assert s[1..] == Dec(k) + rest;
    assert s[1 + |Dec(k)|..] == rest;
  }

  lemma Skips(expected: string, rest: string)
    ensures Skip(expected + rest, expected) == Some(rest)
  {
    var s := expected + rest;
    assert s[..|expected|] == expected && s[|expected|..] == rest;
  }

  /** Text at which a comma-separated list ends. */
  predicate EndsList(rest: string) {
    EndsName(rest) && (rest == "" || rest[0] != ',')
  }

  predicate Follows(tail: string, rest: string) {
    tail == rest || (tail != "" && tail[0] == ',')
  }

  lemma {:induction false} ReadsMany<T>(readOne: string -> Option<(T, string)>, texts: seq<string>, items: seq<T>,
          rest: string)
    requires |texts| == |items| && texts != [] && (rest == "" || rest[0] != ',')
    requires forall i, tail :: 0 <= i < |texts| && Follows(tail, rest) ==>
               readOne(texts[i] + tail) == Some((items[i], tail))
    ensures ReadMany(readOne, Join(texts, ',') + rest) == Some((items, rest))
  {
    if |texts| == 1 {
      assert Follows(rest, rest) && readOne(texts[0] + rest) == Some((items[0], rest));
      assert items == [items[0]];
    } else {
      var more := Join(texts[1..], ',') + rest;
      forall i, tail | 0 <= i < |texts[1..]| && Follows(tail, rest)
        ensures readOne(texts[1..][i] + tail) == Some((items[1..][i], tail))
      {
        assert texts[1..][i] == texts[i + 1];
      }
      ReadsMany(readOne, texts[1..], items[1..], rest);
      var tail := [','] + more;
      assert Join(texts, ',') + rest == texts[0] + tail;
      assert tail[1..] == more && Follows(tail, rest);
      assert items == [items[0]] + items[1..];
    }
  }

  lemma ReadsNames(names: seq<string>, rest: string)
    requires names != [] && (forall i :: 0 <= i < |names| ==> IsName(names[i])) && EndsList(rest)
    ensures ReadMany(ReadName, Join(names, ',') + rest) == Some((names, rest))
  {
    forall i, tail | 0 <= i < |names| && Follows(tail, rest)
      ensures ReadName(names[i] + tail) == Some((names[i], tail))
    {
      ReadsName(names[i], tail);
    }
    ReadsMany(ReadName, names, names, rest);
  }

  lemma ReadsSlots(slots: seq<nat>, rest: string)
    requires slots != [] && EndsList(rest)
    ensures ReadMany(ReadSlot, Join(SlotTexts(slots), ',') + rest) == Some((slots, rest))
  {
    forall i, tail | 0 <= i < |slots| && Follows(tail, rest)
      ensures ReadSlot(SlotTexts(slots)[i] + tail) == Some((slots[i], tail))
    {
      ReadsSlot(slots[i], tail);
    }
    ReadsMany(ReadSlot, SlotTexts(slots), slots, rest);
  }

  /** `name = $k`, read piece by piece. */
  lemma ReadsAssignment(name: string, k: nat, rest: string)
    requires IsName(name) && EndsNumeral(rest)
    ensures var slot := Slot(k) + rest;
            var after := " = " + slot;
            && SetText(name, k) + rest == name + after
            && ReadName(name + after) == Some((name, after))
            && Skip(after, " = ") == Some(slot)
            && ReadSlot(slot) == Some((k, rest))
  {
    var slot := Slot(k) + rest;
    var after := " = " + slot;
    assert SetText(name, k) + rest == name + after;
    ReadsName(name, after);
    Skips(" = ", slot);
    ReadsSlot(k, rest);
  }

  lemma ReadsSets(sets: seq<(string, nat)>, rest: string)
    requires sets != [] && (forall i :: 0 <= i < |sets| ==> IsName(sets[i].0)) && EndsList(rest)
    ensures ReadMany(ReadSet, Join(SetTexts(sets), ',') + rest) == Some((sets, rest))
  {
    forall i, tail | 0 <= i < |sets| && Follows(tail, rest)
      ensures ReadSet(SetTexts(sets)[i] + tail) == Some((sets[i], tail))
    {
      ReadsAssignment(sets[i].0, sets[i].1, tail);
    }
    ReadsMany(ReadSet, SetTexts(sets), sets, rest);
  }

  lemma ReadsCondition(c: Condition, rest: string)
    requires NamesIn(c) && EndsNumeral(rest)
    ensures ReadCondition(ConditionText(c) + rest) == Some((c, rest))
  {
    match c
    case Equals(column, k) =>
      ReadsAssignment(column, k, rest);
      var after := " = " + (Slot(k) + rest);
      assert after[3] == '$' && " = ANY("[3] == 'A';
      assert |after| >= 7 ==> after[..7][3] == '$';
    case AnyOf(column, k, cast) =>
      var slot := Slot(k) + ("::" + (cast + ("[])" + rest)));
      var after := " = ANY(" + slot;
      assert ConditionText(c) + rest == column + after;
      ReadsName(column, after);
      Skips(" = ANY(", slot);
      ReadsAnyOf(column, k, cast, rest);
  }

  lemma ReadsAnyOf(column: string, k: nat, cast: string, rest: string)
    requires IsName(cast)
    ensures ReadAnyOf(column, Slot(k) + ("::" + (cast + ("[])" + rest)))) == Some((AnyOf(column, k, cast), rest))
  {
    ReadsSlot(k, "::" + (cast + ("[])" + rest)));
    Skips("::", cast + ("[])" + rest));
    ReadsName(cast, "[])" + rest);
    Skips("[])", rest);
  }

  /** Text that cannot go on with another condition. */
  predicate EndsConditions(rest: string) {
    rest == "" || (|rest| > 1 && rest[0] == ' ' && rest[1] != 'W' && rest[1] != 'A')
  }

  lemma NoMoreConditions(rest: string, hasWhere: bool)
    requires EndsConditions(rest)
    ensures ReadConditions(rest, hasWhere) == Some(([], rest))
  {
    var c := Connective(hasWhere);
    assert c[1] == 'W' || c[1] == 'A';
    assert |c| <= |rest| ==> rest[..|c|][1] == rest[1];
  }

  lemma ConditionsUnfold(cs: seq<Condition>, hasWhere: bool, rest: string)
    requires cs != []
    ensures ConditionsText(cs, hasWhere) + rest
            == Connective(hasWhere) + (ConditionText(cs[0]) + (ConditionsText(cs[1..], true) + rest))
  {
  }

  lemma ConditionsStart(cs: seq<Condition>, hasWhere: bool, rest: string)
    requires rest == "" || rest[0] == ' '
    ensures ConditionsText(cs, hasWhere) + rest == "" || (ConditionsText(cs, hasWhere) + rest)[0] == ' '
  {
    if cs != [] {
      ConditionsUnfold(cs, hasWhere, rest);
      assert Connective(hasWhere)[0] == ' ';
    } else {
      assert ConditionsText(cs, hasWhere) + rest == rest;
    }
  }

  lemma {:induction false} ReadsConditions(cs: seq<Condition>, hasWhere: bool, rest: string)
    requires (forall i :: 0 <= i < |cs| ==> NamesIn(cs[i])) && EndsConditions(rest)
    ensures ReadConditions(ConditionsText(cs, hasWhere) + rest, hasWhere) == Some((cs, rest))
    decreases |cs|
  {
    if cs == [] {
      assert ConditionsText(cs, hasWhere) + rest == rest;
      NoMoreConditions(rest, hasWhere);
    } else {
      ReadsConditions(cs[1..], true, rest);
      ReadsFirstCondition(cs, hasWhere, ConditionsText(cs[1..], true) + rest, rest);
    }
  }

  lemma ReadsFirstCondition(cs: seq<Condition>, hasWhere: bool, more: string, rest: string)
    requires cs != [] && NamesIn(cs[0]) && EndsConditions(rest)
    requires more == ConditionsText(cs[1..], true) + rest
    requires ReadConditions(more, true) == Some((cs[1..], rest))
    ensures ReadConditions(ConditionsText(cs, hasWhere) + rest, hasWhere) == Some((cs, rest))
  {
    ConditionsStart(cs[1..], true, rest);
    ReadsCondition(cs[0], more);
    ConditionStep(cs[0], ConditionText(cs[0]) + more, cs[1..], hasWhere, more, rest);
    ConditionsUnfold(cs, hasWhere, rest);
    assert cs == [cs[0]] + cs[1..];
  }

  lemma ConditionStep(c: Condition, text: string, cs: seq<Condition>, hasWhere: bool, more: string, rest: string)
    requires ReadCondition(text) == Some((c, more)) && |more| <= |text|
    requires ReadConditions(more, true) == Some((cs, rest))
    ensures ReadConditions(Connective(hasWhere) + text, hasWhere) == Some(([c] + cs, rest))
  {
    Skips(Connective(hasWhere), text);
  }

  lemma ReadsOrder(order: Option<string>, rest: string)
    requires order.Some? ==> IsName(order.value)
    requires rest == "" || (|rest| > 2 && rest[0] == ' ' && (rest[1] != 'O' || rest[2] != 'R'))
    ensures ReadOrder(OrderText(order) + rest) == Some((order, rest))
  {
    if order.Some? {
      assert OrderText(order) + rest == " ORDER BY " + (order.value + rest);
      Skips(" ORDER BY ", order.value + rest);
      ReadsName(order.value, rest);
    } else {
      assert OrderText(order) + rest == rest;
      assert |rest| >= 10 ==> rest[..10][1] == rest[1] && rest[..10][2] == rest[2];
    }
  }

  lemma ReadsCount(count: Option<nat>, keyword: string, rest: string)
    requires |keyword| > 1 && keyword[0] == ' '
    requires rest == "" || (|rest| > 1 && rest[0] == ' ' && rest[1] != keyword[1])
    ensures var text := if count.None? then "" else keyword + Slot(count.value) + "::int";
            ReadCount(text + rest, keyword) == Some((count, rest))
  {
    if count.Some? {
      var after := "::int" + rest;
      assert keyword + Slot(count.value) + "::int" + rest == keyword + (Slot(count.value) + after);
      Skips(keyword, Slot(count.value) + after);
      ReadsSlot(count.value, after);
      Skips("::int", rest);
    } else {
      assert "" + rest == rest;
      assert |rest| >= |keyword| ==> rest[..|keyword|][1] == rest[1];
    }
  }

  lemma ReadsReturning(column: string)
    requires IsName(column)
    ensures ReadReturning(" RETURNING " + column) == Some(column)
  {
    Skips(" RETURNING ", column);
    ReadsName(column, "");
    assert column + "" == column;
  }

  lemma ReadsCounts(limit: Option<nat>, offset: Option<nat>)
    ensures ReadCounts(LimitText(limit) + OffsetText(offset)) == Some((limit, offset))
  {
    ReadsCount(limit, " LIMIT ", OffsetText(offset));
    ReadsCount(offset, " OFFSET ", "");
    assert OffsetText(offset) + "" == OffsetText(offset);
  }

  lemma ReadsTail(order: Option<string>, limit: Option<nat>, offset: Option<nat>)
    requires order.Some? ==> IsName(order.value)
    ensures ReadTail(TailText(order, limit, offset)) == Some((order, limit, offset))
  {
    ReadsOrder(order, LimitText(limit) + OffsetText(offset));
    ReadsCounts(limit, offset);
  }

  lemma TailStarts(order: Option<string>, limit: Option<nat>, offset: Option<nat>)
    ensures EndsConditions(TailText(order, limit, offset))
  {
  }

  lemma ReadsFrom(q: Query)
    requires q.SelectQuery? && WellFormed(q)
    ensures var tail := TailText(q.order, q.limit, q.offset);
            ReadFrom(q.columns, q.table + (ConditionsText(q.conditions, false) + tail)) == Some(q)
  {
    var tail := TailText(q.order, q.limit, q.offset);
    TailStarts(q.order, q.limit, q.offset);
    ReadsTail(q.order, q.limit, q.offset);
    ReadsConditions(q.conditions, false, tail);
    ConditionsStart(q.conditions, false, tail);
    ReadsName(q.table, ConditionsText(q.conditions, false) + tail);
    var conditions := ConditionsText(q.conditions, false);
    FromSteps(q, q.table + (conditions + tail), conditions + tail, tail);
  }

  lemma FromSteps(q: Query, s: string, s1: string, s2: string)
    requires q.SelectQuery?
    requires ReadName(s) == Some((q.table, s1)) && ReadConditions(s1, false) == Some((q.conditions, s2))
    requires ReadTail(s2) == Some((q.order, q.limit, q.offset))
    ensures ReadFrom(q.columns, s) == Some(q)
  {
  }

  lemma ReadsSelect(q: Query, from: string)
    requires q.SelectQuery? && WellFormed(q) && ReadFrom(q.columns, from) == Some(q)
    ensures ReadSelect(Join(q.columns, ',') + (" FROM " + from)) == Some(q)
  {
    ReadsNames(q.columns, " FROM " + from);
    Skips(" FROM ", from);
  }

  lemma ReadsAssignments(q: Query)
    requires q.UpdateQuery? && WellFormed(q)
    ensures var s2 := " RETURNING " + q.returning;
            ReadAssignments(q.table, Join(SetTexts(q.sets), ',') + (ConditionsText(q.conditions, false) + s2))
                == Some(q)
  {
    var s2 := " RETURNING " + q.returning;
    ReadsReturning(q.returning);
    ReadsConditions(q.conditions, false, s2);
    ConditionsStart(q.conditions, false, s2);
    ReadsSets(q.sets, ConditionsText(q.conditions, false) + s2);
    AssignmentSteps(q, Join(SetTexts(q.sets), ',') + (ConditionsText(q.conditions, false) + s2),
                    ConditionsText(q.conditions, false) + s2, s2);
  }

  lemma AssignmentSteps(q: Query, s: string, s1: string, s2: string)
    requires q.UpdateQuery?
    requires ReadMany(ReadSet, s) == Some((q.sets, s1)) && ReadConditions(s1, false) == Some((q.conditions, s2))
    requires ReadReturning(s2) == Some(q.returning)
    ensures ReadAssignments(q.table, s) == Some(q)
  {
  }

  lemma ReadsUpdate(q: Query, assignments: string)
    requires q.UpdateQuery? && WellFormed(q) && ReadAssignments(q.table, assignments) == Some(q)
    ensures ReadUpdate(q.table + (" SET " + assignments)) == Some(q)
  {
    ReadsName(q.table, " SET " + assignments);
    Skips(" SET ", assignments);
  }

  lemma ReadsValues(q: Query)
    requires q.InsertQuery? && WellFormed(q)
    ensures ReadValues(q.table, q.columns, Join(SlotTexts(q.slots), ',') + (")" + (" RETURNING " + q.returning)))
            == Some(q)
  {
    ReadsReturning(q.returning);
    Skips(")", " RETURNING " + q.returning);
    ReadsSlots(q.slots, ")" + (" RETURNING " + q.returning));
  }

  lemma ReadsInsert(q: Query, values: string)
    requires q.InsertQuery? && WellFormed(q) && ReadValues(q.table, q.columns, values) == Some(q)
    ensures ReadInsert(q.table + ("(" + (Join(q.columns, ',') + (") VALUES (" + values)))) == Some(q)
  {
    var columns := Join(q.columns, ',') + (") VALUES (" + values);
    assert ReadColumns(q.table, columns) == Some(q) by {
      ReadsNames(q.columns, ") VALUES (" + values);
      Skips(") VALUES (", values);
    }
    ReadsName(q.table, "(" + columns);
    Skips("(", columns);
  }

  lemma NotKeyword(keyword: string, rest: string, other: string)
    requires keyword != "" && other != "" && keyword[0] != other[0]
    ensures Skip(keyword + rest, other).None?
  {
    var s := keyword + rest;
    assert |other| <= |s| ==> s[..|other|][0] == keyword[0];
  }

  lemma ReadsSelectText(q: Query)
    requires q.SelectQuery? && WellFormed(q)
    ensures ReadSelect(SelectText(q)) == Some(q)
  {
    ReadsFrom(q);
    ReadsSelect(q, q.table + (ConditionsText(q.conditions, false) + TailText(q.order, q.limit, q.offset)));
  }

  lemma ReadsUpdateText(q: Query)
    requires q.UpdateQuery? && WellFormed(q)
    ensures ReadUpdate(UpdateText(q)) == Some(q)
  {
    ReadsAssignments(q);
    ReadsUpdate(q, Join(SetTexts(q.sets), ',') + (ConditionsText(q.conditions, false) + (" RETURNING " + q.returning)));
  }

  lemma ReadsInsertText(q: Query)
    requires q.InsertQuery? && WellFormed(q)
    ensures ReadInsert(InsertText(q)) == Some(q)
  {
    ReadsValues(q);
    ReadsInsert(q, Join(SlotTexts(q.slots), ',') + (")" + (" RETURNING " + q.returning)));
  }

  lemma KeywordChooses(s: string)
    ensures Read("SELECT " + s) == ReadSelect(s)
    ensures Read("UPDATE " + s) == ReadUpdate(s)
    ensures Read("INSERT INTO " + s) == ReadInsert(s)
  {
    Skips("SELECT ", s);
    Skips("UPDATE ", s);
    Skips("INSERT INTO ", s);
    NotKeyword("UPDATE ", s, "SELECT ");
    NotKeyword("INSERT INTO ", s, "SELECT ");
    NotKeyword("INSERT INTO ", s, "UPDATE ");
  }

  /** Every well-formed statement is read back from its text. */
  lemma ReadInvertsText(q: Query)
    requires WellFormed(q)
    ensures Read(Text(q)) == Some(q)
  {
    match q
    case SelectQuery(_, _, _, _, _, _) =>
      ReadsSelectText(q);
      KeywordChooses(SelectText(q));
    case UpdateQuery(_, _, _, _) =>
      ReadsUpdateText(q);
      KeywordChooses(UpdateText(q));
    case InsertQuery(_, _, _, _) =>
      ReadsInsertText(q);
      KeywordChooses(InsertText(q));
  }
}
