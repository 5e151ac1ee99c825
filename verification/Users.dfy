/** `UsersRepository` as a client of the builder, and what its statements mean when they are run on a
    table of users. */
module Users {
  import opened Options
  import opened Decimals
  import opened Filters
  import opened Streams
  import opened SqlBuilders
  import opened SqlTexts

  datatype UserListFilter = UserListFilter(
    id: Option<int>,
    idIn: Option<seq<int>>,
    username: Option<string>,
    usernameIn: Option<seq<string>>,
    email: Option<string>,
    limit: Option<nat>,
    offset: Option<nat>)

  datatype UserEntity = UserEntity(
    id: int, username: Option<string>, email: Option<string>, password: Option<string>, picture: Option<string>)

  const LIST_FIELDS: seq<string> := ["id", "username", "picture", "email", "created_at", "updated_at"]

  // The statements, as syntax trees with their parameters

  datatype Draft = Draft(conditions: seq<Condition>, params: seq<string>)

  function AddEquals(d: Draft, column: string, value: string): Draft {
    Draft(d.conditions + [Equals(column, |d.params| + 1)], d.params + [value])
  }

  function AddAnyOf(d: Draft, column: string, cast: string, values: seq<string>): Draft {
    if values == [] then d
    else Draft(d.conditions + [AnyOf(column, |d.params| + 1, cast)], d.params + [ArrayText(values)])
  }

  function EqualsIf(d: Draft, column: string, value: Option<string>): Draft {
    if value.Some? then AddEquals(d, column, value.value) else d
  }

  function AnyOfIf(d: Draft, column: string, cast: string, values: Option<seq<string>>): Draft {
    if values.Some? then AddAnyOf(d, column, cast, values.value) else d
  }

  function ShownId(id: Option<int>): Option<string> {
    if id.Some? then Some(Show(id.value)) else None
  }

  function ShownIds(ids: Option<seq<int>>): Option<seq<string>> {
    if ids.Some? then Some(Shown(ids.value)) else None
  }

  function ListDraft(f: UserListFilter): Draft {
    var d1 := EqualsIf(Draft([], []), "id", ShownId(f.id));
    var d2 := AnyOfIf(d1, "id", "bigint", ShownIds(f.idIn));
    var d3 := AnyOfIf(d2, "username", "text", f.usernameIn);
    var d4 := EqualsIf(d3, "username", f.username);
    EqualsIf(d4, "email", f.email)
  }

  function CountParam(n: Option<nat>): seq<string> {
    if n.Some? then [Dec(n.value)] else []
  }

  function CountSlot(n: Option<nat>, before: nat): Option<nat> {
    if n.Some? then Some(before + 1) else None
  }

  function ListQuery(f: UserListFilter): Query {
    var d := ListDraft(f);
    var limit := CountSlot(f.limit, |d.params|);
    var offset := CountSlot(f.offset, |d.params| + |CountParam(f.limit)|);
    SelectQuery(LIST_FIELDS, "users", d.conditions, Some("id"), limit, offset)
  }

  function ListParams(f: UserListFilter): seq<string> {
    ListDraft(f).params + CountParam(f.limit) + CountParam(f.offset)
  }

  // The builder writes them

  function WhereIf(b: Builder, column: string, value: Option<string>): Builder {
    if value.Some? then After(b, Where(column, value.value)) else b
  }

  function WhereAnyIf(b: Builder, column: string, cast: string, values: Option<seq<string>>): Builder {
    if values.Some? then After(b, WhereAny(column, cast, values.value)) else b
  }

  function ListFilters(b: Builder, f: UserListFilter): Builder {
    var b1 := WhereIf(b, "id", ShownId(f.id));
    var b2 := WhereAnyIf(b1, "id", "bigint", ShownIds(f.idIn));
    var b3 := WhereAnyIf(b2, "username", "text", f.usernameIn);
    var b4 := WhereIf(b3, "username", f.username);
    WhereIf(b4, "email", f.email)
  }

  /** A builder whose SQL is a head and the conditions of a draft. */
  ghost predicate Built(b: Builder, head: string, d: Draft) {
    && b.sql == head + ConditionsText(d.conditions, false)
    && (b.hasWhere <==> d.conditions != [])
    && b.params == d.params && b.index == |d.params|
  }

  lemma {:induction false} ConditionsTextAppend(cs: seq<Condition>, c: Condition, hasWhere: bool)
    ensures ConditionsText(cs + [c], hasWhere)
            == ConditionsText(cs, hasWhere) + (Connective(hasWhere || cs != []) + ConditionText(c))
  {
    if cs == [] {
      assert cs + [c] == [c];
      assert ConditionsText([c][1..], true) == "";
      assert ConditionsText([c], hasWhere) == Connective(hasWhere) + ConditionText(c) + "";
    } else {
      assert (cs + [c])[1..] == cs[1..] + [c];
      ConditionsTextAppend(cs[1..], c, true);
    }
  }

  lemma Glue(head: string, text: string, connective: string, condition: string)
    ensures (head + text) + (connective + condition) == head + (text + (connective + condition))
  {
  }

  lemma AddedCondition(b: Builder, c: Call, condition: Condition)
    requires c.Where? || (c.WhereAny? && c.values != [])
    requires c.Where? ==> condition == Equals(c.expr, b.index + 1)
    requires c.WhereAny? ==> condition == AnyOf(c.expr, b.index + 1, c.cast)
    ensures Added(b, c) == Connective(b.hasWhere) + ConditionText(condition)
  {
    if c.Where? {
      Regroup3(Connective(b.hasWhere), c.expr, " = ", Slot(b.index + 1));
    } else {
      Regroup5(Connective(b.hasWhere), c.expr, " = ANY(", Slot(b.index + 1), "::", c.cast, "[])");
    }
  }

  lemma Regroup3(a: string, b: string, c: string, d: string)
    ensures a + b + c + d == a + (b + c + d)
  {
  }

  lemma Regroup5(a: string, b: string, c: string, d: string, e: string, f: string, g: string)
    ensures a + b + c + d + e + f + g == a + (b + c + d + e + f + g)
  {
    Regroup3(a, b, c, d);
    Regroup3(a, b + c + d, e, f);
    assert (a + (b + c + d)) + e + f == a + ((b + c + d) + e + f);
  }

  lemma BuiltCondition(b: Builder, head: string, d: Draft, c: Call, condition: Condition)
    requires Built(b, head, d)
    requires c.Where? || (c.WhereAny? && c.values != [])
    requires c.Where? ==> condition == Equals(c.expr, b.index + 1)
    requires c.WhereAny? ==> condition == AnyOf(c.expr, b.index + 1, c.cast)
    ensures Built(After(b, c), head, Draft(d.conditions + [condition], d.params + Pushed(c)))
  {
    AddedCondition(b, c, condition);
    ConditionsTextAppend(d.conditions, condition, false);
    Glue(head, ConditionsText(d.conditions, false), Connective(b.hasWhere), ConditionText(condition));
  }

  lemma BuiltWhereIf(b: Builder, head: string, d: Draft, column: string, value: Option<string>)
    requires Built(b, head, d)
    ensures Built(WhereIf(b, column, value), head, EqualsIf(d, column, value))
  {
    if value.Some? {
      BuiltCondition(b, head, d, Where(column, value.value), Equals(column, b.index + 1));
    }
  }

  lemma BuiltWhereAnyIf(b: Builder, head: string, d: Draft, column: string, cast: string, values: Option<seq<string>>)
    requires Built(b, head, d)
    ensures Built(WhereAnyIf(b, column, cast, values), head, AnyOfIf(d, column, cast, values))
  {
    if values.Some? && values.value != [] {
      BuiltCondition(b, head, d, WhereAny(column, cast, values.value), AnyOf(column, b.index + 1, cast));
    } else if values.Some? {
      assert b.sql + "" == b.sql;
    }
  }

  lemma BuiltFilters(b: Builder, head: string, f: UserListFilter)
    requires Built(b, head, Draft([], []))
    ensures Built(ListFilters(b, f), head, ListDraft(f))
  {
    var b1, d1 := WhereIf(b, "id", ShownId(f.id)), EqualsIf(Draft([], []), "id", ShownId(f.id));
    BuiltWhereIf(b, head, Draft([], []), "id", ShownId(f.id));
    var b2, d2 := WhereAnyIf(b1, "id", "bigint", ShownIds(f.idIn)), AnyOfIf(d1, "id", "bigint", ShownIds(f.idIn));
    BuiltWhereAnyIf(b1, head, d1, "id", "bigint", ShownIds(f.idIn));
    var b3, d3 := WhereAnyIf(b2, "username", "text", f.usernameIn), AnyOfIf(d2, "username", "text", f.usernameIn);
    BuiltWhereAnyIf(b2, head, d2, "username", "text", f.usernameIn);
    var b4, d4 := WhereIf(b3, "username", f.username), EqualsIf(d3, "username", f.username);
    BuiltWhereIf(b3, head, d3, "username", f.username);
    BuiltWhereIf(b4, head, d4, "email", f.email);
  }

  function ListBuilder(f: UserListFilter): Builder {
    var selected := After(Start("users"), Select(LIST_FIELDS));
    After(After(After(ListFilters(selected, f), OrderBy("id")), Limit(f.limit)), Offset(f.offset))
  }

  lemma Nest(select: string, names: string, from: string, table: string, conditions: string,
             order: string, limit: string, offset: string)
    ensures ((((select + names + from + table) + conditions) + order) + limit) + offset
            == select + (names + (from + (table + (conditions + (order + (limit + offset))))))
  {
    var tail := order + (limit + offset);
    assert ((conditions + order) + limit) + offset == conditions + tail;
    assert ((((select + names + from + table) + conditions) + order) + limit) + offset
        == (select + names + from + table) + (conditions + tail);
    assert (select + names + from + table) + (conditions + tail)
        == select + (names + (from + (table + (conditions + tail))));
  }

  lemma SelectBuilt()
    ensures Built(After(Start("users"), Select(LIST_FIELDS)),
                  "SELECT " + Join(LIST_FIELDS, ',') + " FROM " + "users", Draft([], []))
  {
    var head := "SELECT " + Join(LIST_FIELDS, ',') + " FROM " + "users";
    assert "" + head == head;
    assert ConditionsText([], false) == "" && head + "" == head;
  }

  /** The builder, driven as `getList` drives it, holds the text and parameters of the list query. */
  lemma ListBuilderIsQuery(f: UserListFilter)
    ensures ListBuilder(f).sql == Text(ListQuery(f)) && ListBuilder(f).params == ListParams(f)
  {
    var selected := After(Start("users"), Select(LIST_FIELDS));
    SelectBuilt();
    BuiltFilters(selected, "SELECT " + Join(LIST_FIELDS, ',') + " FROM " + "users", f);
    TailBuilt(ListFilters(selected, f), f, |ListDraft(f).params|);
    ListTextUnfolds(f);
  }

  lemma ListTextUnfolds(f: UserListFilter)
    ensures Text(ListQuery(f))
            == (((("SELECT " + Join(LIST_FIELDS, ',') + " FROM " + "users")
                  + ConditionsText(ListDraft(f).conditions, false))
                 + OrderText(Some("id"))) + LimitText(ListQuery(f).limit)) + OffsetText(ListQuery(f).offset)
  {
    Nest("SELECT ", Join(LIST_FIELDS, ','), " FROM ", "users", ConditionsText(ListDraft(f).conditions, false),
         OrderText(Some("id")), LimitText(ListQuery(f).limit), OffsetText(ListQuery(f).offset));
  }

  lemma LimitAdds(b: Builder, n: Option<nat>)
    ensures After(b, Limit(n))
            == b.(sql := b.sql + LimitText(CountSlot(n, b.index)), params := b.params + CountParam(n),
                  index := b.index + |CountParam(n)|)
  {
  }

  lemma OffsetAdds(b: Builder, n: Option<nat>)
    ensures After(b, Offset(n))
            == b.(sql := b.sql + OffsetText(CountSlot(n, b.index)), params := b.params + CountParam(n),
                  index := b.index + |CountParam(n)|)
  {
  }

  lemma OrderAdds(b: Builder, column: string)
    ensures After(b, OrderBy(column)) == b.(sql := b.sql + OrderText(Some(column)))
  {
    assert b.params + [] == b.params;
  }

  lemma TailBuilt(b: Builder, f: UserListFilter, n: nat)
    requires b.index == n
    ensures var limit := CountSlot(f.limit, n);
            var offset := CountSlot(f.offset, n + |CountParam(f.limit)|);
            var t := After(After(After(b, OrderBy("id")), Limit(f.limit)), Offset(f.offset));
            && t.sql == ((b.sql + OrderText(Some("id"))) + LimitText(limit)) + OffsetText(offset)
            && t.params == b.params + CountParam(f.limit) + CountParam(f.offset)
  {
    OrderAdds(b, "id");
    var ordered := After(b, OrderBy("id"));
    LimitAdds(ordered, f.limit);
    OffsetAdds(After(ordered, Limit(f.limit)), f.offset);
  }

  /** `getList` up to the query: the SQL and the parameters it hands to the pool. */
  method GetList(f: UserListFilter) returns (sql: string, params: seq<string>)
    ensures sql == Text(ListQuery(f)) && params == ListParams(f)
  {
    var qb := new SQLBuilder("users");
    qb.Select(LIST_FIELDS);
    AddFilters(qb, f);
    qb.OrderBy("id");
    qb.Limit(f.limit);
    qb.Offset(f.offset);
    ListBuilderIsQuery(f);
    assert qb.View() == ListBuilder(f);
    sql, params := qb.sql, qb.params;
  }

  method AddFilters(qb: SQLBuilder, f: UserListFilter)
    modifies qb
    ensures qb.View() == ListFilters(old(qb.View()), f)
  {
    if f.id.Some? {
      qb.Where("id", Show(f.id.value));
    }
    if f.idIn.Some? {
      qb.WhereAny("id", "bigint", Shown(f.idIn.value));
    }
    if f.usernameIn.Some? {
      qb.WhereAny("username", "text", f.usernameIn.value);
    }
    if f.username.Some? {
      qb.Where("username", f.username.value);
    }
    if f.email.Some? {
      qb.Where("email", f.email.value);
    }
  }

  // Update

  predicate Given(value: Option<string>) {
    value.Some? && value.value != ""
  }

  function Push(pairs: seq<(string, string)>, column: string, value: Option<string>): seq<(string, string)> {
    if Given(value) then pairs + [(column, value.value)] else pairs
  }

  /** The columns to set with their values, in the order the repository pushes them. */
  function Changes(u: UserEntity): seq<(string, string)> {
    Push(Push(Push(Push([], "email", u.email), "username", u.username), "password", u.password), "picture", u.picture)
  }

  function Columns(pairs: seq<(string, string)>): seq<string> {
    seq(|pairs|, i requires 0 <= i < |pairs| => pairs[i].0)
  }

  function Values(pairs: seq<(string, string)>): seq<string> {
    seq(|pairs|, i requires 0 <= i < |pairs| => pairs[i].1)
  }

  function Numbered(columns: seq<string>): seq<(string, nat)> {
    seq(|columns|, i requires 0 <= i < |columns| => (columns[i], i + 1))
  }

  function UpdateStatement(u: UserEntity): Query {
    var columns := Columns(Changes(u));
    UpdateQuery("users", Numbered(columns), [Equals("id", |columns| + 1)], "id")
  }

  function UpdateParams(u: UserEntity): seq<string> {
    Values(Changes(u)) + [Show(u.id)]
  }

  function UpdateBuilder(columns: seq<string>, id: string): Builder {
    After(After(After(Start("users"), Update(columns)), Where("id", id)), Returning("id"))
  }

  lemma UpdateBuilderIsStatement(columns: seq<string>, id: string)
    requires columns != []
    ensures UpdateBuilder(columns, id).sql
            == Text(UpdateQuery("users", Numbered(columns), [Equals("id", |columns| + 1)], "id"))
  {
    var sets := Join(Assignments(columns, 0), ',');
    assert Assignments(columns, 0) == SetTexts(Numbered(columns));
    var condition := Equals("id", |columns| + 1);
    var started := After(Start("users"), Update(columns));
    var head := "UPDATE " + "users" + " SET " + sets;
    assert started.sql == head by {
      assert "" + head == head;
    }
    AddedCondition(started, Where("id", id), condition);
    var conditions := Connective(false) + ConditionText(condition);
    assert ConditionsText([condition], false) == conditions by {
      assert [condition][1..] == [];
      assert ConditionsText([condition][1..], true) == "";
      assert conditions + "" == conditions;
    }
    NestUpdate("UPDATE ", "users", " SET ", sets, conditions, " RETURNING " + "id");
  }

  lemma NestUpdate(update: string, table: string, set_: string, sets: string, conditions: string, returning: string)
    ensures ((update + table + set_ + sets) + conditions) + returning
            == update + (table + (set_ + (sets + (conditions + returning))))
  {
  }

  /** `update` up to the query; the builder throws when no field is given. */
  method UpdateUser(u: UserEntity) returns (ok: bool, sql: string, params: seq<string>)
    ensures ok <==> Changes(u) != []
    ensures ok ==> sql == Text(UpdateStatement(u)) && params == UpdateParams(u)
  {
    var fields: seq<string>;
    params, fields := CollectChanges(u);
    var qb := new SQLBuilder("users");
    ok := qb.Update(fields);
    sql := "";
    if !ok {
      return;
    }
    params := params + [Show(u.id)];
    qb.Where("id", Show(u.id));
    qb.Returning("id");
    assert qb.View() == UpdateBuilder(fields, Show(u.id));
    UpdateBuilderIsStatement(fields, Show(u.id));
    sql := qb.sql;
  }

  lemma PushedSides(pairs: seq<(string, string)>, column: string, value: Option<string>)
    ensures var more := Push(pairs, column, value);
            if Given(value) then Values(more) == Values(pairs) + [value.value]
                && Columns(more) == Columns(pairs) + [column]
            else more == pairs
  {
  }

  /** The given fields and their values, pushed on two vectors side by side. */
  method CollectChanges(u: UserEntity) returns (params: seq<string>, fields: seq<string>)
    ensures params == Values(Changes(u)) && fields == Columns(Changes(u))
  {
    params, fields := [], [];
    ghost var p1 := Push([], "email", u.email);
    ghost var p2 := Push(p1, "username", u.username);
    ghost var p3 := Push(p2, "password", u.password);
    if u.email.Some? && u.email.value != "" {
      params := params + [u.email.value];
      fields := fields + ["email"];
    }
    PushedSides([], "email", u.email);
    assert params == Values(p1) && fields == Columns(p1);
    if u.username.Some? && u.username.value != "" {
      params := params + [u.username.value];
      fields := fields + ["username"];
    }
    PushedSides(p1, "username", u.username);
    assert params == Values(p2) && fields == Columns(p2);
    if u.password.Some? && u.password.value != "" {
      params := params + [u.password.value];
      fields := fields + ["password"];
    }
    PushedSides(p2, "password", u.password);
    assert params == Values(p3) && fields == Columns(p3);
    if u.picture.Some? && u.picture.value != "" {
      params := params + [u.picture.value];
      fields := fields + ["picture"];
    }
    PushedSides(p3, "picture", u.picture);
  }

  /** An update is refused exactly when every field is absent or empty. */
  lemma NothingToUpdateIff(u: UserEntity)
    ensures Changes(u) == []
            <==> forall value :: value in [u.email, u.username, u.password, u.picture] ==> value in [None, Some("")]
  {
    var values := [u.email, u.username, u.password, u.picture];
    assert u.email == values[0] && u.username == values[1] && u.password == values[2] && u.picture == values[3];
    assert Given(u.email) <==> u.email !in [None, Some("")];
    assert Given(u.username) <==> u.username !in [None, Some("")];
    assert Given(u.password) <==> u.password !in [None, Some("")];
    assert Given(u.picture) <==> u.picture !in [None, Some("")];
  }

  // Create

  const CREATE_FIELDS: seq<string> := ["username", "email", "password"]

  const CREATE_STATEMENT: Query := InsertQuery("users", CREATE_FIELDS, [1, 2, 3], "id")

  function CreateParams(u: UserEntity): seq<Option<string>> {
    [u.username, u.email, u.password]
  }

  /** `create` up to the query. */
  method CreateUser(u: UserEntity) returns (sql: string, params: seq<Option<string>>)
    ensures sql == Text(CREATE_STATEMENT) && params == CreateParams(u)
  {
    params := [];
    params := params + [u.username];
    params := params + [u.email];
    params := params + [u.password];
    var qb := new SQLBuilder("users");
    var _ := qb.Insert(CREATE_FIELDS);
    qb.Returning("id");
    InsertBuilderIsStatement();
    sql := qb.sql;
  }

  lemma InsertBuilderIsStatement()
    ensures After(After(Start("users"), Insert(CREATE_FIELDS)), Returning("id")).sql == Text(CREATE_STATEMENT)
  {
    var names, slots := Join(CREATE_FIELDS, ','), Join(Slots(0, 3), ',');
    assert Slots(0, 3) == SlotTexts([1, 2, 3]);
    var head := "INSERT INTO " + "users" + "(" + names + ") VALUES (" + slots + ")";
    assert After(Start("users"), Insert(CREATE_FIELDS)).sql == head by {
      assert "" + head == head;
    }
    NestInsert("INSERT INTO ", "users", "(", names, ") VALUES (", slots, ")", " RETURNING " + "id");
  }

  lemma NestInsert(insert: string, table: string, open: string, names: string, values: string,
                   slots: string, close: string, returning: string)
    ensures (insert + table + open + names + values + slots + close) + returning
            == insert + (table + (open + (names + (values + (slots + (close + returning))))))
  {
    assert (values + slots + close) + returning == values + (slots + (close + returning));
    assert (insert + table + open + names) + (values + slots + close)
        == insert + table + open + names + values + slots + close;
    assert (insert + table + open + names) + (values + (slots + (close + returning)))
        == insert + (table + (open + (names + (values + (slots + (close + returning))))));
  }
}
