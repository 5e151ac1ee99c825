/** What the repository's statements mean: reading their SQL text and running it on a table of users
    gives the filtered, ordered page, or the updated row. */
module UserQueries {
  import opened Options
  import opened Decimals
  import opened Filters
  import opened SqlBuilders
  import opened SqlTexts
  import opened PgArrays
  import opened ArrayLiterals
  import opened Users

  datatype Row = Row(
    id: int, username: string, picture: Option<string>, email: Option<string>, password: Option<string>)

  /** Column values; `email` has the case-insensitive type. */
  datatype Cell = Null | Integer(n: int) | Words(s: string) | CaseBlind(s: string)

  /** How the server folds case in case-insensitive columns; it depends on the collation. */
  type Fold = string -> string

  function Nullable(value: Option<string>): Cell {
    if value.Some? then Words(value.value) else Null
  }

  function CellOf(row: Row, column: string): Option<Cell> {
    if column == "id" then Some(Integer(row.id))
    else if column == "username" then Some(Words(row.username))
    else if column == "picture" then Some(Nullable(row.picture))
    else if column == "email" then Some(if row.email.Some? then CaseBlind(row.email.value) else Null)
    else if column == "password" then Some(Nullable(row.password))
    else None
  }

  // Conditions

  /** A decimal 64-bit number; anything else is an error. */
  function ReadBigint(t: string): Option<int> {
    var negative := t != "" && t[0] == '-';
    var digits := if negative then t[1..] else t;
    if digits == "" || !AllDigits(digits) then None
    else
      var v := if negative then -(Value(digits) as int) else Value(digits);
      if IsInt64(v) then Some(v) else None
  }

  function Param(params: seq<string>, k: nat): string
    requires 1 <= k <= |params|
  {
    CString(params[k - 1])
  }

  predicate BigintElements(elements: seq<Option<string>>) {
    forall i :: 0 <= i < |elements| ==> elements[i].Some? ==> ReadBigint(elements[i].value).Some?
  }

  /** The condition names a known column, and its parameter can be read at the column's type. */
  predicate Readable(c: Condition, params: seq<string>) {
    && 1 <= c.slot <= |params|
    && c.column in ["id", "username", "picture", "email", "password"]
    && match c
       case Equals(column, k) => column == "id" ==> ReadBigint(Param(params, k)).Some?
       case AnyOf(column, k, cast) =>
         && cast == (if column == "id" then "bigint" else "text")
         && ReadArray(Param(params, k)).Some?
         && (column == "id" ==> BigintElements(ReadArray(Param(params, k)).value))
  }

  predicate CellEquals(fold: Fold, cell: Cell, text: string) {
    match cell
    case Null => false
    case Integer(n) => ReadBigint(text) == Some(n)
    case Words(s) => s == text
    case CaseBlind(s) => fold(s) == fold(text)
  }

  ghost predicate Holds(fold: Fold, c: Condition, params: seq<string>, row: Row) {
    && Readable(c, params)
    && CellOf(row, c.column).Some?
    && match c
       case Equals(column, k) => CellEquals(fold, CellOf(row, column).value, Param(params, k))
       case AnyOf(column, k, _) =>
         var elements := ReadArray(Param(params, k)).value;
         exists i :: 0 <= i < |elements| && elements[i].Some?
             && CellEquals(fold, CellOf(row, column).value, elements[i].value)
  }

  ghost predicate AllHold(fold: Fold, cs: seq<Condition>, params: seq<string>, row: Row) {
    forall i :: 0 <= i < |cs| ==> Holds(fold, cs[i], params, row)
  }

  predicate AllReadable(cs: seq<Condition>, params: seq<string>) {
    forall i :: 0 <= i < |cs| ==> Readable(cs[i], params)
  }

  // Running a select

  ghost function Matching(fold: Fold, cs: seq<Condition>, params: seq<string>, table: seq<Row>): seq<Row> {
    if table == [] then []
    else (if AllHold(fold, cs, params, table[0]) then [table[0]] else []) + Matching(fold, cs, params, table[1..])
  }

  function InsertById(r: Row, rows: seq<Row>): seq<Row> {
    if rows == [] || r.id <= rows[0].id then [r] + rows else [rows[0]] + InsertById(r, rows[1..])
  }

  function SortById(rows: seq<Row>): seq<Row> {
    if rows == [] then [] else InsertById(rows[0], SortById(rows[1..]))
  }

  /** `$k::int`: an error outside the non-negative 32-bit range. */
  predicate CountReadable(slot: Option<nat>, params: seq<string>) {
    slot.Some? ==>
      && 1 <= slot.value <= |params|
      && var v := ReadBigint(Param(params, slot.value)); v.Some? && 0 <= v.value < 0x8000_0000
  }

  function CountOf(slot: Option<nat>, params: seq<string>): Option<nat>
    requires CountReadable(slot, params)
  {
    if slot.None? then None else Some(ReadBigint(Param(params, slot.value)).value)
  }

  function Page(rows: seq<Row>, offset: Option<nat>, limit: Option<nat>): seq<Row> {
    var from := if offset.Some? && offset.value <= |rows| then offset.value else if offset.Some? then |rows| else 0;
    var rest := rows[from..];
    if limit.Some? && limit.value <= |rest| then rest[..limit.value] else rest
  }

  /** The rows a select returns, or None for an error of the server. */
  ghost function Selected(fold: Fold, q: Query, params: seq<string>, table: seq<Row>): Option<seq<Row>>
    requires q.SelectQuery?
  {
    if !AllReadable(q.conditions, params) || !CountReadable(q.limit, params)
        || !CountReadable(q.offset, params) then None
    else
      var rows := Matching(fold, q.conditions, params, table);
      var ordered := if q.order == Some("id") then SortById(rows) else rows;
      Some(Page(ordered, CountOf(q.offset, params), CountOf(q.limit, params)))
  }

  // The filter specification

  predicate Satisfies(fold: Fold, f: UserListFilter, row: Row) {
    && (f.id.Some? ==> row.id == f.id.value)
    && (f.idIn.Some? && f.idIn.value != [] ==> row.id in f.idIn.value)
    && (f.username.Some? ==> row.username == f.username.value)
    && (f.usernameIn.Some? && f.usernameIn.value != [] ==> row.username in f.usernameIn.value)
    && (f.email.Some? ==> row.email.Some? && fold(row.email.value) == fold(f.email.value))
  }

  ghost predicate IdIncreasing(rows: seq<Row>) {
    forall i, j :: 0 <= i < j < |rows| ==> rows[i].id < rows[j].id
  }

  /** All rows that satisfy the filters, once each, by increasing id. */
  ghost predicate Listing(fold: Fold, f: UserListFilter, table: seq<Row>, full: seq<Row>) {
    IdIncreasing(full) && forall row :: row in full <==> row in table && Satisfies(fold, f, row)
  }

  // The filters as the server gets them

  /** A list of names as the server reads it, or None if it can not. */
  function NamesRead(names: seq<string>): Option<seq<Option<string>>> {
    ReadArray(CString(ArrayText(names)))
  }

  predicate Understood(f: UserListFilter) {
    f.usernameIn.Some? && f.usernameIn.value != [] ==> NamesRead(f.usernameIn.value).Some?
  }

  /** What the filters mean to the server: texts end at a NUL character, and a list of names is what its
      array constant is read as. */
  predicate AsSent(fold: Fold, f: UserListFilter, row: Row) {
    && (f.id.Some? ==> row.id == f.id.value)
    && (f.idIn.Some? && f.idIn.value != [] ==> row.id in f.idIn.value)
    && (f.username.Some? ==> row.username == CString(f.username.value))
    && (f.usernameIn.Some? && f.usernameIn.value != [] ==>
          NamesRead(f.usernameIn.value).Some? && Some(row.username) in NamesRead(f.usernameIn.value).value)
    && (f.email.Some? ==> row.email.Some? && fold(row.email.value) == fold(CString(f.email.value)))
  }

  ghost predicate SentListing(fold: Fold, f: UserListFilter, table: seq<Row>, full: seq<Row>) {
    IdIncreasing(full) && forall row :: row in full <==> row in table && AsSent(fold, f, row)
  }

  ghost predicate UniqueIds(table: seq<Row>) {
    forall i, j :: 0 <= i < j < |table| ==> table[i].id != table[j].id
  }

  /** The ids are of the 64-bit type. */
  predicate Int64Ids(f: UserListFilter) {
    && (f.id.Some? ==> IsInt64(f.id.value))
    && (f.idIn.Some? ==> forall i :: 0 <= i < |f.idIn.value| ==> IsInt64(f.idIn.value[i]))
  }

  /** The server understands the filters as they were meant. */
  predicate Sendable(f: UserListFilter) {
    && (f.username.Some? ==> '\0' !in f.username.value)
    && (f.email.Some? ==> '\0' !in f.email.value)
    && (f.usernameIn.Some? ==> forall i :: 0 <= i < |f.usernameIn.value| ==> Plain(f.usernameIn.value[i]))
  }

  predicate InInt4(n: Option<nat>) {
    n.Some? ==> n.value < 0x8000_0000
  }

  // Parameters are read as they were printed

  lemma ReadsBigint(i: int)
    requires IsInt64(i)
    ensures CString(Show(i)) == Show(i) && ReadBigint(Show(i)) == Some(i)
  {
    var n: nat := if i < 0 then -i else i;
    ValueOfDec(n);
    ShownIsPlain(i);
    if i < 0 {
      assert Show(i)[1..] == Dec(n);
    } else {
      assert Show(i) == Dec(n) && IsDigit(Show(i)[0]);
    }
  }

  lemma ShownIdsArePlain(ids: seq<int>)
    requires forall i :: 0 <= i < |ids| ==> IsInt64(ids[i])
    ensures forall i :: 0 <= i < |ids| ==> Plain(Shown(ids)[i]) && ReadBigint(Shown(ids)[i]) == Some(ids[i])
  {
    forall i | 0 <= i < |ids|
      ensures Plain(Shown(ids)[i]) && ReadBigint(Shown(ids)[i]) == Some(ids[i])
    {
      ShownIsPlain(ids[i]);
      ReadsBigint(ids[i]);
    }
  }

  lemma ReadsIds(ids: seq<int>)
    requires ids != [] && forall i :: 0 <= i < |ids| ==> IsInt64(ids[i])
    ensures NamesRead(Shown(ids)) == Some(Present(Shown(ids))) && BigintElements(Present(Shown(ids)))
  {
    ShownIdsArePlain(ids);
    PlainListReadsBack(Shown(ids));
  }

  lemma IdIsRead(ids: seq<int>, n: int)
    requires forall i :: 0 <= i < |ids| ==> IsInt64(ids[i])
    ensures var elements := Present(Shown(ids));
            n in ids
            <==> exists i ::
              0 <= i < |elements| && elements[i].Some? && ReadBigint(elements[i].value) == Some(n)
  {
    ShownIdsArePlain(ids);
    var elements := Present(Shown(ids));
    if n in ids {
      var i :| 0 <= i < |ids| && ids[i] == n;
      assert elements[i] == Some(Shown(ids)[i]);
    }
  }

  // Each filter adds its own meaning

  ghost predicate Means(fold: Fold, d: Draft, p: Row -> bool) {
    && AllReadable(d.conditions, d.params)
    && forall row :: AllHold(fold, d.conditions, d.params, row) <==> p(row)
  }

  lemma ParamsGrow(fold: Fold, cs: seq<Condition>, params: seq<string>, more: seq<string>)
    requires AllReadable(cs, params)
    ensures AllReadable(cs, params + more)
    ensures forall row :: AllHold(fold, cs, params + more, row) <==> AllHold(fold, cs, params, row)
  {
    forall i | 0 <= i < |cs|
      ensures Readable(cs[i], params + more)
      ensures forall row :: Holds(fold, cs[i], params + more, row) <==> Holds(fold, cs[i], params, row)
    {
      assert Readable(cs[i], params);
      assert (params + more)[cs[i].slot - 1] == params[cs[i].slot - 1];
    }
  }

  lemma ConditionMeans(fold: Fold, d: Draft, p: Row -> bool, c: Condition, value: string, q: Row -> bool)
    requires Means(fold, d, p) && Readable(c, d.params + [value])
    requires forall row :: Holds(fold, c, d.params + [value], row) <==> q(row)
    ensures Means(fold, Draft(d.conditions + [c], d.params + [value]), row => p(row) && q(row))
  {
    var cs, params := d.conditions + [c], d.params + [value];
    ParamsGrow(fold, d.conditions, d.params, [value]);
    forall row
      ensures AllHold(fold, cs, params, row) <==> p(row) && q(row)
    {
      assert AllHold(fold, d.conditions, params, row) <==> p(row);
      if AllHold(fold, cs, params, row) {
        forall i | 0 <= i < |d.conditions| ensures Holds(fold, d.conditions[i], params, row) {
          assert cs[i] == d.conditions[i];
        }
        assert cs[|d.conditions|] == c;
      }
    }
  }

  lemma EqualsMeans(fold: Fold, d: Draft, p: Row -> bool, column: string, value: Option<string>, q: Row -> bool)
    requires Means(fold, d, p)
    requires column in ["id", "username", "email"]
    requires value.Some? && column == "id" ==> ReadBigint(CString(value.value)).Some?
    requires forall row ::
               q(row) <==> (value.Some? ==> CellEquals(fold, CellOf(row, column).value, CString(value.value)))
    ensures Means(fold, EqualsIf(d, column, value), row => p(row) && q(row))
  {
    if value.Some? {
      var c := Equals(column, |d.params| + 1);
      var params := d.params + [value.value];
      assert params[|d.params|] == value.value && Param(params, |d.params| + 1) == CString(value.value);
      ConditionMeans(fold, d, p, c, value.value, q);
    }
  }

  lemma AnyOfMeans(fold: Fold, d: Draft, p: Row -> bool, column: string, cast: string, values: Option<seq<string>>,
          q: Row -> bool)
    requires Means(fold, d, p)
    requires (column == "id" && cast == "bigint") || (column == "username" && cast == "text")
    requires values.Some? && values.value != [] ==>
               var elements := NamesRead(values.value);
               elements.Some? && (column == "id" ==> BigintElements(elements.value))
    requires forall row :: q(row) <==>
               (values.Some? && values.value != [] ==>
                  var elements := NamesRead(values.value).value;
                  exists i :: 0 <= i < |elements| && elements[i].Some?
                      && CellEquals(fold, CellOf(row, column).value, elements[i].value))
    ensures Means(fold, AnyOfIf(d, column, cast, values), row => p(row) && q(row))
  {
    if values.Some? && values.value != [] {
      var c := AnyOf(column, |d.params| + 1, cast);
      var text := ArrayText(values.value);
      var params := d.params + [text];
      assert Param(params, |d.params| + 1) == CString(text);
      forall row
        ensures Holds(fold, c, params, row) <==> q(row)
      {
      }
      ConditionMeans(fold, d, p, c, text, q);
    }
  }
}
