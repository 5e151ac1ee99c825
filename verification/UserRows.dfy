/** From the rows of a result to users: `UsersRepository::getList` reads the columns by position. */
module UserRows {
  import opened Options
  import opened Decimals
  import opened Texts
  import opened Filters
  import opened SqlTexts
  import opened Users
  import opened UserQueries
  import opened UserTheorems
  import opened Timestamps

  datatype PgValue = PgValue(data: string, isNull: bool)

  type PgRow = seq<PgValue>

  /** A user with the ticks of the two timestamps. */
  datatype DatedUser = DatedUser(user: UserEntity, createdAt: int, updatedAt: int)

  /** `std::stoll` in base 10: blanks, an optional sign, digits; the rest is ignored. No digits, or a
      number outside of 64 bits, is an exception. */
  function Stoll(s: string): Option<int> {
    var t := s[LeadingSpaces(s)..];
    var u := if t != "" && (t[0] == '-' || t[0] == '+') then t[1..] else t;
    var k := LeadingDigits(u);
    if k == 0 then None
    else
      var v: int := if t[0] == '-' then -(Value(u[..k]) as int) else Value(u[..k]);
      if IsInt64(v) then Some(v) else None
  }

  /** How a timestamp is read, on a clock with p ticks a microsecond. */
  type Reader = string -> Option<int>

  function ReaderOf(p: nat): Reader {
    s => Parsed(p, s)
  }

  /** The user of one row, or None for an exception. */
  function UserOf(read: Reader, row: PgRow): Option<DatedUser>
    requires |row| >= 6
  {
    var id :- Stoll(row[0].data);
    var createdAt :- read(row[4].data);
    var updatedAt :- read(row[5].data);
    var picture := if row[2].isNull then None else Some(row[2].data);
    Some(DatedUser(UserEntity(id, Some(row[1].data), Some(row[3].data), None, picture), createdAt, updatedAt))
  }

  /** The users of all rows in order; the first exception is that of the call. */
  function UsersOf(read: Reader, rows: seq<PgRow>): Option<seq<DatedUser>>
    requires forall i :: 0 <= i < |rows| ==> |rows[i]| >= 6
  {
    if rows == [] then Some([])
    else
      var user :- UserOf(read, rows[0]);
      var users :- UsersOf(read, rows[1..]);
      Some([user] + users)
  }

  function After(users: seq<DatedUser>, rest: Option<seq<DatedUser>>): Option<seq<DatedUser>> {
    if rest.None? then None else Some(users + rest.value)
  }

  lemma NextUser(read: Reader, users: seq<DatedUser>, rows: seq<PgRow>, i: nat)
    requires i < |rows|
    requires forall j :: 0 <= j < |rows| ==> |rows[j]| >= 6
    ensures var user := UserOf(read, rows[i]);
            After(users, UsersOf(read, rows[i..]))
            == if user.None? then None else After(users + [user.value], UsersOf(read, rows[i + 1..]))
  {
    var user, rest := UserOf(read, rows[i]), UsersOf(read, rows[i + 1..]);
    assert rows[i..][0] == rows[i] && rows[i..][1..] == rows[i + 1..];
    if user.Some? && rest.Some? {
      assert users + [user.value] + rest.value == users + ([user.value] + rest.value);
    }
  }

  /** The loop over the rows; `read` is `parse_pg_timestamp`. */
  method ReadUsers(read: Reader, rows: seq<PgRow>) returns (out: Option<seq<DatedUser>>)
    requires forall i :: 0 <= i < |rows| ==> |rows[i]| >= 6
    ensures out == UsersOf(read, rows)
  {
    var users: seq<DatedUser> := [];
    assert rows[0..] == rows;
    for i := 0 to |rows|
      invariant After([], UsersOf(read, rows)) == After(users, UsersOf(read, rows[i..]))
    {
      NextUser(read, users, rows, i);
      var columns := rows[i];
      var id := Stoll(columns[0].data);
      if id.None? {
        return None;
      }
      var createdAt := read(columns[4].data);
      if createdAt.None? {
        return None;
      }
      var updatedAt := read(columns[5].data);
      if updatedAt.None? {
        return None;
      }
      var picture := if columns[2].isNull then None else Some(columns[2].data);
      var user := UserEntity(id.value, Some(columns[1].data), Some(columns[3].data), None, picture);
      users := users + [DatedUser(user, createdAt.value, updatedAt.value)];
    }
    assert UsersOf(read, rows).Some? ==> [] + UsersOf(read, rows).value == UsersOf(read, rows).value;
    assert rows[|rows|..] == [] && users + [] == users;
    return Some(users);
  }

  method UsersOfResult(p: nat, rows: seq<PgRow>) returns (out: Option<seq<DatedUser>>)
    requires forall i :: 0 <= i < |rows| ==> |rows[i]| >= 6
    ensures out == UsersOf(ReaderOf(p), rows)
  {
    out := ReadUsers(ReaderOf(p), rows);
  }

  // The rows a select returns

  /** The texts of a user's timestamps, by id. */
  type Dates = int -> (string, string)

  function TextValue(value: Option<string>): PgValue {
    if value.Some? then PgValue(value.value, false) else PgValue("", true)
  }

  /** The value of the named column. */
  function ColumnValue(row: Row, dates: Dates, column: string): PgValue {
    if column == "id" then PgValue(Show(row.id), false)
    else if column == "username" then PgValue(row.username, false)
    else if column == "picture" then TextValue(row.picture)
    else if column == "email" then TextValue(row.email)
    else if column == "password" then TextValue(row.password)
    else if column == "created_at" then PgValue(dates(row.id).0, false)
    else if column == "updated_at" then PgValue(dates(row.id).1, false)
    else PgValue("", true)
  }

  /** The selected columns of a row, in the order of the select. */
  function ResultRow(columns: seq<string>, row: Row, dates: Dates): (r: PgRow)
    ensures |r| == |columns|
  {
    seq(|columns|, i requires 0 <= i < |columns| => ColumnValue(row, dates, columns[i]))
  }

  function ResultRows(columns: seq<string>, rows: seq<Row>, dates: Dates): (r: seq<PgRow>)
    ensures |r| == |rows|
  {
    seq(|rows|, i requires 0 <= i < |rows| => ResultRow(columns, rows[i], dates))
  }

  /** Every 64-bit id is read back. */
  lemma StollOfShow(i: int)
    requires IsInt64(i)
    ensures Stoll(Show(i)) == Some(i)
  {
    var n: nat := if i < 0 then -i else i;
    DecThenRest(n, "");
    assert Dec(n) + "" == Dec(n);
    assert Dec(n)[..|Dec(n)|] == Dec(n);
    if i < 0 {
      assert Show(i)[1..] == Dec(n);
    }
    assert LeadingSpaces(Show(i)) == 0;
    assert Show(i)[0..] == Show(i);
  }

  /** Every column ends in the field of its name; a missing email becomes an empty one. */
  predicate Shows(read: Reader, row: Row, dates: Dates, got: DatedUser) {
    && got.user.id == row.id
    && got.user.username == Some(row.username)
    && got.user.picture == row.picture
    && got.user.email == (if row.email.Some? then row.email else Some(""))
    && got.user.password == None
    && read(dates(row.id).0) == Some(got.createdAt)
    && read(dates(row.id).1) == Some(got.updatedAt)
  }

  predicate HasDates(read: Reader, row: Row, dates: Dates) {
    read(dates(row.id).0).Some? && read(dates(row.id).1).Some?
  }

  predicate DatesReadable(read: Reader, rows: seq<Row>, dates: Dates) {
    forall i :: 0 <= i < |rows| ==> HasDates(read, rows[i], dates)
  }

  /** The row is shown by the user read for it, or a date can not be read. */
  predicate Converts(read: Reader, row: Row, dates: Dates, got: Option<DatedUser>) {
    (got.Some? <==> HasDates(read, row, dates)) && (got.Some? ==> Shows(read, row, dates, got.value))
  }

  lemma RowBecomesUser(read: Reader, f: UserListFilter, row: Row, dates: Dates)
    requires IsInt64(row.id)
    ensures |ListQuery(f).columns| == 6
    ensures Converts(read, row, dates, UserOf(read, ResultRow(ListQuery(f).columns, row, dates)))
  {
    StollOfShow(row.id);
    var r := ResultRow(LIST_FIELDS, row, dates);
    assert r[0] == ColumnValue(row, dates, "id");
    assert r[1] == ColumnValue(row, dates, "username");
    assert r[2] == ColumnValue(row, dates, "picture");
    assert r[3] == ColumnValue(row, dates, "email");
    assert r[4] == ColumnValue(row, dates, "created_at");
    assert r[5] == ColumnValue(row, dates, "updated_at");
  }

  /** The rows are shown by the users, one each, in order. */
  predicate ShowsAll(read: Reader, rows: seq<Row>, dates: Dates, users: seq<DatedUser>) {
    && |users| == |rows|
    && forall i :: 0 <= i < |rows| ==> Shows(read, rows[i], dates, users[i])
  }

  lemma ReadableConcat(read: Reader, row: Row, rows: seq<Row>, dates: Dates)
    ensures DatesReadable(read, [row] + rows, dates) <==> HasDates(read, row, dates) && DatesReadable(read, rows, dates)
  {
    assert ([row] + rows)[0] == row;
    forall i | 0 <= i < |rows|
      ensures rows[i] == ([row] + rows)[i + 1]
    {
    }
  }

  lemma {:induction false} AllConvert(read: Reader, rows: seq<Row>, dates: Dates, all: seq<PgRow>)
    requires |all| == |rows|
    requires forall i :: 0 <= i < |all| ==> |all[i]| >= 6
    requires forall i :: 0 <= i < |rows| ==> Converts(read, rows[i], dates, UserOf(read, all[i]))
    ensures UsersOf(read, all).Some? <==> DatesReadable(read, rows, dates)
    ensures UsersOf(read, all).Some? ==> ShowsAll(read, rows, dates, UsersOf(read, all).value)
  {
    if rows != [] {
      assert Converts(read, rows[0], dates, UserOf(read, all[0]));
      AllConvert(read, rows[1..], dates, all[1..]);
      ReadableConcat(read, rows[0], rows[1..], dates);
      assert [rows[0]] + rows[1..] == rows;
    }
  }

  /** One user a row, in order, or an exception iff a date can not be read. */
  lemma RowsBecomeUsers(read: Reader, f: UserListFilter, rows: seq<Row>, dates: Dates)
    requires forall i :: 0 <= i < |rows| ==> IsInt64(rows[i].id)
    ensures |ListQuery(f).columns| == 6
    ensures var got := UsersOf(read, ResultRows(ListQuery(f).columns, rows, dates));
            && (got.Some? <==> DatesReadable(read, rows, dates))
            && (got.Some? ==> ShowsAll(read, rows, dates, got.value))
  {
    var columns := ListQuery(f).columns;
    var all := ResultRows(columns, rows, dates);
    assert |columns| == 6 by {
      assert columns == LIST_FIELDS;
    }
    forall i | 0 <= i < |rows|
      ensures Converts(read, rows[i], dates, UserOf(read, all[i]))
    {
      RowBecomesUser(read, f, rows[i], dates);
      assert all[i] == ResultRow(columns, rows[i], dates);
    }
    AllConvert(read, rows, dates, all);
  }

  /** `getList` from filters to users: those of the page of the filtered listing, in order. */
  lemma ListReturnsUsers(read: Reader, fold: Fold, f: UserListFilter, table: seq<Row>, dates: Dates)
      returns (full: seq<Row>)
    requires Int64Ids(f) && UniqueIds(table) && Sendable(f) && InInt4(f.limit) && InInt4(f.offset)
    requires forall i :: 0 <= i < |table| ==> IsInt64(table[i].id)
    requires DatesReadable(read, table, dates)
    ensures Listing(fold, f, table, full) && |ListQuery(f).columns| == 6
    ensures var rows := Selected(fold, ListQuery(f), ListParams(f), table);
            && rows == Some(Page(full, f.offset, f.limit))
            && var users := UsersOf(read, ResultRows(ListQuery(f).columns, rows.value, dates));
               users.Some? && ShowsAll(read, rows.value, dates, users.value)
  {
    full := ListReturnsPage(fold, f, table);
    var rows := Page(full, f.offset, f.limit);
    forall i | 0 <= i < |rows|
      ensures rows[i] in table
    {
      assert rows[i] in full;
    }
    RowsBecomeUsers(read, f, rows, dates);
  }
}
