/** The repository's statements do what their callers ask for. */
module UserTheorems {
  import opened Options
  import opened Decimals
  import opened Filters
  import opened SqlBuilders
  import opened SqlTexts
  import opened PgArrays
  import opened ArrayLiterals
  import opened ArrayNames
  import opened Users
  import opened UserQueries

  // The conditions of the list query are the filters

  predicate ListsHold(f: UserListFilter, row: Row) {
    && (f.id.Some? ==> row.id == f.id.value)
    && (f.idIn.Some? && f.idIn.value != [] ==> row.id in f.idIn.value)
    && (f.usernameIn.Some? && f.usernameIn.value != [] ==>
          NamesRead(f.usernameIn.value).Some? && Some(row.username) in NamesRead(f.usernameIn.value).value)
  }

  function IdsDraft(f: UserListFilter): Draft {
    AnyOfIf(EqualsIf(Draft([], []), "id", ShownId(f.id)), "id", "bigint", ShownIds(f.idIn))
  }

  function ListsDraft(f: UserListFilter): Draft {
    AnyOfIf(IdsDraft(f), "username", "text", f.usernameIn)
  }

  lemma ListsMean(fold: Fold, f: UserListFilter)
    requires Int64Ids(f) && Understood(f)
    ensures Means(fold, ListsDraft(f), (row: Row) => ListsHold(f, row))
  {
    var q1: Row -> bool := (row: Row) => f.id.Some? ==> row.id == f.id.value;
    var q2: Row -> bool := (row: Row) => f.idIn.Some? && f.idIn.value != [] ==> row.id in f.idIn.value;
    var q3: Row -> bool := (row: Row) => f.usernameIn.Some? && f.usernameIn.value != [] ==>
      NamesRead(f.usernameIn.value).Some? && Some(row.username) in NamesRead(f.usernameIn.value).value;
    var p0: Row -> bool := (row: Row) => true;
    var p1: Row -> bool := (row: Row) => p0(row) && q1(row);
    var p2: Row -> bool := (row: Row) => p1(row) && q2(row);
    var d0 := Draft([], []);
    assert Means(fold, d0, p0);
    IdMeans(fold, d0, p0, f, q1);
    var d1 := EqualsIf(d0, "id", ShownId(f.id));
    IdsMean(fold, d1, p1, f, q2);
    NamesMean(fold, IdsDraft(f), p2, f, q3);
    Conjunction(fold, ListsDraft(f), p2, q3, (row: Row) => ListsHold(f, row));
  }

  lemma ListDraftMeans(fold: Fold, f: UserListFilter)
    requires Int64Ids(f) && Understood(f)
    ensures Means(fold, ListDraft(f), row => AsSent(fold, f, row))
  {
    var q4: Row -> bool := (row: Row) => f.username.Some? ==> row.username == CString(f.username.value);
    var q5: Row -> bool := (row: Row) =>
      f.email.Some? ==> row.email.Some? && fold(row.email.value) == fold(CString(f.email.value));
    var p3: Row -> bool := (row: Row) => ListsHold(f, row);
    var p4: Row -> bool := (row: Row) => p3(row) && q4(row);
    ListsMean(fold, f);
    EqualsMeans(fold, ListsDraft(f), p3, "username", f.username, q4);
    var d4 := EqualsIf(ListsDraft(f), "username", f.username);
    EqualsMeans(fold, d4, p4, "email", f.email, q5);
    Conjunction(fold, ListDraft(f), p4, q5, row => AsSent(fold, f, row));
  }

  lemma Conjunction(fold: Fold, d: Draft, p: Row -> bool, q: Row -> bool, r: Row -> bool)
    requires Means(fold, d, row => p(row) && q(row))
    requires forall row :: r(row) <==> p(row) && q(row)
    ensures Means(fold, d, r)
  {
  }

  lemma IdMeans(fold: Fold, d: Draft, p: Row -> bool, f: UserListFilter, q: Row -> bool)
    requires Means(fold, d, p) && Int64Ids(f)
    requires forall row :: q(row) <==> (f.id.Some? ==> row.id == f.id.value)
    ensures Means(fold, EqualsIf(d, "id", ShownId(f.id)), row => p(row) && q(row))
  {
    if f.id.Some? {
      ReadsBigint(f.id.value);
      ShownIsPlain(f.id.value);
    }
    EqualsMeans(fold, d, p, "id", ShownId(f.id), q);
  }

  lemma IdsMean(fold: Fold, d: Draft, p: Row -> bool, f: UserListFilter, q: Row -> bool)
    requires Means(fold, d, p) && Int64Ids(f)
    requires forall row :: q(row) <==> (f.idIn.Some? && f.idIn.value != [] ==> row.id in f.idIn.value)
    ensures Means(fold, AnyOfIf(d, "id", "bigint", ShownIds(f.idIn)), row => p(row) && q(row))
  {
    if f.idIn.Some? && f.idIn.value != [] {
      ReadsIds(f.idIn.value);
      forall row: Row
        ensures row.id in f.idIn.value
                <==> var elements := Present(Shown(f.idIn.value));
                     exists i :: 0 <= i < |elements| && elements[i].Some?
                         && CellEquals(fold, Integer(row.id), elements[i].value)
      {
        IdIsRead(f.idIn.value, row.id);
      }
    }
    AnyOfMeans(fold, d, p, "id", "bigint", ShownIds(f.idIn), q);
  }

  lemma NamesMean(fold: Fold, d: Draft, p: Row -> bool, f: UserListFilter, q: Row -> bool)
    requires Means(fold, d, p) && Understood(f)
    requires forall row :: q(row) <==>
               (f.usernameIn.Some? && f.usernameIn.value != [] ==>
                  NamesRead(f.usernameIn.value).Some? && Some(row.username) in NamesRead(f.usernameIn.value).value)
    ensures Means(fold, AnyOfIf(d, "username", "text", f.usernameIn), row => p(row) && q(row))
  {
    if f.usernameIn.Some? && f.usernameIn.value != [] {
      var elements := NamesRead(f.usernameIn.value).value;
      forall row: Row
        ensures Some(row.username) in elements
                <==> exists i ::
                  0 <= i < |elements| && elements[i].Some? && CellEquals(fold, Words(row.username), elements[i].value)
      {
        NameIsRead(fold, elements, row.username);
      }
    }
    AnyOfMeans(fold, d, p, "username", "text", f.usernameIn, q);
  }

  lemma NameIsRead(fold: Fold, elements: seq<Option<string>>, name: string)
    ensures Some(name) in elements
            <==> exists i ::
              0 <= i < |elements| && elements[i].Some? && CellEquals(fold, Words(name), elements[i].value)
  {
    if Some(name) in elements {
      var i :| 0 <= i < |elements| && elements[i] == Some(name);
      assert CellEquals(fold, Words(name), elements[i].value);
    }
  }

  lemma HeldNameIsRead(fold: Fold, names: seq<string>, row: Row)
    requires Holds(fold, AnyOf("username", 1, "text"), [ArrayText(names)], row)
    ensures NamesRead(names).Some? && Some(row.username) in NamesRead(names).value
  {
    var text := ArrayText(names);
    assert Param([text], 1) == CString(text);
    var elements := ReadArray(CString(text)).value;
    var i :| 0 <= i < |elements| && elements[i].Some? && CellEquals(fold, Words(row.username), elements[i].value);
  }

  lemma PlainNamesHold(fold: Fold, names: seq<string>, row: Row)
    requires names != [] && forall i :: 0 <= i < |names| ==> Plain(names[i])
    ensures Holds(fold, AnyOf("username", 1, "text"), [ArrayText(names)], row) <==> row.username in names
  {
    PlainListReadsBack(names);
    assert Param([ArrayText(names)], 1) == CString(ArrayText(names));
    var elements := ReadArray(CString(ArrayText(names))).value;
    if row.username in names {
      var i :| 0 <= i < |names| && names[i] == row.username;
      assert elements[i].Some? && CellEquals(fold, Words(row.username), elements[i].value);
    }
  }

  /** The condition that a list of names gives holds of the rows with one of the names, and of no others. */
  ghost predicate SelectsExactly(fold: Fold, names: seq<string>) {
    forall row ::
      Holds(fold, AnyOf("username", 1, "text"), [ArrayText(names)], row) <==> row.username in names
  }

  /** Exactly when a filter by a list of names selects the rows with these names and no others, whatever
      the names are: when all of them are plain. With any other name in the list a row of that name is missed. */
  lemma NamesFilterIff(fold: Fold, names: seq<string>)
    requires names != []
    ensures SelectsExactly(fold, names) <==> forall i :: 0 <= i < |names| ==> Plain(names[i])
  {
    if forall i :: 0 <= i < |names| ==> Plain(names[i]) {
      forall row: Row
        ensures Holds(fold, AnyOf("username", 1, "text"), [ArrayText(names)], row) <==> row.username in names
      {
        PlainNamesHold(fold, names, row);
      }
    } else if SelectsExactly(fold, names) {
      forall i | 0 <= i < |names|
        ensures NamesRead(names).Some? && Some(names[i]) in NamesRead(names).value
      {
        HeldNameIsRead(fold, names, Row(0, names[i], None, None, None));
      }
      FoundNamesArePlain(names);
    }
  }

  /** Exactly when a filter by one name selects the rows of that name: when it has no NUL character.
      Otherwise the rows named by what comes before it are selected. */
  lemma UsernameFilterIff(fold: Fold, name: string)
    ensures (forall row :: Holds(fold, Equals("username", 1), [name], row) <==> row.username == name) <==> '\0' !in name
  {
    assert Param([name], 1) == CString(name);
    if '\0' in name {
      var row := Row(0, CString(name), None, None, None);
      assert Holds(fold, Equals("username", 1), [name], row) && row.username != name;
    }
  }

  /** Exactly when a filter by an email address selects the rows of that address, whatever its case: when
      cutting it at a NUL character is no difference to the case-insensitive type. */
  lemma EmailFilterIff(fold: Fold, email: string)
    ensures (forall row ::
               Holds(fold, Equals("email", 1), [email], row)
               <==> row.email.Some? && fold(row.email.value) == fold(email))
            <==> fold(CString(email)) == fold(email)
  {
    assert Param([email], 1) == CString(email);
    if fold(CString(email)) != fold(email) {
      var row := Row(0, "", None, Some(CString(email)), None);
      assert Holds(fold, Equals("email", 1), [email], row) && fold(row.email.value) != fold(email);
    }
  }

  /** Sendable filters are understood as they were meant. */
  lemma SendableIsMeant(fold: Fold, f: UserListFilter, row: Row)
    requires Sendable(f)
    ensures Understood(f) && (AsSent(fold, f, row) <==> Satisfies(fold, f, row))
  {
    if f.usernameIn.Some? && f.usernameIn.value != [] {
      var names := f.usernameIn.value;
      PlainListReadsBack(names);
      if row.username in names {
        var i :| 0 <= i < |names| && names[i] == row.username;
        assert Present(names)[i] == Some(row.username);
      }
    }
  }

  // Selection and order

  lemma {:induction false} MatchingRows(fold: Fold, cs: seq<Condition>, params: seq<string>, table: seq<Row>)
    ensures var rows := Matching(fold, cs, params, table);
            && (forall row :: row in rows <==> row in table && AllHold(fold, cs, params, row))
            && (UniqueIds(table) ==> UniqueIds(rows))
  {
    if table != [] {
      MatchingRows(fold, cs, params, table[1..]);
      var rest := Matching(fold, cs, params, table[1..]);
      if UniqueIds(table) {
        assert UniqueIds(table[1..]);
        forall i | 0 <= i < |rest|
          ensures table[0].id != rest[i].id
        {
          assert rest[i] in table[1..];
        }
      }
    }
  }

  lemma {:induction false} InsertKeepsOrder(r: Row, rows: seq<Row>)
    requires IdIncreasing(rows) && forall i :: 0 <= i < |rows| ==> rows[i].id != r.id
    ensures IdIncreasing(InsertById(r, rows))
    ensures forall row :: row in InsertById(r, rows) <==> row == r || row in rows
  {
    if rows != [] && r.id > rows[0].id {
      InsertKeepsOrder(r, rows[1..]);
      var t := InsertById(r, rows[1..]);
      forall i | 0 <= i < |t|
        ensures rows[0].id < t[i].id
      {
        assert t[i] in t;
      }
    }
  }

  lemma {:induction false} SortOrders(rows: seq<Row>)
    requires UniqueIds(rows)
    ensures IdIncreasing(SortById(rows))
    ensures forall row :: row in SortById(rows) <==> row in rows
  {
    if rows != [] {
      SortOrders(rows[1..]);
      var t := SortById(rows[1..]);
      forall i | 0 <= i < |t|
        ensures t[i].id != rows[0].id
      {
        assert t[i] in rows[1..];
      }
      InsertKeepsOrder(rows[0], t);
    }
  }

  // The list query

  lemma CountsMean(f: UserListFilter)
    ensures var q, params := ListQuery(f), ListParams(f);
            && (CountReadable(q.limit, params) <==> InInt4(f.limit))
            && (CountReadable(q.offset, params) <==> InInt4(f.offset))
            && (InInt4(f.limit) ==> CountOf(q.limit, params) == f.limit)
            && (InInt4(f.offset) ==> CountOf(q.offset, params) == f.offset)
  {
    var q, params := ListQuery(f), ListParams(f);
    if f.limit.Some? {
      assert params[q.limit.value - 1] == Dec(f.limit.value);
      CountReads(f.limit.value);
    }
    if f.offset.Some? {
      assert params[q.offset.value - 1] == Dec(f.offset.value);
      CountReads(f.offset.value);
    }
  }

  lemma CountReads(n: nat)
    ensures var v := ReadBigint(CString(Dec(n)));
            && (n < 0x8000_0000 ==> v == Some(n))
            && (v.Some? && 0 <= v.value < 0x8000_0000 ==> n < 0x8000_0000)
  {
    ValueOfDec(n);
    assert IsDigit(Dec(n)[0]);
    assert '\0' !in Dec(n);
  }

  /** `getList`: for any filters the SQL it writes is read as the list query, and running it on a table with
      unique ids returns the rows that satisfy all given filters as the server gets them (an empty list
      restricts nothing), by increasing id, after offset and limit; for sendable filters these are the rows
      that were meant. A list of names that can not be read, and a limit or offset outside the 32-bit
      range, are errors of the server instead. */
  lemma ListReturnsPage(fold: Fold, f: UserListFilter, table: seq<Row>) returns (full: seq<Row>)
    requires Int64Ids(f) && UniqueIds(table)
    ensures Read(Text(ListQuery(f))) == Some(ListQuery(f))
    ensures Understood(f) ==> SentListing(fold, f, table, full)
    ensures Sendable(f) ==> Understood(f) && Listing(fold, f, table, full)
    ensures Selected(fold, ListQuery(f), ListParams(f), table)
            == if Understood(f) && InInt4(f.limit) && InInt4(f.offset) then Some(Page(full, f.offset, f.limit))
               else None
  {
    ListQueryIsWellFormed(f);
    ReadInvertsText(ListQuery(f));
    full := FullList(fold, f, table);
    ListSelects(fold, f, table);
    if Understood(f) {
      MatchingLists(fold, f, table);
    }
    if Sendable(f) {
      SendableLists(fold, f, table, full);
    }
  }

  ghost function FullList(fold: Fold, f: UserListFilter, table: seq<Row>): seq<Row> {
    SortById(Matching(fold, ListDraft(f).conditions, ListParams(f), table))
  }

  lemma ListSelects(fold: Fold, f: UserListFilter, table: seq<Row>)
    requires Int64Ids(f)
    ensures Selected(fold, ListQuery(f), ListParams(f), table)
            == if !Understood(f) || !InInt4(f.limit) || !InInt4(f.offset) then None
               else Some(Page(FullList(fold, f, table), f.offset, f.limit))
  {
    CountsMean(f);
    if Understood(f) {
      ConditionsMeanFilters(fold, f);
    } else {
      UnreadableList(f);
    }
  }

  lemma SendableLists(fold: Fold, f: UserListFilter, table: seq<Row>, full: seq<Row>)
    requires Sendable(f) && (Understood(f) ==> SentListing(fold, f, table, full))
    ensures Understood(f) && Listing(fold, f, table, full)
  {
    SendableIsMeant(fold, f, Row(0, "", None, None, None));
    forall row
      ensures AsSent(fold, f, row) <==> Satisfies(fold, f, row)
    {
      SendableIsMeant(fold, f, row);
    }
  }

  lemma ConditionsMeanFilters(fold: Fold, f: UserListFilter)
    requires Int64Ids(f) && Understood(f)
    ensures AllReadable(ListDraft(f).conditions, ListParams(f))
    ensures forall row :: AllHold(fold, ListDraft(f).conditions, ListParams(f), row) <==> AsSent(fold, f, row)
  {
    var d := ListDraft(f);
    ListDraftMeans(fold, f);
    var more := CountParam(f.limit) + CountParam(f.offset);
    assert ListParams(f) == d.params + more;
    ParamsGrow(fold, d.conditions, d.params, more);
  }

  lemma MatchingLists(fold: Fold, f: UserListFilter, table: seq<Row>)
    requires Int64Ids(f) && Understood(f) && UniqueIds(table)
    ensures SentListing(fold, f, table, FullList(fold, f, table))
  {
    ConditionsMeanFilters(fold, f);
    MatchingRows(fold, ListDraft(f).conditions, ListParams(f), table);
    SortOrders(Matching(fold, ListDraft(f).conditions, ListParams(f), table));
  }

  lemma GrowsBy(d: Draft, column: string, value: Option<string>)
    ensures d.conditions <= EqualsIf(d, column, value).conditions && d.params <= EqualsIf(d, column, value).params
  {
  }

  lemma UnreadableList(f: UserListFilter)
    requires !Understood(f)
    ensures !AllReadable(ListDraft(f).conditions, ListParams(f))
  {
    var d, text := IdsDraft(f), ArrayText(f.usernameIn.value);
    var c := AnyOf("username", |d.params| + 1, "text");
    var lists := ListsDraft(f);
    assert lists == Draft(d.conditions + [c], d.params + [text]);
    GrowsBy(lists, "username", f.username);
    GrowsBy(EqualsIf(lists, "username", f.username), "email", f.email);
    assert lists.conditions <= ListDraft(f).conditions && lists.params <= ListDraft(f).params <= ListParams(f);
    assert ListDraft(f).conditions[|d.conditions|] == lists.conditions[|d.conditions|] == c;
    assert ListParams(f)[|d.params|] == lists.params[|d.params|] == text;
    assert Param(ListParams(f), |d.params| + 1) == CString(text);
    assert !Readable(c, ListParams(f));
  }

  ghost predicate DraftNames(d: Draft) {
    forall i :: 0 <= i < |d.conditions| ==> NamesIn(d.conditions[i])
  }

  lemma EqualsIfNames(d: Draft, column: string, value: Option<string>)
    requires DraftNames(d) && IsName(column)
    ensures DraftNames(EqualsIf(d, column, value))
  {
  }

  lemma AnyOfIfNames(d: Draft, column: string, cast: string, values: Option<seq<string>>)
    requires DraftNames(d) && IsName(column) && IsName(cast)
    ensures DraftNames(AnyOfIf(d, column, cast, values))
  {
  }

  lemma ColumnNames()
    ensures IsName("id") && IsName("username") && IsName("email") && IsName("bigint") && IsName("text")
            && IsName("users")
    ensures IsName("picture") && IsName("password") && IsName("created_at") && IsName("updated_at")
  {
  }

  lemma ListDraftNames(f: UserListFilter)
    ensures DraftNames(ListDraft(f))
  {
    ColumnNames();
    var d1 := EqualsIf(Draft([], []), "id", ShownId(f.id));
    EqualsIfNames(Draft([], []), "id", ShownId(f.id));
    var d2 := AnyOfIf(d1, "id", "bigint", ShownIds(f.idIn));
    AnyOfIfNames(d1, "id", "bigint", ShownIds(f.idIn));
    var d3 := AnyOfIf(d2, "username", "text", f.usernameIn);
    AnyOfIfNames(d2, "username", "text", f.usernameIn);
    var d4 := EqualsIf(d3, "username", f.username);
    EqualsIfNames(d3, "username", f.username);
    EqualsIfNames(d4, "email", f.email);
  }

  lemma ListFieldNames(i: nat)
    requires i < |LIST_FIELDS|
    ensures IsName(LIST_FIELDS[i])
  {
    ColumnNames();
  }

  lemma ListQueryIsWellFormed(f: UserListFilter)
    ensures WellFormed(ListQuery(f))
  {
    ColumnNames();
    ListDraftNames(f);
    forall i | 0 <= i < |LIST_FIELDS|
      ensures IsName(LIST_FIELDS[i])
    {
      ListFieldNames(i);
    }
  }

  /** The rows of a listing are determined: there is one list for given filters and table. */
  lemma ListingIsUnique(fold: Fold, f: UserListFilter, table: seq<Row>, a: seq<Row>, b: seq<Row>)
    requires SentListing(fold, f, table, a) && SentListing(fold, f, table, b)
    ensures a == b
  {
    SameRows(a, b);
  }

  lemma {:induction false} SameRows(a: seq<Row>, b: seq<Row>)
    requires IdIncreasing(a) && IdIncreasing(b) && forall row :: row in a <==> row in b
    ensures a == b
  {
    assert a == [] || a[0] in b;
    assert b == [] || b[0] in a;
    if a != [] {
      var i :| 0 <= i < |b| && b[i] == a[0];
      var j :| 0 <= j < |a| && a[j] == b[0];
      assert i == 0;
      forall row
        ensures row in a[1..] <==> row in b[1..]
      {
        assert row in a[1..] ==> row in b && row != b[0];
        assert row in b[1..] ==> row in a && row != a[0];
      }
      SameRows(a[1..], b[1..]);
    }
  }

  // Pages

  function Pages(full: seq<Row>, size: nat, n: nat): seq<Row> {
    if n == 0 then [] else Pages(full, size, n - 1) + Page(full, Some((n - 1) * size), Some(size))
  }

  function Prefix(full: seq<Row>, n: nat): seq<Row> {
    if n <= |full| then full[..n] else full
  }

  lemma PageExtendsPrefix(full: seq<Row>, from: nat, size: nat)
    ensures Prefix(full, from) + Page(full, Some(from), Some(size)) == Prefix(full, from + size)
  {
    if from <= |full| && from + size <= |full| {
      assert full[..from] + full[from..][..size] == full[..from + size];
    } else if from <= |full| {
      assert full[..from] + full[from..] == full;
    } else {
      assert full[|full|..] == [];
    }
  }

  lemma {:induction false} PagesArePrefix(full: seq<Row>, size: nat, n: nat)
    ensures Pages(full, size, n) == Prefix(full, n * size)
  {
    if n > 0 {
      PagesArePrefix(full, size, n - 1);
      PageExtendsPrefix(full, (n - 1) * size, size);
      assert n * size == (n - 1) * size + size;
    }
  }

  /** The filters of page number k of the given size. */
  function PageFilter(f: UserListFilter, size: nat, k: nat): UserListFilter {
    f.(limit := Some(size), offset := Some(k * size))
  }

  /** The results of `getList` for pages 0 to n - 1, put together. */
  ghost function ListPages(fold: Fold, f: UserListFilter, table: seq<Row>, size: nat, n: nat): Option<seq<Row>> {
    if n == 0 then Some([])
    else
      var before := ListPages(fold, f, table, size, n - 1);
      var g := PageFilter(f, size, n - 1);
      var page := Selected(fold, ListQuery(g), ListParams(g), table);
      if before.None? || page.None? then None else Some(before.value + page.value)
  }

  /** All pages are cut from one list. */
  lemma SameListing(fold: Fold, f: UserListFilter, size: nat, k: nat, table: seq<Row>, full: seq<Row>)
    requires Int64Ids(f) && Understood(f) && UniqueIds(table) && SentListing(fold, f, table, full)
    ensures FullList(fold, PageFilter(f, size, k), table) == full
  {
    var g := PageFilter(f, size, k);
    MatchingLists(fold, g, table);
    assert forall row :: AsSent(fold, g, row) <==> AsSent(fold, f, row);
    ListingIsUnique(fold, f, table, FullList(fold, g, table), full);
  }

  lemma OnePage(fold: Fold, f: UserListFilter, table: seq<Row>, full: seq<Row>, size: nat, k: nat)
    requires Int64Ids(f) && Understood(f) && UniqueIds(table) && SentListing(fold, f, table, full)
    requires size < 0x8000_0000 && k * size < 0x8000_0000
    ensures var g := PageFilter(f, size, k);
            Selected(fold, ListQuery(g), ListParams(g), table) == Some(Page(full, Some(k * size), Some(size)))
  {
    var g := PageFilter(f, size, k);
    assert Int64Ids(g) && Understood(g) && InInt4(g.limit) && InInt4(g.offset);
    ListSelects(fold, g, table);
    SameListing(fold, f, size, k, table, full);
  }

  lemma PagesStep(fold: Fold, f: UserListFilter, table: seq<Row>, full: seq<Row>, size: nat, n: nat)
    requires n > 0 && ListPages(fold, f, table, size, n - 1) == Some(Pages(full, size, n - 1))
    requires var g := PageFilter(f, size, n - 1);
             Selected(fold, ListQuery(g), ListParams(g), table) == Some(Page(full, Some((n - 1) * size), Some(size)))
    ensures ListPages(fold, f, table, size, n) == Some(Pages(full, size, n))
  {
  }

  lemma FewerFit(k: nat, n: nat, size: nat)
    requires k <= n
    ensures k * size <= n * size
  {
  }

  lemma {:induction false} ListPagesArePages(fold: Fold, f: UserListFilter, table: seq<Row>, full: seq<Row>,
          size: nat, n: nat)
    requires Int64Ids(f) && Understood(f) && UniqueIds(table) && SentListing(fold, f, table, full)
    requires size < 0x8000_0000 && (n > 0 ==> (n - 1) * size < 0x8000_0000)
    ensures ListPages(fold, f, table, size, n) == Some(Pages(full, size, n))
    decreases n
  {
    if n > 0 {
      if n > 1 {
        FewerFit(n - 2, n - 1, size);
      }
      ListPagesArePages(fold, f, table, full, size, n - 1);
      OnePage(fold, f, table, full, size, n - 1);
      PagesStep(fold, f, table, full, size, n);
    }
  }

  /** Consecutive pages of `getList` concatenate: n pages give the filtered list up to its row n * size, so
      all of it as soon as they reach its end. */
  lemma PagesConcatenate(fold: Fold, f: UserListFilter, table: seq<Row>, size: nat, n: nat) returns (full: seq<Row>)
    requires Int64Ids(f) && Understood(f) && UniqueIds(table)
    requires size < 0x8000_0000 && (n > 0 ==> (n - 1) * size < 0x8000_0000)
    ensures SentListing(fold, f, table, full) && (Sendable(f) ==> Listing(fold, f, table, full))
    ensures ListPages(fold, f, table, size, n) == Some(Prefix(full, n * size))
    ensures n * size >= |full| ==> ListPages(fold, f, table, size, n) == Some(full)
  {
    full := FullList(fold, f, table);
    MatchingLists(fold, f, table);
    if Sendable(f) {
      SendableLists(fold, f, table, full);
    }
    ListPagesArePages(fold, f, table, full, size, n);
    PagesArePrefix(full, size, n);
    WholePrefix(full, n * size);
  }

  lemma WholePrefix(full: seq<Row>, n: nat)
    ensures n >= |full| ==> Prefix(full, n) == full
  {
    assert full[..|full|] == full;
  }

  // The update

  function SetCell(row: Row, column: string, text: string): Row {
    if column == "username" then row.(username := text)
    else if column == "email" then row.(email := Some(text))
    else if column == "password" then row.(password := Some(text))
    else if column == "picture" then row.(picture := Some(text))
    else row
  }

  function SetAll(row: Row, sets: seq<(string, nat)>, params: seq<string>): Row
    requires forall i :: 0 <= i < |sets| ==> 1 <= sets[i].1 <= |params|
  {
    if sets == [] then row
    else
      var last := |sets| - 1;
      SetCell(SetAll(row, sets[..last], params), sets[last].0, Param(params, sets[last].1))
  }

  predicate SetsReadable(sets: seq<(string, nat)>, params: seq<string>) {
    forall i :: 0 <= i < |sets| ==> 1 <= sets[i].1 <= |params|
                                    && sets[i].0 in ["username", "email", "password", "picture"]
  }

  /** The table after an update, or None for an error of the server. */
  ghost function Updated(fold: Fold, q: Query, params: seq<string>, table: seq<Row>): Option<seq<Row>>
    requires q.UpdateQuery?
  {
    if !AllReadable(q.conditions, params) || !SetsReadable(q.sets, params) then None
    else
      Some(seq(|table|, i requires 0 <= i < |table| =>
          if AllHold(fold, q.conditions, params, table[i]) then SetAll(table[i], q.sets, params) else table[i]))
  }

  /** What an update of a user asks for: the given, non-empty fields replaced, the others kept. */
  function AsGiven(row: Row, u: UserEntity): Row {
    row.(
    email := if Given(u.email) then u.email else row.email,
    username := if Given(u.username) then u.username.value else row.username,
    password := if Given(u.password) then u.password else row.password,
    picture := if Given(u.picture) then u.picture else row.picture)
  }

  /** A text as a parameter: it ends at a NUL character. */
  function Cut(value: Option<string>): Option<string> {
    if value.Some? then Some(CString(value.value)) else None
  }

  /** What it does: the fields are replaced by their values as parameters. */
  function Changed(row: Row, u: UserEntity): Row {
    row.(
    email := if Given(u.email) then Cut(u.email) else row.email,
    username := if Given(u.username) then CString(u.username.value) else row.username,
    password := if Given(u.password) then Cut(u.password) else row.password,
    picture := if Given(u.picture) then Cut(u.picture) else row.picture)
  }

  predicate NulFree(value: Option<string>) {
    value.Some? ==> '\0' !in value.value
  }

  lemma CutKeepsIff(value: Option<string>)
    ensures Cut(value) == value <==> NulFree(value)
  {
  }

  /** Exactly when an update stores the fields as given: when none has a NUL character. */
  lemma UpdateStoresGivenIff(u: UserEntity)
    ensures (forall row :: Changed(row, u) == AsGiven(row, u))
            <==> NulFree(u.email) && NulFree(u.username) && NulFree(u.password) && NulFree(u.picture)
  {
    CutKeepsIff(u.email);
    CutKeepsIff(u.username);
    CutKeepsIff(u.password);
    CutKeepsIff(u.picture);
    var row := Row(0, "", None, None, None);
    if Changed(row, u) == AsGiven(row, u) {
      assert Given(u.username) ==> CString(u.username.value) == u.username.value;
    }
  }

  function SetPairs(row: Row, pairs: seq<(string, string)>): Row {
    if pairs == [] then row
    else
      var last := pairs[|pairs| - 1];
      SetCell(SetPairs(row, pairs[..|pairs| - 1]), last.0, CString(last.1))
  }

  ghost predicate KnownColumns(pairs: seq<(string, string)>) {
    forall i :: 0 <= i < |pairs| ==> pairs[i].0 in ["username", "email", "password", "picture"]
  }

  lemma PushedPairs(row: Row, pairs: seq<(string, string)>, column: string, value: Option<string>)
    requires KnownColumns(pairs) && column in ["username", "email", "password", "picture"]
    ensures KnownColumns(Push(pairs, column, value))
    ensures SetPairs(row, Push(pairs, column, value))
            == SetIf(SetPairs(row, pairs), column, value)
  {
    if Given(value) {
      assert Push(pairs, column, value)[..|pairs|] == pairs;
    }
  }

  lemma CellsSet(row: Row, text: string)
    ensures SetCell(row, "email", text) == row.(email := Some(text))
    ensures SetCell(row, "username", text) == row.(username := text)
    ensures SetCell(row, "password", text) == row.(password := Some(text))
    ensures SetCell(row, "picture", text) == row.(picture := Some(text))
  {
  }

  function SetIf(row: Row, column: string, value: Option<string>): Row {
    if Given(value) then SetCell(row, column, CString(value.value)) else row
  }

  lemma CellsChange(row: Row, u: UserEntity)
    ensures var named := SetIf(SetIf(row, "email", u.email), "username", u.username);
            SetIf(SetIf(named, "password", u.password), "picture", u.picture)
            == Changed(row, u)
  {
    var r1 := row.(email := if Given(u.email) then Cut(u.email) else row.email);
    var r2 := r1.(username := if Given(u.username) then CString(u.username.value) else row.username);
    var r3 := r2.(password := if Given(u.password) then Cut(u.password) else row.password);
    assert SetIf(row, "email", u.email) == r1 by {
      if Given(u.email) { CellsSet(row, CString(u.email.value)); }
    }
    assert SetIf(r1, "username", u.username) == r2 by {
      if Given(u.username) { CellsSet(r1, CString(u.username.value)); }
    }
    assert SetIf(r2, "password", u.password) == r3 by {
      if Given(u.password) { CellsSet(r2, CString(u.password.value)); }
    }
    assert SetIf(r3, "picture", u.picture) == Changed(row, u) by {
      if Given(u.picture) { CellsSet(r3, CString(u.picture.value)); }
    }
  }

  lemma ChangesSet(row: Row, u: UserEntity)
    ensures KnownColumns(Changes(u)) && SetPairs(row, Changes(u)) == Changed(row, u)
  {
    var p1 := Push([], "email", u.email);
    var p2 := Push(p1, "username", u.username);
    var p3 := Push(p2, "password", u.password);
    PushedPairs(row, [], "email", u.email);
    PushedPairs(row, p1, "username", u.username);
    PushedPairs(row, p2, "password", u.password);
    PushedPairs(row, p3, "picture", u.picture);
    CellsChange(row, u);
  }

  /** Placeholder k of the assignments is bound to the value of the field it is assigned to. */
  lemma {:induction false} NumberedSets(row: Row, pairs: seq<(string, string)>, more: seq<string>)
    requires KnownColumns(pairs)
    ensures SetsReadable(Numbered(Columns(pairs)), Values(pairs) + more)
    ensures SetAll(row, Numbered(Columns(pairs)), Values(pairs) + more) == SetPairs(row, pairs)
  {
    if pairs != [] {
      var n := |pairs| - 1;
      var last := pairs[n];
      NumberedSets(row, pairs[..n], [last.1] + more);
      LastValue(pairs, more);
      LastColumn(pairs);
    }
  }

  lemma LastValue(pairs: seq<(string, string)>, more: seq<string>)
    requires pairs != []
    ensures var n := |pairs| - 1;
            Values(pairs) + more == Values(pairs[..n]) + ([pairs[n].1] + more)
                && (Values(pairs) + more)[n] == pairs[n].1
  {
  }

  lemma LastColumn(pairs: seq<(string, string)>)
    requires pairs != []
    ensures var n := |pairs| - 1;
            var sets := Numbered(Columns(pairs));
            |sets| == n + 1 && sets[..n] == Numbered(Columns(pairs[..n])) && sets[n] == (pairs[n].0, n + 1)
  {
  }

  lemma UpdateOfRow(fold: Fold, u: UserEntity, row: Row)
    requires IsInt64(u.id)
    ensures var q, params := UpdateStatement(u), UpdateParams(u);
            && AllReadable(q.conditions, params) && SetsReadable(q.sets, params)
            && (AllHold(fold, q.conditions, params, row) <==> row.id == u.id)
            && SetAll(row, q.sets, params) == Changed(row, u)
  {
    var pairs := Changes(u);
    ChangesSet(row, u);
    NumberedSets(row, pairs, [Show(u.id)]);
    IdCondition(fold, u, row);
  }

  lemma IdCondition(fold: Fold, u: UserEntity, row: Row)
    requires IsInt64(u.id)
    ensures var q, params := UpdateStatement(u), UpdateParams(u);
            AllReadable(q.conditions, params) && (AllHold(fold, q.conditions, params, row) <==> row.id == u.id)
  {
    var n := |Changes(u)|;
    var params, c := UpdateParams(u), Equals("id", n + 1);
    ReadsBigint(u.id);
    assert params[n] == Show(u.id) && Param(params, n + 1) == Show(u.id);
    assert UpdateStatement(u).conditions == [c];
    assert AllHold(fold, [c], params, row) <==> Holds(fold, [c][0], params, row);
  }

  function ChangedTable(table: seq<Row>, u: UserEntity): seq<Row> {
    seq(|table|, i requires 0 <= i < |table| => if table[i].id == u.id then Changed(table[i], u) else table[i])
  }

  lemma UpdatedTable(fold: Fold, u: UserEntity, table: seq<Row>)
    requires IsInt64(u.id)
    ensures Updated(fold, UpdateStatement(u), UpdateParams(u), table) == Some(ChangedTable(table, u))
  {
    var q, params := UpdateStatement(u), UpdateParams(u);
    UpdateOfRow(fold, u, Row(0, "", None, None, None));
    var actual := Updated(fold, q, params, table).value;
    forall i | 0 <= i < |table|
      ensures actual[i] == ChangedTable(table, u)[i]
    {
      UpdateOfRow(fold, u, table[i]);
    }
    assert actual == ChangedTable(table, u);
  }

  /** `update`: for any combination of given fields, at least one, the SQL it writes is read as the update
      statement, and with the vector it passes running it changes exactly the row with the id, setting
      each given field to its own value, cut at a NUL character. */
  lemma UpdateChangesOneRow(fold: Fold, u: UserEntity, table: seq<Row>)
    requires IsInt64(u.id) && Changes(u) != []
    ensures Read(Text(UpdateStatement(u))) == Some(UpdateStatement(u))
    ensures Updated(fold, UpdateStatement(u), UpdateParams(u), table) == Some(ChangedTable(table, u))
  {
    ChangesSet(Row(0, "", None, None, None), u);
    UpdateIsWellFormed(u);
    ReadInvertsText(UpdateStatement(u));
    UpdatedTable(fold, u, table);
  }

  lemma UpdateIsWellFormed(u: UserEntity)
    requires Changes(u) != [] && KnownColumns(Changes(u))
    ensures WellFormed(UpdateStatement(u))
  {
    ColumnNames();
  }

  // The insert

  /** The column values of an insert. */
  function Inserted(columns: seq<string>, slots: seq<nat>, params: seq<Option<string>>): map<string, Option<string>>
    requires |columns| == |slots| && forall i :: 0 <= i < |slots| ==> 1 <= slots[i] <= |params|
  {
    if columns == [] then map[]
    else
      var n := |columns| - 1;
      Inserted(columns[..n], slots[..n], params)[columns[n] := Cut(params[slots[n] - 1])]
  }

  /** `create`: the SQL is read as the insert statement, which stores each field under its own column, as a
      parameter: exactly as given when it has no NUL character (`CutKeepsIff`). */
  lemma CreateStoresFields(u: UserEntity)
    ensures Read(Text(CREATE_STATEMENT)) == Some(CREATE_STATEMENT)
    ensures |CREATE_STATEMENT.columns| == |CREATE_STATEMENT.slots| == |CreateParams(u)| == 3
    ensures Inserted(CREATE_STATEMENT.columns, CREATE_STATEMENT.slots, CreateParams(u))
            == map["username" := Cut(u.username), "email" := Cut(u.email), "password" := Cut(u.password)]
  {
    ColumnNames();
    ReadInvertsText(CREATE_STATEMENT);
    var params := CreateParams(u);
    assert Inserted([], [], params) == map[];
    assert ["username"][..0] == [] && [1][..0] == [];
    assert Inserted(["username"], [1], params) == map["username" := Cut(u.username)];
    assert ["username", "email"][..1] == ["username"] && [1, 2][..1] == [1];
    assert Inserted(["username", "email"], [1, 2], params)
        == map["username" := Cut(u.username), "email" := Cut(u.email)];
    assert CREATE_FIELDS[..2] == ["username", "email"] && [1, 2, 3][..2] == [1, 2];
  }
}
