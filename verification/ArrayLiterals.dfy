/** The array constants that `arrayToPg` writes, as the server reads them: which lists survive. */
module ArrayLiterals {
  import opened Options
  import opened Decimals
  import opened Streams
  import opened Texts
  import opened SqlBuilders
  import opened PgArrays

  predicate IsEscape(c: char) {
    c == '"' || c == '\\'
  }

  predicate HasSpecial(s: string) {
    exists i :: 0 <= i < |s| && (IsBreak(s[i]) || IsEscape(s[i]))
  }

  /** A string that an unquoted element gives back unchanged. */
  predicate Plain(s: string) {
    s != "" && !HasSpecial(s) && '\0' !in s && Trim(s) == s && !IsNullWord(s)
  }

  function Present(values: seq<string>): seq<Option<string>> {
    seq(|values|, i requires 0 <= i < |values| => Some(values[i]))
  }

  // Reading a list of elements

  predicate EndsElement(rest: string) {
    rest != "" && (rest[0] == ',' || rest[0] == '}')
  }

  /** The text of one element is read as the value, whatever comes after its end. */
  ghost predicate ReadsAs(piece: string, value: Option<string>) {
    forall rest :: EndsElement(rest) ==> ReadToken(piece + rest) == Some((Element(value), rest))
  }

  ghost predicate AllReadAs(pieces: seq<string>, values: seq<Option<string>>) {
    |pieces| == |values| && pieces != [] && forall i :: 0 <= i < |pieces| ==> ReadsAs(pieces[i], values[i])
  }

  /** The tokens of elements and the brace that closes their array. */
  function ListTokens(values: seq<Option<string>>): seq<Token> {
    if values == [] then [Close]
    else if |values| == 1 then [Element(values[0]), Close]
    else [Element(values[0]), Delim] + ListTokens(values[1..])
  }

  predicate InList(h: Shape) {
    && h.nest == 1 && h.ndim == 1 && h.place in {LevelStarted, ElementDelimited}
    && |h.extents| == 6 && |h.counts| == 6 && |h.last| == 6 && h.last[0] == 0
  }

  lemma CountsElement(h: Shape, value: Option<string>)
    requires InList(h)
    ensures Counted(h, Element(value)) == Some(h.(place := ElementDone))
  {
  }

  lemma CountsDelim(h: Shape) returns (g: Shape)
    requires InList(h)
    ensures Counted(h.(place := ElementDone), Delim) == Some(g)
    ensures InList(g) && g.extents == h.extents[0 := h.extents[0] + 1]
  {
    g := Counted(h.(place := ElementDone), Delim).value;
  }

  lemma CountsClose(h: Shape) returns (g: Shape)
    requires InList(h)
    ensures Counted(h.(place := ElementDone), Close) == Some(g)
    ensures g.nest == 0 && g.ndim == 1 && g.extents == h.extents[0 := h.extents[0] + 1]
  {
    g := Counted(h.(place := ElementDone), Close).value;
  }

  lemma ReadsOneMore(s: string, h: Shape, t: Token, rest: string, g: Shape, more: seq<Token>, end: Shape, left: string)
    requires ReadToken(s) == Some((t, rest)) && Counted(h, t) == Some(g) && g.nest != 0
    requires ReadTokens(rest, g) == Some((more, end, left))
    ensures ReadTokens(s, h) == Some(([t] + more, end, left))
  {
  }

  lemma ReadsLastToken(s: string, h: Shape, t: Token, rest: string, g: Shape)
    requires ReadToken(s) == Some((t, rest)) && Counted(h, t) == Some(g) && g.nest == 0
    ensures ReadTokens(s, h) == Some(([t], g, rest))
  {
  }

  lemma ReadsPunctuation(rest: string)
    ensures ReadToken("," + rest) == Some((Delim, rest))
    ensures ReadToken("}" + rest) == Some((Close, rest))
    ensures ReadToken("{" + rest) == Some((Open, rest))
  {
    assert ("," + rest)[1..] == rest && ("}" + rest)[1..] == rest && ("{" + rest)[1..] == rest;
  }

  lemma ReadsEnd(piece: string, value: Option<string>, h: Shape) returns (g: Shape)
    requires InList(h) && ReadsAs(piece, value)
    ensures ReadTokens(piece + "}", h) == Some(([Element(value), Close], g, ""))
    ensures g.ndim == 1 && g.extents == h.extents[0 := h.extents[0] + 1]
  {
    var done := h.(place := ElementDone);
    CountsElement(h, value);
    g := CountsClose(h);
    ReadsPunctuation("");
    assert "}" + "" == "}";
    ReadsLastToken("}", done, Close, "", g);
    assert EndsElement("}");
    ReadsOneMore(piece + "}", h, Element(value), "}", done, [Close], g, "");
    assert [Element(value)] + [Close] == [Element(value), Close];
  }

  lemma ReadsBefore(piece: string, value: Option<string>, h: Shape, tail: string, next: Shape, ts: seq<Token>, g: Shape)
    requires InList(h) && ReadsAs(piece, value)
    requires Counted(h.(place := ElementDone), Delim) == Some(next) && next.nest == 1
    requires ReadTokens(tail, next) == Some((ts, g, ""))
    ensures ReadTokens(piece + ("," + tail), h) == Some(([Element(value), Delim] + ts, g, ""))
  {
    var done := h.(place := ElementDone);
    CountsElement(h, value);
    ReadsPunctuation(tail);
    ReadsOneMore("," + tail, done, Delim, tail, next, ts, g, "");
    assert EndsElement("," + tail);
    ReadsOneMore(piece + ("," + tail), h, Element(value), "," + tail, done, [Delim] + ts, g, "");
    assert [Element(value)] + ([Delim] + ts) == [Element(value), Delim] + ts;
  }

  lemma ReadsOnly(pieces: seq<string>, values: seq<Option<string>>, h: Shape) returns (g: Shape)
    requires AllReadAs(pieces, values) && |pieces| == 1 && InList(h)
    ensures ReadTokens(Join(pieces, ',') + "}", h) == Some((ListTokens(values), g, ""))
    ensures g.ndim == 1 && g.extents == h.extents[0 := h.extents[0] + 1]
  {
    g := ReadsEnd(pieces[0], values[0], h);
  }

  lemma ReadsFirst(pieces: seq<string>, values: seq<Option<string>>, h: Shape, next: Shape, g: Shape)
    requires AllReadAs(pieces, values) && |pieces| > 1 && InList(h)
    requires Counted(h.(place := ElementDone), Delim) == Some(next) && next.nest == 1
    requires ReadTokens(Join(pieces[1..], ',') + "}", next) == Some((ListTokens(values[1..]), g, ""))
    ensures ReadTokens(Join(pieces, ',') + "}", h) == Some((ListTokens(values), g, ""))
  {
    ReadsBefore(pieces[0], values[0], h, Join(pieces[1..], ',') + "}", next, ListTokens(values[1..]), g);
    JoinTail(pieces);
  }

  lemma {:induction false} ReadsList(pieces: seq<string>, values: seq<Option<string>>, h: Shape) returns (g: Shape)
    requires AllReadAs(pieces, values) && InList(h)
    ensures ReadTokens(Join(pieces, ',') + "}", h) == Some((ListTokens(values), g, ""))
    ensures g.ndim == 1 && g.extents == h.extents[0 := h.extents[0] + |pieces|]
  {
    if |pieces| == 1 {
      g := ReadsOnly(pieces, values, h);
    } else {
      var next := CountsDelim(h);
      g := ReadsList(pieces[1..], values[1..], next);
      ReadsFirst(pieces, values, h, next, g);
    }
  }

  lemma JoinTail(pieces: seq<string>)
    requires |pieces| > 1
    ensures Join(pieces, ',') + "}" == pieces[0] + ("," + (Join(pieces[1..], ',') + "}"))
  {
  }

  lemma {:induction false} StoresList(values: seq<Option<string>>, k: nat, slots: seq<Option<string>>)
    requires values != [] && k + |values| == |slots|
    ensures var c := Cursor(1, [k], None, None, slots);
            var filled := FillAll(c, [|slots|], ListTokens(values));
            filled.Some? && filled.value.slots == slots[..k] + values
    decreases |values|
  {
    var n := |slots|;
    var c := Cursor(1, [k], None, None, slots);
    var d := c.(value := values[0]);
    assert Filled(c, [n], Element(values[0])) == Some(d);
    assert [n][1..] == [] && [k][1..] == [];
    assert Position([k], [n]) == k;
    var stored := slots[k := values[0]];
    var ts := ListTokens(values);
    if |values| == 1 {
      assert ts[1..] == [Close] && [Close][1..] == [];
      var e := Filled(d, [n], Close);
      assert e.Some? && e.value.slots == stored;
      assert FillAll(d, [n], [Close]) == FillAll(e.value, [n], []);
      assert stored == slots[..k] + values;
    } else {
      assert ts[1..][1..] == ListTokens(values[1..]) && ts[1..][0] == Delim;
      var e := Cursor(1, [k + 1], None, None, stored);
      assert Put([k], 0, k + 1) == [k + 1];
      assert Filled(d, [n], Delim) == Some(e);
      StoresList(values[1..], k + 1, stored);
      assert FillAll(d, [n], ts[1..]) == FillAll(e, [n], ts[1..][1..]);
      assert stored[..k + 1] + values[1..] == slots[..k] + values;
    }
  }

  lemma ListTokensRead(pieces: seq<string>, values: seq<Option<string>>) returns (g: Shape)
    requires AllReadAs(pieces, values)
    ensures ReadTokens("{" + (Join(pieces, ',') + "}"), START) == Some(([Open] + ListTokens(values), g, ""))
    ensures g.ndim == 1 && |g.extents| == 6 && g.extents[..1] == [|values|]
  {
    var body := Join(pieces, ',') + "}";
    var h := Counted(START, Open).value;
    assert InList(h) && h.extents == [0, 0, 0, 0, 0, 0];
    g := ReadsList(pieces, values, h);
    ReadsPunctuation(body);
    ReadsOneMore("{" + body, START, Open, body, h, ListTokens(values), g, "");
  }

  lemma ListStored(values: seq<Option<string>>)
    requires values != []
    ensures var n := |values|;
            var filled := FillAll(Cursor(0, Zeros(1), None, None, Nulls(n)), [n], [Open] + ListTokens(values));
            filled.Some? && filled.value.slots == values
  {
    var n := |values|;
    var ts := [Open] + ListTokens(values);
    var c := Cursor(0, [0], None, None, Nulls(n));
    assert Zeros(1) == [0];
    StoresList(values, 0, Nulls(n));
    assert ts[1..] == ListTokens(values);
    assert Put([0], 0, 0) == [0];
    assert Filled(c, [n], Open) == Some(c.(nest := 1));
    assert FillAll(c, [n], ts) == FillAll(c.(nest := 1), [n], ts[1..]);
    assert Nulls(n)[..0] + values == values;
  }

  lemma ArrayIs(text: string, ts: seq<Token>, g: Shape, values: seq<Option<string>>)
    requires text != "" && text[0] == '{' && ReadTokens(text, START) == Some((ts, g, ""))
    requires g.ndim == 1 && |g.extents| == 6 && g.extents[..1] == [|values|] && values != []
    requires exists t :: t in ts && t.Element?
    requires var filled := FillAll(Cursor(0, Zeros(1), None, None, Nulls(|values|)), [|values|], ts);
             filled.Some? && filled.value.slots == values
    ensures ReadArray(text) == Some(values)
  {
    assert TrimLeft(text) == text;
    ProductOfOne(|values|);
  }

  lemma ProductOfOne(n: nat)
    ensures Product([n]) == n
  {
    assert [n][1..] == [] && Product([]) == 1;
  }

  /** A list of elements, each read as its value, is read as the list. */
  lemma ListReads(pieces: seq<string>, values: seq<Option<string>>)
    requires AllReadAs(pieces, values)
    ensures ReadArray("{" + (Join(pieces, ',') + "}")) == Some(values)
  {
    var ts := [Open] + ListTokens(values);
    var g := ListTokensRead(pieces, values);
    HasElement(values);
    assert Element(values[0]) in ts;
    ListStored(values);
    ArrayIs("{" + (Join(pieces, ',') + "}"), ts, g, values);
  }

  lemma HasElement(values: seq<Option<string>>)
    requires values != []
    ensures Element(values[0]) in ListTokens(values)
  {
    assert ListTokens(values)[0] == Element(values[0]);
  }

  // Plain strings are read unchanged

  lemma {:induction false} UnquotedPlain(v: string, rest: string)
    requires !HasSpecial(v) && EndsElement(rest) && (v != "" ==> !IsSpace(v[|v| - 1]))
    ensures Unquoted(v + rest) == Some((v, false, rest))
    decreases |v|
  {
    if v == "" {
      assert v + rest == rest;
    } else {
      assert (v + rest)[1..] == v[1..] + rest;
      assert forall i :: 0 <= i < |v| - 1 ==> v[1..][i] == v[i + 1];
      UnquotedPlain(v[1..], rest);
      assert [v[0]] + v[1..] == v;
    }
  }

  lemma PlainReadsAs(v: string)
    requires Plain(v)
    ensures ReadsAs(v, Some(v))
  {
    TrimEnds(v);
    forall rest | EndsElement(rest)
      ensures ReadToken(v + rest) == Some((Element(Some(v)), rest))
    {
      UnquotedPlain(v, rest);
      assert (v + rest)[0] == v[0];
      assert TrimLeft(v + rest) == v + rest;
    }
  }

  lemma {:induction false} JoinHasCharacters(pieces: seq<string>, i: nat, c: char)
    requires i < |pieces| && c in pieces[i]
    ensures c in Join(pieces, ',')
  {
    if |pieces| > 1 && i > 0 {
      JoinHasCharacters(pieces[1..], i - 1, c);
    }
  }

  lemma {:induction false} JoinHasNoOther(pieces: seq<string>, c: char)
    requires c != ',' && forall i :: 0 <= i < |pieces| ==> c !in pieces[i]
    ensures c !in Join(pieces, ',')
  {
    if |pieces| > 1 {
      JoinHasNoOther(pieces[1..], c);
    }
  }

  lemma ArrayTextIs(values: seq<string>)
    requires forall i :: 0 <= i < |values| ==> '\0' !in values[i]
    ensures CString(ArrayText(values)) == "{" + (Join(values, ',') + "}")
  {
    JoinHasNoOther(values, '\0');
    assert ArrayText(values) == "{" + (Join(values, ',') + "}");
  }

  lemma PlainListReadsBack(values: seq<string>)
    requires values != [] && forall i :: 0 <= i < |values| ==> Plain(values[i])
    ensures ReadArray(CString(ArrayText(values))) == Some(Present(values))
  {
    forall i | 0 <= i < |values|
      ensures ReadsAs(values[i], Present(values)[i])
    {
      PlainReadsAs(values[i]);
    }
    ListReads(values, Present(values));
    ArrayTextIs(values);
  }

  // Any strings are read unchanged when they are quoted

  function Escaped(v: string): string {
    if v == "" then "" else (if IsEscape(v[0]) then ['\\', v[0]] else [v[0]]) + Escaped(v[1..])
  }

  function InQuotes(v: string): string {
    "\"" + (Escaped(v) + "\"")
  }

  lemma {:induction false} QuotedReads(v: string, rest: string)
    ensures Quoted(Escaped(v) + ("\"" + rest)) == Some((v, rest))
  {
    if v == "" {
      assert Escaped(v) + ("\"" + rest) == "\"" + rest;
      assert ("\"" + rest)[1..] == rest;
    } else {
      QuotedReads(v[1..], rest);
      var one := if IsEscape(v[0]) then ['\\', v[0]] else [v[0]];
      var more := Escaped(v[1..]) + ("\"" + rest);
      assert Escaped(v) + ("\"" + rest) == one + more;
      assert (one + more)[|one|..] == more;
      assert [v[0]] + v[1..] == v;
    }
  }

  lemma InQuotesReadsAs(v: string)
    ensures ReadsAs(InQuotes(v), Some(v))
  {
    forall rest | EndsElement(rest)
      ensures ReadToken(InQuotes(v) + rest) == Some((Element(Some(v)), rest))
    {
      QuotedReads(v, rest);
      var tail := Escaped(v) + ("\"" + rest);
      assert InQuotes(v) + rest == "\"" + tail;
      assert ("\"" + tail)[1..] == tail;
    }
  }

  function QuotedAll(values: seq<string>): seq<string> {
    seq(|values|, i requires 0 <= i < |values| => InQuotes(values[i]))
  }

  /** Names that come in quotes are read without them, whatever is inside: the list that is asked for is
      not the list of names given. */
  lemma QuotedListReadsBack(values: seq<string>)
    requires values != [] && forall i :: 0 <= i < |values| ==> '\0' !in InQuotes(values[i])
    ensures ReadArray(CString(ArrayText(QuotedAll(values)))) == Some(Present(values))
  {
    forall i | 0 <= i < |values|
      ensures ReadsAs(QuotedAll(values)[i], Present(values)[i])
    {
      InQuotesReadsAs(values[i]);
    }
    ListReads(QuotedAll(values), Present(values));
    ArrayTextIs(QuotedAll(values));
  }

  /** The printed ids are plain, so lists of ids always survive. */
  lemma ShownIsPlain(i: int)
    ensures Plain(Show(i)) && ',' !in Show(i)
  {
    var s := Show(i);
    assert forall k :: 0 <= k < |s| ==> IsDigit(s[k]) || s[k] == '-';
    assert TrimLeft(s) == s;
    assert TrimRight(s) == s;
  }

  /** A name for which the query asks for something else: the word null. */
  lemma NullWordIsLost()
    ensures ReadArray(CString(ArrayText(["null"]))) == Some([None])
  {
    forall rest | EndsElement(rest)
      ensures ReadToken("null" + rest) == Some((Element(None), rest))
    {
      UnquotedPlain("null", rest);
      assert ("null" + rest)[0] == 'n';
    }
    ListReads(["null"], [None]);
    ArrayTextIs(["null"]);
  }
}
