/** Which lists of strings are found again among the elements that their array constant is read as. A quote
    or backslash in an element takes two in the text, so a list that has any can not contain itself. */
module ArrayNames {
  import opened Options
  import opened Streams
  import opened Texts
  import opened SqlBuilders
  import opened PgArrays
  import opened ArrayLiterals

  function Max(a: nat, b: nat): nat {
    if a < b then b else a
  }

  /** The most quotes and backslashes between two commas, when n of them come before. */
  function Runs(s: string, n: nat): nat {
    if s == "" then n
    else if s[0] == ',' then Max(n, Runs(s[1..], 0))
    else Runs(s[1..], if IsEscape(s[0]) then n + 1 else n)
  }

  lemma {:induction false} RunsGrow(s: string, m: nat, n: nat)
    requires m <= n
    ensures m <= Runs(s, m) <= Runs(s, n)
  {
    if s != "" && s[0] != ',' {
      RunsGrow(s[1..], if IsEscape(s[0]) then m + 1 else m, if IsEscape(s[0]) then n + 1 else n);
    }
  }

  lemma {:induction false} RunsOfSuffix(s: string, k: nat)
    requires k <= |s|
    ensures Runs(s[k..], 0) <= Runs(s, 0)
  {
    if k == 0 {
      assert s[0..] == s;
    } else {
      RunsOfSuffix(s[1..], k - 1);
      assert s[1..][k - 1..] == s[k..];
      RunsGrow(s[1..], 0, 1);
    }
  }

  lemma {:induction false} RunsConcat(s: string, rest: string, n: nat)
    ensures Runs(s + [','] + rest, n) == Max(Runs(s, n), Runs(rest, 0))
    ensures Runs(s + "}", n) == Runs(s, n)
  {
    if s == "" {
      assert s + [','] + rest == [','] + rest && ([','] + rest)[1..] == rest;
      assert s + "}" == "}" && "}"[1..] == "";
    } else {
      assert (s + [','] + rest)[1..] == s[1..] + [','] + rest && (s + "}")[1..] == s[1..] + "}";
      RunsConcat(s[1..], rest, if s[0] == ',' then 0 else if IsEscape(s[0]) then n + 1 else n);
    }
  }

  lemma {:induction false} RunsOfJoin(values: seq<string>, m: nat)
    requires forall i :: 0 <= i < |values| ==> Runs(values[i], 0) <= m
    ensures Runs(Join(values, ','), 0) <= m
  {
    if |values| == 1 {
    } else if values != [] {
      RunsOfJoin(values[1..], m);
      RunsConcat(values[0], Join(values[1..], ','), 0);
    }
  }

  lemma {:induction false} NoRunsNoEscapes(s: string, n: nat)
    requires Runs(s, n) == 0
    ensures forall i :: 0 <= i < |s| ==> !IsEscape(s[i])
  {
    if s != "" {
      RunsGrow(s[1..], 0, if s[0] != ',' && IsEscape(s[0]) then n + 1 else n);
      RunsGrow(s[1..], if s[0] != ',' && IsEscape(s[0]) then n + 1 else n, n + 1);
      NoRunsNoEscapes(s[1..], if s[0] == ',' then 0 else n);
      assert forall i :: 0 < i < |s| ==> s[i] == s[1..][i - 1];
    }
  }

  // Elements against their text

  /** One more character of an element, escaped in the text or not. */
  lemma RunsStep(text: string, c: char, escaped: bool, more: string, v: string, n: nat, m: nat)
    requires text == (if escaped then ['\\', c] else [c]) + more && n >= 2 * m && (escaped || !IsEscape(c))
    requires forall k: nat, j: nat :: k >= 2 * j ==> Runs(more, k) >= 2 * Runs(v, j)
    ensures Runs(text, n) >= 2 * Runs([c] + v, m)
  {
    assert ([c] + v)[1..] == v;
    if escaped {
      assert text[1..] == [c] + more && text[1..][1..] == more;
      assert Runs(text, n) == Runs(text[1..], n + 1);
    } else {
      assert text[1..] == more;
    }
  }

  lemma {:induction false} QuotedRuns(s: string, n: nat, m: nat)
    requires Quoted(s).Some? && n >= 2 * m
    ensures Runs(s, n) >= 2 * Runs(Quoted(s).value.0, m)
    decreases |s|
  {
    if s[0] == '"' {
      RunsGrow(s, n, n);
    } else {
      var escaped := s[0] == '\\';
      var c, more := if escaped then s[1] else s[0], if escaped then s[2..] else s[1..];
      var v := Quoted(more).value.0;
      forall k: nat, j: nat | k >= 2 * j
        ensures Runs(more, k) >= 2 * Runs(v, j)
      {
        QuotedRuns(more, k, j);
      }
      assert s == (if escaped then ['\\', c] else [c]) + more;
      RunsStep(s, c, escaped, more, v, n, m);
    }
  }

  lemma {:induction false} UnquotedRuns(s: string, n: nat, m: nat)
    requires Unquoted(s).Some? && n >= 2 * m
    ensures Runs(s, n) >= 2 * Runs(Unquoted(s).value.0, m)
    decreases |s|
  {
    RunsGrow(s, n, n);
    if !IsBreak(s[0]) {
      var escaped := s[0] == '\\';
      var c, more := if escaped then s[1] else s[0], if escaped then s[2..] else s[1..];
      var v := Unquoted(more).value.0;
      forall k: nat, j: nat | k >= 2 * j
        ensures Runs(more, k) >= 2 * Runs(v, j)
      {
        UnquotedRuns(more, k, j);
      }
      assert s == (if escaped then ['\\', c] else [c]) + more;
      RunsStep(s, c, escaped, more, v, n, m);
    }
  }

  // What is left after a token is a suffix of the text, and an element's characters come from it

  lemma {:induction false} QuotedSuffix(s: string)
    requires Quoted(s).Some?
    ensures var (v, rest) := Quoted(s).value;
            rest == s[|s| - |rest|..] && forall c :: c in v ==> c in s
    decreases |s|
  {
    if s[0] != '"' {
      var more := if s[0] == '\\' then s[2..] else s[1..];
      QuotedSuffix(more);
    }
  }

  lemma {:induction false} UnquotedSuffix(s: string)
    requires Unquoted(s).Some?
    ensures var (v, escaped, rest) := Unquoted(s).value;
            rest == s[|s| - |rest|..] && forall c :: c in v ==> c in s
    decreases |s|
  {
    if !IsBreak(s[0]) {
      var more := if s[0] == '\\' then s[2..] else s[1..];
      UnquotedSuffix(more);
    }
  }

  lemma TokenSuffix(s: string)
    requires ReadToken(s).Some?
    ensures var rest := ReadToken(s).value.1;
            rest == s[|s| - |rest|..]
  {
    TrimIsSuffix(s);
    var t := TrimLeft(s);
    if t[0] == '"' {
      QuotedSuffix(t[1..]);
    } else if !IsBreak(t[0]) {
      UnquotedSuffix(t);
    }
  }

  /** What an element read from a text can be: half as rich in quotes and backslashes, from its characters,
      and plain when the text has none. */
  ghost predicate ComesFrom(v: string, s: string) {
    && Runs(s, 0) >= 2 * Runs(v, 0)
    && (forall c :: c in v ==> c in s)
    && ((forall i :: 0 <= i < |s| ==> !IsEscape(s[i])) && '\0' !in s ==> Plain(v))
  }

  lemma {:induction false} UnquotedIsPlain(s: string)
    requires Unquoted(s).Some? && forall i :: 0 <= i < |s| ==> !IsEscape(s[i])
    ensures var (v, escaped, rest) := Unquoted(s).value;
            && !escaped && !HasSpecial(v) && (v != "" ==> !IsSpace(v[|v| - 1]))
            && (s != "" && !IsBreak(s[0]) && !IsSpace(s[0]) ==> v != "" && v[0] == s[0])
    decreases |s|
  {
    if !IsBreak(s[0]) {
      UnquotedIsPlain(s[1..]);
    }
  }

  lemma ElementComesFrom(s: string, v: string)
    requires ReadToken(s).Some? && ReadToken(s).value.0 == Element(Some(v))
    ensures ComesFrom(v, s)
  {
    TrimIsSuffix(s);
    TrimLeftEnds(s);
    var t := TrimLeft(s);
    RunsOfSuffix(s, |s| - |t|);
    if t[0] == '"' {
      QuotedRuns(t[1..], 0, 0);
      QuotedSuffix(t[1..]);
      RunsGrow(t[1..], 0, 1);
    } else {
      UnquotedRuns(t, 0, 0);
      UnquotedSuffix(t);
      if (forall i :: 0 <= i < |s| ==> !IsEscape(s[i])) && '\0' !in s {
        assert forall i :: 0 <= i < |t| ==> t[i] == s[|s| - |t| + i];
        UnquotedIsPlain(t);
        TrimStops(v);
      }
    }
  }

  lemma {:induction false} TokensComeFrom(s: string, h: Shape, v: string)
    requires ReadTokens(s, h).Some? && Element(Some(v)) in ReadTokens(s, h).value.0
    ensures ComesFrom(v, s)
    decreases |s|
  {
    var (t, rest) := ReadToken(s).value;
    if t == Element(Some(v)) {
      ElementComesFrom(s, v);
    } else {
      TokensComeFrom(rest, Counted(h, t).value, v);
      TokenSuffix(s);
      ComesFromSuffix(v, s, |s| - |rest|);
    }
  }

  lemma ComesFromSuffix(v: string, s: string, k: nat)
    requires k <= |s| && ComesFrom(v, s[k..])
    ensures ComesFrom(v, s)
  {
    RunsOfSuffix(s, k);
    assert forall i :: 0 <= i < |s| - k ==> s[k..][i] == s[k + i];
  }

  // The second pass stores elements of the first

  ghost predicate StoresOnly(c: Cursor, ts: seq<Token>) {
    && (forall v :: c.value == Some(v) ==> Element(Some(v)) in ts)
    && forall v :: Some(v) in c.slots ==> Element(Some(v)) in ts
  }

  lemma FilledStoresOnly(c: Cursor, dims: seq<nat>, t: Token, ts: seq<Token>)
    requires StoresOnly(c, ts) && t in ts && Filled(c, dims, t).Some?
    ensures StoresOnly(Filled(c, dims, t).value, ts)
  {
  }

  lemma {:induction false} AllStoresOnly(c: Cursor, dims: seq<nat>, left: seq<Token>, ts: seq<Token>)
    requires StoresOnly(c, ts) && (forall t :: t in left ==> t in ts) && FillAll(c, dims, left).Some?
    ensures StoresOnly(FillAll(c, dims, left).value, ts)
    decreases |left|
  {
    if left != [] {
      FilledStoresOnly(c, dims, left[0], ts);
      AllStoresOnly(Filled(c, dims, left[0]).value, dims, left[1..], ts);
    }
  }

  /** Every string among the elements of an array constant comes from its text. */
  lemma ReadComesFrom(text: string, v: string)
    requires ReadArray(text).Some? && Some(v) in ReadArray(text).value
    ensures ComesFrom(v, text)
  {
    TrimIsSuffix(text);
    var s := TrimLeft(text);
    var (ts, g, rest) := ReadTokens(s, START).value;
    var dims := g.extents[..if g.ndim <= |g.extents| then g.ndim else |g.extents|];
    var c := Cursor(0, Zeros(|dims|), None, None, Nulls(Product(dims)));
    AllStoresOnly(c, dims, ts, ts);
    TokensComeFrom(s, START, v);
    ComesFromSuffix(v, text, |text| - |s|);
  }

  // The theorem

  ghost predicate AllFound(values: seq<string>, text: string) {
    ReadArray(text).Some? && forall i :: 0 <= i < |values| ==> Some(values[i]) in ReadArray(text).value
  }

  lemma FoundComeFrom(values: seq<string>, text: string)
    requires AllFound(values, text)
    ensures forall i :: 0 <= i < |values| ==> ComesFrom(values[i], text)
  {
    forall i | 0 <= i < |values|
      ensures ComesFrom(values[i], text)
    {
      ReadComesFrom(text, values[i]);
    }
  }

  lemma NoNulInNames(values: seq<string>, text: string)
    requires (forall i :: 0 <= i < |values| ==> ComesFrom(values[i], text)) && '\0' !in text
    ensures forall i :: 0 <= i < |values| ==> '\0' !in values[i]
  {
  }

  /** No quote or backslash is left when all strings are half as rich in them as their joined text. */
  lemma NoEscapesInText(values: seq<string>, text: string)
    requires text == "{" + (Join(values, ',') + "}")
    requires forall i :: 0 <= i < |values| ==> 2 * Runs(values[i], 0) <= Runs(text, 0)
    ensures forall i :: 0 <= i < |text| ==> !IsEscape(text[i])
  {
    var joined := Join(values, ',');
    assert text[1..] == joined + "}";
    RunsConcat(joined, "", 0);
    RunsOfJoin(values, Runs(text, 0) / 2);
    NoRunsNoEscapes(text, 0);
  }

  /** When every string of a list is found among the elements its array constant is read as, all are plain. */
  lemma FoundNamesArePlain(values: seq<string>)
    requires AllFound(values, CString(ArrayText(values)))
    ensures forall i :: 0 <= i < |values| ==> Plain(values[i])
  {
    var text := CString(ArrayText(values));
    FoundComeFrom(values, text);
    NoNulInNames(values, text);
    ArrayTextIs(values);
    NoEscapesInText(values, text);
  }

  /** Which lists the server reads back from `arrayToPg`, whatever the strings are: exactly those of plain
      strings. Blanks at the ends, commas, braces, quotes, backslashes, NUL and the word null do not survive. */
  lemma ArrayTextReadsBack(values: seq<string>)
    requires values != []
    ensures ReadArray(CString(ArrayText(values))) == Some(Present(values))
            <==> forall i :: 0 <= i < |values| ==> Plain(values[i])
  {
    if forall i :: 0 <= i < |values| ==> Plain(values[i]) {
      PlainListReadsBack(values);
    }
    if ReadArray(CString(ArrayText(values))) == Some(Present(values)) {
      forall i | 0 <= i < |values|
        ensures Some(values[i]) in Present(values)
      {
        assert Present(values)[i] == Some(values[i]);
      }
      FoundNamesArePlain(values);
    }
  }
}
