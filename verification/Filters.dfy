/** Comma-separated query filters (`BaseFilter`). */
module Filters {
  import opened Options
  import opened Decimals
  import opened Streams
  import opened Texts

  const TWO_64: nat := 0x1_0000_0000_0000_0000
  const TWO_63: nat := 0x8000_0000_0000_0000

  predicate IsInt64(i: int) {
    0 - TWO_63 <= i < TWO_63
  }

  /** Unsigned to signed conversion, modulo 2^64. */
  function AsInt64(u: nat): int
    requires u < TWO_64
  {
    if u < TWO_63 then u else u - TWO_64
  }

  /** `std::stoull` in base 10: blanks, an optional sign, digits; the rest is ignored. No digits, or a
      magnitude of 2^64 or more, is an exception; a minus sign negates modulo 2^64. */
  function Stoull(s: string): (r: Option<nat>)
    ensures r.Some? ==> r.value < TWO_64
  {
    var t := s[LeadingSpaces(s)..];
    var negative := t != "" && t[0] == '-';
    var u := if t != "" && (t[0] == '-' || t[0] == '+') then t[1..] else t;
    var k := LeadingDigits(u);
    if k == 0 || Value(u[..k]) >= TWO_64 then None
    else
      var v := Value(u[..k]);
      Some(if negative && v > 0 then TWO_64 - v else v)
  }

  function IdsOf(tokens: seq<string>): seq<int> {
    if tokens == [] then []
    else
      var id := if tokens[0] == "" then None else Stoull(tokens[0]);
      (if id.Some? then [AsInt64(id.value)] else []) + IdsOf(tokens[1..])
  }

  function NonEmpty(tokens: seq<string>): seq<string> {
    if tokens == [] then []
    else (if tokens[0] == "" then [] else [tokens[0]]) + NonEmpty(tokens[1..])
  }

  lemma IdsOfPush(out: seq<int>, token: string, tokens: seq<string>)
    ensures out + IdsOf([token] + tokens)
            == (if token != "" && Stoull(token).Some? then out + [AsInt64(Stoull(token).value)]
                else out) + IdsOf(tokens)
  {
    assert ([token] + tokens)[1..] == tokens;
  }

  lemma NonEmptyPush(out: seq<string>, token: string, tokens: seq<string>)
    ensures out + NonEmpty([token] + tokens) == (if token != "" then out + [token] else out) + NonEmpty(tokens)
  {
    assert ([token] + tokens)[1..] == tokens;
  }

  method ParseIds(input: string) returns (out: seq<int>)
    ensures out == IdsOf(Tokens(input, ','))
  {
    out := [];
    var ss := new StringStream(input);
    while true
      invariant ss.Valid()
      invariant IdsOf(Tokens(input, ',')) == out + IdsOf(Tokens(ss.Rest(), ','))
      decreases |ss.Rest()|
    {
      var ok, token := ss.GetLine(',');
      if !ok {
        break;
      }
      IdsOfPush(out, token, Tokens(ss.Rest(), ','));
      if token != "" {
        var id := Stoull(token);
        if id.None? {
          continue;
        }
        out := out + [AsInt64(id.value)];
      }
    }
  }

  method ParseStrings(input: string) returns (out: seq<string>)
    ensures out == NonEmpty(Tokens(input, ','))
  {
    out := [];
    var ss := new StringStream(input);
    while true
      invariant ss.Valid()
      invariant NonEmpty(Tokens(input, ',')) == out + NonEmpty(Tokens(ss.Rest(), ','))
      decreases |ss.Rest()|
    {
      var ok, token := ss.GetLine(',');
      if !ok {
        break;
      }
      NonEmptyPush(out, token, Tokens(ss.Rest(), ','));
      if token != "" {
        out := out + [token];
      }
    }
  }

  function Shown(ids: seq<int>): seq<string> {
    seq(|ids|, i requires 0 <= i < |ids| => Show(ids[i]))
  }

  /** Reading back a printed 64-bit number, the least one included: its magnitude 2^63 is negated
      modulo 2^64 and converted to a signed number. */
  lemma StoullOfShow(i: int)
    requires IsInt64(i)
    ensures Stoull(Show(i)).Some? && AsInt64(Stoull(Show(i)).value) == i
    ensures Show(i) != "" && ',' !in Show(i)
  {
    var n: nat := if i < 0 then -i else i;
    DecThenRest(n, "");
    assert Dec(n) + "" == Dec(n);
    assert Dec(n)[..|Dec(n)|] == Dec(n);
    if i < 0 {
      assert Show(i)[1..] == Dec(n);
    }
    assert LeadingSpaces(Show(i)) == 0;
    assert Show(i)[0..] == Show(i);
  }

  lemma {:induction false} IdsOfShown(ids: seq<int>)
    requires forall i :: 0 <= i < |ids| ==> IsInt64(ids[i])
    ensures IdsOf(Shown(ids)) == ids
  {
    if ids != [] {
      StoullOfShow(ids[0]);
      assert Shown(ids)[1..] == Shown(ids[1..]);
      IdsOfShown(ids[1..]);
    }
  }

  /** Printing any list of 64-bit ids with commas and parsing it returns the list. */
  lemma ParseIdsInvertsPrinting(ids: seq<int>)
    requires forall i :: 0 <= i < |ids| ==> IsInt64(ids[i])
    ensures IdsOf(Tokens(Join(Shown(ids), ','), ',')) == ids
  {
    forall i | 0 <= i < |ids|
      ensures Shown(ids)[i] != "" && ',' !in Shown(ids)[i]
    {
      StoullOfShow(ids[i]);
    }
    TokensOfJoin(Shown(ids), ',');
    IdsOfShown(ids);
  }

  lemma {:induction false} NonEmptyKeepsAll(tokens: seq<string>)
    requires forall i :: 0 <= i < |tokens| ==> tokens[i] != ""
    ensures NonEmpty(tokens) == tokens
  {
    if tokens != [] {
      NonEmptyKeepsAll(tokens[1..]);
    }
  }

  lemma {:induction false} NonEmptyTokens(tokens: seq<string>)
    requires forall i :: 0 <= i < |tokens| ==> ',' !in tokens[i]
    ensures forall i :: 0 <= i < |NonEmpty(tokens)| ==> NonEmpty(tokens)[i] != "" && ',' !in NonEmpty(tokens)[i]
  {
    if tokens != [] {
      NonEmptyTokens(tokens[1..]);
    }
  }

  /** What `parseStrings` returns are non-empty comma-free strings. */
  lemma ParsedStrings(input: string)
    ensures var out := NonEmpty(Tokens(input, ','));
            forall i :: 0 <= i < |out| ==> out[i] != "" && ',' !in out[i]
  {
    TokensAreDelimiterFree(input, ',');
    NonEmptyTokens(Tokens(input, ','));
  }

  /** `parseStrings` inverts joining of non-empty comma-free strings. */
  lemma ParseStringsInvertsJoin(pieces: seq<string>)
    requires forall i :: 0 <= i < |pieces| ==> pieces[i] != "" && ',' !in pieces[i]
    ensures NonEmpty(Tokens(Join(pieces, ','), ',')) == pieces
  {
    TokensOfJoin(pieces, ',');
    NonEmptyKeepsAll(pieces);
  }

  /** Splitting any input, joining and splitting again changes nothing more. */
  lemma SplitJoinSplit(input: string)
    ensures var out := NonEmpty(Tokens(input, ','));
            NonEmpty(Tokens(Join(out, ','), ',')) == out
  {
    ParsedStrings(input);
    ParseStringsInvertsJoin(NonEmpty(Tokens(input, ',')));
  }

  // Any token

  lemma {:induction false} LeadingSpacesOf(blanks: string, rest: string)
    requires Blank(blanks) && (rest == "" || !IsSpace(rest[0]))
    ensures LeadingSpaces(blanks + rest) == |blanks|
  {
    if blanks == "" {
      assert blanks + rest == rest;
    } else {
      assert (blanks + rest)[1..] == blanks[1..] + rest;
      LeadingSpacesOf(blanks[1..], rest);
    }
  }

  lemma BlanksAreSkipped(blanks: string, t: string)
    requires Blank(blanks) && (t == "" || !IsSpace(t[0]))
    ensures Stoull(blanks + t) == Stoull(t)
  {
    LeadingSpacesOf(blanks, t);
    LeadingSpacesOf("", t);
    assert "" + t == t && (blanks + t)[|blanks|..] == t && t[0..] == t;
  }

  lemma DigitsThenRest(digits: string, rest: string)
    requires AllDigits(digits) && EndsNumeral(rest)
    ensures LeadingDigits(digits + rest) == |digits| && (digits + rest)[..|digits|] == digits
  {
    LeadingDigitsConcat(digits, rest);
    LeadingDigitsOfNumeral(digits);
  }

  lemma SignedIsRead(sign: char, u: string, k: nat)
    requires (sign == '+' || sign == '-') && k == LeadingDigits(u)
    ensures Stoull([sign] + u)
            == if k == 0 || Value(u[..k]) >= TWO_64 then None
               else if sign == '-' && Value(u[..k]) > 0 then Some(TWO_64 - Value(u[..k]))
               else Some(Value(u[..k]))
  {
    var t := [sign] + u;
    assert LeadingSpaces(t) == 0 && t[0..] == t && t[1..] == u;
  }

  lemma UnsignedIsRead(u: string, k: nat)
    requires k == LeadingDigits(u) && (u != "" ==> !IsSpace(u[0]) && u[0] != '+' && u[0] != '-')
    ensures Stoull(u) == if k == 0 || Value(u[..k]) >= TWO_64 then None else Some(Value(u[..k]))
  {
    assert LeadingSpaces(u) == 0 && u[0..] == u;
  }

  /** What a token is read as: blanks, a sign, digits, and anything after them. */
  lemma StoullReads(blanks: string, sign: string, digits: string, rest: string)
    requires Blank(blanks) && sign in ["", "+", "-"] && digits != "" && AllDigits(digits) && EndsNumeral(rest)
    ensures Stoull(blanks + (sign + (digits + rest)))
            == if Value(digits) >= TWO_64 then None
               else if sign == "-" && Value(digits) > 0 then Some(TWO_64 - Value(digits))
               else Some(Value(digits))
  {
    var u := digits + rest;
    DigitsThenRest(digits, rest);
    assert u[0] == digits[0] && IsDigit(digits[0]);
    if sign == "" {
      assert sign + u == u;
      BlanksAreSkipped(blanks, u);
      UnsignedIsRead(u, |digits|);
    } else {
      assert sign + u == [sign[0]] + u;
      BlanksAreSkipped(blanks, [sign[0]] + u);
      SignedIsRead(sign[0], u, |digits|);
    }
  }

  /** What is no number: no digit after the blanks and the sign. */
  lemma StoullRefuses(blanks: string, sign: string, rest: string)
    requires Blank(blanks) && sign in ["", "+", "-"] && (rest == "" || !IsDigit(rest[0]))
    requires sign == "" && rest != "" ==> !IsSpace(rest[0]) && rest[0] != '+' && rest[0] != '-'
    ensures Stoull(blanks + (sign + rest)) == None
  {
    if sign == "" {
      assert sign + rest == rest;
      BlanksAreSkipped(blanks, rest);
      UnsignedIsRead(rest, 0);
    } else {
      assert sign + rest == [sign[0]] + rest;
      BlanksAreSkipped(blanks, [sign[0]] + rest);
      SignedIsRead(sign[0], rest, 0);
    }
  }

  lemma {:induction false} IdsOfConcat(a: seq<string>, b: seq<string>)
    ensures IdsOf(a + b) == IdsOf(a) + IdsOf(b)
  {
    if a == [] {
      assert a + b == b;
    } else {
      assert (a + b)[1..] == a[1..] + b;
      IdsOfConcat(a[1..], b);
    }
  }

  lemma IdsWithJunk(a: seq<string>, junk: string, b: seq<string>)
    requires junk == "" || Stoull(junk).None?
    ensures IdsOf(a + ([junk] + b)) == IdsOf(a + b)
  {
    IdsOfConcat(a, [junk] + b);
    IdsOfConcat(a, b);
    IdsOfConcat([junk], b);
    assert [junk][1..] == [] && IdsOf([junk]) == [];
  }

  /** A token that is no number is skipped, and the ones around it are read as without it. */
  lemma JunkIsSkipped(before: string, junk: string, after: string)
    requires ',' !in junk && (junk == "" || Stoull(junk).None?)
    ensures IdsOf(Tokens(before + [','] + (junk + [','] + after), ',')) == IdsOf(Tokens(before + [','] + after, ','))
  {
    TokensOfTwo(before, junk + [','] + after, ',');
    TokensOfTwo(before, after, ',');
    FirstToken(junk, after, ',');
    IdsWithJunk(Split(before, ','), junk, Tokens(after, ','));
  }
}
