/** Reading a string piece by piece up to a delimiter, as `std::getline` on a string stream does. */
module Streams {

  /** The first position of d in s at or after `from`, or |s|. */
  function Find(s: string, d: char, from: nat): (k: nat)
    requires from <= |s|
    ensures from <= k <= |s|
    ensures forall i :: from <= i < k ==> s[i] != d
    ensures k < |s| ==> s[k] == d
    decreases |s| - from
  {
    if from == |s| || s[from] == d then from else Find(s, d, from + 1)
  }

  /** What successive reads give: no token for an empty stream, none after a trailing delimiter. */
  function Tokens(s: string, d: char): seq<string> {
    if s == "" then []
    else
      var k := Find(s, d, 0);
      if k == |s| then [s] else [s[..k]] + Tokens(s[k + 1..], d)
  }

  function Join(pieces: seq<string>, d: char): string {
    if pieces == [] then ""
    else if |pieces| == 1 then pieces[0]
    else pieces[0] + [d] + Join(pieces[1..], d)
  }

  /** The position after the token that ends at `end`, past its delimiter if there is one. */
  function AfterToken(s: string, end: nat): (next: nat)
    requires end <= |s|
    ensures next <= |s|
  {
    if end == |s| then end else end + 1
  }

  class StringStream {
    const text: string
    var pos: nat

    ghost predicate Valid()
      reads this
    {
      pos <= |text|
    }

    ghost function Rest(): string
      requires Valid()
      reads this
    {
      text[pos..]
    }

    constructor (text: string)
      ensures Valid() && Rest() == text
    {
      this.text := text;
      pos := 0;
    }

    method GetLine(d: char) returns (ok: bool, token: string)
      requires Valid()
      modifies this
      ensures Valid()
      ensures ok <==> old(Rest()) != ""
      ensures ok ==> Tokens(old(Rest()), d) == [token] + Tokens(Rest(), d) && |Rest()| < |old(Rest())|
      ensures !ok ==> Rest() == ""
    {
      if pos == |text| {
        return false, "";
      }
      var end := Find(text, d, pos);
      var next := AfterToken(text, end);
      ReadsOneToken(text, d, pos, end, next);
      ok, token := true, text[pos..end];
      pos := next;
    }
  }

  lemma TokenThenRest(s: string, d: char, from: nat, end: nat)
    requires from <= end < |s| && s[end] == d && d !in s[from..end]
    ensures Tokens(s[from..], d) == [s[from..end]] + Tokens(s[end + 1..], d)
  {
    assert s[from..] == s[from..end] + [d] + s[end + 1..];
    FirstToken(s[from..end], s[end + 1..], d);
  }

  lemma NoneBefore(s: string, d: char, from: nat)
    requires from <= |s|
    ensures d !in s[from..Find(s, d, from)]
  {
  }

  lemma ReadsMiddleToken(s: string, d: char, from: nat, end: nat, next: nat)
    requires from <= end < |s| && end == Find(s, d, from) && next == end + 1
    ensures Tokens(s[from..], d) == [s[from..end]] + Tokens(s[next..], d)
  {
    NoneBefore(s, d, from);
    TokenThenRest(s, d, from, end);
  }

  lemma ReadsLastToken(s: string, d: char, from: nat, end: nat)
    requires from < |s| == end && end == Find(s, d, from)
    ensures Tokens(s[from..], d) == [s[from..end]] + Tokens(s[end..], d)
  {
    NoneBefore(s, d, from);
    assert s[from..end] == s[from..];
    LastToken(s[from..], d);
    assert s[end..] == "";
  }

  lemma ReadsOneToken(s: string, d: char, from: nat, end: nat, next: nat)
    requires from < |s| && end == Find(s, d, from) && next == AfterToken(s, end)
    ensures Tokens(s[from..], d) == [s[from..end]] + Tokens(s[next..], d)
  {
    if end < |s| {
      ReadsMiddleToken(s, d, from, end, next);
    } else {
      ReadsLastToken(s, d, from, end);
    }
  }

  lemma {:induction false} FindIsFirst(s: string, d: char, from: nat, k: nat)
    requires from <= k <= |s|
    requires forall i :: from <= i < k ==> s[i] != d
    requires k < |s| ==> s[k] == d
    ensures Find(s, d, from) == k
    decreases |s| - from
  {
    if from < k {
      FindIsFirst(s, d, from + 1, k);
    }
  }

  /** The first token of a delimiter-free piece followed by the delimiter. */
  lemma FirstToken(piece: string, rest: string, d: char)
    requires d !in piece
    ensures Tokens(piece + [d] + rest, d) == [piece] + Tokens(rest, d)
  {
    var s := piece + [d] + rest;
    FindIsFirst(s, d, 0, |piece|);
    assert s[..|piece|] == piece && s[|piece| + 1..] == rest;
  }

  lemma LastToken(piece: string, d: char)
    requires d !in piece && piece != ""
    ensures Tokens(piece, d) == [piece]
  {
    FindIsFirst(piece, d, 0, |piece|);
  }

  lemma {:induction false} TokensOfJoin(pieces: seq<string>, d: char)
    requires forall i :: 0 <= i < |pieces| ==> pieces[i] != "" && d !in pieces[i]
    ensures Tokens(Join(pieces, d), d) == pieces
  {
    if |pieces| == 1 {
      LastToken(pieces[0], d);
    } else if pieces != [] {
      TokensOfJoin(pieces[1..], d);
      FirstToken(pieces[0], Join(pieces[1..], d), d);
    }
  }

  lemma {:induction false} TokensAreDelimiterFree(s: string, d: char)
    ensures forall t :: t in Tokens(s, d) ==> d !in t
  {
    if s != "" {
      var k := Find(s, d, 0);
      if k < |s| {
        TokensAreDelimiterFree(s[k + 1..], d);
      }
    }
  }

  /** All pieces between delimiters, empty ones included. */
  function Split(s: string, d: char): (r: seq<string>)
    ensures r != []
  {
    var k := Find(s, d, 0);
    if k == |s| then [s] else [s[..k]] + Split(s[k + 1..], d)
  }

  lemma {:induction false} TokensOfTwo(s: string, rest: string, d: char)
    ensures Tokens(s + [d] + rest, d) == Split(s, d) + Tokens(rest, d)
  {
    var k := Find(s, d, 0);
    if k == |s| {
      FirstToken(s, rest, d);
    } else {
      var more := s[k + 1..] + [d] + rest;
      assert s + [d] + rest == s[..k] + [d] + more;
      TokensOfTwo(s[k + 1..], rest, d);
      FirstToken(s[..k], more, d);
    }
  }

  lemma {:induction false} TokensOfLast(s: string, d: char)
    requires s != "" && s[|s| - 1] != d
    ensures Tokens(s, d) == Split(s, d)
  {
    var k := Find(s, d, 0);
    if k < |s| {
      TokensOfLast(s[k + 1..], d);
    }
  }
}
