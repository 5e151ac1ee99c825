/** The fragment of ECMAScript regular expressions that routes use: its concrete syntax, read by a
    parser, and whole-string matching with captures. */
module Regexes {
  import opened Options

  /** One character: a given one, or any other than a given one. */
  datatype Atom = Exact(c: char) | NoneOf(c: char)

  datatype Node = Bol | Eol | One(atom: Atom) | OneOrMore(atom: Atom) | Group(body: seq<Node>)

  // Concrete syntax

  const SYNTAX_CHARACTERS: string := "\\^$.*+?()[]{}|"

  /** Characters whose backslash escape stands for themselves: not letters, digits, or '_'. */
  predicate IsPunctuation(c: char) {
    !('a' <= c <= 'z') && !('A' <= c <= 'Z') && !('0' <= c <= '9') && c != '_'
  }

  function ParseAtom(t: string): (r: Option<(Atom, string)>)
    ensures r.Some? ==> |r.value.1| < |t|
  {
    if t == "" then None
    else if t[0] == '\\' then
      if |t| >= 2 && IsPunctuation(t[1]) then Some((Exact(t[1]), t[2..])) else None
    else if t[0] == '[' then
      if |t| >= 4 && t[1] == '^' && t[2] !in "]\\[-" && t[3] == ']' then Some((NoneOf(t[2]), t[4..])) else None
    else if t[0] in SYNTAX_CHARACTERS then None
    else Some((Exact(t[0]), t[1..]))
  }

  /** An anchor, a group, or an atom with an optional `+`. Any other use of a syntax character is
      outside the fragment. */
  function ParseNode(t: string): (r: Option<(Node, string)>)
    ensures r.Some? ==> |r.value.1| < |t|
    decreases |t|, 0
  {
    if t == "" then None
    else if t[0] == '^' then Some((Bol, t[1..]))
    else if t[0] == '$' then Some((Eol, t[1..]))
    else if t[0] == '(' then
      var body := ParseNodes(t[1..], true);
      if body.None? then None else Some((Group(body.value.0), body.value.1))
    else
      var atom := ParseAtom(t);
      if atom.None? then None
      else
        var (a, rest) := atom.value;
        if rest != "" && rest[0] == '+' then Some((OneOrMore(a), rest[1..])) else Some((One(a), rest))
  }

  function ParseNodes(t: string, inGroup: bool): (r: Option<(seq<Node>, string)>)
    ensures r.Some? ==> |r.value.1| <= |t|
    decreases |t|, 1
  {
    if t == "" then (if inGroup then None else Some(([], "")))
    else if t[0] == ')' then (if inGroup then Some(([], t[1..])) else None)
    else
      var first := ParseNode(t);
      if first.None? then None
      else
        var others := ParseNodes(first.value.1, inGroup);
        if others.None? then None else Some(([first.value.0] + others.value.0, others.value.1))
  }

  function Parse(t: string): Option<seq<Node>> {
    var r := ParseNodes(t, false);
    if r.Some? && r.value.1 == "" then Some(r.value.0) else None
  }

  // Meaning

  predicate Accepts(a: Atom, x: char) {
    match a
    case Exact(c) => x == c
    case NoneOf(c) => x != c
  }

  /** Node n matches s[i..j] with these captures, outermost group first. */
  ghost predicate MatchesNode(n: Node, s: string, i: nat, j: nat, caps: seq<string>)
    requires i <= j <= |s|
    decreases n, 0
  {
    match n
    case Bol => i == j == 0 && caps == []
    case Eol => i == j == |s| && caps == []
    case One(a) => j == i + 1 && Accepts(a, s[i]) && caps == []
    case OneOrMore(a) => i < j && (forall k :: i <= k < j ==> Accepts(a, s[k])) && caps == []
    case Group(body) => caps != [] && caps[0] == s[i..j] && MatchesNodes(body, s, i, j, caps[1..])
  }

  ghost predicate MatchesNodes(ns: seq<Node>, s: string, i: nat, j: nat, caps: seq<string>)
    requires i <= j <= |s|
    decreases ns, 0
  {
    if ns == [] then i == j && caps == []
    else exists m: nat, k: nat ::
      && i <= m <= j && k <= |caps|
      && MatchesNode(ns[0], s, i, m, caps[..k]) && MatchesNodes(ns[1..], s, m, j, caps[k..])
  }

  /** `regex_match`: the pattern matches the whole string with these captures. */
  ghost predicate Matches(pattern: string, s: string, caps: seq<string>) {
    var p := Parse(pattern);
    p.Some? && MatchesNodes(p.value, s, 0, |s|, caps)
  }

  // Rules for single nodes at the front of a pattern

  lemma Cons(n: Node, ns: seq<Node>, s: string, i: nat, m: nat, j: nat, c1: seq<string>, c2: seq<string>)
    requires i <= m <= j <= |s|
    requires MatchesNode(n, s, i, m, c1) && MatchesNodes(ns, s, m, j, c2)
    ensures MatchesNodes([n] + ns, s, i, j, c1 + c2)
  {
    var caps := c1 + c2;
    assert caps[..|c1|] == c1 && caps[|c1|..] == c2;
    assert ([n] + ns)[0] == n && ([n] + ns)[1..] == ns;
  }

  lemma Uncons(n: Node, ns: seq<Node>, s: string, i: nat, j: nat, caps: seq<string>) returns (m: nat, k: nat)
    requires i <= j <= |s| && MatchesNodes([n] + ns, s, i, j, caps)
    ensures i <= m <= j && k <= |caps|
    ensures MatchesNode(n, s, i, m, caps[..k]) && MatchesNodes(ns, s, m, j, caps[k..])
  {
    assert ([n] + ns)[0] == n && ([n] + ns)[1..] == ns;
    m, k :| i <= m <= j && k <= |caps|
            && MatchesNode(([n] + ns)[0], s, i, m, caps[..k]) && MatchesNodes(([n] + ns)[1..], s, m, j, caps[k..]);
  }

  lemma CharacterFirst(c: char, ns: seq<Node>, s: string, i: nat, j: nat, caps: seq<string>)
    requires i <= j <= |s|
    ensures MatchesNodes([One(Exact(c))] + ns, s, i, j, caps)
            <==> i < j && s[i] == c && MatchesNodes(ns, s, i + 1, j, caps)
  {
    var n := One(Exact(c));
    if MatchesNodes([n] + ns, s, i, j, caps) {
      var m, k := Uncons(n, ns, s, i, j, caps);
      assert k == 0 && caps[0..] == caps;
    }
    if i < j && s[i] == c && MatchesNodes(ns, s, i + 1, j, caps) {
      Cons(n, ns, s, i, i + 1, j, [], caps);
      assert [] + caps == caps;
    }
  }

  /** A captured run of characters other than c, of any positive length. */
  lemma RunFirst(c: char, ns: seq<Node>, s: string, i: nat, j: nat, caps: seq<string>)
    requires i <= j <= |s|
    ensures MatchesNodes([Group([OneOrMore(NoneOf(c))])] + ns, s, i, j, caps)
            <==> exists m: nat :: i < m <= j && c !in s[i..m] && caps != [] && caps[0] == s[i..m]
                   && MatchesNodes(ns, s, m, j, caps[1..])
  {
    var run := OneOrMore(NoneOf(c));
    var n := Group([run]);
    if MatchesNodes([n] + ns, s, i, j, caps) {
      var m, k := Uncons(n, ns, s, i, j, caps);
      assert [run] == [run] + [];
      var m', k' := Uncons(run, [], s, i, m, caps[..k][1..]);
      assert caps[..k][1..] == [] && k == 1;
      assert forall q :: i <= q < m ==> Accepts(run.atom, s[q]);
      assert c !in s[i..m];
    }
    if m: nat :|
      i < m <= j && c !in s[i..m] && caps != [] && caps[0] == s[i..m] && MatchesNodes(ns, s, m, j, caps[1..])
    {
      forall q | i <= q < m ensures Accepts(run.atom, s[q]) {
        assert s[q] == s[i..m][q - i];
      }
      assert MatchesNodes([], s, m, m, []);
      Cons(run, [], s, i, m, m, [], []);
      var none: seq<string> := [];
      assert [run] + [] == [run] && none + none == none;
      assert [caps[0]][1..] == [];
      assert MatchesNode(n, s, i, m, [caps[0]]);
      Cons(n, ns, s, i, m, j, [caps[0]], caps[1..]);
      assert [caps[0]] + caps[1..] == caps;
    }
  }
}
