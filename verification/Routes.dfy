/** Route templates: `compileRoute` turns one into regular-expression text, whose meaning is
    segment-wise matching. */
module Routes {
  import opened Options
  import opened Streams
  import opened Regexes

  // Templates

  datatype Segment = Literal(text: string) | Param(name: string)

  const SPECIALS: string := "\\.^$|()[]{}*+?!"

  function SegmentOf(seg: string): Segment
    requires seg != ""
  {
    if seg[0] == '{' && seg[|seg| - 1] == '}' then Param(seg[1..|seg| - 1]) else Literal(seg)
  }

  function SegmentsOf(pieces: seq<string>): seq<Segment> {
    if pieces == [] then []
    else if pieces[0] == "" then SegmentsOf(pieces[1..])
    else [SegmentOf(pieces[0])] + SegmentsOf(pieces[1..])
  }

  /** A template is its non-empty pieces between slashes. */
  function Template(tmpl: string): seq<Segment> {
    SegmentsOf(Tokens(tmpl, '/'))
  }

  function Names(segs: seq<Segment>): seq<string> {
    if segs == [] then []
    else (if segs[0].Param? then [segs[0].name] else []) + Names(segs[1..])
  }

  // Regular-expression text

  function Escape(s: string): string {
    if s == "" then "" else EscapeCharacter(s[0]) + Escape(s[1..])
  }

  function EscapeCharacter(c: char): string {
    if c in SPECIALS then ['\\', c] else [c]
  }

  lemma EscapeOne(c: char)
    ensures Escape([c]) == EscapeCharacter(c)
  {
    assert [c][1..] == "";
  }

  function SegmentText(seg: Segment): string {
    "/" + if seg.Param? then "([^/]+)" else Escape(seg.text)
  }

  function BodyText(segs: seq<Segment>): string {
    if segs == [] then "" else SegmentText(segs[0]) + BodyText(segs[1..])
  }

  function PatternText(segs: seq<Segment>): string {
    "^" + BodyText(segs) + "$"
  }

  lemma {:induction false} EscapeAppend(s: string, c: char)
    ensures Escape(s + [c]) == Escape(s) + Escape([c])
  {
    if s == "" {
      assert s + [c] == [c];
    } else {
      assert (s + [c])[1..] == s[1..] + [c];
      EscapeAppend(s[1..], c);
    }
  }

  lemma {:induction false} BodyTextAppend(segs: seq<Segment>, seg: Segment)
    ensures BodyText(segs + [seg]) == BodyText(segs) + SegmentText(seg)
  {
    if segs == [] {
      assert segs + [seg] == [seg] && [seg][1..] == [];
      assert BodyText([seg]) == SegmentText(seg) + "";
    } else {
      assert (segs + [seg])[1..] == segs[1..] + [seg];
      BodyTextAppend(segs[1..], seg);
    }
  }

  lemma {:induction false} NamesAppend(segs: seq<Segment>, seg: Segment)
    ensures Names(segs + [seg]) == Names(segs) + if seg.Param? then [seg.name] else []
  {
    if segs == [] {
      assert segs + [seg] == [seg];
    } else {
      assert (segs + [seg])[1..] == segs[1..] + [seg];
      NamesAppend(segs[1..], seg);
    }
  }

  method EscapeSegment(s: string) returns (out: string)
    ensures out == Escape(s)
  {
    out := "";
    for i := 0 to |s|
      invariant out == Escape(s[..i])
    {
      EscapeAppend(s[..i], s[i]);
      assert s[..i + 1] == s[..i] + [s[i]];
      if s[i] in SPECIALS {
        out := out + ['\\'];
      }
      out := out + [s[i]];
    }
    assert s[..|s|] == s;
  }

  lemma TextOfOneMore(segs: seq<Segment>, seg: Segment)
    ensures "^" + BodyText(segs + [seg]) == "^" + BodyText(segs) + SegmentText(seg)
    ensures Names(segs + [seg]) == Names(segs) + if seg.Param? then [seg.name] else []
  {
    BodyTextAppend(segs, seg);
    NamesAppend(segs, seg);
  }

  lemma SegmentsOfPush(segs: seq<Segment>, piece: string, pieces: seq<string>)
    ensures segs + SegmentsOf([piece] + pieces)
            == (if piece == "" then segs else segs + [SegmentOf(piece)]) + SegmentsOf(pieces)
  {
    assert ([piece] + pieces)[1..] == pieces;
  }

  /** The compiled route: its pattern text and the names of its parameters, in order. */
  method CompileRoute(tmpl: string) returns (pattern: string, params: seq<string>)
    ensures pattern == PatternText(Template(tmpl)) && params == Names(Template(tmpl))
  {
    pattern, params := "^", [];
    var ss := new StringStream(tmpl);
    ghost var segs: seq<Segment> := [];
    while true
      invariant ss.Valid()
      invariant Template(tmpl) == segs + SegmentsOf(Tokens(ss.Rest(), '/'))
      invariant pattern == "^" + BodyText(segs) && params == Names(segs)
      decreases |ss.Rest()|
    {
      ghost var rest := ss.Rest();
      var ok, seg := ss.GetLine('/');
      if !ok {
        assert Template(tmpl) == segs + SegmentsOf(Tokens("", '/')) == segs;
        break;
      }
      SegmentsOfPush(segs, seg, Tokens(ss.Rest(), '/'));
      if seg == "" {
        continue;
      }
      TextOfOneMore(segs, SegmentOf(seg));
      segs := segs + [SegmentOf(seg)];
      pattern, params := AddSegment(pattern, params, seg);
    }
    pattern := pattern + "$";
  }

  /** One non-empty piece of the template. */
  method AddSegment(pattern: string, params: seq<string>, seg: string) returns (pattern': string, params': seq<string>)
    requires seg != ""
    ensures pattern' == pattern + SegmentText(SegmentOf(seg))
    ensures params' == params + if SegmentOf(seg).Param? then [SegmentOf(seg).name] else []
  {
    var text;
    params' := params;
    if seg[0] == '{' && seg[|seg| - 1] == '}' {
      params' := params + [seg[1..|seg| - 1]];
      text := "([^/]+)";
    } else {
      text := EscapeSegment(seg);
    }
    pattern' := pattern + ("/" + text);
  }

  // The text parses

  function Characters(s: string): seq<Node> {
    if s == "" then [] else [One(Exact(s[0]))] + Characters(s[1..])
  }

  const PARAMETER: Node := Group([OneOrMore(NoneOf('/'))])

  function SegmentNodes(seg: Segment): seq<Node> {
    [One(Exact('/'))] + if seg.Param? then [PARAMETER] else Characters(seg.text)
  }

  function BodyNodes(segs: seq<Segment>): seq<Node> {
    if segs == [] then [] else SegmentNodes(segs[0]) + BodyNodes(segs[1..])
  }

  /** The reading of `rest` as a whole pattern is ns, and its first character is no quantifier. */
  ghost predicate Reads(rest: string, ns: seq<Node>) {
    ParseNodes(rest, false) == Some((ns, "")) && (rest == "" || rest[0] != '+')
  }

  lemma ReadsEscaped(c: char, rest: string, ns: seq<Node>)
    requires Reads(rest, ns)
    ensures Reads(Escape([c]) + rest, [One(Exact(c))] + ns)
  {
    var t := Escape([c]) + rest;
    EscapeOne(c);
    if c in SPECIALS {
      assert t[0] == '\\' && t[1] == c && t[2..] == rest;
    } else {
      assert t[0] == c && t[1..] == rest;
    }
  }

  lemma EscapeFirst(s: string, rest: string)
    requires s != ""
    ensures Escape(s) + rest == Escape([s[0]]) + (Escape(s[1..]) + rest)
  {
    EscapeOne(s[0]);
    Regroup(EscapeCharacter(s[0]), Escape(s[1..]), rest);
  }

  lemma Regroup(a: string, b: string, c: string)
    ensures (a + b) + c == a + (b + c)
  {
  }

  lemma {:induction false} ReadsLiteral(s: string, rest: string, ns: seq<Node>)
    requires Reads(rest, ns)
    ensures Reads(Escape(s) + rest, Characters(s) + ns)
  {
    if s == "" {
      assert Escape(s) + rest == rest && Characters(s) + ns == ns;
    } else {
      ReadsLiteral(s[1..], rest, ns);
      ReadsEscaped(s[0], Escape(s[1..]) + rest, Characters(s[1..]) + ns);
      EscapeFirst(s, rest);
      assert Characters(s) + ns == [One(Exact(s[0]))] + (Characters(s[1..]) + ns);
    }
  }

  lemma ReadsParameter(rest: string, ns: seq<Node>)
    requires Reads(rest, ns)
    ensures Reads("([^/]+)" + rest, [PARAMETER] + ns)
  {
    var t := "([^/]+)" + rest;
    assert t[1..] == "[^/]+)" + rest;
    assert t[1..][4..] == "+)" + rest;
    assert t[1..][4..][1..] == ")" + rest;
    assert (")" + rest)[1..] == rest;
    assert ParseNode(t[1..]) == Some((OneOrMore(NoneOf('/')), ")" + rest));
    assert ParseNodes(")" + rest, true) == Some(([], rest));
    ParseStep(t[1..], true);
    var none: seq<Node> := [];
    assert [OneOrMore(NoneOf('/'))] + none == [OneOrMore(NoneOf('/'))];
    assert ParseNode(t) == Some((PARAMETER, rest));
    ParseStep(t, false);
  }

  /** One step of the pattern parser, for texts that do not start with ')'. */
  lemma ParseStep(t: string, inGroup: bool)
    requires t != "" && t[0] != ')'
    ensures var first := ParseNode(t);
            && (first.None? ==> ParseNodes(t, inGroup).None?)
            && (first.Some? ==>
                  var others := ParseNodes(first.value.1, inGroup);
                  ParseNodes(t, inGroup) ==
                  if others.None? then None else Some(([first.value.0] + others.value.0, others.value.1)))
  {
  }

  lemma ReadsAfterSlash(text: string, nodes: seq<Node>)
    requires Reads(text, nodes)
    ensures Reads("/" + text, [One(Exact('/'))] + nodes)
  {
    ReadsEscaped('/', text, nodes);
    assert ['/'][1..] == "" && Escape(['/']) == "/";
  }

  lemma Grouped(a: string, b: string, c: string, m: seq<Node>, n: seq<Node>, o: seq<Node>)
    ensures (a + b) + c == a + (b + c) && (m + n) + o == m + (n + o)
  {
  }

  lemma ReadsSegment(seg: Segment, rest: string, ns: seq<Node>)
    requires Reads(rest, ns)
    ensures Reads(SegmentText(seg) + rest, SegmentNodes(seg) + ns)
  {
    if seg.Param? {
      ReadsParameter(rest, ns);
      ReadsAfterSlash("([^/]+)" + rest, [PARAMETER] + ns);
      Grouped("/", "([^/]+)", rest, [One(Exact('/'))], [PARAMETER], ns);
    } else {
      ReadsLiteral(seg.text, rest, ns);
      ReadsAfterSlash(Escape(seg.text) + rest, Characters(seg.text) + ns);
      Grouped("/", Escape(seg.text), rest, [One(Exact('/'))], Characters(seg.text), ns);
    }
  }

  lemma {:induction false} ReadsBody(segs: seq<Segment>)
    ensures Reads(BodyText(segs) + "$", BodyNodes(segs) + [Eol])
  {
    if segs == [] {
      var t := BodyText(segs) + "$";
      assert t == "$" && t[1..] == "";
      assert ParseNodes("", false) == Some(([], ""));
      assert BodyNodes(segs) + [Eol] == [Eol] + [];
    } else {
      var rest, ns := BodyText(segs[1..]) + "$", BodyNodes(segs[1..]) + [Eol];
      ReadsBody(segs[1..]);
      ReadsSegment(segs[0], rest, ns);
      assert BodyText(segs) + "$" == SegmentText(segs[0]) + rest;
      assert BodyNodes(segs) + [Eol] == SegmentNodes(segs[0]) + ns;
    }
  }

  /** Whatever the template, its pattern text is a well-formed regular expression: escaping leaves no
      stray syntax character. */
  lemma PatternParses(segs: seq<Segment>)
    ensures Parse(PatternText(segs)) == Some([Bol] + (BodyNodes(segs) + [Eol]))
  {
    ReadsBody(segs);
    var t := PatternText(segs);
    assert t == "^" + (BodyText(segs) + "$") && t[1..] == BodyText(segs) + "$";
    ParseStep(t, false);
  }
}
