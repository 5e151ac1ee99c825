/** What a compiled route matches: the meaning of its pattern text is segment-wise matching, its
    captures are unique, and filling a template's parameters and matching is a round trip. */
module RouteMatching {
  import opened Streams
  import opened Regexes
  import opened Routes

  /** A path made of pieces, each after a slash. */
  function Slashed(pieces: seq<string>): string {
    if pieces == [] then "" else "/" + pieces[0] + Slashed(pieces[1..])
  }

  predicate Fits(seg: Segment, piece: string) {
    match seg
    case Literal(text) => piece == text
    case Param(_) => piece != "" && '/' !in piece
  }

  function Captured(segs: seq<Segment>, pieces: seq<string>): seq<string>
    requires |segs| == |pieces|
  {
    if segs == [] then []
    else (if segs[0].Param? then [pieces[0]] else []) + Captured(segs[1..], pieces[1..])
  }

  /** The path is one slash-prefixed piece per segment: literals equal, parameters non-empty and
      slash-free; the captures are the pieces at the parameters. */
  ghost predicate FitsPath(segs: seq<Segment>, pieces: seq<string>, path: string, caps: seq<string>) {
    && |pieces| == |segs|
    && (forall i :: 0 <= i < |segs| ==> Fits(segs[i], pieces[i]))
    && path == Slashed(pieces) && caps == Captured(segs, pieces)
  }

  /** Segments that come from a template: literals are non-empty and slash-free. */
  ghost predicate Proper(segs: seq<Segment>) {
    forall i :: 0 <= i < |segs| ==> segs[i].Literal? ==> segs[i].text != "" && '/' !in segs[i].text
  }

  lemma {:induction false} TemplateIsProper(pieces: seq<string>)
    requires forall i :: 0 <= i < |pieces| ==> '/' !in pieces[i]
    ensures Proper(SegmentsOf(pieces))
  {
    if pieces != [] {
      TemplateIsProper(pieces[1..]);
    }
  }

  lemma {:induction false} LiteralFirst(t: string, ns: seq<Node>, s: string, i: nat, j: nat, caps: seq<string>)
    requires i <= j <= |s|
    ensures MatchesNodes(Characters(t) + ns, s, i, j, caps)
            <==> i + |t| <= j && s[i..i + |t|] == t && MatchesNodes(ns, s, i + |t|, j, caps)
  {
    if t == "" {
      assert Characters(t) + ns == ns;
    } else {
      assert Characters(t) + ns == [One(Exact(t[0]))] + (Characters(t[1..]) + ns);
      CharacterFirst(t[0], Characters(t[1..]) + ns, s, i, j, caps);
      if i < j {
        LiteralFirst(t[1..], ns, s, i + 1, j, caps);
        if i + |t| <= j {
          assert s[i..i + |t|] == [s[i]] + s[i + 1..i + 1 + |t[1..]|];
          assert t == [t[0]] + t[1..];
        }
      }
    }
  }

  lemma EndOnly(s: string, i: nat, caps: seq<string>)
    requires i <= |s|
    ensures MatchesNodes([Eol], s, i, |s|, caps) <==> i == |s| && caps == []
  {
    assert [Eol] == [Eol] + [];
    if MatchesNodes([Eol], s, i, |s|, caps) {
      var m, k := Uncons(Eol, [], s, i, |s|, caps);
      assert caps == caps[..k] + caps[k..];
    }
    if i == |s| && caps == [] {
      Cons(Eol, [], s, i, i, i, [], []);
      assert caps == caps + caps;
    }
  }

  /** s[i..m] is a slash and a piece that fits the segment, captured first if it is a parameter. */
  predicate SegmentAt(seg: Segment, s: string, i: nat, m: nat, caps: seq<string>) {
    && i < m <= |s| && s[i] == '/' && Fits(seg, s[i + 1..m])
    && (seg.Param? ==> caps != [] && caps[0] == s[i + 1..m])
  }

  function Later(seg: Segment, caps: seq<string>): seq<string> {
    if seg.Param? && caps != [] then caps[1..] else caps
  }

  lemma SegmentFirst(seg: Segment, ns: seq<Node>, s: string, i: nat, caps: seq<string>)
    requires i <= |s|
    ensures MatchesNodes(SegmentNodes(seg) + ns, s, i, |s|, caps)
            <==> exists m: nat :: SegmentAt(seg, s, i, m, caps) && MatchesNodes(ns, s, m, |s|, Later(seg, caps))
  {
    var inner: seq<Node> := if seg.Param? then [PARAMETER] else Characters(seg.text);
    assert SegmentNodes(seg) + ns == [One(Exact('/'))] + (inner + ns);
    CharacterFirst('/', inner + ns, s, i, |s|, caps);
    if i < |s| && s[i] == '/' {
      if seg.Param? {
        ParameterAfterSlash(seg, ns, s, i, caps);
      } else {
        LiteralAfterSlash(seg, ns, s, i, caps);
      }
    }
  }

  lemma ParameterAfterSlash(seg: Segment, ns: seq<Node>, s: string, i: nat, caps: seq<string>)
    requires i < |s| && s[i] == '/' && seg.Param?
    ensures MatchesNodes([PARAMETER] + ns, s, i + 1, |s|, caps)
            <==> exists m: nat :: SegmentAt(seg, s, i, m, caps) && MatchesNodes(ns, s, m, |s|, Later(seg, caps))
  {
    RunFirst('/', ns, s, i + 1, |s|, caps);
    if m: nat :| i + 1 < m <= |s| && '/' !in s[i + 1..m] && caps != [] && caps[0] == s[i + 1..m]
                 && MatchesNodes(ns, s, m, |s|, caps[1..]) {
      assert SegmentAt(seg, s, i, m, caps);
    }
    if m: nat :| SegmentAt(seg, s, i, m, caps) && MatchesNodes(ns, s, m, |s|, Later(seg, caps)) {
      assert i + 1 < m <= |s| && '/' !in s[i + 1..m];
    }
  }

  lemma LiteralAfterSlash(seg: Segment, ns: seq<Node>, s: string, i: nat, caps: seq<string>)
    requires i < |s| && s[i] == '/' && seg.Literal?
    ensures MatchesNodes(Characters(seg.text) + ns, s, i + 1, |s|, caps)
            <==> exists m: nat :: SegmentAt(seg, s, i, m, caps) && MatchesNodes(ns, s, m, |s|, Later(seg, caps))
  {
    LiteralFirst(seg.text, ns, s, i + 1, |s|, caps);
    if i + 1 + |seg.text| <= |s| && s[i + 1..i + 1 + |seg.text|] == seg.text {
      assert SegmentAt(seg, s, i, i + 1 + |seg.text|, caps);
    }
  }

  /** A match of the body gives the pieces. */
  lemma {:induction false} BodyGivesPieces(segs: seq<Segment>, s: string, i: nat, caps: seq<string>)
    returns (pieces: seq<string>)
    requires i <= |s| && MatchesNodes(BodyNodes(segs) + [Eol], s, i, |s|, caps)
    ensures FitsPath(segs, pieces, s[i..], caps)
  {
    if segs == [] {
      assert BodyNodes(segs) + [Eol] == [Eol];
      EndOnly(s, i, caps);
      pieces := [];
    } else {
      var ns := BodyNodes(segs[1..]) + [Eol];
      assert BodyNodes(segs) + [Eol] == SegmentNodes(segs[0]) + ns;
      SegmentFirst(segs[0], ns, s, i, caps);
      var m: nat :| SegmentAt(segs[0], s, i, m, caps) && MatchesNodes(ns, s, m, |s|, Later(segs[0], caps));
      var others := BodyGivesPieces(segs[1..], s, m, Later(segs[0], caps));
      pieces := PiecePrepends(segs, s, i, m, caps, others);
    }
  }

  lemma PiecePrepends(segs: seq<Segment>, s: string, i: nat, m: nat, caps: seq<string>, others: seq<string>)
    returns (pieces: seq<string>)
    requires segs != [] && SegmentAt(segs[0], s, i, m, caps)
    requires FitsPath(segs[1..], others, s[m..], Later(segs[0], caps))
    ensures pieces == [s[i + 1..m]] + others && FitsPath(segs, pieces, s[i..], caps)
  {
    pieces := [s[i + 1..m]] + others;
    assert pieces[1..] == others;
    assert s[i..] == "/" + s[i + 1..m] + s[m..];
    assert caps == (if segs[0].Param? then [pieces[0]] else []) + Later(segs[0], caps);
    forall k | 0 <= k < |segs|
      ensures Fits(segs[k], pieces[k])
    {
      if k > 0 {
        assert Fits(segs[1..][k - 1], others[k - 1]);
      }
    }
  }

  /** Pieces that fit give a match of the body. */
  lemma {:induction false} PiecesMatchBody(segs: seq<Segment>, pieces: seq<string>, s: string, i: nat,
          caps: seq<string>)
    requires i <= |s| && FitsPath(segs, pieces, s[i..], caps)
    ensures MatchesNodes(BodyNodes(segs) + [Eol], s, i, |s|, caps)
  {
    if segs == [] {
      assert BodyNodes(segs) + [Eol] == [Eol];
      EndOnly(s, i, caps);
    } else {
      var ns := BodyNodes(segs[1..]) + [Eol];
      assert BodyNodes(segs) + [Eol] == SegmentNodes(segs[0]) + ns;
      var m := FirstPieceFits(segs, pieces, s, i, caps);
      PiecesMatchBody(segs[1..], pieces[1..], s, m, Later(segs[0], caps));
      SegmentFirst(segs[0], ns, s, i, caps);
    }
  }

  lemma FirstPieceFits(segs: seq<Segment>, pieces: seq<string>, s: string, i: nat, caps: seq<string>) returns (m: nat)
    requires segs != [] && i <= |s| && FitsPath(segs, pieces, s[i..], caps)
    ensures SegmentAt(segs[0], s, i, m, caps)
    ensures FitsPath(segs[1..], pieces[1..], s[m..], Later(segs[0], caps))
  {
    var piece, rest := pieces[0], Slashed(pieces[1..]);
    m := i + 1 + |piece|;
    assert s[i..] == "/" + piece + rest;
    assert s[i] == s[i..][0] == '/';
    assert s[i + 1..m] == s[i..][1..1 + |piece|] == piece;
    assert s[m..] == s[i..][1 + |piece|..] == rest;
    assert Fits(segs[0], piece);
    assert caps == (if segs[0].Param? then [piece] else []) + Captured(segs[1..], pieces[1..]);
    assert Later(segs[0], caps) == Captured(segs[1..], pieces[1..]);
  }

  lemma BolFirst(ns: seq<Node>, s: string, caps: seq<string>)
    ensures MatchesNodes([Bol] + ns, s, 0, |s|, caps) <==> MatchesNodes(ns, s, 0, |s|, caps)
  {
    if MatchesNodes([Bol] + ns, s, 0, |s|, caps) {
      var m, k := Uncons(Bol, ns, s, 0, |s|, caps);
      assert k == 0 && caps[0..] == caps;
    }
    if MatchesNodes(ns, s, 0, |s|, caps) {
      Cons(Bol, ns, s, 0, 0, |s|, [], caps);
      assert [] + caps == caps;
    }
  }

  /** The meaning of a compiled route: its regular expression matches a path, with some captures,
      exactly when the path fits the template segment by segment. */
  lemma PatternMeansSegments(tmpl: string, path: string, caps: seq<string>)
    ensures Matches(PatternText(Template(tmpl)), path, caps)
            <==> exists pieces :: FitsPath(Template(tmpl), pieces, path, caps)
  {
    var segs := Template(tmpl);
    PatternParses(segs);
    var ns := BodyNodes(segs) + [Eol];
    BolFirst(ns, path, caps);
    assert path[0..] == path;
    if MatchesNodes(ns, path, 0, |path|, caps) {
      var pieces := BodyGivesPieces(segs, path, 0, caps);
    }
    if pieces :| FitsPath(segs, pieces, path, caps) {
      PiecesMatchBody(segs, pieces, path, 0, caps);
    }
  }

  /** A path splits into non-empty slash-free pieces in one way only. */
  lemma {:induction false} SlashedIsInjective(p: seq<string>, q: seq<string>)
    requires forall i :: 0 <= i < |p| ==> p[i] != "" && '/' !in p[i]
    requires forall i :: 0 <= i < |q| ==> q[i] != "" && '/' !in q[i]
    requires Slashed(p) == Slashed(q)
    ensures p == q
  {
    if p != [] && q != [] {
      var restP, restQ := Slashed(p[1..]), Slashed(q[1..]);
      assert Slashed(p)[1..] == p[0] + restP && Slashed(q)[1..] == q[0] + restQ;
      FirstPieceIsUnique(p[0], restP, q[0], restQ);
      assert (p[0] + restP)[|p[0]|..] == restP && (q[0] + restQ)[|p[0]|..] == restQ;
      SlashedIsInjective(p[1..], q[1..]);
    }
  }

  lemma FirstPieceIsUnique(a: string, restA: string, b: string, restB: string)
    requires '/' !in a && '/' !in b && a + restA == b + restB
    requires (restA == "" || restA[0] == '/') && (restB == "" || restB[0] == '/')
    ensures a == b
  {
    var s := a + restA;
    FindIsFirst(s, '/', 0, |a|);
    FindIsFirst(s, '/', 0, |b|);
    assert s[..|a|] == a && s[..|b|] == b;
  }

  /** A path has at most one list of captures, whatever order the engine tries alternatives in. */
  lemma CapturesAreUnique(tmpl: string, path: string, caps: seq<string>, caps': seq<string>)
    requires Matches(PatternText(Template(tmpl)), path, caps) && Matches(PatternText(Template(tmpl)), path, caps')
    ensures caps == caps' && |caps| == |Names(Template(tmpl))|
  {
    var segs := Template(tmpl);
    TokensAreDelimiterFree(tmpl, '/');
    TemplateIsProper(Tokens(tmpl, '/'));
    PatternMeansSegments(tmpl, path, caps);
    PatternMeansSegments(tmpl, path, caps');
    var p :| FitsPath(segs, p, path, caps);
    var q :| FitsPath(segs, q, path, caps');
    forall i | 0 <= i < |segs|
      ensures p[i] != "" && '/' !in p[i] && q[i] != "" && '/' !in q[i]
    {
      assert Fits(segs[i], p[i]) && Fits(segs[i], q[i]);
    }
    SlashedIsInjective(p, q);
    OneCapturePerName(segs, p);
  }

  lemma {:induction false} OneCapturePerName(segs: seq<Segment>, pieces: seq<string>)
    requires |segs| == |pieces|
    ensures |Captured(segs, pieces)| == |Names(segs)|
  {
    if segs != [] {
      OneCapturePerName(segs[1..], pieces[1..]);
    }
  }

  /** A template without segments matches the empty path only, "/" included. */
  lemma RootMatchesEmptyPathOnly(tmpl: string, path: string, caps: seq<string>)
    requires forall i :: 0 <= i < |tmpl| ==> tmpl[i] == '/'
    ensures Matches(PatternText(Template(tmpl)), path, caps) <==> path == "" && caps == []
  {
    SlashesHaveNoSegment(tmpl);
    PatternMeansSegments(tmpl, path, caps);
    if path == "" && caps == [] {
      var none: seq<string> := [];
      assert FitsPath([], none, path, caps);
    }
  }

  lemma {:induction false} SlashesHaveNoSegment(tmpl: string)
    requires forall i :: 0 <= i < |tmpl| ==> tmpl[i] == '/'
    ensures Template(tmpl) == []
  {
    if tmpl != "" {
      SlashesHaveNoSegment(tmpl[1..]);
      FindIsFirst(tmpl, '/', 0, 0);
      assert Tokens(tmpl, '/') == [tmpl[..0]] + Tokens(tmpl[1..], '/');
      assert ([tmpl[..0]] + Tokens(tmpl[1..], '/'))[1..] == Tokens(tmpl[1..], '/');
    }
  }

  // Binding parameters

  /** The parameter map of a match: a later parameter of the same name wins. */
  function Bind(names: seq<string>, caps: seq<string>): map<string, string>
    requires |names| == |caps|
  {
    if names == [] then map[]
    else Bind(names[..|names| - 1], caps[..|caps| - 1])[names[|names| - 1] := caps[|caps| - 1]]
  }

  method BindParams(names: seq<string>, caps: seq<string>) returns (params: map<string, string>)
    requires |names| == |caps|
    ensures params == Bind(names, caps)
  {
    params := map[];
    for i := 0 to |names|
      invariant params == Bind(names[..i], caps[..i])
    {
      assert names[..i + 1][..i] == names[..i] && caps[..i + 1][..i] == caps[..i];
      params := params[names[i] := caps[i]];
    }
    assert names[..|names|] == names && caps[..|names|] == caps;
  }

  function Fill(segs: seq<Segment>, env: map<string, string>): seq<string>
    requires forall i :: 0 <= i < |segs| ==> segs[i].Param? ==> segs[i].name in env
  {
    seq(|segs|, i requires 0 <= i < |segs| => if segs[i].Param? then env[segs[i].name] else segs[i].text)
  }

  predicate Distinct(names: seq<string>) {
    forall i, j :: 0 <= i < j < |names| ==> names[i] != names[j]
  }

  lemma {:induction false} FilledCaptures(segs: seq<Segment>, env: map<string, string>)
    requires forall i :: 0 <= i < |segs| ==> segs[i].Param? ==> segs[i].name in env
    ensures var names := Names(segs);
            && |Captured(segs, Fill(segs, env))| == |names|
            && forall i :: 0 <= i < |names| ==> names[i] in env && Captured(segs, Fill(segs, env))[i] == env[names[i]]
  {
    if segs != [] {
      var fill := Fill(segs, env);
      assert fill[1..] == Fill(segs[1..], env);
      FilledCaptures(segs[1..], env);
      var names, caps := Names(segs[1..]), Captured(segs[1..], fill[1..]);
      if segs[0].Param? {
        assert Names(segs) == [segs[0].name] + names && Captured(segs, fill) == [fill[0]] + caps;
      } else {
        assert Names(segs) == names && Captured(segs, fill) == caps;
      }
    }
  }

  /** A name is bound to the capture of its last parameter; only names are bound. */
  lemma {:induction false} LastOfNameIsBound(names: seq<string>, caps: seq<string>, i: nat)
    requires |names| == |caps| && i < |names|
    requires forall j :: i < j < |names| ==> names[j] != names[i]
    ensures names[i] in Bind(names, caps) && Bind(names, caps)[names[i]] == caps[i]
    ensures Bind(names, caps).Keys == set k | 0 <= k < |names| :: names[k]
  {
    var n := |names| - 1;
    if i < n {
      LastOfNameIsBound(names[..n], caps[..n], i);
    } else if n > 0 {
      var k := LastOf(names[..n], names[n - 1]);
      LastOfNameIsBound(names[..n], caps[..n], k);
    }
    assert forall k :: 0 <= k < n ==> names[k] == names[..n][k];
  }

  lemma {:induction false} LastOf(names: seq<string>, name: string) returns (k: nat)
    requires name in names
    ensures k < |names| && names[k] == name && forall j :: k < j < |names| ==> names[j] != name
  {
    k := |names| - 1;
    if names[k] != name {
      k := LastOf(names[..k], name);
    }
  }

  lemma {:induction false} BindDistinct(names: seq<string>, caps: seq<string>)
    requires |names| == |caps| && Distinct(names)
    ensures Bind(names, caps).Keys == set i | 0 <= i < |names| :: names[i]
    ensures forall i :: 0 <= i < |names| ==> names[i] in Bind(names, caps) && Bind(names, caps)[names[i]] == caps[i]
  {
    if names != [] {
      var n := |names| - 1;
      BindDistinct(names[..n], caps[..n]);
      forall i | 0 <= i < n
        ensures names[i] in Bind(names, caps) && Bind(names, caps)[names[i]] == caps[i]
      {
        assert names[..n][i] == names[i] && names[i] != names[n];
      }
      assert Bind(names, caps).Keys == Bind(names[..n], caps[..n]).Keys + {names[n]};
      assert forall i :: 0 <= i < n ==> names[i] == names[..n][i];
    }
  }

  /** Round trip: substituting slash-free non-empty values for a template's distinct parameters gives a
      path that the compiled route matches, and every match binds exactly those values. */
  lemma FillThenMatch(tmpl: string, env: map<string, string>, caps: seq<string>)
    requires var segs := Template(tmpl);
             && Distinct(Names(segs))
             && (forall i :: 0 <= i < |segs| ==> segs[i].Param? ==> segs[i].name in env)
             && (forall name :: name in env ==> env[name] != "" && '/' !in env[name])
    ensures var segs := Template(tmpl);
            var path := Slashed(Fill(segs, env));
            var names := Names(segs);
            && Matches(PatternText(segs), path, Captured(segs, Fill(segs, env)))
            && (Matches(PatternText(segs), path, caps) ==>
                  && |caps| == |names|
                  && Bind(names, caps).Keys == (set i | 0 <= i < |names| :: names[i])
                  && forall i :: 0 <= i < |names| ==> names[i] in env && Bind(names, caps)[names[i]] == env[names[i]])
  {
    var segs := Template(tmpl);
    var pieces := Fill(segs, env);
    var good := Captured(segs, pieces);
    assert FitsPath(segs, pieces, Slashed(pieces), good);
    PatternMeansSegments(tmpl, Slashed(pieces), good);
    FilledCaptures(segs, env);
    if Matches(PatternText(segs), Slashed(pieces), caps) {
      CapturesAreUnique(tmpl, Slashed(pieces), caps, good);
      BindDistinct(Names(segs), caps);
    }
  }

  // Templates as they are written

  /** A segment that can be written: a literal that is not in braces, or any name, without slashes. */
  predicate Writable(seg: Segment) {
    match seg
    case Literal(t) => t != "" && '/' !in t && !(t[0] == '{' && t[|t| - 1] == '}')
    case Param(n) => '/' !in n
  }

  function Written(segs: seq<Segment>): string {
    if segs == [] then ""
    else (if segs[0].Param? then "/{" + segs[0].name + "}" else "/" + segs[0].text) + Written(segs[1..])
  }

  lemma {:induction false} WrittenStarts(segs: seq<Segment>)
    ensures Written(segs) == "" || Written(segs)[0] == '/'
  {
  }

  lemma PieceOfSegment(seg: Segment)
    requires Writable(seg)
    ensures var piece := PieceText(seg);
            piece != "" && '/' !in piece && SegmentOf(piece) == seg
  {
    if seg.Param? {
      var piece := "{" + seg.name + "}";
      assert piece[1..|piece| - 1] == seg.name;
    }
  }

  lemma SlashFirst(text: string)
    ensures Tokens("/" + text, '/') == [""] + Tokens(text, '/')
  {
    assert "" + ['/'] + text == "/" + text;
    FirstToken("", text, '/');
  }

  lemma SegmentsOfFirst(piece: string, pieces: seq<string>)
    ensures SegmentsOf([piece] + pieces) == (if piece == "" then [] else [SegmentOf(piece)]) + SegmentsOf(pieces)
  {
    assert ([piece] + pieces)[1..] == pieces;
  }

  /** A template that starts with one piece. */
  lemma TemplateStep(piece: string, rest: string)
    requires piece != "" && '/' !in piece && (rest == "" || rest[0] == '/')
    ensures Template("/" + (piece + rest)) == [SegmentOf(piece)] + Template(rest)
  {
    SlashFirst(piece + rest);
    SegmentsOfFirst("", Tokens(piece + rest, '/'));
    TokensOfPiece(piece, rest);
    if rest == "" {
      SegmentsOfFirst(piece, []);
      assert [piece] + [] == [piece];
    } else {
      var more := Tokens(rest[1..], '/');
      SegmentsOfFirst(piece, more);
      SlashFirst(rest[1..]);
      assert "/" + rest[1..] == rest;
      SegmentsOfFirst("", more);
    }
  }

  function PieceText(seg: Segment): string {
    if seg.Param? then "{" + seg.name + "}" else seg.text
  }

  lemma WrittenStep(segs: seq<Segment>)
    requires segs != []
    ensures Written(segs) == "/" + (PieceText(segs[0]) + Written(segs[1..]))
  {
  }

  /** Reading a written template gives its segments: parameters in braces, everything else literal. */
  lemma {:induction false} TemplateReadsWritten(segs: seq<Segment>)
    requires forall i :: 0 <= i < |segs| ==> Writable(segs[i])
    ensures Template(Written(segs)) == segs
  {
    if segs != [] {
      TemplateReadsWritten(segs[1..]);
      PieceOfSegment(segs[0]);
      WrittenStarts(segs[1..]);
      WrittenStep(segs);
      TemplateStep(PieceText(segs[0]), Written(segs[1..]));
      assert [segs[0]] + segs[1..] == segs;
    }
  }

  lemma TokensOfPiece(piece: string, rest: string)
    requires piece != "" && '/' !in piece && (rest == "" || rest[0] == '/')
    ensures Tokens(piece + rest, '/') == [piece] + if rest == "" then [] else Tokens(rest[1..], '/')
  {
    if rest == "" {
      assert piece + rest == piece;
      LastToken(piece, '/');
    } else {
      assert piece + rest == piece + ['/'] + rest[1..];
      FirstToken(piece, rest[1..], '/');
    }
  }

  /** A written route, compiled: a path matches, with some captures, exactly when it has one piece for each
      segment, the literal's text or any non-empty slash-free value, and the values are the captures. */
  lemma WrittenRouteMatches(segs: seq<Segment>, path: string, caps: seq<string>)
    requires forall i :: 0 <= i < |segs| ==> Writable(segs[i])
    ensures Matches(PatternText(Template(Written(segs))), path, caps)
            <==> exists pieces :: FitsPath(segs, pieces, path, caps)
  {
    TemplateReadsWritten(segs);
    PatternMeansSegments(Written(segs), path, caps);
  }

  /** One parameter after a literal, such as `/users/{id}`. */
  lemma ParameterRoute(text: string, name: string, value: string)
    requires Writable(Literal(text)) && '/' !in name && value != "" && '/' !in value
    ensures var tmpl := "/" + (text + ("/{" + name + "}"));
            && Template(tmpl) == [Literal(text), Param(name)] && Names(Template(tmpl)) == [name]
            && Matches(PatternText(Template(tmpl)), "/" + text + ("/" + value), [value])
    ensures Bind([name], [value]) == map[name := value]
  {
    var segs := [Literal(text), Param(name)];
    ParameterTemplate(text, name);
    ParameterFits(text, name, value);
    PatternMeansSegments("/" + (text + ("/{" + name + "}")), "/" + text + ("/" + value), [value]);
    assert segs[1..] == [Param(name)] && [Param(name)][1..] == [];
    assert Names([Param(name)]) == [name] + [];
    assert [name][..0] == [] && [value][..0] == [];
  }

  lemma ParameterTemplate(text: string, name: string)
    requires Writable(Literal(text)) && '/' !in name
    ensures Template("/" + (text + ("/{" + name + "}"))) == [Literal(text), Param(name)]
  {
    var piece := "{" + name + "}";
    PieceOfSegment(Param(name));
    PieceOfSegment(Literal(text));
    assert piece + "" == piece && Template("") == [];
    TemplateStep(piece, "");
    assert "/{" + name + "}" == "/" + piece;
    TemplateStep(text, "/" + piece);
    assert [Literal(text)] + ([Param(name)] + []) == [Literal(text), Param(name)];
  }

  lemma ParameterFits(text: string, name: string, value: string)
    requires value != "" && '/' !in value
    ensures FitsPath([Literal(text), Param(name)], [text, value], "/" + text + ("/" + value), [value])
  {
    var segs, pieces := [Literal(text), Param(name)], [text, value];
    assert segs[1..] == [Param(name)] && [Param(name)][1..] == [];
    assert pieces[1..] == [value] && [value][1..] == [];
    assert Slashed([value]) == "/" + value + "";
    assert Captured([Param(name)], [value]) == [value] + [];
  }
}
