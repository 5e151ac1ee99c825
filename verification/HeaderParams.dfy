/** Parameters of a Content-Disposition header (`POCOMultipartAdapter`). */
module HeaderParams {
  import opened Streams
  import opened Texts

  function Unquote(s: string): string {
    var t := Trim(s);
    if |t| >= 2 && ((t[0] == '"' && t[|t| - 1] == '"') || (t[0] == '\'' && t[|t| - 1] == '\'')) then t[1..|t| - 1]
    else t
  }

  /** The state of the parser: whether the first token is still to come, and the map so far. */
  datatype Scan = Scan(first: bool, out: map<string, string>)

  function Take(s: Scan, piece: string): Scan {
    var token := Trim(piece);
    if token == "" then s
    else if s.first then s.(first := false)
    else
      var eq := Find(token, '=', 0);
      if eq == |token| then s
      else
        var key := Trim(token[..eq]);
        if key == "" then s else s.(out := s.out[key := Unquote(token[eq + 1..])])
  }

  function TakeAll(s: Scan, pieces: seq<string>): Scan
    decreases |pieces|
  {
    if pieces == [] then s else TakeAll(Take(s, pieces[0]), pieces[1..])
  }

  function ParamsOf(header: string): map<string, string> {
    TakeAll(Scan(true, map[]), Tokens(header, ';')).out
  }

  method TrimCopy(text: string) returns (s: string)
    ensures s == Trim(text)
  {
    s := text;
    while s != "" && IsSpace(s[0])
      invariant TrimLeft(s) == TrimLeft(text)
      decreases |s|
    {
      s := s[1..];
    }
    while s != "" && IsSpace(s[|s| - 1])
      invariant TrimRight(s) == Trim(text)
      decreases |s|
    {
      s := s[..|s| - 1];
    }
  }

  method UnquoteCopy(text: string) returns (s: string)
    ensures s == Unquote(text)
  {
    s := TrimCopy(text);
    if |s| >= 2 {
      var a, b := s[0], s[|s| - 1];
      if (a == '"' && b == '"') || (a == '\'' && b == '\'') {
        return s[1..|s| - 1];
      }
    }
  }

  /** The pieces that a cursor finds, which stands one past the end of the text in the end. */
  function PiecesFrom(header: string, start: nat): seq<string>
    decreases |header| - start
  {
    if start >= |header| then []
    else
      var end := Find(header, ';', start);
      [header[start..end]] + PiecesFrom(header, end + 1)
  }

  lemma PiecesStep(header: string, start: nat, end: nat, next: nat)
    requires start < |header| && end == Find(header, ';', start) && next == AfterToken(header, end)
    ensures PiecesFrom(header, start) == [header[start..end]] + PiecesFrom(header, next)
  {
    if end == |header| {
      assert PiecesFrom(header, end + 1) == [] == PiecesFrom(header, next);
    }
  }

  lemma {:induction false} PiecesAreTokens(header: string, start: nat)
    requires start <= |header|
    ensures PiecesFrom(header, start) == Tokens(header[start..], ';')
    decreases |header| - start
  {
    if start < |header| {
      var end := Find(header, ';', start);
      var next := AfterToken(header, end);
      PiecesAreTokens(header, next);
      PiecesStep(header, start, end, next);
      ReadsOneToken(header, ';', start, end, next);
    } else {
      assert header[start..] == "";
    }
  }

  lemma StartsWhole(header: string)
    ensures ParamsOf(header) == TakeAll(Scan(true, map[]), PiecesFrom(header, 0)).out
  {
    PiecesAreTokens(header, 0);
    assert header[0..] == header;
  }

  lemma NextPiece(s: Scan, header: string, start: nat, end: nat)
    requires start < |header| && end == Find(header, ';', start)
    ensures TakeAll(s, PiecesFrom(header, start)) == TakeAll(Take(s, header[start..end]), PiecesFrom(header, end + 1))
  {
    TakeStep(s, header[start..end], PiecesFrom(header, end + 1));
  }

  /** One turn of the loop. */
  method TakePiece(piece: string, wasFirst: bool, before: map<string, string>)
    returns (first: bool, out: map<string, string>)
    ensures Scan(first, out) == Take(Scan(wasFirst, before), piece)
  {
    first, out := wasFirst, before;
    var token := TrimCopy(piece);
    if token == "" {
      return;
    }
    if first {
      return false, out;
    }
    var eq := Find(token, '=', 0);
    if eq == |token| {
      return;
    }
    var key := TrimCopy(token[..eq]);
    var value := UnquoteCopy(token[eq + 1..]);
    if key != "" {
      out := out[key := value];
    }
  }

  method ParseHeaderParams(header: string) returns (out: map<string, string>)
    ensures out == ParamsOf(header)
  {
    out := map[];
    var start: nat := 0;
    var firstToken := true;
    StartsWhole(header);
    while start < |header|
      invariant TakeAll(Scan(firstToken, out), PiecesFrom(header, start)).out == ParamsOf(header)
      decreases |header| - start
    {
      var end := Find(header, ';', start);
      NextPiece(Scan(firstToken, out), header, start, end);
      firstToken, out := TakePiece(header[start..end], firstToken, out);
      start := end + 1;
    }
  }

  // Printing and parsing

  datatype Pair = Pair(key: string, value: string)

  function PairText(p: Pair): string {
    " " + p.key + "=\"" + p.value + "\""
  }

  function PairTexts(pairs: seq<Pair>): seq<string> {
    seq(|pairs|, i requires 0 <= i < |pairs| => PairText(pairs[i]))
  }

  /** `form-data; key="value"; key="value"` */
  function Printed(pairs: seq<Pair>): string {
    Join(["form-data"] + PairTexts(pairs), ';')
  }

  function LastWins(pairs: seq<Pair>): map<string, string> {
    if pairs == [] then map[]
    else
      var last := pairs[|pairs| - 1];
      LastWins(pairs[..|pairs| - 1])[last.key := last.value]
  }

  predicate GoodKey(k: string) {
    k != "" && Trim(k) == k && ';' !in k && '=' !in k
  }

  lemma QuotedIsUnquoted(v: string)
    ensures Unquote("\"" + v + "\"") == v
  {
    var s := "\"" + v + "\"";
    TrimStops(s);
    assert s[1..|s| - 1] == v;
  }

  lemma TakesPair(s: Scan, p: Pair)
    requires !s.first && GoodKey(p.key)
    ensures Take(s, PairText(p)) == s.(out := s.out[p.key := p.value])
  {
    var quoted := "\"" + p.value + "\"";
    var body := p.key + "=" + quoted;
    assert PairText(p) == " " + body;
    TrimEnds(p.key);
    assert body[|body| - 1] == '"';
    TrimStops(body);
    FindIsFirst(body, '=', 0, |p.key|);
    assert body[..|p.key|] == p.key && body[|p.key| + 1..] == quoted;
    QuotedIsUnquoted(p.value);
  }

  lemma TakeStep(s: Scan, piece: string, pieces: seq<string>)
    ensures TakeAll(s, [piece] + pieces) == TakeAll(Take(s, piece), pieces)
  {
    assert ([piece] + pieces)[1..] == pieces;
  }

  predicate GoodKeys(pairs: seq<Pair>) {
    forall i :: 0 <= i < |pairs| ==> GoodKey(pairs[i].key)
  }

  lemma PairTextsStep(pairs: seq<Pair>)
    requires pairs != []
    ensures PairTexts(pairs) == [PairText(pairs[0])] + PairTexts(pairs[1..])
  {
  }

  lemma {:induction false} TakesPairs(s: Scan, pairs: seq<Pair>)
    requires !s.first && GoodKeys(pairs)
    ensures TakeAll(s, PairTexts(pairs)) == s.(out := s.out + LastWins(pairs))
    decreases |pairs|
  {
    if pairs == [] {
      assert s.out + map[] == s.out;
    } else {
      TakesPair(s, pairs[0]);
      var s1 := Take(s, PairText(pairs[0]));
      PairTextsStep(pairs);
      TakeStep(s, PairText(pairs[0]), PairTexts(pairs[1..]));
      TakesPairs(s1, pairs[1..]);
      LastWinsFirst(pairs);
      PutThenAdd(s.out, pairs[0].key, pairs[0].value, LastWins(pairs[1..]));
    }
  }

  lemma PutThenAdd(m: map<string, string>, k: string, v: string, more: map<string, string>)
    ensures m[k := v] + more == m + (map[k := v] + more)
  {
  }

  lemma {:induction false} LastWinsFirst(pairs: seq<Pair>)
    requires pairs != []
    ensures LastWins(pairs) == map[pairs[0].key := pairs[0].value] + LastWins(pairs[1..])
    decreases |pairs|
  {
    var n := |pairs| - 1;
    if n == 0 {
      assert pairs[..0] == [] && pairs[1..] == [];
    } else {
      LastWinsFirst(pairs[..n]);
      assert pairs[..n][1..] == pairs[1..][..n - 1];
    }
  }

  lemma PairTextIsFree(p: Pair)
    requires GoodKey(p.key) && ';' !in p.value
    ensures PairText(p) != "" && ';' !in PairText(p)
  {
  }

  lemma SkipsFormData()
    ensures Take(Scan(true, map[]), "form-data") == Scan(false, map[])
  {
    TrimStops("form-data");
  }

  lemma PiecesOfPrinted(pairs: seq<Pair>)
    requires GoodKeys(pairs) && forall i :: 0 <= i < |pairs| ==> ';' !in pairs[i].value
    ensures Tokens(Printed(pairs), ';') == ["form-data"] + PairTexts(pairs)
  {
    var pieces := ["form-data"] + PairTexts(pairs);
    forall i | 0 <= i < |pieces|
      ensures pieces[i] != "" && ';' !in pieces[i]
    {
      if i > 0 {
        PairTextIsFree(pairs[i - 1]);
        assert pieces[i] == PairText(pairs[i - 1]);
      }
    }
    TokensOfJoin(pieces, ';');
  }

  /** Round trip: printing any pairs, of good keys and values without ';' (quotes, '=' and blanks
      included), and parsing gives exactly the map in which a later pair of the same key wins. */
  lemma ParseInvertsPrinting(pairs: seq<Pair>)
    requires GoodKeys(pairs) && forall i :: 0 <= i < |pairs| ==> ';' !in pairs[i].value
    ensures ParamsOf(Printed(pairs)) == LastWins(pairs)
  {
    PiecesOfPrinted(pairs);
    ParamsOfPieces(Printed(pairs), pairs);
  }

  lemma ParamsOfPieces(header: string, pairs: seq<Pair>)
    requires GoodKeys(pairs) && Tokens(header, ';') == ["form-data"] + PairTexts(pairs)
    ensures ParamsOf(header) == LastWins(pairs)
  {
    SkipsFormData();
    TakeStep(Scan(true, map[]), "form-data", PairTexts(pairs));
    TakesPairs(Scan(false, map[]), pairs);
    assert map[] + LastWins(pairs) == LastWins(pairs);
  }

  // Values with ';'

  predicate ValuesAreFree(m: map<string, string>) {
    forall k :: k in m ==> ';' !in m[k]
  }

  lemma UnquoteKeeps(s: string)
    ensures forall c :: c in Unquote(s) ==> c in s
  {
    TrimKeeps(s);
  }

  lemma TakenValueIsFree(s: Scan, piece: string)
    requires ';' !in piece && ValuesAreFree(s.out)
    ensures ValuesAreFree(Take(s, piece).out)
  {
    var token := Trim(piece);
    TrimKeeps(piece);
    var eq := Find(token, '=', 0);
    if eq < |token| {
      assert ';' !in token[eq + 1..];
      UnquoteKeeps(token[eq + 1..]);
    }
  }

  lemma {:induction false} TakenValuesAreFree(s: Scan, pieces: seq<string>)
    requires (forall i :: 0 <= i < |pieces| ==> ';' !in pieces[i]) && ValuesAreFree(s.out)
    ensures ValuesAreFree(TakeAll(s, pieces).out)
    decreases |pieces|
  {
    if pieces != [] {
      TakenValueIsFree(s, pieces[0]);
      TakenValuesAreFree(Take(s, pieces[0]), pieces[1..]);
    }
  }

  /** No header gives a value with ';', quoted or not. */
  lemma ParsedValuesAreFree(header: string)
    ensures ValuesAreFree(ParamsOf(header))
  {
    TokensAreDelimiterFree(header, ';');
    TakenValuesAreFree(Scan(true, map[]), Tokens(header, ';'));
  }

  lemma {:induction false} LastWinsDistinct(pairs: seq<Pair>, i: nat)
    requires i < |pairs| && forall a, b :: 0 <= a < b < |pairs| ==> pairs[a].key != pairs[b].key
    ensures pairs[i].key in LastWins(pairs) && LastWins(pairs)[pairs[i].key] == pairs[i].value
  {
    if i < |pairs| - 1 {
      LastWinsDistinct(pairs[..|pairs| - 1], i);
    }
  }

  /** Exactly when printing is undone, for distinct good keys: when no value contains ';', although a
      quoted ';' is legal in such a header (section 4.2 of RFC 7578). */
  lemma RoundTripIffNoSemicolon(pairs: seq<Pair>)
    requires GoodKeys(pairs)
    requires forall a, b :: 0 <= a < b < |pairs| ==> pairs[a].key != pairs[b].key
    ensures ParamsOf(Printed(pairs)) == LastWins(pairs) <==> forall i :: 0 <= i < |pairs| ==> ';' !in pairs[i].value
  {
    if forall i :: 0 <= i < |pairs| ==> ';' !in pairs[i].value {
      ParseInvertsPrinting(pairs);
    }
    if ParamsOf(Printed(pairs)) == LastWins(pairs) {
      ParsedValuesAreFree(Printed(pairs));
      forall i | 0 <= i < |pairs|
        ensures ';' !in pairs[i].value
      {
        LastWinsDistinct(pairs, i);
      }
    }
  }

  // Any values: what a ';' inside a value does

  /** What pieces assign, the last one of a key winning. */
  function Assigned(pieces: seq<string>): map<string, string> {
    TakeAll(Scan(false, map[]), pieces).out
  }

  lemma TakeAdds(m: map<string, string>, piece: string)
    ensures Take(Scan(false, m), piece) == Scan(false, m + Take(Scan(false, map[]), piece).out)
  {
  }

  lemma {:induction false} AssignedAdds(m: map<string, string>, pieces: seq<string>)
    ensures TakeAll(Scan(false, m), pieces) == Scan(false, m + Assigned(pieces))
    decreases |pieces|
  {
    if pieces == [] {
      assert m + map[] == m;
    } else {
      var one := Take(Scan(false, map[]), pieces[0]).out;
      TakeAdds(m, pieces[0]);
      TakeAdds(map[], pieces[0]);
      AssignedAdds(m + one, pieces[1..]);
      AssignedAdds(one, pieces[1..]);
      assert map[] + one == one;
      assert (m + one) + Assigned(pieces[1..]) == m + (one + Assigned(pieces[1..]));
    }
  }

  lemma {:induction false} AssignedConcat(a: seq<string>, b: seq<string>)
    ensures Assigned(a + b) == Assigned(a) + Assigned(b)
  {
    TakeAllConcat(Scan(false, map[]), a, b);
    AssignedAdds(map[], a);
    assert map[] + Assigned(a) == Assigned(a);
    AssignedAdds(Assigned(a), b);
  }

  lemma {:induction false} TakeAllConcat(s: Scan, a: seq<string>, b: seq<string>)
    ensures TakeAll(s, a + b) == TakeAll(TakeAll(s, a), b)
    decreases |a|
  {
    if a == [] {
      assert a + b == b;
    } else {
      assert (a + b)[1..] == a[1..] + b;
      TakeAllConcat(Take(s, a[0]), a[1..], b);
    }
  }

  /** What one printed pair assigns: its key, and whatever stands after a ';' of its value. */
  function ReadPair(p: Pair): map<string, string> {
    Assigned(Split(PairText(p), ';'))
  }

  function Strays(p: Pair): map<string, string> {
    Assigned(Split(PairText(p), ';')[1..])
  }

  function AllRead(pairs: seq<Pair>): map<string, string> {
    if pairs == [] then map[] else ReadPair(pairs[0]) + AllRead(pairs[1..])
  }

  lemma PairTextEnds(p: Pair)
    ensures PairText(p) != "" && PairText(p)[|PairText(p)| - 1] == '"'
  {
  }

  lemma {:induction false} TokensOfPairs(pairs: seq<Pair>)
    ensures Assigned(Tokens(Join(PairTexts(pairs), ';'), ';')) == AllRead(pairs)
    decreases |pairs|
  {
    if pairs != [] {
      var text, rest := PairText(pairs[0]), PairTexts(pairs[1..]);
      PairTextsStep(pairs);
      TokensOfPairs(pairs[1..]);
      if |pairs| == 1 {
        PairTextEnds(pairs[0]);
        TokensOfLast(text, ';');
        assert AllRead(pairs) == ReadPair(pairs[0]) + map[];
      } else {
        assert Join(PairTexts(pairs), ';') == text + [';'] + Join(rest, ';');
        TokensOfTwo(text, Join(rest, ';'), ';');
        AssignedConcat(Split(text, ';'), Tokens(Join(rest, ';'), ';'));
      }
    }
  }

  /** Whatever keys and values are printed, parsing gives what the pieces of the pairs assign. */
  lemma ParsesAsRead(pairs: seq<Pair>)
    ensures ParamsOf(Printed(pairs)) == AllRead(pairs)
  {
    var joined := Join(PairTexts(pairs), ';');
    SkipsFormData();
    assert ';' !in "form-data";
    if pairs == [] {
      assert ["form-data"] + PairTexts(pairs) == ["form-data"];
      LastToken("form-data", ';');
      TakeStep(Scan(true, map[]), "form-data", []);
      assert ["form-data"] + [] == ["form-data"];
    } else {
      assert (["form-data"] + PairTexts(pairs))[1..] == PairTexts(pairs);
      assert Printed(pairs) == "form-data" + [';'] + joined;
      FirstToken("form-data", joined, ';');
      TakeStep(Scan(true, map[]), "form-data", Tokens(joined, ';'));
      TokensOfPairs(pairs);
    }
  }

  predicate Sets(p: Pair, k: string) {
    k == p.key || k in Strays(p)
  }

  lemma FirstPieceSets(p: Pair)
    requires GoodKey(p.key)
    ensures ReadPair(p).Keys == {p.key} + Strays(p).Keys
    ensures forall k :: k in Strays(p) ==> ReadPair(p)[k] == Strays(p)[k]
  {
    var pieces := Split(PairText(p), ';');
    var one := Take(Scan(false, map[]), pieces[0]).out;
    FirstPieceKey(p);
    AssignedAdds(one, pieces[1..]);
  }

  /** The piece before the first ';' still has the key. */
  lemma FirstPieceKey(p: Pair)
    requires GoodKey(p.key)
    ensures Take(Scan(false, map[]), Split(PairText(p), ';')[0]).out.Keys == {p.key}
  {
    var text, n := PairText(p), |p.key|;
    var k := Find(text, ';', 0);
    var body := p.key + ("=\"" + p.value + "\"");
    assert text == " " + body;
    assert body[..n] == p.key && body[n] == '=' && body[n + 1] == '"';
    SemicolonIsLate(body, p.key);
    assert body[..k - 1][..n] == body[..n];
    FrontPiece(body[..k - 1], p.key);
    assert text[..k] == " " + body[..k - 1];
    assert Split(text, ';')[0] == text[..k];
  }

  lemma SemicolonIsLate(body: string, key: string)
    requires GoodKey(key) && |body| > |key| + 1 && body[..|key|] == key && body[|key|] == '=' && body[|key| + 1] == '"'
    ensures Find(" " + body, ';', 0) > |key| + 2
  {
    var text, n := " " + body, |key|;
    assert forall i :: 0 <= i < n ==> text[1 + i] == body[..n][i] == key[i];
    assert text[0] == ' ' && text[1 + n] == '=' && text[2 + n] == '"';
  }

  /** A piece that starts with a good key, '=' and a quote, after one blank. */
  lemma FrontPiece(body: string, key: string)
    requires GoodKey(key) && |body| > |key| + 1 && body[..|key|] == key && body[|key|] == '=' && body[|key| + 1] == '"'
    ensures Take(Scan(false, map[]), " " + body).out.Keys == {key}
  {
    var n := |key|;
    TrimEnds(key);
    assert body[0] == key[0] && !IsSpace(body[0]);
    assert (" " + body)[1..] == body;
    assert TrimLeft(" " + body) == body;
    TrimRightKeepsFront(body, n + 2);
    var token := Trim(" " + body);
    assert token == TrimRight(body);
    assert token[..n] == key && token[n] == '=';
    assert forall i :: 0 <= i < n ==> token[i] == key[i];
    FindIsFirst(token, '=', 0, n);
  }

  lemma {:induction false} TrimRightKeepsFront(s: string, n: nat)
    requires 0 < n <= |s| && !IsSpace(s[n - 1])
    ensures |TrimRight(s)| >= n && TrimRight(s)[..n] == s[..n]
  {
    if IsSpace(s[|s| - 1]) {
      TrimRightKeepsFront(s[..|s| - 1], n);
      assert s[..|s| - 1][..n] == s[..n];
    }
  }

  lemma {:induction false} AllReadAt(pairs: seq<Pair>, i: nat, k: string)
    requires i < |pairs| && GoodKeys(pairs) && Sets(pairs[i], k)
    requires forall j :: i < j < |pairs| ==> !Sets(pairs[j], k)
    ensures k in AllRead(pairs) && k in ReadPair(pairs[i]) && AllRead(pairs)[k] == ReadPair(pairs[i])[k]
    decreases |pairs|
  {
    FirstPieceSets(pairs[i]);
    if i > 0 {
      AllReadAt(pairs[1..], i - 1, k);
    } else {
      NotRead(pairs[1..], k);
    }
  }

  lemma {:induction false} NotRead(pairs: seq<Pair>, k: string)
    requires GoodKeys(pairs) && forall j :: 0 <= j < |pairs| ==> !Sets(pairs[j], k)
    ensures k !in AllRead(pairs)
    decreases |pairs|
  {
    if pairs != [] {
      FirstPieceSets(pairs[0]);
      NotRead(pairs[1..], k);
    }
  }

  lemma {:induction false} LastSetter(pairs: seq<Pair>, k: string) returns (i: nat)
    requires exists j :: 0 <= j < |pairs| && Sets(pairs[j], k)
    ensures i < |pairs| && Sets(pairs[i], k) && forall j :: i < j < |pairs| ==> !Sets(pairs[j], k)
    decreases |pairs|
  {
    var n := |pairs| - 1;
    if Sets(pairs[n], k) {
      i := n;
    } else {
      var j :| 0 <= j < |pairs| && Sets(pairs[j], k);
      assert pairs[..n][j] == pairs[j];
      i := LastSetter(pairs[..n], k);
    }
  }

  lemma {:induction false} LastWinsAt(pairs: seq<Pair>, i: nat)
    requires i < |pairs| && forall j :: i < j < |pairs| ==> pairs[j].key != pairs[i].key
    ensures pairs[i].key in LastWins(pairs) && LastWins(pairs)[pairs[i].key] == pairs[i].value
  {
    if i < |pairs| - 1 {
      LastWinsAt(pairs[..|pairs| - 1], i);
    }
  }

  lemma {:induction false} LastWinsKeys(pairs: seq<Pair>, k: string) returns (i: nat)
    requires k in LastWins(pairs)
    ensures i < |pairs| && pairs[i].key == k && LastWins(pairs)[k] == pairs[i].value
    ensures forall j :: i < j < |pairs| ==> pairs[j].key != k
  {
    var n := |pairs| - 1;
    if pairs[n].key == k {
      i := n;
    } else {
      i := LastWinsKeys(pairs[..n], k);
      assert forall j :: 0 <= j < n ==> pairs[..n][j] == pairs[j];
    }
  }

  lemma WholeValueIsRead(p: Pair)
    requires GoodKey(p.key) && ';' !in p.value
    ensures ReadPair(p) == map[p.key := p.value] && Strays(p) == map[]
  {
    PairTextIsFree(p);
    FindIsFirst(PairText(p), ';', 0, |PairText(p)|);
    assert Split(PairText(p), ';') == [PairText(p)];
    assert [PairText(p)][1..] == [];
    TakesPair(Scan(false, map[]), p);
    TakeStep(Scan(false, map[]), PairText(p), []);
    assert [PairText(p)] + [] == [PairText(p)];
  }

  /** The value that wins for its key has no ';', and a stray assignment after a ';' is overwritten later, or
      happens to assign the value that wins. */
  ghost predicate Harmless(pairs: seq<Pair>) {
    && (forall i :: 0 <= i < |pairs| && (forall j :: i < j < |pairs| ==> pairs[j].key != pairs[i].key) ==>
          ';' !in pairs[i].value)
    && forall i, k :: 0 <= i < |pairs| && k in Strays(pairs[i]) ==>
      || (exists j :: i < j < |pairs| && Sets(pairs[j], k))
      || (k in LastWins(pairs) && LastWins(pairs)[k] == Strays(pairs[i])[k])
  }

  lemma HarmlessReads(pairs: seq<Pair>, k: string)
    requires GoodKeys(pairs) && Harmless(pairs)
    ensures k in AllRead(pairs) <==> k in LastWins(pairs)
    ensures k in AllRead(pairs) ==> AllRead(pairs)[k] == LastWins(pairs)[k]
  {
    if k in LastWins(pairs) {
      var i := LastWinsKeys(pairs, k);
      assert Sets(pairs[i], k);
    }
    if exists j :: 0 <= j < |pairs| && Sets(pairs[j], k) {
      var i := LastSetter(pairs, k);
      AllReadAt(pairs, i, k);
      FirstPieceSets(pairs[i]);
      if k !in Strays(pairs[i]) {
        LastWinsAt(pairs, i);
        WholeValueIsRead(pairs[i]);
      }
    } else {
      NotRead(pairs, k);
    }
  }

  lemma ReadsHarmless(pairs: seq<Pair>)
    requires GoodKeys(pairs) && AllRead(pairs) == LastWins(pairs) && ValuesAreFree(AllRead(pairs))
    ensures Harmless(pairs)
  {
    forall i | 0 <= i < |pairs| && (forall j :: i < j < |pairs| ==> pairs[j].key != pairs[i].key)
      ensures ';' !in pairs[i].value
    {
      LastWinsAt(pairs, i);
    }
    forall i, k | 0 <= i < |pairs| && k in Strays(pairs[i]) && !(exists j :: i < j < |pairs| && Sets(pairs[j], k))
      ensures k in LastWins(pairs) && LastWins(pairs)[k] == Strays(pairs[i])[k]
    {
      AllReadAt(pairs, i, k);
      FirstPieceSets(pairs[i]);
    }
  }

  /** Exactly when printing pairs of good keys, repeated or not, is undone: when their semicolons are harmless. */
  lemma RoundTripIff(pairs: seq<Pair>)
    requires GoodKeys(pairs)
    ensures ParamsOf(Printed(pairs)) == LastWins(pairs) <==> Harmless(pairs)
  {
    ParsesAsRead(pairs);
    ParsedValuesAreFree(Printed(pairs));
    if Harmless(pairs) {
      forall k
        ensures k in AllRead(pairs) <==> k in LastWins(pairs)
        ensures k in AllRead(pairs) ==> AllRead(pairs)[k] == LastWins(pairs)[k]
      {
        HarmlessReads(pairs, k);
      }
      assert AllRead(pairs) == LastWins(pairs);
    }
    if AllRead(pairs) == LastWins(pairs) {
      ReadsHarmless(pairs);
    }
  }

  // Single pieces

  predicate InQuotes(s: string) {
    |s| >= 2 && s[0] == s[|s| - 1] && (s[0] == '"' || s[0] == '\'')
  }

  /** Blanks around a value are dropped, then one pair of equal quotes; any other value stays as it is. */
  lemma UnquoteIs(a: string, v: string, b: string)
    requires Blank(a) && Blank(b) && Tight(v)
    ensures Unquote(a + v + b) == if InQuotes(v) then v[1..|v| - 1] else v
  {
    TrimDropsBlanks(a, v, b);
  }

  /** A value may be bare, blanks may stand anywhere around key and value. */
  lemma TakesBarePair(s: Scan, p: Pair, a: string, b: string, c: string, d: string)
    requires !s.first && GoodKey(p.key) && Blank(a) && Blank(b) && Blank(c) && Blank(d)
    requires Tight(p.value) && !InQuotes(p.value)
    ensures Take(s, a + (p.key + b + "=" + c + p.value) + d) == s.(out := s.out[p.key := p.value])
  {
    if p.value == "" {
      TakesEmptyValue(s, p.key, a, b, c, d);
      assert p == Pair(p.key, "");
    } else {
      TakesFullValue(s, p, a, b, c, d);
    }
  }

  lemma TakesEmptyValue(s: Scan, key: string, a: string, b: string, c: string, d: string)
    requires !s.first && GoodKey(key) && Blank(a) && Blank(b) && Blank(c) && Blank(d)
    ensures Take(s, a + (key + b + "=" + c + "") + d) == s.(out := s.out[key := ""])
  {
    var token := key + b + "=";
    TrimEnds(key);
    assert token[0] == key[0] && token[|token| - 1] == '=';
    assert a + (token + c + "") + d == a + token + (c + d);
    TrimDropsBlanks(a, token, c + d);
    assert token == key + b + "=" + "" + "";
    TakesToken(s, token, key, b, "", "");
  }

  lemma TakesFullValue(s: Scan, p: Pair, a: string, b: string, c: string, d: string)
    requires !s.first && GoodKey(p.key) && Blank(a) && Blank(b) && Blank(c) && Blank(d)
    requires p.value != "" && Tight(p.value) && !InQuotes(p.value)
    ensures Take(s, a + (p.key + b + "=" + c + p.value) + d) == s.(out := s.out[p.key := p.value])
  {
    var token := p.key + b + "=" + c + p.value;
    TrimEnds(p.key);
    assert token[0] == p.key[0] && token[|token| - 1] == p.value[|p.value| - 1];
    TrimDropsBlanks(a, token, d);
    TakesToken(s, token, p.key, b, c, p.value);
  }

  lemma TakesToken(s: Scan, token: string, key: string, b: string, c: string, v: string)
    requires !s.first && GoodKey(key) && Blank(b) && Blank(c) && Tight(v) && !InQuotes(v)
    requires token == key + b + "=" + c + v && Tight(token)
    ensures forall piece :: Trim(piece) == token ==> Take(s, piece) == s.(out := s.out[key := v])
  {
    var n := |key + b|;
    EqualsFollows(key, b, c + v);
    assert token == (key + b) + ("=" + (c + v));
    TrimEnds(key);
    assert token[..n] == "" + key + b;
    TrimDropsBlanks("", key, b);
    assert token[n + 1..] == c + v + "";
    UnquoteIs(c, v, "");
    forall piece | Trim(piece) == token
      ensures Take(s, piece) == s.(out := s.out[key := v])
    {
      TakeAt(s, piece, key, n, v);
    }
  }

  lemma EqualsFollows(key: string, b: string, rest: string)
    requires GoodKey(key) && Blank(b)
    ensures Find((key + b) + ("=" + rest), '=', 0) == |key + b|
  {
    var token := (key + b) + ("=" + rest);
    assert forall i :: 0 <= i < |b| ==> b[i] != '=' by {
      assert !IsSpace('=');
    }
    assert forall i :: 0 <= i < |key + b| ==> token[i] == (key + b)[i];
    FindIsFirst(token, '=', 0, |key + b|);
  }

  lemma TakeAt(s: Scan, piece: string, key: string, n: nat, v: string)
    requires !s.first && key != "" && n < |Trim(piece)| && Find(Trim(piece), '=', 0) == n
    requires Trim(Trim(piece)[..n]) == key && Unquote(Trim(piece)[n + 1..]) == v
    ensures Take(s, piece) == s.(out := s.out[key := v])
  {
  }

  /** Pieces that assign nothing: blank ones, ones without '=' and ones without a key; and the first one that
      is not blank, whatever it is. */
  lemma IgnoredPieces(s: Scan, piece: string)
    ensures Blank(piece) ==> Take(s, piece) == s
    ensures s.first && Trim(piece) != "" ==> Take(s, piece) == s.(first := false)
    ensures !s.first && '=' !in piece ==> Take(s, piece) == s
  {
    if Blank(piece) {
      TrimDropsBlanks("", "", piece);
      assert "" + "" + piece == piece;
    }
    TrimKeeps(piece);
    var token := Trim(piece);
    assert Find(token, '=', 0) < |token| ==> '=' in token;
  }

  lemma NoKeyNoPair(s: Scan, a: string, v: string)
    requires !s.first && Blank(a)
    ensures Take(s, a + ("=" + v)) == s
  {
    TrimLeftDrops(a, "=" + v);
    TrimRightKeepsFront("=" + v, 1);
    var token := Trim(a + ("=" + v));
    assert token[0] == token[..1][0] == '=';
    FindIsFirst(token, '=', 0, 0);
    assert token[..0] == "";
  }
}
