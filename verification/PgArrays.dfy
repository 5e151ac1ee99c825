/** How the server reads an array constant in braces (PostgreSQL 16 manual, section 8.15.6): elements may be
    quoted, escaped or NULL, arrays may be nested, and their extents must match. */
module PgArrays {
  import opened Options
  import opened Streams
  import opened Texts

  /** A parameter is passed as a C string: it ends at the first NUL character. */
  function CString(s: string): (r: string)
    ensures '\0' !in r
    ensures '\0' !in s ==> r == s
  {
    s[..Find(s, '\0', 0)]
  }

  // Tokens

  datatype Token = Open | Close | Delim | Element(value: Option<string>)

  predicate IsBreak(c: char) {
    c == ',' || c == '{' || c == '}'
  }

  /** The unquoted word NULL, in any case, is not a string. */
  predicate IsNullWord(s: string) {
    |s| == 4 && s[0] in "nN" && s[1] in "uU" && s[2] in "lL" && s[3] in "lL"
  }

  /** A quoted element after its opening quote, and what follows its closing quote. */
  function Quoted(s: string): (r: Option<(string, string)>)
    ensures r.Some? ==> |r.value.1| < |s|
  {
    if s == "" then None
    else if s[0] == '"' then Some(("", s[1..]))
    else if s[0] == '\\' && |s| < 2 then None
    else
      var c, more := if s[0] == '\\' then s[1] else s[0], if s[0] == '\\' then s[2..] else s[1..];
      var r :- Quoted(more);
      Some(([c] + r.0, r.1))
  }

  /** An unquoted element up to a delimiter or brace: its characters without the blanks at its end, whether
      some were escaped, and what follows. Escaped blanks count; a quote is an error. */
  function Unquoted(s: string): (r: Option<(string, bool, string)>)
    ensures r.Some? ==> |r.value.2| <= |s| && r.value.2 != "" && IsBreak(r.value.2[0])
    ensures r.Some? && s != "" && !IsBreak(s[0]) ==> |r.value.2| < |s|
  {
    if s == "" || s[0] == '"' then None
    else if IsBreak(s[0]) then Some(("", false, s))
    else if s[0] == '\\' then
      if |s| < 2 then None
      else
        var r :- Unquoted(s[2..]);
        Some(([s[1]] + r.0, true, r.2))
    else
      var r :- Unquoted(s[1..]);
      Some((if r.0 == "" && IsSpace(s[0]) then "" else [s[0]] + r.0, r.1, r.2))
  }

  function ReadToken(s: string): (r: Option<(Token, string)>)
    ensures r.Some? ==> |r.value.1| < |s|
  {
    TrimIsSuffix(s);
    var t := TrimLeft(s);
    if t == "" then None
    else if t[0] == '{' then Some((Open, t[1..]))
    else if t[0] == '}' then Some((Close, t[1..]))
    else if t[0] == ',' then Some((Delim, t[1..]))
    else if t[0] == '"' then
      var r :- Quoted(t[1..]);
      Some((Element(Some(r.0)), r.1))
    else
      var r :- Unquoted(t);
      Some((Element(if !r.1 && IsNullWord(r.0) then None else Some(r.0)), r.2))
  }

  lemma {:induction false} TrimIsSuffix(s: string)
    ensures |TrimLeft(s)| <= |s| && TrimLeft(s) == s[|s| - |TrimLeft(s)|..]
  {
    if s != "" && IsSpace(s[0]) {
      TrimIsSuffix(s[1..]);
    }
  }

  // The first pass: which tokens may follow each other, and the extents

  const MAX_DIMENSIONS: nat := 6

  datatype Place = NoLevel | LevelStarted | ElementDone | LevelDone | ElementDelimited | LevelDelimited

  /** Entry i of a counter per level. */
  function At(s: seq<nat>, i: nat): nat {
    if i < |s| then s[i] else 0
  }

  function Put(s: seq<nat>, i: nat, n: nat): (r: seq<nat>)
    ensures |r| == |s|
    ensures forall j :: 0 <= j < |s| ==> r[j] == if j == i then n else s[j]
  {
    if i < |s| then s[i := n] else s
  }

  /** The nesting level, the number of dimensions so far, and for each level the extent counted, the
      sub-arrays or elements in the current array, and in the last one that ended. */
  datatype Shape = Shape(nest: nat, ndim: nat, place: Place, extents: seq<nat>, counts: seq<nat>, last: seq<nat>)

  const START: Shape := Shape(0, 1, NoLevel, [0, 0, 0, 0, 0, 0], [1, 1, 1, 1, 1, 1], [0, 0, 0, 0, 0, 0])

  /** The end of an item: a delimiter, or the last brace. */
  function ItemDone(h: Shape): Shape {
    if h.ndim == 0 then h else h.(extents := Put(h.extents, h.ndim - 1, At(h.extents, h.ndim - 1) + 1))
  }

  function Counted(h: Shape, t: Token): Option<Shape> {
    match t
    case Open =>
      if h.place !in {NoLevel, LevelStarted, LevelDelimited} || h.nest >= MAX_DIMENSIONS then None
      else
        Some(h.(nest := h.nest + 1, ndim := if h.nest + 1 > h.ndim then h.nest + 1 else h.ndim, place := LevelStarted,
                extents := Put(h.extents, h.nest, 0)))
    case Close =>
      if h.nest == 0 || !(h.place in {ElementDone, LevelDone} || (h.nest == 1 && h.place == LevelStarted)) then None
      else
        var n := h.nest - 1;
        if At(h.last, n) != 0 && At(h.counts, n) != At(h.last, n) then None
        else
          var g := h.(nest := n, place := LevelDone, last := Put(h.last, n, At(h.counts, n)),
              counts := Put(h.counts, n, 1));
          Some(if n == 0 then ItemDone(g) else g.(extents := Put(g.extents, n - 1, At(g.extents, n - 1) + 1)))
    case Delim =>
      if h.nest == 0 || h.place !in {ElementDone, LevelDone} then None
      else
        Some(ItemDone(h.(place := if h.place == LevelDone then LevelDelimited else ElementDelimited,
                         counts := Put(h.counts, h.nest - 1, At(h.counts, h.nest - 1) + 1))))
    case Element(_) =>
      if h.place !in {LevelStarted, ElementDelimited} then None else Some(h.(place := ElementDone))
  }

  /** All tokens up to the brace that closes the first one, what they count to, and the rest. */
  function ReadTokens(s: string, h: Shape): Option<(seq<Token>, Shape, string)>
    decreases |s|
  {
    var first :- ReadToken(s);
    var g :- Counted(h, first.0);
    if g.nest == 0 then Some(([first.0], g, first.1))
    else
      var more :- ReadTokens(first.1, g);
      Some(([first.0] + more.0, more.1, more.2))
  }

  // The second pass: storing the elements

  /** The indices of the current item, its position once it is known, and its value. */
  datatype Cursor = Cursor(
    nest: nat, index: seq<nat>, position: Option<nat>, value: Option<string>, slots: seq<Option<string>>)

  function Product(dims: seq<nat>): nat {
    if dims == [] then 1 else dims[0] * Product(dims[1..])
  }

  function Position(index: seq<nat>, dims: seq<nat>): nat {
    if dims == [] || index == [] then 0 else index[0] * Product(dims[1..]) + Position(index[1..], dims[1..])
  }

  function Locate(c: Cursor, dims: seq<nat>): Cursor {
    if c.position.Some? then c else c.(position := Some(Position(c.index, dims)))
  }

  function Store(c: Cursor): Option<Cursor> {
    if c.position.None? || c.position.value >= |c.slots| then None
    else Some(c.(position := None, value := None, slots := c.slots[c.position.value := c.value]))
  }

  function Filled(c: Cursor, dims: seq<nat>, t: Token): Option<Cursor> {
    match t
    case Open => if c.nest >= |dims| then None else Some(c.(nest := c.nest + 1, index := Put(c.index, c.nest, 0)))
    case Close =>
      if c.nest == 0 then None
      else
        var n := c.nest - 1;
        var d := Locate(c, dims).(nest := n, index := Put(c.index, n, 0));
        if n == 0 then Store(d) else Some(d.(index := Put(d.index, n - 1, At(d.index, n - 1) + 1)))
    case Delim =>
      if dims == [] then None
      else
        var d :- Store(Locate(c, dims));
        Some(d.(index := Put(d.index, |dims| - 1, At(d.index, |dims| - 1) + 1)))
    case Element(v) => Some(c.(value := v))
  }

  function FillAll(c: Cursor, dims: seq<nat>, ts: seq<Token>): Option<Cursor>
    decreases |ts|
  {
    if ts == [] then Some(c)
    else
      var d :- Filled(c, dims, ts[0]);
      FillAll(d, dims, ts[1..])
  }

  function Nulls(n: nat): seq<Option<string>> {
    seq(n, i => None)
  }

  function Zeros(n: nat): seq<nat> {
    seq(n, i => 0)
  }

  /** The elements of an array constant in storage order, or None for an error. An array without any
      element is empty. */
  function ReadArray(text: string): Option<seq<Option<string>>> {
    var s := TrimLeft(text);
    if s == "" || s[0] != '{' then None
    else
      var r :- ReadTokens(s, START);
      if TrimLeft(r.2) != "" then None
      else if forall t :: t in r.0 ==> !t.Element? then Some([])
      else
        var dims := r.1.extents[..if r.1.ndim <= |r.1.extents| then r.1.ndim else |r.1.extents|];
        if Product(dims) == 0 then Some([])
        else
          var filled :- FillAll(Cursor(0, Zeros(|dims|), None, None, Nulls(Product(dims))), dims, r.0);
          Some(filled.slots)
  }
}
