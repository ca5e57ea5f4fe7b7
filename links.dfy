/** Cross-references: every `<b>name</b>(level)` in a rendered page becomes a link to that
    page's output, and each one is recorded as a `(level, name)` pair. */
module Links {
  import opened PyStr

  /** The text `MAN_LINK` matches for a name and a level. */
  function LinkText(name: string, level: string): (r: string)
    ensures |r| == |name| + |level| + 9
    ensures r[3..3 + |name|] == name && r[|name| + 8..|name| + 8 + |level|] == level
  {
    "<b>" + name + "</b>(" + level + ")"
  }

  /** Group 1 of `MAN_LINK`: `\w+`. */
  predicate IsLinkName(name: string) {
    name != [] && forall k :: 0 <= k < |name| ==> IsWordChar(name[k])
  }

  /** Group 2 of `MAN_LINK`: `\d+p?`. */
  predicate IsLinkLevel(level: string) {
    (level != [] && AllDigits(level)) ||
    (|level| >= 2 && level[|level| - 1] == 'p' && AllDigits(level[..|level| - 1]))
  }

  /** The first half of `MAN_LINK` at `i`: `<b>`, then `\w+` (greedy), then `</b>(`;
      the position where `</b>(` starts. */
  function NameEnd(s: string, i: nat): (r: Option<nat>)
    requires i <= |s|
    ensures r.Some? ==> i + 3 < r.value && r.value + 5 <= |s|
    ensures r.Some? ==> s[i..i + 3] == "<b>" && s[r.value..r.value + 5] == "</b>(" && IsLinkName(s[i + 3..r.value])
  {
    if i + 3 <= |s| && s[i..i + 3] == "<b>" then
      var n := Span(s, i + 3, IsWordChar);
      if n > i + 3 && n + 5 <= |s| && s[n..n + 5] == "</b>(" then
        NameOfSpan(s, i + 3, n);
        Some(n)
      else None
    else None
  }

  lemma NameOfSpan(s: string, lo: nat, hi: nat)
    requires lo < hi <= |s|
    requires forall k :: lo <= k < hi ==> IsWordChar(s[k])
    ensures IsLinkName(s[lo..hi])
  {
    forall k | 0 <= k < hi - lo ensures IsWordChar(s[lo..hi][k]) { assert s[lo..hi][k] == s[lo + k]; }
  }

  /** The second half of `MAN_LINK` from `j`: `\d+` (greedy), an optional `p`, then `)`; the
      position of the `)`. */
  function LevelEnd(s: string, j: nat): (r: Option<nat>)
    requires j <= |s|
    ensures r.Some? ==> j < r.value < |s| && s[r.value] == ')' && IsLinkLevel(s[j..r.value])
  {
    var d := Span(s, j, IsDigit);
    if d > j then
      var p := if d < |s| && s[d] == 'p' then d + 1 else d;
      if p < |s| && s[p] == ')' then
        LevelOfSpan(s, j, d, p);
        Some(p)
      else None
    else None
  }

  lemma LevelOfSpan(s: string, j: nat, d: nat, p: nat)
    requires j < d <= p < |s|
    requires forall k :: j <= k < d ==> IsDigit(s[k])
    requires p == d || (p == d + 1 && s[d] == 'p')
    ensures IsLinkLevel(s[j..p])
  {
    var level := s[j..p];
    assert level[..d - j] == s[j..d];
    forall k | 0 <= k < d - j ensures IsDigit(level[k]) { assert level[k] == s[j + k]; }
  }

  /** `MAN_LINK.match(s, i)` (man2qhelp.py:21): the name, the level and where the match ends.
      The pattern cannot backtrack into a different match: `\w+` must stop at `<` and `\d+` at
      `p` or `)`. */
  function MatchLink(s: string, i: nat): (r: Option<(string, string, nat)>)
    requires i <= |s|
    ensures r.Some? ==> i < r.value.2 <= |s| && s[i..r.value.2] == LinkText(r.value.0, r.value.1)
    ensures r.Some? ==> IsLinkName(r.value.0) && IsLinkLevel(r.value.1)
  {
    match NameEnd(s, i)
    case None => None
    case Some(n) =>
      match LevelEnd(s, n + 5)
      case None => None
      case Some(p) =>
        MatchLinkShape(s, i, n, p);
        Some((s[i + 3..n], s[n + 5..p], p + 1))
  }

  lemma MatchLinkShape(s: string, i: nat, n: nat, p: nat)
    requires i + 3 < n && n + 5 < p < |s|
    requires s[i..i + 3] == "<b>" && s[n..n + 5] == "</b>(" && s[p] == ')'
    ensures s[i..p + 1] == LinkText(s[i + 3..n], s[n + 5..p])
  {
    Split(s, i, n, p + 1);
    Split(s, i, i + 3, n);
    Split(s, n, n + 5, p + 1);
    Split(s, n + 5, p, p + 1);
    assert s[p..p + 1] == [s[p]];
  }

  lemma Split(s: string, a: nat, b: nat, c: nat)
    requires a <= b <= c <= |s|
    ensures s[a..c] == s[a..b] + s[b..c]
  {
  }

  /** The anchor `link_replacer` puts around a match (man2qhelp.py:202). */
  function Anchor(name: string, level: string): (r: string)
    ensures |r| == |name| + |level| + 29 + |LinkText(name, level)|
    ensures EndsWith(r, LinkText(name, level) + "</a>")
    ensures StartsWith(r, "<a href=\"../html." + level + "/" + name + ".html\">")
  {
    var open := "<a href=\"../html." + level + "/" + name + ".html\">";
    assert open + LinkText(name, level) + "</a>" == open + (LinkText(name, level) + "</a>");
    open + LinkText(name, level) + "</a>"
  }

  /** A page cut into the pieces `re.sub` sees: characters it copies and matches it replaces. */
  datatype Piece = Plain(c: char) | Ref(name: string, level: string)

  /** A piece as it was in the page. */
  function PieceText(piece: Piece): string
  {
    match piece
    case Plain(c) => [c]
    case Ref(name, level) => LinkText(name, level)
  }

  /** A piece after substitution: a match becomes its anchor. */
  function PieceRender(piece: Piece): string
  {
    match piece
    case Plain(c) => [c]
    case Ref(name, level) => Anchor(name, level)
  }

  /** What a piece appends to the reference list. */
  function PieceRefs(piece: Piece): seq<(string, string)>
  {
    match piece
    case Plain(_) => []
    case Ref(name, level) => [(level, name)]
  }

  /** The step of `MAN_LINK.sub`'s scan at `i`: a match where one starts, otherwise one
      character; and where the scan resumes. */
  function NextPiece(s: string, i: nat): (r: (Piece, nat))
    requires i < |s|
    ensures i < r.1 <= |s|
    ensures s[i..r.1] == PieceText(r.0)
    ensures r.0.Ref? ==> IsLinkName(r.0.name) && IsLinkLevel(r.0.level)
  {
    match MatchLink(s, i)
    case Some((name, level, e)) => (Ref(name, level), e)
    case None => (Plain(s[i]), i + 1)
  }

  /** The whole scan from position `i`, left to right, resuming after each match. */
  function Pieces(s: string, i: nat): seq<Piece>
    requires i <= |s|
    decreases |s| - i
  {
    if i == |s| then [] else [NextPiece(s, i).0] + Pieces(s, NextPiece(s, i).1)
  }

  /** The pieces as they were in the page. */
  function Flatten(pieces: seq<Piece>): string
  {
    if pieces == [] then [] else PieceText(pieces[0]) + Flatten(pieces[1..])
  }

  /** The pieces after substitution. */
  function Render(pieces: seq<Piece>): string
  {
    if pieces == [] then [] else PieceRender(pieces[0]) + Render(pieces[1..])
  }

  /** The `(level, name)` pairs appended to the reference list, one per match, in order. */
  function Refs(pieces: seq<Piece>): seq<(string, string)>
  {
    if pieces == [] then [] else PieceRefs(pieces[0]) + Refs(pieces[1..])
  }

  /** Every match is a well-formed `MAN_LINK` text. */
  predicate WellFormed(pieces: seq<Piece>) {
    forall k :: 0 <= k < |pieces| && pieces[k].Ref? ==> IsLinkName(pieces[k].name) && IsLinkLevel(pieces[k].level)
  }

  /** Putting one piece in front. */
  lemma Cons(piece: Piece, rest: seq<Piece>)
    ensures Flatten([piece] + rest) == PieceText(piece) + Flatten(rest)
    ensures Render([piece] + rest) == PieceRender(piece) + Render(rest)
    ensures Refs([piece] + rest) == PieceRefs(piece) + Refs(rest)
  {
    assert ([piece] + rest)[1..] == rest;
  }

  /** Cutting loses nothing: the pieces put back together are the page, so the text between
      matches is copied unchanged. */
  lemma {:induction false} PiecesCover(s: string, i: nat)
    requires i <= |s|
    ensures Flatten(Pieces(s, i)) == s[i..]
    decreases |s| - i
  {
    if i < |s| {
      var (piece, e) := NextPiece(s, i);
      var rest := Pieces(s, e);
      assert Pieces(s, i) == [piece] + rest;
      PiecesCover(s, e);
      Cons(piece, rest);
      SplitAt(s, i, e);
    }
  }

  lemma SplitAt(s: string, i: nat, e: nat)
    requires i <= e <= |s|
    ensures s[i..] == s[i..e] + s[e..]
  {
  }

  /** Every match the scan takes is a well-formed `MAN_LINK` text. */
  lemma {:induction false} PiecesWellFormed(s: string, i: nat)
    requires i <= |s|
    ensures WellFormed(Pieces(s, i))
    decreases |s| - i
  {
    if i < |s| {
      var (piece, e) := NextPiece(s, i);
      PiecesWellFormed(s, e);
      WellFormedCons(piece, Pieces(s, e));
    }
  }

  lemma WellFormedCons(piece: Piece, rest: seq<Piece>)
    requires piece.Ref? ==> IsLinkName(piece.name) && IsLinkLevel(piece.level)
    requires WellFormed(rest)
    ensures WellFormed([piece] + rest)
  {
    forall k | 0 < k < |[piece] + rest| ensures ([piece] + rest)[k] == rest[k - 1] { }
  }

  /** A page without matches is left as it is. */
  lemma {:induction false} NoRefsUnchanged(pieces: seq<Piece>)
    requires Refs(pieces) == []
    ensures Render(pieces) == Flatten(pieces)
  {
    if pieces != [] {
      assert pieces[0].Plain?;
      NoRefsUnchanged(pieces[1..]);
    }
  }

  /** The markup added around each match: `<a href="../html.L/N.html">` and `</a>`. */
  function AnchorOverhead(pieces: seq<Piece>): nat
  {
    if pieces == [] then 0
    else (match pieces[0]
          case Plain(_) => 0
          case Ref(name, level) => |name| + |level| + 29) + AnchorOverhead(pieces[1..])
  }

  /** Rendering only adds the anchor markup of each match. */
  lemma {:induction false} RenderLength(pieces: seq<Piece>)
    ensures |Render(pieces)| == |Flatten(pieces)| + AnchorOverhead(pieces)
  {
    if pieces != [] {
      RenderLength(pieces[1..]);
    }
  }

  /** Where the parts of `LinkText(name, level)` sit when it occurs at `i`. */
  lemma LinkTextLayout(s: string, i: nat, name: string, level: string)
    requires i + |LinkText(name, level)| <= |s| && s[i..i + |LinkText(name, level)|] == LinkText(name, level)
    ensures s[i..i + 3] == "<b>"
    ensures s[i + 3..i + 3 + |name|] == name
    ensures s[i + 3 + |name|..i + 8 + |name|] == "</b>("
    ensures s[i + 8 + |name|..i + 8 + |name| + |level|] == level
    ensures s[i + 8 + |name| + |level|] == ')'
  {
    var t := LinkText(name, level);
    var u := s[i..i + |t|];
    assert t == "<b>" + name + "</b>(" + level + ")";
    assert t[..3] == "<b>";
    assert t[3..3 + |name|] == name;
    assert t[3 + |name|..8 + |name|] == "</b>(";
    assert t[8 + |name|..8 + |name| + |level|] == level;
    Subslice(s, i, i + |t|, 0, 3);
    Subslice(s, i, i + |t|, 3, 3 + |name|);
    Subslice(s, i, i + |t|, 3 + |name|, 8 + |name|);
    Subslice(s, i, i + |t|, 8 + |name|, 8 + |name| + |level|);
    assert s[i + 8 + |name| + |level|] == u[|t| - 1];
  }

  lemma Subslice(s: string, i: nat, j: nat, a: nat, b: nat)
    requires i <= j <= |s| && a <= b <= j - i
    ensures s[i..j][a..b] == s[i + a..i + b]
  {
    forall k | 0 <= k < b - a ensures s[i..j][a..b][k] == s[i + a..i + b][k] {
      assert s[i..j][a..b][k] == s[i..j][a + k] == s[i + a + k];
    }
  }

  /** `\d+p?` followed by `)` spans exactly a well-formed level. */
  lemma LevelSpan(s: string, j: nat, level: string)
    requires IsLinkLevel(level) && j + |level| < |s| && s[j..j + |level|] == level && s[j + |level|] == ')'
    ensures var d := Span(s, j, IsDigit);
            d > j && (if d < |s| && s[d] == 'p' then d + 1 else d) == j + |level|
  {
    var p := j + |level|;
    if AllDigits(level) && level != [] {
      forall k | j <= k < p ensures IsDigit(s[k]) { assert s[k] == level[k - j]; }
      SpanIs(s, j, IsDigit, p);
    } else {
      var d := p - 1;
      forall k | j <= k < d ensures IsDigit(s[k]) {
        assert s[k] == level[k - j] == level[..|level| - 1][k - j];
      }
      assert s[d] == level[|level| - 1];
      SpanIs(s, j, IsDigit, d);
    }
  }

  /** A well-formed match is found where its text starts: the matcher accepts exactly the
      texts `LinkText` builds. */
  lemma MatchLinkComplete(s: string, i: nat, name: string, level: string)
    requires IsLinkName(name) && IsLinkLevel(level)
    requires i + |LinkText(name, level)| <= |s| && s[i..i + |LinkText(name, level)|] == LinkText(name, level)
    ensures MatchLink(s, i) == Some((name, level, i + |LinkText(name, level)|))
  {
    LinkTextLayout(s, i, name, level);
    NameEndComplete(s, i, name);
    LevelEndComplete(s, i + 8 + |name|, level);
    MatchLinkOf(s, i, i + 3 + |name|, i + 8 + |name| + |level|);
  }

  /** A character the scan copies as it is starts no well-formed link: when a link text
      begins at `i`, the scan takes it as a reference there. */
  lemma PlainStartsNoLink(s: string, i: nat)
    requires i < |s| && NextPiece(s, i).0.Plain?
    ensures forall name, level :: IsLinkName(name) && IsLinkLevel(level) && i + |LinkText(name, level)| <= |s| ==>
              s[i..i + |LinkText(name, level)|] != LinkText(name, level)
  {
    forall name, level | IsLinkName(name) && IsLinkLevel(level) && i + |LinkText(name, level)| <= |s|
      ensures s[i..i + |LinkText(name, level)|] != LinkText(name, level)
    {
      LinkTextMatches(s, i, name, level);
    }
  }

  lemma LinkTextMatches(s: string, i: nat, name: string, level: string)
    requires IsLinkName(name) && IsLinkLevel(level) && i + |LinkText(name, level)| <= |s|
    ensures s[i..i + |LinkText(name, level)|] == LinkText(name, level) ==> MatchLink(s, i).Some?
  {
    if s[i..i + |LinkText(name, level)|] == LinkText(name, level) {
      MatchLinkComplete(s, i, name, level);
    }
  }

  lemma MatchLinkOf(s: string, i: nat, n: nat, p: nat)
    requires i <= |s| && n + 5 <= |s|
    requires NameEnd(s, i) == Some(n) && LevelEnd(s, n + 5) == Some(p)
    ensures MatchLink(s, i) == Some((s[i + 3..n], s[n + 5..p], p + 1))
  {
  }

  lemma NameEndComplete(s: string, i: nat, name: string)
    requires IsLinkName(name) && i + 8 + |name| <= |s|
    requires s[i..i + 3] == "<b>" && s[i + 3..i + 3 + |name|] == name
    requires s[i + 3 + |name|..i + 8 + |name|] == "</b>("
    ensures NameEnd(s, i) == Some(i + 3 + |name|)
  {
    NameSpan(s, i + 3, name);
  }

  lemma LevelEndComplete(s: string, j: nat, level: string)
    requires IsLinkLevel(level) && j + |level| < |s| && s[j..j + |level|] == level && s[j + |level|] == ')'
    ensures LevelEnd(s, j) == Some(j + |level|)
  {
    LevelSpan(s, j, level);
  }

  /** `\w+` followed by `</b>(` spans exactly a well-formed name. */
  lemma NameSpan(s: string, j: nat, name: string)
    requires IsLinkName(name) && j + |name| + 5 <= |s|
    requires s[j..j + |name|] == name && s[j + |name|..j + |name| + 5] == "</b>("
    ensures Span(s, j, IsWordChar) == j + |name|
  {
    forall k | j <= k < j + |name| ensures IsWordChar(s[k]) { assert s[k] == s[j..j + |name|][k - j]; }
    assert s[j + |name|] == s[j + |name|..j + |name| + 5][0] == '<';
    SpanIs(s, j, IsWordChar, j + |name|);
  }

  /** A page that is one cross-reference becomes one anchor and one recorded pair. */
  lemma SingleReference(name: string, level: string)
    requires IsLinkName(name) && IsLinkLevel(level)
    ensures Pieces(LinkText(name, level), 0) == [Ref(name, level)]
    ensures Render(Pieces(LinkText(name, level), 0)) == Anchor(name, level)
    ensures Refs(Pieces(LinkText(name, level), 0)) == [(level, name)]
  {
    var t := LinkText(name, level);
    assert t[0..|t|] == t;
    MatchLinkComplete(t, 0, name, level);
    assert Pieces(t, |t|) == [];
    assert Render([Ref(name, level)]) == Anchor(name, level) + [];
    assert Refs([Ref(name, level)]) == [(level, name)] + [];
  }

  /** One step of the scan: the piece at `i` comes first, then the rest of the page. */
  lemma ScanStep(s: string, i: nat)
    requires i < |s|
    ensures Render(Pieces(s, i)) == PieceRender(NextPiece(s, i).0) + Render(Pieces(s, NextPiece(s, i).1))
    ensures Refs(Pieces(s, i)) == PieceRefs(NextPiece(s, i).0) + Refs(Pieces(s, NextPiece(s, i).1))
  {
    Cons(NextPiece(s, i).0, Pieces(s, NextPiece(s, i).1));
  }

  /** `MAN_LINK.sub(link_replacer(refs), html)` (man2qhelp.py:197-203, 274): the page with its
      matches replaced, and the pairs the replacer appended, in match order. */
  method LinkCrossReferences(html: string) returns (out: string, refs: seq<(string, string)>)
    ensures out == Render(Pieces(html, 0))
    ensures refs == Refs(Pieces(html, 0))
  {
    out, refs := [], [];
    var i := 0;
    ghost var whole, wholeRefs := Render(Pieces(html, 0)), Refs(Pieces(html, 0));
    while i < |html|
      invariant i <= |html|
      invariant whole == out + Render(Pieces(html, i))
      invariant wholeRefs == refs + Refs(Pieces(html, i))
      decreases |html| - i
    {
      ScanStep(html, i);
      var (piece, e) := NextPiece(html, i);
      Assoc(out, PieceRender(piece), Render(Pieces(html, e)));
      Assoc(refs, PieceRefs(piece), Refs(Pieces(html, e)));
      out, refs := Emit(piece, out, refs);
      i := e;
    }
    assert Pieces(html, i) == [];
  }

  /** What the substitution writes for one piece: the anchor `link_replacer` returns for a
      match, after appending `(level, name)` to the list (man2qhelp.py:199-203), or the
      character copied as it is. */
  method Emit(piece: Piece, out: string, refs: seq<(string, string)>)
    returns (out': string, refs': seq<(string, string)>)
    ensures out' == out + PieceRender(piece)
    ensures refs' == refs + PieceRefs(piece)
  {
    match piece
    case Ref(name, level) =>
      refs' := refs + [(level, name)];
      out' := out + Anchor(name, level);
    case Plain(c) =>
      refs' := refs;
      out' := out + [c];
  }

  lemma Assoc<T>(a: seq<T>, b: seq<T>, c: seq<T>)
    ensures a + (b + c) == (a + b) + c
  {
  }
}
