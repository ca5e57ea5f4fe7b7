/** Reading a source file: a page proper, or a one-line `.so` directive naming the page it
    stands for, resolved against the candidates a glob of the target path yields. */
module Alias {
  import opened PyStr
  import opened Names

  /** `[\w_-]`: a character of a page name in a `.so` directive. */
  predicate IsNameChar(c: char) { IsWordChar(c) || c == '-' }

  predicate AllNameChars(s: string) { forall k :: 0 <= k < |s| ==> IsNameChar(s[k]) }

  /** `man(\d+)/([\w_-]+)` at position `i`: the category digits and the page name. */
  function QualifiedTail(line: string, i: nat): (r: Option<(string, string)>)
    requires i <= |line|
    ensures r.Some? ==> r.value.0 != [] && AllDigits(r.value.0)
    ensures r.Some? ==> r.value.1 != [] && AllNameChars(r.value.1)
    ensures r.Some? ==> StartsWith(line[i..], "man" + r.value.0 + "/" + r.value.1)
  {
    if i + 3 <= |line| && line[i..i + 3] == "man" then
      var d := Span(line, i + 3, IsDigit);
      if d > i + 3 && d < |line| && line[d] == '/' then
        var e := Span(line, d + 1, IsNameChar);
        if e > d + 1 then
          var digits, page := line[i + 3..d], line[d + 1..e];
          assert AllDigits(digits) by {
            forall k | 0 <= k < |digits| ensures IsDigit(digits[k]) { assert digits[k] == line[i + 3 + k]; }
          }
          assert AllNameChars(page) by {
            forall k | 0 <= k < |page| ensures IsNameChar(page[k]) { assert page[k] == line[d + 1 + k]; }
          }
          assert line[i..][..e - i] == line[i..i + 3] + digits + [line[d]] + page;
          Some((digits, page))
        else None
      else None
    else None
  }

  /** No newline in `line[j..k]`: the stretch a `.` may cover. */
  predicate NoBreak(line: string, j: nat, k: nat)
    requires j <= k <= |line|
  {
    forall i :: j <= i < k ==> line[i] != '\n'
  }

  /** `(?:.*?/)man(\d+)/([\w_-]+)` from position `j`: the lazy `.*?` stops at the first `/`
      after which the tail matches; `.` does not cross a newline. */
  function LazySlash(line: string, j: nat): (r: Option<(string, string)>)
    requires j <= |line|
    ensures r.Some? ==> exists k :: j <= k < |line| && line[k] == '/' && QualifiedTail(line, k + 1) == r
    decreases |line| - j
  {
    if j == |line| || line[j] == '\n' then None
    else if line[j] == '/' && QualifiedTail(line, j + 1).Some? then QualifiedTail(line, j + 1)
    else LazySlash(line, j + 1)
  }

  /** Past `\.so\s+`: the end of the maximal whitespace run after `.so`, if there is one.
      A shorter run never helps either pattern, since neither can go on with a blank. */
  function AfterDirective(line: string): (r: Option<nat>)
    ensures r.Some? ==> 3 < r.value <= |line| && StartsWith(line, ".so")
    ensures r.Some? ==> forall k :: 3 <= k < r.value ==> IsSpace(line[k])
    ensures r.Some? && r.value < |line| ==> !IsSpace(line[r.value])
  {
    if StartsWith(line, ".so") && 3 < |line| && IsSpace(line[3]) then Some(Span(line, 3, IsSpace))
    else None
  }

  /** `re.match(r"\.so\s+(?:.*?/)?man(\d+)/([\w_-]+)", line)`: groups 1 and 2. The optional
      group is tried first, then skipped. */
  function MatchQualified(line: string): (r: Option<(string, string)>)
    ensures r.Some? ==> r.value.0 != [] && AllDigits(r.value.0)
    ensures r.Some? ==> r.value.1 != [] && AllNameChars(r.value.1)
  {
    match AfterDirective(line)
    case None => None
    case Some(w) =>
      match LazySlash(line, w)
      case Some(m) => Some(m)
      case None => QualifiedTail(line, w)
  }

  /** `re.match(r"\.so\s+([\w_-]+\.(\d))", line)`: group 1 (`name.d`) and group 2 (`d`).
      Group 1 is the text found right after the blanks, a name followed by `.` and the digit. */
  function MatchDotted(line: string): (r: Option<(string, string)>)
    ensures r.Some? ==> |r.value.1| == 1 && IsDigit(r.value.1[0])
    ensures r.Some? ==> |r.value.0| >= 3 && EndsWith(r.value.0, "." + r.value.1)
    ensures r.Some? ==> AfterDirective(line).Some? && AllNameChars(r.value.0[..|r.value.0| - 2]) &&
                        AfterDirective(line).value + |r.value.0| <= |line| &&
                        line[AfterDirective(line).value..AfterDirective(line).value + |r.value.0|] == r.value.0
  {
    match AfterDirective(line)
    case None => None
    case Some(w) =>
      var n := Span(line, w, IsNameChar);
      if n > w && n + 1 < |line| && line[n] == '.' && IsDigit(line[n + 1]) then
        assert line[w..n + 2][n + 2 - w - 2..] == "." + line[n + 1..n + 2];
        assert line[w..n + 2][..n - w] == line[w..n];
        NameRun(line, w, n);
        Some((line[w..n + 2], line[n + 1..n + 2]))
      else None
  }

  /** A run of name characters, taken as a string. */
  lemma NameRun(line: string, i: nat, j: nat)
    requires i <= j <= |line| && forall k :: i <= k < j ==> IsNameChar(line[k])
    ensures AllNameChars(line[i..j])
  {
    forall k | 0 <= k < j - i ensures IsNameChar(line[i..j][k]) { assert line[i..j][k] == line[i + k]; }
  }

  /** The path a directive line points at (man2qhelp.py:122-131), the path-qualified form
      taking precedence; `None` when the directive is not understood. */
  function AliasPath(line: string): (r: Option<string>)
    ensures r.Some? <==> MatchQualified(line).Some? || MatchDotted(line).Some?
    ensures MatchQualified(line).Some? ==>
              r == Some(ManPath(DigitsValue(MatchQualified(line).value.0), Some(MatchQualified(line).value.1)))
    ensures MatchQualified(line).None? && MatchDotted(line).Some? ==>
              r == Some(ManPath(DigitsValue(MatchDotted(line).value.1), Some(MatchDotted(line).value.0)))
  {
    match MatchQualified(line)
    case Some((digits, page)) => Some(ManPath(DigitsValue(digits), Some(page)))
    case None =>
      match MatchDotted(line)
      case Some((page, digit)) => Some(ManPath(DigitsValue(digit), Some(page)))
      case None => None
  }

  /** Why `src` gave no result. */
  datatype Skip = Missing | NotUnderstood | NoCandidate | TooManyCandidates | MultiLine

  /** The outcome of `src`: nothing, a page `(data, name, None)`, or an alias
      `(None, name, candidate)`. */
  datatype Source =
    | Skipped(reason: Skip)
    | Page(data: string, name: string)
    | Alias(name: string, candidate: string)

  /** `data` is a `.so` directive that is one line once stripped. */
  predicate OneLineDirective(data: string) {
    StartsWith(data, ".so ") && '\n' !in Strip(data)
  }

  /** The glob pattern for a directive's candidates. */
  function CandidatePattern(data: string): (r: Option<string>)
    ensures r.Some? ==> EndsWith(r.value, ".*")
  {
    match AliasPath(Strip(data))
    case Some(p) => Some(p + ".*")
    case None => None
  }

  /** `src(path)` (man2qhelp.py:101-146) for a file that exists or not, whose decoded text is
      `data`, with `glob` standing for `glob.glob`. A page is anything not starting with `.so `;
      an alias is a one-line directive that is understood and has exactly one candidate. */
  function Src(path: string, present: bool, data: string, glob: string -> seq<string>): (r: Source)
    ensures r.Page? <==> present && !StartsWith(data, ".so ")
    ensures r.Alias? <==> present && OneLineDirective(data) && CandidatePattern(data).Some? &&
                          |glob(CandidatePattern(data).value)| == 1
    ensures r.Alias? ==> r.candidate == glob(CandidatePattern(data).value)[0]
    ensures r.Page? ==> r.data == data
    ensures !r.Skipped? ==> r.name == SourceName(path)
    ensures r == Skipped(Missing) <==> !present
  {
    if !present then Skipped(Missing)
    else
      var name := SourceName(path);
      if !StartsWith(data, ".so ") then Page(data, name)
      else if !OneLineDirective(data) then Skipped(MultiLine)
      else match CandidatePattern(data)
        case None => Skipped(NotUnderstood)
        case Some(pattern) =>
          var candidates := glob(pattern);
          if |candidates| == 0 then Skipped(NoCandidate)
          else if |candidates| > 1 then Skipped(TooManyCandidates)
          else Alias(name, candidates[0])
  }

  /** `line[k]` is a `/` that `.*?` can reach from `j`, and no earlier `/` it passes on the
      way is followed by the tail. */
  predicate FirstTailSlash(line: string, j: nat, k: nat)
    requires j <= k < |line|
  {
    line[k] == '/' && NoBreak(line, j, k) && forall i :: j <= i < k ==> !ViableSlash(line, i)
  }

  /** `line[i]` is a `/` that the tail follows. */
  predicate ViableSlash(line: string, i: nat)
    requires i < |line|
  {
    line[i] == '/' && QualifiedTail(line, i + 1).Some?
  }

  /** The lazy group takes the first `/` on the line that the tail follows: a match is the
      tail after such a `/`, before any newline, with no earlier `/` that the tail follows. */
  lemma {:induction false} LazySlashFirst(line: string, j: nat)
    requires j <= |line| && LazySlash(line, j).Some?
    ensures exists k :: j <= k < |line| && FirstTailSlash(line, j, k) && QualifiedTail(line, k + 1) == LazySlash(line, j)
    decreases |line| - j
  {
    if line[j] == '/' && QualifiedTail(line, j + 1).Some? {
      assert FirstTailSlash(line, j, j);
    } else {
      LazySlashFirst(line, j + 1);
      var k :| j + 1 <= k < |line| && FirstTailSlash(line, j + 1, k) && QualifiedTail(line, k + 1) == LazySlash(line, j + 1);
      assert FirstTailSlash(line, j, k) by {
        assert NoBreak(line, j, k);
      }
    }
  }

  /** No match from the lazy group means that no `/` before the first newline is followed by
      the tail. */
  lemma {:induction false} LazySlashComplete(line: string, j: nat)
    requires j <= |line| && LazySlash(line, j).None?
    ensures forall k :: j <= k < |line| && line[k] == '/' && NoBreak(line, j, k) ==> QualifiedTail(line, k + 1).None?
    decreases |line| - j
  {
    if j < |line| && line[j] != '\n' {
      assert LazySlash(line, j + 1).None?;
      LazySlashComplete(line, j + 1);
      forall k | j < k < |line| && line[k] == '/' && NoBreak(line, j, k) ensures QualifiedTail(line, k + 1).None? {
        assert NoBreak(line, j + 1, k);
      }
    } else if j < |line| {
      forall k | j < k < |line| ensures !NoBreak(line, j, k) { assert line[j] == '\n'; }
    }
  }

  lemma {:induction false} LazySlashNone(line: string, j: nat)
    requires j <= |line|
    requires forall k :: j <= k < |line| && line[k] == '/' ==> QualifiedTail(line, k + 1).None?
    ensures LazySlash(line, j).None?
    decreases |line| - j
  {
    if j < |line| && line[j] != '\n' {
      LazySlashNone(line, j + 1);
    }
  }

  /** The tail does not match where no `/` follows. */
  lemma QualifiedTailNoSlash(line: string, i: nat)
    requires i <= |line| && forall k :: i <= k < |line| ==> line[k] != '/'
    ensures QualifiedTail(line, i).None?
  {
  }

  /** The blanks after `.so` end where `body` begins. */
  lemma AfterDirectiveIs(line: string, blanks: string, body: string)
    requires line == ".so" + blanks + body
    requires blanks != [] && forall k :: 0 <= k < |blanks| ==> IsSpace(blanks[k])
    requires body == [] || !IsSpace(body[0])
    ensures AfterDirective(line) == Some(3 + |blanks|)
    ensures line[3 + |blanks|..] == body
  {
    assert line[..3] == ".so";
    assert line[3] == blanks[0];
    forall k | 3 <= k < 3 + |blanks| ensures IsSpace(line[k]) { assert line[k] == blanks[k - 3]; }
    if body != [] { assert line[3 + |blanks|] == body[0]; }
    SpanIs(line, 3, IsSpace, 3 + |blanks|);
  }

  /** `man<digits>/<page>` at `i`, followed by something that cannot extend the page name. */
  lemma QualifiedTailIs(line: string, i: nat, digits: string, page: string)
    requires i + 3 + |digits| + 1 + |page| <= |line|
    requires line[i..i + 3 + |digits| + 1 + |page|] == "man" + digits + "/" + page
    requires digits != [] && AllDigits(digits)
    requires page != [] && AllNameChars(page)
    requires i + 3 + |digits| + 1 + |page| < |line| ==> !IsNameChar(line[i + 3 + |digits| + 1 + |page|])
    ensures QualifiedTail(line, i) == Some((digits, page))
  {
    var d := i + 3 + |digits|;
    var e := d + 1 + |page|;
    var piece := line[i..e];
    assert line[i..i + 3] == piece[..3] == "man";
    assert line[i + 3..d] == piece[3..3 + |digits|] == digits;
    assert line[d] == piece[3 + |digits|] == '/';
    assert line[d + 1..e] == piece[|digits| + 4..] == page;
    SpanOfDigits(line, i + 3, d);
    SpanOfName(line, d + 1, e);
  }

  lemma SpanOfDigits(s: string, lo: nat, hi: nat)
    requires lo <= hi <= |s| && AllDigits(s[lo..hi])
    requires hi < |s| ==> s[hi] == '/'
    ensures Span(s, lo, IsDigit) == hi
  {
    forall k | lo <= k < hi ensures IsDigit(s[k]) { assert s[k] == s[lo..hi][k - lo]; }
    SpanIs(s, lo, IsDigit, hi);
  }

  lemma SpanOfName(s: string, lo: nat, hi: nat)
    requires lo <= hi <= |s| && AllNameChars(s[lo..hi])
    requires hi < |s| ==> !IsNameChar(s[hi])
    ensures Span(s, lo, IsNameChar) == hi
  {
    forall k | lo <= k < hi ensures IsNameChar(s[k]) { assert s[k] == s[lo..hi][k - lo]; }
    SpanIs(s, lo, IsNameChar, hi);
  }

  /** The path-qualified form without a directory prefix: when no `/` follows the one after
      the category, the lazy group finds nothing and the tail matches right after the blanks. */
  lemma MatchQualifiedBare(line: string, w: nat, digits: string, page: string)
    requires AfterDirective(line) == Some(w)
    requires w + 3 + |digits| + 1 + |page| <= |line|
    requires line[w..w + 3 + |digits| + 1 + |page|] == "man" + digits + "/" + page
    requires digits != [] && AllDigits(digits)
    requires page != [] && AllNameChars(page)
    requires w + 3 + |digits| + 1 + |page| < |line| ==> !IsNameChar(line[w + 3 + |digits| + 1 + |page|])
    requires forall k :: w + 3 + |digits| + 1 <= k < |line| ==> line[k] != '/'
    ensures MatchQualified(line) == Some((digits, page))
  {
    var slash := w + 3 + |digits|;
    var piece := line[w..slash + 1 + |page|];
    forall k | w <= k < slash ensures line[k] != '/' {
      if k < w + 3 {
        assert line[k] == piece[k - w] == "man"[k - w];
      } else {
        assert line[k] == piece[k - w] == digits[k - w - 3];
      }
    }
    forall k | w <= k < |line| && line[k] == '/'
      ensures QualifiedTail(line, k + 1).None?
    {
      QualifiedTailNoSlash(line, k + 1);
    }
    LazySlashNone(line, w);
    QualifiedTailIs(line, w, digits, page);
  }

  /** `.so <blanks>man<d>/<page><rest>` names page `<page>` of category `int(<d>)`, when
      nothing after the category has a `/`. */
  lemma QualifiedDirective(blanks: string, digits: string, page: string, rest: string)
    requires blanks != [] && forall k :: 0 <= k < |blanks| ==> IsSpace(blanks[k])
    requires digits != [] && AllDigits(digits)
    requires page != [] && AllNameChars(page)
    requires rest == [] || !IsNameChar(rest[0])
    requires '/' !in rest
    ensures MatchQualified(".so" + blanks + "man" + digits + "/" + page + rest) == Some((digits, page))
  {
    var body := "man" + digits + "/" + page + rest;
    var line := ".so" + blanks + body;
    ConcatAssoc(".so" + blanks, "man" + digits + "/", page, rest);
    assert line == ".so" + blanks + "man" + digits + "/" + page + rest;
    assert body == [] || !IsSpace(body[0]) by { assert body[0] == 'm'; }
    AfterDirectiveIs(line, blanks, body);
    QualifiedBodyLayout(body, digits, page, rest);
    ShiftLayout(line, 3 + |blanks|, body, 3 + |digits| + 1 + |page|, 3 + |digits| + 1);
    MatchQualifiedBare(line, 3 + |blanks|, digits, page);
  }

  /** No `/` in `dir` is followed, inside `dir`, by `man` and a digit. */
  predicate NoCategoryAfterSlash(dir: string)
  {
    forall k :: 0 <= k < |dir| && dir[k] == '/' && k + 5 <= |dir| ==> !(dir[k + 1..k + 4] == "man" && IsDigit(dir[k + 4]))
  }

  /** A directory-prefixed directive, `.so ../man2/select.2` (`dir` is `..`) or
      `.so /usr/share/man/man2/select.2` (`dir` is `/usr/share/man`): the lazy group passes
      every `/` of `dir` and stops at the `/` before `man<d>/`, so the category and the page
      are read from there, whatever follows. */
  lemma QualifiedDirectiveInDir(blanks: string, dir: string, digits: string, page: string, rest: string)
    requires blanks != [] && forall k :: 0 <= k < |blanks| ==> IsSpace(blanks[k])
    requires dir == [] || !IsSpace(dir[0])
    requires '\n' !in dir && NoCategoryAfterSlash(dir)
    requires digits != [] && AllDigits(digits)
    requires page != [] && AllNameChars(page)
    requires rest == [] || !IsNameChar(rest[0])
    ensures MatchQualified(".so" + blanks + dir + "/man" + digits + "/" + page + rest) == Some((digits, page))
  {
    var tail := "man" + digits + "/" + page;
    var body := dir + "/" + tail + rest;
    var line := ".so" + blanks + body;
    assert line == ".so" + blanks + dir + "/man" + digits + "/" + page + rest;
    assert body == [] || !IsSpace(body[0]) by { if dir == [] { assert body[0] == '/'; } else { assert body[0] == dir[0]; } }
    AfterDirectiveIs(line, blanks, body);
    var w := 3 + |blanks|;
    var s := w + |dir|;
    InDirLayout(line, w, dir, tail, rest);
    if s + 1 + |tail| < |line| { assert !IsNameChar(line[s + 1 + |tail|]); }
    MatchInDir(line, w, dir, digits, page);
  }

  /** The lazy group passes the `/`s of `dir` and stops at the one after it. */
  lemma MatchInDir(line: string, w: nat, dir: string, digits: string, page: string)
    requires AfterDirective(line) == Some(w) && '\n' !in dir && NoCategoryAfterSlash(dir)
    requires digits != [] && AllDigits(digits) && page != [] && AllNameChars(page)
    requires w + |dir| + 1 + |"man" + digits + "/" + page| <= |line|
    requires forall i :: w <= i < w + |dir| ==> line[i] == dir[i - w]
    requires line[w + |dir|] == '/'
    requires line[w + |dir| + 1..w + |dir| + 1 + |"man" + digits + "/" + page|] == "man" + digits + "/" + page
    requires w + |dir| + 1 + |"man" + digits + "/" + page| < |line| ==>
               !IsNameChar(line[w + |dir| + 1 + |"man" + digits + "/" + page|])
    ensures MatchQualified(line) == Some((digits, page))
  {
    var s := w + |dir|;
    QualifiedTailIs(line, s + 1, digits, page);
    assert NoBreak(line, w, s);
    forall i | w <= i < s && line[i] == '/' ensures QualifiedTail(line, i + 1).None? {
      DirSlashNoTail(line, w, dir, i);
    }
    MatchQualifiedAt(line, w, s);
  }

  /** With a `/` that the lazy group stops at, the match is the tail after it. */
  lemma MatchQualifiedAt(line: string, w: nat, s: nat)
    requires AfterDirective(line) == Some(w) && w <= s < |line|
    requires line[s] == '/' && NoBreak(line, w, s) && QualifiedTail(line, s + 1).Some?
    requires forall i :: w <= i < s ==> !ViableSlash(line, i)
    ensures MatchQualified(line) == QualifiedTail(line, s + 1)
  {
    assert FirstTailSlash(line, w, s);
    LazySlashAt(line, w, s);
  }

  /** Where the parts of `<dir>/<tail><rest>` sit in the line it ends. */
  lemma InDirLayout(line: string, w: nat, dir: string, tail: string, rest: string)
    requires w <= |line| && line[w..] == dir + "/" + tail + rest
    ensures w + |dir| + 1 + |tail| <= |line|
    ensures forall i :: w <= i < w + |dir| ==> line[i] == dir[i - w]
    ensures line[w + |dir|] == '/'
    ensures line[w + |dir| + 1..w + |dir| + 1 + |tail|] == tail
    ensures w + |dir| + 1 + |tail| < |line| ==> line[w + |dir| + 1 + |tail|] == rest[0]
  {
    var body := dir + "/" + tail + rest;
    forall i | w <= i < w + |dir| ensures line[i] == dir[i - w] { assert line[i] == body[i - w]; }
    assert line[w + |dir|] == body[|dir|];
    assert line[w + |dir| + 1..w + |dir| + 1 + |tail|] == body[|dir| + 1..|dir| + 1 + |tail|];
    if w + |dir| + 1 + |tail| < |line| { assert line[w + |dir| + 1 + |tail|] == body[|dir| + 1 + |tail|]; }
  }

  /** A `/` inside `dir` is not followed by the tail: inside `dir` no `man<d>` follows it,
      and the `/` that ends `dir` breaks any `man<d>` that would run past it. */
  lemma DirSlashNoTail(line: string, w: nat, dir: string, i: nat)
    requires w + |dir| < |line| && line[w + |dir|] == '/' && NoCategoryAfterSlash(dir)
    requires forall x :: w <= x < w + |dir| ==> line[x] == dir[x - w]
    requires w <= i < w + |dir| && line[i] == '/'
    ensures QualifiedTail(line, i + 1).None?
  {
    var k, s := i - w, w + |dir|;
    assert dir[k] == '/';
    if i + 5 <= s {
      assert line[i + 1..i + 4] == dir[k + 1..k + 4];
      assert line[i + 4] == dir[k + 4];
    } else if i + 4 < s {
    } else if i + 4 <= |line| && s < i + 4 {
      assert line[i + 1..i + 4][s - i - 1] == '/';
    }
    QualifiedTailNotMan(line, i + 1);
  }

  /** The tail needs `man` and a digit where it starts. */
  lemma QualifiedTailNotMan(line: string, i: nat)
    requires i <= |line|
    requires i + 4 <= |line| ==> !(line[i..i + 3] == "man" && IsDigit(line[i + 3]))
    ensures QualifiedTail(line, i).None?
  {
    if i + 3 <= |line| && line[i..i + 3] == "man" {
      var d := Span(line, i + 3, IsDigit);
    }
  }

  /** The lazy group stops at the first `/` on the line that the tail follows. */
  lemma {:induction false} LazySlashAt(line: string, j: nat, s: nat)
    requires j <= s < |line| && FirstTailSlash(line, j, s) && QualifiedTail(line, s + 1).Some?
    ensures LazySlash(line, j) == QualifiedTail(line, s + 1)
    decreases s - j
  {
    if j < s {
      FirstTailSlashNext(line, j, s);
      LazySlashSkip(line, j);
      LazySlashAt(line, j + 1, s);
    }
  }

  /** Before the first viable `/`, the lazy group moves on by one character. */
  lemma FirstTailSlashNext(line: string, j: nat, s: nat)
    requires j < s < |line| && FirstTailSlash(line, j, s)
    ensures FirstTailSlash(line, j + 1, s)
    ensures line[j] != '\n' && !ViableSlash(line, j)
  {
  }

  /** A character that is not a newline and not a viable `/` is passed over. */
  lemma LazySlashSkip(line: string, j: nat)
    requires j < |line| && line[j] != '\n' && !ViableSlash(line, j)
    ensures LazySlash(line, j) == LazySlash(line, j + 1)
  {
  }

  /** Where the parts of `man<d>/<page><rest>` sit. */
  lemma QualifiedBodyLayout(body: string, digits: string, page: string, rest: string)
    requires body == "man" + digits + "/" + page + rest
    requires AllNameChars(page)
    requires rest == [] || !IsNameChar(rest[0])
    requires '/' !in rest
    ensures 3 + |digits| + 1 + |page| <= |body|
    ensures body[..3 + |digits| + 1 + |page|] == "man" + digits + "/" + page
    ensures 3 + |digits| + 1 + |page| < |body| ==> !IsNameChar(body[3 + |digits| + 1 + |page|])
    ensures forall k :: 3 + |digits| + 1 <= k < |body| ==> body[k] != '/'
  {
    var head := "man" + digits + "/";
    var n := |head| + |page|;
    assert body[..n] == head + page;
    if n < |body| { assert body[n] == rest[0]; }
    NoSlashInTail(page, rest);
    assert body[|head|..] == page + rest;
    NoSlashFrom(body, |head|, page + rest);
  }

  /** Facts about `body` carried over to the line it ends. */
  lemma ShiftLayout(line: string, w: nat, body: string, n: nat, m: nat)
    requires w <= |line| && line[w..] == body && n <= |body|
    ensures w + n <= |line| && line[w..w + n] == body[..n]
    ensures w + n < |line| ==> line[w + n] == body[n]
    ensures (forall k :: m <= k < |body| ==> body[k] != '/') ==>
              forall k :: w + m <= k < |line| ==> line[k] != '/'
  {
    if forall k :: m <= k < |body| ==> body[k] != '/' {
      forall k | w + m <= k < |line| ensures line[k] != '/' { assert line[k] == body[k - w]; }
    }
  }

  lemma NoSlashInTail(page: string, rest: string)
    requires AllNameChars(page) && '/' !in rest
    ensures '/' !in page + rest
  {
    forall k | 0 <= k < |page| ensures page[k] != '/' { assert IsNameChar(page[k]); }
  }

  lemma NoSlashFrom(line: string, from: nat, tail: string)
    requires from <= |line| && line[from..] == tail && '/' !in tail
    ensures forall k :: from <= k < |line| ==> line[k] != '/'
  {
    forall k | from <= k < |line| ensures line[k] != '/' { assert line[k] == tail[k - from]; }
  }

  /** A path-qualified directive points at `man_path(int(d), page)`. */
  lemma AliasPathQualified(line: string, digits: string, page: string)
    requires MatchQualified(line) == Some((digits, page))
    ensures AliasPath(line) == Some(ManRoot + NatToString(DigitsValue(digits)) + "/" + page)
  {
    NameNotRooted(page);
  }

  lemma NameNotRooted(page: string)
    requires page != [] && AllNameChars(page)
    ensures page[0] != '/'
  {
    assert IsNameChar(page[0]);
  }

  /** The dotted form `<page>.<d>` right after the blanks. */
  lemma MatchDottedIs(line: string, w: nat, page: string, digit: char)
    requires AfterDirective(line) == Some(w)
    requires w + |page| + 2 <= |line|
    requires line[w..w + |page| + 2] == page + "." + [digit]
    requires page != [] && AllNameChars(page) && IsDigit(digit)
    ensures MatchDotted(line) == Some((page + "." + [digit], [digit]))
  {
    var n := w + |page|;
    var piece := line[w..n + 2];
    forall k | w <= k < n ensures IsNameChar(line[k]) {
      assert line[k] == piece[k - w] == page[k - w];
    }
    assert line[n] == piece[|page|] == '.';
    assert line[n + 1] == piece[|page| + 1] == digit;
    SpanIs(line, w, IsNameChar, n);
    assert line[n + 1..n + 2] == [digit];
  }

  /** The converse of `MatchDottedIs`: a dotted match is a `<page>.<d>` present in the line
      right after the blanks, so a line without that form is not understood. */
  lemma MatchDottedSound(line: string)
    requires MatchDotted(line).Some?
    ensures exists w: nat, page: string, digit: char ::
              AfterDirective(line) == Some(w) && page != [] && AllNameChars(page) && IsDigit(digit) &&
              w + |page| + 2 <= |line| && line[w..w + |page| + 2] == page + "." + [digit] &&
              MatchDotted(line) == Some((page + "." + [digit], [digit]))
  {
    var w := AfterDirective(line).value;
    var (group, d) := MatchDotted(line).value;
    var page, digit := group[..|group| - 2], d[0];
    assert d == [digit];
    assert group == page + "." + [digit] by {
      assert group[|group| - 2..] == "." + d;
    }
    assert line[w..w + |page| + 2] == group;
  }

  /** `.so <blanks><page>.<d><rest>` names `<page>.<d>` in category `<d>`, when the line has
      no `/` for the path-qualified form to use. */
  lemma DottedDirective(blanks: string, page: string, digit: char, rest: string)
    requires blanks != [] && forall k :: 0 <= k < |blanks| ==> IsSpace(blanks[k])
    requires page != [] && AllNameChars(page)
    requires IsDigit(digit)
    requires '/' !in rest
    ensures MatchQualified(".so" + blanks + page + "." + [digit] + rest).None?
    ensures MatchDotted(".so" + blanks + page + "." + [digit] + rest) == Some((page + "." + [digit], [digit]))
  {
    var dotted := page + "." + [digit];
    var body := dotted + rest;
    var line := ".so" + blanks + body;
    assert line == ".so" + blanks + page + "." + [digit] + rest;
    assert !IsSpace(body[0]) by { assert body[0] == page[0]; }
    AfterDirectiveIs(line, blanks, body);
    var w := 3 + |blanks|;
    forall k | w <= k < |line| ensures line[k] != '/' {
      if k < w + |page| {
        assert line[k] == page[k - w];
      } else if k >= w + |dotted| {
        assert line[k] == rest[k - w - |dotted|];
      } else {
        assert line[k] == dotted[k - w];
      }
    }
    LazySlashNone(line, w);
    QualifiedTailNoSlash(line, w);
    assert line[w..w + |page| + 2] == dotted;
    MatchDottedIs(line, w, page, digit);
  }

  /** A dotted directive that the path-qualified form misses points at
      `man_path(int(d), "<page>.<d>")`. */
  lemma AliasPathDotted(line: string, dotted: string, digit: string)
    requires MatchQualified(line).None? && MatchDotted(line) == Some((dotted, digit))
    requires dotted != [] && dotted[0] != '/'
    ensures AliasPath(line) == Some(ManRoot + NatToString(DigitsValue(digit)) + "/" + dotted)
  {
  }

  /** A directive without whitespace after `.so` is not understood. */
  lemma NoBlankNotUnderstood(rest: string)
    requires rest == [] || !IsSpace(rest[0])
    ensures AliasPath(".so" + rest) == None
  {
    var line := ".so" + rest;
    if |line| > 3 {
      assert line[3] == rest[0];
    }
  }

  /** Stripping a directive line with its trailing newline gives back the line. */
  lemma StripDirectiveLine(line: string)
    requires line != [] && !IsSpace(line[0]) && !IsSpace(line[|line| - 1])
    ensures Strip(line + "\n") == line
  {
    var data := line + "\n";
    assert StripLeft(data) == data;
    assert data[..|data| - 1] == line;
    assert StripRight(line) == line;
  }

  /** The directive line `.so <page>.<d>` points at `/usr/share/man/man<d>/<page>.<d>`. */
  lemma DottedLinePath(page: string, digit: char)
    requires page != [] && AllNameChars(page) && IsDigit(digit)
    ensures AliasPath(".so " + page + "." + [digit]) == Some(ManRoot + [digit] + "/" + page + "." + [digit])
  {
    var line := ".so " + page + "." + [digit];
    var dotted := page + "." + [digit];
    assert line == ".so" + " " + page + "." + [digit] + "";
    DottedDirective(" ", page, digit, "");
    assert dotted[0] == page[0];
    AliasPathDotted(line, dotted, [digit]);
    SingleDigit(digit);
    ConcatAssoc(ManRoot + [digit] + "/", page, ".", [digit]);
  }

  lemma ConcatAssoc(x: string, a: string, b: string, c: string)
    ensures x + (a + b + c) == x + a + b + c
  {
  }

  /** A source holding `.so <page>.<d>` (as in `.so select.2`) is a one-line directive whose
      candidates are globbed with `/usr/share/man/man<d>/<page>.<d>.*`. */
  lemma DottedSourceDirective(page: string, digit: char)
    requires page != [] && AllNameChars(page) && IsDigit(digit)
    ensures OneLineDirective(".so " + page + "." + [digit] + "\n")
    ensures CandidatePattern(".so " + page + "." + [digit] + "\n") ==
            Some(ManRoot + [digit] + "/" + page + "." + [digit] + ".*")
  {
    var line := ".so " + page + "." + [digit];
    var data := line + "\n";
    assert data == ".so " + page + "." + [digit] + "\n";
    StripDirectiveLine(line);
    assert data[..4] == ".so ";
    forall k | 0 <= k < |line| ensures line[k] != '\n' {
      if 4 <= k < 4 + |page| { assert line[k] == page[k - 4]; }
    }
    DottedLinePath(page, digit);
  }

  /** The alias scenario: a source holding `.so <page>.<d>` resolves to its candidate when
      the glob finds exactly one file, and to nothing when it finds none or several. */
  lemma DottedAliasScenario(path: string, page: string, digit: char, glob: string -> seq<string>)
    requires page != [] && AllNameChars(page) && IsDigit(digit)
    ensures var candidates := glob(ManRoot + [digit] + "/" + page + "." + [digit] + ".*");
            var r := Src(path, true, ".so " + page + "." + [digit] + "\n", glob);
            (|candidates| == 1 ==> r == Alias(SourceName(path), candidates[0])) &&
            (|candidates| == 0 ==> r == Skipped(NoCandidate)) &&
            (|candidates| > 1 ==> r == Skipped(TooManyCandidates))
  {
    DottedSourceDirective(page, digit);
  }
}
