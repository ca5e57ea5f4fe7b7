/** ASCII models of the Python string and path primitives the converter is built on:
    `os.path.splitext`, `os.path.basename`, `os.path.join`, `str.strip`, `str.lower`,
    `str.replace`, `int()` and `str()` on decimal numbers, and the regular-expression
    character classes `\w`, `\d` and `\s`. */
module PyStr {

  datatype Option<+T> = None | Some(value: T)

  /** `\d`, restricted to ASCII. */
  predicate IsDigit(c: char) { '0' <= c <= '9' }

  /** `\w`, restricted to ASCII. */
  predicate IsWordChar(c: char) {
    'a' <= c <= 'z' || 'A' <= c <= 'Z' || IsDigit(c) || c == '_'
  }

  /** `\s` and `str.isspace`, restricted to ASCII: space, tab to carriage return, and the
      four separators 0x1C to 0x1F. */
  predicate IsSpace(c: char) {
    c == ' ' || 9 <= c as int <= 13 || 28 <= c as int <= 31
  }

  predicate AllDigits(s: string) { forall k :: 0 <= k < |s| ==> IsDigit(s[k]) }

  predicate StartsWith(s: string, p: string) { |p| <= |s| && s[..|p|] == p }

  predicate EndsWith(s: string, p: string) { |p| <= |s| && s[|s| - |p|..] == p }

  /** `t` occurs in `s` starting at index `i`. */
  predicate OccursAt(s: string, t: string, i: int) {
    0 <= i && i + |t| <= |s| && s[i..i + |t|] == t
  }

  /** `t` occurs somewhere in `s`. */
  predicate Contains(s: string, t: string) {
    exists i :: 0 <= i <= |s| && OccursAt(s, t, i)
  }

  /** The end of the longest run of characters satisfying `p` that starts at `i`
      (what a greedy `p+` or `p*` consumes). */
  function Span(s: string, i: nat, p: char -> bool): (j: nat)
    requires i <= |s|
    ensures i <= j <= |s|
    ensures forall k :: i <= k < j ==> p(s[k])
    ensures j < |s| ==> !p(s[j])
    decreases |s| - i
  {
    if i < |s| && p(s[i]) then Span(s, i + 1, p) else i
  }

  /** A run that satisfies `p` and cannot be extended is the one `Span` finds. */
  lemma SpanIs(s: string, i: nat, p: char -> bool, j: nat)
    requires i <= j <= |s|
    requires forall k :: i <= k < j ==> p(s[k])
    requires j < |s| ==> !p(s[j])
    ensures Span(s, i, p) == j
  {
  }

  /** `s.rfind(c)`: the last index of `c` in `s`, or -1. */
  function LastIndexOf(s: string, c: char): (r: int)
    ensures -1 <= r < |s|
    ensures r >= 0 ==> s[r] == c
    ensures forall k :: r < k < |s| ==> s[k] != c
    decreases |s|
  {
    if |s| == 0 then -1
    else if s[|s| - 1] == c then |s| - 1
    else LastIndexOf(s[..|s| - 1], c)
  }

  lemma LastIndexOfIs(s: string, c: char, r: int)
    requires -1 <= r < |s|
    requires r >= 0 ==> s[r] == c
    requires forall k :: r < k < |s| ==> s[k] != c
    ensures LastIndexOf(s, c) == r
  {
  }

  /** The characters of `p` in `[lo, hi)` are all dots. */
  predicate OnlyDots(p: string, lo: nat, hi: nat)
    requires lo <= hi <= |p|
    decreases hi - lo
  {
    lo == hi || (p[lo] == '.' && OnlyDots(p, lo + 1, hi))
  }

  lemma {:induction false} OnlyDotsAt(p: string, lo: nat, hi: nat, k: nat)
    requires lo <= k < hi <= |p| && OnlyDots(p, lo, hi)
    ensures p[k] == '.'
    decreases hi - lo
  {
    if lo < k { OnlyDotsAt(p, lo + 1, hi, k); }
  }

  /** `os.path.splitext`: splits off the last `.ext` of the final path component; dots that
      lead that component do not start an extension. */
  function SplitExt(p: string): (r: (string, string))
    ensures r.0 + r.1 == p
    ensures r.1 == [] || r.1[0] == '.'
  {
    var sep := LastIndexOf(p, '/');
    var dot := LastIndexOf(p, '.');
    if dot > sep && !OnlyDots(p, sep + 1, dot) then (p[..dot], p[dot..]) else (p, [])
  }

  /** The part `splitext` keeps is a prefix of the path. */
  lemma SplitExtPrefix(p: string)
    ensures StartsWith(p, SplitExt(p).0)
  {
    var (stem, ext) := SplitExt(p);
    assert p[..|stem|] == (stem + ext)[..|stem|] == stem;
  }

  lemma StartsWithTrans(a: string, b: string, c: string)
    requires StartsWith(a, b) && StartsWith(b, c)
    ensures StartsWith(a, c)
  {
    assert a[..|c|] == a[..|b|][..|c|];
  }

  /** Appending `.e` to a name without `/` and with a character other than a dot makes
      `.e` its extension. */
  lemma SplitExtAppend(x: string, e: string)
    requires '/' !in x && '/' !in e && '.' !in e
    requires exists k :: 0 <= k < |x| && x[k] != '.'
    ensures SplitExt(x + "." + e) == (x, "." + e)
  {
    var p := x + "." + e;
    LastIndexOfIs(p, '/', -1);
    LastIndexOfIs(p, '.', |x|);
    var k :| 0 <= k < |x| && x[k] != '.';
    if OnlyDots(p, 0, |x|) { OnlyDotsAt(p, 0, |x|, k); }
    assert p[..|x|] == x && p[|x|..] == "." + e;
  }

  /** A name without a dot has no extension. */
  lemma SplitExtNoDot(x: string)
    requires '.' !in x
    ensures SplitExt(x) == (x, [])
  {
    LastIndexOfIs(x, '.', -1);
  }

  /** `os.path.basename`: everything after the last `/`. */
  function Basename(p: string): (r: string)
    ensures '/' !in r
    ensures |r| <= |p| && r == p[|p| - |r|..]
  {
    p[LastIndexOf(p, '/') + 1..]
  }

  lemma BasenameAppend(d: string, y: string)
    requires '/' !in y
    ensures Basename(d + "/" + y) == y
  {
    var p := d + "/" + y;
    LastIndexOfIs(p, '/', |d|);
  }

  /** `os.path.join(a, b)`. */
  function JoinPath(a: string, b: string): string
  {
    if |b| > 0 && b[0] == '/' then b
    else if a == [] || a[|a| - 1] == '/' then a + b
    else a + "/" + b
  }

  /** A joined path ends with its second part, which is its base name when it has no `/`. */
  lemma JoinPathTail(a: string, b: string)
    ensures EndsWith(JoinPath(a, b), b)
    ensures '/' !in b ==> Basename(JoinPath(a, b)) == b
  {
    if |b| > 0 && b[0] == '/' {
    } else if a == [] || a[|a| - 1] == '/' {
      if '/' !in b && a != [] { LastIndexOfIs(a + b, '/', |a| - 1); }
      if '/' !in b && a == [] { LastIndexOfIs(b, '/', -1); }
    } else {
      if '/' !in b { BasenameAppend(a, b); }
    }
  }

  /** `str.strip()`: drop leading and trailing whitespace. The left half drops exactly the
      leading run of whitespace. */
  function StripLeft(s: string): (r: string)
    ensures |r| <= |s| && r == s[|s| - |r|..]
    ensures r == [] || !IsSpace(r[0])
    ensures forall k :: 0 <= k < |s| - |r| ==> IsSpace(s[k])
    decreases |s|
  {
    if |s| > 0 && IsSpace(s[0]) then StripLeft(s[1..]) else s
  }

  /** The right half drops exactly the trailing run of whitespace. */
  function StripRight(s: string): (r: string)
    ensures |r| <= |s| && r == s[..|r|]
    ensures r == [] || !IsSpace(r[|r| - 1])
    ensures forall k :: |r| <= k < |s| ==> IsSpace(s[k])
    decreases |s|
  {
    if |s| > 0 && IsSpace(s[|s| - 1]) then StripRight(s[..|s| - 1]) else s
  }

  function Strip(s: string): string { StripRight(StripLeft(s)) }

  /** `str.lower()`, restricted to ASCII. */
  function LowerChar(c: char): char { if 'A' <= c <= 'Z' then (c as int + 32) as char else c }

  function Lower(s: string): string
  {
    seq(|s|, k requires 0 <= k < |s| => LowerChar(s[k]))
  }

  /** The lower-cased string has the same length, each upper-case letter replaced by its
      lower-case partner, no upper-case letter, and every other character where it was. */
  lemma LowerShape(s: string)
    ensures |Lower(s)| == |s|
    ensures forall k :: 0 <= k < |s| && 'A' <= s[k] <= 'Z' ==> Lower(s)[k] == (s[k] as int + 32) as char
    ensures forall k :: 0 <= k < |s| ==> !('A' <= Lower(s)[k] <= 'Z')
    ensures forall k :: 0 <= k < |s| && !('A' <= s[k] <= 'Z') ==> Lower(s)[k] == s[k]
  {
  }

  /** `s.replace(pat, rep)`: every occurrence of `pat`, found left to right without overlap,
      is replaced by `rep`. */
  function Replace(s: string, pat: string, rep: string): string
    requires pat != []
    decreases |s|, 1
  {
    if |s| < |pat| then s else ReplaceFront(s, pat, rep)
  }

  /** `Replace` on a string at least as long as `pat`: an occurrence at the front is replaced
      and skipped, otherwise the first character is kept. */
  function ReplaceFront(s: string, pat: string, rep: string): string
    requires pat != [] && |s| >= |pat|
    decreases |s|, 0
  {
    if s[..|pat|] == pat then rep + Replace(s[|pat|..], pat, rep)
    else [s[0]] + Replace(s[1..], pat, rep)
  }

  /** Replacing a pattern by itself changes nothing. */
  lemma {:induction false} ReplaceSelf(s: string, pat: string)
    requires pat != []
    ensures Replace(s, pat, pat) == s
    decreases |s|
  {
    if |s| < |pat| {
    } else if s[..|pat|] == pat {
      ReplaceSelf(s[|pat|..], pat);
      assert s == s[..|pat|] + s[|pat|..];
    } else {
      ReplaceSelf(s[1..], pat);
      assert s == [s[0]] + s[1..];
    }
  }

  /** Text without an occurrence of the pattern is returned unchanged. */
  lemma {:induction false} ReplaceAbsent(s: string, pat: string, rep: string)
    requires pat != [] && !Contains(s, pat)
    ensures Replace(s, pat, rep) == s
    decreases |s|
  {
    if |s| >= |pat| {
      assert !OccursAt(s, pat, 0);
      assert !Contains(s[1..], pat) by {
        forall i | OccursAt(s[1..], pat, i)
          ensures false
        {
          assert s[1..][i..i + |pat|] == s[i + 1..i + 1 + |pat|];
          assert OccursAt(s, pat, i + 1);
        }
      }
      ReplaceAbsent(s[1..], pat, rep);
      assert s == [s[0]] + s[1..];
    }
  }

  /** When the first occurrence of `pat` starts right after `a`, the text before it is kept,
      that occurrence becomes `rep`, and the scan resumes after it. */
  lemma ReplaceFirst(a: string, pat: string, b: string, rep: string)
    requires pat != []
    requires forall i :: 0 <= i < |a| ==> !OccursAt(a + pat + b, pat, i)
    ensures Replace(a + pat + b, pat, rep) == a + rep + Replace(b, pat, rep)
  {
    var s := a + pat + b;
    assert s[..|a|] == a && s[|a| + |pat|..] == b;
    assert s[|a|..][..|pat|] == pat;
    ReplaceAt(s, |a|, pat, rep);
  }

  /** The same, stated on one string: `k` is the first place `pat` occurs in `s`. */
  lemma {:induction false} ReplaceAt(s: string, k: nat, pat: string, rep: string)
    requires pat != [] && k + |pat| <= |s| && s[k..][..|pat|] == pat
    requires forall i :: 0 <= i < k ==> !OccursAt(s, pat, i)
    ensures Replace(s, pat, rep) == s[..k] + rep + Replace(s[k + |pat|..], pat, rep)
    decreases k
  {
    if k == 0 {
      assert s[..|pat|] == pat;
      ReplaceHit(s, pat, rep);
    } else {
      ReplaceAtShift(s, k, pat);
      ReplaceAt(s[1..], k - 1, pat, rep);
      ReplaceAtStep(s, k, pat, rep);
    }
  }

  /** One step of `ReplaceAt`: a first character that starts no occurrence is kept. */
  lemma ReplaceAtStep(s: string, k: nat, pat: string, rep: string)
    requires pat != [] && 0 < k && k + |pat| <= |s| && !OccursAt(s, pat, 0)
    requires Replace(s[1..], pat, rep)
      == s[1..][..k - 1] + rep + Replace(s[1..][k - 1 + |pat|..], pat, rep)
    ensures Replace(s, pat, rep) == s[..k] + rep + Replace(s[k + |pat|..], pat, rep)
  {
    ReplaceSkip(s, pat, rep);
    assert s[1..][k - 1 + |pat|..] == s[k + |pat|..];
    ConsSlice(s, k, rep, Replace(s[k + |pat|..], pat, rep));
  }

  lemma ReplaceAtShift(s: string, k: nat, pat: string)
    requires 0 < k && k + |pat| <= |s| && s[k..][..|pat|] == pat
    requires forall i :: 0 <= i < k ==> !OccursAt(s, pat, i)
    ensures !OccursAt(s, pat, 0) && s[1..][k - 1..][..|pat|] == pat
    ensures forall i :: 0 <= i < k - 1 ==> !OccursAt(s[1..], pat, i)
  {
    forall i | 0 <= i < k - 1
      ensures !OccursAt(s[1..], pat, i)
    {
      assert s[1..][i..i + |pat|] == s[i + 1..i + 1 + |pat|];
      assert !OccursAt(s, pat, i + 1);
    }
    assert s[1..][k - 1..] == s[k..];
  }

  /** An occurrence at the front is replaced. */
  lemma ReplaceHit(s: string, pat: string, rep: string)
    requires pat != [] && OccursAt(s, pat, 0)
    ensures Replace(s, pat, rep) == rep + Replace(s[|pat|..], pat, rep)
  {
    assert s[..|pat|] == s[0..|pat|];
  }

  lemma ConsSlice(s: string, k: nat, mid: string, rest: string)
    requires 0 < k <= |s|
    ensures [s[0]] + (s[1..][..k - 1] + mid + rest) == s[..k] + mid + rest
  {
    assert s[..k] == [s[0]] + s[1..][..k - 1];
  }

  /** A character that starts no occurrence is kept. */
  lemma ReplaceSkip(s: string, pat: string, rep: string)
    requires pat != [] && s != [] && !OccursAt(s, pat, 0)
    ensures Replace(s, pat, rep) == [s[0]] + Replace(s[1..], pat, rep)
  {
    assert |s| >= |pat| ==> s[..|pat|] == s[0..|pat|];
  }

  /** `str(n)` for a natural number. */
  function NatToString(n: nat): (r: string)
    ensures |r| > 0 && AllDigits(r)
    ensures r[0] != '0' || r == "0"
  {
    if n < 10 then [('0' as int + n) as char]
    else NatToString(n / 10) + [('0' as int + n % 10) as char]
  }

  /** `int(s)` for a string of ASCII digits. */
  function DigitsValue(s: string): (r: nat)
    requires AllDigits(s)
  {
    if s == [] then 0
    else DigitsValue(s[..|s| - 1]) * 10 + (s[|s| - 1] as int - '0' as int)
  }

  /** `int(str(n)) == n`. */
  lemma {:induction false} DigitsValueOfNatToString(n: nat)
    ensures DigitsValue(NatToString(n)) == n
  {
    if n >= 10 {
      var s := NatToString(n);
      assert s[..|s| - 1] == NatToString(n / 10);
      DigitsValueOfNatToString(n / 10);
    }
  }

  /** `str(int(s)) == s` for digits without a leading zero. */
  lemma {:induction false} NatToStringOfDigitsValue(s: string)
    requires s != [] && AllDigits(s)
    requires s[0] != '0' || s == "0"
    ensures NatToString(DigitsValue(s)) == s
    decreases |s|
  {
    if |s| > 1 {
      var init := s[..|s| - 1];
      NatToStringOfDigitsValue(init);
      assert DigitsValue(init) >= 1 by { DigitsValuePositive(init); }
      assert s == init + [s[|s| - 1]];
    }
  }

  /** A single digit reads back as itself. */
  lemma SingleDigit(c: char)
    requires IsDigit(c)
    ensures NatToString(DigitsValue([c])) == [c]
  {
    NatToStringOfDigitsValue([c]);
  }

  lemma {:induction false} DigitsValuePositive(s: string)
    requires s != [] && AllDigits(s) && s[0] != '0'
    ensures DigitsValue(s) >= 1
    decreases |s|
  {
    if |s| > 1 {
      DigitsValuePositive(s[..|s| - 1]);
    }
  }
}
