/** The whole run (`do_levels`): every category is converted in the order given, and the Qt
    Help Project file lists, per distinct category, its keywords and its files. */
module Catalog {
  import opened PyStr
  import opened Level
  import opened Links

  /** The fixed text of the catalog: `QHP_TEMPLATE` around its namespace field and its closing
      part, `CATEGORY_TEMPLATE` around its category field and its two other parts, and the
      pieces of the keyword and file lines. */
  datatype Layout = Layout(
    projectOpen: string, projectOpenEnd: string, projectClose: string,
    sectionOpen: string, sectionOpenEnd: string, keywordsClose: string, sectionClose: string,
    keywordStart: string, keywordMiddle: string, keywordEnd: string,
    fileStart: string, pagesEnd: string, imagesEnd: string)

  /** The text man2qhelp.py:23-42 and 325-328 write. */
  const Qhp := Layout(
    "<?xml version=\"1.0\" encoding=\"UTF-8\"?>\n<QtHelpProject version=\"1.0\">\n<namespace>",
    "</namespace>\n<virtualFolder>man-pages</virtualFolder>\n<customFilter name=\"Linux Man 1.0\">\n" +
    "    <filterAttribute>man</filterAttribute>\n</customFilter>\n",
    "</QtHelpProject>\n",
    "<filterSection>\n    <filterAttribute>man</filterAttribute>\n    <filterAttribute>",
    "</filterAttribute>\n    <keywords>\n",
    "    </keywords>\n    <files>\n",
    "    </files>\n</filterSection>\n",
    "        <keyword name=\"", "\" ref=\"", "\" />\n",
    "        <file>html.", "/*.html</file>\n", "/images/*</file>\n")

  /** `QHP_TEMPLATE[0]` with the namespace filled in, as `str.format` does: verbatim. */
  function Header(t: Layout, namespace: string): (r: string)
    ensures |r| == |t.projectOpen| + |namespace| + |t.projectOpenEnd|
    ensures r[|t.projectOpen|..|t.projectOpen| + |namespace|] == namespace
  {
    t.projectOpen + namespace + t.projectOpenEnd
  }

  /** `CATEGORY_TEMPLATE[0]` for a category: its filter attribute is `man<level>`. */
  function SectionOpen(t: Layout, level: string): (r: string)
    ensures |r| == |t.sectionOpen| + 3 + |level| + |t.sectionOpenEnd|
    ensures r[|t.sectionOpen|..|t.sectionOpen| + 3 + |level|] == "man" + level
  {
    t.sectionOpen + "man" + level + t.sectionOpenEnd
  }

  /** The two file globs of a category: every page and every image of `html.<level>`. */
  function FileLines(t: Layout, level: string): string
  {
    t.fileStart + level + t.pagesEnd + t.fileStart + level + t.imagesEnd
  }

  /** One keyword line (man2qhelp.py:325): name and target are written as they are, without
      escaping. */
  function KeywordLine(t: Layout, k: Keyword): (r: string)
    ensures |r| == |t.keywordStart| + |k.keyword| + |t.keywordMiddle| + |k.target| + |t.keywordEnd|
    ensures r[|t.keywordStart|..|t.keywordStart| + |k.keyword|] == k.keyword
    ensures var m := |t.keywordStart| + |k.keyword| + |t.keywordMiddle|;
            r[m..m + |k.target|] == k.target
  {
    t.keywordStart + k.keyword + t.keywordMiddle + k.target + t.keywordEnd
  }

  /** The keyword lines of a category, in registration order. */
  function KeywordLines(t: Layout, keywords: seq<Keyword>): string
    decreases |keywords|
  {
    if keywords == [] then []
    else KeywordLines(t, keywords[..|keywords| - 1]) + KeywordLine(t, keywords[|keywords| - 1])
  }

  /** The `filterSection` of one category (man2qhelp.py:323-329). */
  function Section(t: Layout, level: string, keywords: seq<Keyword>): string
  {
    SectionOpen(t, level) + KeywordLines(t, keywords) + t.keywordsClose + FileLines(t, level) + t.sectionClose
  }

  /** The `OrderedDict` of keywords by category, as a sequence of (category, keywords) pairs. */
  type Catalog = seq<(string, seq<Keyword>)>

  /** A dictionary holds each key once. */
  predicate UniqueLevels(kws: Catalog)
  {
    forall i, j :: 0 <= i < j < |kws| ==> kws[i].0 != kws[j].0
  }

  /** The categories of a catalog, in order. */
  function LevelsOf(kws: Catalog): (r: seq<string>)
    ensures |r| == |kws| && forall i :: 0 <= i < |kws| ==> r[i] == kws[i].0
  {
    seq(|kws|, i requires 0 <= i < |kws| => kws[i].0)
  }

  /** The sections of a catalog, in order. */
  function SectionsText(t: Layout, kws: Catalog): string
    decreases |kws|
  {
    if kws == [] then []
    else SectionsText(t, kws[..|kws| - 1]) + Section(t, kws[|kws| - 1].0, kws[|kws| - 1].1)
  }

  /** The text of the catalog file (man2qhelp.py:320-331). */
  function CatalogText(t: Layout, namespace: string, kws: Catalog): string
  {
    Header(t, namespace) + SectionsText(t, kws) + t.projectClose
  }

  /** Where the catalog is written: `options.cache_path.join(options.qhp)`. */
  function CatalogPath(opts: Options): string
  {
    JoinPath(opts.cachePath, opts.qhp)
  }

  /** The position of a category in the catalog, if it has one. */
  function IndexOfLevel(kws: Catalog, level: string): (r: Option<nat>)
    ensures r.Some? ==> r.value < |kws| && kws[r.value].0 == level
    ensures r.None? <==> level !in LevelsOf(kws)
    decreases |kws|
  {
    if kws == [] then None
    else if kws[|kws| - 1].0 == level then Some(|kws| - 1)
    else
      var r := IndexOfLevel(kws[..|kws| - 1], level);
      assert LevelsOf(kws) == LevelsOf(kws[..|kws| - 1]) + [kws[|kws| - 1].0];
      r
  }

  /** `kws[level] = keywords`: a category already present keeps its place and takes the new
      keywords; a new one goes last. */
  function Assign(kws: Catalog, level: string, keywords: seq<Keyword>): (r: Catalog)
    requires UniqueLevels(kws)
    ensures UniqueLevels(r)
    ensures level in LevelsOf(kws) ==> LevelsOf(r) == LevelsOf(kws)
    ensures level !in LevelsOf(kws) ==> LevelsOf(r) == LevelsOf(kws) + [level]
    ensures forall i :: 0 <= i < |r| ==> r[i].1 == if r[i].0 == level then keywords else kws[i].1
  {
    match IndexOfLevel(kws, level)
    case Some(i) =>
      var r := kws[i := (level, keywords)];
      assert LevelsOf(r) == LevelsOf(kws);
      r
    case None =>
      var r := kws + [(level, keywords)];
      assert LevelsOf(r) == LevelsOf(kws) + [level];
      r
  }

  /** The categories of `sources` without repeats, each where it first occurs. */
  function Distinct(sources: seq<string>): (r: seq<string>)
    ensures forall x :: x in r <==> x in sources
    ensures forall i, j :: 0 <= i < j < |r| ==> r[i] != r[j]
    decreases |sources|
  {
    if sources == [] then []
    else
      var prefix := sources[..|sources| - 1];
      var last := sources[|sources| - 1];
      assert sources == prefix + [last];
      var d := Distinct(prefix);
      if last in d then d else d + [last]
  }

  /** The first position of `x` in `s`. */
  function First(s: seq<string>, x: string): (r: nat)
    requires x in s
    ensures r < |s| && s[r] == x && forall k :: 0 <= k < r ==> s[k] != x
    decreases |s|
  {
    var prefix := s[..|s| - 1];
    if x in prefix then First(prefix, x) else |s| - 1
  }

  /** `Distinct` keeps the order of first occurrences. */
  lemma {:induction false} DistinctOrder(sources: seq<string>)
    ensures forall i, j :: 0 <= i < j < |Distinct(sources)| ==>
              First(sources, Distinct(sources)[i]) < First(sources, Distinct(sources)[j])
    decreases |sources|
  {
    if sources != [] {
      var prefix := sources[..|sources| - 1];
      var last := sources[|sources| - 1];
      DistinctOrder(prefix);
      var d := Distinct(prefix);
      assert sources == prefix + [last];
      if last !in d {
        var r := d + [last];
        forall i, j | 0 <= i < j < |r| ensures First(sources, r[i]) < First(sources, r[j]) {
          FirstInPrefix(prefix, last, d[i]);
          if j < |d| {
            FirstInPrefix(prefix, last, d[j]);
          } else {
            FirstOfLast(prefix, last);
          }
        }
      } else {
        forall i, j | 0 <= i < j < |d| ensures First(sources, d[i]) < First(sources, d[j]) {
          FirstInPrefix(prefix, last, d[i]);
          FirstInPrefix(prefix, last, d[j]);
        }
      }
    }
  }

  lemma FirstInPrefix(prefix: seq<string>, last: string, x: string)
    requires x in prefix
    ensures First(prefix + [last], x) == First(prefix, x) < |prefix|
  {
    assert (prefix + [last])[..|prefix|] == prefix;
  }

  lemma FirstOfLast(prefix: seq<string>, last: string)
    requires last !in prefix
    ensures First(prefix + [last], last) == |prefix|
  {
    assert (prefix + [last])[..|prefix|] == prefix;
  }

  /** What the run has built after some categories. */
  datatype RunState = RunState(catalog: Catalog, refs: seq<(string, string)>, hasErrors: bool, dirs: map<string, Dir>)

  /** One iteration of the loop of `do_levels` (man2qhelp.py:310-316); `listing` gives the
      files of each category's source directory. */
  function Step(opts: Options, tools: Tools, listing: string -> seq<Entry>, s: RunState, level: string): (r: RunState)
    requires UniqueLevels(s.catalog)
    ensures UniqueLevels(r.catalog)
  {
    var (result, dir) := LevelOutcome(level, opts, tools, listing(level), DirOf(s.dirs, level));
    RunState(Assign(s.catalog, level, result.keywords), s.refs + result.crossReferences,
             s.hasErrors || result.hasErrors, s.dirs[level := dir])
  }

  /** The categories converted from first to last. */
  function Run(opts: Options, tools: Tools, listing: string -> seq<Entry>, s: RunState, sources: seq<string>): (r: RunState)
    requires UniqueLevels(s.catalog)
    ensures UniqueLevels(r.catalog)
    decreases |sources|, 1
  {
    if sources == [] then s else RunThenLast(opts, tools, listing, s, sources)
  }

  /** A non-empty list of categories: those before the last one, then the last one. */
  function RunThenLast(opts: Options, tools: Tools, listing: string -> seq<Entry>, s: RunState, sources: seq<string>): (r: RunState)
    requires sources != [] && UniqueLevels(s.catalog)
    ensures UniqueLevels(r.catalog)
    decreases |sources|, 0
  {
    Step(opts, tools, listing, Run(opts, tools, listing, s, sources[..|sources| - 1]), sources[|sources| - 1])
  }

  /** The keywords of a category's listing. */
  function LevelKeywords(opts: Options, tools: Tools, listing: string -> seq<Entry>, level: string): seq<Keyword>
  {
    KeywordsOf(level, opts.cachePath, Listing(level, tools.glob, listing(level)))
  }

  /** The run starts with an empty dictionary and no errors. */
  function Start(dirs: map<string, Dir>): RunState
  {
    RunState([], [], false, dirs)
  }

  /** The catalog lists each category of `sources` once, where it first occurs, with the
      keywords of its listing (man2qhelp.py:310-314): a repeated category is converted again,
      but its keywords do not depend on what the first conversion left in the cache. */
  lemma {:induction false} RunCatalog(opts: Options, tools: Tools, listing: string -> seq<Entry>, dirs: map<string, Dir>, sources: seq<string>)
    ensures var r := Run(opts, tools, listing, Start(dirs), sources);
            LevelsOf(r.catalog) == Distinct(sources) &&
            forall i :: 0 <= i < |r.catalog| ==> r.catalog[i].1 == LevelKeywords(opts, tools, listing, r.catalog[i].0)
    decreases |sources|
  {
    if sources != [] {
      var prefix := sources[..|sources| - 1];
      var level := sources[|sources| - 1];
      RunCatalog(opts, tools, listing, dirs, prefix);
      StepCatalog(opts, tools, listing, Run(opts, tools, listing, Start(dirs), prefix), level);
      assert Distinct(sources) == if level in Distinct(prefix) then Distinct(prefix) else Distinct(prefix) + [level] by {
        assert sources[..|sources| - 1] == prefix;
      }
    }
  }

  /** Some page of a category's listing fails to render. */
  predicate LevelFails(tools: Tools, listing: string -> seq<Entry>, level: string)
  {
    SomePageFails(tools, Listing(level, tools.glob, listing(level)))
  }

  /** Some category of `sources` has a page that fails to render. */
  predicate AnyLevelFails(tools: Tools, listing: string -> seq<Entry>, sources: seq<string>)
  {
    exists i :: 0 <= i < |sources| && LevelFails(tools, listing, sources[i])
  }

  /** `has_errors |= errors` (man2qhelp.py:316): once set it stays set; it is set only when a
      page of some category fails to render, and with `force`, where every page is rendered,
      exactly then; so it is never set when `groff` never fails. */
  lemma {:induction false} RunErrors(opts: Options, tools: Tools, listing: string -> seq<Entry>, s: RunState, sources: seq<string>)
    requires UniqueLevels(s.catalog)
    ensures s.hasErrors ==> Run(opts, tools, listing, s, sources).hasErrors
    ensures Run(opts, tools, listing, s, sources).hasErrors ==> s.hasErrors || AnyLevelFails(tools, listing, sources)
    ensures opts.force ==> Run(opts, tools, listing, s, sources).hasErrors == (s.hasErrors || AnyLevelFails(tools, listing, sources))
    ensures (forall n, d :: tools.groff(n, d).returnCode == 0) ==> Run(opts, tools, listing, s, sources).hasErrors == s.hasErrors
    decreases |sources|
  {
    if sources != [] {
      var prefix := sources[..|sources| - 1];
      var level := sources[|sources| - 1];
      var q := Run(opts, tools, listing, s, prefix);
      assert Run(opts, tools, listing, s, sources) == Step(opts, tools, listing, q, level);
      RunErrors(opts, tools, listing, s, prefix);
      StepErrors(opts, tools, listing, q, level);
      AnyLevelFailsLast(tools, listing, sources);
    }
    if forall n, d :: tools.groff(n, d).returnCode == 0 {
      NoLevelFails(tools, listing, sources);
    }
  }

  /** No category fails when `groff` never fails. */
  lemma NoLevelFails(tools: Tools, listing: string -> seq<Entry>, sources: seq<string>)
    requires forall n, d :: tools.groff(n, d).returnCode == 0
    ensures !AnyLevelFails(tools, listing, sources)
  {
    forall i | 0 <= i < |sources|
      ensures !LevelFails(tools, listing, sources[i])
    {
      var listed := Listing(sources[i], tools.glob, listing(sources[i]));
      forall k | 0 <= k < |listed|
        ensures !Fails(tools, listed[k].source)
      {
      }
    }
  }

  /** A category of a non-empty list fails exactly when one before the last one does or the
      last one does. */
  lemma AnyLevelFailsLast(tools: Tools, listing: string -> seq<Entry>, sources: seq<string>)
    requires sources != []
    ensures AnyLevelFails(tools, listing, sources) <==>
            AnyLevelFails(tools, listing, sources[..|sources| - 1]) || LevelFails(tools, listing, sources[|sources| - 1])
  {
    var prefix := sources[..|sources| - 1];
    if AnyLevelFails(tools, listing, sources) && !LevelFails(tools, listing, sources[|sources| - 1]) {
      var i :| 0 <= i < |sources| && LevelFails(tools, listing, sources[i]);
      assert prefix[i] == sources[i];
    }
    if AnyLevelFails(tools, listing, prefix) {
      var i :| 0 <= i < |prefix| && LevelFails(tools, listing, prefix[i]);
      assert sources[i] == prefix[i];
    }
  }

  /** One category's keywords go into the dictionary whatever the cache held before. */
  lemma StepCatalog(opts: Options, tools: Tools, listing: string -> seq<Entry>, s: RunState, level: string)
    requires UniqueLevels(s.catalog)
    ensures Step(opts, tools, listing, s, level).catalog == Assign(s.catalog, level, LevelKeywords(opts, tools, listing, level))
  {
    LevelOutcomeSummary(level, opts, tools, listing(level), DirOf(s.dirs, level));
  }

  /** One category ORs its own flag into the run's: the run's flag is set afterwards only when
      it was set or a page of the category fails to render, and with `force` exactly then. */
  lemma StepErrors(opts: Options, tools: Tools, listing: string -> seq<Entry>, s: RunState, level: string)
    requires UniqueLevels(s.catalog)
    ensures Step(opts, tools, listing, s, level).hasErrors ==
            (s.hasErrors || LevelOutcome(level, opts, tools, listing(level), DirOf(s.dirs, level)).0.hasErrors)
    ensures Step(opts, tools, listing, s, level).hasErrors ==> s.hasErrors || LevelFails(tools, listing, level)
    ensures opts.force ==> Step(opts, tools, listing, s, level).hasErrors == (s.hasErrors || LevelFails(tools, listing, level))
    ensures (forall n, d :: tools.groff(n, d).returnCode == 0) ==> Step(opts, tools, listing, s, level).hasErrors == s.hasErrors
  {
    LevelOutcomeSummary(level, opts, tools, listing(level), DirOf(s.dirs, level));
  }

  lemma {:induction false} KeywordLinesAppend(t: Layout, a: seq<Keyword>, b: seq<Keyword>)
    ensures KeywordLines(t, a + b) == KeywordLines(t, a) + KeywordLines(t, b)
    decreases |b|
  {
    if b == [] {
      assert a + b == a;
    } else {
      var b' := b[..|b| - 1];
      assert (a + b)[..|a + b| - 1] == a + b';
      assert (a + b)[|a + b| - 1] == b[|b| - 1];
      KeywordLinesAppend(t, a, b');
      Assoc(KeywordLines(t, a), KeywordLines(t, b'), KeywordLine(t, b[|b| - 1]));
    }
  }

  lemma {:induction false} SectionsTextAppend(t: Layout, a: Catalog, b: Catalog)
    ensures SectionsText(t, a + b) == SectionsText(t, a) + SectionsText(t, b)
    decreases |b|
  {
    if b == [] {
      assert a + b == a;
    } else {
      var b' := b[..|b| - 1];
      assert (a + b)[..|a + b| - 1] == a + b';
      assert (a + b)[|a + b| - 1] == b[|b| - 1];
      SectionsTextAppend(t, a, b');
      Assoc(SectionsText(t, a), SectionsText(t, b'), Section(t, b[|b| - 1].0, b[|b| - 1].1));
    }
  }

  /** Every keyword has its line, in registration order. */
  lemma KeywordLinesAt(t: Layout, keywords: seq<Keyword>, i: nat)
    requires i < |keywords|
    ensures KeywordLines(t, keywords) ==
            KeywordLines(t, keywords[..i]) + KeywordLine(t, keywords[i]) + KeywordLines(t, keywords[i + 1..])
  {
    var pre, post := keywords[..i], keywords[i + 1..];
    assert keywords == pre + [keywords[i]] + post;
    KeywordLinesAppend(t, pre + [keywords[i]], post);
    KeywordLinesAppend(t, pre, [keywords[i]]);
    assert [keywords[i]][..0] == [];
  }

  /** Every category of the dictionary has its section, in order, between the header and the
      closing tag. */
  lemma CatalogSectionAt(t: Layout, namespace: string, kws: Catalog, i: nat)
    requires i < |kws|
    ensures CatalogText(t, namespace, kws) ==
            Header(t, namespace) + SectionsText(t, kws[..i]) + Section(t, kws[i].0, kws[i].1) +
            SectionsText(t, kws[i + 1..]) + t.projectClose
  {
    var pre, post := kws[..i], kws[i + 1..];
    assert kws == pre + [kws[i]] + post;
    SectionsTextAppend(t, pre + [kws[i]], post);
    SectionsTextAppend(t, pre, [kws[i]]);
    assert [kws[i]][..0] == [];
    Assoc5(Header(t, namespace), SectionsText(t, pre), Section(t, kws[i].0, kws[i].1), SectionsText(t, post), t.projectClose);
  }

  lemma Assoc5(h: string, a: string, b: string, c: string, f: string)
    ensures h + (a + b + c) + f == h + a + b + c + f
  {
  }

  /** Writing the catalog piece by piece into a file opened for writing (man2qhelp.py:320-331). */
  method WriteCatalog(t: Layout, path: string, namespace: string, kws: Catalog, fs: Cache)
    modifies fs
    ensures fs.files == old(fs.files)[path := CatalogText(t, namespace, kws)] && fs.dirs == old(fs.dirs)
  {
    fs.WriteText(path, []);
    fs.AppendText(path, Header(t, namespace));
    Unit(Header(t, namespace));
    WriteSections(t, path, kws, fs);
    fs.AppendText(path, t.projectClose);
  }

  /** The sections of every category, appended in the dictionary's order. */
  method WriteSections(t: Layout, path: string, kws: Catalog, fs: Cache)
    requires path in fs.files
    modifies fs
    ensures fs.files == old(fs.files)[path := old(fs.files)[path] + SectionsText(t, kws)] && fs.dirs == old(fs.dirs)
  {
    ghost var before := fs.files[path];
    Unit(before);
    assert kws[..0] == [];
    for i := 0 to |kws|
      invariant fs.files == old(fs.files)[path := before + SectionsText(t, kws[..i])] && fs.dirs == old(fs.dirs)
    {
      WriteSection(t, path, kws[i].0, kws[i].1, fs);
      assert kws[..i + 1][..i] == kws[..i];
      Assoc(before, SectionsText(t, kws[..i]), Section(t, kws[i].0, kws[i].1));
    }
    assert kws[..|kws|] == kws;
  }

  /** One `filterSection`, appended. */
  method WriteSection(t: Layout, path: string, level: string, keywords: seq<Keyword>, fs: Cache)
    requires path in fs.files
    modifies fs
    ensures fs.files == old(fs.files)[path := old(fs.files)[path] + Section(t, level, keywords)] && fs.dirs == old(fs.dirs)
  {
    ghost var before := fs.files[path];
    fs.AppendText(path, SectionOpen(t, level));
    Unit(before + SectionOpen(t, level));
    assert keywords[..0] == [];
    for j := 0 to |keywords|
      invariant fs.files == old(fs.files)[path := before + SectionOpen(t, level) + KeywordLines(t, keywords[..j])]
      invariant fs.dirs == old(fs.dirs)
    {
      fs.AppendText(path, KeywordLine(t, keywords[j]));
      assert keywords[..j + 1][..j] == keywords[..j];
      Assoc(before + SectionOpen(t, level), KeywordLines(t, keywords[..j]), KeywordLine(t, keywords[j]));
    }
    assert keywords[..|keywords|] == keywords;
    fs.AppendText(path, t.keywordsClose);
    fs.AppendText(path, FileLines(t, level));
    fs.AppendText(path, t.sectionClose);
    SectionAssoc(before, SectionOpen(t, level), KeywordLines(t, keywords), t.keywordsClose, FileLines(t, level), t.sectionClose);
  }

  lemma Unit(x: string)
    ensures [] + x == x && x + [] == x
  {
  }

  lemma SectionAssoc(before: string, open: string, lines: string, close: string, files: string, end: string)
    ensures before + open + lines + close + files + end == before + (open + lines + close + files + end)
  {
  }

  /** `do_levels` (man2qhelp.py:306-336): every category in the order given, then the catalog,
      written whatever the error flag says. The flag is returned: it chooses the closing
      message. */
  method DoLevels(opts: Options, tools: Tools, listing: string -> seq<Entry>, fs: Cache) returns (hasErrors: bool)
    modifies fs
    ensures var r := Run(opts, tools, listing, Start(old(fs.dirs)), opts.sources);
            hasErrors == r.hasErrors && fs.dirs == r.dirs &&
            fs.files == old(fs.files)[CatalogPath(opts) := CatalogText(Qhp, opts.namespace, r.catalog)]
  {
    var kws: Catalog := [];
    var refs: seq<(string, string)> := [];
    hasErrors := false;
    ghost var start := Start(fs.dirs);
    for i := 0 to |opts.sources|
      invariant fs.files == old(fs.files)
      invariant RunState(kws, refs, hasErrors, fs.dirs) == Run(opts, tools, listing, start, opts.sources[..i])
    {
      RunPrefix(opts, tools, listing, start, opts.sources, i);
      kws, refs, hasErrors := VisitLevel(opts, tools, listing, opts.sources[i], RunState(kws, refs, hasErrors, fs.dirs),
                                         kws, refs, hasErrors, fs);
    }
    assert opts.sources[..|opts.sources|] == opts.sources;
    WriteCatalog(Qhp, CatalogPath(opts), opts.namespace, kws, fs);
  }

  /** The run over one more category is one more step. */
  lemma RunPrefix(opts: Options, tools: Tools, listing: string -> seq<Entry>, s: RunState, sources: seq<string>, i: nat)
    requires i < |sources| && UniqueLevels(s.catalog)
    ensures Run(opts, tools, listing, s, sources[..i + 1]) ==
            Step(opts, tools, listing, Run(opts, tools, listing, s, sources[..i]), sources[i])
  {
    assert sources[..i + 1][..i] == sources[..i];
  }

  /** One pass of the loop of `do_levels`: the category is converted and its keywords replace
      or join the catalog. */
  method VisitLevel(opts: Options, tools: Tools, listing: string -> seq<Entry>, level: string, ghost s: RunState,
                    kws: Catalog, refs: seq<(string, string)>, hasErrors: bool, fs: Cache)
    returns (kws': Catalog, refs': seq<(string, string)>, hasErrors': bool)
    requires UniqueLevels(s.catalog) && s == RunState(kws, refs, hasErrors, fs.dirs)
    modifies fs
    ensures fs.files == old(fs.files)
    ensures RunState(kws', refs', hasErrors', fs.dirs) == Step(opts, tools, listing, s, level)
  {
    var result := DoLevel(level, opts, tools, listing(level), fs);
    kws' := Assign(kws, level, result.keywords);
    refs' := refs + result.crossReferences;
    hasErrors' := hasErrors || result.hasErrors;
  }
}
