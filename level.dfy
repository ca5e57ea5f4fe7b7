/** One category (`do_level`): every file of `/usr/share/man/man<level>` becomes an index
    keyword, pages whose output is stale are rendered with `groff`, and outputs and images that
    no keyword accounts for are deleted afterwards. */
module Level {
  import opened PyStr
  import opened Names
  import opened Alias
  import opened Title
  import opened Links

  /** `Keyword`: an index entry of the help project, naming an output file or, for an alias,
      the output of the page it points to. */
  datatype Keyword = Keyword(keyword: string, target: string, isAlias: bool)

  /** One file of the category's source directory: its name, its modification time in
      milliseconds and its text once decompressed and decoded. */
  datatype Entry = Entry(file: string, mtime: int, data: string)

  /** What one `groff` run reports: standard output, standard error, the exit status, and the
      image files it wrote into `images`. */
  datatype Conversion = Conversion(html: string, errors: string, returnCode: int, images: set<string>)

  /** The collaborators the model does not look inside: `glob.glob`, `groff` run for a page name
      and its text, and the events `HTMLParser` reports for a text. */
  datatype Tools = Tools(
    glob: string -> seq<string>,
    groff: (string, string) -> Conversion,
    parse: string -> seq<Event>)

  /** The fields of `Options` the conversion reads. */
  datatype Options = Options(cachePath: string, qhp: string, force: bool, sources: seq<string>, namespace: string)

  /** A rendered page: the modification time it was given and its text. */
  datatype OutFile = OutFile(mtime: int, html: string)

  /** An output directory `html.<level>`: its regular files and the files of `images`. */
  datatype Dir = Dir(files: map<string, OutFile>, images: set<string>)

  /** `LevelResult`. */
  datatype LevelResult = LevelResult(keywords: seq<Keyword>, crossReferences: seq<(string, string)>, hasErrors: bool)

  /** The state `do_level` builds while it walks the listing. */
  datatype Progress = Progress(keywords: seq<Keyword>, refs: seq<(string, string)>, hasErrors: bool, dir: Dir)

  /** Outputs within one second of their source are up to date. */
  const Tolerance := 1000

  /** `options.cache_path.join("html.%s" % level)`. */
  function OutDir(cachePath: string, level: string): string
  {
    JoinPath(cachePath, "html." + level)
  }

  /** `options.cache_path.join("html.%s" % level, base_name)`: its file name is `base`. */
  function Target(cachePath: string, level: string, base: string): (r: string)
    requires '/' !in base
    ensures Basename(r) == base
    ensures EndsWith(r, base)
  {
    JoinPathTail(OutDir(cachePath, level), base);
    JoinPath(OutDir(cachePath, level), base)
  }

  /** The output an alias keyword points to: the output its candidate's own conversion writes.
      The candidate is a full source path, so its page name is taken first, as `src` does for a
      page. The directory stays `html.<level>` of the alias's category, as at man2qhelp.py:233:
      a candidate of another category (`.so man8/foo.8` under `man1`) gives `html.1/foo.html`,
      while `foo` is written to `html.8`. */
  function AliasTarget(cachePath: string, level: string, candidate: string): string
  {
    Target(cachePath, level, ResultName(SourceName(candidate), level))
  }

  /** man2qhelp.py:233 as written: `result_name` of the candidate path itself. */
  function AliasTargetAsWritten(cachePath: string, level: string, candidate: string): string
  {
    Target(cachePath, level, ResultName(candidate, level))
  }

  /** An output need not be rendered again: not forced, present, and its modification time
      within one second of the source's. */
  predicate UpToDate(force: bool, files: map<string, OutFile>, base: string, mtime: int)
  {
    !force && base in files && -Tolerance < files[base].mtime - mtime < Tolerance
  }

  /** A rendered page after the title rewrite and the cross-reference substitution, and the
      cross-references found (man2qhelp.py:267-274). */
  function PageOutput(html: string, level: string, parse: string -> seq<Event>): (string, seq<(string, string)>)
  {
    var h := RewriteTitle(html, TitleOf(parse(html)), level);
    (Render(Pieces(h, 0)), Refs(Pieces(h, 0)))
  }

  /** Rendering one stale page: the images `groff` writes stay; a failed run sets the error
      flag and writes nothing; a good one writes the output with the source's time. */
  function Convert(p: Progress, level: string, tools: Tools, name: string, data: string, base: string, mtime: int): Progress
  {
    var c := tools.groff(name, data);
    var dir := p.dir.(images := p.dir.images + c.images);
    if c.returnCode != 0 then p.(hasErrors := true, dir := dir)
    else
      var (html, found) := PageOutput(c.html, level, tools.parse);
      p.(refs := p.refs + found, dir := dir.(files := dir.files[base := OutFile(mtime, html)]))
  }

  /** What one rendering changes: the keywords never; the images by what `groff` wrote; the
      error flag exactly when `groff` fails; the output of `base` only when it succeeds. */
  lemma ConvertEffect(p: Progress, level: string, tools: Tools, name: string, data: string, base: string, mtime: int)
    ensures var r := Convert(p, level, tools, name, data, base, mtime);
            var c := tools.groff(name, data);
            r.keywords == p.keywords &&
            r.dir.images == p.dir.images + c.images &&
            r.hasErrors == (p.hasErrors || c.returnCode != 0) &&
            (c.returnCode != 0 ==> r.dir.files == p.dir.files && r.refs == p.refs) &&
            (c.returnCode == 0 ==> r.dir.files == p.dir.files[base := OutFile(mtime, PageOutput(c.html, level, tools.parse).0)] &&
                                   r.refs == p.refs + PageOutput(c.html, level, tools.parse).1)
  {
  }

  /** The path `do_level` hands to `src` for a listed file. */
  function SourcePath(level: string, e: Entry): string
  {
    JoinPath(ManDir(level), e.file)
  }

  /** One pass of the loop of `do_level` (man2qhelp.py:219-280) once `src` has read the file.
      A page's keyword is registered before the staleness check, so an unchanged or failing
      page keeps its keyword. */
  function VisitSource(level: string, opts: Options, tools: Tools, p: Progress, mtime: int, source: Source): Progress
  {
    match source
    case Skipped(_) => p
    case Alias(name, candidate) =>
      p.(keywords := p.keywords + [Keyword(name, AliasTarget(opts.cachePath, level, candidate), true)])
    case Page(data, name) => VisitPage(level, opts, tools, p, mtime, data, name)
  }

  /** A page: its keyword is registered before the staleness check, so an unchanged or
      failing page keeps its keyword (man2qhelp.py:245-280). */
  function VisitPage(level: string, opts: Options, tools: Tools, p: Progress, mtime: int, data: string, name: string): Progress
  {
    var base := ResultName(name, level);
    var q := p.(keywords := p.keywords + [Keyword(name, Target(opts.cachePath, level, base), false)]);
    if UpToDate(opts.force, p.dir.files, base, mtime) then q
    else Convert(q, level, tools, name, data, base, mtime)
  }

  /** A listed file once `src` has read it, with its modification time. */
  datatype Listed = Listed(mtime: int, source: Source)

  /** `src` on a listed file. Every listed file exists, so a file is skipped only when it is a
      directive that is not understood or has no single candidate. */
  function Read(level: string, glob: string -> seq<string>, e: Entry): Listed
  {
    Listed(e.mtime, Src(SourcePath(level, e), true, e.data, glob))
  }

  /** Every file of the listing, read. */
  function Listing(level: string, glob: string -> seq<string>, entries: seq<Entry>): (r: seq<Listed>)
    ensures |r| == |entries|
    decreases |entries|, 1
  {
    if entries == [] then [] else ListingThenLast(level, glob, entries)
  }

  /** A non-empty listing: the files before the last one, then the last one. */
  function ListingThenLast(level: string, glob: string -> seq<string>, entries: seq<Entry>): (r: seq<Listed>)
    requires entries != []
    ensures |r| == |entries|
    decreases |entries|, 0
  {
    Listing(level, glob, entries[..|entries| - 1]) + [Read(level, glob, entries[|entries| - 1])]
  }

  lemma {:induction false} ListingAt(level: string, glob: string -> seq<string>, entries: seq<Entry>, i: nat)
    requires i < |entries|
    ensures Listing(level, glob, entries)[i] == Read(level, glob, entries[i])
    decreases |entries|
  {
    if i < |entries| - 1 {
      ListingAt(level, glob, entries[..|entries| - 1], i);
    }
  }

  /** The listing walked from first to last. */
  function Visits(level: string, opts: Options, tools: Tools, p: Progress, listed: seq<Listed>): Progress
    decreases |listed|, 1
  {
    if listed == [] then p else VisitsThenLast(level, opts, tools, p, listed)
  }

  /** A non-empty listing: the files before the last one, then the last one. */
  function VisitsThenLast(level: string, opts: Options, tools: Tools, p: Progress, listed: seq<Listed>): Progress
    requires listed != []
    decreases |listed|, 0
  {
    var last := listed[|listed| - 1];
    VisitSource(level, opts, tools, Visits(level, opts, tools, p, listed[..|listed| - 1]), last.mtime, last.source)
  }

  /** The names of the outputs the keywords account for: `level_files`. */
  function OutputNames(keywords: seq<Keyword>): set<string>
  {
    set k | 0 <= k < |keywords| && !keywords[k].isAlias :: Basename(keywords[k].target)
  }

  /** The names of the pages the keywords register: `keywords` in the image clean-up. */
  function PageNames(keywords: seq<Keyword>): set<string>
  {
    set k | 0 <= k < |keywords| && !keywords[k].isAlias :: keywords[k].keyword
  }

  /** `IMAGE_NAME_RE` can finish after a keyword of `k` characters: `-`, digits, `.`, and a
      word character. */
  predicate ImageTailAt(f: string, k: nat)
  {
    k < |f| && f[k] == '-' &&
    var d := Span(f, k + 1, IsDigit);
    d > k + 1 && d + 1 < |f| && f[d] == '.' && IsWordChar(f[d + 1])
  }

  /** The search of the lazy `.+?` from keyword length `k` on; it cannot cross a newline. */
  function ImageKeywordFrom(f: string, k: nat): (r: Option<string>)
    requires 1 <= k
    ensures r.Some? ==> k <= |r.value| < |f| && r.value == f[..|r.value|] && ImageTailAt(f, |r.value|)
    ensures r.Some? ==> forall j :: k <= j < |r.value| ==> !ImageTailAt(f, j)
    ensures r.Some? ==> forall j :: k - 1 <= j < |r.value| ==> f[j] != '\n'
    ensures r.None? ==> forall j :: k <= j < |f| && (forall i :: k - 1 <= i < j ==> f[i] != '\n') ==> !ImageTailAt(f, j)
    decreases |f| - k
  {
    if k >= |f| || f[k - 1] == '\n' then None
    else if ImageTailAt(f, k) then Some(f[..k])
    else ImageKeywordFrom(f, k + 1)
  }

  /** `IMAGE_NAME_RE.match(file).group("keyword")`: the shortest non-empty prefix without a
      newline that the tail pattern follows. */
  function ImageKeyword(f: string): (r: Option<string>)
    ensures r.Some? ==> 1 <= |r.value| < |f| && r.value == f[..|r.value|]
    ensures r.Some? ==> '\n' !in r.value && ImageTailAt(f, |r.value|)
    ensures r.Some? ==> forall j :: 1 <= j < |r.value| ==> !ImageTailAt(f, j)
  {
    var r := ImageKeywordFrom(f, 1);
    if r.Some? then
      assert forall i :: 0 <= i < |r.value| ==> r.value[i] == f[i];
      r
    else r
  }

  /** An image stays when its name starts with a registered page name and the image suffix. */
  predicate KeepImage(f: string, pages: set<string>)
  {
    ImageKeyword(f).Some? && ImageKeyword(f).value in pages
  }

  /** The outputs left by the clean-up (man2qhelp.py:285-290): those a keyword names. */
  function CollectedFiles(files: map<string, OutFile>, keywords: seq<Keyword>): (r: map<string, OutFile>)
    ensures forall f :: f in r <==> f in files && f in OutputNames(keywords)
    ensures forall f :: f in r ==> r[f] == files[f]
  {
    map f | f in files && f in OutputNames(keywords) :: files[f]
  }

  /** The images left by the clean-up (man2qhelp.py:292-301). */
  function CollectedImages(images: set<string>, keywords: seq<Keyword>): (r: set<string>)
    ensures forall f :: f in r <==> f in images && KeepImage(f, PageNames(keywords))
  {
    set f | f in images && KeepImage(f, PageNames(keywords))
  }

  /** The directory after the clean-up. */
  function Collected(dir: Dir, keywords: seq<Keyword>): Dir
  {
    Dir(CollectedFiles(dir.files, keywords), CollectedImages(dir.images, keywords))
  }

  /** man2qhelp.py:286-287 as written: the working directory has been restored by then, so
      `os.path.isfile(file)` asks about a file of that name in the working directory, not in
      the output directory. */
  function CollectedFilesAsWritten(files: map<string, OutFile>, keep: set<string>, cwdFiles: set<string>): (r: map<string, OutFile>)
    ensures forall f :: f in r <==> f in files && (f in keep || f !in cwdFiles)
  {
    map f | f in files && (f in keep || f !in cwdFiles) :: files[f]
  }

  /** The directory a category starts from: `os.mkdir` creates it and `images` when missing. */
  function DirOf(dirs: map<string, Dir>, level: string): Dir
  {
    if level in dirs then dirs[level] else Dir(map[], {})
  }

  /** What `do_level` returns, and its output directory afterwards. */
  function LevelOutcome(level: string, opts: Options, tools: Tools, entries: seq<Entry>, start: Dir): (LevelResult, Dir)
  {
    var p := Visits(level, opts, tools, Progress([], [], false, start), Listing(level, tools.glob, entries));
    (LevelResult(p.keywords, p.refs, p.hasErrors), Collected(p.dir, p.keywords))
  }

  /** The cache directory: the output directories by category and the text files at its root. */
  class Cache {
    var dirs: map<string, Dir>
    var files: map<string, string>

    constructor(dirs: map<string, Dir>, files: map<string, string>)
      ensures this.dirs == dirs && this.files == files
    {
      this.dirs := dirs;
      this.files := files;
    }

    /** `os.mkdir(out_dir)` and `os.mkdir(images_dir)` where missing. */
    method MakeDirs(level: string)
      modifies this
      ensures dirs == old(dirs)[level := DirOf(old(dirs), level)]
      ensures files == old(files)
    {
      if level !in dirs {
        dirs := dirs[level := Dir(map[], {})];
      } else {
        assert dirs == dirs[level := dirs[level]];
      }
    }

    /** Images `groff` wrote into `images`. */
    method AddImages(level: string, images: set<string>)
      requires level in dirs
      modifies this
      ensures dirs == old(dirs)[level := old(dirs)[level].(images := old(dirs)[level].images + images)]
      ensures files == old(files)
    {
      dirs := dirs[level := dirs[level].(images := dirs[level].images + images)];
    }

    /** Writing an output and setting its modification time (`os.utime`). */
    method WriteOutput(level: string, name: string, page: OutFile)
      requires level in dirs
      modifies this
      ensures dirs == old(dirs)[level := old(dirs)[level].(files := old(dirs)[level].files[name := page])]
      ensures files == old(files)
    {
      dirs := dirs[level := dirs[level].(files := dirs[level].files[name := page])];
    }

    /** `os.remove` of an output. */
    method RemoveOutput(level: string, name: string)
      requires level in dirs
      modifies this
      ensures dirs == old(dirs)[level := old(dirs)[level].(files := old(dirs)[level].files - {name})]
      ensures files == old(files)
    {
      dirs := dirs[level := dirs[level].(files := dirs[level].files - {name})];
    }

    /** `os.remove` of an image. */
    method RemoveImage(level: string, name: string)
      requires level in dirs
      modifies this
      ensures dirs == old(dirs)[level := old(dirs)[level].(images := old(dirs)[level].images - {name})]
      ensures files == old(files)
    {
      dirs := dirs[level := dirs[level].(images := dirs[level].images - {name})];
    }

    /** Writing a text file at the root of the cache. */
    method WriteText(name: string, text: string)
      modifies this
      ensures files == old(files)[name := text]
      ensures dirs == old(dirs)
    {
      files := files[name := text];
    }

    /** Appending to a text file open for writing. */
    method AppendText(name: string, text: string)
      requires name in files
      modifies this
      ensures files == old(files)[name := old(files)[name] + text]
      ensures dirs == old(dirs)
    {
      files := files[name := files[name] + text];
    }
  }

  /** One pass of the loop of `do_level` on the file system: the state after the files before
      `i` becomes the state after file `i`. */
  method VisitEntry(level: string, opts: Options, tools: Tools, entries: seq<Entry>, i: nat, ghost start: Progress,
                    keywords: seq<Keyword>, refs: seq<(string, string)>, hasErrors: bool, fs: Cache)
    returns (keywords': seq<Keyword>, refs': seq<(string, string)>, hasErrors': bool)
    requires i < |entries| && level in fs.dirs
    requires Progress(keywords, refs, hasErrors, fs.dirs[level]) ==
             Visits(level, opts, tools, start, Listing(level, tools.glob, entries)[..i])
    modifies fs
    ensures level in fs.dirs && fs.dirs == old(fs.dirs)[level := fs.dirs[level]] && fs.files == old(fs.files)
    ensures Progress(keywords', refs', hasErrors', fs.dirs[level]) ==
            Visits(level, opts, tools, start, Listing(level, tools.glob, entries)[..i + 1])
  {
    var e := entries[i];
    ghost var listed := Listing(level, tools.glob, entries);
    VisitsStep(level, opts, tools, start, listed, i);
    ListingAt(level, tools.glob, entries, i);
    var source := Src(SourcePath(level, e), true, e.data, tools.glob);
    keywords', refs', hasErrors' := VisitSourceEntry(level, opts, tools, e.mtime, source, keywords, refs, hasErrors, fs);
  }

  /** The walk over the files up to `i` is the walk up to `i - 1`, then file `i`. */
  lemma VisitsStep(level: string, opts: Options, tools: Tools, p: Progress, listed: seq<Listed>, i: nat)
    requires i < |listed|
    ensures Visits(level, opts, tools, p, listed[..i + 1]) ==
            VisitSource(level, opts, tools, Visits(level, opts, tools, p, listed[..i]), listed[i].mtime, listed[i].source)
  {
    var upto := listed[..i + 1];
    assert upto[..i] == listed[..i];
    VisitsLast(level, opts, tools, p, upto);
  }

  method VisitSourceEntry(level: string, opts: Options, tools: Tools, mtime: int, source: Source,
                          keywords: seq<Keyword>, refs: seq<(string, string)>, hasErrors: bool, fs: Cache)
    returns (keywords': seq<Keyword>, refs': seq<(string, string)>, hasErrors': bool)
    requires level in fs.dirs
    modifies fs
    ensures level in fs.dirs && fs.dirs == old(fs.dirs)[level := fs.dirs[level]] && fs.files == old(fs.files)
    ensures Progress(keywords', refs', hasErrors', fs.dirs[level]) ==
            VisitSource(level, opts, tools, Progress(keywords, refs, hasErrors, old(fs.dirs)[level]), mtime, source)
  {
    if source.Page? {
      keywords', refs', hasErrors' := VisitPageEntry(level, opts, tools, mtime, source.data, source.name, keywords, refs, hasErrors, fs);
      VisitIsPage(level, opts, tools, Progress(keywords, refs, hasErrors, old(fs.dirs)[level]), mtime, source);
    } else {
      keywords' := VisitUnrendered(level, opts, tools, mtime, source, keywords, refs, hasErrors, fs.dirs[level]);
      refs', hasErrors' := refs, hasErrors;
      UpdateSame(fs.dirs, level);
    }
  }

  /** Writing back the entry a map already holds leaves the map as it is. */
  lemma UpdateSame(dirs: map<string, Dir>, level: string)
    requires level in dirs
    ensures dirs == dirs[level := dirs[level]]
  {
  }

  /** A skipped file or an alias: only the keyword list can change. */
  method VisitUnrendered(level: string, opts: Options, tools: Tools, mtime: int, source: Source,
                          keywords: seq<Keyword>, refs: seq<(string, string)>, hasErrors: bool, ghost dir: Dir)
    returns (keywords': seq<Keyword>)
    requires !source.Page?
    ensures Progress(keywords', refs, hasErrors, dir) ==
            VisitSource(level, opts, tools, Progress(keywords, refs, hasErrors, dir), mtime, source)
  {
    keywords' := keywords + Registered(level, opts.cachePath, source);
    VisitNotPage(level, opts, tools, Progress(keywords, refs, hasErrors, dir), mtime, source);
  }

  method VisitPageEntry(level: string, opts: Options, tools: Tools, mtime: int, data: string, name: string,
                        keywords: seq<Keyword>, refs: seq<(string, string)>, hasErrors: bool, fs: Cache)
    returns (keywords': seq<Keyword>, refs': seq<(string, string)>, hasErrors': bool)
    requires level in fs.dirs
    modifies fs
    ensures level in fs.dirs && fs.dirs == old(fs.dirs)[level := fs.dirs[level]] && fs.files == old(fs.files)
    ensures Progress(keywords', refs', hasErrors', fs.dirs[level]) ==
            VisitPage(level, opts, tools, Progress(keywords, refs, hasErrors, old(fs.dirs)[level]), mtime, data, name)
  {
    var base := ResultName(name, level);
    keywords' := keywords + [Keyword(name, Target(opts.cachePath, level, base), false)];
    refs', hasErrors' := refs, hasErrors;
    if UpToDate(opts.force, fs.dirs[level].files, base, mtime) {
      UpdateSame(fs.dirs, level);
    } else {
      refs', hasErrors' := RenderPage(level, tools, name, data, base, mtime, keywords', refs, hasErrors, fs);
    }
  }

  /** Rendering one stale page with `groff` and writing its output. */
  method RenderPage(level: string, tools: Tools, name: string, data: string, base: string, mtime: int,
                    ghost keywords: seq<Keyword>, refs: seq<(string, string)>, hasErrors: bool, fs: Cache)
    returns (refs': seq<(string, string)>, hasErrors': bool)
    requires level in fs.dirs
    modifies fs
    ensures level in fs.dirs && fs.dirs == old(fs.dirs)[level := fs.dirs[level]] && fs.files == old(fs.files)
    ensures Progress(keywords, refs', hasErrors', fs.dirs[level]) ==
            Convert(Progress(keywords, refs, hasErrors, old(fs.dirs)[level]), level, tools, name, data, base, mtime)
  {
    var c := tools.groff(name, data);
    fs.AddImages(level, c.images);
    refs', hasErrors' := refs, hasErrors;
    if c.returnCode != 0 {
      hasErrors' := true;
    } else {
      var title := FindTitle(tools.parse(c.html));
      var html := RewriteTitle(c.html, title, level);
      var linked, found := LinkCrossReferences(html);
      refs' := refs + found;
      fs.WriteOutput(level, base, OutFile(mtime, linked));
    }
  }

  /** `do_level` (man2qhelp.py:206-303) on the listing `entries` of the category's source
      directory: the result and the output directory are those `LevelOutcome` describes, and
      nothing else in the cache changes. */
  method DoLevel(level: string, opts: Options, tools: Tools, entries: seq<Entry>, fs: Cache)
    returns (result: LevelResult)
    modifies fs
    ensures level in fs.dirs && fs.dirs == old(fs.dirs)[level := fs.dirs[level]] && fs.files == old(fs.files)
    ensures (result, fs.dirs[level]) == LevelOutcome(level, opts, tools, entries, DirOf(old(fs.dirs), level))
  {
    fs.MakeDirs(level);
    var keywords, refs, hasErrors := WalkListing(level, opts, tools, entries, fs);
    Collect(level, keywords, fs);
    result := LevelResult(keywords, refs, hasErrors);
  }

  /** The loop of `do_level` over the listing. */
  method WalkListing(level: string, opts: Options, tools: Tools, entries: seq<Entry>, fs: Cache)
    returns (keywords: seq<Keyword>, refs: seq<(string, string)>, hasErrors: bool)
    requires level in fs.dirs
    modifies fs
    ensures level in fs.dirs && fs.dirs == old(fs.dirs)[level := fs.dirs[level]] && fs.files == old(fs.files)
    ensures Progress(keywords, refs, hasErrors, fs.dirs[level]) ==
            Visits(level, opts, tools, Progress([], [], false, old(fs.dirs)[level]), Listing(level, tools.glob, entries))
  {
    ghost var start := Progress([], [], false, fs.dirs[level]);
    ghost var listed := Listing(level, tools.glob, entries);
    keywords, refs, hasErrors := [], [], false;
    assert listed[..0] == [];
    for i := 0 to |entries|
      invariant level in fs.dirs && fs.dirs == old(fs.dirs)[level := fs.dirs[level]] && fs.files == old(fs.files)
      invariant Progress(keywords, refs, hasErrors, fs.dirs[level]) == Visits(level, opts, tools, start, listed[..i])
    {
      keywords, refs, hasErrors := VisitEntry(level, opts, tools, entries, i, start, keywords, refs, hasErrors, fs);
    }
    assert listed[..|entries|] == listed;
  }

  /** The clean-up after the walk (man2qhelp.py:285-301). */
  method Collect(level: string, keywords: seq<Keyword>, fs: Cache)
    requires level in fs.dirs
    modifies fs
    ensures level in fs.dirs && fs.dirs == old(fs.dirs)[level := fs.dirs[level]] && fs.files == old(fs.files)
    ensures fs.dirs[level] == Collected(old(fs.dirs)[level], keywords)
  {
    CollectOutputs(level, keywords, fs);
    CollectImages(level, keywords, fs);
  }

  /** Deleting the outputs no keyword names. Every entry of the map is a regular file; the
      `images` directory is not one of them. */
  method CollectOutputs(level: string, keywords: seq<Keyword>, fs: Cache)
    requires level in fs.dirs
    modifies fs
    ensures level in fs.dirs && fs.dirs == old(fs.dirs)[level := fs.dirs[level]] && fs.files == old(fs.files)
    ensures fs.dirs[level] == old(fs.dirs)[level].(files := CollectedFiles(old(fs.dirs)[level].files, keywords))
  {
    var keep := OutputNames(keywords);
    ghost var before := fs.dirs[level];
    var names := fs.dirs[level].files.Keys;
    while names != {}
      invariant level in fs.dirs && fs.dirs == old(fs.dirs)[level := fs.dirs[level]] && fs.files == old(fs.files)
      invariant names <= before.files.Keys
      invariant fs.dirs[level] == before.(files := map f | f in before.files && (f in keep || f in names) :: before.files[f])
      decreases |names|
    {
      var f :| f in names;
      if f !in keep {
        fs.RemoveOutput(level, f);
      }
      names := names - {f};
    }
  }

  /** Deleting the images that no registered page name accounts for. */
  method CollectImages(level: string, keywords: seq<Keyword>, fs: Cache)
    requires level in fs.dirs
    modifies fs
    ensures level in fs.dirs && fs.dirs == old(fs.dirs)[level := fs.dirs[level]] && fs.files == old(fs.files)
    ensures fs.dirs[level] == old(fs.dirs)[level].(images := CollectedImages(old(fs.dirs)[level].images, keywords))
  {
    var pages := PageNames(keywords);
    ghost var before := fs.dirs[level];
    var names := fs.dirs[level].images;
    while names != {}
      invariant level in fs.dirs && fs.dirs == old(fs.dirs)[level := fs.dirs[level]] && fs.files == old(fs.files)
      invariant names <= before.images
      invariant fs.dirs[level] == before.(images := set f | f in before.images && (f in names || KeepImage(f, pages)))
      decreases |names|
    {
      var f :| f in names;
      if !KeepImage(f, pages) {
        fs.RemoveImage(level, f);
      }
      names := names - {f};
    }
  }

  /** The keyword a read source registers (man2qhelp.py:232-243): none for a skipped file. */
  function Registered(level: string, cachePath: string, source: Source): (r: seq<Keyword>)
    ensures |r| <= 1 && (r == [] <==> source.Skipped?)
    ensures source.Alias? ==> r == [Keyword(source.name, AliasTarget(cachePath, level, source.candidate), true)]
    ensures source.Page? ==> r[0].keyword == source.name && !r[0].isAlias &&
                             Basename(r[0].target) == ResultName(source.name, level)
  {
    match source
    case Skipped(_) => []
    case Alias(name, candidate) => [Keyword(name, AliasTarget(cachePath, level, candidate), true)]
    case Page(_, name) => [Keyword(name, Target(cachePath, level, ResultName(name, level)), false)]
  }

  /** The keywords of a listing, file by file: a function of what `src` reads alone. */
  function KeywordsOf(level: string, cachePath: string, listed: seq<Listed>): (r: seq<Keyword>)
    ensures |r| <= |listed|
    decreases |listed|
  {
    if listed == [] then []
    else KeywordsOf(level, cachePath, listed[..|listed| - 1]) + Registered(level, cachePath, listed[|listed| - 1].source)
  }

  /** A page whose `groff` run fails. */
  predicate Fails(tools: Tools, source: Source)
  {
    source.Page? && tools.groff(source.name, source.data).returnCode != 0
  }

  /** Some page of the listing fails to render. */
  predicate SomePageFails(tools: Tools, listed: seq<Listed>)
  {
    exists k :: 0 <= k < |listed| && Fails(tools, listed[k].source)
  }

  /** One pass: the keyword is registered whatever the state of the output directory; the
      error flag is set exactly when the file is a page that is rendered and whose `groff` run
      fails (man2qhelp.py:245, 262-265); the cross-references only grow. */
  lemma VisitSourceStep(level: string, opts: Options, tools: Tools, p: Progress, mtime: int, source: Source)
    ensures var r := VisitSource(level, opts, tools, p, mtime, source);
            r.keywords == p.keywords + Registered(level, opts.cachePath, source) &&
            r.hasErrors == (p.hasErrors || (Fails(tools, source) &&
                                            !UpToDate(opts.force, p.dir.files, ResultName(source.name, level), mtime))) &&
            p.refs <= r.refs
  {
    match source
    case Skipped(_) =>
    case Alias(_, _) =>
    case Page(data, name) =>
      var base := ResultName(name, level);
      if !UpToDate(opts.force, p.dir.files, base, mtime) {
        var c := tools.groff(name, data);
        if c.returnCode == 0 {
          var q := p.(keywords := p.keywords + Registered(level, opts.cachePath, source));
          assert Convert(q, level, tools, name, data, base, mtime).refs == p.refs + PageOutput(c.html, level, tools.parse).1;
        }
      }
  }

  /** A page is visited as `VisitPage` says. */
  lemma VisitIsPage(level: string, opts: Options, tools: Tools, p: Progress, mtime: int, source: Source)
    requires source.Page?
    ensures VisitSource(level, opts, tools, p, mtime, source) == VisitPage(level, opts, tools, p, mtime, source.data, source.name)
  {
  }

  /** A skipped file or an alias only registers its keyword: nothing is rendered, the output
      directory, the cross-references and the error flag stay as they are. */
  lemma VisitNotPage(level: string, opts: Options, tools: Tools, p: Progress, mtime: int, source: Source)
    requires !source.Page?
    ensures VisitSource(level, opts, tools, p, mtime, source) == p.(keywords := p.keywords + Registered(level, opts.cachePath, source))
  {
  }

  /** The walk (man2qhelp.py:223-280): the keywords are those of the listing, whatever the
      output directory holds, `force` says or `groff` reports; `has_errors` is never reset and
      is set only when a page of the listing fails to render, and with `force`, where every
      page is rendered, it is set exactly then; cross-references are only appended. */
  lemma {:induction false} VisitsSummary(level: string, opts: Options, tools: Tools, p: Progress, listed: seq<Listed>)
    ensures var r := Visits(level, opts, tools, p, listed);
            r.keywords == p.keywords + KeywordsOf(level, opts.cachePath, listed) &&
            (p.hasErrors ==> r.hasErrors) &&
            (r.hasErrors ==> p.hasErrors || SomePageFails(tools, listed)) &&
            (opts.force ==> r.hasErrors == (p.hasErrors || SomePageFails(tools, listed))) &&
            ((forall n, d :: tools.groff(n, d).returnCode == 0) ==> r.hasErrors == p.hasErrors) &&
            p.refs <= r.refs
    decreases |listed|
  {
    if listed != [] {
      var prefix := listed[..|listed| - 1];
      var last := listed[|listed| - 1];
      VisitsSummary(level, opts, tools, p, prefix);
      var q := Visits(level, opts, tools, p, prefix);
      assert Visits(level, opts, tools, p, listed) == VisitSource(level, opts, tools, q, last.mtime, last.source);
      var r := VisitSource(level, opts, tools, q, last.mtime, last.source);
      VisitSourceStep(level, opts, tools, q, last.mtime, last.source);
      KeywordsOfLast(level, opts.cachePath, listed);
      SummaryStep(opts.force, tools, p, q, r, listed,
                  KeywordsOf(level, opts.cachePath, prefix), Registered(level, opts.cachePath, last.source),
                  last.source.Page? && !UpToDate(opts.force, q.dir.files, ResultName(last.source.name, level), last.mtime));
    }
  }

  /** The step of `VisitsSummary`: what holds of the walk over all files but the last one
      still holds once the last one is visited. `kws` are the keywords of the files before the
      last one, `reg` the last one's, and `rendered` says whether the last one was rendered,
      which a page is whenever `force` is set. */
  lemma SummaryStep(force: bool, tools: Tools, p: Progress, q: Progress, r: Progress, listed: seq<Listed>,
                    kws: seq<Keyword>, reg: seq<Keyword>, rendered: bool)
    requires listed != []
    requires q.keywords == p.keywords + kws &&
             (p.hasErrors ==> q.hasErrors) &&
             (q.hasErrors ==> p.hasErrors || SomePageFails(tools, listed[..|listed| - 1])) &&
             (force ==> q.hasErrors == (p.hasErrors || SomePageFails(tools, listed[..|listed| - 1]))) &&
             ((forall n, d :: tools.groff(n, d).returnCode == 0) ==> q.hasErrors == p.hasErrors) &&
             p.refs <= q.refs
    requires r.keywords == q.keywords + reg && q.refs <= r.refs
    requires r.hasErrors == (q.hasErrors || (Fails(tools, listed[|listed| - 1].source) && rendered))
    requires force && listed[|listed| - 1].source.Page? ==> rendered
    ensures r.keywords == p.keywords + (kws + reg) &&
            (p.hasErrors ==> r.hasErrors) &&
            (r.hasErrors ==> p.hasErrors || SomePageFails(tools, listed)) &&
            (force ==> r.hasErrors == (p.hasErrors || SomePageFails(tools, listed))) &&
            ((forall n, d :: tools.groff(n, d).returnCode == 0) ==> r.hasErrors == p.hasErrors) &&
            p.refs <= r.refs
  {
    SomePageFailsLast(tools, listed);
  }

  /** A page of a non-empty listing fails exactly when one before the last one does or the
      last one does. */
  lemma SomePageFailsLast(tools: Tools, listed: seq<Listed>)
    requires listed != []
    ensures SomePageFails(tools, listed) <==>
            SomePageFails(tools, listed[..|listed| - 1]) || Fails(tools, listed[|listed| - 1].source)
  {
    var prefix := listed[..|listed| - 1];
    if SomePageFails(tools, listed) && !Fails(tools, listed[|listed| - 1].source) {
      var k :| 0 <= k < |listed| && Fails(tools, listed[k].source);
      assert prefix[k] == listed[k];
    }
    if SomePageFails(tools, prefix) {
      var k :| 0 <= k < |prefix| && Fails(tools, prefix[k].source);
      assert listed[k] == prefix[k];
    }
  }

  /** Visiting the same file again without `force` leaves the state as the first visit left
      it, but for the keyword registered once more: an output just written carries the
      source's time, so it is up to date; after a failed run `groff` is called again, and sets
      a flag that is already set and writes images that are already there. */
  lemma VisitSourceAgain(level: string, opts: Options, tools: Tools, p: Progress, mtime: int, source: Source)
    requires !opts.force
    ensures var q := VisitSource(level, opts, tools, p, mtime, source);
            var r := VisitSource(level, opts, tools, q, mtime, source);
            r == q.(keywords := q.keywords + Registered(level, opts.cachePath, source))
  {
    match source
    case Skipped(_) =>
    case Alias(_, _) =>
    case Page(data, name) =>
      var q := VisitSource(level, opts, tools, p, mtime, source);
      VisitIsPage(level, opts, tools, p, mtime, source);
      VisitIsPage(level, opts, tools, q, mtime, source);
      VisitPageAgain(level, opts, tools, p, mtime, data, name);
  }

  lemma VisitPageAgain(level: string, opts: Options, tools: Tools, p: Progress, mtime: int, data: string, name: string)
    requires !opts.force
    ensures var q := VisitPage(level, opts, tools, p, mtime, data, name);
            VisitPage(level, opts, tools, q, mtime, data, name) ==
            q.(keywords := q.keywords + [Keyword(name, Target(opts.cachePath, level, ResultName(name, level)), false)])
  {
    var base := ResultName(name, level);
    var k := Keyword(name, Target(opts.cachePath, level, base), false);
    var q := VisitPage(level, opts, tools, p, mtime, data, name);
    if !UpToDate(false, p.dir.files, base, mtime) {
      var c := tools.groff(name, data);
      ConvertEffect(p.(keywords := p.keywords + [k]), level, tools, name, data, base, mtime);
      if c.returnCode == 0 {
        assert q.dir.files[base].mtime == mtime;
        assert UpToDate(false, q.dir.files, base, mtime);
      } else {
        var q' := q.(keywords := q.keywords + [k]);
        ConvertEffect(q', level, tools, name, data, base, mtime);
        assert q.dir.images + c.images == q.dir.images;
      }
    }
  }

  /** A page and an alias of it in the same category: the alias keyword points at the output
      the page's own pass over `level` writes, whether the candidate is compressed or not. */
  lemma AliasTargetIsPageTarget(cachePath: string, level: string, candidate: string, path: string)
    requires Basename(candidate) == Basename(path)
    requires EndsWith(candidate, ".gz") == EndsWith(path, ".gz") && EndsWith(candidate, ".bz2") == EndsWith(path, ".bz2")
    ensures AliasTarget(cachePath, level, candidate) == Target(cachePath, level, ResultName(SourceName(path), level))
  {
    SourceNameSameBase(candidate, path, Basename(path));
  }

  /** man2qhelp.py:233 as written, for a `gzip`ped candidate `<stem>.<level>.gz`: the alias
      points at `<stem>.<level>.gz.html`, but the candidate's own page is written to
      `<stem>.html`. */
  lemma AliasTargetAsWrittenGzip(cachePath: string, level: string, stem: string)
    requires '/' !in stem && HasNonDot(stem) && IsCategory(level)
    requires SplitExt(stem).1 !in RenderedExtensions(level)
    ensures var candidate := ManDir(level) + "/" + stem + "." + level + ".gz";
            Basename(AliasTargetAsWritten(cachePath, level, candidate)) == stem + "." + level + ".gz" + ".html" &&
            Basename(AliasTarget(cachePath, level, candidate)) == stem + ".html" &&
            AliasTargetAsWritten(cachePath, level, candidate) != AliasTarget(cachePath, level, candidate)
  {
    var file := stem + "." + level + ".gz";
    var dir := ManDir(level);
    assert dir + "/" + stem + "." + level + ".gz" == dir + "/" + file by {
      ConcatAssoc(dir + "/", stem, ".", level);
      Assoc(dir + "/", stem + "." + level, ".gz");
    }
    CategoryHasNoSeparator(level);
    var plain := stem + "." + level;
    assert HasNonDot(plain) by {
      HasNonDotAppend(stem, "." + level);
      assert stem + ("." + level) == plain;
    }
    ResultNameGzip(plain, level);
    SourceNameOfPage(stem, level);
    StemResultName(stem, level);
    AliasTargetsInDir(cachePath, level, dir, file, stem);
  }

  /** The two alias targets for a candidate `dir/file`. */
  lemma AliasTargetsInDir(cachePath: string, level: string, dir: string, file: string, stem: string)
    requires '/' !in file && SourceName(file) == stem
    requires RemoveExtensions(file, RenderedExtensions(level)) == file
    requires ResultName(stem, level) == stem + ".html"
    ensures Basename(AliasTargetAsWritten(cachePath, level, dir + "/" + file)) == file + ".html"
    ensures Basename(AliasTarget(cachePath, level, dir + "/" + file)) == stem + ".html"
    ensures |stem| < |file| ==> AliasTargetAsWritten(cachePath, level, dir + "/" + file) != AliasTarget(cachePath, level, dir + "/" + file)
  {
    ResultNameInDir(dir, file, level);
    SourceNameInDir(dir, file);
  }

  /** `remove_extensions` keeps `.gz`, so nothing before it is stripped either. */
  lemma ResultNameGzip(plain: string, level: string)
    requires '/' !in plain && HasNonDot(plain) && IsCategory(level)
    ensures RemoveExtensions(plain + ".gz", RenderedExtensions(level)) == plain + ".gz"
  {
    SplitExtAppend(plain, "gz");
    assert plain + "." + "gz" == plain + ".gz";
    assert "." + level != ".gz" by { assert ("." + level)[1] == level[0]; }
  }

  /** A page name without an extension of the category is its own stem. */
  lemma StemResultName(stem: string, level: string)
    requires '/' !in stem && SplitExt(stem).1 !in RenderedExtensions(level)
    ensures ResultName(stem, level) == stem + ".html"
  {
    LastIndexOfIs(stem, '/', -1);
    ResultNameByBasename(stem, level, stem);
  }

  /** The search from keyword length `k` finds the first length `n` the tail pattern follows. */
  lemma {:induction false} ImageKeywordFromIs(f: string, k: nat, n: nat)
    requires 1 <= k <= n < |f| && ImageTailAt(f, n)
    requires forall j :: k <= j < n ==> !ImageTailAt(f, j)
    requires forall j :: k - 1 <= j < n ==> f[j] != '\n'
    ensures ImageKeywordFrom(f, k) == Some(f[..n])
    decreases n - k
  {
    if k < n {
      ImageKeywordFromIs(f, k + 1, n);
    }
  }

  /** The images `groff` writes for page `name` (`-I name-`) are named `name-<digits>.<ext>`;
      when the tail pattern does not already follow a shorter prefix of the page name (no
      `-<digits>.<word>` inside it) and the name has no newline, the pattern gives back the
      page name, so the clean-up keeps them while the page is registered. */
  lemma ImageKeywordOfPage(name: string, digits: string, ext: string)
    requires name != [] && '\n' !in name
    requires forall j :: 1 <= j < |name| ==> !ImageTailAt(name + "-" + digits + "." + ext, j)
    requires digits != [] && AllDigits(digits)
    requires ext != [] && IsWordChar(ext[0])
    ensures ImageKeyword(name + "-" + digits + "." + ext) == Some(name)
    ensures forall pages :: name in pages ==> KeepImage(name + "-" + digits + "." + ext, pages)
  {
    var f := name + "-" + digits + "." + ext;
    var n := |name|;
    var d := n + 1 + |digits|;
    assert f[n] == '-' && f[d] == '.' && f[d + 1] == ext[0];
    SpanIs(f, n + 1, IsDigit, d) by {
      forall k | n + 1 <= k < d ensures IsDigit(f[k]) { assert f[k] == digits[k - n - 1]; }
    }
    assert ImageTailAt(f, n);
    forall i | 0 <= i < n ensures f[i] != '\n' {
      assert f[i] == name[i];
    }
    ImageKeywordFromIs(f, 1, n);
    assert f[..n] == name;
  }

  /** A page name without `-` holds no place the tail pattern follows. */
  lemma NoDashNoImageTail(name: string, rest: string)
    requires '-' !in name
    ensures forall j :: 1 <= j < |name| ==> !ImageTailAt(name + rest, j)
  {
    forall j | 1 <= j < |name| ensures !ImageTailAt(name + rest, j) {
      assert (name + rest)[j] == name[j];
    }
  }

  /** A page whose name carries a version, `<stem>-<v>.<w...>` (as in `foo-2.0`), loses its
      images: the lazy keyword of `foo-2.0-1.png` is `foo`, not the page name, so the clean-up
      deletes them unless a page `foo` is registered too. */
  lemma VersionedPageLosesImages(stem: string, v: string, w: string, digits: string, ext: string)
    requires stem != [] && '-' !in stem && '\n' !in stem
    requires v != [] && AllDigits(v) && w != [] && IsWordChar(w[0])
    requires digits != [] && AllDigits(digits) && ext != [] && IsWordChar(ext[0])
    ensures var name := stem + "-" + v + "." + w;
            ImageKeyword(name + "-" + digits + "." + ext) == Some(stem) &&
            forall pages :: stem !in pages ==> !KeepImage(name + "-" + digits + "." + ext, pages)
  {
    var name := stem + "-" + v + "." + w;
    var tail := w + "-" + digits + "." + ext;
    assert name + "-" + digits + "." + ext == stem + "-" + v + "." + tail;
    NoDashNoImageTail(stem, "-" + v + "." + tail);
    assert stem + ("-" + v + "." + tail) == stem + "-" + v + "." + tail;
    ImageKeywordOfPage(stem, v, tail);
  }

  /** man2qhelp.py:287 as written: a stale output is kept when the working directory holds no
      file of that name, and an output is deleted only when it is stale and the working
      directory holds a file of that name. */
  lemma CollectedFilesAsWrittenKeepsStale(files: map<string, OutFile>, keywords: seq<Keyword>, cwdFiles: set<string>, f: string)
    requires f in files && f !in OutputNames(keywords) && f !in cwdFiles
    ensures f in CollectedFilesAsWritten(files, OutputNames(keywords), cwdFiles)
    ensures f !in CollectedFiles(files, keywords)
  {
  }

  /** The two clean-ups agree only when every output also names a file of the working
      directory. */
  lemma CollectedFilesAsWrittenAgrees(files: map<string, OutFile>, keywords: seq<Keyword>, cwdFiles: set<string>)
    ensures CollectedFilesAsWritten(files, OutputNames(keywords), cwdFiles) == CollectedFiles(files, keywords) <==>
            forall f :: f in files && f !in OutputNames(keywords) ==> f in cwdFiles
  {
    var keep := OutputNames(keywords);
    var a := CollectedFilesAsWritten(files, keep, cwdFiles);
    var b := CollectedFiles(files, keywords);
    if forall f :: f in files && f !in keep ==> f in cwdFiles {
      assert a.Keys == b.Keys;
      assert forall f :: f in a ==> a[f] == files[f];
    } else {
      var f :| f in files && f !in keep && f !in cwdFiles;
      assert f in a && f !in b;
    }
  }

  /** A second clean-up deletes nothing. */
  lemma CollectedIdempotent(dir: Dir, keywords: seq<Keyword>)
    ensures Collected(Collected(dir, keywords), keywords) == Collected(dir, keywords)
  {
    var once := Collected(dir, keywords);
    var twice := Collected(once, keywords);
    assert twice.files.Keys == once.files.Keys;
    assert twice.images == once.images;
  }

  /** After `do_level`: the keywords are those of the listing, the error flag is set only when
      a page of the listing fails to render (exactly then with `force`), and the output
      directory holds only outputs a keyword names and images of registered pages. */
  lemma LevelOutcomeSummary(level: string, opts: Options, tools: Tools, entries: seq<Entry>, start: Dir)
    ensures var (result, dir) := LevelOutcome(level, opts, tools, entries, start);
            result.keywords == KeywordsOf(level, opts.cachePath, Listing(level, tools.glob, entries)) &&
            (result.hasErrors ==> SomePageFails(tools, Listing(level, tools.glob, entries))) &&
            (opts.force ==> result.hasErrors == SomePageFails(tools, Listing(level, tools.glob, entries))) &&
            ((forall n, d :: tools.groff(n, d).returnCode == 0) ==> !result.hasErrors) &&
            (forall f :: f in dir.files ==> f in OutputNames(result.keywords)) &&
            (forall f :: f in dir.images ==> KeepImage(f, PageNames(result.keywords)))
  {
    var p0 := Progress([], [], false, start);
    var listed := Listing(level, tools.glob, entries);
    VisitsSummary(level, opts, tools, p0, listed);
    assert [] + KeywordsOf(level, opts.cachePath, listed) == KeywordsOf(level, opts.cachePath, listed);
  }

  /** The listed pages write pairwise distinct outputs. */
  predicate DistinctOutputs(level: string, listed: seq<Listed>)
  {
    forall i, j :: 0 <= i < j < |listed| && listed[i].source.Page? && listed[j].source.Page? ==>
      ResultName(listed[i].source.name, level) != ResultName(listed[j].source.name, level)
  }

  /** Every listed page's output is present and within a second of the page's time. */
  predicate Fresh(level: string, listed: seq<Listed>, files: map<string, OutFile>)
  {
    forall i :: 0 <= i < |listed| && listed[i].source.Page? ==>
      UpToDate(false, files, ResultName(listed[i].source.name, level), listed[i].mtime)
  }

  /** One pass touches at most the output of the page it visits, and a page whose `groff`
      run does not fail leaves its output up to date. */
  lemma VisitFiles(level: string, opts: Options, tools: Tools, p: Progress, mtime: int, source: Source)
    ensures var r := VisitSource(level, opts, tools, p, mtime, source);
            (source.Page? ==> r.dir.files == p.dir.files ||
                              exists html :: r.dir.files == p.dir.files[ResultName(source.name, level) := OutFile(mtime, html)]) &&
            (!source.Page? ==> r.dir.files == p.dir.files) &&
            (source.Page? && !Fails(tools, source) ==>
               UpToDate(false, r.dir.files, ResultName(source.name, level), mtime))
  {
    if source.Page? {
      var base := ResultName(source.name, level);
      var r := VisitSource(level, opts, tools, p, mtime, source);
      var q := p.(keywords := p.keywords + [Keyword(source.name, Target(opts.cachePath, level, base), false)]);
      assert r == VisitPage(level, opts, tools, p, mtime, source.data, source.name);
      if !UpToDate(opts.force, p.dir.files, base, mtime) {
        assert r == Convert(q, level, tools, source.name, source.data, base, mtime);
        ConvertEffect(q, level, tools, source.name, source.data, base, mtime);
        var c := tools.groff(source.name, source.data);
        if c.returnCode == 0 {
          var html := PageOutput(c.html, level, tools.parse).0;
          assert r.dir.files == p.dir.files[base := OutFile(mtime, html)];
        }
      }
    }
  }

  /** A pass over another page leaves an output as it was. */
  lemma VisitKeepsOther(level: string, opts: Options, tools: Tools, p: Progress, mtime: int, source: Source, base: string)
    requires source.Page? ==> base != ResultName(source.name, level)
    ensures var r := VisitSource(level, opts, tools, p, mtime, source);
            (base in r.dir.files <==> base in p.dir.files) &&
            (base in p.dir.files ==> r.dir.files[base] == p.dir.files[base])
  {
    VisitFiles(level, opts, tools, p, mtime, source);
  }

  /** After the walk, every page that does not fail has an up-to-date output, provided no two
      pages write the same output. */
  lemma {:induction false} VisitsFresh(level: string, opts: Options, tools: Tools, p: Progress, listed: seq<Listed>)
    requires !SomePageFails(tools, listed) && DistinctOutputs(level, listed)
    ensures Fresh(level, listed, Visits(level, opts, tools, p, listed).dir.files)
    decreases |listed|
  {
    if listed != [] {
      var n := |listed| - 1;
      PrefixPremises(level, tools, listed);
      VisitsFresh(level, opts, tools, p, listed[..n]);
      var q := Visits(level, opts, tools, p, listed[..n]);
      assert Visits(level, opts, tools, p, listed) == VisitSource(level, opts, tools, q, listed[n].mtime, listed[n].source);
      FreshAfterLast(level, opts, tools, q, listed);
    }
  }

  /** The premises of VisitsFresh carry over to the files before the last one. */
  lemma PrefixPremises(level: string, tools: Tools, listed: seq<Listed>)
    requires listed != [] && !SomePageFails(tools, listed) && DistinctOutputs(level, listed)
    ensures !SomePageFails(tools, listed[..|listed| - 1]) && DistinctOutputs(level, listed[..|listed| - 1])
    ensures !Fails(tools, listed[|listed| - 1].source)
  {
    var prefix := listed[..|listed| - 1];
    forall k | 0 <= k < |prefix| ensures !Fails(tools, prefix[k].source) { assert prefix[k] == listed[k]; }
    forall i, j | 0 <= i < j < |prefix| ensures prefix[i] == listed[i] && prefix[j] == listed[j] { }
  }

  /** Visiting the last file keeps the earlier outputs fresh and makes its own fresh. */
  lemma FreshAfterLast(level: string, opts: Options, tools: Tools, q: Progress, listed: seq<Listed>)
    requires listed != [] && !Fails(tools, listed[|listed| - 1].source) && DistinctOutputs(level, listed)
    requires Fresh(level, listed[..|listed| - 1], q.dir.files)
    ensures Fresh(level, listed, VisitSource(level, opts, tools, q, listed[|listed| - 1].mtime, listed[|listed| - 1].source).dir.files)
  {
    forall i | 0 <= i < |listed| && listed[i].source.Page?
      ensures UpToDate(false, VisitSource(level, opts, tools, q, listed[|listed| - 1].mtime, listed[|listed| - 1].source).dir.files,
                       ResultName(listed[i].source.name, level), listed[i].mtime)
    {
      FreshAt(level, opts, tools, q, listed, i);
    }
  }

  /** The output of the i-th page is fresh after the visit of the last file. */
  lemma FreshAt(level: string, opts: Options, tools: Tools, q: Progress, listed: seq<Listed>, i: nat)
    requires i < |listed| && listed[i].source.Page?
    requires !Fails(tools, listed[|listed| - 1].source) && DistinctOutputs(level, listed)
    requires Fresh(level, listed[..|listed| - 1], q.dir.files)
    ensures UpToDate(false, VisitSource(level, opts, tools, q, listed[|listed| - 1].mtime, listed[|listed| - 1].source).dir.files,
                     ResultName(listed[i].source.name, level), listed[i].mtime)
  {
    if i < |listed| - 1 {
      EarlierStaysFresh(level, opts, tools, q, listed, i);
    } else {
      LastFresh(level, opts, tools, q, listed[i].mtime, listed[i].source);
    }
  }

  /** A page that does not fail has an up-to-date output right after its own visit. */
  lemma LastFresh(level: string, opts: Options, tools: Tools, q: Progress, mtime: int, source: Source)
    requires source.Page? && !Fails(tools, source)
    ensures UpToDate(false, VisitSource(level, opts, tools, q, mtime, source).dir.files, ResultName(source.name, level), mtime)
  {
    VisitFiles(level, opts, tools, q, mtime, source);
  }

  /** An earlier page's fresh output survives the visit of the last file. */
  lemma EarlierStaysFresh(level: string, opts: Options, tools: Tools, q: Progress, listed: seq<Listed>, i: nat)
    requires i < |listed| - 1 && listed[i].source.Page? && DistinctOutputs(level, listed)
    requires Fresh(level, listed[..|listed| - 1], q.dir.files)
    ensures UpToDate(false, VisitSource(level, opts, tools, q, listed[|listed| - 1].mtime, listed[|listed| - 1].source).dir.files,
                     ResultName(listed[i].source.name, level), listed[i].mtime)
  {
    EarlierFacts(level, listed, q.dir.files, i);
    var last := listed[|listed| - 1];
    OtherStaysFresh(level, opts, tools, q, last.mtime, last.source, ResultName(listed[i].source.name, level), listed[i].mtime);
  }

  /** Before the last visit, an earlier page's output is fresh and is not the last page's. */
  lemma EarlierFacts(level: string, listed: seq<Listed>, files: map<string, OutFile>, i: nat)
    requires i < |listed| - 1 && listed[i].source.Page? && DistinctOutputs(level, listed)
    requires Fresh(level, listed[..|listed| - 1], files)
    ensures UpToDate(false, files, ResultName(listed[i].source.name, level), listed[i].mtime)
    ensures listed[|listed| - 1].source.Page? ==>
              ResultName(listed[i].source.name, level) != ResultName(listed[|listed| - 1].source.name, level)
  {
    assert listed[..|listed| - 1][i] == listed[i];
  }

  /** A pass over a page with another output leaves a fresh output fresh. */
  lemma OtherStaysFresh(level: string, opts: Options, tools: Tools, q: Progress, mtime: int, source: Source, base: string, m: int)
    requires UpToDate(false, q.dir.files, base, m) && (source.Page? ==> base != ResultName(source.name, level))
    ensures UpToDate(false, VisitSource(level, opts, tools, q, mtime, source).dir.files, base, m)
  {
    VisitKeepsOther(level, opts, tools, q, mtime, source, base);
  }

  /** The keywords of a non-empty listing: those before the last file, then the last file's. */
  lemma KeywordsOfLast(level: string, cachePath: string, listed: seq<Listed>)
    requires listed != []
    ensures KeywordsOf(level, cachePath, listed) ==
            KeywordsOf(level, cachePath, listed[..|listed| - 1]) + Registered(level, cachePath, listed[|listed| - 1].source)
  {
  }

  /** Every file that registers a keyword has it among the listing's keywords. */
  lemma {:induction false} KeywordOfListed(level: string, cachePath: string, listed: seq<Listed>, i: nat, kw: Keyword)
    requires i < |listed| && kw in Registered(level, cachePath, listed[i].source)
    ensures kw in KeywordsOf(level, cachePath, listed)
    decreases |listed|, 1
  {
    if i < |listed| - 1 {
      KeywordOfEarlier(level, cachePath, listed, i, kw);
    } else {
      KeywordOfLast(level, cachePath, listed, kw);
    }
  }

  /** The keyword of a file before the last one: a keyword of the files before the last. */
  lemma {:induction false} KeywordOfEarlier(level: string, cachePath: string, listed: seq<Listed>, i: nat, kw: Keyword)
    requires i < |listed| - 1 && kw in Registered(level, cachePath, listed[i].source)
    ensures kw in KeywordsOf(level, cachePath, listed)
    decreases |listed|, 0
  {
    var prefix := listed[..|listed| - 1];
    assert prefix[i] == listed[i];
    KeywordOfListed(level, cachePath, prefix, i, kw);
    KeywordsBeforeLast(level, cachePath, listed, kw);
  }

  /** The last file's keyword is a keyword of the listing. */
  lemma KeywordOfLast(level: string, cachePath: string, listed: seq<Listed>, kw: Keyword)
    requires 0 < |listed| && kw in Registered(level, cachePath, listed[|listed| - 1].source)
    ensures kw in KeywordsOf(level, cachePath, listed)
  {
    KeywordsOfLast(level, cachePath, listed);
  }

  /** A keyword of the files before the last one is a keyword of the listing. */
  lemma KeywordsBeforeLast(level: string, cachePath: string, listed: seq<Listed>, kw: Keyword)
    requires 0 < |listed| && kw in KeywordsOf(level, cachePath, listed[..|listed| - 1])
    ensures kw in KeywordsOf(level, cachePath, listed)
  {
    KeywordsOfLast(level, cachePath, listed);
  }

  /** The clean-up keeps every page's output, since a page's keyword names it. */
  lemma CollectedKeepsPages(level: string, cachePath: string, listed: seq<Listed>, i: nat)
    requires i < |listed| && listed[i].source.Page?
    ensures ResultName(listed[i].source.name, level) in OutputNames(KeywordsOf(level, cachePath, listed))
  {
    var kws := KeywordsOf(level, cachePath, listed);
    var kw := Registered(level, cachePath, listed[i].source)[0];
    KeywordOfListed(level, cachePath, listed, i, kw);
    var k :| 0 <= k < |kws| && kws[k] == kw;
    assert !kws[k].isAlias && Basename(kws[k].target) == ResultName(listed[i].source.name, level);
  }

  /** The walk over a non-empty listing ends with the last file. */
  lemma VisitsLast(level: string, opts: Options, tools: Tools, p: Progress, listed: seq<Listed>)
    requires listed != []
    ensures Visits(level, opts, tools, p, listed) ==
            VisitSource(level, opts, tools, Visits(level, opts, tools, p, listed[..|listed| - 1]),
                        listed[|listed| - 1].mtime, listed[|listed| - 1].source)
  {
  }

  /** The outputs of a listing are up to date exactly when those of the files before the
      last one and that of the last one are. */
  lemma FreshParts(level: string, listed: seq<Listed>, files: map<string, OutFile>)
    requires listed != [] && Fresh(level, listed, files)
    ensures Fresh(level, listed[..|listed| - 1], files)
    ensures listed[|listed| - 1].source.Page? ==>
              UpToDate(false, files, ResultName(listed[|listed| - 1].source.name, level), listed[|listed| - 1].mtime)
  {
    var prefix := listed[..|listed| - 1];
    forall i | 0 <= i < |prefix| && prefix[i].source.Page?
      ensures UpToDate(false, files, ResultName(prefix[i].source.name, level), prefix[i].mtime)
    {
      assert prefix[i] == listed[i];
    }
  }

  /** Without `force`, a file whose output is up to date only registers its keyword. */
  lemma VisitUpToDate(level: string, opts: Options, tools: Tools, p: Progress, mtime: int, source: Source)
    requires !opts.force
    requires source.Page? ==> UpToDate(false, p.dir.files, ResultName(source.name, level), mtime)
    ensures VisitSource(level, opts, tools, p, mtime, source) == p.(keywords := p.keywords + Registered(level, opts.cachePath, source))
  {
  }

  /** Without `force`, a walk over a listing whose outputs are all up to date renders nothing:
      the directory, the flag and the cross-references stay (the keywords are those
      `VisitsSummary` gives). */
  lemma {:induction false} VisitsIdle(level: string, opts: Options, tools: Tools, p: Progress, listed: seq<Listed>)
    requires !opts.force && Fresh(level, listed, p.dir.files)
    ensures var r := Visits(level, opts, tools, p, listed);
            r.dir == p.dir && r.refs == p.refs && r.hasErrors == p.hasErrors
    decreases |listed|
  {
    if listed != [] {
      var n := |listed| - 1;
      FreshParts(level, listed, p.dir.files);
      VisitsIdle(level, opts, tools, p, listed[..n]);
      var q := Visits(level, opts, tools, p, listed[..n]);
      VisitsLast(level, opts, tools, p, listed);
      VisitUpToDate(level, opts, tools, q, listed[n].mtime, listed[n].source);
    }
  }

  /** man2qhelp.py:206-303 run twice without `force` and with no source changed: when no page
      fails and no two pages write the same output, every page is up to date at its second
      visit, so `groff` is not called, no cross-reference is found, the flag stays clear, the
      keywords are the same and the output directory is left exactly as the first run left it. */
  lemma LevelOutcomeAgain(level: string, opts: Options, tools: Tools, entries: seq<Entry>, start: Dir)
    requires !opts.force
    requires !SomePageFails(tools, Listing(level, tools.glob, entries))
    requires DistinctOutputs(level, Listing(level, tools.glob, entries))
    ensures var (first, d) := LevelOutcome(level, opts, tools, entries, start);
            Fresh(level, Listing(level, tools.glob, entries), d.files) &&
            LevelOutcome(level, opts, tools, entries, d) == (LevelResult(first.keywords, [], false), d)
  {
    var listed := Listing(level, tools.glob, entries);
    var p := Visits(level, opts, tools, Progress([], [], false, start), listed);
    var d := Collected(p.dir, p.keywords);
    VisitsSummary(level, opts, tools, Progress([], [], false, start), listed);
    assert p.keywords == KeywordsOf(level, opts.cachePath, listed);
    VisitsFresh(level, opts, tools, Progress([], [], false, start), listed);
    forall i | 0 <= i < |listed| && listed[i].source.Page?
      ensures UpToDate(false, d.files, ResultName(listed[i].source.name, level), listed[i].mtime)
    {
      CollectedKeepsPages(level, opts.cachePath, listed, i);
    }
    var p2 := Visits(level, opts, tools, Progress([], [], false, d), listed);
    VisitsIdle(level, opts, tools, Progress([], [], false, d), listed);
    VisitsSummary(level, opts, tools, Progress([], [], false, d), listed);
    assert p2.keywords == p.keywords;
    CollectedIdempotent(p.dir, p.keywords);
  }

  /** Two pages that write the same output (`select.2` and `select.2.gz` both write
      `select.html`) with times a second or more apart, visited in turn from a directory
      without that output: both are rendered, and the output left is stale for the first, so
      the next run renders it again. */
  lemma SharedOutputStale(level: string, opts: Options, tools: Tools, p: Progress,
                          m1: int, d1: string, n1: string, m2: int, d2: string, n2: string)
    requires !opts.force && ResultName(n1, level) == ResultName(n2, level) && ResultName(n1, level) !in p.dir.files
    requires tools.groff(n1, d1).returnCode == 0 && tools.groff(n2, d2).returnCode == 0
    requires m1 - m2 >= Tolerance || m2 - m1 >= Tolerance
    ensures var q := VisitPage(level, opts, tools, p, m1, d1, n1);
            var r := VisitPage(level, opts, tools, q, m2, d2, n2);
            !UpToDate(false, q.dir.files, ResultName(n2, level), m2) &&
            !UpToDate(false, r.dir.files, ResultName(n1, level), m1)
  {
    var base := ResultName(n1, level);
    var q := VisitPage(level, opts, tools, p, m1, d1, n1);
    ConvertEffect(p.(keywords := p.keywords + [Keyword(n1, Target(opts.cachePath, level, base), false)]), level, tools, n1, d1, base, m1);
    assert q.dir.files[base].mtime == m1;
    ConvertEffect(q.(keywords := q.keywords + [Keyword(n2, Target(opts.cachePath, level, base), false)]), level, tools, n2, d2, base, m2);
  }
}
