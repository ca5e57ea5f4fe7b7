/** Page-name derivation: where a category's sources live, how a source file name becomes a
    page name, and how a page name becomes the name of its rendered HTML file. */
module Names {
  import opened PyStr

  /** The prefix of `IN_PATH`; a category's sources live in `ManRoot + level`. */
  const ManRoot := "/usr/share/man/man"

  /** `IN_PATH % level` for a category given as text, as `do_level` uses it. */
  function ManDir(level: string): string { ManRoot + level }

  /** `man_path(level, page)`: the source directory of a numeric category, or a page in it. */
  function ManPath(level: nat, page: Option<string>): (r: string)
    ensures page.None? ==> r == ManRoot + NatToString(level)
    ensures page.Some? && page.value != [] && page.value[0] != '/' ==>
              r == ManRoot + NatToString(level) + "/" + page.value
    ensures page.Some? && '/' !in page.value ==> Basename(r) == page.value
  {
    match page
    case None => ManDir(NatToString(level))
    case Some(p) =>
      JoinPathTail(ManDir(NatToString(level)), p);
      JoinPath(ManDir(NatToString(level)), p)
  }

  /** Some character of `x` is not a dot, so that a suffix `.e` of it is an extension. */
  predicate HasNonDot(x: string) { exists k :: 0 <= k < |x| && x[k] != '.' }

  /** `remove_extensions(source, *exts)`: strip the last extension for as long as it is one
      of `exts`. The result is a prefix of `source` whose own extension is not in `exts`, and a
      name whose extension is not in `exts` is returned as it is. */
  function RemoveExtensions(source: string, exts: set<string>): (r: string)
    requires "" !in exts
    ensures |r| <= |source| && r == source[..|r|]
    ensures SplitExt(source).1 !in exts ==> r == source
    decreases |source|
  {
    var (base, ext) := SplitExt(source);
    if ext in exts then RemoveExtensions(base, exts) else source
  }

  /** The stripping stops only at a name whose extension is not in the set. */
  lemma {:induction false} RemoveExtensionsStops(source: string, exts: set<string>)
    requires "" !in exts
    ensures SplitExt(RemoveExtensions(source, exts)).1 !in exts
    decreases |source|
  {
    var (base, ext) := SplitExt(source);
    if ext in exts {
      RemoveExtensionsStops(base, exts);
    }
  }

  /** Stripping twice strips nothing more. */
  lemma RemoveExtensionsIdempotent(source: string, exts: set<string>)
    requires "" !in exts
    ensures RemoveExtensions(RemoveExtensions(source, exts), exts) == RemoveExtensions(source, exts)
  {
    RemoveExtensionsStops(source, exts);
  }

  /** The extensions `result_name` strips for a category. */
  function RenderedExtensions(level: string): set<string> { {".bz2", "." + level} }

  /** `result_name(source_name, level)`: the base name with `.bz2` and `.<level>` stripped,
      then `.html` appended. */
  function ResultName(sourceName: string, level: string): (r: string)
    ensures '/' !in r
    ensures EndsWith(r, ".html")
  {
    RemoveExtensions(Basename(sourceName), RenderedExtensions(level)) + ".html"
  }

  /** The output name is a prefix of the base name with `.html` appended. */
  lemma ResultNameFromBase(sourceName: string, level: string)
    ensures StartsWith(Basename(sourceName), ResultName(sourceName, level)[..|ResultName(sourceName, level)| - 5])
  {
    var stripped := RemoveExtensions(Basename(sourceName), RenderedExtensions(level));
    assert ResultName(sourceName, level)[..|ResultName(sourceName, level)| - 5] == stripped;
  }

  /** A category identifier as the command line gives it: a section number, possibly followed
      by a variant marker such as `p`. */
  predicate IsCategory(level: string) {
    level != [] && IsDigit(level[0]) && forall k :: 0 <= k < |level| ==> IsWordChar(level[k])
  }

  lemma CategoryHasNoSeparator(level: string)
    requires IsCategory(level)
    ensures '/' !in level && '.' !in level
  {
    forall k | 0 <= k < |level|
      ensures level[k] != '/' && level[k] != '.'
    {
      assert IsWordChar(level[k]);
    }
  }

  /** One step of `remove_extensions`. */
  lemma RemoveExtensionsStep(s: string, exts: set<string>)
    requires "" !in exts && SplitExt(s).1 in exts
    ensures RemoveExtensions(s, exts) == RemoveExtensions(SplitExt(s).0, exts)
  {
  }

  /** Peeling one extension that is in the set. */
  lemma RemoveExtensionsPeel(x: string, e: string, exts: set<string>)
    requires "" !in exts && "." + e in exts
    requires '/' !in x && '/' !in e && '.' !in e && HasNonDot(x)
    ensures RemoveExtensions(x + "." + e, exts) == RemoveExtensions(x, exts)
  {
    SplitExtAppend(x, e);
    RemoveExtensionsStep(x + "." + e, exts);
  }

  /** `result_name`'s stripping takes `stem.<level>` back to `stem`. */
  lemma StripLevel(stem: string, level: string)
    requires '/' !in stem && HasNonDot(stem)
    requires IsCategory(level)
    requires SplitExt(stem).1 !in RenderedExtensions(level)
    ensures RemoveExtensions(stem + "." + level, RenderedExtensions(level)) == stem
  {
    CategoryHasNoSeparator(level);
    RemoveExtensionsPeel(stem, level, RenderedExtensions(level));
  }

  lemma HasNonDotAppend(x: string, y: string)
    requires HasNonDot(x)
    ensures HasNonDot(x + y)
  {
    var k :| 0 <= k < |x| && x[k] != '.';
    assert (x + y)[k] == x[k];
  }

  /** ... and `stem.<level>.bz2` too. */
  lemma StripLevelAndBzip(stem: string, level: string)
    requires '/' !in stem && HasNonDot(stem)
    requires IsCategory(level)
    requires SplitExt(stem).1 !in RenderedExtensions(level)
    ensures RemoveExtensions(stem + "." + level + ".bz2", RenderedExtensions(level)) == stem
  {
    CategoryHasNoSeparator(level);
    var plain := stem + "." + level;
    StripLevel(stem, level);
    HasNonDotAppend(stem, "." + level);
    assert "." + "bz2" == ".bz2";
    assert plain + "." + "bz2" == plain + ".bz2";
    RemoveExtensionsPeel(plain, "bz2", RenderedExtensions(level));
  }

  lemma ResultNameByBasename(p: string, level: string, b: string)
    requires Basename(p) == b
    ensures ResultName(p, level) == RemoveExtensions(b, RenderedExtensions(level)) + ".html"
  {
  }

  lemma ResultNameInDir(dir: string, file: string, level: string)
    requires '/' !in file
    ensures ResultName(dir + "/" + file, level) == RemoveExtensions(file, RenderedExtensions(level)) + ".html"
  {
    BasenameAppend(dir, file);
    ResultNameByBasename(dir + "/" + file, level, file);
  }

  /** A bare file name renders to its stripped name plus `.html`. */
  lemma ResultNameOfFile(file: string, level: string, stem: string)
    requires '/' !in file
    requires RemoveExtensions(file, RenderedExtensions(level)) == stem
    ensures ResultName(file, level) == stem + ".html"
  {
    LastIndexOfIs(file, '/', -1);
    ResultNameByBasename(file, level, file);
  }

  lemma ResultNameOfPlain(stem: string, level: string)
    requires '/' !in stem && HasNonDot(stem)
    requires IsCategory(level)
    requires SplitExt(stem).1 !in RenderedExtensions(level)
    ensures ResultName(stem + "." + level, level) == stem + ".html"
  {
    CategoryHasNoSeparator(level);
    StripLevel(stem, level);
    ResultNameOfFile(stem + "." + level, level, stem);
  }

  lemma ResultNameOfBzip(stem: string, level: string)
    requires '/' !in stem && HasNonDot(stem)
    requires IsCategory(level)
    requires SplitExt(stem).1 !in RenderedExtensions(level)
    ensures ResultName(stem + "." + level + ".bz2", level) == stem + ".html"
  {
    CategoryHasNoSeparator(level);
    StripLevelAndBzip(stem, level);
    ResultNameOfFile(stem + "." + level + ".bz2", level, stem);
  }

  /** A page `stem` renders to `stem.html` whether its source is named `stem.<level>` or
      `stem.<level>.bz2` (`ResultNameInDir` adds any directory in front). */
  lemma {:induction false} ResultNameOfSource(stem: string, level: string)
    requires '/' !in stem && HasNonDot(stem)
    requires IsCategory(level)
    requires SplitExt(stem).1 !in RenderedExtensions(level)
    ensures ResultName(stem + "." + level, level) == stem + ".html"
    ensures ResultName(stem + "." + level + ".bz2", level) == stem + ".html"
  {
    ResultNameOfPlain(stem, level);
    ResultNameOfBzip(stem, level);
  }

  /** A name ending in `.<level>` does not end in a compression suffix. */
  lemma NotCompressed(u: string, level: string)
    requires IsCategory(level)
    ensures !EndsWith(u + "." + level, ".gz") && !EndsWith(u + "." + level, ".bz2")
  {
    CategoryHasNoSeparator(level);
    var t := u + "." + level;
    var n := |t|;
    if n >= 3 {
      if n - 3 > |u| {
        assert t[n - 3] == level[n - 3 - |u| - 1];
      } else if n - 3 == |u| {
        assert t[n - 2] == level[0];
      } else {
        assert t[n - 2] == '.';
      }
      assert t[n - 3..][0] == t[n - 3] && t[n - 3..][1] == t[n - 2];
    }
    if n >= 4 {
      if n - 4 > |u| {
        assert t[n - 4] == level[n - 4 - |u| - 1];
      } else if n - 4 == |u| {
        assert t[n - 3] == level[0];
      } else if n - 4 == |u| - 1 {
        assert t[n - 3] == '.';
      } else {
        assert t[n - 2] == '.';
      }
      assert t[n - 4..][0] == t[n - 4] && t[n - 4..][1] == t[n - 3] && t[n - 4..][2] == t[n - 2];
    }
  }

  /** The page name `src` derives from a source path (man2qhelp.py:106-116): the base name
      without its compression suffix, then without one more extension. */
  function SourceName(path: string): (r: string)
    ensures '/' !in r
  {
    var base := Basename(path);
    var name := if EndsWith(path, ".bz2") || EndsWith(path, ".gz") then SplitExt(base).0 else base;
    SplitExt(name).0
  }

  /** The page name is a prefix of the base name. */
  lemma SourceNameFromBase(path: string)
    ensures StartsWith(Basename(path), SourceName(path))
  {
    var base := Basename(path);
    var name := if EndsWith(path, ".bz2") || EndsWith(path, ".gz") then SplitExt(base).0 else base;
    SplitExtPrefix(base);
    SplitExtPrefix(name);
    StartsWithTrans(base, name, SplitExt(name).0);
  }

  lemma SourceNameByBasename(path: string, file: string)
    requires Basename(path) == file
    ensures SourceName(path) ==
      SplitExt(if EndsWith(path, ".bz2") || EndsWith(path, ".gz") then SplitExt(file).0 else file).0
  {
  }

  /** A suffix without `/` is a suffix of a path exactly when it is one of the base name. */
  lemma EndsWithInDir(dir: string, file: string, suffix: string)
    requires '/' !in suffix
    ensures EndsWith(dir + "/" + file, suffix) <==> EndsWith(file, suffix)
  {
    var path := dir + "/" + file;
    if |file| < |suffix| <= |path| {
      assert path[|path| - |suffix|..][|suffix| - |file| - 1] == path[|dir|] == '/';
    }
    if |suffix| <= |file| {
      assert path[|path| - |suffix|..] == file[|file| - |suffix|..];
    }
  }

  /** Two paths with the same base name and the same compression suffix name the same page. */
  lemma SourceNameSameBase(p: string, q: string, file: string)
    requires Basename(p) == file && Basename(q) == file
    requires EndsWith(p, ".gz") == EndsWith(q, ".gz") && EndsWith(p, ".bz2") == EndsWith(q, ".bz2")
    ensures SourceName(p) == SourceName(q)
  {
    SourceNameByBasename(p, file);
    SourceNameByBasename(q, file);
  }

  /** The directory part of a source path does not take part in its page name. */
  lemma SourceNameInDir(dir: string, file: string)
    requires '/' !in file
    ensures SourceName(dir + "/" + file) == SourceName(file)
  {
    BasenameAppend(dir, file);
    LastIndexOfIs(file, '/', -1);
    EndsWithInDir(dir, file, ".gz");
    EndsWithInDir(dir, file, ".bz2");
    SourceNameSameBase(dir + "/" + file, file, file);
  }

  /** A compressed source loses its compression suffix and then one more extension. */
  lemma SourceNameCompressed(path: string, file: string)
    requires Basename(path) == file
    requires EndsWith(path, ".gz") || EndsWith(path, ".bz2")
    ensures SourceName(path) == SplitExt(SplitExt(file).0).0
  {
    SourceNameByBasename(path, file);
  }

  /** An uncompressed source loses one extension. */
  lemma SourceNamePlain(path: string, file: string)
    requires Basename(path) == file
    requires !EndsWith(path, ".gz") && !EndsWith(path, ".bz2")
    ensures SourceName(path) == SplitExt(file).0
  {
    SourceNameByBasename(path, file);
  }

  lemma SourceNameOfGzip(plain: string)
    requires '/' !in plain && HasNonDot(plain)
    ensures SourceName(plain + ".gz") == SplitExt(plain).0
  {
    var file := plain + ".gz";
    SplitExtAppend(plain, "gz");
    assert plain + "." + "gz" == file;
    LastIndexOfIs(file, '/', -1);
    assert file[|file| - 3..] == ".gz";
    SourceNameCompressed(file, file);
  }

  lemma SourceNameOfBzip(plain: string)
    requires '/' !in plain && HasNonDot(plain)
    ensures SourceName(plain + ".bz2") == SplitExt(plain).0
  {
    var file := plain + ".bz2";
    SplitExtAppend(plain, "bz2");
    assert plain + "." + "bz2" == file;
    LastIndexOfIs(file, '/', -1);
    assert file[|file| - 4..] == ".bz2";
    SourceNameCompressed(file, file);
  }

  /** A source `stem.<level>`, optionally compressed with `.gz` or `.bz2`, names the page `stem`. */
  lemma {:induction false} SourceNameOfPage(stem: string, level: string)
    requires '/' !in stem && HasNonDot(stem)
    requires IsCategory(level)
    ensures SourceName(stem + "." + level) == stem
    ensures SourceName(stem + "." + level + ".gz") == stem
    ensures SourceName(stem + "." + level + ".bz2") == stem
  {
    CategoryHasNoSeparator(level);
    var plain := stem + "." + level;
    SplitExtAppend(stem, level);
    assert HasNonDot(plain) by {
      var k :| 0 <= k < |stem| && stem[k] != '.';
      assert plain[k] == stem[k];
    }
    LastIndexOfIs(plain, '/', -1);
    NotCompressed(stem, level);
    SourceNamePlain(plain, plain);
    SourceNameOfGzip(plain);
    SourceNameOfBzip(plain);
  }
}
