# man2qhelp in Dafny

`man2qhelp.py` turns the man pages under `/usr/share/man/man<level>` into a Qt Help Project.

For each category (`level`) it does the following:

- It reads every source file with `src`. The file may be plain, `.gz` or `.bz2`.
- It registers one index keyword per page and per `.so` alias.
- It renders stale pages to HTML with `groff`.
- It rewrites the page title to `<title>lower(T) | man<level></title>`.
- It turns every `<b>name</b>(level)` into a link to the other page.
- It deletes the outputs and images that no keyword accounts for.

After all categories, it writes the `.qhp` catalog. The catalog has one `filterSection` per category, holding that category's keywords and two file globs.

The model has one module per part of the program, each in its own file:

| file | module | what it models |
|---|---|---|
| `pystr.dfy` | `PyStr` | The Python primitives the program relies on, restricted to ASCII: `os.path.splitext`, `basename` and `join`, `str.strip`, `str.lower`, `str.replace`, `int()`/`str()` on digits, and the regex character classes `\d`, `\w` and `\s`. |
| `names.dfy` | `Names` | `man_path`, `remove_extensions`, `result_name`, and the page-name computation of `src`. |
| `alias.dfy` | `Alias` | Hand-written matchers for the two `.so` patterns, and `src` itself as a function of the file's presence, its decoded text and `glob.glob`. |
| `title.dfy` | `Title` | `TitleFinder` as a class whose handlers update `inTitle` and `title`. Its state machine `Step`/`Run` is proved equal to a definition without state (`TitleOf`). It also holds `title_tag` and the title rewrite. |
| `links.dfy` | `Links` | The `MAN_LINK` matcher. The scan of `MAN_LINK.sub` is cut into pieces. The substitution is a method with a loop that appends to the output and to the reference list, as `link_replacer` does. |
| `level.dfy` | `Level` | `do_level`. A `Cache` class holds the output directories and the root files. The loop over the listing is proved step by step against the fold `Visits`. The clean-up is proved against `CollectedFiles` and `CollectedImages`. |
| `catalog.dfy` | `Catalog` | `do_levels`. The loop over the categories is proved against the fold `Run`. The `OrderedDict` is a sequence of pairs with unique keys. The catalog is written piece by piece and proved equal to `CatalogText`. |

Times are integers in milliseconds, so the one-second threshold is `Tolerance == 1000`. The file system, the subprocesses and the HTML tokenizer are inputs:

- an `Entry` per listed file: its name, its modification time and its decoded text;
- the `Tools` record, holding `glob`, `groff` (its output, error text, exit status and images written) and `parse` (the events `HTMLParser` reports);
- the cache directory, as the fields of a `Cache` object.

## Model

| member | source | states |
|---|---|---|
| PyStr.Span | man2qhelp.py:122 | A greedy run `p+`/`p*` from `i`: every character it covers satisfies `p`, and the next one does not. |
| PyStr.SpanIs | man2qhelp.py:122 | Any maximal run satisfying `p` is the one `Span` finds. |
| PyStr.LastIndexOf | man2qhelp.py:106 | `rfind`: the index holds the character and no later index does, or -1. |
| PyStr.LastIndexOfIs | man2qhelp.py:106 | The last occurrence is unique: any index with those properties is `LastIndexOf`. |
| PyStr.SplitExt | man2qhelp.py:90 | `splitext` splits the path into root and extension with nothing lost; the extension is empty or starts with a dot. |
| PyStr.SplitExtPrefix | man2qhelp.py:90 | The root is a prefix of the path. |
| PyStr.SplitExtAppend | man2qhelp.py:90 | Appending `.e` to a name without `/` that has a non-dot character makes `.e` its extension. |
| PyStr.SplitExtNoDot | man2qhelp.py:90 | A name without a dot has an empty extension. |
| PyStr.Basename | man2qhelp.py:106 | `basename` is a suffix of the path without `/`. |
| PyStr.BasenameAppend | man2qhelp.py:106 | The base name of `d/y` is `y` when `y` has no `/`. |
| PyStr.JoinPathTail | man2qhelp.py:73 | `os.path.join(a, b)` ends with `b`, which is its base name when `b` has no `/`. |
| PyStr.StripLeft | man2qhelp.py:119 | Drops exactly the leading run of whitespace: a suffix of the input that does not start with a blank, and every character dropped is a blank. |
| PyStr.StripRight | man2qhelp.py:119 | Drops exactly the trailing run of whitespace: a prefix of the input that does not end with a blank, and every character dropped is a blank. |
| PyStr.LowerShape | man2qhelp.py:271 | `lower()` keeps the length, maps each upper-case letter to its lower-case partner, leaves no upper-case letter, and keeps every other character in place. |
| PyStr.ReplaceSelf | man2qhelp.py:271 | Replacing a pattern by itself changes nothing. |
| PyStr.ReplaceAbsent | man2qhelp.py:271 | A text without the pattern is returned unchanged. |
| PyStr.ReplaceFirst | man2qhelp.py:271 | The text before the first occurrence is kept, that occurrence becomes `rep`, and the scan resumes after it, so every occurrence is replaced left to right without overlap. |
| PyStr.ReplaceAt | man2qhelp.py:271 | The same rule, stated on one string where `k` is the first occurrence. |
| PyStr.NatToString | man2qhelp.py:124 | `str(n)` is non-empty, all digits, and has no leading zero. |
| PyStr.DigitsValueOfNatToString | man2qhelp.py:124 | `int(str(n)) == n`. |
| PyStr.NatToStringOfDigitsValue | man2qhelp.py:124 | `str(int(s)) == s` for digits without a leading zero. |
| PyStr.SingleDigit | man2qhelp.py:128 | The single digit of the dotted form reads back as itself. |
| Names.ManPath | man2qhelp.py:70-73 | `IN_PATH % level` without a page; with a relative page, that directory, `/` and the page, whose base name is the page. |
| Names.RemoveExtensions | man2qhelp.py:89-93 | The result is a prefix of the input, and a name whose extension is not in the set is returned unchanged. |
| Names.RemoveExtensionsStops | man2qhelp.py:89-93 | Stripping stops only at a name whose extension is not in the set. |
| Names.RemoveExtensionsIdempotent | man2qhelp.py:89-93 | Stripping twice strips nothing more. |
| Names.RemoveExtensionsPeel | man2qhelp.py:91-92 | Peeling one extension `.e` that is in the set. |
| Names.ResultName | man2qhelp.py:96-98 | The output name has no `/` and ends with `.html`. |
| Names.ResultNameFromBase | man2qhelp.py:96-98 | Without `.html`, the output name is a prefix of the source's base name. |
| Names.CategoryHasNoSeparator | man2qhelp.py:97 | A category such as `3` or `3p` has no `/` and no `.`, so `.<level>` is one extension. |
| Names.StripLevel | man2qhelp.py:97 | `stem.<level>` is stripped back to `stem`. |
| Names.StripLevelAndBzip | man2qhelp.py:97 | `stem.<level>.bz2` is stripped back to `stem`. |
| Names.ResultNameByBasename | man2qhelp.py:97-98 | Only the base name takes part in the output name. |
| Names.ResultNameInDir | man2qhelp.py:97-98 | The directory of a source path does not change its output name. |
| Names.ResultNameOfFile | man2qhelp.py:97-98 | A bare file name renders to its stripped name plus `.html`. |
| Names.ResultNameOfPlain | man2qhelp.py:96-98 | `select.2` in category `2` renders to `select.html`. |
| Names.ResultNameOfBzip | man2qhelp.py:96-98 | `select.2.bz2` in category `2` renders to `select.html`. |
| Names.ResultNameOfSource | man2qhelp.py:96-98 | Both of the above together. |
| Names.NotCompressed | man2qhelp.py:107-113 | A name ending in `.<level>` takes neither compressed branch of `src`. |
| Names.SourceName | man2qhelp.py:106-116 | The page name `src` derives has no `/`. |
| Names.SourceNameFromBase | man2qhelp.py:106-116 | The page name is a prefix of the base name. |
| Names.SourceNameByBasename | man2qhelp.py:106-116 | The page name is `splitext` of the base name, taken twice when the path ends in `.bz2` or `.gz`. |
| Names.EndsWithInDir | man2qhelp.py:107-110 | A suffix without `/` ends a path exactly when it ends its base name, so the compression test reads the file name. |
| Names.SourceNameSameBase | man2qhelp.py:106-116 | Two paths with the same base name and the same compression suffix name the same page. |
| Names.SourceNameInDir | man2qhelp.py:106-116 | The directory does not take part in the page name. |
| Names.SourceNameCompressed | man2qhelp.py:107-116 | A compressed source loses its compression suffix and one more extension. |
| Names.SourceNamePlain | man2qhelp.py:113-116 | An uncompressed source loses one extension. |
| Names.SourceNameOfGzip | man2qhelp.py:110-116 | `x.gz` names the page `splitext(x)[0]`. |
| Names.SourceNameOfBzip | man2qhelp.py:107-116 | `x.bz2` names the page `splitext(x)[0]`. |
| Names.SourceNameOfPage | man2qhelp.py:106-116 | `stem.<level>`, `stem.<level>.gz` and `stem.<level>.bz2` all name the page `stem`. |
| Alias.QualifiedTail | man2qhelp.py:122 | `man(\d+)/([\w_-]+)` at `i`: non-empty digits, a non-empty name, and the line reads `man<d>/<name>` there. |
| Alias.LazySlash | man2qhelp.py:122 | The lazy `(?:.*?/)` stops at a `/` of the line after which the tail matches. |
| Alias.LazySlashNone | man2qhelp.py:122 | When no `/` is followed by the tail, the lazy group fails. |
| Alias.LazySlashFirst | man2qhelp.py:122 | A match of the lazy group is the tail after a `/` reached without crossing a newline, and no earlier `/` on the way is followed by the tail. |
| Alias.LazySlashComplete | man2qhelp.py:122 | When the lazy group fails, no `/` before the first newline is followed by the tail. |
| Alias.QualifiedTailNoSlash | man2qhelp.py:122 | The tail cannot match where no `/` follows. |
| Alias.AfterDirective | man2qhelp.py:122-126 | `\.so\s+`: the line starts with `.so`, followed by a maximal non-empty run of blanks. |
| Alias.AfterDirectiveIs | man2qhelp.py:122-126 | `.so`, blanks, then a body that does not start with a blank: the match resumes exactly at the body. |
| Alias.MatchQualified | man2qhelp.py:122 | Group 1 is non-empty digits and group 2 is a non-empty `[\w_-]+` name. |
| Alias.QualifiedTailIs | man2qhelp.py:122 | `man<d>/<page>` followed by a character that cannot extend the name yields exactly `(d, page)`. |
| Alias.MatchQualifiedBare | man2qhelp.py:122 | Without a directory prefix, the optional group is skipped and the tail matches right after the blanks. |
| Alias.QualifiedDirective | man2qhelp.py:122 | `.so <blanks>man<d>/<page><rest>` yields `(d, page)`. |
| Alias.QualifiedDirectiveInDir | man2qhelp.py:122 | `.so <blanks><dir>/man<d>/<page><rest>` yields `(d, page)` whatever follows, as for `.so ../man2/select.2` and `.so /usr/share/man/man2/select.2`, when no `/` of `dir` is followed by `man<digit>`. |
| Alias.MatchDotted | man2qhelp.py:126 | Group 1 is the text right after `\.so\s+`: a name of `[\w_-]` characters, then `.` and group 2, a single digit. |
| Alias.MatchDottedSound | man2qhelp.py:126 | A dotted match is a `<page>.<d>` present right after the blanks, with exactly those groups; with `MatchDottedIs`, the dotted form matches exactly when that text is there. |
| Alias.MatchDottedIs | man2qhelp.py:126 | `<page>.<d>` right after the blanks yields `(<page>.<d>, d)`. |
| Alias.DottedDirective | man2qhelp.py:122-126 | `.so <blanks><page>.<d><rest>` with no `/` fails the qualified form and matches the dotted one. |
| Alias.AliasPath | man2qhelp.py:122-131 | A path exists exactly when one form matches. The qualified form takes precedence and gives `man_path(int(d), page)`; otherwise the dotted form gives `man_path(int(d), name.d)`. |
| Alias.AliasPathQualified | man2qhelp.py:122-124 | A qualified directive points at `/usr/share/man/man<int(d)>/<page>`. |
| Alias.AliasPathDotted | man2qhelp.py:126-128 | A dotted directive the qualified form misses points at `/usr/share/man/man<int(d)>/<name.d>`. |
| Alias.NoBlankNotUnderstood | man2qhelp.py:122-131 | A directive without a blank after `.so` is not understood. |
| Alias.CandidatePattern | man2qhelp.py:133 | The glob pattern of a directive ends in `.*`. |
| Alias.DottedSourceDirective | man2qhelp.py:118-133 | A source holding `.so <page>.<d>` is a one-line directive whose candidates are globbed with `/usr/share/man/man<d>/<page>.<d>.*`. |
| Alias.Src | man2qhelp.py:101-146 | A missing file is skipped. A page is exactly a present file not starting with `.so `, and keeps its text. An alias is exactly a one-line directive that is understood and has one candidate, which it carries. Pages and aliases carry the page name. |
| Alias.DottedAliasScenario | man2qhelp.py:118-144 | One candidate gives an alias of it; zero or several candidates skip the file. |
| Title.TitleFinder.constructor | man2qhelp.py:150-153 | A new finder is outside a title with an empty title. |
| Title.TitleFinder.HandleStartTag | man2qhelp.py:162-168 | A `title` start tag opens the element only when none is open and no title has been collected. The title is unchanged. |
| Title.TitleFinder.HandleEndTag | man2qhelp.py:170-173 | A `title` end tag closes an open element; the title is unchanged. |
| Title.TitleFinder.HandleData | man2qhelp.py:175-178 | Data is appended to the title exactly while the element is open. |
| Title.TitleFinder.Feed | man2qhelp.py:149-178 | Feeding events leaves the finder in the state `Run` gives. |
| Title.FindTitle | man2qhelp.py:267-268 | A fresh finder fed a page's events yields `TitleOf` them. |
| Title.FirstIndex | man2qhelp.py:162-173 | The first position holding an event, or none when no position holds it. |
| Title.RunFrozen | man2qhelp.py:162-168 | Once a non-empty title is collected and the element is closed, no event changes the finder. |
| Title.RunInsideOpen | man2qhelp.py:175-178 | Inside an open element with no end tag to come, all data accumulates. |
| Title.RunInsideClosed | man2qhelp.py:170-178 | Inside an open element, data accumulates up to the first `title` end tag, which closes it. |
| Title.RunIdle | man2qhelp.py:162-168 | Before the first `title` start tag nothing happens; from it on the element is open. |
| Title.TitleOfRun | man2qhelp.py:149-178 | The state machine's title equals `TitleOf`: the data between the first `title` start tag and the next end tag. When that is empty, the same rule applies to what follows. |
| Title.TitleFromRun | man2qhelp.py:162-178 | The same agreement from an opening tag on. |
| Title.TitleTag | man2qhelp.py:181-182 | `title_tag` puts `text` between the two tags, which add 15 characters. |
| Title.TitleTagShape | man2qhelp.py:181-182 | It opens with `<title>` and closes with `</title>`. |
| Title.DisplayTitleShape | man2qhelp.py:271 | The new title starts with the lower-cased title, has no upper-case letter there, and ends with ` \| man<level>`. |
| Title.RewriteTitleAbsent | man2qhelp.py:271 | A page without the title tag is left as it is. |
| Title.RewriteTitleFirst | man2qhelp.py:271 | The first tag occurrence becomes the new tag and the rest is rewritten the same way, so all occurrences are replaced. |
| Title.RewriteTitleSingle | man2qhelp.py:271 | On a page with one title tag, only that tag changes. |
| Links.LinkText | man2qhelp.py:21 | The matched text holds the name right after `<b>` and the level right after `</b>(`, 9 characters of markup in all. |
| Links.NameEnd | man2qhelp.py:21 | `<b>`, a greedy `\w+`, then `</b>(`. |
| Links.LevelEnd | man2qhelp.py:21 | A greedy `\d+`, an optional `p`, then `)`. |
| Links.MatchLink | man2qhelp.py:21 | A match covers exactly `LinkText(name, level)` from `i`, with well-formed groups. |
| Links.MatchLinkComplete | man2qhelp.py:21 | Conversely, every well-formed `LinkText` is matched where it starts, with those groups and that end. |
| Links.Anchor | man2qhelp.py:202 | The replacement is `<a href="../html.L/N.html">`, the matched text, then `</a>`. |
| Links.NextPiece | man2qhelp.py:274 | One scan step covers the text of the piece it returns and advances; a match piece is well formed. |
| Links.PlainStartsNoLink | man2qhelp.py:274 | A character the scan copies unchanged starts no well-formed `<b>name</b>(level)` text. |
| Links.PiecesCover | man2qhelp.py:274 | The pieces put back together are the page, so text between matches is unchanged. |
| Links.PiecesWellFormed | man2qhelp.py:274 | Every match the scan takes is a well-formed `MAN_LINK` text. |
| Links.NoRefsUnchanged | man2qhelp.py:274 | A page without matches is left unchanged. |
| Links.RenderLength | man2qhelp.py:274 | Substitution only adds the anchor markup of each match. |
| Links.SingleReference | man2qhelp.py:197-203 | A page that is one cross-reference becomes one anchor and records one `(level, name)` pair. |
| Links.Emit | man2qhelp.py:199-202 | For one piece, the output grows by its rendering and the list by its pair. |
| Links.LinkCrossReferences | man2qhelp.py:197-203 | The loop yields the rendered pieces of the whole page and the pairs, one per match, in order. |
| Level.Target | man2qhelp.py:239-240 | The target's base name is the output name. |
| Level.ConvertEffect | man2qhelp.py:256-280 | One rendering never changes the keywords and keeps the images `groff` wrote. It sets the error flag exactly when `groff` fails. Only on success does it write the output, with the rewritten page and the source's time, and append the page's references. |
| Level.Listing | man2qhelp.py:223-227 | One read source per listed file. |
| Level.ListingAt | man2qhelp.py:223-227 | Position `i` holds `src` of the `i`-th file. |
| Level.Registered | man2qhelp.py:232-243 | A skipped file registers nothing; any other source registers exactly one keyword. An alias's keyword points at the candidate's output. A page's keyword is non-alias, with the page's name and its output name. |
| Level.KeywordsOf | man2qhelp.py:223-243 | At most one keyword per listed file. |
| Level.VisitSourceStep | man2qhelp.py:227-265 | A file's keyword is registered whatever the output directory holds. The error flag is set after the visit exactly when it was set before or the file is a page that is not up to date and whose `groff` run fails; references are only appended. |
| Level.VisitsSummary | man2qhelp.py:223-280 | Over the walk, the keywords are exactly those of the listing. `has_errors` is never reset and is set only when some page's `groff` run fails; with `force`, it is set exactly when it was set before or some page's `groff` run fails. Cross-references are only appended. |
| Level.VisitSourceAgain | man2qhelp.py:245-248 | Without `force`, a second visit of the same file leaves the state as the first visit left it, except that the keyword is registered once more. |
| Level.VisitPageAgain | man2qhelp.py:245-280 | The page case of the above: the output just written carries the source time, so it is up to date. |
| Level.ImageKeywordFrom | man2qhelp.py:22 | The lazy `.+?` from length `k`: it returns the first length after which the tail pattern matches without crossing a newline, or none. |
| Level.ImageKeywordFromIs | man2qhelp.py:22 | Any first such length is what the search finds. |
| Level.ImageKeyword | man2qhelp.py:294-296 | `group("keyword")`: the shortest non-empty prefix without a newline that `-\d+\.\w` follows. |
| Level.ImageKeywordOfPage | man2qhelp.py:292-298 | The images `groff` writes for page `name` give back `name` when the name holds no `-<digits>.<word>` of its own, so they are kept while the page is registered. |
| Level.VersionedPageLosesImages | man2qhelp.py:292-298 | For a page `<stem>-<v>.<w>` such as `foo-2.0`, the keyword of its images is `stem`, so they are deleted unless a page `stem` is registered. |
| Level.CollectedFiles | man2qhelp.py:285-290 | An output stays exactly when it is the base name of a non-alias keyword target, and it stays unchanged. |
| Level.CollectedImages | man2qhelp.py:292-301 | An image stays exactly when its pattern keyword is a registered page name. |
| Level.CollectedIdempotent | man2qhelp.py:285-301 | A second clean-up deletes nothing. |
| Level.CollectedFilesAsWritten | man2qhelp.py:286-287 | As written, an output stays exactly when a keyword names it or the working directory has no file of that name. |
| Level.CollectedFilesAsWrittenKeepsStale | man2qhelp.py:287 | A stale output survives the as-written clean-up but not the intended one. |
| Level.CollectedFilesAsWrittenAgrees | man2qhelp.py:285-290 | The two clean-ups agree exactly when every stale output also names a file of the working directory. |
| Level.AliasTargetIsPageTarget | man2qhelp.py:232-240 | For a candidate in the alias's own category, the alias keyword points at the output the candidate's own page writes, compressed or not. |
| Level.AliasTargetAsWrittenGzip | man2qhelp.py:233 | As written, an alias of `stem.<level>.gz` points at `stem.<level>.gz.html` while the page is written to `stem.html`. |
| Level.AliasTargetsInDir | man2qhelp.py:233 | Both alias targets for a candidate `dir/file`; they differ whenever the page name is shorter than the file name. |
| Level.ResultNameGzip | man2qhelp.py:96-98 | `result_name` keeps `.gz`, and so strips nothing before it. |
| Level.StemResultName | man2qhelp.py:96-98 | A page name without an extension of the category renders to `name.html`. |
| Level.LevelOutcomeSummary | man2qhelp.py:206-303 | After `do_level`, the keywords are those of the listing. The error flag is set only when some page's `groff` run fails, and with `force` exactly then. Every remaining output is named by a keyword, and every remaining image belongs to a registered page. |
| Level.VisitFiles | man2qhelp.py:245-280 | A pass changes the output directory's files at most at the visited page's output, written with the source's time; a page whose `groff` does not fail leaves its output up to date. |
| Level.VisitsFresh | man2qhelp.py:223-280 | After the walk, every page's output is up to date, when no page fails and no two pages write the same output. |
| Level.CollectedKeepsPages | man2qhelp.py:285-290 | The clean-up keeps every listed page's output, since the page's keyword names it. |
| Level.VisitsIdle | man2qhelp.py:245-248 | Without `force`, a walk over up-to-date outputs renders nothing: the directory, the flag and the cross-references stay. |
| Level.LevelOutcomeAgain | man2qhelp.py:206-303 | A second `do_level` without `force` and with no source changed, when no page fails and no two pages share an output: every page is up to date at its visit, so `groff` is never called; the keywords are the same, no cross-reference is found, the flag is clear, and the output directory is left exactly as the first run left it. |
| Level.SharedOutputStale | man2qhelp.py:245-265 | Two pages writing the same output with times a second or more apart, visited in turn from a directory without that output, are both rendered, and the output left is stale for the first. |
| Level.Cache.constructor | man2qhelp.py:211 | The cache holds the directories and root files given. |
| Level.Cache.MakeDirs | man2qhelp.py:211-216 | The category's directory is created empty when missing and kept otherwise. |
| Level.Cache.AddImages | man2qhelp.py:252-257 | The images `groff` writes join the category's `images`. |
| Level.Cache.WriteOutput | man2qhelp.py:276-280 | The output is written with its modification time; nothing else changes. |
| Level.Cache.RemoveOutput | man2qhelp.py:288-290 | The output is removed; nothing else changes. |
| Level.Cache.RemoveImage | man2qhelp.py:299-301 | The image is removed; nothing else changes. |
| Level.Cache.WriteText | man2qhelp.py:320-321 | The root file holds the text. |
| Level.Cache.AppendText | man2qhelp.py:322-331 | The root file grows by the text. |
| Level.VisitUnrendered | man2qhelp.py:228-237 | A skipped file or an alias changes only the keyword list, as `VisitSource` says. |
| Level.RenderPage | man2qhelp.py:252-280 | A rendering on the cache does what `Convert` says, and changes only the category's directory. |
| Level.VisitPageEntry | man2qhelp.py:239-280 | A page on the cache does what `VisitPage` says. |
| Level.VisitSourceEntry | man2qhelp.py:227-280 | One read source on the cache does what `VisitSource` says. |
| Level.VisitEntry | man2qhelp.py:223-280 | One loop pass takes the state after the files before `i` to the state after file `i`. |
| Level.WalkListing | man2qhelp.py:223-280 | The loop ends in the state the fold `Visits` gives over the whole listing. |
| Level.CollectOutputs | man2qhelp.py:285-290 | The deletion loop leaves exactly `CollectedFiles`. |
| Level.CollectImages | man2qhelp.py:292-301 | The deletion loop leaves exactly `CollectedImages`. |
| Level.Collect | man2qhelp.py:285-301 | The directory after clean-up is `Collected`. |
| Level.DoLevel | man2qhelp.py:206-303 | The result and the category's directory are those of `LevelOutcome`; nothing else in the cache changes. |
| Catalog.Header | man2qhelp.py:321 | The namespace is inserted verbatim between the fixed parts. |
| Catalog.SectionOpen | man2qhelp.py:323 | The filter attribute is `man<level>`, inserted verbatim. |
| Catalog.KeywordLine | man2qhelp.py:325 | Name and target appear verbatim, without escaping, at their places. |
| Catalog.LevelsOf | man2qhelp.py:322 | The keys of the dictionary, in order. |
| Catalog.IndexOfLevel | man2qhelp.py:314 | The position of a key, and none exactly when the key is absent. |
| Catalog.Assign | man2qhelp.py:314 | `kws[level] = keywords`: keys stay unique. A present key keeps its place and a new key goes last; only that key's value changes. |
| Catalog.Distinct | man2qhelp.py:310-314 | Each category of `sources` appears once, and nothing else appears. |
| Catalog.First | man2qhelp.py:310-314 | The first position of a category in `sources`. |
| Catalog.DistinctOrder | man2qhelp.py:310-314 | The categories are in the order of their first occurrence. |
| Catalog.Step | man2qhelp.py:310-316 | One iteration keeps the dictionary's keys unique. |
| Catalog.Run | man2qhelp.py:310-316 | The whole loop keeps the keys unique. |
| Catalog.StepCatalog | man2qhelp.py:312-314 | One category's keywords go into the dictionary whatever the cache held before. |
| Catalog.StepErrors | man2qhelp.py:316 | `has_errors \|= errors` for one category: the new flag is the old flag or the category's own. It is set only when a page of the category fails, and with `force` exactly then. |
| Catalog.RunCatalog | man2qhelp.py:307-314 | The dictionary lists each category of `sources` once, in first-occurrence order, with the keywords of its listing. |
| Catalog.RunErrors | man2qhelp.py:309-316 | The run's flag is never reset and is set only when some category has a failing page; with `force`, it is set exactly when it was set before or some category has a failing page. |
| Catalog.KeywordLinesAppend | man2qhelp.py:324-325 | The keyword lines of two lists are concatenated. |
| Catalog.SectionsTextAppend | man2qhelp.py:322-329 | The sections of two dictionaries are concatenated. |
| Catalog.KeywordLinesAt | man2qhelp.py:324-325 | Every keyword has its line, in registration order. |
| Catalog.CatalogSectionAt | man2qhelp.py:320-331 | Every category has its section, in dictionary order, between the header and the closing tag. |
| Catalog.WriteSection | man2qhelp.py:323-329 | One `filterSection` is appended: its opening, its keyword lines, the two file globs and its close. |
| Catalog.WriteSections | man2qhelp.py:322-329 | The sections of every category are appended in dictionary order. |
| Catalog.WriteCatalog | man2qhelp.py:319-331 | The catalog file holds exactly `CatalogText`. |
| Catalog.VisitLevel | man2qhelp.py:310-316 | One loop pass does what `Step` says. |
| Catalog.DoLevels | man2qhelp.py:306-336 | The flag and directories are those of `Run` over `sources`. The catalog is written whatever the flag says, and no other root file changes. |

## Left out

- Subprocesses are not modelled. `bunzip2` and `gunzip` (man2qhelp.py:76-81) are replaced by the decoded text an `Entry` carries. `groff` is the `Tools.groff` parameter, which returns stdout, stderr, the exit status and the images written.
- The file system is given as values. `os.listdir` is the `entries` parameter. `os.path.exists` on a listed file is always true. `getmtime` is the `Entry` and `OutFile` time fields. The cache is the `Cache` object.
- Directory-creation details are not modelled. `os.mkdir` of `html.<level>` and `images` creates an empty directory, and its failure modes are not modelled.
- `os.chdir`/`os.getcwd` (man2qhelp.py:219-221, 283) are not modelled. Output names are resolved in the category's directory, which is what the `chdir` achieves. The working directory is visible only in `CollectedFilesAsWritten`, as the set of file names it holds.
- Times are integer milliseconds, not floats. The strict test `abs(out - src) < 1.0` is `-1000 < out - src < 1000`.
- The HTML tokenizer of `HTMLParser` is the `Tools.parse` parameter, an event sequence. `super()` handler calls and `error` do nothing observable.
- Only ASCII is covered. `\w`, `\s`, `str.isspace` and `str.lower` recognise ASCII characters only. Every `Entry` carries text that is already decoded.
- Exceptions that end the whole run are not modelled. A plain page is read with `open(path, "r")` (man2qhelp.py:84-86), which decodes strictly, so an undecodable page raises `UnicodeDecodeError`. A failing `bunzip2` or `gunzip` raises `CalledProcessError` through `check_output` (man2qhelp.py:76-81); only those two branches decode with `errors="replace"`. Either exception escapes `do_level` and `do_levels`, so no catalog is written (man2qhelp.py:319). The model has no such aborted run: `Entry.data` always supplies the text.
- `glob.glob` is the `Tools.glob` parameter. Its order and its pattern semantics are not modelled.
- Printing is not modelled. `options.print`, `print` and the closing messages of `do_levels` (man2qhelp.py:332-336) are left out. The returned error flag is what selects the message.
- `do_levels` gathers the cross-references but never uses them afterwards. The model keeps them in `RunState.refs` and proves nothing further about them.
- `check_system`, `which`, argument parsing and `main` are not part of this model.
- `Alias.Src` on a directive that spans several lines after `strip()` returns `Skipped(MultiLine)`. In the source, `src` falls off its end and returns `None`, so the model gives the same outcome under a name.
- Level.Registered: the alias target is the corrected `AliasTarget` (the candidate's page name), not `result_name(alias, level)` of the candidate path as at man2qhelp.py:233; `VisitSource`, `DoLevel` and `DoLevels` all use it, and the as-written target is kept only as `AliasTargetAsWritten` (see Findings).
- AliasTargetIsPageTarget: holds only for a candidate in the alias's own category. Like the source, `AliasTarget` always lies in `html.<level>` of the alias's category, so `.so man8/foo.8` read under `man1` points at `html.1/foo.html` while `foo` is written to `html.8/foo.html`; the model does not redirect it.
- Level.ImageKeywordOfPage: needs the page name to hold no `-<digits>.<word>` of its own. For a versioned page such as `foo-2.0`, the lazy `(?P<keyword>.+?)` of `IMAGE_NAME_RE` stops at `foo`, so `foo-2.0-1.png` is deleted while `foo-2.0` is registered (`Level.VersionedPageLosesImages`); the model keeps the source's behaviour.
- Level.LevelOutcomeAgain: needs the listed pages to write distinct outputs. `select.2` and `select.2.gz` listed together both write `select.html`; with times a second or more apart, each run renders both, since the output is stale for whichever came first (`Level.SharedOutputStale`). It also needs no page to fail, since a failed page writes nothing and is rendered again on every run.
- Both clean-up loops in the model delete exactly the names the corrected selection drops. The as-written output deletion is modelled only as the set it selects (`CollectedFilesAsWritten`), not as a second loop.

## Findings

| source | as written | input that shows it | evidently intended | confidence | as-written member | corrected member |
|---|---|---|---|---|---|---|
| man2qhelp.py:287 | `os.path.isfile(file)` runs after man2qhelp.py:283 restores the working directory. A name from `os.listdir(out_dir)` is therefore looked up in the working directory, not in `out_dir`. | A stale output `old.html` in `html.1` when the working directory has no `old.html`: it is kept. A file of that name in the working directory lets the deletion proceed. | Delete every file of `out_dir` that no keyword names (`os.path.isfile(os.path.join(out_dir, file))`). | not executed | Level.CollectedFilesAsWrittenKeepsStale | Level.CollectedFiles |
| man2qhelp.py:233 | The alias target is `result_name(alias, level)` of the candidate path. `result_name` strips only `.bz2` and `.<level>`, so a `gzip`ped candidate keeps `.gz`. | `.so man2/select.2` with candidate `/usr/share/man/man2/select.2.gz`. The keyword points at `html.2/select.2.gz.html`, but that page's own pass writes `html.2/select.html`. | Point at the output the candidate's page writes: `result_name` of the candidate's page name, as for a page. The directory stays `html.<level>` of the alias's category, so a candidate of another category (`.so man8/foo.8` under `man1`) still points at `html.1/foo.html`, while `foo` is written to `html.8`. | not executed | Level.AliasTargetAsWrittenGzip | Level.AliasTargetIsPageTarget |
