/** The page title: `TitleFinder` collects the text of the first non-empty `title` element
    from the parser's events, and the rendered page's title tag is then rewritten. */
module Title {
  import opened PyStr

  /** What the HTML parser reports, in document order. */
  datatype Event = StartTag(tag: string) | EndTag(tag: string) | Data(text: string)

  /** The two fields of a `TitleFinder`. */
  datatype Finder = Finder(inTitle: bool, title: string)

  const Idle := Finder(false, [])

  /** One handler call (man2qhelp.py:162-178): a `title` start tag opens the element unless
      one is open or a title has been collected; a `title` end tag closes an open one; data
      inside an open element is appended. */
  function Step(f: Finder, e: Event): Finder
  {
    match e
    case StartTag(tag) => if tag == "title" && !f.inTitle && f.title == [] then Finder(true, f.title) else f
    case EndTag(tag) => if tag == "title" && f.inTitle then Finder(false, f.title) else f
    case Data(text) => if f.inTitle then Finder(true, f.title + text) else f
  }

  /** Feeding a sequence of events, first to last. */
  function Run(f: Finder, events: seq<Event>): Finder
    decreases |events|
  {
    if events == [] then f else Run(Step(f, events[0]), events[1..])
  }

  /** The first position holding `e`. */
  function FirstIndex(events: seq<Event>, e: Event): (r: Option<nat>)
    ensures r.Some? ==> r.value < |events| && events[r.value] == e
    ensures r.Some? ==> forall k :: 0 <= k < r.value ==> events[k] != e
    ensures r.None? ==> forall k :: 0 <= k < |events| ==> events[k] != e
    decreases |events|
  {
    if events == [] then None
    else if events[0] == e then Some(0)
    else match FirstIndex(events[1..], e)
      case None => None
      case Some(i) => Some(i + 1)
  }

  /** The text of the data events, concatenated. */
  function DataText(events: seq<Event>): string
    decreases |events|
  {
    if events == [] then []
    else (if events[0].Data? then events[0].text else []) + DataText(events[1..])
  }

  /** The title, stated without the state machine: the data between the first `title` start
      tag and the next `title` end tag (or the end of the input); when that text is empty, the
      same rule applied to what follows the end tag. */
  function TitleOf(events: seq<Event>): string
    decreases |events|, 1
  {
    match FirstIndex(events, StartTag("title"))
    case None => []
    case Some(i) => TitleFrom(events[i + 1..])
  }

  /** The title read from the events that follow an opening `title` tag. */
  function TitleFrom(inside: seq<Event>): string
    decreases |inside|, 0
  {
    match FirstIndex(inside, EndTag("title"))
    case None => DataText(inside)
    case Some(j) =>
      var text := DataText(inside[..j]);
      if text == [] then TitleOf(inside[j + 1..]) else text
  }

  /** `TitleFinder`: its two fields change one event at a time. */
  class TitleFinder {
    var inTitle: bool
    var title: string

    function State(): Finder
      reads this
    {
      Finder(inTitle, title)
    }

    constructor()
      ensures State() == Idle
    {
      inTitle := false;
      title := [];
    }

    /** `handle_starttag`: a second `title` after a collected one is ignored (with a warning
        in the source). */
    method HandleStartTag(tag: string)
      modifies this
      ensures inTitle == (old(inTitle) || (tag == "title" && old(title) == []))
      ensures title == old(title)
    {
      if tag == "title" && !inTitle {
        if |title| == 0 {
          inTitle := true;
        }
      }
    }

    /** `handle_endtag`. */
    method HandleEndTag(tag: string)
      modifies this
      ensures inTitle == (old(inTitle) && tag != "title")
      ensures title == old(title)
    {
      if tag == "title" && inTitle {
        inTitle := false;
      }
    }

    /** `handle_data`. */
    method HandleData(data: string)
      modifies this
      ensures inTitle == old(inTitle)
      ensures title == if old(inTitle) then old(title) + data else old(title)
    {
      if inTitle {
        title := title + data;
      }
    }

    /** `feed`: every event goes to its handler, in order. */
    method Feed(events: seq<Event>)
      modifies this
      ensures State() == Run(old(State()), events)
    {
      for i := 0 to |events|
        invariant Run(State(), events[i..]) == Run(old(State()), events)
      {
        assert events[i..][1..] == events[i + 1..];
        match events[i]
        case StartTag(tag) => HandleStartTag(tag);
        case EndTag(tag) => HandleEndTag(tag);
        case Data(text) => HandleData(text);
      }
    }
  }

  /** A fresh finder fed the page's events yields `TitleOf` them (man2qhelp.py:267-268). */
  method FindTitle(events: seq<Event>) returns (title: string)
    ensures title == TitleOf(events)
  {
    var finder := new TitleFinder();
    finder.Feed(events);
    title := finder.title;
    TitleOfRun(events);
  }

  /** Once a non-empty title is collected and the element closed, nothing changes it. */
  lemma {:induction false} RunFrozen(t: string, events: seq<Event>)
    requires t != []
    ensures Run(Finder(false, t), events) == Finder(false, t)
    decreases |events|
  {
    if events != [] {
      RunFrozen(t, events[1..]);
    }
  }

  /** Inside an open element with no `title` end tag to come, data accumulates to the end. */
  lemma {:induction false} RunInsideOpen(t: string, events: seq<Event>)
    requires FirstIndex(events, EndTag("title")).None?
    ensures Run(Finder(true, t), events) == Finder(true, t + DataText(events))
    decreases |events|
  {
    if events == [] {
      assert t + [] == t;
    } else {
      var add := if events[0].Data? then events[0].text else [];
      assert Step(Finder(true, t), events[0]) == Finder(true, t + add);
      RunInsideOpen(t + add, events[1..]);
      assert t + add + DataText(events[1..]) == t + DataText(events);
    }
  }

  /** Inside an open element, data accumulates up to the first `title` end tag, which closes
      the element. */
  lemma {:induction false} RunInsideClosed(t: string, events: seq<Event>, j: nat)
    requires FirstIndex(events, EndTag("title")) == Some(j)
    ensures Run(Finder(true, t), events) == Run(Finder(false, t + DataText(events[..j])), events[j + 1..])
    decreases |events|
  {
    if j == 0 {
      assert DataText(events[..0]) == [];
      assert t + [] == t;
    } else {
      var add := if events[0].Data? then events[0].text else [];
      assert Step(Finder(true, t), events[0]) == Finder(true, t + add);
      RunInsideClosed(t + add, events[1..], j - 1);
      DataTextPrefix(t, events, j - 1);
    }
  }

  /** The data before position `j + 1` is the first event's and then the data of the rest
      before position `j`. */
  lemma DataTextPrefix(t: string, events: seq<Event>, j: nat)
    requires j < |events| - 1
    ensures t + (if events[0].Data? then events[0].text else []) + DataText(events[1..][..j]) == t + DataText(events[..j + 1])
    ensures events[1..][j + 1..] == events[j + 2..]
  {
    assert events[..j + 1][1..] == events[1..][..j];
  }

  /** Before any `title` start tag, an empty idle finder stays so. */
  lemma {:induction false} RunIdle(events: seq<Event>)
    ensures FirstIndex(events, StartTag("title")).None? ==> Run(Idle, events) == Idle
    ensures FirstIndex(events, StartTag("title")).Some? ==>
              Run(Idle, events) == Run(Finder(true, []), events[FirstIndex(events, StartTag("title")).value + 1..])
    decreases |events|
  {
    if events != [] && events[0] != StartTag("title") {
      assert Step(Idle, events[0]) == Idle;
      RunIdle(events[1..]);
      match FirstIndex(events[1..], StartTag("title"))
      case None =>
      case Some(i) => assert events[1..][i + 1..] == events[i + 2..];
    }
  }

  /** The state machine and the reference definition agree. */
  lemma {:induction false} TitleOfRun(events: seq<Event>)
    ensures Run(Idle, events).title == TitleOf(events)
    decreases |events|, 1
  {
    RunIdle(events);
    match FirstIndex(events, StartTag("title"))
    case None =>
    case Some(i) => TitleFromRun(events[i + 1..]);
  }

  /** ... and so they do from an opening `title` tag on. */
  lemma {:induction false} TitleFromRun(inside: seq<Event>)
    ensures Run(Finder(true, []), inside).title == TitleFrom(inside)
    decreases |inside|, 0
  {
    match FirstIndex(inside, EndTag("title"))
    case None =>
      RunInsideOpen([], inside);
      assert [] + DataText(inside) == DataText(inside);
    case Some(j) =>
      RunInsideClosed([], inside, j);
      var text := DataText(inside[..j]);
      assert [] + text == text;
      if text == [] {
        TitleOfRun(inside[j + 1..]);
      } else {
        RunFrozen(text, inside[j + 1..]);
      }
  }

  /** `title_tag(text)`. */
  function TitleTag(text: string): (r: string)
    ensures |r| == |text| + 15
    ensures r[7..|r| - 8] == text
  {
    "<title>" + text + "</title>"
  }

  /** The tag opens with `<title>` and closes with `</title>`. */
  lemma TitleTagShape(text: string)
    ensures StartsWith(TitleTag(text), "<title>") && EndsWith(TitleTag(text), "</title>")
  {
  }

  /** The title shown for a page of a category: the title lower-cased, then ` | man<level>`. */
  function DisplayTitle(title: string, level: string): string
  {
    Lower(title) + " | man" + level
  }

  /** The shown title starts with the lower-cased title, has no upper-case letter there, and
      ends with ` | man<level>`. */
  lemma DisplayTitleShape(title: string, level: string)
    ensures var r := DisplayTitle(title, level);
            |r| == |title| + 6 + |level| &&
            r[..|title|] == Lower(title) &&
            (forall k :: 0 <= k < |title| ==> !('A' <= r[k] <= 'Z')) &&
            EndsWith(r, " | man" + level)
  {
    LowerShape(title);
    var r := DisplayTitle(title, level);
    assert r[|r| - |" | man" + level|..] == " | man" + level;
  }

  /** man2qhelp.py:271: every occurrence of the title tag is replaced. */
  function RewriteTitle(html: string, title: string, level: string): string
  {
    Replace(html, TitleTag(title), TitleTag(DisplayTitle(title, level)))
  }

  /** A page without the title tag is left as it is. */
  lemma RewriteTitleAbsent(html: string, title: string, level: string)
    requires !Contains(html, TitleTag(title))
    ensures RewriteTitle(html, title, level) == html
  {
    ReplaceAbsent(html, TitleTag(title), TitleTag(DisplayTitle(title, level)));
  }

  /** The first occurrence becomes the new tag and the rest of the page is rewritten the same
      way: so every occurrence is replaced, left to right. */
  lemma RewriteTitleFirst(before: string, title: string, after: string, level: string)
    requires forall i :: 0 <= i < |before| ==> !OccursAt(before + TitleTag(title) + after, TitleTag(title), i)
    ensures RewriteTitle(before + TitleTag(title) + after, title, level) ==
            before + TitleTag(DisplayTitle(title, level)) + RewriteTitle(after, title, level)
  {
    ReplaceFirst(before, TitleTag(title), after, TitleTag(DisplayTitle(title, level)));
  }

  /** The usual page: one title tag, nowhere else. */
  lemma RewriteTitleSingle(before: string, title: string, after: string, level: string)
    requires forall i :: 0 <= i < |before| ==> !OccursAt(before + TitleTag(title) + after, TitleTag(title), i)
    requires !Contains(after, TitleTag(title))
    ensures RewriteTitle(before + TitleTag(title) + after, title, level) ==
            before + "<title>" + DisplayTitle(title, level) + "</title>" + after
  {
    RewriteTitleFirst(before, title, after, level);
    RewriteTitleAbsent(after, title, level);
  }
}
