/**
 * The RSS reader's `parseXml` loop over pull-parser events, and the item
 * builder it fills. The XML tokeniser is not modelled: a document is the
 * sequence of events the pull parser would deliver.
 */
module RssParser {
  import opened Options
  import opened Text
  import opened Html

  /** One pull-parser event; `TextEvent` carries `parser.text`, which may be null. */
  datatype XmlEvent =
    | StartTag(name: string)
    | TextEvent(text: Option<string>)
    | EndTag(name: string)
    | OtherEvent
    | EndDocument
    | ParseError

  /** The parsed item; `source` defaults to the feed label. */
  datatype RssItem = RssItem(
    title: string,
    description: string,
    link: Option<string>,
    pubDate: Option<int>,
    source: string)

  const FeedSource := "RSS Feed"

  /** The fields collected so far for the item being read. */
  datatype ItemBuilder = ItemBuilder(
    title: string,
    description: string,
    link: Option<string>,
    pubDate: Option<int>)

  const EmptyBuilder := ItemBuilder("", "", None, None)

  /**
   * `RssItemBuilder.build`: an item needs both a title and a description;
   * a missing date is replaced by the time of building.
   */
  function Build(b: ItemBuilder, now: int): (r: Option<RssItem>)
    ensures r.Some? <==> b.title != [] && b.description != []
    ensures r.Some? ==> r.value.title == b.title && r.value.description == b.description
    ensures r.Some? ==> r.value.link == b.link && r.value.source == FeedSource
    ensures r.Some? ==> r.value.pubDate.Some?
    ensures r.Some? && b.pubDate.Some? ==> r.value.pubDate == b.pubDate
    ensures r.Some? && b.pubDate.None? ==> r.value.pubDate == Some(now)
  {
    if b.title != [] && b.description != [] then
      Some(RssItem(b.title, b.description, b.link, Some(b.pubDate.GetOr(now)), FeedSource))
    else None
  }

  /**
   * Stores one trimmed, non-empty text under the current tag: title and
   * description are cleaned, the link is kept as it is, the date is parsed
   * (and an unparseable date clears an earlier one). Other tags are ignored.
   */
  function Record(b: ItemBuilder, tag: string, text: string, parseDate: string -> Option<int>): ItemBuilder {
    if tag == "title" then b.(title := CleanHtml(text))
    else if tag == "description" then b.(description := CleanHtml(text))
    else if tag == "link" then b.(link := Some(text))
    else if tag == "pubdate" then b.(pubDate := parseDate(text))
    else b
  }

  /** The loop's local state: collected items, the open item, the current tag. */
  datatype ParserState = ParserState(items: seq<RssItem>, current: Option<ItemBuilder>, currentTag: string)

  const InitialState := ParserState([], None, "")

  /** One iteration of the event loop, for an event other than the end of the document. */
  function Step(st: ParserState, ev: XmlEvent, parseDate: string -> Option<int>, now: int): ParserState {
    match ev
    case StartTag(name) =>
      var tag := Lower(name);
      st.(currentTag := tag, current := if tag == "item" then Some(EmptyBuilder) else st.current)
    case TextEvent(t) =>
      if st.current.None? then st
      else
        var text := Trim(t.GetOr(""));
        if text == [] then st
        else st.(current := Some(Record(st.current.value, st.currentTag, text, parseDate)))
    case EndTag(name) =>
      if Lower(name) == "item" then
        var built := if st.current.Some? then Build(st.current.value, now) else None;
        ParserState(st.items + (if built.Some? then [built.value] else []), None, "")
      else st.(currentTag := "")
    case _ => st
  }

  /** The end of the document, or a parse failure, which the loop's handler absorbs. */
  predicate IsStop(ev: XmlEvent) {
    ev.EndDocument? || ev.ParseError?
  }

  /** Runs the loop until the document ends, a parse error occurs or the events run out. */
  function Run(st: ParserState, events: seq<XmlEvent>, parseDate: string -> Option<int>, now: int): ParserState
    decreases |events|
  {
    if events == [] || IsStop(events[0]) then st
    else Run(Step(st, events[0], parseDate, now), events[1..], parseDate, now)
  }

  /** `parseXml`: the items collected, including those read before a parse error. */
  function ParseXml(events: seq<XmlEvent>, parseDate: string -> Option<int>, now: int): seq<RssItem> {
    Run(InitialState, events, parseDate, now).items
  }

  // ---------------------------------------------------------------------
  // Shape of the loop
  // ---------------------------------------------------------------------

  /** The events that close an item, whatever the case of the tag name. */
  function ItemEnds(events: seq<XmlEvent>): (n: nat)
    ensures n <= |events|
    decreases |events|
  {
    if events == [] then 0
    else (if events[0].EndTag? && Lower(events[0].name) == "item" then 1 else 0) + ItemEnds(events[1..])
  }

  /**
   * Items are only ever appended, at most one per closing `item` tag, and
   * nothing is appended without one.
   */
  lemma {:induction false} RunAppendsItems(st: ParserState, events: seq<XmlEvent>, parseDate: string -> Option<int>, now: int)
    ensures var out := Run(st, events, parseDate, now).items;
      st.items <= out && |out| <= |st.items| + ItemEnds(events)
    decreases |events|
  {
    if events != [] && !IsStop(events[0]) {
      RunAppendsItems(Step(st, events[0], parseDate, now), events[1..], parseDate, now);
    }
  }

  /** A feed without a closing `item` tag yields nothing, even if an item was opened. */
  lemma NoClosedItemNoOutput(events: seq<XmlEvent>, parseDate: string -> Option<int>, now: int)
    requires ItemEnds(events) == 0
    ensures ParseXml(events, parseDate, now) == []
  {
    RunAppendsItems(InitialState, events, parseDate, now);
  }

  /**
   * Nothing after the end of the document or a parse error is read, and the
   * items collected before it are kept.
   */
  lemma {:induction false} StopEndsRun(st: ParserState, before: seq<XmlEvent>, stop: XmlEvent, after: seq<XmlEvent>,
                                       parseDate: string -> Option<int>, now: int)
    requires IsStop(stop)
    ensures Run(st, before + [stop] + after, parseDate, now) == Run(st, before, parseDate, now)
    decreases |before|
  {
    var all := before + [stop] + after;
    if before == [] {
      assert all[0] == stop;
    } else {
      assert all[0] == before[0];
      if !IsStop(before[0]) {
        assert all[1..] == before[1..] + [stop] + after;
        StopEndsRun(Step(st, before[0], parseDate, now), before[1..], stop, after, parseDate, now);
      }
    }
  }

  /** No event ends the loop. */
  predicate NoStops(events: seq<XmlEvent>) {
    forall i :: 0 <= i < |events| ==> !IsStop(events[i])
  }

  lemma NoStopsAppend(a: seq<XmlEvent>, b: seq<XmlEvent>)
    requires NoStops(a) && NoStops(b)
    ensures NoStops(a + b)
  {
    forall i | 0 <= i < |a + b| ensures !IsStop((a + b)[i]) {
      if i >= |a| { assert (a + b)[i] == b[i - |a|]; }
    }
  }

  /** Running over two stretches of events in turn, when the first holds no stop. */
  lemma {:induction false} RunAppend(st: ParserState, a: seq<XmlEvent>, b: seq<XmlEvent>, parseDate: string -> Option<int>, now: int)
    requires NoStops(a)
    ensures Run(st, a + b, parseDate, now) == Run(Run(st, a, parseDate, now), b, parseDate, now)
    decreases |a|
  {
    if a != [] {
      assert (a + b)[0] == a[0] && (a + b)[1..] == a[1..] + b;
      RunAppend(Step(st, a[0], parseDate, now), a[1..], b, parseDate, now);
    } else {
      assert a + b == b;
    }
  }

  // ---------------------------------------------------------------------
  // Text handling
  // ---------------------------------------------------------------------

  /**
   * Text is dropped outside an item, when it is null or blank, and right
   * after any closing tag (which resets the current tag).
   */
  lemma TextIgnored(st: ParserState, t: Option<string>, name: string, parseDate: string -> Option<int>, now: int)
    ensures st.current.None? ==> Step(st, TextEvent(t), parseDate, now) == st
    ensures IsBlank(t.GetOr("")) ==> Step(st, TextEvent(t), parseDate, now) == st
    ensures var closed := Step(st, EndTag(name), parseDate, now);
      Step(closed, TextEvent(t), parseDate, now) == closed
  {
    var closed := Step(st, EndTag(name), parseDate, now);
    assert closed.currentTag == "";
  }

  /**
   * Whatever the current tag, a later non-blank text replaces an earlier
   * one: the earlier text leaves no trace once the later one is stored.
   */
  lemma LastTextWins(st: ParserState, first: Option<string>, second: string, parseDate: string -> Option<int>, now: int)
    requires st.current.Some?
    requires !IsBlank(second)
    ensures var after := Step(Step(st, TextEvent(first), parseDate, now), TextEvent(Some(second)), parseDate, now);
      && after == Step(st, TextEvent(Some(second)), parseDate, now)
      && after.current == Some(Record(st.current.value, st.currentTag, Trim(second), parseDate))
  {
  }

  /**
   * The item list changes only at a closing `item` tag while an item is
   * open, and then by exactly the built item; every closing `item` tag
   * closes the builder.
   */
  lemma ItemsOnlyAtItemEnd(st: ParserState, ev: XmlEvent, parseDate: string -> Option<int>, now: int)
    ensures var next := Step(st, ev, parseDate, now);
      next.items != st.items ==>
        && ev.EndTag? && Lower(ev.name) == "item" && st.current.Some?
        && Build(st.current.value, now).Some?
        && next.items == st.items + [Build(st.current.value, now).value]
    ensures ev.EndTag? && Lower(ev.name) == "item" ==> Step(st, ev, parseDate, now).current.None?
  {
    var next := Step(st, ev, parseDate, now);
    if ev.EndTag? && Lower(ev.name) == "item" && st.current.Some? && Build(st.current.value, now).Some? {
      assert next.items == st.items + [Build(st.current.value, now).value];
    }
  }

  /**
   * Inside an open item, non-blank text is stored trimmed: title and
   * description through `cleanHtml`, the link as it is, the date as parsed.
   */
  lemma TextStoredByTag(st: ParserState, t: string, parseDate: string -> Option<int>, now: int)
    requires st.current.Some? && !IsBlank(t)
    ensures var b := Step(st, TextEvent(Some(t)), parseDate, now).current.value;
      && (st.currentTag == "title" ==> b == st.current.value.(title := CleanHtml(Trim(t))))
      && (st.currentTag == "description" ==> b == st.current.value.(description := CleanHtml(Trim(t))))
      && (st.currentTag == "link" ==> b == st.current.value.(link := Some(Trim(t))))
      && (st.currentTag == "pubdate" ==> b == st.current.value.(pubDate := parseDate(Trim(t))))
      && (st.currentTag !in {"title", "description", "link", "pubdate"} ==> b == st.current.value)
  {
  }

  /** An `item` start tag, in any case, discards whatever the open item had collected. */
  lemma ItemStartDiscards(st: ParserState, name: string, parseDate: string -> Option<int>, now: int)
    requires Lower(name) == "item"
    ensures Step(st, StartTag(name), parseDate, now) == ParserState(st.items, Some(EmptyBuilder), "item")
  {
  }

  // ---------------------------------------------------------------------
  // What every parsed item looks like
  // ---------------------------------------------------------------------

  /** A link, when present, is non-empty and trimmed. */
  predicate GoodLink(link: Option<string>) {
    link.Some? ==> link.value != [] && Trimmed(link.value)
  }

  /** Builder fields are either empty or `cleanHtml` output. */
  predicate GoodBuilder(b: ItemBuilder) {
    IsClean(b.title) && IsClean(b.description) && GoodLink(b.link)
  }

  /** The shape `build` guarantees, with clean, non-empty text. */
  predicate GoodItem(it: RssItem) {
    it.title != [] && it.description != [] && IsClean(it.title) && IsClean(it.description)
    && GoodLink(it.link) && it.pubDate.Some? && it.source == FeedSource
  }

  predicate GoodState(st: ParserState) {
    (forall i :: 0 <= i < |st.items| ==> GoodItem(st.items[i]))
    && (st.current.Some? ==> GoodBuilder(st.current.value))
  }

  lemma EmptyBuilderGood()
    ensures GoodBuilder(EmptyBuilder)
  {
    assert IsClean("") by {
      assert Trimmed("") && OnlyPlainSpaces("") && NoDoubleSpace("") && NoTagPair("");
    }
  }

  lemma RecordKeepsGood(b: ItemBuilder, tag: string, text: string, parseDate: string -> Option<int>)
    requires GoodBuilder(b) && text != [] && Trimmed(text)
    ensures GoodBuilder(Record(b, tag, text, parseDate))
  {
    if tag == "title" || tag == "description" {
      CleanHtmlIsClean(text);
    }
  }

  lemma {:induction false} StepKeepsGood(st: ParserState, ev: XmlEvent, parseDate: string -> Option<int>, now: int)
    requires GoodState(st)
    ensures GoodState(Step(st, ev, parseDate, now))
  {
    match ev
    case StartTag(name) =>
      EmptyBuilderGood();
    case TextEvent(t) =>
      if st.current.Some? {
        var text := Trim(t.GetOr(""));
        if text != [] {
          RecordKeepsGood(st.current.value, st.currentTag, text, parseDate);
        }
      }
    case EndTag(name) =>
    case _ =>
  }

  lemma {:induction false} RunKeepsGood(st: ParserState, events: seq<XmlEvent>, parseDate: string -> Option<int>, now: int)
    requires GoodState(st)
    ensures GoodState(Run(st, events, parseDate, now))
    decreases |events|
  {
    if events != [] && !IsStop(events[0]) {
      StepKeepsGood(st, events[0], parseDate, now);
      RunKeepsGood(Step(st, events[0], parseDate, now), events[1..], parseDate, now);
    }
  }

  /**
   * Every parsed item has a non-empty, clean title and description, a
   * trimmed link if any, a date, and the feed label as its source.
   */
  lemma ParsedItemsWellFormed(events: seq<XmlEvent>, parseDate: string -> Option<int>, now: int)
    ensures forall i :: 0 <= i < |ParseXml(events, parseDate, now)| ==> GoodItem(ParseXml(events, parseDate, now)[i])
  {
    RunKeepsGood(InitialState, events, parseDate, now);
  }

  // ---------------------------------------------------------------------
  // Round trip: a feed written from items is parsed back to them
  // ---------------------------------------------------------------------

  /** Text that `cleanHtml` and `trim` leave exactly as it is. */
  predicate Verbatim(s: string) {
    s != [] && IsClean(s) && '&' !in s && '<' !in s
  }

  /** An undated item whose fields survive a trip through a feed. */
  predicate Writable(it: RssItem, now: int) {
    Verbatim(it.title) && Verbatim(it.description) && GoodLink(it.link)
    && it.pubDate == Some(now) && it.source == FeedSource
  }

  /** The events of one simple element `<tag>text</tag>`. */
  function Field(tag: string, text: string): seq<XmlEvent> {
    [StartTag(tag), TextEvent(Some(text)), EndTag(tag)]
  }

  /** The elements inside one `<item>`: a title, a description and an optional link. */
  function ItemBody(it: RssItem): seq<XmlEvent> {
    Field("title", it.title) + Field("description", it.description)
    + (if it.link.Some? then Field("link", it.link.value) else [])
  }

  /** The events of one `<item>` element. */
  function ItemEvents(it: RssItem): seq<XmlEvent> {
    [StartTag("item")] + ItemBody(it) + [EndTag("item")]
  }

  /** The events of a feed holding the given items in order. */
  function FeedEvents(items: seq<RssItem>): seq<XmlEvent>
    decreases |items|
  {
    if items == [] then [] else ItemEvents(items[0]) + FeedEvents(items[1..])
  }

  lemma LowerOfLower(s: string)
    requires forall i :: 0 <= i < |s| ==> !('A' <= s[i] <= 'Z')
    ensures Lower(s) == s
  {
  }

  lemma TagNames()
    ensures Lower("item") == "item" && Lower("title") == "title"
    ensures Lower("description") == "description" && Lower("link") == "link"
  {
    LowerOfLower("item");
    LowerOfLower("title");
    LowerOfLower("description");
    LowerOfLower("link");
  }

  lemma VerbatimKept(s: string)
    requires Verbatim(s)
    ensures Trim(s) == s && CleanHtml(s) == s
  {
    TrimOfTrimmed(s);
    CleanHtmlKeepsCleanText(s);
  }

  /** Running over three ordinary events is three steps. */
  lemma RunThree(st: ParserState, a: XmlEvent, b: XmlEvent, c: XmlEvent, parseDate: string -> Option<int>, now: int)
    requires !IsStop(a) && !IsStop(b) && !IsStop(c)
    ensures Run(st, [a, b, c], parseDate, now)
      == Step(Step(Step(st, a, parseDate, now), b, parseDate, now), c, parseDate, now)
  {
    var s1 := Step(st, a, parseDate, now);
    var s2 := Step(s1, b, parseDate, now);
    var s3 := Step(s2, c, parseDate, now);
    assert [c][1..] == [];
    assert Run(s2, [c], parseDate, now) == Run(s3, [], parseDate, now) == s3;
    assert [b, c][1..] == [c];
    assert Run(s1, [b, c], parseDate, now) == Run(s2, [c], parseDate, now);
    assert [a, b, c][1..] == [b, c];
  }

  /** A trimmed, non-empty text inside an open item is recorded under the current tag. */
  lemma TextRecorded(st: ParserState, text: string, parseDate: string -> Option<int>, now: int)
    requires st.current.Some? && text != [] && Trimmed(text)
    ensures Step(st, TextEvent(Some(text)), parseDate, now)
      == st.(current := Some(Record(st.current.value, st.currentTag, text, parseDate)))
  {
    TrimOfTrimmed(text);
  }

  /** A start tag other than `item` only sets the current tag. */
  lemma PlainStart(st: ParserState, tag: string, parseDate: string -> Option<int>, now: int)
    requires Lower(tag) == tag && tag != "item"
    ensures Step(st, StartTag(tag), parseDate, now) == st.(currentTag := tag)
  {
  }

  /** An end tag other than `item` only clears the current tag. */
  lemma PlainEnd(st: ParserState, tag: string, parseDate: string -> Option<int>, now: int)
    requires Lower(tag) == tag && tag != "item"
    ensures Step(st, EndTag(tag), parseDate, now) == st.(currentTag := "")
  {
  }

  lemma FieldNoStops(tag: string, text: string)
    ensures NoStops(Field(tag, text))
  {
  }

  /** Reading a simple element inside an open item records its text and resets the tag. */
  lemma FieldParsed(st: ParserState, tag: string, text: string, parseDate: string -> Option<int>, now: int)
    requires st.current.Some? && Lower(tag) == tag && tag != "item"
    requires text != [] && Trimmed(text)
    ensures Run(st, Field(tag, text), parseDate, now)
      == st.(current := Some(Record(st.current.value, tag, text, parseDate)), currentTag := "")
  {
    var s1 := st.(currentTag := tag);
    var s2 := s1.(current := Some(Record(st.current.value, tag, text, parseDate)));
    PlainStart(st, tag, parseDate, now);
    TextRecorded(s1, text, parseDate, now);
    PlainEnd(s2, tag, parseDate, now);
    RunThree(st, StartTag(tag), TextEvent(Some(text)), EndTag(tag), parseDate, now);
  }

  /** The title and description, then the optional link, fill a fresh builder. */
  lemma ItemBodyParsed(items: seq<RssItem>, it: RssItem, parseDate: string -> Option<int>, now: int)
    requires Writable(it, now)
    ensures NoStops(ItemBody(it))
    ensures Run(ParserState(items, Some(EmptyBuilder), "item"), ItemBody(it), parseDate, now)
      == ParserState(items, Some(ItemBuilder(it.title, it.description, it.link, None)), "")
  {
    TagNames();
    VerbatimKept(it.title);
    VerbatimKept(it.description);
    var s0 := ParserState(items, Some(EmptyBuilder), "item");
    var s1 := ParserState(items, Some(EmptyBuilder.(title := it.title)), "");
    var s2 := ParserState(items, Some(ItemBuilder(it.title, it.description, None, None)), "");
    var title := Field("title", it.title);
    var description := Field("description", it.description);
    var link := if it.link.Some? then Field("link", it.link.value) else [];
    FieldParsed(s0, "title", it.title, parseDate, now);
    FieldParsed(s1, "description", it.description, parseDate, now);
    FieldNoStops("title", it.title);
    FieldNoStops("description", it.description);
    if it.link.Some? {
      FieldParsed(s2, "link", it.link.value, parseDate, now);
      FieldNoStops("link", it.link.value);
    }
    NoStopsAppend(title, description);
    NoStopsAppend(title + description, link);
    RunAppend(s0, title, description, parseDate, now);
    RunAppend(s0, title + description, link, parseDate, now);
  }

  /** Running over one ordinary event is one step. */
  lemma RunOne(st: ParserState, e: XmlEvent, parseDate: string -> Option<int>, now: int)
    requires !IsStop(e)
    ensures Run(st, [e], parseDate, now) == Step(st, e, parseDate, now)
  {
    assert [e][1..] == [];
  }

  /** Closing an item whose builder holds its fields appends it. */
  lemma ItemClosed(items: seq<RssItem>, it: RssItem, parseDate: string -> Option<int>, now: int)
    requires Writable(it, now)
    ensures Step(ParserState(items, Some(ItemBuilder(it.title, it.description, it.link, None)), ""), EndTag("item"), parseDate, now)
      == ParserState(items + [it], None, "")
  {
    TagNames();
  }

  /** Reading one item's events appends that item and leaves no item open. */
  lemma ItemEventsParsed(st: ParserState, it: RssItem, parseDate: string -> Option<int>, now: int)
    requires Writable(it, now)
    ensures NoStops(ItemEvents(it))
    ensures Run(st, ItemEvents(it), parseDate, now) == ParserState(st.items + [it], None, "")
  {
    var open := [StartTag("item")];
    var close := [EndTag("item")];
    var body := ItemBody(it);
    var s0 := ParserState(st.items, Some(EmptyBuilder), "item");
    var s3 := ParserState(st.items, Some(ItemBuilder(it.title, it.description, it.link, None)), "");
    assert Run(st, open, parseDate, now) == s0 by {
      RunOne(st, StartTag("item"), parseDate, now);
      TagNames();
    }
    assert Run(s0, body, parseDate, now) == s3 && NoStops(body) by {
      ItemBodyParsed(st.items, it, parseDate, now);
    }
    assert Run(s3, close, parseDate, now) == ParserState(st.items + [it], None, "") by {
      RunOne(s3, EndTag("item"), parseDate, now);
      ItemClosed(st.items, it, parseDate, now);
    }
    NoStopsAppend(open, body);
    NoStopsAppend(open + body, close);
    RunAppend(st, open, body, parseDate, now);
    RunAppend(st, open + body, close, parseDate, now);
  }

  lemma {:induction false} FeedEventsParsed(st: ParserState, items: seq<RssItem>, parseDate: string -> Option<int>, now: int)
    requires forall i :: 0 <= i < |items| ==> Writable(items[i], now)
    ensures NoStops(FeedEvents(items))
    ensures Run(st, FeedEvents(items), parseDate, now).items == st.items + items
    decreases |items|
  {
    if items == [] {
      assert st.items + items == st.items;
    } else {
      var it := items[0];
      var rest := items[1..];
      var next := ParserState(st.items + [it], None, "");
      assert FeedEvents(items) == ItemEvents(it) + FeedEvents(rest);
      ItemEventsParsed(st, it, parseDate, now);
      assert NoStops(FeedEvents(rest)) && Run(next, FeedEvents(rest), parseDate, now).items == next.items + rest by {
        assert forall i :: 0 <= i < |rest| ==> rest[i] == items[i + 1];
        FeedEventsParsed(next, rest, parseDate, now);
      }
      NoStopsAppend(ItemEvents(it), FeedEvents(rest));
      RunAppend(st, ItemEvents(it), FeedEvents(rest), parseDate, now);
      assert st.items + [it] + rest == st.items + items;
    }
  }

  /**
   * A document written from undated items with clean text parses back to
   * exactly those items, stamped with the parse time; whatever follows the
   * end of the document is never read.
   */
  lemma ParseFeedRoundTrip(items: seq<RssItem>, after: seq<XmlEvent>, parseDate: string -> Option<int>, now: int)
    requires forall i :: 0 <= i < |items| ==> Writable(items[i], now)
    ensures ParseXml(FeedEvents(items) + [EndDocument] + after, parseDate, now) == items
  {
    FeedEventsParsed(InitialState, items, parseDate, now);
    StopEndsRun(InitialState, FeedEvents(items), EndDocument, after, parseDate, now);
  }
}
