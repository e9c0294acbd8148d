/** `renderAtom` of workers/feed-aggregator-worker/src/index.ts: the aggregated
    entries written as an RFC 4287 Atom document. Every text is escaped, so a
    reader that takes an element's text up to the next `<` (an attribute's up to
    the next `"`) and resolves the five entities gets back what was written. */
module Atom {
  import opened Wrappers
  import opened Text
  import opened Xml
  import opened Normalize

  const XmlDecl: string := "<?xml version=\"1.0\" encoding=\"utf-8\"?>"
  const FeedOpen: string := "<feed xmlns=\"http://www.w3.org/2005/Atom\">"
  const FeedClose: string := "</feed>"
  const DefaultFeedId: string := "urn:uuid:umbreon-aggregated-feed"

  datatype Metadata = Metadata(title: string, subtitle: string, link: string)

  /** `<name>text</name>` with the text escaped. */
  function Element(name: string, text: string): string {
    "<" + name + ">" + (EscapeXml(text) + ("</" + name + ">"))
  }

  /** `<link href="..." />`. */
  function LinkElement(href: string): string {
    "<link href=\"" + (EscapeXml(href) + "\" />")
  }

  /** The feed's id: its link, or a fixed URN when there is none. */
  function FeedId(link: string): (r: string)
    ensures r != ""
    ensures link != "" ==> r == link
  {
    if link != "" then link else DefaultFeedId
  }

  /** The feed's `updated`: the first entry's, or the current time. */
  function FeedUpdated(entries: seq<Entry>, now: string): (r: string)
    ensures |entries| > 0 ==> r == entries[0].updated
    ensures |entries| == 0 ==> r == now
  {
    if |entries| > 0 then entries[0].updated else now
  }

  const SummaryOpen: string := "<summary type=\"html\">"
  const AuthorOpen: string := "<author><name>"
  const SourceOpen: string := "<source><title>"
  const CategoryOpen: string := "<category term=\""
  const LinkOpen: string := "<link href=\""

  function Category(tag: string): string {
    CategoryOpen + (EscapeXml(tag) + "\" />")
  }

  function Categories(tags: seq<string>): string
    decreases |tags|
  {
    if |tags| == 0 then "" else Category(tags[0]) + Categories(tags[1..])
  }

  /** An optional text the renderer writes: present and not empty. */
  function Shown(o: Option<string>): (r: Option<string>)
    ensures r.Some? <==> o.Some? && o.value != ""
    ensures r.Some? ==> r == o
  {
    if o.Some? && o.value != "" then o else None
  }

  /** The summary as HTML in CDATA, when there is one. */
  function SummaryPart(e: Entry): string {
    if Shown(e.summary).Some? then SummaryOpen + (CData(e.summary.value) + "</summary>") else ""
  }

  function AuthorPart(e: Entry): string {
    if Shown(e.author).Some? then AuthorOpen + (EscapeXml(e.author.value) + "</name></author>") else ""
  }

  /** The source with its title, and its link when there is one. */
  function SourcePart(e: Entry): string {
    if Shown(e.sourceTitle).Some? then
      var link := if Shown(e.sourceUrl).Some? then LinkElement(e.sourceUrl.value) else "";
      SourceOpen + (EscapeXml(e.sourceTitle.value) + ("</title>" + (link + "</source>")))
    else ""
  }

  /** What follows the four fixed elements of an entry: the summary, the author,
      the source and the categories, each only when present; then the close. */
  function EntryTail(e: Entry): string {
    SummaryPart(e) + (AuthorPart(e) + (SourcePart(e) + (Categories(e.tags.GetOr([])) + "</entry>")))
  }

  /** One `<entry>`: id, title, link and updated, then the optional parts. */
  function RenderEntry(e: Entry): string {
    "<entry>" + (Element("id", e.id) + (Element("title", e.title) + (LinkElement(e.link)
      + (Element("updated", e.updated) + EntryTail(e)))))
  }

  function RenderEntries(entries: seq<Entry>): string
    decreases |entries|
  {
    if |entries| == 0 then "" else RenderEntry(entries[0]) + RenderEntries(entries[1..])
  }

  function SubtitlePart(meta: Metadata): string {
    if meta.subtitle != "" then Element("subtitle", meta.subtitle) else ""
  }

  const AlternateClose: string := "\" rel=\"alternate\" />"

  function AlternatePart(meta: Metadata): string {
    if meta.link != "" then LinkOpen + (EscapeXml(meta.link) + AlternateClose) else ""
  }

  /** What the feed element holds after its title: the subtitle and alternate link
      when set, the updated time, the entries. */
  function AfterTitle(entries: seq<Entry>, meta: Metadata, now: string): string {
    SubtitlePart(meta) + (AlternatePart(meta) + (Element("updated", FeedUpdated(entries, now)) + RenderEntries(entries)))
  }

  /** The feed element's content. */
  function FeedContent(entries: seq<Entry>, meta: Metadata, now: string): string {
    Element("id", FeedId(meta.link)) + (Element("title", meta.title) + AfterTitle(entries, meta, now))
  }

  /** What a reader of the document sees of an entry: the texts the renderer
      writes, an optional one only when it is present and not empty, the source
      link only inside a source, and the categories as a list. */
  function Visible(e: Entry): (r: Entry)
    ensures r.id == e.id && r.title == e.title && r.link == e.link && r.updated == e.updated
    ensures r.summary == Shown(e.summary) && r.author == Shown(e.author) && r.sourceTitle == Shown(e.sourceTitle)
    ensures r.sourceUrl == if r.sourceTitle.Some? then Shown(e.sourceUrl) else None
    ensures r.tags == Some(e.tags.GetOr([]))
  {
    Entry(e.id, e.title, e.link, Shown(e.summary), e.updated, Shown(e.author), Shown(e.sourceTitle),
          if Shown(e.sourceTitle).Some? then Shown(e.sourceUrl) else None, Some(e.tags.GetOr([])))
  }

  function VisibleAll(entries: seq<Entry>): (r: seq<Entry>)
    ensures |r| == |entries| && forall k :: 0 <= k < |entries| ==> r[k] == Visible(entries[k])
  {
    seq(|entries|, k requires 0 <= k < |entries| => Visible(entries[k]))
  }

  /** The document as a reader sees it. */
  datatype FeedView = FeedView(id: string, title: string, subtitle: string, link: string, updated: string,
                               entries: seq<Entry>)

  /** `renderAtom`: declaration, feed element, id, title, subtitle and alternate link
      when set, updated, the entries in order, close. Read back, the document gives
      the feed's id, title, subtitle, link and updated time (the first entry's, or
      now), and every entry as it is visible, in order. */
  function RenderAtom(entries: seq<Entry>, meta: Metadata, now: string): (r: string)
    ensures ReadFeed(r) == Some(FeedView(FeedId(meta.link), meta.title, meta.subtitle, meta.link,
                                         FeedUpdated(entries, now), VisibleAll(entries)))
    ensures StripPrefix(r, XmlDecl + FeedOpen).Some? && EndsWith(r, FeedClose)
  {
    var content := FeedContent(entries, meta, now);
    StripPrefixOf(XmlDecl + FeedOpen, content + FeedClose);
    EndsWithOf(XmlDecl + FeedOpen, content, FeedClose);
    FeedReadsBack(entries, meta, now);
    (XmlDecl + FeedOpen) + (content + FeedClose)
  }

  // ---------------------------------------------------------------- reading back

  /** The length of the longest prefix of `s` without `c`. */
  function Until(s: string, c: char): (n: nat)
    ensures n <= |s| && (n < |s| ==> s[n] == c)
    ensures forall i :: 0 <= i < n ==> s[i] != c
    decreases |s|
  {
    if |s| == 0 || s[0] == c then 0 else 1 + Until(s[1..], c)
  }

  /** Text without `c` followed by `c` ends exactly there. */
  lemma UntilStops(a: string, c: char, b: string)
    requires forall i :: 0 <= i < |a| ==> a[i] != c
    requires |b| > 0 && b[0] == c
    ensures Until(a + b, c) == |a|
    decreases |a|
  {
    if |a| > 0 {
      assert (a + b)[0] == a[0] && (a + b)[1..] == a[1..] + b;
      UntilStops(a[1..], c, b);
    }
  }

  /** Reads `open`, text up to `stop`, then `close`: the unescaped text and what
      follows. */
  function ReadDelimited(s: string, open: string, stop: char, close: string): (r: Option<(string, string)>)
    ensures r.Some? ==> |r.value.1| + |open| + |close| <= |s|
  {
    match StripPrefix(s, open)
    case None => None
    case Some(rest) =>
      var n := Until(rest, stop);
      match StripPrefix(rest[n..], close)
      case None => None
      case Some(after) => Some((Unescape(rest[..n]), after))
  }

  function ReadElement(name: string, s: string): Option<(string, string)> {
    ReadDelimited(s, "<" + name + ">", '<', "</" + name + ">")
  }

  function ReadLinkElement(s: string): Option<(string, string)> {
    ReadDelimited(s, "<link href=\"", '"', "\" />")
  }

  lemma EndsWithOf(a: string, b: string, t: string)
    ensures EndsWith(a + (b + t), t)
  {
    var s := a + (b + t);
    assert s[|s| - |t|..] == t;
  }

  /** Escaped text ends at the delimiter that follows it, and reads back as itself. */
  lemma ReadDelimitedRoundTrip(open: string, stop: char, close: string, text: string, rest: string)
    requires stop == '<' || stop == '"'
    requires |close| > 0 && close[0] == stop
    ensures ReadDelimited(open + (EscapeXml(text) + (close + rest)), open, stop, close) == Some((text, rest))
  {
    var esc := EscapeXml(text);
    var tail := esc + (close + rest);
    StripPrefixOf(open, tail);
    EscapeXmlEscaped(text);
    UntilStops(esc, stop, close + rest);
    assert tail[..|esc|] == esc;
    assert tail[|esc|..] == close + rest;
    StripPrefixOf(close, rest);
    EscapeXmlRoundTrip(text);
  }

  /** An element written by the renderer reads back as its text. */
  lemma ElementRoundTrip(name: string, text: string, rest: string)
    ensures ReadElement(name, Element(name, text) + rest) == Some((text, rest))
  {
    var open, close := "<" + name + ">", "</" + name + ">";
    Assoc("<" + name, ">", EscapeXml(text) + close);
    Assoc(open, EscapeXml(text) + close, rest);
    Assoc(EscapeXml(text), close, rest);
    ReadDelimitedRoundTrip(open, '<', close, text, rest);
  }

  lemma LinkRoundTrip(href: string, rest: string)
    ensures ReadLinkElement(LinkElement(href) + rest) == Some((href, rest))
  {
    Assoc("<link href=\"", EscapeXml(href) + "\" />", rest);
    Assoc(EscapeXml(href), "\" />", rest);
    ReadDelimitedRoundTrip("<link href=\"", '"', "\" />", href, rest);
  }

  /** Text whose `i`-th character differs from the pattern's does not start with it. */
  lemma Mismatch(s: string, p: string, i: nat)
    requires i < |p| && i < |s| && s[i] != p[i]
    ensures !StartsWith(s, p)
  {
  }

  /** Text that starts with `p` does not start with a `q` that differs from `p`
      at position `i`. */
  lemma Differs(s: string, p: string, q: string, i: nat)
    requires StartsWith(s, p) && i < |p| && i < |q| && p[i] != q[i]
    ensures !StartsWith(s, q)
  {
    assert s[i] == s[..|p|][i];
  }

  lemma StartsWithOf(p: string, t: string)
    ensures StartsWith(p + t, p)
  {
    StripPrefixOf(p, t);
  }

  /** An element starts with its opening tag. */
  lemma ElementStarts(name: string, text: string, rest: string)
    ensures StartsWith(Element(name, text) + rest, "<" + name + ">")
  {
    ElementRoundTrip(name, text, rest);
  }

  // The parts that may follow an entry's summary slot, its author slot and its
  // source slot.

  predicate AfterSource(s: string) {
    StartsWith(s, CategoryOpen) || StartsWith(s, "</entry>")
  }

  predicate AfterAuthor(s: string) {
    StartsWith(s, SourceOpen) || AfterSource(s)
  }

  predicate AfterSummary(s: string) {
    StartsWith(s, AuthorOpen) || AfterAuthor(s)
  }

  /** The second (or third) character tells the parts apart. */
  lemma AfterSummaryIsNotSummary(s: string)
    requires AfterSummary(s)
    ensures !StartsWith(s, SummaryOpen)
  {
    if StartsWith(s, AuthorOpen) {
      assert s[1] == s[..|AuthorOpen|][1];
      Mismatch(s, SummaryOpen, 1);
    } else if StartsWith(s, SourceOpen) {
      assert s[2] == s[..|SourceOpen|][2];
      Mismatch(s, SummaryOpen, 2);
    } else if StartsWith(s, CategoryOpen) {
      assert s[1] == s[..|CategoryOpen|][1];
      Mismatch(s, SummaryOpen, 1);
    } else {
      assert s[1] == s[..8][1];
      Mismatch(s, SummaryOpen, 1);
    }
  }

  lemma AfterAuthorIsNotAuthor(s: string)
    requires AfterAuthor(s)
    ensures !StartsWith(s, AuthorOpen)
  {
    if StartsWith(s, SourceOpen) {
      assert s[1] == s[..|SourceOpen|][1];
    } else if StartsWith(s, CategoryOpen) {
      assert s[1] == s[..|CategoryOpen|][1];
    } else {
      assert s[1] == s[..8][1];
    }
    Mismatch(s, AuthorOpen, 1);
  }

  lemma AfterSourceIsNotSource(s: string)
    requires AfterSource(s)
    ensures !StartsWith(s, SourceOpen)
  {
    if StartsWith(s, CategoryOpen) {
      assert s[1] == s[..|CategoryOpen|][1];
    } else {
      assert s[1] == s[..8][1];
    }
    Mismatch(s, SourceOpen, 1);
  }

  /** The summary slot: `None` when no summary element is there. */
  function ReadSummary(s: string): (r: Option<(Option<string>, string)>)
    ensures r.Some? ==> |r.value.1| <= |s|
  {
    if !StartsWith(s, SummaryOpen) then Some((None, s))
    else
      match ReadCData(s[|SummaryOpen|..])
      case None => None
      case Some((text, rest)) =>
        match StripPrefix(rest, "</summary>")
        case None => None
        case Some(after) => Some((Some(text), after))
  }

  lemma SummaryReadsBack(e: Entry, rest: string)
    requires AfterSummary(rest)
    ensures ReadSummary(SummaryPart(e) + rest) == Some((Shown(e.summary), rest))
  {
    if Shown(e.summary).Some? {
      var v := e.summary.value;
      var closed := "</summary>" + rest;
      Assoc(SummaryOpen, CData(v) + "</summary>", rest);
      Assoc(CData(v), "</summary>", rest);
      StripPrefixOf(SummaryOpen, CData(v) + closed);
      Mismatch(closed, CDataOpen, 1);
      CDataReadsBack(v, closed);
      StripPrefixOf("</summary>", rest);
    } else {
      assert SummaryPart(e) + rest == rest;
      AfterSummaryIsNotSummary(rest);
    }
  }

  /** The author slot. */
  function ReadAuthor(s: string): (r: Option<(Option<string>, string)>)
    ensures r.Some? ==> |r.value.1| <= |s|
  {
    if !StartsWith(s, AuthorOpen) then Some((None, s))
    else
      match ReadDelimited(s, AuthorOpen, '<', "</name></author>")
      case None => None
      case Some((name, after)) => Some((Some(name), after))
  }

  lemma AuthorReadsBack(e: Entry, rest: string)
    requires AfterAuthor(rest)
    ensures ReadAuthor(AuthorPart(e) + rest) == Some((Shown(e.author), rest))
    ensures AfterSummary(AuthorPart(e) + rest)
  {
    if Shown(e.author).Some? {
      var esc := EscapeXml(e.author.value);
      Assoc(AuthorOpen, esc + "</name></author>", rest);
      Assoc(esc, "</name></author>", rest);
      StartsWithOf(AuthorOpen, esc + ("</name></author>" + rest));
      ReadDelimitedRoundTrip(AuthorOpen, '<', "</name></author>", e.author.value, rest);
    } else {
      assert AuthorPart(e) + rest == rest;
      AfterAuthorIsNotAuthor(rest);
    }
  }

  /** The link inside a source, when there is one. */
  function ReadSourceLink(s: string): (r: Option<(Option<string>, string)>)
    ensures r.Some? ==> |r.value.1| <= |s|
  {
    if !StartsWith(s, LinkOpen) then Some((None, s))
    else
      match ReadLinkElement(s)
      case None => None
      case Some((href, after)) => Some((Some(href), after))
  }

  /** The source slot: its title and link. */
  function ReadSource(s: string): (r: Option<((Option<string>, Option<string>), string)>)
    ensures r.Some? ==> |r.value.1| <= |s|
  {
    if !StartsWith(s, SourceOpen) then Some(((None, None), s))
    else
      match ReadDelimited(s, SourceOpen, '<', "</title>")
      case None => None
      case Some((title, s1)) =>
        match ReadSourceLink(s1)
        case None => None
        case Some((href, s2)) =>
          match StripPrefix(s2, "</source>")
          case None => None
          case Some(after) => Some(((Some(title), href), after))
  }

  lemma SourceLinkReadsBack(e: Entry, rest: string)
    requires Shown(e.sourceTitle).Some?
    ensures var link := if Shown(e.sourceUrl).Some? then LinkElement(e.sourceUrl.value) else "";
      ReadSourceLink(link + ("</source>" + rest)) == Some((Shown(e.sourceUrl), "</source>" + rest))
  {
    var closed := "</source>" + rest;
    if Shown(e.sourceUrl).Some? {
      var esc := EscapeXml(e.sourceUrl.value);
      LinkRoundTrip(e.sourceUrl.value, closed);
      Assoc(LinkOpen, esc + "\" />", closed);
      StartsWithOf(LinkOpen, (esc + "\" />") + closed);
    } else {
      assert "" + closed == closed;
      Mismatch(closed, LinkOpen, 1);
    }
  }

  lemma SourceReadsBack(e: Entry, rest: string)
    requires AfterSource(rest)
    ensures ReadSource(SourcePart(e) + rest)
      == Some(((Shown(e.sourceTitle), if Shown(e.sourceTitle).Some? then Shown(e.sourceUrl) else None), rest))
    ensures AfterAuthor(SourcePart(e) + rest)
  {
    if Shown(e.sourceTitle).Some? {
      var link := if Shown(e.sourceUrl).Some? then LinkElement(e.sourceUrl.value) else "";
      var esc := EscapeXml(e.sourceTitle.value);
      var t3 := link + ("</source>" + rest);
      Assoc(SourceOpen, esc + ("</title>" + (link + "</source>")), rest);
      Assoc(esc, "</title>" + (link + "</source>"), rest);
      Assoc("</title>", link + "</source>", rest);
      Assoc(link, "</source>", rest);
      StartsWithOf(SourceOpen, esc + ("</title>" + t3));
      ReadDelimitedRoundTrip(SourceOpen, '<', "</title>", e.sourceTitle.value, t3);
      SourceLinkReadsBack(e, rest);
      StripPrefixOf("</source>", rest);
    } else {
      assert SourcePart(e) + rest == rest;
      AfterSourceIsNotSource(rest);
    }
  }

  /** The categories, up to the first text that is not one. */
  function ReadCategories(s: string): (r: Option<(seq<string>, string)>)
    ensures r.Some? ==> |r.value.1| <= |s|
    decreases |s|
  {
    if !StartsWith(s, CategoryOpen) then Some(([], s))
    else
      match ReadDelimited(s, CategoryOpen, '"', "\" />")
      case None => None
      case Some((tag, s1)) =>
        match ReadCategories(s1)
        case None => None
        case Some((tags, after)) => Some(([tag] + tags, after))
  }

  /** One category in front of text whose categories read. */
  lemma CategoryThen(tag: string, more: string, tags: seq<string>, rest: string)
    requires ReadCategories(more) == Some((tags, rest))
    ensures ReadCategories(Category(tag) + more) == Some(([tag] + tags, rest))
    ensures StartsWith(Category(tag) + more, CategoryOpen)
  {
    var esc := EscapeXml(tag);
    Assoc(CategoryOpen, esc + "\" />", more);
    Assoc(esc, "\" />", more);
    StartsWithOf(CategoryOpen, esc + ("\" />" + more));
    ReadDelimitedRoundTrip(CategoryOpen, '"', "\" />", tag, more);
  }

  lemma {:induction false} CategoriesReadBack(tags: seq<string>, rest: string)
    requires StartsWith(rest, "</entry>")
    ensures ReadCategories(Categories(tags) + rest) == Some((tags, rest))
    ensures AfterSource(Categories(tags) + rest)
    decreases |tags|
  {
    if |tags| == 0 {
      assert Categories(tags) + rest == rest;
      Differs(rest, "</entry>", CategoryOpen, 1);
    } else {
      CategoriesReadBack(tags[1..], rest);
      CategoriesStep(tags, rest);
    }
  }

  /** The inductive step of `CategoriesReadBack`: one more category in front. */
  lemma CategoriesStep(tags: seq<string>, rest: string)
    requires |tags| > 0
    requires ReadCategories(Categories(tags[1..]) + rest) == Some((tags[1..], rest))
    ensures ReadCategories(Categories(tags) + rest) == Some((tags, rest))
    ensures StartsWith(Categories(tags) + rest, CategoryOpen)
  {
    var tag, others := tags[0], tags[1..];
    var more := Categories(others) + rest;
    assert Categories(tags) == Category(tag) + Categories(others);
    Assoc(Category(tag), Categories(others), rest);
    CategoryThen(tag, more, others, rest);
    assert [tag] + others == tags;
  }

  /** The opening and the four fixed elements of an entry: id, title, link and
      updated time. */
  function ReadHead(s: string): (r: Option<((string, string, string, string), string)>)
    ensures r.Some? ==> |r.value.1| < |s|
  {
    match StripPrefix(s, "<entry>")
    case None => None
    case Some(s1) =>
      match ReadElement("id", s1)
      case None => None
      case Some((id, s2)) =>
        match ReadElement("title", s2)
        case None => None
        case Some((title, s3)) =>
          match ReadLinkElement(s3)
          case None => None
          case Some((link, s4)) =>
            match ReadElement("updated", s4)
            case None => None
            case Some((updated, s5)) => Some(((id, title, link, updated), s5))
  }

  /** The optional parts of an entry and its close: summary, author, source title
      and link, and categories. */
  function ReadTail(s: string)
    : (r: Option<((Option<string>, Option<string>, (Option<string>, Option<string>), seq<string>), string)>)
    ensures r.Some? ==> |r.value.1| < |s|
  {
    match ReadSummary(s)
    case None => None
    case Some((summary, s1)) =>
      match ReadAuthor(s1)
      case None => None
      case Some((author, s2)) =>
        match ReadSource(s2)
        case None => None
        case Some((source, s3)) =>
          match ReadCategories(s3)
          case None => None
          case Some((tags, s4)) =>
            match StripPrefix(s4, "</entry>")
            case None => None
            case Some(after) => Some(((summary, author, source, tags), after))
  }

  /** One entry: its four fixed elements, the optional parts, the close. */
  function ReadEntry(s: string): (r: Option<(Entry, string)>)
    ensures r.Some? ==> |r.value.1| < |s|
  {
    match ReadHead(s)
    case None => None
    case Some((head, s1)) =>
      match ReadTail(s1)
      case None => None
      case Some((tail, after)) =>
        Some((Entry(head.0, head.1, head.2, tail.0, head.3, tail.1, tail.2.0, tail.2.1, Some(tail.3)), after))
  }

  /** The rendered entry followed by `rest`, as the reader meets it. */
  lemma EntryThen(e: Entry, rest: string)
    ensures RenderEntry(e) + rest
      == "<entry>" + (Element("id", e.id) + (Element("title", e.title) + (LinkElement(e.link)
           + (Element("updated", e.updated) + (SummaryPart(e) + (AuthorPart(e) + (SourcePart(e)
           + (Categories(e.tags.GetOr([])) + ("</entry>" + rest)))))))))
  {
    var cats := Categories(e.tags.GetOr([]));
    var t8 := cats + "</entry>";
    var t7 := SourcePart(e) + t8;
    var t6 := AuthorPart(e) + t7;
    var t5 := SummaryPart(e) + t6;
    var t4 := Element("updated", e.updated) + t5;
    var t3 := LinkElement(e.link) + t4;
    var t2 := Element("title", e.title) + t3;
    var t1 := Element("id", e.id) + t2;
    Assoc("<entry>", t1, rest);
    Assoc(Element("id", e.id), t2, rest);
    Assoc(Element("title", e.title), t3, rest);
    Assoc(LinkElement(e.link), t4, rest);
    Assoc(Element("updated", e.updated), t5, rest);
    Assoc(SummaryPart(e), t6, rest);
    Assoc(AuthorPart(e), t7, rest);
    Assoc(SourcePart(e), t8, rest);
    Assoc(cats, "</entry>", rest);
  }

  /** The optional parts of an entry read back as what is visible of them. */
  lemma TailReadsBack(e: Entry, rest: string)
    ensures ReadTail(SummaryPart(e) + (AuthorPart(e) + (SourcePart(e)
              + (Categories(e.tags.GetOr([])) + ("</entry>" + rest)))))
      == Some(((Shown(e.summary), Shown(e.author),
                (Shown(e.sourceTitle), if Shown(e.sourceTitle).Some? then Shown(e.sourceUrl) else None),
                e.tags.GetOr([])), rest))
  {
    var t9 := "</entry>" + rest;
    var t8 := Categories(e.tags.GetOr([])) + t9;
    var t7 := SourcePart(e) + t8;
    var t6 := AuthorPart(e) + t7;
    StartsWithOf("</entry>", rest);
    CategoriesReadBack(e.tags.GetOr([]), t9);
    SourceReadsBack(e, t8);
    AuthorReadsBack(e, t7);
    SummaryReadsBack(e, t6);
    StripPrefixOf("</entry>", rest);
  }

  /** The fixed elements of an entry read back as its id, title, link and updated
      time, whatever characters they hold. */
  lemma HeadReadsBack(e: Entry, t5: string)
    ensures ReadHead("<entry>" + (Element("id", e.id) + (Element("title", e.title) + (LinkElement(e.link)
              + (Element("updated", e.updated) + t5)))))
      == Some(((e.id, e.title, e.link, e.updated), t5))
  {
    var t4 := Element("updated", e.updated) + t5;
    var t3 := LinkElement(e.link) + t4;
    var t2 := Element("title", e.title) + t3;
    var t1 := Element("id", e.id) + t2;
    StripPrefixOf("<entry>", t1);
    ElementRoundTrip("id", e.id, t2);
    ElementRoundTrip("title", e.title, t3);
    LinkRoundTrip(e.link, t4);
    ElementRoundTrip("updated", e.updated, t5);
  }

  /** A rendered entry reads back as what is visible of it, whatever characters
      its texts hold, and the reader stops right after it. */
  lemma EntryReadsBack(e: Entry, rest: string)
    ensures ReadEntry(RenderEntry(e) + rest) == Some((Visible(e), rest))
    ensures StartsWith(RenderEntry(e) + rest, "<entry>")
  {
    var t5 := SummaryPart(e) + (AuthorPart(e) + (SourcePart(e) + (Categories(e.tags.GetOr([])) + ("</entry>" + rest))));
    EntryThen(e, rest);
    StartsWithOf("<entry>", Element("id", e.id) + (Element("title", e.title) + (LinkElement(e.link)
      + (Element("updated", e.updated) + t5))));
    HeadReadsBack(e, t5);
    TailReadsBack(e, rest);
  }

  /** The entries, up to the first text that is not one. */
  function ReadEntries(s: string): (r: Option<(seq<Entry>, string)>)
    ensures r.Some? ==> |r.value.1| <= |s|
    decreases |s|
  {
    if !StartsWith(s, "<entry>") then Some(([], s))
    else
      match ReadEntry(s)
      case None => None
      case Some((e, s1)) =>
        match ReadEntries(s1)
        case None => None
        case Some((es, after)) => Some(([e] + es, after))
  }

  /** One more entry in front of entries that read. */
  lemma ReadEntriesStep(s: string, e: Entry, s1: string, es: seq<Entry>, after: string)
    requires StartsWith(s, "<entry>") && ReadEntry(s) == Some((e, s1)) && ReadEntries(s1) == Some((es, after))
    ensures ReadEntries(s) == Some(([e] + es, after))
  {
  }

  lemma RenderEntriesThen(entries: seq<Entry>, rest: string)
    requires |entries| > 0
    ensures RenderEntries(entries) + rest == RenderEntry(entries[0]) + (RenderEntries(entries[1..]) + rest)
  {
    Assoc(RenderEntry(entries[0]), RenderEntries(entries[1..]), rest);
  }

  lemma VisibleAllCons(entries: seq<Entry>)
    requires |entries| > 0
    ensures VisibleAll(entries) == [Visible(entries[0])] + VisibleAll(entries[1..])
  {
  }

  lemma {:induction false} EntriesReadBack(entries: seq<Entry>, rest: string)
    requires !StartsWith(rest, "<entry>")
    ensures ReadEntries(RenderEntries(entries) + rest) == Some((VisibleAll(entries), rest))
    decreases |entries|
  {
    if |entries| == 0 {
      assert RenderEntries(entries) + rest == rest;
    } else {
      var more := RenderEntries(entries[1..]) + rest;
      RenderEntriesThen(entries, rest);
      EntryReadsBack(entries[0], more);
      EntriesReadBack(entries[1..], rest);
      ReadEntriesStep(RenderEntry(entries[0]) + more, Visible(entries[0]), more, VisibleAll(entries[1..]), rest);
      VisibleAllCons(entries);
    }
  }

  /** The subtitle, or the empty text when there is none. */
  function ReadSubtitle(s: string): (r: Option<(string, string)>)
    ensures r.Some? ==> |r.value.1| <= |s|
  {
    if !StartsWith(s, "<subtitle>") then Some(("", s)) else ReadElement("subtitle", s)
  }

  /** The alternate link, or the empty text when there is none. */
  function ReadAlternate(s: string): (r: Option<(string, string)>)
    ensures r.Some? ==> |r.value.1| <= |s|
  {
    if !StartsWith(s, LinkOpen) then Some(("", s)) else ReadDelimited(s, LinkOpen, '"', AlternateClose)
  }

  lemma AlternateReadsBack(meta: Metadata, rest: string)
    requires StartsWith(rest, "<updated>")
    ensures ReadAlternate(AlternatePart(meta) + rest) == Some((meta.link, rest))
    ensures StartsWith(AlternatePart(meta) + rest, LinkOpen) || StartsWith(AlternatePart(meta) + rest, "<updated>")
  {
    if meta.link != "" {
      var esc := EscapeXml(meta.link);
      Assoc(LinkOpen, esc + AlternateClose, rest);
      Assoc(esc, AlternateClose, rest);
      StartsWithOf(LinkOpen, esc + (AlternateClose + rest));
      ReadDelimitedRoundTrip(LinkOpen, '"', AlternateClose, meta.link, rest);
    } else {
      assert AlternatePart(meta) + rest == rest;
      assert rest[1] == rest[..9][1];
      Mismatch(rest, LinkOpen, 1);
    }
  }

  lemma SubtitleReadsBack(meta: Metadata, rest: string)
    requires StartsWith(rest, LinkOpen) || StartsWith(rest, "<updated>")
    ensures ReadSubtitle(SubtitlePart(meta) + rest) == Some((meta.subtitle, rest))
  {
    if meta.subtitle != "" {
      assert SubtitlePart(meta) == Element("subtitle", meta.subtitle);
      SubtitleElementReadsBack(meta.subtitle, rest);
    } else {
      assert SubtitlePart(meta) + rest == rest;
      NoSubtitle(rest);
    }
  }

  lemma SubtitleElementReadsBack(subtitle: string, rest: string)
    ensures ReadSubtitle(Element("subtitle", subtitle) + rest) == Some((subtitle, rest))
  {
    ElementRoundTrip("subtitle", subtitle, rest);
    ElementStarts("subtitle", subtitle, rest);
    SubtitleTag();
  }

  lemma SubtitleTag()
    ensures "<" + "subtitle" + ">" == "<subtitle>"
  {
  }

  lemma NoSubtitle(rest: string)
    requires StartsWith(rest, LinkOpen) || StartsWith(rest, "<updated>")
    ensures ReadSubtitle(rest) == Some(("", rest))
  {
    if StartsWith(rest, LinkOpen) {
      Differs(rest, LinkOpen, "<subtitle>", 1);
    } else {
      Differs(rest, "<updated>", "<subtitle>", 1);
    }
  }

  /** The feed's id, title, optional subtitle and alternate link, and updated
      time. */
  function ReadMeta(s: string): (r: Option<((string, string, string, string, string), string)>)
    ensures r.Some? ==> |r.value.1| <= |s|
  {
    match ReadElement("id", s)
    case None => None
    case Some((id, s1)) =>
      match ReadElement("title", s1)
      case None => None
      case Some((title, s2)) =>
        match ReadSubtitle(s2)
        case None => None
        case Some((subtitle, s3)) =>
          match ReadAlternate(s3)
          case None => None
          case Some((link, s4)) =>
            match ReadElement("updated", s4)
            case None => None
            case Some((updated, s5)) => Some(((id, title, subtitle, link, updated), s5))
  }

  /** The whole document: the declaration and feed element, the feed's metadata
      and entries, then the close and nothing after it. */
  function ReadFeed(doc: string): Option<FeedView> {
    match StripPrefix(doc, XmlDecl + FeedOpen)
    case None => None
    case Some(s1) =>
      match ReadMeta(s1)
      case None => None
      case Some((m, s2)) =>
        match ReadEntries(s2)
        case None => None
        case Some((entries, s3)) =>
          if s3 == FeedClose then Some(FeedView(m.0, m.1, m.2, m.3, m.4, entries)) else None
  }

  /** The feed content followed by the close, as the reader meets it. */
  lemma FeedThen(entries: seq<Entry>, meta: Metadata, now: string)
    ensures FeedContent(entries, meta, now) + FeedClose
      == Element("id", FeedId(meta.link)) + (Element("title", meta.title) + (SubtitlePart(meta)
           + (AlternatePart(meta) + (Element("updated", FeedUpdated(entries, now))
           + (RenderEntries(entries) + FeedClose)))))
  {
    var u5 := Element("updated", FeedUpdated(entries, now));
    var u4 := u5 + RenderEntries(entries);
    var u3 := AlternatePart(meta) + u4;
    var u2 := SubtitlePart(meta) + u3;
    var u1 := Element("title", meta.title) + u2;
    Assoc(Element("id", FeedId(meta.link)), u1, FeedClose);
    Assoc(Element("title", meta.title), u2, FeedClose);
    Assoc(SubtitlePart(meta), u3, FeedClose);
    Assoc(AlternatePart(meta), u4, FeedClose);
    Assoc(u5, RenderEntries(entries), FeedClose);
  }

  lemma UpdatedTag()
    ensures "<" + "updated" + ">" == "<updated>"
  {
  }

  /** The metadata read from text whose parts each read. */
  lemma ReadMetaStep(s: string, id: string, s1: string, title: string, s2: string, subtitle: string,
                     s3: string, link: string, s4: string, updated: string, s5: string)
    requires ReadElement("id", s) == Some((id, s1)) && ReadElement("title", s1) == Some((title, s2))
    requires ReadSubtitle(s2) == Some((subtitle, s3)) && ReadAlternate(s3) == Some((link, s4))
    requires ReadElement("updated", s4) == Some((updated, s5))
    ensures ReadMeta(s) == Some(((id, title, subtitle, link, updated), s5))
  {
  }

  /** The header of the feed reads back as its metadata and updated time. */
  lemma MetaReadsBack(meta: Metadata, updated: string, u6: string)
    ensures ReadMeta(Element("id", FeedId(meta.link)) + (Element("title", meta.title) + (SubtitlePart(meta)
              + (AlternatePart(meta) + (Element("updated", updated) + u6)))))
      == Some(((FeedId(meta.link), meta.title, meta.subtitle, meta.link, updated), u6))
  {
    var u5 := Element("updated", updated) + u6;
    var u4 := AlternatePart(meta) + u5;
    var u3 := SubtitlePart(meta) + u4;
    var u2 := Element("title", meta.title) + u3;
    var u1 := Element("id", FeedId(meta.link)) + u2;
    ElementRoundTrip("id", FeedId(meta.link), u2);
    ElementRoundTrip("title", meta.title, u3);
    ElementStarts("updated", updated, u6);
    UpdatedTag();
    AlternateReadsBack(meta, u5);
    SubtitleReadsBack(meta, u4);
    ElementRoundTrip("updated", updated, u6);
    ReadMetaStep(u1, FeedId(meta.link), u2, meta.title, u3, meta.subtitle, u4, meta.link, u5, updated, u6);
  }

  /** The document read from text whose parts each read. */
  lemma ReadFeedStep(doc: string, s1: string, m: (string, string, string, string, string), s2: string,
                     entries: seq<Entry>)
    requires StripPrefix(doc, XmlDecl + FeedOpen) == Some(s1) && ReadMeta(s1) == Some((m, s2))
    requires ReadEntries(s2) == Some((entries, FeedClose))
    ensures ReadFeed(doc) == Some(FeedView(m.0, m.1, m.2, m.3, m.4, entries))
  {
  }

  lemma CloseIsNotEntry()
    ensures !StartsWith(FeedClose, "<entry>")
  {
    Mismatch(FeedClose, "<entry>", 1);
  }

  /** A document whose header and entries each read back reads as a whole. */
  lemma FeedAssembled(u1: string, m: (string, string, string, string, string), u6: string, entries: seq<Entry>)
    requires ReadMeta(u1) == Some((m, u6)) && ReadEntries(u6) == Some((entries, FeedClose))
    ensures ReadFeed((XmlDecl + FeedOpen) + u1) == Some(FeedView(m.0, m.1, m.2, m.3, m.4, entries))
  {
    StripPrefixOf(XmlDecl + FeedOpen, u1);
    ReadFeedStep((XmlDecl + FeedOpen) + u1, u1, m, u6, entries);
  }

  /** The rendered document reads back as its metadata, its updated time and its
      visible entries in order. */
  lemma FeedReadsBack(entries: seq<Entry>, meta: Metadata, now: string)
    ensures ReadFeed((XmlDecl + FeedOpen) + (FeedContent(entries, meta, now) + FeedClose))
      == Some(FeedView(FeedId(meta.link), meta.title, meta.subtitle, meta.link, FeedUpdated(entries, now),
                       VisibleAll(entries)))
  {
    var u6 := RenderEntries(entries) + FeedClose;
    FeedThen(entries, meta, now);
    MetaReadsBack(meta, FeedUpdated(entries, now), u6);
    CloseIsNotEntry();
    EntriesReadBack(entries, FeedClose);
    FeedAssembled(FeedContent(entries, meta, now) + FeedClose,
                  (FeedId(meta.link), meta.title, meta.subtitle, meta.link, FeedUpdated(entries, now)),
                  u6, VisibleAll(entries));
  }
}
