/** The entry normalisers of workers/feed-aggregator-worker/src/index.ts: an RSS
    channel's items or an Atom feed's entries become `NormalizedEntry` records,
    and only those with both a link and a title are kept. The date text of an
    entry, `toIso(parseDate(...))`, is a parameter: it depends on `Date.parse` and
    on the clock. */
module Normalize {
  import opened Wrappers
  import opened Text
  import opened JsValue

  datatype Entry = Entry(
    id: string,
    title: string,
    link: string,
    summary: Option<string>,
    updated: string,
    author: Option<string>,
    sourceTitle: Option<string>,
    sourceUrl: Option<string>,
    tags: Option<seq<string>>)

  /** The filter of both normalisers: a link and a title. */
  predicate Listed(e: Entry) {
    e.link != "" && e.title != ""
  }

  /** `.filter((entry) => entry.link && entry.title)`. */
  function KeepListed(es: seq<Entry>): (r: seq<Entry>)
    ensures |r| <= |es|
    ensures forall i :: 0 <= i < |r| ==> Listed(r[i])
    decreases |es|
  {
    if |es| == 0 then []
    else if Listed(es[0]) then [es[0]] + KeepListed(es[1..])
    else KeepListed(es[1..])
  }

  /** The filter keeps exactly the listed entries, each as often as before, in order. */
  lemma {:induction false} KeepListedCounts(es: seq<Entry>, x: Entry)
    ensures multiset(KeepListed(es))[x] == if Listed(x) then multiset(es)[x] else 0
    decreases |es|
  {
    if |es| > 0 {
      KeepListedCounts(es[1..], x);
      assert es == [es[0]] + es[1..];
    }
  }

  /** `a || b` on optional text, where only an absent value is falsy (readers never
      return an empty string). */
  function OrText(a: Option<string>, b: string): (r: string)
    ensures a.Some? ==> r == a.value
    ensures a.None? ==> r == b
  {
    a.GetOr(b)
  }

  /** The id rule: the read id, else the link, else the title. */
  function EntryId(read: Option<string>, link: string, title: string): (r: string)
    ensures read.Some? ==> r == read.value
    ensures read.None? && link != "" ==> r == link
    ensures read.None? && link == "" ==> r == title
  {
    OrText(read, if link != "" then link else title)
  }

  /** One RSS `item`. */
  function RssEntry(item: Js, tags: Option<seq<string>>, sourceTitle: Option<string>,
                    sourceUrl: Option<string>, stamp: Option<string> -> string): (r: Entry)
    ensures r.title == ReadText(Get(item, "title")).GetOr("")
    ensures r.link == ReadLink(Get(item, "link")).GetOr("")
    ensures r.id == EntryId(ReadText(Get(item, "guid")), r.link, r.title)
    ensures r.tags == tags && r.sourceTitle == sourceTitle && r.sourceUrl == sourceUrl
    ensures ReadText(Get(item, "content:encoded")).Some? ==> r.summary == ReadText(Get(item, "content:encoded"))
    ensures ReadText(Get(item, "content:encoded")).None? && ReadText(Get(item, "description")).Some? ==>
      r.summary == ReadText(Get(item, "description"))
    ensures ReadText(Get(item, "content:encoded")).None? && ReadText(Get(item, "description")).None? ==>
      r.summary == ReadText(Get(item, "summary"))
    ensures ReadText(Get(item, "author")).Some? ==> r.author == ReadText(Get(item, "author"))
    ensures ReadText(Get(item, "author")).None? ==> r.author == ReadText(Get(item, "dc:creator"))
    ensures ReadText(Get(item, "pubDate")).Some? ==> r.updated == stamp(ReadText(Get(item, "pubDate")))
    ensures ReadText(Get(item, "pubDate")).None? ==> r.updated == stamp(ReadText(Get(item, "dc:date")))
  {
    var title := ReadText(Get(item, "title")).GetOr("");
    var link := ReadLink(Get(item, "link")).GetOr("");
    var pubDate := ReadText(Get(item, "pubDate")).Or(ReadText(Get(item, "dc:date")));
    var summary := ReadText(Get(item, "content:encoded")).Or(ReadText(Get(item, "description")))
                     .Or(ReadText(Get(item, "summary")));
    var author := ReadText(Get(item, "author")).Or(ReadText(Get(item, "dc:creator")));
    Entry(EntryId(ReadText(Get(item, "guid")), link, title), title, link, summary, stamp(pubDate),
          author, sourceTitle, sourceUrl, tags)
  }

  /** One Atom `entry`; the author is the `name` of an author element, else the
      element's own text. */
  function AtomEntry(entry: Js, tags: Option<seq<string>>, sourceTitle: Option<string>,
                     sourceUrl: Option<string>, stamp: Option<string> -> string): (r: Entry)
    ensures r.title == ReadText(Get(entry, "title")).GetOr("")
    ensures r.link == ReadLink(Get(entry, "link")).GetOr("")
    ensures r.id == EntryId(ReadText(Get(entry, "id")), r.link, r.title)
    ensures r.tags == tags && r.sourceTitle == sourceTitle && r.sourceUrl == sourceUrl
    ensures ReadText(Get(entry, "content")).Some? ==> r.summary == ReadText(Get(entry, "content"))
    ensures ReadText(Get(entry, "content")).None? ==> r.summary == ReadText(Get(entry, "summary"))
    ensures ReadText(Get(Get(entry, "author"), "name")).Some? ==>
      r.author == ReadText(Get(Get(entry, "author"), "name"))
    ensures ReadText(Get(Get(entry, "author"), "name")).None? ==> r.author == ReadText(Get(entry, "author"))
    ensures ReadText(Get(entry, "updated")).Some? ==> r.updated == stamp(ReadText(Get(entry, "updated")))
    ensures ReadText(Get(entry, "updated")).None? ==> r.updated == stamp(ReadText(Get(entry, "published")))
  {
    var title := ReadText(Get(entry, "title")).GetOr("");
    var link := ReadLink(Get(entry, "link")).GetOr("");
    var updated := ReadText(Get(entry, "updated")).Or(ReadText(Get(entry, "published")));
    var summary := ReadText(Get(entry, "content")).Or(ReadText(Get(entry, "summary")));
    var author := ReadText(Get(Get(entry, "author"), "name")).Or(ReadText(Get(entry, "author")));
    Entry(EntryId(ReadText(Get(entry, "id")), link, title), title, link, summary, stamp(updated),
          author, sourceTitle, sourceUrl, tags)
  }

  /** The channel `normalizeRssFeed` reads: the one under `rss`, else a bare
      `channel`. */
  function RssChannel(feed: Js): Js {
    Nullish(Get(Get(feed, "rss"), "channel"), Get(feed, "channel"))
  }

  /** Every item of the channel as an entry, before the filter; nothing when
      there is no channel. */
  function RssMapped(feed: Js, tags: Option<seq<string>>, stamp: Option<string> -> string): (r: seq<Entry>)
    ensures !Truthy(RssChannel(feed)) ==> r == []
    ensures Truthy(RssChannel(feed)) ==>
      var channel := RssChannel(feed);
      var items := ToArray(Get(channel, "item"));
      && |r| == |items|
      && forall k :: 0 <= k < |items| ==>
           r[k] == RssEntry(items[k], tags, ReadText(Get(channel, "title")), ReadLink(Get(channel, "link")), stamp)
  {
    var channel := RssChannel(feed);
    if !Truthy(channel) then []
    else
      var sourceTitle := ReadText(Get(channel, "title"));
      var sourceUrl := ReadLink(Get(channel, "link"));
      var items := ToArray(Get(channel, "item"));
      seq(|items|, k requires 0 <= k < |items| => RssEntry(items[k], tags, sourceTitle, sourceUrl, stamp))
  }

  /** `normalizeRssFeed`: the channel's items with a link and a title, each as
      often as it occurs, all carrying the feed's tags. */
  function NormalizeRss(feed: Js, tags: Option<seq<string>>, stamp: Option<string> -> string): (r: seq<Entry>)
    ensures forall x :: multiset(r)[x] == if Listed(x) then multiset(RssMapped(feed, tags, stamp))[x] else 0
    ensures forall i :: 0 <= i < |r| ==> Listed(r[i]) && r[i].id != "" && r[i].tags == tags
  {
    var mapped := RssMapped(feed, tags, stamp);
    RssMappedShape(feed, tags, stamp);
    KeptWellFormed(mapped, tags);
    KeepListed(mapped)
  }

  /** The root `normalizeAtomFeed` reads: `feed`, else `atom:feed`, else the
      document itself. */
  function AtomRoot(feed: Js): Js {
    Nullish(Get(feed, "feed"), Nullish(Get(feed, "atom:feed"), feed))
  }

  /** Every entry of the root as an entry record, before the filter; nothing when
      there is no root. */
  function AtomMapped(feed: Js, tags: Option<seq<string>>, stamp: Option<string> -> string): (r: seq<Entry>)
    ensures !Truthy(AtomRoot(feed)) ==> r == []
    ensures Truthy(AtomRoot(feed)) ==>
      var atom := AtomRoot(feed);
      var entries := ToArray(Get(atom, "entry"));
      && |r| == |entries|
      && forall k :: 0 <= k < |entries| ==>
           r[k] == AtomEntry(entries[k], tags, ReadText(Get(atom, "title")), ReadLink(Get(atom, "link")), stamp)
  {
    var atom := AtomRoot(feed);
    if !Truthy(atom) then []
    else
      var sourceTitle := ReadText(Get(atom, "title"));
      var sourceUrl := ReadLink(Get(atom, "link"));
      var entries := ToArray(Get(atom, "entry"));
      seq(|entries|, k requires 0 <= k < |entries| => AtomEntry(entries[k], tags, sourceTitle, sourceUrl, stamp))
  }

  /** `normalizeAtomFeed`: the root's entries with a link and a title, each as
      often as it occurs, all carrying the feed's tags. */
  function NormalizeAtom(feed: Js, tags: Option<seq<string>>, stamp: Option<string> -> string): (r: seq<Entry>)
    ensures forall x :: multiset(r)[x] == if Listed(x) then multiset(AtomMapped(feed, tags, stamp))[x] else 0
    ensures forall i :: 0 <= i < |r| ==> Listed(r[i]) && r[i].id != "" && r[i].tags == tags
  {
    var mapped := AtomMapped(feed, tags, stamp);
    AtomMappedShape(feed, tags, stamp);
    KeptWellFormed(mapped, tags);
    KeepListed(mapped)
  }

  /** The filter of entries that carry `tags` and have an id whenever they are
      listed keeps exactly the listed ones, each with an id and the tags. */
  lemma KeptWellFormed(mapped: seq<Entry>, tags: Option<seq<string>>)
    requires forall k :: 0 <= k < |mapped| ==> mapped[k].tags == tags && (Listed(mapped[k]) ==> mapped[k].id != "")
    ensures var r := KeepListed(mapped);
      forall x :: multiset(r)[x] == if Listed(x) then multiset(mapped)[x] else 0
    ensures var r := KeepListed(mapped);
      forall i :: 0 <= i < |r| ==> Listed(r[i]) && r[i].id != "" && r[i].tags == tags
  {
    var r := KeepListed(mapped);
    forall x ensures multiset(r)[x] == if Listed(x) then multiset(mapped)[x] else 0 {
      KeepListedCounts(mapped, x);
    }
    forall i | 0 <= i < |r| ensures r[i].id != "" && r[i].tags == tags {
      assert r[i] in multiset(r);
      assert r[i] in mapped;
    }
  }

  /** Every mapped RSS item carries the tags and has an id when it is listed. */
  lemma RssMappedShape(feed: Js, tags: Option<seq<string>>, stamp: Option<string> -> string)
    ensures var mapped := RssMapped(feed, tags, stamp);
      forall k :: 0 <= k < |mapped| ==> mapped[k].tags == tags && (Listed(mapped[k]) ==> mapped[k].id != "")
  {
    var mapped := RssMapped(feed, tags, stamp);
    var channel := RssChannel(feed);
    forall k | 0 <= k < |mapped|
      ensures mapped[k].tags == tags && (Listed(mapped[k]) ==> mapped[k].id != "")
    {
      var items := ToArray(Get(channel, "item"));
      RssItemListed(items[k], tags, ReadText(Get(channel, "title")), ReadLink(Get(channel, "link")), stamp);
    }
  }

  /** Every mapped Atom entry carries the tags and has an id when it is listed. */
  lemma AtomMappedShape(feed: Js, tags: Option<seq<string>>, stamp: Option<string> -> string)
    ensures var mapped := AtomMapped(feed, tags, stamp);
      forall k :: 0 <= k < |mapped| ==> mapped[k].tags == tags && (Listed(mapped[k]) ==> mapped[k].id != "")
  {
    var mapped := AtomMapped(feed, tags, stamp);
    var atom := AtomRoot(feed);
    forall k | 0 <= k < |mapped|
      ensures mapped[k].tags == tags && (Listed(mapped[k]) ==> mapped[k].id != "")
    {
      var entries := ToArray(Get(atom, "entry"));
      AtomEntryListed(entries[k], tags, ReadText(Get(atom, "title")), ReadLink(Get(atom, "link")), stamp);
    }
  }

  /** `normalizeFeed`: nothing when the document does not parse; RSS when it has
      `rss` or `channel`; Atom when it has `feed` or `atom:feed`; nothing otherwise. */
  function NormalizeFeed(parsed: Option<Js>, tags: Option<seq<string>>, stamp: Option<string> -> string): (r: seq<Entry>)
    ensures parsed.None? ==> r == []
    ensures parsed.Some? ==>
      var doc := parsed.value;
      var rss := Truthy(Get(doc, "rss")) || Truthy(Get(doc, "channel"));
      var atom := Truthy(Get(doc, "feed")) || Truthy(Get(doc, "atom:feed"));
      && (rss ==> r == NormalizeRss(doc, tags, stamp))
      && (!rss && atom ==> r == NormalizeAtom(doc, tags, stamp))
      && (!rss && !atom ==> r == [])
    ensures forall i :: 0 <= i < |r| ==> Listed(r[i]) && r[i].id != "" && r[i].tags == tags
  {
    match parsed
    case None => []
    case Some(doc) =>
      var r :=
        if Truthy(Get(doc, "rss")) || Truthy(Get(doc, "channel")) then NormalizeRss(doc, tags, stamp)
        else if Truthy(Get(doc, "feed")) || Truthy(Get(doc, "atom:feed")) then NormalizeAtom(doc, tags, stamp)
        else [];
      r
  }

  /** An RSS item is kept exactly when its title and link read as text. */
  lemma RssItemListed(item: Js, tags: Option<seq<string>>, sourceTitle: Option<string>,
                      sourceUrl: Option<string>, stamp: Option<string> -> string)
    ensures var e := RssEntry(item, tags, sourceTitle, sourceUrl, stamp);
      Listed(e) <==> ReadText(Get(item, "title")).Some? && ReadLink(Get(item, "link")).Some?
    ensures var e := RssEntry(item, tags, sourceTitle, sourceUrl, stamp);
      Listed(e) ==> e.id != ""
  {
  }

  /** The same for an Atom entry. */
  lemma AtomEntryListed(entry: Js, tags: Option<seq<string>>, sourceTitle: Option<string>,
                        sourceUrl: Option<string>, stamp: Option<string> -> string)
    ensures var e := AtomEntry(entry, tags, sourceTitle, sourceUrl, stamp);
      Listed(e) <==> ReadText(Get(entry, "title")).Some? && ReadLink(Get(entry, "link")).Some?
    ensures var e := AtomEntry(entry, tags, sourceTitle, sourceUrl, stamp);
      Listed(e) ==> e.id != ""
  {
  }

  /** The per-feed defaults of the handler: the source title falls back to the
      configured name and then to the feed's key, and the author to the source
      title. */
  function WithSource(e: Entry, name: Option<string>, key: string): (r: Entry)
    ensures r.sourceTitle.Some? && r.author.Some?
    ensures e.sourceTitle.Some? ==> r.sourceTitle == e.sourceTitle
    ensures e.sourceTitle.None? ==> r.sourceTitle == Some(name.GetOr(key))
    ensures e.author.Some? ==> r.author == e.author
    ensures e.author.None? ==> r.author == r.sourceTitle
    ensures r.(sourceTitle := e.sourceTitle, author := e.author) == e
  {
    var sourceTitle := e.sourceTitle.Or(name).GetOr(key);
    e.(sourceTitle := Some(sourceTitle), author := Some(e.author.GetOr(sourceTitle)))
  }
}
