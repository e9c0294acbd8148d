/** `load_feeds_from_server` of apps/umbreon-mobile/src/timeline.rs after the HTTP
    round trip: the fallback parse, one `FeedItem` per entry (with a fatal error for
    an entry whose date is missing or unreadable), rejection of an empty feed, and
    the newest-first stable sort. feed_rs's model enters as plain records, and the
    ammonia sanitiser and chrono's pattern parsers as function values. */
module Sync {
  import opened Wrappers
  import opened Text
  import opened Calendar
  import opened Rfc3339
  import opened Timestamps
  import opened FeedParse
  import opened Order
  import opened Sorting
  import opened Items

  /** Nanoseconds within a second. */
  type Nanos = n: int | 0 <= n < 1_000_000_000

  /** A feed_rs instant (chrono's `DateTime<Utc>`): epoch seconds and the
      nanoseconds within that second. */
  datatype Instant = Instant(secs: int, nanos: Nanos)

  /** The parts of a feed_rs entry the sync reads. `contentBody` is the body of the
      entry's content, when it has content with a body. */
  datatype Entry = Entry(
    id: string,
    title: Option<string>,
    contentBody: Option<string>,
    summary: Option<string>,
    published: Option<Instant>,
    updated: Option<Instant>,
    links: seq<string>,
    categories: seq<string>,
    authors: seq<string>)

  /** The parts of a feed_rs feed the sync reads; `logo` and `icon` are image URIs. */
  datatype Feed = Feed(
    feedType: FeedType,
    title: Option<string>,
    logo: Option<string>,
    icon: Option<string>,
    entries: seq<Entry>)

  /** The libraries the sync calls: chrono's pattern parsers and ammonia's `clean`
      with the sync's tag configuration. */
  datatype Env = Env(chrono: Chrono, clean: string -> string)

  /** What the HTTP round trip gave: a failed request, a failed body read, or the
      body's bytes. */
  datatype Fetched = RequestFailed(reason: string) | ReadFailed(reason: string) | Body(bytes: seq<byte>)

  const DefaultFeedTitle: string := "Feed Server"
  const NoEntries: string := "no feed entries found"

  /** The sub-second part of chrono's `Display` for a time: nothing on a whole
      second, else a dot and the fraction in milliseconds, microseconds or
      nanoseconds, the coarsest that shows it exactly. */
  function Fraction(nanos: Nanos): (r: string)
    ensures r == "" <==> nanos == 0
    ensures r != "" ==> r[0] == '.' && AllDigits(r[1..])
    ensures nanos != 0 && nanos % 1_000_000 == 0 ==> |r| == 4 && DigitsValue(r[1..]) == nanos / 1_000_000
    ensures nanos % 1_000_000 != 0 && nanos % 1000 == 0 ==> |r| == 7 && DigitsValue(r[1..]) == nanos / 1000
    ensures nanos % 1000 != 0 ==> |r| == 10 && DigitsValue(r[1..]) == nanos
  {
    if nanos == 0 then ""
    else if nanos % 1_000_000 == 0 then Dotted(nanos / 1_000_000, 3)
    else if nanos % 1000 == 0 then Dotted(nanos / 1000, 6)
    else Dotted(nanos, 9)
  }

  /** A dot and `n` in `width` digits. */
  function Dotted(n: nat, width: nat): (r: string)
    requires width == 3 || width == 6 || width == 9
    requires n < if width == 3 then 1000 else if width == 6 then 1_000_000 else 1_000_000_000
    ensures |r| == width + 1 && r[0] == '.' && AllDigits(r[1..]) && DigitsValue(r[1..]) == n
  {
    assert Pow10(3) == 1000;
    assert Pow10(6) == 1_000_000 by { assert Pow10(6) == 1000 * Pow10(3); }
    assert Pow10(9) == 1_000_000_000 by { assert Pow10(9) == 1000 * Pow10(6); }
    var r := "." + Padded(n, width);
    assert r[1..] == Padded(n, width);
    r
  }

  /** The fraction's digits, scaled back to nanoseconds, are the nanoseconds. */
  lemma FractionValue(nanos: Nanos)
    requires nanos != 0
    ensures DigitsValue(Fraction(nanos)[1..]) * Pow10(10 - |Fraction(nanos)|) == nanos
  {
    var f := Fraction(nanos);
    var d := DigitsValue(f[1..]);
    if nanos % 1_000_000 == 0 {
      assert |f| == 4 && d == nanos / 1_000_000;
      assert Pow10(6) == 1_000_000 by { assert Pow10(6) == 1000 * Pow10(3); }
      DivExact(nanos, 1_000_000);
    } else if nanos % 1000 == 0 {
      assert |f| == 7 && d == nanos / 1000;
      assert Pow10(3) == 1000;
      DivExact(nanos, 1000);
    } else {
      assert |f| == 10 && d == nanos;
      assert Pow10(0) == 1;
    }
  }

  /** A quotient with no remainder multiplies back. */
  lemma DivExact(n: int, m: int)
    requires m > 0 && n % m == 0
    ensures n / m * m == n
  {
  }

  /** chrono's `Display` for `DateTime<Utc>` before the zone:
      `YYYY-MM-DD HH:MM:SS` and the sub-second fraction, if any. */
  function UtcWall(t: Instant): string {
    var secs := t.secs % 86400;
    ClockSplit(secs);
    RenderDate(CivilFromDays(t.secs / 86400)) + " " + RenderClock(secs / 3600, secs % 3600 / 60, secs % 60)
      + Fraction(t.nanos)
  }

  /** chrono's `Display` for `DateTime<Utc>`: the wall clock and ` UTC`. */
  function UtcDisplay(t: Instant): (r: string)
    ensures |r| > 0 && r[|r| - 1] == 'C'
    ensures StripSuffix(r, " UTC") == Some(UtcWall(t))
  {
    var r := UtcWall(t) + " UTC";
    assert r[|r| - 4..] == " UTC";
    r
  }

  function EntryTitle(e: Entry): string {
    e.title.GetOr("")
  }

  /** How error messages name an entry: its id, or its title when the id is empty. */
  function EntryLabel(e: Entry): string {
    if |e.id| == 0 then EntryTitle(e) else e.id
  }

  /** The text that becomes the summary: the content body, else the summary, else
      the title. */
  function SummarySource(e: Entry): (r: string)
    ensures e.contentBody.Some? ==> r == e.contentBody.value
    ensures e.contentBody.None? && e.summary.Some? ==> r == e.summary.value
    ensures e.contentBody.None? && e.summary.None? ==> r == EntryTitle(e)
  {
    e.contentBody.Or(e.summary).GetOr(EntryTitle(e))
  }

  /** The date text the timestamp parser sees: the published instant, else the
      updated one, as chrono displays it, sub-second fraction included. */
  function DateText(e: Entry): (r: Option<string>)
    ensures r.None? <==> e.published.None? && e.updated.None?
    ensures e.published.Some? ==> r == Some(UtcDisplay(e.published.value))
    ensures e.published.None? && e.updated.Some? ==> r == Some(UtcDisplay(e.updated.value))
  {
    match e.published
    case Some(t) => Some(UtcDisplay(t))
    case None =>
      match e.updated
      case Some(t) => Some(UtcDisplay(t))
      case None => None
  }

  function MissingDate(e: Entry): string {
    "missing published/updated date in feed entry " + EntryLabel(e)
  }

  function InvalidDate(e: Entry, text: string): string {
    "invalid date '" + text + "' in feed entry " + EntryLabel(e)
  }

  /** The id of the entry produced after `produced` others: its own id, or the
      synthetic `feed-<produced>`. */
  function ItemId(e: Entry, produced: nat): (r: string)
    ensures |e.id| > 0 ==> r == e.id
    ensures |e.id| == 0 ==> StripPrefix(r, "feed-") == Some(Decimal(produced))
  {
    if |e.id| == 0 then "feed-" + Decimal(produced) else e.id
  }

  function FeedTitle(feed: Feed): string {
    feed.title.GetOr(DefaultFeedTitle)
  }

  function FeedSource(feed: Feed): (r: SourceKind)
    ensures r == SourceKind.Atom <==> feed.feedType == FeedType.Atom
    ensures r != RssHub
  {
    if feed.feedType == FeedType.Atom then SourceKind.Atom else Custom
  }

  /** The body of the `for entry in parsed.entries` loop for one entry. */
  function NormalizeEntry(env: Env, feed: Feed, e: Entry, produced: nat): (r: Result<FeedItem>)
    ensures DateText(e).None? ==> r == Err(MissingDate(e))
    ensures DateText(e).Some? && ParseForFeed(env.chrono, feed.feedType, DateText(e).value).None?
      ==> r == Err(InvalidDate(e, DateText(e).value))
    ensures r.Ok? <==> DateText(e).Some? && ParseForFeed(env.chrono, feed.feedType, DateText(e).value).Some?
    ensures r.Ok? ==>
      var item := r.value;
      && Some(item.publishedTs) == ParseForFeed(env.chrono, feed.feedType, DateText(e).value)
      && item.publishedAt == FormatDateUtc8(item.publishedTs)
      && item.fullContent == item.summary == env.clean(SummarySource(e))
      && !item.summarized
      && item.id == ItemId(e, produced)
      && item.title == EntryTitle(e)
      && item.source == FeedSource(feed)
      && item.avatarUrl == feed.logo.Or(feed.icon)
      && (|e.links| > 0 ==> item.link == e.links[0])
      && (|e.links| == 0 ==> item.link == "")
      && (|e.authors| > 0 ==> item.author == e.authors[0])
      && (|e.authors| == 0 ==> item.author == FeedTitle(feed))
      && StrictlyIncreasing(item.tags)
      && Elems(item.tags) == Elems(NonBlankTerms(e.categories))
  {
    match DateText(e)
    case None => Err(MissingDate(e))
    case Some(text) =>
      match ParseForFeed(env.chrono, feed.feedType, text)
      case None => Err(InvalidDate(e, text))
      case Some(ts) =>
        var summary := env.clean(SummarySource(e));
        NormalizeTagsSpec(e.categories);
        Ok(FeedItem(
          id := ItemId(e, produced),
          title := EntryTitle(e),
          summary := summary,
          fullContent := summary,
          summarized := false,
          source := FeedSource(feed),
          publishedAt := FormatDateUtc8(ts),
          publishedTs := ts,
          link := if |e.links| > 0 then e.links[0] else "",
          author := if |e.authors| > 0 then e.authors[0] else FeedTitle(feed),
          avatarUrl := feed.logo.Or(feed.icon),
          tags := NormalizeTags(e.categories)))
  }

  /** A run of fallible steps stopped at the first failure, as `?` does in a loop:
      every value when all succeed, otherwise the first error. */
  function Collect<T>(rs: seq<Result<T>>): (r: Result<seq<T>>)
    ensures r.Ok? <==> forall k :: 0 <= k < |rs| ==> rs[k].Ok?
    ensures r.Ok? ==> |r.value| == |rs| && forall k :: 0 <= k < |rs| ==> r.value[k] == rs[k].value
    ensures r.Err? ==>
      exists k :: 0 <= k < |rs| && rs[k].Err? && r.error == rs[k].error && forall j :: 0 <= j < k ==> rs[j].Ok?
    decreases |rs|
  {
    if |rs| == 0 then Ok([])
    else
      match rs[0]
      case Err(msg) => Err(msg)
      case Ok(first) =>
        var rest := Collect(rs[1..]);
        assert forall k :: 1 <= k < |rs| ==> rs[k] == rs[1..][k - 1];
        match rest
        case Err(msg) =>
          var k :| 0 <= k < |rs[1..]| && rs[1..][k].Err? && msg == rs[1..][k].error
            && forall j :: 0 <= j < k ==> rs[1..][j].Ok?;
          assert rs[k + 1].Err? && forall j :: 0 <= j < k + 1 ==> rs[j].Ok?;
          Err(msg)
        case Ok(values) => Ok([first] + values)
  }

  /** The outcome of the loop body for each entry; the entry at position `k` comes
      after `k` produced items, because any failure ends the loop. */
  function EntryOutcomes(env: Env, feed: Feed): (r: seq<Result<FeedItem>>)
    ensures |r| == |feed.entries|
    ensures forall k :: 0 <= k < |r| ==> r[k] == NormalizeEntry(env, feed, feed.entries[k], k)
  {
    seq(|feed.entries|, k requires 0 <= k < |feed.entries| => NormalizeEntry(env, feed, feed.entries[k], k))
  }

  /** `load_feeds_from_server` once the request has returned. */
  function LoadFeeds(env: Env, parse: seq<byte> -> Result<Feed>, lossy: seq<byte> -> seq<byte>,
                     fetched: Fetched): (r: Result<seq<FeedItem>>)
    ensures fetched.RequestFailed? ==> r == Err("failed to load feed server: " + fetched.reason)
    ensures fetched.ReadFailed? ==> r == Err("failed to read feed server: " + fetched.reason)
    ensures fetched.Body? && ParseWithFallback(parse, lossy, fetched.bytes).Err? ==>
      r == Err("failed to parse feed server: " + ParseWithFallback(parse, lossy, fetched.bytes).error)
    ensures fetched.Body? && ParseWithFallback(parse, lossy, fetched.bytes).Ok? ==>
      var feed := ParseWithFallback(parse, lossy, fetched.bytes).value;
      && (Collect(EntryOutcomes(env, feed)).Err? ==> r == Err(Collect(EntryOutcomes(env, feed)).error))
      && (|feed.entries| == 0 ==> r == Err(NoEntries))
    ensures r.Ok? <==>
      && fetched.Body?
      && ParseWithFallback(parse, lossy, fetched.bytes).Ok?
      && |ParseWithFallback(parse, lossy, fetched.bytes).value.entries| > 0
      && forall k :: 0 <= k < |ParseWithFallback(parse, lossy, fetched.bytes).value.entries| ==>
           var feed := ParseWithFallback(parse, lossy, fetched.bytes).value;
           NormalizeEntry(env, feed, feed.entries[k], k).Ok?
    ensures r.Ok? ==>
      var feed := ParseWithFallback(parse, lossy, fetched.bytes).value;
      var items := Collect(EntryOutcomes(env, feed));
      && items.Ok?
      && |r.value| == |feed.entries| > 0
      && Descending(r.value, PublishedTs)
      && multiset(r.value) == multiset(items.value)
      && forall k :: WithKey(r.value, PublishedTs, k) == WithKey(items.value, PublishedTs, k)
  {
    match fetched
    case RequestFailed(reason) => Err("failed to load feed server: " + reason)
    case ReadFailed(reason) => Err("failed to read feed server: " + reason)
    case Body(bytes) =>
      match ParseWithFallback(parse, lossy, bytes)
      case Err(reason) => Err("failed to parse feed server: " + reason)
      case Ok(feed) =>
        match Collect(EntryOutcomes(env, feed))
        case Err(msg) => Err(msg)
        case Ok(items) =>
          AllEntriesNormalize(env, feed);
          if |items| == 0 then Err(NoEntries) else Ok(NewestFirst(items))
  }

  /** The collection succeeds exactly when every entry normalises. */
  lemma AllEntriesNormalize(env: Env, feed: Feed)
    ensures Collect(EntryOutcomes(env, feed)).Ok?
      <==> forall k :: 0 <= k < |feed.entries| ==> NormalizeEntry(env, feed, feed.entries[k], k).Ok?
  {
  }

  /** `items.sort_by(|a, b| b.published_ts.cmp(&a.published_ts))`: newest first,
      the same items, ties in their order. */
  function NewestFirst(items: seq<FeedItem>): (r: seq<FeedItem>)
    ensures |r| == |items|
    ensures Descending(r, PublishedTs)
    ensures multiset(r) == multiset(items)
    ensures forall k :: WithKey(r, PublishedTs, k) == WithKey(items, PublishedTs, k)
  {
    SortOrders(items, PublishedTs);
    SortPermutes(items, PublishedTs);
    assert forall k :: WithKey(SortByKeyDesc(items, PublishedTs), PublishedTs, k) == WithKey(items, PublishedTs, k) by {
      forall k ensures WithKey(SortByKeyDesc(items, PublishedTs), PublishedTs, k) == WithKey(items, PublishedTs, k) {
        SortIsStable(items, PublishedTs, k);
      }
    }
    assert |multiset(SortByKeyDesc(items, PublishedTs))| == |multiset(items)|;
    SortByKeyDesc(items, PublishedTs)
  }

  /** What chrono's patterns do with the text of a feed_rs instant: the zone-name,
      RFC 2822, bare-date, naive and weekday patterns reject it, and the `%z`
      pattern, given the wall clock with `+0000`, reads it as that instant when
      the clock stops at whole seconds; `%S` takes no fraction, so a clock with
      one is rejected. */
  predicate ChronoOnDisplay(c: Chrono, t: Instant) {
    && c.zoneName(UtcDisplay(t)).None?
    && c.rfc2822(UtcDisplay(t)).None?
    && c.naiveDate(UtcDisplay(t)).None?
    && c.naiveDateTime(UtcDisplay(t)).None?
    && c.weekdayWithSeconds(UtcDisplay(t)).None?
    && c.weekdayWithoutSeconds(UtcDisplay(t)).None?
    && c.numericOffset(UtcWall(t) + " +0000") == if t.nanos == 0 then Some(t.secs) else None
  }

  /** The text of an instant reads back as that instant when it falls on a whole
      second, whatever the feed family: both parsers reach the ` UTC` suffix
      rewrite. With a sub-second part no pattern reads it. */
  lemma ParseForFeedOfDisplay(c: Chrono, feedType: FeedType, t: Instant)
    requires ChronoOnDisplay(c, t)
    ensures ParseForFeed(c, feedType, UtcDisplay(t)) == if t.nanos == 0 then Some(t.secs) else None
  {
    var v := UtcDisplay(t);
    Rfc3339RejectsZoneName(v);
    assert SuffixPatched(c, v, " UTC") == if t.nanos == 0 then Some(t.secs) else None;
    assert StripSuffix(v, " GMT").None?;
    assert ParseAtom(c, v) == if t.nanos == 0 then Some(t.secs) else None;
    assert BareDate(c, v).None?;
    assert ParseRss(c, v) == if t.nanos == 0 then Some(t.secs) else None;
  }

  /** The instant whose text the parser sees: the published one, else the updated one. */
  function Dated(e: Entry): (r: Option<Instant>)
    ensures r.None? <==> DateText(e).None?
    ensures r.Some? ==> DateText(e) == Some(UtcDisplay(r.value))
  {
    e.published.Or(e.updated)
  }

  /** A dated entry normalises exactly when its instant falls on a whole second,
      and then keeps that instant; a sub-second instant is an invalid date. */
  lemma EntryKeepsItsInstant(env: Env, feed: Feed, e: Entry, produced: nat)
    requires Dated(e).Some? && ChronoOnDisplay(env.chrono, Dated(e).value)
    ensures NormalizeEntry(env, feed, e, produced).Ok? <==> Dated(e).value.nanos == 0
    ensures NormalizeEntry(env, feed, e, produced).Ok?
      ==> NormalizeEntry(env, feed, e, produced).value.publishedTs == Dated(e).value.secs
    ensures Dated(e).value.nanos != 0
      ==> NormalizeEntry(env, feed, e, produced) == Err(InvalidDate(e, UtcDisplay(Dated(e).value)))
  {
    ParseForFeedOfDisplay(env.chrono, feed.feedType, Dated(e).value);
  }

  /** One entry whose instant has a sub-second part makes the whole sync fail. */
  lemma SubSecondEntryFailsSync(env: Env, parse: seq<byte> -> Result<Feed>, lossy: seq<byte> -> seq<byte>,
                                bytes: seq<byte>, k: nat)
    requires ParseWithFallback(parse, lossy, bytes).Ok?
    requires var feed := ParseWithFallback(parse, lossy, bytes).value;
      && k < |feed.entries| && Dated(feed.entries[k]).Some? && Dated(feed.entries[k]).value.nanos != 0
      && ChronoOnDisplay(env.chrono, Dated(feed.entries[k]).value)
    ensures LoadFeeds(env, parse, lossy, Body(bytes)).Err?
  {
    var feed := ParseWithFallback(parse, lossy, bytes).value;
    EntryKeepsItsInstant(env, feed, feed.entries[k], k);
  }

  /** An entry with neither date makes the whole sync fail and return no items. */
  lemma UndatedEntryFailsSync(env: Env, parse: seq<byte> -> Result<Feed>, lossy: seq<byte> -> seq<byte>,
                              bytes: seq<byte>, k: nat)
    requires ParseWithFallback(parse, lossy, bytes).Ok?
    requires var feed := ParseWithFallback(parse, lossy, bytes).value;
      k < |feed.entries| && feed.entries[k].published.None? && feed.entries[k].updated.None?
    ensures LoadFeeds(env, parse, lossy, Body(bytes)).Err?
  {
    var feed := ParseWithFallback(parse, lossy, bytes).value;
    assert EntryOutcomes(env, feed)[k].Err?;
  }

  /** A failed sync over a parsed feed reports the first failing entry, by its id or,
      when that is empty, its title. */
  lemma SyncReportsFirstBadEntry(env: Env, parse: seq<byte> -> Result<Feed>, lossy: seq<byte> -> seq<byte>,
                                 bytes: seq<byte>, k: nat)
    requires ParseWithFallback(parse, lossy, bytes).Ok?
    requires var feed := ParseWithFallback(parse, lossy, bytes).value;
      && k < |feed.entries|
      && NormalizeEntry(env, feed, feed.entries[k], k).Err?
      && forall j :: 0 <= j < k ==> NormalizeEntry(env, feed, feed.entries[j], j).Ok?
    ensures var feed := ParseWithFallback(parse, lossy, bytes).value;
      var e := feed.entries[k];
      LoadFeeds(env, parse, lossy, Body(bytes))
        == if DateText(e).None? then Err(MissingDate(e)) else Err(InvalidDate(e, DateText(e).value))
  {
    var feed := ParseWithFallback(parse, lossy, bytes).value;
    var outcomes := EntryOutcomes(env, feed);
    var r := Collect(outcomes);
    assert outcomes[k].Err?;
    var m :| 0 <= m < |outcomes| && outcomes[m].Err? && r.error == outcomes[m].error
      && forall j :: 0 <= j < m ==> outcomes[j].Ok?;
    assert m == k;
    assert LoadFeeds(env, parse, lossy, Body(bytes)) == Err(r.error);
  }

  /** A feed with no entries is an error, never an empty timeline. */
  lemma EmptyFeedFailsSync(env: Env, parse: seq<byte> -> Result<Feed>, lossy: seq<byte> -> seq<byte>,
                           bytes: seq<byte>)
    requires ParseWithFallback(parse, lossy, bytes).Ok?
    requires |ParseWithFallback(parse, lossy, bytes).value.entries| == 0
    ensures LoadFeeds(env, parse, lossy, Body(bytes)) == Err(NoEntries)
  {
  }

  /** The shape of an item built from an entry of `feed`: unsummarised, its summary
      doubling as full content, tags sorted and distinct, and the id of some entry:
      the entry's own, or `feed-<k>` for the entry at position `k`. */
  ghost predicate FromEntry(feed: Feed, item: FeedItem) {
    && !item.summarized && item.fullContent == item.summary
    && StrictlyIncreasing(item.tags)
    && exists k :: 0 <= k < |feed.entries| && item.id == ItemId(feed.entries[k], k)
  }

  /** Every item collected from the entries has the shape of an entry's item. */
  lemma CollectedFromEntries(env: Env, feed: Feed)
    requires Collect(EntryOutcomes(env, feed)).Ok?
    ensures forall item :: item in Collect(EntryOutcomes(env, feed)).value ==> FromEntry(feed, item)
  {
    var items := Collect(EntryOutcomes(env, feed)).value;
    forall item | item in items ensures FromEntry(feed, item) {
      var k :| 0 <= k < |items| && items[k] == item;
      assert EntryOutcomes(env, feed)[k] == NormalizeEntry(env, feed, feed.entries[k], k);
    }
  }

  /** Every synced item is unsummarised, carries its summary as full content, and
      has the id of some entry: the entry's own, or `feed-<k>` for the entry at
      position `k`. */
  lemma SyncedItemsShape(env: Env, parse: seq<byte> -> Result<Feed>, lossy: seq<byte> -> seq<byte>,
                         fetched: Fetched)
    requires LoadFeeds(env, parse, lossy, fetched).Ok?
    ensures var feed := ParseWithFallback(parse, lossy, fetched.bytes).value;
      forall item :: item in LoadFeeds(env, parse, lossy, fetched).value ==>
        && !item.summarized && item.fullContent == item.summary
        && StrictlyIncreasing(item.tags)
        && exists k :: 0 <= k < |feed.entries| && item.id == ItemId(feed.entries[k], k)
  {
    var feed := ParseWithFallback(parse, lossy, fetched.bytes).value;
    var items := Collect(EntryOutcomes(env, feed)).value;
    var r := LoadFeeds(env, parse, lossy, fetched).value;
    CollectedFromEntries(env, feed);
    forall item | item in r ensures FromEntry(feed, item) {
      assert item in multiset(r);
      assert item in multiset(items);
    }
  }
}
