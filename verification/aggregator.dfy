/** The request handler of workers/feed-aggregator-worker/src/index.ts: dispatch on
    the method, the query-or-environment settings with `clampNumber`, the gist of
    feeds, the per-feed normalisation with its defaults, and the cutoff, sort and
    limit that pick the entries of the Atom document. Network answers, the TOML
    parser, the XML parser, `Date.parse` and the clock are parameters. */
module Aggregator {
  import opened Wrappers
  import opened Text
  import opened Sorting
  import opened JsValue
  import opened Normalize
  import opened Atom

  // ---------------------------------------------------------------- settings

  /** `a || b` for optional text: an empty string counts as missing. */
  function Either(a: Option<string>, b: Option<string>): (r: Option<string>)
    ensures a.Some? && a.value != "" ==> r == a
    ensures (a.None? || a.value == "") ==> r == b
  {
    if a.Some? && a.value != "" then a else b
  }

  /** The text of a setting, or `fallback` when it is missing or empty. */
  function TextOr(o: Option<string>, fallback: string): (r: string)
    ensures o.Some? && o.value != "" ==> r == o.value
    ensures (o.None? || o.value == "") ==> r == fallback
  {
    if o.Some? && o.value != "" then o.value else fallback
  }

  /** `clampNumber`: the fallback for a missing, empty or non-finite value, else the
      number forced into `[min, max]`. `number` is JavaScript's `Number`, `None`
      standing for NaN and the infinities. */
  function ClampNumber(value: Option<string>, fallback: real, min: real, max: real,
                       number: string -> Option<real>): (r: real)
    ensures value.None? || value.value == "" || number(value.value).None? ==> r == fallback
    ensures value.Some? && value.value != "" && number(value.value).Some? && min <= max ==>
      var x := number(value.value).value;
      && min <= r <= max
      && (min <= x <= max ==> r == x)
      && (x < min ==> r == min)
      && (x > max ==> r == max)
  {
    if value.None? || value.value == "" then fallback
    else match number(value.value)
      case None => fallback
      case Some(parsed) =>
        var low := if min > parsed then min else parsed;
        if max < low then max else low
  }

  /** A value already in range is kept, so clamping twice is clamping once. */
  lemma ClampKeepsInRange(value: string, fallback: real, min: real, max: real,
                          number: string -> Option<real>)
    requires value != "" && number(value).Some? && min <= number(value).value <= max
    ensures ClampNumber(Some(value), fallback, min, max, number) == number(value).value
  {
  }

  const DefaultTitle: string := "Umbreon Aggregated Feed"
  const DefaultLimit: real := 200.0
  const DefaultDays: real := 60.0
  const DayMs: int := 24 * 60 * 60 * 1000

  datatype WorkerEnv = WorkerEnv(
    gistUrl: Option<string>,
    feedTitle: Option<string>,
    feedSubtitle: Option<string>,
    feedLink: Option<string>,
    maxItems: Option<string>,
    days: Option<string>)

  /** A request: its method (`verb`) and `searchParams.get`. */
  datatype Request = Request(verb: string, query: string -> Option<string>)

  datatype Settings = Settings(gistUrl: string, meta: Metadata, maxItems: real, days: real)

  /** `query || env || fallback`: `v` is the query value when that is set and
      non-empty, else the environment value when that is, else the fallback. */
  predicate Precedence(query: Option<string>, env: Option<string>, fallback: string, v: string) {
    && (query.Some? && query.value != "" ==> v == query.value)
    && ((query.None? || query.value == "") && env.Some? && env.value != "" ==> v == env.value)
    && ((query.None? || query.value == "") && (env.None? || env.value == "") ==> v == fallback)
  }

  /** The settings of a request: each query parameter wins over the environment
      when set and non-empty, and the environment over the default; `None` when no
      gist URL is given. */
  function ReadSettings(req: Request, env: WorkerEnv, number: string -> Option<real>): (r: Option<Settings>)
    ensures r.None? <==>
      (req.query("gist").None? || req.query("gist").value == "") && (env.gistUrl.None? || env.gistUrl.value == "")
    ensures r.Some? ==>
      && r.value.gistUrl != ""
      && Precedence(req.query("gist"), env.gistUrl, "", r.value.gistUrl)
      && Precedence(req.query("title"), env.feedTitle, DefaultTitle, r.value.meta.title)
      && Precedence(req.query("subtitle"), env.feedSubtitle, "", r.value.meta.subtitle)
      && Precedence(req.query("link"), env.feedLink, "", r.value.meta.link)
      && r.value.maxItems == ClampNumber(Either(req.query("limit"), env.maxItems), DefaultLimit, 1.0, 1000.0, number)
      && r.value.days == ClampNumber(Either(req.query("days"), env.days), DefaultDays, 1.0, 3650.0, number)
      && 1.0 <= r.value.maxItems <= 1000.0
      && 1.0 <= r.value.days <= 3650.0
      && r.value.meta.title != ""
  {
    var gist := TextOr(Either(req.query("gist"), env.gistUrl), "");
    if gist == "" then None
    else
      var title := TextOr(Either(req.query("title"), env.feedTitle), DefaultTitle);
      var subtitle := TextOr(Either(req.query("subtitle"), env.feedSubtitle), "");
      var link := TextOr(Either(req.query("link"), env.feedLink), "");
      var maxItems := ClampNumber(Either(req.query("limit"), env.maxItems), DefaultLimit, 1.0, 1000.0, number);
      var days := ClampNumber(Either(req.query("days"), env.days), DefaultDays, 1.0, 3650.0, number);
      Some(Settings(gist, Metadata(title, subtitle, link), maxItems, days))
  }

  /** A query parameter that is present and non-empty. */
  predicate Given(o: Option<string>) {
    o.Some? && o.value != ""
  }

  /** A request that sets every parameter reads the same settings whatever the
      environment holds. */
  lemma QueryOverridesEnv(req: Request, env1: WorkerEnv, env2: WorkerEnv, number: string -> Option<real>)
    requires Given(req.query("gist")) && Given(req.query("title")) && Given(req.query("subtitle"))
    requires Given(req.query("link")) && Given(req.query("limit")) && Given(req.query("days"))
    ensures ReadSettings(req, env1, number) == ReadSettings(req, env2, number)
    ensures ReadSettings(req, env1, number).Some?
  {
  }

  // ---------------------------------------------------------------- feeds

  /** An entry of `config.feeds`. */
  datatype FeedConfig = FeedConfig(name: Option<string>, url: Option<string>, tags: Option<seq<string>>)

  /** What a fetch ends with: a thrown error, a status that is not ok, or a body. */
  datatype Fetch = Failed(reason: string) | NotOk(status: nat) | Body(text: string)

  /** The external services one request talks to. */
  datatype Services = Services(
    fetch: string -> Fetch,
    toml: string -> Result<seq<(string, FeedConfig)>>,
    parseXml: string -> Option<Js>,
    stamp: Option<string> -> string,
    parseMs: string -> Option<int>,
    number: string -> Option<real>)

  /** A feed is fetched only when its URL is not blank. */
  predicate Fetchable(feed: FeedConfig) {
    feed.url.Some? && Trim(feed.url.value, IsJsSpace) != ""
  }

  /** The entries one configured feed contributes: none when it is skipped or its
      fetch fails, else its normalised entries with the source defaults. */
  function FeedEntries(key: string, feed: FeedConfig, svc: Services): (r: seq<Entry>)
    ensures !Fetchable(feed) ==> r == []
    ensures Fetchable(feed) && !svc.fetch(feed.url.value).Body? ==> r == []
    ensures Fetchable(feed) && svc.fetch(feed.url.value).Body? ==>
      var normalized := NormalizeFeed(svc.parseXml(svc.fetch(feed.url.value).text), Some(feed.tags.GetOr([])), svc.stamp);
      && |r| == |normalized|
      && forall k :: 0 <= k < |r| ==> r[k] == WithSource(normalized[k], feed.name, key)
    ensures forall i :: 0 <= i < |r| ==>
      && Listed(r[i]) && r[i].id != "" && r[i].tags == Some(feed.tags.GetOr([]))
      && r[i].sourceTitle.Some? && r[i].author.Some?
  {
    if !Fetchable(feed) then []
    else match svc.fetch(feed.url.value)
      case Body(xml) =>
        var normalized := NormalizeFeed(svc.parseXml(xml), Some(feed.tags.GetOr([])), svc.stamp);
        seq(|normalized|, k requires 0 <= k < |normalized| => WithSource(normalized[k], feed.name, key))
      case _ => []
  }

  /** All feeds' entries, feed by feed in configuration order. */
  function Gather(feeds: seq<(string, FeedConfig)>, svc: Services): (r: seq<Entry>)
    ensures forall i :: 0 <= i < |r| ==> Listed(r[i]) && r[i].id != "" && r[i].sourceTitle.Some? && r[i].author.Some?
    decreases |feeds|
  {
    if |feeds| == 0 then []
    else FeedEntries(feeds[0].0, feeds[0].1, svc) + Gather(feeds[1..], svc)
  }

  /** The entries of each element, one element after the other. */
  function Concat<T, U>(xs: seq<T>, f: T -> seq<U>): (r: seq<U>)
    ensures |xs| == 1 ==> r == f(xs[0])
    decreases |xs|
  {
    if |xs| == 0 then [] else f(xs[0]) + Concat(xs[1..], f)
  }

  lemma {:induction false} ConcatAppend<T, U>(a: seq<T>, b: seq<T>, f: T -> seq<U>)
    ensures Concat(a + b, f) == Concat(a, f) + Concat(b, f)
    decreases |a|
  {
    if |a| == 0 {
      assert a + b == b;
    } else {
      assert (a + b)[0] == a[0] && (a + b)[1..] == a[1..] + b;
      ConcatAppend(a[1..], b, f);
    }
  }

  /** `FeedEntries` of one configured `(key, feed)` pair. */
  function EntriesOf(svc: Services): ((string, FeedConfig)) -> seq<Entry> {
    (f: (string, FeedConfig)) => FeedEntries(f.0, f.1, svc)
  }

  /** Gathering is the concatenation, in configuration order, of each feed's
      entries. */
  lemma {:induction false} GatherIsConcat(feeds: seq<(string, FeedConfig)>, svc: Services)
    ensures Gather(feeds, svc) == Concat(feeds, EntriesOf(svc))
    decreases |feeds|
  {
    if |feeds| > 0 {
      GatherIsConcat(feeds[1..], svc);
    }
  }

  /** Gathering two runs of feeds is gathering each, one after the other. */
  lemma GatherAppend(a: seq<(string, FeedConfig)>, b: seq<(string, FeedConfig)>, svc: Services)
    ensures Gather(a + b, svc) == Gather(a, svc) + Gather(b, svc)
  {
    GatherIsConcat(a + b, svc);
    GatherIsConcat(a, svc);
    GatherIsConcat(b, svc);
    ConcatAppend(a, b, EntriesOf(svc));
  }

  /** The `i`-th feed's entries sit between those of the feeds before and after it. */
  lemma GatherAround(feeds: seq<(string, FeedConfig)>, i: nat, svc: Services)
    requires i < |feeds|
    ensures Gather(feeds, svc)
      == Gather(feeds[..i], svc) + FeedEntries(feeds[i].0, feeds[i].1, svc) + Gather(feeds[i + 1..], svc)
  {
    assert feeds == feeds[..i] + ([feeds[i]] + feeds[i + 1..]);
    GatherAppend(feeds[..i], [feeds[i]] + feeds[i + 1..], svc);
    assert ([feeds[i]] + feeds[i + 1..])[1..] == feeds[i + 1..];
  }

  /** A feed that is skipped or whose fetch fails adds nothing: the result is that
      of the other feeds. */
  lemma FailedFeedAddsNothing(feeds: seq<(string, FeedConfig)>, i: nat, svc: Services)
    requires i < |feeds|
    requires !Fetchable(feeds[i].1) || !svc.fetch(feeds[i].1.url.value).Body?
    ensures Gather(feeds, svc) == Gather(feeds[..i] + feeds[i + 1..], svc)
  {
    GatherAround(feeds, i, svc);
    GatherAppend(feeds[..i], feeds[i + 1..], svc);
  }

  // ---------------------------------------------------------------- selection

  /** An entry with the instant `Date.parse` read from its `updated`. */
  datatype Timed = Timed(entry: Entry, ms: int)

  function Ms(t: Timed): int {
    t.ms
  }

  /** The entries whose time parses and is not before the cutoff, with that time. */
  function Dated(entries: seq<Entry>, parseMs: string -> Option<int>, cutoff: real): (r: seq<Timed>)
    ensures |r| <= |entries|
    ensures forall i :: 0 <= i < |r| ==>
      parseMs(r[i].entry.updated) == Some(r[i].ms) && r[i].ms as real >= cutoff
    decreases |entries|
  {
    if |entries| == 0 then []
    else
      var rest := Dated(entries[1..], parseMs, cutoff);
      match parseMs(entries[0].updated)
      case Some(ms) => if ms as real >= cutoff then [Timed(entries[0], ms)] + rest else rest
      case None => rest
  }

  /** An entry is dated exactly when its time parses and is recent, and it keeps
      its multiplicity. */
  lemma {:induction false} DatedCounts(entries: seq<Entry>, parseMs: string -> Option<int>, cutoff: real, t: Timed)
    ensures multiset(Dated(entries, parseMs, cutoff))[t] ==
      if parseMs(t.entry.updated) == Some(t.ms) && t.ms as real >= cutoff then multiset(entries)[t.entry] else 0
    decreases |entries|
  {
    if |entries| > 0 {
      DatedCounts(entries[1..], parseMs, cutoff, t);
      assert entries == [entries[0]] + entries[1..];
    }
  }

  /** `slice(0, n)`. */
  function Take<T>(s: seq<T>, n: nat): (r: seq<T>)
    ensures |r| == (if n < |s| then n else |s|) && r == s[..|r|]
    ensures |s| <= n ==> r == s
    ensures multiset(r) + multiset(s[|r|..]) == multiset(s)
  {
    var r := if n < |s| then s[..n] else s;
    assert s == r + s[|r|..];
    r
  }

  lemma DescendingPrefix<T>(s: seq<T>, key: T -> int, m: nat)
    requires m <= |s| && Descending(s, key)
    ensures Descending(s[..m], key)
  {
    assert forall i :: 0 <= i < m ==> s[..m][i] == s[i];
  }

  /** The dated entries newest first, ties in their gathered order. */
  function Newest(entries: seq<Entry>, parseMs: string -> Option<int>, cutoff: real): (r: seq<Timed>)
    ensures Descending(r, Ms)
    ensures multiset(r) == multiset(Dated(entries, parseMs, cutoff))
    ensures forall k :: WithKey(r, Ms, k) == WithKey(Dated(entries, parseMs, cutoff), Ms, k)
  {
    var dated := Dated(entries, parseMs, cutoff);
    SortOrders(dated, Ms);
    SortPermutes(dated, Ms);
    forall k ensures WithKey(SortByKeyDesc(dated, Ms), Ms, k) == WithKey(dated, Ms, k) {
      SortIsStable(dated, Ms, k);
    }
    SortByKeyDesc(dated, Ms)
  }

  /** `filter`, then the stable sort newest first, then `slice(0, limit)`. */
  function SelectTimed(entries: seq<Entry>, parseMs: string -> Option<int>, cutoff: real, limit: nat): (r: seq<Timed>)
    ensures |r| == if limit < |Dated(entries, parseMs, cutoff)| then limit else |Dated(entries, parseMs, cutoff)|
    ensures Descending(r, Ms)
    ensures forall i :: 0 <= i < |r| ==> parseMs(r[i].entry.updated) == Some(r[i].ms) && r[i].ms as real >= cutoff
    ensures multiset(r) <= multiset(Dated(entries, parseMs, cutoff))
    ensures |Dated(entries, parseMs, cutoff)| <= limit ==> multiset(r) == multiset(Dated(entries, parseMs, cutoff))
  {
    var sorted := Newest(entries, parseMs, cutoff);
    var r := Take(sorted, limit);
    DescendingPrefix(sorted, Ms, |r|);
    assert |sorted| == |Dated(entries, parseMs, cutoff)| by {
      assert |multiset(sorted)| == |multiset(Dated(entries, parseMs, cutoff))|;
    }
    forall i | 0 <= i < |r| ensures parseMs(r[i].entry.updated) == Some(r[i].ms) && r[i].ms as real >= cutoff {
      assert r[i] in multiset(sorted);
      assert r[i] in Dated(entries, parseMs, cutoff);
    }
    r
  }

  /** What a prefix of an ordered sequence leaves out is no larger than what it
      keeps. */
  lemma LeftOutNoLarger<T>(s: seq<T>, key: T -> int, n: nat, t: T)
    requires n <= |s| && Descending(s, key)
    requires t in multiset(s) - multiset(s[..n])
    ensures forall i :: 0 <= i < n ==> key(t) <= key(s[i])
  {
    assert s == s[..n] + s[n..];
    assert multiset(s) == multiset(s[..n]) + multiset(s[n..]);
    assert t in multiset(s[n..]);
    var j :| 0 <= j < |s[n..]| && s[n..][j] == t;
    assert s[n + j] == t;
  }

  /** Whatever the limit leaves out is no newer than anything it keeps. */
  lemma SelectKeepsNewest(entries: seq<Entry>, parseMs: string -> Option<int>, cutoff: real, limit: nat, t: Timed)
    requires t in multiset(Dated(entries, parseMs, cutoff)) - multiset(SelectTimed(entries, parseMs, cutoff, limit))
    ensures forall i :: 0 <= i < |SelectTimed(entries, parseMs, cutoff, limit)| ==>
      t.ms <= SelectTimed(entries, parseMs, cutoff, limit)[i].ms
  {
    var sorted := Newest(entries, parseMs, cutoff);
    var r := SelectTimed(entries, parseMs, cutoff, limit);
    assert r == Take(sorted, limit) == sorted[..|r|];
    LeftOutNoLarger(sorted, Ms, |r|, t);
  }

  /** The entries of the document: the selection without the times. */
  function Select(entries: seq<Entry>, parseMs: string -> Option<int>, cutoff: real, limit: nat): (r: seq<Entry>)
    ensures |r| == if limit < |Dated(entries, parseMs, cutoff)| then limit else |Dated(entries, parseMs, cutoff)|
    ensures forall i :: 0 <= i < |r| ==>
      && r[i] in entries
      && parseMs(r[i].updated).Some? && parseMs(r[i].updated).value as real >= cutoff
    ensures forall i, j :: 0 <= i < j < |r| ==> parseMs(r[j].updated).value <= parseMs(r[i].updated).value
  {
    var timed := SelectTimed(entries, parseMs, cutoff, limit);
    SelectedFromEntries(entries, parseMs, cutoff, limit);
    var r := Untimed(timed);
    assert forall i, j :: 0 <= i < j < |r| ==> Ms(timed[j]) <= Ms(timed[i]);
    r
  }

  /** The entries of timed entries, in the same order. */
  function Untimed(timed: seq<Timed>): (r: seq<Entry>)
    ensures |r| == |timed|
    ensures forall k :: 0 <= k < |r| ==> r[k] == timed[k].entry
  {
    seq(|timed|, k requires 0 <= k < |timed| => timed[k].entry)
  }

  /** Every selected entry is one of the gathered entries. */
  lemma SelectedFromEntries(entries: seq<Entry>, parseMs: string -> Option<int>, cutoff: real, limit: nat)
    ensures var timed := SelectTimed(entries, parseMs, cutoff, limit);
      forall i :: 0 <= i < |timed| ==> timed[i].entry in entries
  {
    var timed := SelectTimed(entries, parseMs, cutoff, limit);
    forall i | 0 <= i < |timed| ensures timed[i].entry in entries {
      assert timed[i] in multiset(Dated(entries, parseMs, cutoff));
      DatedCounts(entries, parseMs, cutoff, timed[i]);
    }
  }

  /** `slice(0, maxItems)` on a positive number: its integer part. */
  function Limit(maxItems: real): (r: nat)
    requires maxItems >= 1.0
    ensures r >= 1 && r as real <= maxItems < r as real + 1.0
  {
    maxItems.Floor
  }

  /** `Date.now() - days * 24 * 60 * 60 * 1000`. */
  function Cutoff(nowMs: int, days: real): real {
    nowMs as real - days * DayMs as real
  }

  // ---------------------------------------------------------------- dispatch

  const CorsHeaders: seq<(string, string)> := [
    ("Access-Control-Allow-Origin", "*"),
    ("Access-Control-Allow-Methods", "GET, OPTIONS"),
    ("Access-Control-Allow-Headers", "Content-Type")]

  const AtomHeaders: seq<(string, string)> := [
    ("Content-Type", "application/atom+xml; charset=utf-8"),
    ("Cache-Control", "public, max-age=300")]

  datatype Response = Response(status: nat, body: Option<string>, headers: seq<(string, string)>)

  function Plain(status: nat, text: string): Response {
    Response(status, Some(text), CorsHeaders)
  }

  /** The gist's text, or the error response the handler returns. */
  function GistText(answer: Fetch): (r: Result<string>)
    ensures answer.Body? <==> r.Ok?
    ensures answer.Body? ==> r.value == answer.text
    ensures answer.Failed? ==> r.error == answer.reason
    ensures answer.NotOk? ==> r.error == Decimal(answer.status)
  {
    match answer
    case Failed(reason) => Err(reason)
    case NotOk(status) => Err(Decimal(status))
    case Body(text) => Ok(text)
  }

  /** `fetch`: preflight, method check, settings, gist, TOML, then the document. */
  function Handle(req: Request, env: WorkerEnv, nowMs: int, now: string, svc: Services): (r: Response)
    ensures CorsHeaders <= r.headers
    ensures req.verb == "OPTIONS" ==> r == Response(204, None, CorsHeaders)
    ensures req.verb != "OPTIONS" && req.verb != "GET" ==> r == Plain(405, "Method Not Allowed")
    ensures req.verb == "GET" && ReadSettings(req, env, svc.number).None? ==> r == Plain(400, "Missing gist url")
    ensures req.verb == "GET" && ReadSettings(req, env, svc.number).Some? ==>
      var gist := svc.fetch(ReadSettings(req, env, svc.number).value.gistUrl);
      && (!gist.Body? ==> r == Plain(502, "Failed to load gist: " + GistText(gist).error))
      && (gist.Body? && svc.toml(gist.text).Err? ==> r == Plain(400, "Invalid gist toml: " + svc.toml(gist.text).error))
      && (gist.Body? && svc.toml(gist.text).Ok? ==>
            var settings := ReadSettings(req, env, svc.number).value;
            var chosen := Select(Gather(svc.toml(gist.text).value, svc), svc.parseMs,
                                 Cutoff(nowMs, settings.days), Limit(settings.maxItems));
            r == Response(200, Some(RenderAtom(chosen, settings.meta, now)), CorsHeaders + AtomHeaders))
    ensures r.status == 200 ==> r.body.Some? && StripPrefix(r.body.value, XmlDecl + FeedOpen).Some?
  {
    if req.verb == "OPTIONS" then Response(204, None, CorsHeaders)
    else if req.verb != "GET" then Plain(405, "Method Not Allowed")
    else match ReadSettings(req, env, svc.number)
      case None => Plain(400, "Missing gist url")
      case Some(settings) =>
        match GistText(svc.fetch(settings.gistUrl))
        case Err(reason) => Plain(502, "Failed to load gist: " + reason)
        case Ok(text) =>
          match svc.toml(text)
          case Err(reason) => Plain(400, "Invalid gist toml: " + reason)
          case Ok(feeds) =>
            var entries := Gather(feeds, svc);
            var chosen := Select(entries, svc.parseMs, Cutoff(nowMs, settings.days), Limit(settings.maxItems));
            Response(200, Some(RenderAtom(chosen, settings.meta, now)), CorsHeaders + AtomHeaders)
  }
}
