/** The two entry points of apps/umbreon-mobile/src/timeline.rs that tie the pipeline
    together: `init_feed_bootstrap`, which picks the feed-server URL and the initial
    timeline from the settings and the cache, and `trigger_feed_sync`, which loads
    the feed, summarises it, caches it and reports through a status line. */
module Facade {
  import opened Wrappers
  import opened Text
  import opened Items
  import opened FeedParse
  import opened Sync
  import opened Batching
  import opened Summarize
  import opened Storage
  import opened View

  const DefaultFeedServerUrl: string := "https://feed-aggregator-worker.scnace.workers.dev"

  // ---------------------------------------------------------------- bootstrap

  /** A tag that marks a cache as written by a build that stamps languages. */
  predicate StampedTag(tag: string) {
    StartsWith(TrimStart(tag, IsRustSpace), StampPrefix)
  }

  predicate HasStampedTag(item: FeedItem) {
    exists i :: 0 <= i < |item.tags| && StampedTag(item.tags[i])
  }

  function AnyStamped(items: seq<FeedItem>): (r: bool)
    ensures r <==> exists k :: 0 <= k < |items| && HasStampedTag(items[k])
    decreases |items|
  {
    if |items| == 0 then false
    else if exists i :: 0 <= i < |items[0].tags| && StampedTag(items[0].tags[i]) then true
    else
      var later := AnyStamped(items[1..]);
      assert later ==> exists k :: 0 <= k < |items| && HasStampedTag(items[k]) by {
        if later {
          var k :| 0 <= k < |items[1..]| && HasStampedTag(items[1..][k]);
          assert items[k + 1] == items[1..][k];
        }
      }
      later
  }

  datatype FeedBootstrap = FeedBootstrap(feedItems: seq<FeedItem>, feedServerUrl: string,
                                         shouldAutoSyncStaleCache: bool)

  /** The stored URL or the default one; the cache, or the sample items when the
      cache is empty; and a re-sync when the cache holds items none of which is
      stamped. `mock` stands for the sample items of the app. */
  function InitFeedBootstrap(stored: StoredSettings, cached: seq<FeedItem>, mock: seq<FeedItem>): (r: FeedBootstrap)
    ensures r.feedServerUrl == stored.feedServerUrl.GetOr(DefaultFeedServerUrl)
    ensures |cached| == 0 ==> r.feedItems == mock
    ensures |cached| > 0 ==> r.feedItems == cached
    ensures r.shouldAutoSyncStaleCache <==>
      |cached| > 0 && forall k :: 0 <= k < |cached| ==> !HasStampedTag(cached[k])
  {
    FeedBootstrap(if |cached| == 0 then mock else cached,
                  stored.feedServerUrl.GetOr(DefaultFeedServerUrl),
                  |cached| > 0 && !AnyStamped(cached))
  }

  /** A cache that is not stale and not empty holds an item the timeline stamps. */
  lemma FreshCacheShowsStamp(stored: StoredSettings, cached: seq<FeedItem>, mock: seq<FeedItem>)
    requires |cached| > 0 && !InitFeedBootstrap(stored, cached, mock).shouldAutoSyncStaleCache
    ensures exists k :: 0 <= k < |cached| && StackLangStamp(cached[k].tags).Some?
  {
    var k :| 0 <= k < |cached| && HasStampedTag(cached[k]);
    var i :| 0 <= i < |cached[k].tags| && StampedTag(cached[k].tags[i]);
    PrefixedTagHasLabel(cached[k].tags[i]);
    assert StackLangStamp(cached[k].tags).Some?;
  }

  // ---------------------------------------------------------------- sync

  const EnterUrl: string := "Please enter a Feed Server URL."
  const SyncingFeeds: string := "Syncing feeds..."
  const FeedsUpdated: string := "Feeds updated."
  const CacheFailedPrefix: string := "Feeds updated, but cache failed: "

  /** The status line after a request: `正在生成摘要 {done}/{total}...`. */
  function ProgressLine(done: nat, total: nat): (r: string)
    ensures StripPrefix(r, "正在生成摘要 ") == Some(Decimal(done) + "/" + Decimal(total) + "...")
  {
    var rest := Decimal(done) + "/" + Decimal(total) + "...";
    assert ("正在生成摘要 " + rest)[|"正在生成摘要 "|..] == rest;
    "正在生成摘要 " + rest
  }

  /** The status of the store: success, or the error after the fixed prefix. */
  function CacheStatus(stored: Result<()>): (r: string)
    ensures stored.Ok? <==> r == FeedsUpdated
    ensures stored.Err? ==> StripPrefix(r, CacheFailedPrefix) == Some(stored.error)
  {
    match stored
    case Ok(_) => FeedsUpdated
    case Err(err) =>
      assert (CacheFailedPrefix + err)[|CacheFailedPrefix|..] == err;
      assert (CacheFailedPrefix + err)[13] == ',';
      CacheFailedPrefix + err
  }

  /** What the pass takes from outside: the feed server's answer and how to read
      it, the model's replies, the sanitiser of the replies, and the database's
      errors. */
  datatype World = World(
    env: Env,
    parse: seq<byte> -> Result<Feed>,
    lossy: seq<byte> -> seq<byte>,
    fetched: Fetched,
    reply: nat -> Result<string>,
    cleanReply: string -> string,
    fail: Step -> Option<string>)

  /** No synced item is summarised yet. */
  lemma LoadedUnsummarized(w: World)
    requires LoadFeeds(w.env, w.parse, w.lossy, w.fetched).Ok?
    ensures var loaded := LoadFeeds(w.env, w.parse, w.lossy, w.fetched).value;
      forall i :: 0 <= i < |loaded| ==> !loaded[i].summarized
  {
    var loaded := LoadFeeds(w.env, w.parse, w.lossy, w.fetched).value;
    SyncedItemsShape(w.env, w.parse, w.lossy, w.fetched);
    forall i | 0 <= i < |loaded| ensures !loaded[i].summarized {
      assert loaded[i] in loaded;
    }
  }

  /** What a successful sync leaves behind, given the loaded items: the timeline
      holds them with at most their summaries and flags changed; the table holds
      what the store made of them; the status line went from "syncing" through one
      progress line per request to the cache status; and every item was requested
      exactly when the model is configured. */
  ghost predicate Published(loaded: seq<FeedItem>, table: seq<Row>, endpoint: string, apiKey: string,
                            model: string, w: World, items': seq<FeedItem>, statuses: seq<string>,
                            table': seq<Row>, requests: seq<Request>)
  {
    var stored := StoreFeedItems(table, items', w.fail);
    && |items'| == |loaded|
    && (forall i :: 0 <= i < |loaded| ==>
          items'[i].(summary := loaded[i].summary, summarized := loaded[i].summarized) == loaded[i])
    && table' == stored.0
    && |statuses| >= 2
    && statuses[0] == SyncingFeeds
    && statuses[|statuses| - 1] == CacheStatus(stored.1)
    && (!Configured(endpoint, apiKey, model) ==> items' == loaded && requests == [] && |statuses| == 2)
    && (Configured(endpoint, apiKey, model) ==>
          && |requests| == |loaded|
          && (forall i :: 0 <= i < |loaded| ==>
                && requests[i] == RequestFor(loaded[i])
                && items'[i] == Outcome(loaded[i], w.reply(i), w.cleanReply))
          && |statuses| == |loaded| + 2
          && forall k :: 1 <= k <= |loaded| ==> statuses[k] == ProgressLine(k, |loaded|))
  }

  /** `trigger_feed_sync`: with no URL only the status changes. Otherwise the flag
      is raised, the feed is loaded; on failure the status shows the error and the
      timeline stays; on success the items are summarised when the model is
      configured, stored, and shown, and the status reports whether caching worked.
      The flag is lowered at the end. `statuses` lists the status line's successive
      values. */
  method TriggerFeedSync(url: string, items: seq<FeedItem>, syncing: bool, table: seq<Row>,
                         endpoint: string, apiKey: string, model: string, w: World)
    returns (items': seq<FeedItem>, statuses: seq<string>, syncing': bool, table': seq<Row>,
             requests: seq<Request>)
    ensures url == "" ==>
      items' == items && statuses == [EnterUrl] && syncing' == syncing && table' == table && requests == []
    ensures url != "" ==> !syncing' && |statuses| >= 2 && statuses[0] == SyncingFeeds
    ensures url != "" && LoadFeeds(w.env, w.parse, w.lossy, w.fetched).Err? ==>
      && items' == items && table' == table && requests == []
      && statuses == [SyncingFeeds, LoadFeeds(w.env, w.parse, w.lossy, w.fetched).error]
    ensures url != "" && LoadFeeds(w.env, w.parse, w.lossy, w.fetched).Ok? ==>
      Published(LoadFeeds(w.env, w.parse, w.lossy, w.fetched).value, table, endpoint, apiKey, model, w,
                items', statuses, table', requests)
  {
    if url == "" {
      items', statuses, syncing', table', requests := items, [EnterUrl], syncing, table, [];
      return;
    }
    syncing' := false;
    var result := LoadFeeds(w.env, w.parse, w.lossy, w.fetched);
    if result.Err? {
      items', statuses, table', requests := items, [SyncingFeeds, result.error], table, [];
    } else {
      LoadedUnsummarized(w);
      items', statuses, table', requests := Publish(result.value, table, endpoint, apiKey, model, w);
    }
  }

  /** The status lines of a pass: "syncing", one line per progress report, and the
      cache status. */
  function StatusLines(progress: seq<(nat, nat)>, cache: Result<()>): (r: seq<string>)
    ensures |r| == |progress| + 2 && r[0] == SyncingFeeds && r[|r| - 1] == CacheStatus(cache)
    ensures forall k :: 0 <= k < |progress| ==> r[k + 1] == ProgressLine(progress[k].0, progress[k].1)
  {
    [SyncingFeeds] + seq(|progress|, k requires 0 <= k < |progress| => ProgressLine(progress[k].0, progress[k].1))
      + [CacheStatus(cache)]
  }

  /** The successful branch: summarise freshly synced items (none of which is yet
      summarised, so every one is requested), store them, and report. */
  method Publish(loaded: seq<FeedItem>, table: seq<Row>, endpoint: string, apiKey: string, model: string,
                 w: World)
    returns (items': seq<FeedItem>, statuses: seq<string>, table': seq<Row>, requests: seq<Request>)
    requires forall i :: 0 <= i < |loaded| ==> !loaded[i].summarized
    ensures |statuses| >= 2 && statuses[0] == SyncingFeeds
    ensures Published(loaded, table, endpoint, apiKey, model, w, items', statuses, table', requests)
  {
    var progress, groups, batches;
    items', requests, progress, groups, batches :=
      SummarizeItems(loaded, endpoint, apiKey, model, w.reply, w.cleanReply);
    if Configured(endpoint, apiKey, model) {
      EverythingPendingWhenNoneSummarized(loaded, 0);
      assert |requests| == |loaded| && progress == Progress(|loaded|, |loaded|);
      forall i | 0 <= i < |loaded|
        ensures requests[i] == RequestFor(loaded[i]) && items'[i] == Outcome(loaded[i], w.reply(i), w.cleanReply)
      {
        assert Pending(loaded)[i] == i;
      }
    }
    var stored := StoreFeedItems(table, items', w.fail);
    table' := stored.0;
    statuses := StatusLines(progress, stored.1);
    PublishedFrom(loaded, table, endpoint, apiKey, model, w, items', statuses, table', requests, progress);
  }

  /** The pieces of a successful sync assemble into `Published`. */
  lemma PublishedFrom(loaded: seq<FeedItem>, table: seq<Row>, endpoint: string, apiKey: string,
                      model: string, w: World, items': seq<FeedItem>, statuses: seq<string>,
                      table': seq<Row>, requests: seq<Request>, progress: seq<(nat, nat)>)
    requires |items'| == |loaded|
    requires forall i :: 0 <= i < |loaded| ==>
      items'[i].(summary := loaded[i].summary, summarized := loaded[i].summarized) == loaded[i]
    requires !Configured(endpoint, apiKey, model) ==> items' == loaded && requests == [] && progress == []
    requires Configured(endpoint, apiKey, model) ==>
      && |requests| == |loaded| && progress == Progress(|loaded|, |loaded|)
      && forall i :: 0 <= i < |loaded| ==>
           requests[i] == RequestFor(loaded[i]) && items'[i] == Outcome(loaded[i], w.reply(i), w.cleanReply)
    requires table' == StoreFeedItems(table, items', w.fail).0
    requires statuses == StatusLines(progress, StoreFeedItems(table, items', w.fail).1)
    ensures Published(loaded, table, endpoint, apiKey, model, w, items', statuses, table', requests)
  {
    if Configured(endpoint, apiKey, model) {
      forall k | 1 <= k <= |loaded| ensures statuses[k] == ProgressLine(k, |loaded|) {
        assert statuses[(k - 1) + 1] == ProgressLine(progress[k - 1].0, progress[k - 1].1);
      }
    }
  }
}
