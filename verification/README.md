# Umbreon feed pipeline — a Dafny model

This project models the feed pipeline of Umbreon in two parts.

The mobile app (`apps/umbreon-mobile`):
- bootstraps its timeline from the SQLite cache;
- syncs from the feed server, decoding the document with a fallback chain and normalising each entry into a `FeedItem`;
- summarises unsummarised items through an LLM endpoint, in batches of 20 and groups of 5;
- stores the result and shows a 60-day window of it, paginated 30 at a time.

The feed-aggregator worker (`workers/feed-aggregator-worker`):
- reads a gist of feeds;
- normalises each RSS or Atom document;
- keeps the newest entries inside a day window;
- renders one Atom document.

Each external library is a parameter of the functions that use it. These are:
- feed_rs parsing;
- ammonia cleaning;
- chrono's non-RFC 3339 patterns;
- `String::from_utf8_lossy`;
- the LLM reply;
- the SQLite failure points;
- `localStorage`;
- fast-xml-parser;
- TOML;
- `Date.parse`;
- `Number`;
- `fetch`.

Everything between those calls is modelled concretely:
- byte-level decoding fallbacks;
- whitespace trimming (Rust's and JavaScript's whitespace sets);
- chrono's RFC 3339 parser;
- the civil-date arithmetic behind `format_date_utc8`;
- tag normalisation;
- the stable descending sorts;
- the batching loop;
- the settings precedence;
- the row encoding;
- XML escaping and CDATA splitting;
- the Atom renderer.

Modules, in dependency order:
- Wrappers, Text, Search, Order, Sorting: general support.
- Calendar and Rfc3339: dates and times.
- Timestamps: `helper.rs`.
- FeedParse, Html, Items, Sync, Batching, Summarize, Facade: `timeline.rs`.
- Storage: `storage.rs`.
- View: `components/timeline.rs`.
- JsValue, Xml, Normalize, Atom, Aggregator: the worker's `index.ts`.

Items read from the feed server are always built with `summarized = false` (`timeline.rs` line 226), so every sync asks the LLM to summarise every item again, including items an earlier sync already summarised. `Facade.LoadedUnsummarized` and `Summarize.EverythingPendingWhenNoneSummarized` state this.

One consequence of the code as written, stated by `Sync.SubSecondEntryFailsSync`:
- feed_rs instants keep their nanoseconds, and chrono displays a non-zero fraction as `.fff`, `.ffffff` or `.fffffffff` after the seconds;
- none of the patterns in `helper.rs` reads a fraction in that position;
- so one entry dated at a sub-second instant fails the whole sync with the invalid-date message.

## Model

Source paths are relative to the repository root.

| member | source | states |
|---|---|---|
| FeedParse.StripBom | apps/umbreon-mobile/src/timeline.rs:45-47 | a leading UTF-8 byte-order mark is removed and nothing else; without one the bytes are unchanged |
| FeedParse.Attempts | apps/umbreon-mobile/src/timeline.rs:40-64 | the raw bytes and the BOM-stripped bytes are always tried; the two rewritten buffers are added exactly when the stripped bytes contain `<` |
| FeedParse.ParseWithFallback | apps/umbreon-mobile/src/timeline.rs:40-67 | the first attempt that parses wins, and the raw bytes win whenever they parse; an error comes back exactly when every attempt fails: the no-XML message when there is no `<`, else the fixed prefix and the last attempt's error |
| FeedParse.RewriteVersionTouchesAtMostTwoBytes | apps/umbreon-mobile/src/timeline.rs:58-63 | the version rewrite keeps the length and changes at most the two version digits it targets |
| FeedParse.PlainDoubleQuotedDeclarationIsKept | apps/umbreon-mobile/src/timeline.rs:58-60 | the double-quoted pattern holds backslashes, so an ordinary `<rss version="1.0">` declaration is left as it is |
| FeedParse.SingleQuotedDeclarationIsRewritten | apps/umbreon-mobile/src/timeline.rs:61-63 | a single-quoted RSS 1.0 declaration is rewritten to version 2.0 |
| Html.StripTags | apps/umbreon-mobile/src/timeline.rs:69-84 | the tag-stripping pass leaves no `<` or `>` and introduces no character absent from the input |
| Html.StripTagsKeepsPlainText | apps/umbreon-mobile/src/timeline.rs:69-84 | text without tags passes through unchanged |
| Html.WordsOfJoin | apps/umbreon-mobile/src/timeline.rs:85-88 | splitting on whitespace undoes joining non-blank words with single spaces |
| Html.PlainTextShape | apps/umbreon-mobile/src/timeline.rs:69-89 | plain text has no tag brackets, no leading or trailing space, and only single spaces between words |
| Html.PlainTextIdempotent | apps/umbreon-mobile/src/timeline.rs:69-89 | converting plain text to plain text again changes nothing |
| Html.FallbackSummary | apps/umbreon-mobile/src/timeline.rs:91-98 | text of at most 140 characters is kept whole; longer text becomes its first 140 characters followed by `…`, so never more than 141 characters |
| Html.FallbackSummaryIdempotent | apps/umbreon-mobile/src/timeline.rs:91-98 | truncating an excerpt again changes nothing |
| Calendar.DaysFromCivilOfCivil | apps/umbreon-mobile/src/timeline.rs:100-108 | every day number is the day number of the civil date computed from it |
| Calendar.CivilOfDaysFromCivil | apps/umbreon-mobile/src/timeline.rs:100-108 | every valid civil date is the civil date of its own day number |
| Calendar.LocalDate | apps/umbreon-mobile/src/timeline.rs:100-108 | the date shown is the valid calendar day whose UTC+8 bounds contain the timestamp |
| Calendar.FormatDateUtc8 | apps/umbreon-mobile/src/timeline.rs:100-108 | a representable timestamp renders as its UTC+8 date; one outside chrono's range renders as `1970-01-01` |
| Calendar.FormatDateUtc8Opt | apps/umbreon-mobile/src/storage.rs:98-104 | a date exists exactly for timestamps in chrono's range, and it is the UTC+8 date |
| Calendar.FormatDateRoundTrip | apps/umbreon-mobile/src/timeline.rs:100-108 | the formatted date is ten characters that parse back as the UTC+8 calendar day |
| Calendar.RenderDateRoundTrip | apps/umbreon-mobile/src/storage.rs:98-104 | `%Y-%m-%d` rendering of a four-digit-year date parses back to the same date |
| Calendar.NewYear2024 | apps/umbreon-mobile/src/timeline.rs:100-108 | 2024-01-01 is day 19723 of the Unix epoch, second 1704067200 |
| Rfc3339.ParseDateTime | apps/umbreon-mobile/src/helper.rs:5-7 | whatever the RFC 3339 reader accepts is a valid date, clock and offset |
| Rfc3339.ParseRfc3339 | apps/umbreon-mobile/src/helper.rs:5-7 | a timestamp is produced exactly when the text reads as a date-time, and it is that date-time's instant |
| Rfc3339.ParseDateTimeOfRender | apps/umbreon-mobile/src/helper.rs:5-7 | every well-formed date-time, rendered, reads back as itself |
| Rfc3339.ParseDateTimeWithFraction | apps/umbreon-mobile/src/helper.rs:5-7 | a date-time written with a dot and digits after the seconds reads as the same date-time, the fraction dropped; a dot without digits is unreadable |
| Rfc3339.InstantRoundTrip | apps/umbreon-mobile/src/helper.rs:5-7 | every instant rendered in UTC parses back to the same instant |
| Rfc3339.NewYear2024Parses | apps/umbreon-mobile/src/helper.rs:5-7 | `2024-01-01T00:00:00Z` parses to 1704067200 |
| Rfc3339.MinusSignOffsetParses | apps/umbreon-mobile/src/helper.rs:5-7 | an offset written with U+2212 MINUS SIGN, `2015-01-20T17:35:20−08:00`, reads as −08:00, as chrono reads it |
| Timestamps.FirstSome | apps/umbreon-mobile/src/helper.rs:4-27 | the first pattern that succeeds gives the result; none succeeding gives none |
| Timestamps.ParseForFeed | apps/umbreon-mobile/src/helper.rs:52-59 | RSS 1 and RSS 2 feeds use the RSS chain; every other feed type uses the Atom chain |
| Timestamps.AtomReadsRfc3339Exactly | apps/umbreon-mobile/src/helper.rs:4-27 | for an RFC 3339 text the Atom chain returns its instant, whatever the later patterns would say |
| Timestamps.Rfc3339RejectsZoneName | apps/umbreon-mobile/src/helper.rs:5-16 | text ending in a zone name such as ` UTC` is never RFC 3339, so it falls through to the suffix patterns |
| Timestamps.AtomZoneSuffix | apps/umbreon-mobile/src/helper.rs:11-22 | a wall time with a ` UTC` or ` GMT` suffix that the zone-name pattern rejects is read as that wall time at offset `+0000` |
| Timestamps.AtomSuffixMatchesNaive | apps/umbreon-mobile/src/helper.rs:11-25 | when the suffixed and the naive pattern agree on a wall time, the suffix does not change the result |
| Timestamps.RssBareDateIsMidnight | apps/umbreon-mobile/src/helper.rs:33-36 | a bare RSS date reads as midnight UTC of that day |
| Timestamps.RssKeepsGmt | apps/umbreon-mobile/src/helper.rs:37-42 | text ending in ` GMT` skips the ` UTC` rewrite and goes to RFC 2822 first, then the bare date and the weekday patterns |
| Order.SortStringsSorted | apps/umbreon-mobile/src/timeline.rs:205-213 | the tag sort orders by byte-wise string order |
| Order.SortStringsPermutes | apps/umbreon-mobile/src/timeline.rs:205-213 | the tag sort is a permutation |
| Order.NormalizeTagsSpec | apps/umbreon-mobile/src/timeline.rs:205-213 | normalised tags are strictly increasing and are exactly the set of trimmed non-blank terms |
| Order.NormalizeTagsMembers | apps/umbreon-mobile/src/timeline.rs:205-213 | a string is a tag exactly when it is non-blank and the trim of some term |
| Order.NormalizeTagsUnique | apps/umbreon-mobile/src/timeline.rs:205-213 | any strictly increasing list holding the same tags equals the normalised list, so sort-then-dedup is the only answer |
| Sorting.SortPermutes | apps/umbreon-mobile/src/timeline.rs:241 | sorting by timestamp keeps every item, each as often as before |
| Sorting.SortOrders | apps/umbreon-mobile/src/timeline.rs:241 | the sort leaves items newest first |
| Sorting.SortIsStable | apps/umbreon-mobile/src/timeline.rs:241 | items with equal timestamps keep their relative order |
| Sorting.SortOfDescending | apps/umbreon-mobile/src/components/timeline.rs:77 | an already newest-first list is left as it is |
| Sync.UtcDisplay | apps/umbreon-mobile/src/timeline.rs:165-176 | the date text is the UTC wall time, with any sub-second fraction, followed by ` UTC` |
| Sync.Fraction | apps/umbreon-mobile/src/timeline.rs:165-170 | the sub-second part of chrono's display is empty exactly on a whole second, else a dot and 3, 6 or 9 digits (milli-, micro- or nanoseconds, the coarsest exact one) whose value is that count |
| Sync.FractionValue | apps/umbreon-mobile/src/timeline.rs:165-170 | the fraction digits scaled back to nanoseconds are the instant's nanoseconds |
| Sync.ParseForFeedOfDisplay | apps/umbreon-mobile/src/timeline.rs:165-191 | given chrono's patterns as they treat that text, the date text of a whole-second instant parses back to that instant whatever the feed type, and the text of a sub-second instant parses under no pattern |
| Sync.SummarySource | apps/umbreon-mobile/src/timeline.rs:139-149 | the summary source is the content body, else the entry summary, else the title |
| Sync.DateText | apps/umbreon-mobile/src/timeline.rs:165-176 | the published time is preferred to the updated time; there is no date text exactly when both are missing |
| Sync.Dated | apps/umbreon-mobile/src/timeline.rs:165-170 | the instant read is the published one, else the updated one, and the date text is exactly its display |
| Sync.ItemId | apps/umbreon-mobile/src/timeline.rs:193-203 | the entry id is kept when present; otherwise the id is `feed-` followed by the item's position |
| Sync.NormalizeEntry | apps/umbreon-mobile/src/timeline.rs:120-234 | an entry fails with the missing-date or invalid-date message exactly in those cases; otherwise the item carries the parsed timestamp, the UTC+8 date, the normalised tags and `summarized = false` |
| Sync.EntryKeepsItsInstant | apps/umbreon-mobile/src/timeline.rs:165-191 | a dated entry normalises exactly when its instant falls on a whole second, and then keeps that instant; a sub-second instant fails with the invalid-date message quoting its text |
| Sync.Collect | apps/umbreon-mobile/src/timeline.rs:221-234 | the collection succeeds exactly when every entry does, and then holds their items in order; otherwise it reports the first failure |
| Sync.LoadFeeds | apps/umbreon-mobile/src/timeline.rs:110-244 | request, read and parse failures give their messages; the sync succeeds exactly when the feed has entries and every entry normalises; otherwise the first entry error, or the no-entries error, is returned; a success is newest first and a stable permutation of the entries' items |
| Sync.UndatedEntryFailsSync | apps/umbreon-mobile/src/timeline.rs:165-176 | one entry without any date fails the whole sync |
| Sync.SubSecondEntryFailsSync | apps/umbreon-mobile/src/timeline.rs:165-191 | one entry whose instant has a sub-second part fails the whole sync |
| Sync.SyncReportsFirstBadEntry | apps/umbreon-mobile/src/timeline.rs:221-234 | the sync's error is the error of the first entry that fails |
| Sync.SyncedItemsShape | apps/umbreon-mobile/src/timeline.rs:221-234 | every synced item is unsummarised, its full content is its summary, and its tags are strictly increasing |
| Batching.RunQueue | apps/umbreon-mobile/src/timeline.rs:285-347 | every pending item is requested once and handled once, in order; the progress counts up to the total; groups of at most 5 and batches of at most 20 tile the pending list, only the last one short |
| Summarize.Pending | apps/umbreon-mobile/src/timeline.rs:272-283 | the pending list is exactly the positions of unsummarised items, in increasing order |
| Summarize.EverythingPendingWhenNoneSummarized | apps/umbreon-mobile/src/timeline.rs:272-283 | when no item is summarised, every item is pending, in position order |
| Summarize.NothingPendingWhenAllSummarized | apps/umbreon-mobile/src/timeline.rs:272-283 | when every item is summarised, nothing is pending |
| Summarize.Fallback | apps/umbreon-mobile/src/timeline.rs:277-281 | the fallback summary of a failed reply is at most 141 characters |
| Summarize.RequestFor | apps/umbreon-mobile/src/timeline.rs:276-304 | a request carries the item's title, and as content the item's summary or else its non-empty plain text, collapsed and tag-free; the fallback is the excerpt of that content |
| Summarize.OutcomeRule | apps/umbreon-mobile/src/timeline.rs:319-341 | only the summary and flag change; the item is summarised exactly when the reply is Ok and its cleaned text is non-blank, and then the summary is that cleaned text; otherwise the summary is the fallback |
| Summarize.PassKeepsOtherFields | apps/umbreon-mobile/src/timeline.rs:319-341 | only the summary and the summarised flag change, and a newly summarised item has a non-blank summary |
| Summarize.SummarizeItems | apps/umbreon-mobile/src/timeline.rs:262-347 | without an endpoint, key and model nothing is requested and nothing changes; otherwise every pending item gets one request and is updated from its reply, and summarised items are untouched |
| Facade.InitFeedBootstrap | apps/umbreon-mobile/src/timeline.rs:15-38 | the feed server defaults to the built-in URL; an empty cache shows the mock items; the cache is stale exactly when it is non-empty and no item has a StackLang tag |
| Facade.FreshCacheShowsStamp | apps/umbreon-mobile/src/timeline.rs:21-26 | a cache not flagged stale has an item whose card shows a StackLang stamp |
| Facade.CacheStatus | apps/umbreon-mobile/src/timeline.rs:349-354 | the status is the success line exactly when the store succeeded; otherwise it carries the store's error after the failure prefix |
| Facade.ProgressLine | apps/umbreon-mobile/src/timeline.rs:296-298 | the progress line reads done/total after the summarising prefix |
| Facade.LoadedUnsummarized | apps/umbreon-mobile/src/timeline.rs:221-234 | every item a successful sync loads is unsummarised, so all of them are re-requested |
| Facade.TriggerFeedSync | apps/umbreon-mobile/src/timeline.rs:246-362 | an empty URL only reports the error; otherwise the flag is cleared at the end and the first status says syncing; a failed load reports its error and changes nothing; after a successful one, with an endpoint, key and model, item i is requested with the request built from loaded item i and becomes the outcome of reply i, then the items are stored and published |
| Facade.Publish | apps/umbreon-mobile/src/timeline.rs:262-362 | the published state after a successful load: item i is requested with the request built from loaded item i and becomes the outcome of reply i; the statuses start with syncing, and the table is what the store left |
| Facade.StatusLines | apps/umbreon-mobile/src/timeline.rs:259-354 | the status sequence is syncing, one progress line per summarised item, then the cache status |
| Storage.ThemeFromValue | apps/umbreon-mobile/src/storage.rs:66-72 | exactly `light` and `dark` decode, and they encode back to themselves |
| Storage.ThemeRoundTrip | apps/umbreon-mobile/src/storage.rs:59-72 | decoding an encoded theme gives it back |
| Storage.SourceFromValue | apps/umbreon-mobile/src/storage.rs:90-96 | `rsshub` and `custom` decode to their kinds; any other text is Atom |
| Storage.SourceRoundTrip | apps/umbreon-mobile/src/storage.rs:82-96 | decoding an encoded source kind gives it back |
| Storage.DecodeTags | apps/umbreon-mobile/src/storage.rs:203-208 | decoded tags are non-blank, trimmed and free of commas |
| Storage.TagsRoundTrip | apps/umbreon-mobile/src/storage.rs:203-208 | storable tags (non-blank, trimmed, comma-free) survive joining with commas and splitting again |
| Storage.CommaTagSplits | apps/umbreon-mobile/src/storage.rs:203-208 | a tag holding a comma comes back as two tags |
| Storage.FeedServerPrecedence | apps/umbreon-mobile/src/storage.rs:121-126 | the current feed-server key wins over the legacy gist key, whatever order the rows come in |
| Storage.LastRowWins | apps/umbreon-mobile/src/storage.rs:106-137 | for every plain setting, the last row with its key decides |
| Storage.LastRowDecoded | apps/umbreon-mobile/src/storage.rs:106-137 | the theme and model list are decoded from the last row for their key; a last row that does not decode leaves them unset, whatever earlier rows held |
| Storage.LoadSettings | apps/umbreon-mobile/src/storage.rs:106-137 | no database gives the default settings; otherwise over the rows that read, the feed-server URL is the last current-key row, else the first legacy-key row; every plain setting is its last row; the theme and model list are their last row decoded |
| Storage.CurrentKeyWins | apps/umbreon-mobile/src/storage.rs:121-126 | with a feed-server row, the loaded URL is the last such row's value |
| Storage.LegacyKeyFallback | apps/umbreon-mobile/src/storage.rs:121-126 | without a feed-server row, the URL comes from the legacy gist key |
| Storage.LoadSettingsWeb | apps/umbreon-mobile/src/storage.rs:308-340 | in the browser the feed-server key wins over the legacy key; no storage gives the empty settings |
| Storage.DecodeRow | apps/umbreon-mobile/src/storage.rs:200-227 | a row decodes exactly when its summarised flag is not NULL; then NULL full content falls back to the summary, any non-zero flag is summarised, the date is recomputed from the timestamp when representable, and tags are decoded |
| Storage.EncodeRow | apps/umbreon-mobile/src/storage.rs:247-262 | the flag is written as 1 or 0, never NULL; full content and tags are always written; the row keeps the timestamp |
| Storage.FlaggedCounts | apps/umbreon-mobile/src/storage.rs:211-231 | the rows that load are exactly those with a non-NULL summarised flag, each as often as before |
| Storage.FlaggedKeepsOrder | apps/umbreon-mobile/src/storage.rs:211-231 | dropping unreadable rows from a newest-first list leaves it newest first |
| Storage.RowRoundTrip | apps/umbreon-mobile/src/storage.rs:191-268 | an item whose date matches its timestamp and whose tags are storable is read back exactly as stored |
| Storage.LoadFeedItems | apps/umbreon-mobile/src/storage.rs:191-232 | no database gives no items; otherwise one item per row whose summarised flag is not NULL (every row when none is NULL), newest first |
| Storage.LoadedFromReadableRows | apps/umbreon-mobile/src/storage.rs:191-232 | every row with a non-NULL flag has its decoded item among the loaded items |
| Storage.LoadedItemHasRow | apps/umbreon-mobile/src/storage.rs:191-232 | every loaded item is the decoding of some readable row |
| Storage.StoreFeedItems | apps/umbreon-mobile/src/storage.rs:234-268 | the store succeeds exactly when no step fails, and then the table holds exactly the items' rows; a failed store reports the first failing step in order (begin, delete, inserts, commit), as that step's prefix plus the database error, and the table is unchanged |
| Storage.StoredIdsDistinct | apps/umbreon-mobile/src/storage.rs:234-268 | with the id as primary key, a successful store means the ids were distinct |
| Storage.StoreThenLoad | apps/umbreon-mobile/src/storage.rs:191-268 | loading what a successful store wrote gives back the stored newest-first items |
| View.TagLabel | apps/umbreon-mobile/src/components/timeline.rs:15-21 | a tag has a label exactly when its trimmed text starts with either StackLang prefix, and the label is trimmed |
| View.FindMapIsFirst | apps/umbreon-mobile/src/components/timeline.rs:15-21 | the label comes from the first tag that has one |
| View.StackLangStamp | apps/umbreon-mobile/src/components/timeline.rs:14-42 | a stamp exists exactly when some tag has a label; it shows the first label and the icon of its lower-cased key |
| View.IconUrl | apps/umbreon-mobile/src/components/timeline.rs:27-36 | an empty key has no icon; `rust` has the plain icon; any other key has its own original icon |
| View.IconMissingIffBlankLabel | apps/umbreon-mobile/src/components/timeline.rs:23-36 | a stamp lacks an icon exactly when its label is empty |
| View.Cutoff | apps/umbreon-mobile/src/components/timeline.rs:75 | the cutoff is 60 days before now, saturating at the smallest 64-bit integer |
| View.TimelineItems | apps/umbreon-mobile/src/components/timeline.rs:71-77 | the timeline is newest first and is exactly the items at or after the cutoff, each as often as before; items with equal timestamps keep their stored order, as `sort_by` is stable |
| View.TimelineMembers | apps/umbreon-mobile/src/components/timeline.rs:76 | an item is on the timeline exactly when it is in the cache and not older than the cutoff |
| View.ScrollStep | apps/umbreon-mobile/src/components/timeline.rs:180-186 | a scroll shows exactly 30 more items while more than 30 remain, else exactly the total; it never goes past the total and does nothing when everything is shown |
| View.ScrollProgress | apps/umbreon-mobile/src/components/timeline.rs:170-186 | after n scrolls from the first page the count is exactly the smaller of 30·(n+1) and the total, and it never decreases |
| View.Shown | apps/umbreon-mobile/src/components/timeline.rs:170-174 | the rendered slice is the first items, as many as the clamped count |
| Xml.EscapeXmlIsPerChar | workers/feed-aggregator-worker/src/index.ts:50-57 | the five chained replacements escape each character independently, `&` first so nothing is escaped twice |
| Xml.EscapeXmlEscaped | workers/feed-aggregator-worker/src/index.ts:50-57 | escaped text has no raw `<`, `>`, `"` or `'`, and every `&` starts one of the five entities |
| Xml.EscapeXmlRoundTrip | workers/feed-aggregator-worker/src/index.ts:50-57 | resolving the entities of escaped text gives the original text |
| Xml.CData | workers/feed-aggregator-worker/src/index.ts:59-62 | empty text gives no CDATA section, and anything else gives one |
| Xml.CDataRoundTrip | workers/feed-aggregator-worker/src/index.ts:59-62 | the CDATA text is a run of sections, none holding `]]>`, whose contents join back into the original text |
| Xml.CDataReadsBack | workers/feed-aggregator-worker/src/index.ts:59-62 | a non-empty text wrapped in CDATA sections, followed by text that opens no further section, reads back as that text and that rest |
| Xml.ReplaceCharIsReplaceAll | workers/feed-aggregator-worker/src/index.ts:50-57 | each one-character entity rewrite is the global left-to-right replacement of that character |
| JsValue.ToArray | workers/feed-aggregator-worker/src/index.ts:64-67 | a falsy value gives nothing, an array itself, anything else a one-element array |
| JsValue.ReadText | workers/feed-aggregator-worker/src/index.ts:69-88 | text read from a value is never empty and has no surrounding whitespace |
| JsValue.FirstTextIsFirst | workers/feed-aggregator-worker/src/index.ts:75-80 | an array reads as its first readable element, and as nothing exactly when no element is readable |
| JsValue.ReadLinkPrefersAlternate | workers/feed-aggregator-worker/src/index.ts:90-103 | an array's link is that of its first `rel="alternate"` element |
| Normalize.KeepListedCounts | workers/feed-aggregator-worker/src/index.ts:152 | the filter keeps exactly the entries with a link and a title, each as often as before |
| Normalize.EntryId | workers/feed-aggregator-worker/src/index.ts:134 | the id is the read id, else the link, else the title |
| Normalize.RssEntry | workers/feed-aggregator-worker/src/index.ts:130-152 | an RSS item's title, link, id, tags and source come from the rules of `readText`, `readLink` and the id fallback; its summary is the first readable of `content:encoded`, `description` and `summary`; its author is `author`, else `dc:creator`; its updated time is `toIso(parseDate(...))`, a parameter, of `pubDate`, else of `dc:date` |
| Normalize.AtomEntry | workers/feed-aggregator-worker/src/index.ts:162-183 | an Atom entry's title, link, id, tags and source come from the same rules; its summary is `content`, else `summary`; its author is the author element's `name`, else the element's own text; its updated time is `toIso(parseDate(...))`, a parameter, of `updated`, else of `published` |
| Normalize.RssMapped | workers/feed-aggregator-worker/src/index.ts:123-151 | no channel gives nothing; otherwise one entry per item, built from that item and the channel's title and link |
| Normalize.NormalizeRss | workers/feed-aggregator-worker/src/index.ts:123-153 | exactly the mapped RSS entries with a link and a title are kept, each as often as before, with a non-empty id and the feed's tags |
| Normalize.AtomMapped | workers/feed-aggregator-worker/src/index.ts:155-182 | no root gives nothing; otherwise one entry per Atom entry, built from that entry and the root's title and link |
| Normalize.NormalizeAtom | workers/feed-aggregator-worker/src/index.ts:155-184 | exactly the mapped Atom entries with a link and a title are kept, each as often as before, with a non-empty id and the feed's tags |
| Normalize.NormalizeFeed | workers/feed-aggregator-worker/src/index.ts:186-196 | an unparsable document gives nothing; a document with `rss` or `channel` is normalised as RSS, else one with `feed` or `atom:feed` as Atom, else it gives nothing; every kept entry has a link, a title, a non-empty id and the feed's tags |
| Normalize.WithSource | workers/feed-aggregator-worker/src/index.ts:323-330 | the source title falls back to the feed name, then the key; the author falls back to the source title; nothing else changes |
| Atom.FeedId | workers/feed-aggregator-worker/src/index.ts:200 | the feed id is the link when there is one, else the fixed URN |
| Atom.FeedUpdated | workers/feed-aggregator-worker/src/index.ts:199 | the feed's updated time is the first entry's, or now when there are none |
| Atom.Visible | workers/feed-aggregator-worker/src/index.ts:203-212 | a reader sees every written text, an optional one only when present and non-empty, the source link only inside a source, and the categories as a list |
| Atom.RenderAtom | workers/feed-aggregator-worker/src/index.ts:198-243 | read back, the document gives the feed id (the link, else the fixed URN), the title, the subtitle, the link, the updated time (the first entry's, else now) and every entry as a reader sees it, in order; it opens with the declaration and feed element and closes with `</feed>` |
| Atom.ElementRoundTrip | workers/feed-aggregator-worker/src/index.ts:198-243 | any text written as an element reads back as itself, with the rest of the document untouched |
| Atom.EntryReadsBack | workers/feed-aggregator-worker/src/index.ts:201-228 | a rendered entry, followed by any text, reads back as its id, title, link and updated time, its summary, author and source title when present and non-empty, its source link only inside a source, and its categories |
| Atom.EntriesReadBack | workers/feed-aggregator-worker/src/index.ts:201-228 | the rendered entries, followed by text that starts no entry, read back as the visible entries in order |
| Atom.FeedReadsBack | workers/feed-aggregator-worker/src/index.ts:230-243 | the declaration, feed element, metadata, entries and close read back as the metadata and the visible entries |
| Aggregator.ClampNumber | workers/feed-aggregator-worker/src/index.ts:255-260 | missing, empty or non-numeric text gives the fallback; a number is clamped into the range |
| Aggregator.ReadSettings | workers/feed-aggregator-worker/src/index.ts:272-283 | settings fail exactly when neither the query nor the environment names a gist; gist, title, subtitle and link are the non-empty query value, else the non-empty environment value, else the default; the limit and the day window are `clampNumber` of query-or-environment with defaults 200 and 60, inside [1, 1000] and [1, 3650] |
| Aggregator.QueryOverridesEnv | workers/feed-aggregator-worker/src/index.ts:273-282 | a request that sets every parameter reads the same settings under any environment |
| Aggregator.FeedEntries | workers/feed-aggregator-worker/src/index.ts:316-331 | a feed without a usable URL or whose fetch fails adds nothing; otherwise one entry per normalised entry, each with the source title and author fallbacks |
| Aggregator.GatherAppend | workers/feed-aggregator-worker/src/index.ts:312-336 | gathering two lists of feeds is gathering each, one after the other |
| Aggregator.FailedFeedAddsNothing | workers/feed-aggregator-worker/src/index.ts:317-321 | a feed without a usable URL or whose fetch fails can be removed without changing the gathered entries |
| Aggregator.Gather | workers/feed-aggregator-worker/src/index.ts:312-336 | every gathered entry is listed, with an id, a source title and an author |
| Aggregator.Newest | workers/feed-aggregator-worker/src/index.ts:338-344 | the dated entries inside the window, newest first, each as often as before; entries with equal times keep their gathered order, as `Array.prototype.sort` is stable |
| Aggregator.SelectTimed | workers/feed-aggregator-worker/src/index.ts:338-346 | exactly the smaller of the limit and the number of dated entries, newest first, all inside the window, a sub-multiset of the dated entries and all of them when they fit |
| Aggregator.SelectKeepsNewest | workers/feed-aggregator-worker/src/index.ts:338-346 | no entry left out is newer than any entry kept |
| Aggregator.Select | workers/feed-aggregator-worker/src/index.ts:338-346 | exactly the smaller of the limit and the number of dated entries, each from the gathered entries, each dated inside the window, newest first |
| Aggregator.Limit | workers/feed-aggregator-worker/src/index.ts:281 | the slice length is the whole part of the clamped limit |
| Aggregator.GistText | workers/feed-aggregator-worker/src/index.ts:285-300 | a body is read exactly when the gist fetch succeeds; failures carry the status or the error |
| Aggregator.Handle | workers/feed-aggregator-worker/src/index.ts:262-357 | for a gist whose values are well typed, CORS headers are always sent; OPTIONS gives 204, other methods 405, no gist 400, a failed gist fetch 502, bad TOML 400; otherwise the 200 body is the Atom document of the gathered entries selected by the window and limit, with the Atom headers |

## Left out

- The network, the clock, randomness and SQLite connections become parameters or oracles:
  - the fetched body is a value;
  - `Date.now()` and `SystemTime::now()` are arguments;
  - each SQLite step's failure is an oracle.
- feed_rs parsing, ammonia, `String::from_utf8_lossy`, the LLM client, fast-xml-parser, TOML parsing, `Date.parse` and `Number()` are function parameters. Their internals are not part of this model.
- Only RFC 3339 is modelled concretely among chrono's parsers, after chrono's `parse_from_rfc3339`, which also takes U+2212 MINUS SIGN as an offset sign. The `%Y-%m-%d %H:%M:%S` and offset patterns, `%Y-%m-%d` and RFC 2822 are parameters.
- Concurrency is left out:
  - the Tokio `spawn` and `join_all` of summary requests;
  - the worker's `Promise.all`.
  Replies are taken in request order, and the worker's entries in gist order.
- Sync.ParseForFeedOfDisplay: what chrono's non-RFC 3339 patterns do with the display text of an instant is a stated hypothesis (`Sync.ChronoOnDisplay`), not derived, because those patterns are parameters. It states that `%S` takes no fraction.
- Storage.DecodeRow: only a NULL summarised flag makes a row unreadable here. A NULL or a wrongly typed value in another non-optional column drops the row in the same way but is not represented.
- Text.Lower: lower-cases ASCII letters only, where Rust's `to_lowercase` is Unicode-aware.
- Rfc3339.ParseDateTime: reads years 0000–9999 only, as RFC 3339 text allows; chrono's wider internal range is not needed for four-digit years.
- Aggregator.ClampNumber: the clamp is stated for `min <= max`, which both call sites satisfy. Infinite and NaN results of `Number()` count as non-numeric.
- Storage.LoadFeedItems: SQLite's `ORDER BY published_ts DESC` leaves ties in an unspecified order. The model uses a stable sort.
- The wasm no-op versions of `load_feed_items` and `store_feed_items` (`storage.rs` 401-407) are left out.
- The virtual-scroll helpers of `components/timeline.rs` use floating point and an element measurement. Only the visible count and the scroll step are modelled.
- FeedCard, FeedModal and all rendering markup are user interface and are left out.
- JavaScript numbers are modelled as integers, or as reals where the worker clamps settings. Exponent and float text are left to the `Number` parameter.
- Array elements that would make `map` throw, such as `null` items, are left out. So are fetch timeouts and aborts.
- Aggregator.Handle: a gist whose TOML values have the wrong types is not modelled, since `toml` returns typed feed entries. In the worker such a gist throws outside every `try`, so the runtime answers 500 without the CORS headers. Examples: a truthy non-string `url` fails at `feed.url.trim()` (index.ts:317); a non-string `name` or tag reaches `escapeXml` (index.ts:209, 203). The contract's "CORS headers are always sent" and its 200 body hold only for gists whose values are strings and string arrays.
- The settings setters `store_*` and `models_to_value` / `models_from_value` JSON are outside this model; model-list decoding is a parameter.
- `settings.rs`, `state.rs`, `app.rs`, the memory client and the other workers are not part of this model.
