/** The persistence layer of apps/umbreon-mobile/src/storage.rs: the string codecs of
    the theme, the source kind, the tag list and the `summarized` flag; the settings
    table read with the current feed-server key taking precedence over the legacy
    one (native and browser variants); the decoding of a `feeds` row; and the
    all-or-nothing replacement of the cached items. The database itself is an
    abstract table of rows, and the errors the database reports come from an oracle. */
module Storage {
  import opened Wrappers
  import opened Text
  import opened Calendar
  import opened Order
  import opened Sorting
  import opened Items

  // ---------------------------------------------------------------- theme

  datatype ThemeMode = Light | Dark

  function ThemeToValue(theme: ThemeMode): (r: string)
    ensures r == "light" || r == "dark"
  {
    match theme
    case Light => "light"
    case Dark => "dark"
  }

  /** Exactly the two stored spellings decode; anything else is no theme. */
  function ThemeFromValue(value: string): (r: Option<ThemeMode>)
    ensures r.Some? <==> value == "light" || value == "dark"
    ensures r.Some? ==> ThemeToValue(r.value) == value
  {
    if value == "light" then Some(Light)
    else if value == "dark" then Some(Dark)
    else None
  }

  lemma ThemeRoundTrip(theme: ThemeMode)
    ensures ThemeFromValue(ThemeToValue(theme)) == Some(theme)
  {
  }

  // ---------------------------------------------------------------- source kind

  function SourceToValue(source: SourceKind): (r: string)
    ensures r in {"atom", "rsshub", "custom"}
  {
    match source
    case Atom => "atom"
    case RssHub => "rsshub"
    case Custom => "custom"
  }

  /** "rsshub" and "custom" decode to their kinds; every other string, including
      "atom", decodes to `Atom`. */
  function SourceFromValue(value: string): (r: SourceKind)
    ensures value == "rsshub" <==> r == RssHub
    ensures value == "custom" <==> r == Custom
    ensures r != SourceKind.Atom ==> SourceToValue(r) == value
  {
    if value == "rsshub" then RssHub
    else if value == "custom" then Custom
    else SourceKind.Atom
  }

  lemma SourceRoundTrip(source: SourceKind)
    ensures SourceFromValue(SourceToValue(source)) == source
  {
  }

  // ---------------------------------------------------------------- tags

  /** Tags are stored joined by commas. */
  function EncodeTags(tags: seq<string>): string {
    Join(tags, ",")
  }

  /** A missing column reads as no text; the text is split at commas, each piece
      trimmed, the empty ones dropped. */
  function DecodeTags(raw: Option<string>): (r: seq<string>)
    ensures forall i :: 0 <= i < |r| ==> |r[i]| > 0 && IsTrimmed(r[i], IsRustSpace) && ',' !in r[i]
  {
    var pieces := Split(raw.GetOr(""), ',');
    NonBlankTermsAvoid(pieces, ',');
    NonBlankTerms(pieces)
  }

  /** Trimming keeps out a character none of the terms holds. */
  lemma {:induction false} NonBlankTermsAvoid(terms: seq<string>, c: char)
    requires forall i :: 0 <= i < |terms| ==> c !in terms[i]
    ensures forall i :: 0 <= i < |NonBlankTerms(terms)| ==> c !in NonBlankTerms(terms)[i]
    decreases |terms|
  {
    if |terms| > 0 {
      NonBlankTermsAvoid(terms[1..], c);
      var t := terms[0];
      var k := SkipForward(t, IsRustSpace, 0);
      var trimmed := Trim(t, IsRustSpace);
      assert forall j :: 0 <= j < |trimmed| ==> trimmed[j] == t[k + j];
      assert c !in trimmed;
    }
  }

  /** Tags that survive a store and a load unchanged. */
  predicate StorableTags(tags: seq<string>) {
    forall i :: 0 <= i < |tags| ==> |tags[i]| > 0 && IsTrimmed(tags[i], IsRustSpace) && ',' !in tags[i]
  }

  lemma {:induction false} NonBlankTermsOfStorable(tags: seq<string>)
    requires StorableTags(tags)
    ensures NonBlankTerms(tags) == tags
    decreases |tags|
  {
    if |tags| > 0 {
      var rest := tags[1..];
      TrimFixedPoint(tags[0], IsRustSpace);
      assert Trim(tags[0], IsRustSpace) == tags[0];
      assert StorableTags(rest) by {
        forall i | 0 <= i < |rest|
          ensures |rest[i]| > 0 && IsTrimmed(rest[i], IsRustSpace) && ',' !in rest[i]
        {
          assert rest[i] == tags[i + 1];
        }
      }
      NonBlankTermsOfStorable(rest);
      assert NonBlankTerms(tags) == [tags[0]] + NonBlankTerms(rest);
      HeadTail(tags);
    }
  }

  lemma HeadTail<T>(s: seq<T>)
    requires |s| > 0
    ensures [s[0]] + s[1..] == s
  {
  }

  /** Loading the stored text gives back exactly the tags whenever each is trimmed,
      non-empty and free of commas. */
  lemma TagsRoundTrip(tags: seq<string>)
    requires StorableTags(tags)
    ensures DecodeTags(Some(EncodeTags(tags))) == tags
  {
    if |tags| == 0 {
      assert Split("", ',') == [""];
      assert Trim("", IsRustSpace) == "";
    } else {
      SplitJoin(tags, ',');
      NonBlankTermsOfStorable(tags);
    }
  }

  /** A tag holding a comma comes back as two tags. */
  lemma CommaTagSplits()
    ensures DecodeTags(Some(EncodeTags(["a,b"]))) == ["a", "b"]
  {
    assert Split("", ',') == [""];
    assert "b"[1..] == "" && ",b"[1..] == "b" && "a,b"[1..] == ",b";
    assert Split("b", ',') == [['b'] + Split("", ',')[0]] + Split("", ',')[1..];
    assert ['b'] + "" == "b" && [""][1..] == [];
    assert Split("b", ',') == ["b"];
    assert Split(",b", ',') == ["", "b"];
    assert Split("a,b", ',') == [['a'] + Split(",b", ',')[0]] + Split(",b", ',')[1..];
    assert ['a'] + "" == "a" && ["", "b"][1..] == ["b"];
    assert Split("a,b", ',') == ["a", "b"];
    assert Trim("a", IsRustSpace) == "a" by { TrimFixedPoint("a", IsRustSpace); }
    assert Trim("b", IsRustSpace) == "b" by { TrimFixedPoint("b", IsRustSpace); }
  }

  // ---------------------------------------------------------------- settings

  const FeedServerUrlKey: string := "feed_server_url"
  const GistUrlLegacyKey: string := "gist_url"
  const MemoryServerUrlKey: string := "memory_server_url"
  const LlmEndpointKey: string := "llm_endpoint"
  const LlmApiKeyKey: string := "llm_api_key"
  const LlmModelKey: string := "llm_model"
  const LlmModelsKey: string := "llm_models"
  const ThemeKey: string := "theme"

  datatype StoredSettings = StoredSettings(
    feedServerUrl: Option<string>,
    memoryServerUrl: Option<string>,
    llmEndpoint: Option<string>,
    llmApiKey: Option<string>,
    llmModel: Option<string>,
    llmModels: Option<seq<string>>,
    theme: Option<ThemeMode>)

  const NoSettings: StoredSettings := StoredSettings(None, None, None, None, None, None, None)

  /** One `(key, value)` row of the settings table; `models` is the JSON reading of
      the model list. Unknown keys are ignored; the legacy key only fills a missing
      feed-server URL. */
  function ApplyRow(s: StoredSettings, key: string, value: string,
                    models: string -> Option<seq<string>>): StoredSettings {
    if key == FeedServerUrlKey then s.(feedServerUrl := Some(value))
    else if key == GistUrlLegacyKey then
      (if s.feedServerUrl.None? then s.(feedServerUrl := Some(value)) else s)
    else if key == MemoryServerUrlKey then s.(memoryServerUrl := Some(value))
    else if key == LlmEndpointKey then s.(llmEndpoint := Some(value))
    else if key == LlmApiKeyKey then s.(llmApiKey := Some(value))
    else if key == LlmModelKey then s.(llmModel := Some(value))
    else if key == LlmModelsKey then s.(llmModels := models(value))
    else if key == ThemeKey then s.(theme := ThemeFromValue(value))
    else s
  }

  /** The rows in the order the query returns them. */
  function ApplyRows(s: StoredSettings, rows: seq<(string, string)>,
                     models: string -> Option<seq<string>>): StoredSettings
    decreases |rows|
  {
    if |rows| == 0 then s else ApplyRows(ApplyRow(s, rows[0].0, rows[0].1, models), rows[1..], models)
  }

  /** The rows the query yields: `None` when the database cannot be opened or
      queried; a row that cannot be read is an `Err` and is skipped. */
  function LoadSettings(rows: Option<seq<Result<(string, string)>>>,
                        models: string -> Option<seq<string>>): (r: StoredSettings)
    ensures rows.None? ==> r == NoSettings
    ensures rows.Some? ==>
      var read := Readable(rows.value);
      && r.feedServerUrl == LastValue(read, FeedServerUrlKey).Or(FirstValue(read, GistUrlLegacyKey))
      && r.memoryServerUrl == LastValue(read, MemoryServerUrlKey)
      && r.llmEndpoint == LastValue(read, LlmEndpointKey)
      && r.llmApiKey == LastValue(read, LlmApiKeyKey)
      && r.llmModel == LastValue(read, LlmModelKey)
      && r.llmModels == (if LastValue(read, LlmModelsKey).Some? then models(LastValue(read, LlmModelsKey).value) else None)
      && r.theme == (if LastValue(read, ThemeKey).Some? then ThemeFromValue(LastValue(read, ThemeKey).value) else None)
  {
    match rows
    case None => NoSettings
    case Some(rs) =>
      FeedServerPrecedence(NoSettings, Readable(rs), models);
      LastRowWins(NoSettings, Readable(rs), models);
      LastRowDecoded(NoSettings, Readable(rs), models);
      ApplyRows(NoSettings, Readable(rs), models)
  }

  /** `rows.flatten()`: the rows that could be read, in order. */
  function Readable<T>(rs: seq<Result<T>>): (r: seq<T>)
    ensures |r| <= |rs|
    decreases |rs|
  {
    if |rs| == 0 then []
    else if rs[0].Ok? then [rs[0].value] + Readable(rs[1..])
    else Readable(rs[1..])
  }

  /** The value of the last row with `key`. */
  function LastValue(rows: seq<(string, string)>, key: string): (r: Option<string>)
    decreases |rows|
  {
    if |rows| == 0 then None
    else
      var later := LastValue(rows[1..], key);
      if later.Some? then later else if rows[0].0 == key then Some(rows[0].1) else None
  }

  /** The value of the first row with `key`. */
  function FirstValue(rows: seq<(string, string)>, key: string): (r: Option<string>)
    decreases |rows|
  {
    if |rows| == 0 then None
    else if rows[0].0 == key then Some(rows[0].1)
    else FirstValue(rows[1..], key)
  }

  /** Reading rows into settings `s`: the current feed-server key wins wherever it
      appears; otherwise an URL already known is kept; otherwise the first legacy row
      supplies it. */
  lemma {:induction false} FeedServerPrecedence(s: StoredSettings, rows: seq<(string, string)>,
                                                models: string -> Option<seq<string>>)
    ensures ApplyRows(s, rows, models).feedServerUrl
      == LastValue(rows, FeedServerUrlKey).Or(s.feedServerUrl.Or(FirstValue(rows, GistUrlLegacyKey)))
    decreases |rows|
  {
    if |rows| > 0 {
      FeedServerPrecedence(ApplyRow(s, rows[0].0, rows[0].1, models), rows[1..], models);
    }
  }

  /** Every other setting is the one of its last row, or stays as it was. */
  lemma {:induction false} LastRowWins(s: StoredSettings, rows: seq<(string, string)>,
                                       models: string -> Option<seq<string>>)
    ensures ApplyRows(s, rows, models).memoryServerUrl == LastValue(rows, MemoryServerUrlKey).Or(s.memoryServerUrl)
    ensures ApplyRows(s, rows, models).llmEndpoint == LastValue(rows, LlmEndpointKey).Or(s.llmEndpoint)
    ensures ApplyRows(s, rows, models).llmApiKey == LastValue(rows, LlmApiKeyKey).Or(s.llmApiKey)
    ensures ApplyRows(s, rows, models).llmModel == LastValue(rows, LlmModelKey).Or(s.llmModel)
    decreases |rows|
  {
    if |rows| > 0 {
      LastRowWins(ApplyRow(s, rows[0].0, rows[0].1, models), rows[1..], models);
    }
  }

  /** The theme and the model list are decoded from their last row; a last row that
      does not decode clears them. */
  lemma {:induction false} LastRowDecoded(s: StoredSettings, rows: seq<(string, string)>,
                                          models: string -> Option<seq<string>>)
    ensures var last := LastValue(rows, ThemeKey);
      ApplyRows(s, rows, models).theme == if last.Some? then ThemeFromValue(last.value) else s.theme
    ensures var last := LastValue(rows, LlmModelsKey);
      ApplyRows(s, rows, models).llmModels == if last.Some? then models(last.value) else s.llmModels
    decreases |rows|
  {
    if |rows| > 0 {
      LastRowDecoded(ApplyRow(s, rows[0].0, rows[0].1, models), rows[1..], models);
    }
  }

  /** With both feed-server keys stored, in whichever order, the current key's
      value is the one loaded. */
  lemma CurrentKeyWins(rows: seq<Result<(string, string)>>, models: string -> Option<seq<string>>)
    requires LastValue(Readable(rows), FeedServerUrlKey).Some?
    ensures LoadSettings(Some(rows), models).feedServerUrl == LastValue(Readable(rows), FeedServerUrlKey)
  {
    FeedServerPrecedence(NoSettings, Readable(rows), models);
  }

  /** Without the current key, the legacy key's value is loaded. */
  lemma LegacyKeyFallback(rows: seq<Result<(string, string)>>, models: string -> Option<seq<string>>)
    requires LastValue(Readable(rows), FeedServerUrlKey).None?
    ensures LoadSettings(Some(rows), models).feedServerUrl == FirstValue(Readable(rows), GistUrlLegacyKey)
  {
    FeedServerPrecedence(NoSettings, Readable(rows), models);
  }

  const WebFeedServerKey: string := "umbreon.feed_server_url"
  const WebGistLegacyKey: string := "umbreon.gist_url"
  const WebMemoryServerKey: string := "umbreon.memory_server_url"
  const WebLlmEndpointKey: string := "umbreon.llm_endpoint"
  const WebLlmApiKeyKey: string := "umbreon.llm_api_key"
  const WebLlmModelKey: string := "umbreon.llm_model"
  const WebLlmModelsKey: string := "umbreon.llm_models"
  const WebThemeKey: string := "umbreon.theme"

  /** The browser variant: `get` reads local storage (`None` for a missing key or a
      failed read); with no window or no storage, `get` itself is absent. */
  function LoadSettingsWeb(get: Option<string -> Option<string>>,
                           models: string -> Option<seq<string>>): (r: StoredSettings)
    ensures get.Some? && get.value(WebFeedServerKey).Some? ==> r.feedServerUrl == get.value(WebFeedServerKey)
    ensures get.Some? && get.value(WebFeedServerKey).None? ==> r.feedServerUrl == get.value(WebGistLegacyKey)
    ensures get.None? ==> r == NoSettings
  {
    match get
    case None => NoSettings
    case Some(read) =>
      StoredSettings(
        read(WebFeedServerKey).Or(read(WebGistLegacyKey)),
        read(WebMemoryServerKey),
        read(WebLlmEndpointKey),
        read(WebLlmApiKeyKey),
        read(WebLlmModelKey),
        match read(WebLlmModelsKey) case Some(v) => models(v) case None => None,
        match read(WebThemeKey) case Some(v) => ThemeFromValue(v) case None => None)
  }

  // ---------------------------------------------------------------- feed rows

  /** A row of the `feeds` table. `fullContent` and `tags` may be NULL in rows
      written before those columns existed, and so may `summarized`: the column
      added by `ALTER TABLE` to an older table has no default. */
  datatype Row = Row(
    id: string,
    title: string,
    summary: string,
    fullContent: Option<string>,
    summarized: Option<int>,
    source: string,
    publishedAt: string,
    publishedTs: int,
    link: string,
    author: string,
    avatarUrl: Option<string>,
    tags: Option<string>)

  function RowTs(row: Row): int {
    row.publishedTs
  }

  /** The row `store_feed_items` inserts for an item. */
  function EncodeRow(item: FeedItem): (r: Row)
    ensures r.summarized == Some(0) || r.summarized == Some(1)
    ensures r.fullContent.Some? && r.tags.Some?
    ensures RowTs(r) == PublishedTs(item)
  {
    Row(item.id, item.title, item.summary, Some(item.fullContent), Some(if item.summarized then 1 else 0),
        SourceToValue(item.source), item.publishedAt, item.publishedTs, item.link, item.author,
        item.avatarUrl, Some(EncodeTags(item.tags)))
  }

  /** The item `load_feed_items` reads from a row, or `None` when reading the flag
      as an integer fails because it is NULL. A NULL body is the summary, any
      non-zero flag is "summarised", and the display date is recomputed from the
      timestamp whenever that can be formatted. */
  function DecodeRow(row: Row): (r: Option<FeedItem>)
    ensures r.Some? <==> row.summarized.Some?
    ensures r.Some? ==>
      && PublishedTs(r.value) == RowTs(row)
      && (r.value.summarized <==> row.summarized.value != 0)
      && (row.fullContent.None? ==> r.value.fullContent == row.summary)
      && (row.fullContent.Some? ==> r.value.fullContent == row.fullContent.value)
      && (Representable(row.publishedTs) ==> r.value.publishedAt == FormatDateUtc8(row.publishedTs))
      && (!Representable(row.publishedTs) ==> r.value.publishedAt == row.publishedAt)
      && StorableTags(r.value.tags)
  {
    match row.summarized
    case None => None
    case Some(flag) =>
      Some(FeedItem(row.id, row.title, row.summary, row.fullContent.GetOr(row.summary), flag != 0,
                    SourceFromValue(row.source), FormatDateUtc8Opt(row.publishedTs).GetOr(row.publishedAt),
                    row.publishedTs, row.link, row.author, row.avatarUrl, DecodeTags(row.tags)))
  }

  /** The display date an item keeps through storage: the one recomputed from its
      timestamp, when there is one. */
  predicate DateConsistent(item: FeedItem) {
    Representable(item.publishedTs) ==> item.publishedAt == FormatDateUtc8(item.publishedTs)
  }

  /** An item with a consistent display date and storable tags is read back as it
      was written. */
  lemma RowRoundTrip(item: FeedItem)
    requires DateConsistent(item) && StorableTags(item.tags)
    ensures DecodeRow(EncodeRow(item)) == Some(item)
  {
    TagsRoundTrip(item.tags);
    SourceRoundTrip(item.source);
  }

  /** The rows whose flag can be read, in their order; `rows.flatten()` drops the
      others. */
  function Flagged(rows: seq<Row>): (r: seq<Row>)
    ensures |r| <= |rows|
    ensures forall i :: 0 <= i < |r| ==> r[i].summarized.Some? && r[i] in rows
    ensures (forall k :: 0 <= k < |rows| ==> rows[k].summarized.Some?) ==> r == rows
    decreases |rows|
  {
    if |rows| == 0 then []
    else if rows[0].summarized.Some? then [rows[0]] + Flagged(rows[1..])
    else Flagged(rows[1..])
  }

  /** A row is kept exactly when its flag is readable, as often as it occurs. */
  lemma {:induction false} FlaggedCounts(rows: seq<Row>, row: Row)
    ensures multiset(Flagged(rows))[row] == if row.summarized.Some? then multiset(rows)[row] else 0
    decreases |rows|
  {
    if |rows| > 0 {
      FlaggedCounts(rows[1..], row);
      assert rows == [rows[0]] + rows[1..];
      assert multiset(rows) == multiset([rows[0]]) + multiset(rows[1..]);
      if rows[0].summarized.Some? {
        assert multiset(Flagged(rows)) == multiset([rows[0]]) + multiset(Flagged(rows[1..]));
      }
    }
  }

  /** Rows that are a reordering of each other keep reorderings of each other. */
  lemma FlaggedPermutes(a: seq<Row>, b: seq<Row>)
    requires multiset(a) == multiset(b)
    ensures multiset(Flagged(a)) == multiset(Flagged(b))
  {
    forall row ensures multiset(Flagged(a))[row] == multiset(Flagged(b))[row] {
      FlaggedCounts(a, row);
      FlaggedCounts(b, row);
    }
  }

  /** Dropping rows keeps the rest in order. */
  lemma {:induction false} FlaggedKeepsOrder(rows: seq<Row>)
    requires Descending(rows, RowTs)
    ensures Descending(Flagged(rows), RowTs)
    decreases |rows|
  {
    if |rows| > 0 {
      DescendingTail(rows);
      FlaggedKeepsOrder(rows[1..]);
      if rows[0].summarized.Some? {
        HeadBoundsKept(rows);
        DescendingCons(rows[0], Flagged(rows[1..]));
      }
    }
  }

  lemma DescendingTail(rows: seq<Row>)
    requires |rows| > 0 && Descending(rows, RowTs)
    ensures Descending(rows[1..], RowTs)
  {
    assert forall i :: 0 <= i < |rows| - 1 ==> rows[1..][i] == rows[i + 1];
  }

  /** In a newest-first table, the first row is no older than any kept row after it. */
  lemma HeadBoundsKept(rows: seq<Row>)
    requires |rows| > 0 && Descending(rows, RowTs)
    ensures forall i :: 0 <= i < |Flagged(rows[1..])| ==> RowTs(rows[0]) >= RowTs(Flagged(rows[1..])[i])
  {
    var rest := Flagged(rows[1..]);
    forall i | 0 <= i < |rest| ensures RowTs(rows[0]) >= RowTs(rest[i]) {
      var j :| 0 <= j < |rows[1..]| && rows[1..][j] == rest[i];
      assert rows[j + 1] == rest[i];
    }
  }

  lemma DescendingCons(row: Row, rest: seq<Row>)
    requires Descending(rest, RowTs)
    requires forall i :: 0 <= i < |rest| ==> RowTs(row) >= RowTs(rest[i])
    ensures Descending([row] + rest, RowTs)
  {
    assert forall i :: 0 < i < |rest| + 1 ==> ([row] + rest)[i] == rest[i - 1];
  }

  /** The items of the readable rows, in order. */
  function DecodeRows(rows: seq<Row>): (r: seq<FeedItem>)
    ensures |r| == |Flagged(rows)|
    ensures forall k :: 0 <= k < |r| ==> DecodeRow(Flagged(rows)[k]) == Some(r[k])
  {
    var kept := Flagged(rows);
    seq(|kept|, k requires 0 <= k < |kept| => DecodeRow(kept[k]).value)
  }

  function EncodeRows(items: seq<FeedItem>): (r: seq<Row>)
    ensures |r| == |items| && forall k :: 0 <= k < |items| ==> r[k] == EncodeRow(items[k])
  {
    seq(|items|, k requires 0 <= k < |items| => EncodeRow(items[k]))
  }

  /** `load_feed_items`: the table newest first (nothing when the database cannot
      be read), one item per row whose flag is readable; a row whose flag is NULL
      is dropped. Rows of equal timestamp keep their table order. */
  function LoadFeedItems(table: Option<seq<Row>>): (r: seq<FeedItem>)
    ensures table.None? ==> r == []
    ensures table.Some? ==> |r| == |Flagged(table.value)| <= |table.value|
    ensures table.Some? && (forall k :: 0 <= k < |table.value| ==> table.value[k].summarized.Some?) ==>
      |r| == |table.value|
    ensures Descending(r, PublishedTs)
  {
    match table
    case None => []
    case Some(rows) =>
      var sorted := SortByKeyDesc(rows, RowTs);
      SortOrders(rows, RowTs);
      SortPermutes(rows, RowTs);
      FlaggedPermutes(sorted, rows);
      assert |Flagged(sorted)| == |Flagged(rows)| by {
        assert |multiset(Flagged(sorted))| == |multiset(Flagged(rows))|;
      }
      FlaggedKeepsOrder(sorted);
      var r := DecodeRows(sorted);
      forall i, j | 0 <= i < j < |r| ensures PublishedTs(r[i]) >= PublishedTs(r[j]) {
        assert RowTs(Flagged(sorted)[i]) >= RowTs(Flagged(sorted)[j]);
      }
      r
  }

  /** Every loaded item comes from a row of the table whose flag is readable, and
      every such row gives a loaded item. */
  lemma LoadedFromReadableRows(rows: seq<Row>, row: Row)
    requires row in rows
    ensures DecodeRow(row).Some? <==> row.summarized.Some?
    ensures row.summarized.Some? ==> DecodeRow(row).value in LoadFeedItems(Some(rows))
  {
    if row.summarized.Some? {
      var kept := Flagged(SortByKeyDesc(rows, RowTs));
      ReadableRowKept(rows, row);
      var k :| 0 <= k < |kept| && kept[k] == row;
      LoadedIsDecoded(rows);
      assert DecodeRows(SortByKeyDesc(rows, RowTs))[k] == DecodeRow(row).value;
    }
  }

  /** The loaded items are the readable rows of the sorted table, decoded. */
  lemma LoadedIsDecoded(rows: seq<Row>)
    ensures LoadFeedItems(Some(rows)) == DecodeRows(SortByKeyDesc(rows, RowTs))
  {
  }

  /** A readable row of the table survives the sort and the filter. */
  lemma ReadableRowKept(rows: seq<Row>, row: Row)
    requires row in rows && row.summarized.Some?
    ensures row in Flagged(SortByKeyDesc(rows, RowTs))
  {
    var sorted := SortByKeyDesc(rows, RowTs);
    SortPermutes(rows, RowTs);
    FlaggedPermutes(sorted, rows);
    FlaggedCounts(rows, row);
    assert row in multiset(Flagged(sorted));
  }

  /** A loaded item is the item of some readable row of the table. */
  lemma LoadedItemHasRow(rows: seq<Row>, i: nat)
    requires i < |LoadFeedItems(Some(rows))|
    ensures exists row :: row in rows && row.summarized.Some? && DecodeRow(row) == Some(LoadFeedItems(Some(rows))[i])
  {
    var sorted := SortByKeyDesc(rows, RowTs);
    SortPermutes(rows, RowTs);
    var row := Flagged(sorted)[i];
    assert row in sorted;
    assert row in multiset(rows);
  }

  // ---------------------------------------------------------------- store

  /** The steps of `store_feed_items`, in order. */
  datatype Step = Open | Begin | Clear | Prepare | Insert(index: nat) | Commit

  function Steps(n: nat): (r: seq<Step>)
    ensures |r| == n + 5
    ensures r[..4] == [Open, Begin, Clear, Prepare] && r[n + 4] == Commit
    ensures forall k :: 0 <= k < n ==> r[4 + k] == Insert(k)
  {
    [Open, Begin, Clear, Prepare] + seq(n, (k: nat) => Insert(k)) + [Commit]
  }

  /** The message each failing step reports, before the database's own text. */
  function StepPrefix(step: Step): string {
    match step
    case Open => "open db failed: "
    case Begin => "start transaction failed: "
    case Clear => "clear feeds failed: "
    case Prepare => "prepare insert failed: "
    case Insert(_) => "insert feed failed: "
    case Commit => "commit feeds failed: "
  }

  /** The first step the database fails, with its error text. */
  function FirstFailure(steps: seq<Step>, fail: Step -> Option<string>): (r: Option<(Step, string)>)
    ensures r.None? <==> forall k :: 0 <= k < |steps| ==> fail(steps[k]).None?
    ensures r.Some? ==>
      (exists k :: 0 <= k < |steps| && steps[k] == r.value.0 && fail(steps[k]) == Some(r.value.1)
        && forall j :: 0 <= j < k ==> fail(steps[j]).None?)
    decreases |steps|
  {
    if |steps| == 0 then None
    else if fail(steps[0]).Some? then Some((steps[0], fail(steps[0]).value))
    else
      var later := FirstFailure(steps[1..], fail);
      if later.Some? then
        ghost var k :| 0 <= k < |steps[1..]| && steps[1..][k] == later.value.0 && fail(steps[1..][k]) == Some(later.value.1)
          && forall j :: 0 <= j < k ==> fail(steps[1..][j]).None?;
        assert steps[k + 1] == later.value.0;
        later
      else
        later
  }

  /** `store_feed_items` against the table `table`: every row is deleted and each
      item inserted inside one transaction. `fail` is the error the database reports
      at a step, if any. The table changes only when the commit succeeds. */
  function StoreFeedItems(table: seq<Row>, items: seq<FeedItem>, fail: Step -> Option<string>)
    : (r: (seq<Row>, Result<()>))
    ensures r.1.Ok? <==> forall k :: 0 <= k < |items| + 5 ==> fail(Steps(|items|)[k]).None?
    ensures r.1.Ok? ==> r.0 == EncodeRows(items)
    ensures r.1.Err? ==> r.0 == table
    ensures r.1.Err? ==>
      exists k :: 0 <= k < |items| + 5 && fail(Steps(|items|)[k]).Some?
        && (forall j :: 0 <= j < k ==> fail(Steps(|items|)[j]).None?)
        && r.1.error == StepPrefix(Steps(|items|)[k]) + fail(Steps(|items|)[k]).value
  {
    match FirstFailure(Steps(|items|), fail)
    case None => (EncodeRows(items), Ok(()))
    case Some((step, err)) => (table, Err(StepPrefix(step) + err))
  }

  /** The `id` column is the table's primary key: inserting an item whose id an
      earlier item already used fails. */
  predicate KeyedById(items: seq<FeedItem>, fail: Step -> Option<string>) {
    forall i, j :: 0 <= i < j < |items| && items[i].id == items[j].id ==> fail(Insert(j)).Some?
  }

  /** On a table keyed by id, a successful store holds items of distinct ids. */
  lemma StoredIdsDistinct(table: seq<Row>, items: seq<FeedItem>, fail: Step -> Option<string>)
    requires KeyedById(items, fail)
    requires StoreFeedItems(table, items, fail).1.Ok?
    ensures forall i, j :: 0 <= i < j < |items| ==> items[i].id != items[j].id
  {
    var steps := Steps(|items|);
    forall j | 0 <= j < |items| ensures fail(Insert(j)).None? {
      assert steps[4 + j] == Insert(j);
    }
  }

  /** Items stored newest first, with consistent dates and storable tags, are loaded
      back exactly. */
  lemma StoreThenLoad(table: seq<Row>, items: seq<FeedItem>, fail: Step -> Option<string>)
    requires StoreFeedItems(table, items, fail).1.Ok?
    requires Descending(items, PublishedTs)
    requires forall k :: 0 <= k < |items| ==> DateConsistent(items[k]) && StorableTags(items[k].tags)
    ensures LoadFeedItems(Some(StoreFeedItems(table, items, fail).0)) == items
  {
    var rows := EncodeRows(items);
    assert Descending(rows, RowTs) by {
      forall i, j | 0 <= i < j < |rows| ensures RowTs(rows[i]) >= RowTs(rows[j]) {
        assert PublishedTs(items[i]) >= PublishedTs(items[j]);
      }
    }
    SortOfDescending(rows, RowTs);
    assert Flagged(rows) == rows;
    forall k | 0 <= k < |items| ensures DecodeRow(rows[k]) == Some(items[k]) {
      RowRoundTrip(items[k]);
    }
  }
}
