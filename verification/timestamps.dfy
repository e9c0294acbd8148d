/** The timestamp normalisers of apps/umbreon-mobile/src/helper.rs: an ordered list of
    date-time patterns per feed family, where the first pattern that parses wins.
    RFC 3339 is read concretely; the other chrono patterns enter as the uninterpreted
    parsers of a `Chrono` record, each giving epoch seconds (or, for the bare date
    pattern, a calendar date). */
module Timestamps {
  import opened Wrappers
  import opened Text
  import opened Calendar
  import opened Rfc3339

  /** A date chrono's `NaiveDate` can hold. */
  type CivilDate = d: Date | ValidDate(d) witness Date(1970, 1, 1)

  /** chrono's parsers for the patterns other than RFC 3339. */
  datatype Chrono = Chrono(
    /** `DateTime::parse_from_str(_, "%Y-%m-%d %H:%M:%S %Z")` */
    zoneName: string -> Option<int>,
    /** `DateTime::parse_from_str(_, "%Y-%m-%d %H:%M:%S %z")` */
    numericOffset: string -> Option<int>,
    /** `NaiveDateTime::parse_from_str(_, "%Y-%m-%d %H:%M:%S")`, read as UTC */
    naiveDateTime: string -> Option<int>,
    /** `NaiveDate::parse_from_str(_, "%Y-%m-%d")` */
    naiveDate: string -> Option<CivilDate>,
    /** `DateTime::parse_from_rfc2822` */
    rfc2822: string -> Option<int>,
    /** `DateTime::parse_from_str(_, "%a, %d %b %Y %H:%M:%S %Z")` */
    weekdayWithSeconds: string -> Option<int>,
    /** `DateTime::parse_from_str(_, "%a, %d %b %Y %H:%M %Z")` */
    weekdayWithoutSeconds: string -> Option<int>)

  /** The feed families feed_rs reports. */
  datatype FeedType = Atom | Json | Rss0 | Rss1 | Rss2

  /** The first candidate that holds a value. */
  function FirstSome(xs: seq<Option<int>>): (r: Option<int>)
    ensures r.None? <==> forall k :: 0 <= k < |xs| ==> xs[k].None?
    ensures r.Some? ==> exists k :: 0 <= k < |xs| && xs[k] == r && forall j :: 0 <= j < k ==> xs[j].None?
    decreases |xs|
  {
    if |xs| == 0 then None
    else if xs[0].Some? then xs[0]
    else
      var r := FirstSome(xs[1..]);
      assert forall k :: 1 <= k < |xs| ==> xs[k] == xs[1..][k - 1];
      r
  }

  /** Trying four or five candidates in turn is `FirstSome` of their list. */
  lemma FirstOfFour(a: Option<int>, b: Option<int>, c: Option<int>, d: Option<int>)
    ensures FirstSome([a, b, c, d])
      == if a.Some? then a else if b.Some? then b else if c.Some? then c else d
  {
    assert [d][1..] == [];
    assert FirstSome([d]) == d;
    assert [c, d][1..] == [d];
    assert FirstSome([c, d]) == if c.Some? then c else d;
    assert [b, c, d][1..] == [c, d];
    assert FirstSome([b, c, d]) == if b.Some? then b else if c.Some? then c else d;
    assert [a, b, c, d][1..] == [b, c, d];
  }

  lemma FirstOfFive(a: Option<int>, b: Option<int>, c: Option<int>, d: Option<int>, e: Option<int>)
    ensures FirstSome([a, b, c, d, e])
      == if a.Some? then a else if b.Some? then b else if c.Some? then c else if d.Some? then d else e
  {
    assert [a, b, c, d, e][1..] == [b, c, d, e];
    FirstOfFour(b, c, d, e);
  }

  /** A trailing ` UTC` (or ` GMT`) replaced by ` +0000`, read with the `%z`
      pattern. */
  function SuffixPatched(c: Chrono, value: string, suffix: string): Option<int> {
    match StripSuffix(value, suffix)
    case Some(rest) => c.numericOffset(rest + " +0000")
    case None => None
  }

  /** A bare date read as midnight UTC. */
  function BareDate(c: Chrono, value: string): Option<int> {
    match c.naiveDate(value)
    case Some(d) => Some(DaysFromCivil(d) * 86400)
    case None => None
  }

  /** The Atom patterns, in the order `parse_timestamp_atom` tries them. */
  function AtomCandidates(c: Chrono, value: string): seq<Option<int>> {
    [ParseRfc3339(value), c.zoneName(value), SuffixPatched(c, value, " UTC"),
     SuffixPatched(c, value, " GMT"), c.naiveDateTime(value)]
  }

  /** The RSS patterns, in the order `parse_timestamp_rss` tries them. */
  function RssCandidates(c: Chrono, value: string): seq<Option<int>> {
    [c.rfc2822(value), BareDate(c, value), SuffixPatched(c, value, " UTC"),
     c.weekdayWithSeconds(value), c.weekdayWithoutSeconds(value)]
  }

  /** `parse_timestamp_atom`, step by step. */
  function ParseAtom(c: Chrono, value: string): (r: Option<int>)
    ensures r == FirstSome(AtomCandidates(c, value))
  {
    FirstOfFive(ParseRfc3339(value), c.zoneName(value), SuffixPatched(c, value, " UTC"),
                SuffixPatched(c, value, " GMT"), c.naiveDateTime(value));
    if ParseRfc3339(value).Some? then ParseRfc3339(value)
    else if c.zoneName(value).Some? then c.zoneName(value)
    else
      var utc := match StripSuffix(value, " UTC")
        case Some(rest) => c.numericOffset(rest + " +0000")
        case None => None;
      if utc.Some? then utc
      else
        var gmt := match StripSuffix(value, " GMT")
          case Some(rest) => c.numericOffset(rest + " +0000")
          case None => None;
        if gmt.Some? then gmt
        else c.naiveDateTime(value)
  }

  /** `parse_timestamp_rss`, step by step. */
  function ParseRss(c: Chrono, value: string): (r: Option<int>)
    ensures r == FirstSome(RssCandidates(c, value))
  {
    FirstOfFive(c.rfc2822(value), BareDate(c, value), SuffixPatched(c, value, " UTC"),
                c.weekdayWithSeconds(value), c.weekdayWithoutSeconds(value));
    if c.rfc2822(value).Some? then c.rfc2822(value)
    else
      match c.naiveDate(value)
      case Some(date) => Some(DaysFromCivil(date) * 86400)
      case None =>
        var utc := match StripSuffix(value, " UTC")
          case Some(rest) => c.numericOffset(rest + " +0000")
          case None => None;
        if utc.Some? then utc
        else if c.weekdayWithSeconds(value).Some? then c.weekdayWithSeconds(value)
        else c.weekdayWithoutSeconds(value)
  }

  /** `parse_timestamp_for_feed`: RSS 1.0 and 2.0 use the RSS patterns; Atom and every
      other family, RSS 0.9x and JSON Feed included, use the Atom patterns. */
  function ParseForFeed(c: Chrono, feedType: FeedType, value: string): (r: Option<int>)
    ensures feedType == Rss1 || feedType == Rss2 ==> r == ParseRss(c, value)
    ensures feedType != Rss1 && feedType != Rss2 ==> r == ParseAtom(c, value)
  {
    match feedType
    case Atom => ParseAtom(c, value)
    case Rss1 => ParseRss(c, value)
    case Rss2 => ParseRss(c, value)
    case _ => ParseAtom(c, value)
  }

  /** A valid RFC 3339 date-time gives its exact epoch second in the Atom parser,
      whatever the other patterns would say. */
  lemma AtomReadsRfc3339Exactly(c: Chrono, t: DateTime)
    requires ValidDateTime(t)
    ensures ParseAtom(c, RenderDateTime(t)) == Some(EpochSeconds(t))
  {
    ParseRfc3339OfRender(t);
  }

  lemma AtomNewYear2024(c: Chrono)
    ensures ParseAtom(c, "2024-01-01T00:00:00Z") == Some(1704067200)
  {
    NewYear2024Parses();
  }

  /** Text that ends in a letter other than `z` is never RFC 3339. */
  lemma Rfc3339RejectsZoneName(s: string)
    requires |s| > 0 && 'A' <= s[|s| - 1] <= 'Y'
    ensures ParseRfc3339(s).None?
  {
    ParseDateTimeEnding(s);
  }

  /** With a ` UTC` or ` GMT` suffix, the Atom parser reads the wall clock with a
      `+0000` offset, unless the zone-name pattern already took it. */
  lemma AtomZoneSuffix(c: Chrono, wall: string, suffix: string)
    requires suffix == " UTC" || suffix == " GMT"
    requires c.zoneName(wall + suffix).None?
    requires c.numericOffset(wall + " +0000").Some?
    ensures ParseAtom(c, wall + suffix) == c.numericOffset(wall + " +0000")
  {
    var v := wall + suffix;
    assert v[|v| - 1] == suffix[3];
    Rfc3339RejectsZoneName(v);
    assert StripSuffix(v, suffix) == Some(wall) by {
      assert v[|v| - |suffix|..] == suffix;
    }
    if suffix == " GMT" {
      assert !EndsWith(v, " UTC") by {
        assert v[|v| - 3] == 'G';
      }
    }
  }

  /** When chrono reads `+0000` as UTC, a wall clock with a ` UTC` or ` GMT` suffix
      gives the same second as the bare wall clock read as UTC. */
  lemma AtomSuffixMatchesNaive(c: Chrono, wall: string, suffix: string)
    requires suffix == " UTC" || suffix == " GMT"
    requires c.zoneName(wall + suffix).None?
    requires c.naiveDateTime(wall).Some?
    requires c.numericOffset(wall + " +0000") == c.naiveDateTime(wall)
    requires ParseRfc3339(wall).None? && c.zoneName(wall).None?
    requires !EndsWith(wall, " UTC") && !EndsWith(wall, " GMT")
    ensures ParseAtom(c, wall + suffix) == ParseAtom(c, wall)
  {
    AtomZoneSuffix(c, wall, suffix);
  }

  /** The RSS parser reads a bare date, when RFC 2822 fails, as midnight UTC. */
  lemma RssBareDateIsMidnight(c: Chrono, value: string, d: CivilDate)
    requires c.rfc2822(value).None? && c.naiveDate(value) == Some(d)
    ensures ParseRss(c, value) == Some(DaysFromCivil(d) * 86400)
    ensures CivilFromDays(ParseRss(c, value).value / 86400) == d
  {
    CivilOfDaysFromCivil(d);
  }

  /** The RSS parser strips only ` UTC`: for a ` GMT` suffix the `%z` pattern is never
      consulted. */
  lemma RssKeepsGmt(c: Chrono, wall: string)
    ensures var v := wall + " GMT";
      ParseRss(c, v) == FirstSome([c.rfc2822(v), BareDate(c, v), c.weekdayWithSeconds(v),
                                   c.weekdayWithoutSeconds(v)])
  {
    var v := wall + " GMT";
    assert !EndsWith(v, " UTC") by {
      assert v[|v| - 3] == 'G';
    }
    FirstOfFour(c.rfc2822(v), BareDate(c, v), c.weekdayWithSeconds(v), c.weekdayWithoutSeconds(v));
  }
}
