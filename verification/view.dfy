/** The timeline pane of apps/umbreon-mobile/src/components/timeline.rs: the
    language stamp read from an item's tags, the 60-day window sorted newest first,
    and the "load 30 more" pagination of the native build. */
module View {
  import opened Wrappers
  import opened Text
  import opened Sorting
  import opened Items

  // ---------------------------------------------------------------- stamp

  const StampPrefix: string := "StackLang:"
  const StampPrefixLower: string := "stacklang:"
  const IconBase: string := "https://cdn.jsdelivr.net/gh/devicons/devicon/icons/"
  const RustIcon: string := "https://cdn.jsdelivr.net/gh/devicons/devicon/icons/rust/rust-plain.svg"

  /** The stamp of a tag: the trimmed tag with either spelling of the prefix
      removed, trimmed again. */
  function TagLabel(tag: string): (r: Option<string>)
    ensures r.Some? <==> StartsWith(Trim(tag, IsRustSpace), StampPrefix)
                         || StartsWith(Trim(tag, IsRustSpace), StampPrefixLower)
    ensures r.Some? ==> IsTrimmed(r.value, IsRustSpace)
  {
    var trimmed := Trim(tag, IsRustSpace);
    match StripPrefix(trimmed, StampPrefix).Or(StripPrefix(trimmed, StampPrefixLower))
    case Some(value) => Some(Trim(value, IsRustSpace))
    case None => None
  }

  /** `find_map`: the first value `f` gives along `s`. */
  function FindMap<T, U>(s: seq<T>, f: T -> Option<U>): (r: Option<U>)
    ensures r.None? <==> forall i :: 0 <= i < |s| ==> f(s[i]).None?
    decreases |s|
  {
    if |s| == 0 then None
    else if f(s[0]).Some? then f(s[0])
    else
      assert forall i :: 1 <= i < |s| ==> s[i] == s[1..][i - 1];
      FindMap(s[1..], f)
  }

  /** `find_map` returns the value of the first element that has one. */
  lemma {:induction false} FindMapIsFirst<T, U>(s: seq<T>, f: T -> Option<U>)
    requires FindMap(s, f).Some?
    ensures exists i :: 0 <= i < |s| && f(s[i]) == FindMap(s, f) && forall j :: 0 <= j < i ==> f(s[j]).None?
    decreases |s|
  {
    if f(s[0]).None? {
      FindMapIsFirst(s[1..], f);
      var i :| 0 <= i < |s[1..]| && f(s[1..][i]) == FindMap(s[1..], f)
        && forall j :: 0 <= j < i ==> f(s[1..][j]).None?;
      assert f(s[i + 1]) == FindMap(s, f);
      assert forall j :: 1 <= j < i + 1 ==> s[j] == s[1..][j - 1];
    } else {
      assert f(s[0]) == FindMap(s, f);
    }
  }

  /** The name of the first tag that has one. */
  function FirstLabel(tags: seq<string>): (r: Option<string>)
    ensures r.None? <==> forall i :: 0 <= i < |tags| ==> TagLabel(tags[i]).None?
  {
    FindMap(tags, TagLabel)
  }

  /** The key of the icon: the lower-cased name, with "golang" read as "go". */
  function IconKey(name: string): (r: string)
    ensures |r| == 0 <==> |Trim(name, IsRustSpace)| == 0
  {
    var key := Lower(Trim(name, IsRustSpace));
    if key == "golang" then "go" else key
  }

  /** No icon for an empty key, the plain Rust icon for "rust", and the key's
      "original" icon otherwise. */
  function IconUrl(key: string): (r: Option<string>)
    ensures r.None? <==> key == ""
    ensures key == "rust" ==> r == Some(RustIcon)
    ensures key != "" && key != "rust" ==>
      r.Some? && StripPrefix(r.value, IconBase) == Some(key + "/" + key + "-original.svg")
  {
    if key == "" then None
    else if key == "rust" then Some(RustIcon)
    else
      var url := IconBase + key + "/" + key + "-original.svg";
      assert url[|IconBase|..] == key + "/" + key + "-original.svg";
      Some(url)
  }

  datatype Stamp = Stamp(name: string, iconUrl: Option<string>)

  /** `stacklang_stamp`. */
  function StackLangStamp(tags: seq<string>): (r: Option<Stamp>)
    ensures r.None? <==> forall i :: 0 <= i < |tags| ==> TagLabel(tags[i]).None?
    ensures r.Some? ==> Some(r.value.name) == FirstLabel(tags)
    ensures r.Some? ==> r.value.iconUrl == IconUrl(IconKey(r.value.name))
  {
    match FirstLabel(tags)
    case None => None
    case Some(name) => Some(Stamp(name, IconUrl(IconKey(name))))
  }

  /** A stamp's icon is missing exactly when its name is blank. */
  lemma IconMissingIffBlankLabel(tags: seq<string>)
    requires StackLangStamp(tags).Some?
    ensures StackLangStamp(tags).value.iconUrl.None? <==> StackLangStamp(tags).value.name == ""
  {
    var name := StackLangStamp(tags).value.name;
    FindMapIsFirst(tags, TagLabel);
    var i :| 0 <= i < |tags| && TagLabel(tags[i]) == Some(name);
    TrimFixedPoint(name, IsRustSpace);
  }

  /** A tag whose text after leading whitespace starts with "StackLang:" has a stamp:
      trimming the end cannot reach into the prefix, which ends in a colon. */
  lemma PrefixedTagHasLabel(tag: string)
    requires StartsWith(TrimStart(tag, IsRustSpace), StampPrefix)
    ensures TagLabel(tag).Some?
  {
    var head := TrimStart(tag, IsRustSpace);
    var t := Trim(tag, IsRustSpace);
    var k := SkipForward(tag, IsRustSpace, 0);
    assert head == tag[k..] by {
      assert |tag| - |head| == k by {
        if |head| > 0 {
          assert !IsRustSpace(tag[|tag| - |head|]);
        }
      }
    }
    // The colon at offset 9 of `head` is not whitespace, so `t` runs past it.
    assert head[9] == ':' && tag[k + 9] == ':' && !IsRustSpace(tag[k + 9]);
    assert |t| >= 10;
    assert forall j :: 0 <= j < 10 ==> t[j] == tag[k + j] == head[j];
    assert t[..10] == StampPrefix;
  }

  // ---------------------------------------------------------------- window

  const WindowSeconds: int := 60 * 24 * 60 * 60
  const MinI64: int := -0x8000_0000_0000_0000
  const MaxI64: int := 0x7fff_ffff_ffff_ffff

  /** `now_ts.saturating_sub(60 days)` on `i64`. */
  function Cutoff(now: int): (r: int)
    requires MinI64 <= now <= MaxI64
    ensures MinI64 <= r <= now
    ensures now - WindowSeconds >= MinI64 ==> r == now - WindowSeconds
    ensures now - WindowSeconds < MinI64 ==> r == MinI64
  {
    if now - WindowSeconds < MinI64 then MinI64 else now - WindowSeconds
  }

  /** `retain`: the items at or after `cutoff`, in order. */
  function Recent(items: seq<FeedItem>, cutoff: int): (r: seq<FeedItem>)
    ensures |r| <= |items|
    ensures forall i :: 0 <= i < |r| ==> r[i].publishedTs >= cutoff
    decreases |items|
  {
    if |items| == 0 then []
    else if items[0].publishedTs >= cutoff then [items[0]] + Recent(items[1..], cutoff)
    else Recent(items[1..], cutoff)
  }

  /** The retained items are exactly the recent ones, each as often as before. */
  lemma {:induction false} RecentCounts(items: seq<FeedItem>, cutoff: int, x: FeedItem)
    ensures multiset(Recent(items, cutoff))[x] == if x.publishedTs >= cutoff then multiset(items)[x] else 0
    decreases |items|
  {
    if |items| > 0 {
      RecentCounts(items[1..], cutoff, x);
      assert items == [items[0]] + items[1..];
    }
  }

  /** The pane's list: the last 60 days, newest first, ties in their stored order. */
  function TimelineItems(items: seq<FeedItem>, now: int): (r: seq<FeedItem>)
    requires MinI64 <= now <= MaxI64
    ensures Descending(r, PublishedTs)
    ensures forall i :: 0 <= i < |r| ==> r[i].publishedTs >= Cutoff(now)
    ensures multiset(r) == multiset(Recent(items, Cutoff(now)))
    ensures forall k :: WithKey(r, PublishedTs, k) == WithKey(Recent(items, Cutoff(now)), PublishedTs, k)
  {
    var kept := Recent(items, Cutoff(now));
    SortOrders(kept, PublishedTs);
    SortPermutes(kept, PublishedTs);
    forall k ensures WithKey(SortByKeyDesc(kept, PublishedTs), PublishedTs, k) == WithKey(kept, PublishedTs, k) {
      SortIsStable(kept, PublishedTs, k);
    }
    var r := SortByKeyDesc(kept, PublishedTs);
    forall i | 0 <= i < |r| ensures r[i].publishedTs >= Cutoff(now) {
      assert r[i] in multiset(r);
      assert r[i] in kept;
    }
    r
  }

  /** An item is shown exactly when it is from the last 60 days. */
  lemma TimelineMembers(items: seq<FeedItem>, now: int, x: FeedItem)
    requires MinI64 <= now <= MaxI64
    ensures x in TimelineItems(items, now) <==> x in items && x.publishedTs >= Cutoff(now)
  {
    RecentCounts(items, Cutoff(now), x);
    assert x in TimelineItems(items, now) <==> x in multiset(TimelineItems(items, now));
    assert x in items <==> x in multiset(items);
  }

  // ---------------------------------------------------------------- pagination

  const PageSize: nat := 30

  /** The counter as rendered: never more than the list holds. */
  function ClampVisible(visible: nat, total: nat): (r: nat)
    ensures r <= total && r <= visible
    ensures visible <= total ==> r == visible
  {
    if visible > total then total else visible
  }

  /** One scroll event: thirty more, up to the end. */
  function ScrollStep(current: nat, total: nat): (r: nat)
    ensures current <= r
    ensures current <= total ==> r <= total
    ensures current + PageSize < total ==> r == current + PageSize
    ensures current < total <= current + PageSize ==> r == total
    ensures current >= total ==> r == current
  {
    if current < total then (if current + PageSize < total then current + PageSize else total) else current
  }

  /** The counter after `n` scroll events from the first page. */
  function AfterScrolls(total: nat, n: nat): (r: nat)
    ensures r <= total
  {
    if n == 0 then ClampVisible(PageSize, total) else ScrollStep(AfterScrolls(total, n - 1), total)
  }

  /** The counter never decreases, and after `n` events it shows exactly
      `30 * (n + 1)` items while the list is longer than that, and all of them
      otherwise. */
  lemma {:induction false} ScrollProgress(total: nat, n: nat)
    ensures PageSize * (n + 1) < total ==> AfterScrolls(total, n) == PageSize * (n + 1)
    ensures total <= PageSize * (n + 1) ==> AfterScrolls(total, n) == total
    ensures n > 0 ==> AfterScrolls(total, n - 1) <= AfterScrolls(total, n)
  {
    if n > 0 {
      ScrollProgress(total, n - 1);
    }
  }

  /** The items shown for a counter: the first `visible` of the list. */
  function Shown(items: seq<FeedItem>, visible: nat): (r: seq<FeedItem>)
    ensures |r| == ClampVisible(visible, |items|)
    ensures r == items[..|r|]
  {
    items[..ClampVisible(visible, |items|)]
  }
}
