/** The summarisation pass of `trigger_feed_sync` (apps/umbreon-mobile/src/timeline.rs):
    the unsummarised items are queued in order, walked in batches of at most 20 split
    into groups of at most 5, and every queued item gets the model's cleaned reply or
    its local fallback excerpt. The network replies come from an oracle indexed by
    request number; a group's replies are all read before any is applied, as with
    `join_all`. */
module Summarize {
  import opened Wrappers
  import opened Text
  import opened Html
  import opened Items
  import opened Batching

  /** One `summarize_text` call: the item's title and the text sent. */
  datatype Request = Request(title: string, content: string)

  /** Summaries are requested only with a non-blank endpoint, key and model. */
  predicate Configured(endpoint: string, apiKey: string, model: string) {
    && |Trim(endpoint, IsRustSpace)| > 0
    && |Trim(apiKey, IsRustSpace)| > 0
    && |Trim(model, IsRustSpace)| > 0
  }

  /** The positions, from `from` on, of the items still to summarise, in order. */
  function PendingFrom(items: seq<FeedItem>, from: nat): (r: seq<nat>)
    ensures forall a, b :: 0 <= a < b < |r| ==> r[a] < r[b]
    ensures forall k :: 0 <= k < |r| ==> from <= r[k] < |items| && !items[r[k]].summarized
    ensures forall i :: from <= i < |items| && !items[i].summarized ==> i in r
    decreases |items| - from
  {
    if from >= |items| then []
    else if items[from].summarized then PendingFrom(items, from + 1)
    else [from] + PendingFrom(items, from + 1)
  }

  /** The queue of the pass: every unsummarised item, once, in timeline order. */
  function Pending(items: seq<FeedItem>): (r: seq<nat>)
    ensures forall a, b :: 0 <= a < b < |r| ==> r[a] < r[b]
    ensures forall k :: 0 <= k < |r| ==> r[k] < |items| && !items[r[k]].summarized
    ensures forall i :: 0 <= i < |items| && !items[i].summarized ==> i in r
  {
    PendingFrom(items, 0)
  }

  /** Items already summarised are not queued. */
  function Summarized(item: FeedItem): bool {
    item.summarized
  }

  /** The item's full content as plain text. */
  function BodyText(item: FeedItem): string {
    PlainText(item.fullContent)
  }

  /** The local excerpt kept when no usable summary arrives: from the plain body,
      or from the current summary when the body is empty. */
  function Fallback(item: FeedItem): (r: string)
    ensures |r| <= MaxExcerpt + 1
  {
    if |BodyText(item)| == 0 then FallbackSummary(item.summary) else FallbackSummary(BodyText(item))
  }

  /** The text sent to the model: the plain body, or the summary when the body is
      empty. */
  function RequestFor(item: FeedItem): (r: Request)
    ensures r.title == item.title
    ensures r.content == item.summary || (r.content != "" && Collapsed(r.content) && '<' !in r.content)
    ensures Fallback(item) == FallbackSummary(r.content)
  {
    PlainTextShape(item.fullContent);
    Request(item.title, if |BodyText(item)| == 0 then item.summary else BodyText(item))
  }

  /** The result rule: a reply whose cleaned text is not blank becomes the summary;
      an empty reply or a failure leaves the fallback excerpt. Nothing else changes. */
  function Outcome(item: FeedItem, reply: Result<string>, clean: string -> string): FeedItem {
    match reply
    case Ok(text) =>
      var cleaned := clean(text);
      if |Trim(cleaned, IsRustSpace)| == 0 then item.(summary := Fallback(item), summarized := false)
      else item.(summary := cleaned, summarized := true)
    case Err(_) => item.(summary := Fallback(item), summarized := false)
  }

  /** The result rule, field by field. */
  lemma OutcomeRule(item: FeedItem, reply: Result<string>, clean: string -> string)
    ensures var r := Outcome(item, reply, clean);
      && r.(summary := item.summary, summarized := item.summarized) == item
      && (r.summarized <==> reply.Ok? && |Trim(clean(reply.value), IsRustSpace)| > 0)
      && (r.summarized ==> r.summary == clean(reply.value))
      && (!r.summarized ==> r.summary == Fallback(item))
  {
  }

  /** With no item summarised, every item is queued, in order: the `r`-th request
      is for the `r`-th item. */
  lemma {:induction false} EverythingPendingWhenNoneSummarized(items: seq<FeedItem>, from: nat)
    requires from <= |items|
    requires forall i :: from <= i < |items| ==> !items[i].summarized
    ensures |PendingFrom(items, from)| == |items| - from
    ensures forall k :: 0 <= k < |items| - from ==> PendingFrom(items, from)[k] == from + k
    decreases |items| - from
  {
    if from < |items| {
      EverythingPendingWhenNoneSummarized(items, from + 1);
      var rest := PendingFrom(items, from + 1);
      var r := PendingFrom(items, from);
      assert r == [from] + rest;
      forall k | 0 <= k < |items| - from
        ensures r[k] == from + k
      {
        if k > 0 {
          assert r[k] == rest[k - 1];
        }
      }
    }
  }

  /** After every queued item got its outcome, only summaries and flags have changed,
      and an item newly marked summarised has a non-blank summary. */
  lemma PassKeepsOtherFields(items: seq<FeedItem>, reply: nat -> Result<string>, clean: string -> string,
                             out: seq<FeedItem>)
    requires |out| == |items|
    requires forall i :: 0 <= i < |items| && items[i].summarized ==> out[i] == items[i]
    requires var pending := Pending(items);
      forall r :: 0 <= r < |pending| ==> out[pending[r]] == Outcome(items[pending[r]], reply(r), clean)
    ensures forall i :: 0 <= i < |items| ==>
      out[i].(summary := items[i].summary, summarized := items[i].summarized) == items[i]
    ensures forall i :: 0 <= i < |items| && out[i].summarized && !items[i].summarized ==>
      |Trim(out[i].summary, IsRustSpace)| > 0
  {
    var pending := Pending(items);
    forall i | 0 <= i < |items| && !items[i].summarized
      ensures out[i].(summary := items[i].summary, summarized := items[i].summarized) == items[i]
      ensures out[i].summarized ==> |Trim(out[i].summary, IsRustSpace)| > 0
    {
      var r :| 0 <= r < |pending| && pending[r] == i;
      OutcomeRule(items[i], reply(r), clean);
    }
  }

  /** With every item already summarised, the queue is empty. */
  lemma {:induction false} NothingPendingWhenAllSummarized(items: seq<FeedItem>, from: nat)
    requires forall i :: from <= i < |items| ==> items[i].summarized
    ensures PendingFrom(items, from) == []
    decreases |items| - from
  {
    if from < |items| {
      NothingPendingWhenAllSummarized(items, from + 1);
    }
  }

  /** The pass over the queue: requests in queue order, replies applied group by
      group; without a complete configuration nothing happens. */
  method SummarizeItems(items: seq<FeedItem>, endpoint: string, apiKey: string, model: string,
                        reply: nat -> Result<string>, clean: string -> string)
    returns (out: seq<FeedItem>, requests: seq<Request>, progress: seq<(nat, nat)>,
             groups: seq<seq<nat>>, batches: seq<seq<nat>>)
    ensures !Configured(endpoint, apiKey, model) ==> out == items && requests == [] && progress == [] && groups == []
    ensures |out| == |items|
    ensures forall i :: 0 <= i < |items| && items[i].summarized ==> out[i] == items[i]
    ensures Configured(endpoint, apiKey, model) ==>
      var pending := Pending(items);
      && (forall r :: 0 <= r < |pending| ==> out[pending[r]] == Outcome(items[pending[r]], reply(r), clean))
      && |requests| == |pending|
      && (forall r :: 0 <= r < |pending| ==> requests[r] == RequestFor(items[pending[r]]))
      && progress == Progress(|pending|, |items|)
      && Flatten(groups) == pending && Bounded(groups, GroupSize) && OnlyLastShort(groups, GroupSize)
      && Flatten(batches) == pending && Bounded(batches, BatchSize) && OnlyLastShort(batches, BatchSize)
    ensures forall i :: 0 <= i < |items| ==>
      out[i].(summary := items[i].summary, summarized := items[i].summarized) == items[i]
    ensures forall i :: 0 <= i < |items| && out[i].summarized && !items[i].summarized ==>
      |Trim(out[i].summary, IsRustSpace)| > 0
    ensures (forall i :: 0 <= i < |items| ==> items[i].summarized) ==> out == items && requests == []
  {
    out, requests, progress, groups, batches := items, [], [], [], [];
    if !Configured(endpoint, apiKey, model) {
      return;
    }
    var pending := Pending(items);
    if forall i :: 0 <= i < |items| ==> items[i].summarized {
      NothingPendingWhenAllSummarized(items, 0);
    }
    var st;
    st, groups, batches := RunQueue(Job(reply, RequestFor, (x, y) => Outcome(x, y, clean), Summarized), items, pending);
    out, requests, progress := st.out, st.requests, st.progress;
    PassKeepsOtherFields(items, reply, clean, out);
  }
}
