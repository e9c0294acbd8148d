/** The walk of the summarisation pass of `trigger_feed_sync`
    (apps/umbreon-mobile/src/timeline.rs), independent of what is done to an item: the
    queue of unsettled positions is cut into batches of at most 20, each batch into
    groups of at most 5; for a group, one request per item is issued in queue order
    (each with a progress update), then all replies are read and applied in the same
    order, as with `join_all`. The replies come from an oracle indexed by request
    number. */
module Batching {
  const BatchSize: nat := 20
  const GroupSize: nat := 5

  function Min(a: int, b: int): int {
    if a < b then a else b
  }

  /** What the walk does with an item: `reply(n)` is the answer to the `n`-th request,
      `request` what is sent for an item, `apply` how a reply changes it, `settled`
      which items are not queued. */
  datatype Job<!T, !R, Q> = Job(reply: nat -> R, request: T -> Q, apply: (T, R) -> T, settled: T -> bool)

  /** Queue positions in increasing item order, each naming an unsettled item. */
  ghost predicate Queue<T, R, Q>(job: Job<T, R, Q>, items: seq<T>, pending: seq<nat>) {
    && (forall a, b :: 0 <= a < b < |pending| ==> pending[a] < pending[b])
    && (forall k :: 0 <= k < |pending| ==> pending[k] < |items| && !job.settled(items[pending[k]]))
  }

  /** The first `m` queued items hold their reply; every other item is untouched. */
  ghost predicate Handled<T, R, Q>(job: Job<T, R, Q>, items: seq<T>, pending: seq<nat>, out: seq<T>, m: nat)
    requires m <= |pending|
    requires forall k :: 0 <= k < |pending| ==> pending[k] < |items|
  {
    && |out| == |items|
    && (forall r :: 0 <= r < m ==> out[pending[r]] == job.apply(items[pending[r]], job.reply(r)))
    && (forall r :: m <= r < |pending| ==> out[pending[r]] == items[pending[r]])
    && (forall i :: 0 <= i < |items| && job.settled(items[i]) ==> out[i] == items[i])
  }

  /** The first `m` requests are those of the first `m` queued items. */
  ghost predicate RequestedUpTo<T, R, Q>(job: Job<T, R, Q>, items: seq<T>, pending: seq<nat>, requests: seq<Q>, m: nat)
    requires m <= |pending|
    requires forall k :: 0 <= k < |pending| ==> pending[k] < |items|
  {
    |requests| == m && forall r :: 0 <= r < m ==> requests[r] == job.request(items[pending[r]])
  }

  /** The status line after each request, as the pair (done, total). */
  function Progress(m: nat, total: nat): (r: seq<(nat, nat)>)
    ensures |r| == m && forall k :: 0 <= k < m ==> r[k] == (k + 1, total)
  {
    seq(m, k => (k + 1, total))
  }

  lemma ProgressStep(m: nat, total: nat)
    ensures Progress(m, total) + [(m + 1, total)] == Progress(m + 1, total)
  {
  }

  /** Handles queue position `p`: the item still holds its original value, and
      replacing it keeps every other queued item as it was. */
  lemma HandleNext<T, R, Q>(job: Job<T, R, Q>, items: seq<T>, pending: seq<nat>, out: seq<T>, p: nat)
    requires p < |pending| && Queue(job, items, pending)
    requires Handled(job, items, pending, out, p)
    ensures out[pending[p]] == items[pending[p]]
    ensures Handled(job, items, pending, out[pending[p] := job.apply(out[pending[p]], job.reply(p))], p + 1)
  {
    var x := pending[p];
    var out' := out[x := job.apply(out[x], job.reply(p))];
    forall r | 0 <= r < p + 1
      ensures out'[pending[r]] == job.apply(items[pending[r]], job.reply(r))
    {
      if r < p {
        assert pending[r] < x;
      }
    }
    forall r | p + 1 <= r < |pending|
      ensures out'[pending[r]] == items[pending[r]]
    {
      assert x < pending[r];
    }
    forall i | 0 <= i < |items| && job.settled(items[i])
      ensures out'[i] == items[i]
    {
      assert i != x;
    }
  }

  lemma RequestedStep<T, R, Q>(job: Job<T, R, Q>, items: seq<T>, pending: seq<nat>, requests: seq<Q>, m: nat)
    requires m < |pending|
    requires forall k :: 0 <= k < |pending| ==> pending[k] < |items|
    requires RequestedUpTo(job, items, pending, requests, m)
    ensures RequestedUpTo(job, items, pending, requests + [job.request(items[pending[m]])], m + 1)
  {
    var requests' := requests + [job.request(items[pending[m]])];
    forall r | 0 <= r < m + 1
      ensures requests'[r] == job.request(items[pending[r]])
    {
      if r < m {
        assert requests'[r] == requests[r];
      }
    }
  }

  /** The request loop of one group: one status update and one request per item, in
      queue order. */
  method IssueRequests<T, R, Q>(job: Job<T, R, Q>, items: seq<T>, pending: seq<nat>, out: seq<T>,
                                group: seq<nat>, base: nat, requests: seq<Q>, progress: seq<(nat, nat)>)
    returns (requests': seq<Q>, progress': seq<(nat, nat)>)
    requires Queue(job, items, pending)
    requires base + |group| <= |pending| && group == pending[base..base + |group|]
    requires Handled(job, items, pending, out, base)
    requires RequestedUpTo(job, items, pending, requests, base)
    requires progress == Progress(base, |items|)
    ensures RequestedUpTo(job, items, pending, requests', base + |group|)
    ensures progress' == Progress(base + |group|, |items|)
  {
    requests', progress' := requests, progress;
    var done := base;
    var q := 0;
    while q < |group|
      invariant q <= |group| && done == base + q
      invariant RequestedUpTo(job, items, pending, requests', done)
      invariant progress' == Progress(done, |items|)
    {
      assert group[q] == pending[done];
      assert out[group[q]] == items[pending[done]];
      RequestedStep(job, items, pending, requests', done);
      ProgressStep(done, |items|);
      done := done + 1;
      progress' := progress' + [(done, |items|)];
      requests' := requests' + [job.request(out[group[q]])];
      q := q + 1;
    }
  }

  /** The result loop of one group: the replies, all read, applied in queue order. */
  method ApplyReplies<T, R, Q>(job: Job<T, R, Q>, items: seq<T>, pending: seq<nat>, out: seq<T>,
                               group: seq<nat>, base: nat)
    returns (out': seq<T>)
    requires Queue(job, items, pending)
    requires base + |group| <= |pending| && group == pending[base..base + |group|]
    requires Handled(job, items, pending, out, base)
    ensures Handled(job, items, pending, out', base + |group|)
  {
    var results := seq(|group|, (k: nat) => job.reply(base + k));
    out' := out;
    var q := 0;
    while q < |group|
      invariant q <= |group|
      invariant Handled(job, items, pending, out', base + q)
    {
      assert group[q] == pending[base + q] && results[q] == job.reply(base + q);
      HandleNext(job, items, pending, out', base + q);
      out' := out'[group[q] := job.apply(out'[group[q]], results[q])];
      q := q + 1;
    }
  }

  /** The parts laid end to end. */
  function Flatten(parts: seq<seq<nat>>): seq<nat>
    decreases |parts|
  {
    if |parts| == 0 then [] else Flatten(parts[..|parts| - 1]) + parts[|parts| - 1]
  }

  lemma FlattenAppend(parts: seq<seq<nat>>, last: seq<nat>)
    ensures Flatten(parts + [last]) == Flatten(parts) + last
  {
    assert (parts + [last])[..|parts|] == parts;
  }

  /** Every part holds between 1 and `size` positions. */
  predicate Bounded(parts: seq<seq<nat>>, size: nat) {
    forall g :: 0 <= g < |parts| ==> 1 <= |parts[g]| <= size
  }

  /** Every part holds exactly `size` positions. */
  predicate Full(parts: seq<seq<nat>>, size: nat) {
    forall g :: 0 <= g < |parts| ==> |parts[g]| == size
  }

  /** Only the last part may be short. */
  predicate OnlyLastShort(parts: seq<seq<nat>>, size: nat) {
    forall g :: 0 <= g < |parts| - 1 ==> |parts[g]| == size
  }

  /** Appending the next run of the queue to a split of the queue so far. */
  lemma AppendPart(parts: seq<seq<nat>>, part: seq<nat>, pending: seq<nat>, base: nat, size: nat)
    requires base + |part| <= |pending| && part == pending[base..base + |part|]
    requires 1 <= |part| <= size
    requires Flatten(parts) == pending[..base] && Bounded(parts, size) && Full(parts, size)
    ensures Flatten(parts + [part]) == pending[..base + |part|]
    ensures Bounded(parts + [part], size) && OnlyLastShort(parts + [part], size)
    ensures |part| == size ==> Full(parts + [part], size)
  {
    FlattenAppend(parts, part);
    assert pending[..base] + part == pending[..base + |part|];
  }

  /** What the walk has done: the items, the requests and the status updates. */
  datatype Pass<T, Q> = Pass(out: seq<T>, requests: seq<Q>, progress: seq<(nat, nat)>)

  /** The walk has handled the first `m` queued items. */
  ghost predicate Reached<T, R, Q>(job: Job<T, R, Q>, items: seq<T>, pending: seq<nat>, st: Pass<T, Q>, m: nat)
    requires m <= |pending|
    requires forall k :: 0 <= k < |pending| ==> pending[k] < |items|
  {
    && Handled(job, items, pending, st.out, m)
    && RequestedUpTo(job, items, pending, st.requests, m)
    && st.progress == Progress(m, |items|)
  }

  /** One group: its requests, then its replies. */
  method RunGroup<T, R, Q>(job: Job<T, R, Q>, items: seq<T>, pending: seq<nat>, st: Pass<T, Q>,
                           group: seq<nat>, base: nat)
    returns (st': Pass<T, Q>)
    requires Queue(job, items, pending)
    requires base + |group| <= |pending| && group == pending[base..base + |group|]
    requires Reached(job, items, pending, st, base)
    ensures Reached(job, items, pending, st', base + |group|)
  {
    var requests, progress := IssueRequests(job, items, pending, st.out, group, base, st.requests, st.progress);
    // All replies of the group arrive together.
    var out := ApplyReplies(job, items, pending, st.out, group, base);
    st' := Pass(out, requests, progress);
  }

  /** A run inside a run of the queue is a run of the queue. */
  lemma SubRun(pending: seq<nat>, offset: nat, chunk: seq<nat>, a: nat, b: nat)
    requires offset + |chunk| <= |pending| && chunk == pending[offset..offset + |chunk|]
    requires a <= b <= |chunk|
    ensures chunk[a..b] == pending[offset + a..offset + b]
  {
    assert forall k :: 0 <= k < b - a ==> chunk[a..b][k] == chunk[a + k] == pending[offset + a + k];
  }

  /** One batch (`chunk`) of the queue, starting at queue position `offset`, split
      into groups of at most five. */
  method RunBatch<T, R, Q>(job: Job<T, R, Q>, items: seq<T>, pending: seq<nat>, offset: nat,
                           chunk: seq<nat>, st: Pass<T, Q>, groups: seq<seq<nat>>)
    returns (st': Pass<T, Q>, groups': seq<seq<nat>>)
    requires Queue(job, items, pending)
    requires offset + |chunk| <= |pending| && chunk == pending[offset..offset + |chunk|]
    requires Reached(job, items, pending, st, offset)
    requires Flatten(groups) == pending[..offset] && Bounded(groups, GroupSize) && Full(groups, GroupSize)
    ensures Reached(job, items, pending, st', offset + |chunk|)
    ensures Flatten(groups') == pending[..offset + |chunk|] && Bounded(groups', GroupSize)
    ensures OnlyLastShort(groups', GroupSize)
    ensures |chunk| == BatchSize ==> Full(groups', GroupSize)
  {
    st', groups' := st, groups;
    var chunkOffset := 0;
    ghost var g := 0;
    while chunkOffset < |chunk|
      invariant chunkOffset <= |chunk|
      invariant |chunk| == BatchSize ==> chunkOffset == 5 * g
      invariant Reached(job, items, pending, st', offset + chunkOffset)
      invariant Flatten(groups') == pending[..offset + chunkOffset] && Bounded(groups', GroupSize)
      invariant chunkOffset < |chunk| || |chunk| == BatchSize ==> Full(groups', GroupSize)
      invariant OnlyLastShort(groups', GroupSize)
    {
      var groupEnd := Min(chunkOffset + GroupSize, |chunk|);
      var group := chunk[chunkOffset..groupEnd];
      var base := offset + chunkOffset;
      SubRun(pending, offset, chunk, chunkOffset, groupEnd);
      st' := RunGroup(job, items, pending, st', group, base);
      AppendPart(groups', group, pending, base, GroupSize);
      groups' := groups' + [group];
      chunkOffset := groupEnd;
      g := g + 1;
    }
  }

  /** The outer loop: the queue in batches of at most twenty. Every queued item is
      handled, every request issued in queue order, and the batches and groups cover
      the queue in order with only the last of each short. */
  method RunQueue<T, R, Q>(job: Job<T, R, Q>, items: seq<T>, pending: seq<nat>)
    returns (st: Pass<T, Q>, groups: seq<seq<nat>>, batches: seq<seq<nat>>)
    requires Queue(job, items, pending)
    ensures Reached(job, items, pending, st, |pending|)
    ensures Flatten(groups) == pending && Bounded(groups, GroupSize) && OnlyLastShort(groups, GroupSize)
    ensures Flatten(batches) == pending && Bounded(batches, BatchSize) && OnlyLastShort(batches, BatchSize)
  {
    st, groups, batches := Pass(items, [], []), [], [];
    var offset := 0;
    while offset < |pending|
      invariant offset <= |pending|
      invariant Reached(job, items, pending, st, offset)
      invariant Flatten(groups) == pending[..offset] && Bounded(groups, GroupSize)
      invariant Flatten(batches) == pending[..offset] && Bounded(batches, BatchSize)
      invariant offset < |pending| ==> Full(groups, GroupSize) && Full(batches, BatchSize)
      invariant OnlyLastShort(groups, GroupSize) && OnlyLastShort(batches, BatchSize)
    {
      var batchEnd := Min(offset + BatchSize, |pending|);
      var chunk := pending[offset..batchEnd];
      st, groups := RunBatch(job, items, pending, offset, chunk, st, groups);
      AppendPart(batches, chunk, pending, offset, BatchSize);
      batches := batches + [chunk];
      offset := batchEnd;
    }
    assert pending[..|pending|] == pending;
  }
}
