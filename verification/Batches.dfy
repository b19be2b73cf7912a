/** The delivery limits in reachable states, where admission has capped every stored message. */
module Batches {
  import opened Prelude
  import opened Ordering
  import opened MailboxModel
  import opened Retrieval
  import opened Runs
  import opened Namespace

  /** `batch` is the longest prefix of `list` with at most 500 messages and 4 MiB. */
  ghost predicate LongestPrefix(sizes: map<Id, nat>, list: seq<Key>, batch: seq<Key>) {
    && batch <= list
    && forall n: nat | n <= |list| :: n <= |batch| <==> n <= 500 && Total(sizes, list[..n]) <= 4 * 1024 * 1024
  }

  lemma BatchIsLongest(sizes: map<Id, nat>, list: seq<Key>)
    requires forall k | k in list :: Size(sizes, k) <= MAX_RETRIEVE
    ensures LongestPrefix(sizes, list, Batch(sizes, list))
  {
    forall n: nat | n <= |list| ensures n <= |Batch(sizes, list)| <==> n <= MAX_BATCH && Total(sizes, list[..n]) <= MAX_RETRIEVE {
      BatchIsLongestFittingPrefix(sizes, list, n);
    }
  }

  /** In every reachable state both retrievals return the longest prefix of the inbox that respects both limits. */
  lemma RetrievalsAreLongestPrefixes(env: Env, start: int, es: seq<Event>, r: Urn, at: int)
    requires Run(env, start, es)
    ensures var w := At(env, Genesis(start), es, |es|);
      var list := Inbox(env.sdk, w.db, w.proc, r, at);
      var listV2 := InboxV2(w.db, w.proc, r, Unix(at));
      && LongestPrefix(SizesV1(w.db.v1), list, Batch(SizesV1(w.db.v1), list))
      && LongestPrefix(SizesV2(w.db.v2), listV2, Batch(SizesV2(w.db.v2), listV2))
  {
    hide Run, At, Batch, LongestPrefix, Inbox, InboxV2, OneNamespace, Sorted;
    NamespaceHolds(env, start, es, |es|);
    var w := At(env, Genesis(start), es, |es|);
    BatchIsLongest(SizesV1(w.db.v1), Inbox(env.sdk, w.db, w.proc, r, at));
    BatchIsLongest(SizesV2(w.db.v2), InboxV2(w.db, w.proc, r, Unix(at)));
  }
}
