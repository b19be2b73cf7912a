/** The message quota: mailboxes stay bounded although no step evicts a pending row to make room. */
module Quota {
  import opened Prelude
  import opened MailboxModel
  import opened Runs
  import opened Namespace
  import opened RowLaws

  lemma AgeingShrinksPending(db: Tables, next: Tables, r: Urn, before: int, now: int)
    requires Ages(db, next) && before <= now
    ensures PendingV1Ids(next, r, now) <= PendingV1Ids(db, r, before)
    ensures PendingV2Ids(next, r, now) <= PendingV2Ids(db, r, before)
    ensures PendingFrameIds(next, r, now) <= PendingFrameIds(db, r, before)
  {
  }

  lemma AgeingLowersCounts(db: Tables, next: Tables, r: Urn, before: int, now: int)
    requires Ages(db, next) && before <= now
    ensures PendingCount(next, r, now) <= PendingCount(db, r, before)
    ensures |PendingFrameIds(next, r, now)| <= |PendingFrameIds(db, r, before)|
  {
    hide Ages, PendingV1Ids, PendingV2Ids, PendingFrameIds;
    AgeingShrinksPending(db, next, r, before, now);
    SubsetCardinality(PendingV1Ids(next, r, now), PendingV1Ids(db, r, before));
    SubsetCardinality(PendingV2Ids(next, r, now), PendingV2Ids(db, r, before));
    SubsetCardinality(PendingFrameIds(next, r, now), PendingFrameIds(db, r, before));
  }

  /** A new row adds to its own recipient's count only. */
  lemma OthersUnaffected(db: Tables, next: Tables, owner: Urn, id: Id, r: Urn, before: int, now: int)
    requires before <= now && r != owner
    requires forall k | k in next.v1 :: (k in db.v1 && next.v1[k] == db.v1[k]) || (k == id && next.v1[k].recipient == owner)
    requires forall k | k in next.v2 :: (k in db.v2 && next.v2[k] == db.v2[k]) || (k == id && next.v2[k].recipient == owner)
    ensures PendingCount(next, r, now) <= PendingCount(db, r, before)
  {
    SubsetCardinality(PendingV1Ids(next, r, now), PendingV1Ids(db, r, before));
    SubsetCardinality(PendingV2Ids(next, r, now), PendingV2Ids(db, r, before));
  }

  predicate Within(lim: Limits, before: nat, after: nat) {
    lim.perUrn > 0 ==> after <= before || after <= lim.perUrn
  }

  lemma V1RespectsQuota(sdk: Sdk, lim: Limits, db: Tables, recipient: Urn, payload: Bytes, env: V1Envelope,
                        expiry: int, storedAt: int, before: int, at: int, r: Urn)
    requires before <= at
    ensures Within(lim, PendingCount(db, r, Unix(before)),
                   PendingCount(CommitV1(sdk, lim, db, recipient, payload, env, expiry, storedAt, at).0, r, Unix(at)))
  {
    hide PendingCount, Ages, SqlManaged;
    var next := CommitV1(sdk, lim, db, recipient, payload, env, expiry, storedAt, at).0;
    if next == db {
      SameRowsAge(db, next);
      AgeingLowersCounts(db, next, r, Unix(before), Unix(at));
    } else if r != recipient {
      OthersUnaffected(db, next, recipient, env.id, r, Unix(before), Unix(at));
    }
  }

  lemma V2CommitIsCounted(sdk: Sdk, lim: Limits, db: Tables, days: int, s: Submission, seen: int, at: int)
    ensures var next := CommitV2(sdk, lim, db, days, s, seen, at).0;
      next != db && lim.perUrn > 0 ==> PendingCount(next, s.recipient, Unix(seen)) <= lim.perUrn
  {
    hide PendingCount, QueueEntry, LedgerEntry, ArchiveEntry;
    var next := CommitV2(sdk, lim, db, days, s, seen, at).0;
    var queued := db.(v2 := db.v2[s.id := QueueEntry(s, seen)]);
    if next != db {
      SameQueues(queued, next, s.recipient, Unix(seen));
    }
  }

  /** The count is taken at the earlier reading; rows that lapse meanwhile only lower it. */
  lemma V2RespectsQuota(sdk: Sdk, lim: Limits, db: Tables, days: int, s: Submission, seen: int, before: int, at: int, r: Urn)
    requires before <= at && seen <= at
    ensures Within(lim, PendingCount(db, r, Unix(before)),
                   PendingCount(CommitV2(sdk, lim, db, days, s, seen, at).0, r, Unix(at)))
  {
    hide PendingCount, Ages, CommitV2, LedgerEntry, ArchiveEntry;
    var next := CommitV2(sdk, lim, db, days, s, seen, at).0;
    CommitV2Effect(sdk, lim, db, days, s, seen, at);
    if next == db {
      SameRowsAge(db, next);
      AgeingLowersCounts(db, next, r, Unix(before), Unix(at));
    } else if r != s.recipient {
      OthersUnaffected(db, next, s.recipient, s.id, r, Unix(before), Unix(at));
    } else {
      V2CommitIsCounted(sdk, lim, db, days, s, seen, at);
      SameRowsAge(next, next);
      AgeingLowersCounts(next, next, r, Unix(seen), Unix(at));
    }
  }

  lemma SameQueues(db: Tables, next: Tables, r: Urn, now: int)
    requires db.v1 == next.v1 && db.v2 == next.v2
    ensures PendingCount(db, r, now) == PendingCount(next, r, now)
  {
  }

  /** A queued message with plaintext still has its ledger entry, unless its expiry has passed. */
  ghost predicate LedgerBacked(w: World) {
    forall id | id in w.db.v2 && id in w.db.archive && id !in w.db.admissions :: w.db.v2[id].expiry <= Unix(w.clock)
  }

  lemma CleanupKeepsBacked(sdk: Sdk, db: Tables, historyDays: int, archiveDays: int, done: set<Stage>, now: int, clock: int, at: int)
    requires OneNamespace(sdk, db) && Unix(clock) <= Unix(at) && now <= Unix(at)
    requires forall id | id in db.v2 && id in db.archive && id !in db.admissions :: db.v2[id].expiry <= Unix(clock)
    ensures var next := Cleanup(db, historyDays, archiveDays, done, now);
      forall id | id in next.v2 && id in next.archive && id !in next.admissions :: next.v2[id].expiry <= Unix(at)
  {
    var next := Cleanup(db, historyDays, archiveDays, done, now);
    CleanupAges(db, historyDays, archiveDays, done, now);
    hide Cleanup;
    forall id | id in next.v2 && id in next.archive && id !in next.admissions ensures next.v2[id].expiry <= Unix(at) {
      if id in db.admissions {
        assert SameMessage(sdk, db.v2[id], db.admissions[id]);
      }
    }
  }

  lemma V2KeepsBacked(sdk: Sdk, lim: Limits, w: World, s: Submission, seen: int, at: int)
    requires LedgerBacked(w) && Unix(w.clock) <= Unix(at)
    ensures LedgerBacked(World(CommitV2(sdk, lim, w.db, w.proc.archiveDays, s, seen, at).0, w.proc, at, w.boots))
  {
    CommitV2Effect(sdk, lim, w.db, w.proc.archiveDays, s, seen, at);
    hide CommitV2;
  }

  lemma AgeingKeepsBacked(w: World, next: World)
    requires LedgerBacked(w) && Unix(w.clock) <= Unix(next.clock)
    requires Ages(w.db, next.db) && next.db.admissions == w.db.admissions
    ensures LedgerBacked(next)
  {
  }

  lemma OnlyCleanupForgets(env: Env, w: World, e: Event)
    requires !IsStore(e.op) && !e.op.CleanUp?
    ensures Apply(env, w, e).db.admissions == w.db.admissions
  {
    hide ApplyProcess, MarkV1, MarkV2, MarkFrames, Enable, CommitEnroll, Revoke, Delete, Purge, SetArchiveDays;
  }

  lemma BackedStep(env: Env, w: World, e: Event)
    requires Allowed(w, e) && OneNamespace(env.sdk, w.db) && LedgerBacked(w)
    ensures LedgerBacked(Apply(env, w, e))
  {
    var next := Apply(env, w, e);
    assert Unix(w.clock) <= Unix(e.at);
    hide CommitV1, CommitV2, CommitFrame, Cleanup, ApplyProcess, Ages, PendingCount;
    match e.op {
      case StoreV2(s, seen) => V2KeepsBacked(env.sdk, Lim(env, w), w, s, seen, e.at);
      case StoreV1(_, _, _, _) =>
      case StoreFrame(_, _, _, _, _) =>
      case CleanUp(done, now) =>
        CleanupKeepsBacked(env.sdk, w.db, w.proc.historyDays, w.proc.archiveDays, done, now, w.clock, e.at);
      case _ =>
        hide ApplyTables;
        OnlyStoresAddRows(env, w, e);
        OnlyCleanupForgets(env, w, e);
        AgeingKeepsBacked(w, next);
    }
  }

  lemma {:induction false} LedgerBacksQueue(env: Env, start: int, es: seq<Event>, i: nat)
    requires Run(env, start, es) && i <= |es|
    ensures LedgerBacked(At(env, Genesis(start), es, i))
  {
    hide Apply, Allowed;
    if i > 0 {
      LedgerBacksQueue(env, start, es, i - 1);
      NamespaceHolds(env, start, es, i - 1);
      BackedStep(env, At(env, Genesis(start), es, i - 1), es[i - 1]);
    }
  }

  /** Whether the pinned policy lets a v1 insert through. */
  predicate PolicyAdmits(db: Tables, recipient: Urn, env: V1Envelope, at: int) {
    db.policy.Some? ==>
      Unix(at) < db.policy.value.expiresAt && (db.policy.value.required ==> SqlManaged(db, db.policy.value.issuer, recipient, env, at))
  }

  /**
   In every reachable state a v1 store of a row that is still there changes no table and is never full, in conflict or
   fresh, so it is not offered to subscribers again: past the usual refusals it succeeds, whatever the limit.
   */
  lemma DuplicatesCostNothing(env: Env, start: int, es: seq<Event>, gates: Gates, recipient: Urn, payload: Bytes,
                              expiry: int, seen: int, storedAt: int, at: int)
    requires Run(env, start, es) && env.sdk.decodeV1(payload).Some?
    requires var db := At(env, Genesis(start), es, |es|).db;
      var id := env.sdk.decodeV1(payload).value.id;
      id in db.v1 && db.v1[id].recipient == recipient && db.v1[id].payload == payload
    ensures var w := At(env, Genesis(start), es, |es|);
      var screen := ScreenV1(env.sdk, Lim(env, w), w.db, w.proc, gates, recipient, payload, expiry, seen);
      var r := StoreOutcomeV1(env.sdk, Lim(env, w), w.db, w.proc, gates, recipient, payload, expiry, seen, storedAt, at);
      && r.0 == w.db
      && r.1 == (if screen.Err? then Err(screen.error)
                 else if PolicyAdmits(w.db, recipient, env.sdk.decodeV1(payload).value, at) then Ok(Duplicate)
                 else Err(UpgradeRequired))
  {
    hide Run, At, SqlManaged, PendingCount, ScreenV1, SameMessage;
    NamespaceHolds(env, start, es, |es|);
  }

  /**
   In every reachable state a v2 store of a message that is still queued changes no table and, past the usual refusals, gets
   the stored receipt, whatever the limit. The one exception is a message whose plaintext outlives its ledger entry: a
   cleanup after its expiry dropped the entry and failed to drop the queue row, and the late store is a conflict.
   */
  lemma V2DuplicatesCostNothing(env: Env, start: int, es: seq<Event>, storeOpen: bool, forwardOpen: bool, s: Submission, seen: int, at: int)
    requires Run(env, start, es)
    requires var db := At(env, Genesis(start), es, |es|).db;
      s.id in db.v2 && db.v2[s.id].recipient == s.recipient && db.v2[s.id].envelope == s.envelope
    ensures var w := At(env, Genesis(start), es, |es|);
      var screen := ScreenV2(Lim(env, w), w.proc, storeOpen, forwardOpen, s, seen);
      var r := StoreOutcomeV2(env.sdk, Lim(env, w), w.db, w.proc, storeOpen, forwardOpen, s, seen, at);
      var forgotten := s.id in w.db.archive && s.id !in w.db.admissions;
      && r.0 == w.db
      && r.1 == (if screen.Some? then Err(screen.value)
                 else if w.db.policy.None? then Err(DatabaseError)
                 else if w.db.policy.value.hash != s.policyHash || Unix(at) >= w.db.policy.value.expiresAt then Err(PolicyMismatch)
                 else if forgotten then Err(Conflict)
                 else Ok(w.db.v2[s.id].receipt))
      && (forgotten ==> w.db.v2[s.id].expiry <= Unix(w.clock))
  {
    hide Run, At, PendingCount, ScreenV2;
    NamespaceHolds(env, start, es, |es|);
    LedgerBacksQueue(env, start, es, |es|);
    var db := At(env, Genesis(start), es, |es|).db;
    if s.id in db.admissions {
      assert SameMessage(env.sdk, db.v2[s.id], db.admissions[s.id]);
    }
  }

  /** No step lifts a recipient's pending count above both its previous value and the limit. */
  lemma QuotaStep(env: Env, w: World, e: Event, r: Urn)
    requires Allowed(w, e)
    ensures Within(Lim(env, w), PendingCount(w.db, r, Unix(w.clock)), PendingCount(Apply(env, w, e).db, r, Unix(e.at)))
  {
    hide PendingCount, Ages, CommitV1, CommitV2, ApplyProcess;
    var next := Apply(env, w, e).db;
    match e.op {
      case StoreV1(recipient, payload, expiry, storedAt) =>
        if env.sdk.decodeV1(payload).Some? {
          V1RespectsQuota(env.sdk, Lim(env, w), w.db, recipient, payload, env.sdk.decodeV1(payload).value, expiry, storedAt, w.clock, e.at, r);
        } else {
          SameRowsAge(w.db, next);
          AgeingLowersCounts(w.db, next, r, Unix(w.clock), Unix(e.at));
        }
      case StoreV2(s, seen) => V2RespectsQuota(env.sdk, Lim(env, w), w.db, w.proc.archiveDays, s, seen, w.clock, e.at, r);
      case StoreFrame(_, _, _, _, _) =>
        SameRowsAge(w.db, w.db);
        AgeingLowersCounts(w.db, w.db, r, Unix(w.clock), Unix(e.at));
        SameQueues(w.db, next, r, Unix(e.at));
      case _ =>
        hide ApplyTables;
        OnlyStoresAddRows(env, w, e);
        AgeingLowersCounts(w.db, next, r, Unix(w.clock), Unix(e.at));
    }
  }

  /** While a process lives, a mailbox never exceeds the larger of its limit and what the process found. */
  lemma {:induction false} MailboxStaysWithinProcess(env: Env, start: int, es: seq<Event>, i: nat, k: nat, r: Urn)
    requires Run(env, start, es) && i <= k <= |es| && forall j | i <= j < k :: !es[j].op.Restart?
    requires Lim(env, At(env, Genesis(start), es, i)).perUrn > 0
    ensures var v, w := At(env, Genesis(start), es, i), At(env, Genesis(start), es, k);
      && w.boots == v.boots
      && (PendingCount(w.db, r, Unix(w.clock)) <= PendingCount(v.db, r, Unix(v.clock))
          || PendingCount(w.db, r, Unix(w.clock)) <= Lim(env, v).perUrn)
    decreases k
  {
    hide ApplyTables, ApplyProcess, Allowed, PendingCount;
    if i < k {
      MailboxStaysWithinProcess(env, start, es, i, k - 1, r);
      QuotaStep(env, At(env, Genesis(start), es, k - 1), es[k - 1], r);
    }
  }

  lemma {:induction false} BootsOnlyGrow(env: Env, start: int, es: seq<Event>, i: nat, k: nat)
    requires i <= k <= |es|
    ensures At(env, Genesis(start), es, i).boots <= At(env, Genesis(start), es, k).boots
    decreases k
  {
    hide ApplyTables, ApplyProcess;
    if i < k {
      BootsOnlyGrow(env, start, es, i, k - 1);
    }
  }

  /** From an empty store no mailbox ever exceeds the largest limit of the starts so far, a later lower one notwithstanding. */
  lemma {:induction false} MailboxNeverExceedsLimit(env: Env, start: int, es: seq<Event>, i: nat, r: Urn, bound: nat)
    requires Run(env, start, es) && i <= |es|
    requires forall b: nat | b <= At(env, Genesis(start), es, i).boots :: 0 < env.lims(b).perUrn <= bound
    ensures var w := At(env, Genesis(start), es, i);
      PendingCount(w.db, r, Unix(w.clock)) == Unread(w.db, r, w.clock / 1_000_000_000) <= bound
    decreases i
  {
    hide Apply, Allowed;
    UnreadIsPending(At(env, Genesis(start), es, i).db, r, Unix(At(env, Genesis(start), es, i).clock));
    if i > 0 {
      BootsOnlyGrow(env, start, es, i - 1, i);
      MailboxNeverExceedsLimit(env, start, es, i - 1, r, bound);
      QuotaStep(env, At(env, Genesis(start), es, i - 1), es[i - 1], r);
      ClockOfApply(env, At(env, Genesis(start), es, i - 1), es[i - 1]);
    }
  }
}
