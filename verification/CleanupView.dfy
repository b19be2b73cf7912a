/** Physical cleanup never changes what a reader sees: it only drops rows that no later read returns. */
module CleanupView {
  import opened Prelude
  import opened Ordering
  import opened MailboxModel
  import opened Retrieval
  import DrainV2

  /** No read, ACK or count at or after `later` looks at the row, whoever asks. */
  predicate Spent(readAt: int, expires: bool, expiry: int, later: int) {
    readAt != 0 || (expires && expiry <= later)
  }

  /** `next` has lost nothing but spent rows and changed none. */
  ghost predicate LooksSame(db: Tables, next: Tables, later: int) {
    && next.managed == db.managed
    && (forall id | id in next.v1 :: id in db.v1 && next.v1[id] == db.v1[id])
    && (forall id | id in db.v1 && id !in next.v1 :: Spent(db.v1[id].readAt, db.v1[id].expiry != 0, db.v1[id].expiry, later))
    && (forall id | id in next.v2 :: id in db.v2 && next.v2[id] == db.v2[id])
    && (forall id | id in db.v2 && id !in next.v2 :: Spent(db.v2[id].readAt, true, db.v2[id].expiry, later))
    && (forall id | id in next.frames :: id in db.frames && next.frames[id] == db.frames[id])
    && (forall id | id in db.frames && id !in next.frames :: Spent(db.frames[id].readAt, true, db.frames[id].expiry, later))
  }

  lemma ExpiryLooksSame(db: Tables, done: set<Stage>, now: int, later: int)
    requires now <= later
    ensures LooksSame(db, DropExpired(db, done, now), later)
  {
  }

  lemma HistoryLooksSame(db: Tables, done: set<Stage>, cutoff: int, later: int)
    ensures LooksSame(db, DropHistory(db, done, cutoff), later)
  {
  }

  lemma LooksSameTransitive(a: Tables, b: Tables, c: Tables, later: int)
    requires LooksSame(a, b, later) && LooksSame(b, c, later)
    ensures LooksSame(a, c, later)
  {
  }

  lemma ArchiveIsApart(db: Tables, next: Tables, archive: map<Id, ArchiveRow>, later: int)
    requires LooksSame(db, next, later)
    ensures LooksSame(db, next.(archive := archive), later)
  {
  }

  lemma CleanupLooksSame(db: Tables, proc: Process, done: set<Stage>, now: int, later: int)
    requires now <= later
    ensures LooksSame(db, Cleanup(db, proc.historyDays, proc.archiveDays, done, now), later)
  {
    hide LooksSame, DropExpired, DropHistory, PurgeArchive;
    var expired := DropExpired(db, done, now);
    ExpiryLooksSame(db, done, now, later);
    var aged := expired;
    if proc.historyDays >= 0 {
      var cutoff := now - proc.historyDays * DAY;
      aged := DropHistory(expired, done, cutoff);
      HistoryLooksSame(expired, done, cutoff, later);
      LooksSameTransitive(db, expired, aged, later);
    }
    ArchiveIsApart(db, aged, if OldArchive in done then PurgeArchive(aged.archive, proc.archiveDays, now) else aged.archive, later);
  }

  lemma CleanupKeepsArchive(db: Tables, proc: Process, done: set<Stage>, now: int, later: int, id: Id)
    requires now <= later
    ensures var next := Cleanup(db, proc.historyDays, proc.archiveDays, done, now).archive;
      && (Visible(next, proc.archiveDays, id, later) <==> Visible(db.archive, proc.archiveDays, id, later))
      && (id in next ==> id in db.archive && next[id] == db.archive[id])
  {
    hide Cleanup;
  }

  lemma RowUnaffected(sdk: Sdk, db: Tables, next: Tables, proc: Process, r: Urn, at: int, id: Id)
    requires LooksSame(db, next, Unix(at))
    ensures (id in next.v1 && PendingV1(next.v1[id], r, Unix(at))) <==> (id in db.v1 && PendingV1(db.v1[id], r, Unix(at)))
    ensures (id in next.v1 && Deliverable(sdk, next, proc, next.v1[id], r, at)) <==> (id in db.v1 && Deliverable(sdk, db, proc, db.v1[id], r, at))
    ensures id in next.v1 ==> id in db.v1 && next.v1[id] == db.v1[id]
  {
  }

  lemma InboxUnchanged(sdk: Sdk, db: Tables, next: Tables, proc: Process, r: Urn, at: int)
    requires LooksSame(db, next, Unix(at))
    ensures Inbox(sdk, next, proc, r, at) == Inbox(sdk, db, proc, r, at)
    ensures PendingV1Ids(next, r, Unix(at)) == PendingV1Ids(db, r, Unix(at))
  {
    hide LooksSame, Deliverable, PendingV1;
    forall id
      ensures (id in next.v1 && PendingV1(next.v1[id], r, Unix(at))) <==> (id in db.v1 && PendingV1(db.v1[id], r, Unix(at)))
      ensures (id in next.v1 && Deliverable(sdk, next, proc, next.v1[id], r, at)) <==> (id in db.v1 && Deliverable(sdk, db, proc, db.v1[id], r, at))
      ensures id in next.v1 ==> id in db.v1 && next.v1[id] == db.v1[id]
    {
      RowUnaffected(sdk, db, next, proc, r, at, id);
    }
    assert DeliverableKeys(sdk, next, proc, r, at) == DeliverableKeys(sdk, db, proc, r, at);
  }

  lemma AcksUnchanged(sdk: Sdk, db: Tables, next: Tables, proc: Process, r: Urn, at: int, ids: seq<Id>, pairs: set<(Id, int)>)
    requires LooksSame(db, next, Unix(at))
    ensures Ackable(sdk, next, proc, r, ids, at) == Ackable(sdk, db, proc, r, ids, at)
    ensures MarkedV1(next.v1, r, pairs, at) == MarkedV1(db.v1, r, pairs, at)
  {
    hide LooksSame, Deliverable, PendingV1;
    forall id
      ensures (id in next.v1 && PendingV1(next.v1[id], r, Unix(at))) <==> (id in db.v1 && PendingV1(db.v1[id], r, Unix(at)))
      ensures (id in next.v1 && Deliverable(sdk, next, proc, next.v1[id], r, at)) <==> (id in db.v1 && Deliverable(sdk, db, proc, db.v1[id], r, at))
      ensures id in next.v1 ==> id in db.v1 && next.v1[id] == db.v1[id]
    {
      RowUnaffected(sdk, db, next, proc, r, at, id);
    }
  }

  lemma OtherBoxesUnchanged(db: Tables, next: Tables, proc: Process, r: Urn, now: int)
    requires LooksSame(db, next, now)
    ensures InboxV2(next, proc, r, now) == InboxV2(db, proc, r, now)
    ensures FrameBox(next, r, now) == FrameBox(db, r, now)
    ensures PendingV2Ids(next, r, now) == PendingV2Ids(db, r, now)
  {
    assert (set id | id in next.v2 && VisibleV2(next.v2[id], r, proc.policyHash, now) :: Key(next.v2[id].storedAt, id))
        == (set id | id in db.v2 && VisibleV2(db.v2[id], r, proc.policyHash, now) :: Key(db.v2[id].storedAt, id));
    assert (set id | id in next.frames && PendingFrame(next.frames[id], r, now) :: Key(next.frames[id].storedAt, id))
        == (set id | id in db.frames && PendingFrame(db.frames[id], r, now) :: Key(db.frames[id].storedAt, id));
  }

  lemma OtherAcksUnchanged(db: Tables, next: Tables, proc: Process, r: Urn, now: int, ids: seq<Id>)
    requires LooksSame(db, next, now)
    ensures MarkedV2(next.v2, r, proc.policyHash, IdSet(ids), now) == MarkedV2(db.v2, r, proc.policyHash, IdSet(ids), now)
    ensures PendingFrameIds(next, r, now) == PendingFrameIds(db, r, now)
  {
  }

  lemma {:induction false} SameTotal(a: map<Id, nat>, b: map<Id, nat>, keys: seq<Key>)
    requires forall k | k in keys :: Size(a, k) == Size(b, k)
    ensures Total(a, keys) == Total(b, keys)
  {
    if keys != [] {
      SameTotal(a, b, keys[..|keys| - 1]);
    }
  }

  lemma {:induction false} SameFill(a: map<Id, nat>, b: map<Id, nat>, list: seq<Key>, n: nat)
    requires forall k | k in list :: Size(a, k) == Size(b, k)
    requires n <= |list|
    ensures Fill(a, list, n) == Fill(b, list, n)
    decreases |list| - n
  {
    if n < |list| {
      SameTotal(a, b, list[..n + 1]);
      SameFill(a, b, list, n + 1);
    }
  }

  /** The rows a reader is handed are there before and after, unchanged, and the same ones fit the batch. */
  lemma BatchUnchanged(sdk: Sdk, db: Tables, next: Tables, proc: Process, r: Urn, at: int)
    requires LooksSame(db, next, Unix(at))
    requires Inbox(sdk, next, proc, r, at) == Inbox(sdk, db, proc, r, at)
    ensures var batch := Batch(SizesV1(db.v1), Inbox(sdk, db, proc, r, at));
      && Batch(SizesV1(next.v1), Inbox(sdk, next, proc, r, at)) == batch
      && forall k | k in batch :: k.id in db.v1 && k.id in next.v1 && next.v1[k.id] == db.v1[k.id]
  {
    var list := Inbox(sdk, db, proc, r, at);
    forall k | k in list
      ensures k.id in db.v1 && k.id in next.v1 && next.v1[k.id] == db.v1[k.id]
    {
      InboxKey(sdk, db, proc, r, at, k);
      InboxKey(sdk, next, proc, r, at, k);
    }
    hide Inbox, Fill;
    SameFill(SizesV1(db.v1), SizesV1(next.v1), list, 0);
  }

  lemma BatchV2Unchanged(db: Tables, next: Tables, proc: Process, r: Urn, now: int)
    requires LooksSame(db, next, now)
    requires InboxV2(next, proc, r, now) == InboxV2(db, proc, r, now)
    ensures var batch := Batch(SizesV2(db.v2), InboxV2(db, proc, r, now));
      && Batch(SizesV2(next.v2), InboxV2(next, proc, r, now)) == batch
      && forall k | k in batch :: k.id in db.v2 && k.id in next.v2 && next.v2[k.id] == db.v2[k.id]
  {
    var list := InboxV2(db, proc, r, now);
    forall k | k in list
      ensures k.id in db.v2 && k.id in next.v2 && next.v2[k.id] == db.v2[k.id]
    {
      DrainV2.InboxV2Key(db, proc, r, now, k);
      DrainV2.InboxV2Key(next, proc, r, now, k);
    }
    hide InboxV2, Fill;
    SameFill(SizesV2(db.v2), SizesV2(next.v2), list, 0);
  }

  /** What either retrieval hands out is the same batch of the same rows. */
  predicate SameDelivery<R(==)>(before: map<Id, R>, after: map<Id, R>, batch: seq<Key>, other: seq<Key>) {
    batch == other && forall k | k in batch :: k.id in before && k.id in after && after[k.id] == before[k.id]
  }

  /** Whichever statements of a cleanup succeed, every later read, ACK and quota count is what it would have been without it. */
  lemma CleanupIsInvisible(sdk: Sdk, db: Tables, proc: Process, done: set<Stage>, now: int, r: Urn, at: int, id: Id, ids: seq<Id>, pairs: set<(Id, int)>)
    requires now <= Unix(at)
    ensures var next := Cleanup(db, proc.historyDays, proc.archiveDays, done, now);
      && LooksSame(db, next, Unix(at))
      && Inbox(sdk, next, proc, r, at) == Inbox(sdk, db, proc, r, at)
      && Ackable(sdk, next, proc, r, ids, at) == Ackable(sdk, db, proc, r, ids, at)
      && SameDelivery(db.v1, next.v1, Batch(SizesV1(db.v1), Inbox(sdk, db, proc, r, at)), Batch(SizesV1(next.v1), Inbox(sdk, next, proc, r, at)))
      && MarkedV1(next.v1, r, pairs, at) == MarkedV1(db.v1, r, pairs, at)
      && SameDelivery(db.v2, next.v2, Batch(SizesV2(db.v2), InboxV2(db, proc, r, Unix(at))), Batch(SizesV2(next.v2), InboxV2(next, proc, r, Unix(at))))
      && MarkedV2(next.v2, r, proc.policyHash, IdSet(ids), Unix(at)) == MarkedV2(db.v2, r, proc.policyHash, IdSet(ids), Unix(at))
      && PendingFrameIds(next, r, Unix(at)) == PendingFrameIds(db, r, Unix(at))
      && InboxV2(next, proc, r, Unix(at)) == InboxV2(db, proc, r, Unix(at))
      && FrameBox(next, r, Unix(at)) == FrameBox(db, r, Unix(at))
      && PendingCount(next, r, Unix(at)) == PendingCount(db, r, Unix(at))
      && (Visible(next.archive, proc.archiveDays, id, Unix(at)) <==> Visible(db.archive, proc.archiveDays, id, Unix(at)))
      && (id in next.archive ==> id in db.archive && next.archive[id] == db.archive[id])
  {
    var next := Cleanup(db, proc.historyDays, proc.archiveDays, done, now);
    hide Cleanup, LooksSame, Inbox, InboxV2, FrameBox, Visible, MarkedV1, Ackable, PendingV1Ids, PendingV2Ids, PurgeArchive, UnexpiredAdmissions,
      Batch, SizesV1, SizesV2, MarkedV2, PendingFrameIds;
    CleanupLooksSame(db, proc, done, now, Unix(at));
    CleanupKeepsArchive(db, proc, done, now, Unix(at), id);
    InboxUnchanged(sdk, db, next, proc, r, at);
    AcksUnchanged(sdk, db, next, proc, r, at, ids, pairs);
    OtherBoxesUnchanged(db, next, proc, r, Unix(at));
    OtherAcksUnchanged(db, next, proc, r, Unix(at), ids);
    BatchUnchanged(sdk, db, next, proc, r, at);
    BatchV2Unchanged(db, next, proc, r, Unix(at));
  }
}
