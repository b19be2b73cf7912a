/** The handshake channel: one bounded read always returns everything that is pending. */
module Frames {
  import opened Prelude
  import opened Ordering
  import opened MailboxModel
  import opened Retrieval
  import opened Runs
  import opened Quota

  lemma FrameCommitBound(db: Tables, recipient: Urn, id: Id, frame: Bytes, expiry: int, hash: string, before: int, at: int, r: Urn)
    requires before <= at && |PendingFrameIds(db, r, Unix(before))| <= MAX_FRAMES
    ensures |PendingFrameIds(CommitFrame(db, recipient, id, frame, expiry, hash, at).0, r, Unix(at))| <= MAX_FRAMES
  {
    var next := CommitFrame(db, recipient, id, frame, expiry, hash, at).0;
    if next == db || r != recipient {
      SubsetCardinality(PendingFrameIds(next, r, Unix(at)), PendingFrameIds(db, r, Unix(before)));
    }
  }

  lemma SameFrames(db: Tables, next: Tables, r: Urn, before: int, at: int)
    requires next.frames == db.frames && before <= at
    ensures |PendingFrameIds(next, r, Unix(at))| <= |PendingFrameIds(db, r, Unix(before))|
  {
    SubsetCardinality(PendingFrameIds(next, r, Unix(at)), PendingFrameIds(db, r, Unix(before)));
  }

  lemma FramesStep(env: Env, w: World, e: Event, r: Urn)
    requires Allowed(w, e) && |PendingFrameIds(w.db, r, Unix(w.clock))| <= MAX_FRAMES
    ensures |PendingFrameIds(Apply(env, w, e).db, r, Unix(e.at))| <= MAX_FRAMES
  {
    hide PendingFrameIds, CommitFrame, Ages, PendingCount, ApplyProcess;
    match e.op {
      case StoreFrame(recipient, id, frame, expiry, hash) =>
        FrameCommitBound(w.db, recipient, id, frame, expiry, hash, w.clock, e.at, r);
      case StoreV1(_, _, _, _) => SameFrames(w.db, Apply(env, w, e).db, r, w.clock, e.at);
      case StoreV2(_, _) => SameFrames(w.db, Apply(env, w, e).db, r, w.clock, e.at);
      case _ =>
        hide ApplyTables;
        OnlyStoresAddRows(env, w, e);
        AgeingLowersCounts(w.db, Apply(env, w, e).db, r, Unix(w.clock), Unix(e.at));
    }
  }

  lemma {:induction false} FramesBounded(env: Env, start: int, es: seq<Event>, i: nat, r: Urn)
    requires Run(env, start, es) && i <= |es|
    ensures var w := At(env, Genesis(start), es, i); |PendingFrameIds(w.db, r, Unix(w.clock))| <= 100
  {
    hide Apply, Allowed;
    if i > 0 {
      FramesBounded(env, start, es, i - 1, r);
      FramesStep(env, At(env, Genesis(start), es, i - 1), es[i - 1], r);
      ClockOfApply(env, At(env, Genesis(start), es, i - 1), es[i - 1]);
    }
  }

  /**
   In every reachable state, at any later moment, one read returns every pending frame,
   and one ACK of what it returned (at most 100 identifiers) leaves none pending.
   */
  lemma OneReadTakesAllFrames(env: Env, start: int, es: seq<Event>, r: Urn, at: int)
    requires Run(env, start, es)
    requires At(env, Genesis(start), es, |es|).clock <= at
    ensures var db := At(env, Genesis(start), es, |es|).db;
      var read := FrameRead(db, r, Unix(at));
      && (forall id :: id in Ids(read) <==> id in PendingFrameIds(db, r, Unix(at)))
      && |read| <= 100
      && PendingFrameIds(MarkFrames(db, r, (set id | id in Ids(read)), at), r, Unix(at)) == {}
  {
    hide Apply, Allowed, At;
    var w := At(env, Genesis(start), es, |es|);
    FramesBounded(env, start, es, |es|, r);
    ClockNeverGoesBack(env, start, es, |es|, |es|);
    SameFrames(w.db, w.db, r, w.clock, at);
    FrameBoxIsComplete(w.db, r, Unix(at));
    AckedFramesAreGone(w.db, r, (set id | id in Ids(FrameRead(w.db, r, Unix(at)))), at);
  }

  lemma FrameBoxIsComplete(db: Tables, r: Urn, now: int)
    requires |PendingFrameIds(db, r, now)| <= MAX_FRAMES
    ensures FrameRead(db, r, now) == FrameBox(db, r, now)
    ensures forall id :: id in Ids(FrameBox(db, r, now)) <==> id in PendingFrameIds(db, r, now)
  {
    var pending := PendingFrameIds(db, r, now);
    var keys := set id | id in db.frames && PendingFrame(db.frames[id], r, now) :: Key(db.frames[id].storedAt, id);
    var box := FrameBox(db, r, now);
    forall id | id in pending ensures exists k :: k in keys && k.id == id {
      assert Key(db.frames[id].storedAt, id) in keys;
    }
    KeyCount(keys, pending);
    forall id ensures id in Ids(box) <==> id in pending {
      if id in Ids(box) {
        var i :| 0 <= i < |box| && Ids(box)[i] == id;
        assert box[i] in box;
      }
      if id in pending {
        assert Key(db.frames[id].storedAt, id) in box;
        var i :| 0 <= i < |box| && box[i] == Key(db.frames[id].storedAt, id);
        assert Ids(box)[i] == id;
      }
    }
  }

  lemma AckedFramesAreGone(db: Tables, r: Urn, ids: set<Id>, at: int)
    requires Unix(at) > 0 && PendingFrameIds(db, r, Unix(at)) <= ids
    ensures PendingFrameIds(MarkFrames(db, r, ids, at), r, Unix(at)) == {}
  {
    forall id | id in db.frames && PendingFrame(db.frames[id], r, Unix(at)) ensures id in ids {
      assert id in PendingFrameIds(db, r, Unix(at));
    }
  }
}
