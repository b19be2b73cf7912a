/**
 What becomes of a stored message over a whole run, said of the event that stored it: its recipient is offered it, unchanged,
 until it expires, is acknowledged, or is deleted; nobody else ever is.
 */
module Delivery {
  import opened Prelude
  import opened Ordering
  import opened MailboxModel
  import opened Runs
  import opened RowLaws

  // ---- v1 messages --------------------------------------------------------

  /** Event `i` adds the v1 row `id`. */
  ghost predicate StoresV1(env: Env, start: int, es: seq<Event>, i: nat, id: Id) {
    && i < |es| && es[i].op.StoreV1?
    && id !in At(env, Genesis(start), es, i).db.v1 && id in At(env, Genesis(start), es, i + 1).db.v1
  }

  /** The row a store event leaves. */
  function RowOf(op: Op): V1Row
    requires op.StoreV1?
  {
    V1Row(op.recipient, op.payload, op.expiry, op.storedAt / 1_000_000_000, op.storedAt, 0)
  }

  /** Neither acknowledged by its recipient, nor deleted or purged, nor stored anew after it had lapsed. */
  ghost predicate LeftAloneV1(env: Env, start: int, es: seq<Event>, i: nat, k: nat, id: Id)
    requires i < k <= |es| && es[i].op.StoreV1?
  {
    forall j | i < j < k ::
      && (es[j].op.AckV1? && es[j].op.recipient == es[i].op.recipient ==> (id, es[i].op.storedAt) !in es[j].op.pairs)
      && es[j].op != DeleteMessage(es[i].op.recipient, id) && es[j].op != PurgeQueue(es[i].op.recipient)
      && !(id !in At(env, Genesis(start), es, j).db.v1 && id in At(env, Genesis(start), es, j + 1).db.v1)
  }

  predicate Lives(expiry: int, now: int) {
    expiry == 0 || now < expiry
  }

  lemma InsertKeepsRows(sdk: Sdk, lim: Limits, db: Tables, recipient: Urn, payload: Bytes, env: V1Envelope, expiry: int, storedAt: int, at: int, id: Id)
    requires id in db.v1
    ensures var next := CommitV1(sdk, lim, db, recipient, payload, env, expiry, storedAt, at).0; id in next.v1 && next.v1[id] == db.v1[id]
  {
    hide PendingCount, SqlManaged;
  }

  /** An event that leaves an unread row alone keeps it as long as it lives. */
  lemma V1RowStep(env: Env, w: World, e: Event, id: Id, row: V1Row)
    requires Allowed(w, e) && id in w.db.v1 && w.db.v1[id] == row && row.readAt == 0
    requires e.op.AckV1? && e.op.recipient == row.recipient ==> (id, row.storedAtNs) !in e.op.pairs
    requires e.op != DeleteMessage(row.recipient, id) && e.op != PurgeQueue(row.recipient)
    ensures var next := Apply(env, w, e).db.v1;
      (id in next ==> next[id] == row) && (Lives(row.expiry, Unix(e.at)) ==> id in next)
  {
    hide ApplyProcess, CommitV1, CommitV2, CommitFrame, MarkV1, MarkV2, MarkFrames, Enable, CommitEnroll, Revoke, SetArchiveDays, Delete, Purge, Cleanup;
    match e.op {
      case StoreV1(recipient, payload, expiry, storedAt) =>
        if env.sdk.decodeV1(payload).Some? {
          InsertKeepsRows(env.sdk, Lim(env, w), w.db, recipient, payload, env.sdk.decodeV1(payload).value, expiry, storedAt, e.at, id);
        }
      case AckV1(recipient, pairs) => V1MarkedIff(w.db.v1, recipient, pairs, e.at, id);
      case DeleteMessage(recipient, k) => DeletedIff(w.db, recipient, k, id);
      case PurgeQueue(recipient) => PurgedIff(w.db, recipient, id);
      case CleanUp(done, now) => CleanupKeeps(w.db, w.proc.historyDays, w.proc.archiveDays, done, now, id);
      case _ =>
    }
  }

  lemma StoredV1Row(env: Env, w: World, e: Event, id: Id)
    requires e.op.StoreV1? && id !in w.db.v1 && id in Apply(env, w, e).db.v1
    ensures Apply(env, w, e).db.v1[id] == RowOf(e.op)
    ensures env.sdk.decodeV1(e.op.payload).Some? && env.sdk.decodeV1(e.op.payload).value.id == id
  {
    hide ApplyProcess, CommitV1;
    if env.sdk.decodeV1(e.op.payload).Some? {
      V1InsertedIff(env.sdk, Lim(env, w), w.db, e.op.recipient, e.op.payload, env.sdk.decodeV1(e.op.payload).value, e.op.expiry, e.op.storedAt, e.at);
    }
  }

  lemma {:induction false} V1RowStays(env: Env, start: int, es: seq<Event>, i: nat, k: nat, id: Id)
    requires Run(env, start, es) && StoresV1(env, start, es, i, id) && i < k <= |es| && LeftAloneV1(env, start, es, i, k, id)
    ensures var w := At(env, Genesis(start), es, k);
      && (id in w.db.v1 ==> w.db.v1[id] == RowOf(es[i].op))
      && (Lives(es[i].op.expiry, Unix(w.clock)) ==> id in w.db.v1)
    decreases k
  {
    hide Apply, At, Run;
    AtUnfolds(env, Genesis(start), es, k - 1);
    var prior := At(env, Genesis(start), es, k - 1);
    ClockOfApply(env, prior, es[k - 1]);
    if k - 1 == i {
      StoredV1Row(env, prior, es[i], id);
    } else {
      V1RowStays(env, start, es, i, k - 1, id);
      RunAllows(env, start, es, k - 1);
      assert Unix(prior.clock) <= Unix(es[k - 1].at);
      if id in prior.db.v1 {
        V1RowStep(env, prior, es[k - 1], id, RowOf(es[i].op));
      }
    }
  }

  lemma RunAllows(env: Env, start: int, es: seq<Event>, i: nat)
    requires Run(env, start, es) && i < |es|
    ensures Allowed(At(env, Genesis(start), es, i), es[i])
  {
  }

  lemma InInboxIff(sdk: Sdk, db: Tables, proc: Process, recipient: Urn, at: int, k: Key)
    ensures k in Inbox(sdk, db, proc, recipient, at) <==>
      && k.id in db.v1 && k.at == db.v1[k.id].storedAt
      && db.v1[k.id].recipient == recipient && db.v1[k.id].readAt == 0 && Lives(db.v1[k.id].expiry, at / 1_000_000_000)
      && sdk.decodeV1(db.v1[k.id].payload).Some?
      && (proc.required ==>
          ManagedRoute(db, proc, recipient, sdk.decodeV1(db.v1[k.id].payload).value, db.v1[k.id].storedAtNs, at / 1_000_000_000))
  {
    hide ManagedRoute;
  }

  /** The certificate, enrolment and policy that let a v1 row through, in seconds and nanoseconds. */
  predicate Carries(db: Tables, proc: Process, urn: Urn, key: Option<Bytes>, ns: int, now: int) {
    && |proc.issuer| == 32 && now < proc.policyExpiry && urn in db.managed
    && var g := db.managed[urn];
       && g.issuer == proc.issuer && !g.revoked && (key == None || key == Some(g.key))
       && g.enrolledAtNs <= ns && g.notBefore * 1_000_000_000 <= ns < g.expiresAt * 1_000_000_000 && now < g.expiresAt
  }

  predicate Representable(db: Tables) {
    forall u | u in db.managed ::
      && MIN_INT64 <= db.managed[u].notBefore * 1_000_000_000 < 0x8000_0000_0000_0000
      && MIN_INT64 <= db.managed[u].expiresAt * 1_000_000_000 < 0x8000_0000_0000_0000
  }

  /**
   A stored v1 message that was left alone is in its recipient's inbox exactly until it expires; under a strict policy,
   exactly while moreover an enrolment of the recipient, or of the sender under the key in the message, carries it. It is in
   nobody else's inbox.
   */
  lemma V1DeliveredIff(env: Env, start: int, es: seq<Event>, i: nat, k: nat, id: Id, other: Urn, at: int)
    requires Run(env, start, es) && StoresV1(env, start, es, i, id) && i < k <= |es| && LeftAloneV1(env, start, es, i, k, id)
    requires At(env, Genesis(start), es, k).clock <= at && Representable(At(env, Genesis(start), es, k).db)
    ensures var w := At(env, Genesis(start), es, k);
      var op := es[i].op;
      var key := Key(op.storedAt / 1_000_000_000, id);
      var now := at / 1_000_000_000;
      && env.sdk.decodeV1(op.payload).Some?
      && var message := env.sdk.decodeV1(op.payload).value;
      && (key in Inbox(env.sdk, w.db, w.proc, op.recipient, at) <==>
          && (op.expiry == 0 || now < op.expiry)
          && (w.proc.required ==>
              || Carries(w.db, w.proc, op.recipient, None, op.storedAt, now)
              || Carries(w.db, w.proc, message.senderUrn, message.senderKey, op.storedAt, now)))
      && (other != op.recipient ==> key !in Inbox(env.sdk, w.db, w.proc, other, at))
  {
    hide Apply, At, Run, Inbox, ManagedRoute, IsManagedAt;
    V1RowStays(env, start, es, i, k, id);
    AtUnfolds(env, Genesis(start), es, i);
    StoredV1Row(env, At(env, Genesis(start), es, i), es[i], id);
    RunAllows(env, start, es, i);
    var w := At(env, Genesis(start), es, k);
    var op := es[i].op;
    var key := Key(op.storedAt / 1_000_000_000, id);
    var message := env.sdk.decodeV1(op.payload).value;
    InInboxIff(env.sdk, w.db, w.proc, op.recipient, at, key);
    InInboxIff(env.sdk, w.db, w.proc, other, at, key);
    RouteIff(w.db, w.proc, op.recipient, message, op.storedAt, Unix(at));
    ManagedIff(w.db, w.proc.issuer, w.proc.policyExpiry, op.recipient, None, op.storedAt, Unix(at));
    ManagedIff(w.db, w.proc.issuer, w.proc.policyExpiry, message.senderUrn, message.senderKey, op.storedAt, Unix(at));
    assert Unix(w.clock) <= Unix(at);
  }

  /** A read row only ever disappears. */
  lemma ReadV1Step(env: Env, w: World, e: Event, id: Id)
    requires id in w.db.v1 && w.db.v1[id].readAt != 0
    ensures id in Apply(env, w, e).db.v1 ==> Apply(env, w, e).db.v1[id] == w.db.v1[id]
  {
    hide ApplyProcess, CommitV1, CommitV2, CommitFrame, Ages;
    match e.op {
      case StoreV1(recipient, payload, expiry, storedAt) =>
        if env.sdk.decodeV1(payload).Some? {
          InsertKeepsRows(env.sdk, Lim(env, w), w.db, recipient, payload, env.sdk.decodeV1(payload).value, expiry, storedAt, e.at, id);
        }
      case StoreV2(_, _) =>
      case StoreFrame(_, _, _, _, _) =>
      case _ =>
        hide ApplyTables;
        OnlyStoresAddRows(env, w, e);
        AgedV1(w.db, Apply(env, w, e).db, id);
    }
  }

  lemma AgedV1(db: Tables, next: Tables, id: Id)
    requires Ages(db, next) && id in db.v1 && db.v1[id].readAt != 0
    ensures id in next.v1 ==> next.v1[id] == db.v1[id]
  {
  }

  /** An acknowledged v1 message carries the second of its ACK and is in no inbox again. */
  lemma {:induction false} AckedV1IsGone(env: Env, start: int, es: seq<Event>, a: nat, k: nat, id: Id, anyone: Urn, at: int)
    requires Run(env, start, es) && a < k <= |es| && es[a].op.AckV1? && id in At(env, Genesis(start), es, a).db.v1
    requires var row := At(env, Genesis(start), es, a).db.v1[id];
      && row.recipient == es[a].op.recipient && (id, row.storedAtNs) in es[a].op.pairs
      && row.readAt == 0 && Lives(row.expiry, es[a].at / 1_000_000_000)
    requires forall j | a < j < k ::
      !(id !in At(env, Genesis(start), es, j).db.v1 && id in At(env, Genesis(start), es, j + 1).db.v1)
    ensures var w := At(env, Genesis(start), es, k);
      && (id in w.db.v1 ==> w.db.v1[id] == At(env, Genesis(start), es, a).db.v1[id].(readAt := es[a].at / 1_000_000_000))
      && Key(At(env, Genesis(start), es, a).db.v1[id].storedAt, id) !in Inbox(env.sdk, w.db, w.proc, anyone, at)
    decreases k
  {
    hide Apply, At, Run, Inbox;
    var prior := At(env, Genesis(start), es, k - 1);
    var w := At(env, Genesis(start), es, k);
    AtUnfolds(env, Genesis(start), es, k - 1);
    RunAllows(env, start, es, a);
    if k - 1 == a {
      AckMarks(env, prior, es[a], id);
    } else {
      AckedV1IsGone(env, start, es, a, k - 1, id, anyone, at);
      if id in prior.db.v1 {
        ReadV1Step(env, prior, es[k - 1], id);
      }
    }
    InInboxIff(env.sdk, w.db, w.proc, anyone, at, Key(At(env, Genesis(start), es, a).db.v1[id].storedAt, id));
  }

  lemma AckMarks(env: Env, w: World, e: Event, id: Id)
    requires e.op.AckV1? && id in w.db.v1 && w.db.v1[id].recipient == e.op.recipient && (id, w.db.v1[id].storedAtNs) in e.op.pairs
    requires w.db.v1[id].readAt == 0 && Lives(w.db.v1[id].expiry, e.at / 1_000_000_000)
    ensures id in Apply(env, w, e).db.v1 && Apply(env, w, e).db.v1[id] == w.db.v1[id].(readAt := e.at / 1_000_000_000)
  {
    V1MarkedIff(w.db.v1, e.op.recipient, e.op.pairs, e.at, id);
    hide ApplyProcess, MarkV1;
  }

  // ---- v2 messages --------------------------------------------------------

  ghost predicate StoresV2(env: Env, start: int, es: seq<Event>, i: nat) {
    && i < |es| && es[i].op.StoreV2?
    && es[i].op.submission.id !in At(env, Genesis(start), es, i).db.v2
    && es[i].op.submission.id in At(env, Genesis(start), es, i + 1).db.v2
  }

  function RowOfV2(op: Op): V2Row
    requires op.StoreV2?
  {
    var s := op.submission;
    V2Row(s.recipient, s.envelope, s.receipt, s.policyHash, s.expiry, op.seen / 1_000_000_000, 0)
  }

  ghost predicate LeftAloneV2(env: Env, start: int, es: seq<Event>, i: nat, k: nat)
    requires i < k <= |es| && es[i].op.StoreV2?
  {
    var s := es[i].op.submission;
    forall j | i < j < k ::
      && (es[j].op.AckV2? && es[j].op.recipient == s.recipient ==> s.id !in es[j].op.ids)
      && es[j].op != DeleteMessage(s.recipient, s.id) && es[j].op != PurgeQueue(s.recipient)
      && !(s.id !in At(env, Genesis(start), es, j).db.v2 && s.id in At(env, Genesis(start), es, j + 1).db.v2)
  }

  /** What the event that adds a v2 row leaves in all three tables. */
  lemma StoredV2Rows(env: Env, w: World, e: Event)
    requires e.op.StoreV2? && e.op.submission.id !in w.db.v2 && e.op.submission.id in Apply(env, w, e).db.v2
    ensures var s, next := e.op.submission, Apply(env, w, e).db;
      && next.v2 == w.db.v2[s.id := RowOfV2(e.op)]
      && (s.body.Some? ==>
          s.id in next.admissions && next.admissions[s.id] == Admission(s.recipient, env.sdk.envelopeHash(s.envelope), s.receipt, s.expiry))
      && (s.body.Some? && w.proc.archiveDays > 0 ==> s.id in next.archive && next.archive[s.id] == PlaintextOf(e.op))
  {
    hide ApplyProcess, CommitV2;
    V2InsertedIff(env.sdk, Lim(env, w), w.db, w.proc.archiveDays, e.op.submission, e.op.seen, e.at);
  }

  lemma V2InsertKeepsRows(env: Env, w: World, e: Event, id: Id)
    requires e.op.StoreV2? && id in w.db.v2
    ensures id in Apply(env, w, e).db.v2 && Apply(env, w, e).db.v2[id] == w.db.v2[id]
  {
    hide ApplyProcess, CommitV2;
    V2InsertedIff(env.sdk, Lim(env, w), w.db, w.proc.archiveDays, e.op.submission, e.op.seen, e.at);
  }

  /** An ACK by somebody else, or of other IDs, leaves a row as it is. */
  lemma V2MarksOwn(db: Tables, proc: Process, recipient: Urn, ids: set<Id>, at: int, id: Id)
    requires id in db.v2 && !(db.v2[id].recipient == recipient && id in ids)
    ensures var next := MarkV2(db, proc, recipient, ids, at).v2; id in next && next[id] == db.v2[id]
  {
  }

  lemma V2RowStep(env: Env, w: World, e: Event, id: Id, row: V2Row)
    requires Allowed(w, e) && id in w.db.v2 && w.db.v2[id] == row
    requires e.op.AckV2? && e.op.recipient == row.recipient ==> id !in e.op.ids
    requires row.readAt == 0 && e.op != DeleteMessage(row.recipient, id) && e.op != PurgeQueue(row.recipient)
    ensures var next := Apply(env, w, e).db.v2;
      (id in next ==> next[id] == row) && (Unix(e.at) < row.expiry ==> id in next)
  {
    hide ApplyProcess, CommitV1, CommitV2, CommitFrame, MarkV1, MarkV2, MarkFrames, Enable, CommitEnroll, Revoke, SetArchiveDays, Delete, Purge, Cleanup;
    match e.op {
      case StoreV2(s, seen) => V2InsertKeepsRows(env, w, e, id);
      case AckV2(recipient, ids) => V2MarksOwn(w.db, w.proc, recipient, ids, e.at, id);
      case DeleteMessage(recipient, k) => DeletedIff(w.db, recipient, k, id);
      case PurgeQueue(recipient) => PurgedIff(w.db, recipient, id);
      case CleanUp(done, now) => CleanupKeeps(w.db, w.proc.historyDays, w.proc.archiveDays, done, now, id);
      case _ =>
    }
  }

  lemma {:induction false} V2RowStays(env: Env, start: int, es: seq<Event>, i: nat, k: nat)
    requires Run(env, start, es) && StoresV2(env, start, es, i) && i < k <= |es| && LeftAloneV2(env, start, es, i, k)
    ensures var w, s := At(env, Genesis(start), es, k), es[i].op.submission;
      && (s.id in w.db.v2 ==> w.db.v2[s.id] == RowOfV2(es[i].op))
      && (Unix(w.clock) < s.expiry ==> s.id in w.db.v2)
    decreases k
  {
    hide Apply, At, Run;
    AtUnfolds(env, Genesis(start), es, k - 1);
    var prior := At(env, Genesis(start), es, k - 1);
    ClockOfApply(env, prior, es[k - 1]);
    if k - 1 == i {
      StoredV2Rows(env, prior, es[i]);
    } else {
      V2RowStays(env, start, es, i, k - 1);
      RunAllows(env, start, es, k - 1);
      assert Unix(prior.clock) <= Unix(es[k - 1].at);
      if es[i].op.submission.id in prior.db.v2 {
        V2RowStep(env, prior, es[k - 1], es[i].op.submission.id, RowOfV2(es[i].op));
      }
    }
  }

  lemma InInboxV2Iff(db: Tables, proc: Process, recipient: Urn, now: int, k: Key)
    ensures k in InboxV2(db, proc, recipient, now) <==>
      && k.id in db.v2 && k.at == db.v2[k.id].storedAt
      && db.v2[k.id].recipient == recipient && db.v2[k.id].readAt == 0 && now < db.v2[k.id].expiry && db.v2[k.id].policyHash == proc.policyHash
  {
  }

  /**
   An admitted v2 message that was left alone is in its recipient's inbox exactly while it is unexpired and its policy is the
   active one; its row holds the envelope and the receipt it was admitted with, and the retry lookup gives that receipt until
   it expires. It is in nobody else's inbox.
   */
  lemma V2DeliveredIff(env: Env, start: int, es: seq<Event>, i: nat, k: nat, other: Urn, at: int)
    requires Run(env, start, es) && StoresV2(env, start, es, i) && i < k <= |es| && LeftAloneV2(env, start, es, i, k)
    requires At(env, Genesis(start), es, k).clock <= at
    ensures var w, s := At(env, Genesis(start), es, k), es[i].op.submission;
      var key := Key(es[i].op.seen / 1_000_000_000, s.id);
      var now := at / 1_000_000_000;
      && (key in InboxV2(w.db, w.proc, s.recipient, now) <==> now < s.expiry && w.proc.policyHash == s.policyHash)
      && (now < s.expiry ==>
          && s.id in w.db.v2 && w.db.v2[s.id].envelope == s.envelope && w.db.v2[s.id].receipt == s.receipt
          && ExistingReceipt(env.sdk, w.db, s.recipient, s.id, s.envelope) == Ok(Some(s.receipt)))
      && (other != s.recipient ==> key !in InboxV2(w.db, w.proc, other, now))
  {
    hide Apply, At, Run, InboxV2, ExistingReceipt;
    V2RowStays(env, start, es, i, k);
    var w, s := At(env, Genesis(start), es, k), es[i].op.submission;
    InInboxV2Iff(w.db, w.proc, s.recipient, Unix(at), Key(Unix(es[i].op.seen), s.id));
    InInboxV2Iff(w.db, w.proc, other, Unix(at), Key(Unix(es[i].op.seen), s.id));
    LookupIff(env.sdk, w.db, s.recipient, s.id, s.envelope);
    assert Unix(w.clock) <= Unix(at);
  }

  // ---- Handshake frames ---------------------------------------------------

  ghost predicate StoresFrame(env: Env, start: int, es: seq<Event>, i: nat) {
    && i < |es| && es[i].op.StoreFrame?
    && es[i].op.id !in At(env, Genesis(start), es, i).db.frames && es[i].op.id in At(env, Genesis(start), es, i + 1).db.frames
  }

  function RowOfFrame(e: Event): FrameRow
    requires e.op.StoreFrame?
  {
    FrameRow(e.op.recipient, e.op.frame, e.op.expiry, e.at / 1_000_000_000, 0)
  }

  ghost predicate LeftAloneFrame(env: Env, start: int, es: seq<Event>, i: nat, k: nat)
    requires i < k <= |es| && es[i].op.StoreFrame?
  {
    forall j | i < j < k ::
      && (es[j].op.AckFrames? && es[j].op.recipient == es[i].op.recipient ==> es[i].op.id !in es[j].op.ids)
      && es[j].op != PurgeQueue(es[i].op.recipient)
      && !(es[i].op.id !in At(env, Genesis(start), es, j).db.frames && es[i].op.id in At(env, Genesis(start), es, j + 1).db.frames)
  }

  lemma FrameCommitKeeps(db: Tables, recipient: Urn, id: Id, frame: Bytes, expiry: int, hash: string, at: int, k: Id)
    ensures var next := CommitFrame(db, recipient, id, frame, expiry, hash, at).0;
      && (k in db.frames ==> k in next.frames && next.frames[k] == db.frames[k])
      && (k !in db.frames && k in next.frames ==> k == id && next.frames[k] == FrameRow(recipient, frame, expiry, at / 1_000_000_000, 0))
  {
    hide PendingFrameIds;
  }

  lemma FrameMarksOwn(db: Tables, recipient: Urn, ids: set<Id>, at: int, id: Id)
    requires id in db.frames && !(db.frames[id].recipient == recipient && id in ids)
    ensures var next := MarkFrames(db, recipient, ids, at).frames; id in next && next[id] == db.frames[id]
  {
  }

  lemma FrameStep(env: Env, w: World, e: Event, id: Id, row: FrameRow)
    requires Allowed(w, e) && id in w.db.frames && w.db.frames[id] == row && row.readAt == 0
    requires e.op.AckFrames? && e.op.recipient == row.recipient ==> id !in e.op.ids
    requires e.op != PurgeQueue(row.recipient)
    ensures var next := Apply(env, w, e).db.frames;
      (id in next ==> next[id] == row) && (Unix(e.at) < row.expiry ==> id in next)
  {
    hide ApplyProcess, CommitV1, CommitV2, CommitFrame, MarkV1, MarkV2, MarkFrames, Enable, CommitEnroll, Revoke, SetArchiveDays, Delete, Purge, Cleanup;
    match e.op {
      case StoreFrame(recipient, k, frame, expiry, hash) => FrameCommitKeeps(w.db, recipient, k, frame, expiry, hash, e.at, id);
      case AckFrames(recipient, ids) => FrameMarksOwn(w.db, recipient, ids, e.at, id);
      case PurgeQueue(recipient) => PurgedIff(w.db, recipient, id);
      case CleanUp(done, now) => CleanupKeeps(w.db, w.proc.historyDays, w.proc.archiveDays, done, now, id);
      case _ =>
    }
  }

  lemma StoredFrame(env: Env, w: World, e: Event)
    requires e.op.StoreFrame? && e.op.id !in w.db.frames && e.op.id in Apply(env, w, e).db.frames
    ensures Apply(env, w, e).db.frames[e.op.id] == RowOfFrame(e)
  {
    hide ApplyProcess, CommitFrame;
    FrameCommitKeeps(w.db, e.op.recipient, e.op.id, e.op.frame, e.op.expiry, e.op.policyHash, e.at, e.op.id);
  }

  lemma {:induction false} FrameStays(env: Env, start: int, es: seq<Event>, i: nat, k: nat)
    requires Run(env, start, es) && StoresFrame(env, start, es, i) && i < k <= |es| && LeftAloneFrame(env, start, es, i, k)
    ensures var w, id := At(env, Genesis(start), es, k), es[i].op.id;
      && (id in w.db.frames ==> w.db.frames[id] == RowOfFrame(es[i]))
      && (Unix(w.clock) < es[i].op.expiry ==> id in w.db.frames)
    decreases k
  {
    hide Apply, At, Run;
    AtUnfolds(env, Genesis(start), es, k - 1);
    var prior := At(env, Genesis(start), es, k - 1);
    ClockOfApply(env, prior, es[k - 1]);
    if k - 1 == i {
      StoredFrame(env, prior, es[i]);
    } else {
      FrameStays(env, start, es, i, k - 1);
      RunAllows(env, start, es, k - 1);
      assert Unix(prior.clock) <= Unix(es[k - 1].at);
      if es[i].op.id in prior.db.frames {
        FrameStep(env, prior, es[k - 1], es[i].op.id, RowOfFrame(es[i]));
      }
    }
  }

  lemma InFrameBoxIff(db: Tables, recipient: Urn, now: int, k: Key)
    ensures k in FrameBox(db, recipient, now) <==>
      && k.id in db.frames && k.at == db.frames[k.id].storedAt
      && db.frames[k.id].recipient == recipient && db.frames[k.id].readAt == 0 && now < db.frames[k.id].expiry
  {
  }

  /** A stored frame that was left alone waits, byte for byte, for its recipient exactly until it expires, and for nobody else. */
  lemma FrameDeliveredIff(env: Env, start: int, es: seq<Event>, i: nat, k: nat, other: Urn, at: int)
    requires Run(env, start, es) && StoresFrame(env, start, es, i) && i < k <= |es| && LeftAloneFrame(env, start, es, i, k)
    requires At(env, Genesis(start), es, k).clock <= at
    ensures var db, op := At(env, Genesis(start), es, k).db, es[i].op;
      var key := Key(es[i].at / 1_000_000_000, op.id);
      var now := at / 1_000_000_000;
      && (key in FrameBox(db, op.recipient, now) <==> now < op.expiry)
      && (now < op.expiry ==> op.id in db.frames && db.frames[op.id].frame == op.frame)
      && (other != op.recipient ==> key !in FrameBox(db, other, now))
  {
    hide Apply, At, Run, FrameBox;
    FrameStays(env, start, es, i, k);
    var w, op := At(env, Genesis(start), es, k), es[i].op;
    InFrameBoxIff(w.db, op.recipient, Unix(at), Key(Unix(es[i].at), op.id));
    InFrameBoxIff(w.db, other, Unix(at), Key(Unix(es[i].at), op.id));
    assert Unix(w.clock) <= Unix(at);
  }

  // ---- Plaintexts ---------------------------------------------------------

  function PlaintextOf(op: Op): ArchiveRow
    requires op.StoreV2? && op.submission.body.Some?
  {
    var s, b := op.submission, op.submission.body.value;
    ArchiveRow(b.sender, s.recipient, op.seen / 1_000_000_000, s.expiry, s.policyHash, b.epoch, b.plaintext)
  }

  /** While every duration in force reaches back to it, an event keeps a plaintext as it is. */
  lemma PlaintextStep(env: Env, w: World, e: Event, id: Id, days: int)
    requires Allowed(w, e) && id in w.db.archive && 0 < days <= w.proc.archiveDays && days <= Apply(env, w, e).proc.archiveDays
    requires Unix(e.at) - w.db.archive[id].storedAt < days * 86_400
    ensures id in Apply(env, w, e).db.archive && Apply(env, w, e).db.archive[id] == w.db.archive[id]
  {
    hide CommitV1, CommitV2, CommitFrame, MarkV1, MarkV2, MarkFrames, Enable, CommitEnroll, Revoke, Delete, Purge, DropExpired, DropHistory;
    match e.op {
      case StoreV2(s, seen) =>
        V2InsertedIff(env.sdk, Lim(env, w), w.db, w.proc.archiveDays, s, seen, e.at);
      case _ =>
    }
  }

  /**
   A plaintext admitted under a positive retention is stored whole and shown for as long as no duration in force was shorter
   than `days` and less than that has passed, with the sender, recipient, epoch and text of the admitted body.
   */
  lemma {:induction false} PlaintextIsKept(env: Env, start: int, es: seq<Event>, i: nat, k: nat, days: int)
    requires Run(env, start, es) && StoresV2(env, start, es, i) && es[i].op.submission.body.Some? && i < k <= |es|
    requires 0 < days && forall j | i <= j <= k :: days <= At(env, Genesis(start), es, j).proc.archiveDays
    requires At(env, Genesis(start), es, k).clock / 1_000_000_000 - es[i].op.seen / 1_000_000_000 < days * 86_400
    ensures var w, id := At(env, Genesis(start), es, k), es[i].op.submission.id;
      && id in w.db.archive && w.db.archive[id] == PlaintextOf(es[i].op)
      && Visible(w.db.archive, w.proc.archiveDays, id, w.clock / 1_000_000_000)
    decreases k
  {
    hide Apply, At, Run, Visible;
    AtUnfolds(env, Genesis(start), es, k - 1);
    var prior, w := At(env, Genesis(start), es, k - 1), At(env, Genesis(start), es, k);
    var id := es[i].op.submission.id;
    ClockOfApply(env, prior, es[k - 1]);
    if k - 1 == i {
      StoredV2Rows(env, prior, es[i]);
    } else {
      RunAllows(env, start, es, k - 1);
      assert Unix(prior.clock) <= Unix(es[k - 1].at);
      PlaintextIsKept(env, start, es, i, k - 1, days);
      PlaintextStep(env, prior, es[k - 1], id, days);
    }
    ShownIff(w.db.archive, w.proc.archiveDays, id, Unix(w.clock));
  }
}
