/**
 Whole runs of the mailbox. One event is one transaction (or one lock-protected update), applied at
 a clock reading that never goes back; requests in flight are the pieces of several events, so any
 interleaving of them is a run. Checks made before a transaction opens are left to `Allowed` only
 where a later step relies on them: every other refusal removes behaviours.
 */
module Runs {
  import opened Prelude
  import opened MailboxModel

  datatype Op =
    | StoreV1(recipient: Urn, payload: Bytes, expiry: int, storedAt: int)
    | StoreV2(submission: Submission, seen: int)
    | StoreFrame(recipient: Urn, id: Id, frame: Bytes, expiry: int, policyHash: string)
    | AckV1(recipient: Urn, pairs: set<(Id, int)>)
    | AckV2(recipient: Urn, ids: set<Id>)
    | AckFrames(recipient: Urn, ids: set<Id>)
    | EnablePolicy(policy: Policy, seen: int)
    | Enroll(cert: Certificate, policyHash: string, issuer: Bytes)
    | RevokeSerial(serial: string)
    | DeleteMessage(recipient: Urn, id: Id)
    | PurgeQueue(recipient: Urn)
    | CleanUp(done: set<Stage>, now: int)
    | SetHistory(days: int)
    | SetRetention(days: int, deletes: bool)
    | ReadArchive
    | Restart

  datatype Event = Event(at: int, op: Op)

  /** The limits are settings that take effect at a start: one pair for each. */
  datatype Env = Env(sdk: Sdk, lims: nat -> Limits)

  function Lim(env: Env, w: World): Limits {
    env.lims(w.boots)
  }

  function Empty(): Tables {
    Tables(map[], map[], map[], None, map[], map[], map[], map[])
  }

  /** A process on an empty database. */
  function Genesis(clock: int): World {
    World(Empty(), Restarted(Empty()), clock, 0)
  }

  predicate Allowed(w: World, e: Event) {
    && 0 < Unix(w.clock) && w.clock <= e.at
    && (e.op.StoreV1? ==> 0 < e.op.storedAt <= e.at && |e.op.payload| <= MAX_ENVELOPE)
    && (e.op.StoreV2? ==> SubmissionAllowed(e.op.submission, e.op.seen, e.at))
    && (e.op.CleanUp? ==> e.op.now <= Unix(e.at))
    && (e.op.EnablePolicy? ==> e.op.seen <= e.at)
    && (e.op.RevokeSerial? ==> 1 <= |e.op.serial| <= 128)
  }

  /** What storeV2 has checked, at the clock reading `seen`, when its transaction opens. */
  predicate SubmissionAllowed(s: Submission, seen: int, at: int) {
    && 0 < seen <= at && Unix(seen) < s.expiry
    && BodyMatches(s) && |s.envelope| <= MAX_ENVELOPE && |s.receipt| <= MAX_SMALL
  }

  /** `Allowed` asks no more of a store than the checks before its transaction have established. */
  lemma ScreensEstablishAllowed(sdk: Sdk, lim: Limits, w: World, gates: Gates, recipient: Urn, payload: Bytes, expiry: int,
                                s: Submission, storeOpen: bool, forwardOpen: bool, seen: int, storedAt: int, at: int)
    requires 0 < Unix(w.clock) && w.clock <= at && 0 < seen <= storedAt <= at
    ensures ScreenV1(sdk, lim, w.db, w.proc, gates, recipient, payload, expiry, seen).Ok? ==>
      Allowed(w, Event(at, StoreV1(recipient, payload, ScreenV1(sdk, lim, w.db, w.proc, gates, recipient, payload, expiry, seen).value, storedAt)))
    ensures ScreenV2(lim, w.proc, storeOpen, forwardOpen, s, seen).None? ==> Allowed(w, Event(at, StoreV2(s, seen)))
  {
    hide ManagedRoute;
  }

  function ApplyTables(env: Env, w: World, e: Event): Tables {
    var db := w.db;
    match e.op
    case StoreV1(recipient, payload, expiry, storedAt) =>
      if env.sdk.decodeV1(payload).None? then db
      else CommitV1(env.sdk, Lim(env, w), db, recipient, payload, env.sdk.decodeV1(payload).value, expiry, storedAt, e.at).0
    case StoreV2(s, seen) => CommitV2(env.sdk, Lim(env, w), db, w.proc.archiveDays, s, seen, e.at).0
    case StoreFrame(recipient, id, frame, expiry, hash) => CommitFrame(db, recipient, id, frame, expiry, hash, e.at).0
    case AckV1(recipient, pairs) => db.(v1 := MarkV1(db.v1, recipient, pairs, e.at))
    case AckV2(recipient, ids) =>
      if w.proc.policyHash == "" || Unix(e.at) >= w.proc.policyExpiry then db else MarkV2(db, w.proc, recipient, ids, e.at)
    case AckFrames(recipient, ids) => MarkFrames(db, recipient, ids, e.at)
    case EnablePolicy(p, seen) => if Enable(db, w.proc, p, seen).None? then db else Enable(db, w.proc, p, seen).value.0
    case Enroll(cert, hash, issuer) => CommitEnroll(db, cert, hash, issuer, e.at).0
    case RevokeSerial(serial) => Revoke(db, serial, e.at)
    case DeleteMessage(recipient, id) => Delete(db, recipient, id)
    case PurgeQueue(recipient) => Purge(db, recipient)
    case CleanUp(done, now) => Cleanup(db, w.proc.historyDays, w.proc.archiveDays, done, now)
    case SetRetention(days, deletes) => SetArchiveDays(db, w.proc, days, deletes, Unix(e.at)).0
    case Restart => db.(managed := Backfilled(db.managed, e.at))
    case _ => db
  }

  function ApplyProcess(w: World, e: Event): Process {
    match e.op
    case StoreV2(s, _) => if s.body.Some? then w.proc.(archiveUsed := true) else w.proc
    case EnablePolicy(p, seen) => if Enable(w.db, w.proc, p, seen).None? then w.proc else Enable(w.db, w.proc, p, seen).value.1
    case CleanUp(_, _) => w.proc.(archiveUsed := true)
    case ReadArchive => w.proc.(archiveUsed := true)
    case SetHistory(days) => w.proc.(historyDays := Wrap32(days))
    case SetRetention(days, deletes) => SetArchiveDays(w.db, w.proc, days, deletes, Unix(e.at)).1
    case Restart => Restarted(w.db)
    case _ => w.proc
  }

  function Apply(env: Env, w: World, e: Event): World {
    World(ApplyTables(env, w, e), ApplyProcess(w, e), e.at, if e.op.Restart? then w.boots + 1 else w.boots)
  }

  /** The world after the first `i` events. */
  function At(env: Env, w: World, es: seq<Event>, i: nat): World
    requires i <= |es|
  {
    if i == 0 then w else Apply(env, At(env, w, es, i - 1), es[i - 1])
  }

  /** A run from an empty store. */
  ghost predicate Run(env: Env, start: int, es: seq<Event>) {
    && 0 < Unix(start)
    && forall i | 0 <= i < |es| :: Allowed(At(env, Genesis(start), es, i), es[i])
  }

  lemma AtBegins(env: Env, w: World, es: seq<Event>)
    ensures At(env, w, es, 0) == w
  {
  }

  lemma AtUnfolds(env: Env, w: World, es: seq<Event>, i: nat)
    requires i < |es|
    ensures At(env, w, es, i + 1) == Apply(env, At(env, w, es, i), es[i])
  {
  }

  lemma ClockOfApply(env: Env, w: World, e: Event)
    ensures Apply(env, w, e).clock == e.at
  {
  }

  lemma {:induction false} ClockNeverGoesBack(env: Env, start: int, es: seq<Event>, i: nat, j: nat)
    requires Run(env, start, es) && i <= j <= |es|
    ensures At(env, Genesis(start), es, i).clock <= At(env, Genesis(start), es, j).clock
    ensures 0 < Unix(At(env, Genesis(start), es, i).clock)
    decreases j
  {
    hide ApplyTables, ApplyProcess;
    if i < j {
      ClockNeverGoesBack(env, start, es, i, j - 1);
      assert Allowed(At(env, Genesis(start), es, j - 1), es[j - 1]);
    } else if i > 0 {
      ClockNeverGoesBack(env, start, es, i - 1, i - 1);
      assert Allowed(At(env, Genesis(start), es, i - 1), es[i - 1]);
    }
  }

  predicate IsStore(op: Op) {
    op.StoreV1? || op.StoreV2? || op.StoreFrame?
  }

  predicate IsAuthority(op: Op) {
    op.EnablePolicy? || op.Enroll? || op.RevokeSerial? || op.Restart?
  }

  lemma MailKeepsAuthority(env: Env, w: World, e: Event)
    requires !IsAuthority(e.op)
    ensures SameAuthority(w.db, ApplyTables(env, w, e))
  {
    hide CommitV1, CommitV2, CommitFrame, MarkV1, MarkV2, MarkFrames, Delete, Purge, Cleanup, SetArchiveDays, PendingCount;
  }

  /** Rows disappear or turn read; nothing else happens to them. */
  ghost predicate Ages(db: Tables, next: Tables) {
    && (forall id | id in next.v1 :: (
        id in db.v1 && (next.v1[id] == db.v1[id] || (db.v1[id].readAt == 0 && next.v1[id] == db.v1[id].(readAt := next.v1[id].readAt)))))
    && (forall id | id in next.v2 :: (
        id in db.v2 && (next.v2[id] == db.v2[id] || (db.v2[id].readAt == 0 && next.v2[id] == db.v2[id].(readAt := next.v2[id].readAt)))))
    && (forall id | id in next.frames :: (
        id in db.frames && (next.frames[id] == db.frames[id] || (db.frames[id].readAt == 0 && next.frames[id] == db.frames[id].(readAt := next.frames[id].readAt)))))
    && (forall id | id in next.admissions :: id in db.admissions && next.admissions[id] == db.admissions[id])
    && (forall id | id in next.archive :: id in db.archive && next.archive[id] == db.archive[id])
  }

  lemma AckV1Ages(db: Tables, recipient: Urn, pairs: set<(Id, int)>, at: int)
    ensures Ages(db, db.(v1 := MarkV1(db.v1, recipient, pairs, at)))
  {
  }

  lemma AckV2Ages(db: Tables, proc: Process, recipient: Urn, ids: set<Id>, at: int)
    ensures Ages(db, MarkV2(db, proc, recipient, ids, at))
  {
  }

  lemma AckFramesAges(db: Tables, recipient: Urn, ids: set<Id>, at: int)
    ensures Ages(db, MarkFrames(db, recipient, ids, at))
  {
  }

  lemma DeletionAges(db: Tables, recipient: Urn, id: Id)
    ensures Ages(db, Delete(db, recipient, id))
    ensures Ages(db, Purge(db, recipient))
  {
  }

  lemma AgesTransitive(a: Tables, b: Tables, c: Tables)
    requires Ages(a, b) && Ages(b, c)
    ensures Ages(a, c)
  {
  }

  lemma ExpiryAges(db: Tables, done: set<Stage>, now: int)
    ensures Ages(db, DropExpired(db, done, now))
  {
  }

  lemma HistoryAges(db: Tables, done: set<Stage>, cutoff: int)
    ensures Ages(db, DropHistory(db, done, cutoff))
  {
  }

  lemma PurgeAges(db: Tables, days: int, now: int)
    ensures Ages(db, db.(archive := PurgeArchive(db.archive, days, now)))
  {
  }

  lemma CleanupAges(db: Tables, historyDays: int, archiveDays: int, done: set<Stage>, now: int)
    ensures Ages(db, Cleanup(db, historyDays, archiveDays, done, now))
  {
    hide Ages, DropExpired, DropHistory, PurgeArchive;
    var expired := DropExpired(db, done, now);
    ExpiryAges(db, done, now);
    var aged := expired;
    if historyDays >= 0 {
      aged := DropHistory(expired, done, now - historyDays * DAY);
      HistoryAges(expired, done, now - historyDays * DAY);
      AgesTransitive(db, expired, aged);
    }
    PurgeAges(aged, archiveDays, now);
    AgesTransitive(db, aged, aged.(archive := PurgeArchive(aged.archive, archiveDays, now)));
  }

  lemma SameRowsAge(db: Tables, next: Tables)
    requires db.v1 == next.v1 && db.v2 == next.v2 && db.frames == next.frames
    requires db.admissions == next.admissions && db.archive == next.archive
    ensures Ages(db, next)
  {
  }

  lemma OnlyStoresAddRows(env: Env, w: World, e: Event)
    requires !IsStore(e.op)
    ensures Ages(w.db, Apply(env, w, e).db)
  {
    hide Ages, MarkV1, MarkV2, MarkFrames, Delete, Purge, Cleanup, PurgeArchive, ApplyProcess, CommitV1, CommitV2, CommitFrame;
    match e.op {
      case AckV1(recipient, pairs) => AckV1Ages(w.db, recipient, pairs, e.at);
      case AckV2(recipient, ids) =>
        AckV2Ages(w.db, w.proc, recipient, ids, e.at);
        SameRowsAge(w.db, w.db);
      case AckFrames(recipient, ids) => AckFramesAges(w.db, recipient, ids, e.at);
      case DeleteMessage(recipient, id) => DeletionAges(w.db, recipient, id);
      case PurgeQueue(recipient) => DeletionAges(w.db, recipient, "");
      case CleanUp(done, now) => CleanupAges(w.db, w.proc.historyDays, w.proc.archiveDays, done, now);
      case SetRetention(days, _) =>
        SameRowsAge(w.db, w.db);
        PurgeAges(w.db, days, Unix(e.at));
        PurgeAges(w.db, w.proc.archiveDays, Unix(e.at));
      case _ => SameRowsAge(w.db, Apply(env, w, e).db);
    }
  }

  /** A v2 commit either changes nothing, or finds the ID unused everywhere and fills every table it should. */
  lemma CommitV2Effect(sdk: Sdk, lim: Limits, db: Tables, days: int, s: Submission, seen: int, at: int)
    ensures var next := CommitV2(sdk, lim, db, days, s, seen, at).0;
      || next == db
      || (&& s.id !in db.v1 && s.id !in db.v2 && s.id !in db.admissions && s.id !in db.archive
          && next.v2 == db.v2[s.id := QueueEntry(s, seen)]
          && next.admissions == (if s.body.Some? then db.admissions[s.id := LedgerEntry(sdk, s)] else db.admissions)
          && next.archive == (if s.body.Some? && days > 0 then db.archive[s.id := ArchiveEntry(s, seen)] else db.archive))
  {
    hide PendingCount, QueueEntry, LedgerEntry, ArchiveEntry;
  }
}
