/** One identifier names at most one message, whatever protocol version and table it lives in. */
module Namespace {
  import opened Prelude
  import opened MailboxModel
  import opened Runs

  ghost predicate OneNamespace(sdk: Sdk, db: Tables) {
    && (forall id | id in db.v1 :: id !in db.v2 && id !in db.admissions && id !in db.archive)
    && (forall id | id in db.v2 && id in db.admissions :: SameMessage(sdk, db.v2[id], db.admissions[id]))
  }

  predicate SameMessage(sdk: Sdk, q: V2Row, a: Admission) {
    q.recipient == a.recipient && sdk.envelopeHash(q.envelope) == a.envelopeHash && q.receipt == a.receipt && q.expiry == a.expiry
  }

  /** What admission caps stays capped: the premise of the absolute byte bound on a batch. */
  ghost predicate PayloadsCapped(db: Tables) {
    && (forall id | id in db.v1 :: |db.v1[id].payload| <= MAX_ENVELOPE && db.v1[id].storedAt > MIN_INT64)
    && (forall id | id in db.v2 :: |db.v2[id].envelope| <= MAX_ENVELOPE && |db.v2[id].receipt| <= MAX_SMALL)
  }

  lemma AgeingKeepsNamespace(sdk: Sdk, db: Tables, next: Tables)
    requires OneNamespace(sdk, db) && PayloadsCapped(db) && Ages(db, next)
    ensures OneNamespace(sdk, next) && PayloadsCapped(next)
  {
  }

  lemma V1KeepsNamespace(sdk: Sdk, lim: Limits, db: Tables, recipient: Urn, payload: Bytes, env: V1Envelope, expiry: int, storedAt: int, at: int)
    requires OneNamespace(sdk, db) && PayloadsCapped(db)
    requires |payload| <= MAX_ENVELOPE && storedAt > 0
    ensures var next := CommitV1(sdk, lim, db, recipient, payload, env, expiry, storedAt, at).0;
      OneNamespace(sdk, next) && PayloadsCapped(next)
  {
    hide PendingCount, SqlManaged;
  }

  lemma V2KeepsNamespace(sdk: Sdk, lim: Limits, db: Tables, days: int, s: Submission, seen: int, at: int)
    requires OneNamespace(sdk, db) && PayloadsCapped(db)
    requires |s.envelope| <= MAX_ENVELOPE && |s.receipt| <= MAX_SMALL
    ensures var next := CommitV2(sdk, lim, db, days, s, seen, at).0;
      OneNamespace(sdk, next) && PayloadsCapped(next)
  {
    CommitV2Effect(sdk, lim, db, days, s, seen, at);
    hide CommitV2;
  }

  lemma NamespaceStep(env: Env, w: World, e: Event)
    requires Allowed(w, e)
    requires OneNamespace(env.sdk, w.db) && PayloadsCapped(w.db)
    ensures OneNamespace(env.sdk, Apply(env, w, e).db) && PayloadsCapped(Apply(env, w, e).db)
  {
    hide OneNamespace, PayloadsCapped, Ages, CommitV1, CommitV2, ApplyProcess;
    match e.op {
      case StoreV1(recipient, payload, expiry, storedAt) =>
        if env.sdk.decodeV1(payload).Some? {
          V1KeepsNamespace(env.sdk, Lim(env, w), w.db, recipient, payload, env.sdk.decodeV1(payload).value, expiry, storedAt, e.at);
        }
      case StoreV2(s, seen) => V2KeepsNamespace(env.sdk, Lim(env, w), w.db, w.proc.archiveDays, s, seen, e.at);
      case StoreFrame(recipient, id, frame, expiry, hash) =>
        var next := Apply(env, w, e).db;
        FramesKeepNamespace(env.sdk, w.db, next);
      case _ =>
        hide ApplyTables;
        OnlyStoresAddRows(env, w, e);
        AgeingKeepsNamespace(env.sdk, w.db, Apply(env, w, e).db);
    }
  }

  lemma FramesKeepNamespace(sdk: Sdk, db: Tables, next: Tables)
    requires OneNamespace(sdk, db) && PayloadsCapped(db)
    requires next.v1 == db.v1 && next.v2 == db.v2 && next.admissions == db.admissions && next.archive == db.archive
    ensures OneNamespace(sdk, next) && PayloadsCapped(next)
  {
  }

  lemma {:induction false} NamespaceHolds(env: Env, start: int, es: seq<Event>, i: nat)
    requires Run(env, start, es) && i <= |es|
    ensures OneNamespace(env.sdk, At(env, Genesis(start), es, i).db)
    ensures PayloadsCapped(At(env, Genesis(start), es, i).db)
  {
    hide Apply, Allowed;
    if i > 0 {
      NamespaceHolds(env, start, es, i - 1);
      NamespaceStep(env, At(env, Genesis(start), es, i - 1), es[i - 1]);
    }
  }

  function Messages(db: Tables): nat {
    |db.v1| + |db.v2|
  }

  predicate Holds(db: Tables, recipient: Urn, id: Id) {
    (id in db.v1 && db.v1[id].recipient == recipient) || (id in db.v2 && db.v2[id].recipient == recipient)
  }

  lemma DropOne<R>(m: map<Id, R>, next: map<Id, R>, id: Id, drops: bool)
    requires next.Keys == if drops then m.Keys - {id} else m.Keys
    requires drops ==> id in m
    ensures |next| == |m| - if drops then 1 else 0
  {
    assert |next| == |next.Keys| && |m| == |m.Keys|;
  }

  lemma DeleteIsExact(sdk: Sdk, db: Tables, recipient: Urn, id: Id)
    requires OneNamespace(sdk, db)
    ensures Messages(db) - Messages(Delete(db, recipient, id)) == if Holds(db, recipient, id) then 1 else 0
  {
    DropOne(db.v1, WithoutV1(db.v1, recipient, id), id, id in db.v1 && db.v1[id].recipient == recipient);
    DropOne(db.v2, WithoutV2(db.v2, recipient, id), id, id in db.v2 && db.v2[id].recipient == recipient);
  }

  /** An admin delete removes one message or none, in every reachable state. */
  lemma DeleteRemovesAtMostOne(env: Env, start: int, es: seq<Event>, recipient: Urn, id: Id)
    requires Run(env, start, es)
    ensures var db := At(env, Genesis(start), es, |es|).db;
      Messages(db) - Messages(Delete(db, recipient, id)) == if Holds(db, recipient, id) then 1 else 0
  {
    hide Apply, Allowed, At, OneNamespace;
    NamespaceHolds(env, start, es, |es|);
    DeleteIsExact(env.sdk, At(env, Genesis(start), es, |es|).db, recipient, id);
  }
}
