/**
 Runs are what the store does: each event, carried out by the store's own methods, takes tables and process exactly where the
 run says. What holds of every run therefore holds of every sequence of these calls, restarts included.
 */
module Execution {
  import opened Prelude
  import opened MailboxModel
  import opened Runs
  import opened Mailbox

  /** Stores: the transactions behind StoreEnvelope, storeV2 and StoreV2Frame. */
  method ExecuteStore(env: Env, store: Store, ghost boots: nat, ghost clock: int, e: Event)
    requires store.sdk == env.sdk && store.lim == env.lims(boots) && IsStore(e.op)
    modifies store
    ensures var w := World(old(store.Db()), old(store.Proc()), clock, boots);
      store.Db() == ApplyTables(env, w, e) && store.Proc() == ApplyProcess(w, e)
  {
    hide CommitV1, CommitV2, CommitFrame;
    match e.op {
      case StoreV1(recipient, payload, expiry, storedAt) =>
        var decoded := store.sdk.decodeV1(payload);
        if decoded.Some? {
          var outcome := store.InsertV1(recipient, payload, decoded.value, expiry, storedAt, e.at);
        }
      case StoreV2(s, seen) =>
        if s.body.Some? {
          store.archiveUsed := true;
        }
        var outcome := store.InsertV2(s, seen, e.at);
      case StoreFrame(recipient, id, frame, expiry, hash) =>
        var outcome := store.InsertFrame(recipient, id, frame, expiry, hash, e.at);
    }
  }

  predicate IsAck(op: Op) {
    op.AckV1? || op.AckV2? || op.AckFrames?
  }

  predicate IsRemoval(op: Op) {
    op.DeleteMessage? || op.PurgeQueue? || op.CleanUp?
  }

  /** Acknowledgements: the updates behind Ack, AckV2 and AckV2Frames. */
  method ExecuteAck(env: Env, store: Store, ghost boots: nat, ghost clock: int, e: Event)
    requires IsAck(e.op)
    modifies store
    ensures var w := World(old(store.Db()), old(store.Proc()), clock, boots);
      store.Db() == ApplyTables(env, w, e) && store.Proc() == ApplyProcess(w, e)
  {
    hide MarkV1, MarkV2, MarkFrames, MarkedV1, MarkedV2, PendingFrameIds;
    match e.op {
      case AckV1(recipient, pairs) =>
        var n := store.MarkRead(recipient, pairs, e.at);
      case AckV2(recipient, ids) =>
        if store.v2PolicyHash != "" && Unix(e.at) < store.v2PolicyExpiry {
          var n := store.MarkReadV2(recipient, ids, e.at);
        }
      case AckFrames(recipient, ids) =>
        var n := store.MarkReadFrames(recipient, ids, e.at);
    }
  }

  /** Deletion, purge and cleanup. */
  method ExecuteRemoval(env: Env, store: Store, ghost boots: nat, ghost clock: int, e: Event)
    requires IsRemoval(e.op)
    modifies store
    ensures var w := World(old(store.Db()), old(store.Proc()), clock, boots);
      store.Db() == ApplyTables(env, w, e) && store.Proc() == ApplyProcess(w, e)
  {
    hide Delete, Purge, Cleanup;
    match e.op {
      case DeleteMessage(recipient, id) =>
        var n := store.DeleteMessage(recipient, id);
      case PurgeQueue(recipient) =>
        var n := store.PurgeQueue(recipient);
      case CleanUp(done, now) =>
        store.CleanUp(done, now);
    }
  }

  /** Policy, identities and settings. */
  method ExecuteAuthority(env: Env, store: Store, ghost boots: nat, ghost clock: int, e: Event)
    requires e.op.EnablePolicy? || e.op.Enroll? || e.op.RevokeSerial? || e.op.SetHistory? || e.op.SetRetention? || e.op.ReadArchive?
    requires e.op.RevokeSerial? ==> 1 <= |e.op.serial| <= 128
    modifies store
    ensures var w := World(old(store.Db()), old(store.Proc()), clock, boots);
      store.Db() == ApplyTables(env, w, e) && store.Proc() == ApplyProcess(w, e)
  {
    hide Enable, CommitEnroll, Revoke, SetArchiveDays;
    match e.op {
      case EnablePolicy(p, seen) =>
        var ok := store.EnableV2Policy(p.epoch, p.hash, p.expiresAt, p.required, p.issuer, seen);
      case Enroll(cert, hash, issuer) =>
        var r := store.InsertIdentity(cert, hash, issuer, e.at);
      case RevokeSerial(serial) =>
        var ok := store.RevokeManaged(serial, e.at);
      case SetHistory(days) =>
        store.SetHistoryRetentionDays(days);
      case SetRetention(days, deletes) =>
        var ok := store.SetComplianceRetentionDays(days, deletes, Unix(e.at));
      case ReadArchive =>
        var r := store.GetComplianceMessage("", Unix(e.at));
    }
  }

  /** One event; a restart hands its tables to a new store under the limits of that start. `boots` counts the starts. */
  method Execute(env: Env, store: Store, boots: nat, ghost clock: int, e: Event) returns (next: Store, starts: nat)
    requires store.sdk == env.sdk && store.lim == env.lims(boots)
    requires Allowed(World(store.Db(), store.Proc(), clock, boots), e)
    modifies store
    ensures World(next.Db(), next.Proc(), e.at, starts) == Apply(env, World(old(store.Db()), old(store.Proc()), clock, boots), e)
    ensures next.sdk == env.sdk && next.lim == env.lims(starts)
    ensures if e.op.Restart? then fresh(next) else next == store
  {
    if e.op.Restart? {
      next := new Store(env.sdk, env.lims(boots + 1), store.Db(), e.at);
      starts := boots + 1;
      return;
    }
    hide ApplyTables, ApplyProcess;
    next, starts := store, boots;
    if IsStore(e.op) {
      ExecuteStore(env, store, boots, clock, e);
    } else if IsAck(e.op) {
      ExecuteAck(env, store, boots, clock, e);
    } else if IsRemoval(e.op) {
      ExecuteRemoval(env, store, boots, clock, e);
    } else {
      ExecuteAuthority(env, store, boots, clock, e);
    }
  }

  /** A whole run, event by event, from an empty database. */
  method ExecuteRun(env: Env, start: int, es: seq<Event>) returns (store: Store)
    requires Run(env, start, es)
    ensures var w := At(env, Genesis(start), es, |es|); store.Db() == w.db && store.Proc() == w.proc
  {
    store := new Store(env.sdk, env.lims(0), Empty(), start);
    assert Backfilled(Empty().managed, start) == Empty().managed;
    hide Apply, Allowed;
    var boots := 0;
    ghost var clock := start;
    for i := 0 to |es|
      invariant fresh(store) && store.sdk == env.sdk && store.lim == env.lims(boots)
      invariant World(store.Db(), store.Proc(), clock, boots) == At(env, Genesis(start), es, i)
    {
      AtUnfolds(env, Genesis(start), es, i);
      store, boots := Execute(env, store, boots, clock, es[i]);
      clock := es[i].at;
    }
  }
}
