/** The pinned policy over whole runs with restarts. */
module Pinning {
  import opened Prelude
  import opened MailboxModel
  import opened Runs

  /** Later pins have a higher epoch, or are the same policy. */
  predicate NoRollback(earlier: Option<Policy>, later: Option<Policy>) {
    earlier.Some? ==>
      && later.Some?
      && earlier.value.epoch <= later.value.epoch
      && (earlier.value.epoch == later.value.epoch ==> earlier.value.hash == later.value.hash)
  }

  /** The process either follows the pinned policy or, after a restart, knows only whether it is strict. */
  predicate FollowsPin(w: World) {
    && w.proc.required == (w.db.policy.Some? && w.db.policy.value.required)
    && (w.proc.policyHash == "" ==> w.proc.issuer == [] && w.proc.policyExpiry == 0)
    && (w.proc.policyHash != "" ==>
        && w.db.policy.Some?
        && w.proc.policyHash == w.db.policy.value.hash
        && w.proc.policyExpiry == w.db.policy.value.expiresAt
        && w.proc.issuer == w.db.policy.value.issuer)
  }

  lemma EnableKeepsPin(db: Tables, proc: Process, p: Policy, at: int, boots: nat)
    ensures var r := Enable(db, proc, p, at);
      r.Some? ==>
        && r.value.0.policy == Some(p)
        && NoRollback(db.policy, Some(p))
        && FollowsPin(World(r.value.0, r.value.1, at, boots))
  {
  }

  lemma OnlyEnablePins(env: Env, w: World, e: Event)
    requires !e.op.EnablePolicy?
    ensures Apply(env, w, e).db.policy == w.db.policy
  {
    hide CommitEnroll, Revoke, ApplyProcess, Backfilled;
    if !IsAuthority(e.op) {
      hide ApplyTables;
      MailKeepsAuthority(env, w, e);
    }
  }

  lemma PinStep(env: Env, w: World, e: Event)
    requires FollowsPin(w)
    ensures FollowsPin(Apply(env, w, e))
    ensures NoRollback(w.db.policy, Apply(env, w, e).db.policy)
    ensures Apply(env, w, e).db.policy != w.db.policy ==> e.op.EnablePolicy? && Apply(env, w, e).db.policy == Some(e.op.policy)
  {
    if e.op.EnablePolicy? {
      EnableKeepsPin(w.db, w.proc, e.op.policy, e.op.seen, w.boots);
    } else {
      hide ApplyTables;
      OnlyEnablePins(env, w, e);
    }
  }

  lemma {:induction false} ProcessFollowsPin(env: Env, start: int, es: seq<Event>, i: nat)
    requires Run(env, start, es) && i <= |es|
    ensures FollowsPin(At(env, Genesis(start), es, i))
  {
    hide Apply, Allowed;
    if i > 0 {
      ProcessFollowsPin(env, start, es, i - 1);
      PinStep(env, At(env, Genesis(start), es, i - 1), es[i - 1]);
    }
  }

  /** No sequence of events, restarts included, rolls the pinned epoch back or equivocates about its hash. */
  lemma {:induction false} PinNeverRollsBack(env: Env, start: int, es: seq<Event>, i: nat, k: nat)
    requires Run(env, start, es) && i <= k <= |es|
    ensures NoRollback(At(env, Genesis(start), es, i).db.policy, At(env, Genesis(start), es, k).db.policy)
    decreases k
  {
    hide Apply, Allowed;
    if i < k {
      PinNeverRollsBack(env, start, es, i, k - 1);
      ProcessFollowsPin(env, start, es, k - 1);
      PinStep(env, At(env, Genesis(start), es, k - 1), es[k - 1]);
    }
  }

  /** A policy hash commits to the epoch of the policy. */
  ghost predicate HashDeterminesEpoch(es: seq<Event>, epochOf: string -> nat) {
    forall i | 0 <= i < |es| :: es[i].op.EnablePolicy? ==> epochOf(es[i].op.policy.hash) == es[i].op.policy.epoch
  }

  lemma {:induction false} PinnedEpochIsItsHash(env: Env, start: int, es: seq<Event>, epochOf: string -> nat, i: nat)
    requires Run(env, start, es) && HashDeterminesEpoch(es, epochOf) && i <= |es|
    ensures var p := At(env, Genesis(start), es, i).db.policy; p.Some? ==> epochOf(p.value.hash) == p.value.epoch
  {
    hide Apply, Allowed;
    if i > 0 {
      PinnedEpochIsItsHash(env, start, es, epochOf, i - 1);
      ProcessFollowsPin(env, start, es, i - 1);
      PinStep(env, At(env, Genesis(start), es, i - 1), es[i - 1]);
    }
  }

  /** A row admitted under a policy that was superseded at state i is never delivered or acknowledged again. */
  lemma SupersededNeverReturns(env: Env, start: int, es: seq<Event>, epochOf: string -> nat, i: nat, k: nat, row: V2Row, r: Urn, now: int)
    requires Run(env, start, es) && HashDeterminesEpoch(es, epochOf) && i <= k <= |es|
    requires var p := At(env, Genesis(start), es, i).db.policy; p.Some? && epochOf(row.policyHash) < p.value.epoch
    ensures var proc := At(env, Genesis(start), es, k).proc;
      proc.policyHash != "" ==> !VisibleV2(row, r, proc.policyHash, now)
  {
    hide Apply, Allowed, At;
    PinNeverRollsBack(env, start, es, i, k);
    PinnedEpochIsItsHash(env, start, es, epochOf, k);
    ProcessFollowsPin(env, start, es, k);
  }

  /** No v1 message enters, leaves or is consumed, whatever the tables hold and the clock says. */
  ghost predicate FailClosed(sdk: Sdk, lim: Limits, db: Tables, proc: Process) {
    && (forall gates, recipient, payload, expiry, seen :: ScreenV1(sdk, lim, db, proc, gates, recipient, payload, expiry, seen).Err?)
    && (forall recipient, at :: Inbox(sdk, db, proc, recipient, at) == [])
    && (forall recipient, ids, at :: Ackable(sdk, db, proc, recipient, ids, at) == {})
  }

  lemma StrictWithoutIssuerIsClosed(sdk: Sdk, lim: Limits, db: Tables, proc: Process)
    requires proc.required && proc.issuer == []
    ensures FailClosed(sdk, lim, db, proc)
  {
    forall recipient, env, ns, now ensures !ManagedRoute(db, proc, recipient, env, ns, now) {}
    forall row, recipient, at ensures !Deliverable(sdk, db, proc, row, recipient, at) {}
    forall recipient, at ensures Inbox(sdk, db, proc, recipient, at) == [] {
      assert DeliverableKeys(sdk, db, proc, recipient, at) == {};
    }
  }

  /**
   A restart under a pinned strict policy closes v1 until a policy is enabled again,
   even when the next process never loads one.
   */
  lemma {:induction false} RestartStaysClosed(env: Env, start: int, es: seq<Event>, i: nat, k: nat)
    requires Run(env, start, es) && i < k <= |es|
    requires es[i].op.Restart?
    requires var p := At(env, Genesis(start), es, i).db.policy; p.Some? && p.value.required
    requires forall j | i < j < k :: !es[j].op.EnablePolicy?
    ensures var w := At(env, Genesis(start), es, k);
      && w.proc.required && w.proc.issuer == []
      && FailClosed(env.sdk, Lim(env, w), w.db, w.proc)
    decreases k
  {
    hide Apply, Allowed, FailClosed;
    var w := At(env, Genesis(start), es, k - 1);
    if i < k - 1 {
      RestartStaysClosed(env, start, es, i, k - 1);
      ProcessFollowsPin(env, start, es, k - 1);
      OnlyEnableOrRestartChangesRoute(env, w, es[k - 1]);
    } else {
      RestartForgets(env, w, es[i]);
    }
    var next := At(env, Genesis(start), es, k);
    StrictWithoutIssuerIsClosed(env.sdk, Lim(env, next), next.db, next.proc);
  }

  lemma OnlyEnableOrRestartChangesRoute(env: Env, w: World, e: Event)
    requires FollowsPin(w)
    requires !e.op.EnablePolicy?
    ensures var next := Apply(env, w, e);
      && next.proc.required == w.proc.required
      && (w.proc.issuer == [] ==> next.proc.issuer == [])
  {
    hide ApplyTables;
  }

  lemma RestartForgets(env: Env, w: World, e: Event)
    requires e.op.Restart?
    ensures Apply(env, w, e).proc == Restarted(w.db)
  {
    hide ApplyTables;
  }
}
