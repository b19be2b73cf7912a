/**
 The sharp edge of exactly-once admission: storeV2 compares the expiry with a clock reading taken before its
 transaction. A commit that opens after that expiry finds the ledger cleaned, and the same bytes are queued and
 archived a second time; a commit before it never does.
 */
module LateCommit {
  import opened Prelude
  import opened MailboxModel
  import opened Runs
  import opened ExactlyOnce

  /** storeV2 holds the retention lock from before its clock reading to its commit: no setting changes in between. */
  ghost predicate RetentionLocked(es: seq<Event>) {
    forall k, j | 0 <= k < j < |es| && es[k].op.SetRetention? && es[j].op.StoreV2? :: es[k].at <= es[j].op.seen
  }

  /** A run whose event `j`, a commit of `s` at `at`, admits an envelope that event `i` had already admitted. */
  ghost predicate Repeats(env: Env, start: int, es: seq<Event>, i: nat, j: nat, s: Submission, seen: int, at: int) {
    && Run(env, start, es) && ThroughGateway(env, es) && RetentionLocked(es)
    && i < j < |es| && es[j] == Event(at, StoreV2(s, seen))
    && DeliversAt(env, start, es, i, s.envelope) && ArchivesAt(env, start, es, i, s.envelope)
    && DeliversAt(env, start, es, j, s.envelope) && ArchivesAt(env, start, es, j, s.envelope)
  }

  /** A compliance submission that has passed the gateway and the checks before the transaction. */
  predicate Screened(env: Env, s: Submission, seen: int, at: int) {
    && 0 < Unix(seen) && SubmissionAllowed(s, seen, at)
    && MatchesHeader(env.sdk, s) && s.body.Some? && |s.policyHash| == 64
  }

  function Pin(s: Submission, at: int): Policy {
    Policy(1, s.policyHash, Unix(at) + 1, false, [])
  }

  /** Admit at once and switch the archive off and on; much later, clean up, and let the delayed copy commit. */
  function Story(s: Submission, seen: int, at: int): seq<Event> {
    [ Event(seen, EnablePolicy(Pin(s, at), seen)),
      Event(seen, SetRetention(1, true)),
      Event(seen, StoreV2(s, seen)),
      Event(seen, SetRetention(0, true)),
      Event(seen, SetRetention(1, true)),
      Event(at, CleanUp({ExpiredV1, ExpiredV2, ExpiredFrames, ExpiredAdmissions, HistoryV1, HistoryV2, HistoryFrames, OldArchive}, Unix(at))),
      Event(at, StoreV2(s, seen)) ]
  }

  function Pinned(s: Submission, at: int): Tables {
    Empty().(policy := Some(Pin(s, at)))
  }

  function Admitted(sdk: Sdk, s: Submission, seen: int, at: int): Tables
    requires s.body.Some?
  {
    Pinned(s, at).(v2 := map[s.id := QueueEntry(s, seen)], admissions := map[s.id := LedgerEntry(sdk, s)], archive := map[s.id := ArchiveEntry(s, seen)])
  }

  lemma PinFirst(s: Submission, seen: int, at: int)
    requires seen <= at && |s.policyHash| == 64
    ensures Enable(Empty(), Restarted(Empty()), Pin(s, at), seen).Some?
    ensures var (db, proc) := Enable(Empty(), Restarted(Empty()), Pin(s, at), seen).value;
      db == Pinned(s, at) && proc.historyDays == 30 && !proc.archiveUsed
  {
  }

  lemma OnePending(db: Tables, s: Submission, seen: int)
    requires db.v1 == map[] && db.v2 == map[s.id := QueueEntry(s, seen)]
    ensures PendingCount(db, s.recipient, Unix(seen)) <= 1
  {
    assert PendingV1Ids(db, s.recipient, Unix(seen)) == {};
    SubsetCardinality(PendingV2Ids(db, s.recipient, Unix(seen)), {s.id});
  }

  lemma AdmitIntoPinned(env: Env, lim: Limits, s: Submission, seen: int, at: int, now: int)
    requires s.body.Some? && now <= at
    ensures CommitV2(env.sdk, lim, Pinned(s, at), 1, s, seen, now).0 == Admitted(env.sdk, s, seen, at)
  {
    OnePending(Pinned(s, at).(v2 := map[s.id := QueueEntry(s, seen)]), s, seen);
    hide PendingCount, QueueEntry, LedgerEntry, ArchiveEntry;
  }

  /** Switching the archive off and on leaves queue row and ledger entry alone. */
  lemma SwitchOffForgets(db: Tables, proc: Process, sdk: Sdk, s: Submission, seen: int, at: int, now: int)
    requires s.body.Some? && db == Admitted(sdk, s, seen, at) && proc.archiveUsed && proc.archiveDays == 1
    ensures var (next, after, ok) := SetArchiveDays(db, proc, 0, true, now);
      && next == db.(archive := map[]) && ok && after.archiveUsed && after.archiveDays == 0 && after.historyDays == proc.historyDays
  {
    hide QueueEntry, LedgerEntry, ArchiveEntry;
  }

  lemma SetFirst(db: Tables, proc: Process, days: int, now: int)
    requires db.archive == map[] && 0 <= days <= 36500
    ensures var (next, after, ok) := SetArchiveDays(db, proc, days, true, now);
      next == db && ok && after.archiveDays == days && after.historyDays == proc.historyDays
  {
  }

  /** Cleanup past the expiry drops queue row and ledger entry. */
  lemma CleanupForgets(sdk: Sdk, s: Submission, seen: int, at: int)
    requires s.body.Some? && s.expiry <= Unix(at)
    ensures Cleanup(Admitted(sdk, s, seen, at).(archive := map[]), 30, 1, Story(s, seen, at)[5].op.done, Unix(at)) == Pinned(s, at)
  {
  }

  lemma StoryBegins(env: Env, s: Submission, seen: int, at: int, w: seq<World>)
    requires Screened(env, s, seen, at)
    requires |w| == 8 && w[0] == Genesis(seen)
    requires forall i: nat | i < 7 :: w[i + 1] == Apply(env, w[i], Story(s, seen, at)[i])
    ensures w[2].db == Pinned(s, at) && w[3].db == Admitted(env.sdk, s, seen, at)
    ensures w[3].proc.historyDays == 30 && w[3].proc.archiveDays == 1 && w[3].proc.archiveUsed
  {
    hide CommitV2, Enable, SetArchiveDays;
    var es := Story(s, seen, at);
    PinFirst(s, seen, at);
    assert w[1] == Apply(env, w[0], es[0]);
    SetFirst(w[1].db, w[1].proc, 1, Unix(seen));
    assert w[2] == Apply(env, w[1], es[1]);
    AdmitIntoPinned(env, Lim(env, w[2]), s, seen, at, seen);
    assert w[3] == Apply(env, w[2], es[2]);
  }

  lemma StoryEnds(env: Env, s: Submission, seen: int, at: int, w: seq<World>)
    requires Screened(env, s, seen, at) && s.expiry <= Unix(at)
    requires |w| == 8 && w[3].db == Admitted(env.sdk, s, seen, at)
    requires w[3].proc.historyDays == 30 && w[3].proc.archiveDays == 1 && w[3].proc.archiveUsed
    requires forall i: nat | i < 7 :: w[i + 1] == Apply(env, w[i], Story(s, seen, at)[i])
    ensures w[6].db == Pinned(s, at) && w[7].db == Admitted(env.sdk, s, seen, at)
  {
    hide CommitV2, Cleanup, SetArchiveDays;
    var es := Story(s, seen, at);
    SwitchOffForgets(w[3].db, w[3].proc, env.sdk, s, seen, at, Unix(seen));
    assert w[4] == Apply(env, w[3], es[3]);
    SetFirst(w[4].db, w[4].proc, 1, Unix(seen));
    assert w[5] == Apply(env, w[4], es[4]);
    CleanupForgets(env.sdk, s, seen, at);
    assert w[6] == Apply(env, w[5], es[5]);
    AdmitIntoPinned(env, Lim(env, w[6]), s, seen, at, at);
    assert w[7] == Apply(env, w[6], es[6]);
  }

  lemma StoryIsRun(env: Env, s: Submission, seen: int, at: int, w: seq<World>)
    requires Screened(env, s, seen, at)
    requires |w| == 8 && w[0].clock == seen
    requires forall i: nat | i < 7 :: w[i + 1].clock == Story(s, seen, at)[i].at
    ensures forall i: nat | i < 7 :: Allowed(w[i], Story(s, seen, at)[i])
  {
  }

  lemma LateStoryRepeats(env: Env, s: Submission, seen: int, at: int)
    requires Screened(env, s, seen, at) && s.expiry <= Unix(at)
    ensures Repeats(env, seen, Story(s, seen, at), 2, 6, s, seen, at)
  {
    var es := Story(s, seen, at);
    hide Apply, At;
    var w := seq(8, i requires 0 <= i < 8 => At(env, Genesis(seen), es, i));
    forall i: nat | i < 7 ensures w[i + 1] == Apply(env, w[i], es[i]) && w[i + 1].clock == es[i].at {
      AtUnfolds(env, Genesis(seen), es, i);
      ClockOfApply(env, w[i], es[i]);
    }
    AtBegins(env, Genesis(seen), es);
    StoryBegins(env, s, seen, at, w);
    StoryEnds(env, s, seen, at, w);
    StoryIsRun(env, s, seen, at, w);
  }

  /** A commit of a screened envelope can admit it a second time if and only if it lands at or after the signed expiry. */
  lemma RepeatableIffLate(env: Env, s: Submission, seen: int, at: int)
    requires Screened(env, s, seen, at)
    ensures (exists start: int, es: seq<Event>, i: nat, j: nat :: Repeats(env, start, es, i, j, s, seen, at)) <==> s.expiry <= Unix(at)
  {
    hide DeliversAt, ArchivesAt, Run;
    if s.expiry <= Unix(at) {
      LateStoryRepeats(env, s, seen, at);
    }
    forall start: int, es: seq<Event>, i: nat, j: nat | Repeats(env, start, es, i, j, s, seen, at) ensures s.expiry <= Unix(at) {
      SecondCreationIsLate(env, start, es, i, j, s.envelope);
    }
  }
}
