/** The plaintext archive: what retention has hidden stays hidden while the process lives. */
module Archive {
  import opened Prelude
  import opened MailboxModel
  import opened Runs
  import opened ExactlyOnce

  /** The row is gone, or is the same row and still out of retention. */
  predicate HiddenRow(w: World, id: Id, row: ArchiveRow) {
    id in w.db.archive ==> w.db.archive[id] == row && !Visible(w.db.archive, w.proc.archiveDays, id, Unix(w.clock))
  }

  /** Event `e` writes a new archive row under `id`. */
  predicate Writes(env: Env, w: World, e: Event, id: Id) {
    e.op.StoreV2? && id !in w.db.archive && id in Apply(env, w, e).db.archive
  }

  lemma PurgeOnlyDrops(archive: map<Id, ArchiveRow>, days: int, now: int, id: Id)
    ensures var next := PurgeArchive(archive, days, now);
      && (id in next ==> id in archive && next[id] == archive[id])
      && (id in next <==> Visible(archive, days, id, now))
  {
  }

  /** Within a process that has used its archive, a hidden row stays hidden until an admission writes the ID anew. */
  lemma HiddenStep(env: Env, w: World, e: Event, id: Id, row: ArchiveRow)
    requires Allowed(w, e) && w.proc.archiveUsed && !e.op.Restart?
    requires HiddenRow(w, id, row) && !Writes(env, w, e, id)
    ensures HiddenRow(Apply(env, w, e), id, row) && Apply(env, w, e).proc.archiveUsed
  {
    hide CommitV1, CommitV2, CommitFrame, CommitEnroll, MarkV1, Revoke, PurgeArchive, Delete, Purge, MarkV2, MarkFrames;
    assert Unix(w.clock) <= Unix(e.at);
    match e.op {
      case StoreV2(s, seen) => CommitV2Effect(env.sdk, Lim(env, w), w.db, w.proc.archiveDays, s, seen, e.at);
      case SetRetention(days, _) =>
        PurgeOnlyDrops(w.db.archive, days, Unix(e.at), id);
        PurgeOnlyDrops(w.db.archive, w.proc.archiveDays, Unix(e.at), id);
      case CleanUp(_, now) => PurgeOnlyDrops(w.db.archive, w.proc.archiveDays, now, id);
      case _ =>
    }
  }

  /** Over any part of a run without a restart, whether the row is still there or already deleted when it starts. */
  lemma {:induction false} HiddenStaysHidden(env: Env, start: int, es: seq<Event>, i: nat, k: nat, id: Id, row: ArchiveRow)
    requires Run(env, start, es) && i <= k <= |es|
    requires At(env, Genesis(start), es, i).proc.archiveUsed && HiddenRow(At(env, Genesis(start), es, i), id, row)
    requires forall j | i <= j < k :: !es[j].op.Restart? && !Writes(env, At(env, Genesis(start), es, j), es[j], id)
    ensures HiddenRow(At(env, Genesis(start), es, k), id, row)
    ensures At(env, Genesis(start), es, k).proc.archiveUsed
    decreases k
  {
    hide Apply, Writes, Allowed;
    if i < k {
      HiddenStaysHidden(env, start, es, i, k - 1, id, row);
      HiddenStep(env, At(env, Genesis(start), es, k - 1), es[k - 1], id, row);
    }
  }

  /**
   No revival of plaintext: an envelope archived at event `first` and not shown in state `i`, hidden by retention or already
   deleted, is never shown again by the same process, as long as the ID is submitted with these bytes only and every such
   commit lands before their signed expiry.
   */
  lemma PlaintextNeverRevives(env: Env, start: int, es: seq<Event>, first: nat, i: nat, k: nat, raw: Bytes)
    requires Run(env, start, es) && ThroughGateway(env, es) && first < i <= k <= |es|
    requires env.sdk.inspects(env.sdk.header(raw).policyHash) && ArchivesAt(env, start, es, first, raw)
    requires var w := At(env, Genesis(start), es, i);
      && w.proc.archiveUsed
      && !Visible(w.db.archive, w.proc.archiveDays, env.sdk.header(raw).id, Unix(w.clock))
    requires forall j | i <= j < k :: !es[j].op.Restart?
    requires forall j | i <= j < k && es[j].op.StoreV2? && es[j].op.submission.id == env.sdk.header(raw).id ::
      SubmitsAt(es, j, raw) && InTime(env, es, j, raw)
    ensures var w := At(env, Genesis(start), es, k);
      !Visible(w.db.archive, w.proc.archiveDays, env.sdk.header(raw).id, Unix(w.clock))
  {
    hide ApplyTables, ApplyProcess, Allowed;
    var id := env.sdk.header(raw).id;
    forall j | i <= j < k ensures !Writes(env, At(env, Genesis(start), es, j), es[j], id) {
      var w := At(env, Genesis(start), es, j);
      if Writes(env, w, es[j], id) {
        WritesOwnId(env, w, es[j], id);
        assert At(env, Genesis(start), es, j + 1) == Apply(env, w, es[j]);
        SecondCreationIsLate(env, start, es, first, j, raw);
      }
    }
    hide Apply, At, Run, Writes;
    var w := At(env, Genesis(start), es, i);
    HiddenStaysHidden(env, start, es, i, k, id, if id in w.db.archive then w.db.archive[id] else ArchiveRow("", "", 0, 0, "", 0, []));
  }

  lemma WritesOwnId(env: Env, w: World, e: Event, id: Id)
    requires Writes(env, w, e, id)
    ensures e.op.submission.id == id
  {
    hide CommitV2;
    CommitV2Effect(env.sdk, Lim(env, w), w.db, w.proc.archiveDays, e.op.submission, e.op.seen, e.at);
  }

  /** The first setting of a process keeps every row the configured duration still shows, and deletes all others. */
  lemma FirstSettingIsExact(db: Tables, proc: Process, days: int, now: int, id: Id)
    requires !proc.archiveUsed && 0 <= days <= 36500
    ensures var (next, after, applied) := SetArchiveDays(db, proc, days, true, now);
      && applied && after.archiveDays == days && after.archiveUsed
      && (id in next.archive <==> Visible(db.archive, days, id, now))
      && (id in next.archive ==> next.archive[id] == db.archive[id])
  {
    PurgeOnlyDrops(db.archive, days, now, id);
  }

  /** Later settings keep exactly what both the old and the new duration show. */
  lemma LaterSettingsIntersect(db: Tables, proc: Process, days: int, now: int, id: Id)
    requires proc.archiveUsed && 0 <= days <= 36500 && 0 <= proc.archiveDays
    ensures var next := SetArchiveDays(db, proc, days, true, now).0;
      id in next.archive <==> Visible(db.archive, proc.archiveDays, id, now) && Visible(db.archive, days, id, now)
  {
    PurgeOnlyDrops(db.archive, days, now, id);
    PurgeOnlyDrops(db.archive, proc.archiveDays, now, id);
  }

  // ---- Across restarts ----------------------------------------------------

  /** From a restart to the first retention setting the platform does nothing to the archive: it may pin its policy. */
  ghost predicate StartsUp(es: seq<Event>, i: nat, s: nat, days: int) {
    && i < s < |es| && es[i].op.Restart? && es[s].op == SetRetention(days, true) && 0 <= days <= 36500
    && forall j | i < j < s :: es[j].op.EnablePolicy?
  }

  lemma {:induction false} StartKeepsArchive(env: Env, start: int, es: seq<Event>, i: nat, k: nat)
    requires i < k <= |es| && es[i].op.Restart? && forall j | i < j < k :: es[j].op.EnablePolicy?
    ensures var v, w := At(env, Genesis(start), es, i), At(env, Genesis(start), es, k);
      w.db.archive == v.db.archive && !w.proc.archiveUsed
    decreases k
  {
    hide At;
    AtUnfolds(env, Genesis(start), es, k - 1);
    if i < k - 1 {
      StartKeepsArchive(env, start, es, i, k - 1);
    }
  }

  /**
   When a restart shows a hidden plaintext again: it is still in the table, and the duration persisted for the new process
   reaches back to it. The duration is then longer than the one that had hidden it, so a process that ended with the
   duration it had persisted brings nothing back.
   */
  lemma RestartShowsIff(env: Env, start: int, es: seq<Event>, i: nat, s: nat, days: int, id: Id)
    requires Run(env, start, es) && StartsUp(es, i, s, days)
    ensures var v, w := At(env, Genesis(start), es, i), At(env, Genesis(start), es, s + 1);
      && w.proc.archiveDays == days
      && (Visible(w.db.archive, days, id, Unix(w.clock)) <==>
          days != 0 && id in v.db.archive && v.db.archive[id].storedAt > Unix(es[s].at) - days * DAY)
      && (Visible(w.db.archive, days, id, Unix(w.clock)) && !Visible(v.db.archive, v.proc.archiveDays, id, Unix(v.clock)) ==>
          v.proc.archiveDays < days)
  {
    hide Run, At, Visible;
    StartKeepsArchive(env, start, es, i, s);
    AtUnfolds(env, Genesis(start), es, s);
    var v, before := At(env, Genesis(start), es, i), At(env, Genesis(start), es, s);
    FirstSettingIsExact(before.db, before.proc, days, Unix(es[s].at), id);
    ClockNeverGoesBack(env, start, es, i, s + 1);
    SettingShows(v, At(env, Genesis(start), es, s + 1), days, id);
  }

  lemma SettingShows(v: World, w: World, days: int, id: Id)
    requires v.clock <= w.clock && 0 <= days
    requires id in w.db.archive <==> Visible(v.db.archive, days, id, Unix(w.clock))
    requires id in w.db.archive ==> w.db.archive[id] == v.db.archive[id]
    ensures Visible(w.db.archive, days, id, Unix(w.clock)) <==>
      days != 0 && id in v.db.archive && v.db.archive[id].storedAt > Unix(w.clock) - days * DAY
    ensures Visible(w.db.archive, days, id, Unix(w.clock)) && !Visible(v.db.archive, v.proc.archiveDays, id, Unix(v.clock)) ==>
      v.proc.archiveDays < days
  {
    assert Unix(v.clock) <= Unix(w.clock);
  }
}
