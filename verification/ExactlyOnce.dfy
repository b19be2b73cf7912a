/** Compliance admission: one envelope enters the platform once, whatever retries race with it. */
module ExactlyOnce {
  import opened Prelude
  import opened MailboxModel
  import opened Runs
  import opened Namespace

  /** The gateway stores exactly what the signed header of the envelope says, with a body iff the policy inspects. */
  predicate MatchesHeader(sdk: Sdk, s: Submission) {
    var h := sdk.header(s.envelope);
    && s.id == h.id && s.recipient == h.recipient && s.expiry == h.expiry && s.policyHash == h.policyHash
    && (s.body.Some? <==> sdk.inspects(h.policyHash))
  }

  ghost predicate ThroughGateway(env: Env, es: seq<Event>) {
    forall i | 0 <= i < |es| && es[i].op.StoreV2? :: MatchesHeader(env.sdk, es[i].op.submission)
  }

  /** Event `i` commits `raw` before the expiry signed in it. */
  predicate InTime(env: Env, es: seq<Event>, i: nat, raw: Bytes)
    requires i < |es|
  {
    Unix(es[i].at) < env.sdk.header(raw).expiry
  }

  predicate SubmitsAt(es: seq<Event>, i: nat, raw: Bytes) {
    i < |es| && es[i].op.StoreV2? && es[i].op.submission.envelope == raw
  }

  /** Event `i` adds the delivery row of `raw`. */
  ghost predicate DeliversAt(env: Env, start: int, es: seq<Event>, i: nat, raw: Bytes) {
    && SubmitsAt(es, i, raw)
    && env.sdk.header(raw).id !in At(env, Genesis(start), es, i).db.v2
    && env.sdk.header(raw).id in At(env, Genesis(start), es, i + 1).db.v2
  }

  /** Event `i` adds the plaintext row of `raw`. */
  ghost predicate ArchivesAt(env: Env, start: int, es: seq<Event>, i: nat, raw: Bytes) {
    && SubmitsAt(es, i, raw)
    && env.sdk.header(raw).id !in At(env, Genesis(start), es, i).db.archive
    && env.sdk.header(raw).id in At(env, Genesis(start), es, i + 1).db.archive
  }

  /** Before its expiry a ledger entry survives every step unchanged. */
  lemma LedgerStep(env: Env, w: World, e: Event, id: Id)
    requires Allowed(w, e) && id in w.db.admissions && Unix(e.at) < w.db.admissions[id].expiry
    ensures id in Apply(env, w, e).db.admissions && Apply(env, w, e).db.admissions[id] == w.db.admissions[id]
  {
    hide CommitV1, CommitV2, CommitFrame, CommitEnroll, Enable, MarkV1, Revoke, SetArchiveDays, PurgeArchive, Delete, Purge, MarkV2, MarkFrames, ApplyProcess;
    match e.op {
      case StoreV2(s, seen) => CommitV2Effect(env.sdk, Lim(env, w), w.db, w.proc.archiveDays, s, seen, e.at);
      case StoreV1(_, payload, _, _) =>
      case _ =>
    }
  }

  /** The ledger entry of an envelope, once written, answers for it until the signed expiry. */
  lemma {:induction false} LedgerLastsUntilExpiry(env: Env, start: int, es: seq<Event>, i: nat, k: nat, id: Id)
    requires Run(env, start, es) && i <= k <= |es|
    requires id in At(env, Genesis(start), es, i).db.admissions
    requires Unix(At(env, Genesis(start), es, k).clock) < At(env, Genesis(start), es, i).db.admissions[id].expiry
    ensures id in At(env, Genesis(start), es, k).db.admissions
    ensures At(env, Genesis(start), es, k).db.admissions[id] == At(env, Genesis(start), es, i).db.admissions[id]
    decreases k
  {
    hide Apply, Allowed;
    if i < k {
      var prior := At(env, Genesis(start), es, k - 1);
      ClockNeverGoesBack(env, start, es, k - 1, k);
      ClockOfApply(env, prior, es[k - 1]);
      LedgerLastsUntilExpiry(env, start, es, i, k - 1, id);
      assert Allowed(prior, es[k - 1]);
      LedgerStep(env, prior, es[k - 1], id);
    }
  }

  /** An event that adds a row for `raw` found no trace of its ID and writes the ledger entry. */
  lemma CreationWritesLedger(env: Env, start: int, es: seq<Event>, i: nat, raw: Bytes)
    requires SubmitsAt(es, i, raw) && MatchesHeader(env.sdk, es[i].op.submission) && env.sdk.inspects(env.sdk.header(raw).policyHash)
    requires DeliversAt(env, start, es, i, raw) || ArchivesAt(env, start, es, i, raw)
    ensures var s := es[i].op.submission;
      && s.id !in At(env, Genesis(start), es, i).db.admissions
      && DeliversAt(env, start, es, i, raw)
      && s.id in At(env, Genesis(start), es, i + 1).db.admissions
      && At(env, Genesis(start), es, i + 1).db.admissions[s.id] == LedgerEntry(env.sdk, s)
  {
    var w := At(env, Genesis(start), es, i);
    var s := es[i].op.submission;
    CommitV2Effect(env.sdk, Lim(env, w), w.db, w.proc.archiveDays, s, es[i].op.seen, es[i].at);
    assert At(env, Genesis(start), es, i + 1) == Apply(env, w, es[i]);
    hide At, CommitV2;
  }

  /**
   A second delivery or plaintext row for the same bytes can only come from a commit that lands
   after the expiry signed in them.
   */
  lemma SecondCreationIsLate(env: Env, start: int, es: seq<Event>, i: nat, j: nat, raw: Bytes)
    requires Run(env, start, es) && ThroughGateway(env, es)
    requires env.sdk.inspects(env.sdk.header(raw).policyHash)
    requires i < j < |es|
    requires DeliversAt(env, start, es, i, raw) || ArchivesAt(env, start, es, i, raw)
    requires DeliversAt(env, start, es, j, raw) || ArchivesAt(env, start, es, j, raw)
    ensures !InTime(env, es, j, raw)
  {
    hide Apply, Allowed;
    if InTime(env, es, j, raw) {
      CreationWritesLedger(env, start, es, i, raw);
      CreationWritesLedger(env, start, es, j, raw);
      assert Allowed(At(env, Genesis(start), es, j), es[j]);
      ClockBefore(At(env, Genesis(start), es, j), es[j]);
      LedgerLastsUntilExpiry(env, start, es, i + 1, j, env.sdk.header(raw).id);
    }
  }

  lemma ClockBefore(w: World, e: Event)
    requires Allowed(w, e)
    ensures Unix(w.clock) <= Unix(e.at)
  {
  }

  /** Exactly once: if every commit of the envelope is in time, at most one event adds rows for it. */
  lemma AdmittedAtMostOnce(env: Env, start: int, es: seq<Event>, raw: Bytes)
    requires Run(env, start, es) && ThroughGateway(env, es)
    requires env.sdk.inspects(env.sdk.header(raw).policyHash)
    requires forall i: nat | SubmitsAt(es, i, raw) :: InTime(env, es, i, raw)
    ensures forall i: nat, j: nat | i < j < |es| && DeliversAt(env, start, es, i, raw) :: !DeliversAt(env, start, es, j, raw)
    ensures forall i: nat, j: nat | i < j < |es| && ArchivesAt(env, start, es, i, raw) :: !ArchivesAt(env, start, es, j, raw)
  {
    hide Run, At;
    forall i: nat, j: nat | i < j < |es| && DeliversAt(env, start, es, i, raw)
      ensures !DeliversAt(env, start, es, j, raw)
    {
      if DeliversAt(env, start, es, j, raw) {
        SecondCreationIsLate(env, start, es, i, j, raw);
      }
    }
    forall i: nat, j: nat | i < j < |es| && ArchivesAt(env, start, es, i, raw)
      ensures !ArchivesAt(env, start, es, j, raw)
    {
      if ArchivesAt(env, start, es, j, raw) {
        SecondCreationIsLate(env, start, es, i, j, raw);
      }
    }
  }

  ghost predicate CollisionFree(sdk: Sdk) {
    forall a: Bytes, b: Bytes :: sdk.envelopeHash(a) == sdk.envelopeHash(b) ==> a == b
  }

  /** The lookup that answers retries, in a state whose ledger knows the envelope. */
  lemma LookupAgreesWithLedger(sdk: Sdk, db: Tables, recipient: Urn, id: Id, envelope: Bytes)
    requires OneNamespace(sdk, db) && CollisionFree(sdk) && id in db.admissions
    ensures ExistingReceipt(sdk, db, recipient, id, envelope) ==
      if recipient == db.admissions[id].recipient && sdk.envelopeHash(envelope) == db.admissions[id].envelopeHash
      then Ok(Some(db.admissions[id].receipt)) else Err(Conflict)
  {
    if id in db.v2 {
      assert SameMessage(sdk, db.v2[id], db.admissions[id]);
    }
  }

  /**
   Until the signed expiry, in every state after the admission: a lookup for the same ID returns the first receipt for the
   same bytes and recipient and a conflict for anything else, and a repeated commit changes no table.
   */
  lemma RetryReturnsFirstReceipt(env: Env, start: int, es: seq<Event>, i: nat, k: nat, raw: Bytes, retry: Submission, seen: int, at: int)
    requires Run(env, start, es) && ThroughGateway(env, es) && CollisionFree(env.sdk)
    requires env.sdk.inspects(env.sdk.header(raw).policyHash)
    requires i < k <= |es| && DeliversAt(env, start, es, i, raw)
    requires Unix(At(env, Genesis(start), es, k).clock) < env.sdk.header(raw).expiry
    requires retry.id == env.sdk.header(raw).id
    ensures var db := At(env, Genesis(start), es, k).db;
      var same := retry.recipient == env.sdk.header(raw).recipient && retry.envelope == raw;
      var first := es[i].op.submission.receipt;
      var again := CommitV2(env.sdk, Lim(env, At(env, Genesis(start), es, k)), db, At(env, Genesis(start), es, k).proc.archiveDays, retry, seen, at);
      && ExistingReceipt(env.sdk, db, retry.recipient, retry.id, retry.envelope) == (if same then Ok(Some(first)) else Err(Conflict))
      && again.0 == db
      && (again.1.Ok? ==> same && again.1 == Ok(first))
  {
    hide Apply, Allowed, Run;
    var db := At(env, Genesis(start), es, k).db;
    CreationWritesLedger(env, start, es, i, raw);
    LedgerLastsUntilExpiry(env, start, es, i + 1, k, retry.id);
    NamespaceHolds(env, start, es, k);
    LookupAgreesWithLedger(env.sdk, db, retry.recipient, retry.id, retry.envelope);
    hide At, ExistingReceipt;
  }
}
