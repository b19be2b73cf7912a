/** Where a v1 row comes from: the event that stored it fixes its contents for as long as it exists. */
module RowHistory {
  import opened Prelude
  import opened MailboxModel
  import opened Runs
  import opened Enrolment

  /** `row` is what the store event `op` wrote, read mark aside. */
  predicate WrittenBy(op: Op, row: V1Row) {
    op.StoreV1? && row.(readAt := 0) == V1Row(op.recipient, op.payload, op.expiry, Unix(op.storedAt), op.storedAt, 0)
  }

  lemma V1CommitWrites(sdk: Sdk, lim: Limits, db: Tables, recipient: Urn, payload: Bytes, env: V1Envelope, expiry: int, storedAt: int, at: int, id: Id)
    ensures var next := CommitV1(sdk, lim, db, recipient, payload, env, expiry, storedAt, at).0.v1;
      id in next ==>
        || (id in db.v1 && next[id] == db.v1[id])
        || (id !in db.v1 && id == env.id && next[id] == V1Row(recipient, payload, expiry, Unix(storedAt), storedAt, 0))
  {
    hide PendingCount, SqlManaged;
  }

  /** A row in the next state is the old row, possibly marked read, or was just written. */
  lemma RowStep(env: Env, w: World, e: Event, id: Id)
    requires id in Apply(env, w, e).db.v1
    ensures var row := Apply(env, w, e).db.v1[id];
      if id in w.db.v1 then row.(readAt := 0) == w.db.v1[id].(readAt := 0) else WrittenBy(e.op, row)
  {
    hide CommitV1, CommitV2, CommitFrame, ApplyProcess, Ages;
    match e.op {
      case StoreV1(recipient, payload, expiry, storedAt) =>
        if env.sdk.decodeV1(payload).Some? {
          V1CommitWrites(env.sdk, Lim(env, w), w.db, recipient, payload, env.sdk.decodeV1(payload).value, expiry, storedAt, e.at, id);
        }
      case StoreV2(_, _) =>
      case StoreFrame(_, _, _, _, _) =>
      case _ =>
        hide ApplyTables;
        OnlyStoresAddRows(env, w, e);
        AgeingKeepsContents(w.db, Apply(env, w, e).db, id);
    }
  }

  lemma AgeingKeepsContents(db: Tables, next: Tables, id: Id)
    requires Ages(db, next) && id in next.v1
    ensures id in db.v1 && next.v1[id].(readAt := 0) == db.v1[id].(readAt := 0)
  {
  }

  /** Every row has an origin: an event that stored it when the ID was free, and it has been there since. */
  lemma {:induction false} Origin(env: Env, start: int, es: seq<Event>, n: nat, id: Id) returns (o: nat)
    requires Run(env, start, es) && n <= |es| && id in At(env, Genesis(start), es, n).db.v1
    ensures o < n && WrittenBy(es[o].op, At(env, Genesis(start), es, n).db.v1[id])
    ensures id !in At(env, Genesis(start), es, o).db.v1
    ensures forall j: nat | o < j <= n :: id in At(env, Genesis(start), es, j).db.v1
    decreases n
  {
    hide Apply, Allowed, At, Run;
    AtBegins(env, Genesis(start), es);
    AtUnfolds(env, Genesis(start), es, n - 1);
    var prior := At(env, Genesis(start), es, n - 1);
    RowStep(env, prior, es[n - 1], id);
    if id in prior.db.v1 {
      o := Origin(env, start, es, n - 1, id);
    } else {
      o := n - 1;
    }
  }

  // ---- Acknowledgement racing with deletes and stores ---------------------

  /** One batch query of a strict ACK, made in state `state`. */
  datatype Inspection = Inspection(state: nat, at: int, batch: seq<Id>)

  ghost predicate Inspected(env: Env, start: int, es: seq<Event>, n: nat, recipient: Urn, looks: seq<Inspection>, pair: (Id, int), k: nat)
    requires n <= |es|
  {
    && k < |looks| && looks[k].state <= n
    && var w := At(env, Genesis(start), es, looks[k].state);
       w.proc.required && pair in Ackable(env.sdk, w.db, w.proc, recipient, looks[k].batch, looks[k].at)
  }

  /** Distinct stores carry distinct nanosecond stamps. */
  ghost predicate DistinctStamps(es: seq<Event>) {
    forall i, j | 0 <= i < j < |es| && es[i].op.StoreV1? && es[j].op.StoreV1? :: es[i].op.storedAt != es[j].op.storedAt
  }

  lemma SameStampSameRow(env: Env, start: int, es: seq<Event>, i: nat, n: nat, id: Id)
    requires Run(env, start, es) && DistinctStamps(es) && i <= |es| && n <= |es|
    requires id in At(env, Genesis(start), es, i).db.v1 && id in At(env, Genesis(start), es, n).db.v1
    requires At(env, Genesis(start), es, i).db.v1[id].storedAtNs == At(env, Genesis(start), es, n).db.v1[id].storedAtNs
    ensures At(env, Genesis(start), es, i).db.v1[id].(readAt := 0) == At(env, Genesis(start), es, n).db.v1[id].(readAt := 0)
  {
    hide Apply, Allowed, At, Run;
    var o := Origin(env, start, es, i, id);
    var p := Origin(env, start, es, n, id);
    assert o == p;
  }

  /**
   Every row the final update of a strict ACK flips is, contents and all, a row that one of its batches inspected and found
   deliverable, however stores, deletes and other ACKs interleave with the batches.
   */
  lemma AckFlipsOnlyInspectedRows(env: Env, start: int, es: seq<Event>, n: nat, recipient: Urn, looks: seq<Inspection>, pairs: set<(Id, int)>, id: Id) returns (k: nat)
    requires Run(env, start, es) && DistinctStamps(es) && n < |es|
    requires es[n].op == AckV1(recipient, pairs)
    requires forall pair | pair in pairs :: exists k: nat :: Inspected(env, start, es, n, recipient, looks, pair, k)
    requires id in MarkedV1(At(env, Genesis(start), es, n).db.v1, recipient, pairs, es[n].at)
    ensures k < |looks| && looks[k].state <= n && id in looks[k].batch
    ensures var before := At(env, Genesis(start), es, looks[k].state);
      && id in before.db.v1 && before.db.v1[id] == At(env, Genesis(start), es, n).db.v1[id]
      && Deliverable(env.sdk, before.db, before.proc, before.db.v1[id], recipient, looks[k].at)
  {
    hide Apply, Allowed, At, Run;
    var row := At(env, Genesis(start), es, n).db.v1[id];
    k :| Inspected(env, start, es, n, recipient, looks, (id, row.storedAtNs), k);
    SameStampSameRow(env, start, es, looks[k].state, n, id);
  }

  // ---- Authorisation of what is delivered ---------------------------------

  /**
   A v1 row delivered under a strict policy was stored while its recipient, or its sender under the key in the message, was
   already enrolled, and that enrolment has been live without a gap from its own event until now; the row's stamp and the
   delivery lie within the certificate of the holder's last enrolment. The enrolment comes before
   the store; only when both happen at the very nanosecond of the row's stamp does the clock not tell which came first.
   */
  lemma DeliveredRowsWereAuthorised(env: Env, start: int, es: seq<Event>, id: Id, recipient: Urn, now: int) returns (o: nat, e: nat, c: nat, urn: Urn)
    requires Run(env, start, es)
    requires var w := At(env, Genesis(start), es, |es|);
      && w.clock <= now && w.proc.required
      && id in w.db.v1 && Deliverable(env.sdk, w.db, w.proc, w.db.v1[id], recipient, now)
    ensures var w := At(env, Genesis(start), es, |es|);
      var row := w.db.v1[id];
      var sender := env.sdk.decodeV1(row.payload).value;
      && o < |es| && WrittenBy(es[o].op, row)
      && (forall j: nat | o < j <= |es| :: id in At(env, Genesis(start), es, j).db.v1)
      && EnrolledBy(env, start, es, |es|, urn, e)
      && w.db.managed[urn].issuer == w.proc.issuer
      && CertifiedBy(env, start, es, |es|, urn, c)
      && (if urn == recipient then WithinCertificate(es[c].op.cert, None, row.storedAtNs, now)
          else urn == sender.senderUrn && WithinCertificate(es[c].op.cert, sender.senderKey, row.storedAtNs, now))
      && (e < o || es[e].at == es[o].at == row.storedAtNs)
  {
    hide Apply, At, EnrolledBy, CertifiedBy, Run, Fits;
    var w := At(env, Genesis(start), es, |es|);
    var row := w.db.v1[id];
    var sender := env.sdk.decodeV1(row.payload).value;
    o := Origin(env, start, es, |es|, id);
    var byRecipient := IsManagedAt(w.db, w.proc.issuer, w.proc.policyExpiry, recipient, None, row.storedAtNs, Unix(now));
    urn := if byRecipient then recipient else sender.senderUrn;
    e, c := NoRetroactiveAuthorisation(env, start, es, |es|, urn, if byRecipient then None else sender.senderKey, row.storedAtNs, w.proc.policyExpiry, now);
    OriginInstant(env, start, es, |es|, urn, e);
    CertificateFields(env, start, es, |es|, urn, c);
    RunAllows(env, start, es, o);
    if o < e {
      EventsAreOrdered(env, start, es, o, e);
    }
  }

  lemma EventsAreOrdered(env: Env, start: int, es: seq<Event>, i: nat, j: nat)
    requires Run(env, start, es) && i < j < |es|
    ensures es[i].at <= es[j].at
  {
    hide Apply, At, Run;
    AtUnfolds(env, Genesis(start), es, i);
    ClockOfApply(env, At(env, Genesis(start), es, i), es[i]);
    ClockNeverGoesBack(env, start, es, i + 1, j);
    RunAllows(env, start, es, j);
  }
}
