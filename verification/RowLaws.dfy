/**
 What each transaction does, said of the rows and fields it touches and in the units of the wire: bytes, seconds,
 nanoseconds. These laws hold the transaction functions to the tables, independently of one another.
 */
module RowLaws {
  import opened Prelude
  import opened MailboxModel

  // ---- Admission ----------------------------------------------------------

  /** A v1 message passes its checks exactly when it is well formed, open to storing, authentic, and not expired. */
  lemma V1CheckedIff(sdk: Sdk, lim: Limits, db: Tables, proc: Process, gates: Gates, recipient: Urn, payload: Bytes, expiry: int, seen: int)
    ensures var r := ScreenV1(sdk, lim, db, proc, gates, recipient, payload, expiry, seen);
      var message := sdk.decodeV1(payload);
      r.Ok? <==>
        && message.Some? && |message.value.id| <= 256 && |payload| <= 1024 * 1024
        && (proc.required ==> ManagedRoute(db, proc, recipient, message.value, seen, seen / 1_000_000_000))
        && gates.storeOpen && gates.forwardOpen && gates.verified && gates.authorized
        && (expiry == 0 || (expiry > 0 && seen / 1_000_000_000 < expiry))
  {
    hide ManagedRoute;
  }

  /** The expiry a v1 row gets: the requested one, capped by the ceiling, which also stands in for none. */
  lemma V1StoredExpiry(sdk: Sdk, lim: Limits, db: Tables, proc: Process, gates: Gates, recipient: Urn, payload: Bytes, expiry: int, seen: int)
    ensures var r := ScreenV1(sdk, lim, db, proc, gates, recipient, payload, expiry, seen);
      var ceiling := seen / 1_000_000_000 + lim.ttl;
      r.Ok? ==>
        && r.value <= ceiling
        && (expiry == 0 || ceiling < expiry ==> r.value == ceiling)
        && (0 < expiry <= ceiling ==> r.value == expiry)
  {
    hide ManagedRoute;
  }

  /** Each refusal of the v1 checks means what it says. */
  lemma V1RefusedBecause(sdk: Sdk, lim: Limits, db: Tables, proc: Process, gates: Gates, recipient: Urn, payload: Bytes, expiry: int, seen: int)
    ensures var r := ScreenV1(sdk, lim, db, proc, gates, recipient, payload, expiry, seen);
      && (r == Err(UpgradeRequired) ==> (
          proc.required && sdk.decodeV1(payload).Some?
          && !ManagedRoute(db, proc, recipient, sdk.decodeV1(payload).value, seen, seen / 1_000_000_000)))
      && (r == Err(StorageDisabled) ==> !gates.storeOpen)
      && (r == Err(RecipientBlocked) ==> !gates.forwardOpen)
      && (r == Err(Unauthorized) ==> !gates.verified || !gates.authorized)
  {
    hide ManagedRoute;
  }

  /** The unread, unexpired messages of a recipient, both protocol versions together. */
  function Unread(db: Tables, recipient: Urn, now: int): nat {
    |set id | id in db.v1 && db.v1[id].recipient == recipient && db.v1[id].readAt == 0 && (db.v1[id].expiry == 0 || now < db.v1[id].expiry)|
    + |set id | id in db.v2 && db.v2[id].recipient == recipient && db.v2[id].readAt == 0 && now < db.v2[id].expiry|
  }

  lemma UnreadIsPending(db: Tables, recipient: Urn, now: int)
    ensures PendingCount(db, recipient, now) == Unread(db, recipient, now)
  {
    assert PendingV1Ids(db, recipient, now) ==
      set id | id in db.v1 && db.v1[id].recipient == recipient && db.v1[id].readAt == 0 && (db.v1[id].expiry == 0 || now < db.v1[id].expiry);
    assert PendingV2Ids(db, recipient, now) ==
      set id | id in db.v2 && db.v2[id].recipient == recipient && db.v2[id].readAt == 0 && now < db.v2[id].expiry;
  }

  lemma AddedV1(db: Tables, id: Id, row: V1Row, now: int)
    requires id !in db.v1
    ensures var next := db.(v1 := db.v1[id := row]);
      Unread(next, row.recipient, now) ==
        Unread(db, row.recipient, now) + if row.readAt == 0 && (row.expiry == 0 || now < row.expiry) then 1 else 0
  {
    var next := db.(v1 := db.v1[id := row]);
    var before := set k | k in db.v1 && db.v1[k].recipient == row.recipient && db.v1[k].readAt == 0 && (db.v1[k].expiry == 0 || now < db.v1[k].expiry);
    var after := set k | k in next.v1 && next.v1[k].recipient == row.recipient && next.v1[k].readAt == 0 && (next.v1[k].expiry == 0 || now < next.v1[k].expiry);
    assert after == if row.readAt == 0 && (row.expiry == 0 || now < row.expiry) then before + {id} else before;
  }

  lemma AddedV2(db: Tables, id: Id, row: V2Row, now: int)
    requires id !in db.v2
    ensures var next := db.(v2 := db.v2[id := row]);
      Unread(next, row.recipient, now) == Unread(db, row.recipient, now) + if row.readAt == 0 && now < row.expiry then 1 else 0
  {
    var next := db.(v2 := db.v2[id := row]);
    var before := set k | k in db.v2 && db.v2[k].recipient == row.recipient && db.v2[k].readAt == 0 && now < db.v2[k].expiry;
    var after := set k | k in next.v2 && next.v2[k].recipient == row.recipient && next.v2[k].readAt == 0 && now < next.v2[k].expiry;
    assert after == if row.readAt == 0 && now < row.expiry then before + {id} else before;
  }

  /**
   A v1 insert succeeds exactly when the pinned policy admits it, the ID is unused and the message fits under the limit; it
   then adds one unread row holding the message. Only the exact message of a row succeeds under its ID again.
   */
  lemma V1InsertedIff(sdk: Sdk, lim: Limits, db: Tables, recipient: Urn, payload: Bytes, env: V1Envelope, expiry: int, storedAt: int, at: int)
    ensures var (next, r) := CommitV1(sdk, lim, db, recipient, payload, env, expiry, storedAt, at);
      var now := at / 1_000_000_000;
      var open := db.policy.Some? ==>
        now < db.policy.value.expiresAt && (db.policy.value.required ==> SqlManaged(db, db.policy.value.issuer, recipient, env, at));
      var unused := env.id !in db.v1 && env.id !in db.v2 && env.id !in db.admissions && env.id !in db.archive;
      var fits := lim.perUrn > 0 ==> Unread(db, recipient, now) + (if expiry == 0 || now < expiry then 1 else 0) <= lim.perUrn;
      && (r == Ok(Fresh) <==> open && unused && fits)
      && (r == Err(QueueFull) <==> open && unused && !fits)
      && (r == Err(UpgradeRequired) <==> !open)
      && (r == Ok(Duplicate) <==> (
          && open && env.id !in db.v2 && env.id !in db.admissions && env.id !in db.archive
          && env.id in db.v1 && db.v1[env.id].recipient == recipient && db.v1[env.id].payload == payload))
      && (r == Ok(Fresh) ==>
        next.v1 == db.v1[env.id := V1Row(recipient, payload, expiry, storedAt / 1_000_000_000, storedAt, 0)])
  {
    hide SqlManaged, PendingCount;
    var row := V1Row(recipient, payload, expiry, Unix(storedAt), storedAt, 0);
    UnreadIsPending(db.(v1 := db.v1[env.id := row]), recipient, Unix(at));
    if env.id !in db.v1 {
      AddedV1(db, env.id, row, Unix(at));
    }
    hide Unread;
  }

  /** A v2 message passes its checks exactly when it is complete, bounded, of the active policy, open to storing and timely. */
  lemma V2CheckedIff(lim: Limits, proc: Process, storeOpen: bool, forwardOpen: bool, s: Submission, seen: int)
    ensures var now := seen / 1_000_000_000;
      ScreenV2(lim, proc, storeOpen, forwardOpen, s, seen).None? <==>
        && (s.body.Some? ==>
            && s.body.value.id == s.id && s.body.value.recipient == s.recipient && s.body.value.policyHash == s.policyHash
            && s.body.value.expiry == s.expiry && s.body.value.sender != "" && s.body.value.epoch != 0 && s.body.value.agentJson
            && 1 <= |s.body.value.plaintext| <= 1024 * 1024)
        && 1 <= |s.id| <= 256 && |s.recipient| >= 1 && 1 <= |s.envelope| <= 1024 * 1024 && 1 <= |s.receipt| <= 8192
        && |s.policyHash| >= 1 && s.policyHash == proc.policyHash
        && storeOpen && forwardOpen
        && now < s.expiry <= now + lim.ttl
  {
  }

  /** What a v2 commit publishes, field by field, and exactly when it publishes anything. */
  lemma V2InsertedIff(sdk: Sdk, lim: Limits, db: Tables, days: int, s: Submission, seen: int, at: int)
    ensures var (next, r) := CommitV2(sdk, lim, db, days, s, seen, at);
      var open := db.policy.Some? && db.policy.value.hash == s.policyHash && at / 1_000_000_000 < db.policy.value.expiresAt;
      var unused := s.id !in db.v1 && s.id !in db.v2 && s.id !in db.admissions && s.id !in db.archive;
      var now := seen / 1_000_000_000;
      var fits := lim.perUrn > 0 ==> Unread(db, s.recipient, now) + (if now < s.expiry then 1 else 0) <= lim.perUrn;
      if open && unused && fits then
        && r == Ok(s.receipt)
        && next.v2 == db.v2[s.id := V2Row(s.recipient, s.envelope, s.receipt, s.policyHash, s.expiry, seen / 1_000_000_000, 0)]
        && next.admissions == (if s.body.Some?
            then db.admissions[s.id := Admission(s.recipient, sdk.envelopeHash(s.envelope), s.receipt, s.expiry)] else db.admissions)
        && next.archive == (if s.body.Some? && days > 0
            then db.archive[s.id := ArchiveRow(s.body.value.sender, s.recipient, seen / 1_000_000_000, s.expiry, s.policyHash,
                                               s.body.value.epoch, s.body.value.plaintext)] else db.archive)
      else next == db && (open && unused ==> r == Err(QueueFull))
  {
    hide PendingCount;
    var row := QueueEntry(s, seen);
    UnreadIsPending(db.(v2 := db.v2[s.id := row]), s.recipient, Unix(seen));
    if s.id !in db.v2 {
      AddedV2(db, s.id, row, Unix(seen));
    }
    hide Unread;
  }

  /** The retry lookup: the receipt of the very message under that ID, a conflict for any other, nothing for an unknown ID. */
  lemma LookupIff(sdk: Sdk, db: Tables, recipient: Urn, id: Id, envelope: Bytes)
    ensures var r := ExistingReceipt(sdk, db, recipient, id, envelope);
      && (r == Ok(None) <==> id !in db.v2 && id !in db.admissions)
      && (id in db.v2 && db.v2[id].recipient == recipient && db.v2[id].envelope == envelope ==> r == Ok(Some(db.v2[id].receipt)))
      && (id in db.v2 && (db.v2[id].recipient != recipient || db.v2[id].envelope != envelope) ==> r == Err(Conflict))
      && (id !in db.v2 && id in db.admissions ==>
          var same := db.admissions[id].recipient == recipient && db.admissions[id].envelopeHash == sdk.envelopeHash(envelope);
          r == if same then Ok(Some(db.admissions[id].receipt)) else Err(Conflict))
  {
  }

  /** A handshake frame passes its checks exactly when it is vetted, of the active policy, bounded, and expires within a day. */
  lemma FrameCheckedIff(proc: Process, id: Id, frame: Bytes, expiry: int, hash: string, vetted: bool, storeOpen: bool, forwardOpen: bool, at: int)
    ensures var now := at / 1_000_000_000;
      ScreenFrame(proc, id, frame, expiry, hash, vetted, storeOpen, forwardOpen, at).None? <==>
        && vetted && |hash| >= 1 && hash == proc.policyHash
        && 1 <= |id| <= 256 && 1 <= |frame| <= 8192 && now < expiry <= now + 86_400
        && storeOpen && forwardOpen
  {
  }

  function UnreadFrames(db: Tables, recipient: Urn, now: int): nat {
    |set k | k in db.frames && db.frames[k].recipient == recipient && db.frames[k].readAt == 0 && now < db.frames[k].expiry|
  }

  /** A frame commit adds one unread row, recognises the exact frame, or changes nothing. */
  lemma FrameInserted(db: Tables, recipient: Urn, id: Id, frame: Bytes, expiry: int, hash: string, at: int)
    ensures var (next, r) := CommitFrame(db, recipient, id, frame, expiry, hash, at);
      var open := db.policy.Some? && db.policy.value.hash == hash && at / 1_000_000_000 < db.policy.value.expiresAt;
      && (r.None? ==> open && id in next.frames && next.frames[id].recipient == recipient && next.frames[id].frame == frame)
      && (open && id !in db.frames && r != Some(QueueFull) ==>
            r.None? && next.frames == db.frames[id := FrameRow(recipient, frame, expiry, at / 1_000_000_000, 0)])
      && (r == Some(QueueFull) ==> id !in db.frames && next == db && UnreadFrames(db, recipient, at / 1_000_000_000) >= 100)
  {
    var added := db.(frames := db.frames[id := FrameRow(recipient, frame, expiry, Unix(at), 0)]);
    var before := set k | k in db.frames && db.frames[k].recipient == recipient && db.frames[k].readAt == 0 && Unix(at) < db.frames[k].expiry;
    if id !in db.frames {
      assert PendingFrameIds(added, recipient, Unix(at)) <= before + {id};
      SubsetCardinality(PendingFrameIds(added, recipient, Unix(at)), before + {id});
    }
    hide PendingFrameIds;
  }

  // ---- Acknowledgement ----------------------------------------------------

  /** An ACK of pairs turns exactly the recipient's own unread, unexpired rows with a listed stamp, and only their read mark. */
  lemma V1MarkedIff(v1: map<Id, V1Row>, recipient: Urn, pairs: set<(Id, int)>, at: int, id: Id)
    requires id in v1
    ensures var now := at / 1_000_000_000;
      var mine := v1[id].recipient == recipient && v1[id].readAt == 0 && (v1[id].expiry == 0 || now < v1[id].expiry) && (id, v1[id].storedAtNs) in pairs;
      && id in MarkV1(v1, recipient, pairs, at)
      && MarkV1(v1, recipient, pairs, at)[id] == (if mine then v1[id].(readAt := now) else v1[id])
      && (id in MarkedV1(v1, recipient, pairs, at) <==> mine)
  {
  }

  lemma V1MarksKeepRows(v1: map<Id, V1Row>, recipient: Urn, pairs: set<(Id, int)>, at: int)
    ensures MarkV1(v1, recipient, pairs, at).Keys == v1.Keys
  {
  }

  /** What a v1 ACK of `ids` may take: listed, the caller's, unread, unexpired, and under a strict policy managed. */
  lemma V1AckableIff(sdk: Sdk, db: Tables, proc: Process, recipient: Urn, ids: seq<Id>, at: int, id: Id)
    requires id in db.v1
    ensures (id, db.v1[id].storedAtNs) in Ackable(sdk, db, proc, recipient, ids, at) <==>
      && id in ids && db.v1[id].recipient == recipient && db.v1[id].readAt == 0
      && (db.v1[id].expiry == 0 || at / 1_000_000_000 < db.v1[id].expiry)
      && (proc.required ==>
          && sdk.decodeV1(db.v1[id].payload).Some?
          && ManagedRoute(db, proc, recipient, sdk.decodeV1(db.v1[id].payload).value, db.v1[id].storedAtNs, at / 1_000_000_000))
  {
    hide ManagedRoute;
  }

  /** `after` differs from `before` exactly in the read marks of the caller's own listed, unread, unexpired rows of the policy. */
  ghost predicate OnlyOwnV2Marked(before: map<Id, V2Row>, after: map<Id, V2Row>, recipient: Urn, hash: string, ids: set<Id>, at: int) {
    && after.Keys == before.Keys
    && forall id | id in before ::
      var row := before[id];
      var mine := id in ids && row.recipient == recipient && row.policyHash == hash && row.readAt == 0 && at / 1_000_000_000 < row.expiry;
      after[id] == if mine then row.(readAt := at / 1_000_000_000) else row
  }

  ghost predicate OnlyOwnFramesMarked(before: map<Id, FrameRow>, after: map<Id, FrameRow>, recipient: Urn, ids: set<Id>, at: int) {
    && after.Keys == before.Keys
    && forall id | id in before ::
      var row := before[id];
      var mine := id in ids && row.recipient == recipient && row.readAt == 0 && at / 1_000_000_000 < row.expiry;
      after[id] == if mine then row.(readAt := at / 1_000_000_000) else row
  }

  /** The rows that differ. */
  function Differing<R(==)>(before: map<Id, R>, after: map<Id, R>): set<Id> {
    set id | id in before && (id !in after || after[id] != before[id])
  }

  lemma V2AckChanges(db: Tables, proc: Process, recipient: Urn, ids: set<Id>, at: int)
    ensures OnlyOwnV2Marked(db.v2, MarkV2(db, proc, recipient, ids, at).v2, recipient, proc.policyHash, ids, at)
    ensures Unix(at) > 0 ==>
      |MarkedV2(db.v2, recipient, proc.policyHash, ids, Unix(at))| == |Differing(db.v2, MarkV2(db, proc, recipient, ids, at).v2)|
  {
    if Unix(at) > 0 {
      assert MarkedV2(db.v2, recipient, proc.policyHash, ids, Unix(at)) == Differing(db.v2, MarkV2(db, proc, recipient, ids, at).v2);
    }
  }

  lemma FrameAckChanges(db: Tables, recipient: Urn, ids: set<Id>, at: int)
    ensures OnlyOwnFramesMarked(db.frames, MarkFrames(db, recipient, ids, at).frames, recipient, ids, at)
    ensures Unix(at) > 0 ==>
      |PendingFrameIds(db, recipient, Unix(at)) * ids| == |Differing(db.frames, MarkFrames(db, recipient, ids, at).frames)|
  {
    if Unix(at) > 0 {
      assert PendingFrameIds(db, recipient, Unix(at)) * ids == Differing(db.frames, MarkFrames(db, recipient, ids, at).frames);
    }
  }

  // ---- Authority ----------------------------------------------------------

  /** Exactly which policies are accepted, and that an accepted one is both pinned and followed as given. */
  lemma PolicyAcceptedIff(db: Tables, proc: Process, p: Policy, at: int)
    ensures var r := Enable(db, proc, p, at);
      && (r.Some? <==>
          && p.epoch >= 1 && |p.hash| == 64 && at / 1_000_000_000 < p.expiresAt
          && (db.policy.Some? ==> db.policy.value.epoch < p.epoch || (db.policy.value.epoch == p.epoch && db.policy.value.hash == p.hash)))
      && (r.Some? ==>
          var (next, after) := r.value;
          && next.policy == Some(p)
          && after.required == p.required && after.policyHash == p.hash && after.policyExpiry == p.expiresAt && after.issuer == p.issuer
          && after.historyDays == proc.historyDays && after.archiveDays == proc.archiveDays && after.archiveUsed == proc.archiveUsed)
  {
  }

  /** After a restart the pinned policy itself is accepted again for as long as it is valid. */
  lemma PinnedIsAcceptedAgain(db: Tables, p: Policy, first: int, db0: Tables, proc0: Process, at: int)
    requires Enable(db0, proc0, p, first).Some? && db.policy == Some(p)
    ensures Enable(db, Restarted(db), p, at).Some? <==> at / 1_000_000_000 < p.expiresAt
  {
  }

  /** A start remembers of the policy only whether it is strict, and begins with thirty days for history and archive. */
  lemma StartRemembers(db: Tables)
    ensures var proc := Restarted(db);
      && (proc.required <==> db.policy.Some? && db.policy.value.required)
      && proc.policyHash == "" && proc.policyExpiry == 0 && proc.issuer == []
      && proc.historyDays == 30 && proc.archiveDays == 30 && !proc.archiveUsed
  {
  }

  /** The checks of an enrolment, and what a successful one stores: the certificate, unrevoked, under its issuer. */
  lemma EnrolledIff(db: Tables, proc: Process, cert: Certificate, certSize: nat, verified: bool, hash: string, issuer: Bytes, at: int)
    ensures ScreenEnroll(proc, cert, certSize, verified, issuer).None? <==>
      verified && |cert.serial| <= 128 && certSize <= 8192 && |issuer| == 32 && issuer == proc.issuer
    ensures var (next, r) := CommitEnroll(db, cert, hash, issuer, at);
      && (r.None? <==>
          && db.policy.Some? && db.policy.value.hash == hash && at / 1_000_000_000 < db.policy.value.expiresAt
          && cert.serial !in db.revocations
          && (cert.urn in db.managed ==> db.managed[cert.urn].key == cert.key)
          && (forall u | u in db.managed && u != cert.urn :: db.managed[u].serial != cert.serial))
      && (r.None? ==>
          && next.managed.Keys == db.managed.Keys + {cert.urn}
          && (forall u | u in db.managed && u != cert.urn :: next.managed[u] == db.managed[u])
          && var g := next.managed[cert.urn];
             && g.key == cert.key && g.issuer == issuer && g.serial == cert.serial
             && g.notBefore == cert.notBefore && g.expiresAt == cert.expiresAt && !g.revoked)
  {
  }

  /** The enrolment instant: kept by a renewal of a live enrolment from the same issuer, new otherwise. */
  lemma EnrolmentInstant(db: Tables, cert: Certificate, hash: string, issuer: Bytes, at: int)
    requires CommitEnroll(db, cert, hash, issuer, at).1.None?
    ensures var since := CommitEnroll(db, cert, hash, issuer, at).0.managed[cert.urn].enrolledAtNs;
      if cert.urn in db.managed && !db.managed[cert.urn].revoked && at / 1_000_000_000 < db.managed[cert.urn].expiresAt
         && db.managed[cert.urn].issuer == issuer && db.managed[cert.urn].enrolledAtNs > 0
      then since == db.managed[cert.urn].enrolledAtNs else since == at
  {
  }

  /** A revocation records the serial at its first instant and revokes whoever carries it, nobody else. */
  lemma RevokedIff(db: Tables, serial: string, at: int)
    ensures var next := Revoke(db, serial, at);
      && next.revocations.Keys == db.revocations.Keys + {serial}
      && (forall x | x in db.revocations :: next.revocations[x] == db.revocations[x])
      && (serial !in db.revocations ==> next.revocations[serial] == at / 1_000_000_000)
      && next.managed.Keys == db.managed.Keys
      && (forall u | u in db.managed ::
          next.managed[u] == db.managed[u].(revoked := db.managed[u].revoked || db.managed[u].serial == serial))
  {
  }

  /**
   The managed rule in plain terms: an unrevoked identity of this issuer under a running policy, asked with its key if with
   any, for a row stamped since its enrolment and within its certificate, while the certificate runs.
   */
  lemma ManagedIff(db: Tables, issuer: Bytes, policyExpiry: int, urn: Urn, key: Option<Bytes>, ns: int, now: int)
    requires urn in db.managed ==>
      && MIN_INT64 <= db.managed[urn].notBefore * 1_000_000_000 < 0x8000_0000_0000_0000
      && MIN_INT64 <= db.managed[urn].expiresAt * 1_000_000_000 < 0x8000_0000_0000_0000
    ensures IsManagedAt(db, issuer, policyExpiry, urn, key, ns, now) <==>
      && |issuer| == 32 && now < policyExpiry && urn in db.managed
      && var g := db.managed[urn];
         && g.issuer == issuer && !g.revoked && (key == None || key == Some(g.key))
         && ns != 0 && g.enrolledAtNs <= ns && g.notBefore * 1_000_000_000 <= ns < g.expiresAt * 1_000_000_000 && now < g.expiresAt
  {
  }

  /** Either end of a v1 message may carry the managed exception: the recipient, or the sender under the key in the message. */
  lemma RouteIff(db: Tables, proc: Process, recipient: Urn, env: V1Envelope, ns: int, now: int)
    ensures ManagedRoute(db, proc, recipient, env, ns, now) <==>
      || IsManagedAt(db, proc.issuer, proc.policyExpiry, recipient, None, ns, now)
      || IsManagedAt(db, proc.issuer, proc.policyExpiry, env.senderUrn, env.senderKey, ns, now)
  {
    hide IsManagedAt;
  }

  // ---- Deletion and retention ---------------------------------------------

  /** An admin delete removes the recipient's message under the ID and nothing else. */
  lemma DeletedIff(db: Tables, recipient: Urn, id: Id, k: Id)
    ensures var next := Delete(db, recipient, id);
      && (k in next.v1 <==> k in db.v1 && !(k == id && db.v1[k].recipient == recipient))
      && (k in next.v2 <==> k in db.v2 && !(k == id && db.v2[k].recipient == recipient))
      && (k in next.v1 ==> next.v1[k] == db.v1[k]) && (k in next.v2 ==> next.v2[k] == db.v2[k])
  {
  }

  /** After a purge the recipient keeps no message and no frame, and everyone else keeps all of theirs. */
  lemma PurgedIff(db: Tables, recipient: Urn, k: Id)
    ensures var next := Purge(db, recipient);
      && (k in next.v1 <==> k in db.v1 && db.v1[k].recipient != recipient)
      && (k in next.v2 <==> k in db.v2 && db.v2[k].recipient != recipient)
      && (k in next.frames <==> k in db.frames && db.frames[k].recipient != recipient)
      && (k in next.v1 ==> next.v1[k] == db.v1[k]) && (k in next.v2 ==> next.v2[k] == db.v2[k])
      && (k in next.frames ==> next.frames[k] == db.frames[k])
  {
  }

  const ALL: set<Stage> := {ExpiredV1, ExpiredV2, ExpiredFrames, ExpiredAdmissions, HistoryV1, HistoryV2, HistoryFrames, OldArchive}

  /** What a cleanup without failures keeps of the queues: what is not expired, and of what was read only the retained history. */
  lemma CleanedIff(db: Tables, historyDays: int, archiveDays: int, now: int, k: Id)
    ensures var next := Cleanup(db, historyDays, archiveDays, ALL, now);
      && (k in next.v1 <==>
          k in db.v1 && (db.v1[k].expiry <= 0 || now < db.v1[k].expiry)
          && (historyDays < 0 || db.v1[k].readAt <= 0 || now - historyDays * 86_400 < db.v1[k].readAt))
      && (k in next.v2 <==>
          k in db.v2 && now < db.v2[k].expiry
          && (historyDays < 0 || db.v2[k].readAt <= 0 || now - historyDays * 86_400 < db.v2[k].readAt))
      && (k in next.frames <==>
          k in db.frames && now < db.frames[k].expiry
          && (historyDays < 0 || db.frames[k].readAt <= 0 || now - historyDays * 86_400 < db.frames[k].readAt))
  {
    hide PurgeArchive, UnexpiredAdmissions;
  }

  /** Under `k`, `next` keeps every row that is unread and unexpired at `now`, and changes none it keeps. */
  predicate KeepsUnread(db: Tables, next: Tables, now: int, k: Id) {
    && (k in next.v1 ==> k in db.v1 && next.v1[k] == db.v1[k])
    && (k in next.v2 ==> k in db.v2 && next.v2[k] == db.v2[k])
    && (k in next.frames ==> k in db.frames && next.frames[k] == db.frames[k])
    && (k in db.v1 && db.v1[k].readAt == 0 && (db.v1[k].expiry == 0 || now < db.v1[k].expiry) ==> k in next.v1)
    && (k in db.v2 && db.v2[k].readAt == 0 && now < db.v2[k].expiry ==> k in next.v2)
    && (k in db.frames && db.frames[k].readAt == 0 && now < db.frames[k].expiry ==> k in next.frames)
  }

  lemma ExpiryKeepsUnread(db: Tables, done: set<Stage>, now: int, k: Id)
    ensures KeepsUnread(db, DropExpired(db, done, now), now, k)
  {
    hide UnexpiredAdmissions;
  }

  lemma HistoryKeepsUnread(db: Tables, done: set<Stage>, cutoff: int, now: int, k: Id)
    ensures KeepsUnread(db, DropHistory(db, done, cutoff), now, k)
  {
  }

  lemma SameQueuesKeepUnread(db: Tables, next: Tables, last: Tables, now: int, k: Id)
    requires KeepsUnread(db, next, now, k) && last.v1 == next.v1 && last.v2 == next.v2 && last.frames == next.frames
    ensures KeepsUnread(db, last, now, k)
  {
  }

  lemma KeepsUnreadTwice(a: Tables, b: Tables, c: Tables, now: int, k: Id)
    requires KeepsUnread(a, b, now, k) && KeepsUnread(b, c, now, k)
    ensures KeepsUnread(a, c, now, k)
  {
  }

  /** Whichever statements of a cleanup succeed. */
  lemma CleanupKeeps(db: Tables, historyDays: int, archiveDays: int, done: set<Stage>, now: int, k: Id)
    ensures KeepsUnread(db, Cleanup(db, historyDays, archiveDays, done, now), now, k)
  {
    hide KeepsUnread, DropExpired, DropHistory, PurgeArchive;
    var expired := DropExpired(db, done, now);
    ExpiryKeepsUnread(db, done, now, k);
    var aged := expired;
    if historyDays >= 0 {
      aged := DropHistory(expired, done, now - historyDays * DAY);
      HistoryKeepsUnread(expired, done, now - historyDays * DAY, now, k);
      KeepsUnreadTwice(db, expired, aged, now, k);
    }
    SameQueuesKeepUnread(db, aged, Cleanup(db, historyDays, archiveDays, done, now), now, k);
  }

  /** And of the ledger and the archive. */
  lemma CleanedRecordsIff(db: Tables, historyDays: int, archiveDays: int, now: int, k: Id)
    ensures var next := Cleanup(db, historyDays, archiveDays, ALL, now);
      && (k in next.admissions <==> k in db.admissions && now < db.admissions[k].expiry)
      && (k in next.archive <==> k in db.archive && archiveDays != 0 && now - archiveDays * 86_400 < db.archive[k].storedAt)
  {
    hide DropExpired, DropHistory;
  }

  /** A detail read shows a stored plaintext for the retention days, of 86,400 seconds each, counted from its admission. */
  lemma ShownIff(archive: map<Id, ArchiveRow>, days: int, id: Id, now: int)
    ensures Visible(archive, days, id, now) <==> id in archive && days != 0 && now - archive[id].storedAt < days * 86_400
  {
  }

  /** A retention setting: what it refuses, and what it keeps. */
  lemma RetainedIff(db: Tables, proc: Process, days: int, deletes: bool, now: int, k: Id)
    ensures var (next, after, ok) := SetArchiveDays(db, proc, days, deletes, now);
      && (ok <==> 0 <= days <= 36500 && deletes)
      && (ok ==> after.archiveDays == days && after.archiveUsed)
      && (ok ==>
          var purge := if proc.archiveUsed && proc.archiveDays < days then proc.archiveDays else days;
          && (k in next.archive <==> k in db.archive && purge != 0 && now - purge * 86_400 < db.archive[k].storedAt)
          && (k in next.archive ==> next.archive[k] == db.archive[k]))
  {
  }
}
