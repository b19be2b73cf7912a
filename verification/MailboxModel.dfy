/**
 The mailbox database as a value, and every transaction on it as a function from tables to tables.
 A transaction is all-or-nothing: a refusal returns the tables it was given.
 Clock readings are arguments in nanoseconds. `seen` is a reading taken before the transaction
 opens, `at` one taken inside it; the source takes both, and they may differ.
 */
module MailboxModel {
  import opened Prelude
  import opened Ordering

  type Id = string
  type Urn = string

  const MAX_ENVELOPE := 0x10_0000
  const MAX_RETRIEVE := 0x40_0000
  const MAX_BATCH := 500
  const MAX_ACK := 1000
  const MAX_FRAMES := 100
  const MAX_SMALL := 8192
  const ISSUER_SIZE := 32

  /** What the v1 wire format reveals about a stored payload. */
  datatype V1Envelope = V1Envelope(id: Id, senderUrn: Urn, senderKey: Option<Bytes>)

  /** The signed header of a v2 envelope. */
  datatype Header = Header(id: Id, sender: Urn, recipient: Urn, expiry: int, policyHash: string)

  /** Library calls whose code is elsewhere. Every theorem holds for every choice of them. */
  datatype Sdk = Sdk(
    decodeV1: Bytes -> Option<V1Envelope>,
    header: Bytes -> Header,
    envelopeHash: Bytes -> string,
    inspects: string -> bool)

  datatype V1Row = V1Row(recipient: Urn, payload: Bytes, expiry: int, storedAt: int, storedAtNs: int, readAt: int)
  datatype V2Row = V2Row(recipient: Urn, envelope: Bytes, receipt: Bytes, policyHash: string, expiry: int, storedAt: int, readAt: int)
  datatype FrameRow = FrameRow(recipient: Urn, frame: Bytes, expiry: int, storedAt: int, readAt: int)
  datatype Policy = Policy(epoch: nat, hash: string, expiresAt: int, required: bool, issuer: Bytes)
  datatype Identity = Identity(key: Bytes, issuer: Bytes, serial: string, notBefore: int, expiresAt: int, enrolledAtNs: int, revoked: bool)
  datatype Admission = Admission(recipient: Urn, envelopeHash: string, receipt: Bytes, expiry: int)
  datatype ArchiveRow = ArchiveRow(sender: Urn, recipient: Urn, storedAt: int, expiry: int, policyHash: string, epoch: nat, plaintext: Bytes)

  datatype Tables = Tables(
    v1: map<Id, V1Row>,
    v2: map<Id, V2Row>,
    frames: map<Id, FrameRow>,
    policy: Option<Policy>,
    managed: map<Urn, Identity>,
    revocations: map<string, int>,
    admissions: map<Id, Admission>,
    archive: map<Id, ArchiveRow>)

  /** Frame of the message transactions. */
  predicate SameAuthority(db: Tables, next: Tables) {
    next.policy == db.policy && next.managed == db.managed && next.revocations == db.revocations
  }

  /** Frame of the policy and identity transactions. */
  predicate SameMail(db: Tables, next: Tables) {
    && next.v1 == db.v1 && next.v2 == db.v2 && next.frames == db.frames
    && next.admissions == db.admissions && next.archive == db.archive
  }

  /** The part of the store that a restart forgets. */
  datatype Process = Process(
    required: bool,
    policyHash: string,
    policyExpiry: int,
    issuer: Bytes,
    historyDays: int,
    archiveDays: int,
    archiveUsed: bool)

  datatype Limits = Limits(ttl: int, perUrn: int)

  /** `boots` counts the starts so far, each of which brings its own limits. */
  datatype World = World(db: Tables, proc: Process, clock: int, boots: nat)

  datatype Refusal =
    | Invalid | UpgradeRequired | PolicyMismatch | StorageDisabled | RecipientBlocked
    | Unauthorized | Conflict | QueueFull | DatabaseError

  // ---- Managed identities -------------------------------------------------

  /** loadManagedGrant. */
  function LoadGrant(db: Tables, issuer: Bytes, urn: Urn): Option<Identity> {
    if |issuer| == ISSUER_SIZE && urn in db.managed && db.managed[urn].issuer == issuer
    then Some(db.managed[urn]) else None
  }

  /** managedGrant.permits, with the int64 products it computes. */
  predicate Permits(grant: Option<Identity>, key: Option<Bytes>, storedAtNs: int, policyExpiry: int, now: int) {
    && grant.Some?
    && !grant.value.revoked && now < policyExpiry
    && storedAtNs != 0
    && storedAtNs >= Wrap64(grant.value.notBefore * NANOS)
    && storedAtNs >= grant.value.enrolledAtNs
    && storedAtNs < Wrap64(grant.value.expiresAt * NANOS)
    && now < grant.value.expiresAt
    && (key.None? || key.value == grant.value.key)
  }

  /** isManagedAtIssuer. */
  predicate IsManagedAt(db: Tables, issuer: Bytes, policyExpiry: int, urn: Urn, key: Option<Bytes>, storedAtNs: int, now: int) {
    && |issuer| == ISSUER_SIZE
    && now < policyExpiry
    && Permits(LoadGrant(db, issuer, urn), key, storedAtNs, policyExpiry, now)
  }

  /** Recipient first, then sender: the rule shared by retrieval, ACK and notification. */
  predicate ManagedRoute(db: Tables, proc: Process, recipient: Urn, env: V1Envelope, storedAtNs: int, now: int) {
    || IsManagedAt(db, proc.issuer, proc.policyExpiry, recipient, None, storedAtNs, now)
    || IsManagedAt(db, proc.issuer, proc.policyExpiry, env.senderUrn, env.senderKey, storedAtNs, now)
  }

  /** One identity row as the COUNT query inside the v1 insert transaction judges it. */
  predicate SqlValid(identity: Identity, issuer: Bytes, at: int) {
    && identity.issuer == issuer && !identity.revoked
    && identity.notBefore <= Unix(at) && identity.enrolledAtNs <= at && identity.expiresAt > Unix(at)
  }

  predicate SqlManaged(db: Tables, issuer: Bytes, recipient: Urn, env: V1Envelope, at: int) {
    || (env.senderUrn in db.managed && SqlValid(db.managed[env.senderUrn], issuer, at)
        && env.senderKey == Some(db.managed[env.senderUrn].key))
    || (recipient in db.managed && SqlValid(db.managed[recipient], issuer, at))
  }

  // ---- Reads --------------------------------------------------------------

  predicate PendingV1(row: V1Row, recipient: Urn, now: int) {
    row.recipient == recipient && row.readAt == 0 && (row.expiry == 0 || row.expiry > now)
  }

  predicate PendingV2(row: V2Row, recipient: Urn, now: int) {
    row.recipient == recipient && row.readAt == 0 && row.expiry > now
  }

  predicate PendingFrame(row: FrameRow, recipient: Urn, now: int) {
    row.recipient == recipient && row.readAt == 0 && row.expiry > now
  }

  /** A pending v1 row that the current policy lets its recipient see. */
  predicate Deliverable(sdk: Sdk, db: Tables, proc: Process, row: V1Row, recipient: Urn, at: int) {
    && PendingV1(row, recipient, Unix(at))
    && sdk.decodeV1(row.payload).Some?
    && (proc.required ==> ManagedRoute(db, proc, recipient, sdk.decodeV1(row.payload).value, row.storedAtNs, Unix(at)))
  }

  function PendingKeys(v1: map<Id, V1Row>, recipient: Urn, now: int): set<Key> {
    set id | id in v1 && PendingV1(v1[id], recipient, now) :: Key(v1[id].storedAt, id)
  }

  function DeliverableKeys(sdk: Sdk, db: Tables, proc: Process, recipient: Urn, at: int): set<Key> {
    set id | id in db.v1 && Deliverable(sdk, db, proc, db.v1[id], recipient, at) :: Key(db.v1[id].storedAt, id)
  }

  /** Everything retrieval may hand to `recipient`, oldest first. */
  function Inbox(sdk: Sdk, db: Tables, proc: Process, recipient: Urn, at: int): seq<Key> {
    Sorted(DeliverableKeys(sdk, db, proc, recipient, at))
  }

  predicate VisibleV2(row: V2Row, recipient: Urn, hash: string, now: int) {
    PendingV2(row, recipient, now) && row.policyHash == hash
  }

  function InboxV2(db: Tables, proc: Process, recipient: Urn, now: int): seq<Key> {
    Sorted(set id | id in db.v2 && VisibleV2(db.v2[id], recipient, proc.policyHash, now) :: Key(db.v2[id].storedAt, id))
  }

  function FrameBox(db: Tables, recipient: Urn, now: int): seq<Key> {
    Sorted(set id | id in db.frames && PendingFrame(db.frames[id], recipient, now) :: Key(db.frames[id].storedAt, id))
  }

  /** The archive row a detail read may return. */
  predicate Visible(archive: map<Id, ArchiveRow>, days: int, id: Id, now: int) {
    days != 0 && id in archive && archive[id].storedAt > now - days * DAY
  }

  function PendingV1Ids(db: Tables, recipient: Urn, now: int): set<Id> {
    set id | id in db.v1 && PendingV1(db.v1[id], recipient, now)
  }

  function PendingV2Ids(db: Tables, recipient: Urn, now: int): set<Id> {
    set id | id in db.v2 && PendingV2(db.v2[id], recipient, now)
  }

  function PendingFrameIds(db: Tables, recipient: Urn, now: int): set<Id> {
    set id | id in db.frames && PendingFrame(db.frames[id], recipient, now)
  }

  /** Unread, unexpired messages of both protocol versions: what the quota counts. */
  function PendingCount(db: Tables, recipient: Urn, now: int): nat {
    |PendingV1Ids(db, recipient, now)| + |PendingV2Ids(db, recipient, now)|
  }

  // ---- v1 admission -------------------------------------------------------

  /** Answers of the collaborators consulted before the insert transaction. */
  datatype Gates = Gates(storeOpen: bool, forwardOpen: bool, verified: bool, authorized: bool)

  /** The checks of StoreEnvelope that precede its transaction; the result is the stored expiry. */
  function ScreenV1(sdk: Sdk, lim: Limits, db: Tables, proc: Process, gates: Gates,
                    recipient: Urn, payload: Bytes, expiry: int, seen: int): Result<int, Refusal> {
    var decoded := sdk.decodeV1(payload);
    var ceiling := Unix(seen) + lim.ttl;
    if decoded.None? || |decoded.value.id| > 256 || |payload| > MAX_ENVELOPE then Err(Invalid)
    else if proc.required && !ManagedRoute(db, proc, recipient, decoded.value, seen, Unix(seen)) then Err(UpgradeRequired)
    else if !gates.storeOpen then Err(StorageDisabled)
    else if !gates.forwardOpen then Err(RecipientBlocked)
    else if !gates.verified || !gates.authorized then Err(Unauthorized)
    else if expiry < 0 || (expiry != 0 && expiry <= Unix(seen)) then Err(Invalid)
    else Ok(if expiry == 0 || expiry > ceiling then ceiling else expiry)
  }

  datatype Stored = Fresh | Duplicate

  /** The insert transaction of StoreEnvelope. */
  function CommitV1(sdk: Sdk, lim: Limits, db: Tables, recipient: Urn, payload: Bytes, env: V1Envelope,
                    expiry: int, storedAt: int, at: int): (r: (Tables, Result<Stored, Refusal>))
    ensures SameAuthority(db, r.0) && r.0.v2 == db.v2 && r.0.frames == db.frames && r.0.admissions == db.admissions && r.0.archive == db.archive
    ensures r.1 != Ok(Fresh) ==> r.0 == db
    ensures env.id in db.v1 ==> r.1 != Ok(Fresh)
  {
    if db.policy.Some? && Unix(at) >= db.policy.value.expiresAt then (db, Err(UpgradeRequired))
    else if db.policy.Some? && db.policy.value.required && !SqlManaged(db, db.policy.value.issuer, recipient, env, at)
    then (db, Err(UpgradeRequired))
    else if env.id in db.v2 || env.id in db.admissions || env.id in db.archive then (db, Err(Conflict))
    else if env.id in db.v1 then
      (db, if db.v1[env.id].recipient == recipient && db.v1[env.id].payload == payload then Ok(Duplicate) else Err(Conflict))
    else
      var next := db.(v1 := db.v1[env.id := V1Row(recipient, payload, expiry, Unix(storedAt), storedAt, 0)]);
      if lim.perUrn > 0 && PendingCount(next, recipient, Unix(at)) > lim.perUrn then (db, Err(QueueFull))
      else (next, Ok(Fresh))
  }

  /** A whole v1 store: the checks, then the transaction. */
  function StoreOutcomeV1(sdk: Sdk, lim: Limits, db: Tables, proc: Process, gates: Gates, recipient: Urn, payload: Bytes,
                          expiry: int, seen: int, storedAt: int, at: int): (Tables, Result<Stored, Refusal>) {
    match ScreenV1(sdk, lim, db, proc, gates, recipient, payload, expiry, seen)
    case Err(e) => (db, Err(e))
    case Ok(kept) => CommitV1(sdk, lim, db, recipient, payload, sdk.decodeV1(payload).value, kept, storedAt, at)
  }

  // ---- v2 admission -------------------------------------------------------

  /** A gateway-opened body with the routing metadata it claims. */
  datatype Body = Body(id: Id, recipient: Urn, policyHash: string, expiry: int, sender: Urn, epoch: nat, agentJson: bool, plaintext: Bytes)

  datatype Submission = Submission(recipient: Urn, id: Id, policyHash: string, envelope: Bytes, receipt: Bytes, expiry: int, body: Option<Body>)

  predicate BodyMatches(s: Submission) {
    s.body.Some? ==>
      var b := s.body.value;
      && b.id == s.id && b.recipient == s.recipient && b.policyHash == s.policyHash && b.expiry == s.expiry
      && b.sender != "" && b.epoch != 0 && b.agentJson && 0 < |b.plaintext| <= MAX_ENVELOPE
  }

  /** The checks of storeV2 that precede its transaction. */
  function ScreenV2(lim: Limits, proc: Process, storeOpen: bool, forwardOpen: bool, s: Submission, seen: int): Option<Refusal> {
    if !BodyMatches(s) then Some(Invalid)
    else if s.id == "" || |s.id| > 256 || s.recipient == "" || s.envelope == [] || |s.envelope| > MAX_ENVELOPE
            || s.receipt == [] || |s.receipt| > MAX_SMALL then Some(Invalid)
    else if proc.policyHash == "" || proc.policyHash != s.policyHash then Some(PolicyMismatch)
    else if !storeOpen then Some(StorageDisabled)
    else if !forwardOpen then Some(RecipientBlocked)
    else if s.expiry <= Unix(seen) || s.expiry > Unix(seen) + lim.ttl then Some(Invalid)
    else None
  }

  function QueueEntry(s: Submission, seen: int): V2Row {
    V2Row(s.recipient, s.envelope, s.receipt, s.policyHash, s.expiry, Unix(seen), 0)
  }

  function LedgerEntry(sdk: Sdk, s: Submission): Admission {
    Admission(s.recipient, sdk.envelopeHash(s.envelope), s.receipt, s.expiry)
  }

  function ArchiveEntry(s: Submission, seen: int): ArchiveRow
    requires s.body.Some?
  {
    ArchiveRow(s.body.value.sender, s.recipient, Unix(seen), s.expiry, s.policyHash, s.body.value.epoch, s.body.value.plaintext)
  }

  /** The insert transaction of storeV2: queue row, receipt, retry hash and body publish together. */
  function CommitV2(sdk: Sdk, lim: Limits, db: Tables, days: int, s: Submission, seen: int, at: int): (r: (Tables, Result<Bytes, Refusal>))
    ensures SameAuthority(db, r.0) && r.0.v1 == db.v1 && r.0.frames == db.frames
    ensures r.1.Err? ==> r.0 == db
  {
    if db.policy.None? then (db, Err(DatabaseError))
    else if db.policy.value.hash != s.policyHash || Unix(at) >= db.policy.value.expiresAt then (db, Err(PolicyMismatch))
    else if s.id in db.v1 then (db, Err(Conflict))
    else if s.id in db.admissions then
      var prior := db.admissions[s.id];
      (db, if prior.recipient == s.recipient && prior.envelopeHash == sdk.envelopeHash(s.envelope) then Ok(prior.receipt) else Err(Conflict))
    else if s.id in db.archive then (db, Err(Conflict))
    else if s.id in db.v2 then
      var prior := db.v2[s.id];
      (db, if prior.recipient == s.recipient && prior.envelope == s.envelope then Ok(prior.receipt) else Err(Conflict))
    else
      var queued := db.(v2 := db.v2[s.id := QueueEntry(s, seen)]);
      if lim.perUrn > 0 && PendingCount(queued, s.recipient, Unix(seen)) > lim.perUrn then (db, Err(QueueFull))
      else if s.body.None? then (queued, Ok(s.receipt))
      else
        var admitted := queued.(admissions := db.admissions[s.id := LedgerEntry(sdk, s)]);
        (if days > 0 then admitted.(archive := db.archive[s.id := ArchiveEntry(s, seen)]) else admitted, Ok(s.receipt))
  }

  /** A whole v2 store: the checks, then the transaction. */
  function StoreOutcomeV2(sdk: Sdk, lim: Limits, db: Tables, proc: Process, storeOpen: bool, forwardOpen: bool, s: Submission,
                          seen: int, at: int): (Tables, Result<Bytes, Refusal>) {
    match ScreenV2(lim, proc, storeOpen, forwardOpen, s, seen)
    case Some(e) => (db, Err(e))
    case None => CommitV2(sdk, lim, db, proc.archiveDays, s, seen, at)
  }

  /** ExistingV2Receipt: the retry lookup that precedes every policy check. */
  function ExistingReceipt(sdk: Sdk, db: Tables, recipient: Urn, id: Id, envelope: Bytes): Result<Option<Bytes>, Refusal> {
    if id in db.v2 then
      if db.v2[id].recipient == recipient && db.v2[id].envelope == envelope then Ok(Some(db.v2[id].receipt)) else Err(Conflict)
    else if id in db.admissions then
      if db.admissions[id].recipient == recipient && db.admissions[id].envelopeHash == sdk.envelopeHash(envelope)
      then Ok(Some(db.admissions[id].receipt)) else Err(Conflict)
    else Ok(None)
  }

  // ---- Handshake frames ---------------------------------------------------

  /** The checks of StoreV2Frame that precede its transaction; `vetted` is the verdict on the parsed and signed frame. */
  function ScreenFrame(proc: Process, id: Id, frame: Bytes, expiry: int, policyHash: string, vetted: bool,
                       storeOpen: bool, forwardOpen: bool, at: int): Option<Refusal> {
    if !vetted then Some(Invalid)
    else if proc.policyHash == "" || proc.policyHash != policyHash then Some(PolicyMismatch)
    else if !(0 < |id| <= 256) || !(0 < |frame| <= MAX_SMALL) || !(Unix(at) < expiry <= Unix(at) + DAY) then Some(Invalid)
    else if !storeOpen || !forwardOpen then Some(PolicyMismatch)
    else None
  }

  function CommitFrame(db: Tables, recipient: Urn, id: Id, frame: Bytes, expiry: int, policyHash: string, at: int): (r: (Tables, Option<Refusal>))
    ensures SameAuthority(db, r.0) && r.0.v1 == db.v1 && r.0.v2 == db.v2 && r.0.admissions == db.admissions && r.0.archive == db.archive
    ensures r.1.Some? ==> r.0 == db
  {
    if db.policy.None? then (db, Some(DatabaseError))
    else if db.policy.value.hash != policyHash || Unix(at) >= db.policy.value.expiresAt then (db, Some(PolicyMismatch))
    else if id in db.frames then
      (db, if db.frames[id].recipient == recipient && db.frames[id].frame == frame then None else Some(Conflict))
    else
      var next := db.(frames := db.frames[id := FrameRow(recipient, frame, expiry, Unix(at), 0)]);
      if |PendingFrameIds(next, recipient, Unix(at))| > MAX_FRAMES then (db, Some(QueueFull)) else (next, None)
  }

  // ---- Acknowledgement ----------------------------------------------------

  /** UPDATE ... SET read_at on the pending rows whose (id, stored_at_ns) is listed. */
  function MarkV1(v1: map<Id, V1Row>, recipient: Urn, pairs: set<(Id, int)>, at: int): map<Id, V1Row> {
    map id | id in v1 ::
      if PendingV1(v1[id], recipient, Unix(at)) && (id, v1[id].storedAtNs) in pairs then v1[id].(readAt := Unix(at)) else v1[id]
  }

  function MarkedV1(v1: map<Id, V1Row>, recipient: Urn, pairs: set<(Id, int)>, at: int): set<Id> {
    set id | id in v1 && PendingV1(v1[id], recipient, Unix(at)) && (id, v1[id].storedAtNs) in pairs
  }

  /** The rows an ACK of `ids` may consume: what retrieval could deliver, or any pending row without a strict policy. */
  function Ackable(sdk: Sdk, db: Tables, proc: Process, recipient: Urn, ids: seq<Id>, at: int): set<(Id, int)> {
    set id | id in ids && id in db.v1
             && (if proc.required then Deliverable(sdk, db, proc, db.v1[id], recipient, at) else PendingV1(db.v1[id], recipient, Unix(at)))
      :: (id, db.v1[id].storedAtNs)
  }

  function IdSet(ids: seq<Id>): set<Id> {
    set id | id in ids
  }

  function MarkedV2(v2: map<Id, V2Row>, recipient: Urn, hash: string, ids: set<Id>, now: int): set<Id> {
    set id | id in v2 && id in ids && VisibleV2(v2[id], recipient, hash, now)
  }

  function MarkV2(db: Tables, proc: Process, recipient: Urn, ids: set<Id>, at: int): (r: Tables)
    ensures SameAuthority(db, r) && r.v1 == db.v1 && r.frames == db.frames && r.admissions == db.admissions && r.archive == db.archive
  {
    db.(v2 := map id | id in db.v2 ::
      if id in ids && VisibleV2(db.v2[id], recipient, proc.policyHash, Unix(at)) then db.v2[id].(readAt := Unix(at)) else db.v2[id])
  }

  function MarkFrames(db: Tables, recipient: Urn, ids: set<Id>, at: int): (r: Tables)
    ensures SameAuthority(db, r) && r.v1 == db.v1 && r.v2 == db.v2 && r.admissions == db.admissions && r.archive == db.archive
  {
    db.(frames := map id | id in db.frames ::
      if id in ids && PendingFrame(db.frames[id], recipient, Unix(at)) then db.frames[id].(readAt := Unix(at)) else db.frames[id])
  }

  // ---- Policy and managed identities --------------------------------------

  /** EnableV2Policy: pin, then publish to the process. */
  function Enable(db: Tables, proc: Process, p: Policy, at: int): (r: Option<(Tables, Process)>)
    ensures r.Some? ==> SameMail(db, r.value.0) && r.value.0.managed == db.managed && r.value.0.revocations == db.revocations
  {
    if p.epoch == 0 || |p.hash| != 64 || p.expiresAt <= Unix(at) then None
    else if db.policy.Some? && (p.epoch < db.policy.value.epoch || (p.epoch == db.policy.value.epoch && p.hash != db.policy.value.hash))
    then None
    else Some((db.(policy := Some(p)),
               proc.(required := p.required, policyHash := p.hash, policyExpiry := p.expiresAt, issuer := p.issuer)))
  }

  /** NewStore on an existing database: only the strictness of the pinned policy survives in memory. */
  function Restarted(db: Tables): Process {
    Process(db.policy.Some? && db.policy.value.required, "", 0, [], 30, 30, false)
  }

  /** Identities from before enrolments were stamped count as enrolled now. */
  function Backfilled(managed: map<Urn, Identity>, now: int): map<Urn, Identity> {
    map u | u in managed :: if managed[u].enrolledAtNs == 0 then managed[u].(enrolledAtNs := now) else managed[u]
  }

  datatype Certificate = Certificate(urn: Urn, key: Bytes, serial: string, notBefore: int, expiresAt: int)

  /** Whether a renewal extends the enrolment it replaces instead of starting a new one. */
  predicate Continues(prior: Identity, issuer: Bytes, at: int) {
    !prior.revoked && prior.expiresAt > Unix(at) && prior.issuer == issuer && prior.enrolledAtNs > 0
  }

  /** The checks of EnrollManaged that precede its transaction: only the issuer this process trusts enrols. */
  function ScreenEnroll(proc: Process, cert: Certificate, certSize: nat, verified: bool, issuer: Bytes): Option<Refusal> {
    if !verified then Some(Unauthorized)
    else if |cert.serial| > 128 || certSize > MAX_SMALL then Some(Invalid)
    else if |proc.issuer| != ISSUER_SIZE || proc.issuer != issuer then Some(PolicyMismatch)
    else None
  }

  /** The transaction of EnrollManaged. */
  function CommitEnroll(db: Tables, cert: Certificate, policyHash: string, issuer: Bytes, at: int): (r: (Tables, Option<Refusal>))
    ensures SameMail(db, r.0) && r.0.policy == db.policy && r.0.revocations == db.revocations
    ensures r.1.Some? ==> r.0 == db
  {
    if db.policy.None? then (db, Some(DatabaseError))
    else if db.policy.value.hash != policyHash || Unix(at) >= db.policy.value.expiresAt then (db, Some(PolicyMismatch))
    else if cert.serial in db.revocations then (db, Some(PolicyMismatch))
    else if cert.urn in db.managed && db.managed[cert.urn].key != cert.key then (db, Some(Conflict))
    else if exists u | u in db.managed :: u != cert.urn && db.managed[u].serial == cert.serial then (db, Some(DatabaseError))
    else
      var since := if cert.urn in db.managed && Continues(db.managed[cert.urn], issuer, at) then db.managed[cert.urn].enrolledAtNs else at;
      (db.(managed := db.managed[cert.urn := Identity(cert.key, issuer, cert.serial, cert.notBefore, cert.expiresAt, since, false)]), None)
  }

  function Revoke(db: Tables, serial: string, at: int): (r: Tables)
    ensures SameMail(db, r) && r.policy == db.policy
  {
    db.(revocations := if serial in db.revocations then db.revocations else db.revocations[serial := Unix(at)],
        managed := map u | u in db.managed :: if db.managed[u].serial == serial then db.managed[u].(revoked := true) else db.managed[u])
  }

  // ---- Deletion -----------------------------------------------------------

  function WithoutV1(v1: map<Id, V1Row>, recipient: Urn, id: Id): map<Id, V1Row> {
    if id in v1 && v1[id].recipient == recipient then v1 - {id} else v1
  }

  function WithoutV2(v2: map<Id, V2Row>, recipient: Urn, id: Id): map<Id, V2Row> {
    if id in v2 && v2[id].recipient == recipient then v2 - {id} else v2
  }

  function Delete(db: Tables, recipient: Urn, id: Id): (r: Tables)
    ensures SameAuthority(db, r) && r.frames == db.frames && r.admissions == db.admissions && r.archive == db.archive
  {
    db.(v1 := WithoutV1(db.v1, recipient, id), v2 := WithoutV2(db.v2, recipient, id))
  }

  function OthersV1(v1: map<Id, V1Row>, recipient: Urn): (r: map<Id, V1Row>)
    ensures r.Keys <= v1.Keys
  {
    map id | id in v1 && v1[id].recipient != recipient :: v1[id]
  }

  function OthersV2(v2: map<Id, V2Row>, recipient: Urn): (r: map<Id, V2Row>)
    ensures r.Keys <= v2.Keys
  {
    map id | id in v2 && v2[id].recipient != recipient :: v2[id]
  }

  function OthersFrames(frames: map<Id, FrameRow>, recipient: Urn): (r: map<Id, FrameRow>)
    ensures r.Keys <= frames.Keys
  {
    map id | id in frames && frames[id].recipient != recipient :: frames[id]
  }

  function Purge(db: Tables, recipient: Urn): (r: Tables)
    ensures SameAuthority(db, r) && r.admissions == db.admissions && r.archive == db.archive
  {
    db.(v1 := OthersV1(db.v1, recipient), v2 := OthersV2(db.v2, recipient), frames := OthersFrames(db.frames, recipient))
  }

  /** deleteExpiredCompliance. */
  function PurgeArchive(archive: map<Id, ArchiveRow>, days: int, now: int): map<Id, ArchiveRow> {
    if days == 0 then map[] else map id | id in archive && archive[id].storedAt > now - days * DAY :: archive[id]
  }

  /** The separate statements of cleanup; each may fail on its own. */
  datatype Stage = ExpiredV1 | ExpiredV2 | ExpiredFrames | ExpiredAdmissions | HistoryV1 | HistoryV2 | HistoryFrames | OldArchive

  function UnexpiredV1(v1: map<Id, V1Row>, now: int): map<Id, V1Row> {
    map id | id in v1 && !(0 < v1[id].expiry <= now) :: v1[id]
  }

  function UnexpiredV2(v2: map<Id, V2Row>, now: int): map<Id, V2Row> {
    map id | id in v2 && v2[id].expiry > now :: v2[id]
  }

  function UnexpiredFrames(frames: map<Id, FrameRow>, now: int): map<Id, FrameRow> {
    map id | id in frames && frames[id].expiry > now :: frames[id]
  }

  function UnexpiredAdmissions(admissions: map<Id, Admission>, now: int): map<Id, Admission> {
    map id | id in admissions && admissions[id].expiry > now :: admissions[id]
  }

  function RecentV1(v1: map<Id, V1Row>, cutoff: int): map<Id, V1Row> {
    map id | id in v1 && !(0 < v1[id].readAt <= cutoff) :: v1[id]
  }

  function RecentV2(v2: map<Id, V2Row>, cutoff: int): map<Id, V2Row> {
    map id | id in v2 && !(0 < v2[id].readAt <= cutoff) :: v2[id]
  }

  function RecentFrames(frames: map<Id, FrameRow>, cutoff: int): map<Id, FrameRow> {
    map id | id in frames && !(0 < frames[id].readAt <= cutoff) :: frames[id]
  }

  function DropExpired(db: Tables, done: set<Stage>, now: int): Tables {
    db.(v1 := if ExpiredV1 in done then UnexpiredV1(db.v1, now) else db.v1,
        v2 := if ExpiredV2 in done then UnexpiredV2(db.v2, now) else db.v2,
        frames := if ExpiredFrames in done then UnexpiredFrames(db.frames, now) else db.frames,
        admissions := if ExpiredAdmissions in done then UnexpiredAdmissions(db.admissions, now) else db.admissions)
  }

  function DropHistory(db: Tables, done: set<Stage>, cutoff: int): Tables {
    db.(v1 := if HistoryV1 in done then RecentV1(db.v1, cutoff) else db.v1,
        v2 := if HistoryV2 in done then RecentV2(db.v2, cutoff) else db.v2,
        frames := if HistoryFrames in done then RecentFrames(db.frames, cutoff) else db.frames)
  }

  /** cleanup at `now`, where `done` are the statements that succeeded. */
  function Cleanup(db: Tables, historyDays: int, archiveDays: int, done: set<Stage>, now: int): (r: Tables)
    ensures SameAuthority(db, r)
    ensures r.admissions == if ExpiredAdmissions in done then UnexpiredAdmissions(db.admissions, now) else db.admissions
    ensures r.archive == if OldArchive in done then PurgeArchive(db.archive, archiveDays, now) else db.archive
  {
    var expired := DropExpired(db, done, now);
    var aged := if historyDays >= 0 then DropHistory(expired, done, now - historyDays * DAY) else expired;
    aged.(archive := if OldArchive in done then PurgeArchive(aged.archive, archiveDays, now) else aged.archive)
  }

  /** SetComplianceRetentionDays; `deletes` is whether the deletion transaction succeeded. */
  function SetArchiveDays(db: Tables, proc: Process, days: int, deletes: bool, now: int): (r: (Tables, Process, bool))
    ensures SameAuthority(db, r.0) && r.0.v1 == db.v1 && r.0.v2 == db.v2 && r.0.frames == db.frames && r.0.admissions == db.admissions
    ensures !r.2 ==> r.0 == db && r.1 == proc
  {
    if !(0 <= days <= 36500) || !deletes then (db, proc, false)
    else
      var purge := if proc.archiveUsed && proc.archiveDays < days then proc.archiveDays else days;
      (db.(archive := PurgeArchive(db.archive, purge, now)), proc.(archiveDays := days, archiveUsed := true), true)
  }
}
