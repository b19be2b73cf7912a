/** Managed identities: what a grant proves about the past, and the two checks that read it. */
module Enrolment {
  import opened Prelude
  import opened MailboxModel
  import opened Runs
  import opened RowLaws

  // ---- The two admission checks -------------------------------------------

  /** Seconds whose nanosecond product is representable in int64. */
  predicate Fits(seconds: int) {
    MIN_INT64 <= seconds * NANOS <= -MIN_INT64 - 1
  }

  lemma WrapIsIdentity(x: int)
    requires MIN_INT64 <= x <= -MIN_INT64 - 1
    ensures Wrap64(x) == x
  {
  }

  lemma SecondsAndNanosecondsAgree(identity: Identity, issuer: Bytes, policyExpiry: int, key: Option<Bytes>, at: int)
    requires at > 0 && Unix(at) < policyExpiry && identity.issuer == issuer
    requires Fits(identity.notBefore) && Fits(identity.expiresAt)
    ensures Permits(Some(identity), key, at, policyExpiry, Unix(at)) <==>
      SqlValid(identity, issuer, at) && (key.None? || key.value == identity.key)
  {
    WrapIsIdentity(identity.notBefore * NANOS);
    WrapIsIdentity(identity.expiresAt * NANOS);
  }

  /**
   At one instant the nanosecond rule of reads admits exactly what the SQL test of inserts admits,
   plus messages without a sender key, which only reads accept from a managed sender.
   */
  lemma AdmissionChecksAgree(db: Tables, proc: Process, recipient: Urn, env: V1Envelope, at: int)
    requires at > 0 && |proc.issuer| == ISSUER_SIZE && Unix(at) < proc.policyExpiry
    requires forall u | u in db.managed && (u == recipient || u == env.senderUrn) ::
      Fits(db.managed[u].notBefore) && Fits(db.managed[u].expiresAt)
    ensures ManagedRoute(db, proc, recipient, env, at, Unix(at)) <==>
      || SqlManaged(db, proc.issuer, recipient, env, at)
      || (env.senderKey.None? && env.senderUrn in db.managed && SqlValid(db.managed[env.senderUrn], proc.issuer, at))
  {
    hide Wrap64;
    forall u, key | u in db.managed && db.managed[u].issuer == proc.issuer && (u == recipient || u == env.senderUrn)
      ensures IsManagedAt(db, proc.issuer, proc.policyExpiry, u, key, at, Unix(at)) <==>
        SqlValid(db.managed[u], proc.issuer, at) && (key.None? || key.value == db.managed[u].key)
    {
      SecondsAndNanosecondsAgree(db.managed[u], proc.issuer, proc.policyExpiry, key, at);
    }
  }

  const MAX_INT64 := -MIN_INT64 - 1

  /** An instant of the nanosecond clock at which the policy is in force. */
  predicate InForce(at: int, policyExpiry: int) {
    1 <= at <= MAX_INT64 && Unix(at) < policyExpiry
  }

  /** Both tests give one answer about this identity at every instant. */
  ghost predicate AlwaysAgree(identity: Identity, policyExpiry: int) {
    forall at {:trigger InForce(at, policyExpiry)} | InForce(at, policyExpiry) ::
      Permits(Some(identity), Some(identity.key), at, policyExpiry, Unix(at)) <==> SqlValid(identity, identity.issuer, at)
  }

  function Max(a: int, b: int): int {
    if a < b then b else a
  }

  function Min(a: int, b: int): int {
    if a < b then a else b
  }

  /** First and last instant the SQL test accepts, and the same for the nanosecond test with its wrapped products. */
  function SqlFirst(identity: Identity): int {
    Max(Max(1, identity.notBefore * NANOS), identity.enrolledAtNs)
  }

  function SqlLast(identity: Identity, policyExpiry: int): int {
    Min(Min(MAX_INT64, policyExpiry * NANOS - 1), identity.expiresAt * NANOS - 1)
  }

  function NanoFirst(identity: Identity): int {
    Max(Max(1, Wrap64(identity.notBefore * NANOS)), identity.enrolledAtNs)
  }

  function NanoLast(identity: Identity, policyExpiry: int): int {
    Min(SqlLast(identity, policyExpiry), Wrap64(identity.expiresAt * NANOS) - 1)
  }

  lemma TestsAsIntervals(identity: Identity, policyExpiry: int, at: int)
    requires !identity.revoked
    ensures InForce(at, policyExpiry) && SqlValid(identity, identity.issuer, at)
      <==> SqlFirst(identity) <= at <= SqlLast(identity, policyExpiry)
    ensures InForce(at, policyExpiry) && Permits(Some(identity), Some(identity.key), at, policyExpiry, Unix(at))
      <==> NanoFirst(identity) <= at <= NanoLast(identity, policyExpiry)
  {
    hide Wrap64;
  }

  /**
   Exactly when the SQL test and the nanosecond rule agree about an unrevoked identity: the two ranges of instants are both
   empty or the same.
   */
  lemma ChecksAgreeIffRangesDo(identity: Identity, policyExpiry: int)
    requires !identity.revoked
    ensures var (a, b) := (SqlFirst(identity), SqlLast(identity, policyExpiry));
      var (c, d) := (NanoFirst(identity), NanoLast(identity, policyExpiry));
      AlwaysAgree(identity, policyExpiry) <==> (a > b && c > d) || (a == c && b == d)
  {
    hide SqlValid, Permits, InForce, SqlFirst, SqlLast, NanoFirst;
    var a, b := SqlFirst(identity), SqlLast(identity, policyExpiry);
    var c, d := NanoFirst(identity), NanoLast(identity, policyExpiry);
    TestsAsIntervals(identity, policyExpiry, a);
    TestsAsIntervals(identity, policyExpiry, b);
    TestsAsIntervals(identity, policyExpiry, c);
    forall at | InForce(at, policyExpiry)
      ensures SqlValid(identity, identity.issuer, at) <==> a <= at <= b
      ensures Permits(Some(identity), Some(identity.key), at, policyExpiry, Unix(at)) <==> c <= at <= d
    {
      TestsAsIntervals(identity, policyExpiry, at);
    }
  }

  /**
   For an identity whose start is representable and that the SQL test ever accepts under a policy that outlives the
   nanosecond clock, the condition is that its expiry is representable too: before the year 2262.
   */
  lemma ChecksAgreeIffExpiryFits(identity: Identity, policyExpiry: int)
    requires !identity.revoked && Fits(identity.notBefore)
    requires MAX_INT64 < policyExpiry * NANOS && SqlFirst(identity) <= SqlLast(identity, policyExpiry)
    ensures AlwaysAgree(identity, policyExpiry) <==> Fits(identity.expiresAt)
  {
    ChecksAgreeIffRangesDo(identity, policyExpiry);
    WrapIsIdentity(identity.notBefore * NANOS);
    if Fits(identity.expiresAt) {
      WrapIsIdentity(identity.expiresAt * NANOS);
    }
    WrapInRange(identity.expiresAt * NANOS);
    hide AlwaysAgree, Wrap64;
  }

  lemma WrapInRange(x: int)
    ensures MIN_INT64 <= Wrap64(x) <= MAX_INT64
  {
  }

  // ---- Whole runs ---------------------------------------------------------

  /** Every identity is stamped, so the back-fill of a restart finds nothing to do. */
  ghost predicate Stamped(db: Tables) {
    forall u | u in db.managed :: db.managed[u].enrolledAtNs > 0
  }

  lemma NothingToBackfill(db: Tables, now: int)
    requires Stamped(db)
    ensures Backfilled(db.managed, now) == db.managed
  {
  }

  lemma IdentitiesChangeOnlyHere(env: Env, w: World, e: Event)
    requires Stamped(w.db)
    ensures var next := Apply(env, w, e).db;
      && (e.op.Enroll? ==> next == CommitEnroll(w.db, e.op.cert, e.op.policyHash, e.op.issuer, e.at).0)
      && (e.op.RevokeSerial? ==> next == Revoke(w.db, e.op.serial, e.at))
      && (!e.op.Enroll? && !e.op.RevokeSerial? ==> next.managed == w.db.managed && next.revocations == w.db.revocations)
  {
    NothingToBackfill(w.db, e.at);
    hide Stamped, SameMail, CommitEnroll, Enable, Revoke, Backfilled, ApplyProcess;
    if !IsAuthority(e.op) {
      hide ApplyTables;
      MailKeepsAuthority(env, w, e);
    }
  }

  /** Keys are permanent, serials are unique, a revoked serial is never active. */
  ghost predicate SoundIdentities(db: Tables) {
    && Stamped(db)
    && (forall u | u in db.managed :: db.managed[u].serial in db.revocations ==> db.managed[u].revoked)
    && (forall u, v | u in db.managed && v in db.managed && u != v :: db.managed[u].serial != db.managed[v].serial)
  }

  ghost predicate KeysKept(db: Tables, next: Tables) {
    forall u | u in db.managed :: u in next.managed && next.managed[u].key == db.managed[u].key
  }

  lemma EnrollKeepsSound(db: Tables, cert: Certificate, hash: string, issuer: Bytes, at: int)
    requires SoundIdentities(db) && at > 0
    ensures var next := CommitEnroll(db, cert, hash, issuer, at).0; SoundIdentities(next) && KeysKept(db, next)
  {
    hide SameMail;
  }

  lemma RevokeKeepsSound(db: Tables, serial: string, at: int)
    requires SoundIdentities(db)
    ensures SoundIdentities(Revoke(db, serial, at)) && KeysKept(db, Revoke(db, serial, at))
  {
    hide SameMail;
  }

  lemma SameIdentities(db: Tables, next: Tables)
    requires SoundIdentities(db) && next.managed == db.managed && next.revocations == db.revocations
    ensures SoundIdentities(next) && KeysKept(db, next)
  {
  }

  lemma IsStamped(db: Tables)
    requires SoundIdentities(db)
    ensures Stamped(db)
  {
  }

  lemma IdentityStep(env: Env, w: World, e: Event)
    requires SoundIdentities(w.db) && Allowed(w, e)
    ensures SoundIdentities(Apply(env, w, e).db) && KeysKept(w.db, Apply(env, w, e).db)
  {
    IsStamped(w.db);
    assert e.at > 0;
    hide Apply, SoundIdentities, KeysKept, CommitEnroll, Revoke, Stamped;
    IdentitiesChangeOnlyHere(env, w, e);
    if e.op.Enroll? {
      EnrollKeepsSound(w.db, e.op.cert, e.op.policyHash, e.op.issuer, e.at);
    } else if e.op.RevokeSerial? {
      RevokeKeepsSound(w.db, e.op.serial, e.at);
    } else {
      SameIdentities(w.db, Apply(env, w, e).db);
    }
  }

  lemma {:induction false} IdentitiesStaySound(env: Env, start: int, es: seq<Event>, i: nat, k: nat)
    requires Run(env, start, es) && i <= k <= |es|
    ensures SoundIdentities(At(env, Genesis(start), es, k).db)
    ensures KeysKept(At(env, Genesis(start), es, i).db, At(env, Genesis(start), es, k).db)
    decreases k
  {
    hide Apply, Allowed;
    if i < k {
      IdentitiesStaySound(env, start, es, i, k - 1);
      IdentityStep(env, At(env, Genesis(start), es, k - 1), es[k - 1]);
    } else if k > 0 {
      IdentitiesStaySound(env, start, es, k - 1, k - 1);
      IdentityStep(env, At(env, Genesis(start), es, k - 1), es[k - 1]);
    }
  }

  /** The identity is enrolled with this issuer and key, unrevoked and unexpired, in this state. */
  predicate Covered(w: World, urn: Urn, issuer: Bytes, key: Bytes) {
    && urn in w.db.managed
    && var g := w.db.managed[urn];
    g.issuer == issuer && g.key == key && !g.revoked && g.expiresAt > Unix(w.clock)
  }

  /**
   Event `e` enrolled `urn` as it stands in state `n`, and the enrolment has been live ever since: in every state, and
   unexpired still when the event that ends the state comes.
   */
  ghost predicate EnrolledBy(env: Env, start: int, es: seq<Event>, n: nat, urn: Urn, e: nat)
    requires n <= |es|
  {
    var db := At(env, Genesis(start), es, n).db;
    && e < n && urn in db.managed
    && es[e].op.Enroll? && es[e].op.cert.urn == urn && es[e].at == db.managed[urn].enrolledAtNs
    && (forall j: nat | e < j <= n :: Covered(At(env, Genesis(start), es, j), urn, db.managed[urn].issuer, db.managed[urn].key))
    && (forall j: nat | e < j < n :: Unix(es[j].at) < At(env, Genesis(start), es, j).db.managed[urn].expiresAt)
  }

  /** One step: an enrolment that is live afterwards either starts with this event or continues a live one. */
  lemma EnrolmentStep(env: Env, w: World, e: Event, urn: Urn)
    requires Stamped(w.db) && w.clock <= e.at && urn in Apply(env, w, e).db.managed
    requires var g := Apply(env, w, e).db.managed[urn]; Covered(Apply(env, w, e), urn, g.issuer, g.key)
    ensures var g := Apply(env, w, e).db.managed[urn];
      || (e.op.Enroll? && e.op.cert.urn == urn && g.enrolledAtNs == e.at)
      || (Covered(w, urn, g.issuer, g.key) && w.db.managed[urn].enrolledAtNs == g.enrolledAtNs && Unix(e.at) < w.db.managed[urn].expiresAt)
  {
    ClockOfApply(env, w, e);
    IdentitiesChangeOnlyHere(env, w, e);
    hide Apply;
  }

  /** A live enrolment has an origin: an enrolment of that URN at the recorded instant, live without a gap from then on. */
  lemma {:induction false} EnrolmentIsUnbroken(env: Env, start: int, es: seq<Event>, i: nat, urn: Urn) returns (o: nat)
    requires Run(env, start, es) && i <= |es|
    requires var w := At(env, Genesis(start), es, i);
      urn in w.db.managed && Covered(w, urn, w.db.managed[urn].issuer, w.db.managed[urn].key)
    ensures EnrolledBy(env, start, es, i, urn, o)
    decreases i
  {
    hide Apply, At, Run;
    AtBegins(env, Genesis(start), es);
    AtUnfolds(env, Genesis(start), es, i - 1);
    var prior := At(env, Genesis(start), es, i - 1);
    RunAllows(env, start, es, i - 1);
    IdentitiesStaySound(env, start, es, i - 1, i - 1);
    IsStamped(prior.db);
    hide SoundIdentities, Stamped;
    EnrolmentStep(env, prior, es[i - 1], urn);
    var g := At(env, Genesis(start), es, i).db.managed[urn];
    if Covered(prior, urn, g.issuer, g.key) && prior.db.managed[urn].enrolledAtNs == g.enrolledAtNs
       && Unix(es[i - 1].at) < prior.db.managed[urn].expiresAt {
      o := EnrolmentIsUnbroken(env, start, es, i - 1, urn);
    } else {
      o := i - 1;
    }
  }

  // ---- Certificates -------------------------------------------------------

  /** The identity of `urn` in state `n` is that of the certificate of event `c`, the last enrolment of the URN to succeed. */
  ghost predicate CertifiedBy(env: Env, start: int, es: seq<Event>, n: nat, urn: Urn, c: nat)
    requires n <= |es|
  {
    var db := At(env, Genesis(start), es, n).db;
    && c < n && urn in db.managed && es[c].op.Enroll? && es[c].op.cert.urn == urn
    && Holds(db.managed[urn], es[c].op.cert, es[c].op.issuer)
    && forall j: nat | c < j < n && es[j].op.Enroll? && es[j].op.cert.urn == urn :: Refuses(At(env, Genesis(start), es, j).db, es[j])
  }

  predicate Holds(g: Identity, cert: Certificate, issuer: Bytes) {
    && g.key == cert.key && g.issuer == issuer && g.serial == cert.serial
    && g.notBefore == cert.notBefore && g.expiresAt == cert.expiresAt
  }

  predicate Refuses(db: Tables, e: Event)
    requires e.op.Enroll?
  {
    CommitEnroll(db, e.op.cert, e.op.policyHash, e.op.issuer, e.at).1.Some?
  }

  /** One step: an identity is written by the enrolment of its certificate, or stays as it was but for a revocation. */
  lemma CertificateStep(env: Env, w: World, e: Event, urn: Urn)
    requires Stamped(w.db) && urn in Apply(env, w, e).db.managed
    ensures var g := Apply(env, w, e).db.managed[urn];
      if e.op.Enroll? && e.op.cert.urn == urn && !Refuses(w.db, e) then Holds(g, e.op.cert, e.op.issuer)
      else urn in w.db.managed && g.(revoked := w.db.managed[urn].revoked) == w.db.managed[urn]
  {
    IdentitiesChangeOnlyHere(env, w, e);
    hide Apply, CommitEnroll, Revoke, Stamped;
    if e.op.Enroll? {
      EnrolledIff(w.db, w.proc, e.op.cert, 0, true, e.op.policyHash, e.op.issuer, e.at);
    } else if e.op.RevokeSerial? {
      RevokedIff(w.db, e.op.serial, e.at);
    }
  }

  /** In every reachable state every identity holds key, issuer, serial and validity of one certificate, its latest accepted. */
  lemma {:induction false} IdentityIsCertified(env: Env, start: int, es: seq<Event>, n: nat, urn: Urn) returns (c: nat)
    requires Run(env, start, es) && n <= |es| && urn in At(env, Genesis(start), es, n).db.managed
    ensures CertifiedBy(env, start, es, n, urn, c)
    decreases n
  {
    hide Apply, At, Run, Refuses;
    AtBegins(env, Genesis(start), es);
    AtUnfolds(env, Genesis(start), es, n - 1);
    var prior := At(env, Genesis(start), es, n - 1);
    IdentitiesStaySound(env, start, es, n - 1, n - 1);
    IsStamped(prior.db);
    hide SoundIdentities, Stamped;
    CertificateStep(env, prior, es[n - 1], urn);
    if es[n - 1].op.Enroll? && es[n - 1].op.cert.urn == urn && !Refuses(prior.db, es[n - 1]) {
      c := n - 1;
    } else {
      c := IdentityIsCertified(env, start, es, n - 1, urn);
    }
  }

  /** The row's stamp and the moment of delivery both lie within the certificate, whose key the message was asked with. */
  predicate WithinCertificate(cert: Certificate, key: Option<Bytes>, ns: int, now: int) {
    && Unix(now) < cert.expiresAt
    && (Fits(cert.notBefore) ==> cert.notBefore * 1_000_000_000 <= ns)
    && (Fits(cert.expiresAt) ==> ns < cert.expiresAt * 1_000_000_000)
    && (key.Some? ==> key.value == cert.key)
  }

  lemma RunAllows(env: Env, start: int, es: seq<Event>, i: nat)
    requires Run(env, start, es) && i < |es|
    ensures Allowed(At(env, Genesis(start), es, i), es[i])
  {
  }

  /**
   No retroactive authorisation. A grant of state `n` that lets a row stamped `ns` through at `now` stems from an enrolment
   no later than `ns`, with the issuer of the policy, and has been unrevoked and unexpired without a gap since that enrolment.
   Its key and validity are those of the last certificate the URN enrolled with; row and delivery both lie within it.
   */
  lemma NoRetroactiveAuthorisation(env: Env, start: int, es: seq<Event>, n: nat, urn: Urn, key: Option<Bytes>, ns: int, policyExpiry: int, now: int) returns (o: nat, c: nat)
    requires Run(env, start, es) && n <= |es|
    requires var w := At(env, Genesis(start), es, n);
      && w.clock <= now
      && Permits(LoadGrant(w.db, w.proc.issuer, urn), key, ns, policyExpiry, Unix(now))
    ensures EnrolledBy(env, start, es, n, urn, o) && es[o].at <= ns
    ensures var w := At(env, Genesis(start), es, n);
      w.db.managed[urn].issuer == w.proc.issuer && Unix(now) < policyExpiry
    ensures CertifiedBy(env, start, es, n, urn, c) && WithinCertificate(es[c].op.cert, key, ns, now)
  {
    hide Apply, Allowed, At, EnrolledBy, CertifiedBy, Wrap64;
    o := EnrolmentIsUnbroken(env, start, es, n, urn);
    OriginInstant(env, start, es, n, urn, o);
    c := IdentityIsCertified(env, start, es, n, urn);
    CertificateFields(env, start, es, n, urn, c);
    var g := At(env, Genesis(start), es, n).db.managed[urn];
    if Fits(g.notBefore) {
      WrapIsIdentity(g.notBefore * NANOS);
    }
    if Fits(g.expiresAt) {
      WrapIsIdentity(g.expiresAt * NANOS);
    }
  }

  lemma CertificateFields(env: Env, start: int, es: seq<Event>, n: nat, urn: Urn, c: nat)
    requires n <= |es| && CertifiedBy(env, start, es, n, urn, c)
    ensures c < n && es[c].op.Enroll? && urn in At(env, Genesis(start), es, n).db.managed
    ensures var g, cert := At(env, Genesis(start), es, n).db.managed[urn], es[c].op.cert;
      g.key == cert.key && g.notBefore == cert.notBefore && g.expiresAt == cert.expiresAt
  {
  }

  lemma OriginInstant(env: Env, start: int, es: seq<Event>, n: nat, urn: Urn, o: nat)
    requires n <= |es| && EnrolledBy(env, start, es, n, urn, o)
    ensures o < n && urn in At(env, Genesis(start), es, n).db.managed
    ensures es[o].op.Enroll? && es[o].at == At(env, Genesis(start), es, n).db.managed[urn].enrolledAtNs
  {
  }
}
