/** URN registration: owner-signed records with a lease, whose timestamps must never go back. Times are Unix seconds. */
module Registry {
  import opened Prelude
  import opened Codec

  type Urn = string

  /** The signed part of a record. */
  datatype Proof = Proof(peer: string, x25519: Bytes, ed25519: Bytes, signature: Bytes, storesUserData: bool, timestamp: int)

  datatype Row = Row(proof: Proof, addrs: string, relayAddrs: string, expiresAt: int)

  /** Signature, key and PeerID checks of a record; freshness apart. */
  type Verifier = (Urn, Proof) -> bool

  const PAST := 300
  const FUTURE := 60
  const MAX_ADDRS := 64
  const MAX_ADDR := 2048

  /** The admission rule at the moment it is evaluated. */
  predicate Admissible(verify: Verifier, urn: Urn, proof: Proof, checkedAt: int) {
    verify(urn, proof) && proof.timestamp > 0 && checkedAt - PAST <= proof.timestamp <= checkedAt + FUTURE
  }

  predicate ListsFit(list: seq<Bytes>) {
    |list| <= MAX_ADDRS && forall i | 0 <= i < |list| :: |list[i]| <= MAX_ADDR
  }

  /** Whether a validated record may replace what is stored under its URN. */
  predicate Supersedes(verify: Verifier, rows: map<Urn, Row>, urn: Urn, proof: Proof) {
    urn in rows && verify(urn, rows[urn].proof) ==> rows[urn].proof.timestamp <= proof.timestamp
  }

  predicate Accepts(verify: Verifier, rows: map<Urn, Row>, urn: Urn, proof: Proof, addrs: seq<Bytes>, relays: seq<Bytes>, checkedAt: int) {
    && Admissible(verify, urn, proof, checkedAt)
    && ListsFit(addrs) && ListsFit(relays)
    && Supersedes(verify, rows, urn, proof)
  }

  function Swept(rows: map<Urn, Row>, now: int): map<Urn, Row> {
    map urn | urn in rows && !(0 < rows[urn].expiresAt < now) :: rows[urn]
  }

  /** What a lookup serves: the record of a running lease whose signature verifies, with its decoded lists. */
  function Resolved(verify: Verifier, rows: map<Urn, Row>, urn: Urn, now: int): Option<(Proof, seq<Bytes>, seq<Bytes>)> {
    if urn in rows && rows[urn].expiresAt > now && verify(urn, rows[urn].proof)
    then Some((rows[urn].proof, Decode(rows[urn].addrs), Decode(rows[urn].relayAddrs)))
    else None
  }

  class Store {
    const verify: Verifier
    const ttl: int
    var rows: map<Urn, Row>

    constructor (verify: Verifier, ttl: int)
      ensures this.verify == verify && this.ttl == ttl && rows == map[]
    {
      this.verify, this.ttl, rows := verify, ttl, map[];
    }

    /** `checkedAt` is the clock of the freshness check, `now` the later reading the lease starts from. */
    method RegisterWithSignature(urn: Urn, proof: Proof, addrs: seq<Bytes>, relays: seq<Bytes>, checkedAt: int, now: int) returns (ok: bool)
      modifies this`rows
      ensures ok == Accepts(verify, old(rows), urn, proof, addrs, relays, checkedAt)
      ensures rows == if ok then old(rows)[urn := Row(proof, Encode(addrs), Encode(relays), now + ttl)] else old(rows)
    {
      if !Admissible(verify, urn, proof, checkedAt) {
        return false;
      }
      var lists := [addrs, relays];
      for i := 0 to |lists|
        invariant forall j | 0 <= j < i :: ListsFit(lists[j])
      {
        if |lists[i]| > MAX_ADDRS {
          assert !ListsFit(lists[i]);
          return false;
        }
        for k := 0 to |lists[i]|
          invariant forall j | 0 <= j < k :: |lists[i][j]| <= MAX_ADDR
        {
          if |lists[i][k]| > MAX_ADDR {
            assert !ListsFit(lists[i]);
            return false;
          }
        }
      }
      assert ListsFit(lists[0]) && ListsFit(lists[1]);
      var addrsText := EncodeStringSlice(addrs);
      var relayText := EncodeStringSlice(relays);
      if urn in rows && proof.timestamp < rows[urn].proof.timestamp && verify(urn, rows[urn].proof) {
        return false;
      }
      rows := rows[urn := Row(proof, addrsText, relayText, now + ttl)];
      return true;
    }

    /** Serves a record while its lease runs and its signature verifies. */
    method ResolveEntry(urn: Urn, now: int) returns (r: Option<(Proof, seq<Bytes>, seq<Bytes>)>)
      ensures r == Resolved(verify, rows, urn, now)
    {
      if urn !in rows || rows[urn].expiresAt <= now {
        return None;
      }
      var addrs := DecodeStringSlice(rows[urn].addrs);
      var relays := DecodeStringSlice(rows[urn].relayAddrs);
      if !verify(urn, rows[urn].proof) {
        return None;
      }
      return Some((rows[urn].proof, addrs, relays));
    }

    method ClearAllEntries()
      modifies this`rows
      ensures rows == map[]
    {
      rows := map[];
    }

    /** One tick of the cleanup loop. */
    method Cleanup(now: int)
      modifies this`rows
      ensures rows == Swept(old(rows), now)
    {
      rows := map urn | urn in rows && !(rows[urn].expiresAt > 0 && rows[urn].expiresAt < now) :: rows[urn];
    }
  }

  // ---- The rules in seconds and counts ------------------------------------

  /** Which records are accepted: signed, at most five minutes old and one ahead, bounded lists, not older than a signed one on file. */
  lemma AcceptedIff(verify: Verifier, rows: map<Urn, Row>, urn: Urn, proof: Proof, addrs: seq<Bytes>, relays: seq<Bytes>, checkedAt: int)
    ensures Accepts(verify, rows, urn, proof, addrs, relays, checkedAt) <==>
      && verify(urn, proof) && proof.timestamp > 0 && checkedAt - 300 <= proof.timestamp <= checkedAt + 60
      && |addrs| <= 64 && |relays| <= 64
      && (forall i | 0 <= i < |addrs| :: |addrs[i]| <= 2048) && (forall i | 0 <= i < |relays| :: |relays[i]| <= 2048)
      && (urn in rows && rows[urn].proof.timestamp > proof.timestamp ==> !verify(urn, rows[urn].proof))
  {
  }

  /** A lookup answers while the lease runs and the record on file verifies, and a sweep drops only what no lookup answers. */
  lemma ServedIff(verify: Verifier, rows: map<Urn, Row>, urn: Urn, now: int)
    ensures Resolved(verify, rows, urn, now).Some? <==> urn in rows && now < rows[urn].expiresAt && verify(urn, rows[urn].proof)
    ensures Resolved(verify, rows, urn, now).Some? ==> Resolved(verify, rows, urn, now).value.0 == rows[urn].proof
    ensures urn in Swept(rows, now) <==> urn in rows && (rows[urn].expiresAt <= 0 || now <= rows[urn].expiresAt)
    ensures urn in Swept(rows, now) ==> Swept(rows, now)[urn] == rows[urn]
  {
  }

  // ---- Whole runs ---------------------------------------------------------

  /** A registration reaching its write under the lease then configured, or a cleanup tick that read `now`, at clock `at`. */
  datatype Event =
    | Attempt(at: int, urn: Urn, proof: Proof, addrs: seq<Bytes>, relays: seq<Bytes>, checkedAt: int, now: int, ttl: int)
    | Sweep(at: int, now: int)

  predicate Accepted(verify: Verifier, rows: map<Urn, Row>, e: Event) {
    e.Attempt? && Accepts(verify, rows, e.urn, e.proof, e.addrs, e.relays, e.checkedAt)
  }

  function Step(verify: Verifier, rows: map<Urn, Row>, e: Event): map<Urn, Row> {
    if e.Sweep? then Swept(rows, e.now)
    else if Accepted(verify, rows, e) then rows[e.urn := Row(e.proof, Encode(e.addrs), Encode(e.relays), e.now + e.ttl)]
    else rows
  }

  function After(verify: Verifier, es: seq<Event>, i: nat): map<Urn, Row>
    requires i <= |es|
  {
    if i == 0 then map[] else Step(verify, After(verify, es, i - 1), es[i - 1])
  }

  /** Clocks never go back, neither from event to event nor within a registration. */
  ghost predicate Timed(es: seq<Event>) {
    && (forall i, j | 0 <= i < j < |es| :: es[i].at <= es[j].at)
    && (forall i | 0 <= i < |es| && es[i].Attempt? :: 0 < es[i].checkedAt <= es[i].now <= es[i].at)
    && (forall i | 0 <= i < |es| && es[i].Sweep? :: es[i].now <= es[i].at)
  }

  /** The configured lease may change from start to start, but never below `lease`. */
  ghost predicate LeasesAtLeast(es: seq<Event>, lease: int) {
    forall i | 0 <= i < |es| && es[i].Attempt? :: lease <= es[i].ttl
  }

  /** The longest a registration may wait between its freshness check and its write. */
  function Room(lease: int): int {
    lease - (PAST + FUTURE) + 1
  }

  /** What an accepted timestamp leaves behind: a record at least as new, or a clock beyond its lease. */
  predicate Remembered(verify: Verifier, lease: int, rows: map<Urn, Row>, clock: int, urn: Urn, timestamp: int) {
    || (urn in rows && verify(urn, rows[urn].proof) && timestamp <= rows[urn].proof.timestamp
        && timestamp - FUTURE + lease <= rows[urn].expiresAt)
    || timestamp - FUTURE + lease < clock
  }

  lemma StepRemembers(verify: Verifier, lease: int, rows: map<Urn, Row>, clock: int, e: Event, urn: Urn, timestamp: int)
    requires Remembered(verify, lease, rows, clock, urn, timestamp) && clock <= e.at
    requires e.Attempt? ==> e.checkedAt <= e.now <= e.at && lease <= e.ttl
    requires e.Sweep? ==> e.now <= e.at
    ensures Remembered(verify, lease, Step(verify, rows, e), e.at, urn, timestamp)
      || (Accepted(verify, rows, e) && e.urn == urn && e.at - e.checkedAt > Room(lease))
    ensures Accepted(verify, rows, e) && e.urn == urn && e.at - e.checkedAt <= Room(lease) ==> timestamp <= e.proof.timestamp
  {
  }

  /** No registration accepted for the URN between two events waited too long. */
  ghost predicate WaitsFit(verify: Verifier, es: seq<Event>, lease: int, urn: Urn, i: nat, k: nat)
    requires k <= |es|
  {
    forall j | i < j < k && Accepted(verify, After(verify, es, j), es[j]) && es[j].urn == urn :: es[j].at - es[j].checkedAt <= Room(lease)
  }

  lemma {:induction false} TimestampIsRemembered(verify: Verifier, lease: int, es: seq<Event>, i: nat, k: nat)
    requires Timed(es) && LeasesAtLeast(es, lease) && i < k <= |es|
    requires Accepted(verify, After(verify, es, i), es[i]) && WaitsFit(verify, es, lease, es[i].urn, i, k)
    ensures Remembered(verify, lease, After(verify, es, k), es[k - 1].at, es[i].urn, es[i].proof.timestamp)
    decreases k
  {
    if i < k - 1 {
      TimestampIsRemembered(verify, lease, es, i, k - 1);
      StepRemembers(verify, lease, After(verify, es, k - 1), es[k - 2].at, es[k - 1], es[i].urn, es[i].proof.timestamp);
    }
  }

  /**
   From an empty registry, the timestamps accepted for one URN never decrease, across lease expiry, cleanup and restarts that
   change the lease, as long as its registrations wait no longer than the shortest lease leaves room for.
   */
  lemma NeverRollsBack(verify: Verifier, lease: int, es: seq<Event>, i: nat, j: nat)
    requires Timed(es) && LeasesAtLeast(es, lease) && i < j < |es|
    requires Accepted(verify, After(verify, es, i), es[i]) && Accepted(verify, After(verify, es, j), es[j])
    requires es[i].urn == es[j].urn && WaitsFit(verify, es, lease, es[i].urn, i, j + 1)
    ensures es[i].proof.timestamp <= es[j].proof.timestamp
  {
    TimestampIsRemembered(verify, lease, es, i, j);
    StepRemembers(verify, lease, After(verify, es, j), es[j - 1].at, es[j], es[i].urn, es[i].proof.timestamp);
  }

  /**
   A run under leases of at least `lease` whose event `j` waited `wait` seconds and accepts a timestamp older than one
   accepted before; every other wait fits.
   */
  ghost predicate RollsBack(verify: Verifier, lease: int, wait: int, es: seq<Event>, i: nat, j: nat) {
    && Timed(es) && LeasesAtLeast(es, lease) && i < j < |es|
    && Accepted(verify, After(verify, es, i), es[i]) && Accepted(verify, After(verify, es, j), es[j])
    && WaitsFit(verify, es, lease, es[i].urn, i, j)
    && es[i].urn == es[j].urn && es[j].proof.timestamp < es[i].proof.timestamp
    && es[j].at - es[j].checkedAt == wait
  }

  const T := 1000

  /** The newest admissible record, its lease and a sweep, then the oldest record that was still admissible `wait` ago. */
  function Replay(lease: int, wait: int, newer: Proof, older: Proof): seq<Event> {
    var late := older.timestamp + PAST + wait;
    [Attempt(T, "u", newer, [], [], T, T, lease), Sweep(late, late), Attempt(late, "u", older, [], [], older.timestamp + PAST, late, lease)]
  }

  lemma LongWaitRollsBack(lease: int, wait: int, newer: Proof, older: Proof)
    requires lease >= PAST + FUTURE && wait > Room(lease)
    requires newer.timestamp == T + FUTURE && older.timestamp == T + FUTURE - 1
    ensures RollsBack((u, p) => true, lease, wait, Replay(lease, wait, newer, older), 0, 2)
  {
    var verify: Verifier := (u, p) => true;
    var es := Replay(lease, wait, newer, older);
    var one := After(verify, es, 1);
    assert one == Step(verify, After(verify, es, 0), es[0]);
    assert After(verify, es, 2) == Swept(one, es[1].now);
    assert "u" !in After(verify, es, 2);
  }

  /** A registration can roll a URN back if and only if its check and its write lie further apart than the lease minus 359 seconds. */
  lemma RollbackIffLongWait(lease: int, wait: int)
    requires lease >= PAST + FUTURE
    ensures (exists verify: Verifier, es: seq<Event>, i: nat, j: nat :: RollsBack(verify, lease, wait, es, i, j)) <==> wait > Room(lease)
  {
    if wait > Room(lease) {
      var newer := Proof("", [], [], [], false, T + FUTURE);
      LongWaitRollsBack(lease, wait, newer, newer.(timestamp := T + FUTURE - 1));
    }
    forall verify: Verifier, es: seq<Event>, i: nat, j: nat | RollsBack(verify, lease, wait, es, i, j)
      ensures wait > Room(lease)
    {
      if wait <= Room(lease) {
        NeverRollsBack(verify, lease, es, i, j);
      }
    }
  }

  // ---- What lookups serve -------------------------------------------------

  /** A list as a lookup gives it back. */
  function Served(list: seq<Bytes>): seq<Bytes> {
    if list == [[]] then [] else list
  }

  /** No registration accepted for the URN between two events. */
  ghost predicate NoneAccepted(verify: Verifier, es: seq<Event>, urn: Urn, i: nat, k: nat)
    requires k <= |es|
  {
    forall j | i <= j < k && Accepted(verify, After(verify, es, j), es[j]) :: es[j].urn != urn
  }

  /**
   A registered record is served exactly as registered, lists included, until its lease ends, and not beyond, while no other
   registration of the URN is accepted, whatever other registrations and cleanups come in between.
   */
  lemma RegisteredIsServed(verify: Verifier, es: seq<Event>, i: nat, k: nat, now: int)
    requires Timed(es) && i < k <= |es| && Accepted(verify, After(verify, es, i), es[i])
    requires NoneAccepted(verify, es, es[i].urn, i + 1, k) && es[k - 1].at <= now
    ensures Resolved(verify, After(verify, es, k), es[i].urn, now) ==
      if now < es[i].now + es[i].ttl then Some((es[i].proof, Served(es[i].addrs), Served(es[i].relays))) else None
  {
    hide Encode, Decode, Admissible, ListsFit, NoneAccepted;
    RegisteredStays(verify, es, i, k, now);
    RoundTrip(es[i].addrs);
    RoundTrip(es[i].relays);
    AcceptedVerifies(verify, After(verify, es, i), es[i]);
  }

  lemma AcceptedVerifies(verify: Verifier, rows: map<Urn, Row>, e: Event)
    requires Accepted(verify, rows, e)
    ensures verify(e.urn, e.proof)
  {
  }

  lemma {:induction false} RegisteredStays(verify: Verifier, es: seq<Event>, i: nat, k: nat, now: int)
    requires Timed(es) && i < k <= |es| && Accepted(verify, After(verify, es, i), es[i])
    requires NoneAccepted(verify, es, es[i].urn, i + 1, k) && es[k - 1].at <= now
    ensures var rows, urn := After(verify, es, k), es[i].urn;
      && (urn in rows ==> rows[urn] == Row(es[i].proof, Encode(es[i].addrs), Encode(es[i].relays), es[i].now + es[i].ttl))
      && (now < es[i].now + es[i].ttl ==> urn in rows)
    decreases k
  {
    hide Encode, Accepts;
    if i < k - 1 {
      RegisteredStays(verify, es, i, k - 1, now);
    }
  }

  /** A URN nobody registered is not served. */
  lemma UnregisteredIsNotServed(verify: Verifier, es: seq<Event>, k: nat, urn: Urn, now: int)
    requires k <= |es| && NoneAccepted(verify, es, urn, 0, k)
    ensures Resolved(verify, After(verify, es, k), urn, now).None?
  {
    NeverOnFile(verify, es, k, urn);
  }

  lemma NoneAcceptedUnfolds(verify: Verifier, es: seq<Event>, urn: Urn, k: nat)
    requires 0 < k <= |es| && NoneAccepted(verify, es, urn, 0, k)
    ensures NoneAccepted(verify, es, urn, 0, k - 1)
    ensures Accepted(verify, After(verify, es, k - 1), es[k - 1]) ==> es[k - 1].urn != urn
  {
    hide After, Accepts;
  }

  lemma AfterUnfolds(verify: Verifier, es: seq<Event>, k: nat)
    requires k <= |es|
    ensures After(verify, es, k) == if k == 0 then map[] else Step(verify, After(verify, es, k - 1), es[k - 1])
  {
    hide Step;
  }

  lemma StaysOffFile(verify: Verifier, rows: map<Urn, Row>, e: Event, urn: Urn)
    ensures urn !in rows && (Accepted(verify, rows, e) ==> e.urn != urn) ==> urn !in Step(verify, rows, e)
  {
    hide Accepts, Encode;
  }

  lemma {:induction false} NeverOnFile(verify: Verifier, es: seq<Event>, k: nat, urn: Urn)
    requires k <= |es| && NoneAccepted(verify, es, urn, 0, k)
    ensures urn !in After(verify, es, k)
    decreases k
  {
    hide *;
    AfterUnfolds(verify, es, k);
    if k > 0 {
      NoneAcceptedUnfolds(verify, es, urn, k);
      NeverOnFile(verify, es, k - 1, urn);
      StaysOffFile(verify, After(verify, es, k - 1), es[k - 1], urn);
    }
  }
}
