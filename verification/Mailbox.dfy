/**
 The mailbox store as the platform runs it: tables and policy fields updated in place by methods that
 mirror the source's statements, each tied to the transaction functions of MailboxModel.
 Clock readings, the verdicts of collaborators and failing statements are arguments.
 */
module Mailbox {
  import opened Prelude
  import opened Ordering
  import opened MailboxModel
  import opened Retrieval
  import opened RowLaws

  const ACK_BATCH := 16
  const GRANT_CACHE := 1024

  /** Grants already looked up during one retrieval. */
  type GrantCache = map<Urn, Option<Identity>>

  /** A cached grant is the one the table would give. */
  ghost predicate CacheSound(db: Tables, issuer: Bytes, cache: GrantCache) {
    |issuer| == ISSUER_SIZE ==> forall urn | urn in cache :: cache[urn] == LoadGrant(db, issuer, urn)
  }

  /** managedAt: the answer, and the cache with the grant it needed while there is room. */
  function ManagedAtCached(db: Tables, proc: Process, cache: GrantCache, urn: Urn, key: Option<Bytes>, storedAtNs: int, now: int): (r: (bool, GrantCache))
    requires CacheSound(db, proc.issuer, cache) && |cache| <= GRANT_CACHE
    ensures r.0 == IsManagedAt(db, proc.issuer, proc.policyExpiry, urn, key, storedAtNs, now)
    ensures CacheSound(db, proc.issuer, r.1) && |r.1| <= 1024
  {
    if |proc.issuer| != ISSUER_SIZE || now >= proc.policyExpiry then (false, cache)
    else if urn in cache then (Permits(cache[urn], key, storedAtNs, proc.policyExpiry, now), cache)
    else
      var grant := LoadGrant(db, proc.issuer, urn);
      assert cache[urn := grant].Keys == cache.Keys + {urn};
      (Permits(grant, key, storedAtNs, proc.policyExpiry, now), if |cache| < GRANT_CACHE then cache[urn := grant] else cache)
  }

  /** The row filter of a retrieval: undecodable rows and, under a strict policy, unmanaged ones are passed over. */
  function ShowsCached(sdk: Sdk, db: Tables, proc: Process, cache: GrantCache, recipient: Urn, row: V1Row, now: int): (r: (bool, GrantCache))
    requires CacheSound(db, proc.issuer, cache) && |cache| <= GRANT_CACHE
    ensures r.0 <==>
      && sdk.decodeV1(row.payload).Some?
      && (proc.required ==> ManagedRoute(db, proc, recipient, sdk.decodeV1(row.payload).value, row.storedAtNs, now))
    ensures CacheSound(db, proc.issuer, r.1) && |r.1| <= 1024
  {
    hide IsManagedAt, CacheSound;
    var decoded := sdk.decodeV1(row.payload);
    if decoded.None? then (false, cache)
    else if !proc.required then (true, cache)
    else
      var byRecipient := ManagedAtCached(db, proc, cache, recipient, None, row.storedAtNs, now);
      if byRecipient.0 then byRecipient
      else ManagedAtCached(db, proc, byRecipient.1, decoded.value.senderUrn, decoded.value.senderKey, row.storedAtNs, now)
  }

  /** Each returned envelope is the decoded payload of the row with the returned ID. */
  ghost predicate Decoded(sdk: Sdk, v1: map<Id, V1Row>, envs: seq<V1Envelope>, ids: seq<Id>) {
    |envs| == |ids| && forall i | 0 <= i < |ids| :: ids[i] in v1 && Some(envs[i]) == sdk.decodeV1(v1[ids[i]].payload)
  }

  /** What the three retrievals hand out, element by element. */
  lemma HandedOut(sdk: Sdk, db: Tables, envs: seq<V1Envelope>, ids: seq<Id>, messages: seq<(Id, Bytes, Bytes)>, frames: seq<(Id, Bytes)>, keys: seq<Key>)
    ensures Decoded(sdk, db.v1, envs, ids) <==>
      |envs| == |ids| && forall i | 0 <= i < |ids| :: ids[i] in db.v1 && sdk.decodeV1(db.v1[ids[i]].payload) == Some(envs[i])
    ensures Delivers(db.v2, messages, keys) ==> |messages| == |keys| && forall i | 0 <= i < |keys| ::
      var (id, envelope, receipt) := messages[i]; id == keys[i].id && id in db.v2 && envelope == db.v2[id].envelope && receipt == db.v2[id].receipt
    ensures FramesOf(db.frames, frames, keys) ==> |frames| == |keys| && forall i | 0 <= i < |keys| ::
      var (id, frame) := frames[i]; id == keys[i].id && id in db.frames && frame == db.frames[id].frame
  {
  }

  /** The variables a retrieval updates from row to row. */
  datatype Progress = Progress(cursor: Key, cache: GrantCache, envs: seq<V1Envelope>, ids: seq<Id>, totalBytes: nat)

  function Scanned(db: Tables, recipient: Urn, at: int): seq<Key> {
    Sorted(PendingKeys(db.v1, recipient, Unix(at)))
  }

  function Expected(sdk: Sdk, db: Tables, proc: Process, recipient: Urn, at: int): seq<Key> {
    Batch(SizesV1(db.v1), Inbox(sdk, db, proc, recipient, at))
  }

  /** A retrieval that has passed the first p pending rows and may go on. */
  ghost predicate Reached(sdk: Sdk, db: Tables, proc: Process, recipient: Urn, at: int, g: Progress, p: nat, out: seq<Key>) {
    && CursorAt(Scanned(db, recipient, at), g.cursor, p)
    && Scan(SizesV1(db.v1), Scanned(db, recipient, at), DeliverableKeys(sdk, db, proc, recipient, at),
            Expected(sdk, db, proc, recipient, at), p, out, g.totalBytes)
    && g.ids == Ids(out) && Decoded(sdk, db.v1, g.envs, g.ids) && |g.envs| == |out| < MAX_BATCH
    && CacheSound(db, proc.issuer, g.cache) && |g.cache| <= GRANT_CACHE
  }

  lemma ReachedAtStart(sdk: Sdk, db: Tables, proc: Process, recipient: Urn, at: int)
    ensures Reached(sdk, db, proc, recipient, at, Progress(Key(MIN_INT64, ""), map[], [], [], 0), 0, [])
  {
    DeliverableArePending(sdk, db, proc, recipient, at);
    hide Scan, DeliverableKeys, PendingKeys;
    ScanStarts(SizesV1(db.v1), PendingKeys(db.v1, recipient, Unix(at)), DeliverableKeys(sdk, db, proc, recipient, at));
  }

  lemma ReachedAtEnd(sdk: Sdk, db: Tables, proc: Process, recipient: Urn, at: int, g: Progress, out: seq<Key>)
    requires Reached(sdk, db, proc, recipient, at, g, |Scanned(db, recipient, at)|, out)
    ensures g.ids == Ids(Expected(sdk, db, proc, recipient, at)) && Decoded(sdk, db.v1, g.envs, g.ids)
  {
    hide Scan, DeliverableKeys, Expected, Scanned, Decoded, CacheSound;
    ScanEnds(SizesV1(db.v1), Scanned(db, recipient, at), DeliverableKeys(sdk, db, proc, recipient, at),
             Expected(sdk, db, proc, recipient, at), |Scanned(db, recipient, at)|, out, g.totalBytes);
  }

  /** The next page is the next slice of the scan; an empty or short page is the last one. */
  lemma NextPage(sdk: Sdk, db: Tables, proc: Process, recipient: Urn, at: int, g: Progress, p: nat, out: seq<Key>, limit: nat)
    requires Reached(sdk, db, proc, recipient, at, g, p, out) && limit > 0
    requires forall id | id in db.v1 :: db.v1[id].storedAt > MIN_INT64
    ensures var all := Scanned(db, recipient, at);
      var page := Page(db.v1, recipient, g.cursor, limit, Unix(at));
      && p + |page| <= |all|
      && (forall i | 0 <= i < |page| :: page[i] == all[p + i])
      && (|page| < limit ==> p + |page| == |all|)
      && |g.envs| == |out| < MAX_BATCH
  {
    hide Scan, DeliverableKeys, PendingKeys, Page;
    PageIsSlice(db.v1, recipient, g.cursor, limit, Unix(at), p);
  }

  lemma OneMore(sdk: Sdk, v1: map<Id, V1Row>, envs: seq<V1Envelope>, out: seq<Key>, env: V1Envelope, k: Key)
    requires Decoded(sdk, v1, envs, Ids(out)) && k.id in v1 && Some(env) == sdk.decodeV1(v1[k.id].payload)
    ensures Decoded(sdk, v1, envs + [env], Ids(out) + [k.id]) && Ids(out + [k]) == Ids(out) + [k.id]
  {
  }

  /** One row of a retrieval: passed over, added, or found not to fit; the flag ends the retrieval. */
  function ScanRow(sdk: Sdk, db: Tables, proc: Process, recipient: Urn, at: int, g: Progress, item: Key): (Progress, bool)
    requires item.id in db.v1 && CacheSound(db, proc.issuer, g.cache) && |g.cache| <= GRANT_CACHE
  {
    var row := db.v1[item.id];
    var (shown, cache) := ShowsCached(sdk, db, proc, g.cache, recipient, row, Unix(at));
    if !shown then (g.(cursor := item, cache := cache), false)
    else if g.totalBytes + |row.payload| > MAX_RETRIEVE && |g.envs| > 0 then (g, true)
    else
      var next := Progress(item, cache, g.envs + [sdk.decodeV1(row.payload).value], g.ids + [item.id], g.totalBytes + |row.payload|);
      (next, |next.envs| == MAX_BATCH)
  }

  lemma RowIsPending(db: Tables, recipient: Urn, at: int, item: Key)
    requires item in Scanned(db, recipient, at)
    ensures item in PendingKeys(db.v1, recipient, Unix(at)) && item.id in db.v1
  {
  }

  /** Whether the row is shown is whether it is deliverable, and the answer keeps the cache sound. */
  lemma RowVerdict(sdk: Sdk, db: Tables, proc: Process, recipient: Urn, at: int, g: Progress, item: Key, p: nat, out: seq<Key>)
    requires Reached(sdk, db, proc, recipient, at, g, p, out)
    requires p < |Scanned(db, recipient, at)| && item == Scanned(db, recipient, at)[p]
    ensures item.id in db.v1 && CacheSound(db, proc.issuer, g.cache) && |g.cache| <= GRANT_CACHE
    ensures Size(SizesV1(db.v1), item) == |db.v1[item.id].payload|
    ensures var (shown, cache) := ShowsCached(sdk, db, proc, g.cache, recipient, db.v1[item.id], Unix(at));
      && (shown <==> item in DeliverableKeys(sdk, db, proc, recipient, at))
      && (shown ==> sdk.decodeV1(db.v1[item.id].payload).Some?)
      && CacheSound(db, proc.issuer, cache) && |cache| <= GRANT_CACHE
  {
    assert item in Scanned(db, recipient, at);
    RowIsPending(db, recipient, at, item);
    hide Scan, Size, SizesV1, DeliverableKeys, PendingKeys, Scanned, CacheSound, ShowsCached, ManagedRoute, Decoded;
    ScannedRow(sdk, db, proc, recipient, at, item);
  }

  lemma ScanRowAdvances(sdk: Sdk, db: Tables, proc: Process, recipient: Urn, at: int, g: Progress, item: Key, p: nat, out: seq<Key>)
    returns (kept: seq<Key>)
    requires Reached(sdk, db, proc, recipient, at, g, p, out)
    requires p < |Scanned(db, recipient, at)| && item == Scanned(db, recipient, at)[p]
    ensures item.id in db.v1 && CacheSound(db, proc.issuer, g.cache) && |g.cache| <= GRANT_CACHE
    ensures var (next, full) := ScanRow(sdk, db, proc, recipient, at, g, item);
      if full then next.ids == Ids(Expected(sdk, db, proc, recipient, at)) && Decoded(sdk, db.v1, next.envs, next.ids)
      else Reached(sdk, db, proc, recipient, at, next, p + 1, kept) && |next.envs| < MAX_BATCH
  {
    hide Scan, Size, SizesV1, DeliverableKeys, PendingKeys, Expected, Scanned, CacheSound, ShowsCached, ManagedRoute, Decoded;
    var sizes, all := SizesV1(db.v1), Scanned(db, recipient, at);
    var visible, batch := DeliverableKeys(sdk, db, proc, recipient, at), Expected(sdk, db, proc, recipient, at);
    RowVerdict(sdk, db, proc, recipient, at, g, item, p, out);
    var row := db.v1[item.id];
    var (next, full) := ScanRow(sdk, db, proc, recipient, at, g, item);
    if item in visible {
      ScanTakes(sizes, all, visible, batch, p, out, g.totalBytes, item, |row.payload|);
      OneMore(sdk, db.v1, g.envs, out, sdk.decodeV1(row.payload).value, item);
      kept := out + [item];
      if full && |next.envs| > |g.envs| {
        ScanEnds(sizes, all, visible, batch, p + 1, kept, next.totalBytes);
      }
    } else {
      ScanSkips(sizes, all, visible, batch, p, out, g.totalBytes);
      kept := out;
    }
  }

  /** The messages are the rows under `keys`, in order, each with its receipt. */
  ghost predicate Delivers(v2: map<Id, V2Row>, messages: seq<(Id, Bytes, Bytes)>, keys: seq<Key>) {
    |messages| == |keys| && forall i | 0 <= i < |keys| ::
      keys[i].id in v2 && messages[i] == (keys[i].id, v2[keys[i].id].envelope, v2[keys[i].id].receipt)
  }

  lemma OneLess<R>(m: map<Id, R>, id: Id)
    requires id in m
    ensures |m - {id}| == |m| - 1
  {
    assert (m - {id}).Keys == m.Keys - {id};
    assert |m - {id}| == |(m - {id}).Keys| && |m| == |m.Keys|;
  }

  lemma Smaller<R>(m: map<Id, R>, part: map<Id, R>)
    requires part.Keys <= m.Keys
    ensures |part| <= |m|
  {
    SubsetCardinality(part.Keys, m.Keys);
    assert |part.Keys| == |part| && |m.Keys| == |m|;
  }

  lemma DeliversNothing(v2: map<Id, V2Row>)
    ensures Delivers(v2, [], []) && Total(SizesV2(v2), []) == 0
  {
  }

  lemma DeliversOneMore(v2: map<Id, V2Row>, messages: seq<(Id, Bytes, Bytes)>, box: seq<Key>, i: nat)
    requires i < |box| && Delivers(v2, messages, box[..i]) && box[i].id in v2
    ensures Delivers(v2, messages + [(box[i].id, v2[box[i].id].envelope, v2[box[i].id].receipt)], box[..i + 1])
  {
    assert box[..i + 1] == box[..i] + [box[i]];
  }

  /** A v2 retrieval that has taken the first i rows of the box and may go on. */
  ghost predicate ReachedV2(v2: map<Id, V2Row>, box: seq<Key>, i: nat, out: seq<(Id, Bytes, Bytes)>, total: nat) {
    && i <= |box| && |out| == i && Delivers(v2, out, box[..i])
    && total == Total(SizesV2(v2), box[..i]) && Fill(SizesV2(v2), box, 0) == Fill(SizesV2(v2), box, i)
  }

  lemma ReachedV2AtStart(v2: map<Id, V2Row>, box: seq<Key>)
    ensures ReachedV2(v2, box, 0, [], 0)
  {
    DeliversNothing(v2);
    assert box[..0] == [];
    hide Delivers, Fill, SizesV2;
  }

  /** The next row joins the batch, or the batch is complete. */
  lemma ReachedV2Step(db: Tables, proc: Process, recipient: Urn, now: int, i: nat, out: seq<(Id, Bytes, Bytes)>, total: nat)
    requires var box := InboxV2(db, proc, recipient, now); ReachedV2(db.v2, box, i, out, total) && i < |box| && i < MAX_BATCH
    ensures var box := InboxV2(db, proc, recipient, now);
      && box[i].id in db.v2
      && var row := db.v2[box[i].id];
         var weight := total + |row.envelope| + |row.receipt|;
         if weight > MAX_RETRIEVE && |out| > 0 then Delivers(db.v2, out, Batch(SizesV2(db.v2), box))
         else ReachedV2(db.v2, box, i + 1, out + [(box[i].id, row.envelope, row.receipt)], weight)
  {
    var box := InboxV2(db, proc, recipient, now);
    V2RowOf(db, proc, recipient, now, box[i]);
    hide InboxV2, Fill, Total, Delivers, SizesV2, Batch;
    FillStep(SizesV2(db.v2), box, i);
    DeliversOneMore(db.v2, out, box, i);
    var row := db.v2[box[i].id];
    if total + |row.envelope| + |row.receipt| > MAX_RETRIEVE && |out| > 0 {
      BatchIs(SizesV2(db.v2), box, i);
    }
  }

  lemma ReachedV2AtEnd(v2: map<Id, V2Row>, box: seq<Key>, i: nat, out: seq<(Id, Bytes, Bytes)>, total: nat)
    requires ReachedV2(v2, box, i, out, total) && (i == |box| || i == MAX_BATCH)
    ensures Delivers(v2, out, Batch(SizesV2(v2), box))
  {
    hide Delivers, Fill, Total, SizesV2, Batch;
    BatchIs(SizesV2(v2), box, i);
  }

  lemma V2RowOf(db: Tables, proc: Process, recipient: Urn, now: int, k: Key)
    requires k in InboxV2(db, proc, recipient, now)
    ensures k.id in db.v2 && Size(SizesV2(db.v2), k) == |db.v2[k.id].envelope| + |db.v2[k.id].receipt|
  {
  }

  /** The frames under `keys`, in order. */
  ghost predicate FramesOf(frames: map<Id, FrameRow>, out: seq<(Id, Bytes)>, keys: seq<Key>) {
    |out| == |keys| && forall i | 0 <= i < |keys| :: keys[i].id in frames && out[i] == (keys[i].id, frames[keys[i].id].frame)
  }

  lemma FrameRowOf(db: Tables, recipient: Urn, now: int, k: Key)
    requires k in FrameRead(db, recipient, now)
    ensures k.id in db.frames
  {
    assert k in FrameBox(db, recipient, now);
  }

  // ---- Facts about acknowledgement ----------------------------------------

  lemma NoIds(sdk: Sdk, db: Tables, proc: Process, recipient: Urn, at: int)
    ensures Ackable(sdk, db, proc, recipient, [], at) == {}
  {
  }

  lemma MarkNothing(v1: map<Id, V1Row>, recipient: Urn, at: int)
    ensures MarkV1(v1, recipient, {}, at) == v1 && MarkedV1(v1, recipient, {}, at) == {}
  {
  }

  lemma NothingToAck(sdk: Sdk, db: Tables, proc: Process, recipient: Urn, ids: seq<Id>, at: int)
    requires ids == []
    ensures var pairs := Ackable(sdk, db, proc, recipient, ids, at);
      MarkV1(db.v1, recipient, pairs, at) == db.v1 && MarkedV1(db.v1, recipient, pairs, at) == {}
  {
    NoIds(sdk, db, proc, recipient, at);
    MarkNothing(db.v1, recipient, at);
  }

  lemma NoV2ToAck(db: Tables, proc: Process, recipient: Urn, ids: seq<Id>, at: int)
    requires ids == []
    ensures MarkV2(db, proc, recipient, IdSet(ids), at) == db
    ensures MarkedV2(db.v2, recipient, proc.policyHash, IdSet(ids), Unix(at)) == {}
  {
    assert MarkV2(db, proc, recipient, IdSet(ids), at).v2 == db.v2;
  }

  lemma NoFramesToAck(db: Tables, recipient: Urn, ids: seq<Id>, at: int)
    requires ids == []
    ensures MarkFrames(db, recipient, IdSet(ids), at) == db
    ensures PendingFrameIds(db, recipient, Unix(at)) * IdSet(ids) == {}
  {
    assert MarkFrames(db, recipient, IdSet(ids), at).frames == db.frames;
  }

  /** Duplicates across batches collapse: what is ackable of a list is the union over its parts. */
  lemma AckableUnion(sdk: Sdk, db: Tables, proc: Process, recipient: Urn, a: seq<Id>, b: seq<Id>, at: int)
    ensures Ackable(sdk, db, proc, recipient, a + b, at) == Ackable(sdk, db, proc, recipient, a, at) + Ackable(sdk, db, proc, recipient, b, at)
  {
    hide Deliverable, PendingV1;
  }

  /** Without a strict policy, matching by ID alone marks the same rows. */
  lemma AckableById(sdk: Sdk, db: Tables, proc: Process, recipient: Urn, ids: seq<Id>, at: int)
    requires !proc.required
    ensures var pairs := Ackable(sdk, db, proc, recipient, ids, at);
      && MarkV1(db.v1, recipient, pairs, at) ==
         (map id | id in db.v1 :: if id in ids && PendingV1(db.v1[id], recipient, Unix(at)) then db.v1[id].(readAt := Unix(at)) else db.v1[id])
      && MarkedV1(db.v1, recipient, pairs, at) == (set id | id in db.v1 && id in ids && PendingV1(db.v1[id], recipient, Unix(at)))
  {
    hide PendingV1, Deliverable;
    var pairs := Ackable(sdk, db, proc, recipient, ids, at);
    forall id | id in db.v1 && PendingV1(db.v1[id], recipient, Unix(at))
      ensures (id, db.v1[id].storedAtNs) in pairs <==> id in ids
    {
    }
  }

  class Store {
    const sdk: Sdk
    const lim: Limits

    var v1: map<Id, V1Row>
    var v2: map<Id, V2Row>
    var frames: map<Id, FrameRow>
    var policy: Option<Policy>
    var managed: map<Urn, Identity>
    var revocations: map<string, int>
    var admissions: map<Id, Admission>
    var archive: map<Id, ArchiveRow>

    var v2Required: bool
    var v2PolicyHash: string
    var v2PolicyExpiry: int
    var v2ManagedIssuer: Bytes
    var historyDays: int
    var archiveDays: int
    var archiveUsed: bool

    /** Number of live subscriber channels per recipient, and the envelopes offered to them so far. */
    var subscribers: map<Urn, nat>
    var offered: seq<(Urn, Id)>

    function Db(): Tables
      reads this
    {
      Tables(v1, v2, frames, policy, managed, revocations, admissions, archive)
    }

    function Proc(): Process
      reads this
    {
      Process(v2Required, v2PolicyHash, v2PolicyExpiry, v2ManagedIssuer, historyDays, archiveDays, archiveUsed)
    }

    /** NewStore over the tables a previous process left behind. */
    constructor (sdk: Sdk, lim: Limits, db: Tables, now: int)
      ensures this.sdk == sdk && this.lim == lim
      ensures Db() == db.(managed := Backfilled(db.managed, now)) && Proc() == Restarted(db)
      ensures subscribers == map[] && offered == []
    {
      hide Backfilled;
      this.sdk, this.lim := sdk, lim;
      v1, v2, frames, policy := db.v1, db.v2, db.frames, db.policy;
      managed := Backfilled(db.managed, now);
      revocations, admissions, archive := db.revocations, db.admissions, db.archive;
      v2Required := if db.policy.Some? then db.policy.value.required else false;
      v2PolicyHash, v2PolicyExpiry, v2ManagedIssuer := "", 0, [];
      historyDays, archiveDays, archiveUsed := 30, 30, false;
      subscribers, offered := map[], [];
    }

    // ---- v1 ---------------------------------------------------------------

    method StoreEnvelope(recipient: Urn, payload: Bytes, expiry: int, gates: Gates, seen: int, storedAt: int, at: int)
      returns (r: Result<Id, Refusal>)
      modifies this`v1, this`offered
      ensures var (next, outcome) := StoreOutcomeV1(sdk, lim, old(Db()), old(Proc()), gates, recipient, payload, expiry, seen, storedAt, at);
        && Db() == next
        && (if outcome.Err? then r == Err(outcome.error)
            else sdk.decodeV1(payload).Some? && r == Ok(sdk.decodeV1(payload).value.id))
        && offered == old(offered) +
          if outcome == Ok(Fresh) && MayNotify(next, recipient, sdk.decodeV1(payload).value, storedAt, at)
          then [(recipient, sdk.decodeV1(payload).value.id)] else []
      ensures sdk.decodeV1(payload).Some? && sdk.decodeV1(payload).value.id in old(v1) ==> Db() == old(Db()) && offered == old(offered)
    {
      hide CommitV1, IsManagedAt, MayNotify;
      var decoded := sdk.decodeV1(payload);
      if decoded.None? || |decoded.value.id| > 256 || |payload| > MAX_ENVELOPE {
        return Err(Invalid);
      }
      var env := decoded.value;
      if v2Required {
        var managedSender := IsManagedAt(Db(), v2ManagedIssuer, v2PolicyExpiry, env.senderUrn, env.senderKey, seen, Unix(seen));
        var managedRecipient := IsManagedAt(Db(), v2ManagedIssuer, v2PolicyExpiry, recipient, None, seen, Unix(seen));
        if !managedSender && !managedRecipient {
          return Err(UpgradeRequired);
        }
      }
      if !gates.storeOpen {
        return Err(StorageDisabled);
      }
      if !gates.forwardOpen {
        return Err(RecipientBlocked);
      }
      if !gates.verified || !gates.authorized {
        return Err(Unauthorized);
      }
      var maxExpiry := Unix(seen) + lim.ttl;
      if expiry < 0 || (expiry != 0 && expiry <= Unix(seen)) {
        return Err(Invalid);
      }
      var kept := expiry;
      if expiry == 0 || expiry > maxExpiry {
        kept := maxExpiry;
      }
      var outcome := InsertV1(recipient, payload, env, kept, storedAt, at);
      match outcome {
        case Err(e) => return Err(e);
        case Ok(Duplicate) => return Ok(env.id);
        case Ok(Fresh) =>
          NotifySubscribers(recipient, env, storedAt, at);
          return Ok(env.id);
      }
    }

    /** The transaction of StoreEnvelope: policy recheck, collision check, insert, quota, rollback. */
    method InsertV1(recipient: Urn, payload: Bytes, env: V1Envelope, expiry: int, storedAt: int, at: int) returns (outcome: Result<Stored, Refusal>)
      modifies this`v1
      ensures (Db(), outcome) == CommitV1(sdk, lim, old(Db()), recipient, payload, env, expiry, storedAt, at)
    {
      hide PendingCount, SqlManaged;
      if policy.Some? && Unix(at) >= policy.value.expiresAt {
        return Err(UpgradeRequired);
      }
      if policy.Some? && policy.value.required && !SqlManaged(Db(), policy.value.issuer, recipient, env, at) {
        return Err(UpgradeRequired);
      }
      if env.id in v2 || env.id in admissions || env.id in archive {
        return Err(Conflict);
      }
      if env.id in v1 {
        if v1[env.id].recipient != recipient || v1[env.id].payload != payload {
          return Err(Conflict);
        }
        return Ok(Duplicate);
      }
      var rollback := v1;
      v1 := v1[env.id := V1Row(recipient, payload, expiry, Unix(storedAt), storedAt, 0)];
      if lim.perUrn > 0 {
        var pending := PendingCount(Db(), recipient, Unix(at));
        if pending > lim.perUrn {
          v1 := rollback;
          return Err(QueueFull);
        }
      }
      return Ok(Fresh);
    }

    ghost predicate MayNotify(db: Tables, recipient: Urn, env: V1Envelope, storedAt: int, at: int)
      reads this
    {
      && (v2Required ==> ManagedRoute(db, Proc(), recipient, env, storedAt, Unix(at)))
      && recipient in subscribers && subscribers[recipient] > 0
    }

    method NotifySubscribers(recipient: Urn, env: V1Envelope, storedAt: int, at: int)
      modifies this`offered
      ensures offered == old(offered) + if MayNotify(Db(), recipient, env, storedAt, at) then [(recipient, env.id)] else []
      ensures offered == old(offered) + [(recipient, env.id)] <==>
        && (v2Required ==> ManagedRoute(Db(), Proc(), recipient, env, storedAt, at / 1_000_000_000))
        && recipient in subscribers && subscribers[recipient] >= 1
    {
      if v2Required {
        var managedSender := IsManagedAt(Db(), v2ManagedIssuer, v2PolicyExpiry, env.senderUrn, env.senderKey, storedAt, Unix(at));
        var managedRecipient := IsManagedAt(Db(), v2ManagedIssuer, v2PolicyExpiry, recipient, None, storedAt, Unix(at));
        if !managedSender && !managedRecipient {
          return;
        }
      }
      if recipient !in subscribers || subscribers[recipient] == 0 {
        return;
      }
      offered := offered + [(recipient, env.id)];
    }

    /**
     The bounded batch: whatever the page size and however many hidden rows lie in between,
     the result is the batch of the inbox in order.
     */
    method RetrieveEntry(recipient: Urn, authorized: bool, at: int) returns (r: Result<(seq<V1Envelope>, seq<Id>), Refusal>)
      requires forall id | id in v1 :: v1[id].storedAt > MIN_INT64
      ensures !authorized ==> r == Err(Unauthorized)
      ensures authorized ==> r.Ok? && r.value.1 == Ids(Expected(sdk, Db(), Proc(), recipient, at))
      ensures authorized ==> Decoded(sdk, v1, r.value.0, r.value.1)
    {
      hide Reached, Page, Scanned, Expected, Decoded, ScanRow, CacheSound;
      if !authorized {
        return Err(Unauthorized);
      }
      var db, proc := Db(), Proc();
      ghost var all := Scanned(db, recipient, at);
      ghost var p, out := 0, [];
      var scanPageSize := if v2Required then 16 else 500;
      var g := Progress(Key(MIN_INT64, ""), map[], [], [], 0);
      ReachedAtStart(sdk, db, proc, recipient, at);
      while |g.envs| < MAX_BATCH
        invariant Reached(sdk, db, proc, recipient, at, g, p, out) && |g.envs| < MAX_BATCH
        decreases |all| - p
      {
        var pending := Page(v1, recipient, g.cursor, scanPageSize, Unix(at));
        NextPage(sdk, db, proc, recipient, at, g, p, out, scanPageSize);
        if |pending| == 0 {
          break;
        }
        ghost var base := p;
        var i := 0;
        while i < |pending|
          invariant i <= |pending| && p == base + i
          invariant Reached(sdk, db, proc, recipient, at, g, p, out) && |g.envs| < MAX_BATCH
        {
          out := ScanRowAdvances(sdk, db, proc, recipient, at, g, pending[i], p, out);
          var (next, full) := ScanRow(sdk, db, proc, recipient, at, g, pending[i]);
          g := next;
          if full {
            return Ok((g.envs, g.ids));
          }
          i, p := i + 1, p + 1;
        }
        if |pending| < scanPageSize {
          break;
        }
      }
      ReachedAtEnd(sdk, db, proc, recipient, at, g, out);
      return Ok((g.envs, g.ids));
    }

    /** The rows of one batch query, inspected one by one under a strict policy. */
    method InspectBatch(recipient: Urn, batch: seq<Id>, at: int) returns (allowed: set<(Id, int)>)
      requires v2Required
      ensures allowed == Ackable(sdk, Db(), Proc(), recipient, batch, at)
    {
      var pending := set id | id in batch && id in v1 && PendingV1(v1[id], recipient, Unix(at));
      var todo := pending;
      var granted: set<Id> := {};
      while todo != {}
        invariant todo <= pending
        invariant forall id :: id in granted <==> id in pending - todo && Deliverable(sdk, Db(), Proc(), v1[id], recipient, at)
      {
        var id :| id in todo;
        todo := todo - {id};
        var decoded := sdk.decodeV1(v1[id].payload);
        if decoded.None? {
          continue;
        }
        var managedRecipient := IsManagedAt(Db(), v2ManagedIssuer, v2PolicyExpiry, recipient, None, v1[id].storedAtNs, Unix(at));
        var managedSender := false;
        if !managedRecipient {
          managedSender := IsManagedAt(Db(), v2ManagedIssuer, v2PolicyExpiry, decoded.value.senderUrn, decoded.value.senderKey, v1[id].storedAtNs, Unix(at));
        }
        if managedRecipient || managedSender {
          granted := granted + {id};
        }
      }
      allowed := set id | id in granted :: (id, v1[id].storedAtNs);
    }

    /** Batches of 16 under a strict policy, one UPDATE otherwise: exactly the ackable rows among `ids` turn read, each counted once. */
    method Ack(recipient: Urn, authorized: bool, ids: seq<Id>, at: int) returns (r: Result<nat, Refusal>)
      modifies this`v1
      ensures !authorized ==> r == Err(Unauthorized)
      ensures authorized && |ids| > 1000 ==> r == Err(Invalid)
      ensures r.Err? ==> v1 == old(v1)
      ensures authorized && |ids| <= 1000 ==>
        var pairs := Ackable(sdk, old(Db()), Proc(), recipient, ids, at);
        v1 == MarkV1(old(v1), recipient, pairs, at) && r == Ok(|MarkedV1(old(v1), recipient, pairs, at)|)
    {
      hide Ackable;
      if !authorized {
        return Err(Unauthorized);
      }
      if |ids| == 0 {
        NothingToAck(sdk, Db(), Proc(), recipient, ids, at);
        return Ok(0);
      }
      if |ids| > MAX_ACK {
        return Err(Invalid);
      }
      if v2Required {
        var allowed: set<(Id, int)> := {};
        var start := 0;
        NoIds(sdk, Db(), Proc(), recipient, at);
        assert ids[..0] == [];
        while start < |ids|
          invariant start <= |ids| && v1 == old(v1)
          invariant allowed == Ackable(sdk, Db(), Proc(), recipient, ids[..start], at)
        {
          var end := start + ACK_BATCH;
          if end > |ids| {
            end := |ids|;
          }
          var inspected := InspectBatch(recipient, ids[start..end], at);
          assert ids[..end] == ids[..start] + ids[start..end];
          AckableUnion(sdk, Db(), Proc(), recipient, ids[..start], ids[start..end], at);
          allowed := allowed + inspected;
          start := end;
        }
        assert ids[..start] == ids;
        if allowed == {} {
          MarkNothing(v1, recipient, at);
          return Ok(0);
        }
        var n := MarkRead(recipient, allowed, at);
        return Ok(n);
      }
      AckableById(sdk, Db(), Proc(), recipient, ids, at);
      var n := |set id | id in v1 && id in ids && PendingV1(v1[id], recipient, Unix(at))|;
      v1 := map id | id in v1 :: if id in ids && PendingV1(v1[id], recipient, Unix(at)) then v1[id].(readAt := Unix(at)) else v1[id];
      return Ok(n);
    }

    /** The final UPDATE of a strict ACK. */
    method MarkRead(recipient: Urn, pairs: set<(Id, int)>, at: int) returns (n: nat)
      modifies this`v1
      ensures Db() == old(Db()).(v1 := MarkV1(old(v1), recipient, pairs, at))
      ensures n == |MarkedV1(old(v1), recipient, pairs, at)|
    {
      n := |MarkedV1(v1, recipient, pairs, at)|;
      v1 := map id | id in v1 ::
        if PendingV1(v1[id], recipient, Unix(at)) && (id, v1[id].storedAtNs) in pairs then v1[id].(readAt := Unix(at)) else v1[id];
    }

    // ---- v2 ---------------------------------------------------------------

    /** Pins the policy before the process follows it; a lower epoch or another hash for the same epoch changes nothing. */
    method EnableV2Policy(epoch: nat, hash: string, expiresAt: int, requireV2: bool, managedIssuer: Bytes, at: int) returns (ok: bool)
      modifies this`policy, this`v2Required, this`v2PolicyHash, this`v2PolicyExpiry, this`v2ManagedIssuer
      ensures match Enable(old(Db()), old(Proc()), Policy(epoch, hash, expiresAt, requireV2, managedIssuer), at)
        case None => !ok && Db() == old(Db()) && Proc() == old(Proc())
        case Some(next) => ok && Db() == next.0 && Proc() == next.1
    {
      hide SameMail;
      if epoch == 0 || |hash| != 64 || expiresAt <= Unix(at) {
        return false;
      }
      if policy.Some? && (epoch < policy.value.epoch || (epoch == policy.value.epoch && hash != policy.value.hash)) {
        return false;
      }
      PinAndPublish(Policy(epoch, hash, expiresAt, requireV2, managedIssuer));
      return true;
    }

    /** The pinned row first, then the fields the process serves by. */
    method PinAndPublish(p: Policy)
      modifies this`policy, this`v2Required, this`v2PolicyHash, this`v2PolicyExpiry, this`v2ManagedIssuer
      ensures Db() == old(Db()).(policy := Some(p))
      ensures Proc() == old(Proc()).(required := p.required, policyHash := p.hash, policyExpiry := p.expiresAt, issuer := p.issuer)
    {
      policy := Some(p);
      v2Required := p.required;
      v2PolicyHash := p.hash;
      v2PolicyExpiry := p.expiresAt;
      v2ManagedIssuer := p.issuer;
    }

    method ExistingV2Receipt(recipient: Urn, id: Id, envelope: Bytes) returns (r: Result<Option<Bytes>, Refusal>)
      ensures r == ExistingReceipt(sdk, Db(), recipient, id, envelope)
    {
      if id in v2 {
        if v2[id].recipient != recipient || v2[id].envelope != envelope {
          return Err(Conflict);
        }
        return Ok(Some(v2[id].receipt));
      }
      if id !in admissions {
        return Ok(None);
      }
      if admissions[id].recipient != recipient || admissions[id].envelopeHash != sdk.envelopeHash(envelope) {
        return Err(Conflict);
      }
      return Ok(Some(admissions[id].receipt));
    }

    method StoreV2(s: Submission, storeOpen: bool, forwardOpen: bool, seen: int, at: int) returns (r: Result<Bytes, Refusal>)
      modifies this`v2, this`admissions, this`archive, this`archiveUsed
      ensures archiveUsed == (old(archiveUsed) || s.body.Some?)
      ensures (Db(), r) == StoreOutcomeV2(sdk, lim, old(Db()), old(Proc()), storeOpen, forwardOpen, s, seen, at)
    {
      hide CommitV2;
      if s.body.Some? {
        archiveUsed := true;
      }
      if !BodyMatches(s) {
        return Err(Invalid);
      }
      if s.id == "" || |s.id| > 256 || s.recipient == "" || s.envelope == [] || |s.envelope| > MAX_ENVELOPE
         || s.receipt == [] || |s.receipt| > MAX_SMALL {
        return Err(Invalid);
      }
      if v2PolicyHash == "" || v2PolicyHash != s.policyHash {
        return Err(PolicyMismatch);
      }
      if !storeOpen {
        return Err(StorageDisabled);
      }
      if !forwardOpen {
        return Err(RecipientBlocked);
      }
      if s.expiry <= Unix(seen) || s.expiry > Unix(seen) + lim.ttl {
        return Err(Invalid);
      }
      r := InsertV2(s, seen, at);
    }

    /** The transaction of storeV2: any failure leaves queue, ledger and archive unchanged. */
    method InsertV2(s: Submission, seen: int, at: int) returns (r: Result<Bytes, Refusal>)
      modifies this`v2, this`admissions, this`archive
      ensures (Db(), r) == CommitV2(sdk, lim, old(Db()), archiveDays, s, seen, at)
    {
      hide PendingCount;
      if policy.None? {
        return Err(DatabaseError);
      }
      if policy.value.hash != s.policyHash || Unix(at) >= policy.value.expiresAt {
        return Err(PolicyMismatch);
      }
      if s.id in v1 {
        return Err(Conflict);
      }
      if s.id in admissions {
        if admissions[s.id].recipient != s.recipient || admissions[s.id].envelopeHash != sdk.envelopeHash(s.envelope) {
          return Err(Conflict);
        }
        return Ok(admissions[s.id].receipt);
      }
      if s.id in archive {
        return Err(Conflict);
      }
      if s.id in v2 {
        if v2[s.id].recipient != s.recipient || v2[s.id].envelope != s.envelope {
          return Err(Conflict);
        }
        return Ok(v2[s.id].receipt);
      }
      var rollback := v2;
      v2 := v2[s.id := V2Row(s.recipient, s.envelope, s.receipt, s.policyHash, s.expiry, Unix(seen), 0)];
      if lim.perUrn > 0 {
        var pending := PendingCount(Db(), s.recipient, Unix(seen));
        if pending > lim.perUrn {
          v2 := rollback;
          return Err(QueueFull);
        }
      }
      if s.body.Some? {
        admissions := admissions[s.id := Admission(s.recipient, sdk.envelopeHash(s.envelope), s.receipt, s.expiry)];
        if archiveDays > 0 {
          var b := s.body.value;
          archive := archive[s.id := ArchiveRow(b.sender, s.recipient, Unix(seen), s.expiry, s.policyHash, b.epoch, b.plaintext)];
        }
      }
      return Ok(s.receipt);
    }

    /** The bounded v2 batch, receipts counted in the byte budget; only rows of the current policy. */
    method RetrieveV2(recipient: Urn, authorized: bool, now: int) returns (r: Result<seq<(Id, Bytes, Bytes)>, Refusal>)
      ensures !authorized ==> r == Err(Unauthorized)
      ensures authorized && (v2PolicyHash == "" || now >= v2PolicyExpiry) ==> r == Err(PolicyMismatch)
      ensures authorized && v2PolicyHash != "" && now < v2PolicyExpiry ==>
        r.Ok? && Delivers(v2, r.value, Batch(SizesV2(v2), InboxV2(Db(), Proc(), recipient, now)))
    {
      if !authorized {
        return Err(Unauthorized);
      }
      if v2PolicyHash == "" || now >= v2PolicyExpiry {
        return Err(PolicyMismatch);
      }
      hide InboxV2, Batch, Delivers, SizesV2, ReachedV2;
      var box := InboxV2(Db(), Proc(), recipient, now);
      var rows := Cut(box, MAX_BATCH);
      var out := [];
      var total: nat := 0;
      ReachedV2AtStart(v2, box);
      var i := 0;
      while i < |rows|
        invariant i <= |rows| && |out| == i
        invariant ReachedV2(v2, box, i, out, total)
      {
        ReachedV2Step(Db(), Proc(), recipient, now, i, out, total);
        var row := v2[rows[i].id];
        if total + |row.envelope| + |row.receipt| > MAX_RETRIEVE && |out| > 0 {
          return Ok(out);
        }
        total := total + |row.envelope| + |row.receipt|;
        out := out + [(rows[i].id, row.envelope, row.receipt)];
        i := i + 1;
      }
      ReachedV2AtEnd(v2, box, i, out, total);
      return Ok(out);
    }

    /** Only the caller's own rows change, and the answer is how many did. */
    method AckV2(recipient: Urn, authorized: bool, ids: seq<Id>, at: int) returns (r: Result<nat, Refusal>)
      modifies this`v2
      ensures !authorized ==> r == Err(Unauthorized)
      ensures authorized && |ids| > 1000 ==> r == Err(Invalid)
      ensures authorized && 0 < |ids| <= 1000 && (v2PolicyHash == "" || Unix(at) >= v2PolicyExpiry) ==> r == Err(PolicyMismatch)
      ensures r.Err? ==> Db() == old(Db())
      ensures r.Ok? ==>
        && Db() == MarkV2(old(Db()), Proc(), recipient, IdSet(ids), at)
        && r.value == |MarkedV2(old(v2), recipient, v2PolicyHash, IdSet(ids), Unix(at))|
        && OnlyOwnV2Marked(old(v2), v2, recipient, v2PolicyHash, IdSet(ids), at)
        && (Unix(at) > 0 ==> r.value == |Differing(old(v2), v2)|)
    {
      V2AckChanges(Db(), Proc(), recipient, IdSet(ids), at);
      hide OnlyOwnV2Marked, Differing, MarkV2, MarkedV2;
      if !authorized {
        return Err(Unauthorized);
      }
      if |ids| == 0 {
        NoV2ToAck(Db(), Proc(), recipient, ids, at);
        return Ok(0);
      }
      if |ids| > MAX_ACK {
        return Err(Invalid);
      }
      if v2PolicyHash == "" || Unix(at) >= v2PolicyExpiry {
        return Err(PolicyMismatch);
      }
      var n := MarkReadV2(recipient, IdSet(ids), at);
      return Ok(n);
    }

    /** The UPDATE of AckV2. */
    method MarkReadV2(recipient: Urn, ids: set<Id>, at: int) returns (n: nat)
      modifies this`v2
      ensures Db() == MarkV2(old(Db()), Proc(), recipient, ids, at)
      ensures n == |MarkedV2(old(v2), recipient, v2PolicyHash, ids, Unix(at))|
    {
      n := |MarkedV2(v2, recipient, v2PolicyHash, ids, Unix(at))|;
      v2 := map id | id in v2 :: if id in ids && VisibleV2(v2[id], recipient, v2PolicyHash, Unix(at)) then v2[id].(readAt := Unix(at)) else v2[id];
    }

    // ---- Handshake frames -------------------------------------------------

    /** `vetted` is the verdict of the signature, transcript and relay checks on the parsed frame. */
    method StoreV2Frame(recipient: Urn, id: Id, frame: Bytes, expiry: int, hash: string, vetted: bool, storeOpen: bool, forwardOpen: bool, at: int)
      returns (r: Option<Refusal>)
      modifies this`frames
      ensures match ScreenFrame(old(Proc()), id, frame, expiry, hash, vetted, storeOpen, forwardOpen, at)
        case Some(e) => r == Some(e) && Db() == old(Db())
        case None => (Db(), r) == CommitFrame(old(Db()), recipient, id, frame, expiry, hash, at)
    {
      hide CommitFrame;
      if !vetted {
        return Some(Invalid);
      }
      if v2PolicyHash == "" || v2PolicyHash != hash {
        return Some(PolicyMismatch);
      }
      if id == "" || |id| > 256 || |frame| == 0 || |frame| > MAX_SMALL || expiry <= Unix(at) || expiry > Unix(at) + DAY {
        return Some(Invalid);
      }
      if !storeOpen || !forwardOpen {
        return Some(PolicyMismatch);
      }
      r := InsertFrame(recipient, id, frame, expiry, hash, at);
    }

    /** The transaction of StoreV2Frame. */
    method InsertFrame(recipient: Urn, id: Id, frame: Bytes, expiry: int, hash: string, at: int) returns (r: Option<Refusal>)
      modifies this`frames
      ensures (Db(), r) == CommitFrame(old(Db()), recipient, id, frame, expiry, hash, at)
    {
      hide PendingFrameIds;
      if policy.None? {
        return Some(DatabaseError);
      }
      if policy.value.hash != hash || Unix(at) >= policy.value.expiresAt {
        return Some(PolicyMismatch);
      }
      if id in frames {
        if frames[id].recipient != recipient || frames[id].frame != frame {
          return Some(Conflict);
        }
        return None;
      }
      var rollback := frames;
      frames := frames[id := FrameRow(recipient, frame, expiry, Unix(at), 0)];
      var pending := |PendingFrameIds(Db(), recipient, Unix(at))|;
      if pending > MAX_FRAMES {
        frames := rollback;
        return Some(QueueFull);
      }
      return None;
    }

    /** The pending frames, oldest first, at most 100. */
    method RetrieveV2Frames(recipient: Urn, authorized: bool, now: int) returns (r: Result<seq<(Id, Bytes)>, Refusal>)
      ensures r.Ok? <==> authorized
      ensures r.Ok? ==> FramesOf(frames, r.value, FrameRead(Db(), recipient, now))
    {
      if !authorized {
        return Err(Unauthorized);
      }
      var rows := FrameRead(Db(), recipient, now);
      forall k | k in rows ensures k.id in frames {
        FrameRowOf(Db(), recipient, now, k);
      }
      hide FrameRead;
      var out := [];
      for i := 0 to |rows|
        invariant FramesOf(frames, out, rows[..i])
      {
        assert rows[i] in rows && rows[..i + 1] == rows[..i] + [rows[i]];
        out := out + [(rows[i].id, frames[rows[i].id].frame)];
      }
      assert rows[..|rows|] == rows;
      return Ok(out);
    }

    /** Only the caller's own frames change, and the answer is how many did. */
    method AckV2Frames(recipient: Urn, authorized: bool, ids: seq<Id>, at: int) returns (r: Result<nat, Refusal>)
      modifies this`frames
      ensures !authorized ==> r == Err(Unauthorized)
      ensures authorized && |ids| > 100 ==> r == Err(Invalid)
      ensures r.Err? ==> Db() == old(Db())
      ensures authorized && |ids| <= 100 ==>
        && Db() == MarkFrames(old(Db()), recipient, IdSet(ids), at)
        && r == Ok(|PendingFrameIds(old(Db()), recipient, Unix(at)) * IdSet(ids)|)
        && OnlyOwnFramesMarked(old(frames), frames, recipient, IdSet(ids), at)
        && (Unix(at) > 0 ==> r == Ok(|Differing(old(frames), frames)|))
    {
      FrameAckChanges(Db(), recipient, IdSet(ids), at);
      hide OnlyOwnFramesMarked, Differing, PendingFrameIds, MarkFrames;
      if !authorized {
        return Err(Unauthorized);
      }
      if |ids| == 0 {
        NoFramesToAck(Db(), recipient, ids, at);
        return Ok(0);
      }
      if |ids| > MAX_FRAMES {
        return Err(Invalid);
      }
      var n := MarkReadFrames(recipient, IdSet(ids), at);
      return Ok(n);
    }

    /** The UPDATE of AckV2Frames. */
    method MarkReadFrames(recipient: Urn, ids: set<Id>, at: int) returns (n: nat)
      modifies this`frames
      ensures Db() == MarkFrames(old(Db()), recipient, ids, at)
      ensures n == |PendingFrameIds(old(Db()), recipient, Unix(at)) * ids|
    {
      n := |set id | id in frames && id in ids && PendingFrame(frames[id], recipient, Unix(at))|;
      assert (set id | id in frames && id in ids && PendingFrame(frames[id], recipient, Unix(at)))
          == PendingFrameIds(Db(), recipient, Unix(at)) * ids;
      frames := map id | id in frames ::
        if id in ids && PendingFrame(frames[id], recipient, Unix(at)) then frames[id].(readAt := Unix(at)) else frames[id];
    }

    // ---- Managed identities -----------------------------------------------

    /** `verified` stands for the certificate and authorization checks; `issuer` and `hash` are those of the caller's policy. */
    method EnrollManaged(cert: Certificate, certSize: nat, verified: bool, hash: string, issuer: Bytes, at: int) returns (r: Option<Refusal>)
      modifies this`managed
      ensures match ScreenEnroll(old(Proc()), cert, certSize, verified, issuer)
        case Some(e) => r == Some(e) && Db() == old(Db())
        case None => (Db(), r) == CommitEnroll(old(Db()), cert, hash, issuer, at)
      ensures r.None? ==>
        && cert.urn in managed
        && managed[cert.urn].key == cert.key && managed[cert.urn].issuer == issuer && managed[cert.urn].serial == cert.serial
        && managed[cert.urn].notBefore == cert.notBefore && managed[cert.urn].expiresAt == cert.expiresAt && !managed[cert.urn].revoked
    {
      EnrolledIff(Db(), Proc(), cert, certSize, verified, hash, issuer, at);
      hide CommitEnroll;
      if !verified {
        return Some(Unauthorized);
      }
      if |cert.serial| > 128 || certSize > MAX_SMALL {
        return Some(Invalid);
      }
      if |v2ManagedIssuer| != ISSUER_SIZE || v2ManagedIssuer != issuer {
        return Some(PolicyMismatch);
      }
      r := InsertIdentity(cert, hash, issuer, at);
    }

    /** The transaction of EnrollManaged. */
    method InsertIdentity(cert: Certificate, hash: string, issuer: Bytes, at: int) returns (r: Option<Refusal>)
      modifies this`managed
      ensures (Db(), r) == CommitEnroll(old(Db()), cert, hash, issuer, at)
    {
      if policy.None? {
        return Some(DatabaseError);
      }
      if policy.value.hash != hash || Unix(at) >= policy.value.expiresAt {
        return Some(PolicyMismatch);
      }
      if cert.serial in revocations {
        return Some(PolicyMismatch);
      }
      if cert.urn in managed && managed[cert.urn].key != cert.key {
        return Some(Conflict);
      }
      var enrolledAt := at;
      if cert.urn in managed && Continues(managed[cert.urn], issuer, at) {
        enrolledAt := managed[cert.urn].enrolledAtNs;
      }
      if exists u | u in managed :: u != cert.urn && managed[u].serial == cert.serial {
        return Some(DatabaseError);
      }
      managed := managed[cert.urn := Identity(cert.key, issuer, cert.serial, cert.notBefore, cert.expiresAt, enrolledAt, false)];
      return None;
    }

    method RevokeManaged(serial: string, at: int) returns (ok: bool)
      modifies this`managed, this`revocations
      ensures ok <==> 0 < |serial| <= 128
      ensures Db() == if ok then Revoke(old(Db()), serial, at) else old(Db())
    {
      if serial == "" || |serial| > 128 {
        return false;
      }
      if serial !in revocations {
        revocations := revocations[serial := Unix(at)];
      }
      managed := map u | u in managed :: if managed[u].serial == serial then managed[u].(revoked := true) else managed[u];
      return true;
    }

    // ---- Deletion and retention -------------------------------------------

    method DeleteMessage(recipient: Urn, id: Id) returns (deleted: nat)
      modifies this`v1, this`v2
      ensures Db() == Delete(old(Db()), recipient, id)
      ensures deleted == |old(v1)| - |v1| + |old(v2)| - |v2|
    {
      deleted := 0;
      if id in v1 && v1[id].recipient == recipient {
        OneLess(v1, id);
        v1 := v1 - {id};
        deleted := deleted + 1;
      }
      if id in v2 && v2[id].recipient == recipient {
        OneLess(v2, id);
        v2 := v2 - {id};
        deleted := deleted + 1;
      }
    }

    method PurgeQueue(recipient: Urn) returns (deleted: nat)
      modifies this`v1, this`v2, this`frames
      ensures Db() == Purge(old(Db()), recipient)
      ensures deleted == |old(v1)| - |v1| + |old(v2)| - |v2| + |old(frames)| - |frames|
    {
      hide OthersV1, OthersV2, OthersFrames;
      deleted := 0;
      var kept := OthersV1(v1, recipient);
      Smaller(v1, kept);
      deleted, v1 := deleted + |v1| - |kept|, kept;
      var keptV2 := OthersV2(v2, recipient);
      Smaller(v2, keptV2);
      deleted, v2 := deleted + |v2| - |keptV2|, keptV2;
      var keptFrames := OthersFrames(frames, recipient);
      Smaller(frames, keptFrames);
      deleted, frames := deleted + |frames| - |keptFrames|, keptFrames;
    }

    /** cleanup, statement by statement; `done` says which of them succeed. */
    method CleanUp(done: set<Stage>, now: int)
      modifies this`v1, this`v2, this`frames, this`admissions, this`archive, this`archiveUsed
      ensures Db() == Cleanup(old(Db()), historyDays, archiveDays, done, now)
      ensures archiveUsed
    {
      hide DropExpired, DropHistory, PurgeArchive, UnexpiredAdmissions;
      archiveUsed := true;
      DeleteExpired(done, now);
      if historyDays >= 0 {
        DeleteHistory(done, now - historyDays * DAY);
      }
      if OldArchive in done {
        archive := PurgeArchive(archive, archiveDays, now);
      }
    }

    method DeleteExpired(done: set<Stage>, now: int)
      modifies this`v1, this`v2, this`frames, this`admissions
      ensures Db() == DropExpired(old(Db()), done, now)
    {
      if ExpiredV1 in done {
        v1 := UnexpiredV1(v1, now);
      }
      if ExpiredV2 in done {
        v2 := UnexpiredV2(v2, now);
      }
      if ExpiredFrames in done {
        frames := UnexpiredFrames(frames, now);
      }
      if ExpiredAdmissions in done {
        admissions := UnexpiredAdmissions(admissions, now);
      }
    }

    method DeleteHistory(done: set<Stage>, cutoff: int)
      modifies this`v1, this`v2, this`frames
      ensures Db() == DropHistory(old(Db()), done, cutoff)
    {
      if HistoryV1 in done {
        v1 := RecentV1(v1, cutoff);
      }
      if HistoryV2 in done {
        v2 := RecentV2(v2, cutoff);
      }
      if HistoryFrames in done {
        frames := RecentFrames(frames, cutoff);
      }
    }

    method SetHistoryRetentionDays(days: int)
      modifies this`historyDays
      ensures Db() == old(Db()) && Proc() == old(Proc()).(historyDays := Wrap32(days))
    {
      historyDays := Wrap32(days);
    }

    /** Deletes what no longer fits, then publishes the value; a failed deletion leaves rows and setting as they were. */
    method SetComplianceRetentionDays(days: int, deletes: bool, now: int) returns (ok: bool)
      modifies this`archive, this`archiveDays, this`archiveUsed
      ensures (Db(), Proc(), ok) == SetArchiveDays(old(Db()), old(Proc()), days, deletes, now)
    {
      if days < 0 || days > 36500 {
        return false;
      }
      var purgeDays := days;
      if archiveUsed && archiveDays < purgeDays {
        purgeDays := archiveDays;
      }
      if !deletes {
        return false;
      }
      archive := PurgeArchive(archive, purgeDays, now);
      archiveDays := days;
      archiveUsed := true;
      return true;
    }

    /** A detail read enforces the active duration before cleanup does, and never returns an oversized body. */
    method GetComplianceMessage(id: Id, now: int) returns (r: Result<Option<ArchiveRow>, Refusal>)
      modifies this`archiveUsed
      ensures archiveUsed
      ensures !Visible(archive, archiveDays, id, now) ==> r == Ok(None)
      ensures Visible(archive, archiveDays, id, now) ==>
        r == if |archive[id].plaintext| <= MAX_ENVELOPE then Ok(Some(archive[id])) else Err(DatabaseError)
    {
      archiveUsed := true;
      if archiveDays == 0 {
        return Ok(None);
      }
      if id !in archive || archive[id].storedAt <= now - archiveDays * DAY {
        return Ok(None);
      }
      if |archive[id].plaintext| > MAX_ENVELOPE {
        return Err(DatabaseError);
      }
      return Ok(Some(archive[id]));
    }
  }
}
