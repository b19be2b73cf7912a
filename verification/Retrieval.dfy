/** Batches of the v1 inbox, and what acknowledging them does to it. */
module Retrieval {
  import opened Prelude
  import opened Ordering
  import opened MailboxModel

  /** Bytes a v1 message counts against the delivery budget. */
  function SizesV1(v1: map<Id, V1Row>): map<Id, nat> {
    map id | id in v1 :: |v1[id].payload|
  }

  /** A v2 message travels with its receipt. */
  function SizesV2(v2: map<Id, V2Row>): map<Id, nat> {
    map id | id in v2 :: |v2[id].envelope| + |v2[id].receipt|
  }

  function Size(sizes: map<Id, nat>, k: Key): nat {
    if k.id in sizes then sizes[k.id] else 0
  }

  function Total(sizes: map<Id, nat>, keys: seq<Key>): nat {
    if keys == [] then 0 else Total(sizes, keys[..|keys| - 1]) + Size(sizes, keys[|keys| - 1])
  }

  /** The budget counts payload bytes, and for v2 the receipt's as well, once for every row. */
  lemma TotalCounts(db: Tables, keys: seq<Key>, k: Key)
    ensures Total(SizesV1(db.v1), []) == 0 && Total(SizesV2(db.v2), []) == 0
    ensures k.id in db.v1 ==> Total(SizesV1(db.v1), keys + [k]) == Total(SizesV1(db.v1), keys) + |db.v1[k.id].payload|
    ensures k.id in db.v2 ==>
      Total(SizesV2(db.v2), keys + [k]) == Total(SizesV2(db.v2), keys) + |db.v2[k.id].envelope| + |db.v2[k.id].receipt|
  {
    assert (keys + [k])[..|keys|] == keys;
  }

  /** How many of `list` are sent when `n` already are: stop at 500, or before the byte budget breaks. */
  function Fill(sizes: map<Id, nat>, list: seq<Key>, n: nat): (r: nat)
    requires n <= |list|
    ensures n <= r <= |list|
    decreases |list| - n
  {
    if n == |list| || n == MAX_BATCH || (n > 0 && Total(sizes, list[..n + 1]) > MAX_RETRIEVE) then n
    else Fill(sizes, list, n + 1)
  }

  function Batch(sizes: map<Id, nat>, list: seq<Key>): seq<Key> {
    list[..Fill(sizes, list, 0)]
  }

  lemma {:induction false} TotalGrows(sizes: map<Id, nat>, list: seq<Key>, m: nat, n: nat)
    requires m <= n <= |list|
    ensures Total(sizes, list[..m]) <= Total(sizes, list[..n])
    decreases n
  {
    if m < n {
      TotalGrows(sizes, list, m, n - 1);
      assert list[..n][..n - 1] == list[..n - 1];
    }
  }

  lemma FirstFits(sizes: map<Id, nat>, list: seq<Key>)
    requires list != [] && Size(sizes, list[0]) <= MAX_RETRIEVE
    ensures Total(sizes, list[..1]) <= MAX_RETRIEVE
  {
    assert list[..1] == [] + [list[0]] && Total(sizes, []) == 0;
  }

  lemma {:induction false} FillStops(sizes: map<Id, nat>, list: seq<Key>, n: nat)
    requires n <= |list| && n <= MAX_BATCH && Total(sizes, list[..n]) <= MAX_RETRIEVE
    requires forall k | k in list :: Size(sizes, k) <= MAX_RETRIEVE
    ensures var r := Fill(sizes, list, n);
      && r <= MAX_BATCH && Total(sizes, list[..r]) <= MAX_RETRIEVE
      && (r == |list| || r == MAX_BATCH || Total(sizes, list[..r + 1]) > MAX_RETRIEVE)
    decreases |list| - n
  {
    hide Size;
    if n < |list| && n < MAX_BATCH {
      if n == 0 {
        FirstFits(sizes, list);
      }
      if Total(sizes, list[..n + 1]) <= MAX_RETRIEVE {
        FillStops(sizes, list, n + 1);
      }
    }
  }

  /**
   A batch is the longest prefix that keeps both limits: a prefix fits if and only if it is no longer than the batch.
   The size premise is what admission guarantees of every stored row.
   */
  lemma BatchIsLongestFittingPrefix(sizes: map<Id, nat>, list: seq<Key>, n: nat)
    requires n <= |list|
    requires forall k | k in list :: Size(sizes, k) <= MAX_RETRIEVE
    ensures Batch(sizes, list) <= list
    ensures n <= |Batch(sizes, list)| <==> n <= MAX_BATCH && Total(sizes, list[..n]) <= MAX_RETRIEVE
  {
    var r := Fill(sizes, list, 0);
    assert list[..0] == [];
    FillStops(sizes, list, 0);
    if n <= r {
      TotalGrows(sizes, list, n, r);
    } else {
      TotalGrows(sizes, list, r + 1, n);
    }
  }

  /** One decision of the batch rule. */
  lemma FillStep(sizes: map<Id, nat>, list: seq<Key>, n: nat)
    requires n < |list| && n < MAX_BATCH
    ensures Total(sizes, list[..n + 1]) == Total(sizes, list[..n]) + Size(sizes, list[n])
    ensures Fill(sizes, list, n) == if n > 0 && Total(sizes, list[..n + 1]) > MAX_RETRIEVE then n else Fill(sizes, list, n + 1)
  {
    assert list[..n + 1][..n] == list[..n];
  }

  lemma BatchIs(sizes: map<Id, nat>, list: seq<Key>, n: nat)
    requires n <= |list| && Fill(sizes, list, 0) == Fill(sizes, list, n)
    requires n == |list| || n == MAX_BATCH || Fill(sizes, list, n) == n
    ensures Batch(sizes, list) == list[..n]
  {
  }

  /** Progress needs no size premise: the first message always goes out. */
  lemma BatchIsNonempty(sizes: map<Id, nat>, list: seq<Key>)
    requires list != []
    ensures Batch(sizes, list) != []
  {
    assert Fill(sizes, list, 0) == Fill(sizes, list, 1);
  }

  // ---- The scan that computes a batch ------------------------------------

  /** One keyset page: the first `limit` pending rows after `cursor`, in (stored_at, id) order. */
  function Page(v1: map<Id, V1Row>, recipient: Urn, cursor: Key, limit: nat, now: int): seq<Key> {
    Cut(Sorted(After(PendingKeys(v1, recipient, now), cursor)), limit)
  }

  function Cut(rows: seq<Key>, limit: nat): seq<Key> {
    if |rows| <= limit then rows else rows[..limit]
  }

  function After(keys: set<Key>, cursor: Key): set<Key> {
    set k | k in keys && Before(cursor, k)
  }

  /** The cursor stands on the p-th row of the scan. */
  ghost predicate CursorAt(all: seq<Key>, cursor: Key, p: nat) {
    p <= |all| && cursor == if p == 0 then Key(MIN_INT64, "") else all[p - 1]
  }

  lemma RowsAfterCursor(keys: set<Key>, cursor: Key, p: nat)
    requires CursorAt(Sorted(keys), cursor, p)
    requires forall k | k in keys :: k.at > MIN_INT64
    ensures Sorted(After(keys, cursor)) == Sorted(keys)[p..]
  {
    var rest := After(keys, cursor);
    if p == 0 {
      assert rest == keys;
    } else {
      SortedAfter(keys, p, rest);
    }
  }

  /** A page is the next slice of the ordered table. */
  lemma PageIsSlice(v1: map<Id, V1Row>, recipient: Urn, cursor: Key, limit: nat, now: int, p: nat)
    requires CursorAt(Sorted(PendingKeys(v1, recipient, now)), cursor, p)
    requires forall id | id in v1 :: v1[id].storedAt > MIN_INT64
    ensures Page(v1, recipient, cursor, limit, now) == Cut(Sorted(PendingKeys(v1, recipient, now))[p..], limit)
  {
    assert forall k | k in PendingKeys(v1, recipient, now) :: k.at > MIN_INT64;
    hide PendingKeys, After;
    RowsAfterCursor(PendingKeys(v1, recipient, now), cursor, p);
  }

  /** What `ORDER BY stored_at,id LIMIT 100` returns from the handshake table. */
  function FrameRead(db: Tables, recipient: Urn, now: int): seq<Key> {
    Cut(FrameBox(db, recipient, now), MAX_FRAMES)
  }

  /** After p rows of `all`, the kept ones are `out`, weighing `bytes`, and the rule that cuts `batch` has not stopped before them. */
  ghost predicate Scan(sizes: map<Id, nat>, all: seq<Key>, visible: set<Key>, batch: seq<Key>, p: nat, out: seq<Key>, bytes: nat) {
    && p <= |all| && out == Keep(all[..p], visible) && bytes == Total(sizes, out)
    && var list := Keep(all, visible);
       out <= list && batch == Batch(sizes, list) == list[..Fill(sizes, list, |out|)]
  }

  lemma ScanStarts(sizes: map<Id, nat>, keys: set<Key>, visible: set<Key>)
    requires visible <= keys
    ensures Scan(sizes, Sorted(keys), visible, Batch(sizes, Sorted(visible)), 0, [], 0)
  {
    KeepOfSorted(keys, visible);
    assert Sorted(visible)[..0] == [];
  }

  lemma KeepStep(all: seq<Key>, visible: set<Key>, p: nat)
    requires p < |all|
    ensures Keep(all[..p + 1], visible) == Keep(all[..p], visible) + (if all[p] in visible then [all[p]] else [])
    ensures Keep(all[..p + 1], visible) <= Keep(all, visible)
  {
    assert all[..p + 1][..p] == all[..p];
    KeepPrefix(all, visible, p + 1);
  }

  lemma ScanSkips(sizes: map<Id, nat>, all: seq<Key>, visible: set<Key>, batch: seq<Key>, p: nat, out: seq<Key>, bytes: nat)
    requires Scan(sizes, all, visible, batch, p, out, bytes) && p < |all| && all[p] !in visible
    ensures Scan(sizes, all, visible, batch, p + 1, out, bytes)
  {
    hide Keep, Batch, Fill, Total;
    KeepStep(all, visible, p);
  }

  /** The next deliverable row joins the batch, or the batch is complete because the byte budget would break. */
  lemma ScanTakes(sizes: map<Id, nat>, all: seq<Key>, visible: set<Key>, batch: seq<Key>, p: nat, out: seq<Key>, bytes: nat, k: Key, weight: nat)
    requires Scan(sizes, all, visible, batch, p, out, bytes) && p < |all| && |out| < MAX_BATCH
    requires k == all[p] && k in visible && weight == Size(sizes, k)
    ensures if |out| > 0 && bytes + weight > MAX_RETRIEVE then out == batch
      else Scan(sizes, all, visible, batch, p + 1, out + [k], bytes + weight)
  {
    hide Keep, Batch;
    var list := Keep(all, visible);
    KeepStep(all, visible, p);
    assert list[..|out| + 1] == out + [k];
    assert (out + [k])[..|out|] == out;
  }

  lemma ScanEnds(sizes: map<Id, nat>, all: seq<Key>, visible: set<Key>, batch: seq<Key>, p: nat, out: seq<Key>, bytes: nat)
    requires Scan(sizes, all, visible, batch, p, out, bytes) && (p == |all| || |out| == MAX_BATCH)
    ensures out == batch
  {
    assert all[..|all|] == all;
  }

  lemma DeliverableArePending(sdk: Sdk, db: Tables, proc: Process, recipient: Urn, at: int)
    ensures DeliverableKeys(sdk, db, proc, recipient, at) <= PendingKeys(db.v1, recipient, Unix(at))
  {
  }

  /** What the scan decides about a pending row. */
  lemma ScannedRow(sdk: Sdk, db: Tables, proc: Process, recipient: Urn, at: int, k: Key)
    requires k in PendingKeys(db.v1, recipient, Unix(at))
    ensures k.id in db.v1 && Size(SizesV1(db.v1), k) == |db.v1[k.id].payload|
    ensures k in DeliverableKeys(sdk, db, proc, recipient, at) <==>
      var row := db.v1[k.id];
      sdk.decodeV1(row.payload).Some? && (proc.required ==> ManagedRoute(db, proc, recipient, sdk.decodeV1(row.payload).value, row.storedAtNs, Unix(at)))
  {
  }

  function Ids(keys: seq<Key>): (r: seq<Id>)
    ensures |r| == |keys|
    ensures forall i | 0 <= i < |keys| :: r[i] == keys[i].id
  {
    seq(|keys|, i requires 0 <= i < |keys| => keys[i].id)
  }

  /** The rows an ACK marks are exactly the requested ones that the policy lets the recipient consume. */
  lemma AckMarksExactlyTheRequested(sdk: Sdk, db: Tables, proc: Process, recipient: Urn, ids: seq<Id>, at: int, id: Id)
    ensures id in MarkedV1(db.v1, recipient, Ackable(sdk, db, proc, recipient, ids, at), at) <==>
      && id in ids && id in db.v1
      && PendingV1(db.v1[id], recipient, Unix(at))
      && (proc.required ==> Deliverable(sdk, db, proc, db.v1[id], recipient, at))
  {
    var pairs := Ackable(sdk, db, proc, recipient, ids, at);
    if id in db.v1 && (id, db.v1[id].storedAtNs) in pairs {
      assert id in ids;
    }
  }

  /** Keys of different rows have different IDs, so keys and IDs count alike. */
  lemma {:induction false} KeyCount(keys: set<Key>, ids: set<Id>)
    requires forall k, l | k in keys && l in keys && k.id == l.id :: k == l
    requires forall k | k in keys :: k.id in ids
    requires forall id | id in ids :: exists k :: k in keys && k.id == id
    ensures |keys| == |ids|
  {
    if keys != {} {
      var k :| k in keys;
      KeyCount(keys - {k}, ids - {k.id});
    }
  }

  lemma {:induction false} AscendingCount(r: seq<Key>)
    requires Ascending(r)
    ensures |set k | k in r| == |r|
  {
    if r != [] {
      var last := r[|r| - 1];
      var init := r[..|r| - 1];
      AscendingCount(init);
      if last in init {
        var i :| 0 <= i < |init| && init[i] == last;
        BeforeIsTotal(r[i], last);
      }
      assert (set k | k in r) == (set k | k in init) + {last};
    }
  }

  /** Tables after the recipient acknowledges `batch`. */
  function Acked(sdk: Sdk, db: Tables, proc: Process, recipient: Urn, batch: seq<Key>, at: int): Tables {
    db.(v1 := MarkV1(db.v1, recipient, Ackable(sdk, db, proc, recipient, Ids(batch), at), at))
  }

  function AckCount(sdk: Sdk, db: Tables, proc: Process, recipient: Urn, batch: seq<Key>, at: int): nat {
    |MarkedV1(db.v1, recipient, Ackable(sdk, db, proc, recipient, Ids(batch), at), at)|
  }

  /** The inbox lists each deliverable row under the key of that row. */
  lemma InboxKey(sdk: Sdk, db: Tables, proc: Process, recipient: Urn, at: int, k: Key)
    ensures k in Inbox(sdk, db, proc, recipient, at) <==>
      k.id in db.v1 && k == Key(db.v1[k.id].storedAt, k.id) && Deliverable(sdk, db, proc, db.v1[k.id], recipient, at)
  {
  }

  /** Acknowledging a prefix of the inbox marks the rows of that prefix. */
  lemma MarkedIsPrefix(sdk: Sdk, db: Tables, proc: Process, recipient: Urn, n: nat, at: int, id: Id)
    requires n <= |Inbox(sdk, db, proc, recipient, at)|
    ensures var batch := Inbox(sdk, db, proc, recipient, at)[..n];
      id in MarkedV1(db.v1, recipient, Ackable(sdk, db, proc, recipient, Ids(batch), at), at) <==>
        id in db.v1 && Key(db.v1[id].storedAt, id) in batch
  {
    var list := Inbox(sdk, db, proc, recipient, at);
    var batch := list[..n];
    AckMarksExactlyTheRequested(sdk, db, proc, recipient, Ids(batch), at, id);
    if id in Ids(batch) {
      var i :| 0 <= i < |batch| && Ids(batch)[i] == id;
      assert list[i] == batch[i] && list[i] in list;
      InboxKey(sdk, db, proc, recipient, at, list[i]);
    }
    if id in db.v1 && Key(db.v1[id].storedAt, id) in batch {
      var i :| 0 <= i < |batch| && batch[i] == Key(db.v1[id].storedAt, id);
      assert Ids(batch)[i] == id;
      assert list[i] in list;
      InboxKey(sdk, db, proc, recipient, at, list[i]);
    }
  }

  lemma PrefixCount(sdk: Sdk, db: Tables, proc: Process, recipient: Urn, n: nat, at: int, marked: set<Id>)
    requires n <= |Inbox(sdk, db, proc, recipient, at)|
    requires marked <= db.v1.Keys
    requires forall id | id in db.v1 :: id in marked <==> Key(db.v1[id].storedAt, id) in Inbox(sdk, db, proc, recipient, at)[..n]
    ensures |marked| == n
  {
    var list := Inbox(sdk, db, proc, recipient, at);
    var keys := set k | k in list[..n];
    forall k | k in keys ensures k.id in marked && k == Key(db.v1[k.id].storedAt, k.id) {
      InboxKey(sdk, db, proc, recipient, at, k);
    }
    forall id | id in marked ensures exists k :: k in keys && k.id == id {
      assert Key(db.v1[id].storedAt, id) in keys;
    }
    KeyCount(keys, marked);
    AscendingCount(list[..n]);
  }

  /** Acknowledging the first n deliverable rows counts n and leaves exactly the others, in order. */
  lemma AckDropsThePrefix(sdk: Sdk, db: Tables, proc: Process, recipient: Urn, n: nat, at: int)
    requires Unix(at) > 0
    requires n <= |Inbox(sdk, db, proc, recipient, at)|
    ensures var list := Inbox(sdk, db, proc, recipient, at);
      && AckCount(sdk, db, proc, recipient, list[..n], at) == n
      && Inbox(sdk, Acked(sdk, db, proc, recipient, list[..n], at), proc, recipient, at) == list[n..]
  {
    var batch := Inbox(sdk, db, proc, recipient, at)[..n];
    var marked := MarkedV1(db.v1, recipient, Ackable(sdk, db, proc, recipient, Ids(batch), at), at);
    forall id ensures id in marked <==> id in db.v1 && Key(db.v1[id].storedAt, id) in batch {
      MarkedIsPrefix(sdk, db, proc, recipient, n, at, id);
    }
    PrefixCount(sdk, db, proc, recipient, n, at, marked);
    RestOfInbox(sdk, db, proc, recipient, n, at, marked);
  }

  /** An ACK hides the rows it marks and no others. */
  lemma DeliverableAfterAck(sdk: Sdk, db: Tables, proc: Process, recipient: Urn, pairs: set<(Id, int)>, at: int, id: Id)
    requires Unix(at) > 0 && id in db.v1
    ensures var after := db.(v1 := MarkV1(db.v1, recipient, pairs, at));
      && after.v1[id].storedAt == db.v1[id].storedAt
      && (Deliverable(sdk, after, proc, after.v1[id], recipient, at) <==>
          id !in MarkedV1(db.v1, recipient, pairs, at) && Deliverable(sdk, db, proc, db.v1[id], recipient, at))
  {
    var after := db.(v1 := MarkV1(db.v1, recipient, pairs, at));
    SameManagedView(sdk, db, after, proc, after.v1[id], recipient, at);
  }

  lemma SuffixElements(list: seq<Key>, n: nat, k: Key)
    requires Ascending(list) && n <= |list|
    ensures k in list[n..] <==> k in list && k !in list[..n]
  {
    if k in list[n..] && k in list[..n] {
      var i :| n <= i < |list| && list[i] == k;
      var j :| 0 <= j < n && list[j] == k;
      BeforeIsTotal(list[j], list[i]);
    }
  }

  lemma RestOfInbox(sdk: Sdk, db: Tables, proc: Process, recipient: Urn, n: nat, at: int, marked: set<Id>)
    requires Unix(at) > 0
    requires n <= |Inbox(sdk, db, proc, recipient, at)|
    requires var batch := Inbox(sdk, db, proc, recipient, at)[..n];
      && marked == MarkedV1(db.v1, recipient, Ackable(sdk, db, proc, recipient, Ids(batch), at), at)
      && forall id :: id in marked <==> id in db.v1 && Key(db.v1[id].storedAt, id) in batch
    ensures var list := Inbox(sdk, db, proc, recipient, at);
      Inbox(sdk, Acked(sdk, db, proc, recipient, list[..n], at), proc, recipient, at) == list[n..]
  {
    var list := Inbox(sdk, db, proc, recipient, at);
    var batch := list[..n];
    var after := Acked(sdk, db, proc, recipient, batch, at);
    var rest := DeliverableKeys(sdk, after, proc, recipient, at);
    forall k ensures k in rest <==> k in list[n..] {
      SuffixElements(list, n, k);
      if k.id in db.v1 {
        DeliverableAfterAck(sdk, db, proc, recipient, Ackable(sdk, db, proc, recipient, Ids(batch), at), at, k.id);
      }
    }
    AscendingIsUnique(Sorted(rest), list[n..]);
  }

  /** Grants are read from the identity table alone. */
  lemma SameManagedView(sdk: Sdk, db: Tables, other: Tables, proc: Process, row: V1Row, recipient: Urn, at: int)
    requires db.managed == other.managed
    ensures Deliverable(sdk, db, proc, row, recipient, at) <==> Deliverable(sdk, other, proc, row, recipient, at)
  {
  }

  datatype Round = Round(batch: seq<Key>, acked: nat)

  /** Repeat "retrieve, then ACK what came back" until nothing comes back. */
  function Drain(sdk: Sdk, db: Tables, proc: Process, recipient: Urn, at: int): seq<Round>
    requires Unix(at) > 0
    decreases |Inbox(sdk, db, proc, recipient, at)|
  {
    var list := Inbox(sdk, db, proc, recipient, at);
    if list == [] then []
    else
      var batch := Batch(SizesV1(db.v1), list);
      BatchIsNonempty(SizesV1(db.v1), list);
      AckDropsThePrefix(sdk, db, proc, recipient, |batch|, at);
      [Round(batch, AckCount(sdk, db, proc, recipient, batch, at))]
        + Drain(sdk, Acked(sdk, db, proc, recipient, batch, at), proc, recipient, at)
  }

  function Concat(rounds: seq<Round>): seq<Key> {
    if rounds == [] then [] else rounds[0].batch + Concat(rounds[1..])
  }

  lemma ConcatNothing()
    ensures Concat([]) == []
  {
  }

  lemma ConcatCons(r: Round, rest: seq<Round>)
    ensures Concat([r] + rest) == r.batch + Concat(rest)
  {
    assert ([r] + rest)[1..] == rest;
  }

  predicate Exact(r: Round) {
    0 < |r.batch| == r.acked <= MAX_BATCH
  }

  /** Draining delivers every deliverable row once and in order, and every ACK counts its whole batch. */
  lemma {:induction false} DrainDeliversEverything(sdk: Sdk, db: Tables, proc: Process, recipient: Urn, at: int)
    requires Unix(at) > 0
    ensures Concat(Drain(sdk, db, proc, recipient, at)) == Inbox(sdk, db, proc, recipient, at)
    ensures forall r | r in Drain(sdk, db, proc, recipient, at) :: Exact(r)
    decreases |Inbox(sdk, db, proc, recipient, at)|
  {
    hide Inbox, SizesV1, Acked, AckCount, Concat, Fill;
    var list := Inbox(sdk, db, proc, recipient, at);
    if list == [] {
      ConcatNothing();
    } else {
      var batch := Batch(SizesV1(db.v1), list);
      BatchIsNonempty(SizesV1(db.v1), list);
      BatchIsBounded(SizesV1(db.v1), list, 0);
      var after := Acked(sdk, db, proc, recipient, batch, at);
      var first := Round(batch, AckCount(sdk, db, proc, recipient, batch, at));
      AckDropsThePrefix(sdk, db, proc, recipient, |batch|, at);
      assert list[..|batch|] == batch;
      DrainDeliversEverything(sdk, after, proc, recipient, at);
      DrainUnfolds(sdk, db, proc, recipient, at);
      ConcatCons(first, Drain(sdk, after, proc, recipient, at));
      assert list == batch + list[|batch|..];
    }
  }

  lemma DrainUnfolds(sdk: Sdk, db: Tables, proc: Process, recipient: Urn, at: int)
    requires Unix(at) > 0
    requires Inbox(sdk, db, proc, recipient, at) != []
    ensures var batch := Batch(SizesV1(db.v1), Inbox(sdk, db, proc, recipient, at));
      Drain(sdk, db, proc, recipient, at) ==
        [Round(batch, AckCount(sdk, db, proc, recipient, batch, at))]
          + Drain(sdk, Acked(sdk, db, proc, recipient, batch, at), proc, recipient, at)
  {
  }

  lemma {:induction false} BatchIsBounded(sizes: map<Id, nat>, list: seq<Key>, n: nat)
    requires n <= |list| && n <= MAX_BATCH
    ensures Fill(sizes, list, n) <= MAX_BATCH
    decreases |list| - n
  {
    if n < |list| && n < MAX_BATCH {
      BatchIsBounded(sizes, list, n + 1);
    }
  }
}
