/** Draining the v2 mailbox: retrieve, acknowledge what came back, repeat. */
module DrainV2 {
  import opened Prelude
  import opened Ordering
  import opened MailboxModel
  import opened Retrieval

  /** Tables after the recipient acknowledges `batch`, and the number the acknowledgement reports. */
  function AckedV2(db: Tables, proc: Process, recipient: Urn, batch: seq<Key>, at: int): Tables {
    MarkV2(db, proc, recipient, IdSet(Ids(batch)), at)
  }

  function AckCountV2(db: Tables, proc: Process, recipient: Urn, batch: seq<Key>, at: int): nat {
    |MarkedV2(db.v2, recipient, proc.policyHash, IdSet(Ids(batch)), Unix(at))|
  }

  lemma InboxV2Key(db: Tables, proc: Process, recipient: Urn, now: int, k: Key)
    ensures k in InboxV2(db, proc, recipient, now) <==>
      k.id in db.v2 && k == Key(db.v2[k.id].storedAt, k.id) && VisibleV2(db.v2[k.id], recipient, proc.policyHash, now)
  {
  }

  /** Acknowledging a prefix of the inbox marks the rows of that prefix. */
  lemma MarkedIsPrefixV2(db: Tables, proc: Process, recipient: Urn, n: nat, at: int, id: Id)
    requires n <= |InboxV2(db, proc, recipient, Unix(at))|
    ensures var batch := InboxV2(db, proc, recipient, Unix(at))[..n];
      id in MarkedV2(db.v2, recipient, proc.policyHash, IdSet(Ids(batch)), Unix(at)) <==>
        id in db.v2 && Key(db.v2[id].storedAt, id) in batch
  {
    hide InboxV2;
    var list := InboxV2(db, proc, recipient, Unix(at));
    var batch := list[..n];
    if id in Ids(batch) {
      var i :| 0 <= i < |batch| && Ids(batch)[i] == id;
      assert list[i] == batch[i] && list[i] in list;
      InboxV2Key(db, proc, recipient, Unix(at), list[i]);
      assert batch[i] in batch;
    }
    if id in db.v2 && Key(db.v2[id].storedAt, id) in batch {
      var i :| 0 <= i < |batch| && batch[i] == Key(db.v2[id].storedAt, id);
      assert Ids(batch)[i] == id;
      assert list[i] in list;
      InboxV2Key(db, proc, recipient, Unix(at), list[i]);
    }
  }

  lemma PrefixCountV2(db: Tables, proc: Process, recipient: Urn, n: nat, now: int, marked: set<Id>)
    requires n <= |InboxV2(db, proc, recipient, now)|
    requires forall id :: id in marked <==> id in db.v2 && Key(db.v2[id].storedAt, id) in InboxV2(db, proc, recipient, now)[..n]
    ensures |marked| == n
  {
    hide InboxV2;
    var list := InboxV2(db, proc, recipient, now);
    var keys := set k | k in list[..n];
    forall k | k in keys ensures k.id in marked && k == Key(db.v2[k.id].storedAt, k.id) {
      InboxV2Key(db, proc, recipient, now, k);
    }
    forall id | id in marked ensures exists k :: k in keys && k.id == id {
      assert Key(db.v2[id].storedAt, id) in keys;
    }
    KeyCount(keys, marked);
    InboxesAscend(db, proc, recipient, now);
    AscendingCount(list[..n]);
  }

  /** An ACK hides the rows it marks and no others. */
  lemma VisibleAfterAck(db: Tables, proc: Process, recipient: Urn, ids: seq<Id>, at: int, id: Id)
    requires Unix(at) > 0 && id in db.v2
    ensures var after := MarkV2(db, proc, recipient, IdSet(ids), at);
      && id in after.v2 && after.v2[id].storedAt == db.v2[id].storedAt
      && (VisibleV2(after.v2[id], recipient, proc.policyHash, Unix(at)) <==>
          VisibleV2(db.v2[id], recipient, proc.policyHash, Unix(at)) && id !in MarkedV2(db.v2, recipient, proc.policyHash, IdSet(ids), Unix(at)))
  {
  }

  lemma NoNewRows(db: Tables, proc: Process, recipient: Urn, ids: seq<Id>, at: int)
    ensures MarkV2(db, proc, recipient, IdSet(ids), at).v2.Keys == db.v2.Keys
  {
  }

  /** Acknowledging the first n visible rows counts n and leaves exactly the others, in order. */
  lemma AckV2DropsThePrefix(db: Tables, proc: Process, recipient: Urn, n: nat, at: int)
    requires Unix(at) > 0
    requires n <= |InboxV2(db, proc, recipient, Unix(at))|
    ensures var list := InboxV2(db, proc, recipient, Unix(at));
      && AckCountV2(db, proc, recipient, list[..n], at) == n
      && InboxV2(AckedV2(db, proc, recipient, list[..n], at), proc, recipient, Unix(at)) == list[n..]
  {
    var list := InboxV2(db, proc, recipient, Unix(at));
    var ids := Ids(list[..n]);
    var marked := MarkedV2(db.v2, recipient, proc.policyHash, IdSet(ids), Unix(at));
    InboxesAscend(db, proc, recipient, Unix(at));
    var after := MarkV2(db, proc, recipient, IdSet(ids), at);
    InboxesAscend(after, proc, recipient, Unix(at));
    hide InboxV2, MarkV2, MarkedV2, VisibleV2, IdSet;
    forall id ensures id in marked <==> id in db.v2 && Key(db.v2[id].storedAt, id) in list[..n] {
      MarkedIsPrefixV2(db, proc, recipient, n, at, id);
    }
    PrefixCountV2(db, proc, recipient, n, Unix(at), marked);
    var rest := InboxV2(after, proc, recipient, Unix(at));
    NoNewRows(db, proc, recipient, ids, at);
    forall k ensures k in rest <==> k in list[n..] {
      SuffixElements(list, n, k);
      InboxV2Key(db, proc, recipient, Unix(at), k);
      InboxV2Key(after, proc, recipient, Unix(at), k);
      if k.id in db.v2 {
        VisibleAfterAck(db, proc, recipient, ids, at, k.id);
      }
    }
    AscendingIsUnique(rest, list[n..]);
  }

  lemma InboxesAscend(db: Tables, proc: Process, recipient: Urn, now: int)
    ensures Ascending(InboxV2(db, proc, recipient, now))
  {
  }

  /** Repeat "retrieve, then ACK what came back" until nothing comes back. */
  function Drain(db: Tables, proc: Process, recipient: Urn, at: int): seq<Round>
    requires Unix(at) > 0
    decreases |InboxV2(db, proc, recipient, Unix(at))|
  {
    var list := InboxV2(db, proc, recipient, Unix(at));
    if list == [] then []
    else
      var batch := Batch(SizesV2(db.v2), list);
      BatchIsNonempty(SizesV2(db.v2), list);
      AckV2DropsThePrefix(db, proc, recipient, |batch|, at);
      [Round(batch, AckCountV2(db, proc, recipient, batch, at))] + Drain(AckedV2(db, proc, recipient, batch, at), proc, recipient, at)
  }

  /** Draining delivers every row of the current policy once and in order, and every ACK counts its whole batch. */
  lemma {:induction false} DrainDeliversEverything(db: Tables, proc: Process, recipient: Urn, at: int)
    requires Unix(at) > 0
    ensures Concat(Drain(db, proc, recipient, at)) == InboxV2(db, proc, recipient, Unix(at))
    ensures forall r | r in Drain(db, proc, recipient, at) :: Exact(r)
    decreases |InboxV2(db, proc, recipient, Unix(at))|
  {
    hide InboxV2, SizesV2, AckedV2, AckCountV2, Concat, Fill;
    var list := InboxV2(db, proc, recipient, Unix(at));
    if list == [] {
      ConcatNothing();
    } else {
      var batch := Batch(SizesV2(db.v2), list);
      BatchIsNonempty(SizesV2(db.v2), list);
      BatchIsBounded(SizesV2(db.v2), list, 0);
      var after := AckedV2(db, proc, recipient, batch, at);
      var first := Round(batch, AckCountV2(db, proc, recipient, batch, at));
      AckV2DropsThePrefix(db, proc, recipient, |batch|, at);
      assert list[..|batch|] == batch;
      DrainDeliversEverything(after, proc, recipient, at);
      ConcatCons(first, Drain(after, proc, recipient, at));
      assert list == batch + list[|batch|..];
    }
  }
}
