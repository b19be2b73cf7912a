/**
 Retrieval while other requests run: every page is read from the tables of its own moment. The retrieval holds the policy
 lock, so the policy fields stay as they are; rows come and go between pages.
 */
module Paging {
  import opened Prelude
  import opened Ordering
  import opened MailboxModel
  import opened Retrieval
  import opened Runs
  import opened Namespace
  import opened Mailbox
  import opened Enrolment

  /** What one page query finds: the pending rows of the recipient, and those among them that the filter lets through. */
  datatype Look = Look(pending: set<Key>, shown: set<Key>)

  function PageOf(look: Look, cursor: Key, limit: nat): (page: seq<Key>)
    ensures page <= Sorted(Retrieval.After(look.pending, cursor))
    ensures |page| < limit ==> page == Sorted(Retrieval.After(look.pending, cursor))
  {
    Cut(Sorted(Retrieval.After(look.pending, cursor)), limit)
  }

  /** The cursor ends on the last row of the page. */
  function Moved(cursor: Key, page: seq<Key>): Key {
    if page == [] then cursor else page[|page| - 1]
  }

  /** The rows returned when pages are read one after the other. */
  function Returned(looks: seq<Look>, cursor: Key, limit: nat): seq<Key> {
    if looks == [] then []
    else
      var page := PageOf(looks[0], cursor, limit);
      Keep(page, looks[0].shown) + Returned(looks[1..], Moved(cursor, page), limit)
  }

  function LastCursor(looks: seq<Look>, cursor: Key, limit: nat): Key {
    if looks == [] then cursor else LastCursor(looks[1..], Moved(cursor, PageOf(looks[0], cursor, limit)), limit)
  }

  /** The last page came back short, which ends the retrieval. */
  predicate RanDry(looks: seq<Look>, cursor: Key, limit: nat) {
    looks != [] &&
    var page := PageOf(looks[0], cursor, limit);
    if |looks| == 1 then |page| < limit else RanDry(looks[1..], Moved(cursor, page), limit)
  }

  predicate NotBeyond(k: Key, cursor: Key) {
    k == cursor || Before(k, cursor)
  }

  /** A page lies strictly after the cursor it was read from and not beyond the cursor it leaves. */
  lemma PageBetween(look: Look, cursor: Key, limit: nat, k: Key)
    requires k in PageOf(look, cursor, limit)
    ensures Before(cursor, k) && NotBeyond(k, Moved(cursor, PageOf(look, cursor, limit)))
  {
    var all := Sorted(Retrieval.After(look.pending, cursor));
    var page := PageOf(look, cursor, limit);
    var i :| 0 <= i < |page| && page[i] == k;
    assert all[i] == page[i] && all[i] in all;
    assert page[|page| - 1] == all[|page| - 1];
  }

  lemma PageAscends(look: Look, cursor: Key, limit: nat)
    ensures Ascending(PageOf(look, cursor, limit))
  {
    var all := Sorted(Retrieval.After(look.pending, cursor));
    assert forall i | 0 <= i < |PageOf(look, cursor, limit)| :: PageOf(look, cursor, limit)[i] == all[i];
  }

  /** A pending row that the page has passed, or that a short page could not leave out, is on the page. */
  lemma PageContains(look: Look, cursor: Key, limit: nat, k: Key)
    requires k in look.pending && Before(cursor, k)
    requires |PageOf(look, cursor, limit)| < limit || NotBeyond(k, Moved(cursor, PageOf(look, cursor, limit)))
    ensures k in PageOf(look, cursor, limit)
  {
    var all := Sorted(Retrieval.After(look.pending, cursor));
    var page := PageOf(look, cursor, limit);
    assert k in all;
    var i :| 0 <= i < |all| && all[i] == k;
    if |page| < |all| {
      BeforeIsTotal(cursor, k);
      assert page != [];
      assert page[|page| - 1] == all[|page| - 1];
      if i >= |page| {
        BeforeIsTotal(all[|page| - 1], k);
      }
      assert page[i] == k;
    }
  }

  /** Rows come back strictly after the starting cursor, not beyond the last one, in ascending order: none twice. */
  lemma {:induction false} ReturnedAscends(looks: seq<Look>, cursor: Key, limit: nat)
    ensures Ascending(Returned(looks, cursor, limit))
    ensures forall k | k in Returned(looks, cursor, limit) :: Before(cursor, k) && NotBeyond(k, LastCursor(looks, cursor, limit))
    ensures NotBeyond(cursor, LastCursor(looks, cursor, limit))
    decreases |looks|
  {
    if looks != [] {
      hide PageOf;
      var page := PageOf(looks[0], cursor, limit);
      var next := Moved(cursor, page);
      var first, rest := Keep(page, looks[0].shown), Returned(looks[1..], next, limit);
      ReturnedAscends(looks[1..], next, limit);
      PageAscends(looks[0], cursor, limit);
      KeepIsAscending(page, looks[0].shown);
      CursorAdvances(looks[0], cursor, limit);
      forall k | k in first ensures Before(cursor, k) && NotBeyond(k, next) {
        PageBetween(looks[0], cursor, limit, k);
      }
      var last := LastCursor(looks, cursor, limit);
      forall k | k in first + rest ensures Before(cursor, k) && NotBeyond(k, last) {
        if k in first {
          NotBeyondTransitive(k, next, last);
        } else if cursor != next {
          BeforeIsTransitive(cursor, next, k);
        }
      }
      NotBeyondTransitive(cursor, next, last);
      hide Returned, Keep, LastCursor, Moved;
      JoinAscends(first, rest, next);
      ReturnedUnfolds(looks, cursor, limit);
    }
  }

  lemma ReturnedUnfolds(looks: seq<Look>, cursor: Key, limit: nat)
    requires looks != []
    ensures var page := PageOf(looks[0], cursor, limit);
      Returned(looks, cursor, limit) == Keep(page, looks[0].shown) + Returned(looks[1..], Moved(cursor, page), limit)
  {
  }

  lemma CursorAdvances(look: Look, cursor: Key, limit: nat)
    ensures NotBeyond(cursor, Moved(cursor, PageOf(look, cursor, limit)))
  {
    var page := PageOf(look, cursor, limit);
    if page != [] {
      PageBetween(look, cursor, limit, page[|page| - 1]);
    }
  }

  lemma NotBeyondTransitive(a: Key, b: Key, c: Key)
    requires NotBeyond(a, b) && NotBeyond(b, c)
    ensures NotBeyond(a, c)
  {
    if Before(a, b) && Before(b, c) {
      BeforeIsTransitive(a, b, c);
    }
  }

  lemma JoinAscends(first: seq<Key>, rest: seq<Key>, cut: Key)
    requires Ascending(first) && Ascending(rest)
    requires forall k | k in first :: NotBeyond(k, cut)
    requires forall k | k in rest :: Before(cut, k)
    ensures Ascending(first + rest)
  {
    var r := first + rest;
    forall i, j | 0 <= i < j < |r| ensures Before(r[i], r[j]) {
      if i < |first| <= j {
        assert r[i] in first && r[j] in rest;
        if r[i] != cut {
          BeforeIsTransitive(r[i], cut, r[j]);
        }
      }
    }
  }

  /** A row pending and shown in every look is returned, if the retrieval has passed it or has run dry. */
  lemma {:induction false} StableRowIsReturned(looks: seq<Look>, cursor: Key, limit: nat, k: Key)
    requires forall look | look in looks :: k in look.pending && k in look.shown
    requires Before(cursor, k)
    requires NotBeyond(k, LastCursor(looks, cursor, limit)) || RanDry(looks, cursor, limit)
    ensures k in Returned(looks, cursor, limit)
    decreases |looks|
  {
    if looks == [] {
      BeforeIsTotal(cursor, k);
    } else {
      hide PageOf;
      var page := PageOf(looks[0], cursor, limit);
      var next := Moved(cursor, page);
      BeforeIsTotal(next, k);
      if NotBeyond(k, next) || |page| < limit {
        PageContains(looks[0], cursor, limit, k);
      } else {
        StableRowIsReturned(looks[1..], next, limit, k);
      }
    }
  }

  /** The moment of a page: how many events of the run precede it, and the clock it reads. */
  datatype Moment = Moment(state: nat, at: int)

  function LookAt(env: Env, start: int, es: seq<Event>, recipient: Urn, m: Moment): Look
    requires m.state <= |es|
  {
    var w := At(env, Genesis(start), es, m.state);
    Look(PendingKeys(w.db.v1, recipient, Unix(m.at)), DeliverableKeys(env.sdk, w.db, w.proc, recipient, m.at))
  }

  ghost predicate InRun(es: seq<Event>, pages: seq<Moment>) {
    forall i | 0 <= i < |pages| :: pages[i].state <= |es|
  }

  function Looks(env: Env, start: int, es: seq<Event>, recipient: Urn, pages: seq<Moment>): (looks: seq<Look>)
    requires InRun(es, pages)
    ensures |looks| == |pages|
  {
    seq(|pages|, i requires 0 <= i < |pages| => LookAt(env, start, es, recipient, pages[i]))
  }

  /** A row deliverable at the moment of every page. */
  ghost predicate Stable(env: Env, start: int, es: seq<Event>, recipient: Urn, pages: seq<Moment>, k: Key)
    requires InRun(es, pages)
  {
    pages != [] && forall look | look in Looks(env, start, es, recipient, pages) :: k in look.shown
  }

  /**
   Pages interleaved with stores, ACKs, deletes and cleanups. The first m rows returned, wherever the byte or message limit
   stops the retrieval, ascend strictly, so no row comes back twice. A row deliverable at every page comes back exactly once
   if it lies at or below the last row returned, at or below the last cursor of a retrieval that was not stopped, or
   anywhere once a page came back short.
   */
  lemma InterleavedRetrieval(env: Env, start: int, es: seq<Event>, recipient: Urn, pages: seq<Moment>, limit: nat, m: nat, k: Key)
    requires Run(env, start, es) && InRun(es, pages)
    requires m <= |Returned(Looks(env, start, es, recipient, pages), Key(MIN_INT64, ""), limit)|
    ensures var looks := Looks(env, start, es, recipient, pages);
      var rows := Returned(looks, Key(MIN_INT64, ""), limit);
      && Ascending(rows[..m])
      && (Stable(env, start, es, recipient, pages, k)
          && ((m > 0 && NotBeyond(k, rows[m - 1]))
              || (m == |rows| && (NotBeyond(k, LastCursor(looks, Key(MIN_INT64, ""), limit)) || RanDry(looks, Key(MIN_INT64, ""), limit))))
          ==> exists i :: 0 <= i < m && rows[i] == k && forall j | 0 <= j < m && rows[j] == k :: j == i)
  {
    hide Run, At, DeliverableKeys, PendingKeys, Returned, LastCursor, RanDry, OneNamespace, PayloadsCapped;
    var looks := Looks(env, start, es, recipient, pages);
    var origin := Key(MIN_INT64, "");
    var rows := Returned(looks, origin, limit);
    ReturnedAscends(looks, origin, limit);
    if Stable(env, start, es, recipient, pages, k) {
      forall look | look in looks ensures k in look.pending && Before(origin, k) {
        var i :| 0 <= i < |looks| && looks[i] == look;
        StableIsPending(env, start, es, recipient, pages[i], k);
      }
      assert looks[0] in looks;
      var last := LastCursor(looks, origin, limit);
      if m > 0 && NotBeyond(k, rows[m - 1]) {
        assert rows[m - 1] in rows;
        NotBeyondTransitive(k, rows[m - 1], last);
      }
      if NotBeyond(k, last) || RanDry(looks, origin, limit) {
        StableRowIsReturned(looks, origin, limit, k);
        ReturnedOnce(rows, m, k);
      }
    }
  }

  lemma StableIsPending(env: Env, start: int, es: seq<Event>, recipient: Urn, m: Moment, k: Key)
    requires Run(env, start, es) && m.state <= |es| && k in LookAt(env, start, es, recipient, m).shown
    ensures k in LookAt(env, start, es, recipient, m).pending && Before(Key(MIN_INT64, ""), k)
  {
    hide Run, At, OneNamespace;
    NamespaceHolds(env, start, es, m.state);
    var w := At(env, Genesis(start), es, m.state);
    DeliverableArePending(env.sdk, w.db, w.proc, recipient, m.at);
  }

  lemma ReturnedOnce(rows: seq<Key>, m: nat, k: Key)
    requires Ascending(rows) && k in rows && m <= |rows|
    ensures m == |rows| || (m > 0 && NotBeyond(k, rows[m - 1]))
      ==> exists i :: 0 <= i < m && rows[i] == k && forall j | 0 <= j < m && rows[j] == k :: j == i
  {
    var i :| 0 <= i < |rows| && rows[i] == k;
    BeforeIsTotal(k, k);
    if m > 0 && NotBeyond(k, rows[m - 1]) && i >= m {
      BeforeIsTotal(rows[m - 1], k);
    }
    forall j | 0 <= j < |rows| && rows[j] == k ensures j == i {
    }
  }

  // ---- The grant cache across pages ---------------------------------------

  lemma PolicyFieldsStay(env: Env, w: World, e: Event)
    requires !IsAuthority(e.op)
    ensures var p, q := w.proc, Apply(env, w, e).proc;
      q.required == p.required && q.policyHash == p.policyHash && q.policyExpiry == p.policyExpiry && q.issuer == p.issuer
  {
    hide ApplyTables;
  }

  lemma {:induction false} AuthorityStays(env: Env, start: int, es: seq<Event>, i: nat, k: nat)
    requires i <= k <= |es| && forall j | i <= j < k :: !IsAuthority(es[j].op)
    ensures var v, w := At(env, Genesis(start), es, i), At(env, Genesis(start), es, k);
      && SameAuthority(v.db, w.db)
      && w.proc.required == v.proc.required && w.proc.policyExpiry == v.proc.policyExpiry && w.proc.issuer == v.proc.issuer
    decreases k
  {
    hide ApplyTables, ApplyProcess, At;
    if i < k {
      AuthorityStays(env, start, es, i, k - 1);
      AtUnfolds(env, Genesis(start), es, k - 1);
      MailKeepsAuthority(env, At(env, Genesis(start), es, k - 1), es[k - 1]);
      PolicyFieldsStay(env, At(env, Genesis(start), es, k - 1), es[k - 1]);
    }
  }

  /** Grants cached on an earlier page decide like fresh ones while no enrolment, revocation or policy change comes between. */
  lemma CachedVerdictIsFresh(env: Env, start: int, es: seq<Event>, i: nat, k: nat, cache: GrantCache, recipient: Urn, id: Id, at: int)
    requires i <= k <= |es| && forall j | i <= j < k :: !IsAuthority(es[j].op)
    requires CacheSound(At(env, Genesis(start), es, i).db, At(env, Genesis(start), es, i).proc.issuer, cache) && |cache| <= GRANT_CACHE
    requires id in At(env, Genesis(start), es, k).db.v1
    ensures var w := At(env, Genesis(start), es, k);
      var row := w.db.v1[id];
      && CacheSound(w.db, w.proc.issuer, cache)
      && (PendingV1(row, recipient, Unix(at)) && ShowsCached(env.sdk, w.db, w.proc, cache, recipient, row, Unix(at)).0
          <==> Deliverable(env.sdk, w.db, w.proc, row, recipient, at))
  {
    AuthorityStays(env, start, es, i, k);
    hide At, ShowsCached, ManagedRoute, PendingV1;
  }

  /**
   A grant cached at state `i`, stale as it may be when a later page asks it, still permits a row only on the strength of an
   enrolment no later than the row, live without a gap until it was cached and unexpired when asked.
   */
  lemma CachedGrantWasEnrolled(env: Env, start: int, es: seq<Event>, i: nat, cache: GrantCache, urn: Urn, key: Option<Bytes>,
                               ns: int, policyExpiry: int, now: int) returns (o: nat, c: nat)
    requires Run(env, start, es) && i <= |es|
    requires var w := At(env, Genesis(start), es, i);
      && |w.proc.issuer| == ISSUER_SIZE && CacheSound(w.db, w.proc.issuer, cache) && w.clock <= now
    requires urn in cache && Permits(cache[urn], key, ns, policyExpiry, Unix(now))
    ensures EnrolledBy(env, start, es, i, urn, o) && es[o].at <= ns
    ensures var w := At(env, Genesis(start), es, i);
      w.db.managed[urn].issuer == w.proc.issuer && Unix(now) < policyExpiry
    ensures CertifiedBy(env, start, es, i, urn, c) && WithinCertificate(es[c].op.cert, key, ns, now)
  {
    hide At, Run, EnrolledBy, CertifiedBy, Permits, LoadGrant;
    o, c := NoRetroactiveAuthorisation(env, start, es, i, urn, key, ns, policyExpiry, now);
  }
}
