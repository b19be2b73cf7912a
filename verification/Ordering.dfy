/**
 Retrieval order: rows are read by (stored_at, id), the id compared byte by byte.
 `Sorted` is the reference ordering that every ORDER BY of the mailbox is stated with.
 */
module Ordering {

  predicate LexLess(a: string, b: string) {
    b != [] && (a == [] || a[0] < b[0] || (a[0] == b[0] && LexLess(a[1..], b[1..])))
  }

  lemma {:induction false} LexTotal(a: string, b: string)
    ensures a == b || LexLess(a, b) || LexLess(b, a)
  {
    if a != [] && b != [] && a[0] == b[0] {
      LexTotal(a[1..], b[1..]);
      assert a == [a[0]] + a[1..] && b == [b[0]] + b[1..];
    }
  }

  lemma {:induction false} LexAsymmetric(a: string, b: string)
    ensures !(LexLess(a, b) && LexLess(b, a))
  {
    if a != [] && b != [] {
      LexAsymmetric(a[1..], b[1..]);
    }
  }

  lemma {:induction false} LexTransitive(a: string, b: string, c: string)
    requires LexLess(a, b) && LexLess(b, c)
    ensures LexLess(a, c)
  {
    if a != [] && a[0] == b[0] && b[0] == c[0] {
      LexTransitive(a[1..], b[1..], c[1..]);
    }
  }

  datatype Key = Key(at: int, id: string)

  predicate Before(a: Key, b: Key) {
    a.at < b.at || (a.at == b.at && LexLess(a.id, b.id))
  }

  lemma BeforeIsTotal(a: Key, b: Key)
    ensures a == b || Before(a, b) || Before(b, a)
    ensures !(Before(a, b) && Before(b, a))
  {
    LexTotal(a.id, b.id);
    LexAsymmetric(a.id, b.id);
  }

  lemma BeforeIsTransitive(a: Key, b: Key, c: Key)
    requires Before(a, b) && Before(b, c)
    ensures Before(a, c)
  {
    if a.at == b.at == c.at {
      LexTransitive(a.id, b.id, c.id);
    }
  }

  /** The text order: at the first difference the smaller character decides, and a proper prefix comes first. */
  lemma {:induction false} LexLessAt(a: string, b: string, n: nat)
    requires n <= |a| && n <= |b| && a[..n] == b[..n]
    ensures n == |a| < |b| ==> LexLess(a, b)
    ensures n < |a| && n < |b| && a[n] < b[n] ==> LexLess(a, b)
  {
    if n > 0 {
      assert a[..n][0] == b[..n][0];
      assert a[1..][..n - 1] == a[..n][1..] && b[1..][..n - 1] == b[..n][1..];
      LexLessAt(a[1..], b[1..], n - 1);
    }
  }

  /** Rows are ordered by second first, and by ID within a second. */
  lemma BeforeBySecond(a: Key, b: Key)
    ensures a.at < b.at ==> Before(a, b)
    ensures a.at == b.at ==> (Before(a, b) <==> LexLess(a.id, b.id))
  {
  }

  predicate Leads(k: Key, s: set<Key>) {
    k in s && forall j | j in s && j != k :: Before(k, j)
  }

  lemma {:induction false} LeaderExists(s: set<Key>)
    requires s != {}
    ensures exists k :: Leads(k, s)
  {
    var x :| x in s;
    if s == {x} {
      assert Leads(x, s);
    } else {
      LeaderExists(s - {x});
      var k :| Leads(k, s - {x});
      BeforeIsTotal(k, x);
      if Before(k, x) {
        assert Leads(k, s);
      } else {
        forall j | j in s && j != x ensures Before(x, j) {
          if j != k {
            BeforeIsTransitive(x, k, j);
          }
        }
        assert Leads(x, s);
      }
    }
  }

  lemma LeaderIsUnique(s: set<Key>)
    ensures forall a, b | Leads(a, s) && Leads(b, s) :: a == b
  {
    forall a, b | Leads(a, s) && Leads(b, s) ensures a == b {
      BeforeIsTotal(a, b);
    }
  }

  ghost predicate Ascending(r: seq<Key>) {
    forall i, j | 0 <= i < j < |r| :: Before(r[i], r[j])
  }

  /** The elements of `s` in ascending order. */
  function Sorted(s: set<Key>): (r: seq<Key>)
    ensures Ascending(r)
    ensures |r| == |s|
    ensures forall k :: k in r <==> k in s
  {
    if s == {} then []
    else
      LeaderExists(s);
      LeaderIsUnique(s);
      var k :| Leads(k, s);
      [k] + Sorted(s - {k})
  }

  /** An ascending sequence is determined by its elements. */
  lemma {:induction false} AscendingIsUnique(a: seq<Key>, b: seq<Key>)
    requires Ascending(a) && Ascending(b)
    requires forall k :: k in a <==> k in b
    ensures a == b
  {
    assert b == [] || b[0] in a;
    if a != [] {
      assert a[0] in b;
      assert a[0] == b[0] by {
        BeforeIsTotal(a[0], b[0]);
      }
      forall k ensures k in a[1..] <==> k in b[1..] {
        if k in a[1..] {
          BeforeIsTotal(a[0], a[0]);
          assert k in a && k != a[0];
          assert k in b;
        }
        if k in b[1..] {
          BeforeIsTotal(a[0], a[0]);
          assert k in b && k != b[0];
          assert k in a;
        }
      }
      AscendingIsUnique(a[1..], b[1..]);
      assert a == [a[0]] + a[1..] && b == [b[0]] + b[1..];
    }
  }

  /** The part of `r` that lies in `s`, in order. */
  function Keep(r: seq<Key>, s: set<Key>): (f: seq<Key>)
    ensures |f| <= |r|
    ensures forall k :: k in f <==> k in r && k in s
  {
    if r == [] then []
    else
      var last := r[|r| - 1];
      assert forall k :: k in r <==> k in r[..|r| - 1] || k == last;
      Keep(r[..|r| - 1], s) + (if last in s then [last] else [])
  }

  lemma {:induction false} KeepIsAscending(r: seq<Key>, s: set<Key>)
    requires Ascending(r)
    ensures Ascending(Keep(r, s))
  {
    if r != [] {
      var init := r[..|r| - 1];
      KeepIsAscending(init, s);
      var f := Keep(init, s);
      forall i | 0 <= i < |f| ensures Before(f[i], r[|r| - 1]) {
        assert f[i] in init;
        var j :| 0 <= j < |init| && init[j] == f[i];
        assert r[j] == init[j];
      }
    }
  }

  /** Filtering the whole ordered table is the same as ordering the filtered one. */
  lemma KeepOfSorted(all: set<Key>, s: set<Key>)
    requires s <= all
    ensures Keep(Sorted(all), s) == Sorted(s)
  {
    KeepIsAscending(Sorted(all), s);
    AscendingIsUnique(Keep(Sorted(all), s), Sorted(s));
  }

  lemma {:induction false} KeepPrefix(r: seq<Key>, s: set<Key>, n: nat)
    requires n <= |r|
    ensures Keep(r[..n], s) <= Keep(r, s)
    decreases |r| - n
  {
    if n < |r| {
      KeepPrefix(r, s, n + 1);
      assert r[..n + 1][..n] == r[..n];
    } else {
      assert r[..n] == r;
    }
  }

  /** Resuming a scan after the n-th row sees exactly the rows not seen yet. */
  lemma SortedAfter(all: set<Key>, n: nat, rest: set<Key>)
    requires 0 < n <= |all|
    requires rest == set k | k in all && Before(Sorted(all)[n - 1], k)
    ensures Sorted(rest) == Sorted(all)[n..]
  {
    var r := Sorted(all);
    forall k ensures k in r[n..] <==> k in rest {
      LaterIffAfter(r, n, k);
    }
    AscendingIsUnique(r[n..], Sorted(rest));
  }

  lemma LaterIffAfter(r: seq<Key>, n: nat, k: Key)
    requires Ascending(r) && 0 < n <= |r|
    ensures k in r[n..] <==> k in r && Before(r[n - 1], k)
  {
    if k in r[n..] {
      var i :| 0 <= i < |r| - n && r[n..][i] == k;
      assert k == r[n + i];
    }
    if k in r {
      var i :| 0 <= i < |r| && r[i] == k;
      BeforeIsTotal(r[i], r[n - 1]);
      if i >= n {
        assert k == r[n..][i - n];
      }
    }
  }
}
