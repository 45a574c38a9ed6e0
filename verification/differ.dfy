/** Frame-to-frame diff of the locked board (tritris3d.js:597-631, 658):
    which occupied slots were not occupied in the previous frame. */
module Differ {
  import opened Board

  /** The hits whose key was not locked last frame, kept in scan order. */
  function NewlyLocked(hits: seq<Hit>, prev: set<Key>): (r: seq<Hit>)
    ensures forall x :: x in r <==> x in hits && x.key !in prev
    ensures |r| <= |hits|
  {
    if hits == [] then []
    else (if hits[0].key in prev then [] else [hits[0]]) + NewlyLocked(hits[1..], prev)
  }

  /** Filtering keeps the scan order of what survives. */
  lemma {:induction false} NewlyLockedOrdered(hits: seq<Hit>, prev: set<Key>)
    requires ScanOrdered(hits)
    ensures ScanOrdered(NewlyLocked(hits, prev))
  {
    if hits != [] {
      var t := hits[1..];
      assert ScanOrdered(t) by {
        forall i, j | 0 <= i < j < |t| ensures Before(t[i].key, t[j].key) {
          assert t[i] == hits[i + 1] && t[j] == hits[j + 1];
        }
      }
      NewlyLockedOrdered(t, prev);
      var hd: seq<Hit> := if hits[0].key in prev then [] else [hits[0]];
      forall y | y in NewlyLocked(t, prev) ensures Before(hits[0].key, y.key) {
        var j :| 0 <= j < |t| && t[j] == y;
        assert hits[j + 1] == y;
      }
      ConcatOrdered(hd, NewlyLocked(t, prev));
    }
  }

  /** As sets, the newly locked keys are this frame's keys minus last frame's. */
  lemma NewlyLockedKeys(hits: seq<Hit>, prev: set<Key>)
    ensures KeySet(NewlyLocked(hits, prev)) == KeySet(hits) - prev
  {
    var r := NewlyLocked(hits, prev);
    forall k | k in KeySet(hits) - prev ensures k in KeySet(r) {
      var x :| x in hits && x.key == k;
      assert x in r;
    }
  }

  /** Nothing is new when every key was already locked; in particular two
      identical consecutive scans report nothing new the second time. */
  lemma {:induction false} NothingNewTwice(hits: seq<Hit>, prev: set<Key>)
    requires KeySet(hits) <= prev
    ensures NewlyLocked(hits, prev) == []
  {
    if hits != [] {
      assert hits[0] in hits;
      assert KeySet(hits[1..]) <= KeySet(hits) by {
        forall x | x in hits[1..] ensures x in hits { }
      }
      NothingNewTwice(hits[1..], prev);
    }
  }

  lemma NewlyLockedAppend(a: seq<Hit>, x: Hit, prev: set<Key>)
    ensures NewlyLocked(a + [x], prev)
         == NewlyLocked(a, prev) + (if x.key in prev then [] else [x])
  {
    NewlyLockedConcat(a, [x], prev);
    assert [x][1..] == [];
  }

  /** Filtering distributes over concatenation. */
  lemma {:induction false} NewlyLockedConcat(a: seq<Hit>, b: seq<Hit>, prev: set<Key>)
    ensures NewlyLocked(a + b, prev) == NewlyLocked(a, prev) + NewlyLocked(b, prev)
    decreases |a|
  {
    if a == [] {
      assert a + b == b;
    } else {
      var ab := a + b;
      assert ab[0] == a[0] && ab[1..] == a[1..] + b;
      NewlyLockedConcat(a[1..], b, prev);
    }
  }

  lemma KeySetAppend(a: seq<Hit>, x: Hit)
    ensures KeySet(a + [x]) == KeySet(a) + {x.key}
  {
    assert forall y :: y in a + [x] <==> y in a || y == x;
  }

  /** The list of newly locked hits is non-empty exactly when some hit's
      key was not locked last frame. */
  lemma SomethingNew(hits: seq<Hit>, prev: set<Key>)
    ensures |NewlyLocked(hits, prev)| > 0 <==> exists x :: x in hits && x.key !in prev
  {
    var r := NewlyLocked(hits, prev);
    if |r| > 0 {
      assert r[0] in r;
    }
    if exists x :: x in hits && x.key !in prev {
      var x :| x in hits && x.key !in prev;
      assert x in r;
    }
  }

  /** The scan loop as written: every hit's key goes into the current set,
      keys absent from `prev` are pushed onto the newly-locked list, and the
      lock sound with the board bounce fires at the moment that list reaches
      length one. */
  method DiffLocked(hits: seq<Hit>, prev: set<Key>) returns (current: set<Key>, newly: seq<Hit>, lockEvents: nat)
    ensures current == KeySet(hits)
    ensures forall x :: x in newly <==> x in hits && x.key !in prev
    ensures newly == NewlyLocked(hits, prev)
    ensures lockEvents <= 1
    ensures lockEvents == 1 <==> exists x :: x in hits && x.key !in prev
  {
    current := {};
    newly := [];
    lockEvents := 0;
    for i := 0 to |hits|
      invariant current == KeySet(hits[..i])
      invariant newly == NewlyLocked(hits[..i], prev)
      invariant lockEvents == if |newly| > 0 then 1 else 0
    {
      var x := hits[i];
      assert KeySet(hits[..i + 1]) == current + {x.key}
          && NewlyLocked(hits[..i + 1], prev) == newly + (if x.key in prev then [] else [x]) by {
        assert hits[..i + 1] == hits[..i] + [x];
        KeySetAppend(hits[..i], x);
        NewlyLockedAppend(hits[..i], x, prev);
      }
      current := current + {x.key};
      if x.key !in prev {
        newly := newly + [x];
        if |newly| == 1 {
          lockEvents := lockEvents + 1;
        }
      }
    }
    assert hits[..|hits|] == hits;
    SomethingNew(hits, prev);
  }
}
