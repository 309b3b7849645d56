/**
 * Diffs of keyed families: the shape `diff_os`, `diff_lags` and their kin share
 * (hemlock-mgmtd, intents.rs): changed and new keys first, then vanished ones.
 */
module KeyedDiff {
  import opened Basics

  /** The whole old and new value of one key; `None` means absent. */
  datatype Change<K, V> = Change(key: K, before: Option<V>, after: Option<V>)

  ghost predicate DistinctKeys<K, V>(changes: seq<Change<K, V>>) {
    forall i, j :: 0 <= i < j < |changes| ==> changes[i].key != changes[j].key
  }

  ghost predicate Mentions<K, V>(changes: seq<Change<K, V>>, k: K) {
    exists i :: 0 <= i < |changes| && changes[i].key == k
  }

  /** Each differing key exactly once, with its value on both sides, and nothing else. */
  ghost predicate IsDiff<K, V>(changes: seq<Change<K, V>>, now: map<K, V>, want: map<K, V>) {
    DistinctKeys(changes) &&
    (forall c <- changes :: c.before == Get(now, c.key) && c.after == Get(want, c.key) && c.before != c.after) &&
    (forall k {:trigger Mentions(changes, k)} ::
      k in now.Keys + want.Keys && Get(now, k) != Get(want, k) ==> Mentions(changes, k))
  }

  function Patch<K, V>(m: map<K, V>, c: Change<K, V>): map<K, V> {
    if c.after.Some? then m[c.key := c.after.value] else m - {c.key}
  }

  function PatchAll<K, V>(m: map<K, V>, changes: seq<Change<K, V>>): map<K, V>
    decreases |changes|
  {
    if changes == [] then m else PatchAll(Patch(m, changes[0]), changes[1..])
  }

  lemma {:induction false} PatchAllAt<K, V>(m: map<K, V>, changes: seq<Change<K, V>>, k: K)
    requires DistinctKeys(changes)
    ensures !Mentions(changes, k) ==> Get(PatchAll(m, changes), k) == Get(m, k)
    ensures forall i :: 0 <= i < |changes| && changes[i].key == k ==> Get(PatchAll(m, changes), k) == changes[i].after
    decreases |changes|
  {
    if changes != [] {
      var rest := changes[1..];
      PatchAllAt(Patch(m, changes[0]), rest, k);
      assert changes[0].key == k ==> !Mentions(rest, k);
      assert forall i :: 0 < i < |changes| ==> changes[i] == rest[i - 1];
      assert Mentions(rest, k) ==> Mentions(changes, k) by {
        if Mentions(rest, k) {
          var i :| 0 <= i < |rest| && rest[i].key == k;
          assert changes[i + 1].key == k;
        }
      }
      if changes[0].key == k {
        assert Get(Patch(m, changes[0]), k) == changes[0].after;
      } else {
        assert Get(Patch(m, changes[0]), k) == Get(m, k);
      }
    }
  }

  /** Applying a diff to what it was taken from gives what was wanted. */
  lemma DiffReaches<K, V>(changes: seq<Change<K, V>>, now: map<K, V>, want: map<K, V>)
    requires IsDiff(changes, now, want)
    ensures PatchAll(now, changes) == want
  {
    var r := PatchAll(now, changes);
    forall k ensures Get(r, k) == Get(want, k) {
      PatchAllAt(now, changes, k);
      if Mentions(changes, k) {
        var i :| 0 <= i < |changes| && changes[i].key == k;
        assert changes[i] in changes;
      }
    }
    SameMap(r, want);
  }

  lemma SameMap<K, V>(a: map<K, V>, b: map<K, V>)
    requires forall k :: Get(a, k) == Get(b, k)
    ensures a == b
  {
    assert forall k :: k in a <==> k in b by {
      forall k ensures k in a <==> k in b { assert Get(a, k) == Get(b, k); }
    }
    forall k | k in a ensures a[k] == b[k] { assert Get(a, k) == Get(b, k); }
  }

  /** No changes exactly when nothing differs. */
  lemma EmptyIff<K, V>(changes: seq<Change<K, V>>, now: map<K, V>, want: map<K, V>)
    requires IsDiff(changes, now, want)
    ensures changes == [] <==> now == want
  {
    if changes == [] {
      DiffReaches(changes, now, want);
    } else {
      assert changes[0] in changes;
      assert Get(now, changes[0].key) != Get(want, changes[0].key);
    }
  }

  /** The two loops; the order of keys is left open, as no result depends on it. */
  method Diff<K(==), V(==)>(now: map<K, V>, want: map<K, V>) returns (changes: seq<Change<K, V>>)
    ensures IsDiff(changes, now, want)
  {
    changes := [];
    var left := want.Keys;
    while left != {}
      invariant left <= want.Keys
      invariant Partial(changes, now, want, want.Keys - left)
      decreases left
    {
      var k :| k in left;
      if Get(now, k) != Some(want[k]) {
        Extend(changes, now, want, want.Keys - left, k);
        changes := changes + [Change(k, Get(now, k), Some(want[k]))];
      }
      left := left - {k};
    }
    left := now.Keys;
    while left != {}
      invariant left <= now.Keys
      invariant Partial(changes, now, want, want.Keys + (now.Keys - left))
      decreases left
    {
      var k :| k in left;
      if k !in want {
        Extend(changes, now, want, want.Keys + (now.Keys - left), k);
        changes := changes + [Change(k, Some(now[k]), None)];
      }
      left := left - {k};
    }
  }

  /** A diff restricted to the keys visited so far. */
  ghost predicate Partial<K, V>(changes: seq<Change<K, V>>, now: map<K, V>, want: map<K, V>, seen: set<K>) {
    DistinctKeys(changes) &&
    (forall c <- changes ::
      c.key in seen && c.before == Get(now, c.key) && c.after == Get(want, c.key) && c.before != c.after) &&
    (forall k {:trigger Mentions(changes, k)} :: k in seen && Get(now, k) != Get(want, k) ==> Mentions(changes, k))
  }

  lemma Extend<K, V>(changes: seq<Change<K, V>>, now: map<K, V>, want: map<K, V>, seen: set<K>, k: K)
    requires Partial(changes, now, want, seen) && k !in seen && Get(now, k) != Get(want, k)
    ensures Partial(changes + [Change(k, Get(now, k), Get(want, k))], now, want, seen + {k})
  {
    var c := Change(k, Get(now, k), Get(want, k));
    var more := changes + [c];
    assert more[|changes|].key == k;
    forall j | j in seen && Get(now, j) != Get(want, j) ensures Mentions(more, j) {
      assert Mentions(changes, j);
      var i :| 0 <= i < |changes| && changes[i].key == j;
      assert more[i].key == j;
    }
    forall i | 0 <= i < |changes| ensures changes[i].key != k { assert changes[i] in changes; }
  }
}
