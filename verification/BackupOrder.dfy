/** Names of rotated log copies, `<stem>.<stamp>[_n]<suffix>`, as ordered keys, and the
    newest of a set of them. */
module BackupOrder {
  /** `stamp` orders as the fixed-width timestamp does; `n` is 0 when the name has no counter. */
  datatype Key = Key(stamp: nat, n: nat)

  predicate Before(a: Key, b: Key) {
    a.stamp < b.stamp || (a.stamp == b.stamp && a.n < b.n)
  }

  predicate Least(k: Key, s: set<Key>) {
    k in s && forall j | j in s :: j == k || Before(k, j)
  }

  lemma {:induction false} LeastExists(s: set<Key>)
    requires s != {}
    ensures exists k :: Least(k, s)
    decreases |s|
  {
    var a :| a in s;
    if s == {a} {
      assert Least(a, s);
    } else {
      LeastExists(s - {a});
      var k :| Least(k, s - {a});
      assert a != k;
      if Before(a, k) {
        forall j | j in s && j != a ensures Before(a, j) {
          assert j == k || Before(k, j);
        }
        assert Least(a, s);
      } else {
        assert Least(k, s);
      }
    }
  }

  lemma LeastUnique(s: set<Key>, a: Key, b: Key)
    requires Least(a, s) && Least(b, s)
    ensures a == b
  {}

  /** The keys oldest first. */
  function Sorted(s: set<Key>): (r: seq<Key>)
    ensures |r| == |s|
    decreases |s|
  {
    if s == {} then []
    else
      LeastExists(s);
      assert forall a, b | Least(a, s) && Least(b, s) :: a == b by {
        forall a, b | Least(a, s) && Least(b, s) ensures a == b { LeastUnique(s, a, b); }
      }
      var k :| Least(k, s);
      [k] + Sorted(s - {k})
  }

  lemma SortedFirst(s: set<Key>, k: Key)
    requires Least(k, s)
    ensures Sorted(s) == [k] + Sorted(s - {k})
  {}

  predicate Increasing(r: seq<Key>) {
    forall i, j | 0 <= i < j < |r| :: Before(r[i], r[j])
  }

  /** `Sorted` lists exactly the set, strictly increasing. */
  lemma {:induction false} SortedIs(s: set<Key>)
    ensures Lists(Sorted(s), s)
    decreases |s|
  {
    if s == {} {
      assert Sorted(s) == [];
    } else {
      LeastExists(s);
      var k :| Least(k, s);
      hide *;
      SortedFirst(s, k);
      SortedIs(s - {k});
      ConsLists(k, Sorted(s - {k}), s);
    }
  }

  lemma ConsLists(k: Key, t: seq<Key>, s: set<Key>)
    requires Least(k, s) && Lists(t, s - {k})
    ensures Lists([k] + t, s)
  {
    forall i | 0 <= i < |t| ensures Before(k, t[i]) {
      assert t[i] in s - {k};
    }
    assert forall j | 0 <= j < |t| + 1 :: ([k] + t)[j] == if j == 0 then k else t[j - 1];
  }

  ghost predicate Lists(r: seq<Key>, s: set<Key>) {
    Increasing(r) && forall k :: k in r <==> k in s
  }

  /** A set has one increasing list. */
  lemma {:induction false} ListUnique(r: seq<Key>, t: seq<Key>, s: set<Key>)
    requires Lists(r, s) && Lists(t, s)
    ensures r == t
    decreases |r|
  {
    if r == [] {
      assert forall i | 0 <= i < |t| :: t[i] in s;
    } else {
      assert r[0] in t && t != [];
      assert t[0] in r;
      assert r[0] == t[0] by {
        var i :| 0 <= i < |t| && t[i] == r[0];
        var j :| 0 <= j < |r| && r[j] == t[0];
      }
      TailLists(r, s);
      TailLists(t, s);
      ListUnique(r[1..], t[1..], s - {r[0]});
      assert r == [r[0]] + r[1..] && t == [t[0]] + t[1..];
    }
  }

  lemma TailLists(r: seq<Key>, s: set<Key>)
    requires Lists(r, s) && r != []
    ensures Lists(r[1..], s - {r[0]})
  {
    forall k ensures k in r[1..] <==> k in s - {r[0]} {
      if k in r[1..] {
        var i :| 0 <= i < |r[1..]| && r[1..][i] == k;
        assert r[i + 1] == k && Before(r[0], r[i + 1]);
      }
      if k in s - {r[0]} {
        var i :| 0 <= i < |r| && r[i] == k;
        assert r[1..][i - 1] == k;
      }
    }
  }

  lemma SortedUnique(r: seq<Key>, s: set<Key>)
    requires Lists(r, s)
    ensures Sorted(s) == r
  {
    SortedIs(s);
    ListUnique(Sorted(s), r, s);
  }

  /** A key past all others is listed last. */
  lemma SortedAddLast(s: set<Key>, z: Key)
    requires forall k | k in s :: Before(k, z)
    ensures Sorted(s + {z}) == Sorted(s) + [z]
  {
    SortedIs(s);
    hide Sorted;
    var r := Sorted(s);
    assert forall i | 0 <= i < |r| :: r[i] in s;
    assert Lists(r + [z], s + {z});
    SortedUnique(r + [z], s + {z});
  }

  /** Taking one key out of the set takes it out of the list. */
  lemma SortedRemove(s: set<Key>, i: nat)
    requires i < |s|
    ensures var r := Sorted(s); Sorted(s - {r[i]}) == r[..i] + r[i + 1..]
  {
    SortedIs(s);
    hide Sorted;
    ListRemove(Sorted(s), s, i);
    SortedUnique(Sorted(s)[..i] + Sorted(s)[i + 1..], s - {Sorted(s)[i]});
  }

  lemma ListRemove(r: seq<Key>, s: set<Key>, i: nat)
    requires Lists(r, s) && i < |r|
    ensures Lists(r[..i] + r[i + 1..], s - {r[i]})
  {
    var t := r[..i] + r[i + 1..];
    assert forall j | 0 <= j < |t| :: t[j] == r[if j < i then j else j + 1];
    forall k ensures k in t <==> k in s - {r[i]} {
      if k in t {
        var j :| 0 <= j < |t| && t[j] == k;
        assert r[if j < i then j else j + 1] == k;
      }
      if k in s - {r[i]} {
        var j :| 0 <= j < |r| && r[j] == k;
        assert t[if j < i then j else j - 1] == k;
      }
    }
  }

  function LastOf<T>(r: seq<T>, keep: nat): seq<T> {
    if |r| <= keep then r else r[|r| - keep..]
  }

  function BeforeLast<T>(r: seq<T>, keep: nat): seq<T> {
    if |r| <= keep then [] else r[..|r| - keep]
  }

  /** The newest `keep` keys, or all when there are fewer, oldest of them first. */
  function Newest(s: set<Key>, keep: nat): seq<Key> {
    LastOf(Sorted(s), keep)
  }

  function Oldest(s: set<Key>, keep: nat): seq<Key> {
    BeforeLast(Sorted(s), keep)
  }

  /** Deleting one of the older keys leaves the newest ones the newest, and the other old ones old. */
  lemma OldOneGoes(s: set<Key>, keep: nat, v: Key)
    requires v in Oldest(s, keep)
    ensures Newest(s - {v}, keep) == Newest(s, keep)
    ensures forall k | k in Oldest(s, keep) && k != v :: k in Oldest(s - {v}, keep)
  {
    var r := Sorted(s);
    assert |r| == |s|;
    var i :| 0 <= i < |r| - keep && r[i] == v;
    hide Sorted, LastOf, BeforeLast;
    SortedRemove(s, i);
    RestOf(r, i, keep);
  }

  lemma RestOf(r: seq<Key>, i: nat, keep: nat)
    requires i < |r| - keep
    ensures LastOf(r[..i] + r[i + 1..], keep) == LastOf(r, keep)
    ensures forall k | k in BeforeLast(r, keep) && k != r[i] :: k in BeforeLast(r[..i] + r[i + 1..], keep)
  {
    var t := r[..i] + r[i + 1..];
    assert t[|t| - keep..] == r[|r| - keep..];
    forall k | k in BeforeLast(r, keep) && k != r[i] ensures k in BeforeLast(t, keep) {
      var j :| 0 <= j < |r| - keep && BeforeLast(r, keep)[j] == k;
      assert r[j] == k;
      assert t[if j < i then j else j - 1] == k;
    }
  }

  /** Deleting any of the older keys leaves the newest ones the newest. */
  lemma {:induction false} NewestSurvive(s: set<Key>, keep: nat, gone: set<Key>)
    requires forall k | k in gone :: k in Oldest(s, keep)
    ensures Newest(s - gone, keep) == Newest(s, keep)
    decreases |gone|
  {
    if gone == {} {
      assert s - gone == s;
    } else {
      hide Newest, Oldest;
      var v :| v in gone;
      OldOneGoes(s, keep, v);
      assert s - gone == s - {v} - (gone - {v});
      NewestSurvive(s - {v}, keep, gone - {v});
    }
  }
}
