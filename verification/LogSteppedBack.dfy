/** What one rotation costs when the clock has stepped back: the lines just written are put
    among older copies, or behind the newest ones altogether. */
module LogSteppedBack {
  import opened Text
  import opened BackupOrder
  import opened LogFiles

  predicate AllDistinct(lines: Lines) {
    forall i, j | 0 <= i < j < |lines| :: lines[i] != lines[j]
  }

  /** The listed keys from the first on that sorts after the copy made now. */
  function FromLater(keys: seq<Key>, luck: Luck): (r: seq<Key>)
    ensures |r| <= |keys| && r == keys[|keys| - |r|..]
  {
    if keys == [] || Later(luck, keys[0]) then keys else FromLater(keys[1..], luck)
  }

  /** The lines of the newest `keep` copies of later seconds. */
  function LaterLines(d: Disk, keep: nat, luck: Luck): Lines {
    Contents(d.backups, LastOf(FromLater(Sorted(d.backups.Keys), luck), keep))
  }

  lemma ConsIncreasing(k: Key, r: seq<Key>)
    requires Increasing(r) && forall i | 0 <= i < |r| :: Before(k, r[i])
    ensures Increasing([k] + r)
  {}

  lemma FirstBefore(keys: seq<Key>)
    requires keys != [] && Increasing(keys)
    ensures Increasing(keys[1..]) && forall i | 0 <= i < |keys[1..]| :: Before(keys[0], keys[1..][i])
  {
    assert forall i | 0 <= i < |keys[1..]| :: keys[1..][i] == keys[i + 1];
  }

  lemma LaterFrom(keys: seq<Key>, luck: Luck)
    requires keys != []
    ensures FromLater(keys, luck) == if Later(luck, keys[0]) then keys else FromLater(keys[1..], luck)
    ensures |FromLater(keys, luck)| <= |keys|
  {}

  /** The listed keys before that. */
  function Early(keys: seq<Key>, luck: Luck): seq<Key> {
    if keys == [] || Later(luck, keys[0]) then [] else [keys[0]] + Early(keys[1..], luck)
  }

  /** A fresh name's place in the listing. */
  lemma {:induction false} PlaceOf(keys: seq<Key>, name: Key, luck: Luck)
    requires Increasing(keys)
    requires forall i | 0 <= i < |keys| :: keys[i] != name && (Later(luck, keys[i]) <==> Before(name, keys[i]))
    ensures keys == Early(keys, luck) + FromLater(keys, luck)
    ensures Increasing(Early(keys, luck) + ([name] + FromLater(keys, luck)))
  {
    if keys == [] {
      assert [] + ([name] + []) == [name];
    } else {
      var k, rest := keys[0], keys[1..];
      FirstBefore(keys);
      assert keys == [k] + rest;
      assert forall i | 0 <= i < |rest| :: rest[i] == keys[i + 1];
      if Later(luck, k) {
        FirstPlace(keys, name, luck);
      } else {
        hide FromLater, Early, Later;
        PlaceOf(rest, name, luck);
        LaterPlace(k, rest, name, luck);
      }
    }
  }

  lemma FirstPlace(keys: seq<Key>, name: Key, luck: Luck)
    requires keys != [] && Increasing(keys) && Later(luck, keys[0]) && Before(name, keys[0])
    ensures keys == Early(keys, luck) + FromLater(keys, luck)
    ensures Increasing(Early(keys, luck) + ([name] + FromLater(keys, luck)))
  {
    LaterFrom(keys, luck);
    FirstBefore(keys);
    assert keys == [keys[0]] + keys[1..];
    assert Early(keys, luck) == [];
    assert [] + ([name] + keys) == [name] + keys && [] + keys == keys;
    hide Increasing, FromLater, Later, Early;
    AllAfter(name, keys[0], keys[1..]);
    ConsIncreasing(name, keys);
  }

  lemma LaterPlace(k: Key, rest: seq<Key>, name: Key, luck: Luck)
    requires !Later(luck, k) && !Before(name, k) && k != name && forall i | 0 <= i < |rest| :: Before(k, rest[i])
    requires rest == Early(rest, luck) + FromLater(rest, luck)
    requires Increasing(Early(rest, luck) + ([name] + FromLater(rest, luck)))
    ensures var keys := [k] + rest;
            keys == Early(keys, luck) + FromLater(keys, luck)
            && Increasing(Early(keys, luck) + ([name] + FromLater(keys, luck)))
  {
    var keys := [k] + rest;
    assert keys[1..] == rest;
    LaterFrom(keys, luck);
    var early, late := Early(rest, luck), FromLater(rest, luck);
    assert Early(keys, luck) == [k] + early && Before(k, name);
    hide *;
    Associative([k], early, late);
    Associative([k], early, [name] + late);
    Among(early, late, name, k, rest);
    ConsIncreasing(k, early + ([name] + late));
  }

  lemma AllAfter(name: Key, k: Key, rest: seq<Key>)
    requires Before(name, k) && forall i | 0 <= i < |rest| :: Before(k, rest[i])
    ensures forall i | 0 <= i < |[k] + rest| :: Before(name, ([k] + rest)[i])
  {}

  lemma Among(early: seq<Key>, late: seq<Key>, name: Key, k: Key, rest: seq<Key>)
    requires rest == early + late && Before(k, name) && forall i | 0 <= i < |rest| :: Before(k, rest[i])
    ensures var all := early + ([name] + late); forall i | 0 <= i < |all| :: Before(k, all[i])
  {
    hide Before;
    var all := early + ([name] + late);
    forall i | 0 <= i < |all| ensures Before(k, all[i]) {
      assert all[i] == if i < |early| then rest[i] else if i == |early| then name else rest[i - 1];
    }
  }

  /** The listing with the new copy in it. */
  lemma Inserted(s: set<Key>, name: Key, luck: Luck)
    requires name !in s && forall k | k in s :: Later(luck, k) <==> Before(name, k)
    ensures var early, late := Early(Sorted(s), luck), FromLater(Sorted(s), luck);
            Sorted(s) == early + late && Sorted(s + {name}) == early + ([name] + late) && name !in early + late
  {
    SortedIs(s);
    var keys := Sorted(s);
    assert forall i | 0 <= i < |keys| :: keys[i] in keys;
    PlaceOf(keys, name, luck);
    var early, late := Early(keys, luck), FromLater(keys, luck);
    var all := early + ([name] + late);
    hide Sorted, FromLater, Early;
    assert forall k :: k in all <==> k in s + {name} by {
      forall k ensures k in all <==> k in s + {name} {
        assert k in all <==> k in early || k == name || k in late;
        assert k in keys <==> k in early || k in late;
      }
    }
    SortedUnique(all, s + {name});
  }

  lemma {:induction false} OldContents(backups: map<Key, Lines>, keys: seq<Key>, name: Key, lines: Lines)
    requires name !in keys
    ensures Contents(backups[name := lines], keys) == Contents(backups, keys)
  {
    if keys != [] {
      assert keys[0] in keys;
      OldContents(backups, keys[1..], name, lines);
    }
  }

  lemma {:induction false} SameContents(a: map<Key, Lines>, b: map<Key, Lines>, keys: seq<Key>)
    requires forall k | k in keys :: k in a && k in b && a[k] == b[k]
    ensures Contents(a, keys) == Contents(b, keys)
  {
    if keys != [] { SameContents(a, b, keys[1..]); }
  }

  /** Pruning does not change what is retained. */
  lemma PrunedRetained(backups: map<Key, Lines>, keep: nat, luck: Luck)
    ensures Retained(Disk(Pruned(backups, keep, luck), None), keep) == Contents(backups, Newest(backups.Keys, keep))
  {
    PruneKeepsNewest(backups, keep, luck);
    var left := Pruned(backups, keep, luck);
    var keys := Newest(left.Keys, keep);
    NewestListed(left.Keys, keep);
    hide Pruned, Newest;
    SameContents(left, backups, keys);
    assert Contents(left, keys) + [] == Contents(left, keys);
  }

  lemma NewestListed(s: set<Key>, keep: nat)
    ensures forall k | k in Newest(s, keep) :: k in s
  {
    SortedIs(s);
  }

  lemma ManyLater<T>(early: seq<T>, name: T, late: seq<T>, keep: nat)
    requires keep >= 1 && |late| >= keep
    ensures LastOf(early + ([name] + late), keep) == LastOf(late, keep) == LastOf(early + late, keep)
  {}

  lemma LastOfTail<T>(a: seq<T>, b: seq<T>, n: nat)
    requires |b| <= n
    ensures LastOf(a + b, n) == LastOf(a, n - |b|) + b
  {}

  lemma OneMore<T>(r: seq<T>, n: nat) returns (first: seq<T>)
    ensures LastOf(r, n + 1) == first + LastOf(r, n)
  {
    first := if |r| > n then [r[|r| - n - 1]] else [];
  }

  lemma FewLater<T>(early: seq<T>, name: T, late: seq<T>, keep: nat) returns (first: seq<T>)
    requires |late| < keep
    ensures var some := LastOf(early, keep - 1 - |late|);
            LastOf(early + ([name] + late), keep) == some + ([name] + late)
            && LastOf(early + late, keep) == first + (some + late) && LastOf(late, keep) == late
  {
    assert LastOf(late, keep) == late;
    assert |[name] + late| == |late| + 1;
    hide *;
    first := OneMore(early, keep - 1 - |late|);
    LastOfTail(early, late, keep);
    LastOfTail(early, [name] + late, keep);
    Associative(first, LastOf(early, keep - 1 - |late|), late);
  }

  /** The last lines put in front of some others: still the end of everything only when one of the two is empty. */
  lemma MovedForward(ever: Lines, x: Lines, u: Lines, v: Lines, l: Lines)
    requires ever == x + u + v + l && AllDistinct(ever)
    ensures EndOf(u + l + v, ever) <==> l == [] || v == []
    ensures EndOf(u + v, ever) <==> l == [] || u + v == []
  {
    if l == [] {
      assert u + l + v == u + v && ever == x + (u + v);
    } else {
      var n := |ever| - 1;
      assert ever[n] == l[|l| - 1];
      if v == [] {
        assert u + l + v == u + l && ever == x + (u + l);
      } else {
        var i := |x + u + v| - 1;
        assert ever[i] == v[|v| - 1] && i < n;
        assert (u + l + v)[|u + l + v| - 1] == ever[i];
      }
      if u + v != [] {
        var i := |x + u + v| - 1;
        assert ever[i] == (u + v)[|u + v| - 1] && i < n;
      }
    }
  }

  /** After one rotation under a name not taken, with any clock, the retained files are still the end of
      everything written exactly when nothing was rotated or no line is in the newest copies of later seconds. */
  lemma SteppedBackCostsExactly(d: Disk, l: Ledger, keep: nat, luck: Luck)
    requires Accounted(d, l, keep) && keep >= 1 && AllDistinct(l.ever) && Rotated(d, keep, luck).Some?
    requires RotationName(d, luck) !in d.backups
    ensures EndOf(Retained(Rotated(d, keep, luck).value, keep), l.ever)
            <==> Live(d) == [] || LaterLines(d, keep, luck) == []
  {
    var name, s := RotationName(d, luck), d.backups.Keys;
    var all := d.backups[name := Live(d)];
    var early, late := Early(Sorted(s), luck), FromLater(Sorted(s), luck);
    LaterName(d, luck);
    BooksOpen(d, l, keep, luck);
    RetainedIsSuffix(d, l, keep);
    assert all.Keys == s + {name};
    RetainedUnfold(d, keep, luck);
    NewestUnfold(s + {name}, keep);
    hide *;
    PrunedRetained(all, keep, luck);
    Inserted(s, name, luck);
    PartsDecide(d.backups, name, Live(d), early, late, keep, l.ever, AllLines(BeforeLast(l.made, keep)));
  }

  lemma RetainedUnfold(d: Disk, keep: nat, luck: Luck)
    ensures LaterLines(d, keep, luck) == Contents(d.backups, LastOf(FromLater(Sorted(d.backups.Keys), luck), keep))
    ensures Retained(d, keep) == Contents(d.backups, LastOf(Sorted(d.backups.Keys), keep)) + Live(d)
  {}

  lemma NewestUnfold(s: set<Key>, keep: nat)
    ensures Newest(s, keep) == LastOf(Sorted(s), keep)
  {}

  lemma LaterName(d: Disk, luck: Luck)
    requires RotationName(d, luck) !in d.backups
    ensures forall k | k in d.backups :: Later(luck, k) <==> Before(RotationName(d, luck), k)
  {
    NameIs(d, luck);
    hide RotationName;
  }

  lemma PartsDecide(backups: map<Key, Lines>, name: Key, live: Lines, early: seq<Key>, late: seq<Key>, keep: nat,
                    ever: Lines, before: Lines)
    requires keep >= 1 && name !in early + late && AllDistinct(ever)
    requires ever == before + (Contents(backups, LastOf(early + late, keep)) + live)
    ensures EndOf(Contents(backups[name := live], LastOf(early + ([name] + late), keep)), ever)
            <==> live == [] || Contents(backups, LastOf(late, keep)) == []
  {
    hide *;
    if |late| >= keep {
      var v := Contents(backups, LastOf(late, keep));
      ManyLater(early, name, late, keep);
      PartOf(early, late, keep);
      OldContents(backups, LastOf(late, keep), name, live);
      Associative(before, v, live);
      assert before + [] == before && [] + v == v;
      MovedForward(ever, before, [], v, live);
    } else {
      var first := FewLater(early, name, late, keep);
      var some := LastOf(early, keep - 1 - |late|);
      PartOf(early, late, keep - 1 - |late|);
      OldContents(backups, some, name, live);
      OldContents(backups, late, name, live);
      NewContents(backups[name := live], some, name, late);
      ContentsConcat(backups, first, some + late);
      ContentsConcat(backups, some, late);
      var x, u, v := Contents(backups, first), Contents(backups, some), Contents(backups, late);
      Regrouped(before, x, u, v, live);
      MovedForward(ever, before + x, u, v, live);
    }
  }

  lemma PartOf<T>(early: seq<T>, late: seq<T>, n: nat)
    ensures forall k | k in LastOf(late, n) || k in late || k in LastOf(early, n) :: k in early + late
  {}

  lemma Regrouped<T>(a: seq<T>, x: seq<T>, u: seq<T>, v: seq<T>, l: seq<T>)
    ensures a + (x + (u + v) + l) == a + x + u + v + l
  {}

  lemma NewContents(all: map<Key, Lines>, some: seq<Key>, name: Key, late: seq<Key>)
    requires name in all
    ensures Contents(all, some + ([name] + late)) == Contents(all, some) + all[name] + Contents(all, late)
  {
    ContentsConcat(all, some, [name] + late);
    assert ([name] + late)[1..] == late;
    assert Contents(all, [name] + late) == all[name] + Contents(all, late);
    Associative(Contents(all, some), all[name], Contents(all, late));
  }
}
