/** Size-bounded log files shared by processes: rotation by one rename, pruning of the
    oldest copies, and the handler that retries a rename another process blocked. Main
    result: whatever renames and deletions fail, the newest copies followed by the live
    file are a contiguous suffix of everything ever written. */
module LogFiles {
  import opened Text
  import opened BackupOrder

  type Lines = seq<string>

  /** One log's files: the rotated copies and the live file, if it exists. */
  datatype Disk = Disk(backups: map<Key, Lines>, live: Option<Lines>)

  function Live(d: Disk): Lines {
    if d.live.Some? then d.live.value else []
  }

  /** Opening for append creates a missing file. */
  function Appended(d: Disk, lines: Lines): Disk {
    d.(live := Some(Live(d) + lines))
  }

  /** What the file system does during one rotation: the second it happens in, whether each
      directory listing and the rename succeed, and which copies cannot be deleted. */
  datatype Luck = Luck(stamp: nat, listed: bool, renamed: bool, relisted: bool, stuck: set<Key>)

  // ---------------------------------------------------------------- naming

  /** The highest counter among the copies of one second. */
  function Highest(keys: seq<Key>, stamp: nat): Option<nat> {
    if keys == [] then None
    else
      var rest := Highest(keys[1..], stamp);
      if keys[0].stamp != stamp then rest
      else if rest.Some? && rest.value >= keys[0].n then rest
      else Some(keys[0].n)
  }

  function NewName(keys: seq<Key>, stamp: nat): Key {
    match Highest(keys, stamp)
    case None => Key(stamp, 0)
    case Some(n) => Key(stamp, n + 1)
  }

  /** A new name is past every listed copy of its second, by one. */
  lemma {:induction false} NewNameIsPast(keys: seq<Key>, stamp: nat)
    ensures NewName(keys, stamp).stamp == stamp
    ensures forall k | k in keys && k.stamp == stamp :: k.n < NewName(keys, stamp).n
    ensures var n := NewName(keys, stamp).n; n == 0 || Key(stamp, n - 1) in keys
  {
    if keys != [] {
      NewNameIsPast(keys[1..], stamp);
      assert forall k | k in keys :: k == keys[0] || k in keys[1..];
    }
  }

  // ---------------------------------------------------------------- pruning and rotation

  function Keep(keep: int): nat { if keep >= 1 then keep else 1 }

  /** Deletes all but the newest `keep` copies, except those that cannot be deleted. */
  function Pruned(backups: map<Key, Lines>, keep: nat, luck: Luck): map<Key, Lines> {
    if !luck.relisted then backups
    else backups - ((set k | k in Oldest(backups.Keys, keep)) - luck.stuck)
  }

  /** Renames the live file to a new copy, then prunes. `None` is OSError, with nothing changed. */
  function Rotated(d: Disk, keep: nat, luck: Luck): Option<Disk> {
    if d.live.None? || !luck.renamed then None
    else Some(Disk(Pruned(d.backups[RotationName(d, luck) := d.live.value], keep, luck), None))
  }

  function RotationName(d: Disk, luck: Luck): Key {
    NewName(if luck.listed then Sorted(d.backups.Keys) else [], luck.stamp)
  }

  lemma NameIs(d: Disk, luck: Luck)
    ensures var name := RotationName(d, luck);
            name.stamp == luck.stamp && (!luck.listed ==> name.n == 0)
            && (luck.listed ==> forall k | k in d.backups && k.stamp == luck.stamp :: k.n < name.n)
  {
    SortedIs(d.backups.Keys);
    NewNameIsPast(Sorted(d.backups.Keys), luck.stamp);
    assert forall k | k in d.backups :: k in Sorted(d.backups.Keys);
  }

  /** A rotation reuses the name of an existing copy, and overwrites it, exactly when the directory
      cannot be listed and the plain name of its second is taken. */
  lemma NameIsFresh(d: Disk, luck: Luck)
    ensures RotationName(d, luck) !in d.backups <==> luck.listed || Key(luck.stamp, 0) !in d.backups
  {
    NameIs(d, luck);
    hide RotationName;
  }

  /** A new name sorts after every existing one exactly when no copy is of a later second than the clock's
      or, if the directory cannot be listed, of the same. */
  lemma NameSortsAfterExactly(d: Disk, luck: Luck)
    ensures (forall k | k in d.backups :: Before(k, RotationName(d, luck)))
            <==> forall k | k in d.backups :: k.stamp < luck.stamp || (luck.listed && k.stamp == luck.stamp)
  {
    NameIs(d, luck);
    hide RotationName;
  }

  /** When every deletion works, exactly the newest `keep` copies remain, or all if fewer. */
  lemma PruneExact(backups: map<Key, Lines>, keep: nat, luck: Luck)
    requires luck.relisted && luck.stuck == {}
    ensures Sorted(Pruned(backups, keep, luck).Keys) == Newest(backups.Keys, keep)
    ensures forall k | k in Pruned(backups, keep, luck) :: Pruned(backups, keep, luck)[k] == backups[k]
  {
    var s := backups.Keys;
    SortedIs(s);
    var r := Sorted(s);
    assert Pruned(backups, keep, luck).Keys == s - (set k | k in Oldest(s, keep));
    hide Sorted;
    SplitLists(r, s, keep);
    SortedUnique(LastOf(r, keep), s - (set k | k in BeforeLast(r, keep)));
  }

  /** In an increasing list the keys compare as their places do. */
  lemma ByPlace(r: seq<Key>, i: nat, j: nat)
    requires Increasing(r) && i < |r| && j < |r|
    ensures Before(r[i], r[j]) <==> i < j
    ensures r[i] == r[j] <==> i == j
  {}

  lemma SplitLists(r: seq<Key>, s: set<Key>, keep: nat)
    requires Lists(r, s)
    ensures Lists(LastOf(r, keep), s - (set k | k in BeforeLast(r, keep)))
  {
    var t := LastOf(r, keep);
    assert forall i | 0 <= i < |t| :: t[i] == r[|r| - |t| + i];
    assert forall k :: k in r <==> k in s;
    assert Increasing(t);
    forall k ensures k in t <==> k in s && k !in BeforeLast(r, keep) {
      EitherPart(r, keep, k);
    }
  }

  lemma EitherPart(r: seq<Key>, keep: nat, k: Key)
    requires Increasing(r)
    ensures k in LastOf(r, keep) <==> k in r && k !in BeforeLast(r, keep)
  {
    var front, t := BeforeLast(r, keep), LastOf(r, keep);
    assert r == front + t;
    forall j, i | 0 <= j < |front| && 0 <= i < |t| ensures front[j] != t[i] {
      ByPlace(r, j, |front| + i);
    }
  }

  /** Copies that sort after the one made now. */
  predicate Later(luck: Luck, k: Key) {
    k.stamp > luck.stamp || (!luck.listed && k.stamp == luck.stamp && k.n > 0)
  }

  /** The copy just made survives its own pruning exactly when pruning cannot list or delete it, or fewer
      than `keep` existing copies are of later seconds, as they are once the clock has stepped back. */
  lemma RotationKeepsItsOwn(d: Disk, keep: nat, luck: Luck)
    requires d.live.Some? && luck.renamed && keep >= 1
    ensures var name := RotationName(d, luck);
            name in Rotated(d, keep, luck).value.backups
            <==> !luck.relisted || name in luck.stuck || |set k | k in d.backups && Later(luck, k)| < keep
  {
    var name := RotationName(d, luck);
    var s := d.backups.Keys + {name};
    LaterIsAfter(d, luck);
    assert d.backups[name := d.live.value].Keys == s;
    assert Rotated(d, keep, luck).value.backups == Pruned(d.backups[name := d.live.value], keep, luck);
    PrunedMember(d.backups[name := d.live.value], keep, luck, name);
    hide *;
    SortedIs(s);
    OldestUnfold(s, keep);
    RankDecides(Sorted(s), s, name, keep);
  }

  lemma LaterIsAfter(d: Disk, luck: Luck)
    ensures var name := RotationName(d, luck);
            (set k | k in d.backups && Later(luck, k)) == set k | k in d.backups.Keys + {name} && Before(name, k)
  {
    NameIs(d, luck);
    hide RotationName;
  }

  /** After the clock has stepped back, the one new copy sorts before the one made earlier, and a log that
      keeps a single copy deletes the new one. */
  lemma SteppedBack(stamp: nat, older: Lines, newer: Lines, luck: Luck)
    requires luck.stamp < stamp && luck.renamed && luck.relisted && luck.stuck == {}
    ensures var d := Disk(map[Key(stamp, 0) := older], Some(newer));
            Before(RotationName(d, luck), Key(stamp, 0)) && RotationName(d, luck) !in Rotated(d, 1, luck).value.backups
  {
    var d := Disk(map[Key(stamp, 0) := older], Some(newer));
    hide *;
    OneLater(d, Key(stamp, 0), luck);
    RotationKeepsItsOwn(d, 1, luck);
  }

  lemma OneLater(d: Disk, k: Key, luck: Luck)
    requires d.backups.Keys == {k} && luck.stamp < k.stamp
    ensures Before(RotationName(d, luck), k) && |set x | x in d.backups && Later(luck, x)| == 1
  {
    NameIs(d, luck);
    hide RotationName;
    assert (set x | x in d.backups && Later(luck, x)) == {k};
  }

  lemma PrunedMember(backups: map<Key, Lines>, keep: nat, luck: Luck, k: Key)
    requires k in backups
    ensures k in Pruned(backups, keep, luck) <==> !luck.relisted || k in luck.stuck || k !in Oldest(backups.Keys, keep)
  {}

  lemma OldestUnfold(s: set<Key>, keep: nat)
    ensures Oldest(s, keep) == BeforeLast(Sorted(s), keep)
  {}

  lemma RankDecides(r: seq<Key>, s: set<Key>, name: Key, keep: nat)
    requires Lists(r, s) && name in s
    ensures name in BeforeLast(r, keep) <==> |set k | k in s && Before(name, k)| >= keep && (keep > 0 || r != [])
  {
    assert name in r;
    var i :| 0 <= i < |r| && r[i] == name;
    var after := r[i + 1..];
    var later := set k | k in s && Before(name, k);
    assert later == set k | k in after by {
      forall k ensures k in later <==> k in after {
        if k in after {
          var j :| 0 <= j < |after| && after[j] == k;
          assert r[i + 1 + j] == k;
        }
        if k in later {
          var j :| 0 <= j < |r| && r[j] == k;
          ByPlace(r, i, j);
          assert after[j - i - 1] == k;
        }
      }
    }
    DistinctCount(after);
    if i < |r| - keep { assert BeforeLast(r, keep)[i] == name; }
    if name in BeforeLast(r, keep) {
      var j :| 0 <= j < |r| - keep && r[j] == name;
      ByPlace(r, i, j);
    }
  }

  lemma {:induction false} DistinctCount(r: seq<Key>)
    requires Increasing(r)
    ensures |set k | k in r| == |r|
  {
    if r != [] {
      DistinctCount(r[1..]);
      assert (set k | k in r) == {r[0]} + set k | k in r[1..];
      assert r[0] !in r[1..] by {
        forall i | 0 <= i < |r[1..]| ensures r[1..][i] != r[0] { assert Before(r[0], r[i + 1]); }
      }
    }
  }

  // ---------------------------------------------------------------- conservation

  datatype Backup = Backup(key: Key, lines: Lines)

  /** Every copy ever made, in order, and every line ever written. */
  datatype Ledger = Ledger(made: seq<Backup>, ever: Lines)

  function Names(made: seq<Backup>): seq<Key> {
    if made == [] then [] else [made[0].key] + Names(made[1..])
  }

  function AllLines(made: seq<Backup>): Lines {
    if made == [] then [] else made[0].lines + AllLines(made[1..])
  }

  /** The files hold whole copies out of the ledger, the newest of them all, and then the live lines. */
  ghost predicate Accounted(d: Disk, l: Ledger, keep: nat) {
    && Increasing(Names(l.made))
    && (forall k | k in d.backups :: Backup(k, d.backups[k]) in l.made)
    && Newest(d.backups.Keys, keep) == LastOf(Names(l.made), keep)
    && l.ever == AllLines(l.made) + Live(d)
  }

  function Contents(backups: map<Key, Lines>, keys: seq<Key>): Lines {
    if keys == [] then []
    else (if keys[0] in backups then backups[keys[0]] else []) + Contents(backups, keys[1..])
  }

  /** What a reader finds: the newest copies, oldest of them first, then the live file. */
  function Retained(d: Disk, keep: nat): Lines {
    Contents(d.backups, Newest(d.backups.Keys, keep)) + Live(d)
  }

  predicate EndOf(part: Lines, whole: Lines) {
    |part| <= |whole| && whole[|whole| - |part|..] == part
  }

  lemma {:induction false} ContentsConcat(backups: map<Key, Lines>, a: seq<Key>, b: seq<Key>)
    ensures Contents(backups, a + b) == Contents(backups, a) + Contents(backups, b)
  {
    if a == [] {
      assert a + b == b;
    } else {
      assert (a + b)[1..] == a[1..] + b;
      ContentsConcat(backups, a[1..], b);
      Associative(if a[0] in backups then backups[a[0]] else [], Contents(backups, a[1..]), Contents(backups, b));
    }
  }

  lemma AppendedAccounted(d: Disk, l: Ledger, keep: nat, lines: Lines)
    requires Accounted(d, l, keep)
    ensures Accounted(Appended(d, lines), Ledger(l.made, l.ever + lines), keep)
  {
    Associative(AllLines(l.made), Live(d), lines);
    hide AllLines, Names, Newest, LastOf;
  }

  lemma {:induction false} NamesAt(made: seq<Backup>, i: nat)
    requires i < |made|
    ensures |Names(made)| == |made| && Names(made)[i] == made[i].key
  {
    NamesLength(made);
    if i > 0 { NamesAt(made[1..], i - 1); }
  }

  lemma {:induction false} NamesLength(made: seq<Backup>)
    ensures |Names(made)| == |made|
  {
    if made != [] { NamesLength(made[1..]); }
  }

  lemma {:induction false} NamesConcat(a: seq<Backup>, b: seq<Backup>)
    ensures Names(a + b) == Names(a) + Names(b) && AllLines(a + b) == AllLines(a) + AllLines(b)
  {
    if a == [] {
      assert a + b == b;
    } else {
      assert (a + b)[1..] == a[1..] + b;
      NamesConcat(a[1..], b);
      Associative([a[0].key], Names(a[1..]), Names(b));
      Associative(a[0].lines, AllLines(a[1..]), AllLines(b));
    }
  }

  lemma {:induction false} ContentsOfMade(backups: map<Key, Lines>, made: seq<Backup>)
    requires forall b | b in made :: b.key in backups && backups[b.key] == b.lines
    ensures Contents(backups, Names(made)) == AllLines(made)
  {
    if made != [] {
      ContentsOfMade(backups, made[1..]);
      assert Names(made)[1..] == Names(made[1..]);
    }
  }

  lemma MadeUnique(made: seq<Backup>, a: Backup, b: Backup)
    requires Increasing(Names(made)) && a in made && b in made && a.key == b.key
    ensures a == b
  {
    var i :| 0 <= i < |made| && made[i] == a;
    var j :| 0 <= j < |made| && made[j] == b;
    NamesAt(made, i);
    NamesAt(made, j);
  }

  lemma NewestPart(made: seq<Backup>, keep: nat)
    ensures LastOf(Names(made), keep) == Names(LastOf(made, keep))
    ensures AllLines(made) == AllLines(BeforeLast(made, keep)) + AllLines(LastOf(made, keep))
  {
    var a, b := BeforeLast(made, keep), LastOf(made, keep);
    assert made == a + b;
    NamesConcat(a, b);
    NamesLength(a);
    NamesLength(b);
    NamesLength(made);
  }

  /** Conservation: the newest copies and the live file are a contiguous suffix of everything ever
      written; what precedes it was in whole copies. */
  lemma RetainedIsSuffix(d: Disk, l: Ledger, keep: nat)
    requires Accounted(d, l, keep)
    ensures l.ever == AllLines(BeforeLast(l.made, keep)) + Retained(d, keep)
  {
    var newest := LastOf(l.made, keep);
    NewestPart(l.made, keep);
    SortedIs(d.backups.Keys);
    forall b | b in newest ensures b.key in d.backups && d.backups[b.key] == b.lines {
      var i :| 0 <= i < |newest| && newest[i] == b;
      NamesAt(newest, i);
      assert b.key in Newest(d.backups.Keys, keep);
      assert b.key in Sorted(d.backups.Keys);
      MadeUnique(l.made, b, Backup(b.key, d.backups[b.key]));
    }
    ContentsOfMade(d.backups, newest);
    Associative(AllLines(BeforeLast(l.made, keep)), AllLines(newest), Live(d));
  }

  /** The rotation's second is not behind any copy ever made, and is a new one unless the listing worked. */
  predicate Timely(l: Ledger, luck: Luck) {
    forall b | b in l.made :: b.key.stamp < luck.stamp || (luck.listed && b.key.stamp == luck.stamp)
  }

  /** Names are increasing: a timely rotation's name sorts after every copy ever made, deleted ones included. */
  lemma NameSortsLast(d: Disk, l: Ledger, keep: nat, luck: Luck)
    requires Accounted(d, l, keep) && keep >= 1 && Timely(l, luck)
    ensures forall k | k in Names(l.made) :: Before(k, RotationName(d, luck))
  {
    var listing := if luck.listed then Sorted(d.backups.Keys) else [];
    var name := NewName(listing, luck.stamp);
    NewNameIsPast(listing, luck.stamp);
    hide NewName, Sorted;
    forall b | b in l.made ensures Before(b.key, name) {
      if b.key.stamp == luck.stamp {
        LatestIsListed(d, l, keep, b);
      }
    }
    NamesAreKeys(l.made);
  }

  lemma {:induction false} NamesAreKeys(made: seq<Backup>)
    ensures forall k | k in Names(made) :: exists b :: b in made && b.key == k
  {
    if made != [] {
      NamesAreKeys(made[1..]);
      forall k | k in Names(made) ensures exists b :: b in made && b.key == k {
        if k == made[0].key {
          assert made[0] in made;
        } else {
          assert k in Names(made[1..]);
          var b :| b in made[1..] && b.key == k;
          assert b in made;
        }
      }
    }
  }

  /** The latest copy made is always there, and it is at or past any other. */
  lemma LatestIsListed(d: Disk, l: Ledger, keep: nat, b: Backup)
    requires Accounted(d, l, keep) && keep >= 1 && b in l.made
    ensures var last := l.made[|l.made| - 1].key;
            last in Sorted(d.backups.Keys) && (b.key == last || Before(b.key, last))
  {
    var n := |l.made| - 1;
    var i :| 0 <= i <= n && l.made[i] == b;
    NamesAt(l.made, i);
    NamesAt(l.made, n);
    var t := LastOf(Names(l.made), keep);
    assert t[|t| - 1] == l.made[n].key;
    assert l.made[n].key in Newest(d.backups.Keys, keep);
  }

  lemma LastOfSnoc<T>(r: seq<T>, z: T, keep: nat)
    requires keep >= 1
    ensures LastOf(r + [z], keep) == LastOf(LastOf(r, keep) + [z], keep)
  {}

  /** A timely rotation that succeeds keeps the books; so does one that fails, changing nothing. */
  lemma RotationAccounted(d: Disk, l: Ledger, keep: nat, luck: Luck)
    requires Accounted(d, l, keep) && keep >= 1 && Timely(l, luck) && Rotated(d, keep, luck).Some?
    ensures Accounted(Rotated(d, keep, luck).value,
                      Ledger(l.made + [Backup(RotationName(d, luck), Live(d))], l.ever), keep)
  {
    var name := RotationName(d, luck);
    var entry := Backup(name, Live(d));
    var all := d.backups[name := Live(d)];
    hide *;
    BooksOpen(d, l, keep, luck);
    NewCopyListed(d.backups, l.made, entry);
    NameSortsLast(d, l, keep, luck);
    MadeSnoc(l, entry);
    NewestSnoc(d, l, keep, name);
    PruneKeepsNewest(all, keep, luck);
    assert all.Keys == d.backups.Keys + {name};
    BooksClose(Pruned(all, keep, luck), l.made + [entry], l.ever, keep);
  }

  lemma BooksOpen(d: Disk, l: Ledger, keep: nat, luck: Luck)
    requires Accounted(d, l, keep) && Rotated(d, keep, luck).Some?
    ensures Rotated(d, keep, luck).value ==
            Disk(Pruned(d.backups[RotationName(d, luck) := Live(d)], keep, luck), None)
    ensures l.ever == AllLines(l.made) + Live(d) && Increasing(Names(l.made))
    ensures forall k | k in d.backups :: Backup(k, d.backups[k]) in l.made
  {
    hide Pruned, Newest, LastOf, Names, AllLines, Increasing, RotationName;
  }

  lemma NewCopyListed(backups: map<Key, Lines>, made: seq<Backup>, entry: Backup)
    requires forall k | k in backups :: Backup(k, backups[k]) in made
    ensures var all := backups[entry.key := entry.lines];
            forall k | k in all :: Backup(k, all[k]) in made + [entry]
  {
    var all := backups[entry.key := entry.lines];
    forall k | k in all ensures Backup(k, all[k]) in made + [entry] {
      if k == entry.key { assert (made + [entry])[|made|] == entry; }
    }
  }

  lemma BooksClose(backups: map<Key, Lines>, made: seq<Backup>, ever: Lines, keep: nat)
    requires Increasing(Names(made)) && ever == AllLines(made)
    requires forall k | k in backups :: Backup(k, backups[k]) in made
    requires Newest(backups.Keys, keep) == LastOf(Names(made), keep)
    ensures Accounted(Disk(backups, None), Ledger(made, ever), keep)
  {
    assert AllLines(made) + [] == AllLines(made);
  }

  lemma MadeSnoc(l: Ledger, entry: Backup)
    requires Increasing(Names(l.made)) && forall k | k in Names(l.made) :: Before(k, entry.key)
    ensures Names(l.made + [entry]) == Names(l.made) + [entry.key] && Increasing(Names(l.made + [entry]))
    ensures AllLines(l.made + [entry]) == AllLines(l.made) + entry.lines
  {
    NamesConcat(l.made, [entry]);
    Singleton(entry);
    assert Names([entry]) == [entry.key] && AllLines([entry]) == entry.lines;
  }

  lemma NewestSnoc(d: Disk, l: Ledger, keep: nat, name: Key)
    requires Accounted(d, l, keep) && keep >= 1 && forall k | k in Names(l.made) :: Before(k, name)
    ensures Newest(d.backups.Keys + {name}, keep) == LastOf(Names(l.made) + [name], keep)
  {
    BackupsAreMade(d, l, keep);
    hide Sorted, LastOf, Names;
    calc {
      Newest(d.backups.Keys + {name}, keep);
      { SortedAddLast(d.backups.Keys, name); }
      LastOf(Sorted(d.backups.Keys) + [name], keep);
      { LastOfSnoc(Sorted(d.backups.Keys), name, keep); }
      LastOf(Newest(d.backups.Keys, keep) + [name], keep);
      { LastOfSnoc(Names(l.made), name, keep); }
      LastOf(Names(l.made) + [name], keep);
    }
  }

  lemma BackupsAreMade(d: Disk, l: Ledger, keep: nat)
    requires Accounted(d, l, keep)
    ensures forall k | k in d.backups :: k in Names(l.made)
  {
    forall k | k in d.backups ensures k in Names(l.made) {
      var i :| 0 <= i < |l.made| && l.made[i] == Backup(k, d.backups[k]);
      NamesAt(l.made, i);
    }
  }

  lemma PruneKeepsNewest(backups: map<Key, Lines>, keep: nat, luck: Luck)
    ensures Newest(Pruned(backups, keep, luck).Keys, keep) == Newest(backups.Keys, keep)
    ensures forall k | k in Pruned(backups, keep, luck) :: k in backups && Pruned(backups, keep, luck)[k] == backups[k]
  {
    if luck.relisted {
      var gone := (set k | k in Oldest(backups.Keys, keep)) - luck.stuck;
      assert Pruned(backups, keep, luck).Keys == backups.Keys - gone;
      NewestSurvive(backups.Keys, keep, gone);
    }
  }

  /** Opening a ledger on any directory: the copies found count as made, oldest first. */
  function Opening(d: Disk): Ledger {
    var made := Entries(d.backups, Sorted(d.backups.Keys));
    Ledger(made, AllLines(made) + Live(d))
  }

  function Entries(backups: map<Key, Lines>, keys: seq<Key>): seq<Backup> {
    if keys == [] then []
    else [Backup(keys[0], if keys[0] in backups then backups[keys[0]] else [])] + Entries(backups, keys[1..])
  }

  lemma {:induction false} EntriesNames(backups: map<Key, Lines>, keys: seq<Key>)
    ensures Names(Entries(backups, keys)) == keys
    ensures forall k | k in keys && k in backups :: Backup(k, backups[k]) in Entries(backups, keys)
  {
    if keys != [] {
      EntriesNames(backups, keys[1..]);
      var e := Entries(backups, keys);
      assert e[1..] == Entries(backups, keys[1..]);
      forall k | k in keys && k in backups ensures Backup(k, backups[k]) in e {
        if k == keys[0] { assert e[0] == Backup(k, backups[k]); } else { assert k in keys[1..]; }
      }
    }
  }

  lemma OpeningAccounted(d: Disk, keep: nat)
    ensures Accounted(d, Opening(d), keep)
  {
    SortedIs(d.backups.Keys);
    EntriesNames(d.backups, Sorted(d.backups.Keys));
  }
}
