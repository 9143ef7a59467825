/** Booting on a database that may be locked or corrupt: a lock is waited for, real
    corruption moves the files aside, and everything else is raised with the files in place. */
module Recovery {
  import opened Text

  const LOCK_MARKERS: seq<string> := ["database is locked", "database is busy", "locked"]
  const CORRUPTION_MARKERS: seq<string> :=
    ["file is not a database", "malformed", "database disk image", "unsupported file format",
     "file is encrypted", "not a database"]
  const LOCK_RETRY_ATTEMPTS: nat := 6

  /** An exception by its sqlite3 class and its lower-cased message. */
  datatype Class = Other | DatabaseError | OperationalError
  datatype Exc = Exc(class_: Class, text: string)

  predicate Mentions(text: string, markers: seq<string>) {
    exists m | m in markers :: Contains(text, m)
  }

  predicate IsLocked(e: Exc) {
    e.class_.OperationalError? && Mentions(e.text, LOCK_MARKERS)
  }

  predicate IsCorruption(e: Exc) {
    !e.class_.Other? && Mentions(e.text, CORRUPTION_MARKERS)
  }

  // ---------------------------------------------------------------- the files

  datatype Suffix = Main | Wal | Shm
  datatype Name = Own(suffix: Suffix) | Aside(suffix: Suffix, stamp: string)

  /** The directory: each name's file, identified by what it held at the start. */
  type Files = map<Name, nat>

  const SUFFIXES: seq<Suffix> := [Main, Wal, Shm]

  /** One call of `migrate`: it may create files that are missing, and ends well or with an exception. */
  datatype Attempt = Attempt(creates: Files, error: Option<Exc>)

  predicate CreatesOwn(a: Attempt) {
    forall n | n in a.creates :: n.Own?
  }

  function Tried(files: Files, a: Attempt): Files {
    a.creates + files
  }

  /** `replace` over each existing file in turn; a rename that fails ends it. */
  function MovedAside(files: Files, stamp: string, renames: Suffix -> bool, list: seq<Suffix>): (Files, bool)
    decreases |list|
  {
    if list == [] then (files, true)
    else if Own(list[0]) !in files then MovedAside(files, stamp, renames, list[1..])
    else if !renames(list[0]) then (files, false)
    else MovedAside(Shift(files, list[0], stamp), stamp, renames, list[1..])
  }

  function Shift(files: Files, s: Suffix, stamp: string): Files
    requires Own(s) in files
  {
    files[Aside(s, stamp) := files[Own(s)]] - {Own(s)}
  }

  // ---------------------------------------------------------------- the decision

  predicate Retried(a: Attempt, attempts: nat) {
    a.error.Some? && IsLocked(a.error.value) && attempts < LOCK_RETRY_ATTEMPTS
  }

  /** The call whose outcome decides: the first that is not a lock to wait for. */
  function Deciding(runs: nat -> Attempt, from: nat): nat
    requires from <= LOCK_RETRY_ATTEMPTS
    decreases LOCK_RETRY_ATTEMPTS - from
  {
    if Retried(runs(from), from) then Deciding(runs, from + 1) else from
  }

  datatype Result = Healthy | Recovered | RaisedError

  /** Every attempt up to the deciding one adds its own new files. */
  function TriedUpTo(files: Files, runs: nat -> Attempt, n: nat): Files {
    var before := if n == 0 then files else TriedUpTo(files, runs, n - 1);
    Tried(before, runs(n))
  }

  /** Retries stop after at most 6: the deciding call is at most the seventh, every earlier one was
      locked, and a later lock is not waited for. */
  lemma {:induction false} DecidingIs(runs: nat -> Attempt, from: nat)
    requires from <= LOCK_RETRY_ATTEMPTS
    ensures var n := Deciding(runs, from);
            from <= n <= LOCK_RETRY_ATTEMPTS && !Retried(runs(n), n)
            && forall i | from <= i < n :: runs(i).error.Some? && IsLocked(runs(i).error.value)
    decreases LOCK_RETRY_ATTEMPTS - from
  {
    if Retried(runs(from), from) { DecidingIs(runs, from + 1); }
  }

  /** How a boot ends: the files, the result, and how often `migrate` was called. */
  datatype Boot = Boot(files: Files, result: Result, calls: nat)

  function Booted(files: Files, runs: nat -> Attempt, stamp: string, renames: Suffix -> bool): Boot {
    var n := Deciding(runs, 0);
    var error := runs(n).error;
    var tried := TriedUpTo(files, runs, n);
    if error.None? then Boot(tried, Healthy, n + 1)
    else if !IsCorruption(error.value) then Boot(tried, RaisedError, n + 1)
    else
      var (moved, ok) := MovedAside(tried, stamp, renames, SUFFIXES);
      if !ok then Boot(moved, RaisedError, n + 1)
      else Boot(Tried(moved, runs(n + 1)), if runs(n + 1).error.None? then Recovered else RaisedError, n + 2)
  }

  /** The boot calls `migrate` at most 8 times, and unless the deciding error was classified as
      corruption every file stays exactly where it was. */
  lemma OnlyCorruptionMoves(files: Files, runs: nat -> Attempt, stamp: string, renames: Suffix -> bool)
    requires forall i :: CreatesOwn(runs(i))
    ensures var b := Booted(files, runs, stamp, renames);
            var error := runs(Deciding(runs, 0)).error;
            b.calls <= LOCK_RETRY_ATTEMPTS + 2
            && (b.result == Recovered ==> error.Some? && IsCorruption(error.value))
            && (!(error.Some? && IsCorruption(error.value)) ==>
                  forall f | f in files :: f in b.files && b.files[f] == files[f])
  {
    DecidingIs(runs, 0);
    TriedKeeps(files, runs, Deciding(runs, 0));
    hide IsCorruption, MovedAside, TriedUpTo, Deciding;
  }

  lemma DecidingUnfold(runs: nat -> Attempt, from: nat)
    requires from <= LOCK_RETRY_ATTEMPTS
    ensures Deciding(runs, from) ==
            if from < LOCK_RETRY_ATTEMPTS && Retried(runs(from), from) then Deciding(runs, from + 1) else from
  {}

  lemma TriedUnfold(files: Files, runs: nat -> Attempt, n: nat)
    ensures TriedUpTo(files, runs, n) == Tried(if n == 0 then files else TriedUpTo(files, runs, n - 1), runs(n))
  {}

  // ---------------------------------------------------------------- the object

  class Store {
    var files: Files

    constructor (found: Files)
      ensures files == found
    {
      files := found;
    }

    /** Calls `migrate` until the outcome is not a lock to wait for. */
    method RetryLocked(runs: nat -> Attempt) returns (attempts: nat)
      modifies this
      ensures attempts == Deciding(runs, 0) && files == TriedUpTo(old(files), runs, attempts)
    {
      attempts := 0;
      hide *;
      while true
        invariant attempts <= LOCK_RETRY_ATTEMPTS && Deciding(runs, attempts) == Deciding(runs, 0)
        invariant Tried(files, runs(attempts)) == TriedUpTo(old(files), runs, attempts)
        decreases LOCK_RETRY_ATTEMPTS - attempts
      {
        DecidingUnfold(runs, attempts);
        TriedUnfold(old(files), runs, attempts + 1);
        var run := runs(attempts);
        files := Tried(files, run);
        if run.error.Some? && IsLocked(run.error.value) && attempts < LOCK_RETRY_ATTEMPTS {
          attempts := attempts + 1;
          continue;
        }
        return;
      }
    }

    /** The whole recovery: waits for locks, raises what is neither a lock nor corruption, and moves a
        corrupt database aside before starting afresh. */
    method MigrateWithRecovery(runs: nat -> Attempt, stamp: string, renames: Suffix -> bool)
      returns (result: Result, calls: nat)
      modifies this
      ensures Boot(files, result, calls) == Booted(old(files), runs, stamp, renames)
    {
      var attempts := RetryLocked(runs);
      calls := attempts + 1;
      hide MovedAside, IsLocked, IsCorruption, Tried, TriedUpTo, Deciding;
      var error := runs(attempts).error;
      if error.None? {
        return Healthy, calls;
      }
      if !IsCorruption(error.value) {
        return RaisedError, calls;
      }
      var moved := MoveAside(stamp, renames);
      if !moved {
        return RaisedError, calls;
      }
      var last := runs(attempts + 1);
      files := Tried(files, last);
      return if last.error.None? then Recovered else RaisedError, calls + 1;
    }

    /** Renames the database and its side files out of the way, one after the other. */
    method MoveAside(stamp: string, renames: Suffix -> bool) returns (ok: bool)
      modifies this
      ensures (files, ok) == MovedAside(old(files), stamp, renames, SUFFIXES)
    {
      for i := 0 to |SUFFIXES|
        invariant MovedAside(files, stamp, renames, SUFFIXES[i..]) == MovedAside(old(files), stamp, renames, SUFFIXES)
      {
        var s := SUFFIXES[i];
        assert SUFFIXES[i..][1..] == SUFFIXES[i + 1..];
        if Own(s) !in files {
          continue;
        }
        if !renames(s) {
          return false;
        }
        files := Shift(files, s, stamp);
      }
      return true;
    }
  }

  // ---------------------------------------------------------------- nothing is destroyed

  lemma {:induction false} TriedKeeps(files: Files, runs: nat -> Attempt, n: nat)
    requires forall i :: CreatesOwn(runs(i))
    ensures var t := TriedUpTo(files, runs, n);
            (forall f | f in files :: f in t && t[f] == files[f])
            && forall f | f in t && f.Aside? :: f in files
  {
    if n > 0 { TriedKeeps(files, runs, n - 1); }
    assert CreatesOwn(runs(n));
  }

  /** Where the file named `f` can be found after the move. */
  predicate Survives(before: Files, after: Files, f: Name)
    requires f in before
  {
    (f in after && after[f] == before[f])
    || (f.Own? && exists a | a in after :: a.Aside? && a.suffix == f.suffix && after[a] == before[f])
  }

  function Rank(s: Suffix): nat {
    match s case Main => 0 case Wal => 1 case Shm => 2
  }

  /** The file is there, and no rename fails up to its own. */
  predicate Moves(files: Files, renames: Suffix -> bool, s: Suffix) {
    Own(s) in files && forall u: Suffix | Rank(u) <= Rank(s) && Own(u) in files :: renames(u)
  }

  /** No file that is going to be moved lands on one that is already there. */
  predicate NoClash(files: Files, stamp: string, renames: Suffix -> bool) {
    forall s: Suffix | Moves(files, renames, s) :: Aside(s, stamp) !in files
  }

  /** Which files are gone from their place after the move. */
  lemma MovedAway(files: Files, stamp: string, renames: Suffix -> bool, s: Suffix)
    requires Own(s) in files
    ensures Own(s) !in MovedAside(files, stamp, renames, SUFFIXES).0 <==> Moves(files, renames, s)
  {
    assert SUFFIXES == [Main, Wal, Shm];
    assert SUFFIXES[1..] == [Wal, Shm] && SUFFIXES[1..][1..] == [Shm] && SUFFIXES[1..][1..][1..] == [];
    var one := if Own(Main) in files && renames(Main) then Shift(files, Main, stamp) else files;
    var two := if Own(Wal) in one && renames(Wal) then Shift(one, Wal, stamp) else one;
    assert Own(Main) in files && !renames(Main) ==> MovedAside(files, stamp, renames, SUFFIXES).0 == files;
    assert Own(Wal) in one <==> Own(Wal) in files;
    assert Own(Shm) in two <==> Own(Shm) in files;
  }

  /** The result of moving the listed files, name by name, whether or not a rename failed on the way. */
  lemma {:induction false} MovedIs(files: Files, stamp: string, renames: Suffix -> bool, list: seq<Suffix>)
    requires forall i, j | 0 <= i < j < |list| :: list[i] != list[j]
    ensures var (after, ok) := MovedAside(files, stamp, renames, list);
            forall s: Suffix ::
              (if Own(s) in files && Own(s) !in after
               then s in list && Aside(s, stamp) in after && after[Aside(s, stamp)] == files[Own(s)]
               else SameEntry(files, after, Own(s)) && SameEntry(files, after, Aside(s, stamp)))
              && (ok && s in list ==> Own(s) !in after)
    ensures var (after, ok) := MovedAside(files, stamp, renames, list);
            forall s: Suffix, t: string | t != stamp :: SameEntry(files, after, Aside(s, t))
    decreases |list|
  {
    if list != [] {
      var s0 := list[0];
      assert forall i | 0 <= i < |list[1..]| :: list[1..][i] == list[i + 1];
      assert s0 !in list[1..];
      if Own(s0) !in files {
        MovedIs(files, stamp, renames, list[1..]);
      } else if renames(s0) {
        MovedIs(Shift(files, s0, stamp), stamp, renames, list[1..]);
      }
      assert forall s | s in list :: s == s0 || s in list[1..];
    }
  }

  predicate SameEntry(a: Files, b: Files, n: Name) {
    (n in a <==> n in b) && (n in a ==> a[n] == b[n])
  }

  /** Every file there before the move survives under its own or its backup name, renames failing or
      not, when no backup of the same second is in the way of one that is moved. */
  lemma MoveDestroysNothing(files: Files, stamp: string, renames: Suffix -> bool)
    requires NoClash(files, stamp, renames)
    ensures var (after, ok) := MovedAside(files, stamp, renames, SUFFIXES);
            forall f | f in files :: Survives(files, after, f)
  {
    MovedIs(files, stamp, renames, SUFFIXES);
    var (after, ok) := MovedAside(files, stamp, renames, SUFFIXES);
    forall f | f in files ensures Survives(files, after, f) {
      var s := f.suffix;
      if Own(s) in files { MovedAway(files, stamp, renames, s); }
      hide MovedAside, Moves;
      if f.Own? {
        if f !in after { assert Aside(s, stamp) in after; }
      } else if f.stamp == stamp {
        assert SameEntry(files, after, Aside(s, stamp));
      } else {
        assert SameEntry(files, after, Aside(s, f.stamp));
      }
    }
  }

  /** And exactly then: every file is kept if and only if no file that is moved has a backup of the same
      second, which `replace` would overwrite. */
  lemma MoveDestroysNothingExactly(files: Files, stamp: string, renames: Suffix -> bool)
    requires forall a, b | a in files && b in files && a != b :: files[a] != files[b]
    ensures var after := MovedAside(files, stamp, renames, SUFFIXES).0;
            (forall f | f in files :: Survives(files, after, f)) <==> NoClash(files, stamp, renames)
  {
    var (after, ok) := MovedAside(files, stamp, renames, SUFFIXES);
    if NoClash(files, stamp, renames) {
      MoveDestroysNothing(files, stamp, renames);
    } else {
      var s: Suffix :| Moves(files, renames, s) && Aside(s, stamp) in files;
      MovedIs(files, stamp, renames, SUFFIXES);
      MovedAway(files, stamp, renames, s);
      hide MovedAside;
      assert after[Aside(s, stamp)] == files[Own(s)];
      assert !Survives(files, after, Aside(s, stamp));
    }
  }

  /** Over the whole boot, whatever the errors and failed renames: unless a backup of the same second is
      in the way, every file there at the start is still there under its own or its backup name. */
  lemma BootDestroysNothing(files: Files, runs: nat -> Attempt, stamp: string, renames: Suffix -> bool)
    requires forall i :: CreatesOwn(runs(i))
    requires forall s: Suffix :: Aside(s, stamp) !in files
    ensures forall f | f in files :: Survives(files, Booted(files, runs, stamp, renames).files, f)
  {
    var n := Deciding(runs, 0);
    var tried := TriedUpTo(files, runs, n);
    TriedKeeps(files, runs, n);
    assert NoClash(tried, stamp, renames) by {
      forall s: Suffix ensures Aside(s, stamp) !in tried { assert Aside(s, stamp) !in files; }
    }
    MoveDestroysNothing(tried, stamp, renames);
    var after := MovedAside(tried, stamp, renames, SUFFIXES).0;
    var last := Tried(after, runs(n + 1));
    var end := Booted(files, runs, stamp, renames).files;
    assert end in {tried, after, last};
    assert forall a | a in after :: a in last && last[a] == after[a];
    hide MovedAside, TriedUpTo, Deciding, Booted, Tried;
    forall f | f in files ensures Survives(files, end, f) {
      assert Survives(tried, after, f);
    }
  }

  // ---------------------------------------------------------------- which errors do what

  /** SQLite saying that someone else has the file. */
  predicate SaysLocked(e: Exc) {
    e.class_ == OperationalError && (Contains(e.text, "locked") || Contains(e.text, "database is busy"))
  }

  /** SQLite saying that the file is not a database. */
  predicate SaysCorrupt(e: Exc) {
    e.class_ in {DatabaseError, OperationalError}
    && (Contains(e.text, "file is not a database") || Contains(e.text, "malformed")
        || Contains(e.text, "database disk image") || Contains(e.text, "unsupported file format")
        || Contains(e.text, "file is encrypted") || Contains(e.text, "not a database"))
  }

  lemma PartOf(text: string, part: string, whole: string, k: nat)
    requires k + |part| <= |whole| && whole[k..k + |part|] == part && Contains(text, whole)
    ensures Contains(text, part)
  {
    var i :| 0 <= i <= |text| && At(text, whole, i);
    forall j | 0 <= j < |part| ensures text[i + k..i + k + |part|][j] == part[j] {
      assert text[i..i + |whole|][k + j] == whole[k + j] && whole[k..k + |part|][j] == part[j];
    }
    assert text[i + k..i + k + |part|] == part;
    assert At(text, part, i + k);
  }

  lemma LockedSays(e: Exc)
    ensures IsLocked(e) <==> SaysLocked(e)
  {
    if Contains(e.text, "database is locked") {
      assert "database is locked"[12..18] == "locked";
      PartOf(e.text, "locked", "database is locked", 12);
    }
    hide Contains;
    assert LOCK_MARKERS[0] in LOCK_MARKERS && LOCK_MARKERS[1] in LOCK_MARKERS && LOCK_MARKERS[2] in LOCK_MARKERS;
  }

  lemma CorruptSays(e: Exc)
    ensures IsCorruption(e) <==> SaysCorrupt(e)
  {
    hide Contains;
    var m := CORRUPTION_MARKERS;
    assert m[0] in m && m[1] in m && m[2] in m && m[3] in m && m[4] in m && m[5] in m;
  }

  /** Call `n` is the first that did not find the file locked, or the seventh. */
  ghost predicate FirstUnlocked(runs: nat -> Attempt, n: nat) {
    n <= 6 && (forall i | 0 <= i < n :: runs(i).error.Some? && SaysLocked(runs(i).error.value))
    && (n == 6 || !(runs(n).error.Some? && SaysLocked(runs(n).error.value)))
  }

  /** Every boot has such a call. */
  lemma FirstExists(runs: nat -> Attempt) returns (n: nat)
    ensures FirstUnlocked(runs, n)
  {
    n := Deciding(runs, 0);
    DecidingIs(runs, 0);
    forall i | 0 <= i <= n && runs(i).error.Some?
      ensures IsLocked(runs(i).error.value) <==> SaysLocked(runs(i).error.value)
    {
      LockedSays(runs(i).error.value);
    }
    hide IsLocked, SaysLocked;
  }

  lemma {:induction false} DecidingFrom(runs: nat -> Attempt, n: nat, from: nat)
    requires FirstUnlocked(runs, n) && from <= n
    ensures Deciding(runs, from) == n
    decreases n - from
  {
    if runs(from).error.Some? { LockedSays(runs(from).error.value); }
    hide IsLocked, SaysLocked;
    if from < n { DecidingFrom(runs, n, from + 1); }
  }

  /** A boot is healthy exactly when its deciding call succeeds, and then no other is made. */
  lemma HealthyExactly(files: Files, runs: nat -> Attempt, stamp: string, renames: Suffix -> bool, n: nat)
    requires FirstUnlocked(runs, n)
    ensures var b := Booted(files, runs, stamp, renames);
            (b.result == Healthy <==> runs(n).error.None?) && (b.result == Healthy ==> b.calls == n + 1)
  {
    DecidingFrom(runs, n, 0);
    hide Deciding, FirstUnlocked, IsCorruption, MovedAside, TriedUpTo;
  }

  /** Any other error is raised, and leaves every file where it was. */
  lemma OtherErrorsStay(files: Files, runs: nat -> Attempt, stamp: string, renames: Suffix -> bool, n: nat)
    requires FirstUnlocked(runs, n) && (forall i :: CreatesOwn(runs(i)))
    requires runs(n).error.Some? && !SaysCorrupt(runs(n).error.value)
    ensures var b := Booted(files, runs, stamp, renames);
            b.result == RaisedError && b.calls == n + 1
            && (forall f | f in files :: f in b.files && b.files[f] == files[f])
            && forall f | f in b.files && f.Aside? :: f in files
  {
    DecidingFrom(runs, n, 0);
    CorruptSays(runs(n).error.value);
    TriedKeeps(files, runs, n);
    hide Deciding, FirstUnlocked, IsCorruption, SaysCorrupt, MovedAside, TriedUpTo;
  }

  /** A database locked at every call is tried seven times and left alone. */
  lemma AlwaysLocked(files: Files, runs: nat -> Attempt, stamp: string, renames: Suffix -> bool)
    requires forall i :: CreatesOwn(runs(i)) && runs(i).error == Some(Exc(OperationalError, "database is locked"))
    ensures var b := Booted(files, runs, stamp, renames);
            b.calls == 7 && b.result == RaisedError && forall f | f in files :: f in b.files && b.files[f] == files[f]
  {
    var e := Exc(OperationalError, "database is locked");
    LockedIsNotCorrupt(e);
    hide SaysLocked, SaysCorrupt, Booted;
    assert FirstUnlocked(runs, 6);
    OtherErrorsStay(files, runs, stamp, renames, 6);
  }

  lemma LockedIsNotCorrupt(e: Exc)
    requires e == Exc(OperationalError, "database is locked")
    ensures SaysLocked(e) && !SaysCorrupt(e)
  {
    SaysSo(e.text);
    hide Contains;
    NoneOfTheLetters(e.text);
    LongParts(e.text);
    ShortParts(e.text);
  }

  lemma SaysSo(text: string)
    requires text == "database is locked"
    ensures Contains(text, "locked")
  {
    assert At(text, "locked", 12);
  }

  lemma NoneOfTheLetters(text: string)
    requires text == "database is locked"
    ensures |text| == 18 && 'm' !in text && 'f' !in text && 'n' !in text
  {}

  lemma LongParts(text: string)
    requires |text| == 18
    ensures !Contains(text, "file is not a database") && !Contains(text, "database disk image")
            && !Contains(text, "unsupported file format")
  {
    hide Contains;
    NotIn(text, "file is not a database");
    NotIn(text, "database disk image");
    NotIn(text, "unsupported file format");
  }

  lemma ShortParts(text: string)
    requires 'm' !in text && 'f' !in text && 'n' !in text
    ensures !Contains(text, "malformed") && !Contains(text, "file is encrypted") && !Contains(text, "not a database")
  {
    hide Contains;
    NotIn(text, "malformed");
    NotIn(text, "file is encrypted");
    NotIn(text, "not a database");
  }

  lemma NotIn(text: string, part: string)
    requires |part| > |text| || (part != "" && part[0] !in text)
    ensures !Contains(text, part)
  {
    forall i | 0 <= i <= |text| ensures !At(text, part, i) {
      assert i + |part| <= |text| && part != "" ==> text[i..i + |part|][0] == text[i] && text[i] in text;
    }
  }

  /** Real corruption is recovered from: when every rename works and the next migrate succeeds, each of the
      database's files is aside with its content, and the boot has recovered. */
  lemma CorruptionRecovers(files: Files, runs: nat -> Attempt, stamp: string, renames: Suffix -> bool, n: nat)
    requires FirstUnlocked(runs, n) && (forall i :: CreatesOwn(runs(i))) && (forall s :: renames(s))
    requires runs(n).error.Some? && SaysCorrupt(runs(n).error.value) && runs(n + 1).error.None?
    ensures var b := Booted(files, runs, stamp, renames);
            b.result == Recovered && b.calls == n + 2
            && (forall s | Own(s) in files :: Aside(s, stamp) in b.files && b.files[Aside(s, stamp)] == files[Own(s)])
            && var made := runs(n + 1).creates;
               forall s | Own(s) in b.files :: Own(s) in made && b.files[Own(s)] == made[Own(s)]
  {
    DecidingFrom(runs, n, 0);
    CorruptSays(runs(n).error.value);
    TriedKeeps(files, runs, n);
    var tried := TriedUpTo(files, runs, n);
    AllMoved(tried, stamp, renames, SUFFIXES);
    AllAside(tried, stamp, renames);
    assert CreatesOwn(runs(n + 1));
    hide Deciding, FirstUnlocked, IsCorruption, SaysCorrupt, MovedAside, TriedUpTo;
    var moved := MovedAside(tried, stamp, renames, SUFFIXES).0;
    assert Booted(files, runs, stamp, renames) == Boot(Tried(moved, runs(n + 1)), Recovered, n + 2);
    hide Booted;
    NewFiles(moved, runs(n + 1));
  }

  lemma NewFiles(moved: Files, a: Attempt)
    requires CreatesOwn(a) && forall s: Suffix :: Own(s) !in moved
    ensures forall s: Suffix, t: string | Aside(s, t) in moved ::
              Aside(s, t) in Tried(moved, a) && Tried(moved, a)[Aside(s, t)] == moved[Aside(s, t)]
    ensures forall s: Suffix | Own(s) in Tried(moved, a) ::
              Own(s) in a.creates && Tried(moved, a)[Own(s)] == a.creates[Own(s)]
  {}

  lemma AllAside(files: Files, stamp: string, renames: Suffix -> bool)
    requires forall s :: renames(s)
    ensures var after := MovedAside(files, stamp, renames, SUFFIXES).0;
            (forall s: Suffix :: Own(s) !in after)
            && forall s: Suffix | Own(s) in files :: Aside(s, stamp) in after && after[Aside(s, stamp)] == files[Own(s)]
  {
    MovedIs(files, stamp, renames, SUFFIXES);
    AllMoved(files, stamp, renames, SUFFIXES);
    assert SUFFIXES[0] == Main && SUFFIXES[1] == Wal && SUFFIXES[2] == Shm;
    forall s: Suffix ensures s in SUFFIXES { assert s == Main || s == Wal || s == Shm; }
    hide MovedAside;
  }

  lemma {:induction false} AllMoved(files: Files, stamp: string, renames: Suffix -> bool, list: seq<Suffix>)
    requires forall s :: renames(s)
    ensures MovedAside(files, stamp, renames, list).1
    decreases |list|
  {
    if list != [] {
      AllMoved(if Own(list[0]) in files then Shift(files, list[0], stamp) else files, stamp, renames, list[1..]);
    }
  }

  /** The move succeeds exactly when no file that is there refuses its rename. */
  lemma {:induction false} AllMovedExactly(files: Files, stamp: string, renames: Suffix -> bool, list: seq<Suffix>)
    requires forall i, j | 0 <= i < j < |list| :: list[i] != list[j]
    ensures MovedAside(files, stamp, renames, list).1 <==> forall s | s in list && Own(s) in files :: renames(s)
    decreases |list|
  {
    if list != [] {
      var rest := list[1..];
      assert forall s :: s in list <==> s == list[0] || s in rest;
      assert forall s | s in rest :: s != list[0];
      if Own(list[0]) !in files {
        AllMovedExactly(files, stamp, renames, rest);
      } else if renames(list[0]) {
        AllMovedExactly(Shift(files, list[0], stamp), stamp, renames, rest);
      }
    }
  }

  /** How any boot from a corrupt file ends: a file that is there and cannot be renamed stops it without a further
      call; otherwise the last call decides. */
  lemma CorruptionEnds(files: Files, runs: nat -> Attempt, stamp: string, renames: Suffix -> bool, n: nat)
    requires FirstUnlocked(runs, n) && runs(n).error.Some? && SaysCorrupt(runs(n).error.value)
    ensures var b := Booted(files, runs, stamp, renames);
            var stuck := exists s :: Own(s) in TriedUpTo(files, runs, n) && !renames(s);
            b.calls == (if stuck then n + 1 else n + 2)
            && b.result == (if stuck || runs(n + 1).error.Some? then RaisedError else Recovered)
  {
    DecidingFrom(runs, n, 0);
    CorruptSays(runs(n).error.value);
    hide Deciding, FirstUnlocked, IsCorruption, SaysCorrupt, MovedAside, TriedUpTo;
    StuckExactly(TriedUpTo(files, runs, n), stamp, renames);
  }

  lemma StuckExactly(files: Files, stamp: string, renames: Suffix -> bool)
    ensures MovedAside(files, stamp, renames, SUFFIXES).1 <==> !exists s :: Own(s) in files && !renames(s)
  {
    hide MovedAside;
    EverySuffix();
    AllMovedExactly(files, stamp, renames, SUFFIXES);
  }

  lemma EverySuffix()
    ensures SUFFIXES == [Main, Wal, Shm] && forall s: Suffix :: s in SUFFIXES
  {
    var list := SUFFIXES;
    assert list[0] in list && list[1] in list && list[2] in list;
    forall s: Suffix ensures s in SUFFIXES {
      match s
      case Main => assert list[0] == s;
      case Wal => assert list[1] == s;
      case Shm => assert list[2] == s;
    }
  }
}
