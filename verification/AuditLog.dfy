/** The audit log over rotating files: one line per event, a size check every so many lines,
    and a tail that reaches into the rotated copies. As shipped the tail reads the live file
    last and puts it first; what it should return needs the live file read first. */
module AuditLog {
  import opened Text
  import opened Json
  import opened BackupOrder
  import opened LogFiles

  datatype Config = Config(maxBytes: nat, keep: nat, checkEvery: nat)

  datatype Audit = Audit(disk: Disk, sinceCheck: nat, warned: bool)

  /** One event: its line, whether the file can be written, what `stat` reports, and the rotation's luck. */
  datatype Entry = Entry(line: string, writable: bool, size: Option<nat>, luck: Luck)

  /** `rotate_if_large`: any failure leaves the files as they are. */
  function RotatedIfLarge(d: Disk, maxBytes: nat, keep: nat, size: Option<nat>, luck: Luck): Disk {
    if maxBytes == 0 || d.live.None? || size.None? || size.value < maxBytes then d
    else
      match Rotated(d, keep, luck)
      case None => d
      case Some(r) => r
  }

  predicate Checks(cfg: Config, a: Audit) {
    cfg.maxBytes > 0 && a.sinceCheck + 1 >= cfg.checkEvery
  }

  function Recorded(cfg: Config, a: Audit, e: Entry): Audit {
    if !e.writable then a.(warned := true)
    else
      var d := Appended(a.disk, [e.line]);
      if Checks(cfg, a) then Audit(RotatedIfLarge(d, cfg.maxBytes, cfg.keep, e.size, e.luck), 0, a.warned)
      else Audit(d, a.sinceCheck + 1, a.warned)
  }

  // ---------------------------------------------------------------- reading the tail

  /** A file's lines, or nothing when it cannot be read. */
  type Found = Option<Lines>

  function LinesIn(f: Found): Lines {
    if f.Some? then f.value else []
  }

  /** The reading loop: each file's lines go in front of those read so far, until there are enough. */
  function Visit(files: seq<Found>, wanted: nat, lines: Lines): Lines
    decreases |files|
  {
    if files == [] then lines
    else if files[0].None? then Visit(files[1..], wanted, lines)
    else if |files[0].value + lines| >= wanted then files[0].value + lines
    else Visit(files[1..], wanted, files[0].value + lines)
  }

  /** The lines of files listed newest first, oldest line first. */
  function Chronicle(files: seq<Found>): Lines {
    if files == [] then [] else Chronicle(files[1..]) + LinesIn(files[0])
  }

  lemma LastOfLonger(a: Lines, b: Lines, w: nat)
    requires |b| >= w
    ensures LastOf(a + b, w) == LastOf(b, w)
  {}

  /** Stopping early loses nothing: the last lines read are the last lines of the whole chronicle. */
  lemma {:induction false} VisitIsEnough(files: seq<Found>, wanted: nat, lines: Lines)
    ensures LastOf(Visit(files, wanted, lines), wanted) == LastOf(Chronicle(files) + lines, wanted)
    decreases |files|
  {
    if files == [] {
      assert [] + lines == lines;
    } else {
      var here := LinesIn(files[0]) + lines;
      Associative(Chronicle(files[1..]), LinesIn(files[0]), lines);
      if files[0].Some? && |here| >= wanted {
        LastOfLonger(Chronicle(files[1..]), here, wanted);
      } else {
        VisitIsEnough(files[1..], wanted, here);
        assert files[0].None? ==> here == lines;
      }
    }
  }

  function Parsed(loads: string -> Option<Json>, lines: Lines): seq<Json> {
    if lines == [] then []
    else (match loads(lines[0]) case Some(v) => [v] case None => []) + Parsed(loads, lines[1..])
  }

  /** Parsing keeps the order, and skips exactly the lines that do not parse. */
  lemma {:induction false} ParsedConcat(loads: string -> Option<Json>, a: Lines, b: Lines)
    ensures Parsed(loads, a + b) == Parsed(loads, a) + Parsed(loads, b)
  {
    if a == [] {
      assert a + b == b;
    } else {
      assert (a + b)[1..] == a[1..] + b;
      ParsedConcat(loads, a[1..], b);
      Associative(match loads(a[0]) case Some(v) => [v] case None => [], Parsed(loads, a[1..]), Parsed(loads, b));
    }
  }

  lemma ParsedOne(loads: string -> Option<Json>, line: string)
    ensures loads(line).Some? ==> Parsed(loads, [line]) == [loads(line).value]
    ensures loads(line).None? ==> Parsed(loads, [line]) == []
  {
    Singleton(line);
  }

  /** The rotated copies newest first, each as it can be read. */
  function Copies(d: Disk, readable: set<Key>): seq<Found> {
    Reversed(Reads(d, Sorted(d.backups.Keys), readable))
  }

  function Reads(d: Disk, keys: seq<Key>, readable: set<Key>): seq<Found> {
    if keys == [] then []
    else
      [if keys[0] in d.backups && keys[0] in readable then Some(d.backups[keys[0]]) else None]
      + Reads(d, keys[1..], readable)
  }

  function Reversed<T>(s: seq<T>): seq<T> {
    if s == [] then [] else Reversed(s[1..]) + [s[0]]
  }

  function LiveFile(d: Disk, readable: bool): Found {
    if readable then d.live else None
  }

  /** The shipped order: copies newest first, then the live file. */
  function ShippedTail(d: Disk, readable: set<Key>, live: bool, wanted: nat): Lines {
    LastOf(Visit(Copies(d, readable) + [LiveFile(d, live)], wanted, []), wanted)
  }

  /** The order the contract needs: the live file, then the copies newest first. */
  function LiveFirstTail(d: Disk, readable: set<Key>, live: bool, wanted: nat): Lines {
    LastOf(Visit([LiveFile(d, live)] + Copies(d, readable), wanted, []), wanted)
  }

  lemma {:induction false} ChronicleConcat(a: seq<Found>, b: seq<Found>)
    ensures Chronicle(a + b) == Chronicle(b) + Chronicle(a)
  {
    if a == [] {
      assert a + b == b;
      assert Chronicle(b) + [] == Chronicle(b);
    } else {
      assert (a + b)[1..] == a[1..] + b;
      ChronicleConcat(a[1..], b);
      Associative(Chronicle(b), Chronicle(a[1..]), LinesIn(a[0]));
    }
  }

  lemma OneFile(f: Found)
    ensures Chronicle([f]) == LinesIn(f)
  {
    Singleton(f);
    assert Chronicle([f]) == Chronicle([f][1..]) + LinesIn(f);
  }

  /** Live file first, the tail is the last lines of the readable copies followed by the live file. */
  lemma LiveFirstIsRight(d: Disk, readable: set<Key>, live: bool, wanted: nat)
    ensures LiveFirstTail(d, readable, live, wanted)
            == LastOf(Chronicle(Copies(d, readable)) + LinesIn(LiveFile(d, live)), wanted)
  {
    hide Visit, Chronicle, Copies, LastOf;
    var files := [LiveFile(d, live)] + Copies(d, readable);
    VisitIsEnough(files, wanted, []);
    ChronicleConcat([LiveFile(d, live)], Copies(d, readable));
    OneFile(LiveFile(d, live));
    assert Chronicle(files) + [] == Chronicle(files);
  }

  /** As shipped, the live file's lines come out as if they were the oldest. */
  lemma ShippedPutsLiveFirst(d: Disk, readable: set<Key>, live: bool, wanted: nat)
    ensures ShippedTail(d, readable, live, wanted)
            == LastOf(LinesIn(LiveFile(d, live)) + Chronicle(Copies(d, readable)), wanted)
  {
    hide Visit, Chronicle, Copies, LastOf;
    var files := Copies(d, readable) + [LiveFile(d, live)];
    VisitIsEnough(files, wanted, []);
    ChronicleConcat(Copies(d, readable), [LiveFile(d, live)]);
    OneFile(LiveFile(d, live));
    assert Chronicle(files) + [] == Chronicle(files);
  }

  /** Both orders give the same lines when there are no copies. */
  lemma OrdersAgreeWithoutCopies(d: Disk, readable: set<Key>, live: bool, wanted: nat)
    requires d.backups == map[]
    ensures ShippedTail(d, readable, live, wanted) == LiveFirstTail(d, readable, live, wanted)
  {
    assert d.backups.Keys == {};
    assert Copies(d, readable) == [];
    assert [] + [LiveFile(d, live)] == [LiveFile(d, live)] + [];
  }

  lemma LastLine(a: Lines, b: Lines, w: nat)
    requires w >= 1 && |b| > 0
    ensures LastOf(a + b, w) != [] && LastOf(a + b, w)[|LastOf(a + b, w)| - 1] == b[|b| - 1]
  {}

  /** Given a newest copied line and a newest live line that differ, if both are there, the shipped tail is
      right exactly when there is no readable copied line or no readable live one. */
  lemma OrderMattersExactly(d: Disk, readable: set<Key>, live: bool, wanted: nat)
    requires wanted >= 1
    requires var b, l := Chronicle(Copies(d, readable)), LinesIn(LiveFile(d, live));
             b != [] && l != [] ==> b[|b| - 1] != l[|l| - 1]
    ensures ShippedTail(d, readable, live, wanted) == LiveFirstTail(d, readable, live, wanted)
            <==> Chronicle(Copies(d, readable)) == [] || LinesIn(LiveFile(d, live)) == []
  {
    var b, l := Chronicle(Copies(d, readable)), LinesIn(LiveFile(d, live));
    LiveFirstIsRight(d, readable, live, wanted);
    ShippedPutsLiveFirst(d, readable, live, wanted);
    hide ShippedTail, LiveFirstTail, Chronicle, Copies, LinesIn, LiveFile;
    if b == [] || l == [] {
      assert l + b == b + l;
    } else {
      LastLine(l, b, wanted);
      LastLine(b, l, wanted);
    }
  }

  // ---------------------------------------------------------------- the tail of a run

  lemma {:induction false} ReversedChronicle(d: Disk, keys: seq<Key>, readable: set<Key>)
    requires forall k | k in keys :: k in readable
    ensures Chronicle(Reversed(Reads(d, keys, readable))) == Contents(d.backups, keys)
  {
    if keys != [] {
      var first, rest := Reads(d, keys, readable)[0], Reads(d, keys[1..], readable);
      ReversedChronicle(d, keys[1..], readable);
      assert Reads(d, keys, readable)[1..] == rest;
      ChronicleConcat(Reversed(rest), [first]);
      OneFile(first);
    }
  }

  /** Over any run the log accounts for, a live-first tail of what is retained is the tail of everything
      ever recorded, for any number of rotations. */
  lemma LiveFirstTailIsRecent(d: Disk, l: Ledger, keep: nat, wanted: nat)
    requires Accounted(d, l, keep) && wanted <= |Retained(d, keep)|
    ensures LiveFirstTail(d, d.backups.Keys, true, wanted) == LastOf(l.ever, wanted)
  {
    var s := d.backups.Keys;
    var older, kept := Contents(d.backups, Oldest(s, keep)), Retained(d, keep);
    var before := AllLines(BeforeLast(l.made, keep));
    assert LinesIn(LiveFile(d, true)) == Live(d);
    hide *;
    RetainedIsSuffix(d, l, keep);
    WholeChronicle(d, keep);
    LiveFirstIsRight(d, s, true, wanted);
    LastOfLonger(older, kept, wanted);
    LastOfLonger(before, kept, wanted);
  }

  lemma WholeChronicle(d: Disk, keep: nat)
    ensures Chronicle(Copies(d, d.backups.Keys)) + Live(d)
            == Contents(d.backups, Oldest(d.backups.Keys, keep)) + Retained(d, keep)
  {
    var s := d.backups.Keys;
    SortedIs(s);
    var r := Sorted(s);
    assert r == Oldest(s, keep) + Newest(s, keep);
    hide Sorted, Chronicle, Reversed, Reads, Contents, Newest, Oldest;
    ReversedChronicle(d, r, s);
    ContentsConcat(d.backups, Oldest(s, keep), Newest(s, keep));
    Associative(Contents(d.backups, Oldest(s, keep)), Contents(d.backups, Newest(s, keep)), Live(d));
  }

  /** A run in which the shipped order misses the newest entry: with a limit of one MiB and a check after each
      event, one event that finds the file that large, its rotation, another event. */
  lemma ShippedTailMissesTheNewest(luck: Luck)
    requires luck.renamed && luck.listed
    ensures var cfg := Config(1048576, 5, 1);
            var a := Recorded(cfg, Audit(Disk(map[], None), 0, false), Entry("first", true, Some(1048576), luck));
            var b := Recorded(cfg, a, Entry("second", true, Some(0), luck));
            ShippedTail(b.disk, b.disk.backups.Keys, true, 1) == ["first"]
            && LiveFirstTail(b.disk, b.disk.backups.Keys, true, 1) == ["second"]
  {
    var cfg := Config(1048576, 5, 1);
    var d := Appended(Disk(map[], None), ["first"]);
    var name := RotationName(d, luck);
    assert d.backups.Keys == {};
    OneCopyStays(["first"], name, luck);
    var a := Recorded(cfg, Audit(Disk(map[], None), 0, false), Entry("first", true, Some(1048576), luck));
    assert a.disk == Disk(map[name := ["first"]], None) by { assert [] + ["first"] == ["first"]; }
    var b := Recorded(cfg, a, Entry("second", true, Some(0), luck));
    assert b.disk == Disk(map[name := ["first"]], Some(["second"])) by { assert [] + ["second"] == ["second"]; }
    hide RotationName, Recorded;
    TwoFiles(name);
  }

  lemma OneCopyStays(lines: Lines, name: Key, luck: Luck)
    ensures Pruned(map[name := lines], 5, luck) == map[name := lines]
  {
    var m := map[name := lines];
    assert |Sorted(m.Keys)| == |m.Keys| == |{name}| by { assert m.Keys == {name}; }
    NothingOld(m, luck);
  }

  lemma NothingOld(backups: map<Key, Lines>, luck: Luck)
    requires |Sorted(backups.Keys)| <= 5
    ensures Pruned(backups, 5, luck) == backups
  {
    hide Sorted;
    assert Oldest(backups.Keys, 5) == [];
    assert backups - {} == backups;
  }

  lemma TwoFiles(name: Key)
    ensures var d := Disk(map[name := ["first"]], Some(["second"]));
            ShippedTail(d, d.backups.Keys, true, 1) == ["first"]
            && LiveFirstTail(d, d.backups.Keys, true, 1) == ["second"]
  {
    var d := Disk(map[name := ["first"]], Some(["second"]));
    assert d.backups.Keys == {name};
    SortedUnique([name], {name});
    Singleton(name);
    assert Reads(d, [name], {name}) == [Some(["first"])] + Reads(d, [name][1..], {name});
    var f: Found := Some(["first"]);
    assert Reads(d, [name], {name}) == [f];
    assert Reversed([f]) == Reversed([f][1..]) + [f] == [f];
    OneFile(Some(["first"]));
    ShippedPutsLiveFirst(d, {name}, true, 1);
    LiveFirstIsRight(d, {name}, true, 1);
    assert ["second"] + ["first"] == ["second", "first"] && ["first"] + ["second"] == ["first", "second"];
  }

  // ---------------------------------------------------------------- when it rotates

  /** After one event that could be written the live file is gone exactly when rotation is on, the event is the
      `checkEvery`-th since the last check, the size is known and at least the limit, and the rename works; the
      count starts over exactly after a check. */
  lemma RotatesExactly(cfg: Config, a: Audit, e: Entry)
    requires e.writable
    ensures var b := Recorded(cfg, a, e);
            (b.disk.live.None? <==>
               cfg.maxBytes > 0 && a.sinceCheck + 1 >= cfg.checkEvery
               && e.size.Some? && e.size.value >= cfg.maxBytes && e.luck.renamed)
            && (b.sinceCheck == 0 <==> cfg.maxBytes > 0 && a.sinceCheck + 1 >= cfg.checkEvery)
            && (b.disk.live.Some? ==>
                  b.disk.live.value == Live(a.disk) + [e.line] && b.disk.backups == a.disk.backups)
            && (b.sinceCheck != 0 ==> b.sinceCheck == a.sinceCheck + 1)
  {
    hide Pruned, RotationName;
  }

  function After(cfg: Config, a: Audit, entries: seq<Entry>): Audit
    decreases |entries|
  {
    if entries == [] then a else After(cfg, Recorded(cfg, a, entries[0]), entries[1..])
  }

  /** How much of the live file was there before the run. */
  function FoundIn(cfg: Config, a: Audit, base: nat, entries: seq<Entry>): nat
    decreases |entries|
  {
    if entries == [] then base
    else
      var b := Recorded(cfg, a, entries[0]);
      FoundIn(cfg, b, if entries[0].writable && b.disk.live.None? then 0 else base, entries[1..])
  }

  /** The size of a file with these lines never shrinks as lines are added. */
  ghost predicate SizeGrows(size: Lines -> nat) {
    forall a: Lines, b: Lines :: size(a) <= size(a + b)
  }

  /** Every event is written, every stat tells the truth and every rename works. */
  ghost predicate AllWorks(cfg: Config, size: Lines -> nat, a: Audit, entries: seq<Entry>)
    decreases |entries|
  {
    entries == []
    || (entries[0].luck.renamed && entries[0].size == Some(size(Live(a.disk) + [entries[0].line]))
        && AllWorks(cfg, size, Recorded(cfg, a, entries[0]), entries[1..]))
  }

  /** The events since the last check are in the live file, which was below the limit then. */
  ghost predicate SmallAtCheck(cfg: Config, size: Lines -> nat, a: Audit, base: nat) {
    var n := |Live(a.disk)| - a.sinceCheck;
    a.sinceCheck < cfg.checkEvery && base <= n && (n == base || size(Live(a.disk)[..n]) < cfg.maxBytes)
  }

  lemma RecordSmall(cfg: Config, size: Lines -> nat, a: Audit, base: nat, e: Entry)
    requires cfg.maxBytes > 0 && cfg.checkEvery > 0 && SmallAtCheck(cfg, size, a, base)
    requires e.luck.renamed && e.size == Some(size(Live(a.disk) + [e.line]))
    ensures var b := Recorded(cfg, a, e);
            SmallAtCheck(cfg, size, b, if e.writable && b.disk.live.None? then 0 else base)
  {
    if e.writable {
      RotatesExactly(cfg, a, e);
      var b := Recorded(cfg, a, e);
      hide Recorded;
      if b.disk.live.Some? {
        var live := Live(a.disk) + [e.line];
        if b.sinceCheck == 0 {
          assert live[..|live|] == live;
        } else {
          assert live[..|live| - b.sinceCheck] == Live(a.disk)[..|Live(a.disk)| - a.sinceCheck];
        }
      }
    }
  }

  lemma BeginningIsSmaller(size: Lines -> nat, live: Lines, p: nat, n: nat)
    requires SizeGrows(size) && p <= n <= |live|
    ensures size(live[..p]) <= size(live[..n])
  {
    assert live[..n] == live[..p] + live[p..n];
  }

  /** While everything works, fewer than `checkEvery` events stand in the live file behind the point where it
      reached the limit: at the `checkEvery`-th at the latest it is rotated. */
  lemma {:induction false} LimitIsKept(cfg: Config, size: Lines -> nat, a: Audit, base: nat, entries: seq<Entry>)
    requires cfg.maxBytes > 0 && cfg.checkEvery > 0 && SizeGrows(size)
    requires SmallAtCheck(cfg, size, a, base) && AllWorks(cfg, size, a, entries)
    ensures var live := Live(After(cfg, a, entries).disk);
            forall p | FoundIn(cfg, a, base, entries) <= p <= |live| && size(live[..p]) >= cfg.maxBytes ::
              |live| - p < cfg.checkEvery
    decreases |entries|
  {
    if entries == [] {
      var live := Live(a.disk);
      var n := |live| - a.sinceCheck;
      forall p | base <= p <= |live| && size(live[..p]) >= cfg.maxBytes ensures |live| - p < cfg.checkEvery {
        if p < n { BeginningIsSmaller(size, live, p, n); }
      }
    } else {
      var b := Recorded(cfg, a, entries[0]);
      RecordSmall(cfg, size, a, base, entries[0]);
      var next := if entries[0].writable && b.disk.live.None? then 0 else base;
      assert After(cfg, a, entries) == After(cfg, b, entries[1..]);
      assert FoundIn(cfg, a, base, entries) == FoundIn(cfg, b, next, entries[1..]);
      hide *;
      LimitIsKept(cfg, size, b, next, entries[1..]);
    }
  }

  /** From the opening of a log on any file. */
  lemma LimitIsKeptFromStart(cfg: Config, size: Lines -> nat, found: Disk, entries: seq<Entry>)
    requires cfg.maxBytes > 0 && cfg.checkEvery > 0 && SizeGrows(size)
    requires AllWorks(cfg, size, Audit(found, 0, false), entries)
    ensures var a, base := Audit(found, 0, false), |Live(found)|;
            var live := Live(After(cfg, a, entries).disk);
            forall p | FoundIn(cfg, a, base, entries) <= p <= |live| && size(live[..p]) >= cfg.maxBytes ::
              |live| - p < cfg.checkEvery
  {
    LimitIsKept(cfg, size, Audit(found, 0, false), |Live(found)|, entries);
  }

  // ---------------------------------------------------------------- the object

  class Log {
    const cfg: Config
    var disk: Disk
    var sinceCheck: nat
    var warned: bool
    ghost var ledger: Ledger

    ghost function State(): Audit
      reads this
    {
      Audit(disk, sinceCheck, warned)
    }

    ghost predicate Valid()
      reads this
    {
      cfg.keep >= 1 && Accounted(disk, ledger, cfg.keep)
    }

    constructor (maxMb: int, backups: int, checkEvery: int, found: Disk)
      ensures Valid() && State() == Audit(found, 0, false) && ledger == Opening(found)
      ensures cfg.maxBytes == if maxMb > 0 then maxMb * 1048576 else 0
      ensures cfg.keep == (if backups >= 1 then backups else 1)
      ensures cfg.checkEvery == if checkEvery >= 1 then checkEvery else 1
    {
      cfg := Config(if maxMb > 0 then maxMb * 1048576 else 0, Keep(backups), Keep(checkEvery));
      disk, sinceCheck, warned := found, 0, false;
      ledger := Opening(found);
      new;
      OpeningAccounted(found, cfg.keep);
    }

    /** Appends one event; an unwritable file drops it and warns, and nothing else changes. The books stay right
        unless the clock has stepped back behind a copy. */
    method Record(e: Entry)
      modifies this
      ensures State() == Recorded(cfg, old(State()), e)
      ensures old(Valid()) && Timely(old(ledger), e.luck) ==> Valid()
      ensures ledger.ever == old(ledger).ever + (if e.writable then [e.line] else [])
      ensures warned == (old(warned) || !e.writable)
      ensures ledger.made == old(ledger).made || (exists b :: ledger.made == old(ledger).made + [b])
    {
      if !e.writable {
        warned := true;
        assert ledger.ever + [] == ledger.ever;
        return;
      }
      ghost var right := Valid() && Timely(ledger, e.luck);
      if right { AppendedAccounted(disk, ledger, cfg.keep, [e.line]); }
      hide Accounted, Rotated, RotationName;
      disk := Appended(disk, [e.line]);
      ledger := Ledger(ledger.made, ledger.ever + [e.line]);
      sinceCheck := sinceCheck + 1;
      if cfg.maxBytes > 0 && sinceCheck >= cfg.checkEvery {
        sinceCheck := 0;
        if disk.live.Some? && e.size.Some? && e.size.value >= cfg.maxBytes {
          var rotated := Rotated(disk, cfg.keep, e.luck);
          if rotated.Some? {
            if right { RotationAccounted(disk, ledger, cfg.keep, e.luck); }
            ledger := Ledger(ledger.made + [Backup(RotationName(disk, e.luck), Live(disk))], ledger.ever);
            disk := rotated.value;
          }
        }
      }
    }

    /** The shipped tail, parsed; unreadable files and lines are skipped. */
    method Tail(loads: string -> Option<Json>, n: int, readable: set<Key>, live: bool) returns (out: seq<Json>)
      ensures var lines := LinesIn(LiveFile(disk, live)) + Chronicle(Copies(disk, readable));
              out == Parsed(loads, LastOf(lines, if n >= 1 then n else 1))
    {
      var wanted := Keep(n);
      var lines: Lines := [];
      var files := Copies(disk, readable) + [LiveFile(disk, live)];
      ShippedPutsLiveFirst(disk, readable, live, wanted);
      var i := 0;
      while i < |files|
        invariant 0 <= i <= |files|
        invariant Visit(files[i..], wanted, lines) == Visit(files, wanted, [])
      {
        assert files[i..][1..] == files[i + 1..];
        if files[i].Some? {
          lines := files[i].value + lines;
          if |lines| >= wanted {
            break;
          }
        }
        i := i + 1;
      }
      assert lines == Visit(files, wanted, []);
      var last := LastOf(lines, wanted);
      out := [];
      for j := 0 to |last|
        invariant out + Parsed(loads, last[j..]) == Parsed(loads, last)
      {
        assert last[j..][1..] == last[j + 1..];
        match loads(last[j])
        case Some(v) => Associative(out, [v], Parsed(loads, last[j + 1..])); out := out + [v];
        case None => assert [] + Parsed(loads, last[j + 1..]) == Parsed(loads, last[j + 1..]);
      }
    }
  }
}
