/** The handler of the one process that owns a log file, beside processes that append to it or
    rotate it under its open stream. A rename another process blocks is put off and said once;
    a rename by another process is followed to the new file. */
module LogHandler {
  import opened Text
  import opened BackupOrder
  import opened LogFiles

  /** `keep` is at least 1; the notes are the handler's own lines. */
  datatype Config = Config(maxBytes: int, keep: nat, retry: real, rotatedNote: Key -> string, deferredNote: string)

  /** `moved` is the name another process gave to the file the stream still writes to, if one did. */
  datatype Handler = Handler(disk: Disk, moved: Option<Key>, retryAt: real, failing: bool, rotations: nat)

  /** One record through the owner (`size` is what `fstat` of its stream reports, if it works), one line
      from a guest, or a rotation by another process. */
  datatype Step =
    | OwnerEmit(line: string, now: real, size: Option<nat>, luck: Luck)
    | GuestAppend(line: string)
    | OtherRotates(luck: Luck)

  predicate ShouldRoll(cfg: Config, h: Handler, s: Step)
    requires s.OwnerEmit?
  {
    cfg.maxBytes > 0 && !(h.retryAt != 0.0 && s.now < h.retryAt) && s.size.Some? && s.size.value >= cfg.maxBytes
  }

  /** The rotation attempt: following a rename already made, or renaming, or putting it off, with its note. */
  function Roll(cfg: Config, h: Handler, now: real, luck: Luck): Handler {
    if h.moved.Some? then h.(disk := Appended(h.disk, []), moved := None)
    else
      match Rotated(h.disk, cfg.keep, luck)
      case None =>
        Handler(Appended(h.disk, if h.failing then [] else [cfg.deferredNote]),
                None, now + cfg.retry, true, h.rotations)
      case Some(d) =>
        Handler(Appended(d, [cfg.rotatedNote(RotationName(h.disk, luck))]), None, 0.0, false, h.rotations + 1)
  }

  /** The stream's own file, wherever it is now; a file already deleted takes the line with it. */
  function Streamed(d: Disk, moved: Option<Key>, lines: Lines): Disk {
    if moved.None? then Appended(d, lines)
    else if moved.value in d.backups then d.(backups := d.backups[moved.value := d.backups[moved.value] + lines])
    else d
  }

  function After(cfg: Config, h: Handler, s: Step): Handler {
    match s
    case GuestAppend(line) => h.(disk := Appended(h.disk, [line]))
    case OwnerEmit(line, now, _, luck) =>
      var rolled := if ShouldRoll(cfg, h, s) then Roll(cfg, h, now, luck) else h;
      rolled.(disk := Streamed(rolled.disk, rolled.moved, [line]))
    case OtherRotates(luck) =>
      if Rotated(h.disk, cfg.keep, luck).None? then h
      else h.(disk := Rotated(h.disk, cfg.keep, luck).value,
              moved := if h.moved.Some? then h.moved else Some(RotationName(h.disk, luck)))
  }

  /** The live file becomes a copy, by the owner or by another process. */
  predicate Rotates(cfg: Config, h: Handler, s: Step) {
    !s.GuestAppend? && (s.OwnerEmit? ==> ShouldRoll(cfg, h, s) && h.moved.None?)
    && Rotated(h.disk, cfg.keep, s.luck).Some?
  }

  predicate Defers(cfg: Config, h: Handler, s: Step) {
    s.OwnerEmit? && ShouldRoll(cfg, h, s) && h.moved.None? && Rotated(h.disk, cfg.keep, s.luck).None?
  }

  predicate Follows(cfg: Config, h: Handler, s: Step) {
    s.OwnerEmit? && ShouldRoll(cfg, h, s) && h.moved.Some?
  }

  /** The record goes to a file that is no longer the live one. */
  predicate Strays(cfg: Config, h: Handler, s: Step) {
    s.OwnerEmit? && !ShouldRoll(cfg, h, s) && h.moved.Some?
  }

  function Note(cfg: Config, h: Handler, s: Step): Lines {
    if s.OwnerEmit? && Rotates(cfg, h, s) then [cfg.rotatedNote(RotationName(h.disk, s.luck))]
    else if Defers(cfg, h, s) && !h.failing then [cfg.deferredNote]
    else []
  }

  /** Every line one step writes, its notes included. */
  function Written(cfg: Config, h: Handler, s: Step): Lines {
    Note(cfg, h, s) + LineOf(s)
  }

  function LineOf(s: Step): Lines {
    if s.OtherRotates? then [] else [s.line]
  }

  function Recorded(cfg: Config, h: Handler, l: Ledger, s: Step): Ledger {
    Ledger(if Rotates(cfg, h, s) then l.made + [Backup(RotationName(h.disk, s.luck), Live(h.disk))] else l.made,
           l.ever + Written(cfg, h, s))
  }

  // ---------------------------------------------------------------- one step

  /** Unless the record strays, the disk is the one the record's lines and the rotation, if any, make of it. */
  lemma DiskAfter(cfg: Config, h: Handler, s: Step)
    requires !Strays(cfg, h, s)
    ensures var d := if Rotates(cfg, h, s) then Rotated(h.disk, cfg.keep, s.luck).value else h.disk;
            After(cfg, h, s).disk
            == if s.OtherRotates? then d else Appended(Appended(d, Note(cfg, h, s)), LineOf(s))
  {
    hide Rotated, RotationName, ShouldRoll;
    assert Live(h.disk) + [] == Live(h.disk);
  }

  lemma StepAccounted(cfg: Config, h: Handler, l: Ledger, s: Step)
    requires Accounted(h.disk, l, cfg.keep) && cfg.keep >= 1 && !Strays(cfg, h, s)
    requires !s.GuestAppend? ==> Timely(l, s.luck)
    ensures Accounted(After(cfg, h, s).disk, Recorded(cfg, h, l, s), cfg.keep)
  {
    DiskAfter(cfg, h, s);
    var note, line := Note(cfg, h, s), LineOf(s);
    assert s.OtherRotates? ==> note + line == [] && l.ever + (note + line) == l.ever;
    hide Accounted, Rotated, RotationName, Note, LineOf, After;
    var d := if Rotates(cfg, h, s) then Rotated(h.disk, cfg.keep, s.luck).value else h.disk;
    var m := Ledger(Recorded(cfg, h, l, s).made, l.ever);
    if Rotates(cfg, h, s) {
      RotationAccounted(h.disk, l, cfg.keep, s.luck);
    }
    AppendedAccounted(d, m, cfg.keep, note);
    AppendedAccounted(Appended(d, note), Ledger(m.made, m.ever + note), cfg.keep, line);
    Associative(l.ever, note, line);
  }

  /** A rename that fails changes no file but the live one, which gains at most one notice and the record. */
  lemma FailedRenameHarmless(cfg: Config, h: Handler, s: Step)
    requires !Rotates(cfg, h, s) && !Strays(cfg, h, s)
    ensures var a := After(cfg, h, s);
            a.disk.backups == h.disk.backups && a.rotations == h.rotations
            && Live(a.disk) == Live(h.disk) + Written(cfg, h, s)
            && |Written(cfg, h, s)| == (if Defers(cfg, h, s) && !h.failing then 1 else 0) + |LineOf(s)|
  {
    DiskAfter(cfg, h, s);
    hide Rotated, RotationName, ShouldRoll;
    assert Live(h.disk) + [] == Live(h.disk);
    Associative(Live(h.disk), Note(cfg, h, s), LineOf(s));
  }

  /** After a failed attempt no other is made until `retry` seconds have passed. */
  lemma BackOff(cfg: Config, h: Handler, s: Step, t: Step)
    requires Defers(cfg, h, s) && t.OwnerEmit? && s.now + cfg.retry != 0.0 && t.now < s.now + cfg.retry
    ensures !ShouldRoll(cfg, After(cfg, h, s), t)
  {}

  /** One record with the stream on the live file, in full. A rotation is tried exactly when rotation is on, no retry
      is waited for and the size is known and at least the limit; one that works leaves the rotation's note and the
      record in a new file and nothing pending, one that does not leaves everything but one notice per episode. */
  lemma EmitIs(cfg: Config, h: Handler, line: string, now: real, size: Option<nat>, luck: Luck)
    requires h.moved.None? && h.disk.live.Some?
    ensures var a := After(cfg, h, OwnerEmit(line, now, size, luck));
            var tried := cfg.maxBytes > 0 && (h.retryAt == 0.0 || now >= h.retryAt)
                         && size.Some? && size.value >= cfg.maxBytes;
            a.moved.None?
            && (tried && luck.renamed ==>
                  a.rotations == h.rotations + 1 && a.retryAt == 0.0 && !a.failing
                  && a.disk.live == Some([cfg.rotatedNote(RotationName(h.disk, luck))] + [line]))
            && (tried && !luck.renamed ==>
                  a.rotations == h.rotations && a.retryAt == now + cfg.retry && a.failing
                  && a.disk == h.disk.(live := Some(h.disk.live.value
                                                    + (if h.failing then [] else [cfg.deferredNote]) + [line])))
            && (!tried ==> a == h.(disk := h.disk.(live := Some(h.disk.live.value + [line]))))
  {
    hide Pruned, RotationName;
    assert [] + [cfg.rotatedNote(RotationName(h.disk, luck))] == [cfg.rotatedNote(RotationName(h.disk, luck))];
  }

  /** No attempt is put off in these steps. */
  predicate NoneDeferred(cfg: Config, h: Handler, steps: seq<Step>)
    decreases |steps|
  {
    steps == [] || (!Defers(cfg, h, steps[0]) && NoneDeferred(cfg, After(cfg, h, steps[0]), steps[1..]))
  }

  /** Each episode has its notice: the first rename that fails after one that worked is announced again. */
  lemma EpisodeAnnounced(cfg: Config, h: Handler, s: Step, steps: seq<Step>, t: Step)
    requires s.OwnerEmit? && Rotates(cfg, h, s) && NoneDeferred(cfg, After(cfg, h, s), steps)
    requires Defers(cfg, Run(cfg, After(cfg, h, s), steps), t)
    ensures Written(cfg, Run(cfg, After(cfg, h, s), steps), t) == [cfg.deferredNote, t.line]
  {
    assert !After(cfg, h, s).failing by { hide RotationName; }
    StaysUnannounced(cfg, After(cfg, h, s), steps);
    hide After, Run, Defers, Rotates;
    assert [cfg.deferredNote] + [t.line] == [cfg.deferredNote, t.line];
  }

  lemma {:induction false} StaysUnannounced(cfg: Config, h: Handler, steps: seq<Step>)
    requires !h.failing && NoneDeferred(cfg, h, steps)
    ensures !Run(cfg, h, steps).failing
    decreases |steps|
  {
    if steps != [] {
      assert !After(cfg, h, steps[0]).failing by { hide RotationName, Rotated; }
      hide After, Defers;
      StaysUnannounced(cfg, After(cfg, h, steps[0]), steps[1..]);
    }
  }

  /** A rename another process made is followed, not repeated: the new file is not rotated again. */
  lemma FollowsTheFile(cfg: Config, h: Handler, s: Step)
    requires Follows(cfg, h, s)
    ensures var a := After(cfg, h, s);
            a == Handler(Disk(h.disk.backups, Some(Live(h.disk) + [s.line])), None, h.retryAt, h.failing, h.rotations)
  {
    assert Live(h.disk) + [] == Live(h.disk);
  }

  /** A record that strays ends the renamed file, or is lost with it once that file was deleted; the live file stays. */
  lemma StrayLands(cfg: Config, h: Handler, s: Step)
    requires Strays(cfg, h, s)
    ensures var a, k := After(cfg, h, s), h.moved.value;
            a.disk.live == h.disk.live && a.disk.backups.Keys == h.disk.backups.Keys
            && (forall b | b in a.disk.backups ::
                  a.disk.backups[b] == h.disk.backups[b] + if b == k then [s.line] else [])
  {
    hide ShouldRoll;
    forall b | b in h.disk.backups ensures h.disk.backups[b] + [] == h.disk.backups[b] {}
  }

  // ---------------------------------------------------------------- whole runs

  function Run(cfg: Config, h: Handler, steps: seq<Step>): Handler
    decreases |steps|
  {
    if steps == [] then h else Run(cfg, After(cfg, h, steps[0]), steps[1..])
  }

  function RunLedger(cfg: Config, h: Handler, l: Ledger, steps: seq<Step>): Ledger
    decreases |steps|
  {
    if steps == [] then l else RunLedger(cfg, After(cfg, h, steps[0]), Recorded(cfg, h, l, steps[0]), steps[1..])
  }

  /** The clock never steps back behind a copy already made, and no record strays. */
  predicate TimelyRun(cfg: Config, h: Handler, l: Ledger, steps: seq<Step>)
    decreases |steps|
  {
    steps == []
    || (!Strays(cfg, h, steps[0]) && (!steps[0].GuestAppend? ==> Timely(l, steps[0].luck))
        && TimelyRun(cfg, After(cfg, h, steps[0]), Recorded(cfg, h, l, steps[0]), steps[1..]))
  }

  lemma {:induction false} RunAccounted(cfg: Config, h: Handler, l: Ledger, steps: seq<Step>)
    requires Accounted(h.disk, l, cfg.keep) && cfg.keep >= 1 && TimelyRun(cfg, h, l, steps)
    ensures Accounted(Run(cfg, h, steps).disk, RunLedger(cfg, h, l, steps), cfg.keep)
    decreases |steps|
  {
    if steps != [] {
      StepAccounted(cfg, h, l, steps[0]);
      hide After, Recorded, Accounted;
      RunAccounted(cfg, After(cfg, h, steps[0]), Recorded(cfg, h, l, steps[0]), steps[1..]);
    }
  }

  /** Conservation over runs: from any directory, after any sequence of records, guest lines, rotations by
      any process and failures, the newest copies and the live file are exactly the end of everything written. */
  lemma NothingLostOverRuns(cfg: Config, h: Handler, steps: seq<Step>)
    requires cfg.keep >= 1 && TimelyRun(cfg, h, Opening(h.disk), steps)
    ensures var ever := RunLedger(cfg, h, Opening(h.disk), steps).ever;
            var kept := Retained(Run(cfg, h, steps).disk, cfg.keep);
            |kept| <= |ever| && ever[|ever| - |kept|..] == kept
  {
    OpeningAccounted(h.disk, cfg.keep);
    RunAccounted(cfg, h, Opening(h.disk), steps);
    hide Retained, Run, RunLedger, Opening;
    RetainedIsSuffix(Run(cfg, h, steps).disk, RunLedger(cfg, h, Opening(h.disk), steps), cfg.keep);
  }

  /** While every rename keeps failing, the notice is written once and never again. */
  lemma {:induction false} OneNoticePerEpisode(cfg: Config, h: Handler, steps: seq<Step>)
    requires h.failing && h.moved.None? && forall s | s in steps :: !s.GuestAppend? ==> !s.luck.renamed
    ensures var a := Run(cfg, h, steps);
            a.failing && a.moved.None? && a.disk.backups == h.disk.backups
            && Live(a.disk) == Live(h.disk) + LinesOf(steps)
    decreases |steps|
  {
    if steps == [] {
      assert Live(h.disk) + [] == Live(h.disk);
    } else {
      var s := steps[0];
      assert !Rotates(cfg, h, s);
      FailedRenameHarmless(cfg, h, s);
      assert Written(cfg, h, s) == LineOf(s);
      OneNoticePerEpisode(cfg, After(cfg, h, s), steps[1..]);
      Associative(Live(h.disk), LineOf(s), LinesOf(steps[1..]));
    }
  }

  function LinesOf(steps: seq<Step>): Lines {
    if steps == [] then [] else LineOf(steps[0]) + LinesOf(steps[1..])
  }

  /** Nothing keeps the owner from noticing: its size checks work, its renames work, and while another
      process has moved its file that file is a large one. */
  predicate Attentive(cfg: Config, h: Handler, steps: seq<Step>)
    decreases |steps|
  {
    steps == []
    || ((steps[0].OwnerEmit? ==>
           steps[0].luck.renamed && (h.moved.Some? ==> steps[0].size.Some? && steps[0].size.value >= cfg.maxBytes))
        && Attentive(cfg, After(cfg, h, steps[0]), steps[1..]))
  }

  predicate TimelyOnly(cfg: Config, h: Handler, l: Ledger, steps: seq<Step>)
    decreases |steps|
  {
    steps == []
    || ((!steps[0].GuestAppend? ==> Timely(l, steps[0].luck))
        && TimelyOnly(cfg, After(cfg, h, steps[0]), Recorded(cfg, h, l, steps[0]), steps[1..]))
  }

  /** An attentive owner never strays, so other processes' rotations cost no line and no order. */
  lemma {:induction false} AttentiveNeverStrays(cfg: Config, h: Handler, l: Ledger, steps: seq<Step>)
    requires cfg.maxBytes > 0 && h.retryAt == 0.0 && (h.moved.None? ==> h.disk.live.Some?)
    requires Attentive(cfg, h, steps) && TimelyOnly(cfg, h, l, steps)
    ensures TimelyRun(cfg, h, l, steps)
    decreases |steps|
  {
    if steps != [] {
      var a := After(cfg, h, steps[0]);
      assert a.retryAt == 0.0 && (a.moved.None? ==> a.disk.live.Some?);
      hide After, Recorded, Timely;
      AttentiveNeverStrays(cfg, a, Recorded(cfg, h, l, steps[0]), steps[1..]);
    }
  }

  // ---------------------------------------------------------------- what straying costs

  function KeysAfter(keys: seq<Key>, k: Key): seq<Key> {
    if keys == [] then [] else if keys[0] == k then keys[1..] else KeysAfter(keys[1..], k)
  }

  /** What a reader finds behind the copy `k`. */
  function Behind(d: Disk, keep: nat, k: Key): Lines {
    Contents(d.backups, KeysAfter(Newest(d.backups.Keys, keep), k)) + Live(d)
  }

  /** A line added to the copy `k` is read behind that copy's own lines. */
  lemma {:induction false} LineAdded(backups: map<Key, Lines>, keys: seq<Key>, k: Key, line: string)
      returns (front: Lines)
    requires k in backups && Increasing(keys)
    ensures var more := backups[k := backups[k] + [line]];
            if k in keys
            then var rest := Contents(backups, KeysAfter(keys, k));
                 Contents(backups, keys) == front + rest && Contents(more, keys) == front + [line] + rest
            else Contents(more, keys) == Contents(backups, keys)
  {
    front := [];
    if keys != [] {
      var more := backups[k := backups[k] + [line]];
      assert Increasing(keys[1..]);
      assert forall j | j in keys[1..] :: Before(keys[0], j);
      var here := if keys[0] in backups then backups[keys[0]] else [];
      var rest := LineAdded(backups, keys[1..], k, line);
      var tail := Contents(backups, KeysAfter(keys[1..], k));
      if keys[0] == k {
        front := here;
        Associative(here, [line], Contents(backups, keys[1..]));
      } else {
        front := here + rest;
        if k in keys {
          assert here + (rest + [line] + tail) == here + rest + [line] + tail;
          Associative(here, rest, tail);
        }
      }
    }
  }

  lemma NewestIncreases(s: set<Key>, keep: nat)
    ensures Increasing(Newest(s, keep)) && forall k | k in Newest(s, keep) :: k in s
  {
    SortedIs(s);
    assert Newest(s, keep) == Sorted(s)[|Sorted(s)| - |Newest(s, keep)|..];
    hide Sorted;
  }

  /** A new line in the middle: still the end of everything written only when nothing stands behind it. */
  lemma NewLineInside(ever: Lines, before: Lines, front: Lines, rest: Lines, line: string)
    requires ever == before + (front + rest) && line !in ever
    ensures EndOf(front + [line] + rest, ever + [line]) <==> rest == []
  {
    var part, whole := front + [line] + rest, ever + [line];
    if rest == [] {
      assert whole == before + part;
    } else {
      assert part[|part| - 1] == rest[|rest| - 1] == ever[|ever| - 1] && ever[|ever| - 1] in ever;
      assert whole[|whole| - |part|..] != [] && whole[|whole| - 1] == line;
    }
  }

  lemma NewLineLost(ever: Lines, before: Lines, kept: Lines, line: string)
    requires ever == before + kept && line !in ever
    ensures EndOf(kept, ever + [line]) <==> kept == []
  {
    if kept != [] {
      assert kept[|kept| - 1] == ever[|ever| - 1] && ever[|ever| - 1] in ever;
      assert (ever + [line])[|ever| + 1 - |kept|..][|kept| - 1] == line;
    }
  }

  /** A record that strays leaves the retained files the end of everything written exactly when nothing is
      retained at all, or the renamed file is among the newest and nothing retained stands behind it. */
  lemma StrayCostsExactly(cfg: Config, h: Handler, l: Ledger, s: Step)
    requires Accounted(h.disk, l, cfg.keep) && Strays(cfg, h, s) && s.line !in l.ever
    ensures EndOf(Retained(After(cfg, h, s).disk, cfg.keep), l.ever + [s.line])
            <==> Retained(h.disk, cfg.keep) == []
                 || (h.moved.value in Newest(h.disk.backups.Keys, cfg.keep)
                     && Behind(h.disk, cfg.keep, h.moved.value) == [])
  {
    var d, k, keep := h.disk, h.moved.value, cfg.keep;
    var keys := Newest(d.backups.Keys, keep);
    var before := AllLines(BeforeLast(l.made, keep));
    RetainedIsSuffix(d, l, keep);
    NewestIncreases(d.backups.Keys, keep);
    assert After(cfg, h, s).disk == Streamed(d, Some(k), [s.line]);
    hide Accounted, Increasing, Newest, After, Strays;
    if k in d.backups {
      var front := LineAdded(d.backups, keys, k, s.line);
      assert Streamed(d, Some(k), [s.line]).backups.Keys == d.backups.Keys;
      if k in keys {
        var rest := Contents(d.backups, KeysAfter(keys, k));
        Associative(front, rest, Live(d));
        Associative(front + [s.line], rest, Live(d));
        NewLineInside(l.ever, before, front, rest + Live(d), s.line);
      } else {
        NewLineLost(l.ever, before, Retained(d, keep), s.line);
      }
    } else {
      NewLineLost(l.ever, before, Retained(d, keep), s.line);
    }
  }

  /** A run that pays: the owner puts a rotation off, another process rotates and a guest writes while the
      retry is waited out, and the owner's next record is read before the guest's, though written after it. */
  lemma StrayOutOfOrder(cfg: Config, blocked: Luck, luck: Luck, a: string, b: string,
                          guest: string, c: string, now: real)
    requires cfg.keep >= 1 && cfg.maxBytes > 0 && cfg.retry > 0.0 && now >= 0.0 && !blocked.renamed && luck.renamed
    ensures var h := Opened(Disk(map[], None));
            var steps := [OwnerEmit(a, now, Some(0), luck), OwnerEmit(b, now, Some(cfg.maxBytes), blocked),
                          OtherRotates(luck), GuestAppend(guest), OwnerEmit(c, now, Some(cfg.maxBytes), luck)];
            Retained(Run(cfg, h, steps).disk, cfg.keep) == [a, cfg.deferredNote, b, c, guest]
            && RunLedger(cfg, h, Opening(h.disk), steps).ever == [a, cfg.deferredNote, b, guest, c]
  {
    var h, l := Opened(Disk(map[], None)), Ledger([], []);
    var s0, s1 := OwnerEmit(a, now, Some(0), luck), OwnerEmit(b, now, Some(cfg.maxBytes), blocked);
    var s2, s3, s4 := OtherRotates(luck), GuestAppend(guest), OwnerEmit(c, now, Some(cfg.maxBytes), luck);
    EmptyOpening();
    hide *;
    var lines := [a, cfg.deferredNote, b];
    PutOff(cfg, s0, s1);
    MovedAway(cfg, Run(cfg, h, [s0, s1]), RunLedger(cfg, h, l, [s0, s1]), lines, s2, s3, s4);
    RunsConcat(cfg, h, l, [s0, s1], [s2, s3, s4]);
    FiveInAll(s0, s1, s2, s3, s4);
    ThreeAndTwo(a, cfg.deferredNote, b, c, guest);
    ThreeAndTwo(a, cfg.deferredNote, b, guest, c);
  }

  lemma ThreeAndTwo<T>(a: T, b: T, c: T, d: T, e: T)
    ensures [a, b, c] + [d] + [e] == [a, b, c, d, e]
  {}

  lemma FiveInAll<T>(a: T, b: T, c: T, d: T, e: T)
    ensures [a, b] + [c, d, e] == [a, b, c, d, e]
  {}

  lemma EmptyOpening()
    ensures Opened(Disk(map[], None)) == Handler(Disk(map[], Some([])), None, 0.0, false, 0)
    ensures Opening(Opened(Disk(map[], None)).disk) == Ledger([], [])
  {
    var none: Lines, d := [], Disk(map[], Some([]));
    assert none + none == none && d.backups.Keys == {};
    assert Sorted({}) == [];
  }

  lemma PutOff(cfg: Config, s: Step, t: Step)
    requires cfg.maxBytes > 0 && s.OwnerEmit? && s.size == Some(0)
    requires t.OwnerEmit? && t.size == Some(cfg.maxBytes) && !t.luck.renamed
    ensures var h, l := Opened(Disk(map[], None)), Ledger([], []);
            var lines := [s.line, cfg.deferredNote, t.line];
            Run(cfg, h, [s, t]) == Handler(Disk(map[], Some(lines)), None, t.now + cfg.retry, true, 0)
            && RunLedger(cfg, h, l, [s, t]) == Ledger([], lines)
  {
    var h, l := Opened(Disk(map[], None)), Ledger([], []);
    EmptyOpening();
    assert [] + [s.line] == [s.line] && [s.line] + [cfg.deferredNote] + [t.line] == [s.line, cfg.deferredNote, t.line];
    assert [s.line] + ([cfg.deferredNote] + [t.line]) == [s.line, cfg.deferredNote, t.line];
    var h1, l1 := After(cfg, h, s), Recorded(cfg, h, l, s);
    assert h1 == h.(disk := Disk(map[], Some([s.line]))) && l1 == Ledger([], [s.line]);
    var h2, l2 := After(cfg, h1, t), Recorded(cfg, h1, l1, t);
    assert h2 == Handler(Disk(map[], Some([s.line, cfg.deferredNote, t.line])), None, t.now + cfg.retry, true, 0);
    assert l2 == Ledger([], [s.line, cfg.deferredNote, t.line]);
    hide *;
    RunsFirst(cfg, h, l, s, [t]);
    RunsFirst(cfg, h1, l1, t, []);
    RunsNone(cfg, h2, l2);
    assert [s] + [t] == [s, t] && [t] + [] == [t];
  }

  lemma MovedAway(cfg: Config, h: Handler, l: Ledger, lines: Lines, s: Step, t: Step, u: Step)
    requires cfg.keep >= 1 && s.OtherRotates? && s.luck.renamed && t.GuestAppend? && u.OwnerEmit?
    requires u.now < h.retryAt && h.retryAt != 0.0
    requires h.disk == Disk(map[], Some(lines)) && h.moved.None? && l.ever == lines
    ensures Retained(Run(cfg, h, [s, t, u]).disk, cfg.keep) == lines + [u.line] + [t.line]
    ensures RunLedger(cfg, h, l, [s, t, u]).ever == lines + [t.line] + [u.line]
  {
    var h1, l1 := After(cfg, h, s), Recorded(cfg, h, l, s);
    var h2, l2 := After(cfg, h1, t), Recorded(cfg, h1, l1, t);
    var h3, l3 := After(cfg, h2, u), Recorded(cfg, h2, l2, u);
    hide *;
    var name := RotatedAway(cfg, h, l, lines, s);
    StrayAfterGuest(cfg, h1, l1, name, lines, t, u);
    OneCopy(map[name := lines + [u.line]], name, [t.line], cfg.keep);
    RunsFirst(cfg, h, l, s, [t, u]);
    RunsFirst(cfg, h1, l1, t, [u]);
    RunsFirst(cfg, h2, l2, u, []);
    RunsNone(cfg, h3, l3);
    assert [s] + [t, u] == [s, t, u] && [t] + [u] == [t, u] && [u] + [] == [u];
  }

  lemma RotatedAway(cfg: Config, h: Handler, l: Ledger, lines: Lines, s: Step) returns (name: Key)
    requires cfg.keep >= 1 && s.OtherRotates? && s.luck.renamed
    requires h.disk == Disk(map[], Some(lines)) && h.moved.None? && l.ever == lines
    ensures After(cfg, h, s) == h.(disk := Disk(map[name := lines], None), moved := Some(name))
    ensures Recorded(cfg, h, l, s).ever == lines
  {
    name := RotationName(h.disk, s.luck);
    FirstRotation(lines, cfg.keep, s.luck);
    assert lines + ([] + []) == lines;
    hide Rotated, RotationName;
  }

  lemma StrayAfterGuest(cfg: Config, h: Handler, l: Ledger, name: Key, lines: Lines, t: Step, u: Step)
    requires h.disk == Disk(map[name := lines], None) && h.moved == Some(name) && l.ever == lines
    requires t.GuestAppend? && u.OwnerEmit? && u.now < h.retryAt && h.retryAt != 0.0
    ensures var h2, l2 := After(cfg, h, t), Recorded(cfg, h, l, t);
            After(cfg, h2, u).disk == Disk(map[name := lines + [u.line]], Some([t.line]))
            && Recorded(cfg, h2, l2, u).ever == lines + [t.line] + [u.line]
  {
    hide Rotated, RotationName;
    assert [] + [t.line] == [t.line] && [] + [u.line] == [u.line];
    var h2, l2 := After(cfg, h, t), Recorded(cfg, h, l, t);
    assert h2 == h.(disk := Disk(map[name := lines], Some([t.line]))) && l2.ever == lines + [t.line];
  }

  lemma RunsFirst(cfg: Config, h: Handler, l: Ledger, s: Step, rest: seq<Step>)
    ensures Run(cfg, h, [s] + rest) == Run(cfg, After(cfg, h, s), rest)
    ensures RunLedger(cfg, h, l, [s] + rest) == RunLedger(cfg, After(cfg, h, s), Recorded(cfg, h, l, s), rest)
  {
    hide After, Recorded;
    assert ([s] + rest)[1..] == rest;
  }

  lemma RunsNone(cfg: Config, h: Handler, l: Ledger)
    ensures Run(cfg, h, []) == h && RunLedger(cfg, h, l, []) == l
  {}

  lemma {:induction false} RunsConcat(cfg: Config, h: Handler, l: Ledger, a: seq<Step>, b: seq<Step>)
    ensures Run(cfg, h, a + b) == Run(cfg, Run(cfg, h, a), b)
    ensures RunLedger(cfg, h, l, a + b) == RunLedger(cfg, Run(cfg, h, a), RunLedger(cfg, h, l, a), b)
    decreases |a|
  {
    hide *;
    if a == [] {
      assert a + b == b;
      RunsNone(cfg, h, l);
    } else {
      var s, rest := a[0], a[1..];
      assert a == [s] + rest && a + b == [s] + (rest + b);
      RunsFirst(cfg, h, l, s, rest);
      RunsFirst(cfg, h, l, s, rest + b);
      RunsConcat(cfg, After(cfg, h, s), Recorded(cfg, h, l, s), rest, b);
    }
  }

  /** The handler as it opens. */
  function Opened(found: Disk): Handler {
    Handler(Appended(found, []), None, 0.0, false, 0)
  }

  lemma FirstRotation(lines: Lines, keep: nat, luck: Luck)
    requires keep >= 1 && luck.renamed
    ensures var d := Disk(map[], Some(lines));
            Rotated(d, keep, luck) == Some(Disk(map[RotationName(d, luck) := lines], None))
  {
    var d := Disk(map[], Some(lines));
    var name := RotationName(d, luck);
    var one: map<Key, Lines> := map[name := lines];
    assert d.backups[name := d.live.value] == one;
    OneCopy(one, name, [], keep);
    hide Oldest;
    assert (set k | k in Oldest(one.Keys, keep)) == {};
    assert Pruned(one, keep, luck) == one;
  }

  /** A single copy is the newest, and no pruning takes it. */
  lemma OneCopy(backups: map<Key, Lines>, name: Key, live: Lines, keep: nat)
    requires backups.Keys == {name} && keep >= 1
    ensures Oldest(backups.Keys, keep) == []
    ensures Retained(Disk(backups, Some(live)), keep) == backups[name] + live
  {
    SortedIs({name});
    SortedUnique([name], {name});
    assert Contents(backups, [name]) == backups[name];
  }

  /** Deleting copies one by one, as far as they can be deleted. */
  function Unlinked(backups: map<Key, Lines>, keys: seq<Key>, stuck: set<Key>): map<Key, Lines> {
    if keys == [] then backups
    else
      var rest := Unlinked(backups, keys[..|keys| - 1], stuck);
      if keys[|keys| - 1] in stuck then rest else rest - {keys[|keys| - 1]}
  }

  lemma UnlinkedSnoc(backups: map<Key, Lines>, keys: seq<Key>, k: Key, stuck: set<Key>)
    ensures var rest := Unlinked(backups, keys, stuck);
            Unlinked(backups, keys + [k], stuck) == if k in stuck then rest else rest - {k}
  {
    assert (keys + [k])[..|keys|] == keys;
  }

  lemma {:induction false} UnlinkedIs(backups: map<Key, Lines>, keys: seq<Key>, stuck: set<Key>)
    ensures Unlinked(backups, keys, stuck) == backups - ((set k | k in keys) - stuck)
  {
    if keys != [] {
      var front, z := keys[..|keys| - 1], keys[|keys| - 1];
      UnlinkedIs(backups, front, stuck);
      assert forall k :: k in keys <==> k in front || k == z by { assert keys == front + [z]; }
    }
  }

  lemma PrunePlan(backups: map<Key, Lines>, keep: nat, luck: Luck)
    ensures Unlinked(backups, [], luck.stuck) == backups
    ensures Pruned(backups, keep, luck) ==
            if luck.relisted then Unlinked(backups, Oldest(backups.Keys, keep), luck.stuck) else backups
  {
    UnlinkedIs(backups, Oldest(backups.Keys, keep), luck.stuck);
    hide Oldest;
  }

  // ---------------------------------------------------------------- the object

  class RotatingHandler {
    const cfg: Config
    var backups: map<Key, Lines>
    var live: Option<Lines>
    /** Where another process moved the file the stream is open on. */
    var moved: Option<Key>
    var retryAt: real
    var lastRotationError: bool
    var rotations: nat
    ghost var ledger: Ledger

    ghost function Files(): Disk
      reads this
    {
      Disk(backups, live)
    }

    ghost function State(): Handler
      reads this
    {
      Handler(Files(), moved, retryAt, lastRotationError, rotations)
    }

    /** The newest copies and the live file are accounted for. */
    ghost predicate Valid()
      reads this
    {
      cfg.keep >= 1 && Accounted(Files(), ledger, cfg.keep)
    }

    constructor (c: Config, found: Disk)
      requires c.keep >= 1
      ensures Valid() && cfg == c && ledger == Opening(found)
      ensures State() == Opened(found)
    {
      cfg, backups, live := c, found.backups, Some(Live(found));
      moved, retryAt, lastRotationError, rotations := None, 0.0, false, 0;
      ledger := Opening(found);
      new;
      OpeningAccounted(found, c.keep);
      AppendedAccounted(found, Opening(found), c.keep, []);
      assert Live(found) + [] == Live(found);
      assert Opening(found).ever + [] == Opening(found).ever;
    }

    method Write(lines: Lines)
      modifies this`live, this`backups
      ensures Files() == Streamed(old(Files()), moved, lines)
    {
      if moved.None? {
        live := Some((if live.Some? then live.value else []) + lines);
      } else if moved.value in backups {
        backups := backups[moved.value := backups[moved.value] + lines];
      }
    }

    /** Deletes the older copies one at a time; one that cannot be deleted stays. */
    method PruneBackups(luck: Luck)
      requires cfg.keep >= 1
      modifies this`backups
      ensures backups == Pruned(old(backups), cfg.keep, luck)
    {
      PrunePlan(backups, cfg.keep, luck);
      hide *;
      if luck.relisted {
        var olds := Oldest(backups.Keys, cfg.keep);
        for i := 0 to |olds|
          invariant backups == Unlinked(old(backups), olds[..i], luck.stuck)
        {
          UnlinkedSnoc(old(backups), olds[..i], olds[i], luck.stuck);
          assert olds[..i + 1] == olds[..i] + [olds[i]];
          if olds[i] !in luck.stuck {
            backups := backups - {olds[i]};
          }
        }
        assert olds[..|olds|] == olds;
      }
    }

    /** Renames the live file first; only then is anything else touched. */
    method Rotate(luck: Luck) returns (dest: Option<Key>)
      requires cfg.keep >= 1
      modifies this`backups, this`live
      ensures dest.Some? <==> Rotated(old(Files()), cfg.keep, luck).Some?
      ensures dest.None? ==> Files() == old(Files())
      ensures dest.Some? ==> dest.value == RotationName(old(Files()), luck)
                             && Files() == Rotated(old(Files()), cfg.keep, luck).value
    {
      var name := NewName(if luck.listed then Sorted(backups.Keys) else [], luck.stamp);
      if live.None? || !luck.renamed {
        return None;
      }
      hide NewName, Sorted, Pruned;
      backups, live := backups[name := live.value], None;
      PruneBackups(luck);
      return Some(name);
    }

    method DoRollover(now: real, luck: Luck)
      requires cfg.keep >= 1
      modifies this`backups, this`live, this`moved, this`retryAt, this`lastRotationError, this`rotations
      ensures State() == Roll(cfg, old(State()), now, luck)
    {
      hide Rotated, RotationName;
      if moved.Some? {
        moved := None;
        Write([]);
        return;
      }
      var dest := Rotate(luck);
      if dest.None? {
        var first := !lastRotationError;
        retryAt, lastRotationError := now + cfg.retry, true;
        Write(if first then [cfg.deferredNote] else []);
        return;
      }
      retryAt, lastRotationError, rotations := 0.0, false, rotations + 1;
      Write([cfg.rotatedNote(dest.value)]);
    }

    /** One record: roll over if the file is large and no retry is pending, then write it. The books stay
        right unless another process moved the file and the size check did not notice. */
    method Emit(line: string, now: real, size: Option<nat>, luck: Luck)
      requires cfg.keep >= 1
      modifies this
      ensures State() == After(cfg, old(State()), OwnerEmit(line, now, size, luck))
      ensures ledger == Recorded(cfg, old(State()), old(ledger), OwnerEmit(line, now, size, luck))
      ensures old(Valid()) && Timely(old(ledger), luck) ==>
                Strays(cfg, old(State()), OwnerEmit(line, now, size, luck)) || Valid()
    {
      ghost var s, before, books := OwnerEmit(line, now, size, luck), State(), ledger;
      if Valid() && Timely(ledger, luck) && !Strays(cfg, before, s) {
        StepAccounted(cfg, before, books, s);
      }
      ledger := Recorded(cfg, before, books, s);
      hide Accounted, Roll, Recorded, Streamed, Timely;
      if cfg.maxBytes > 0 && !(retryAt != 0.0 && now < retryAt) && size.Some? && size.value >= cfg.maxBytes {
        DoRollover(now, luck);
      }
      Write([line]);
    }

    /** Another process appends one line; it never holds the file. */
    method Guest(line: string)
      modifies this
      ensures State() == After(cfg, old(State()), GuestAppend(line))
      ensures ledger == Recorded(cfg, old(State()), old(ledger), GuestAppend(line))
      ensures old(Valid()) ==> Valid()
    {
      if Valid() { StepAccounted(cfg, State(), ledger, GuestAppend(line)); }
      ledger := Recorded(cfg, State(), ledger, GuestAppend(line));
      hide Accounted;
      live := Some((if live.Some? then live.value else []) + [line]);
    }

    /** Another process renames the live file under the open stream. */
    method Other(luck: Luck) returns (dest: Option<Key>)
      requires cfg.keep >= 1
      modifies this
      ensures State() == After(cfg, old(State()), OtherRotates(luck))
      ensures ledger == Recorded(cfg, old(State()), old(ledger), OtherRotates(luck))
      ensures old(Valid()) && Timely(old(ledger), luck) ==> Valid()
    {
      ghost var was := State();
      if Valid() && Timely(ledger, luck) { StepAccounted(cfg, was, ledger, OtherRotates(luck)); }
      ledger := Recorded(cfg, was, ledger, OtherRotates(luck));
      hide Accounted, Rotated, RotationName, Recorded, Timely;
      dest := Rotate(luck);
      if dest.Some? && moved.None? {
        moved := dest;
      }
    }
  }
}
