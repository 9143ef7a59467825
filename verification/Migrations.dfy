/** Versioned migrations: one transaction each, together with its bookkeeping row. Any
    number of processes may migrate the same file, each may crash or fail at any step; the
    committed schema is always the in-order result of exactly the versions recorded. */
module Migrations {
  import opened Text

  /** One shipped migration, its script already split into statements. */
  datatype Migration = Migration(version: nat, statements: seq<string>)

  /** What is committed: the schema, whether the bookkeeping table exists, and the versions in it. */
  datatype Db<S> = Db(schema: S, table: bool, applied: set<nat>)

  /** A statement's effect; `None` is an SQL error. */
  type Exec<!S> = (S, string) -> Option<S>

  function Apply<S>(exec: Exec<S>, s: S, statements: seq<string>): Option<S> {
    if statements == [] then Some(s)
    else
      match Apply(exec, s, statements[..|statements| - 1])
      case None => None
      case Some(t) => exec(t, statements[|statements| - 1])
  }

  /** The migrations' effect in order. */
  function Fold<S>(exec: Exec<S>, s: S, list: seq<Migration>): Option<S> {
    if list == [] then Some(s)
    else
      match Fold(exec, s, list[..|list| - 1])
      case None => None
      case Some(t) => Apply(exec, t, list[|list| - 1].statements)
  }

  function Versions(list: seq<Migration>): set<nat> {
    set m | m in list :: m.version
  }

  predicate Ascending(list: seq<Migration>) {
    forall i, j | 0 <= i < j < |list| :: list[i].version < list[j].version
  }

  /** The first `k` shipped migrations, and only those, are applied, in order, from `s0`. */
  predicate Prefix<S(==)>(exec: Exec<S>, s0: S, shipped: seq<Migration>, db: Db<S>, k: nat) {
    k <= |shipped| && db.applied == Versions(shipped[..k]) && Fold(exec, s0, shipped[..k]) == Some(db.schema)
  }

  ghost predicate Sound<S>(exec: Exec<S>, s0: S, shipped: seq<Migration>, db: Db<S>) {
    exists k: nat :: Prefix(exec, s0, shipped, db, k)
  }

  lemma VersionAt(list: seq<Migration>, k: nat, i: nat)
    requires Ascending(list) && k <= |list| && i < |list|
    ensures list[i].version in Versions(list[..k]) <==> i < k
  {
    if i < k { assert list[..k][i] in list[..k]; }
    if list[i].version in Versions(list[..k]) {
      var m :| m in list[..k] && m.version == list[i].version;
      var j :| 0 <= j < k && list[..k][j] == m;
      assert list[j].version == list[i].version;
    }
  }

  lemma PrefixSnoc<S>(exec: Exec<S>, s0: S, shipped: seq<Migration>, db: Db<S>, k: nat, t: S)
    requires Prefix(exec, s0, shipped, db, k) && k < |shipped|
    requires Apply(exec, db.schema, shipped[k].statements) == Some(t)
    ensures Prefix(exec, s0, shipped, db.(schema := t, applied := db.applied + {shipped[k].version}), k + 1)
  {
    assert shipped[..k + 1] == shipped[..k] + [shipped[k]];
    assert shipped[..k + 1][..k] == shipped[..k];
  }

  // ---------------------------------------------------------------- many processes

  /** Where one `migrate()` call is. In a transaction it works on a private copy. */
  datatype Proc<S> =
    | Away
    | Ready(seen: set<nat>, next: nat)
    | InTx(seen: set<nat>, next: nat, work: Db<S>, done: nat, inserted: bool)
    | Finished
    | Raised

  datatype World<S> = World(db: Db<S>, procs: map<nat, Proc<S>>, writer: Option<nat>)

  /** One step of process `pid`: creating the table and reading the versions, going on to the next
      migration, one statement, the bookkeeping row, the commit; an error; or a crash. */
  datatype Action =
    | Open(pid: nat) | Skip(pid: nat) | Begin(pid: nat) | Run(pid: nat)
    | Insert(pid: nat) | Commit(pid: nat) | Fail(pid: nat) | Crash(pid: nat)

  function ProcOf<S>(w: World<S>, pid: nat): Proc<S> {
    if pid in w.procs then w.procs[pid] else Away
  }

  function Put<S>(w: World<S>, pid: nat, p: Proc<S>): World<S> {
    w.(procs := w.procs[pid := p])
  }

  /** The working copy is gone and the write lock is free. */
  function Release<S>(w: World<S>, pid: nat, p: Proc<S>): World<S> {
    World(w.db, w.procs[pid := p], if w.writer == Some(pid) then None else w.writer)
  }

  function Step<S>(exec: Exec<S>, shipped: seq<Migration>, w: World<S>, a: Action): World<S> {
    var pid, p := a.pid, ProcOf(w, a.pid);
    if a.Crash? then Release(w, pid, Away)
    else if a.Fail? then Release(w, pid, Raised)
    else if p.InTx? then
      (if p.next >= |shipped| then w else InTxStep(exec, shipped[p.next], w, a, p))
    else if a.Open? then
      (if w.db.table then Put(w, pid, Ready(w.db.applied, 0))
       else if w.writer.Some? then Put(w, pid, Raised)
       else Put(w.(db := w.db.(table := true)), pid, Ready(w.db.applied, 0)))
    else if !p.Ready? then w
    else if p.next >= |shipped| then (if a.Skip? then Put(w, pid, Finished) else w)
    else if shipped[p.next].version in p.seen then (if a.Skip? then Put(w, pid, Ready(p.seen, p.next + 1)) else w)
    else if !a.Begin? then w
    else if w.writer.Some? then Put(w, pid, Raised)
    else World(w.db, w.procs[pid := InTx(p.seen, p.next, w.db, 0, false)], Some(pid))
  }

  /** Inside the transaction of migration `m`: a statement that fails, or a version already recorded, rolls back. */
  function InTxStep<S>(exec: Exec<S>, m: Migration, w: World<S>, a: Action, p: Proc<S>): World<S>
    requires p.InTx?
  {
    if a.Run? && p.done < |m.statements| && !p.inserted then
      match exec(p.work.schema, m.statements[p.done])
      case None => Release(w, a.pid, Raised)
      case Some(t) => Put(w, a.pid, p.(work := p.work.(schema := t), done := p.done + 1))
    else if a.Insert? && p.done >= |m.statements| && !p.inserted then
      if m.version in p.work.applied then Release(w, a.pid, Raised)
      else Put(w, a.pid, p.(work := p.work.(applied := p.work.applied + {m.version}), inserted := true))
    else if a.Commit? && p.inserted then
      World(p.work, w.procs[a.pid := Ready(p.seen, p.next + 1)], None)
    else w
  }

  function Steps<S>(exec: Exec<S>, shipped: seq<Migration>, w: World<S>, actions: seq<Action>): World<S>
    decreases |actions|
  {
    if actions == [] then w else Steps(exec, shipped, Step(exec, shipped, w, actions[0]), actions[1..])
  }

  predicate AllBefore(shipped: seq<Migration>, applied: set<nat>, n: nat) {
    n <= |shipped| && forall i | 0 <= i < n :: shipped[i].version in applied
  }

  /** What a process knows is true of what is committed; a transaction's copy is the commit plus its own work. */
  predicate ProcOk<S(==)>(exec: Exec<S>, shipped: seq<Migration>, w: World<S>, pid: nat) {
    var p := ProcOf(w, pid);
    match p
    case Ready(seen, next) => w.db.table && seen <= w.db.applied && AllBefore(shipped, w.db.applied, next)
    case InTx(seen, next, work, done, inserted) =>
      && w.writer == Some(pid) && w.db.table && work.table
      && seen <= w.db.applied && next < |shipped| && AllBefore(shipped, w.db.applied, next)
      && done <= |shipped[next].statements|
      && Apply(exec, w.db.schema, shipped[next].statements[..done]) == Some(work.schema)
      && work.applied == w.db.applied + (if inserted then {shipped[next].version} else {})
      && (inserted ==> done == |shipped[next].statements| && shipped[next].version !in w.db.applied)
    case Finished => w.db.table && AllBefore(shipped, w.db.applied, |shipped|)
    case _ => true
  }

  ghost predicate Invariant<S>(exec: Exec<S>, s0: S, shipped: seq<Migration>, w: World<S>) {
    Sound(exec, s0, shipped, w.db) && forall pid: nat :: ProcOk(exec, shipped, w, pid)
  }

  /** A step keeps every other process's knowledge when it only adds to the commit and touches no open transaction. */
  lemma OthersOk<S>(exec: Exec<S>, shipped: seq<Migration>, w: World<S>, v: World<S>, pid: nat)
    requires ProcOk(exec, shipped, w, pid) && ProcOf(v, pid) == ProcOf(w, pid)
    requires w.db.applied <= v.db.applied && (w.db.table ==> v.db.table)
    requires ProcOf(w, pid).InTx? ==> v.db == w.db && v.writer == w.writer
    ensures ProcOk(exec, shipped, v, pid)
  {
    hide Apply;
  }

  lemma InTxStepOk<S>(exec: Exec<S>, s0: S, shipped: seq<Migration>, w: World<S>, a: Action)
    requires Ascending(shipped) && Invariant(exec, s0, shipped, w)
    requires var p := ProcOf(w, a.pid); p.InTx? && p.next < |shipped|
    ensures var p := ProcOf(w, a.pid);
            var v := InTxStep(exec, shipped[p.next], w, a, p);
            Sound(exec, s0, shipped, v.db) && ProcOk(exec, shipped, v, a.pid)
            && w.db.applied <= v.db.applied && (w.db.table ==> v.db.table)
  {
    var p := ProcOf(w, a.pid);
    var m := shipped[p.next];
    assert ProcOk(exec, shipped, w, a.pid);
    if a.Run? && p.done < |m.statements| && !p.inserted {
      var st := m.statements;
      assert st[..p.done + 1][..p.done] == st[..p.done];
      assert st[..p.done + 1][p.done] == st[p.done];
    } else if a.Commit? && p.inserted {
      assert m.statements[..|m.statements|] == m.statements;
      CommitOk(exec, s0, shipped, w, p);
    }
  }

  /** A commit makes the applied prefix one longer. */
  lemma CommitOk<S>(exec: Exec<S>, s0: S, shipped: seq<Migration>, w: World<S>, p: Proc<S>)
    requires Ascending(shipped) && Sound(exec, s0, shipped, w.db)
    requires p.InTx? && p.next < |shipped| && p.inserted && AllBefore(shipped, w.db.applied, p.next)
    requires shipped[p.next].version !in w.db.applied
    requires Apply(exec, w.db.schema, shipped[p.next].statements) == Some(p.work.schema)
    requires p.work.applied == w.db.applied + {shipped[p.next].version} && p.work.table == w.db.table
    ensures Sound(exec, s0, shipped, p.work)
  {
    var k: nat :| Prefix(exec, s0, shipped, w.db, k);
    VersionAt(shipped, k, p.next);
    if p.next > k {
      assert shipped[k].version in w.db.applied;
      VersionAt(shipped, k, k);
    }
    PrefixSnoc(exec, s0, shipped, w.db, k, p.work.schema);
    assert p.work == w.db.(schema := p.work.schema, applied := w.db.applied + {shipped[k].version});
    assert Prefix(exec, s0, shipped, p.work, k + 1);
  }

  /** The process that steps knows what is committed after its step. */
  lemma ActorStep<S>(exec: Exec<S>, s0: S, shipped: seq<Migration>, w: World<S>, a: Action)
    requires Ascending(shipped) && Invariant(exec, s0, shipped, w)
    ensures var v := Step(exec, shipped, w, a);
            Sound(exec, s0, shipped, v.db) && ProcOk(exec, shipped, v, a.pid)
            && w.db.applied <= v.db.applied && (w.db.table ==> v.db.table)
  {
    var v := Step(exec, shipped, w, a);
    var p := ProcOf(w, a.pid);
    assert ProcOk(exec, shipped, w, a.pid);
    if p.InTx? && !a.Crash? && !a.Fail? {
      InTxStepOk(exec, s0, shipped, w, a);
    } else {
      SameSchema(exec, s0, shipped, w, v);
    }
    hide Fold, InTxStep, Prefix, Versions, Sound;
  }

  /** It touches no other process, and nothing committed while another one's transaction is open. */
  lemma OtherStep<S>(exec: Exec<S>, shipped: seq<Migration>, w: World<S>, a: Action, pid: nat)
    requires pid != a.pid && ProcOk(exec, shipped, w, a.pid) && ProcOk(exec, shipped, w, pid)
    ensures var v := Step(exec, shipped, w, a);
            ProcOf(v, pid) == ProcOf(w, pid) && (ProcOf(w, pid).InTx? ==> v.db == w.db && v.writer == w.writer)
  {
    hide Apply, AllBefore;
  }

  lemma StepKeeps<S>(exec: Exec<S>, s0: S, shipped: seq<Migration>, w: World<S>, a: Action)
    requires Ascending(shipped) && Invariant(exec, s0, shipped, w)
    ensures Invariant(exec, s0, shipped, Step(exec, shipped, w, a))
  {
    var v := Step(exec, shipped, w, a);
    ActorStep(exec, s0, shipped, w, a);
    hide Step, ProcOk, ProcOf, Sound;
    forall pid: nat ensures ProcOk(exec, shipped, v, pid) {
      if pid != a.pid {
        assert ProcOk(exec, shipped, w, pid) && ProcOk(exec, shipped, w, a.pid);
        OtherStep(exec, shipped, w, a, pid);
        OthersOk(exec, shipped, w, v, pid);
      }
    }
  }

  lemma SameSchema<S>(exec: Exec<S>, s0: S, shipped: seq<Migration>, w: World<S>, v: World<S>)
    requires Sound(exec, s0, shipped, w.db)
    ensures v.db.schema == w.db.schema && v.db.applied == w.db.applied ==> Sound(exec, s0, shipped, v.db)
  {
    var k: nat :| Prefix(exec, s0, shipped, w.db, k);
    if v.db.schema == w.db.schema && v.db.applied == w.db.applied {
      assert Prefix(exec, s0, shipped, v.db, k);
    }
  }

  /** A file nobody is migrating. */
  function Quiet<S>(db: Db<S>): World<S> { World(db, map[], None) }

  /** Crash safety: from any applied prefix, however any processes' steps, errors and crashes interleave,
      the committed schema is the in-order result of exactly the versions recorded, and those are a prefix
      of the shipped list. */
  lemma {:induction false} CrashSafe<S>(exec: Exec<S>, s0: S, shipped: seq<Migration>,
                                  w: World<S>, actions: seq<Action>)
    requires Ascending(shipped) && Invariant(exec, s0, shipped, w)
    ensures Invariant(exec, s0, shipped, Steps(exec, shipped, w, actions))
    ensures Sound(exec, s0, shipped, Steps(exec, shipped, w, actions).db)
    decreases |actions|
  {
    if actions != [] {
      StepKeeps(exec, s0, shipped, w, actions[0]);
      CrashSafe(exec, s0, shipped, Step(exec, shipped, w, actions[0]), actions[1..]);
    }
  }

  lemma QuietInvariant<S>(exec: Exec<S>, s0: S, shipped: seq<Migration>, db: Db<S>)
    requires Sound(exec, s0, shipped, db)
    ensures Invariant(exec, s0, shipped, Quiet(db))
  {}

  predicate AllApplied<S>(shipped: seq<Migration>, db: Db<S>) {
    forall m | m in shipped :: m.version in db.applied
  }

  /** A completed migrate has applied everything. */
  lemma FinishedMeansAll<S>(exec: Exec<S>, s0: S, shipped: seq<Migration>, w: World<S>, pid: nat)
    requires Invariant(exec, s0, shipped, w) && ProcOf(w, pid).Finished?
    ensures AllApplied(shipped, w.db)
  {
    assert ProcOk(exec, shipped, w, pid);
  }

  /** Started by any number of processes on a file with an applied prefix, migrations keep one committed, come
      what may, and any process that finishes has seen all of them applied. */
  lemma SafeFromStart<S>(exec: Exec<S>, s0: S, shipped: seq<Migration>, db: Db<S>, actions: seq<Action>, pid: nat)
    requires Ascending(shipped) && Sound(exec, s0, shipped, db)
    ensures var w := Steps(exec, shipped, Quiet(db), actions);
            Sound(exec, s0, shipped, w.db) && (ProcOf(w, pid).Finished? ==> AllApplied(shipped, w.db))
  {
    QuietInvariant(exec, s0, shipped, db);
    CrashSafe(exec, s0, shipped, Quiet(db), actions);
    hide Sound, Invariant, Steps;
    if ProcOf(Steps(exec, shipped, Quiet(db), actions), pid).Finished? {
      FinishedMeansAll(exec, s0, shipped, Steps(exec, shipped, Quiet(db), actions), pid);
    }
  }

  lemma SettledStep<S>(exec: Exec<S>, s0: S, shipped: seq<Migration>, w: World<S>, a: Action)
    requires Ascending(shipped) && Invariant(exec, s0, shipped, w) && AllApplied(shipped, w.db)
    ensures var v := Step(exec, shipped, w, a);
            v.db.schema == w.db.schema && v.db.applied == w.db.applied && AllApplied(shipped, v.db)
  {
    assert ProcOk(exec, shipped, w, a.pid);
    var p := ProcOf(w, a.pid);
    assert p.InTx? ==> shipped[p.next] in shipped;
    hide Apply;
  }

  /** Once everything is applied, no number of further calls changes the schema or the record. */
  lemma {:induction false} SettledForever<S>(exec: Exec<S>, s0: S, shipped: seq<Migration>,
                                  w: World<S>, actions: seq<Action>)
    requires Ascending(shipped) && Invariant(exec, s0, shipped, w) && AllApplied(shipped, w.db)
    ensures var v := Steps(exec, shipped, w, actions);
            v.db.schema == w.db.schema && v.db.applied == w.db.applied
    decreases |actions|
  {
    if actions != [] {
      var a := actions[0];
      StepKeeps(exec, s0, shipped, w, a);
      SettledStep(exec, s0, shipped, w, a);
      hide Invariant, AllApplied, Step;
      SettledForever(exec, s0, shipped, Step(exec, shipped, w, a), actions[1..]);
    }
  }

  // ---------------------------------------------------------------- one process, undisturbed

  /** The schema once the migrations from the `i`-th on that are not in `seen` are applied in order. */
  function Upgraded<S>(exec: Exec<S>, s: S, shipped: seq<Migration>, seen: set<nat>, i: nat): Option<S>
    decreases |shipped| - i
  {
    if i >= |shipped| then Some(s)
    else if shipped[i].version in seen then Upgraded(exec, s, shipped, seen, i + 1)
    else
      match Apply(exec, s, shipped[i].statements)
      case None => None
      case Some(t) => Upgraded(exec, t, shipped, seen, i + 1)
  }

  function Runs(pid: nat, n: nat): seq<Action> {
    if n == 0 then [] else [Run(pid)] + Runs(pid, n - 1)
  }

  /** One migration's transaction. */
  function Transaction(pid: nat, m: Migration): seq<Action> {
    [Begin(pid)] + (Runs(pid, |m.statements|) + [Insert(pid), Commit(pid)])
  }

  /** What a `migrate()` does from the `i`-th migration on. */
  function Rest(pid: nat, shipped: seq<Migration>, seen: set<nat>, i: nat): seq<Action>
    decreases |shipped| - i
  {
    if i >= |shipped| then [Skip(pid)]
    else if shipped[i].version in seen then [Skip(pid)] + Rest(pid, shipped, seen, i + 1)
    else Transaction(pid, shipped[i]) + Rest(pid, shipped, seen, i + 1)
  }

  lemma {:induction false} StepsConcat<S>(exec: Exec<S>, shipped: seq<Migration>, w: World<S>,
                                    a: seq<Action>, b: seq<Action>)
    ensures Steps(exec, shipped, w, a + b) == Steps(exec, shipped, Steps(exec, shipped, w, a), b)
    decreases |a|
  {
    if a == [] {
      assert a + b == b;
    } else {
      assert (a + b)[0] == a[0] && (a + b)[1..] == a[1..] + b;
      StepsConcat(exec, shipped, Step(exec, shipped, w, a[0]), a[1..], b);
    }
  }

  /** A call that has raised does nothing more. */
  lemma {:induction false} RaisedIdles<S>(exec: Exec<S>, shipped: seq<Migration>, w: World<S>, pid: nat,
                                    actions: seq<Action>)
    requires ProcOf(w, pid).Raised?
    requires forall a | a in actions :: a.pid == pid && !a.Open? && !a.Fail? && !a.Crash?
    ensures Steps(exec, shipped, w, actions) == w
    decreases |actions|
  {
    if actions != [] {
      assert actions[0] in actions && Step(exec, shipped, w, actions[0]) == w;
      RaisedIdles(exec, shipped, w, pid, actions[1..]);
    }
  }

  lemma {:induction false} RunsAre(pid: nat, n: nat)
    ensures forall a | a in Runs(pid, n) :: a == Run(pid)
  {
    if n > 0 { RunsAre(pid, n - 1); }
  }

  lemma {:induction false} RestIs(pid: nat, shipped: seq<Migration>, seen: set<nat>, i: nat)
    ensures forall a | a in Rest(pid, shipped, seen, i) :: a.pid == pid && !a.Open? && !a.Fail? && !a.Crash?
    decreases |shipped| - i
  {
    if i < |shipped| {
      RestIs(pid, shipped, seen, i + 1);
      RunsAre(pid, |shipped[i].statements|);
    }
  }

  /** The statements of a transaction: all applied to its copy, or it raises and lets the lock go. */
  lemma {:induction false} StatementsRun<S>(exec: Exec<S>, shipped: seq<Migration>, w: World<S>, pid: nat, s: S)
    requires pid in w.procs && w.procs[pid].InTx? && w.writer == Some(pid)
    requires var p := w.procs[pid];
             p.next < |shipped| && p.done <= |shipped[p.next].statements| && !p.inserted
             && Apply(exec, s, shipped[p.next].statements[..p.done]) == Some(p.work.schema)
    ensures var p := w.procs[pid];
            var st := shipped[p.next].statements;
            Steps(exec, shipped, w, Runs(pid, |st| - p.done)) ==
            match Apply(exec, s, st)
            case None => World(w.db, w.procs[pid := Raised], None)
            case Some(t) => World(w.db, w.procs[pid := p.(work := p.work.(schema := t), done := |st|)], Some(pid))
    decreases var p := w.procs[pid]; |shipped[p.next].statements| - p.done
  {
    var p := w.procs[pid];
    var st := shipped[p.next].statements;
    if p.done == |st| {
      assert st[..p.done] == st;
      assert w.procs == w.procs[pid := p.(work := p.work.(schema := p.work.schema), done := |st|)];
    } else {
      var v := Step(exec, shipped, w, Run(pid));
      assert st[..p.done + 1][..p.done] == st[..p.done];
      assert Apply(exec, s, st[..p.done + 1]) == exec(p.work.schema, st[p.done]);
      var rest := Runs(pid, |st| - p.done - 1);
      assert Runs(pid, |st| - p.done) == [Run(pid)] + rest;
      FirstStep(exec, shipped, w, Run(pid), rest);
      StatementStep(exec, shipped, w, pid);
      hide Steps, Step, Apply, Runs;
      match exec(p.work.schema, st[p.done]) {
        case None =>
          ApplyFails(exec, s, st, p.done + 1);
          RunsAre(pid, |st| - p.done - 1);
          RaisedIdles(exec, shipped, v, pid, rest);
        case Some(t) =>
          StatementsRun(exec, shipped, v, pid, s);
          if Apply(exec, s, st).Some? {
            var u := Apply(exec, s, st).value;
            MapTwice(w.procs, pid, v.procs[pid], p.(work := p.work.(schema := u), done := |st|));
          } else {
            MapTwice(w.procs, pid, v.procs[pid], Raised);
          }
      }
    }
  }

  lemma StatementStep<S>(exec: Exec<S>, shipped: seq<Migration>, w: World<S>, pid: nat)
    requires pid in w.procs && w.procs[pid].InTx? && w.writer == Some(pid)
    requires var p := w.procs[pid];
             p.next < |shipped| && p.done < |shipped[p.next].statements| && !p.inserted
    ensures var p := w.procs[pid];
            Step(exec, shipped, w, Run(pid)) ==
            match exec(p.work.schema, shipped[p.next].statements[p.done])
            case None => World(w.db, w.procs[pid := Raised], None)
            case Some(t) => Put(w, pid, p.(work := p.work.(schema := t), done := p.done + 1))
  {}

  /** One pending migration with the write lock free: it is committed whole, or the call raises and nothing is. */
  lemma TransactionRuns<S>(exec: Exec<S>, shipped: seq<Migration>, w: World<S>, pid: nat)
    requires pid in w.procs && w.procs[pid].Ready? && w.writer.None?
    requires var p := w.procs[pid];
             p.next < |shipped| && shipped[p.next].version !in p.seen + w.db.applied
    ensures var p := w.procs[pid];
            var m := shipped[p.next];
            Steps(exec, shipped, w, Transaction(pid, m)) ==
            match Apply(exec, w.db.schema, m.statements)
            case None => World(w.db, w.procs[pid := Raised], None)
            case Some(t) => World(Db(t, w.db.table, w.db.applied + {m.version}),
                                  w.procs[pid := Ready(p.seen, p.next + 1)], None)
  {
    var p := w.procs[pid];
    var m := shipped[p.next];
    var q := InTx(p.seen, p.next, w.db, 0, false);
    var runs, end := Runs(pid, |m.statements|), [Insert(pid), Commit(pid)];
    assert Step(exec, shipped, w, Begin(pid)) == World(w.db, w.procs[pid := q], Some(pid));
    FirstStep(exec, shipped, w, Begin(pid), runs + end);
    hide Step, Steps, Runs, Apply;
    BegunRuns(exec, shipped, World(w.db, w.procs[pid := q], Some(pid)), pid);
    MapTwice(w.procs, pid, q, Raised);
    MapTwice(w.procs, pid, q, Ready(p.seen, p.next + 1));
  }

  lemma BegunRuns<S>(exec: Exec<S>, shipped: seq<Migration>, w: World<S>, pid: nat)
    requires pid in w.procs && w.procs[pid].InTx? && w.writer == Some(pid)
    requires var p := w.procs[pid];
             p.next < |shipped| && p.work == w.db && p.done == 0 && !p.inserted
             && shipped[p.next].version !in w.db.applied
    ensures var p := w.procs[pid];
            var m := shipped[p.next];
            Steps(exec, shipped, w, Runs(pid, |m.statements|) + [Insert(pid), Commit(pid)]) ==
            match Apply(exec, w.db.schema, m.statements)
            case None => World(w.db, w.procs[pid := Raised], None)
            case Some(t) => World(Db(t, w.db.table, w.db.applied + {m.version}),
                                  w.procs[pid := Ready(p.seen, p.next + 1)], None)
  {
    var p := w.procs[pid];
    var m := shipped[p.next];
    var runs, end := Runs(pid, |m.statements|), [Insert(pid), Commit(pid)];
    StepsConcat(exec, shipped, w, runs, end);
    assert m.statements[..0] == [];
    assert Apply(exec, w.db.schema, []) == Some(w.db.schema);
    hide Step, Apply, Steps;
    StatementsRun(exec, shipped, w, pid, w.db.schema);
    hide Runs;
    var u := Steps(exec, shipped, w, runs);
    if Apply(exec, w.db.schema, m.statements).None? {
      RaisedIdles(exec, shipped, u, pid, end);
    } else {
      CommitRuns(exec, shipped, u, pid);
      MapTwice(w.procs, pid, u.procs[pid], Ready(p.seen, p.next + 1));
    }
  }

  lemma CommitRuns<S>(exec: Exec<S>, shipped: seq<Migration>, u: World<S>, pid: nat)
    requires pid in u.procs && u.procs[pid].InTx? && u.writer == Some(pid)
    requires var p := u.procs[pid];
             p.next < |shipped| && p.done >= |shipped[p.next].statements| && !p.inserted
             && shipped[p.next].version !in p.work.applied
    ensures var p := u.procs[pid];
            Steps(exec, shipped, u, [Insert(pid), Commit(pid)]) ==
            World(p.work.(applied := p.work.applied + {shipped[p.next].version}),
                  u.procs[pid := Ready(p.seen, p.next + 1)], None)
  {
    var p := u.procs[pid];
    var x := Step(exec, shipped, u, Insert(pid));
    var y := Step(exec, shipped, x, Commit(pid));
    assert y.procs == u.procs[pid := Ready(p.seen, p.next + 1)];
    FirstStep(exec, shipped, u, Insert(pid), [Commit(pid)]);
    FirstStep(exec, shipped, x, Commit(pid), []);
    NoSteps(exec, shipped, y);
    assert [Insert(pid)] + [Commit(pid)] == [Insert(pid), Commit(pid)] && [Commit(pid)] + [] == [Commit(pid)];
  }

  lemma FirstStep<S>(exec: Exec<S>, shipped: seq<Migration>, w: World<S>, a: Action, actions: seq<Action>)
    ensures Steps(exec, shipped, w, [a] + actions) == Steps(exec, shipped, Step(exec, shipped, w, a), actions)
  {
    assert ([a] + actions)[1..] == actions;
  }

  lemma NoSteps<S>(exec: Exec<S>, shipped: seq<Migration>, w: World<S>)
    ensures Steps(exec, shipped, w, []) == w
  {}

  /** Left alone from the `i`-th migration on, a call finishes exactly when every pending migration applies on
      top of the ones before it, and leaves their result and their versions; otherwise it raises. */
  lemma {:induction false} RestMigrates<S>(exec: Exec<S>, shipped: seq<Migration>, w: World<S>, pid: nat)
    requires Ascending(shipped) && pid in w.procs && w.procs[pid].Ready? && w.writer.None?
    requires var p := w.procs[pid];
             p.next <= |shipped|
             && forall j | p.next <= j < |shipped| ::
                  shipped[j].version in w.db.applied <==> shipped[j].version in p.seen
    ensures var p := w.procs[pid];
            var v := Steps(exec, shipped, w, Rest(pid, shipped, p.seen, p.next));
            match Upgraded(exec, w.db.schema, shipped, p.seen, p.next)
            case None => ProcOf(v, pid).Raised? && v.writer.None?
            case Some(t) =>
              v == World(Db(t, w.db.table, w.db.applied + Versions(shipped[p.next..])), w.procs[pid := Finished], None)
    decreases |shipped| - w.procs[pid].next
  {
    var p := w.procs[pid];
    var i, rest := p.next, Rest(pid, shipped, p.seen, p.next + 1);
    if i == |shipped| {
      FirstStep(exec, shipped, w, Skip(pid), []);
      assert [Skip(pid)] + [] == [Skip(pid)];
      return;
    }
    var m := shipped[i];
    RestUnfolds(exec, w.db.schema, shipped, p.seen, i, pid);
    VersionsFrom(shipped, w.db.applied, i);
    if m.version in p.seen {
      var v := Step(exec, shipped, w, Skip(pid));
      assert v == Put(w, pid, Ready(p.seen, i + 1));
      FirstStep(exec, shipped, w, Skip(pid), rest);
      hide Upgraded, Rest, Steps, Versions, Step;
      RestMigrates(exec, shipped, v, pid);
      MapTwice(w.procs, pid, v.procs[pid], Finished);
    } else {
      TransactionRuns(exec, shipped, w, pid);
      StepsConcat(exec, shipped, w, Transaction(pid, m), rest);
      var v := Steps(exec, shipped, w, Transaction(pid, m));
      RestIs(pid, shipped, p.seen, i + 1);
      hide Upgraded, Rest, Steps, Versions, Step, Transaction, Apply;
      if Apply(exec, w.db.schema, m.statements).None? {
        RaisedIdles(exec, shipped, v, pid, rest);
      } else {
        RestMigrates(exec, shipped, v, pid);
        MapTwice(w.procs, pid, v.procs[pid], Finished);
      }
    }
  }

  lemma RestUnfolds<S>(exec: Exec<S>, s: S, shipped: seq<Migration>, seen: set<nat>, i: nat, pid: nat)
    requires i < |shipped|
    ensures Rest(pid, shipped, seen, i) ==
            (if shipped[i].version in seen then [Skip(pid)] else Transaction(pid, shipped[i]))
            + Rest(pid, shipped, seen, i + 1)
    ensures Upgraded(exec, s, shipped, seen, i) ==
            var t := if shipped[i].version in seen then Some(s) else Apply(exec, s, shipped[i].statements);
            if t.None? then None else Upgraded(exec, t.value, shipped, seen, i + 1)
  {}

  lemma VersionsFrom(shipped: seq<Migration>, applied: set<nat>, i: nat)
    requires i < |shipped|
    ensures applied + Versions(shipped[i..]) == applied + {shipped[i].version} + Versions(shipped[i + 1..])
    ensures shipped[i].version in applied ==> applied + Versions(shipped[i..]) == applied + Versions(shipped[i + 1..])
  {
    assert shipped[i..] == [shipped[i]] + shipped[i + 1..];
    VersionsCons(shipped[i], shipped[i + 1..]);
  }

  lemma VersionsCons(m: Migration, list: seq<Migration>)
    ensures Versions([m] + list) == {m.version} + Versions(list)
  {
    assert forall x :: x in [m] + list <==> x == m || x in list;
  }

  lemma MapTwice<K, V>(a: map<K, V>, k: K, x: V, y: V)
    ensures a[k := x][k := y] == a[k := y]
  {}

  /** A whole `migrate()` with nobody else writing: it finishes exactly when every migration not yet recorded
      applies on top of the ones before it, and then schema and record are theirs; otherwise it raises. */
  lemma AloneMigrates<S>(exec: Exec<S>, shipped: seq<Migration>, w: World<S>, pid: nat)
    requires Ascending(shipped) && w.writer.None? && !ProcOf(w, pid).InTx?
    ensures var v := Steps(exec, shipped, w, [Open(pid)] + Rest(pid, shipped, w.db.applied, 0));
            match Upgraded(exec, w.db.schema, shipped, w.db.applied, 0)
            case None => ProcOf(v, pid).Raised? && v.writer.None?
            case Some(t) => v == World(Db(t, true, w.db.applied + Versions(shipped)), w.procs[pid := Finished], None)
  {
    var v := Step(exec, shipped, w, Open(pid));
    FirstStep(exec, shipped, w, Open(pid), Rest(pid, shipped, w.db.applied, 0));
    RestMigrates(exec, shipped, v, pid);
    assert shipped[0..] == shipped;
    MapTwice(w.procs, pid, v.procs[pid], Finished);
  }

  lemma {:induction false} RestBlocked<S>(exec: Exec<S>, shipped: seq<Migration>, w: World<S>, pid: nat)
    requires pid in w.procs && w.procs[pid].Ready? && w.writer.Some? && w.procs[pid].next <= |shipped|
    ensures var p := w.procs[pid];
            var q := if forall j | p.next <= j < |shipped| :: shipped[j].version in p.seen then Finished else Raised;
            Steps(exec, shipped, w, Rest(pid, shipped, p.seen, p.next)) == w.(procs := w.procs[pid := q])
    decreases |shipped| - w.procs[pid].next
  {
    var p := w.procs[pid];
    var i, rest := p.next, Rest(pid, shipped, p.seen, p.next + 1);
    RestIs(pid, shipped, p.seen, i);
    if i == |shipped| {
      FirstStep(exec, shipped, w, Skip(pid), []);
      assert [Skip(pid)] + [] == [Skip(pid)];
    } else if shipped[i].version in p.seen {
      var v := Step(exec, shipped, w, Skip(pid));
      FirstStep(exec, shipped, w, Skip(pid), rest);
      RestBlocked(exec, shipped, v, pid);
      MapTwice(w.procs, pid, v.procs[pid], Finished);
      MapTwice(w.procs, pid, v.procs[pid], Raised);
    } else {
      var actions := Rest(pid, shipped, p.seen, i);
      assert actions == [Begin(pid)] + actions[1..];
      FirstStep(exec, shipped, w, Begin(pid), actions[1..]);
      RaisedIdles(exec, shipped, Step(exec, shipped, w, Begin(pid)), pid, actions[1..]);
    }
  }

  /** A whole `migrate()` while another process writes changes nothing: it finishes exactly when the table is there
      and every migration is recorded, and raises otherwise. */
  lemma BlockedMigrates<S>(exec: Exec<S>, shipped: seq<Migration>, w: World<S>, pid: nat)
    requires w.writer.Some? && !ProcOf(w, pid).InTx?
    ensures var v := Steps(exec, shipped, w, [Open(pid)] + Rest(pid, shipped, w.db.applied, 0));
            v == w.(procs := w.procs[pid := if w.db.table && AllApplied(shipped, w.db) then Finished else Raised])
  {
    var v := Step(exec, shipped, w, Open(pid));
    var rest := Rest(pid, shipped, w.db.applied, 0);
    FirstStep(exec, shipped, w, Open(pid), rest);
    if w.db.table {
      RestBlocked(exec, shipped, v, pid);
      MapTwice(w.procs, pid, v.procs[pid], Finished);
      MapTwice(w.procs, pid, v.procs[pid], Raised);
    } else {
      RestIs(pid, shipped, w.db.applied, 0);
      RaisedIdles(exec, shipped, v, pid, rest);
    }
  }

  // ---------------------------------------------------------------- one process, imperatively

  datatype Outcome = Done | Failed | Crashed

  class Database<S> {
    var db: Db<S>

    constructor (found: Db<S>)
      ensures db == found
    {
      db := found;
    }

    /** `migrate()` with a crash after `budget` actions. Whatever happens, an applied prefix is committed and
        none is lost. Success means all of them, failure that a pending one does not apply, and a crash that the
        budget was short; a file already up to date keeps its schema and record. */
    method Migrate(exec: Exec<S>, ghost s0: S, shipped: seq<Migration>, budget: nat) returns (outcome: Outcome)
      requires Ascending(shipped) && Sound(exec, s0, shipped, db)
      modifies this
      ensures Sound(exec, s0, shipped, db)
      ensures old(db).applied <= db.applied
      ensures outcome == Done ==> AllApplied(shipped, db) && db.table
      ensures outcome == Failed ==>
                exists m :: m in shipped && m.version !in old(db).applied && Apply(exec, db.schema, m.statements).None?
      ensures outcome == Crashed ==> budget < 1 + Cost(shipped, old(db).applied)
      ensures AllApplied(shipped, old(db)) ==> db.schema == old(db).schema && db.applied == old(db).applied
    {
      if budget == 0 {
        return Crashed;
      }
      var left: nat := budget - 1;
      OpenTable(exec, s0, shipped, db);
      db := db.(table := true);
      var applied := db.applied;
      PendingStart(shipped, applied);
      hide Apply, Fold, Versions, Prefix, Sound, Pending, Ascending, AllApplied, Cost;
      CostNone(shipped, applied);
      for i := 0 to |shipped|
        invariant db.table && Sound(exec, s0, shipped, db)
        invariant Pending(shipped, db.applied, applied, i)
        invariant applied == old(db).applied
        invariant AllApplied(shipped, old(db)) ==> db.schema == old(db).schema && db.applied == old(db).applied
        invariant left == budget - 1 - Cost(shipped[..i], applied)
      {
        var m := shipped[i];
        CostStep(shipped, applied, i);
        if m.version in applied {
          PendingSkip(shipped, db.applied, applied, i);
          continue;
        }
        ghost var before := db;
        outcome, left := MigrateOne(exec, m, left);
        if outcome != Done {
          PendingGrows(shipped, db.applied, applied, i);
          return;
        }
        NextSound(exec, s0, shipped, before, db, applied, i);
        assert AllApplied(shipped, old(db)) ==> m.version in applied by { NotAll(shipped, old(db), i); }
      }
      PendingEnd(shipped, db, applied);
      return Done;
    }

    /** One migration's transaction: commits its statements and its row together, or nothing. */
    method MigrateOne(exec: Exec<S>, m: Migration, budget: nat) returns (outcome: Outcome, left: nat)
      modifies this
      ensures outcome != Done ==> db == old(db)
      ensures outcome == Failed ==> Apply(exec, old(db).schema, m.statements).None?
      ensures outcome == Crashed ==> left == 0 && budget <= |m.statements|
      ensures outcome == Done ==> left == budget - |m.statements| - 1
      ensures outcome == Done ==> Apply(exec, old(db).schema, m.statements) == Some(db.schema)
                                  && db.table == old(db).table && db.applied == old(db).applied + {m.version}
    {
      hide Apply;
      var work: Option<S>;
      work, left := RunStatements(exec, db.schema, m.statements, budget);
      if work.None? || left == 0 {
        return if left == 0 then Crashed else Failed, left;
      }
      db := db.(schema := work.value, applied := db.applied + {m.version});
      return Done, left - 1;
    }

    /** The statements of one transaction, on its own copy; stops at an error or when the budget is spent. */
    static method RunStatements(exec: Exec<S>, s: S, statements: seq<string>, budget: nat)
      returns (work: Option<S>, left: nat)
      ensures work.Some? ==> work == Apply(exec, s, statements)
      ensures work.None? ==> left == 0 || Apply(exec, s, statements).None?
      ensures work.Some? ==> left == budget - |statements|
      ensures work.None? && left == 0 ==> budget <= |statements|
    {
      work, left := Some(s), budget;
      for j := 0 to |statements|
        invariant work.Some? && work == Apply(exec, s, statements[..j]) && left == budget - j
      {
        if left == 0 {
          return None, 0;
        }
        left := left - 1;
        assert statements[..j + 1][..j] == statements[..j];
        work := exec(work.value, statements[j]);
        if work.None? {
          ApplyFails(exec, s, statements, j + 1);
          return None, left;
        }
      }
      assert statements[..|statements|] == statements;
    }
  }

  /** Actions the pending ones take: their statements and a commit each. */
  function Cost(shipped: seq<Migration>, applied: set<nat>): nat {
    if shipped == [] then 0
    else
      var m := shipped[|shipped| - 1];
      Cost(shipped[..|shipped| - 1], applied) + if m.version in applied then 0 else |m.statements| + 1
  }

  lemma CostNone(shipped: seq<Migration>, applied: set<nat>)
    ensures Cost(shipped[..0], applied) == 0
  {}

  lemma {:induction false} CostStep(shipped: seq<Migration>, applied: set<nat>, i: nat)
    requires i < |shipped|
    ensures Cost(shipped[..i + 1], applied) ==
            Cost(shipped[..i], applied) + if shipped[i].version in applied then 0 else |shipped[i].statements| + 1
    ensures Cost(shipped[..i + 1], applied) <= Cost(shipped, applied)
    decreases |shipped| - i
  {
    assert shipped[..i + 1][..i] == shipped[..i];
    if i + 1 < |shipped| {
      CostStep(shipped, applied, i + 1);
    } else {
      assert shipped[..i + 1] == shipped;
    }
  }

  lemma {:induction false} ApplyFails<S>(exec: Exec<S>, s: S, statements: seq<string>, j: nat)
    requires j <= |statements| && Apply(exec, s, statements[..j]).None?
    ensures Apply(exec, s, statements).None?
    decreases |statements| - j
  {
    if j < |statements| {
      assert statements[..j + 1][..j] == statements[..j];
      ApplyFails(exec, s, statements, j + 1);
    } else {
      assert statements[..j] == statements;
    }
  }

  /** Before migration `i`: everything earlier is applied, and later ones only if they were at the start. */
  predicate Pending(shipped: seq<Migration>, now: set<nat>, start: set<nat>, i: nat) {
    AllBefore(shipped, now, i) && start <= now
    && forall j | i <= j < |shipped| :: shipped[j].version in now ==> shipped[j].version in start
  }

  lemma OpenTable<S>(exec: Exec<S>, s0: S, shipped: seq<Migration>, db: Db<S>)
    requires Sound(exec, s0, shipped, db)
    ensures Sound(exec, s0, shipped, db.(table := true))
  {
    var k: nat :| Prefix(exec, s0, shipped, db, k);
    assert Prefix(exec, s0, shipped, db.(table := true), k);
  }

  lemma PendingStart(shipped: seq<Migration>, applied: set<nat>)
    ensures Pending(shipped, applied, applied, 0)
  {}

  lemma PendingGrows(shipped: seq<Migration>, now: set<nat>, start: set<nat>, i: nat)
    requires Pending(shipped, now, start, i)
    ensures start <= now
  {}

  lemma PendingSkip(shipped: seq<Migration>, now: set<nat>, start: set<nat>, i: nat)
    requires Pending(shipped, now, start, i) && i < |shipped| && shipped[i].version in start
    ensures Pending(shipped, now, start, i + 1)
  {}

  lemma PendingEnd<S>(shipped: seq<Migration>, db: Db<S>, start: set<nat>)
    requires Pending(shipped, db.applied, start, |shipped|)
    ensures AllApplied(shipped, db) && start <= db.applied
  {}

  lemma NotAll<S>(shipped: seq<Migration>, db: Db<S>, i: nat)
    requires i < |shipped|
    ensures AllApplied(shipped, db) ==> shipped[i].version in db.applied
  {}

  /** The next migration not applied at the start is the one the prefix ends before. */
  lemma NextSound<S>(exec: Exec<S>, s0: S, shipped: seq<Migration>, db: Db<S>, after: Db<S>, start: set<nat>, i: nat)
    requires Ascending(shipped) && i < |shipped| && Sound(exec, s0, shipped, db)
    requires Pending(shipped, db.applied, start, i) && shipped[i].version !in start
    requires Apply(exec, db.schema, shipped[i].statements) == Some(after.schema)
    requires after.table == db.table && after.applied == db.applied + {shipped[i].version}
    ensures Sound(exec, s0, shipped, after) && Pending(shipped, after.applied, start, i + 1)
  {
    var k: nat :| Prefix(exec, s0, shipped, db, k);
    PendingNext(shipped, db.applied, start, i);
    VersionAt(shipped, k, i);
    if k < i { VersionAt(shipped, k, k); }
    assert k == i;
    PrefixSnoc(exec, s0, shipped, db, k, after.schema);
    assert after == db.(schema := after.schema, applied := db.applied + {shipped[k].version});
    assert Prefix(exec, s0, shipped, after, k + 1);
  }

  lemma PendingNext(shipped: seq<Migration>, now: set<nat>, start: set<nat>, i: nat)
    requires Ascending(shipped) && i < |shipped| && Pending(shipped, now, start, i)
    ensures Pending(shipped, now + {shipped[i].version}, start, i + 1)
  {}
}
