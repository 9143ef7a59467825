/** The key snapshot the gateway replaces and the watchdog reads through a cache keyed by
    the file's modification time. Replaces and the reader's stat and read interleave freely. */
module KeySnapshot {
  import opened Text
  import opened KeyTokens

  datatype KeyRecord = KeyRecord(
    id: string, name: string, scope: string, hash: string, expiresAt: Option<real>, revokedAt: Option<real>)

  predicate Over(expiresAt: Option<real>, now: real) {
    expiresAt.Some? && now >= expiresAt.value
  }

  predicate Active(r: KeyRecord, now: real) {
    r.revokedAt.None? && !Over(r.expiresAt, now)
  }

  /** A record as the snapshot shows it: no secret, no revocation. */
  datatype Row = Row(id: string, name: string, scope: string, hash: string, expiresAt: Option<real>)

  datatype Payload = Payload(rows: seq<Row>, revokedLegacy: set<string>)

  function Rows(records: seq<KeyRecord>, now: real): seq<Row> {
    if records == [] then []
    else
      var r := records[0];
      (if Active(r, now) then [Row(r.id, r.name, r.scope, r.hash, r.expiresAt)] else []) + Rows(records[1..], now)
  }

  /** The table the reader builds; a later row of the same hash wins. */
  function ByHash(rows: seq<Row>): map<string, Row> {
    if rows == [] then map[] else ByHash(rows[..|rows| - 1])[rows[|rows| - 1].hash := rows[|rows| - 1]]
  }

  /** What the file holds: a payload, or something that does not parse. */
  datatype Content = Good(payload: Payload) | Broken

  datatype File = File(mtime: nat, content: Content)

  datatype Cache = Cache(mtime: Option<nat>, table: map<string, Row>, legacy: set<string>)

  const EMPTY := Cache(None, map[], {})

  // ---------------------------------------------------------------- the refresh, in its two steps

  /** After `stat`: either the refresh is over, or the file must be read under this mtime. */
  function AfterStat(c: Cache, stat: Option<nat>): (Cache, Option<nat>) {
    match stat
    case None => (EMPTY, None)
    case Some(m) => if c.mtime == Some(m) then (c, None) else (c, Some(m))
  }

  /** After `read_text`, which may find the file gone, unreadable or broken. */
  function AfterRead(m: nat, read: Option<Content>): Cache {
    match read
    case Some(Good(p)) => Cache(Some(m), ByHash(p.rows), p.revokedLegacy)
    case _ => EMPTY
  }

  // ---------------------------------------------------------------- interleavings

  /** The file, every mtime it ever had, the reader's cache, and the mtime it is about to read under. */
  datatype World = World(file: Option<File>, used: set<nat>, cache: Cache, reading: Option<nat>)

  datatype Action = Replace(mtime: nat, content: Content) | Remove | Stat(ok: bool) | Read(ok: bool)

  function Step(w: World, a: Action): World {
    match a
    case Replace(m, content) => w.(file := Some(File(m, content)), used := w.used + {m})
    case Remove => w.(file := None)
    case Stat(ok) =>
      var (cache, reading) := AfterStat(w.cache, if ok && w.file.Some? then Some(w.file.value.mtime) else None);
      w.(cache := cache, reading := reading)
    case Read(ok) =>
      if w.reading.None? then w
      else
        var read := if ok && w.file.Some? then Some(w.file.value.content) else None;
        w.(cache := AfterRead(w.reading.value, read), reading := None)
  }

  function Steps(w: World, actions: seq<Action>): World
    decreases |actions|
  {
    if actions == [] then w else Steps(Step(w, actions[0]), actions[1..])
  }

  /** Every replace gives the file an mtime it never had. */
  predicate Fresh(w: World, actions: seq<Action>)
    decreases |actions|
  {
    actions == []
    || ((actions[0].Replace? ==> actions[0].mtime !in w.used) && Fresh(Step(w, actions[0]), actions[1..]))
  }

  function TableOf(c: Content): map<string, Row> {
    if c.Good? then ByHash(c.payload.rows) else map[]
  }

  function LegacyOf(c: Content): set<string> {
    if c.Good? then c.payload.revokedLegacy else {}
  }

  /** Whenever the cached mtime is the file's own, the cache holds the file's own table. */
  predicate Coherent(w: World) {
    w.file.Some? && w.cache.mtime == Some(w.file.value.mtime) ==>
      w.cache.table == TableOf(w.file.value.content) && w.cache.legacy == LegacyOf(w.file.value.content)
  }

  predicate Invariant(w: World) {
    && Coherent(w)
    && (w.file.Some? ==> w.file.value.mtime in w.used)
    && (w.cache.mtime.Some? ==> w.cache.mtime.value in w.used)
    && (w.reading.Some? ==> w.reading.value in w.used)
    && (w.cache.mtime.None? ==> w.cache.table == map[] && w.cache.legacy == {})
  }

  lemma StepKeeps(w: World, a: Action)
    requires Invariant(w) && (a.Replace? ==> a.mtime !in w.used)
    ensures Invariant(Step(w, a))
  {
    hide ByHash;
  }

  /** Coherence over every interleaving of the reader's steps with atomic replaces. */
  lemma {:induction false} AlwaysCoherent(w: World, actions: seq<Action>)
    requires Invariant(w) && Fresh(w, actions)
    ensures Invariant(Steps(w, actions)) && Coherent(Steps(w, actions))
    decreases |actions|
  {
    if actions != [] {
      StepKeeps(w, actions[0]);
      AlwaysCoherent(Step(w, actions[0]), actions[1..]);
    }
  }

  /** A file as found, if there is one, and a reader that has read nothing yet. */
  function Started(file: Option<File>): World {
    World(file, if file.Some? then {file.value.mtime} else {}, EMPTY, None)
  }

  /** From its start a reader stays coherent. */
  lemma CoherentFromStart(file: Option<File>, actions: seq<Action>)
    requires Fresh(Started(file), actions)
    ensures Invariant(Steps(Started(file), actions)) && Coherent(Steps(Started(file), actions))
  {
    AlwaysCoherent(Started(file), actions);
  }

  /** A refresh nothing interleaves with. */
  function Settle(w: World): World {
    Step(Step(w, Stat(true)), Action.Read(true))
  }

  /** A settled refresh leaves exactly the current file's table, whatever was cached or half-read before. */
  lemma SettledIsCurrent(w: World)
    requires Invariant(w)
    ensures var c := Settle(w).cache;
            c.table == (if w.file.Some? then TableOf(w.file.value.content) else map[])
            && c.legacy == (if w.file.Some? then LegacyOf(w.file.value.content) else {})
  {
    hide ByHash;
  }

  /** Only the file changes: nothing of the reader's. */
  predicate Publishes(actions: seq<Action>) {
    forall a | a in actions :: a.Replace? || a.Remove?
  }

  /** The file's table, or none without a file. */
  function Published(w: World): map<string, Row> {
    if w.file.Some? then TableOf(w.file.value.content) else map[]
  }

  lemma {:induction false} PublishingKeeps(w: World, actions: seq<Action>)
    requires Publishes(actions)
    ensures var v := Steps(w, actions); v.cache == w.cache && v.reading == w.reading
    decreases |actions|
  {
    if actions != [] {
      assert actions[0] in actions;
      PublishingKeeps(Step(w, actions[0]), actions[1..]);
    }
  }

  /** A refresh with these changes between its two steps, either of which may fail. */
  function Interrupted(w: World, statOk: bool, actions: seq<Action>, readOk: bool): World {
    Step(Steps(Step(w, Stat(statOk)), actions), Action.Read(readOk))
  }

  /** A refresh interrupted by replaces and removes leaves the table of the file at its stat, that of the file at
      its read, or none. */
  lemma InterruptedRefresh(w: World, statOk: bool, actions: seq<Action>, readOk: bool)
    requires Invariant(w) && Publishes(actions)
    ensures var between := Steps(Step(w, Stat(statOk)), actions);
            Interrupted(w, statOk, actions, readOk).cache.table in {Published(w), Published(between), map[]}
  {
    PublishingKeeps(Step(w, Stat(statOk)), actions);
    hide ByHash, Steps;
  }

  /** What a reused mtime costs: after a settled reader, the next replace is seen exactly when its mtime
      is a new one, or its table is the old one anyway. */
  lemma ReusedMtimeIsMissed(w: World, m: nat, content: Content)
    requires Invariant(w) && w.file.Some?
    requires Settle(w).cache.mtime == Some(w.file.value.mtime)
    ensures Settle(Step(Settle(w), Replace(m, content))).cache.table == TableOf(content)
            <==> m != w.file.value.mtime || TableOf(content) == TableOf(w.file.value.content)
  {
    SettledIsCurrent(w);
    hide ByHash;
  }

  // ---------------------------------------------------------------- verifying a token

  datatype Principal = Principal(id: string, name: string, scope: string)

  /** `verify` against a table, with `digest` the token's hash. */
  function Verified(table: map<string, Row>, token: Option<string>, digest: string, now: real): Option<Principal> {
    if token.None? || token.value == "" || !LooksLikeKey(token) then None
    else if digest !in table then None
    else
      var row := table[digest];
      if Over(row.expiresAt, now) || row.hash != digest || Named(row.scope).None? then None
      else Some(Principal(row.id, row.name, row.scope))
  }

  lemma {:induction false} ByHashHas(rows: seq<Row>, h: string)
    ensures h in ByHash(rows) <==> exists r :: r in rows && r.hash == h
    ensures h in ByHash(rows) ==> ByHash(rows)[h] in rows && ByHash(rows)[h].hash == h
    decreases |rows|
  {
    if rows != [] {
      var front, z := rows[..|rows| - 1], rows[|rows| - 1];
      ByHashHas(front, h);
      assert rows == front + [z];
      if exists r :: r in rows && r.hash == h {
        var r :| r in rows && r.hash == h;
        assert r == z || r in front;
      }
    }
  }

  lemma {:induction false} RowsHas(records: seq<KeyRecord>, now: real)
    ensures forall r | r in records && Active(r, now)
            :: Row(r.id, r.name, r.scope, r.hash, r.expiresAt) in Rows(records, now)
    ensures forall x | x in Rows(records, now)
            :: exists r :: r in records && Active(r, now) && x == Row(r.id, r.name, r.scope, r.hash, r.expiresAt)
  {
    if records != [] {
      RowsHas(records[1..], now);
      forall x | x in Rows(records, now)
        ensures exists r :: r in records && Active(r, now) && x == Row(r.id, r.name, r.scope, r.hash, r.expiresAt)
      {
        var s := records[0];
        if x in Rows(records[1..], now) {
          var r :| r in records[1..] && Active(r, now) && x == Row(r.id, r.name, r.scope, r.hash, r.expiresAt);
          assert r in records;
        } else {
          assert s in records && Active(s, now) && x == Row(s.id, s.name, s.scope, s.hash, s.expiresAt);
        }
      }
    }
  }

  /** What a snapshot of these records shows: exactly the ones not revoked and not expired by then, field by field. */
  lemma RowsAre(records: seq<KeyRecord>, at: real)
    ensures forall x :: x in Rows(records, at) <==>
              exists r :: r in records && r.revokedAt.None? && (r.expiresAt.None? || at < r.expiresAt.value)
                          && x == Row(r.id, r.name, r.scope, r.hash, r.expiresAt)
  {
    RowsHas(records, at);
    forall x
      ensures x in Rows(records, at) <==>
                exists r :: r in records && r.revokedAt.None? && (r.expiresAt.None? || at < r.expiresAt.value)
                            && x == Row(r.id, r.name, r.scope, r.hash, r.expiresAt)
    {
      if x in Rows(records, at) {
        var r :| r in records && Active(r, at) && x == Row(r.id, r.name, r.scope, r.hash, r.expiresAt);
      }
      if r: KeyRecord :| r in records && r.revokedAt.None? && (r.expiresAt.None? || at < r.expiresAt.value)
                         && x == Row(r.id, r.name, r.scope, r.hash, r.expiresAt)
      {
        assert Active(r, at);
      }
    }
  }

  /** A settled verify succeeds exactly when the last snapshot was made of a record of that hash that was not
      revoked and has one of the three scopes, and that had not expired when it was written and has not since;
      hashes of records that could be shown are distinct. */
  lemma SettledVerify(w: World, records: seq<KeyRecord>, legacy: set<string>,
                      at: real, token: string, digest: string, now: real)
    requires Invariant(w) && LooksLikeKey(Some(token))
    requires w.file.Some? && w.file.value.content == Good(Payload(Rows(records, at), legacy))
    requires forall r, s | r in records && s in records && r.hash == s.hash && r.revokedAt.None? && s.revokedAt.None?
                           && (r.expiresAt.None? || at < r.expiresAt.value)
                           && (s.expiresAt.None? || at < s.expiresAt.value) :: r == s
    ensures Verified(Settle(w).cache.table, Some(token), digest, now).Some? <==>
              exists r :: r in records && r.hash == digest && r.revokedAt.None?
                          && r.scope in {"read", "inference", "admin"}
                          && (r.expiresAt.None? || (at < r.expiresAt.value && now < r.expiresAt.value))
    ensures forall r | r in records && r.hash == digest && r.revokedAt.None?
                       && (r.expiresAt.None? || at < r.expiresAt.value) ::
              var got := Verified(Settle(w).cache.table, Some(token), digest, now);
              got.Some? ==> got.value == Principal(r.id, r.name, r.scope)
  {
    SettledIsCurrent(w);
    var rows := Rows(records, at);
    ByHashHas(rows, digest);
    RowsAre(records, at);
    assert Settle(w).cache.table == ByHash(rows);
    hide ByHash, Rows, Settle, LooksLikeKey;
    forall r | r in records && r.hash == digest && r.revokedAt.None? && (r.expiresAt.None? || at < r.expiresAt.value)
      ensures digest in ByHash(rows)
    {
      var x := Row(r.id, r.name, r.scope, r.hash, r.expiresAt);
      assert x in rows && x.hash == digest;
    }
    if digest in ByHash(rows) {
      var row := ByHash(rows)[digest];
      var s :| s in records && s.revokedAt.None? && (s.expiresAt.None? || at < s.expiresAt.value)
               && row == Row(s.id, s.name, s.scope, s.hash, s.expiresAt);
      assert s.hash == digest;
    }
  }

  /** A key missing from the snapshot in place, and from any published while the refresh runs, is not let in. */
  lemma RevokedStaysOut(w: World, statOk: bool, actions: seq<Action>, readOk: bool,
                         token: Option<string>, digest: string, now: real)
    requires Invariant(w) && Publishes(actions) && digest !in Published(w)
    requires forall a | a in actions && a.Replace? :: digest !in TableOf(a.content)
    ensures Verified(Interrupted(w, statOk, actions, readOk).cache.table, token, digest, now).None?
  {
    InterruptedRefresh(w, statOk, actions, readOk);
    var v := Step(w, Stat(statOk));
    assert v.file == w.file;
    StillMissing(v, actions, digest);
  }

  lemma {:induction false} StillMissing(w: World, actions: seq<Action>, digest: string)
    requires Publishes(actions) && digest !in Published(w)
    requires forall a | a in actions && a.Replace? :: digest !in TableOf(a.content)
    ensures digest !in Published(Steps(w, actions))
    decreases |actions|
  {
    if actions != [] {
      assert actions[0] in actions;
      hide ByHash;
      StillMissing(Step(w, actions[0]), actions[1..], digest);
    }
  }

  /** The file was made of records that are, for this hash, all revoked, expired when it was written, or expired now. */
  ghost predicate OnlyDead(c: Content, digest: string, now: real) {
    c.Good? ==>
      exists records: seq<KeyRecord>, at: real ::
        c.payload.rows == Rows(records, at)
        && forall r | r in records && r.hash == digest ::
             r.revokedAt.Some? || (r.expiresAt.Some? && (at >= r.expiresAt.value || now >= r.expiresAt.value))
  }

  lemma DeadInTable(c: Content, digest: string, now: real)
    requires OnlyDead(c, digest, now)
    ensures digest in TableOf(c) ==>
              TableOf(c)[digest].expiresAt.Some? && now >= TableOf(c)[digest].expiresAt.value
  {
    if c.Good? {
      var records: seq<KeyRecord>, at: real :|
        c.payload.rows == Rows(records, at)
        && forall r | r in records && r.hash == digest ::
             r.revokedAt.Some? || (r.expiresAt.Some? && (at >= r.expiresAt.value || now >= r.expiresAt.value));
      ByHashHas(c.payload.rows, digest);
      RowsAre(records, at);
      hide ByHash, Rows;
    }
  }

  /** A key all of whose records are revoked or expired in the snapshot in place, and in any published while the
      refresh runs, is refused, however the refresh is interrupted. */
  lemma DeadKeyRefused(w: World, statOk: bool, actions: seq<Action>, readOk: bool,
                       token: Option<string>, digest: string, now: real)
    requires Invariant(w) && Publishes(actions)
    requires w.file.Some? ==> OnlyDead(w.file.value.content, digest, now)
    requires forall a | a in actions && a.Replace? :: OnlyDead(a.content, digest, now)
    ensures Verified(Interrupted(w, statOk, actions, readOk).cache.table, token, digest, now).None?
  {
    InterruptedRefresh(w, statOk, actions, readOk);
    var v := Step(w, Stat(statOk));
    assert v.file == w.file;
    StillDead(v, actions, digest, now);
    if w.file.Some? { DeadInTable(w.file.value.content, digest, now); }
    var between := Steps(v, actions);
    if between.file.Some? { DeadInTable(between.file.value.content, digest, now); }
    hide OnlyDead, ByHash, Steps, Step, LooksLikeKey;
  }

  lemma {:induction false} StillDead(w: World, actions: seq<Action>, digest: string, now: real)
    requires Publishes(actions) && (w.file.Some? ==> OnlyDead(w.file.value.content, digest, now))
    requires forall a | a in actions && a.Replace? :: OnlyDead(a.content, digest, now)
    ensures var v := Steps(w, actions); v.file.Some? ==> OnlyDead(v.file.value.content, digest, now)
    decreases |actions|
  {
    if actions != [] {
      assert actions[0] in actions;
      hide OnlyDead;
      StillDead(Step(w, actions[0]), actions[1..], digest, now);
    }
  }

  /** So it is after any run from the start: whatever interleaved before, a settled verify answers from the
      records of the snapshot then in place. */
  lemma VerifyFromStart(file: Option<File>, actions: seq<Action>, records: seq<KeyRecord>, legacy: set<string>,
                        at: real, token: string, digest: string, now: real)
    requires Fresh(Started(file), actions) && LooksLikeKey(Some(token))
    requires var w := Steps(Started(file), actions);
             w.file.Some? && w.file.value.content == Good(Payload(Rows(records, at), legacy))
    requires forall r, s | r in records && s in records && r.hash == s.hash && r.revokedAt.None? && s.revokedAt.None?
                           && (r.expiresAt.None? || at < r.expiresAt.value)
                           && (s.expiresAt.None? || at < s.expiresAt.value) :: r == s
    ensures Verified(Settle(Steps(Started(file), actions)).cache.table, Some(token), digest, now).Some? <==>
              exists r :: r in records && r.hash == digest && r.revokedAt.None?
                          && r.scope in {"read", "inference", "admin"}
                          && (r.expiresAt.None? || (at < r.expiresAt.value && now < r.expiresAt.value))
  {
    CoherentFromStart(file, actions);
    var w := Steps(Started(file), actions);
    hide Invariant, Settle, Steps, Verified, LooksLikeKey, Rows;
    SettledVerify(w, records, legacy, at, token, digest, now);
  }

  // ---------------------------------------------------------------- the objects

  /** One attempt at the replace: `Blocked` is PermissionError, `Raises` any other error. */
  datatype Swap = Swapped | Blocked | Raises

  /** The writer: up to six attempts at the atomic replace, which a reader on Windows may block. */
  class SnapshotFile {
    var file: Option<File>

    constructor (found: Option<File>)
      ensures file == found
    {
      file := found;
    }

    /** Published exactly when one of six attempts works after blocked ones only; otherwise the old snapshot
        stays as it was. Any other error ends it at once. */
    method WriteSnapshot(records: seq<KeyRecord>, legacy: set<string>, now: real, mtime: nat, tries: nat -> Swap)
      returns (published: bool, raised: bool)
      modifies this
      ensures published <==> exists i | 0 <= i < 6 :: tries(i).Swapped? && forall j | 0 <= j < i :: tries(j).Blocked?
      ensures raised <==> exists i | 0 <= i < 6 :: tries(i).Raises? && forall j | 0 <= j < i :: tries(j).Blocked?
      ensures file == if published then Some(File(mtime, Good(Payload(Rows(records, now), legacy)))) else old(file)
      ensures published ==>
                forall x :: x in file.value.content.payload.rows <==>
                  exists r :: r in records && r.revokedAt.None? && (r.expiresAt.None? || now < r.expiresAt.value)
                              && x == Row(r.id, r.name, r.scope, r.hash, r.expiresAt)
    {
      RowsAre(records, now);
      hide Rows;
      for attempt := 0 to 6
        invariant file == old(file) && forall i | 0 <= i < attempt :: tries(i).Blocked?
      {
        match tries(attempt) {
          case Swapped =>
            file := Some(File(mtime, Good(Payload(Rows(records, now), legacy))));
            return true, false;
          case Raises =>
            return false, true;
          case Blocked =>
        }
      }
      return false, false;
    }
  }

  class SnapshotVerifier {
    var mtime: Option<nat>
    var byHash: map<string, Row>
    var revokedLegacy: set<string>

    ghost function Cached(): Cache
      reads this
    {
      Cache(mtime, byHash, revokedLegacy)
    }

    constructor ()
      ensures Cached() == EMPTY
    {
      mtime, byHash, revokedLegacy := None, map[], {};
    }

    /** One refresh: what `stat` saw, then what the read found, each at its own moment. */
    method Refresh(stat: Option<nat>, read: Option<Content>)
      modifies this
      ensures var (c, reading) := AfterStat(old(Cached()), stat);
              Cached() == if reading.None? then c else AfterRead(reading.value, read)
    {
      if stat.None? {
        mtime, byHash, revokedLegacy := None, map[], {};
        return;
      }
      if mtime == stat {
        return;
      }
      if read.Some? && read.value.Good? {
        var table := BuildTable(read.value.payload.rows);
        byHash, revokedLegacy, mtime := table, read.value.payload.revokedLegacy, stat;
      } else {
        byHash, revokedLegacy, mtime := map[], {}, None;
      }
    }

    static method BuildTable(rows: seq<Row>) returns (table: map<string, Row>)
      ensures table == ByHash(rows)
    {
      table := map[];
      for i := 0 to |rows|
        invariant table == ByHash(rows[..i])
      {
        assert rows[..i + 1][..i] == rows[..i];
        table := table[rows[i].hash := rows[i]];
      }
      assert rows[..|rows|] == rows;
    }

    /** Refreshes, then answers from the table. */
    method Verify(token: Option<string>, digest: string, now: real, stat: Option<nat>, read: Option<Content>)
      returns (principal: Option<Principal>)
      modifies this
      ensures principal == if LooksLikeKey(token) then Verified(byHash, token, digest, now) else None
      ensures !LooksLikeKey(token) ==> Cached() == old(Cached())
      ensures LooksLikeKey(token) ==>
                var (c, reading) := AfterStat(old(Cached()), stat);
                Cached() == if reading.None? then c else AfterRead(reading.value, read)
    {
      if !LooksLikeKey(token) {
        return None;
      }
      Refresh(stat, read);
      if digest !in byHash {
        return None;
      }
      var row := byHash[digest];
      if row.expiresAt.Some? && now >= row.expiresAt.value {
        return None;
      }
      if row.hash != digest || Named(row.scope).None? {
        return None;
      }
      return Some(Principal(row.id, row.name, row.scope));
    }
  }
}
