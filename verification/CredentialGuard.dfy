/** The lockout table: a bounded dictionary of timed failure counters, forgotten
    lazily. Every answer it gives is the policy's function of the client's own
    failure history. */
module CredentialGuard {
  import opened Text
  import opened GuardPolicy

  datatype Record = Record(failures: nat, lockedUntil: real, lastSeen: real)

  datatype Event = Failure(client: string, at: real) | Success(client: string) | Evicted(client: string) | Reset

  /** One event's effect on the failure times of `c`. */
  function Noted(ts: seq<real>, e: Event, c: string): seq<real> {
    if e.Reset? then []
    else if e.client != c then ts
    else if e.Failure? then ts + [e.at]
    else []
  }

  /** The client's failure times since its last success, eviction or reset. */
  function Times(h: seq<Event>, c: string): seq<real> {
    if h == [] then [] else Noted(Times(h[..|h| - 1], c), h[|h| - 1], c)
  }

  /** What the table must hold for these failure times. */
  function RecordOf(p: Policy, ts: seq<real>): Record
    requires ts != []
  {
    var n, last := StreakLength(p, ts), ts[|ts| - 1];
    Record(n, last + Lockout(p, n), last)
  }

  lemma TimesSnoc(h: seq<Event>, e: Event, c: string)
    ensures Times(h + [e], c) == Noted(Times(h, c), e, c)
  {
    assert (h + [e])[..|h|] == h;
  }

  // ---------------------------------------------------------------- eviction order

  predicate NoDup(order: seq<string>) {
    forall i, j | 0 <= i < j < |order| :: order[i] != order[j]
  }

  /** Stable insertion: `c` goes after every key seen no later than it. */
  function Insert(sorted: seq<string>, c: string, seen: map<string, real>): seq<string>
    requires c in seen && forall d | d in sorted :: d in seen
  {
    if sorted == [] || seen[sorted[|sorted| - 1]] <= seen[c] then sorted + [c]
    else Insert(sorted[..|sorted| - 1], c, seen) + [sorted[|sorted| - 1]]
  }

  /** `sorted(records.items(), key=last_seen)`: stable over the insertion order. */
  function ByAge(order: seq<string>, seen: map<string, real>): (r: seq<string>)
    requires forall d | d in order :: d in seen
    ensures multiset(r) == multiset(order) && |r| == |order|
  {
    if order == [] then []
    else
      var front := order[..|order| - 1];
      assert order == front + [order[|order| - 1]];
      var sorted := ByAge(front, seen);
      assert forall d | d in sorted :: d in multiset(sorted);
      InsertAdds(sorted, order[|order| - 1], seen);
      Insert(sorted, order[|order| - 1], seen)
  }

  lemma {:induction false} InsertAdds(sorted: seq<string>, c: string, seen: map<string, real>)
    requires c in seen && forall d | d in sorted :: d in seen
    ensures multiset(Insert(sorted, c, seen)) == multiset(sorted) + multiset{c}
    ensures |Insert(sorted, c, seen)| == |sorted| + 1
    decreases |sorted|
  {
    if !(sorted == [] || seen[sorted[|sorted| - 1]] <= seen[c]) {
      InsertAdds(sorted[..|sorted| - 1], c, seen);
      assert sorted == sorted[..|sorted| - 1] + [sorted[|sorted| - 1]];
    }
  }

  predicate Ascending(order: seq<string>, seen: map<string, real>)
    requires forall d | d in order :: d in seen
  {
    forall i, j | 0 <= i <= j < |order| :: seen[order[i]] <= seen[order[j]]
  }

  lemma AscendingSnoc(front: seq<string>, z: string, seen: map<string, real>)
    requires z in seen && forall d | d in front :: d in seen
    ensures forall d | d in front + [z] :: d in seen
    ensures Ascending(front + [z], seen) <==> Ascending(front, seen) && forall d | d in front :: seen[d] <= seen[z]
  {
    var r := front + [z];
    if Ascending(r, seen) {
      forall d | d in front ensures seen[d] <= seen[z] {
        var i :| 0 <= i < |front| && front[i] == d;
        assert r[i] == d && r[|front|] == z;
      }
      forall i, j | 0 <= i <= j < |front| ensures seen[front[i]] <= seen[front[j]] {
        assert r[i] == front[i] && r[j] == front[j];
      }
    }
  }

  lemma {:induction false} InsertAscends(sorted: seq<string>, c: string, seen: map<string, real>)
    requires c in seen && (forall d | d in sorted :: d in seen) && Ascending(sorted, seen)
    ensures var r := Insert(sorted, c, seen);
            (forall d | d in r :: d in seen && (d == c || d in sorted)) && Ascending(r, seen)
    decreases |sorted|
  {
    if sorted == [] {
      AscendingSnoc([], c, seen);
    } else {
      var front, z := sorted[..|sorted| - 1], sorted[|sorted| - 1];
      assert sorted == front + [z];
      AscendingSnoc(front, z, seen);
      if seen[z] <= seen[c] {
        AscendingSnoc(sorted, c, seen);
      } else {
        InsertAscends(front, c, seen);
        assert Insert(sorted, c, seen) == Insert(front, c, seen) + [z];
        hide Ascending, Insert;
        AscendingSnoc(Insert(front, c, seen), z, seen);
      }
    }
  }

  lemma {:induction false} ByAgeAscends(order: seq<string>, seen: map<string, real>)
    requires forall d | d in order :: d in seen
    ensures (forall d | d in ByAge(order, seen) :: d in order) && Ascending(ByAge(order, seen), seen)
    decreases |order|
  {
    if order != [] {
      ByAgeAscends(order[..|order| - 1], seen);
      InsertAscends(ByAge(order[..|order| - 1], seen), order[|order| - 1], seen);
    }
  }

  function Without(order: seq<string>, c: string): seq<string> {
    if order == [] then []
    else (if order[0] == c then [] else [order[0]]) + Without(order[1..], c)
  }

  lemma {:induction false} WithoutIs(order: seq<string>, c: string)
    requires NoDup(order)
    ensures NoDup(Without(order, c)) && (forall d :: d in Without(order, c) <==> d in order && d != c)
    ensures |Without(order, c)| == |order| - (if c in order then 1 else 0)
  {
    if order != [] {
      var rest := Without(order[1..], c);
      WithoutIs(order[1..], c);
      assert order[0] !in order[1..];
      assert order[0] !in rest;
    }
  }

  lemma {:induction false} KeyCount(order: seq<string>, keys: set<string>)
    requires NoDup(order) && forall c :: c in keys <==> c in order
    ensures |keys| == |order|
  {
    if order == [] {
      assert keys == {};
    } else {
      KeyCount(order[1..], keys - {order[0]});
    }
  }

  lemma {:induction false} CountedOnce(order: seq<string>, c: string)
    requires NoDup(order)
    ensures multiset(order)[c] <= 1
  {
    if order != [] {
      CountedOnce(order[1..], c);
      assert order == [order[0]] + order[1..];
    }
  }

  lemma {:induction false} OnceIsNoDup(s: seq<string>)
    requires forall c :: multiset(s)[c] <= 1
    ensures NoDup(s)
  {
    if s != [] {
      assert s == [s[0]] + s[1..];
      assert multiset(s) == multiset{s[0]} + multiset(s[1..]);
      assert multiset(s)[s[0]] <= 1;
      assert s[0] !in multiset(s[1..]);
      forall c ensures multiset(s[1..])[c] <= 1 {
        assert multiset(s)[c] >= multiset(s[1..])[c];
      }
      OnceIsNoDup(s[1..]);
      assert s[0] !in s[1..];
    }
  }

  lemma SameKeys(sorted: seq<string>, order: seq<string>)
    requires NoDup(order) && multiset(sorted) == multiset(order)
    ensures NoDup(sorted) && |sorted| == |order| && forall c :: c in sorted <==> c in order
  {
    assert |multiset(sorted)| == |sorted| && |multiset(order)| == |order|;
    forall c ensures c in sorted <==> c in order {
      assert c in multiset(sorted) <==> c in multiset(order);
    }
    forall c ensures multiset(sorted)[c] <= 1 {
      CountedOnce(order, c);
    }
    OnceIsNoDup(sorted);
  }

  /** The key last inserted sorts last when nothing was seen later. */
  lemma NewestSortsLast(order: seq<string>, seen: map<string, real>)
    requires order != [] && forall d | d in order :: d in seen
    requires forall d | d in order :: seen[d] <= seen[order[|order| - 1]]
    ensures ByAge(order, seen) == ByAge(order[..|order| - 1], seen) + [order[|order| - 1]]
  {
    ByAgeAscends(order[..|order| - 1], seen);
    var sorted := ByAge(order[..|order| - 1], seen);
    assert sorted != [] ==> sorted[|sorted| - 1] in order;
  }

  // ---------------------------------------------------------------- the table

  type Records = map<string, Record>

  /** What the table holds for `c` is what the history says; what it does not hold is forgotten. */
  predicate Faithful(p: Policy, records: Records, h: seq<Event>, clock: real, c: string) {
    var ts := Times(h, c);
    && Ordered(ts) && (ts != [] ==> ts[|ts| - 1] <= clock)
    && (if c in records then ts != [] && records[c] == RecordOf(p, ts) else Forgotten(p, ts, clock))
  }

  ghost predicate Refines(p: Policy, records: Records, h: seq<Event>, clock: real) {
    forall c :: Faithful(p, records, h, clock, c)
  }

  predicate Keyed(records: Records, order: seq<string>) {
    forall c | c in order :: c in records
  }

  ghost predicate Dictionary(records: Records, order: seq<string>) {
    NoDup(order) && forall c :: c in records <==> c in order
  }

  lemma LaterStillFaithful(p: Policy, records: Records, h: seq<Event>, clock: real, now: real)
    requires Refines(p, records, h, clock) && now >= clock
    ensures Refines(p, records, h, now)
  {
    forall c ensures Faithful(p, records, h, now, c) {
      assert Faithful(p, records, h, clock, c);
    }
  }

  /** Lazy expiry: a record past the window may go. */
  lemma ExpiryKeeps(p: Policy, records: Records, h: seq<Event>, clock: real, c: string)
    requires Refines(p, records, h, clock) && Forgotten(p, Times(h, c), clock)
    ensures Refines(p, records - {c}, h, clock)
  {
    forall d ensures Faithful(p, records - {c}, h, clock, d) {
      assert Faithful(p, records, h, clock, d);
    }
  }

  /** A success or an eviction drops the record and the client's times with it. */
  lemma DropKeeps(p: Policy, records: Records, h: seq<Event>, clock: real, c: string, e: Event)
    requires Refines(p, records, h, clock) && e in {Success(c), Evicted(c)}
    ensures Refines(p, records - {c}, h + [e], clock)
  {
    forall d ensures Faithful(p, records - {c}, h + [e], clock, d) {
      assert Faithful(p, records, h, clock, d);
      TimesSnoc(h, e, d);
    }
  }

  /** The table as it stands when a failure of `c` at `now` has been written. */
  function Filled(p: Policy, records: Records, ts: seq<real>, now: real, c: string): Records {
    records[c := RecordOf(p, ts + [now])]
  }

  function Keys(records: Records, order: seq<string>, c: string): seq<string> {
    if c in records then order else order + [c]
  }

  /** The record the code writes for a failure at `now` is the one the history calls for. */
  lemma FailureKeeps(p: Policy, records: Records, h: seq<Event>, now: real, c: string, failures: nat)
    requires Refines(p, records, h, now)
    requires failures == if c in records && now - records[c].lastSeen < p.window then records[c].failures + 1 else 1
    ensures failures == StreakLength(p, Times(h, c) + [now])
    ensures records[c := Record(failures, now + Lockout(p, failures), now)] == Filled(p, records, Times(h, c), now, c)
    ensures Refines(p, Filled(p, records, Times(h, c), now, c), h + [Failure(c, now)], now)
  {
    OwnFailure(p, records, h, now, c, failures);
    var e := Failure(c, now);
    var updated := records[c := Record(failures, now + Lockout(p, failures), now)];
    forall d ensures Faithful(p, updated, h + [e], now, d) {
      if d != c {
        assert Faithful(p, records, h, now, d);
        TimesSnoc(h, e, d);
      }
    }
  }

  lemma FilledDictionary(p: Policy, records: Records, order: seq<string>, ts: seq<real>, now: real, c: string)
    requires Dictionary(records, order)
    ensures Dictionary(Filled(p, records, ts, now, c), Keys(records, order, c))
    ensures Keyed(Filled(p, records, ts, now, c), Keys(records, order, c))
  {
    hide StreakLength, Lockout;
  }

  lemma OwnFailure(p: Policy, records: Records, h: seq<Event>, now: real, c: string, failures: nat)
    requires Faithful(p, records, h, now, c)
    requires failures == if c in records && now - records[c].lastSeen < p.window then records[c].failures + 1 else 1
    ensures failures == StreakLength(p, Times(h, c) + [now])
    ensures Faithful(p, records[c := Record(failures, now + Lockout(p, failures), now)], h + [Failure(c, now)], now, c)
  {
    var ts := Times(h, c);
    TimesSnoc(h, Failure(c, now), c);
    hide Lockout, Times;
    assert (ts + [now])[..|ts|] == ts;
    assert failures == StreakLength(p, ts + [now]);
    assert Ordered(ts + [now]);
  }

  predicate Expired(p: Policy, records: Records, c: string, now: real) {
    c in records && now - records[c].lastSeen >= p.window
  }

  /** The wait a record stands for. */
  function TableWait(p: Policy, records: Records, c: string, now: real): real {
    if c !in records || Expired(p, records, c, now) then 0.0
    else
      var left := records[c].lockedUntil - now;
      if left > 0.0 then left else 0.0
  }

  /** The count a failure at `now` gives the record. */
  function Counted(p: Policy, records: Records, c: string, now: real): nat {
    if c in records && !Expired(p, records, c, now) then records[c].failures + 1 else 1
  }

  lemma WrittenDictionary(records: Records, order: seq<string>, c: string, r: Record)
    requires Dictionary(records, order)
    ensures Dictionary(records[c := r], Keys(records, order, c)) && Keyed(records[c := r], Keys(records, order, c))
  {}

  lemma DictionaryDrop(records: Records, order: seq<string>, c: string)
    requires Dictionary(records, order)
    ensures Dictionary(records - {c}, Without(order, c))
    ensures |Without(order, c)| == |order| - (if c in records then 1 else 0)
  {
    WithoutIs(order, c);
  }

  function Seen(records: Records): map<string, real> {
    map c | c in records :: records[c].lastSeen
  }

  /** Clients that ever failed. */
  function Clients(h: seq<Event>): set<string> {
    set e | e in h && e.Failure? :: e.client
  }

  /** Records are only ever evicted when more clients have failed than the table holds. */
  predicate EvictsWhenFull(p: Policy, h: seq<Event>) {
    forall i | 0 <= i < |h| && h[i].Evicted? :: |Clients(h[..i])| > Capacity(p)
  }

  lemma ClientsSnoc(h: seq<Event>, e: Event)
    ensures Clients(h + [e]) == Clients(h) + if e.Failure? then {e.client} else {}
    ensures |Clients(h)| <= |Clients(h + [e])|
  {
    assert forall x :: x in h + [e] <==> x in h || x == e;
    SubsetSize(Clients(h), Clients(h + [e]));
  }

  lemma SubsetSize<T>(a: set<T>, b: set<T>)
    requires a <= b
    ensures |a| <= |b|
  {
    assert b == a + (b - a);
  }

  lemma EvictsSnoc(p: Policy, h: seq<Event>, e: Event)
    requires EvictsWhenFull(p, h) && (e.Evicted? ==> |Clients(h)| > Capacity(p))
    ensures EvictsWhenFull(p, h + [e])
  {
    var g := h + [e];
    assert g[..|h|] == h;
    forall i | 0 <= i < |g| && g[i].Evicted? ensures |Clients(g[..i])| > Capacity(p) {
      if i < |h| { assert g[..i] == h[..i]; }
    }
  }

  lemma {:induction false} TimesNeedFailure(h: seq<Event>, c: string)
    requires Times(h, c) != []
    ensures c in Clients(h)
  {
    var g, e := h[..|h| - 1], h[|h| - 1];
    assert h == g + [e];
    ClientsSnoc(g, e);
    if !(e.Failure? && e.client == c) { TimesNeedFailure(g, c); }
  }

  /** Every record is of a client that failed. */
  lemma TrackedHaveFailed(p: Policy, records: Records, order: seq<string>, h: seq<Event>, clock: real)
    requires Dictionary(records, order) && Refines(p, records, h, clock)
    ensures records.Keys <= Clients(h) && |order| <= |Clients(h)|
  {
    forall c | c in records ensures c in Clients(h) {
      assert Faithful(p, records, h, clock, c);
      TimesNeedFailure(h, c);
    }
    KeyCount(order, records.Keys);
    SubsetSize(records.Keys, Clients(h));
  }

  function Capacity(p: Policy): nat { if p.maxTracked >= 0 then p.maxTracked else 0 }

  /** What eviction drops: once over the cap, the least recently seen, ties to the oldest inserted. */
  function Victims(p: Policy, records: Records, order: seq<string>): seq<string>
    requires Keyed(records, order)
  {
    if |order| <= p.maxTracked then [] else ByAge(order, Seen(records))[..|order| - Capacity(p)]
  }

  /** The table without the victims of an eviction round, dropped one by one. */
  function DropAll(records: Records, victims: seq<string>): Records {
    if victims == [] then records else DropAll(records, victims[..|victims| - 1]) - {victims[|victims| - 1]}
  }

  /** The history of an eviction round. */
  function Evictions(victims: seq<string>): seq<Event> {
    if victims == [] then [] else Evictions(victims[..|victims| - 1]) + [Evicted(victims[|victims| - 1])]
  }

  /** The first `k` keys by age are all at least as old as the rest. */
  lemma OldestFirst(records: Records, order: seq<string>, k: nat)
    requires Dictionary(records, order) && k <= |order|
    ensures var ordered := ByAge(order, Seen(records));
            NoDup(ordered) && (forall c :: c in ordered <==> c in records)
            && forall v, s | v in ordered[..k] && s in records && s !in ordered[..k] ::
                 v in records && records[v].lastSeen <= records[s].lastSeen
  {
    var seen := Seen(records);
    var ordered := ByAge(order, seen);
    ByAgeAscends(order, seen);
    SameKeys(ordered, order);
    hide ByAge;
    forall v, s | v in ordered[..k] && s in records && s !in ordered[..k]
      ensures v in records && records[v].lastSeen <= records[s].lastSeen
    {
      var i :| 0 <= i < k && ordered[..k][i] == v;
      assert s in ordered;
      var j :| 0 <= j < |ordered| && ordered[j] == s;
      assert forall x | 0 <= x < k :: ordered[..k][x] == ordered[x];
      assert ordered[i] == v && seen[ordered[i]] <= seen[ordered[j]];
    }
  }

  /** The last key inserted, if nothing is newer, is evicted only when everything is. */
  lemma NewestStays(records: Records, order: seq<string>, k: nat)
    requires Dictionary(records, order) && k < |order|
    requires forall d | d in records :: records[d].lastSeen <= records[order[|order| - 1]].lastSeen
    ensures order[|order| - 1] !in ByAge(order, Seen(records))[..k]
  {
    var seen := Seen(records);
    var ordered := ByAge(order, seen);
    SameKeys(ordered, order);
    NewestSortsLast(order, seen);
    assert ordered[|order| - 1] == order[|order| - 1];
    assert forall i | 0 <= i < k :: ordered[..k][i] == ordered[i];
  }

  /** Eviction removes only least recently seen records, and just enough of them. */
  lemma VictimsAreOldest(p: Policy, records: Records, order: seq<string>)
    requires Dictionary(records, order)
    ensures var gone := Victims(p, records, order);
            |gone| == (if |order| <= Capacity(p) then 0 else |order| - Capacity(p))
            && forall v, s | v in gone && s in records && s !in gone ::
                 v in records && records[v].lastSeen <= records[s].lastSeen
  {
    if |order| > p.maxTracked { OldestFirst(records, order, |order| - Capacity(p)); }
  }

  /** The client whose failure was just written is never the one evicted. */
  lemma JustWrittenStays(p: Policy, records: Records, order: seq<string>, h: seq<Event>, now: real, c: string)
    requires Dictionary(records, order) && Refines(p, records, h, now) && |order| <= Capacity(p)
    requires p.maxTracked >= 1
    ensures var filled, keys := Filled(p, records, Times(h, c), now, c), Keys(records, order, c);
            Dictionary(filled, keys) && c !in Victims(p, filled, keys) && |Victims(p, filled, keys)| <= 1
  {
    var filled, keys := Filled(p, records, Times(h, c), now, c), Keys(records, order, c);
    SeenBy(p, records, h, now);
    hide StreakLength, Lockout, Times, ByAge, Seen;
    FilledDictionary(p, records, order, Times(h, c), now, c);
    if |keys| > p.maxTracked {
      assert keys == order + [c];
      NewestStays(filled, keys, |keys| - Capacity(p));
    }
    VictimsAreOldest(p, filled, keys);
  }

  lemma {:induction false} InsertedFirst(sorted: seq<string>, c: string, seen: map<string, real>)
    requires c in seen && c !in sorted && forall d | d in sorted :: d in seen
    ensures |Insert(sorted, c, seen)| > 0
    ensures Insert(sorted, c, seen)[0] == c <==> forall d | d in sorted :: seen[d] > seen[c]
  {
    if sorted != [] {
      var front, z := sorted[..|sorted| - 1], sorted[|sorted| - 1];
      assert sorted == front + [z];
      InsertedFirst(front, c, seen);
    }
  }

  /** Were clocks read out of order, the record just written could be the one evicted: exactly when it is a new
      one in a full table and every other record was seen later. */
  lemma WrittenIsEvictedExactly(p: Policy, records: Records, order: seq<string>, c: string, r: Record)
    requires Dictionary(records, order) && |order| <= Capacity(p)
    ensures var filled, keys := records[c := r], Keys(records, order, c);
            Keyed(filled, keys)
            && (c in Victims(p, filled, keys)
                <==> c !in records && |order| == Capacity(p)
                     && forall d | d in records :: records[d].lastSeen > r.lastSeen)
  {
    var filled, keys := records[c := r], Keys(records, order, c);
    hide ByAge;
    if c !in records && |order| == Capacity(p) {
      AppendedFirst(filled, order, c);
      assert Victims(p, filled, keys) == [ByAge(keys, Seen(filled))[0]];
    }
  }

  lemma AppendedFirst(filled: Records, order: seq<string>, c: string)
    requires Dictionary(filled, order + [c])
    ensures var sorted := ByAge(order + [c], Seen(filled));
            |sorted| > 0 && (sorted[0] == c <==> forall d | d in order :: filled[d].lastSeen > filled[c].lastSeen)
  {
    var seen := Seen(filled);
    var front := ByAge(order, seen);
    assert (order + [c])[..|order|] == order;
    assert NoDup(order) && c !in order by {
      assert forall i | 0 <= i < |order| :: (order + [c])[i] == order[i];
    }
    SameKeys(front, order);
    assert ByAge(order + [c], seen) == Insert(front, c, seen);
    hide ByAge, Insert;
    InsertedFirst(front, c, seen);
  }

  class Guard {
    const policy: Policy
    var records: Records
    /** The dictionary's keys in insertion order, which breaks ties between equally old records. */
    var order: seq<string>
    ghost var history: seq<Event>
    ghost var clock: real

    ghost predicate Shaped()
      reads this
    {
      Dictionary(records, order) && |order| <= Capacity(policy)
    }

    /** The table says what the history says. */
    ghost predicate Valid()
      reads this
    {
      Shaped() && Refines(policy, records, history, clock) && EvictsWhenFull(policy, history)
    }

    constructor (p: Policy, ghost now: real)
      ensures Valid() && policy == p && history == [] && records == map[] && clock == now
    {
      policy, records, order := p, map[], [];
      history, clock := [], now;
    }

    /** Seconds `client` must wait, by its record; reading can only drop an expired one. With times in order the
        answer is the policy's function of the client's own failures, and a record dropped is forgotten. */
    method RetryAfter(client: Option<string>, now: real) returns (wait: real)
      requires Shaped()
      modifies this
      ensures Shaped() && history == old(history)
      ensures client in {None, Some("")} ==> wait == 0.0 && records == old(records)
      ensures client !in {None, Some("")} ==>
                wait == TableWait(policy, old(records), client.value, now)
                && records == if Expired(policy, old(records), client.value, now) then old(records) - {client.value}
                              else old(records)
      ensures old(Valid()) && now >= old(clock) ==> Valid() && clock == now
      ensures old(Valid()) && now >= old(clock) && client !in {None, Some("")} ==>
                wait == Wait(policy, Times(history, client.value), now)
                && records == if Forgotten(policy, Times(history, client.value), now) then old(records) - {client.value}
                              else old(records)
    {
      ghost var inOrder := Valid() && now >= clock;
      if inOrder {
        LaterStillFaithful(policy, records, history, clock, now);
        clock := now;
      }
      if client.None? || client.value == "" {
        return 0.0;
      }
      var c := client.value;
      if inOrder { assert Faithful(policy, records, history, clock, c); }
      hide Refines, Dictionary, StreakLength, Lockout;
      if c !in records {
        assert records - {c} == records;
        return 0.0;
      }
      var record := records[c];
      if now - record.lastSeen >= policy.window {
        if inOrder { ExpiryKeeps(policy, records, history, clock, c); }
        DictionaryDrop(records, order, c);
        records := records - {c};
        order := Without(order, c);
        return 0.0;
      }
      var remaining := record.lockedUntil - now;
      return if remaining > 0.0 then remaining else 0.0;
    }

    /** Counts a failure: the client's record is written, then the table is cut back to its capacity. With times
        in order the record is the one the history calls for. */
    method RecordFailure(client: Option<string>, now: real) returns (lockout: real, ghost evicted: seq<string>)
      requires Shaped()
      modifies this
      ensures Shaped()
      ensures client in {None, Some("")} ==> lockout == 0.0 && history == old(history) && records == old(records)
      ensures client !in {None, Some("")} ==>
                var c := client.value;
                var failures := Counted(policy, old(records), c, now);
                var filled := old(records)[c := Record(failures, now + lockout, now)];
                var keys := Keys(old(records), old(order), c);
                lockout == Lockout(policy, failures)
                && Keyed(filled, keys) && evicted == Victims(policy, filled, keys)
                && records == DropAll(filled, evicted)
                && history == old(history) + [Failure(c, now)] + Evictions(evicted)
      ensures old(Valid()) && now >= old(clock) ==> Valid() && clock == now
      ensures old(Valid()) && now >= old(clock) && client !in {None, Some("")} ==>
                var ts, c := Times(old(history), client.value), client.value;
                lockout == Lockout(policy, StreakLength(policy, ts + [now]))
                && records == DropAll(Filled(policy, old(records), ts, now, c), evicted)
    {
      ghost var inOrder := Valid() && now >= clock;
      hide Refines, Dictionary, Keyed, Times, Filled, Victims, DropAll, Evictions, Counted, Lockout, StreakLength, Keys;
      if inOrder {
        LaterStillFaithful(policy, records, history, clock, now);
        clock := now;
      }
      evicted := [];
      if client.None? || client.value == "" {
        return 0.0, [];
      }
      var c := client.value;
      lockout := WriteFailure(c, now);
      evicted := EvictLocked();
    }

    /** The record's update, before eviction. */
    method WriteFailure(c: string, now: real) returns (lockout: real)
      requires Dictionary(records, order)
      modifies this
      ensures var failures := Counted(policy, old(records), c, now);
              lockout == Lockout(policy, failures)
              && records == old(records)[c := Record(failures, now + lockout, now)]
      ensures order == Keys(old(records), old(order), c) && Dictionary(records, order)
      ensures history == old(history) + [Failure(c, now)] && clock == old(clock)
      ensures old(EvictsWhenFull(policy, history)) ==> EvictsWhenFull(policy, history)
      ensures old(Refines(policy, records, history, now)) ==>
                Refines(policy, records, history, now)
                && lockout == Lockout(policy, StreakLength(policy, Times(old(history), c) + [now]))
                && records == Filled(policy, old(records), Times(old(history), c), now, c)
    {
      var failures := 1;
      if c in records && now - records[c].lastSeen < policy.window {
        failures := records[c].failures + 1;
      }
      assert failures == Counted(policy, records, c, now);
      if Refines(policy, records, history, now) { FailureKeeps(policy, records, history, now, c, failures); }
      if EvictsWhenFull(policy, history) { EvictsSnoc(policy, history, Failure(c, now)); }
      lockout := Lockout(policy, failures);
      WrittenDictionary(records, order, c, Record(failures, now + lockout, now));
      hide Refines, Dictionary, StreakLength, Lockout, Times, Filled, RecordOf, Counted, EvictsWhenFull;
      if c !in records {
        order := order + [c];
      }
      records := records[c := Record(failures, now + lockout, now)];
      history := history + [Failure(c, now)];
    }

    /** Drops the least recently seen records once over the cap. */
    method EvictLocked() returns (ghost evicted: seq<string>)
      requires Dictionary(records, order)
      modifies this
      ensures Shaped() && clock == old(clock)
      ensures old(Refines(policy, records, history, clock) && EvictsWhenFull(policy, history)) ==> Valid()
      ensures Keyed(old(records), old(order)) && evicted == Victims(policy, old(records), old(order))
      ensures records == DropAll(old(records), evicted) && history == old(history) + Evictions(evicted)
    {
      evicted := [];
      Plan(policy, records, order);
      hide ByAge, Seen, Insert, Refines, Dictionary, Keyed, NoDup, DropAll, Evictions, Victims, Faithful, Times,
           Clients, EvictsWhenFull;
      if |order| <= policy.maxTracked {
        assert history + [] == history;
        return;
      }
      var ordered := ByAge(order, Seen(records));
      var excess := |order| - policy.maxTracked;
      var k := if excess < |ordered| then excess else |ordered|;
      DropEach(ordered, k);
      evicted := ordered[..k];
    }

    method DropEach(ordered: seq<string>, k: nat)
      requires Dictionary(records, order) && Dictionary(records, ordered) && k <= |ordered|
      modifies this
      ensures Dictionary(records, order)
      ensures old(Refines(policy, records, history, clock)) ==> Refines(policy, records, history, clock)
      ensures old(Refines(policy, records, history, clock) && EvictsWhenFull(policy, history)) ==>
                EvictsWhenFull(policy, history) || (k > 0 && old(|order|) <= Capacity(policy))
      ensures records == DropAll(old(records), ordered[..k]) && |order| == |old(order)| - k
      ensures history == old(history) + Evictions(ordered[..k]) && clock == old(clock)
    {
      assert Evictions([]) == [] && DropAll(records, []) == records;
      ghost var full := Refines(policy, records, history, clock) && EvictsWhenFull(policy, history)
                        && (k > 0 ==> |order| > Capacity(policy));
      if full { TrackedHaveFailed(policy, records, order, history, clock); }
      hide *;
      for i := 0 to k
        invariant full ==> EvictsWhenFull(policy, history) && (k > 0 ==> |Clients(history)| > Capacity(policy))
        invariant records == DropAll(old(records), ordered[..i])
        invariant |order| == |old(order)| - i
        invariant history == old(history) + Evictions(ordered[..i]) && clock == old(clock)
        invariant Dictionary(records, order)
        invariant old(Refines(policy, records, history, clock)) ==> Refines(policy, records, history, clock)
      {
        var victim := ordered[i];
        VictimPresent(old(records), ordered, i);
        EvictionsSnoc(old(records), ordered[..i], victim);
        assert ordered[..i + 1] == ordered[..i] + [victim];
        Associative(old(history), Evictions(ordered[..i]), [Evicted(victim)]);
        DropOne(victim);
      }
    }

    method DropOne(victim: string)
      requires Dictionary(records, order) && victim in records
      modifies this
      ensures records == old(records) - {victim} && |order| == old(|order|) - 1 && Dictionary(records, order)
      ensures history == old(history) + [Evicted(victim)] && clock == old(clock)
      ensures old(Refines(policy, records, history, clock)) ==> Refines(policy, records, history, clock)
      ensures |Clients(history)| >= old(|Clients(history)|)
      ensures old(EvictsWhenFull(policy, history)) ==>
                EvictsWhenFull(policy, history) || old(|Clients(history)|) <= Capacity(policy)
    {
      hide *;
      ClientsSnoc(history, Evicted(victim));
      if EvictsWhenFull(policy, history) && |Clients(history)| > Capacity(policy) {
        EvictsSnoc(policy, history, Evicted(victim));
      }
      if Refines(policy, records, history, clock) {
        DropKeeps(policy, records, history, clock, victim, Evicted(victim));
      }
      DictionaryDrop(records, order, victim);
      records := records - {victim};
      order := Without(order, victim);
      history := history + [Evicted(victim)];
    }

    /** Any accepted credential clears the client's record. */
    method RecordSuccess(client: Option<string>)
      requires Shaped()
      modifies this
      ensures Shaped() && clock == old(clock) && (old(Valid()) ==> Valid())
      ensures client !in {None, Some("")} ==>
                history == old(history) + [Success(client.value)] && records == old(records) - {client.value}
      ensures client in {None, Some("")} ==> history == old(history) && records == old(records)
    {
      if client.None? || client.value == "" {
        return;
      }
      var c := client.value;
      if Valid() {
        DropKeeps(policy, records, history, clock, c, Success(c));
        EvictsSnoc(policy, history, Success(c));
      }
      DictionaryDrop(records, order, c);
      records := records - {c};
      order := Without(order, c);
      history := history + [Success(c)];
    }

    /** After a reset the table says what the history says, whatever came before. */
    method ResetAll()
      modifies this
      ensures clock == old(clock) && history == old(history) + [Reset] && records == map[]
      ensures Shaped() && Refines(policy, records, history, clock)
      ensures old(EvictsWhenFull(policy, history)) ==> Valid()
    {
      if EvictsWhenFull(policy, history) { EvictsSnoc(policy, history, Reset); }
      records, order := map[], [];
      history := history + [Reset];
      forall c ensures Faithful(policy, records, history, clock, c) {
        TimesSnoc(old(history), Reset, c);
      }
    }
  }

  /** No record is newer than the clock. */
  lemma SeenBy(p: Policy, records: Records, h: seq<Event>, clock: real)
    requires Refines(p, records, h, clock)
    ensures forall c | c in records :: records[c].lastSeen <= clock
  {
    forall c | c in records ensures records[c].lastSeen <= clock {
      assert Faithful(p, records, h, clock, c);
    }
  }

  lemma EvictionsSnoc(records: Records, victims: seq<string>, v: string)
    ensures Evictions(victims + [v]) == Evictions(victims) + [Evicted(v)]
    ensures DropAll(records, victims + [v]) == DropAll(records, victims) - {v}
  {
    assert (victims + [v])[..|victims|] == victims;
  }

  lemma {:induction false} DropAllIs(records: Records, victims: seq<string>)
    ensures DropAll(records, victims) == records - (set d | d in victims)
  {
    if victims != [] {
      DropAllIs(records, victims[..|victims| - 1]);
      assert victims == victims[..|victims| - 1] + [victims[|victims| - 1]];
    }
  }

  lemma Plan(p: Policy, records: Records, order: seq<string>)
    requires Dictionary(records, order)
    ensures Evictions([]) == [] && DropAll(records, []) == records
    ensures Keyed(records, order)
    ensures Dictionary(records, ByAge(order, Seen(records)))
    ensures Victims(p, records, order) ==
            if |order| <= p.maxTracked then [] else ByAge(order, Seen(records))[..|order| - Capacity(p)]
  {
    SameKeys(ByAge(order, Seen(records)), order);
  }

  lemma VictimPresent(records: Records, ordered: seq<string>, i: nat)
    requires Dictionary(records, ordered) && i < |ordered|
    ensures ordered[i] in DropAll(records, ordered[..i])
  {
    DropAllIs(records, ordered[..i]);
    assert ordered[i] in ordered;
  }

  // ---------------------------------------------------------------- guessing through the table

  /** `c` only fails when it need not wait, and is never cleared, evicted or reset. Other clients do as they like. */
  predicate Serialised(p: Policy, h: seq<Event>, c: string) {
    forall i | 0 <= i < |h| ::
      !h[i].Reset? && (h[i].client == c ==> h[i].Failure? && Wait(p, Times(h[..i], c), h[i].at) == 0.0)
  }

  lemma {:induction false} SerialisedIsPatient(p: Policy, h: seq<Event>, c: string)
    requires Serialised(p, h, c) && Ordered(Times(h, c))
    ensures Patient(p, Times(h, c))
    decreases |h|
  {
    if h != [] {
      var g, e := h[..|h| - 1], h[|h| - 1];
      assert h == g + [e];
      TimesSnoc(g, e, c);
      var u := Times(g, c);
      assert Times(h, c) == if e.client == c then u + [e.at] else u;
      assert Serialised(p, g, c) by {
        forall i | 0 <= i < |g|
          ensures !g[i].Reset? && (g[i].client == c ==> g[i].Failure? && Wait(p, Times(g[..i], c), g[i].at) == 0.0)
        {
          assert g[..i] == h[..i] && g[i] == h[i];
        }
      }
      assert Ordered(u) by {
        forall i, j | 0 <= i <= j < |u| ensures u[i] <= u[j] {
          assert Times(h, c)[i] == u[i] && Times(h, c)[j] == u[j];
        }
      }
      hide Times, StreakLength, Lockout;
      SerialisedIsPatient(p, g, c);
      if e.client == c {
        assert h[..|h| - 1] == g;
        if u != [] { assert (u + [e.at])[|u| - 1] <= (u + [e.at])[|u|]; }
        PatientSnoc(p, u, e.at);
      }
    }
  }

  /** Whatever the other clients do, a guesser through the shipped table fails at most 14 times in
      any 900 s and at most 935 times in any day. */
  lemma GuessRate(records: Records, h: seq<Event>, clock: real, c: string, from: real)
    requires Refines(SHIPPED, records, h, clock) && Serialised(SHIPPED, h, c)
    ensures CountIn(Times(h, c), from, from + 900.0) <= 14
    ensures CountIn(Times(h, c), from, from + 86400.0) <= 935
  {
    assert Faithful(SHIPPED, records, h, clock, c);
    SerialisedIsPatient(SHIPPED, h, c);
    ShippedRate(Times(h, c), from);
    ShippedDailyRate(Times(h, c), from);
  }

  /** Nor can other clients help it by filling the table: while at most 4096 clients have failed no record is
      evicted, so the same bounds hold for any guesser that waits and is never accepted or reset. */
  lemma GuessRateUnlessFull(records: Records, h: seq<Event>, clock: real, c: string, from: real)
    requires Refines(SHIPPED, records, h, clock) && EvictsWhenFull(SHIPPED, h) && |Clients(h)| <= 4096
    requires forall i | 0 <= i < |h| && !h[i].Evicted? ::
               !h[i].Reset? && (h[i].client == c ==> h[i].Failure? && Wait(SHIPPED, Times(h[..i], c), h[i].at) == 0.0)
    ensures forall e | e in h :: !e.Evicted?
    ensures CountIn(Times(h, c), from, from + 900.0) <= 14
    ensures CountIn(Times(h, c), from, from + 86400.0) <= 935
  {
    forall i | 0 <= i < |h| ensures !h[i].Evicted? {
      assert h == h[..i] + h[i..];
      assert forall e | e in h[..i] :: e in h;
      SubsetSize(Clients(h[..i]), Clients(h));
    }
    GuessRate(records, h, clock, c, from);
  }

  /** And as long as no more than that have failed, a failure evicts no one. */
  lemma NoVictimsUnlessFull(records: Records, order: seq<string>, h: seq<Event>, clock: real, c: string, r: Record)
    requires Dictionary(records, order) && Refines(SHIPPED, records, h, clock) && |Clients(h) + {c}| <= 4096
    ensures Keyed(records[c := r], Keys(records, order, c))
    ensures Victims(SHIPPED, records[c := r], Keys(records, order, c)) == []
  {
    TrackedHaveFailed(SHIPPED, records, order, h, clock);
    WrittenDictionary(records, order, c, r);
    KeyCount(Keys(records, order, c), records.Keys + {c});
    SubsetSize(records.Keys + {c}, Clients(h) + {c});
  }

  /** A client new to a table of 4096 costs exactly one other its record, or its own. */
  lemma FullTableEvictsOne(records: Records, order: seq<string>, c: string, r: Record)
    requires Dictionary(records, order) && |records| == 4096 && c !in records
    ensures Keyed(records[c := r], Keys(records, order, c))
    ensures |Victims(SHIPPED, records[c := r], Keys(records, order, c))| == 1
  {
    WrittenDictionary(records, order, c, r);
    KeyCount(Keys(records, order, c), records.Keys + {c});
    assert |records.Keys + {c}| == 4097;
  }
}
