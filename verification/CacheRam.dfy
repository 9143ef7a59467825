/** The host-RAM prompt cache: one pool shared by the running children, each granted what the
    others were not, but never less than a floor. */
module CacheRam {
  const FLOOR := 4096

  /** One child's share of the pool, in MiB, given what the other children hold. */
  function Grant(pool: int, held: int): int {
    var left := pool - (if held > 0 then held else 0);
    if left > FLOOR then left else FLOOR
  }

  /** A child starts, or the child at `index` is gone. */
  datatype Event = Spawn | Exit(index: nat)

  function Sum(grants: seq<int>): int {
    if grants == [] then 0 else Sum(grants[..|grants| - 1]) + grants[|grants| - 1]
  }

  function Step(pool: int, grants: seq<int>, e: Event): seq<int> {
    match e
    case Spawn => grants + [Grant(pool, Sum(grants))]
    case Exit(i) => if i < |grants| then grants[..i] + grants[i + 1..] else grants
  }

  /** The grants of the children alive after these events. */
  function Run(pool: int, events: seq<Event>): seq<int> {
    if events == [] then [] else Step(pool, Run(pool, events[..|events| - 1]), events[|events| - 1])
  }

  function Cap(pool: int): int {
    if pool > FLOOR then pool else FLOOR
  }

  predicate Bounded(pool: int, grants: seq<int>) {
    AllFloored(grants) && (forall i | 0 <= i < |grants| :: grants[i] <= Cap(pool))
    && (grants != [] ==> Sum(grants) <= Cap(pool) + FLOOR * (|grants| - 1))
  }

  lemma {:induction false} SumConcat(a: seq<int>, b: seq<int>)
    ensures Sum(a + b) == Sum(a) + Sum(b)
  {
    if b == [] {
      assert a + b == a;
    } else {
      assert (a + b)[..|a + b| - 1] == a + b[..|b| - 1];
      SumConcat(a, b[..|b| - 1]);
    }
  }

  predicate AllFloored(grants: seq<int>) {
    forall i | 0 <= i < |grants| :: grants[i] >= FLOOR
  }

  lemma {:induction false} SumAtLeast(grants: seq<int>)
    requires AllFloored(grants)
    ensures Sum(grants) >= FLOOR * |grants|
  {
    if grants != [] { SumAtLeast(grants[..|grants| - 1]); }
  }

  lemma SumWithout(grants: seq<int>, i: nat)
    requires i < |grants|
    ensures Sum(grants[..i] + grants[i + 1..]) == Sum(grants) - grants[i]
  {
    var a, b, one := grants[..i], grants[i + 1..], [grants[i]];
    assert grants == a + (one + b);
    SumConcat(a, one + b);
    SumConcat(one, b);
    SumConcat(a, b);
    assert Sum(one) == grants[i] by { assert one[..0] == []; }
  }

  lemma ExitKeeps(pool: int, grants: seq<int>, i: nat)
    requires Bounded(pool, grants) && i < |grants|
    ensures Bounded(pool, grants[..i] + grants[i + 1..])
  {
    var rest := grants[..i] + grants[i + 1..];
    SumWithout(grants, i);
    assert AllFloored(rest) && forall j | 0 <= j < |rest| :: rest[j] <= Cap(pool);
    hide Sum, Cap, AllFloored;
    assert grants[i] >= FLOOR && |rest| == |grants| - 1;
  }

  lemma SpawnKeeps(pool: int, grants: seq<int>)
    requires Bounded(pool, grants)
    ensures Bounded(pool, grants + [Grant(pool, Sum(grants))])
  {
    SumAtLeast(grants);
    var more := grants + [Grant(pool, Sum(grants))];
    assert more[..|more| - 1] == grants;
  }

  /** Over any spawns and exits every grant is at least the floor, no grant exceeds the pool (or the floor,
      for a smaller pool), and n children together exceed it by at most a floor for each after the first. */
  lemma {:induction false} SharedBound(pool: int, events: seq<Event>)
    ensures Bounded(pool, Run(pool, events))
    decreases |events|
  {
    if events != [] {
      var grants := Run(pool, events[..|events| - 1]);
      SharedBound(pool, events[..|events| - 1]);
      match events[|events| - 1] {
        case Spawn => SpawnKeeps(pool, grants);
        case Exit(i) =>
          if i < |grants| { ExitKeeps(pool, grants, i); }
      }
    }
  }

  function Spawns(n: nat): seq<Event> {
    if n == 0 then [] else Spawns(n - 1) + [Spawn]
  }

  /** Children started one after another reach the bound. */
  lemma {:induction false} BoundAttained(pool: int, n: nat)
    requires n > 0
    ensures var grants := Run(pool, Spawns(n));
            |grants| == n && Sum(grants) == Cap(pool) + FLOOR * (n - 1)
  {
    SpawnSum(pool, Spawns(n - 1));
    if n > 1 { BoundAttained(pool, n - 1); }
  }

  lemma SpawnSum(pool: int, events: seq<Event>)
    ensures var grants, more := Run(pool, events), Run(pool, events + [Spawn]);
            |more| == |grants| + 1 && Sum(more) == Sum(grants) + Grant(pool, Sum(grants))
  {
    assert (events + [Spawn])[..|events|] == events;
    var grants := Run(pool, events);
    var more := grants + [Grant(pool, Sum(grants))];
    assert more[..|more| - 1] == grants;
  }

  /** A spawn fills the pool up, or adds the floor where less than that is left. */
  lemma TotalAfterSpawn(pool: int, events: seq<Event>)
    ensures var total := Sum(Run(pool, events));
            Sum(Run(pool, events + [Spawn])) == if pool >= total + 4096 then pool else total + 4096
  {
    SharedBound(pool, events);
    SumAtLeast(Run(pool, events));
    SpawnSum(pool, events);
  }

  /** The arrival of a child takes the total over the pool exactly when less than the floor was left for it. */
  lemma OverCommitExactly(pool: int, events: seq<Event>)
    ensures Sum(Run(pool, events + [Spawn])) > pool <==> pool - Sum(Run(pool, events)) < FLOOR
  {
    SharedBound(pool, events);
    SumAtLeast(Run(pool, events));
    SpawnSum(pool, events);
  }
}
