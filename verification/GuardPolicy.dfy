/** The lockout policy as a function of one client's failure times, and how fast it
    lets a patient guesser guess. Times are seconds on a monotonic clock. */
module GuardPolicy {
  datatype Policy = Policy(free: int, window: real, base: real, max: real, maxTracked: int)

  /** The constants the program ships. */
  const SHIPPED := Policy(3, 900.0, 1.0, 300.0, 4096)

  /** `base * 2 ** e`. */
  function Doubled(base: real, e: nat): real {
    if e == 0 then base else 2.0 * Doubled(base, e - 1)
  }

  function Min(a: real, b: real): real { if a <= b then a else b }

  /** The lockout after `failures` failures in a row; the exponent is capped at 32. */
  function Lockout(p: Policy, failures: nat): real {
    var over := failures - p.free;
    if over <= 0 then 0.0
    else Min(p.max, Doubled(p.base, if over - 1 <= 32 then over - 1 else 32))
  }

  /** Lockouts that never shrink as failures mount. */
  predicate Sane(p: Policy) { p.base >= 0.0 && p.max >= 0.0 }

  // ---------------------------------------------------------------- one client's failure times

  predicate Ordered(ts: seq<real>) {
    forall i, j | 0 <= i <= j < |ts| :: ts[i] <= ts[j]
  }

  /** How many of the last failures form one streak: no quiet gap of `window` between them. */
  function StreakLength(p: Policy, ts: seq<real>): nat {
    if ts == [] then 0
    else if |ts| == 1 || ts[|ts| - 1] - ts[|ts| - 2] >= p.window then 1
    else 1 + StreakLength(p, ts[..|ts| - 1])
  }

  function Forgotten(p: Policy, ts: seq<real>, now: real): bool {
    ts == [] || now - ts[|ts| - 1] >= p.window
  }

  /** Seconds a client with these failure times must wait at `now`. */
  function Wait(p: Policy, ts: seq<real>, now: real): real {
    if Forgotten(p, ts, now) then 0.0
    else
      var left := ts[|ts| - 1] + Lockout(p, StreakLength(p, ts)) - now;
      if left > 0.0 then left else 0.0
  }

  /** A client that only tries when it need not wait, one try at a time, and always fails. */
  predicate Patient(p: Policy, ts: seq<real>) {
    Ordered(ts) && forall i | 0 <= i < |ts| :: Wait(p, ts[..i], ts[i]) == 0.0
  }

  // ---------------------------------------------------------------- the exponent cap

  function UncappedLockout(p: Policy, failures: nat): real {
    var over := failures - p.free;
    if over <= 0 then 0.0 else Min(p.max, Doubled(p.base, over - 1))
  }

  lemma {:induction false} DoubledMonotone(base: real, m: nat, n: nat)
    requires base >= 0.0 && m <= n
    ensures 0.0 <= base <= Doubled(base, m) <= Doubled(base, n)
    decreases n
  {
    if m < n { DoubledMonotone(base, m, n - 1); } else if m > 0 { DoubledMonotone(base, m - 1, n - 1); }
  }

  /** Capping the exponent changes no lockout exactly when the cap on the result is reached by then. */
  lemma ExponentCapHarmless(p: Policy)
    requires p.base > 0.0 && p.free >= 0
    ensures (forall n: nat :: Lockout(p, n) == UncappedLockout(p, n)) <==> Doubled(p.base, 32) >= p.max
  {
    if Doubled(p.base, 32) >= p.max {
      forall n: nat ensures Lockout(p, n) == UncappedLockout(p, n) {
        if n - p.free - 1 > 32 { DoubledMonotone(p.base, 32, n - p.free - 1); }
      }
    } else {
      var n := p.free + 34;
      DoubledMonotone(p.base, 0, 32);
      assert Doubled(p.base, 33) == 2.0 * Doubled(p.base, 32);
      assert Lockout(p, n) != UncappedLockout(p, n);
    }
  }

  // ---------------------------------------------------------------- forgetting

  lemma LockoutBounded(p: Policy, n: nat)
    requires Sane(p)
    ensures 0.0 <= Lockout(p, n) <= p.max
  {
    var over := n - p.free;
    if over > 0 { DoubledMonotone(p.base, 0, if over - 1 <= 32 then over - 1 else 32); }
  }

  /** Seconds left of the last lockout, were the record never dropped. */
  function Remembered(p: Policy, ts: seq<real>, now: real): real
    requires ts != []
  {
    var left := ts[|ts| - 1] + Lockout(p, StreakLength(p, ts)) - now;
    if left > 0.0 then left else 0.0
  }

  /** The first failure of a streak from which the lockout no longer grows. */
  function Top(p: Policy): nat { if p.free + 33 >= 1 then p.free + 33 else 1 }

  lemma LockoutAtMost(p: Policy, n: nat)
    requires Sane(p) && n >= 1
    ensures Lockout(p, n) <= Lockout(p, Top(p))
  {
    if n <= Top(p) { LockoutMonotone(p, n, Top(p)); }
  }

  /** Dropping a record after `window_s` of quiet never cuts a wait short exactly when the window is at least the
      longest lockout or, where the window is not positive and no streak forms, a single failure has none. */
  lemma ForgettingHarmless(p: Policy)
    requires Sane(p)
    ensures (forall ts, now | ts != [] && Ordered(ts) && ts[|ts| - 1] <= now
            :: Wait(p, ts, now) == Remembered(p, ts, now))
            <==> if p.window > 0.0 then p.window >= Lockout(p, Top(p)) else Lockout(p, 1) == 0.0
  {
    if if p.window > 0.0 then p.window >= Lockout(p, Top(p)) else Lockout(p, 1) == 0.0 {
      forall ts, now | ts != [] && Ordered(ts) && ts[|ts| - 1] <= now
        ensures Wait(p, ts, now) == Remembered(p, ts, now) {
        StreakPositive(p, ts, |ts| - 1);
        assert ts[..|ts|] == ts;
        LockoutAtMost(p, StreakLength(p, ts));
        if p.window <= 0.0 { assert |ts| > 1 ==> ts[|ts| - 2] <= ts[|ts| - 1]; }
      }
    } else {
      var ts := if p.window > 0.0 then AtOnce(Top(p)) else [0.0];
      var now := if p.window > 0.0 then p.window else 0.0;
      LockoutBounded(p, 1);
      if p.window > 0.0 { AtOnceIs(p, Top(p)); }
      assert Wait(p, ts, now) == 0.0 < Remembered(p, ts, now);
    }
  }

  /** `n` failures at the same moment. */
  function AtOnce(n: nat): seq<real> {
    if n == 0 then [] else AtOnce(n - 1) + [0.0]
  }

  lemma {:induction false} AtOnceIs(p: Policy, n: nat)
    requires p.window > 0.0
    ensures |AtOnce(n)| == n && StreakLength(p, AtOnce(n)) == n && forall i | 0 <= i < n :: AtOnce(n)[i] == 0.0
  {
    if n > 0 {
      AtOnceIs(p, n - 1);
      assert AtOnce(n) == AtOnce(n - 1) + [0.0] && AtOnce(n)[..n - 1] == AtOnce(n - 1);
      hide AtOnce;
    }
  }

  // ---------------------------------------------------------------- streaks are slow

  function LockoutSum(p: Policy, from: nat, count: nat): real {
    if count == 0 then 0.0 else LockoutSum(p, from, count - 1) + Lockout(p, from + count - 1)
  }

  lemma LockoutMonotone(p: Policy, m: nat, n: nat)
    requires Sane(p) && m <= n
    ensures Lockout(p, m) <= Lockout(p, n)
  {
    LockoutBounded(p, n);
    if m > p.free {
      DoubledMonotone(p.base, if m - p.free - 1 <= 32 then m - p.free - 1 else 32,
                      if n - p.free - 1 <= 32 then n - p.free - 1 else 32);
    }
  }

  lemma {:induction false} LockoutSumMonotone(p: Policy, from: nat, count: nat)
    requires Sane(p) && from >= 1
    ensures LockoutSum(p, from, count) >= LockoutSum(p, 1, count)
  {
    if count > 0 {
      LockoutSumMonotone(p, from, count - 1);
      LockoutMonotone(p, count, from + count - 1);
    }
  }

  lemma StreakStep(p: Policy, ts: seq<real>, i: nat)
    requires i + 1 < |ts|
    ensures StreakLength(p, ts[..i + 2])
            == if ts[i + 1] - ts[i] >= p.window then 1 else 1 + StreakLength(p, ts[..i + 1])
    ensures StreakLength(p, ts[..i + 1]) >= 1
  {
    assert ts[..i + 2][..i + 1] == ts[..i + 1];
  }

  lemma PatientStep(p: Policy, ts: seq<real>, i: nat)
    requires Patient(p, ts) && i + 1 < |ts| && ts[i + 1] - ts[i] < p.window
    ensures ts[i + 1] - ts[i] >= Lockout(p, StreakLength(p, ts[..i + 1]))
  {
    hide StreakLength, Lockout;
    assert Wait(p, ts[..i + 1], ts[i + 1]) == 0.0;
  }

  lemma StreakPositive(p: Policy, ts: seq<real>, i: nat)
    requires i < |ts|
    ensures StreakLength(p, ts[..i + 1]) >= 1
  {}

  lemma LockoutSumStep(p: Policy, from: nat, n: nat := 0)
    ensures LockoutSum(p, from, n + 1) == LockoutSum(p, from, n) + Lockout(p, from + n)
    ensures n == 0 ==> LockoutSum(p, from, n) == 0.0
  {}

  /** Between failures `a` and `b` of one unbroken streak lie all the lockouts in between. */
  lemma {:induction false} StreakSpan(p: Policy, ts: seq<real>, a: nat, b: nat)
    requires Patient(p, ts) && a <= b < |ts|
    requires forall i | a <= i < b :: ts[i + 1] - ts[i] < p.window
    ensures var k := StreakLength(p, ts[..a + 1]);
            k >= 1 && StreakLength(p, ts[..b + 1]) == k + (b - a) && ts[b] - ts[a] >= LockoutSum(p, k, b - a)
    decreases b - a
  {
    hide *;
    var k := StreakLength(p, ts[..a + 1]);
    LockoutSumStep(p, k);
    if a == b {
      StreakPositive(p, ts, a);
    } else {
      LockoutSumStep(p, k, b - 1 - a);
      StreakSpan(p, ts, a, b - 1);
      StreakStep(p, ts, b - 1);
      assert ts[b - 1 + 1] - ts[b - 1] < p.window;
      PatientStep(p, ts, b - 1);
    }
  }

  /** Failure k + 1 of an unbroken streak comes at least the first k lockouts after its first. */
  lemma StreakIsSlow(p: Policy, ts: seq<real>, a: nat, k: nat)
    requires Sane(p) && Patient(p, ts) && a + k < |ts|
    requires forall i | a <= i < a + k :: ts[i + 1] - ts[i] < p.window
    ensures ts[a + k] - ts[a] >= LockoutSum(p, 1, k)
  {
    StreakSpan(p, ts, a, a + k);
    LockoutSumMonotone(p, StreakLength(p, ts[..a + 1]), k);
  }

  // ---------------------------------------------------------------- the shipped rate

  lemma ShippedLockouts()
    ensures LockoutSum(SHIPPED, 1, 13) == 811.0 && LockoutSum(SHIPPED, 1, 14) == 1111.0
    ensures forall n: nat :: Lockout(SHIPPED, n) <= 300.0
  {
    ShippedLockoutTable();
    forall n: nat ensures Lockout(SHIPPED, n) <= 300.0 { LockoutBounded(SHIPPED, n); }
    assert LockoutSum(SHIPPED, 1, 3) == 0.0;
    assert LockoutSum(SHIPPED, 1, 6) == 7.0;
    assert LockoutSum(SHIPPED, 1, 9) == 63.0;
    assert LockoutSum(SHIPPED, 1, 12) == 511.0;
  }

  lemma ShippedLockoutTable()
    ensures forall n: nat | n <= 3 :: Lockout(SHIPPED, n) == 0.0
    ensures Lockout(SHIPPED, 4) == 1.0 && Lockout(SHIPPED, 5) == 2.0 && Lockout(SHIPPED, 6) == 4.0
    ensures Lockout(SHIPPED, 7) == 8.0 && Lockout(SHIPPED, 8) == 16.0 && Lockout(SHIPPED, 9) == 32.0
    ensures Lockout(SHIPPED, 10) == 64.0 && Lockout(SHIPPED, 11) == 128.0 && Lockout(SHIPPED, 12) == 256.0
    ensures Lockout(SHIPPED, 13) == 300.0 && Lockout(SHIPPED, 14) == 300.0
  {
    assert Doubled(1.0, 3) == 8.0 && Doubled(1.0, 6) == 64.0 && Doubled(1.0, 9) == 512.0;
  }

  function CountIn(ts: seq<real>, from: real, until: real): nat {
    if ts == [] then 0
    else CountIn(ts[..|ts| - 1], from, until) + (if from <= ts[|ts| - 1] < until then 1 else 0)
  }

  /** The failures inside an interval are consecutive. */
  lemma {:induction false} CountedAreConsecutive(ts: seq<real>, from: real, until: real) returns (a: nat, b: nat)
    requires Ordered(ts) && CountIn(ts, from, until) > 0
    ensures a <= b < |ts| && CountIn(ts, from, until) == b - a + 1
    ensures from <= ts[a] && ts[b] < until && forall i | b < i < |ts| :: ts[i] >= until
    decreases |ts|
  {
    var n := |ts| - 1;
    var rest := ts[..n];
    if CountIn(rest, from, until) == 0 {
      a, b := n, n;
    } else {
      a, b := CountedAreConsecutive(rest, from, until);
      assert rest[b] == ts[b] && rest[n - 1] == ts[n - 1] <= ts[n];
      if ts[n] < until {
        b := n;
      }
    }
  }

  /** At most 14 failures in any half-open 900 s interval. */
  lemma ShippedRate(ts: seq<real>, from: real)
    requires Patient(SHIPPED, ts)
    ensures CountIn(ts, from, from + 900.0) <= 14
  {
    if CountIn(ts, from, from + 900.0) > 14 {
      var a, b := CountedAreConsecutive(ts, from, from + 900.0);
      forall i | a <= i < a + 14 ensures ts[i + 1] - ts[i] < SHIPPED.window {
        assert ts[a] <= ts[i] && ts[i + 1] <= ts[b];
      }
      assert ts[a + 14] <= ts[b];
      StreakIsSlow(SHIPPED, ts, a, 14);
      ShippedLockouts();
    }
  }

  /** Failures up to `i`, none before `a`, with no quiet gap of `window` between them. */
  function RunFrom(p: Policy, ts: seq<real>, a: nat, i: nat): (r: nat)
    requires a <= i < |ts|
    ensures 1 <= r <= i - a + 1
    decreases i
  {
    if i == a || ts[i] - ts[i - 1] >= p.window then 1 else 1 + RunFrom(p, ts, a, i - 1)
  }

  lemma {:induction false} RunIsInStreak(p: Policy, ts: seq<real>, a: nat, i: nat)
    requires a <= i < |ts|
    ensures RunFrom(p, ts, a, i) <= StreakLength(p, ts[..i + 1])
    decreases i
  {
    if i > a {
      RunIsInStreak(p, ts, a, i - 1);
      StreakStep(p, ts, i - 1);
    }
  }

  /** A streak of `s` failures with the quiet window after it takes at least 1027/11 s a failure: 11 is best. */
  lemma {:induction false} StreakCost(s: nat)
    requires s >= 1
    ensures 11.0 * (LockoutSum(SHIPPED, 1, s - 1) + 900.0) >= 1027.0 * s as real
    decreases s
  {
    SumTable();
    if s > 14 {
      StreakCost(s - 1);
      LockoutSumStep(SHIPPED, 1, s - 2);
      LockoutMonotone(SHIPPED, 14, s - 1);
      ShippedLockoutTable();
    }
  }

  lemma SumTable()
    ensures forall n: nat | n <= 3 :: LockoutSum(SHIPPED, 1, n) == 0.0
    ensures LockoutSum(SHIPPED, 1, 4) == 1.0 && LockoutSum(SHIPPED, 1, 5) == 3.0 && LockoutSum(SHIPPED, 1, 6) == 7.0
    ensures LockoutSum(SHIPPED, 1, 7) == 15.0 && LockoutSum(SHIPPED, 1, 8) == 31.0 && LockoutSum(SHIPPED, 1, 9) == 63.0
    ensures LockoutSum(SHIPPED, 1, 10) == 127.0 && LockoutSum(SHIPPED, 1, 11) == 255.0
    ensures LockoutSum(SHIPPED, 1, 12) == 511.0 && LockoutSum(SHIPPED, 1, 13) == 811.0
  {
    ShippedLockoutTable();
    hide Lockout;
    assert LockoutSum(SHIPPED, 1, 3) == 0.0;
    assert LockoutSum(SHIPPED, 1, 6) == 7.0;
    assert LockoutSum(SHIPPED, 1, 9) == 63.0;
    assert LockoutSum(SHIPPED, 1, 12) == 511.0;
  }

  /** Finished streaks have paid for their failures, the current one for the lockouts inside it. */
  lemma {:induction false} Amortised(ts: seq<real>, a: nat, i: nat)
    requires Patient(SHIPPED, ts) && a <= i < |ts|
    ensures var s := RunFrom(SHIPPED, ts, a, i);
            11.0 * (ts[i] - ts[a]) >= 1027.0 * (i - a + 1 - s) as real + 11.0 * LockoutSum(SHIPPED, 1, s - 1)
    decreases i
  {
    hide Patient, LockoutSum, StreakLength, Lockout;
    if i > a {
      var s := RunFrom(SHIPPED, ts, a, i - 1);
      Amortised(ts, a, i - 1);
      if ts[i] - ts[i - 1] >= 900.0 {
        StreakCost(s);
        LockoutSumStep(SHIPPED, 1);
      } else {
        PatientStep(SHIPPED, ts, i - 1);
        RunIsInStreak(SHIPPED, ts, a, i - 1);
        LockoutMonotone(SHIPPED, s, StreakLength(SHIPPED, ts[..i]));
        LockoutSumStep(SHIPPED, 1, s - 1);
      }
    } else {
      LockoutSumStep(SHIPPED, 1);
    }
  }

  lemma BlockRate(ts: seq<real>, a: nat, b: nat)
    requires Patient(SHIPPED, ts) && a <= b < |ts|
    ensures 1027.0 * (b - a + 1) as real <= 11.0 * (ts[b] - ts[a] + 900.0)
  {
    hide *;
    var s := RunFrom(SHIPPED, ts, a, b);
    Amortised(ts, a, b);
    StreakCost(s);
    assert (b - a + 1 - s) as real == (b - a + 1) as real - s as real;
  }

  /** Over any interval the failures take at least 1027/11 s each, but for 900 s to start with. */
  lemma LongRunRate(ts: seq<real>, from: real, until: real)
    requires Patient(SHIPPED, ts) && from <= until
    ensures 1027.0 * CountIn(ts, from, until) as real < 11.0 * (until - from + 900.0)
  {
    var n := CountIn(ts, from, until);
    if n > 0 {
      var a, b := CountedAreConsecutive(ts, from, until);
      var taken := ts[b] - ts[a];
      assert taken < until - from && n == b - a + 1;
      BlockRate(ts, a, b);
      hide *;
      assert 1027.0 * n as real <= 11.0 * (taken + 900.0);
    }
  }

  /** At most 935 guesses in any day. */
  lemma ShippedDailyRate(ts: seq<real>, from: real)
    requires Patient(SHIPPED, ts)
    ensures CountIn(ts, from, from + 86400.0) <= 935
  {
    LongRunRate(ts, from, from + 86400.0);
  }

  // ---------------------------------------------------------------- how much of it can be reached

  /** The fastest run of `n` failures in one streak: each as soon as the lockout allows. */
  function Eager(p: Policy, n: nat): seq<real> {
    if n == 0 then [] else Eager(p, n - 1) + [LockoutSum(p, 1, n - 1)]
  }

  lemma PatientSnoc(p: Policy, u: seq<real>, t: real)
    requires Patient(p, u) && (u != [] ==> u[|u| - 1] <= t) && Wait(p, u, t) == 0.0
    ensures Patient(p, u + [t])
    ensures StreakLength(p, u + [t]) == if u == [] || t - u[|u| - 1] >= p.window then 1 else 1 + StreakLength(p, u)
  {
    hide Wait;
    var ts := u + [t];
    assert ts[..|u|] == u;
    forall i | 0 <= i < |ts| ensures Wait(p, ts[..i], ts[i]) == 0.0 {
      if i < |u| { assert ts[..i] == u[..i]; }
    }
  }

  lemma EmptyRun(p: Policy)
    ensures Eager(p, 0) == [] == Rounds(0) && Patient(p, []) && StreakLength(p, []) == 0
  {}

  lemma EagerStep(p: Policy, n: nat)
    ensures Eager(p, n + 1) == Eager(p, n) + [LockoutSum(p, 1, n)]
  {}

  lemma WaitAt(p: Policy, u: seq<real>, t: real)
    requires u != [] ==> t - u[|u| - 1] >= p.window || t >= u[|u| - 1] + Lockout(p, StreakLength(p, u))
    ensures Wait(p, u, t) == 0.0
  {}

  lemma {:induction false} EagerIsPatient(p: Policy, n: nat)
    requires Sane(p) && p.window > 0.0 && forall k: nat | k < n :: Lockout(p, k) < p.window
    ensures var ts := Eager(p, n);
            |ts| == n && Patient(p, ts) && StreakLength(p, ts) == n
            && (n > 0 ==> ts[n - 1] == LockoutSum(p, 1, n - 1))
    decreases n
  {
    hide *;
    EmptyRun(p);
    if n > 0 {
      EagerIsPatient(p, n - 1);
      EagerStep(p, n - 1);
      assert Sane(p);
      LockoutBounded(p, n - 1);
      if n > 1 { LockoutSumStep(p, 1, n - 2); }
      WaitAt(p, Eager(p, n - 1), LockoutSum(p, 1, n - 1));
      PatientSnoc(p, Eager(p, n - 1), LockoutSum(p, 1, n - 1));
    }
  }

  lemma {:induction false} AllCounted(ts: seq<real>, from: real, until: real)
    requires forall i | 0 <= i < |ts| :: from <= ts[i] < until
    ensures CountIn(ts, from, until) == |ts|
    decreases |ts|
  {
    if ts != [] { AllCounted(ts[..|ts| - 1], from, until); }
  }

  /** The bound of 14 is attained. */
  lemma ShippedRateAttained()
    ensures Patient(SHIPPED, Eager(SHIPPED, 14)) && CountIn(Eager(SHIPPED, 14), 0.0, 900.0) == 14
  {
    ShippedLockouts();
    EagerIsPatient(SHIPPED, 14);
    var ts := Eager(SHIPPED, 14);
    assert ts[13] == 811.0;
    assert ts[0] == 0.0 by { EagerStart(SHIPPED, 14); }
    AllCounted(ts, 0.0, 900.0);
  }

  lemma {:induction false} EagerStart(p: Policy, n: nat)
    requires n > 0
    ensures |Eager(p, n)| == n && Eager(p, n)[0] == 0.0
  {
    if n > 1 { EagerStart(p, n - 1); }
  }

  /** Eleven tries, each as soon as the lockout allows, then 900 s of quiet: the streak starts over. */
  function TryTime(i: nat): real { 1027.0 * (i / 11) as real + LockoutSum(SHIPPED, 1, i % 11) }

  function Rounds(n: nat): seq<real> {
    if n == 0 then [] else Rounds(n - 1) + [TryTime(n - 1)]
  }

  /** Which of its round's eleven tries try `i` is. */
  function Turn(i: nat): nat { i % 11 + 1 }

  lemma NextTry(i: nat)
    ensures TryTime(i + 1) - TryTime(i) == if Turn(i) == 11 then 900.0 else Lockout(SHIPPED, Turn(i))
    ensures Turn(i + 1) == (if Turn(i) == 11 then 1 else Turn(i) + 1) && 1 <= Turn(i) <= 11
  {
    SumTable();
    LockoutSumStep(SHIPPED, 1, i % 11);
    hide LockoutSum, Lockout;
    if (i + 1) % 11 == 0 {
      assert (i + 1) / 11 == i / 11 + 1 && i % 11 == 10;
    } else {
      assert (i + 1) / 11 == i / 11 && (i + 1) % 11 == i % 11 + 1;
    }
  }

  predicate RoundsRun(n: nat) {
    var ts := Rounds(n);
    |ts| == n && Patient(SHIPPED, ts) && (n > 0 ==> ts[n - 1] == TryTime(n - 1))
    && StreakLength(SHIPPED, ts) == if n == 0 then 0 else Turn(n - 1)
  }

  lemma RoundsWait(n: nat)
    requires RoundsRun(n)
    ensures Wait(SHIPPED, Rounds(n), TryTime(n)) == 0.0
    ensures n > 0 ==> TryTime(n) >= TryTime(n - 1)
    ensures n > 0 ==> (TryTime(n) - TryTime(n - 1) >= SHIPPED.window <==> Turn(n - 1) == 11)
    ensures Turn(n) == if n == 0 || Turn(n - 1) == 11 then 1 else 1 + Turn(n - 1)
  {
    if n > 0 {
      NextTry(n - 1);
      LockoutBounded(SHIPPED, Turn(n - 1));
    }
    hide TryTime, Turn, Rounds, Patient, StreakLength, Lockout;
    WaitAt(SHIPPED, Rounds(n), TryTime(n));
  }

  lemma {:induction false} RoundsArePatient(n: nat)
    ensures RoundsRun(n)
    decreases n
  {
    hide *;
    if n > 0 {
      RoundsArePatient(n - 1);
      RoundsWait(n - 1);
      RoundsGrow(n - 1);
    } else {
      NoRounds();
    }
  }

  lemma NoRounds()
    ensures RoundsRun(0)
  {
    EmptyRun(SHIPPED);
  }

  lemma RoundsGrow(n: nat)
    requires RoundsRun(n)
    requires Wait(SHIPPED, Rounds(n), TryTime(n)) == 0.0 && (n > 0 ==> TryTime(n) >= TryTime(n - 1))
    requires n > 0 ==> (TryTime(n) - TryTime(n - 1) >= SHIPPED.window <==> Turn(n - 1) == 11)
    requires Turn(n) == if n == 0 || Turn(n - 1) == 11 then 1 else 1 + Turn(n - 1)
    ensures RoundsRun(n + 1)
  {
    assert Rounds(n + 1) == Rounds(n) + [TryTime(n)];
    hide TryTime, Turn, Rounds, Patient, StreakLength, Lockout, Wait;
    PatientSnoc(SHIPPED, Rounds(n), TryTime(n));
  }

  lemma {:induction false} RoundsWithin(n: nat)
    requires n <= 935
    ensures CountIn(Rounds(n), 0.0, 86400.0) == n
  {
    if n > 0 {
      RoundsWithin(n - 1);
      assert Rounds(n)[..|Rounds(n)| - 1] == Rounds(n - 1);
      TryWithin(n - 1);
    }
  }

  lemma TryWithin(i: nat)
    requires i < 935
    ensures 0.0 <= TryTime(i) < 86400.0
  {
    SumTable();
    assert i / 11 <= 84;
    assert LockoutSum(SHIPPED, 1, i % 11) <= 127.0;
  }

  /** And 935 it can be, so the documented "under 300 guesses a day" does not hold: the window resets
      the streak, and rounds of eleven tries never have to wait for longer. */
  lemma DailyRateAttained()
    ensures Patient(SHIPPED, Rounds(935)) && CountIn(Rounds(935), 0.0, 86400.0) == 935
  {
    RoundsArePatient(935);
    RoundsWithin(935);
  }
}
