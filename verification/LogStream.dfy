/** `log stream`: following a log through an endpoint that returns only its last lines. Each
    poll is matched against the one before by the longest overlap, and the rest is printed. */
module LogStream {
  import opened Text

  /** The last `w` items. */
  function Tail<T>(s: seq<T>, w: nat): seq<T> {
    if |s| <= w then s else s[|s| - w..]
  }

  /** The last `k` of `previous` are the first `k` of `current`. */
  predicate Overlaps<Line(==)>(previous: seq<Line>, current: seq<Line>, k: nat) {
    k <= |previous| && k <= |current| && previous[|previous| - k..] == current[..k]
  }

  predicate Longest<Line(==)>(previous: seq<Line>, current: seq<Line>, k: nat) {
    Overlaps(previous, current, k) && forall j | k < j <= |current| :: !Overlaps(previous, current, j)
  }

  /** The longest overlap of at most `k` lines. */
  function OverlapUpTo<Line(==)>(previous: seq<Line>, current: seq<Line>, k: nat): (r: nat)
    ensures r <= k && Overlaps(previous, current, r)
    ensures forall j | r < j <= k :: !Overlaps(previous, current, j)
  {
    if k == 0 || Overlaps(previous, current, k) then k else OverlapUpTo(previous, current, k - 1)
  }

  /** What a poll has that the one before did not show. */
  function Unseen<Line(==)>(previous: seq<Line>, current: seq<Line>): seq<Line> {
    current[OverlapUpTo(previous, current, |current|)..]
  }

  lemma UnseenIs<Line>(previous: seq<Line>, current: seq<Line>, k: nat)
    requires Longest(previous, current, k)
    ensures Unseen(previous, current) == current[k..]
  {
    var r := OverlapUpTo(previous, current, |current|);
    assert k <= |current| && r <= |current|;
  }

  /** The search of `_new_lines`: exactly the longest overlap is dropped, and nothing when there is none. */
  method NewLines<Line(==)>(previous: seq<Line>, current: seq<Line>) returns (unseen: seq<Line>)
    ensures exists k: nat :: Longest(previous, current, k) && unseen == current[k..]
    ensures unseen == Unseen(previous, current)
  {
    var least := if |previous| < |current| then |previous| else |current|;
    for size := least + 1 downto 1
      invariant forall j | size <= j <= |current| :: !Overlaps(previous, current, j)
    {
      if Overlaps(previous, current, size) {
        UnseenIs(previous, current, size);
        return current[size..];
      }
    }
    assert Longest(previous, current, 0);
    UnseenIs(previous, current, 0);
    assert current[0..] == current;
    return current;
  }

  /** `fresh[-n:]`: the last `n` for a positive `n`, everything for 0, all but the first `-n` for a negative one. */
  function Shown<Line>(n: int, unseen: seq<Line>): seq<Line> {
    if n > 0 then Tail(unseen, n) else if -n <= |unseen| then unseen[-n..] else []
  }

  /** What a first poll shows. */
  lemma ShownIs<Line>(n: int, lines: seq<Line>)
    ensures n == 0 ==> Shown(n, lines) == lines
    ensures 0 < n <= |lines| ==> |Shown(n, lines)| == n && Shown(n, lines) == lines[|lines| - n..]
    ensures n > |lines| ==> Shown(n, lines) == lines
    ensures n < 0 ==> Shown(n, lines) == if -n <= |lines| then lines[-n..] else []
  {}

  function Poll<Line(==)>(n: int, seen: seq<Line>, lines: seq<Line>): seq<Line> {
    if seen == [] then Shown(n, Unseen(seen, lines)) else Unseen(seen, lines)
  }

  /** Everything printed over these polls, `seen` being the poll before them. */
  function Printed<Line(==)>(n: int, seen: seq<Line>, polls: seq<seq<Line>>): seq<Line>
    decreases |polls|
  {
    if polls == [] then [] else Poll(n, seen, polls[0]) + Printed(n, polls[0], polls[1..])
  }

  lemma PrintedUnfold<Line>(n: int, seen: seq<Line>, polls: seq<seq<Line>>, i: nat)
    requires i < |polls|
    ensures Printed(n, seen, polls[i..]) == Poll(n, seen, polls[i]) + Printed(n, polls[i], polls[i + 1..])
  {
    assert polls[i..][1..] == polls[i + 1..];
  }

  /** The loop, until Ctrl-C, an error or the last poll; without `follow` it stops after one. */
  method Stream<Line(==)>(n: int, follow: bool, polls: seq<seq<Line>>) returns (printed: seq<Line>)
    ensures printed == Printed(n, [], if follow || |polls| <= 1 then polls else polls[..1])
  {
    printed := [];
    var seen: seq<Line> := [];
    ghost var taken := if follow || |polls| <= 1 then polls else polls[..1];
    assert taken[0..] == taken;
    ghost var total := Printed(n, [], taken);
    hide *;
    for i := 0 to |polls|
      invariant i <= |taken| && seen == (if i == 0 then [] else polls[i - 1])
      invariant follow || i == 0
      invariant printed + Printed(n, seen, taken[i..]) == total
    {
      var unseen := NewLines(seen, polls[i]);
      if seen == [] {
        unseen := Shown(n, unseen);
      }
      PollIs(n, seen, polls[i]);
      PrintedUnfold(n, seen, taken, i);
      Associative(printed, unseen, Printed(n, polls[i], taken[i + 1..]));
      printed := Echo(printed, unseen);
      seen := polls[i];
      if !follow {
        PrintedDone(n, seen, taken[i + 1..]);
        return;
      }
    }
    PrintedDone(n, seen, taken[|polls|..]);
  }

  lemma PollIs<Line>(n: int, seen: seq<Line>, lines: seq<Line>)
    ensures Poll(n, seen, lines) == if seen == [] then Shown(n, Unseen(seen, lines)) else Unseen(seen, lines)
  {}

  lemma PrintedDone<Line>(n: int, seen: seq<Line>, polls: seq<seq<Line>>)
    requires polls == []
    ensures Printed(n, seen, polls) == []
  {}

  method Echo<Line>(printed: seq<Line>, lines: seq<Line>) returns (out: seq<Line>)
    ensures out == printed + lines
  {
    out := printed;
    for j := 0 to |lines|
      invariant out == printed + lines[..j]
    {
      out := out + [lines[j]];
    }
  }

  // ---------------------------------------------------------------- an append-only log

  /** Successive states of a log: each extends the one before. */
  predicate Grows<Line(==)>(history: seq<seq<Line>>) {
    forall i | 0 <= i < |history| - 1 :: history[i] <= history[i + 1]
  }

  predicate Distinct<Line(==)>(s: seq<Line>) {
    forall i, j | 0 <= i < j < |s| :: s[i] != s[j]
  }

  /** What was appended between state `a` and the later state `b`. */
  function Since<Line>(a: seq<Line>, b: seq<Line>): seq<Line> {
    if |a| <= |b| then b[|a|..] else []
  }

  function Last<Line>(history: seq<seq<Line>>): seq<Line>
    requires history != []
  {
    history[|history| - 1]
  }

  /** What the endpoint answers for each state: its last `w` lines. */
  function Windows<Line>(history: seq<seq<Line>>, w: nat): seq<seq<Line>> {
    if history == [] then [] else [Tail(history[0], w)] + Windows(history[1..], w)
  }

  /** No more than a window of lines arrives between two polls. */
  predicate KeepsUp<Line>(history: seq<seq<Line>>, w: nat) {
    forall i | 0 <= i < |history| - 1 :: |history[i + 1]| - |history[i]| <= w
  }

  /** The window holds all that is new, and overlaps the one before by nothing longer than what they share. */
  predicate Fits<Line(==)>(a: seq<Line>, b: seq<Line>, w: nat) {
    var previous, current, grown := Tail(a, w), Tail(b, w), |b| - |a|;
    grown <= w && forall j | |current| - grown < j <= |current| :: !Overlaps(previous, current, j)
  }

  predicate AllFit<Line(==)>(history: seq<seq<Line>>, w: nat)
    decreases |history|
  {
    |history| <= 1 || (Fits(history[0], history[1], w) && AllFit(history[1..], w))
  }

  /** Repeats or not, a poll prints only lines that came since the last one, and the newest of them. */
  lemma NeverTwice<Line>(a: seq<Line>, b: seq<Line>, w: nat)
    requires a <= b
    ensures var unseen := Unseen(Tail(a, w), Tail(b, w));
            |unseen| <= |b| - |a| && unseen == Tail(Since(a, b), |unseen|)
  {
    var previous, current := Tail(a, w), Tail(b, w);
    if |b| - |a| < |current| { KeptPart(a, b, w); }
    var k := OverlapUpTo(previous, current, |current|);
    hide Overlaps, OverlapUpTo, Since;
    assert Unseen(previous, current) == current[k..];
    hide Tail, Unseen;
    EndOfTail(a, b, w, k);
  }

  lemma EndOfTail<Line>(a: seq<Line>, b: seq<Line>, w: nat, k: nat)
    requires a <= b && k <= |Tail(b, w)| <= k + |b| - |a|
    ensures Tail(b, w)[k..] == Tail(Since(a, b), |Tail(b, w)| - k)
  {}

  /** The part of the last window still in the next one is an overlap. */
  lemma KeptPart<Line>(a: seq<Line>, b: seq<Line>, w: nat)
    requires a <= b && |b| - |a| < |Tail(b, w)|
    ensures Overlaps(Tail(a, w), Tail(b, w), |Tail(b, w)| - (|b| - |a|))
  {
    var k := |Tail(b, w)| - (|b| - |a|);
    var from := |a| - k;
    assert from == |b| - |Tail(b, w)|;
    assert Tail(a, w)[|Tail(a, w)| - k..] == a[from..];
    assert Tail(b, w)[..k] == b[from..|a|];
    hide Tail;
    assert a[from..] == b[from..|a|];
  }

  /** Repeats or not, a poll prints all that is new exactly when its window fits. */
  lemma PollIsExact<Line>(a: seq<Line>, b: seq<Line>, w: nat)
    requires a <= b
    ensures Unseen(Tail(a, w), Tail(b, w)) == Since(a, b) <==> Fits(a, b, w)
  {
    var previous, current, grown := Tail(a, w), Tail(b, w), |b| - |a|;
    NeverTwice(a, b, w);
    if grown < |current| { KeptPart(a, b, w); }
    var k := OverlapUpTo(previous, current, |current|);
    assert |Unseen(previous, current)| == |current| - k && |Since(a, b)| == grown;
    assert |current| == if w < |b| then w else |b|;
    hide Unseen, Since, Overlaps, OverlapUpTo;
    WholeTail(Since(a, b));
  }

  lemma WholeTail<T>(s: seq<T>)
    ensures Tail(s, |s|) == s
  {}

  /** With distinct lines no longer part is one. */
  lemma NoOther<Line>(a: seq<Line>, b: seq<Line>, w: nat, j: nat)
    requires a <= b && a != [] && Distinct(b) && w > 0
    requires 0 < j && Overlaps(Tail(a, w), Tail(b, w), j)
    ensures j == |Tail(b, w)| - (|b| - |a|)
  {
    var previous, current := Tail(a, w), Tail(b, w);
    assert previous[|previous| - j..][j - 1] == previous[|previous| - 1] == a[|a| - 1] == b[|a| - 1];
    assert current[..j][j - 1] == b[|b| - |current| + j - 1];
  }

  /** With distinct lines a poll prints every line since the last one that is still in the window. */
  lemma DistinctPoll<Line>(a: seq<Line>, b: seq<Line>, w: nat)
    requires a <= b && a != [] && Distinct(b) && w > 0
    ensures Unseen(Tail(a, w), Tail(b, w)) == Tail(Since(a, b), w)
  {
    var previous, current := Tail(a, w), Tail(b, w);
    var k := OverlapUpTo(previous, current, |current|);
    if |b| - |a| < |current| { KeptPart(a, b, w); }
    if k > 0 { NoOther(a, b, w, k); }
    hide Overlaps, OverlapUpTo, Distinct;
    assert Unseen(previous, current) == current[k..];
    assert |current| == if w < |b| then w else |b|;
    hide Unseen;
    EndOfTail(a, b, w, k);
    SameTail(Since(a, b), |current| - k, w);
  }

  lemma SameTail<T>(s: seq<T>, v: nat, w: nat)
    ensures v == w || (|s| <= v && |s| <= w) ==> Tail(s, v) == Tail(s, w)
  {}

  lemma GrowsTail<Line>(history: seq<seq<Line>>, k: nat)
    requires Grows(history) && k < |history|
    ensures Grows(history[k..]) && Last(history[k..]) == Last(history)
    ensures k > 0 ==> history[0] <= history[1]
  {
    var rest := history[k..];
    forall i | 0 <= i < |rest| - 1 ensures rest[i] <= rest[i + 1] {
      assert history[k + i] <= history[k + i + 1];
    }
    if k > 0 { assert history[0] <= history[0 + 1]; }
  }

  /** From a poll that showed the first state on: nothing is printed twice, and everything newer is printed
      exactly when every window fits. */
  lemma {:induction false} FollowsExactly<Line>(n: int, history: seq<seq<Line>>, w: nat)
    requires w > 0 && history != [] && history[0] != [] && Grows(history)
    ensures var printed := Printed(n, Tail(history[0], w), Windows(history[1..], w));
            var newer := Since(history[0], Last(history));
            |printed| <= |newer| && (AllFit(history, w) <==> printed == newer)
    ensures history[0] <= Last(history)
    decreases |history|
  {
    if |history| > 1 {
      GrowsTail(history, 1);
      FollowsExactly(n, history[1..], w);
      assert history[1] == history[1..][0] && history[1..][1..] == history[2..];
      hide *;
      FollowsStep(n, history, w);
    } else {
      assert history[1..] == [];
    }
  }

  lemma FollowsStep<Line>(n: int, history: seq<seq<Line>>, w: nat)
    requires w > 0 && |history| > 1 && history[0] != []
    requires history[0] <= history[1] <= Last(history)
    requires var printed := Printed(n, Tail(history[1], w), Windows(history[2..], w));
             var newer := Since(history[1], Last(history));
             |printed| <= |newer| && (AllFit(history[1..], w) <==> printed == newer)
    ensures var printed := Printed(n, Tail(history[0], w), Windows(history[1..], w));
            var newer := Since(history[0], Last(history));
            |printed| <= |newer| && (AllFit(history, w) <==> printed == newer)
  {
    hide Printed, Windows, Poll, Unseen, Tail, Fits;
    var a, b, last := history[0], history[1], Last(history);
    SinceSplit(a, b, last);
    hide Last, Since;
    NeverTwice(a, b, w);
    PollIsExact(a, b, w);
    WindowsFirst(n, Tail(a, w), history[1..], w);
    PollSeen(n, a, Tail(b, w), w);
    assert history[1..][0] == b && history[1..][1..] == history[2..];
    assert AllFit(history, w) <==> Fits(a, b, w) && AllFit(history[1..], w);
    hide *;
    Splice(Unseen(Tail(a, w), Tail(b, w)), Printed(n, Tail(b, w), Windows(history[2..], w)),
           Since(a, b), Since(b, last));
  }

  /** With distinct lines a window fits exactly when the growth does. */
  lemma DistinctFits<Line>(a: seq<Line>, b: seq<Line>, w: nat)
    requires a <= b && a != [] && Distinct(b) && w > 0
    ensures Fits(a, b, w) <==> |b| - |a| <= w
  {
    var previous, current, grown := Tail(a, w), Tail(b, w), |b| - |a|;
    if grown <= w {
      assert |current| - grown >= 0;
      forall j | |current| - grown < j <= |current| ensures !Overlaps(previous, current, j) {
        if Overlaps(previous, current, j) { NoOther(a, b, w, j); }
      }
    }
  }

  lemma {:induction false} DistinctAllFit<Line>(history: seq<seq<Line>>, w: nat)
    requires w > 0 && history != [] && history[0] != [] && Grows(history) && Distinct(Last(history))
    ensures AllFit(history, w) <==> KeepsUp(history, w)
    ensures history[0] <= Last(history)
    decreases |history|
  {
    if |history| > 1 {
      GrowsTail(history, 1);
      var b := history[1];
      assert history[1..][0] == b;
      DistinctAllFit(history[1..], w);
      assert Distinct(b) by { assert b <= Last(history); }
      hide Fits, Distinct, KeepsUp, Grows, Last;
      DistinctFits(history[0], b, w);
      KeepsUpFirst(history, w);
    }
  }

  lemma PollSeen<Line>(n: int, a: seq<Line>, lines: seq<Line>, w: nat)
    requires a != [] && w > 0
    ensures Poll(n, Tail(a, w), lines) == Unseen(Tail(a, w), lines)
  {}

  lemma SinceSplit<Line>(a: seq<Line>, b: seq<Line>, c: seq<Line>)
    requires a <= b <= c
    ensures Since(a, c) == Since(a, b) + Since(b, c) && |Since(a, b)| == |b| - |a|
  {}

  lemma KeepsUpFirst<Line>(history: seq<seq<Line>>, w: nat)
    requires |history| > 1
    ensures KeepsUp(history, w) <==> |history[1]| - |history[0]| <= w && KeepsUp(history[1..], w)
  {
    var rest := history[1..];
    if KeepsUp(history, w) {
      assert |history[0 + 1]| - |history[0]| <= w;
      forall i | 0 <= i < |rest| - 1 ensures |rest[i + 1]| - |rest[i]| <= w {
        assert |history[i + 1 + 1]| - |history[i + 1]| <= w;
      }
    }
    if |history[1]| - |history[0]| <= w && KeepsUp(rest, w) {
      forall i | 0 <= i < |history| - 1 ensures |history[i + 1]| - |history[i]| <= w {
        if i > 0 { assert |rest[i - 1 + 1]| - |rest[i - 1]| <= w; }
      }
    }
  }

  /** Two parts no longer than they should be are right together only if each is right. */
  lemma Splice<Line>(x: seq<Line>, y: seq<Line>, first: seq<Line>, second: seq<Line>)
    requires |x| <= |first| && |y| <= |second|
    ensures |x + y| <= |first + second|
    ensures x + y == first + second <==> x == first && y == second
  {
    if x + y == first + second {
      assert |x + y| == |first + second|;
      assert x == (x + y)[..|x|] && y == (x + y)[|x|..];
      assert first == (first + second)[..|first|] && second == (first + second)[|first|..];
    }
  }

  /** An empty log prints nothing and leaves nothing seen. */
  lemma {:induction false} EmptyStart<Line>(n: int, history: seq<seq<Line>>, f: nat, w: nat)
    requires f < |history| && forall i | 0 <= i < f :: history[i] == []
    ensures Printed(n, [], Windows(history, w)) ==
            Shown(n, Tail(history[f], w)) + Printed(n, Tail(history[f], w), Windows(history[f + 1..], w))
    decreases f
  {
    hide *;
    WindowsFirst(n, [], history, w);
    FirstPoll(n, Tail(history[0], w));
    if f > 0 {
      EmptyStart(n, history[1..], f - 1, w);
      assert history[1..][f - 1] == history[f] && history[1..][f..] == history[f + 1..];
      EmptyPoll<Line>(n, w);
      EmptyFirst(Printed(n, [], Windows(history[1..], w)));
    }
  }

  lemma WindowsFirst<Line>(n: int, seen: seq<Line>, history: seq<seq<Line>>, w: nat)
    requires history != []
    ensures Printed(n, seen, Windows(history, w)) ==
            Poll(n, seen, Tail(history[0], w)) + Printed(n, Tail(history[0], w), Windows(history[1..], w))
  {
    var polls := Windows(history, w);
    assert polls[0] == Tail(history[0], w) && polls[1..] == Windows(history[1..], w);
  }

  lemma FirstPoll<Line>(n: int, lines: seq<Line>)
    ensures Poll(n, [], lines) == Shown(n, lines)
  {
    UnseenIs([], lines, 0);
    assert lines[0..] == lines;
  }

  lemma EmptyPoll<Line>(n: int, w: nat)
    ensures Tail<Line>([], w) == [] && Shown<Line>(n, []) == []
  {}

  lemma EmptyFirst<T>(x: seq<T>)
    ensures [] + x == x
  {}

  /** Streaming is exact - what the first non-empty window shows, then every later line once and in order -
      if and only if every window fits. */
  lemma StreamIsExact<Line>(n: int, history: seq<seq<Line>>, f: nat, w: nat)
    requires w > 0 && Grows(history) && f < |history|
    requires history[f] != [] && forall i | 0 <= i < f :: history[i] == []
    ensures AllFit(history[f..], w) <==>
            Printed(n, [], Windows(history, w))
            == Shown(n, Tail(history[f], w)) + Since(history[f], Last(history))
    ensures 0 < n <= w ==> Shown(n, Tail(history[f], w)) == Tail(history[f], n)
  {
    var a := history[f];
    FirstShown(n, a, w);
    GrowsTail(history, f);
    EmptyStart(n, history, f, w);
    hide *;
    SuffixAt(history, f);
    FollowsExactly(n, history[f..], w);
    SameStart(Shown(n, Tail(a, w)), Printed(n, Tail(a, w), Windows(history[f + 1..], w)), Since(a, Last(history)));
  }

  /** For distinct lines that is if and only if no poll is more than a window behind. */
  lemma DistinctStreamIsExact<Line>(n: int, history: seq<seq<Line>>, f: nat, w: nat)
    requires w > 0 && Grows(history) && f < |history| && Distinct(Last(history))
    requires history[f] != [] && forall i | 0 <= i < f :: history[i] == []
    ensures KeepsUp(history[f..], w) <==>
            Printed(n, [], Windows(history, w))
            == Shown(n, Tail(history[f], w)) + Since(history[f], Last(history))
  {
    StreamIsExact(n, history, f, w);
    GrowsTail(history, f);
    hide *;
    SuffixAt(history, f);
    DistinctAllFit(history[f..], w);
  }

  lemma SuffixAt<T>(s: seq<T>, f: nat)
    requires f < |s|
    ensures s[f..] != [] && s[f..][0] == s[f] && s[f..][1..] == s[f + 1..]
  {}

  lemma FirstShown<Line>(n: int, log: seq<Line>, w: nat)
    ensures 0 < n <= w ==> Shown(n, Tail(log, w)) == Tail(log, n)
  {}

  lemma SameStart<Line>(x: seq<Line>, y: seq<Line>, z: seq<Line>)
    ensures x + y == x + z <==> y == z
  {
    if x + y == x + z {
      assert y == (x + y)[|x|..] == (x + z)[|x|..] == z;
    }
  }

  /** Lines that repeat can hide new ones: a window full of one line shows no further copy of it. */
  lemma RepeatsAreHidden<Line>(line: Line, w: nat)
    requires w > 0
    ensures var a := seq(w, _ => line);
            a <= a + [line] && Unseen(Tail(a, w), Tail(a + [line], w)) == [] && Since(a, a + [line]) == [line]
  {
    var a := seq(w, _ => line);
    assert Tail(a + [line], w) == a;
    assert Overlaps(a, a, w);
    UnseenIs(a, a, w);
  }
}
