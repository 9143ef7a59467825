/** Which texts the reader reads the same however the network cuts them. Every read
    normalises the buffer once more, so a CR CR LF may lose one or both of its carriage
    returns. It reads the same everywhere exactly when it always ends up with both gone
    before a blank line can close its block, or stands at the end of the text. */
module SseCuts {
  import opened Text
  import opened Utf8
  import opened SseFrames

  /** CR CR LF at `i`. */
  predicate TwoCrs(s: string, i: nat) {
    i + 2 < |s| && s[i] == '\r' && s[i + 1] == '\r' && s[i + 2] == '\n'
  }

  /** CR CR CR LF at `i`. */
  predicate ThreeCrs(s: string, i: nat) {
    i + 3 < |s| && s[i] == '\r' && TwoCrs(s, i + 1)
  }

  /** A line break at `j` with another right behind it. */
  predicate GapAt(s: string, j: nat) {
    j + 1 < |s| && s[j] == '\n' && (s[j + 1] == '\n' || (j + 2 < |s| && s[j + 1] == '\r' && s[j + 2] == '\n'))
  }

  /** No blank line follows a CR CR LF. */
  predicate Calm(s: string) {
    forall i, j | 0 <= i && i + 2 <= j < |s| && TwoCrs(s, i) :: !GapAt(s, j)
  }

  predicate NoThreeCrs(s: string) {
    forall i | 0 <= i < |s| :: !ThreeCrs(s, i)
  }

  /** No blank line follows a CR CR LF, and CR CR CR LF stands nowhere but at the very end. */
  predicate Settled(t: string) {
    Calm(t) && forall i | 0 <= i < |t| - 4 :: !ThreeCrs(t, i)
  }

  /** The whole text normalised twice and split once. */
  function TwoPass(t: string): Reader {
    var (blocks, rest) := Drain(Normalise(Normalise(t)));
    Reader(blocks, rest)
  }

  function Content(r: Reader): string {
    Terminated(r.blocks) + r.buffer
  }

  // ---------------------------------------------------------------- normalising again

  predicate EndsCr(s: string) {
    |s| > 0 && s[|s| - 1] == '\r'
  }

  predicate EndsLf(s: string) {
    |s| > 0 && s[|s| - 1] == '\n'
  }

  lemma {:induction false} NormaliseEnd(s: string)
    ensures |Normalise(s)| <= |s| && (s != "" ==> Normalise(s) != "")
    ensures s != "" ==> Normalise(s)[|Normalise(s)| - 1] == s[|s| - 1]
    decreases |s|
  {
    if s != "" {
      NormaliseHead(s);
      NormaliseEnd(s[HeadLen(s)..]);
    }
  }

  /** A CRLF left after one pass was CR CR LF before it. */
  lemma {:induction false} CrLfCameFrom(y: string, i: nat) returns (k: nat)
    requires i + 1 < |Normalise(y)| && Normalise(y)[i] == '\r' && Normalise(y)[i + 1] == '\n'
    ensures 3 <= k <= |y| && TwoCrs(y, k - 3) && Normalise(y[..k]) == Normalise(y)[..i + 2]
    decreases |y|
  {
    NormaliseEmpty();
    var n := HeadLen(y);
    NormaliseHead(y);
    HeadFits(y);
    if i == 0 {
      StartsWithTwo(y);
      k := 3;
    } else {
      hide *;
      var rest := y[n..];
      var j := CrLfCameFrom(rest, i - 1);
      k := n + j;
      TwoCrsLater(y, n, j);
      HeadOfPrefix(y, k);
      NormaliseHead(y[..k]);
      assert y[..k][n..] == rest[..j];
      assert Normalise(y)[..i + 2] == HeadOf(y) + Normalise(rest)[..i + 1];
    }
  }

  lemma HeadFits(y: string)
    requires y != ""
    ensures |HeadOf(y)| == 1 && 1 <= HeadLen(y) <= 2
  {}

  lemma TwoCrsLater(y: string, n: nat, j: nat)
    requires n <= |y| && 3 <= j && TwoCrs(y[n..], j - 3)
    ensures TwoCrs(y, n + j - 3) && n + j <= |y|
  {}

  lemma StartsWithTwo(y: string)
    requires |Normalise(y)| >= 2 && Normalise(y)[0] == '\r' && Normalise(y)[1] == '\n'
    ensures TwoCrs(y, 0) && Normalise(y[..3]) == Normalise(y)[..2]
  {
    NormaliseEmpty();
    NormaliseHead(y);
    NormaliseHead(y[1..]);
    assert y[..3] == "\r\r\n";
    NormaliseLiterals();
  }

  lemma HeadOfPrefix(y: string, k: nat)
    requires 2 <= k <= |y|
    ensures HeadLen(y[..k]) == HeadLen(y) && HeadOf(y[..k]) == HeadOf(y)
  {}

  lemma UpToTwoCrs(y: string, k: nat)
    requires 3 <= k <= |y| && TwoCrs(y, k - 3)
    ensures Normalise(y[..k]) == Normalise(y[..k - 3]) + "\r\n"
  {
    var c := "\r\r\n";
    assert y[..k] == y[..k - 3] + c;
    NormaliseConcat(y[..k - 3], c);
    NormaliseLiterals();
  }

  lemma NoThreeThenNoTwo(y: string)
    requires NoThreeCrs(y)
    ensures NoCrCrLf(Normalise(y)) && NoCrLf(Normalise(Normalise(y)))
  {
    var n := Normalise(y);
    forall i | 0 <= i < |n| - 2 ensures !(n[i] == '\r' && n[i + 1] == '\r' && n[i + 2] == '\n') {
      if n[i] == '\r' && n[i + 1] == '\r' && n[i + 2] == '\n' { ThreeCameFrom(y, i); }
    }
    NormaliseNoCrLf(n);
  }

  lemma ThreeCameFrom(y: string, i: nat)
    requires TwoCrs(Normalise(y), i)
    ensures !NoThreeCrs(y)
  {
    var n := Normalise(y);
    var k := CrLfCameFrom(y, i + 1);
    UpToTwoCrs(y, k);
    var front := y[..k - 3];
    hide Normalise;
    NormaliseEnd(front);
    NormaliseEmpty();
    assert n[..i + 3] == Normalise(front) + "\r\n";
    assert Normalise(front)[|Normalise(front)| - 1] == n[..i + 3][i] == '\r';
    assert ThreeCrs(y, k - 4);
  }

  predicate Gap(s: string) {
    exists j | 0 <= j < |s| :: GapAt(s, j)
  }

  /** A blank line at `j`, character by character. */
  predicate BlankAt(s: string, j: nat) {
    j + 1 < |s| && s[j] == '\n' && s[j + 1] == '\n'
  }

  predicate HasBlank(s: string) {
    exists j | 0 <= j < |s| :: BlankAt(s, j)
  }

  lemma BlankFirst(h: char, s: string)
    ensures HasBlank([h] + s) <==> (h == '\n' && s != "" && s[0] == '\n') || HasBlank(s)
  {
    var z := [h] + s;
    if h == '\n' && s != "" && s[0] == '\n' { assert BlankAt(z, 0); }
    if HasBlank(s) {
      var j :| 0 <= j < |s| && BlankAt(s, j);
      assert BlankAt(z, j + 1);
    }
    if HasBlank(z) {
      var j :| 0 <= j < |z| && BlankAt(z, j);
      assert j > 0 ==> BlankAt(s, j - 1);
    }
  }

  lemma GapFirst(s: string)
    requires s != ""
    ensures Gap(s) <==> GapAt(s, 0) || Gap(s[1..])
  {
    if Gap(s) {
      var j :| 0 <= j < |s| && GapAt(s, j);
      assert j > 0 ==> GapAt(s[1..], j - 1);
    }
    if Gap(s[1..]) {
      var j :| 0 <= j < |s[1..]| && GapAt(s[1..], j);
      assert GapAt(s, j + 1);
    }
  }

  /** A gap is what one pass turns into a blank line. */
  lemma {:induction false} GapIsBlank(s: string)
    ensures HasBlank(Normalise(s)) <==> Gap(s)
    decreases |s|
  {
    if s != "" {
      NormaliseHead(s);
      var rest := s[HeadLen(s)..];
      GapIsBlank(rest);
      GapFirst(s);
      if CrLfHead(s) {
        GapFirst(s[1..]);
        assert s[1..][1..] == rest;
      }
      NormaliseEmpty();
      if rest != "" { NormaliseHead(rest); }
      hide Normalise, HasBlank, Gap;
      BlankFirst(HeadOf(s)[0], Normalise(rest));
    }
  }

  /** A blank line behind a CRLF after one pass comes from a gap behind a CR CR LF. */
  lemma BlankBehindCrLf(y: string, i: nat, j: nat)
    requires i < j && j + 1 < |Normalise(y)| && BlankAt(Normalise(y), j)
    requires Normalise(y)[i] == '\r' && Normalise(y)[i + 1] == '\n'
    ensures !Calm(y)
  {
    var n := Normalise(y);
    var k := CrLfCameFrom(y, i);
    var q := y[k..];
    assert y == y[..k] + q;
    NormaliseConcat(y[..k], q);
    NormalisePlainLf(q);
    GapIsBlank(LF + q);
    hide Normalise;
    var u := LF + Normalise(q);
    assert n == n[..i + 2] + Normalise(q);
    assert BlankAt(u, j - i - 1);
    var g :| 0 <= g < |LF + q| && GapAt(LF + q, g);
    GapLater(y, k - 1, g);
  }

  lemma GapLater(y: string, k: nat, g: nat)
    requires k < |y| && y[k] == '\n' && GapAt(LF + y[k + 1..], g)
    ensures GapAt(y, k + g)
  {
    var u := LF + y[k + 1..];
    assert forall x | 0 <= x < |u| :: u[x] == y[k + x];
  }

  lemma NormalisePlainLf(q: string)
    ensures Normalise(LF + q) == LF + Normalise(q)
  {
    NormalisePlain(LF, q);
  }

  // ---------------------------------------------------------------- finished blocks

  predicate AllMinimal(blocks: seq<string>) {
    forall b | b in blocks :: Minimal(b)
  }

  lemma MinimalFound(b: string, y: string)
    requires Minimal(b)
    ensures Find(b + BLANK + y, BLANK) == Some(|b|)
  {
    var z := b + BLANK + y;
    assert z[|b|..|b| + 2] == BLANK;
    assert At(z, BLANK, |b|);
    forall j | 0 <= j < |b| ensures !At(z, BLANK, j) {
      assert !At(b + LF, BLANK, j);
      assert (b + LF)[j..j + 2] == z[j..j + 2];
    }
  }

  /** Minimal blocks are split off again as they are. */
  lemma {:induction false} DrainTerminated(blocks: seq<string>, y: string)
    requires AllMinimal(blocks)
    ensures Drain(Terminated(blocks) + y) == (blocks + Drain(y).0, Drain(y).1)
  {
    if blocks == [] {
      assert "" + y == y && [] + Drain(y).0 == Drain(y).0;
    } else {
      var b, more := blocks[0], blocks[1..];
      assert b in blocks;
      assert Terminated(blocks) == b + BLANK + Terminated(more);
      DrainTerminated(more, y);
      hide *;
      var z := Terminated(more) + y;
      Associative(b + BLANK, Terminated(more), y);
      MinimalFound(b, z);
      DrainSome(b + BLANK + z, |b|);
      assert (b + BLANK + z)[..|b|] == b && (b + BLANK + z)[|b| + 2..] == z;
      Associative([b], more, Drain(y).0);
      assert [b] + more == blocks;
    }
  }

  lemma TerminatedEnd(blocks: seq<string>)
    ensures var t := Terminated(blocks); t != "" ==> |t| >= 2 && BlankAt(t, |t| - 2)
  {
    if blocks != [] {
      TerminatedEnd(blocks[1..]);
      assert Terminated(blocks) == blocks[0] + BLANK + Terminated(blocks[1..]);
    }
  }

  lemma FindMeansBlank(s: string)
    ensures Find(s, BLANK).Some? <==> HasBlank(s)
  {
    if HasBlank(s) {
      var j :| 0 <= j < |s| && BlankAt(s, j);
      assert s[j..j + 2] == BLANK;
      assert At(s, BLANK, j);
    }
    if Find(s, BLANK).Some? {
      var i := Find(s, BLANK).value;
      assert s[i..i + 2][0] == s[i] && s[i..i + 2][1] == s[i + 1];
      assert BlankAt(s, i);
    }
  }

  /** What one read does to everything held: the buffer is normalised, and only rearranged after that. */
  lemma FeedContent(r: Reader, x: string)
    ensures var after := Feed(r, x);
            Content(after) == Terminated(r.blocks) + Normalise(r.buffer + x)
            && (AllMinimal(r.blocks) ==> AllMinimal(after.blocks)) && !HasBlank(after.buffer)
  {
    var n := Normalise(r.buffer + x);
    var (more, rest) := Drain(n);
    DrainSplit(n);
    FindMeansBlank(rest);
    hide Drain, Normalise, Minimal, HasBlank;
    TerminatedConcat(r.blocks, more);
    Associative(Terminated(r.blocks), Terminated(more), rest);
  }

  /** With no blank line in its buffer a reader is determined by what it holds. */
  lemma ContentDecides(r: Reader)
    requires AllMinimal(r.blocks) && !HasBlank(r.buffer)
    ensures Drain(Content(r)) == (r.blocks, r.buffer)
  {
    FindMeansBlank(r.buffer);
    DrainNone(r.buffer);
    DrainTerminated(r.blocks, r.buffer);
    assert r.blocks + [] == r.blocks;
  }

  // ---------------------------------------------------------------- what a reader holds

  /** Of the text `a` received so far the first `k` characters have been normalised twice or more,
      the rest once; no finished block holds a CRLF that was to lose its carriage return. */
  predicate Phase(r: Reader, a: string, k: nat) {
    && AllMinimal(r.blocks) && NoCrLf(Terminated(r.blocks))
    && k <= |a| && !EndsCr(a[..k]) && NoThreeCrs(a[..k])
    && Content(r) == Normalise(Normalise(a[..k])) + Normalise(a[k..])
  }

  /** Length of `a` without the carriage returns at its end. */
  function Bare(a: string): (n: nat)
    ensures n <= |a| && !EndsCr(a[..n]) && forall i | n <= i < |a| :: a[i] == '\r'
    decreases |a|
  {
    if EndsCr(a) then Bare(a[..|a| - 1]) else assert a[..|a|] == a; |a|
  }

  lemma Seam(a: string, b: string)
    requires !EndsCr(a)
    ensures Normalise(a + b) == Normalise(a) + Normalise(b) && !EndsCr(Normalise(a))
  {
    NormaliseEmpty();
    NormaliseEnd(a);
    NormaliseConcat(a, b);
  }

  lemma TwiceSeam(a: string, b: string)
    requires !EndsCr(a)
    ensures Normalise(Normalise(a + b)) == Normalise(Normalise(a)) + Normalise(Normalise(b))
    ensures !EndsCr(Normalise(Normalise(a)))
  {
    hide Normalise, EndsCr;
    Seam(a, b);
    Seam(Normalise(a), Normalise(b));
  }

  lemma ThirdPassIdle(a: string)
    requires NoThreeCrs(a)
    ensures Normalise(Normalise(Normalise(a))) == Normalise(Normalise(a))
  {
    NoThreeThenNoTwo(a);
    NormalisedFixed(Normalise(Normalise(a)));
  }

  /** One more pass over what is held with new text behind it. */
  lemma NextPass(a: string, k: nat, x: string)
    requires k <= |a| && !EndsCr(a[..k]) && NoThreeCrs(a[..k])
    ensures var held := Normalise(Normalise(a[..k])) + Normalise(a[k..]);
            var n := Bare(a);
            k <= n && Normalise(held + x) == Normalise(Normalise(a[..n])) + Normalise((a + x)[n..])
  {
    var n := Bare(a);
    assert forall i | 0 <= i < k :: a[..k][i] == a[i];
    var m, w := a[k..n], a[n..];
    assert a[k..] == m + w && a[..n] == a[..k] + m && (a + x)[n..] == w + x;
    assert !EndsCr(m) by { if m != "" { assert m[|m| - 1] == a[..n][n - 1]; } }
    assert NoCrLf(w);
    hide *;
    PassOver(a[..k], m, w, x);
  }

  lemma PassOver(a: string, m: string, w: string, x: string)
    requires !EndsCr(a) && NoThreeCrs(a) && !EndsCr(m) && NoCrLf(w)
    ensures Normalise(Normalise(Normalise(a)) + Normalise(m + w) + x) == Normalise(Normalise(a + m)) + Normalise(w + x)
  {
    hide *;
    var t := Normalise(Normalise(a));
    calc {
      Normalise(t + Normalise(m + w) + x);
      { Seam(m, w); NormalisedFixed(w); assert t + (Normalise(m) + w) + x == t + (Normalise(m) + (w + x)); }
      Normalise(t + (Normalise(m) + (w + x)));
      { TwiceSeam(a, ""); Seam(t, Normalise(m) + (w + x)); ThirdPassIdle(a); }
      t + Normalise(Normalise(m) + (w + x));
      { Seam(m, ""); Seam(Normalise(m), w + x); }
      t + (Normalise(Normalise(m)) + Normalise(w + x));
      { TwiceSeam(a, m); Associative(t, Normalise(Normalise(m)), Normalise(w + x)); }
      Normalise(Normalise(a + m)) + Normalise(w + x);
    }
  }

  /** A blank line closes no block with a CRLF in it while the text is calm. */
  lemma CleanBlocks(done: string, rest: string, a: string, w: string)
    requires done + rest == Normalise(Normalise(a)) + Normalise(w)
    requires done != "" ==> |done| >= 2 && BlankAt(done, |done| - 2)
    requires NoThreeCrs(a) && !EndsCr(a) && Calm(w)
    ensures NoCrLf(done)
  {
    NoThreeThenNoTwo(a);
    TwiceSeam(a, "");
    var t := Normalise(Normalise(a));
    hide Normalise, Calm, NoThreeCrs, EndsCr, BlankAt;
    forall i | 0 <= i < |done| - 1 ensures !(done[i] == '\r' && done[i + 1] == '\n') {
      if done[i] == '\r' && done[i + 1] == '\n' { CrLfInBlock(done, rest, t, w, i); }
    }
  }

  lemma CrLfInBlock(done: string, rest: string, t: string, w: string, i: nat)
    requires done + rest == t + Normalise(w) && NoCrLf(t) && !EndsCr(t)
    requires i + 1 < |done| && done[i] == '\r' && done[i + 1] == '\n' && BlankAt(done, |done| - 2)
    ensures !Calm(w)
  {
    hide Normalise, Calm;
    var n, z, j, m := Normalise(w), t + Normalise(w), |done| - 2, |t|;
    assert z[i] == done[i] && z[i + 1] == done[i + 1] && z[j] == done[j] && z[j + 1] == done[j + 1];
    assert forall x | 0 <= x < m :: z[x] == t[x];
    assert n[i - m] == z[i] && n[i - m + 1] == z[i + 1] && n[j - m] == z[j] && n[j - m + 1] == z[j + 1];
    BlankBehindCrLf(w, i - m, j - m);
  }

  lemma CalmTail(a: string, x: string, n: nat)
    requires Calm(a + x) && n <= |a|
    ensures Calm((a + x)[n..])
  {
    var t := a + x;
    var w := t[n..];
    forall i, j | 0 <= i && i + 2 <= j < |w| && TwoCrs(w, i) ensures !GapAt(w, j) {
      assert TwoCrs(t, n + i);
      if GapAt(w, j) { assert GapAt(t, n + j); }
    }
  }

  lemma NoThreeFront(a: string, n: nat)
    requires NoThreeCrs(a) && n <= |a|
    ensures NoThreeCrs(a[..n])
  {
    forall i | 0 <= i < n ensures !ThreeCrs(a[..n], i) {
      assert !ThreeCrs(a, i);
    }
  }

  /** A read moves the phase on. */
  lemma FeedPhase(r: Reader, a: string, k: nat, x: string)
    requires Phase(r, a, k) && NoThreeCrs(a) && Calm(a + x)
    ensures Phase(Feed(r, x), a + x, Bare(a))
  {
    var n, after := Bare(a), Feed(r, x);
    FeedContent(r, x);
    HeldPass(r, x);
    NextPass(a, k, x);
    NoThreeFront(a, n);
    assert (a + x)[..n] == a[..n];
    hide Normalise, Terminated, Feed, Calm, NoThreeCrs, NoCrLf, BlankAt, HasBlank, Minimal;
    FeedClean(after, a, n, x);
  }

  /** The blocks finished by a read of a calm text. */
  lemma FeedClean(after: Reader, a: string, n: nat, x: string)
    requires n <= |a| && Content(after) == Normalise(Normalise(a[..n])) + Normalise((a + x)[n..])
    requires NoThreeCrs(a[..n]) && !EndsCr(a[..n]) && Calm(a + x)
    ensures NoCrLf(Terminated(after.blocks))
  {
    CalmTail(a, x, n);
    TerminatedEnd(after.blocks);
    hide Normalise, Terminated, Calm, NoThreeCrs, NoCrLf, BlankAt;
    CleanBlocks(Terminated(after.blocks), after.buffer, a[..n], (a + x)[n..]);
  }

  /** Normalising everything held is normalising the buffer. */
  lemma HeldPass(r: Reader, x: string)
    requires NoCrLf(Terminated(r.blocks))
    ensures Terminated(r.blocks) + Normalise(r.buffer + x) == Normalise(Content(r) + x)
  {
    var done := Terminated(r.blocks);
    TerminatedSeam(r.blocks, r.buffer + x);
    NormaliseConcat(done, r.buffer + x);
    NormalisedFixed(done);
    Associative(done, r.buffer, x);
  }

  /** The last read leaves everything normalised twice. */
  lemma LastPhase(r: Reader, a: string, k: nat, f: string)
    requires Phase(r, a, k) && Settled(a + f) && Replaced(f)
    ensures Feed(r, f) == TwoPass(a + f)
  {
    var t := a + f;
    FeedContent(r, f);
    HeldPass(r, f);
    assert Normalise(Content(r) + f) == Normalise(Normalise(t)) by {
      if f == "" {
        assert a + f == a && Content(r) + f == Content(r) && a == a[..k] + a[k..];
        FlushNothing(a, k);
      } else {
        NoThreeBefore(a, f);
        NextPass(a, k, f);
        PlainTail(a, f);
      }
    }
    hide Normalise, Settled, Replaced, Minimal;
    ContentDecides(Feed(r, f));
  }

  lemma FlushNothing(a: string, k: nat)
    requires k <= |a| && !EndsCr(a[..k]) && NoThreeCrs(a[..k])
    ensures Normalise(Normalise(Normalise(a[..k])) + Normalise(a[k..])) == Normalise(Normalise(a))
  {
    assert a == a[..k] + a[k..];
    hide *;
    TwiceSeam(a[..k], a[k..]);
    Seam(Normalise(Normalise(a[..k])), Normalise(a[k..]));
    ThirdPassIdle(a[..k]);
  }

  lemma PlainTail(a: string, f: string)
    requires f != "" && Replaced(f)
    ensures var n := Bare(a);
            Normalise(Normalise(a[..n])) + Normalise((a + f)[n..]) == Normalise(Normalise(a + f))
  {
    var n := Bare(a);
    var w := (a + f)[n..];
    assert a + f == a[..n] + w;
    assert NoCrLf(w) by {
      forall i | 0 <= i < |w| - 1 ensures !(w[i] == '\r' && w[i + 1] == '\n') {
        assert w[i + 1] == (a + f)[n + i + 1];
      }
    }
    NormalisedFixed(w);
    hide Normalise;
    TwiceSeam(a[..n], w);
  }

  lemma NoThreeBefore(a: string, z: string)
    requires Settled(a + z) && z != ""
    ensures NoThreeCrs(a)
  {
    forall i | 0 <= i < |a| ensures !ThreeCrs(a, i) {
      if ThreeCrs(a, i) { assert ThreeCrs(a + z, i); }
    }
  }

  // ---------------------------------------------------------------- settled texts read the same

  lemma DecodeAllCut(a: seq<Byte>, b: seq<Byte>)
    ensures DecodeAll(a + b) == Scan(a).text + DecodeAll(Scan(a).rest + b)
  {
    ScanCut(a, b);
    hide Scan;
    var more := Scan(Scan(a).rest + b);
    Associative(Scan(a).text, more.text, Flush(more.rest));
  }

  lemma DecodesToSomething(d: seq<Byte>)
    requires d != []
    ensures DecodeAll(d) != ""
  {}

  /** Any reading of the bytes still to come, from any phase. */
  lemma {:induction false} ReceiveSettled(w: Wire, bytes: seq<Byte>, k: nat, chunks: seq<seq<Byte>>)
    requires w.pending == Scan(bytes).rest && Phase(w.reader, Scan(bytes).text, k)
    requires Settled(DecodeAll(bytes + Flatten(chunks)))
    ensures var v := ReceiveAll(w, chunks);
            Feed(v.reader, Flush(v.pending)) == TwoPass(DecodeAll(bytes + Flatten(chunks)))
    decreases |chunks|
  {
    hide *;
    if chunks == [] {
      FlattenNone(w, chunks);
      assert bytes + [] == bytes;
      DecodeAllIs(bytes);
      LastPhase(w.reader, Scan(bytes).text, k, Flush(w.pending));
    } else {
      FlattenFirst(w, chunks);
      var c, rest := chunks[0], Flatten(chunks[1..]);
      Associative(bytes, c, rest);
      if c == [] {
        assert bytes + [] == bytes;
        ReceiveSettled(w, bytes, k, chunks[1..]);
      } else {
        var a, x := Scan(bytes).text, Scan(w.pending + c).text;
        ScanCut(bytes, c);
        DecodeAllCut(bytes, c + rest);
        Associative(bytes, c, rest);
        DecodesToSomething(Scan(bytes).rest + (c + rest));
        NoThreeBefore(a, DecodeAll(Scan(bytes).rest + (c + rest)));
        DecodeAllCut(bytes + c, rest);
        CalmFront(a + x, DecodeAll(Scan(bytes + c).rest + rest));
        FeedPhase(w.reader, a, k, x);
        ReceiveSettled(Receive(w, c), bytes + c, Bare(a), chunks[1..]);
      }
    }
  }

  lemma DecodeAllIs(bytes: seq<Byte>)
    ensures DecodeAll(bytes) == Scan(bytes).text + Flush(Scan(bytes).rest)
  {}

  lemma FlattenNone(w: Wire, chunks: seq<seq<Byte>>)
    requires chunks == []
    ensures Flatten(chunks) == [] && ReceiveAll(w, chunks) == w
  {}

  lemma FlattenFirst(w: Wire, chunks: seq<seq<Byte>>)
    requires chunks != []
    ensures Flatten(chunks) == chunks[0] + Flatten(chunks[1..])
    ensures ReceiveAll(w, chunks) == ReceiveAll(Receive(w, chunks[0]), chunks[1..])
    ensures chunks[0] == [] ==> Receive(w, chunks[0]) == w
    ensures chunks[0] != [] ==>
              var d := Scan(w.pending + chunks[0]); Receive(w, chunks[0]) == Wire(d.rest, Feed(w.reader, d.text))
  {
    hide Scan, Feed;
  }

  lemma CalmFront(a: string, z: string)
    requires Settled(a + z)
    ensures Calm(a)
  {
    var t := a + z;
    forall i, j | 0 <= i && i + 2 <= j < |a| && TwoCrs(a, i) ensures !GapAt(a, j) {
      assert TwoCrs(t, i);
      if GapAt(a, j) { assert GapAt(t, j); }
    }
  }

  /** A settled text reads the same under every cut: as normalised twice and split once. */
  lemma SettledReading(chunks: seq<seq<Byte>>)
    requires Settled(DecodeAll(Flatten(chunks)))
    ensures ReadStream(chunks) == TwoPass(DecodeAll(Flatten(chunks)))
  {
    assert [] + Flatten(chunks) == Flatten(chunks);
    assert Normalise("") == "" && Terminated([]) == "";
    assert ""[..0] == "" && ""[0..] == "" && "" + "" == "";
    assert Phase(START, Scan([]).text, 0);
    hide Scan, Phase;
    ReceiveSettled(Wire([], START), [], 0, chunks);
  }

  // ---------------------------------------------------------------- other texts do not

  function LineFeeds(s: string): nat {
    if s == "" then 0 else (if s[0] == '\n' then 1 else 0) + LineFeeds(s[1..])
  }

  lemma {:induction false} LineFeedsConcat(a: string, b: string)
    ensures LineFeeds(a + b) == LineFeeds(a) + LineFeeds(b)
  {
    if a == "" {
      assert a + b == b;
    } else {
      assert (a + b)[1..] == a[1..] + b;
      LineFeedsConcat(a[1..], b);
    }
  }

  lemma {:induction false} LineFeedsKept(s: string)
    ensures LineFeeds(Normalise(s)) == LineFeeds(s)
    decreases |s|
  {
    if s != "" {
      NormaliseHead(s);
      LineFeedsKept(s[HeadLen(s)..]);
      LineFeedsConcat(HeadOf(s), Normalise(s[HeadLen(s)..]));
      assert CrLfHead(s) ==> s[1..][1..] == s[2..];
    }
  }

  lemma {:induction false} EndCounts(s: string)
    requires EndsLf(s)
    ensures LineFeeds(s) > 0
  {
    if |s| > 1 { EndCounts(s[1..]); }
  }

  /** Two fronts of one text that end at the same line feed are one. */
  lemma SameLineFeed(a: string, b: string, y: string, z: string)
    requires a + y == b + z && LineFeeds(a) == LineFeeds(b) && EndsLf(a) && EndsLf(b)
    ensures a == b
  {
    if |a| < |b| {
      LongerHasMore(a, b, y, z);
    } else if |b| < |a| {
      LongerHasMore(b, a, z, y);
    } else {
      assert a == (a + y)[..|a|] && b == (b + z)[..|b|];
    }
  }

  lemma LongerHasMore(a: string, b: string, y: string, z: string)
    requires a + y == b + z && |a| < |b| && EndsLf(b)
    ensures LineFeeds(a) < LineFeeds(b)
  {
    var x := b[|a|..];
    assert a == (a + y)[..|a|] == (b + z)[..|a|] == b[..|a|];
    assert b == a + x;
    LineFeedsConcat(a, x);
    EndCounts(x);
  }

  lemma ShorterByCrLf(v: string)
    requires EndsCrLf(v)
    ensures |Normalise(v)| < |v|
  {
    var a := v[..|v| - 2];
    assert v == a + CRLF;
    NormaliseConcat(a, CRLF);
    NormaliseLiterals();
    NormaliseEnd(a);
  }

  /** Normalising a tail again leaves the front up to a line feed no longer, and as it is if it has been split off. */
  lemma AgainAtMost(x: string, y: string, done: string, rest: string) returns (p: string, q: string)
    requires done + rest == x + y && EndsLf(x)
    ensures done + Normalise(rest) == p + q && EndsLf(p) && LineFeeds(p) == LineFeeds(x)
    ensures |p| <= |x| && (|done| >= |x| ==> p == x)
  {
    if |done| >= |x| {
      p, q := x, done[|x|..] + Normalise(rest);
      assert done[..|x|] == (done + rest)[..|x|] == x;
      assert done == x + done[|x|..];
      Associative(x, done[|x|..], Normalise(rest));
    } else {
      var mid := x[|done|..];
      assert done == (done + rest)[..|done|] == x[..|done|];
      assert x == done + mid;
      assert rest == (done + rest)[|done|..] == mid + y;
      hide Normalise;
      p, q := done + Normalise(mid), Normalise(y);
      NormaliseConcat(mid, y);
      Associative(done, Normalise(mid), Normalise(y));
      NormaliseEnd(mid);
      LineFeedsConcat(done, mid);
      LineFeedsConcat(done, Normalise(mid));
      LineFeedsKept(mid);
    }
  }

  /** The last read adds the flushed characters at the end. */
  lemma FlushContent(r: Reader, f: string)
    requires Replaced(f)
    ensures Content(Feed(r, f)) == Terminated(r.blocks) + Normalise(r.buffer) + f
  {
    FeedContent(r, f);
    FlushIsPlain(f);
    NormaliseConcat(r.buffer, f);
    hide Normalise;
    Associative(Terminated(r.blocks), Normalise(r.buffer), f);
  }

  lemma OnePassContent(t: string)
    ensures Content(OnePass(t)) == Normalise(t) && !HasBlank(OnePass(t).buffer)
  {
    DrainSplit(Normalise(t));
    FindMeansBlank(Drain(Normalise(t)).1);
  }

  predicate EndsTwoCrs(s: string) {
    |s| >= 3 && s[|s| - 3..] == "\r\r\n"
  }

  /** What is held before the last read, cut right behind CR CR LF and whole. */
  lemma BeforeLastRead(p: string, q: string)
    requires EndsTwoCrs(p)
    ensures var r := OnePass(p);
            EndsCrLf(r.buffer) && Normalise(p) == Terminated(r.blocks) + r.buffer
            && Content(Feed(r, q)) == Terminated(r.blocks) + Normalise(r.buffer) + Normalise(q)
            && Content(OnePass(p + q)) == Normalise(p) + Normalise(q)
  {
    var r := OnePass(p);
    NormaliseCrCrLf(p);
    DrainKeepsEnd(Normalise(p));
    OnePassContent(p);
    OnePassContent(p + q);
    FeedContent(r, q);
    NormaliseConcat(p, q);
    NormaliseConcat(r.buffer, q);
    hide Normalise, OnePass, Feed;
    Associative(Terminated(r.blocks), Normalise(r.buffer), Normalise(q));
  }

  /** A gap behind CR CR LF: read whole, its block ends with the CRLF of one pass; cut, it cannot. */
  lemma GapTells(p: string, q: string, f: string)
    requires EndsTwoCrs(p) && Gap(LF + q) && Replaced(f)
    ensures Feed(Feed(OnePass(p), q), f) != Feed(OnePass(p + q), f)
  {
    var r, cut, whole := OnePass(p), Feed(OnePass(p), q), OnePass(p + q);
    BeforeLastRead(p, q);
    FlushContent(cut, f);
    FlushContent(whole, f);
    GapIsBlank(LF + q);
    NormalisePlainLf(q);
    OnePassContent(p + q);
    ShorterFront(Terminated(r.blocks), r.buffer);
    hide *;
    BlankIsDone(Normalise(p), Normalise(q), Terminated(whole.blocks), whole.buffer);
    FrontsDiffer(Normalise(p), Terminated(r.blocks) + Normalise(r.buffer), Normalise(q),
                 Terminated(whole.blocks), whole.buffer, Terminated(cut.blocks), cut.buffer, f);
  }

  lemma ShorterFront(done: string, v: string)
    requires EndsCrLf(v)
    ensures var n, x := done + v, done + Normalise(v);
            |x| < |n| && EndsLf(x) && EndsLf(n) && LineFeeds(x) == LineFeeds(n)
  {
    ShorterByCrLf(v);
    NormaliseEnd(v);
    LineFeedsKept(v);
    hide Normalise;
    LineFeedsConcat(done, v);
    LineFeedsConcat(done, Normalise(v));
  }

  lemma FrontsDiffer(n: string, x: string, y: string, done: string, rest: string,
                       done': string, rest': string, f: string)
    requires done + rest == n + y && done' + rest' == x + y && |done| >= |n|
    requires |x| < |n| && EndsLf(x) && EndsLf(n) && LineFeeds(x) == LineFeeds(n)
    ensures done' + Normalise(rest') + f != done + Normalise(rest) + f
  {
    hide *;
    var a, u := AgainAtMost(n, y, done, rest);
    var b, v := AgainAtMost(x, y, done', rest');
    Associative(a, u, f);
    Associative(b, v, f);
    if done' + Normalise(rest') + f == done + Normalise(rest) + f {
      SameLineFeed(a, b, u + f, v + f);
    }
  }

  lemma BlankIsDone(x: string, y: string, done: string, rest: string)
    requires done + rest == x + y && EndsLf(x) && HasBlank(LF + y) && !HasBlank(rest)
    ensures |done| >= |x|
  {
    if |done| < |x| { BlankStays(x, y, done, rest); }
  }

  lemma BlankStays(x: string, y: string, done: string, rest: string)
    requires done + rest == x + y && EndsLf(x) && HasBlank(LF + y) && |done| < |x|
    ensures HasBlank(rest)
  {
    var j :| 0 <= j < |LF + y| && BlankAt(LF + y, j);
    var z, i := x + y, |x| - 1 + j;
    assert z[i] == (LF + y)[j] && z[i + 1] == (LF + y)[j + 1];
    assert forall k | |done| <= k < |z| :: z[k] == rest[k - |done|];
    assert BlankAt(rest, i - |done|);
  }

  predicate EndsThreeCrs(s: string) {
    |s| >= 4 && s[|s| - 4..] == "\r\r\r\n"
  }

  lemma NormaliseThreeCrs(p: string)
    requires EndsThreeCrs(p)
    ensures EndsTwoCrs(p) && EndsTwoCrs(Normalise(p))
  {
    var a, b, c := p[..|p| - 4], "\r", "\r\r\n";
    assert p[|p| - 3..] == p[|p| - 4..][1..] == c;
    assert p == a + (b + c) && (b + c)[0] == '\r';
    NormaliseConcat(a, b + c);
    NormaliseLiterals();
    assert (b + c)[1..] == c;
    NormalisePlain(b, c);
  }

  /** The unfinished tail keeps the end of a text that ends in CR CR LF. */
  lemma TailKeepsEnd(n: string)
    requires EndsTwoCrs(n)
    ensures EndsTwoCrs(Drain(n).1)
  {
    DrainSplit(n);
    TerminatedEnd(Drain(n).0);
    var done, rest := Terminated(Drain(n).0), Drain(n).1;
    hide Drain, Terminated;
    var k := |n|;
    assert n[k - 3..][0] == n[k - 3] && n[k - 3..][1] == n[k - 2];
    assert forall i | 0 <= i < |done| :: n[i] == done[i];
    assert |rest| >= 3;
    assert rest[|rest| - 3..] == n[k - 3..];
  }

  /** With no gap behind its last line feed, a text is split as before and the rest stays in the tail. */
  lemma NoGapStays(n: string, y: string)
    requires EndsLf(Drain(n).1) && !HasBlank(LF + y)
    ensures Drain(n + y) == (Drain(n).0, Drain(n).1 + y)
  {
    var blocks, v := Drain(n).0, Drain(n).1;
    DrainSplit(n);
    FindMeansBlank(v);
    assert !HasBlank(v + y) by {
      if HasBlank(v + y) {
        var j :| 0 <= j < |v + y| && BlankAt(v + y, j);
        BlankSomewhere(v, y, j);
      }
    }
    FindMeansBlank(v + y);
    DrainNone(v + y);
    DrainResumes(n, v + y);
    hide Drain;
    Associative(Terminated(blocks), v, y);
    assert blocks + [] == blocks;
  }

  lemma BlankSomewhere(v: string, y: string, j: nat)
    requires BlankAt(v + y, j) && EndsLf(v)
    ensures HasBlank(v) || HasBlank(LF + y)
  {
    var z := v + y;
    if j + 1 < |v| {
      assert BlankAt(v, j);
    } else {
      assert forall i | 0 <= i < |LF + y| :: (LF + y)[i] == z[|v| - 1 + i];
      assert BlankAt(LF + y, j + 1 - |v|);
    }
  }

  /** CR CR CR LF with no gap behind it: read whole it loses two carriage returns, cut it loses all three. */
  lemma ThreeCrsTell(p: string, q: string, f: string)
    requires EndsThreeCrs(p) && !Gap(LF + q) && Replaced(f)
    ensures Feed(Feed(OnePass(p), q), f) != Feed(OnePass(p + q), f)
  {
    hide *;
    var n, y := Normalise(p), Normalise(q);
    var done, v := Terminated(Drain(n).0), Drain(n).1;
    NormaliseThreeCrs(p);
    TailKeepsEnd(n);
    GapIsBlank(LF + q);
    NormalisePlainLf(q);
    TwoCrsEnd(p);
    TwoCrsEnd(v);
    WholeRead(p, q, f);
    CutRead(p, q, f);
    DrainKeepsEnd(Normalise(v));
    var more, u := Terminated(Drain(Normalise(v)).0), Drain(Normalise(v)).1;
    DrainSplit(Normalise(v));
    ShorterByCrLf(u);
    Lengths(done, more, u, Normalise(u), Normalise(v), Normalise(y) + f);
  }

  lemma Lengths(done: string, more: string, u: string, w: string, v: string, z: string)
    requires v == more + u && |w| < |u|
    ensures done + more + w + z != done + v + z
  {
    assert |done + more + w + z| < |done + v + z|;
  }

  lemma TwoCrsEnd(v: string)
    requires EndsTwoCrs(v)
    ensures EndsLf(v) && EndsCrLf(v) && EndsCrLf(Normalise(v))
  {
    NormaliseCrCrLf(v);
    assert v[|v| - 2] == v[|v| - 3..][1] && v[|v| - 1] == v[|v| - 3..][2];
  }

  lemma LaterPass(v: string, y: string)
    requires EndsLf(v)
    ensures Normalise(v + y) == Normalise(v) + Normalise(y)
  {
    NormaliseConcat(v, y);
  }

  lemma WholeRead(p: string, q: string, f: string)
    requires Replaced(f) && EndsLf(p) && EndsLf(Drain(Normalise(p)).1) && !HasBlank(LF + Normalise(q))
    ensures var n, y := Normalise(p), Normalise(q);
            Content(Feed(OnePass(p + q), f))
            == Terminated(Drain(n).0) + Normalise(Drain(n).1) + (Normalise(y) + f)
  {
    var n, y := Normalise(p), Normalise(q);
    LaterPass(p, q);
    NoGapStays(n, y);
    OnePassIs(p + q);
    hide *;
    FlushContent(OnePass(p + q), f);
    LaterPass(Drain(n).1, y);
    Regroup(Terminated(Drain(n).0), Normalise(Drain(n).1), Normalise(y), f);
  }

  lemma OnePassIs(t: string)
    ensures OnePass(t) == Reader(Drain(Normalise(t)).0, Drain(Normalise(t)).1)
  {}

  lemma FeedIs(r: Reader, x: string)
    ensures var d := Drain(Normalise(r.buffer + x)); Feed(r, x) == Reader(r.blocks + d.0, d.1)
  {}

  lemma CutRead(p: string, q: string, f: string)
    requires Replaced(f) && EndsTwoCrs(Drain(Normalise(p)).1) && !HasBlank(LF + Normalise(q))
    ensures var n, y := Normalise(p), Normalise(q);
            var v := Drain(n).1;
            var d := Drain(Normalise(v));
            Content(Feed(Feed(OnePass(p), q), f))
            == Terminated(Drain(n).0) + Terminated(d.0) + Normalise(d.1) + (Normalise(y) + f)
  {
    hide *;
    var n, y := Normalise(p), Normalise(q);
    var blocks, v := Drain(n).0, Drain(n).1;
    var d := Drain(Normalise(v));
    TwoCrsEnd(v);
    DrainKeepsEnd(Normalise(v));
    CrLfIsLf(d.1);
    LaterPass(v, q);
    NoGapStays(Normalise(v), y);
    OnePassIs(p);
    FeedIs(OnePass(p), q);
    var cut := Feed(OnePass(p), q);
    assert cut == Reader(blocks + d.0, d.1 + y);
    FlushContent(cut, f);
    TerminatedConcat(blocks, d.0);
    LaterPass(d.1, y);
    Regroup(Terminated(blocks) + Terminated(d.0), Normalise(d.1), Normalise(y), f);
  }

  lemma CrLfIsLf(v: string)
    requires EndsCrLf(v)
    ensures EndsLf(v)
  {}

  lemma Regroup(a: string, b: string, c: string, d: string)
    ensures a + (b + c) + d == a + b + (c + d)
  {}

  /** A text that is not settled has a CR CR LF, not at its end, behind which a gap or before which a third
      CR stands. */
  lemma Unsettled(t: string) returns (i: nat, gap: Option<nat>)
    requires !Settled(t)
    ensures TwoCrs(t, i) && i + 3 < |t|
    ensures if gap.Some? then i + 2 <= gap.value && GapAt(t, gap.value) else i > 0 && ThreeCrs(t, i - 1)
  {
    if !Calm(t) {
      var m, j :| 0 <= m && m + 2 <= j < |t| && TwoCrs(t, m) && GapAt(t, j);
      i, gap := m, Some(j);
    } else {
      var m :| 0 <= m < |t| - 4 && ThreeCrs(t, m);
      i, gap := m + 1, None;
    }
  }

  /** Cut behind the line feed of its CR CR LF, such a text falls into a front and a rest that tell the cut. */
  lemma CutThere(t: string, i: nat, gap: Option<nat>, p: string, q: string, f: string)
    requires t == p + q + f && |p| == i + 3 && TwoCrs(t, i) && Replaced(f)
    requires if gap.Some? then i + 2 <= gap.value && GapAt(t, gap.value) else i > 0 && ThreeCrs(t, i - 1)
    ensures EndsTwoCrs(p) && (Gap(LF + q) || EndsThreeCrs(p))
  {
    assert forall x | 0 <= x < |p| :: p[x] == t[x];
    FrontEnds(p, i);
    if gap.Some? { GapInRest(t, p, q, f, gap.value); }
  }

  lemma FrontEnds(p: string, i: nat)
    requires |p| == i + 3 && TwoCrs(p, i)
    ensures EndsTwoCrs(p) && (i > 0 && p[i - 1] == '\r' ==> EndsThreeCrs(p))
  {
    assert p[i..] == [p[i], p[i + 1], p[i + 2]];
    if i > 0 { assert p[i - 1..] == [p[i - 1], p[i], p[i + 1], p[i + 2]]; }
  }

  lemma GapInRest(t: string, p: string, q: string, f: string, j: nat)
    requires t == p + q + f && Replaced(f) && |p| > 0 && p[|p| - 1] == '\n' && |p| <= j + 1 && GapAt(t, j)
    ensures Gap(LF + q)
  {
    var u := LF + q;
    assert forall x | 0 <= x < |u| :: u[x] == t[|p| - 1 + x];
    assert forall x | 0 <= x < |f| :: t[|p + q| + x] == f[x];
    assert t[j + 1] != REPLACEMENT;
    assert j + 2 < |t| && t[j + 2] == '\n' ==> j + 2 < |p + q|;
    assert GapAt(u, j + 1 - |p|);
  }

  lemma CutTells(p: string, q: string, f: string)
    requires EndsTwoCrs(p) && (Gap(LF + q) || EndsThreeCrs(p)) && Replaced(f)
    ensures Feed(Feed(OnePass(p), q), f) != Feed(OnePass(p + q), f)
  {
    hide *;
    if Gap(LF + q) {
      GapTells(p, q, f);
    } else {
      ThreeCrsTell(p, q, f);
    }
  }

  lemma OneChunk(bytes: seq<Byte>)
    requires bytes != []
    ensures ReadStream([bytes]) == Feed(OnePass(Scan(bytes).text), Flush(Scan(bytes).rest))
    ensures Flatten([bytes]) == bytes
  {
    var w := Wire([], START);
    assert ReadStream([bytes]) == Feed(ReceiveAll(w, [bytes]).reader, Flush(ReceiveAll(w, [bytes]).pending));
    hide *;
    Singleton(bytes);
    FlattenFirst(w, [bytes]);
    FlattenNone(Receive(w, bytes), [bytes][1..]);
    assert [] + bytes == bytes && bytes + [] == bytes;
    FeedStart(Scan(bytes).text);
  }

  /** Any other text is read differently whole and cut right behind that CR CR LF. */
  lemma CutChangesReading(bytes: seq<Byte>) returns (chunks: seq<seq<Byte>>)
    requires !Settled(DecodeAll(bytes))
    ensures Flatten(chunks) == bytes && Flatten([bytes]) == bytes && ReadStream(chunks) != ReadStream([bytes])
  {
    hide *;
    var t := DecodeAll(bytes);
    var i, gap := Unsettled(t);
    DecodeAllIs(bytes);
    TwoCrsAre(t, i);
    InText(bytes, i + 2);
    var k := LineFeedCut(bytes, i + 2);
    var head, tail := bytes[..k], bytes[k..];
    assert bytes == head + tail;
    ScanCut(head, tail);
    assert [] + tail == tail;
    var p, q, f := Scan(head).text, Scan(tail).text, Flush(Scan(tail).rest);
    assert |p| == i + 3;
    if tail == [] {
      assert head + [] == head;
      NothingToDecode();
    }
    CutThere(t, i, gap, p, q, f);
    CutTells(p, q, f);
    TwoChunks(head, tail);
    OneChunk(bytes);
    chunks := [head, tail];
  }

  lemma TwoCrsAre(t: string, i: nat)
    requires TwoCrs(t, i)
    ensures i + 2 < |t| && t[i + 2] == '\n' && t[i + 2] != REPLACEMENT
  {}

  lemma NothingToDecode()
    ensures Scan([]) == Decoded("", []) && Flush([]) == ""
  {}

  /** A stream is read the same however it is cut exactly when its text is settled. */
  lemma SameUnderEveryCut(bytes: seq<Byte>)
    ensures (forall cs, ds | Flatten(cs) == bytes && Flatten(ds) == bytes :: ReadStream(cs) == ReadStream(ds))
            <==> Settled(DecodeAll(bytes))
  {
    hide *;
    if Settled(DecodeAll(bytes)) {
      forall cs, ds | Flatten(cs) == bytes && Flatten(ds) == bytes ensures ReadStream(cs) == ReadStream(ds) {
        SettledReading(cs);
        SettledReading(ds);
      }
    } else {
      var cs := CutChangesReading(bytes);
      assert Flatten(cs) == bytes && Flatten([bytes]) == bytes;
    }
  }

  lemma TwiceIsOnce(t: string)
    requires NoCrCrLf(t)
    ensures TwoPass(t) == OnePass(t)
  {
    NormaliseNoCrLf(t);
    NormalisedFixed(Normalise(t));
  }

  /** Texts without CR CR LF are settled; so are others, whose every reading differs from one pass. */
  lemma SettledIsMore(t: string)
    ensures NoCrCrLf(t) ==> Settled(t)
    ensures Settled("\r\r\n") && !NoCrCrLf("\r\r\n") && TwoPass("\r\r\n") == Reader([], "\n")
  {
    if NoCrCrLf(t) {
      assert forall i | 0 <= i < |t| :: !TwoCrs(t, i);
    }
    NormaliseLiterals();
    assert Find("\n", BLANK).None?;
  }
}
