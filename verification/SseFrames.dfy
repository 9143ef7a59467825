/** The server-sent-event reader: a byte stream cut anywhere by the network is
    decoded, its CRLFs normalised on the growing buffer, split on blank lines and
    parsed into frames. Main result: what the reader hands to its parser is what
    one pass over the whole text gives, for every way of cutting the stream,
    exactly when the decoded text has no CR CR LF. (`SseCuts` says for which other
    texts all cuts still read the same, though not as one pass.) */
module SseFrames {
  import opened Text
  import opened Utf8

  const CRLF := "\r\n"
  const LF := "\n"
  const BLANK := "\n\n"

  // ---------------------------------------------------------------- newline normalisation

  /** CRLF to LF in one pass. */
  function Normalise(s: string): string {
    if |s| == 0 then ""
    else if |s| >= 2 && s[0] == '\r' && s[1] == '\n' then LF + Normalise(s[2..])
    else [s[0]] + Normalise(s[1..])
  }

  lemma {:induction false} NormaliseIsReplace(s: string)
    ensures Replace(s, "\r\n", "\n") == Normalise(s)
    decreases |s|
  {
    if |s| == 0 {
    } else if At(s, CRLF, 0) {
      assert s[0] == s[0..2][0] && s[1] == s[0..2][1];
      ReplaceHit(s, CRLF, LF);
      NormaliseIsReplace(s[2..]);
    } else {
      assert |s| >= 2 ==> s[0..2] == [s[0], s[1]];
      ReplaceMiss(s, CRLF, LF);
      NormaliseIsReplace(s[1..]);
    }
  }

  predicate NoCrLf(s: string) {
    forall i | 0 <= i < |s| - 1 :: !(s[i] == '\r' && s[i + 1] == '\n')
  }

  predicate NoCrCrLf(s: string) {
    forall i | 0 <= i < |s| - 2 :: !(s[i] == '\r' && s[i + 1] == '\r' && s[i + 2] == '\n')
  }

  /** No CRLF straddles the seam between `a` and `b`. */
  predicate CleanSeam(a: string, b: string) {
    !(|a| > 0 && |b| > 0 && a[|a| - 1] == '\r' && b[0] == '\n')
  }

  predicate CrLfHead(s: string) {
    |s| >= 2 && s[0] == '\r' && s[1] == '\n'
  }

  /** How many characters the first normalised one stands for, and that one. */
  function HeadLen(s: string): nat { if CrLfHead(s) then 2 else 1 }

  function HeadOf(s: string): string
    requires |s| > 0
  {
    if CrLfHead(s) then LF else [s[0]]
  }

  lemma NormaliseHead(s: string)
    requires |s| > 0
    ensures HeadLen(s) <= |s| && Normalise(s) == HeadOf(s) + Normalise(s[HeadLen(s)..])
  {}

  lemma NormaliseEmpty()
    ensures Normalise("") == ""
  {}

  lemma {:induction false} NormaliseConcat(a: string, b: string)
    requires CleanSeam(a, b)
    ensures Normalise(a + b) == Normalise(a) + Normalise(b)
    decreases |a|
  {
    NormaliseEmpty();
    if |a| == 0 {
      assert a + b == b;
    } else {
      SeamStep(a, b);
      hide *;
      var n := HeadLen(a);
      calc {
        Normalise(a + b);
        { NormaliseHead(a + b); }
        HeadOf(a) + Normalise(a[n..] + b);
        { NormaliseConcat(a[n..], b); Associative(HeadOf(a), Normalise(a[n..]), Normalise(b)); }
        HeadOf(a) + Normalise(a[n..]) + Normalise(b);
        { NormaliseHead(a); }
        Normalise(a) + Normalise(b);
      }
    }
  }

  lemma SeamStep(a: string, b: string)
    requires CleanSeam(a, b) && |a| > 0
    ensures var n := HeadLen(a);
            1 <= n <= |a| && HeadLen(a + b) == n && HeadOf(a + b) == HeadOf(a)
            && CleanSeam(a[n..], b) && (a + b)[n..] == a[n..] + b
  {
    var n := HeadLen(a);
    assert (a + b)[0] == a[0] && (|a| >= 2 ==> (a + b)[1] == a[1]);
    assert (a + b)[n..] == a[n..] + b;
  }

  lemma TailNoCrCrLf(a: string, b: string, n: nat)
    requires NoCrCrLf(a + b) && n <= |a|
    ensures NoCrCrLf(a[n..] + b) && (a + b)[n..] == a[n..] + b
  {
    assert (a + b)[n..] == a[n..] + b;
    forall i | 0 <= i < |a[n..] + b| - 2
      ensures !((a[n..] + b)[i] == '\r' && (a[n..] + b)[i + 1] == '\r' && (a[n..] + b)[i + 2] == '\n')
    {
      assert (a[n..] + b)[i] == (a + b)[n + i];
      assert (a[n..] + b)[i + 1] == (a + b)[n + i + 1];
      assert (a[n..] + b)[i + 2] == (a + b)[n + i + 2];
    }
  }

  /** The first character kept of `a` forms no new CRLF with what follows it. */
  lemma StableHead(a: string, b: string)
    requires NoCrCrLf(a + b) && |a| >= 2
    ensures !CrLfHead(HeadOf(a) + (Normalise(a[HeadLen(a)..]) + b))
    ensures HeadLen(a + b) == HeadLen(a) && HeadOf(a + b) == HeadOf(a)
  {
    if !CrLfHead(a) {
      var t := a[1..];
      NormaliseHead(t);
      assert (a + b)[0] == a[0] && (a + b)[1] == t[0] && (|t| >= 2 ==> (a + b)[2] == t[1]);
    }
  }

  lemma NormalisePlain(c: string, x: string)
    requires |c| == 1 && !CrLfHead(c + x)
    ensures Normalise(c + x) == c + Normalise(x)
  {
    NormaliseHead(c + x);
    assert (c + x)[1..] == x;
  }

  /** Normalising a prefix early does no harm when no CR CR LF is near. */
  lemma {:induction false} NormaliseStable(a: string, b: string)
    requires NoCrCrLf(a + b)
    ensures Normalise(Normalise(a) + b) == Normalise(a + b)
    decreases |a|
  {
    if |a| <= 1 {
      assert Normalise(a) == a;
    } else {
      var n := HeadLen(a);
      assert |HeadOf(a)| == 1 && n <= |a|;
      TailNoCrCrLf(a, b, n);
      StableHead(a, b);
      hide *;
      calc {
        Normalise(Normalise(a) + b);
        { NormaliseHead(a); Associative(HeadOf(a), Normalise(a[n..]), b); }
        Normalise(HeadOf(a) + (Normalise(a[n..]) + b));
        { NormalisePlain(HeadOf(a), Normalise(a[n..]) + b); }
        HeadOf(a) + Normalise(Normalise(a[n..]) + b);
        { NormaliseStable(a[n..], b); }
        HeadOf(a) + Normalise((a + b)[n..]);
        { NormaliseHead(a + b); }
        Normalise(a + b);
      }
    }
  }

  lemma {:induction false} NormalisedFixed(s: string)
    requires NoCrLf(s)
    ensures Normalise(s) == s
  {
    if |s| > 0 {
      NormalisedFixed(s[1..]);
      assert s == [s[0]] + s[1..];
    }
  }

  lemma {:induction false} NormaliseNoCrLf(s: string)
    requires NoCrCrLf(s)
    ensures NoCrLf(Normalise(s))
    decreases |s|
  {
    if |s| > 0 {
      NormaliseHead(s);
      var t := s[if CrLfHead(s) then 2 else 1..];
      NormaliseNoCrLf(t);
      if |t| > 0 { NormaliseHead(t); }
    }
  }

  // ---------------------------------------------------------------- splitting on blank lines

  /** Eager splitting on the leftmost blank line: the finished blocks and the unfinished rest. */
  function Drain(s: string): (seq<string>, string)
    decreases |s|
  {
    match Find(s, BLANK)
    case None => ([], s)
    case Some(i) => var (more, rest) := Drain(s[i + 2..]); ([s[..i]] + more, rest)
  }

  function Terminated(blocks: seq<string>): string {
    if blocks == [] then "" else blocks[0] + BLANK + Terminated(blocks[1..])
  }

  /** A block that ends at the first blank line after its start. */
  predicate Minimal(block: string) {
    !Contains(block + LF, BLANK)
  }

  lemma FindAfterCut(s: string, p: string, i: nat, y: string)
    requires Find(s, p) == Some(i) && |p| > 0
    ensures i + |p| <= |s| && Find(s[..i + |p|] + y, p) == Some(i)
  {
    var z := s[..i + |p|] + y;
    assert z[i..i + |p|] == s[i..i + |p|];
    assert At(z, p, i);
    forall j | 0 <= j < i ensures !At(z, p, j) {
      assert !At(s, p, j);
      assert z[j..j + |p|] == s[j..j + |p|];
    }
  }

  lemma DrainNone(s: string)
    requires Find(s, BLANK).None?
    ensures Drain(s) == ([], s)
  {}

  lemma DrainSome(s: string, i: nat)
    requires Find(s, BLANK) == Some(i)
    ensures i + 2 <= |s|
    ensures Drain(s) == ([s[..i]] + Drain(s[i + 2..]).0, Drain(s[i + 2..]).1)
  {
    FindFits(s, BLANK);
    hide Find, FindFrom, At, Contains;
  }

  lemma CutAtBlank(s: string, i: nat)
    requires Find(s, BLANK) == Some(i)
    ensures i + 2 <= |s| && s[..i + 2] == s[..i] + BLANK && s == s[..i] + BLANK + s[i + 2..]
  {
    assert s[i..i + 2] == BLANK;
    assert s == s[..i] + s[i..i + 2] + s[i + 2..];
    assert s[..i + 2] == s[..i] + s[i..i + 2];
  }

  lemma TerminatedCons(b: string, more: seq<string>)
    ensures Terminated([b] + more) == b + BLANK + Terminated(more)
  {
    assert ([b] + more)[1..] == more;
  }

  lemma FirstIsMinimal(s: string, i: nat)
    requires Find(s, BLANK) == Some(i)
    ensures i <= |s| && Minimal(s[..i])
  {
    assert s[i] == s[i..i + 2][0] == '\n';
    forall j | 0 <= j <= i + 1 ensures !At(s[..i] + LF, BLANK, j) {
      if j < i {
        assert !At(s, BLANK, j);
        assert (s[..i] + LF)[j..j + 2] == s[j..j + 2];
      }
    }
  }

  /** The split is exact and leftmost: nothing but the blank lines is dropped, and no block could end earlier. */
  lemma {:induction false} DrainSplit(s: string)
    ensures s == Terminated(Drain(s).0) + Drain(s).1
    ensures Find(Drain(s).1, BLANK).None?
    ensures forall b | b in Drain(s).0 :: Minimal(b)
    decreases |s|
  {
    assert Terminated([]) == "";
    hide *;
    if Find(s, BLANK).None? {
      DrainNone(s);
      assert "" + s == s;
    } else {
      var i := Find(s, BLANK).value;
      DrainSome(s, i);
      CutAtBlank(s, i);
      DrainSplit(s[i + 2..]);
      TerminatedCons(s[..i], Drain(s[i + 2..]).0);
      FirstIsMinimal(s, i);
      assert s == s[..i] + BLANK + (Terminated(Drain(s[i + 2..]).0) + Drain(s[i + 2..]).1);
    }
  }

  lemma DrainFirst(s: string, i: nat, y: string)
    requires Find(s, BLANK) == Some(i)
    ensures i <= |s| && Drain(s[..i] + BLANK + y) == ([s[..i]] + Drain(y).0, Drain(y).1)
  {
    hide *;
    CutAtBlank(s, i);
    FindAfterCut(s, BLANK, i, y);
    var z := s[..i] + BLANK + y;
    assert z == s[..i + 2] + y;
    DrainSome(z, i);
    assert z[..i] == s[..i] && z[i + 2..] == y;
  }

  /** Finished blocks stay finished: whatever follows them is split on its own. */
  lemma {:induction false} DrainResumes(s: string, x: string)
    ensures Drain(Terminated(Drain(s).0) + x) == (Drain(s).0 + Drain(x).0, Drain(x).1)
    decreases |s|
  {
    assert Terminated([]) == "";
    hide *;
    if Find(s, BLANK).None? {
      DrainNone(s);
      assert "" + x == x;
      assert [] + Drain(x).0 == Drain(x).0;
    } else {
      var i := Find(s, BLANK).value;
      FindFits(s, BLANK);
      DrainResumes(s[i + 2..], x);
      ResumeAfterFirst(s, i, x);
    }
  }

  lemma ResumeAfterFirst(s: string, i: nat, x: string)
    requires Find(s, BLANK) == Some(i) && i + 2 <= |s|
    requires var d := Drain(s[i + 2..]); Drain(Terminated(d.0) + x) == (d.0 + Drain(x).0, Drain(x).1)
    ensures Drain(Terminated(Drain(s).0) + x) == (Drain(s).0 + Drain(x).0, Drain(x).1)
  {
    hide *;
    var b, more, y := s[..i], Drain(s[i + 2..]).0, Terminated(Drain(s[i + 2..]).0) + x;
    calc {
      Drain(Terminated(Drain(s).0) + x);
      { DrainSome(s, i); }
      Drain(Terminated([b] + more) + x);
      { TerminatedCons(b, more); Associative(b + BLANK, Terminated(more), x); }
      Drain(b + BLANK + y);
      { DrainFirst(s, i, y); }
      ([b] + Drain(y).0, Drain(y).1);
      ([b] + (more + Drain(x).0), Drain(x).1);
      { Associative([b], more, Drain(x).0); }
      ([b] + more + Drain(x).0, Drain(x).1);
      { DrainSome(s, i); }
      (Drain(s).0 + Drain(x).0, Drain(x).1);
    }
  }

  // ---------------------------------------------------------------- the reader over decoded text

  datatype Reader = Reader(blocks: seq<string>, buffer: string)

  const START := Reader([], "")

  /** One read: normalise the whole buffer, then split off every finished block. */
  function Feed(r: Reader, text: string): Reader {
    var (more, rest) := Drain(Normalise(r.buffer + text));
    Reader(r.blocks + more, rest)
  }

  /** The reference reading: the whole text normalised once and split once. */
  function OnePass(text: string): Reader {
    var (blocks, rest) := Drain(Normalise(text));
    Reader(blocks, rest)
  }

  lemma TerminatedSeam(blocks: seq<string>, x: string)
    ensures CleanSeam(Terminated(blocks), x)
  {
    if blocks != [] { TerminatedSeam(blocks[1..], x); }
  }

  /** One more read after a prefix read in one pass is one pass over both. */
  lemma FeedExtendsOnePass(a: string, b: string)
    requires NoCrCrLf(a + b)
    ensures Feed(OnePass(a), b) == OnePass(a + b)
  {
    var n := Normalise(a);
    var (blocks, rest) := Drain(n);
    var done := Terminated(blocks);
    assert NoCrCrLf(a) by {
      forall i | 0 <= i < |a| - 2 ensures !(a[i] == '\r' && a[i + 1] == '\r' && a[i + 2] == '\n') {
        assert (a + b)[i] == a[i] && (a + b)[i + 1] == a[i + 1] && (a + b)[i + 2] == a[i + 2];
      }
    }
    NormaliseNoCrLf(a);
    DrainSplit(n);
    assert n == done + rest;
    assert NoCrLf(done) by {
      forall i | 0 <= i < |done| - 1 ensures !(done[i] == '\r' && done[i + 1] == '\n') {
        assert n[i] == done[i] && n[i + 1] == done[i + 1];
      }
    }
    calc {
      Normalise(a + b);
      { NormaliseStable(a, b); }
      Normalise(n + b);
      { assert n + b == done + (rest + b); }
      Normalise(done + (rest + b));
      { TerminatedSeam(blocks, rest + b); NormaliseConcat(done, rest + b); }
      Normalise(done) + Normalise(rest + b);
      { NormalisedFixed(done); }
      done + Normalise(rest + b);
    }
    DrainResumes(n, Normalise(rest + b));
  }

  // ---------------------------------------------------------------- the reader over bytes

  datatype Wire = Wire(pending: seq<Byte>, reader: Reader)

  function Receive(w: Wire, chunk: seq<Byte>): Wire {
    if chunk == [] then w
    else var d := Scan(w.pending + chunk); Wire(d.rest, Feed(w.reader, d.text))
  }

  function ReceiveAll(w: Wire, chunks: seq<seq<Byte>>): Wire
    decreases |chunks|
  {
    if chunks == [] then w else ReceiveAll(Receive(w, chunks[0]), chunks[1..])
  }

  /** What the reader holds when the stream has ended: blocks in order, then the unfinished tail. */
  function ReadStream(chunks: seq<seq<Byte>>): Reader {
    var w := ReceiveAll(Wire([], START), chunks);
    Feed(w.reader, Flush(w.pending))
  }

  function Flatten(chunks: seq<seq<Byte>>): seq<Byte> {
    if chunks == [] then [] else chunks[0] + Flatten(chunks[1..])
  }

  /** The reader's state when `bytes` have arrived in one piece. */
  function Arrived(bytes: seq<Byte>): Wire {
    Wire(Scan(bytes).rest, OnePass(Scan(bytes).text))
  }

  lemma NoCrCrLfPrefix(a: string, b: string)
    requires NoCrCrLf(a + b)
    ensures NoCrCrLf(a)
  {
    forall i | 0 <= i < |a| - 2 ensures !(a[i] == '\r' && a[i + 1] == '\r' && a[i + 2] == '\n') {
      assert (a + b)[i] == a[i] && (a + b)[i + 1] == a[i + 1] && (a + b)[i + 2] == a[i + 2];
    }
  }

  lemma {:induction false} ReceiveAllIsOnePass(bytes: seq<Byte>, chunks: seq<seq<Byte>>)
    requires NoCrCrLf(Scan(bytes + Flatten(chunks)).text)
    ensures ReceiveAll(Arrived(bytes), chunks) == Arrived(bytes + Flatten(chunks))
    decreases |chunks|
  {
    hide Scan, OnePass, Feed, NoCrCrLf;
    if chunks == [] {
      assert bytes + [] == bytes;
    } else {
      var c, rest := chunks[0], Flatten(chunks[1..]);
      assert bytes + Flatten(chunks) == bytes + c + rest;
      ScanCut(bytes + c, rest);
      ScanCut(bytes, c);
      NoCrCrLfPrefix(Scan(bytes + c).text, Scan(Scan(bytes + c).rest + rest).text);
      if c == [] {
        assert bytes + c == bytes;
      } else {
        FeedExtendsOnePass(Scan(bytes).text, Scan(Scan(bytes).rest + c).text);
      }
      assert Receive(Arrived(bytes), c) == Arrived(bytes + c);
      ReceiveAllIsOnePass(bytes + c, chunks[1..]);
    }
  }

  /** Chunk invariance: every way of cutting the stream, empty chunks included, reads as one pass. */
  lemma ChunkInvariance(chunks: seq<seq<Byte>>)
    requires NoCrCrLf(DecodeAll(Flatten(chunks)))
    ensures ReadStream(chunks) == OnePass(DecodeAll(Flatten(chunks)))
  {
    var d := Scan(Flatten(chunks));
    NoCrCrLfPrefix(d.text, Flush(d.rest));
    assert [] + Flatten(chunks) == Flatten(chunks);
    assert Arrived([]) == Wire([], START) by { assert Find("", BLANK).None?; }
    ReceiveAllIsOnePass([], chunks);
    FeedExtendsOnePass(d.text, Flush(d.rest));
  }

  // ---------------------------------------------------------------- the hypothesis is exact

  function Crs(s: string): nat {
    if s == "" then 0 else (if s[0] == '\r' then 1 else 0) + Crs(s[1..])
  }

  function BlockCrs(r: Reader): nat {
    Crs(Terminated(r.blocks) + r.buffer)
  }

  lemma {:induction false} CrsConcat(a: string, b: string)
    ensures Crs(a + b) == Crs(a) + Crs(b)
  {
    if a == "" {
      assert a + b == b;
    } else {
      assert (a + b)[1..] == a[1..] + b;
      CrsConcat(a[1..], b);
    }
  }

  lemma {:induction false} NormaliseDropsCrs(s: string)
    ensures Crs(Normalise(s)) <= Crs(s)
    decreases |s|
  {
    if |s| > 0 {
      NormaliseHead(s);
      if CrLfHead(s) {
        NormaliseDropsCrs(s[2..]);
        CrsConcat(LF, Normalise(s[2..]));
        assert s[1..][1..] == s[2..];
      } else {
        NormaliseDropsCrs(s[1..]);
      }
    }
  }

  lemma {:induction false} TerminatedConcat(a: seq<string>, b: seq<string>)
    ensures Terminated(a + b) == Terminated(a) + Terminated(b)
  {
    if a == [] {
      assert a + b == b;
    } else {
      assert (a + b)[1..] == a[1..] + b;
      TerminatedConcat(a[1..], b);
    }
  }

  lemma BlockCrsUnfold(r: Reader, text: string)
    ensures var d := Drain(Normalise(r.buffer + text));
            BlockCrs(Feed(r, text)) == Crs(Terminated(r.blocks + d.0) + d.1)
  {
    hide Drain, Normalise, Crs, Terminated;
  }

  /** A read adds to the carriage returns held exactly what normalising its buffer leaves. */
  lemma FeedCrs(r: Reader, text: string)
    ensures BlockCrs(Feed(r, text)) == Crs(Terminated(r.blocks)) + Crs(Normalise(r.buffer + text))
  {
    hide *;
    var n := Normalise(r.buffer + text);
    var more, rest := Drain(n).0, Drain(n).1;
    BlockCrsUnfold(r, text);
    DrainSplit(n);
    TerminatedConcat(r.blocks, more);
    assert Terminated(r.blocks) + Terminated(more) + rest == Terminated(r.blocks) + n;
    CrsConcat(Terminated(r.blocks), n);
  }

  lemma FeedCrsBound(r: Reader, text: string)
    ensures BlockCrs(Feed(r, text)) <= BlockCrs(r) + Crs(text)
  {
    FeedCrs(r, text);
    NormaliseDropsCrs(r.buffer + text);
    CrsConcat(r.buffer, text);
    CrsConcat(Terminated(r.blocks), r.buffer);
  }

  predicate EndsCrLf(s: string) {
    |s| >= 2 && s[|s| - 2] == '\r' && s[|s| - 1] == '\n'
  }

  lemma BlankBeforeEnd(s: string, i: nat)
    requires EndsCrLf(s) && Find(s, BLANK) == Some(i)
    ensures i + 2 <= |s| && EndsCrLf(s[i + 2..])
  {
    assert s[i..i + 2] == BLANK;
    hide Find;
    assert s[i] == s[i..i + 2][0] == '\n' && s[i + 1] == s[i..i + 2][1] == '\n';
  }

  lemma {:induction false} DrainKeepsEnd(s: string)
    requires EndsCrLf(s)
    ensures EndsCrLf(Drain(s).1)
    decreases |s|
  {
    hide *;
    if Find(s, BLANK).Some? {
      var i := Find(s, BLANK).value;
      BlankBeforeEnd(s, i);
      DrainSome(s, i);
      DrainKeepsEnd(s[i + 2..]);
    } else {
      DrainNone(s);
    }
  }

  lemma NormaliseLiterals()
    ensures Normalise("\r\n") == "\n" && Normalise("\r\r\n") == "\r\n"
  {
    assert "\r\n"[2..] == "" && "\r\r\n"[1..] == "\r\n";
  }

  lemma NormaliseCrCrLf(s: string)
    requires |s| >= 3 && s[|s| - 3..] == "\r\r\n"
    ensures EndsCrLf(Normalise(s))
  {
    hide Normalise;
    var a, b := s[..|s| - 3], s[|s| - 3..];
    assert s == a + b && b[0] == '\r';
    NormaliseConcat(a, b);
    NormaliseLiterals();
  }

  /** A tail that already ends in CRLF loses a carriage return at the next read. */
  lemma NextReadLoses(r: Reader, text: string)
    requires EndsCrLf(r.buffer)
    ensures BlockCrs(Feed(r, text)) < BlockCrs(r) + Crs(Normalise(text))
  {
    var b := r.buffer;
    var a := b[..|b| - 2];
    assert b == a + CRLF;
    NormaliseConcat(b, text);
    NormaliseConcat(a, CRLF);
    assert Normalise(CRLF) == LF by { assert CRLF[2..] == ""; }
    NormaliseDropsCrs(a);
    CrsConcat(Normalise(a), LF);
    CrsConcat(a, CRLF);
    assert Crs(CRLF) == 1 && Crs(LF) == 0 by { assert CRLF[1..] == LF && LF[1..] == ""; }
    CrsConcat(Normalise(b), Normalise(text));
    FeedCrs(r, text);
    CrsConcat(Terminated(r.blocks), b);
  }

  /** After a cut right behind CR CR LF, every continuation holds fewer carriage returns than one pass. */
  lemma CutAfterCrCrLf(p: string, q: string)
    requires |p| >= 3 && p[|p| - 3..] == "\r\r\n"
    ensures BlockCrs(Feed(OnePass(p), q)) < BlockCrs(OnePass(p + q))
  {
    NormaliseCrCrLf(p);
    DrainKeepsEnd(Normalise(p));
    NextReadLoses(OnePass(p), q);
    NormaliseConcat(p, q);
    CrsConcat(Normalise(p), Normalise(q));
    DrainSplit(Normalise(p));
    DrainSplit(Normalise(p + q));
  }

  /** A stream whose text has CR CR LF has a cut that is not read as one pass. */
  lemma SomeCutIsNotOnePass(bytes: seq<Byte>) returns (chunks: seq<seq<Byte>>)
    requires !NoCrCrLf(DecodeAll(bytes))
    ensures Flatten(chunks) == bytes && ReadStream(chunks) != OnePass(DecodeAll(bytes))
  {
    hide *;
    var i := CrCrLfAt(bytes);
    var k := LineFeedCut(bytes, i + 2);
    var head, tail := bytes[..k], bytes[k..];
    chunks := [head, tail];
    assert head + tail == bytes;
    CutBehind(head, tail, i);
  }

  /** CR CR LF is never in the flushed tail. */
  lemma CrCrLfAt(bytes: seq<Byte>) returns (i: nat)
    requires !NoCrCrLf(DecodeAll(bytes))
    ensures var t := Scan(bytes).text;
            i + 2 < |t| && t[i] == '\r' && t[i + 1] == '\r' && t[i + 2] == '\n'
  {
    var t := DecodeAll(bytes);
    i :| 0 <= i < |t| - 2 && t[i] == '\r' && t[i + 1] == '\r' && t[i + 2] == '\n';
    hide Scan, DecodeAll;
    InText(bytes, i);
    InText(bytes, i + 1);
    InText(bytes, i + 2);
  }

  /** Only replacement characters are flushed. */
  lemma InText(bytes: seq<Byte>, i: nat)
    requires i < |DecodeAll(bytes)| && DecodeAll(bytes)[i] != REPLACEMENT
    ensures i < |Scan(bytes).text| && Scan(bytes).text[i] == DecodeAll(bytes)[i]
  {
    hide Scan;
    assert DecodeAll(bytes) == Scan(bytes).text + Flush(Scan(bytes).rest);
  }

  lemma CutBehind(head: seq<Byte>, tail: seq<Byte>, i: nat)
    requires |head| > 0 && Scan(head).rest == [] && |Scan(head).text| == i + 3
    requires Scan(head).text[i] == '\r' && Scan(head).text[i + 1] == '\r' && Scan(head).text[i + 2] == '\n'
    ensures Flatten([head, tail]) == head + tail
    ensures ReadStream([head, tail]) != OnePass(DecodeAll(head + tail))
  {
    var p, q, f := Scan(head).text, Scan(tail), Flush(Scan(tail).rest);
    assert DecodeAll(head + tail) == Scan(head + tail).text + Flush(Scan(head + tail).rest);
    assert tail == [] ==> q == Decoded("", []);
    assert Replaced(f);
    assert q.rest == [] ==> f == "";
    hide *;
    assert p[|p| - 3..] == "\r\r\n";
    ScanCut(head, tail);
    assert [] + tail == tail;
    TwoChunks(head, tail);
    CutTwice(p, q.text, f);
    if tail == [] {
      assert p + "" + "" == p + "";
    }
  }

  /** Two chunks, the first of which leaves nothing held. */
  lemma TwoChunks(head: seq<Byte>, tail: seq<Byte>)
    requires head != [] && Scan(head).rest == []
    ensures Flatten([head, tail]) == head + tail
    ensures var p, q := Scan(head).text, Scan(tail);
            ReadStream([head, tail]) ==
            if tail == [] then Feed(OnePass(p), "") else Feed(Feed(OnePass(p), q.text), Flush(q.rest))
  {
    hide Scan, Feed, OnePass;
    var w := Wire([], START);
    var p := Scan(head).text;
    assert [head, tail][1..] == [tail] && |[head, tail][1..][1..]| == 0;
    assert Flatten([tail]) == tail by { assert Flatten([tail]) == tail + Flatten([tail][1..]); }
    assert [] + head == head && [] + tail == tail;
    FeedStart(p);
    assert Receive(w, head) == Wire([], OnePass(p));
    assert ReceiveAll(w, [head, tail]) == ReceiveAll(Receive(w, head), [tail]) == Receive(Receive(w, head), tail) by {
      Singleton(tail);
    }
  }

  lemma FeedStart(text: string)
    ensures Feed(START, text) == OnePass(text)
  {
    hide Drain, Normalise;
    assert "" + text == text;
    assert [] + Drain(Normalise(text)).0 == Drain(Normalise(text)).0;
  }

  lemma {:induction false} FlushIsPlain(f: string)
    requires Replaced(f)
    ensures Crs(f) == 0 && Normalise(f) == f
  {
    if f != "" { FlushIsPlain(f[1..]); }
    NormalisedFixed(f);
  }

  lemma CutTwice(p: string, q: string, f: string)
    requires |p| >= 3 && p[|p| - 3..] == "\r\r\n"
    requires Replaced(f)
    ensures Feed(Feed(OnePass(p), q), f) != OnePass(p + q + f)
    ensures Feed(OnePass(p), f) != OnePass(p + f)
  {
    CutAfterCrCrLf(p, f);
    CutAfterCrCrLf(p, q);
    FeedCrsBound(Feed(OnePass(p), q), f);
    FlushIsPlain(f);
    assert Crs(Normalise(p + q + f)) == Crs(Normalise(p + q)) by {
      NormaliseConcat(p + q, f);
      CrsConcat(Normalise(p + q), Normalise(f));
    }
    DrainSplit(Normalise(p + q + f));
    DrainSplit(Normalise(p + q));
  }

  /** Every cut of a stream is read as one pass exactly when its text has no CR CR LF. */
  lemma OnePassExactly(bytes: seq<Byte>)
    ensures (forall chunks | Flatten(chunks) == bytes :: ReadStream(chunks) == OnePass(DecodeAll(bytes)))
            <==> NoCrCrLf(DecodeAll(bytes))
  {
    if NoCrCrLf(DecodeAll(bytes)) {
      forall chunks | Flatten(chunks) == bytes
        ensures ReadStream(chunks) == OnePass(DecodeAll(bytes))
      {
        ChunkInvariance(chunks);
      }
    } else {
      var chunks := SomeCutIsNotOnePass(bytes);
    }
  }
}
