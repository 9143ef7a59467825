/** The Python string operations the modelled files rely on: substring search,
    leftmost non-overlapping replacement, splitting, joining and stripping. */
module Text {
  datatype Option<+T> = None | Some(value: T)

  lemma Associative<T>(a: seq<T>, b: seq<T>, c: seq<T>)
    ensures a + (b + c) == a + b + c
  {}

  lemma Singleton<T>(x: T)
    ensures [x][1..] == []
  {}

  /** Whether `p` occurs in `s` at offset `i`. */
  predicate At(s: string, p: string, i: nat) {
    i + |p| <= |s| && s[i..i + |p|] == p
  }

  predicate Contains(s: string, p: string) {
    exists i | 0 <= i <= |s| :: At(s, p, i)
  }

  /** Leftmost occurrence of `p` at or after `i`. */
  function FindFrom(s: string, p: string, i: nat): (r: Option<nat>)
    requires i <= |s|
    ensures r.Some? ==> i <= r.value && At(s, p, r.value) && forall j | i <= j < r.value :: !At(s, p, j)
    ensures r.None? ==> forall j | i <= j <= |s| :: !At(s, p, j)
    decreases |s| - i
  {
    if At(s, p, i) then Some(i) else if i == |s| then None else FindFrom(s, p, i + 1)
  }

  function Find(s: string, p: string): (r: Option<nat>)
    ensures r.Some? ==> At(s, p, r.value) && forall j | 0 <= j < r.value :: !At(s, p, j)
    ensures r.None? ==> !Contains(s, p)
  {
    FindFrom(s, p, 0)
  }

  /** `s.replace(pat, new)`. */
  function Replace(s: string, pat: string, sub: string): string
    requires |pat| > 0
    decreases |s|
  {
    match Find(s, pat)
    case None => s
    case Some(i) => s[..i] + (sub + Replace(s[i + |pat|..], pat, sub))
  }

  lemma AtShift(s: string, p: string, k: nat, j: nat)
    requires k <= j <= |s|
    ensures At(s, p, j) <==> At(s[k..], p, j - k)
  {
    if j + |p| <= |s| {
      assert s[k..][j - k..j - k + |p|] == s[j..j + |p|];
    }
  }

  lemma ReplaceHit(s: string, pat: string, sub: string)
    requires |pat| > 0 && At(s, pat, 0)
    ensures Replace(s, pat, sub) == sub + Replace(s[|pat|..], pat, sub)
  {
    assert s[..0] + sub == sub;
  }

  lemma {:induction false} FindFromTail(s: string, p: string, i: nat)
    requires i < |s|
    ensures FindFrom(s, p, i + 1) == match FindFrom(s[1..], p, i) case None => None case Some(k) => Some(k + 1)
    decreases |s| - i
  {
    AtShift(s, p, 1, i + 1);
    if i + 1 < |s| { FindFromTail(s, p, i + 1); }
  }

  lemma FindTail(s: string, p: string)
    requires |s| > 0 && !At(s, p, 0)
    ensures Find(s, p) == match Find(s[1..], p) case None => None case Some(k) => Some(k + 1)
  {
    FindFromTail(s, p, 0);
  }

  lemma FindFits(s: string, p: string)
    ensures Find(s, p).Some? ==> Find(s, p).value + |p| <= |s|
  {}

  lemma ReplaceUnfold(s: string, pat: string, sub: string)
    requires |pat| > 0
    ensures Replace(s, pat, sub) ==
            match Find(s, pat) case None => s case Some(i) => s[..i] + (sub + Replace(s[i + |pat|..], pat, sub))
  {}

  lemma ReplaceMiss(s: string, pat: string, sub: string)
    requires |pat| > 0 && |s| > 0 && !At(s, pat, 0)
    ensures Replace(s, pat, sub) == [s[0]] + Replace(s[1..], pat, sub)
  {
    hide *;
    FindTail(s, pat);
    ReplaceUnfold(s, pat, sub);
    ReplaceUnfold(s[1..], pat, sub);
    if Find(s, pat).Some? {
      var i := Find(s, pat).value;
      assert i + |pat| <= |s| by { FindFits(s, pat); }
      ShiftSlices(s, i, |pat|, sub + Replace(s[i + |pat|..], pat, sub));
    }
  }

  lemma ShiftSlices(s: string, i: nat, n: nat, tail: string)
    requires 0 < i <= i + n <= |s|
    ensures s[..i] + tail == [s[0]] + (s[1..][..i - 1] + tail)
    ensures s[1..][i - 1 + n..] == s[i + n..]
  {
    assert s[..i] == [s[0]] + s[1..][..i - 1];
  }

  /** `s.split(c)` for a one-character separator: never empty. */
  function Split(s: string, c: char): (r: seq<string>)
    ensures |r| >= 1
  {
    if |s| == 0 then [""]
    else
      var rest := Split(s[1..], c);
      if s[0] == c then [""] + rest else [[s[0]] + rest[0]] + rest[1..]
  }

  /** `sep.join(parts)`. */
  function Join(parts: seq<string>, sep: string): string {
    if |parts| == 0 then ""
    else if |parts| == 1 then parts[0]
    else parts[0] + sep + Join(parts[1..], sep)
  }

  /** Splitting is undone by joining on the separator. */
  lemma {:induction false} JoinSplit(s: string, c: char)
    ensures Join(Split(s, c), [c]) == s
  {
    if |s| > 0 {
      var rest := Split(s[1..], c);
      JoinSplit(s[1..], c);
      var r := Split(s, c);
      if s[0] == c {
        assert r[1..] == rest;
      } else {
        assert r[1..] == rest[1..];
        if |rest| > 1 { assert Join(rest, [c]) == rest[0] + [c] + Join(rest[1..], [c]); }
      }
      assert s == [s[0]] + s[1..];
    }
  }

  lemma {:induction false} SplitFirst(a: string, c: char, b: string)
    requires c !in a
    ensures Split(a + [c] + b, c) == [a] + Split(b, c)
  {
    var s := a + [c] + b;
    if |a| == 0 {
      assert s[1..] == b;
    } else {
      assert s[1..] == a[1..] + [c] + b;
      SplitFirst(a[1..], c, b);
      assert [a[0]] + a[1..] == a;
    }
  }

  lemma {:induction false} SplitNone(a: string, c: char)
    requires c !in a
    ensures Split(a, c) == [a]
  {
    if |a| > 0 {
      SplitNone(a[1..], c);
      assert [a[0]] + a[1..] == a;
    }
  }

  /** `str.isspace` on one character: what `strip()` removes. */
  predicate IsSpace(c: char) {
    var n := c as int;
    9 <= n <= 13 || 28 <= n <= 32 || n == 0x85 || n == 0xA0 || n == 0x1680
    || 0x2000 <= n <= 0x200A || n == 0x2028 || n == 0x2029 || n == 0x202F || n == 0x205F || n == 0x3000
  }

  /** The 29 characters Python takes for white space. */
  const SPACES := "\t\n\U{000B}\U{000C}\r\U{001C}\U{001D}\U{001E}\U{001F} \U{0085}\U{00A0}\U{1680}"
                  + "\U{2000}\U{2001}\U{2002}\U{2003}\U{2004}\U{2005}\U{2006}\U{2007}\U{2008}\U{2009}\U{200A}"
                  + "\U{2028}\U{2029}\U{202F}\U{205F}\U{3000}"

  lemma SpacesAre(c: char)
    ensures IsSpace(c) <==> c in SPACES
  {}

  /** `s.lstrip(" ")`. */
  function LStripBlanks(s: string): string {
    if |s| > 0 && s[0] == ' ' then LStripBlanks(s[1..]) else s
  }

  function LStrip(s: string): (r: string)
    ensures |r| <= |s| && (|r| > 0 ==> !IsSpace(r[0]))
  {
    if |s| > 0 && IsSpace(s[0]) then LStrip(s[1..]) else s
  }

  function RStrip(s: string): (r: string)
    ensures |r| <= |s| && r == s[..|r|] && (|r| > 0 ==> !IsSpace(r[|r| - 1]))
  {
    if |s| > 0 && IsSpace(s[|s| - 1]) then RStrip(s[..|s| - 1]) else s
  }

  /** `s.strip()`. */
  function Strip(s: string): string {
    RStrip(LStrip(s))
  }

  predicate StartsWith(s: string, p: string) {
    |p| <= |s| && s[..|p|] == p
  }
}
