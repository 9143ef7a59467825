/** The incremental UTF-8 decoder of the stream reader, with `errors="replace"`:
    RFC 3629 section 3 for well-formed sequences, one U+FFFD per maximal
    ill-formed subpart, an unfinished sequence held until it is decided. The
    first two bytes of an encoded surrogate are held as well, though no third
    byte can complete them. */
module Utf8 {
  import opened Text

  type Byte = b: int | 0 <= b < 256

  const REPLACEMENT: char := 0xFFFD as char

  /** What the first bytes of the undecoded data are. */
  datatype Head = Char(len: nat, ch: char) | Bad(len: nat) | Partial

  predicate Continuation(b: Byte) { 0x80 <= b < 0xC0 }

  /** Second bytes RFC 3629 allows after `first`, which excludes overlong forms and surrogates. */
  predicate SecondOk(first: Byte, b: Byte) {
    Continuation(b)
    && (first == 0xE0 ==> b >= 0xA0) && (first == 0xED ==> b < 0xA0)
    && (first == 0xF0 ==> b >= 0x90) && (first == 0xF4 ==> b < 0x90)
  }

  function Scalar2(a: int, b: int): (n: int)
    requires 0xC2 <= a < 0xE0 && 0x80 <= b < 0xC0
    ensures 0x80 <= n < 0x800
  {
    (a - 0xC0) * 0x40 + (b - 0x80)
  }

  function Scalar3(a: Byte, b: Byte, c: int): (n: int)
    requires 0xE0 <= a < 0xF0 && SecondOk(a, b) && 0x80 <= c < 0xC0
    ensures 0x800 <= n < 0x10000 && !(0xD800 <= n < 0xE000)
  {
    var (x: int, y: int) := (a, b);
    (x - 0xE0) * 0x1000 + (y - 0x80) * 0x40 + (c - 0x80)
  }

  function Scalar4(a: Byte, b: Byte, c: int, e: int): (n: int)
    requires 0xF0 <= a <= 0xF4 && SecondOk(a, b) && 0x80 <= c < 0xC0 && 0x80 <= e < 0xC0
    ensures 0x10000 <= n < 0x110000
  {
    var (x: int, y: int) := (a, b);
    (x - 0xF0) * 0x40000 + (y - 0x80) * 0x1000 + (c - 0x80) * 0x40 + (e - 0x80)
  }

  /** The start of an encoded surrogate with nothing behind it yet. */
  predicate CutSurrogate(d: seq<Byte>) {
    |d| == 2 && d[0] == 0xED && 0xA0 <= d[1] < 0xC0
  }

  function Classify(d: seq<Byte>): (h: Head)
    requires |d| > 0
    ensures !h.Partial? ==> 1 <= h.len <= |d|
  {
    var b := d[0];
    if b < 0x80 then Char(1, b as char)
    else if b < 0xC2 || b > 0xF4 then Bad(1)
    else if |d| == 1 then Partial
    else if CutSurrogate(d) then Partial
    else if !SecondOk(b, d[1]) then Bad(1)
    else if b < 0xE0 then Char(2, Scalar2(b, d[1]) as char)
    else if |d| == 2 then Partial
    else if !Continuation(d[2]) then Bad(2)
    else if b < 0xF0 then Char(3, Scalar3(b, d[1], d[2]) as char)
    else if |d| == 3 then Partial
    else if !Continuation(d[3]) then Bad(3)
    else Char(4, Scalar4(b, d[1], d[2], d[3]) as char)
  }

  datatype Decoded = Decoded(text: string, rest: seq<Byte>)

  /** One `decode(data, final=False)`: the text that is settled, and the bytes still held. */
  function Scan(d: seq<Byte>): Decoded
    decreases |d|
  {
    if d == [] then Decoded("", [])
    else
      match Classify(d)
      case Partial => Decoded("", d)
      case Char(n, c) => var more := Scan(d[n..]); Decoded([c] + more.text, more.rest)
      case Bad(n) => var more := Scan(d[n..]); Decoded([REPLACEMENT] + more.text, more.rest)
  }

  predicate Replaced(s: string) {
    forall i | 0 <= i < |s| :: s[i] == REPLACEMENT
  }

  /** `decode(b"", final=True)`: an unfinished sequence becomes one U+FFFD, a cut surrogate two. */
  function Flush(rest: seq<Byte>): (r: string)
    ensures (r == "" <==> rest == []) && Replaced(r)
  {
    if rest == [] then "" else if CutSurrogate(rest) then [REPLACEMENT, REPLACEMENT] else [REPLACEMENT]
  }

  /** `bytes.decode("utf-8", "replace")` in one piece. */
  function DecodeAll(d: seq<Byte>): string {
    Scan(d).text + Flush(Scan(d).rest)
  }

  lemma HeadStable(a: seq<Byte>, b: seq<Byte>)
    requires |a| > 0 && !Classify(a).Partial?
    ensures Classify(a + b) == Classify(a)
  {}

  /** A settled head is decoded on its own, whatever follows it. */
  lemma ScanHead(d: seq<Byte>)
    requires |d| > 0 && !Classify(d).Partial?
    ensures var h := Classify(d); var more := Scan(d[h.len..]);
            Scan(d) == Decoded([if h.Char? then h.ch else REPLACEMENT] + more.text, more.rest)
  {
    hide Classify;
  }

  lemma ScanHeld(d: seq<Byte>)
    requires d == [] || Classify(d).Partial?
    ensures Scan(d) == Decoded("", d)
  {
    hide Classify;
  }

  /** Decoding is a transducer: a cut anywhere changes nothing once the held bytes are carried over. */
  lemma {:induction false} ScanCut(a: seq<Byte>, b: seq<Byte>)
    ensures Scan(a + b) ==
            Decoded(Scan(a).text + Scan(Scan(a).rest + b).text, Scan(Scan(a).rest + b).rest)
    decreases |a|
  {
    hide *;
    if a == [] || Classify(a).Partial? {
      ScanHeld(a);
      assert Scan(a).text + Scan(a + b).text == Scan(a + b).text;
    } else {
      HeadStable(a, b);
      ScanHead(a);
      ScanHead(a + b);
      var n := Classify(a).len;
      assert (a + b)[n..] == a[n..] + b;
      ScanCut(a[n..], b);
    }
  }

  lemma {:induction false} HeldIsPartial(d: seq<Byte>)
    ensures Scan(d).rest == [] || Classify(Scan(d).rest).Partial?
    decreases |d|
  {
    if d != [] && !Classify(d).Partial? { HeldIsPartial(d[Classify(d).len..]); }
  }

  /** A head is settled by its own bytes and, when it is ill-formed, one byte more. */
  lemma HeadSettled(d: seq<Byte>, k: nat)
    requires |d| > 0 && !Classify(d).Partial?
    requires Classify(d).len < k <= |d| && !CutSurrogate(d[..k])
    ensures Classify(d[..k]) == Classify(d)
  {}

  /** A cut surrogate does not end in a line feed. */
  lemma NoLineFeedCut(d: seq<Byte>, n: nat, k: nat)
    requires 1 <= n < k <= |d| && |Scan(d[n..][..k - n]).text| > 0
    requires var t := Scan(d[n..][..k - n]).text; t[|t| - 1] == '\n'
    ensures !CutSurrogate(d[..k])
  {
    var e := d[n..][..k - n];
    assert forall i | 0 <= i < |e| :: e[i] == d[..k][n + i];
    if |e| == 1 && e[0] >= 0x80 { LoneByte(e); }
  }

  lemma LoneByte(e: seq<Byte>)
    requires |e| == 1 && e[0] >= 0x80
    ensures Replaced(Scan(e).text)
  {
    assert e[1..] == [];
  }

  lemma LineFeedFirst(d: seq<Byte>)
    requires 0 < |Scan(d).text| && Scan(d).text[0] == '\n'
    ensures |d| > 0 && Scan(d[..1]) == Decoded("\n", [])
  {
    assert d[0] == 10;
    assert d[..1] == [10] && Classify([10]) == Char(1, '\n') && [10][1..] == [];
  }

  /** A line feed in the text ends exactly where its byte was read. */
  lemma {:induction false} LineFeedCut(d: seq<Byte>, i: nat) returns (k: nat)
    requires i < |Scan(d).text| && Scan(d).text[i] == '\n'
    ensures 1 <= k <= |d| && Scan(d[..k]) == Decoded(Scan(d).text[..i + 1], [])
    decreases |d|
  {
    hide *;
    if d == [] || Classify(d).Partial? {
      ScanHeld(d);
    } else if i == 0 {
      LineFeedFirst(d);
      k := 1;
      assert Scan(d).text[..1] == "\n";
    } else {
      var n := Classify(d).len;
      ScanHead(d);
      var j := LineFeedCut(d[n..], i - 1);
      k := n + j;
      assert d[n..][..k - n] == d[n..][..j];
      NoLineFeedCut(d, n, k);
      HeadSettled(d, k);
      ScanHead(d[..k]);
      assert d[..k][n..] == d[n..][..j];
      assert Scan(d).text[..i + 1] == [Scan(d).text[0]] + Scan(d[n..]).text[..i];
    }
  }

  /** `str.encode()` on one scalar value. */
  function EncodeChar(c: char): (r: seq<Byte>)
    ensures 1 <= |r| <= 4
  {
    var n := c as int;
    if n < 0x80 then [n]
    else if n < 0x800 then [0xC0 + n / 0x40, 0x80 + n % 0x40]
    else if n < 0x10000 then [0xE0 + n / 0x1000, 0x80 + n / 0x40 % 0x40, 0x80 + n % 0x40]
    else [0xF0 + n / 0x40000, 0x80 + n / 0x1000 % 0x40, 0x80 + n / 0x40 % 0x40, 0x80 + n % 0x40]
  }

  function Encode(s: string): seq<Byte> {
    if s == "" then [] else EncodeChar(s[0]) + Encode(s[1..])
  }

  lemma CharRoundTrip(c: char, rest: seq<Byte>)
    ensures Classify(EncodeChar(c) + rest) == Char(|EncodeChar(c)|, c)
  {
    var n, d := c as int, EncodeChar(c);
    assert Classify(d) == Char(|d|, c) by {
      if n >= 0x800 { assert n / 0x1000 == n / 0x40 / 0x40; }
      if n >= 0x10000 { assert n / 0x40000 == n / 0x1000 / 0x40; }
    }
    HeadStable(d, rest);
  }

  /** Decoding inverts encoding, for every text. */
  lemma {:induction false} EncodeRoundTrip(s: string)
    ensures Scan(Encode(s)) == Decoded(s, []) && DecodeAll(Encode(s)) == s
  {
    if s != "" {
      CharRoundTrip(s[0], Encode(s[1..]));
      EncodeRoundTrip(s[1..]);
      var d := EncodeChar(s[0]);
      assert (d + Encode(s[1..]))[|d|..] == Encode(s[1..]);
      assert s == [s[0]] + s[1..];
    }
  }

  lemma {:induction false} EncodeConcat(a: string, b: string)
    ensures Encode(a + b) == Encode(a) + Encode(b)
  {
    if a == "" {
      assert a + b == b;
    } else {
      assert (a + b)[1..] == a[1..] + b;
      EncodeConcat(a[1..], b);
    }
  }

  // ---------------------------------------------------------------- which bytes are replaced

  /** Some character's encoding begins with these bytes. */
  ghost predicate Begins(d: seq<Byte>) {
    exists c: char :: d <= EncodeChar(c)
  }

  lemma EncodingLengths(c: char)
    ensures var e := EncodeChar(c); Classify(e) == Char(|e|, c)
  {
    CharRoundTrip(c, []);
    assert EncodeChar(c) + [] == EncodeChar(c);
  }

  /** A character is decoded from its own encoding only. */
  lemma CharIsEncoded(d: seq<Byte>)
    requires |d| > 0 && Classify(d).Char?
    ensures var h := Classify(d); d[..h.len] == EncodeChar(h.ch)
  {
    var h := Classify(d);
    var n, x := h.ch as int, d[0] as int;
    if h.len == 1 {
      assert d[..1] == [d[0]];
    } else if h.len == 2 {
      var y := d[1] as int;
      assert d[..2] == [d[0], d[1]];
      assert n == (x - 0xC0) * 0x40 + (y - 0x80);
      assert n / 0x40 == x - 0xC0 && n % 0x40 == y - 0x80;
    } else if h.len == 3 {
      var y, z := d[1] as int, d[2] as int;
      assert d[..3] == [d[0], d[1], d[2]];
      assert n == ((x - 0xE0) * 0x40 + (y - 0x80)) * 0x40 + (z - 0x80);
      assert n / 0x40 == (x - 0xE0) * 0x40 + (y - 0x80) && n % 0x40 == z - 0x80;
      assert n / 0x1000 == n / 0x40 / 0x40;
    } else {
      var y, z, w := d[1] as int, d[2] as int, d[3] as int;
      assert d[..4] == [d[0], d[1], d[2], d[3]];
      assert n == (((x - 0xF0) * 0x40 + (y - 0x80)) * 0x40 + (z - 0x80)) * 0x40 + (w - 0x80);
      assert n / 0x40 == ((x - 0xF0) * 0x40 + (y - 0x80)) * 0x40 + (z - 0x80) && n % 0x40 == w - 0x80;
      assert n / 0x1000 == n / 0x40 / 0x40 && n / 0x40000 == n / 0x1000 / 0x40;
    }
  }

  lemma StablePrefix(d: seq<Byte>, e: seq<Byte>)
    requires d != [] && d <= e
    ensures Classify(d).Partial? || Classify(e) == Classify(d)
  {
    assert d + e[|d|..] == e;
    if !Classify(d).Partial? { HeadStable(d, e[|d|..]); }
  }

  /** What can still become a character is held. */
  lemma BeginningIsPartial(d: seq<Byte>, c: char)
    requires d != [] && d < EncodeChar(c)
    ensures Classify(d).Partial?
  {
    EncodingLengths(c);
    StablePrefix(d, EncodeChar(c));
  }

  lemma BadDoesNotBegin(d: seq<Byte>)
    requires |d| > 0 && Classify(d).Bad?
    ensures !Begins(d)
  {
    forall c: char ensures !(d <= EncodeChar(c)) {
      EncodingLengths(c);
      if d <= EncodeChar(c) { StablePrefix(d, EncodeChar(c)); }
    }
  }

  lemma SurrogateDoesNotBegin(d: seq<Byte>)
    requires CutSurrogate(d)
    ensures !Begins(d)
  {
    forall c: char ensures !(d <= EncodeChar(c)) {
      EncodingLengths(c);
    }
  }

  /** Fills up the beginning of a character. */
  lemma PartialBegins(d: seq<Byte>)
    requires d != [] && Classify(d).Partial? && !CutSurrogate(d)
    ensures Begins(d)
  {
    var b := d[0];
    var second: Byte := if |d| > 1 then d[1] else if b == 0xE0 then 0xA0 else if b == 0xF0 then 0x90 else 0x80;
    var third: Byte := if |d| > 2 then d[2] else 0x80;
    var e := if b < 0xE0 then [b, second] else if b < 0xF0 then [b, second, third] else [b, second, third, 0x80];
    assert d <= e;
    assert Classify(e).Char? && Classify(e).len == |e|;
    CharIsEncoded(e);
    assert e[..|e|] == e;
    assert d <= EncodeChar(Classify(e).ch);
  }

  /** Each replacement character stands for a maximal subpart: a lone byte that begins no character, or the longest
      beginning of one that its next byte does not continue; nothing else is replaced before the stream ends. */
  lemma MaximalSubpart(d: seq<Byte>)
    requires |d| > 0 && Classify(d).Bad?
    ensures var n := Classify(d).len;
            (n == 1 || Begins(d[..n])) && (n < |d| ==> !Begins(d[..n + 1]))
            && (n == |d| ==> n == 1 && !Begins(d))
  {
    var n := Classify(d).len;
    if n > 1 {
      assert d[..n] == if n == 2 then [d[0], d[1]] else [d[0], d[1], d[2]];
      PartialBegins(d[..n]);
    }
    if n < |d| && CutSurrogate(d[..n + 1]) {
      SurrogateDoesNotBegin(d[..n + 1]);
    } else if n < |d| {
      HeadSettled(d, n + 1);
      BadDoesNotBegin(d[..n + 1]);
    } else {
      BadDoesNotBegin(d);
    }
  }

  /** The stateful decoder object: `pending` is what it holds between two reads. */
  class IncrementalDecoder {
    var pending: seq<Byte>

    constructor ()
      ensures pending == []
    {
      pending := [];
    }

    method Decode(chunk: seq<Byte>) returns (text: string)
      modifies this
      ensures Decoded(text, pending) == Scan(old(pending) + chunk)
    {
      hide *;
      var data := pending + chunk;
      text := "";
      var at := 0;
      assert data[0..] == data && "" + Scan(data).text == Scan(data).text;
      while at < |data| && !Classify(data[at..]).Partial?
        invariant 0 <= at <= |data|
        invariant Scan(data) == Decoded(text + Scan(data[at..]).text, Scan(data[at..]).rest)
        decreases |data| - at
      {
        var h := Classify(data[at..]);
        assert data[at..][h.len..] == data[at + h.len..];
        ScanHead(data[at..]);
        Associative(text, [if h.Char? then h.ch else REPLACEMENT], Scan(data[at + h.len..]).text);
        text := text + [if h.Char? then h.ch else REPLACEMENT];
        at := at + h.len;
      }
      pending := data[at..];
      ScanHeld(pending);
      assert text + "" == text;
    }

    method Finish() returns (text: string)
      modifies this
      ensures text == Flush(old(pending)) && pending == []
      ensures var d := old(pending);
              text == if d == [] then ""
                      else if |d| == 2 && d[0] == 0xED && 0xA0 <= d[1] < 0xC0 then "\U{FFFD}\U{FFFD}"
                      else "\U{FFFD}"
    {
      text := if pending == [] then ""
              else if CutSurrogate(pending) then [REPLACEMENT, REPLACEMENT] else [REPLACEMENT];
      pending := [];
    }
  }
}
