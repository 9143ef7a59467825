/** Benchmark prompts: seeded prose whose text for fewer words is a prefix of its text for
    more, through sentence building, truncation, paragraph breaks and the final strip. */
module PromptText {
  import opened Text

  /** The generator's k-th raw draw; `Draw` reduces it to `bound` outcomes. */
  type Stream = nat -> nat

  function Draw(s: Stream, k: nat, bound: nat): (r: nat)
    requires bound > 0
    ensures r < bound
  {
    s(k) % bound
  }

  /** Draws used so far, and sentences since the last paragraph break. */
  datatype Gen = Gen(k: nat, sentences: nat)

  predicate Plain(w: string) {
    |w| > 0 && forall c | c in w :: !IsSpace(c)
  }

  /** A vocabulary as `str.split()` yields it. */
  predicate Vocabulary(words: seq<string>) {
    |words| > 0 && forall w | w in words :: Plain(w)
  }

  function Upper(c: char): char { if 'a' <= c <= 'z' then (c as int - 32) as char else c }
  function Lower(c: char): char { if 'A' <= c <= 'Z' then (c as int + 32) as char else c }

  function LowerAll(s: string): string {
    if s == "" then "" else [Lower(s[0])] + LowerAll(s[1..])
  }

  /** `str.capitalize` on ASCII words. */
  function Capitalize(s: string): string {
    if s == "" then "" else [Upper(s[0])] + LowerAll(s[1..])
  }

  const STOPS := ".....?!"
  const BREAK := "\n\n"

  // ---------------------------------------------------------------- sentences

  function Choices(words: seq<string>, s: Stream, k: nat, n: nat): (r: seq<string>)
    requires |words| > 0
    ensures |r| == n && forall w | w in r :: w in words
  {
    if n == 0 then [] else Choices(words, s, k, n - 1) + [words[Draw(s, k + n - 1, |words|)]]
  }

  /** Appends punctuation to word `i`. */
  function Punctuated(list: seq<string>, i: nat, mark: string): (r: seq<string>)
    requires i < |list|
    ensures |r| == |list|
  {
    list[i := list[i] + mark]
  }

  /** A long sentence gets a comma half of the time. */
  function Comma(s: Stream, k: nat, list: seq<string>): (r: (seq<string>, nat))
    requires |list| >= 5
    ensures |r.0| == |list|
  {
    if |list| <= 8 then (list, k)
    else if Draw(s, k, 2) != 0 then (list, k + 1)
    else (Punctuated(list, 2 + Draw(s, k + 1, |list| - 5), ","), k + 2)
  }

  /** The full stop, and a paragraph break after 4 to 9 sentences. */
  function Close(s: Stream, k: nat, list: seq<string>, sentences: nat): (seq<string>, Gen)
    requires |list| >= 5
  {
    var stopped := Punctuated(list, |list| - 1, [STOPS[Draw(s, k, 7)]]);
    if sentences >= 4 + Draw(s, k + 1, 6) then (Punctuated(stopped, |list| - 1, BREAK), Gen(k + 2, 0))
    else (stopped, Gen(k + 2, sentences))
  }

  function SentenceLength(s: Stream, g: Gen): (r: nat)
    ensures 5 <= r <= 15
  {
    5 + Draw(s, g.k, 11)
  }

  /** The words of the next sentence, and the draw after them. */
  function Drawn(words: seq<string>, s: Stream, g: Gen): (r: seq<string>)
    requires |words| > 0
    ensures |r| == SentenceLength(s, g) >= 5 && forall w | w in r :: w in words
  {
    Choices(words, s, g.k + 1, SentenceLength(s, g))
  }

  function AfterWords(s: Stream, g: Gen): nat { g.k + 1 + SentenceLength(s, g) }

  /** One sentence, 5 to 15 words, and the generator after it. */
  function Sentence(words: seq<string>, s: Stream, g: Gen): (r: (seq<string>, Gen))
    requires |words| > 0
    ensures |r.0| >= 5
  {
    var drawn := Drawn(words, s, g);
    var (marked, k) := Comma(s, AfterWords(s, g), drawn[0 := Capitalize(drawn[0])]);
    Close(s, k, marked, g.sentences + 1)
  }

  /** A word with its punctuation, perhaps followed by a paragraph break. */
  ghost predicate Token(t: string) {
    Plain(t) || exists p :: Plain(p) && t == p + BREAK
  }

  lemma {:induction false} LowerAllPlain(w: string)
    requires forall c | c in w :: !IsSpace(c)
    ensures forall c | c in LowerAll(w) :: !IsSpace(c)
  {
    if w != "" { LowerAllPlain(w[1..]); }
  }

  lemma CapitalizePlain(w: string)
    requires Plain(w)
    ensures Plain(Capitalize(w))
  {
    LowerAllPlain(w[1..]);
    assert w[0] in w;
  }

  predicate AllPlain(list: seq<string>) {
    forall i | 0 <= i < |list| :: Plain(list[i])
  }

  lemma PunctuatedPlain(list: seq<string>, i: nat, c: char)
    requires AllPlain(list) && i < |list| && !IsSpace(c)
    ensures AllPlain(Punctuated(list, i, [c]))
  {
    assert Plain(list[i] + [c]);
  }

  lemma OpeningPlain(words: seq<string>, drawn: seq<string>)
    requires Vocabulary(words) && |drawn| > 0 && forall w | w in drawn :: w in words
    ensures AllPlain(drawn[0 := Capitalize(drawn[0])])
  {
    assert forall i | 0 <= i < |drawn| :: drawn[i] in drawn;
    hide Capitalize, Plain;
    CapitalizePlain(drawn[0]);
  }

  lemma CommaPlain(s: Stream, k: nat, list: seq<string>)
    requires |list| >= 5 && AllPlain(list)
    ensures AllPlain(Comma(s, k, list).0)
  {
    hide AllPlain, Punctuated;
    assert !IsSpace(',') && "," == [','];
    if |list| > 8 { PunctuatedPlain(list, 2 + Draw(s, k + 1, |list| - 5), ','); }
  }

  lemma CloseTokens(s: Stream, k: nat, list: seq<string>, sentences: nat)
    requires |list| >= 5 && AllPlain(list)
    ensures forall t | t in Close(s, k, list, sentences).0 :: Token(t)
  {
    var stop := STOPS[Draw(s, k, 7)];
    assert stop in STOPS && !IsSpace(stop);
    PunctuatedPlain(list, |list| - 1, stop);
    var stopped := Punctuated(list, |list| - 1, [stop]);
    hide Plain, Draw;
    forall t | t in Close(s, k, list, sentences).0 ensures Token(t) {
      assert t in stopped || t == stopped[|list| - 1] + BREAK;
    }
  }

  lemma SentenceTokens(words: seq<string>, s: Stream, g: Gen)
    requires Vocabulary(words)
    ensures forall t | t in Sentence(words, s, g).0 :: Token(t)
  {
    var drawn, start := Drawn(words, s, g), AfterWords(s, g);
    hide *;
    OpeningPlain(words, drawn);
    var titled := drawn[0 := Capitalize(drawn[0])];
    CommaPlain(s, start, titled);
    CloseTokens(s, Comma(s, start, titled).1, Comma(s, start, titled).0, g.sentences + 1);
    SentenceIs(words, s, g);
  }

  lemma SentenceIs(words: seq<string>, s: Stream, g: Gen)
    requires |words| > 0
    ensures var titled := Drawn(words, s, g)[0 := Capitalize(Drawn(words, s, g)[0])];
            var marked := Comma(s, AfterWords(s, g), titled);
            Sentence(words, s, g) == Close(s, marked.1, marked.0, g.sentences + 1)
  {}

  /** What a word of a sentence ends in. */
  function Tail(i: nat, length: nat, comma: Option<nat>, stop: char, broken: bool): string {
    (if comma == Some(i) then "," else "")
    + if i + 1 == length then [stop] + (if broken then "\n\n" else "") else ""
  }

  /** Where a sentence of `length` words has its comma, from the draws at `k`. */
  function CommaAt(s: Stream, k: nat, length: nat): (r: Option<nat>)
    requires length >= 5
    ensures r.Some? ==> length > 8 && 2 <= r.value <= length - 4
  {
    if length > 8 && Draw(s, k, 2) == 0 then Some(2 + Draw(s, k + 1, length - 5)) else None
  }

  /** The draw after the comma's. */
  function AfterComma(s: Stream, k: nat, length: nat): nat
    requires length >= 5
  {
    if length <= 8 then k else if CommaAt(s, k, length).None? then k + 1 else k + 2
  }

  function StopAt(s: Stream, k: nat): (r: char)
    ensures r in {'.', '?', '!'}
  {
    ".....?!"[Draw(s, k, 7)]
  }

  /** Whether a paragraph ends with its `count`-th sentence. */
  predicate BreakAt(s: Stream, k: nat, count: nat)
    ensures BreakAt(s, k, count) ==> count >= 4
    ensures count >= 9 ==> BreakAt(s, k, count)
  {
    count >= 4 + Draw(s, k, 6)
  }

  /** A sentence in full: 5 to 15 words of the vocabulary, the first capitalised, at most one comma and only in a
      sentence of more than 8 words, neither near its start nor its end, a stop behind the last word and, with the
      fourth sentence at the earliest and the ninth at the latest, a paragraph break behind that. Every choice is
      made by a draw of its own, in this order. */
  lemma SentenceReads(words: seq<string>, s: Stream, g: Gen)
    requires |words| > 0
    ensures var (t, next) := Sentence(words, s, g);
            var n := 5 + Draw(s, g.k, 11);
            var k, k' := g.k + 1 + n, AfterComma(s, g.k + 1 + n, n);
            var broken := BreakAt(s, k' + 1, g.sentences + 1);
            |t| == n && next == Gen(k' + 2, if broken then 0 else g.sentences + 1)
            && forall i | 0 <= i < n ::
                 var word := words[Draw(s, g.k + 1 + i, |words|)];
                 t[i] == (if i == 0 then Capitalize(word) else word)
                         + Tail(i, n, CommaAt(s, k, n), StopAt(s, k'), broken)
  {
    var drawn := Drawn(words, s, g);
    DrawnReads(words, s, g);
    SentenceIs(words, s, g);
    var n, k := |drawn|, AfterWords(s, g);
    var titled := drawn[0 := Capitalize(drawn[0])];
    hide *;
    MarksRead(s, k, titled, g.sentences + 1);
  }

  /** The comma, the stop and the break behind the words they belong to. */
  lemma MarksRead(s: Stream, k: nat, list: seq<string>, count: nat)
    requires |list| >= 5
    ensures var n, k' := |list|, AfterComma(s, k, |list|);
            var marked := Comma(s, k, list);
            var (t, next) := Close(s, marked.1, marked.0, count);
            var broken := BreakAt(s, k' + 1, count);
            |t| == n && next == Gen(k' + 2, if broken then 0 else count)
            && forall i | 0 <= i < n :: t[i] == list[i] + Tail(i, n, CommaAt(s, k, n), StopAt(s, k'), broken)
  {
    CommaReads(s, k, list);
    hide Comma, CommaAt, AfterComma;
    CloseReads(s, AfterComma(s, k, |list|), Comma(s, k, list).0, count);
    hide *;
    hide Tail;
    forall i | 0 <= i < |list|
      ensures Close(s, AfterComma(s, k, |list|), Comma(s, k, list).0, count).0[i] ==
              list[i] + Tail(i, |list|, CommaAt(s, k, |list|), StopAt(s, AfterComma(s, k, |list|)),
                             BreakAt(s, AfterComma(s, k, |list|) + 1, count))
    {
      TailIs(list[i], i, |list|, CommaAt(s, k, |list|), StopAt(s, AfterComma(s, k, |list|)),
             BreakAt(s, AfterComma(s, k, |list|) + 1, count));
    }
  }

  lemma TailIs(word: string, i: nat, length: nat, comma: Option<nat>, stop: char, broken: bool)
    ensures word + Tail(i, length, comma, stop, broken) ==
            (word + if comma == Some(i) then "," else "")
            + if i + 1 == length then [stop] + (if broken then "\n\n" else "") else ""
  {}

  lemma CommaReads(s: Stream, k: nat, list: seq<string>)
    requires |list| >= 5
    ensures Comma(s, k, list).1 == AfterComma(s, k, |list|)
    ensures forall i | 0 <= i < |list| ::
              Comma(s, k, list).0[i] == list[i] + if CommaAt(s, k, |list|) == Some(i) then "," else ""
  {
    forall i | 0 <= i < |list|
      ensures Comma(s, k, list).0[i] == list[i] + if CommaAt(s, k, |list|) == Some(i) then "," else ""
    {
      assert list[i] + "" == list[i];
    }
  }

  lemma CloseReads(s: Stream, k: nat, list: seq<string>, count: nat)
    requires |list| >= 5
    ensures var (t, next) := Close(s, k, list, count);
            |t| == |list| && next == Gen(k + 2, if BreakAt(s, k + 1, count) then 0 else count)
            && forall i | 0 <= i < |list| ::
                 t[i] == list[i] + if i + 1 < |list| then ""
                                   else [StopAt(s, k)] + (if BreakAt(s, k + 1, count) then "\n\n" else "")
  {
    var last, stop := |list| - 1, StopAt(s, k);
    assert list[last] + [stop] + BREAK == list[last] + ([stop] + BREAK) && [stop] + "" == [stop];
    hide StopAt;
    forall i | 0 <= i < last ensures list[i] + "" == list[i] {}
  }

  /** The draws of a sentence's words. */
  lemma DrawnReads(words: seq<string>, s: Stream, g: Gen)
    requires |words| > 0
    ensures |Drawn(words, s, g)| == SentenceLength(s, g) == 5 + Draw(s, g.k, 11)
    ensures forall i | 0 <= i < |Drawn(words, s, g)| :: Drawn(words, s, g)[i] == words[Draw(s, g.k + 1 + i, |words|)]
    ensures AfterWords(s, g) == g.k + 1 + |Drawn(words, s, g)|
  {
    ChoicesRead(words, s, g.k + 1, SentenceLength(s, g));
  }

  lemma {:induction false} ChoicesRead(words: seq<string>, s: Stream, k: nat, n: nat)
    requires |words| > 0
    ensures forall i | 0 <= i < n :: Choices(words, s, k, n)[i] == words[Draw(s, k + i, |words|)]
  {
    if n > 0 { ChoicesRead(words, s, k, n - 1); }
  }

  /** A capitalised ASCII word has its first letter in upper case and the others in lower case. */
  lemma CapitalizeReads(w: string)
    ensures var t := Capitalize(w);
            |t| == |w|
            && forall i | 0 <= i < |w| ::
                 t[i] == if i == 0 && 'a' <= w[i] <= 'z' then w[i] - 'a' + 'A'
                         else if i > 0 && 'A' <= w[i] <= 'Z' then w[i] - 'A' + 'a'
                         else w[i]
  {
    if w != "" { LowerReads(w[1..]); }
  }

  lemma {:induction false} LowerReads(w: string)
    ensures |LowerAll(w)| == |w|
    ensures forall i | 0 <= i < |w| :: LowerAll(w)[i] == if 'A' <= w[i] <= 'Z' then w[i] - 'A' + 'a' else w[i]
  {
    if w != "" { LowerReads(w[1..]); }
  }

  // ---------------------------------------------------------------- as many sentences as needed

  /** The loop that adds sentences until there are `n` words. */
  function Grow(words: seq<string>, s: Stream, g: Gen, have: seq<string>, n: int): (seq<string>, Gen)
    requires |words| > 0
    decreases n - |have|
  {
    if |have| >= n then (have, g)
    else var (more, next) := Sentence(words, s, g); Grow(words, s, next, have + more, n)
  }

  const FIRST := Gen(0, 0)

  function Words(words: seq<string>, s: Stream, n: int): seq<string>
    requires |words| > 0
  {
    var all := Grow(words, s, FIRST, [], n).0;
    if n <= 0 then [] else if n <= |all| then all[..n] else all
  }

  /** Growing to `n` words is a stop on the way to `m`. */
  lemma {:induction false} GrowFurther(words: seq<string>, s: Stream, g: Gen, have: seq<string>, n: int, m: int)
    requires |words| > 0 && n <= m
    ensures var (some, next) := Grow(words, s, g, have, n);
            Grow(words, s, g, have, m) == Grow(words, s, next, some, m)
            && |some| >= n && have <= some
    decreases n - |have|
  {
    if |have| < n {
      var (more, next) := Sentence(words, s, g);
      assert have <= have + more;
      GrowFurther(words, s, next, have + more, n, m);
      assert have + more <= Grow(words, s, next, have + more, n).0;
    }
  }

  lemma {:induction false} GrowTokens(words: seq<string>, s: Stream, g: Gen, have: seq<string>, n: int)
    requires Vocabulary(words) && forall t | t in have :: Token(t)
    ensures forall t | t in Grow(words, s, g, have, n).0 :: Token(t)
    decreases n - |have|
  {
    if |have| < n {
      var (more, next) := Sentence(words, s, g);
      SentenceTokens(words, s, g);
      hide Token;
      GrowTokens(words, s, next, have + more, n);
    }
  }

  /** Exactly `n` words, and the words for fewer are the first of the words for more. */
  lemma WordsArePrefix(words: seq<string>, s: Stream, n: nat, m: nat)
    requires Vocabulary(words) && n <= m
    ensures var a, b := Words(words, s, n), Words(words, s, m);
            |a| == n && |b| == m && a == b[..n] && (forall t | t in b :: Token(t))
            && b <= Grow(words, s, Gen(0, 0), [], m).0
  {
    GrowFurther(words, s, FIRST, [], n, m);
    var (some, next) := Grow(words, s, FIRST, [], n);
    GrowFurther(words, s, next, some, m, m);
    GrowFurther(words, s, FIRST, [], m, m);
    GrowTokens(words, s, FIRST, [], m);
    var all := Grow(words, s, FIRST, [], m).0;
    hide Grow, Token;
    assert some <= all;
    assert forall i | 0 <= i < m :: all[..m][i] in all;
  }

  // ---------------------------------------------------------------- the text

  /** `" ".join(...).replace("\n\n ", "\n\n").strip()`. */
  function Body(list: seq<string>): string {
    Strip(Replace(Join(list, " "), "\n\n ", "\n\n"))
  }

  function Prompt(words: seq<string>, s: Stream, n: int, header: string): string
    requires |words| > 0
  {
    header + Body(Words(words, s, n))
  }

  predicate EndsBreak(t: string) {
    |t| >= 2 && t[|t| - 2..] == BREAK
  }

  function Bare(t: string): string {
    if EndsBreak(t) then t[..|t| - 2] else t
  }

  /** A word in the middle of the text: with its break, or with a blank. */
  function Spaced(t: string): string {
    if EndsBreak(t) then t else t + " "
  }

  function Lead(list: seq<string>): string {
    if list == [] then "" else Spaced(list[0]) + Lead(list[1..])
  }

  lemma TokenParts(t: string)
    requires Token(t)
    ensures Plain(Bare(t)) && (t == Bare(t) || t == Bare(t) + BREAK) && (EndsBreak(t) <==> t == Bare(t) + BREAK)
  {
    if Plain(t) {
      if EndsBreak(t) {
        assert t[|t| - 1] == t[|t| - 2..][1] == '\n';
        assert t[|t| - 1] in t && IsSpace('\n');
      }
      assert t != t + BREAK by { assert |t + BREAK| == |t| + 2; }
    } else {
      var p :| Plain(p) && t == p + BREAK;
      assert t[|t| - 2..] == BREAK && t[..|t| - 2] == p;
    }
  }

  lemma {:induction false} ReplacePlain(p: string, x: string)
    requires '\n' !in p
    ensures Replace(p + x, "\n\n ", "\n\n") == p + Replace(x, "\n\n ", "\n\n")
  {
    hide *;
    if p == "" {
      assert p + x == x && "" + Replace(x, "\n\n ", "\n\n") == Replace(x, "\n\n ", "\n\n");
    } else {
      assert (p + x)[1..] == p[1..] + x && (p + x)[0] == p[0] && p[0] != '\n';
      NotAtZero(p + x);
      ReplaceMiss(p + x, "\n\n ", "\n\n");
      ReplacePlain(p[1..], x);
      assert p == [p[0]] + p[1..];
      Associative([p[0]], p[1..], Replace(x, "\n\n ", "\n\n"));
    }
  }

  lemma NotAtZero(s: string)
    requires |s| > 0 && s[0] != '\n'
    ensures !At(s, "\n\n ", 0)
  {
    assert |s| >= 3 ==> s[0..3][0] == s[0];
  }

  lemma ReplaceBreak(x: string)
    ensures Replace(BREAK + (" " + x), "\n\n ", "\n\n") == BREAK + Replace(x, "\n\n ", "\n\n")
  {
    var s := BREAK + (" " + x);
    assert s[0..3] == "\n\n ";
    ReplaceHit(s, "\n\n ", "\n\n");
    assert s[3..] == x;
  }

  lemma ReplaceShort()
    ensures Replace(BREAK, "\n\n ", "\n\n") == BREAK && Replace("", "\n\n ", "\n\n") == ""
  {
    assert forall j | 0 <= j <= 2 :: !At(BREAK, "\n\n ", j);
  }

  /** Before stripping, the text is each word spaced, the last one as it is. */
  lemma {:induction false} Rendered(list: seq<string>)
    requires list != [] && forall t | t in list :: Token(t)
    ensures Replace(Join(list, " "), "\n\n ", "\n\n") == Lead(list[..|list| - 1]) + list[|list| - 1]
  {
    var t := list[0];
    assert Token(t);
    if |list| == 1 {
      assert Lead(list[..0]) == "" && Join(list, " ") == t && "" + t == t;
      hide *;
      RenderedLast(t);
    } else {
      var rest := list[1..];
      assert Join(list, " ") == t + " " + Join(rest, " ");
      assert list[..|list| - 1][1..] == rest[..|rest| - 1] && list[..|list| - 1][0] == t;
      assert Lead(list[..|list| - 1]) == Spaced(t) + Lead(rest[..|rest| - 1]);
      hide *;
      Rendered(rest);
      RenderedFirst(t, Join(rest, " "));
      Associative(Spaced(t), Lead(rest[..|rest| - 1]), rest[|rest| - 1]);
    }
  }

  lemma RenderedLast(t: string)
    requires Token(t)
    ensures Replace(t, "\n\n ", "\n\n") == t
  {
    TokenParts(t);
    PlainHasNoBreak(Bare(t));
    ReplaceShort();
    hide Replace;
    ReplacePlain(Bare(t), BREAK);
    ReplacePlain(Bare(t), "");
    assert Bare(t) + "" == Bare(t);
  }

  lemma RenderedFirst(t: string, x: string)
    requires Token(t)
    ensures Replace(t + " " + x, "\n\n ", "\n\n") == Spaced(t) + Replace(x, "\n\n ", "\n\n")
  {
    TokenParts(t);
    PlainHasNoBreak(Bare(t));
    hide Replace, Token;
    if EndsBreak(t) {
      assert t + " " + x == Bare(t) + (BREAK + (" " + x));
      ReplacePlain(Bare(t), BREAK + (" " + x));
      ReplaceBreak(x);
      Associative(Bare(t), BREAK, Replace(x, "\n\n ", "\n\n"));
    } else {
      ReplacePlain(t + " ", x);
    }
  }

  lemma PlainHasNoBreak(p: string)
    requires Plain(p)
    ensures '\n' !in p && '\n' !in p + " "
  {
    assert IsSpace('\n');
  }

  lemma StripEnds(s: string)
    requires |s| > 0 && !IsSpace(s[0]) && !IsSpace(s[|s| - 1])
    ensures Strip(s) == s && Strip(s + BREAK) == s
  {
    var t := s + BREAK;
    assert LStrip(s) == s && LStrip(t) == t;
    assert IsSpace('\n');
    assert t[..|t| - 1] == s + "\n" && (s + "\n")[..|s + "\n"| - 1] == s;
    assert RStrip(t) == RStrip(s + "\n") == RStrip(s) == s;
  }

  /** Stripping takes off at most the last word's paragraph break. */
  lemma BodyIs(list: seq<string>)
    requires list != [] && forall t | t in list :: Token(t)
    ensures Body(list) == Lead(list[..|list| - 1]) + Bare(list[|list| - 1])
  {
    Rendered(list);
    var t := list[|list| - 1];
    assert Token(t) && Token(list[0]);
    TokenParts(t);
    TokenParts(list[0]);
    var s := Lead(list[..|list| - 1]) + Bare(t);
    FirstChar(list);
    assert !IsSpace(s[|s| - 1]) by { assert s[|s| - 1] == Bare(t)[|Bare(t)| - 1] && Bare(t)[|Bare(t)| - 1] in Bare(t); }
    StripEnds(s);
    Associative(Lead(list[..|list| - 1]), Bare(t), BREAK);
  }

  lemma FirstChar(list: seq<string>)
    requires list != [] && Token(list[0])
    ensures var s := Lead(list[..|list| - 1]) + Bare(list[|list| - 1]);
            |list| == 1 || (|s| > 0 && !IsSpace(s[0]))
  {
    TokenParts(list[0]);
    if |list| > 1 {
      var l := list[..|list| - 1];
      assert l[0] == list[0];
      assert Lead(l) == Spaced(list[0]) + Lead(l[1..]);
      assert Spaced(list[0])[0] == Bare(list[0])[0] && Bare(list[0])[0] in Bare(list[0]);
    }
  }

  lemma {:induction false} LeadConcat(a: seq<string>, b: seq<string>)
    ensures Lead(a + b) == Lead(a) + Lead(b)
  {
    if a == [] {
      assert a + b == b;
    } else {
      assert (a + b)[1..] == a[1..] + b;
      LeadConcat(a[1..], b);
      Associative(Spaced(a[0]), Lead(a[1..]), Lead(b));
    }
  }

  /** The text of the first `n` words is a prefix of the text of all. */
  lemma BodyPrefix(list: seq<string>, n: nat)
    requires n <= |list| && forall t | t in list :: Token(t)
    ensures Body(list[..n]) <= Body(list)
  {
    if n == 0 {
      ReplaceShort();
      assert Join([], " ") == "" && Strip("") == "";
    } else if n == |list| {
      assert list[..n] == list;
    } else {
      hide *;
      BodyFits(list, n);
    }
  }

  lemma BodyFits(list: seq<string>, n: nat)
    requires 0 < n < |list| && forall t | t in list :: Token(t)
    ensures Body(list[..n]) <= Body(list)
  {
    hide *;
    var a := list[..n];
    assert a[n - 1] in list;
    assert forall t | t in a :: t in list;
    BodyIs(a);
    BodyIs(list);
    LeadSplit(list, n);
    BareSpaced(a[n - 1]);
    PrefixOf(Lead(a[..n - 1]), Bare(a[n - 1]), Spaced(a[n - 1]), Lead(list[n..|list| - 1]), Bare(list[|list| - 1]));
  }

  lemma BareSpaced(t: string)
    ensures Bare(t) <= Spaced(t)
  {}

  lemma LeadSplit(list: seq<string>, n: nat)
    requires 0 < n < |list|
    ensures Lead(list[..|list| - 1])
            == Lead(list[..n][..n - 1]) + (Spaced(list[..n][n - 1]) + Lead(list[n..|list| - 1]))
  {
    var l, x, y := list[..|list| - 1], list[..n][..n - 1], list[n..|list| - 1];
    assert l == x + ([list[n - 1]] + y);
    LeadConcat(x, [list[n - 1]] + y);
    LeadConcat([list[n - 1]], y);
    Singleton(list[n - 1]);
    assert Lead([list[n - 1]]) == Spaced(list[n - 1]) + Lead([list[n - 1]][1..]) == Spaced(list[n - 1]);
  }

  lemma PrefixOf(x: string, bare: string, spaced: string, y: string, z: string)
    requires bare <= spaced
    ensures x + bare <= x + (spaced + y) + z
  {}

  /** Prefix stability: at one seed and header, fewer words give a prefix of the text for more. */
  lemma PromptPrefix(words: seq<string>, s: Stream, n: int, m: int, header: string)
    requires Vocabulary(words) && n <= m
    ensures Prompt(words, s, n, header) <= Prompt(words, s, m, header)
  {
    if m <= 0 {
    } else {
      var n' := if n <= 0 then 0 else n;
      WordsArePrefix(words, s, n', m);
      assert Words(words, s, n) == Words(words, s, n');
      hide Words, Body;
      BodyPrefix(Words(words, s, m), n');
    }
  }

  // ---------------------------------------------------------------- counting words

  /** Length of the leading run of characters that are not white space. */
  function Run(s: string): (r: nat)
    ensures r <= |s| && (r < |s| ==> IsSpace(s[r])) && forall i | 0 <= i < r :: !IsSpace(s[i])
  {
    if s == "" || IsSpace(s[0]) then 0 else 1 + Run(s[1..])
  }

  /** `s.split()`: the maximal runs of characters that are not white space. */
  function Fields(s: string): seq<string>
    decreases |s|
  {
    if s == "" then []
    else if IsSpace(s[0]) then Fields(s[1..])
    else [s[..Run(s)]] + Fields(s[Run(s)..])
  }

  function Bares(list: seq<string>): (r: seq<string>)
    ensures |r| == |list|
  {
    if list == [] then [] else [Bare(list[0])] + Bares(list[1..])
  }

  lemma RunIs(s: string, n: nat)
    requires n <= |s| && (n < |s| ==> IsSpace(s[n])) && forall i | 0 <= i < n :: !IsSpace(s[i])
    ensures Run(s) == n
  {}

  lemma FieldsWord(p: string, x: string)
    requires Plain(p) && (x == "" || IsSpace(x[0]))
    ensures Fields(p + x) == [p] + Fields(x)
  {
    var s := p + x;
    assert forall i | 0 <= i < |p| :: s[i] == p[i] && p[i] in p;
    RunIs(s, |p|);
    assert s[..|p|] == p && s[|p|..] == x;
  }

  lemma FieldsSpaced(t: string, x: string)
    requires Token(t)
    ensures Fields(Spaced(t) + x) == [Bare(t)] + Fields(x)
  {
    TokenParts(t);
    var gap := if EndsBreak(t) then BREAK else " ";
    assert Spaced(t) + x == Bare(t) + (gap + x);
    SkipGap(x);
    assert IsSpace(gap[0]);
    hide Fields, Plain, Token;
    FieldsWord(Bare(t), gap + x);
  }

  lemma SkipGap(x: string)
    ensures Fields(BREAK + x) == Fields(" " + x) == Fields(x)
  {
    assert (" " + x)[1..] == x && (BREAK + x)[1..] == "\n" + x && ("\n" + x)[1..] == x;
    assert IsSpace(' ') && IsSpace('\n');
  }

  lemma {:induction false} FieldsLead(list: seq<string>)
    requires list != [] && forall t | t in list :: Token(t)
    ensures Fields(Lead(list[..|list| - 1]) + Bare(list[|list| - 1])) == Bares(list)
  {
    var t := list[0];
    assert Token(t);
    if |list| == 1 {
      TokenParts(t);
      FieldsWord(Bare(t), "");
      assert Lead(list[..0]) == "" && "" + Bare(t) == Bare(t) + "" == Bare(t);
      assert Bares(list) == [Bare(t)] + Bares(list[1..]) && list[1..] == [];
    } else {
      var rest := list[1..];
      assert list[..|list| - 1][1..] == rest[..|rest| - 1] && list[..|list| - 1][0] == t;
      assert Lead(list[..|list| - 1]) == Spaced(t) + Lead(rest[..|rest| - 1]);
      assert Bares(list) == [Bare(t)] + Bares(rest);
      hide *;
      FieldsLead(rest);
      Associative(Spaced(t), Lead(rest[..|rest| - 1]), Bare(rest[|rest| - 1]));
      FieldsSpaced(t, Lead(rest[..|rest| - 1]) + Bare(rest[|rest| - 1]));
    }
  }

  /** The text for `n` words, read back by white space, has exactly the `n` words drawn: neither the
      paragraph breaks nor the strip joins, splits or loses one. */
  lemma ExactlyWords(words: seq<string>, s: Stream, n: nat)
    requires Vocabulary(words)
    ensures Fields(Body(Words(words, s, n))) == Bares(Words(words, s, n)) && |Fields(Body(Words(words, s, n)))| == n
  {
    WordsArePrefix(words, s, n, n);
    var list := Words(words, s, n);
    if n == 0 {
      ReplaceShort();
      assert Join([], " ") == "" && Strip("") == "";
    } else {
      hide *;
      BodyIs(list);
      FieldsLead(list);
      BaresLength(list);
    }
  }

  lemma BaresLength(list: seq<string>)
    ensures |Bares(list)| == |list|
  {}

  // ---------------------------------------------------------------- the builder

  method BuildSentence(words: seq<string>, s: Stream, g: Gen) returns (sentence: seq<string>, next: Gen)
    requires |words| > 0
    ensures (sentence, next) == Sentence(words, s, g)
  {
    var length := SentenceLength(s, g);
    var k := g.k + 1;
    sentence := [];
    for i := 0 to length
      invariant sentence == Choices(words, s, g.k + 1, i) && k == g.k + 1 + i
    {
      sentence := sentence + [words[Draw(s, k, |words|)]];
      k := k + 1;
    }
    assert sentence == Drawn(words, s, g) && k == AfterWords(s, g);
    hide *;
    sentence := sentence[0 := Capitalize(sentence[0])];
    sentence, k := AddComma(s, k, sentence);
    sentence, next := EndSentence(s, k, sentence, g.sentences + 1);
    SentenceIs(words, s, g);
  }

  method AddComma(s: Stream, from: nat, titled: seq<string>) returns (sentence: seq<string>, k: nat)
    requires |titled| >= 5
    ensures (sentence, k) == Comma(s, from, titled)
  {
    sentence, k := titled, from;
    var length := |sentence|;
    if length > 8 {
      var coin := Draw(s, k, 2);
      k := k + 1;
      if coin == 0 {
        var cut := 3 + Draw(s, k, length - 5);
        k := k + 1;
        sentence := sentence[cut - 1 := sentence[cut - 1] + ","];
      }
    }
  }

  method EndSentence(s: Stream, k: nat, marked: seq<string>, counted: nat) returns (sentence: seq<string>, next: Gen)
    requires |marked| >= 5
    ensures (sentence, next) == Close(s, k, marked, counted)
  {
    sentence := marked;
    var length, sentences := |sentence|, counted;
    sentence := sentence[length - 1 := sentence[length - 1] + [STOPS[Draw(s, k, 7)]]];
    if sentences >= 4 + Draw(s, k + 1, 6) {
      sentence := sentence[length - 1 := sentence[length - 1] + BREAK];
      sentences := 0;
    }
    next := Gen(k + 2, sentences);
  }

  method BuildPrompt(words: seq<string>, s: Stream, n: int, header: string) returns (text: string)
    requires |words| > 0
    ensures text == Prompt(words, s, n, header)
  {
    var list: seq<string> := [];
    var g := FIRST;
    hide Sentence;
    while |list| < n
      invariant Grow(words, s, g, list, n) == Grow(words, s, FIRST, [], n)
      decreases n - |list|
    {
      var sentence, next := BuildSentence(words, s, g);
      list, g := list + sentence, next;
    }
    if n <= 0 {
      list := [];
    } else {
      list := list[..n];
    }
    text := Strip(Replace(Join(list, " "), "\n\n ", "\n\n"));
    if header != "" {
      text := header + text;
    }
  }
}
