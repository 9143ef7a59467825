/** Secret scrubbing of log output: every registered secret is replaced by a marker, in
    whatever order the set is iterated, in strings and through nested values. */
module Scrubbing {
  import opened Text

  const MARKER := "***REDACTED***"

  /** Put down with its start `d` characters past the marker's, the secret agrees with the marker wherever both are. */
  predicate Agrees(s: string, d: int) {
    forall i | 0 <= i < |s| && 0 <= d + i < 14 :: s[i] == MARKER[d + i]
  }

  /** A secret no part of which can be told from the marker. */
  predicate Clean(s: string) {
    |s| > 0 && forall d | -|s| < d < 14 :: !Agrees(s, d)
  }

  /** Secrets without a star that are not part of the marker are clean. */
  lemma StarlessIsClean(s: string)
    requires |s| > 0 && '*' !in s && !Contains(MARKER, s)
    ensures Clean(s)
  {
    forall d | -|s| < d < 14 ensures !Agrees(s, d) {
      if d <= 0 {
        assert s[-d] in s && MARKER[0] == '*';
      } else if d + |s| >= 14 {
        assert s[13 - d] in s && MARKER[13] == '*';
      } else {
        assert !At(MARKER, s, d);
        assert MARKER[d..d + |s|] != s;
      }
    }
  }

  lemma MarkerHasNone(t: string)
    requires Clean(t)
    ensures !Contains(MARKER, t)
  {
    forall p | 0 <= p <= |MARKER| ensures !At(MARKER, t, p) {
      if At(MARKER, t, p) { AtMeansAgrees(t, p); }
    }
  }

  lemma AtMeansAgrees(t: string, p: nat)
    requires |t| > 0 && At(MARKER, t, p)
    ensures p < 14 && Agrees(t, p)
  {
    assert forall i | 0 <= i < |t| :: t[i] == MARKER[p..p + |t|][i];
  }

  // ---------------------------------------------------------------- one replacement

  /** A clean secret cannot straddle the marker. */
  lemma NoStraddle(a: string, b: string, t: string)
    requires Clean(t) && !Contains(a, t) && !Contains(b, t)
    ensures !Contains(a + (MARKER + b), t)
  {
    var z := a + (MARKER + b);
    var m := |a|;
    assert |MARKER| == 14;
    forall p | 0 <= p <= |z| ensures !At(z, t, p) {
      if p + |t| <= |z| {
        if p + |t| <= m {
          assert z[p..p + |t|] == a[p..p + |t|];
          assert !At(a, t, p);
        } else if p >= m + 14 {
          assert z[p..p + |t|] == b[p - m - 14..p - m - 14 + |t|];
          assert !At(b, t, p - m - 14);
        } else {
          Overlap(a, b, t, p);
        }
      }
    }
  }

  lemma Overlap(a: string, b: string, t: string, p: nat)
    requires Clean(t)
    requires var z := a + (MARKER + b); p + |t| <= |z| && p < |a| + 14 && p + |t| > |a|
    ensures !At(a + (MARKER + b), t, p)
  {
    var z := a + (MARKER + b);
    var d := p - |a|;
    if At(z, t, p) {
      forall i | 0 <= i < |t| && 0 <= d + i < 14 ensures t[i] == MARKER[d + i] {
        assert z[p..p + |t|][i] == z[p + i];
      }
      assert Agrees(t, d);
    }
  }

  /** Replacing one secret never makes a clean one appear. */
  lemma {:induction false} ReplaceMakesNone(text: string, s: string, t: string)
    requires |s| > 0 && Clean(t) && !Contains(text, t)
    ensures !Contains(Replace(text, s, MARKER), t)
    decreases |text|
  {
    if Find(text, s).Some? {
      var i := Find(text, s).value;
      FindFits(text, s);
      var rest := text[i + |s|..];
      PartsHaveNone(text, t, i, i + |s|);
      ReplaceUnfold(text, s, MARKER);
      hide *;
      ReplaceMakesNone(rest, s, t);
      NoStraddle(text[..i], Replace(rest, s, MARKER), t);
    }
  }

  lemma PartsHaveNone(text: string, t: string, i: nat, k: nat)
    requires i <= k <= |text| && !Contains(text, t)
    ensures !Contains(text[..i], t) && !Contains(text[k..], t)
  {
    forall p | 0 <= p <= i ensures !At(text[..i], t, p) {
      if p + |t| <= i { assert text[..i][p..p + |t|] == text[p..p + |t|]; assert !At(text, t, p); }
    }
    forall p | 0 <= p <= |text[k..]| ensures !At(text[k..], t, p) {
      AtShift(text, t, k, k + p);
      assert !At(text, t, k + p);
    }
  }

  /** Replacing a clean secret removes it. */
  lemma {:induction false} ReplaceRemoves(text: string, s: string)
    requires Clean(s)
    ensures !Contains(Replace(text, s, MARKER), s)
    decreases |text|
  {
    CleanNotEmpty(s);
    hide *;
    ReplaceUnfold(text, s, MARKER);
    if Find(text, s).Some? {
      var i := Find(text, s).value;
      FindFits(text, s);
      BeforeFirst(text, s, i);
      ReplaceRemoves(text[i + |s|..], s);
      NoStraddle(text[..i], Replace(text[i + |s|..], s, MARKER), s);
    }
  }

  lemma CleanNotEmpty(s: string)
    requires Clean(s)
    ensures |s| > 0
  {}

  lemma BeforeFirst(text: string, s: string, i: nat)
    requires Find(text, s) == Some(i) && |s| > 0
    ensures i <= |text| && !Contains(text[..i], s)
  {
    forall p | 0 <= p <= i ensures !At(text[..i], s, p) {
      if p + |s| <= i { assert text[..i][p..p + |s|] == text[p..p + |s|]; assert !At(text, s, p); }
    }
  }

  // ---------------------------------------------------------------- all of them, in any order

  /** `_scrub_text` with the set iterated as `order`. */
  function ScrubIn(text: string, order: seq<string>): string
    requires forall s | s in order :: |s| > 0
    decreases |order|
  {
    if order == [] then text
    else ScrubIn(if Contains(text, order[0]) then Replace(text, order[0], MARKER) else text, order[1..])
  }

  predicate AllClean(secrets: seq<string>) {
    forall s | s in secrets :: Clean(s)
  }

  predicate NoneEmpty(secrets: seq<string>) {
    forall s | s in secrets :: |s| > 0
  }

  lemma NotEmpty(order: seq<string>)
    requires AllClean(order)
    ensures NoneEmpty(order)
  {}

  /** One step of the loop. */
  function Next(text: string, s: string): string
    requires |s| > 0
  {
    if Contains(text, s) then Replace(text, s, MARKER) else text
  }

  lemma ScrubUnfold(text: string, order: seq<string>)
    requires order != [] && NoneEmpty(order)
    ensures NoneEmpty(order[1..]) && |order[0]| > 0
    ensures ScrubIn(text, order) == ScrubIn(Next(text, order[0]), order[1..])
  {}

  lemma NextMakesNone(text: string, s: string, t: string)
    requires |s| > 0 && Clean(t)
    ensures !Contains(text, t) || s == t ==> !Contains(Next(text, s), t)
  {
    hide Contains, Replace, Clean;
    if !Contains(text, t) { ReplaceMakesNone(text, s, t); }
    if s == t { ReplaceRemoves(text, t); }
  }

  lemma {:induction false} ScrubMakesNone(text: string, order: seq<string>, t: string)
    requires NoneEmpty(order) && Clean(t) && !Contains(text, t)
    ensures !Contains(ScrubIn(text, order), t)
    decreases |order|
  {
    hide Contains, Clean, Next, NoneEmpty;
    if order != [] {
      ScrubUnfold(text, order);
      NextMakesNone(text, order[0], t);
      ScrubMakesNone(Next(text, order[0]), order[1..], t);
    }
  }

  /** A clean secret is scrubbed from every text in every order, whatever else is registered. */
  lemma {:induction false} CleanIsScrubbed(text: string, order: seq<string>, t: string)
    requires NoneEmpty(order) && t in order && Clean(t)
    ensures !Contains(ScrubIn(text, order), t)
    decreases |order|
  {
    hide Contains, Clean, Next, NoneEmpty, ScrubIn;
    ScrubUnfold(text, order);
    NextMakesNone(text, order[0], t);
    if order[0] == t {
      ScrubMakesNone(Next(text, t), order[1..], t);
    } else {
      CleanIsScrubbed(Next(text, order[0]), order[1..], t);
    }
  }

  /** Scrubbing is complete in every order: no clean secret is left, and none at all if all are clean. */
  lemma ScrubComplete(text: string, order: seq<string>)
    requires NoneEmpty(order)
    ensures forall s | s in order && Clean(s) :: !Contains(ScrubIn(text, order), s)
    ensures AllClean(order) ==> forall s | s in order :: !Contains(ScrubIn(text, order), s)
  {
    hide Contains, Clean, ScrubIn;
    forall s | s in order && Clean(s) ensures !Contains(ScrubIn(text, order), s) {
      CleanIsScrubbed(text, order, s);
    }
  }

  /** Text without secrets is left exactly as it is, whatever the order. */
  lemma {:induction false} ScrubNothing(text: string, order: seq<string>)
    requires forall s | s in order :: |s| > 0 && !Contains(text, s)
    ensures ScrubIn(text, order) == text
    decreases |order|
  {
    if order != [] { ScrubNothing(text, order[1..]); }
  }

  /** Scrubbing again, in any order, changes nothing. */
  lemma ScrubTwice(text: string, first: seq<string>, second: seq<string>)
    requires AllClean(first) && forall s :: s in first <==> s in second
    ensures AllClean(second) && ScrubIn(ScrubIn(text, first), second) == ScrubIn(text, first)
  {
    hide Contains, Replace, Clean, ScrubIn;
    NotEmpty(first);
    ScrubComplete(text, first);
    ScrubNothing(ScrubIn(text, first), second);
  }

  // ---------------------------------------------------------------- why secrets must be clean

  lemma ScrubOne(x: string, s: string, z: string)
    requires |s| > 0 && |z| < |s| && Find(x + (s + z), s) == Some(|x|)
    ensures ScrubIn(x + (s + z), [s]) == x + (MARKER + z)
  {
    var text := x + (s + z);
    FindSome(text, s);
    ReplaceUnfold(text, s, MARKER);
    ReplaceUnfold(z, s, MARKER);
    FindFits(z, s);
    Around(x, s, z);
    ScrubOneIs(text, s);
    hide *;
  }

  lemma Around(x: string, s: string, z: string)
    ensures var text := x + (s + z); text[..|x|] == x && text[|x| + |s|..] == z
  {}

  lemma ScrubOneIs(text: string, s: string)
    requires |s| > 0
    ensures ScrubIn(text, [s]) == if Contains(text, s) then Replace(text, s, MARKER) else text
  {
    hide Replace, Contains;
    Singleton(s);
    var next := if Contains(text, s) then Replace(text, s, MARKER) else text;
    assert ScrubIn(text, [s]) == ScrubIn(next, [s][1..]);
  }

  lemma FindSome(text: string, s: string)
    requires Find(text, s).Some?
    ensures Contains(text, s)
  {
    assert At(text, s, Find(text, s).value);
  }

  /** The part of the secret before the marker, and the part after it. */
  function Front(s: string, d: int): string
    requires -|s| < d < 14
  {
    if d < 0 then s[..-d] else ""
  }

  function Rear(s: string, d: int): (r: string)
    requires -|s| < d < 14
    ensures |r| < |s| || |s| == 0
  {
    if d + |s| > 14 then s[14 - d..] else ""
  }

  /** Between its own front and rear, a secret that does not begin with a star is found where it was put. */
  lemma FoundBetween(s: string, d: int)
    requires |s| > 0 && -|s| < d < 14 && Agrees(s, d) && (d < 0 ==> s[0] != '*')
    ensures Find(Front(s, d) + (s + Rear(s, d)), s) == Some(|Front(s, d)|)
  {
    var text, m := Front(s, d) + (s + Rear(s, d)), |Front(s, d)|;
    PlacedAt(Front(s, d), s, Rear(s, d));
    hide At, Agrees, Rear;
    forall i | 0 <= i < m ensures !At(text, s, i) {
      if At(text, s, i) { EarlierMeansStar(s, d, i); }
    }
  }

  lemma PlacedAt(x: string, s: string, z: string)
    ensures At(x + (s + z), s, |x|)
  {
    assert (x + (s + z))[|x|..|x| + |s|] == s;
  }

  /** Were it found earlier, it would be periodic and begin with the marker's first star. */
  lemma EarlierMeansStar(s: string, d: int, i: nat)
    requires |s| > 0 && -|s| < d < 0 && Agrees(s, d) && i < -d
    requires At(Front(s, d) + (s + Rear(s, d)), s, i)
    ensures s[0] == '*'
  {
    var m, text := -d, Front(s, d) + (s + Rear(s, d));
    assert text[i..i + |s|][0] == text[i] == s[i];
    assert text[i..i + |s|][m] == text[i + m] == s[i];
    assert s[m] == MARKER[d + m] == '*';
  }

  /** The secret is back once the middle has become the marker. */
  lemma BackAgain(s: string, d: int)
    requires |s| > 0 && -|s| < d < 14 && Agrees(s, d)
    ensures Contains(Front(s, d) + (MARKER + Rear(s, d)), s)
  {
    var x, z := Front(s, d), Rear(s, d);
    var out := x + (MARKER + z);
    var p := |x| + d;
    assert |MARKER| == 14 && p >= 0 && p + |s| <= |out|;
    forall i | 0 <= i < |s| ensures out[p + i] == s[i] {
      if d + i < 0 {
        assert out[p + i] == x[i];
      } else if d + i < 14 {
        assert out[p + i] == MARKER[d + i];
      } else {
        assert out[p + i] == z[d + i - 14];
      }
    }
    assert out[p..p + |s|] == s;
    assert At(out, s, p);
  }

  lemma OverlapSurvives(s: string, d: int)
    requires |s| > 0 && -|s| < d < 14 && Agrees(s, d) && (d < 0 ==> s[0] != '*')
    ensures Contains(ScrubIn(Front(s, d) + (s + Rear(s, d)), [s]), s)
  {
    hide *;
    FoundBetween(s, d);
    ScrubOne(Front(s, d), s, Rear(s, d));
    BackAgain(s, d);
  }

  /** An overlap with the marker, at either end or inside, puts a secret together again in some text. */
  lemma UncleanSurvives(s: string) returns (text: string)
    requires |s| > 0 && !Clean(s)
    ensures Contains(ScrubIn(text, [s]), s)
  {
    var d :| -|s| < d < 14 && Agrees(s, d);
    if d < 0 && s[0] == '*' {
      assert MARKER[13] == '*';
      assert Agrees(s, 13);
      d := 13;
    }
    text := Front(s, d) + (s + Rear(s, d));
    OverlapSurvives(s, d);
  }

  /** The registered secret `t` is still in the text when the set has been iterated in this order. */
  predicate LeftIn(text: string, order: seq<string>, t: string) {
    t in order && NoneEmpty(order) && Contains(ScrubIn(text, order), t)
  }

  /** A secret is scrubbed from every text, in every order and whatever else is registered, exactly when it is clean. */
  lemma ScrubbedExactly(t: string)
    requires |t| > 0
    ensures (forall text, order :: !LeftIn(text, order, t)) <==> Clean(t)
  {
    hide Contains, Clean, ScrubIn;
    if Clean(t) {
      forall text, order ensures !LeftIn(text, order, t) {
        if t in order && NoneEmpty(order) { CleanIsScrubbed(text, order, t); }
      }
    } else {
      var text := UncleanSurvives(t);
      assert LeftIn(text, [t], t);
    }
  }

  // ---------------------------------------------------------------- nested values

  /** Values as they are logged; anything not a string, dict, list or tuple passes through. */
  datatype Value =
    | VNull
    | VStr(s: string)
    | VList(items: seq<Value>)
    | VTuple(items: seq<Value>)
    | VDict(entries: seq<Entry>)
    | VOther(id: int)

  datatype Entry = Entry(key: string, value: Value)

  const SECRET_KEYS: set<string> :=
    {"api_key", "apikey", "token", "hf_token", "authorization",
     "password", "secret", "vacate_token", "x-sf-vacate-token"}

  /** `lower` is `str.lower`; `order` is the order in which the set of secrets is iterated. */
  datatype Policy = Policy(lower: string -> string, order: seq<string>)

  predicate Usable(p: Policy) {
    forall s | s in p.order :: |s| > 0
  }

  predicate UnderSecretKey(p: Policy, e: Entry) {
    p.lower(e.key) in SECRET_KEYS && e.value != VNull
  }

  function RedactValue(p: Policy, v: Value): Value
    requires Usable(p)
    decreases v
  {
    match v
    case VStr(s) => VStr(ScrubIn(s, p.order))
    case VDict(entries) => VDict(RedactEntries(p, entries))
    case VList(items) => VList(RedactItems(p, items))
    case VTuple(items) => VTuple(RedactItems(p, items))
    case _ => v
  }

  function RedactItems(p: Policy, items: seq<Value>): seq<Value>
    requires Usable(p)
    decreases items
  {
    if items == [] then [] else [RedactValue(p, items[0])] + RedactItems(p, items[1..])
  }

  function RedactEntries(p: Policy, entries: seq<Entry>): seq<Entry>
    requires Usable(p)
    decreases entries
  {
    if entries == [] then []
    else
      [RedactedEntry(p, entries[0])] + RedactEntries(p, entries[1..])
  }

  function RedactedEntry(p: Policy, e: Entry): Entry
    requires Usable(p)
    decreases e
  {
    Entry(e.key, if UnderSecretKey(p, e) then VStr(MARKER) else RedactValue(p, e.value))
  }

  /** `w` has the shape of `v`, keys included; under a secret key any value is one marker. */
  predicate SameShape(p: Policy, v: Value, w: Value)
    decreases v
  {
    match v
    case VStr(_) => w.VStr?
    case VDict(entries) =>
      w.VDict? && |w.entries| == |entries|
      && forall i | 0 <= i < |entries| ::
           w.entries[i].key == entries[i].key
           && if UnderSecretKey(p, entries[i]) then w.entries[i].value == VStr(MARKER)
              else SameShape(p, entries[i].value, w.entries[i].value)
    case VList(items) =>
      w.VList? && |w.items| == |items| && forall i | 0 <= i < |items| :: SameShape(p, items[i], w.items[i])
    case VTuple(items) =>
      w.VTuple? && |w.items| == |items| && forall i | 0 <= i < |items| :: SameShape(p, items[i], w.items[i])
    case _ => w == v
  }

  predicate Secretless(p: Policy, s: string) {
    forall t | t in p.order :: !Contains(s, t)
  }

  /** No string in the value holds a secret, and nothing but null or a marker stands under a secret key. */
  predicate Harmless(p: Policy, v: Value)
    decreases v
  {
    match v
    case VStr(s) => Secretless(p, s)
    case VDict(entries) =>
      forall i | 0 <= i < |entries| ::
        Harmless(p, entries[i].value) && (UnderSecretKey(p, entries[i]) ==> entries[i].value == VStr(MARKER))
    case VList(items) => forall i | 0 <= i < |items| :: Harmless(p, items[i])
    case VTuple(items) => forall i | 0 <= i < |items| :: Harmless(p, items[i])
    case _ => true
  }

  lemma {:induction false} ItemAt(p: Policy, items: seq<Value>, i: nat)
    requires Usable(p) && i < |items|
    ensures |RedactItems(p, items)| == |items| && RedactItems(p, items)[i] == RedactValue(p, items[i])
  {
    ItemsLength(p, items);
    if i > 0 { ItemAt(p, items[1..], i - 1); }
  }

  lemma {:induction false} ItemsLength(p: Policy, items: seq<Value>)
    requires Usable(p)
    ensures |RedactItems(p, items)| == |items|
  {
    if items != [] { ItemsLength(p, items[1..]); }
  }

  lemma {:induction false} EntryAt(p: Policy, entries: seq<Entry>, i: nat)
    requires Usable(p) && i < |entries|
    ensures |RedactEntries(p, entries)| == |entries|
    ensures RedactEntries(p, entries)[i] == RedactedEntry(p, entries[i])
  {
    EntriesLength(p, entries);
    if i > 0 { EntryAt(p, entries[1..], i - 1); }
  }

  lemma {:induction false} EntriesLength(p: Policy, entries: seq<Entry>)
    requires Usable(p)
    ensures |RedactEntries(p, entries)| == |entries|
  {
    if entries != [] { EntriesLength(p, entries[1..]); }
  }

  ghost function CleanOnes(order: seq<string>): (r: seq<string>)
    ensures forall s :: s in r <==> s in order && Clean(s)
  {
    if order == [] then [] else (if Clean(order[0]) then [order[0]] else []) + CleanOnes(order[1..])
  }

  /** The same policy with the clean secrets only. */
  ghost function Cleaned(p: Policy): Policy {
    p.(order := CleanOnes(p.order))
  }

  lemma ScrubbedIsSecretless(p: Policy, s: string)
    requires Usable(p)
    ensures Secretless(Cleaned(p), MARKER) && Secretless(Cleaned(p), ScrubIn(s, p.order))
  {
    hide Contains, Clean, ScrubIn;
    ScrubComplete(s, p.order);
    forall t | t in CleanOnes(p.order) ensures !Contains(MARKER, t) {
      MarkerHasNone(t);
    }
  }

  /** Which entries become the marker: exactly those whose lower-cased key is one of nine and
      whose value is not null. */
  lemma EntryIs(p: Policy, e: Entry)
    requires Usable(p)
    ensures RedactedEntry(p, e) ==
            Entry(e.key,
                  if e.value != VNull
                     && p.lower(e.key) in {"api_key", "apikey", "token", "hf_token", "authorization", "password",
                                           "secret", "vacate_token", "x-sf-vacate-token"}
                  then VStr("***REDACTED***") else RedactValue(p, e.value))
  {}

  /** Redaction keeps shape and keys, and hides every non-null value under a secret key, whatever is registered. */
  lemma {:induction false} RedactKeepsShape(p: Policy, v: Value)
    requires Usable(p)
    ensures SameShape(p, v, RedactValue(p, v))
    decreases v, 1
  {
    match v {
      case VDict(entries) =>
        EntriesLength(p, entries);
        forall i | 0 <= i < |entries|
          ensures RedactEntries(p, entries)[i] == RedactedEntry(p, entries[i])
                  && SameShape(p, entries[i].value, RedactValue(p, entries[i].value))
        {
          EntryAt(p, entries, i);
          RedactKeepsShape(p, entries[i].value);
        }
      case VList(items) => RedactItemsKeepShape(p, items, v);
      case VTuple(items) => RedactItemsKeepShape(p, items, v);
      case _ =>
    }
  }

  lemma {:induction false} RedactItemsKeepShape(p: Policy, items: seq<Value>, whole: Value)
    requires Usable(p) && (whole == VList(items) || whole == VTuple(items))
    ensures var r := RedactItems(p, items);
            |r| == |items| && forall i | 0 <= i < |items| :: SameShape(p, items[i], r[i])
    decreases whole, 0
  {
    ItemsLength(p, items);
    forall i | 0 <= i < |items| ensures SameShape(p, items[i], RedactItems(p, items)[i]) {
      ItemAt(p, items, i);
      RedactKeepsShape(p, items[i]);
    }
  }

  /** And it leaves no clean secret in any string, whatever else is registered. */
  lemma {:induction false} RedactIsHarmless(p: Policy, v: Value)
    requires Usable(p)
    ensures Harmless(Cleaned(p), RedactValue(p, v))
    decreases v, 1
  {
    hide Secretless, CleanOnes, ScrubIn;
    match v {
      case VStr(s) => ScrubbedIsSecretless(p, s);
      case VDict(entries) =>
        EntriesLength(p, entries);
        ScrubbedIsSecretless(p, "");
        forall i | 0 <= i < |entries|
          ensures RedactEntries(p, entries)[i] == RedactedEntry(p, entries[i])
                  && Harmless(Cleaned(p), RedactValue(p, entries[i].value))
        {
          EntryAt(p, entries, i);
          RedactIsHarmless(p, entries[i].value);
        }
      case VList(items) => RedactItemsHarmless(p, items, v);
      case VTuple(items) => RedactItemsHarmless(p, items, v);
      case _ =>
    }
  }

  lemma {:induction false} RedactItemsHarmless(p: Policy, items: seq<Value>, whole: Value)
    requires Usable(p) && (whole == VList(items) || whole == VTuple(items))
    ensures var r := RedactItems(p, items);
            |r| == |items| && forall i | 0 <= i < |items| :: Harmless(Cleaned(p), r[i])
    decreases whole, 0
  {
    ItemsLength(p, items);
    forall i | 0 <= i < |items| ensures Harmless(Cleaned(p), RedactItems(p, items)[i]) {
      ItemAt(p, items, i);
      RedactIsHarmless(p, items[i]);
    }
  }

  /** What is harmless already passes unchanged. */
  lemma {:induction false} HarmlessUnchanged(p: Policy, v: Value)
    requires Usable(p) && Harmless(p, v)
    ensures RedactValue(p, v) == v
    decreases v, 1
  {
    hide Contains, ScrubIn;
    match v {
      case VStr(s) => ScrubNothing(s, p.order);
      case VDict(entries) =>
        EntriesLength(p, entries);
        forall i | 0 <= i < |entries| ensures RedactEntries(p, entries)[i] == entries[i] {
          EntryAt(p, entries, i);
          HarmlessUnchanged(p, entries[i].value);
        }
        assert RedactEntries(p, entries) == entries;
      case VList(items) => HarmlessItemsUnchanged(p, items, v);
      case VTuple(items) => HarmlessItemsUnchanged(p, items, v);
      case _ =>
    }
  }

  lemma {:induction false} HarmlessItemsUnchanged(p: Policy, items: seq<Value>, whole: Value)
    requires Usable(p) && Harmless(p, whole) && (whole == VList(items) || whole == VTuple(items))
    ensures RedactItems(p, items) == items
    decreases whole, 0
  {
    ItemsLength(p, items);
    forall i | 0 <= i < |items| ensures RedactItems(p, items)[i] == items[i] {
      ItemAt(p, items, i);
      HarmlessUnchanged(p, items[i]);
    }
  }

  /** Redacting again, with the set iterated in any other order, changes nothing. */
  lemma RedactTwice(p: Policy, q: Policy, v: Value)
    requires AllClean(p.order) && Usable(p) && q.lower == p.lower && forall s :: s in p.order <==> s in q.order
    ensures Usable(q) && RedactValue(q, RedactValue(p, v)) == RedactValue(p, v)
  {
    RedactIsHarmless(p, v);
    hide Clean, Contains;
    HarmlessInAnyOrder(Cleaned(p), q, RedactValue(p, v));
    HarmlessUnchanged(q, RedactValue(p, v));
  }

  lemma {:induction false} HarmlessInAnyOrder(p: Policy, q: Policy, v: Value)
    requires Harmless(p, v) && q.lower == p.lower && forall s :: s in p.order <==> s in q.order
    ensures Harmless(q, v)
    decreases v
  {
    match v {
      case VDict(entries) =>
        forall i | 0 <= i < |entries| ensures Harmless(q, entries[i].value) {
          HarmlessInAnyOrder(p, q, entries[i].value);
        }
      case VList(items) =>
        forall i | 0 <= i < |items| ensures Harmless(q, items[i]) { HarmlessInAnyOrder(p, q, items[i]); }
      case VTuple(items) =>
        forall i | 0 <= i < |items| ensures Harmless(q, items[i]) { HarmlessInAnyOrder(p, q, items[i]); }
      case _ =>
    }
  }

  lemma EntriesAre(p: Policy, entries: seq<Entry>)
    requires Usable(p)
    ensures var out := RedactEntries(p, entries);
            |out| == |entries|
            && forall i | 0 <= i < |out| ::
                 out[i].key == entries[i].key
                 && out[i].value ==
                    if entries[i].value != VNull
                       && p.lower(entries[i].key) in {"api_key", "apikey", "token", "hf_token", "authorization",
                                                      "password", "secret", "vacate_token", "x-sf-vacate-token"}
                    then VStr("***REDACTED***") else RedactValue(p, entries[i].value)
  {
    EntriesLength(p, entries);
    hide *;
    forall i | 0 <= i < |entries| ensures RedactEntries(p, entries)[i] == RedactedEntry(p, entries[i]) {
      EntryAt(p, entries, i);
    }
    forall i | 0 <= i < |entries| {
      EntryIs(p, entries[i]);
    }
  }

  // ---------------------------------------------------------------- the objects

  class Registry {
    var secrets: set<string>

    ghost predicate Valid()
      reads this
    {
      forall s | s in secrets :: |s| >= 6
    }

    constructor ()
      ensures Valid() && secrets == {}
    {
      secrets := {};
    }

    /** Short and missing values are not registered. */
    method Register(value: Option<string>)
      requires Valid()
      modifies this
      ensures Valid()
      ensures secrets == old(secrets) + (if value.Some? && |value.value| >= 6 then {value.value} else {})
    {
      if value.Some? && |value.value| >= 6 {
        secrets := secrets + {value.value};
      }
    }

    /** Scrubs over the set in whatever order it iterates; no clean secret is left, whatever else is registered. */
    method ScrubText(text: string) returns (out: string, ghost order: seq<string>)
      requires Valid()
      ensures (forall s :: s in order <==> s in secrets) && (forall s | s in order :: |s| > 0)
      ensures out == ScrubIn(text, order)
      ensures forall s | s in secrets && Clean(s) :: !Contains(out, s)
    {
      out, order := text, [];
      var todo := secrets;
      while todo != {}
        invariant todo <= secrets
        invariant forall s :: s in order <==> s in secrets && s !in todo
        invariant forall s | s in order :: |s| > 0
        invariant out == ScrubIn(text, order)
        decreases |todo|
      {
        var secret :| secret in todo;
        ScrubSnoc(text, order, secret);
        if Contains(out, secret) {
          out := Replace(out, secret, MARKER);
        }
        order := order + [secret];
        todo := todo - {secret};
      }
      ScrubComplete(text, order);
    }
  }

  lemma {:induction false} ScrubSnoc(text: string, order: seq<string>, s: string)
    requires |s| > 0 && forall t | t in order :: |t| > 0
    ensures forall t | t in order + [s] :: |t| > 0
    ensures var mid := ScrubIn(text, order);
            ScrubIn(text, order + [s]) == if Contains(mid, s) then Replace(mid, s, MARKER) else mid
    decreases |order|
  {
    hide Contains, Replace;
    if order == [] {
      assert [] + [s] == [s];
      Singleton(s);
    } else {
      assert (order + [s])[1..] == order[1..] + [s];
      ScrubSnoc(if Contains(text, order[0]) then Replace(text, order[0], MARKER) else text, order[1..], s);
    }
  }

  /** The event dictionary a log call renders, edited in place. */
  class EventDict {
    var entries: seq<Entry>

    constructor (found: seq<Entry>)
      ensures entries == found
    {
      entries := found;
    }

    method Redact(p: Policy)
      requires Usable(p)
      modifies this
      ensures entries == RedactEntries(p, old(entries))
      ensures |entries| == |old(entries)|
      ensures forall i | 0 <= i < |entries| ::
                entries[i].key == old(entries)[i].key
                && entries[i].value ==
                   if old(entries)[i].value != VNull
                      && p.lower(entries[i].key) in {"api_key", "apikey", "token", "hf_token", "authorization",
                                                     "password", "secret", "vacate_token", "x-sf-vacate-token"}
                   then VStr("***REDACTED***") else RedactValue(p, old(entries)[i].value)
    {
      var items := entries;
      EntriesLength(p, items);
      for i := 0 to |items|
        invariant |entries| == |items|
        invariant forall j | 0 <= j < i :: entries[j] == RedactEntries(p, items)[j]
        invariant forall j | i <= j < |items| :: entries[j] == items[j]
      {
        EntryAt(p, items, i);
        var e := items[i];
        if UnderSecretKey(p, e) {
          entries := entries[i := Entry(e.key, VStr(MARKER))];
        } else {
          entries := entries[i := Entry(e.key, RedactValue(p, e.value))];
        }
      }
      assert entries == RedactEntries(p, items);
      EntriesAre(p, items);
    }
  }
}
