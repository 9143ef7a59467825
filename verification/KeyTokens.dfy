/** API-key tokens: `sf-<scope letter>-<43 base-62 digits>` for a 256-bit number. */
module KeyTokens {
  import opened Text

  datatype Scope = Read | Inference | Admin

  /** `SCOPE_LETTER`, and the names the callers pass. */
  function Named(scope: string): Option<Scope> {
    if scope == "read" then Some(Read)
    else if scope == "inference" then Some(Inference)
    else if scope == "admin" then Some(Admin)
    else None
  }

  function NameOf(s: Scope): string {
    match s case Read => "read" case Inference => "inference" case Admin => "admin"
  }

  function Letter(s: Scope): char {
    match s case Read => 'r' case Inference => 'i' case Admin => 'a'
  }

  const TOKEN_LENGTH: nat := 43
  const KEY_PREFIX := "sf-"

  // ---------------------------------------------------------------- base 62

  function Pow62(n: nat): nat {
    if n == 0 then 1 else 62 * Pow62(n - 1)
  }

  /** Every 256-bit number is below this. */
  const LIMIT: nat := 0x1_0000_0000_0000_0000_0000_0000_0000_0000_0000_0000_0000_0000_0000_0000_0000_0000

  /** 43 digits are enough and 42 are not. */
  lemma WidthIsTight()
    ensures Pow62(42) < LIMIT < Pow62(43)
  {
    assert Pow62(5) == 916132832;
    assert Pow62(10) == 839299365868340224;
    assert Pow62(15) == 768909704948766668552634368;
    assert Pow62(20) == 704423425546998022968330264616370176;
    Pow62Add(20, 20);
    Pow62Add(40, 2);
    Pow62Add(42, 1);
    assert Pow62(2) == 3844 && Pow62(1) == 62;
  }

  lemma {:induction false} Pow62Add(a: nat, b: nat)
    ensures Pow62(a + b) == Pow62(a) * Pow62(b)
  {
    if b > 0 { Pow62Add(a, b - 1); }
  }

  /** The digit characters in order: 0-9, A-Z, a-z. */
  function DigitChar(d: nat): char
    requires d < 62
  {
    if d < 10 then ('0' as int + d) as char
    else if d < 36 then ('A' as int + d - 10) as char
    else ('a' as int + d - 36) as char
  }

  /** The value a digit character stands for. */
  function Digit(c: char): Option<nat> {
    if '0' <= c <= '9' then Some(c as int - '0' as int)
    else if 'A' <= c <= 'Z' then Some(c as int - 'A' as int + 10)
    else if 'a' <= c <= 'z' then Some(c as int - 'a' as int + 36)
    else None
  }

  /** The number a most-significant-first digit string stands for. */
  function Decode(s: string): Option<nat> {
    if s == "" then Some(0)
    else
      match (Decode(s[..|s| - 1]), Digit(s[|s| - 1]))
      case (Some(n), Some(d)) => Some(62 * n + d)
      case _ => None
  }

  lemma {:induction false} ZerosInFront(zeros: nat, s: string)
    requires Decode(s).Some?
    ensures Decode(Zeros(zeros) + s) == Decode(s)
    decreases |s|
  {
    if s == "" {
      DecodeZeros(zeros);
      assert Zeros(zeros) + s == Zeros(zeros);
    } else {
      var n := |s| - 1;
      assert (Zeros(zeros) + s)[..|Zeros(zeros) + s| - 1] == Zeros(zeros) + s[..n];
      ZerosInFront(zeros, s[..n]);
    }
  }

  function Zeros(n: nat): (r: string)
    ensures |r| == n
  {
    if n == 0 then "" else Zeros(n - 1) + "0"
  }

  lemma {:induction false} DecodeZeros(n: nat)
    ensures Decode(Zeros(n)) == Some(0)
  {
    if n > 0 {
      DecodeZeros(n - 1);
      var z := Zeros(n - 1);
      assert (z + "0")[..|z + "0"| - 1] == z;
      assert Digit('0') == Some(0);
    }
  }

  /** The digits of `n`, most significant first, without leading zeros. */
  function Digits(n: nat): string
    decreases n
  {
    if n == 0 then "" else Digits(n / 62) + [DigitChar(n % 62)]
  }

  /** The digit loop runs at most `k` times for a number below 62^k, and its digits decode to the number. */
  lemma {:induction false} DigitsDecode(n: nat, k: nat)
    requires n < Pow62(k)
    ensures |Digits(n)| <= k && Decode(Digits(n)) == Some(n)
    decreases n
  {
    if n > 0 {
      assert n / 62 < Pow62(k - 1);
      DigitsDecode(n / 62, k - 1);
      assert Digits(n)[..|Digits(n)| - 1] == Digits(n / 62);
    }
  }

  /** `rjust(43, "0")`. */
  function Body(n: nat): string {
    var d := Digits(n);
    if |d| < TOKEN_LENGTH then Zeros(TOKEN_LENGTH - |d|) + d else d
  }

  function Token(s: Scope, n: nat): string {
    KEY_PREFIX + [Letter(s)] + "-" + Body(n)
  }

  /** For every 256-bit number the body has exactly 43 digits and decodes to the number. */
  lemma BodyDecodes(n: nat)
    requires n < LIMIT
    ensures |Body(n)| == TOKEN_LENGTH && Decode(Body(n)) == Some(n)
  {
    WidthIsTight();
    hide Pow62, LIMIT;
    DigitsDecode(n, 43);
    hide Digits, Decode;
    if |Digits(n)| < TOKEN_LENGTH { ZerosInFront(TOKEN_LENGTH - |Digits(n)|, Digits(n)); }
  }

  /** Tokens are distinct for distinct scopes or numbers: nothing of the 256 bits is lost. */
  lemma TokenInjective(s: Scope, m: nat, t: Scope, n: nat)
    requires m < LIMIT && n < LIMIT && Token(s, m) == Token(t, n)
    ensures s == t && m == n
  {
    BodyDecodes(m);
    BodyDecodes(n);
    assert Token(s, m)[3] == Letter(s) && Token(t, n)[3] == Letter(t);
    assert Token(s, m)[5..] == Body(m) && Token(t, n)[5..] == Body(n);
  }

  // ---------------------------------------------------------------- recognising a token

  /** Python's `s[from:to]`, which never fails. */
  function Slice(s: string, from: nat, to: nat): string
    requires from <= to
  {
    var hi := if to <= |s| then to else |s|;
    if from >= hi then "" else s[from..hi]
  }

  predicate LooksLikeKey(value: Option<string>) {
    value.Some? && value.value != "" && StartsWith(value.value, KEY_PREFIX)
    && Slice(value.value, 3, 5) in {"r-", "i-", "a-"}
  }

  function ScopeHint(token: string): Option<string> {
    if !LooksLikeKey(Some(token)) then None
    else
      var letter := Slice(token, 3, 4);
      if letter == "r" then Some("read") else if letter == "i" then Some("inference")
      else if letter == "a" then Some("admin") else None
  }

  /** Every token is recognised as a key of its own scope. */
  lemma TokenIsRecognised(s: Scope, n: nat)
    ensures LooksLikeKey(Some(Token(s, n))) && ScopeHint(Token(s, n)) == Some(NameOf(s))
  {
    var t := Token(s, n);
    assert t[..3] == KEY_PREFIX;
    assert t[3..5] == [Letter(s), '-'] && t[3..4] == [Letter(s)];
  }

  /** What looks like a key: one of the three prefixes, and nothing else. */
  lemma LooksExactly(value: string)
    ensures LooksLikeKey(Some(value)) <==>
              |value| >= 5 && value[..5] in {"sf-r-", "sf-i-", "sf-a-"}
    ensures ScopeHint(value) ==
              if |value| >= 5 && value[..5] == "sf-r-" then Some("read")
              else if |value| >= 5 && value[..5] == "sf-i-" then Some("inference")
              else if |value| >= 5 && value[..5] == "sf-a-" then Some("admin") else None
  {
    if |value| >= 5 {
      assert value[..5] == value[..3] + value[3..5];
      assert value[3..5][0] == value[3] && value[3..4][0] == value[3];
      assert "sf-r-" == "sf-" + "r-" && "sf-i-" == "sf-" + "i-" && "sf-a-" == "sf-" + "a-";
    }
  }

  // ---------------------------------------------------------------- the generator

  /** `generate_token` for the 256 random bits `number`; an unknown scope is refused. */
  method GenerateToken(scope: string, number: nat) returns (token: Option<string>)
    ensures token.Some? <==> scope in {"read", "inference", "admin"}
    ensures token.Some? ==> ScopeHint(token.value) == Some(scope)
    ensures token.Some? && number < LIMIT ==> |token.value| == 48 && Decode(token.value[5..]) == Some(number)
    ensures token.Some? ==> token.value == Token(Named(scope).value, number)
  {
    var named := Named(scope);
    if named.None? {
      return None;
    }
    var n := number;
    var digits: string := "";
    while n > 0
      invariant Digits(number) == Digits(n) + Backwards(digits)
      decreases n
    {
      var rem := n % 62;
      BackwardsSnoc(digits, DigitChar(rem));
      Associative(Digits(n / 62), [DigitChar(rem)], Backwards(digits));
      n := n / 62;
      digits := digits + [DigitChar(rem)];
    }
    var body := Backwards(digits);
    assert Digits(0) + body == body;
    hide Digits, Backwards;
    if |body| < TOKEN_LENGTH {
      body := Zeros(TOKEN_LENGTH - |body|) + body;
    }
    token := Some(KEY_PREFIX + [Letter(named.value)] + "-" + body);
    TokenIsRecognised(named.value, number);
    if number < LIMIT { BodyDecodes(number); }
    assert token.value[5..] == body;
  }

  /** `reversed(digits)`. */
  function Backwards(s: string): string {
    if s == "" then "" else Backwards(s[1..]) + [s[0]]
  }

  lemma {:induction false} BackwardsSnoc(s: string, c: char)
    ensures Backwards(s + [c]) == [c] + Backwards(s)
  {
    if s == "" {
      assert s + [c] == [c];
    } else {
      assert (s + [c])[1..] == s[1..] + [c];
      BackwardsSnoc(s[1..], c);
    }
  }
}
