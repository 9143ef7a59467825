/** Migration scripts: comment lines are dropped and the rest is split on semicolons. Statements
    written one after another, with any comment lines between them, come back unchanged. */
module SqlScript {
  import opened Text

  /** Two dashes at `n`, and nothing but white space before. */
  predicate DashesAt(line: string, n: nat) {
    n + 1 < |line| && line[n] == '-' && line[n + 1] == '-' && forall i | 0 <= i < n :: IsSpace(line[i])
  }

  predicate Comment(line: string) {
    exists n | 0 <= n < |line| :: DashesAt(line, n)
  }

  /** Whether the splitter skips a line. */
  predicate Skipped(line: string)
    ensures Skipped(line) <==> Comment(line)
  {
    SkippedIs(line);
    StartsWith(LStrip(line), "--")
  }

  lemma {:induction false} SkippedIs(line: string)
    ensures StartsWith(LStrip(line), "--") <==> Comment(line)
  {
    if line != "" && IsSpace(line[0]) {
      SkippedIs(line[1..]);
      CommentLater(line);
    } else {
      assert LStrip(line) == line;
      assert |line| >= 2 ==> line[..2] == [line[0], line[1]];
      if |line| >= 2 && line[0] == '-' && line[1] == '-' { assert DashesAt(line, 0); }
      assert forall n | 0 < n < |line| :: !DashesAt(line, n);
    }
  }

  lemma CommentLater(line: string)
    requires line != "" && IsSpace(line[0])
    ensures Comment(line) <==> Comment(line[1..])
  {
    var rest := line[1..];
    assert !IsSpace('-') && forall i | 0 <= i < |rest| :: rest[i] == line[i + 1];
    if Comment(rest) {
      var n :| 0 <= n < |rest| && DashesAt(rest, n);
      assert forall i | 0 < i < n + 1 :: line[i] == rest[i - 1];
      assert DashesAt(line, n + 1);
    }
    if Comment(line) {
      var n :| 0 <= n < |line| && DashesAt(line, n);
      assert n > 0 && DashesAt(rest, n - 1);
    }
  }

  function Keep(lines: seq<string>): seq<string> {
    if lines == [] then []
    else if Skipped(lines[0]) then Keep(lines[1..])
    else [lines[0]] + Keep(lines[1..])
  }

  /** The non-blank parts, stripped. */
  function Chunks(parts: seq<string>): seq<string> {
    if parts == [] then []
    else if Strip(parts[0]) == "" then Chunks(parts[1..])
    else [Strip(parts[0])] + Chunks(parts[1..])
  }

  function WithoutComments(sql: string): string {
    Join(Keep(Split(sql, '\n')), "\n")
  }

  function SplitStatements(sql: string): seq<string> {
    Chunks(Split(WithoutComments(sql), ';'))
  }

  predicate NoComment(s: string) {
    forall line | line in Split(s, '\n') :: !Comment(line)
  }

  /** A statement a script may hold. */
  predicate Statement(s: string) {
    s != "" && Strip(s) == s && ';' !in s && NoComment(s)
  }

  datatype Item = Note(line: string) | Command(text: string)

  predicate ProperItem(item: Item) {
    match item
    case Note(line) => Comment(line) && '\n' !in line
    case Command(text) => Statement(text)
  }

  predicate Proper(items: seq<Item>) {
    items == [] || (ProperItem(items[0]) && Proper(items[1..]))
  }

  function Render(items: seq<Item>): string {
    if items == [] then ""
    else
      match items[0]
      case Note(line) => line + ['\n'] + Render(items[1..])
      case Command(text) => text + ";" + ['\n'] + Render(items[1..])
  }

  function Commands(items: seq<Item>): seq<string> {
    if items == [] then []
    else match items[0]
      case Note(_) => Commands(items[1..])
      case Command(text) => [text] + Commands(items[1..])
  }

  // ---------------------------------------------------------------- lines

  /** Splitting with one more character in front. */
  function Grown(x: char, c: char, parts: seq<string>): seq<string>
    requires parts != []
  {
    if x == c then [""] + parts else [[x] + parts[0]] + parts[1..]
  }

  lemma SplitUnfold(s: string, c: char)
    requires s != ""
    ensures Split(s, c) == Grown(s[0], c, Split(s[1..], c))
  {}

  lemma GrownConcat(x: char, c: char, parts: seq<string>, more: seq<string>)
    requires parts != []
    ensures Grown(x, c, parts + more) == Grown(x, c, parts) + more
  {
    assert (parts + more)[0] == parts[0] && (parts + more)[1..] == parts[1..] + more;
    Associative([[x] + parts[0]], parts[1..], more);
    Associative([""], parts, more);
  }

  lemma {:induction false} SplitConcat(a: string, c: char, b: string)
    ensures Split(a + [c] + b, c) == Split(a, c) + Split(b, c)
  {
    var s := a + [c] + b;
    if a == "" {
      assert s[1..] == b;
    } else {
      assert s[1..] == a[1..] + [c] + b && s[0] == a[0];
      hide *;
      SplitConcat(a[1..], c, b);
      SplitUnfold(a, c);
      SplitUnfold(s, c);
      GrownConcat(a[0], c, Split(a[1..], c), Split(b, c));
    }
  }

  lemma {:induction false} KeepConcat(a: seq<string>, b: seq<string>)
    ensures Keep(a + b) == Keep(a) + Keep(b)
  {
    if a == [] {
      assert a + b == b;
    } else {
      assert (a + b)[1..] == a[1..] + b;
      KeepConcat(a[1..], b);
      hide Comment;
      Associative([a[0]], Keep(a[1..]), Keep(b));
    }
  }

  lemma {:induction false} KeepAll(lines: seq<string>)
    requires forall line | line in lines :: !Comment(line)
    ensures Keep(lines) == lines
  {
    if lines != [] {
      assert lines[0] in lines;
      KeepAll(lines[1..]);
    }
  }

  lemma {:induction false} JoinConcat(a: seq<string>, b: seq<string>, sep: string)
    requires a != [] && b != []
    ensures Join(a + b, sep) == Join(a, sep) + sep + Join(b, sep)
  {
    if |a| == 1 {
      assert (a + b)[1..] == b;
    } else {
      assert (a + b)[1..] == a[1..] + b;
      JoinConcat(a[1..], b, sep);
      assert Join(a, sep) == a[0] + sep + Join(a[1..], sep);
    }
  }

  /** A semicolon at the end of a line does not make it a comment. */
  lemma SemicolonKeeps(line: string)
    requires !Comment(line)
    ensures !Comment(line + ";")
  {
    var longer := line + ";";
    forall n | 0 <= n < |longer| ensures !DashesAt(longer, n) {
      if n < |line| {
        assert !DashesAt(line, n);
        assert forall i | 0 <= i < |line| :: longer[i] == line[i];
      }
    }
  }

  function EndLast(parts: seq<string>): seq<string>
    requires parts != []
  {
    parts[|parts| - 1 := parts[|parts| - 1] + ";"]
  }

  lemma GrownEnd(x: char, c: char, parts: seq<string>)
    requires parts != []
    ensures Grown(x, c, EndLast(parts)) == EndLast(Grown(x, c, parts))
  {
    if x != c && |parts| == 1 {
      assert [x] + (parts[0] + ";") == [x] + parts[0] + ";";
    }
  }

  lemma {:induction false} SplitSnoc(s: string)
    ensures Split(s + ";", '\n') == EndLast(Split(s, '\n'))
  {
    if s == "" {
      SplitNone(";", '\n');
      assert "" + ";" == ";";
    } else {
      assert (s + ";")[1..] == s[1..] + ";" && (s + ";")[0] == s[0];
      hide *;
      SplitSnoc(s[1..]);
      SplitUnfold(s, '\n');
      SplitUnfold(s + ";", '\n');
      GrownEnd(s[0], '\n', Split(s[1..], '\n'));
    }
  }

  lemma CommandKept(text: string)
    requires NoComment(text)
    ensures Keep(Split(text + ";", '\n')) == Split(text + ";", '\n')
  {
    var parts := Split(text, '\n');
    SplitSnoc(text);
    assert parts[|parts| - 1] in parts;
    SemicolonKeeps(parts[|parts| - 1]);
    hide Comment;
    var ended := Split(text + ";", '\n');
    forall line | line in ended ensures !Comment(line) {
      assert line in parts || line == parts[|parts| - 1] + ";";
    }
    KeepAll(Split(text + ";", '\n'));
  }

  lemma CleanNote(line: string, rest: string)
    requires Comment(line) && '\n' !in line
    ensures Keep(Split(line + ['\n'] + rest, '\n')) == Keep(Split(rest, '\n'))
  {
    SplitFirst(line, '\n', rest);
    assert ([line] + Split(rest, '\n'))[1..] == Split(rest, '\n');
  }

  lemma CleanCommand(text: string, rest: string)
    requires NoComment(text) && Keep(Split(rest, '\n')) != []
    ensures Keep(Split(text + ";" + ['\n'] + rest, '\n')) != []
    ensures WithoutComments(text + ";" + ['\n'] + rest) == text + ";" + "\n" + WithoutComments(rest)
  {
    hide Split, Keep, Join, NoComment;
    SplitConcat(text + ";", '\n', rest);
    KeepConcat(Split(text + ";", '\n'), Split(rest, '\n'));
    CommandKept(text);
    JoinConcat(Split(text + ";", '\n'), Keep(Split(rest, '\n')), "\n");
    JoinSplit(text + ";", '\n');
  }

  // ---------------------------------------------------------------- round trip

  lemma {:induction false} CleanKeepsLast(items: seq<Item>)
    requires Proper(items)
    ensures Keep(Split(Render(items), '\n')) != []
  {
    if items == [] {
      assert !Comment("");
    } else {
      var rest := Render(items[1..]);
      CleanKeepsLast(items[1..]);
      match items[0] {
        case Note(line) => CleanNote(line, rest);
        case Command(text) => CleanCommand(text, rest);
      }
    }
  }

  lemma StripFirst(w: string, t: string)
    requires w == "" || w == "\n"
    ensures Strip(w + t) == Strip(t)
  {
    if w == "" {
      assert w + t == t;
    } else {
      assert (w + t)[1..] == t && IsSpace('\n');
    }
  }

  lemma ChunkFirst(w: string, text: string, rest: string)
    requires (w == "" || w == "\n") && Statement(text)
    ensures Chunks(Split(w + (text + ";" + rest), ';')) == [text] + Chunks(Split(rest, ';'))
  {
    StripFirst(w, text);
    assert w + (text + ";" + rest) == (w + text) + [';'] + rest;
    SplitFirst(w + text, ';', rest);
    var parts := [w + text] + Split(rest, ';');
    assert parts[1..] == Split(rest, ';');
  }

  lemma {:induction false} Scripted(items: seq<Item>, w: string)
    requires Proper(items) && (w == "" || w == "\n")
    ensures Chunks(Split(w + WithoutComments(Render(items)), ';')) == Commands(items)
  {
    if items == [] {
      assert Keep([""]) == [""];
      assert WithoutComments("") == "" && w + "" == w;
      SplitNone(w, ';');
      StripFirst(w, "");
      assert Strip("") == "" && w + "" == w;
    } else {
      var rest := Render(items[1..]);
      match items[0] {
        case Note(line) =>
          CleanNote(line, rest);
          hide *;
          Scripted(items[1..], w);
          assert WithoutComments(line + ['\n'] + rest) == WithoutComments(rest);
        case Command(text) =>
          var clean := WithoutComments(rest);
          CleanKeepsLast(items[1..]);
          CleanCommand(text, rest);
          hide *;
          Scripted(items[1..], "\n");
          ChunkFirst(w, text, "\n" + clean);
          Associative(text + ";", "\n", clean);
      }
    }
  }

  /** A script of statements, with comment lines anywhere between them, splits into exactly those statements,
      in order. */
  lemma ScriptRoundTrip(items: seq<Item>)
    requires Proper(items)
    ensures SplitStatements(Render(items)) == Commands(items)
  {
    Scripted(items, "");
    assert "" + WithoutComments(Render(items)) == WithoutComments(Render(items));
  }

  // ---------------------------------------------------------------- exactly which statements survive

  lemma {:induction false} ChunkIsPart(parts: seq<string>, chunk: string)
    requires chunk in Chunks(parts)
    ensures chunk != "" && exists part :: part in parts && chunk == Strip(part)
  {
    if Strip(parts[0]) != "" && chunk == Strip(parts[0]) {
      assert parts[0] in parts;
    } else {
      ChunkIsPart(parts[1..], chunk);
      var part :| part in parts[1..] && chunk == Strip(part);
      assert part in parts;
    }
  }

  lemma {:induction false} PartsAreFree(s: string, c: char)
    ensures forall part | part in Split(s, c) :: c !in part && |part| <= |s|
  {
    if s != "" {
      PartsAreFree(s[1..], c);
      var rest := Split(s[1..], c);
      assert rest[0] in rest;
      assert forall part | part in Split(s, c) :: part in rest || part == "" || part == [s[0]] + rest[0];
    }
  }

  lemma {:induction false} LStripTrims(s: string)
    ensures |LStrip(s)| <= |s| && LStrip(s) == s[|s| - |LStrip(s)|..]
  {
    if s != "" && IsSpace(s[0]) { LStripTrims(s[1..]); }
  }

  /** Stripping twice is stripping once. */
  lemma StripTrims(s: string)
    ensures |Strip(s)| <= |s| && Strip(Strip(s)) == Strip(s) && forall c | c in Strip(s) :: c in s
  {
    LStripTrims(s);
    var l := LStrip(s);
    var r := RStrip(l);
    if r != "" { assert r[0] == l[0]; }
    assert LStrip(r) == r && RStrip(r) == r;
  }

  function Total(lines: seq<string>): nat {
    if lines == [] then 0 else |lines[0]| + 1 + Total(lines[1..])
  }

  lemma {:induction false} JoinLength(lines: seq<string>)
    ensures lines != [] ==> |Join(lines, "\n")| + 1 == Total(lines)
    ensures lines == [] ==> Join(lines, "\n") == ""
  {
    if |lines| > 1 {
      JoinLength(lines[1..]);
    } else if |lines| == 1 {
      assert Total(lines[1..]) == 0;
    }
  }

  lemma {:induction false} CommentCosts(lines: seq<string>, line: string)
    ensures Total(Keep(lines)) <= Total(lines)
    ensures line in lines && Comment(line) ==> Total(Keep(lines)) + |line| + 1 <= Total(lines)
  {
    if lines != [] {
      CommentCosts(lines[1..], line);
      if !Comment(lines[0]) { assert ([lines[0]] + Keep(lines[1..]))[1..] == Keep(lines[1..]); }
    }
  }

  lemma CommentStays(line: string)
    requires Comment(line)
    ensures Comment(line + ";") && |line| >= 2
  {
    var n :| 0 <= n < |line| && DashesAt(line, n);
    assert DashesAt(line + ";", n);
  }

  /** A comment line inside a statement takes more than the ending adds. */
  lemma CommentShortens(text: string)
    requires !NoComment(text)
    ensures |WithoutComments(text + ";" + ['\n'])| < |text|
  {
    var sql := text + ";" + ['\n'];
    LongComment(text);
    hide *;
    var lines := Split(sql, '\n');
    var line :| line in lines && Comment(line) && |line| >= 2;
    CommentCosts(lines, line);
    JoinLength(lines);
    JoinLength(Keep(lines));
    JoinSplit(sql, '\n');
    WithoutIs(sql);
  }

  lemma LongComment(text: string)
    requires !NoComment(text)
    ensures exists line :: line in Split(text + ";" + ['\n'], '\n') && Comment(line) && |line| >= 2
  {
    hide Comment, DashesAt;
    var parts := Split(text, '\n');
    var line :| line in parts && Comment(line);
    var i :| 0 <= i < |parts| && parts[i] == line;
    CommentStays(line);
    SplitEnded(text);
    hide Split;
    var long := EndLast(parts)[i];
    assert long in EndLast(parts) + [""] && Comment(long);
  }

  lemma SplitEnded(text: string)
    ensures Split(text + ";" + ['\n'], '\n') == EndLast(Split(text, '\n')) + [""]
  {
    assert Split("", '\n') == [""];
    hide Split;
    assert text + ";" + ['\n'] == text + ";" + ['\n'] + "";
    SplitConcat(text + ";", '\n', "");
    SplitSnoc(text);
  }

  lemma WithoutIs(sql: string)
    ensures WithoutComments(sql) == Join(Keep(Split(sql, '\n')), "\n")
  {}

  /** One statement comes back unchanged exactly when it is not blank, has no blank ends, no semicolon
      and no comment line. */
  lemma SurvivesExactly(text: string)
    ensures SplitStatements(text + ";" + ['\n']) == [text] <==> Statement(text)
  {
    var sql := text + ";" + ['\n'];
    if Statement(text) {
      RoundTripOne(text);
    }
    if SplitStatements(sql) == [text] {
      var clean := WithoutComments(sql);
      assert text in Chunks(Split(clean, ';'));
      ChunkIsPart(Split(clean, ';'), text);
      var part :| part in Split(clean, ';') && text == Strip(part);
      PartsAreFree(clean, ';');
      StripTrims(part);
      if !NoComment(text) { CommentShortens(text); }
    }
  }

  lemma RoundTripOne(text: string)
    requires Statement(text)
    ensures SplitStatements(text + ";" + ['\n']) == [text]
  {
    var items := [Command(text)];
    Singleton(Command(text));
    assert Proper(items);
    assert Commands(items) == [text] + Commands(items[1..]) == [text];
    assert Render(items) == text + ";" + ['\n'] + Render(items[1..]) == text + ";" + ['\n'];
    hide *;
    ScriptRoundTrip(items);
  }
}
