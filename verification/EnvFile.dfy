/** The private credentials file of `local_web_credentials.py`: what is written and how it is read back. */
module EnvFile {
  import opened Text
  import opened Wrappers

  const USERNAME := "API_MANAGER_ADMIN_USERNAME"
  const PASSWORD := "API_MANAGER_ADMIN_PASSWORD"
  const SECRET_KEY := "API_MANAGER_SECRET_KEY"

  /** The characters `str.splitlines()` breaks lines at. */
  predicate IsBreak(c: char) {
    '\U{a}' <= c <= '\U{d}' || '\U{1c}' <= c <= '\U{1e}' || c == '\U{85}' || c == '\U{2028}' || c == '\U{2029}'
  }

  predicate OneLine(s: string) {
    forall c | c in s :: !IsBreak(c)
  }

  /** The length of the first line of `s`, its break excluded. */
  function LineLength(s: string): (n: nat)
    ensures n <= |s| && OneLine(s[..n])
    ensures n < |s| ==> IsBreak(s[n])
  {
    if s == "" || IsBreak(s[0]) then 0
    else
      var n := LineLength(s[1..]);
      assert s[..n + 1] == [s[0]] + s[1..][..n];
      n + 1
  }

  /** The characters of the break at `n`: two for a carriage return and a line feed together. */
  function BreakLength(s: string, n: nat): (k: nat)
    requires n < |s|
    ensures 1 <= k <= |s| - n
  {
    if s[n] == '\r' && n + 1 < |s| && s[n + 1] == '\n' then 2 else 1
  }

  /** `str.splitlines()`. */
  function SplitLines(s: string): seq<string>
    decreases |s|
  {
    if s == "" then []
    else
      var n := LineLength(s);
      if n == |s| then [s] else [s[..n]] + SplitLines(s[n + BreakLength(s, n)..])
  }

  predicate Quoted(s: string) {
    |s| >= 2 && s[0] == s[|s| - 1] && (s[0] == '\'' || s[0] == '"')
  }

  function Unquote(s: string): string {
    if Quoted(s) then s[1..|s| - 1] else s
  }

  /** The assignment on one line, if there is one. */
  function Assignment(raw: string): Option<(string, string)> {
    var line := Strip(raw);
    if line == "" || line[0] == '#' || '=' !in line then None
    else
      var n := IndexOf(line, '=');
      Some((Strip(line[..n]), Unquote(Strip(line[n + 1..]))))
  }

  function Assign(values: map<string, string>, raw: string): map<string, string> {
    match Assignment(raw)
    case None => values
    case Some(a) => values[a.0 := a.1]
  }

  function AssignAll(values: map<string, string>, lines: seq<string>): map<string, string>
    decreases lines
  {
    if lines == [] then values else AssignAll(Assign(values, lines[0]), lines[1..])
  }

  function Parse(text: string): map<string, string> {
    AssignAll(map[], SplitLines(text))
  }

  function Line(name: string, value: string): string {
    name + "=" + value
  }

  const GENERATED := "# Generated by api_manger" + " on first local Web startup."
  const PRIVATE := "# Keep this file private" + " and outside version control."

  function Header(): string {
    GENERATED + "\n" + (PRIVATE + "\n")
  }

  /** What `_create_credentials_file` writes. */
  function Content(username: string, password: string, key: string): string {
    Header() + (Line(USERNAME, username) + "\n" + (Line(PASSWORD, password) + "\n" + (Line(SECRET_KEY, key) + "\n")))
  }

  // ------------------------------------------------------------------ the program

  lemma AssignStep(values: map<string, string>, lines: seq<string>, i: nat)
    requires i < |lines|
    ensures var line := Strip(lines[i]);
            AssignAll(values, lines[i..]) ==
              if line == "" || line[0] == '#' || '=' !in line then AssignAll(values, lines[i + 1..])
              else
                var n := IndexOf(line, '=');
                AssignAll(values[Strip(line[..n]) := Unquote(Strip(line[n + 1..]))], lines[i + 1..])
  {
    hide Strip, IndexOf, Unquote;
    assert lines[i..][1..] == lines[i + 1..];
  }

  lemma AssignNothing(values: map<string, string>, lines: seq<string>)
    ensures AssignAll(values, lines[|lines|..]) == values
  {
  }

  /** `_parse_env_file` on the text of the file. */
  method ParseEnvFile(text: string) returns (values: map<string, string>)
    ensures values == Parse(text)
  {
    hide Strip, SplitLines, IndexOf, AssignAll, Assign, Assignment;
    values := map[];
    var lines := SplitLines(text);
    assert lines[0..] == lines;
    for i := 0 to |lines|
      invariant AssignAll(values, lines[i..]) == Parse(text)
    {
      AssignStep(values, lines, i);
      var line := Strip(lines[i]);
      if line == "" || line[0] == '#' || '=' !in line {
        continue;
      }
      var n := IndexOf(line, '=');
      var key, value := Strip(line[..n]), Strip(line[n + 1..]);
      if |value| >= 2 && value[0] == value[|value| - 1] && value[0] in {'\'', '"'} {
        value := value[1..|value| - 1];
      }
      values := values[key := value];
    }
    AssignNothing(values, lines);
  }

  // ------------------------------------------------------------------ lines

  lemma {:induction false} LineLengthOf(line: string, rest: string)
    requires OneLine(line) && (rest == "" || IsBreak(rest[0]))
    ensures LineLength(line + rest) == |line|
  {
    hide IsBreak;
    if line == "" {
      assert line + rest == rest;
    } else {
      assert line[0] in line;
      LineLengthOf(line[1..], rest);
      assert (line + rest)[1..] == line[1..] + rest;
    }
  }

  /** A line feed ends a line whatever comes before it. */
  lemma {:induction false} SplitAtLineFeed(a: string, b: string)
    ensures SplitLines(a + "\n" + b) == SplitLines(a + "\n") + SplitLines(b)
    decreases |a|
  {
    hide SplitLines, LineLength;
    var n := LineLength(a);
    if n == |a| || (a[n] == '\r' && n + 1 == |a|) {
      SplitLastLine(a, b);
      SplitLastLine(a, "");
      assert a + "\n" + "" == a + "\n";
      assert SplitLines("") == [] by { SplitNothing(); }
    } else {
      var next := n + BreakLength(a, n);
      SplitAtLineFeed(a[next..], b);
      SplitEarlierLine(a, "\n" + b);
      SplitEarlierLine(a, "\n");
      assert a + ("\n" + b) == a + "\n" + b && a[next..] + ("\n" + b) == a[next..] + "\n" + b;
      assert [a[..n]] + (SplitLines(a[next..] + "\n") + SplitLines(b)) == ([a[..n]] + SplitLines(a[next..] + "\n")) + SplitLines(b);
    }
  }

  lemma SplitNothing()
    ensures SplitLines("") == []
  {
  }

  /** The line feed ends the first line of `a`. */
  lemma SplitLastLine(a: string, b: string)
    requires var n := LineLength(a); n == |a| || (a[n] == '\r' && n + 1 == |a|)
    ensures SplitLines(a + "\n" + b) == [a[..LineLength(a)]] + SplitLines(b)
  {
    hide SplitLines, LineLength;
    var n := LineLength(a);
    FirstLine(a, "\n" + b);
    var whole := a + "\n" + b;
    assert a + ("\n" + b) == whole;
    assert n < |a| ==> whole[n] == '\r' && whole[n + 1] == '\n';
    SplitFirst(whole, n, |a| + 1);
    assert whole[|a| + 1..] == b && whole[..n] == a[..n];
  }

  /** The first line of `a` ends within `a`. */
  lemma SplitEarlierLine(a: string, rest: string)
    requires rest != "" && IsBreak(rest[0])
    requires var n := LineLength(a); n < |a| && !(a[n] == '\r' && n + 1 == |a|)
    ensures var n := LineLength(a); SplitLines(a + rest) == [a[..n]] + SplitLines(a[n + BreakLength(a, n)..] + rest)
  {
    hide SplitLines, LineLength;
    var n := LineLength(a);
    var next := n + BreakLength(a, n);
    FirstLine(a, rest);
    var whole := a + rest;
    assert whole[n] == a[n] && (n + 1 < |a| ==> whole[n + 1] == a[n + 1]);
    SplitFirst(whole, n, next);
    assert whole[next..] == a[next..] + rest && whole[..n] == a[..n];
  }

  lemma FirstLine(a: string, rest: string)
    requires rest != "" && IsBreak(rest[0])
    ensures LineLength(a + rest) == LineLength(a)
  {
    var n := LineLength(a);
    LineLengthOf(a[..n], a[n..] + rest);
    assert a[..n] + (a[n..] + rest) == a + rest;
  }

  lemma SplitFirst(s: string, n: nat, next: nat)
    requires n < |s| && LineLength(s) == n && next == n + BreakLength(s, n)
    ensures SplitLines(s) == [s[..n]] + SplitLines(s[next..])
  {
  }

  lemma SplitOneLine(line: string)
    requires OneLine(line)
    ensures SplitLines(line + "\n") == [line]
  {
    LineLengthOf(line, "\n");
    assert (line + "\n")[..|line|] == line && (line + "\n")[|line| + 1..] == "";
  }

  lemma {:induction false} AssignAppend(values: map<string, string>, a: seq<string>, b: seq<string>)
    ensures AssignAll(values, a + b) == AssignAll(AssignAll(values, a), b)
    decreases a
  {
    hide Assign;
    if a == [] {
      assert a + b == b;
    } else {
      AssignAppend(Assign(values, a[0]), a[1..], b);
      assert (a + b)[1..] == a[1..] + b;
    }
  }

  lemma {:induction false} LinesAreOneLine(s: string)
    ensures forall line | line in SplitLines(s) :: OneLine(line)
    decreases |s|
  {
    if s != "" {
      var n := LineLength(s);
      if n < |s| {
        LinesAreOneLine(s[n + BreakLength(s, n)..]);
      } else {
        assert s[..n] == s;
      }
    }
  }

  ghost predicate OneLiners(values: map<string, string>) {
    forall key | key in values :: OneLine(values[key])
  }

  lemma AssignmentIsOneLine(raw: string)
    requires OneLine(raw)
    ensures Assignment(raw).Some? ==> OneLine(Assignment(raw).value.1)
  {
    hide Strip, IsBreak, IndexOf;
    var line := Strip(raw);
    if Assignment(raw).Some? {
      var n := IndexOf(line, '=');
      StripIsPart(raw);
      StripIsPart(line[n + 1..]);
    }
  }

  lemma StripIsPart(s: string)
    ensures forall c | c in Strip(s) :: c in s
    ensures |Strip(s)| <= |s| && (|Strip(s)| == |s| ==> Strip(s) == s)
  {
    var l := StripLeft(s, IsSpace);
    assert forall c | c in StripRight(l, IsSpace) :: c in l;
    assert forall c | c in l :: c in s;
  }

  lemma {:induction false} AssignKeepsOneLiners(values: map<string, string>, lines: seq<string>)
    requires OneLiners(values) && forall line | line in lines :: OneLine(line)
    ensures OneLiners(AssignAll(values, lines))
    decreases lines
  {
    hide OneLine, Assignment;
    if lines != [] {
      AssignmentIsOneLine(lines[0]);
      AssignKeepsOneLiners(Assign(values, lines[0]), lines[1..]);
    }
  }

  /** No value read from a file contains a line break. */
  lemma ParsedValuesAreOneLiners(text: string)
    ensures OneLiners(Parse(text))
  {
    LinesAreOneLine(text);
    AssignKeepsOneLiners(map[], SplitLines(text));
  }

  // ------------------------------------------------------------------ one assignment line

  /** A variable name: it starts and ends in a visible character and has no `=`. */
  predicate IsName(name: string) {
    name != "" && Trimmed(name, IsSpace) && name[0] != '#' && '=' !in name && OneLine(name)
  }

  lemma StripRightAfter(front: string, s: string)
    requires front != "" && !IsSpace(front[|front| - 1])
    ensures StripRight(front + s, IsSpace) == front + StripRight(s, IsSpace)
    decreases |s|
  {
    if s == "" {
      assert front + s == front;
    } else if IsSpace(s[|s| - 1]) {
      StripRightAfter(front, s[..|s| - 1]);
      assert (front + s)[..|front + s| - 1] == front + s[..|s| - 1];
    }
  }

  lemma AssignmentOfLine(name: string, value: string)
    requires IsName(name)
    ensures Assignment(Line(name, value)) == Some((name, Unquote(Strip(StripRight(value, IsSpace)))))
  {
    var raw := Line(name, value);
    StripOfLine(name, value);
    hide Strip, StripRight, IndexOf;
    var rest := StripRight(value, IsSpace);
    var line := name + "=" + rest;
    assert line[|name|] == '=' && line[0] == name[0];
    IndexOfFirst(name, rest);
    assert line[..|name|] == name;
    assert line[|name| + 1..] == rest;
  }

  lemma StripOfLine(name: string, value: string)
    requires IsName(name)
    ensures Strip(Line(name, value)) == name + "=" + StripRight(value, IsSpace)
    ensures Strip(name) == name
  {
    var raw := Line(name, value);
    assert raw[0] == name[0];
    assert StripLeft(raw, IsSpace) == raw;
    StripRightAfter(name + "=", value);
    StripByFixed(name, IsSpace);
  }

  lemma IndexOfFirst(name: string, rest: string)
    requires '=' !in name
    ensures IndexOf(name + "=" + rest, '=') == |name|
  {
    var s := name + "=" + rest;
    var i := IndexOf(s, '=');
    assert s[|name|] == '=';
    assert forall k | 0 <= k < |name| :: s[k] == name[k] && name[k] in name;
    assert forall k | 0 <= k < i :: s[..i][k] == s[k];
  }

  /** A value that survives: on one line, nothing to strip, no matching quotes around it. */
  predicate Clean(value: string) {
    OneLine(value) && Trimmed(value, IsSpace) && !Quoted(value)
  }

  lemma ReadsBackIff(value: string)
    requires OneLine(value)
    ensures Unquote(Strip(StripRight(value, IsSpace))) == value <==> Clean(value)
  {
    var r := StripRight(value, IsSpace);
    RightPart(value);
    StripIsPart(r);
    StripByFixed(value, IsSpace);
    hide OneLine, IsBreak, Strip, StripBy, StripLeft, StripRight, Trimmed;
    if Unquote(Strip(r)) == value {
      assert |Strip(r)| == |value|;
    }
  }

  lemma RightPart(value: string)
    ensures |StripRight(value, IsSpace)| <= |value|
    ensures |StripRight(value, IsSpace)| == |value| ==> StripRight(value, IsSpace) == value
    ensures Trimmed(value, IsSpace) ==> StripRight(value, IsSpace) == value
    ensures Strip(value) == StripBy(value, IsSpace)
  {
  }

  // ------------------------------------------------------------------ the whole file

  lemma NamesAreNames()
    ensures IsName(USERNAME) && IsName(PASSWORD) && IsName(SECRET_KEY)
    ensures USERNAME != PASSWORD && USERNAME != SECRET_KEY && PASSWORD != SECRET_KEY
  {
    UsernameIsName();
    PasswordIsName();
    SecretKeyIsName();
    assert USERNAME[18] != PASSWORD[18];
    assert |SECRET_KEY| < |USERNAME|;
    hide IsName;
  }

  lemma UsernameIsName()
    ensures IsName(USERNAME)
  {
  }

  lemma PasswordIsName()
    ensures IsName(PASSWORD)
  {
  }

  lemma SecretKeyIsName()
    ensures IsName(SECRET_KEY)
  {
  }

  lemma HeaderAssignsNothing()
    ensures AssignAll(map[], SplitLines(Header())) == map[]
  {
    hide AssignAll, SplitLines, Assignment, OneLine;
    var a, b := GENERATED, PRIVATE;
    CommentsAreOneLine();
    CommentLine(a);
    CommentLine(b);
    SplitAtLineFeed(a, b + "\n");
    SplitOneLine(a);
    SplitOneLine(b);
    assert a + "\n" + (b + "\n") == Header();
    AssignAppend(map[], [a], [b]);
    assert SplitLines(Header()) == [a] + [b];
    AssignOne(map[], a);
    AssignOne(map[], b);
  }

  predicate Visible(s: string) {
    forall i | 0 <= i < |s| :: ' ' <= s[i] <= '~'
  }

  lemma CommentsAreOneLine()
    ensures OneLine(GENERATED) && GENERATED != "" && GENERATED[0] == '#'
    ensures OneLine(PRIVATE) && PRIVATE != "" && PRIVATE[0] == '#'
  {
    hide OneLine;
    assert Visible("# Generated by api_manger") && Visible(" on first local Web startup.");
    VisibleIsOneLine(GENERATED);
    assert Visible("# Keep this file private") && Visible(" and outside version control.");
    VisibleIsOneLine(PRIVATE);
  }

  lemma VisibleIsOneLine(s: string)
    requires Visible(s)
    ensures OneLine(s)
  {
    hide IsBreak;
    forall c | c in s ensures !IsBreak(c) {
      VisibleIsNoBreak(c);
    }
  }

  lemma VisibleIsNoBreak(c: char)
    requires ' ' <= c <= '~'
    ensures !IsBreak(c)
  {
  }

  lemma AssignOne(values: map<string, string>, line: string)
    ensures AssignAll(values, [line]) == Assign(values, line)
  {
    assert [line][1..] == [];
  }

  lemma CommentLine(line: string)
    requires line != "" && line[0] == '#'
    ensures Assignment(line) == None
  {
    assert StripLeft(line, IsSpace) == line;
    assert Strip(line) == "" || Strip(line)[0] == '#';
  }

  /** The text up to a line feed is read before the text after it. */
  lemma AssignAcross(values: map<string, string>, a: string, b: string)
    ensures AssignAll(values, SplitLines(a + "\n" + b)) == AssignAll(AssignAll(values, SplitLines(a + "\n")), SplitLines(b))
  {
    SplitAtLineFeed(a, b);
    AssignAppend(values, SplitLines(a + "\n"), SplitLines(b));
  }

  lemma AssignLine(values: map<string, string>, name: string, value: string)
    requires IsName(name) && OneLine(value)
    ensures AssignAll(values, SplitLines(Line(name, value) + "\n")) == values[name := Unquote(Strip(StripRight(value, IsSpace)))]
  {
    SplitOneLine(Line(name, value));
    AssignOne(values, Line(name, value));
    AssignmentOfLine(name, value);
  }

  // ------------------------------------------------------------------ main results

  function ReadBack(value: string): string {
    Unquote(Strip(StripRight(value, IsSpace)))
  }

  /** The lines after the one for the user name decide the other two variables, whatever that line holds. */
  lemma ContentByLines(username: string, password: string, key: string)
    requires OneLine(password) && OneLine(key)
    ensures Parse(Content(username, password, key))
            == AssignAll(map[], SplitLines(Line(USERNAME, username) + "\n"))[PASSWORD := ReadBack(password)][SECRET_KEY := ReadBack(key)]
  {
    NamesAreNames();
    hide Line, AssignAll, SplitLines, IsName, Strip, StripRight, Unquote, Header;
    var first, second, third := Line(USERNAME, username), Line(PASSWORD, password), Line(SECRET_KEY, key);
    var rest := first + "\n" + (second + "\n" + (third + "\n"));
    var named := AssignAll(map[], SplitLines(first + "\n"));
    HeaderThen(rest);
    AssignAcross(map[], first, second + "\n" + (third + "\n"));
    AssignAcross(named, second, third + "\n");
    AssignLine(named, PASSWORD, password);
    AssignLine(named[PASSWORD := ReadBack(password)], SECRET_KEY, key);
    assert Content(username, password, key) == Header() + rest;
  }

  lemma HeaderThen(rest: string)
    ensures Parse(Header() + rest) == AssignAll(map[], SplitLines(rest))
  {
    hide AssignAll, SplitLines;
    var a := GENERATED + "\n" + PRIVATE;
    AssignAcross(map[], a, rest);
    HeaderAssignsNothing();
    assert Header() == a + "\n";
    assert Header() + rest == a + "\n" + rest;
  }

  /** The password and the key survive the file exactly when they are clean, whatever the user name is:
      a line break in the user name can add assignments, but not after theirs. */
  lemma PasswordAndKeySurvive(username: string, password: string, key: string)
    ensures var values := Parse(Content(username, password, key));
            PASSWORD in values && values[PASSWORD] == password && SECRET_KEY in values && values[SECRET_KEY] == key
            <==> Clean(password) && Clean(key)
  {
    NamesAreNames();
    hide Parse, Content, IsName, OneLine, Strip, StripRight, Unquote;
    ParsedValuesAreOneLiners(Content(username, password, key));
    if OneLine(password) && OneLine(key) {
      ContentByLines(username, password, key);
      ReadsBackIff(password);
      ReadsBackIff(key);
    }
  }

  /** Reading back the generated file gives exactly the three values written, if and only if each is on
      one line, has no white space around it and no matching quotes around it. */
  lemma RoundTripIff(username: string, password: string, key: string)
    ensures Parse(Content(username, password, key)) == map[USERNAME := username, PASSWORD := password, SECRET_KEY := key]
            <==> Clean(username) && Clean(password) && Clean(key)
  {
    NamesAreNames();
    hide Parse, Content, IsName, OneLine, Strip, StripRight, Unquote;
    var values := Parse(Content(username, password, key));
    var written := map[USERNAME := username, PASSWORD := password, SECRET_KEY := key];
    assert written[USERNAME] == username && written[PASSWORD] == password && written[SECRET_KEY] == key;
    ParsedValuesAreOneLiners(Content(username, password, key));
    if OneLine(username) && OneLine(password) && OneLine(key) {
      ContentByLines(username, password, key);
      AssignLine(map[], USERNAME, username);
      ReadsBackIff(username);
      ReadsBackIff(password);
      ReadsBackIff(key);
      assert values == map[USERNAME := ReadBack(username), PASSWORD := ReadBack(password), SECRET_KEY := ReadBack(key)];
    }
  }

  /** URL-safe tokens, which is what the bootstrap generates, are clean. */
  lemma TokensAreClean(token: string)
    requires forall c | c in token :: 'a' <= c <= 'z' || 'A' <= c <= 'Z' || '0' <= c <= '9' || c == '-' || c == '_'
    ensures Clean(token)
  {
    if token != "" {
      assert token[0] in token && token[|token| - 1] in token;
    }
  }
}
