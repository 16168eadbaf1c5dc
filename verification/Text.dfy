/**
 What the text of server.properties means, character by character (src/mc/server_properties.rs): how a file falls into
 lines, what trimming and folding do, and what a property reads as, for files with either kind of line end.
 */
module Text {
  import opened Base
  import opened Properties

  const SPACES := " \t\n\U{0B}\U{0C}\r"
  const UPPER := "ABCDEFGHIJKLMNOPQRSTUVWXYZ"
  const LOWER := "abcdefghijklmnopqrstuvwxyz"

  // ----- characters -----

  lemma SpacesAre(c: char)
    ensures IsSpace(c) <==> c in SPACES
  {
    assert SPACES[0] == ' ' && SPACES[1] == '\t' && SPACES[2] == '\n' && SPACES[5] == '\r';
    assert SPACES[3] == '\U{0B}' && SPACES[4] == '\U{0C}';
  }

  /** Folding maps each of the 26 capitals to its small letter and nothing else. */
  lemma LettersFold(c: char)
    ensures c !in UPPER ==> ToLower(c) == c
    ensures forall i :: 0 <= i < 26 && UPPER[i] == c ==> ToLower(c) == LOWER[i]
  {
    assert forall i :: 0 <= i < 26 ==> UPPER[i] == 'A' + i as char && LOWER[i] == 'a' + i as char;
    if 'A' <= c <= 'Z' {
      assert UPPER[(c - 'A') as int] == c;
    }
  }

  ghost predicate Blank(s: string) {
    forall c :: c in s ==> c in SPACES
  }

  /** No space at either end. */
  ghost predicate Tight(s: string) {
    s != [] ==> s[0] !in SPACES && s[|s| - 1] !in SPACES
  }

  /** Trimming takes off all the space around a text, and no more. */
  lemma TrimIs(a: string, m: string, b: string)
    requires Blank(a) && Blank(b) && Tight(m)
    ensures Trim(a + m + b) == m
  {
    var s := a + m + b;
    forall c: char ensures IsSpace(c) <==> c in SPACES {
      SpacesAre(c);
    }
    assert forall k :: 0 <= k < |a| ==> s[k] == a[k] && a[k] in a;
    assert forall k :: 0 <= k < |m| ==> s[|a| + k] == m[k];
    assert forall k :: 0 <= k < |b| ==> s[|a| + |m| + k] == b[k] && b[k] in b;
    if m == [] {
      assert Leading(s) == |s|;
    } else {
      assert s[|a|] == m[0];
      assert Leading(s) == |a|;
      var t := s[|a|..];
      assert t == m + b;
      assert t[|m| - 1] == m[|m| - 1];
      assert Solid(t) == |m|;
    }
  }

  // ----- lines -----

  /** A line ended by a bare line feed is taken as it stands; `FirstLine` has the one ended by both. */
  lemma BareLine(line: string, rest: string)
    requires OneLine(line) && (line != [] ==> line[|line| - 1] != '\r')
    ensures Lines(line + "\n" + rest) == [line] + Lines(rest)
  {
    var s := line + "\n" + rest;
    assert forall k :: 0 <= k < |line| ==> s[k] == line[k];
    assert s[|line|] == '\n';
    assert Find(s, '\n') == |line|;
    assert s[..|line|] == line && s[|line| + 1..] == rest;
  }

  /** A last line without an end is a line unless it is empty. */
  lemma LastLine(line: string)
    requires OneLine(line)
    ensures Lines(line) == if line == [] then [] else [line]
  {
  }

  datatype Break = Lf | CrLf

  function End(b: Break): string {
    match b case Lf => "\n" case CrLf => "\r\n"
  }

  /** A line that can stand before this end: a carriage return before a bare line feed would belong to the end. */
  predicate Fits(line: string, b: Break) {
    OneLine(line) && (b == Lf && line != [] ==> line[|line| - 1] != '\r')
  }

  lemma LineWithEnd(line: string, b: Break, rest: string)
    requires Fits(line, b)
    ensures Lines(line + End(b) + rest) == [line] + Lines(rest)
  {
    hide Lines;
    if b == Lf {
      BareLine(line, rest);
    } else {
      FirstLine(line, rest);
    }
  }

  datatype Line = Line(text: string, end: Break)

  /** The text of a file, given as lines each with its own end and a last line without. */
  function FileText(ls: seq<Line>, last: string): string {
    if ls == [] then last else ls[0].text + End(ls[0].end) + FileText(ls[1..], last)
  }

  function Texts(ls: seq<Line>): seq<string> {
    seq(|ls|, i requires 0 <= i < |ls| => ls[i].text)
  }

  /** Whole files: whatever the mixture of line ends, exactly the lines come out. */
  lemma {:induction false} LinesOfFile(ls: seq<Line>, last: string)
    requires forall l :: l in ls ==> Fits(l.text, l.end)
    requires OneLine(last)
    ensures Lines(FileText(ls, last)) == Texts(ls) + (if last == [] then [] else [last])
    decreases |ls|
  {
    hide Lines, OneLine, Fits, End;
    if ls == [] {
      LastLine(last);
    } else {
      assert ls[0] in ls;
      LineWithEnd(ls[0].text, ls[0].end, FileText(ls[1..], last));
      LinesOfFile(ls[1..], last);
      assert Texts(ls) == [ls[0].text] + Texts(ls[1..]);
    }
  }

  // ----- reading -----

  /**
   What a property reads as, line by line. A line whose key, trimmed and folded, is the property decides, with its value
   trimmed; a value may hold assignment signs.
   */
  lemma ReadsAssignment(a: string, key: string, b: string, c: string, value: string, d: string, end: Break,
                        rest: string, property: string)
    requires Blank(a) && Blank(b) && Blank(c) && Blank(d) && Tight(key) && Tight(value)
    requires '=' !in key && Lower(key) == Lower(property)
    requires Fits((a + key + b) + "=" + (c + value + d), end)
    ensures ReadProperty((a + key + b) + "=" + (c + value + d) + End(end) + rest, property) == Some(value)
  {
    hide Lines, Lower, Trim, Fits, Find;
    var left, right := a + key + b, c + value + d;
    TrimIs(a, key, b);
    TrimIs(c, value, d);
    NoSign(a, key, b);
    FindsSign(left, right);
    LineWithEnd(left + "=" + right, end, rest);
    assert left + "=" + right + End(end) + rest == (left + "=" + right) + End(end) + rest;
  }

  lemma NoSign(a: string, key: string, b: string)
    requires Blank(a) && Blank(b) && '=' !in key
    ensures '=' !in a + key + b
  {
    assert '=' !in SPACES;
  }

  /** Any other line is passed over: one without an assignment sign, or with another key before the first one. */
  lemma ReadsPast(line: string, end: Break, rest: string, property: string)
    requires Fits(line, end)
    requires '=' !in line
          || exists n :: 0 <= n < |line| && line[n] == '=' && '=' !in line[..n]
                         && Lower(Trim(line[..n])) != Lower(property)
    ensures ReadProperty(line + End(end) + rest, property) == ReadProperty(rest, property)
  {
    hide Lines, Lower, Trim, Fits;
    LineWithEnd(line, end, rest);
    if '=' in line {
      var n :| 0 <= n < |line| && line[n] == '=' && '=' !in line[..n] && Lower(Trim(line[..n])) != Lower(property);
      assert Find(line, '=') == n by {
        assert forall k :: 0 <= k < n ==> line[k] == line[..n][k];
      }
    }
  }

  /** The end of the file. */
  lemma ReadsNothing(property: string)
    ensures ReadProperty([], property) == None
  {
  }

  // ----- writing -----

  /** Every line feed has a carriage return before it. */
  ghost predicate AllCrLf(s: string) {
    forall i :: 0 <= i < |s| && s[i] == '\n' ==> i > 0 && s[i - 1] == '\r'
  }

  lemma JoinsCrLf(a: string, b: string)
    requires AllCrLf(a) && AllCrLf(b)
    ensures AllCrLf(a + b)
  {
    var s := a + b;
    forall i | 0 <= i < |s| && s[i] == '\n' ensures i > 0 && s[i - 1] == '\r' {
      if i >= |a| {
        assert b[i - |a|] == '\n';
        assert s[i - 1] == b[i - 1 - |a|];
      }
    }
  }

  lemma {:induction false} JoinedCrLf(ls: seq<string>)
    requires forall l :: l in ls ==> OneLine(l)
    ensures AllCrLf(JoinLines(ls))
    decreases |ls|
  {
    if |ls| > 0 {
      assert ls[0] in ls;
      assert AllCrLf(ls[0]) && AllCrLf("\r\n");
      if |ls| > 1 {
        hide AllCrLf, OneLine;
        JoinedCrLf(ls[1..]);
        JoinsCrLf(ls[0], "\r\n");
        JoinsCrLf(ls[0] + "\r\n", JoinLines(ls[1..]));
      }
    }
  }

  /** A rewritten file has lines ended by both characters throughout, whatever ends the original had. */
  lemma RewritesToCrLf(contents: string, changes: Changes, order: seq<string>)
    requires Proper(changes) && Enumerates(order, Missing(contents, changes))
    ensures var r := Rewritten(contents, changes, order); r.Some? ==> AllCrLf(r.value)
  {
    hide RewriteLines, Lines, JoinLines, AppendedText, AppendedLines, OneLine, AllCrLf;
    var r := RewriteLines(Lines(contents), changes);
    RewrittenIsOneLine(contents, changes);
    LinesKeepTheirText(Lines(contents), changes);
    AppendedAreOneLine(order, r.left);
    GroundJoins(r.lines, order);
    AppendedTextJoins(Ground(r.lines, order), order, r.left);
    BlankIsOneLine();
    assert forall l :: l in ResultLines(contents, changes, order) ==> OneLine(l);
    JoinedCrLf(ResultLines(contents, changes, order));
  }
}
