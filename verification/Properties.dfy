/**
 Rewriting and reading server.properties (src/mc/server_properties.rs). White space and letter case
 are those of ASCII.
 */
module Properties {
  import opened Base

  const EOL := "\r\n"

  // ----- strings -----

  predicate IsSpace(c: char) {
    c == ' ' || '\t' <= c <= '\r'
  }

  function ToLower(c: char): char {
    if 'A' <= c <= 'Z' then c + ' ' else c
  }

  function Lower(s: string): (r: string)
    ensures |r| == |s|
  {
    seq(|s|, i requires 0 <= i < |s| => ToLower(s[i]))
  }

  /** The number of leading spaces. */
  function Leading(s: string): (n: nat)
    ensures n <= |s| && (forall k :: 0 <= k < n ==> IsSpace(s[k])) && (n < |s| ==> !IsSpace(s[n]))
  {
    if s == [] || !IsSpace(s[0]) then 0 else 1 + Leading(s[1..])
  }

  /** The length without trailing spaces. */
  function Solid(s: string): (n: nat)
    ensures n <= |s| && (forall k :: n <= k < |s| ==> IsSpace(s[k])) && (n > 0 ==> !IsSpace(s[n - 1]))
  {
    if s == [] || !IsSpace(s[|s| - 1]) then |s| else Solid(s[..|s| - 1])
  }

  function Trim(s: string): string {
    var t := s[Leading(s)..];
    t[..Solid(t)]
  }

  /** The first position of a character, or the length. */
  function Find(s: string, c: char): (n: nat)
    ensures n <= |s| && (forall k :: 0 <= k < n ==> s[k] != c) && (n < |s| ==> s[n] == c)
  {
    if s == [] || s[0] == c then 0 else 1 + Find(s[1..], c)
  }

  /** `str::lines`: a line ends at a line feed, with one carriage return before it stripped. */
  function Lines(s: string): seq<string> {
    if s == [] then []
    else
      var n := Find(s, '\n');
      if n == |s| then [s] else [Chomp(s[..n])] + Lines(s[n + 1..])
  }

  function Chomp(line: string): string {
    if line != [] && line[|line| - 1] == '\r' then line[..|line| - 1] else line
  }

  function JoinLines(ls: seq<string>): string {
    if ls == [] then []
    else if |ls| == 1 then ls[0]
    else ls[0] + EOL + JoinLines(ls[1..])
  }

  datatype Assignment = Assignment(key: string, value: string)

  /** `split_once('=')`. */
  function SplitOnce(line: string): Option<Assignment> {
    var n := Find(line, '=');
    if n == |line| then None else Some(Assignment(line[..n], line[n + 1..]))
  }

  function Fold(key: string): string {
    Lower(Trim(key))
  }

  /** The assignment a line makes for the rewriter, which passes over comments and blanks. */
  function Assigns(line: string): Option<Assignment> {
    var trim := Trim(line);
    if trim == [] || trim[0] == '#' then None else SplitOnce(line)
  }

  /** How the reader, which does not know comments, or the rewriter takes a line. */
  function Parse(reader: bool, line: string): Option<Assignment> {
    if reader then SplitOnce(line) else Assigns(line)
  }

  /** The value, as it stands, of the first line that assigns a key. */
  function First(reader: bool, ls: seq<string>, key: string): Option<string>
    decreases |ls|
  {
    if ls == [] then None
    else
      var a := Parse(reader, ls[0]);
      if a.Some? && Fold(a.value.key) == key then Some(a.value.value) else First(reader, ls[1..], key)
  }

  // ----- reading -----

  function Trimmed(value: Option<string>): Option<string> {
    match value case None => None case Some(v) => Some(Trim(v))
  }

  /** `read_property` on the contents of the file. */
  function ReadProperty(contents: string, property: string): Option<string> {
    Trimmed(First(true, Lines(contents), Lower(property)))
  }

  // ----- rewriting -----

  type Changes = map<string, string>

  datatype Rewrite = Rewrite(lines: seq<string>, left: Changes, changed: bool)

  function RewriteLine(line: string, changes: Changes): Rewrite {
    var a := Assigns(line);
    if a.None? || Fold(a.value.key) !in changes then Rewrite([line], changes, false)
    else
      var key := Fold(a.value.key);
      if a.value.value == changes[key] then Rewrite([line], changes - {key}, false)
      else Rewrite([a.value.key + "=" + changes[key]], changes - {key}, true)
  }

  function RewriteLines(ls: seq<string>, changes: Changes): Rewrite
    decreases |ls|
  {
    if ls == [] then Rewrite([], changes, false)
    else
      var first := RewriteLine(ls[0], changes);
      var rest := RewriteLines(ls[1..], first.left);
      Rewrite(first.lines + rest.lines, rest.left, first.changed || rest.changed)
  }

  /** One way to iterate over a map's keys. */
  ghost predicate Enumerates(order: seq<string>, left: Changes) {
    && (forall k :: k in order <==> k in left)
    && (forall i, j :: 0 <= i < j < |order| ==> order[i] != order[j])
  }

  predicate Within(order: seq<string>, left: Changes) {
    forall k :: k in order ==> k in left
  }

  function AppendedText(order: seq<string>, left: Changes): string
    requires Within(order, left)
  {
    if order == [] then []
    else
      var last := order[|order| - 1];
      AppendedText(order[..|order| - 1], left) + (EOL + last + "=" + left[last])
  }

  /** The keys of `changes` that no line of the file assigns. */
  function Missing(contents: string, changes: Changes): Changes {
    RewriteLines(Lines(contents), changes).left
  }

  /** What `rewrite_contents` returns when the missing keys are iterated in `order`. */
  function Rewritten(contents: string, changes: Changes, order: seq<string>): Option<string>
    requires Within(order, Missing(contents, changes))
  {
    if changes == map[] then None
    else
      var r := RewriteLines(Lines(contents), changes);
      if r.changed || order != [] then Some(JoinLines(r.lines) + AppendedText(order, r.left)) else None
  }

  /** The closure that `rewrite_contents` maps over the lines. */
  method RewriteOne(line: string, changes: Changes, changed: bool)
    returns (line': string, left: Changes, changed': bool)
    ensures Rewrite([line'], left, changed') == var r := RewriteLine(line, changes); r.(changed := changed || r.changed)
  {
    line', left, changed' := line, changes, changed;
    var trim := Trim(line);
    if trim == [] || trim[0] == '#' { return; }
    var a := SplitOnce(line);
    if a.None? { return; }
    var key := Fold(a.value.key);
    if key in left {
      var value := left[key];
      left := left - {key};
      if a.value.value != value {
        line' := a.value.key + "=" + value;
        changed' := true;
      }
    }
  }

  /** The loop that appends whatever keys are left, in whatever order they come. */
  method AppendMissing(text: string, missing: Changes, changed: bool)
    returns (text': string, changed': bool, ghost order: seq<string>)
    ensures Enumerates(order, missing)
    ensures text' == text + AppendedText(order, missing)
    ensures changed' <==> changed || order != []
  {
    hide AppendedText, Taken;
    text', changed', order := text, changed, [];
    var left := missing;
    NothingTaken(missing);
    while left != map[]
      invariant Taken(order, left, missing)
      invariant Within(order, missing) && text' == text + AppendedText(order, missing)
      invariant changed' <==> changed || order != []
      decreases |left|
    {
      var key :| key in left;
      TakeOne(order, left, missing, key);
      AppendOne(text, order, key, missing);
      text' := text' + (EOL + key + "=" + left[key]);
      order := order + [key];
      left := left - {key};
      changed' := true;
    }
    AllTaken(order, missing);
  }

  /** The keys of `missing` are those in `order`, each once, and those of `left`, with the same values. */
  ghost predicate Taken(order: seq<string>, left: Changes, missing: Changes) {
    && (forall k :: k in left ==> k in missing && left[k] == missing[k])
    && (forall k :: k in order <==> k in missing && k !in left)
    && (forall i, j :: 0 <= i < j < |order| ==> order[i] != order[j])
  }

  lemma NothingTaken(missing: Changes)
    ensures Taken([], missing, missing) && AppendedText([], missing) == []
  {
  }

  lemma TakeOne(order: seq<string>, left: Changes, missing: Changes, key: string)
    requires Taken(order, left, missing) && key in left
    ensures Taken(order + [key], left - {key}, missing)
    ensures key in missing && left[key] == missing[key] && Within(order + [key], missing)
  {
  }

  lemma AllTaken(order: seq<string>, missing: Changes)
    requires Taken(order, map[], missing)
    ensures Enumerates(order, missing)
  {
  }

  lemma AppendOne(text: string, order: seq<string>, key: string, missing: Changes)
    requires Within(order, missing) && key in missing
    ensures Within(order + [key], missing)
    ensures text + AppendedText(order + [key], missing)
         == text + AppendedText(order, missing) + (EOL + key + "=" + missing[key])
  {
    assert (order + [key])[..|order|] == order;
  }

  method RewriteContents(contents: string, changes: Changes) returns (r: Option<string>, ghost order: seq<string>)
    ensures Enumerates(order, Missing(contents, changes))
    ensures r == Rewritten(contents, changes, order)
  {
    var lines := Lines(contents);
    ghost var whole := RewriteLines(lines, changes);
    if |changes| == 0 {
      NothingToChange(lines);
      return None, [];
    }
    var left, changed, newLines := changes, false, [];
    for i := 0 to |lines|
      invariant Resumes(whole, newLines, changed, RewriteLines(lines[i..], left))
    {
      hide Lines, JoinLines, AppendedText, RewriteLine, RewriteLines, Resumes;
      var line, left', changed' := RewriteOne(lines[i], left, changed);
      ResumesAfterOne(whole, newLines, changed, lines[i..], left);
      assert lines[i..][1..] == lines[i + 1..];
      newLines, left, changed := newLines + [line], left', changed';
    }
    assert lines[|lines|..] == [];
    assert whole == Rewrite(newLines, left, changed);
    var text;
    text, changed, order := AppendMissing(JoinLines(newLines), left, changed);
    r := if changed then Some(text) else None;
  }

  /** `whole` is what `rest` becomes once the finished lines are put in front. */
  ghost predicate Resumes(whole: Rewrite, finished: seq<string>, changed: bool, rest: Rewrite) {
    whole.lines == finished + rest.lines && whole.left == rest.left && (whole.changed <==> changed || rest.changed)
  }

  lemma OneForOne(line: string, changes: Changes)
    ensures var lines := RewriteLine(line, changes).lines; |lines| == 1 && lines == [lines[0]]
  {
    hide Assigns, Fold;
  }

  lemma ResumesAfterOne(whole: Rewrite, finished: seq<string>, changed: bool, ls: seq<string>, changes: Changes)
    requires ls != [] && Resumes(whole, finished, changed, RewriteLines(ls, changes))
    ensures var first := RewriteLine(ls[0], changes);
            && |first.lines| == 1
            && Resumes(whole, finished + [first.lines[0]], changed || first.changed, RewriteLines(ls[1..], first.left))
  {
    hide RewriteLine;
    var first := RewriteLine(ls[0], changes);
    OneForOne(ls[0], changes);
    Associate(finished, first.lines, RewriteLines(ls[1..], first.left).lines);
  }

  lemma {:induction false} NothingToChange(ls: seq<string>)
    ensures RewriteLines(ls, map[]) == Rewrite(ls, map[], false)
    decreases |ls|
  {
    if ls != [] {
      NothingToChange(ls[1..]);
      assert RewriteLine(ls[0], map[]) == Rewrite([ls[0]], map[], false);
    }
  }

  // ----- keys and lines -----

  /** The keys the rewriter can find again: trimmed, in lower case, no assignment sign, no comment, one line. */
  predicate Canonical(key: string) {
    key == Fold(key) && '=' !in key && '\n' !in key && !(key != [] && key[0] == '#')
  }

  predicate Proper(changes: Changes) {
    forall k :: k in changes ==> Canonical(k) && '\n' !in changes[k]
  }

  lemma TrimHead(s: string)
    ensures Trim(s) == [] <==> Leading(s) == |s|
    ensures Trim(s) != [] ==> Trim(s)[0] == s[Leading(s)]
  {
  }

  /** What comes before the first non-space decides where it is. */
  lemma SameHead(a: string, b: string, n: nat)
    requires n <= |a| && n <= |b| && a[..n] == b[..n] && Leading(a) < n
    ensures Leading(b) == Leading(a) && b[Leading(b)] == a[Leading(a)]
  {
    forall k | 0 <= k < n ensures a[k] == b[k] {
      assert a[k] == a[..n][k] == b[..n][k];
    }
  }

  /** Reader and rewriter differ only on comments, whose key then starts with '#'. */
  lemma ReaderAgrees(line: string)
    requires SplitOnce(line).Some?
    ensures Assigns(line) == SplitOnce(line)
         || (Assigns(line) == None && var key := Fold(SplitOnce(line).value.key); key != [] && key[0] == '#')
  {
    var n := Find(line, '=');
    TrimHead(line);
    if Assigns(line) == None {
      SameHead(line, line[..n], n);
      TrimHead(line[..n]);
    }
  }

  lemma {:induction false} ReaderFindsRaw(ls: seq<string>, key: string)
    requires !(key != [] && key[0] == '#')
    ensures First(true, ls, key) == First(false, ls, key)
    decreases |ls|
  {
    hide Assigns, SplitOnce, Fold;
    if ls != [] {
      ReaderFindsRaw(ls[1..], key);
      if SplitOnce(ls[0]).Some? {
        ReaderAgrees(ls[0]);
      } else {
        NoAssignment(ls[0]);
      }
    }
  }

  lemma NoAssignment(line: string)
    requires SplitOnce(line) == None
    ensures Assigns(line) == None
  {
  }

  /** Replacing the value of an assignment keeps its key, for reader and rewriter alike. */
  lemma ReplacedValue(line: string, value: string)
    requires Assigns(line).Some?
    ensures var key := Assigns(line).value.key;
            && Assigns(key + "=" + value) == Some(Assignment(key, value))
            && SplitOnce(key + "=" + value) == Some(Assignment(key, value))
            && SplitOnce(line) == Assigns(line)
  {
    var n := Find(line, '=');
    var line' := line[..n] + "=" + value;
    assert line'[..n + 1] == line[..n] + "=" == line[..n + 1];
    TrimHead(line);
    SameHead(line, line', n + 1);
    TrimHead(line');
    FindsSign(line[..n], value);
  }

  lemma FindsSign(key: string, value: string)
    requires '=' !in key
    ensures SplitOnce(key + "=" + value) == Some(Assignment(key, value))
  {
    var line := key + "=" + value;
    assert line[|key|] == '=';
    assert forall k :: 0 <= k < |key| ==> line[k] == key[k];
    assert Find(line, '=') == |key|;
    assert line[..|key|] == key && line[|key| + 1..] == value;
  }

  /** An appended line is read back, by either side, as what it was made from. */
  lemma AppendedLineParses(reader: bool, key: string, value: string)
    requires Canonical(key)
    ensures Parse(reader, key + "=" + value) == Some(Assignment(key, value)) && Fold(key) == key
  {
    var line := key + "=" + value;
    FindsSign(key, value);
    CanonicalHead(key, value);
    TrimHead(line);
  }

  lemma CanonicalHead(key: string, value: string)
    requires Canonical(key)
    ensures var line := key + "=" + value; Leading(line) == 0 && line[0] != '#'
  {
    TrimHead(key);
    var line := key + "=" + value;
    if key != [] {
      assert Trim(key) != [] && !IsSpace(Trim(key)[0]);
      assert key[0] == ToLower(Trim(key)[0]);
      assert line[0] == key[0];
    } else {
      assert line[0] == '=';
    }
  }

  // ----- what the rewrite does to the assignments -----

  lemma OneLineRewritten(line: string, changes: Changes, key: string)
    ensures var r := RewriteLine(line, changes);
            var a := Assigns(line);
            && |r.lines| == 1
            && (Assigns(r.lines[0]).Some? <==> a.Some?)
            && (a.Some? ==> Fold(Assigns(r.lines[0]).value.key) == Fold(a.value.key))
            && (a.Some? && Fold(a.value.key) == key ==>
                  if key in changes then
                    && Assigns(r.lines[0]).value.value == changes[key] && key !in r.left
                    && (r.changed <==> a.value.value != changes[key])
                  else r == Rewrite([line], changes, false))
            && (!(a.Some? && Fold(a.value.key) == key) ==>
                  (key in r.left <==> key in changes) && (key in changes ==> r.left[key] == changes[key]))
  {
    var a := Assigns(line);
    if a.Some? && Fold(a.value.key) in changes {
      ReplacedValue(line, changes[Fold(a.value.key)]);
    }
  }

  /** The new value of every key, and which keys are left over, for any changes. */
  lemma {:induction false} RawAfter(ls: seq<string>, changes: Changes, key: string)
    ensures var r := RewriteLines(ls, changes);
            var before := First(false, ls, key);
            && First(false, r.lines, key) == (if key in changes && before.Some? then Some(changes[key]) else before)
            && (key in r.left <==> key in changes && before == None)
            && (key in r.left ==> r.left[key] == changes[key])
    decreases |ls|
  {
    hide Assigns, Fold, RewriteLine;
    if ls != [] {
      var first := RewriteLine(ls[0], changes);
      OneLineRewritten(ls[0], changes, key);
      RawAfter(ls[1..], first.left, key);
      assert first.lines == [first.lines[0]];
      FirstOfCons(false, first.lines[0], RewriteLines(ls[1..], first.left).lines, key);
    }
  }

  lemma FirstOfCons(reader: bool, line: string, ls: seq<string>, key: string)
    ensures First(reader, [line] + ls, key) ==
            var a := Parse(reader, line);
            if a.Some? && Fold(a.value.key) == key then Some(a.value.value) else First(reader, ls, key)
  {
    assert ([line] + ls)[1..] == ls;
  }

  /** Every key that is assigned at all already has its new value, to the letter. */
  predicate Settled(ls: seq<string>, changes: Changes) {
    forall k :: k in changes ==> First(false, ls, k) == None || First(false, ls, k) == Some(changes[k])
  }

  lemma {:induction false} ChangedIffUnsettled(ls: seq<string>, changes: Changes)
    ensures RewriteLines(ls, changes).changed <==> !Settled(ls, changes)
    ensures !RewriteLines(ls, changes).changed ==> RewriteLines(ls, changes).lines == ls
    decreases |ls|
  {
    hide Fold, Assigns, Parse, RewriteLine;
    if ls != [] {
      var first := RewriteLine(ls[0], changes);
      ChangedIffUnsettled(ls[1..], first.left);
      OneLineSettled(ls, changes);
    }
  }

  lemma OneLineSettled(ls: seq<string>, changes: Changes)
    requires ls != []
    ensures var first := RewriteLine(ls[0], changes);
            && (Settled(ls, changes) <==> !first.changed && Settled(ls[1..], first.left))
            && (!first.changed ==> first.lines == [ls[0]])
  {
    hide Fold, Assigns;
    var a := Assigns(ls[0]);
    if a.Some? && Fold(a.value.key) in changes {
      var key := Fold(a.value.key);
      assert First(false, ls, key) == Some(a.value.value);
      assert forall k :: k != key ==> First(false, ls, k) == First(false, ls[1..], k);
    } else {
      assert forall k :: k in changes ==> First(false, ls, k) == First(false, ls[1..], k);
    }
  }

  /** A key outside the changes keeps its first value, comments included. */
  lemma {:induction false} OthersKeepTheirValue(reader: bool, ls: seq<string>, changes: Changes, key: string)
    requires key !in changes
    ensures First(reader, RewriteLines(ls, changes).lines, key) == First(reader, ls, key)
    decreases |ls|
  {
    hide Assigns, SplitOnce, Fold, RewriteLine;
    if ls != [] {
      var first := RewriteLine(ls[0], changes);
      OneLineOthers(reader, ls[0], changes, key);
      OthersKeepTheirValue(reader, ls[1..], first.left, key);
      FirstOfCons(reader, first.lines[0], RewriteLines(ls[1..], first.left).lines, key);
    }
  }

  lemma OneLineOthers(reader: bool, line: string, changes: Changes, key: string)
    requires key !in changes
    ensures var r := RewriteLine(line, changes);
            && key !in r.left && r.lines == [r.lines[0]]
            && (r.lines[0] == line
                || (Parse(reader, line).Some? && Parse(reader, r.lines[0]).Some?
                    && Fold(Parse(reader, line).value.key) != key && Fold(Parse(reader, r.lines[0]).value.key) != key))
  {
    hide Assigns, SplitOnce, Fold, Parse;
    var a := Assigns(line);
    if a.Some? && Fold(a.value.key) in changes {
      var line' := a.value.key + "=" + changes[Fold(a.value.key)];
      ReplacedValue(line, changes[Fold(a.value.key)]);
      BothTakeAssignments(reader, line);
      BothTakeAssignments(reader, line');
    }
  }

  lemma BothTakeAssignments(reader: bool, line: string)
    ensures Assigns(line).Some? ==> Parse(reader, line) == Assigns(line)
  {
  }

  /** Line by line: a line that is not an assignment to a changed key keeps its text, the others keep their key part. */
  lemma {:induction false} LinesKeepTheirText(ls: seq<string>, changes: Changes)
    ensures var r := RewriteLines(ls, changes);
            && |r.lines| == |ls|
            && forall i :: 0 <= i < |ls| ==> LineKept(ls[i], r.lines[i], changes)
    ensures forall k :: k in RewriteLines(ls, changes).left ==>
              k in changes && RewriteLines(ls, changes).left[k] == changes[k]
    decreases |ls|
  {
    hide Assigns, Fold;
    if ls != [] {
      var first := RewriteLine(ls[0], changes);
      LinesKeepTheirText(ls[1..], first.left);
      assert LineKept(ls[0], first.lines[0], changes);
    }
  }

  predicate LineKept(before: string, after: string, changes: Changes) {
    after == before
    || (var a := Assigns(before);
        a.Some? && Fold(a.value.key) in changes && after == a.value.key + "=" + changes[Fold(a.value.key)])
  }

  // ----- from lines to text and back -----

  predicate OneLine(line: string) {
    '\n' !in line
  }

  lemma {:induction false} LinesAreOneLine(s: string)
    ensures forall l :: l in Lines(s) ==> OneLine(l)
    decreases |s|
  {
    if s != [] {
      var n := Find(s, '\n');
      if n < |s| {
        LinesAreOneLine(s[n + 1..]);
        assert forall k :: 0 <= k < |Chomp(s[..n])| ==> Chomp(s[..n])[k] == s[k];
      }
    }
  }

  /** `lines` does not report an empty line at the very end. */
  function DropBlankTail(ls: seq<string>): seq<string> {
    if ls != [] && ls[|ls| - 1] == [] then ls[..|ls| - 1] else ls
  }

  lemma {:induction false} LinesOfJoin(ls: seq<string>)
    requires forall l :: l in ls ==> OneLine(l)
    ensures Lines(JoinLines(ls)) == DropBlankTail(ls)
    decreases |ls|
  {
    if |ls| == 1 {
      assert ls == [ls[0]];
      assert OneLine(ls[0]);
    } else if |ls| > 1 {
      var rest := JoinLines(ls[1..]);
      assert OneLine(ls[0]);
      FirstLine(ls[0], rest);
      assert forall l :: l in ls[1..] ==> OneLine(l);
      LinesOfJoin(ls[1..]);
      DropTailOfCons(ls);
    }
  }

  lemma FirstLine(line: string, rest: string)
    requires OneLine(line)
    ensures Lines(line + EOL + rest) == [line] + Lines(rest)
  {
    var s := line + EOL + rest;
    assert s[|line| + 1] == '\n' && s[|line|] == '\r';
    assert forall k :: 0 <= k < |line| ==> s[k] == line[k];
    assert Find(s, '\n') == |line| + 1;
    assert s[..|line| + 1] == line + "\r";
    assert s[|line| + 2..] == rest;
  }

  lemma DropTailOfCons(ls: seq<string>)
    requires |ls| > 1
    ensures DropBlankTail(ls) == [ls[0]] + DropBlankTail(ls[1..])
  {
  }

  function AppendedLines(order: seq<string>, left: Changes): seq<string>
    requires Within(order, left)
  {
    if order == [] then []
    else
      var last := order[|order| - 1];
      AppendedLines(order[..|order| - 1], left) + [last + "=" + left[last]]
  }

  /** Appending to nothing first leaves an empty line. */
  function Ground(ls: seq<string>, order: seq<string>): seq<string> {
    if ls == [] && order != [] then [[]] else ls
  }

  lemma {:induction false} JoinOneMore(ls: seq<string>, line: string)
    requires ls != []
    ensures JoinLines(ls + [line]) == JoinLines(ls) + EOL + line
    decreases |ls|
  {
    if |ls| > 1 {
      JoinOneMore(ls[1..], line);
      assert (ls + [line])[1..] == ls[1..] + [line];
    } else {
      assert (ls + [line])[1..] == [line];
    }
  }

  lemma {:induction false} AppendedTextJoins(ls: seq<string>, order: seq<string>, left: Changes)
    requires Within(order, left) && (ls == [] ==> order == [])
    ensures JoinLines(ls) + AppendedText(order, left) == JoinLines(ls + AppendedLines(order, left))
    decreases |order|
  {
    if order == [] {
      assert ls + [] == ls;
    } else {
      var last, front := order[|order| - 1], order[..|order| - 1];
      AppendedTextJoins(ls, front, left);
      JoinOneMore(ls + AppendedLines(front, left), last + "=" + left[last]);
      AppendGroups(ls, AppendedLines(front, left), last + "=" + left[last]);
      assert JoinLines(ls) + (AppendedText(front, left) + (EOL + last + "=" + left[last]))
          == JoinLines(ls) + AppendedText(front, left) + EOL + (last + "=" + left[last]);
    }
  }

  lemma AppendGroups(a: seq<string>, b: seq<string>, line: string)
    ensures a + (b + [line]) == a + b + [line]
  {
  }

  lemma KeptIsOneLine(before: string, after: string, changes: Changes)
    requires Proper(changes) && OneLine(before) && LineKept(before, after, changes)
    ensures OneLine(after)
  {
    if after != before {
      var a := Assigns(before).value;
      assert forall k :: 0 <= k < |a.key| ==> a.key[k] == before[k];
      assert '\n' !in a.key && '\n' !in "=" && '\n' !in changes[Fold(a.key)];
    }
  }

  lemma RewrittenIsOneLine(contents: string, changes: Changes)
    requires Proper(changes)
    ensures forall l :: l in RewriteLines(Lines(contents), changes).lines ==> OneLine(l)
  {
    hide LineKept, OneLine, RewriteLines, Lines;
    var ls := Lines(contents);
    LinesAreOneLine(contents);
    LinesKeepTheirText(ls, changes);
    var out := RewriteLines(ls, changes).lines;
    forall i | 0 <= i < |out| ensures OneLine(out[i]) {
      KeptIsOneLine(ls[i], out[i], changes);
    }
  }

  lemma {:induction false} AppendedAreOneLine(order: seq<string>, left: Changes)
    requires Proper(left) && Within(order, left)
    ensures forall l :: l in AppendedLines(order, left) ==> OneLine(l)
    decreases |order|
  {
    if order != [] {
      AppendedAreOneLine(order[..|order| - 1], left);
    }
  }

  /** What a missing key looks like once appended, and where every other line of the result comes from. */
  function ResultLines(contents: string, changes: Changes, order: seq<string>): seq<string>
    requires Within(order, Missing(contents, changes))
  {
    Ground(RewriteLines(Lines(contents), changes).lines, order) + AppendedLines(order, Missing(contents, changes))
  }

  /**
   The text of a rewrite, taken apart again: the lines of the original, each kept or given its new value,
   and then one line for each missing key; only a blank line at the very end is not reported.
   */
  lemma RewriteFramesLines(contents: string, changes: Changes, order: seq<string>)
    requires Proper(changes) && Enumerates(order, Missing(contents, changes))
    ensures var r := Rewritten(contents, changes, order);
            r.Some? ==> Lines(r.value) == DropBlankTail(ResultLines(contents, changes, order))
    ensures var ls, out := Lines(contents), RewriteLines(Lines(contents), changes).lines;
            |out| == |ls| && forall i :: 0 <= i < |ls| ==> LineKept(ls[i], out[i], changes)
    ensures forall k :: k in order <==> k in changes && First(false, Lines(contents), k) == None
  {
    hide RewriteLines, Lines, JoinLines, AppendedText, AppendedLines, LineKept, OneLine, First, DropBlankTail;
    var ls := Lines(contents);
    var r := RewriteLines(ls, changes);
    LinesKeepTheirText(ls, changes);
    MissingAreUnassigned(contents, changes);
    RewrittenIsOneLine(contents, changes);
    AppendedAreOneLine(order, r.left);
    GroundJoins(r.lines, order);
    AppendedTextJoins(Ground(r.lines, order), order, r.left);
    BlankIsOneLine();
    assert forall l :: l in ResultLines(contents, changes, order) ==> OneLine(l);
    LinesOfJoin(ResultLines(contents, changes, order));
  }

  lemma BlankIsOneLine()
    ensures OneLine([])
  {
  }

  lemma GroundJoins(ls: seq<string>, order: seq<string>)
    ensures JoinLines(Ground(ls, order)) == JoinLines(ls)
  {
  }

  lemma MissingAreUnassigned(contents: string, changes: Changes)
    ensures forall k :: k in Missing(contents, changes) <==> k in changes && First(false, Lines(contents), k) == None
  {
    forall k ensures k in Missing(contents, changes) <==> k in changes && First(false, Lines(contents), k) == None {
      RawAfter(Lines(contents), changes, k);
    }
  }

  // ----- looking keys up in the result -----

  lemma {:induction false} FirstOfConcat(reader: bool, a: seq<string>, b: seq<string>, key: string)
    ensures First(reader, a + b, key)
         == if First(reader, a, key).Some? then First(reader, a, key) else First(reader, b, key)
    decreases |a|
  {
    hide Parse, Fold;
    if a == [] {
      assert a + b == b;
    } else {
      assert (a + b)[1..] == a[1..] + b;
      FirstOfConcat(reader, a[1..], b, key);
    }
  }

  lemma BlankAssignsNothing(reader: bool, key: string)
    ensures First(reader, [[]], key) == None
  {
    var ls: seq<string> := [[]];
    assert ls[1..] == [] && Parse(reader, []) == None;
  }

  lemma {:induction false} FirstOfAppended(reader: bool, order: seq<string>, left: Changes, key: string)
    requires Proper(left) && Within(order, left)
    ensures First(reader, AppendedLines(order, left), key) == if key in order then Some(left[key]) else None
    decreases |order|
  {
    hide Parse, Fold, Canonical;
    if order != [] {
      var last, front := order[|order| - 1], order[..|order| - 1];
      var line := last + "=" + left[last];
      FirstOfAppended(reader, front, left, key);
      FirstOfConcat(reader, AppendedLines(front, left), [line], key);
      AppendedLineParses(reader, last, left[last]);
      FirstOfCons(reader, line, [], key);
      assert [line] + [] == [line] && order == front + [last];
    }
  }

  lemma FirstInDropped(reader: bool, ls: seq<string>, key: string)
    ensures First(reader, DropBlankTail(ls), key) == First(reader, ls, key)
  {
    hide Parse, Fold;
    if DropBlankTail(ls) != ls {
      var front := ls[..|ls| - 1];
      assert ls == front + [[]];
      FirstOfConcat(reader, front, [[]], key);
      BlankAssignsNothing(reader, key);
    }
  }

  /** A key is found in the rewritten text among the rewritten lines, or else among those appended. */
  lemma FirstInResult(reader: bool, contents: string, changes: Changes, order: seq<string>, key: string)
    requires Proper(changes) && Enumerates(order, Missing(contents, changes))
    ensures var r := RewriteLines(Lines(contents), changes);
            var found := First(reader, r.lines, key);
            Rewritten(contents, changes, order).Some? ==>
              First(reader, Lines(Rewritten(contents, changes, order).value), key) ==
              if found.Some? then found else if key in order then Some(r.left[key]) else None
  {
    hide RewriteLines, Lines, Rewritten, AppendedLines, DropBlankTail, Parse, Fold, Canonical, First;
    var r := RewriteLines(Lines(contents), changes);
    RewriteFramesLines(contents, changes, order);
    FirstInDropped(reader, ResultLines(contents, changes, order), key);
    FirstOfConcat(reader, Ground(r.lines, order), AppendedLines(order, r.left), key);
    LinesKeepTheirText(Lines(contents), changes);
    FirstOfAppended(reader, order, r.left, key);
    BlankAssignsNothing(reader, key);
    assert First(reader, [], key) == None by { NothingFirst(reader, key); }
  }

  lemma NothingFirst(reader: bool, key: string)
    ensures First(reader, [], key) == None
  {
  }

  // ----- the promises of the rewriter -----

  /** The contents of the file after a rewrite that returned `r`. */
  function After(contents: string, r: Option<string>): string {
    match r case None => contents case Some(text) => text
  }

  /** `rewrite_contents` returns None iff every key already has exactly its new value. */
  lemma NoneIffUpToDate(contents: string, changes: Changes, order: seq<string>)
    requires Enumerates(order, Missing(contents, changes))
    ensures Rewritten(contents, changes, order) == None <==>
            forall k :: k in changes ==> First(false, Lines(contents), k) == Some(changes[k])
  {
    hide RewriteLines, Lines, First;
    ChangedIffUnsettled(Lines(contents), changes);
    MissingAreUnassigned(contents, changes);
    if order != [] {
      assert order[0] in order;
    }
  }

  /** After a rewrite, whatever it returned, every changed key stands there with exactly its new value. */
  lemma RawValueAfter(contents: string, changes: Changes, order: seq<string>, key: string)
    requires Proper(changes) && Enumerates(order, Missing(contents, changes)) && key in changes
    ensures First(false, Lines(After(contents, Rewritten(contents, changes, order))), key) == Some(changes[key])
  {
    hide RewriteLines, Lines, First, Rewritten, Canonical;
    if Rewritten(contents, changes, order) == None {
      NoneIffUpToDate(contents, changes, order);
    } else {
      FirstInResult(false, contents, changes, order, key);
      RawAfter(Lines(contents), changes, key);
    }
  }

  /** Rewrite then read: the independent reader finds the trimmed new value, whatever the iteration order. */
  lemma RewriteThenRead(contents: string, changes: Changes, order: seq<string>, key: string)
    requires Proper(changes) && Enumerates(order, Missing(contents, changes)) && key in changes
    ensures ReadProperty(After(contents, Rewritten(contents, changes, order)), key) == Some(Trim(changes[key]))
  {
    hide RewriteLines, Lines, First, Rewritten, Trim;
    var after := After(contents, Rewritten(contents, changes, order));
    RawValueAfter(contents, changes, order, key);
    LowerOfCanonical(key);
    ReaderFindsRaw(Lines(after), key);
  }

  lemma LowerOfCanonical(key: string)
    requires Canonical(key)
    ensures Lower(key) == key
  {
    var t := Trim(key);
    assert forall i :: 0 <= i < |t| ==> ToLower(ToLower(t[i])) == ToLower(t[i]);
  }

  /** A second rewrite with the same proper changes has nothing to do, whatever the iteration orders. */
  lemma ProperRewriteIsIdempotent(contents: string, changes: Changes, order: seq<string>, order': seq<string>)
    requires Proper(changes) && Enumerates(order, Missing(contents, changes))
    requires Enumerates(order', Missing(After(contents, Rewritten(contents, changes, order)), changes))
    ensures Rewritten(After(contents, Rewritten(contents, changes, order)), changes, order') == None
  {
    hide RewriteLines, Lines, First, Rewritten, Canonical;
    var after := After(contents, Rewritten(contents, changes, order));
    forall k | k in changes ensures First(false, Lines(after), k) == Some(changes[k]) {
      RawValueAfter(contents, changes, order, k);
    }
    NoneIffUpToDate(after, changes, order');
  }

  /**
   Exactly when a rewrite is idempotent: the second one returns None iff every key is canonical and every value is
   one line. A key that is not is never found again and a longer value is never found whole, so each is written anew.
   */
  lemma RewriteIsIdempotentIff(contents: string, changes: Changes, order: seq<string>, order': seq<string>)
    requires Enumerates(order, Missing(contents, changes))
    requires Enumerates(order', Missing(After(contents, Rewritten(contents, changes, order)), changes))
    ensures Rewritten(After(contents, Rewritten(contents, changes, order)), changes, order') == None <==>
              Proper(changes)
  {
    hide RewriteLines, Lines, First, Rewritten, Canonical;
    if Proper(changes) {
      ProperRewriteIsIdempotent(contents, changes, order, order');
    } else {
      var after := After(contents, Rewritten(contents, changes, order));
      var k :| k in changes && !(Canonical(k) && '\n' !in changes[k]);
      AssignedIsCanonical(after, k);
      NoneIffUpToDate(after, changes, order');
    }
  }

  /** What the rewriter can find in any file: a canonical key, with a value of one line. */
  lemma AssignedIsCanonical(contents: string, key: string)
    ensures var found := First(false, Lines(contents), key);
            found.Some? ==> Canonical(key) && '\n' !in found.value
  {
    LinesAreOneLine(contents);
    FirstIsCanonical(Lines(contents), key);
  }

  lemma {:induction false} FirstIsCanonical(ls: seq<string>, key: string)
    requires forall l :: l in ls ==> OneLine(l)
    ensures var found := First(false, ls, key);
            found.Some? ==> Canonical(key) && '\n' !in found.value
    decreases |ls|
  {
    hide Assigns, Fold, Canonical, OneLine;
    if ls != [] {
      assert OneLine(ls[0]);
      if Assigns(ls[0]).Some? {
        AssignmentIsCanonical(ls[0]);
        ValueIsOneLine(ls[0]);
      }
      FirstIsCanonical(ls[1..], key);
    }
  }

  lemma ValueIsOneLine(line: string)
    requires OneLine(line) && Assigns(line).Some?
    ensures '\n' !in Assigns(line).value.value
  {
  }

  lemma AssignmentIsCanonical(line: string)
    requires OneLine(line) && Assigns(line).Some?
    ensures Canonical(Fold(Assigns(line).value.key))
  {
    var key := line[..Find(line, '=')];
    var t := Trim(key);
    FoldTwice(key);
    TrimIsPart(key, '=');
    TrimIsPart(key, '\n');
    TrimHead(key);
    TrimHead(line);
    if t != [] {
      SameHead(key, line, |key|);
    }
  }

  lemma TrimIsPart(s: string, c: char)
    requires c !in s && (c == '=' || c == '\n')
    ensures c !in Fold(s)
  {
    var t, n := Trim(s), Leading(s);
    forall i | 0 <= i < |t| ensures t[i] != c && ToLower(t[i]) != c {
      assert t[i] == s[n..][i] == s[n + i];
    }
  }

  lemma FoldTwice(s: string)
    ensures Fold(Fold(s)) == Fold(s)
  {
    var t := Trim(s);
    var l := Lower(t);
    TrimEnds(s);
    assert forall i :: 0 <= i < |t| ==> (IsSpace(l[i]) <==> IsSpace(t[i])) && ToLower(l[i]) == l[i];
    assert Leading(l) == 0;
    assert l[0..] == l;
    assert Solid(l) == |l|;
    assert l[..|l|] == l;
    assert Lower(l) == l;
  }

  lemma TrimEnds(s: string)
    ensures var t := Trim(s); t != [] ==> !IsSpace(t[0]) && !IsSpace(t[|t| - 1])
  {
  }

  /** Every property outside the changes reads as it did before. */
  lemma OthersReadAsBefore(contents: string, changes: Changes, order: seq<string>, property: string)
    requires Proper(changes) && Enumerates(order, Missing(contents, changes)) && Lower(property) !in changes
    ensures ReadProperty(After(contents, Rewritten(contents, changes, order)), property)
         == ReadProperty(contents, property)
  {
    hide RewriteLines, Lines, First, Rewritten, Canonical, Lower;
    if Rewritten(contents, changes, order).Some? {
      FirstInResult(true, contents, changes, order, Lower(property));
      OthersKeepTheirValue(true, Lines(contents), changes, Lower(property));
      MissingAreUnassigned(contents, changes);
    }
  }
}
