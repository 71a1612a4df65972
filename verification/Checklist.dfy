/**
 The checklist printer and parser: a note's text is one line for each task, and reading what was
 printed gives the tasks back, open ones first, exactly when their titles are clean.
 */
module Checklist {
  import opened Prelude
  import opened Text

  datatype Task = Task(title: string, completed: bool)

  // A slice of a line that is out of range panics.
  datatype Reading = Tasks(tasks: seq<Task>) | MissingContent | Panic

  // ---- Sorting

  /** The same tasks with no completed one before an open one; the order is otherwise free. */
  predicate IsSorting(before: seq<Task>, after: seq<Task>) {
    && multiset(before) == multiset(after)
    && forall i, j :: 0 <= i < j < |after| && after[i].completed ==> after[j].completed
  }

  function Having(ts: seq<Task>, completed: bool): (r: seq<Task>)
    ensures forall i :: 0 <= i < |r| ==> r[i].completed == completed
  {
    if ts == [] then []
    else if ts[0].completed == completed then [ts[0]] + Having(ts[1..], completed)
    else Having(ts[1..], completed)
  }

  lemma {:induction false} OpenAndCompleted(ts: seq<Task>)
    ensures multiset(Having(ts, false)) + multiset(Having(ts, true)) == multiset(ts)
  {
    if ts != [] {
      var open, done := Having(ts[1..], false), Having(ts[1..], true);
      OpenAndCompleted(ts[1..]);
      assert ts == [ts[0]] + ts[1..];
      assert multiset([ts[0]] + open) == multiset{ts[0]} + multiset(open);
      assert multiset([ts[0]] + done) == multiset{ts[0]} + multiset(done);
    }
  }

  lemma SortingExists(ts: seq<Task>)
    ensures IsSorting(ts, Having(ts, false) + Having(ts, true))
  {
    OpenAndCompleted(ts);
    hide Having;
  }

  lemma SortingKeepsLength(before: seq<Task>, after: seq<Task>)
    requires IsSorting(before, after)
    ensures |before| == |after|
  {
    assert |multiset(before)| == |multiset(after)|;
  }

  /** Whatever order the sort leaves equal tasks in. */
  method Sort(dt: array<Task>)
    modifies dt
    ensures IsSorting(old(dt[..]), dt[..])
  {
    var was := dt[..];
    SortingExists(was);
    var sorted :| IsSorting(was, sorted);
    SortingKeepsLength(was, sorted);
    forall i | 0 <= i < dt.Length {
      dt[i] := sorted[i];
    }
    assert dt[..] == sorted;
  }

  /** Sorts a slice of its own. */
  method SortSlice(tasks: seq<Task>) returns (sorted: seq<Task>)
    ensures IsSorting(tasks, sorted)
  {
    var dt := new Task[|tasks|](i requires 0 <= i < |tasks| => tasks[i]);
    assert dt[..] == tasks;
    Sort(dt);
    sorted := dt[..];
  }

  // ---- Printing

  function Prefix(completed: bool): string {
    "- [" + (if completed then "x" else " ") + "] "
  }

  function Line(t: Task): string {
    Prefix(t.completed) + t.title
  }

  function Printed(ts: seq<Task>): string {
    if ts == [] then "" else if |ts| == 1 then Line(ts[0]) else Line(ts[0]) + ['\n'] + Printed(ts[1..])
  }

  function PrintedBefore(ts: seq<Task>, n: nat): string
    requires n <= |ts|
  {
    if n == 0 then "" else PrintedBefore(ts, n - 1) + Line(ts[n - 1]) + (if n == |ts| then "" else "\n")
  }

  lemma {:induction false} PrintedInOrder(ts: seq<Task>, n: nat)
    requires n < |ts|
    ensures PrintedBefore(ts, n) + Printed(ts[n..]) == PrintedBefore(ts, |ts|)
    decreases |ts| - n
  {
    if n + 1 < |ts| {
      PrintedInOrder(ts, n + 1);
      assert ts[n..][1..] == ts[n + 1..];
    }
  }

  /** Prints the tasks and leaves the caller's list sorted. */
  method TasksToNoteText(tasks: array<Task>) returns (text: string)
    modifies tasks
    ensures IsSorting(old(tasks[..]), tasks[..])
    ensures text == Printed(tasks[..])
  {
    Sort(tasks);
    var ts := tasks[..];
    text := "";
    for x := 0 to |ts|
      invariant tasks[..] == ts && text == PrintedBefore(ts, x)
    {
      var completed := " ";
      if tasks[x].completed {
        completed := "x";
      }
      var sep := "\n";
      if x == |ts| - 1 {
        sep := "";
      }
      text := text + ("- [" + completed + "] " + tasks[x].title + sep);
    }
    if ts != [] {
      PrintedInOrder(ts, 0);
      assert ts[0..] == ts;
    }
  }

  // ---- Reading

  // Two backslashes and an n; a backslash and an n; and what stands for the former while
  // the text is split at the latter.
  const ESCAPED := ['\\', '\\', 'n']
  const ESCAPE := ['\\', 'n']
  const PLACEHOLDER := "ESC_NEWLINE_PLACEHOLDER"

  /** Every occurrence of a pattern, from the left and without overlap, replaced. */
  function ReplaceAll(s: string, from: string, to: string): string
    requires from != ""
  {
    if s == "" then ""
    else if from <= s then to + ReplaceAll(s[|from|..], from, to)
    else [s[0]] + ReplaceAll(s[1..], from, to)
  }

  function Escaped(s: string): string {
    ReplaceAll(s, ESCAPED, PLACEHOLDER)
  }

  function Unescaped(s: string): string {
    ReplaceAll(s, PLACEHOLDER, ESCAPED)
  }

  function SplitAtEscapes(s: string): (parts: seq<string>)
    ensures parts != []
  {
    if s == "" then [""]
    else if ESCAPE <= s then [""] + SplitAtEscapes(s[2..])
    else
      var rest := SplitAtEscapes(s[1..]);
      [[s[0]] + rest[0]] + rest[1..]
  }

  function Restored(parts: seq<string>): (restored: seq<string>)
    ensures |restored| == |parts|
  {
    seq(|parts|, i requires 0 <= i < |parts| => Unescaped(parts[i]))
  }

  function TaskTexts(text: string): (matches: seq<string>)
    ensures matches != []
  {
    if '\n' in text then Split(text, '\n') else Restored(SplitAtEscapes(Escaped(text)))
  }

  method SplitTaskText(text: string) returns (parts: seq<string>)
    ensures parts == Restored(SplitAtEscapes(Escaped(text)))
  {
    var escapedNewlineReplaced := Escaped(text);
    parts := SplitAtEscapes(escapedNewlineReplaced);
    ghost var whole := parts;
    for i := 0 to |parts|
      invariant |parts| == |whole|
      invariant forall j :: 0 <= j < |parts| ==> parts[j] == if j < i then Restored(whole)[j] else whole[j]
    {
      parts := parts[i := Unescaped(parts[i])];
    }
    assert parts == Restored(whole);
  }

  /** The position of the first occurrence of a character, or -1. */
  function Index(s: string, c: char): (i: int)
    ensures -1 <= i < |s|
    ensures i >= 0 ==> s[i] == c && c !in s[..i]
    ensures i < 0 ==> c !in s
  {
    if s == "" then -1
    else if s[0] == c then 0
    else
      var i := Index(s[1..], c);
      if i < 0 then -1 else i + 1
  }

  /** The task on a line, unless a slice is out of range. */
  function TaskOf(line: string): Option<Task> {
    var i := Index(line, ']');
    if i < 1 || i + 2 > |line| then None else Some(Task(line[i + 2..], line[i - 1] == 'x'))
  }

  function TasksOf(matches: seq<string>): Option<seq<Task>> {
    if matches == [] then Some([])
    else
      match TasksOf(matches[..|matches| - 1])
      case None => None
      case Some(ts) =>
        match TaskOf(matches[|matches| - 1])
        case None => None
        case Some(t) => Some(ts + [t])
  }

  /** The tasks of a text before they are sorted. */
  function Read(text: string): Reading {
    if text == "" then MissingContent
    else
      match TasksOf(TaskTexts(text))
      case None => Panic
      case Some(ts) => Tasks(ts)
  }

  lemma {:induction false} TasksStop(matches: seq<string>, i: nat)
    requires i <= |matches| && TasksOf(matches[..i]).None?
    ensures TasksOf(matches).None?
    decreases |matches| - i
  {
    if i == |matches| {
      assert matches[..i] == matches;
    } else {
      assert matches[..i + 1][..i] == matches[..i];
      TasksStop(matches, i + 1);
    }
  }

  /** The loop over the lines: the first that cannot be read ends it. */
  method TasksOfLines(matches: seq<string>) returns (tasks: seq<Task>, ok: bool)
    ensures TasksOf(matches) == if ok then Some(tasks) else None
  {
    tasks := [];
    for n := 0 to |matches|
      invariant TasksOf(matches[..n]) == Some(tasks)
    {
      assert matches[..n + 1][..n] == matches[..n];
      var line := matches[n];
      var i := Index(line, ']');
      if i < 1 || i + 2 > |line| {
        TasksStop(matches, n + 1);
        return tasks, false;
      }
      var task := Task(line[i + 2..], false);
      if line[i - 1] == 'x' {
        task := task.(completed := true);
      }
      tasks := tasks + [task];
    }
    assert matches[..|matches|] == matches;
    ok := true;
  }

  method NoteTextToTasks(text: string) returns (r: Reading)
    ensures Read(text).Tasks? <==> r.Tasks?
    ensures if r.Tasks? then IsSorting(Read(text).tasks, r.tasks) else r == Read(text)
  {
    if |text| == 0 {
      return MissingContent;
    }
    var matches;
    if '\n' in text {
      matches := Split(text, '\n');
    } else {
      matches := SplitTaskText(text);
    }
    assert matches == TaskTexts(text);
    hide TaskTexts, Split, Restored, SplitAtEscapes, Escaped, ReplaceAll, IsSorting, TasksOf;
    var tasks, ok := TasksOfLines(matches);
    if !ok {
      return Panic;
    }
    var sorted := SortSlice(tasks);
    r := Tasks(sorted);
  }

  // ---- Lines and their number

  lemma {:induction false} TasksOfEach(matches: seq<string>, ts: seq<Task>)
    requires |matches| == |ts| && forall i :: 0 <= i < |ts| ==> TaskOf(matches[i]) == Some(ts[i])
    ensures TasksOf(matches) == Some(ts)
  {
    if matches != [] {
      TasksOfEach(matches[..|matches| - 1], ts[..|ts| - 1]);
      assert ts[..|ts| - 1] + [ts[|ts| - 1]] == ts;
    }
  }

  lemma {:induction false} TasksOfCount(matches: seq<string>)
    ensures TasksOf(matches).Some? ==> |TasksOf(matches).value| == |matches|
  {
    if matches != [] {
      TasksOfCount(matches[..|matches| - 1]);
    }
  }

  /** The first closing bracket of a line is the one that was printed, whatever the title holds. */
  lemma LineRead(t: Task)
    ensures Line(t) == (if t.completed then "- [x] " else "- [ ] ") + t.title
    ensures TaskOf(Line(t)) == Some(t)
  {
    var line := Line(t);
    assert line[4] == ']' && ']' !in line[..4];
    assert line[6..] == t.title;
  }

  /** A line is read at its first closing bracket: the mark is right before it, the title starts after the next one. */
  lemma ReadAtBracket(before: string, after: string)
    requires ']' !in before
    ensures TaskOf(before + "]" + after) ==
      if before == "" || after == "" then None else Some(Task(after[1..], before[|before| - 1] == 'x'))
    ensures TaskOf(before) == None
  {
    var line := before + "]" + after;
    assert line[|before|] == ']' && line[..|before|] == before;
    assert Index(line, ']') == |before|;
    assert after != "" ==> line[|before| + 2..] == after[1..];
  }

  predicate OneLine(t: Task) {
    '\n' !in t.title
  }

  lemma LineOfOne(t: Task)
    ensures '\n' in Line(t) <==> !OneLine(t)
  {
    var line := Line(t);
    assert forall i :: 0 <= i < |line| ==> line[i] == if i < 6 then Prefix(t.completed)[i] else t.title[i - 6];
    if '\n' in t.title {
      var i :| 0 <= i < |t.title| && t.title[i] == '\n';
      assert line[i + 6] == '\n';
    }
  }

  lemma {:induction false} PrintedSplits(ts: seq<Task>)
    requires ts != [] && forall i :: 0 <= i < |ts| ==> OneLine(ts[i])
    ensures Split(Printed(ts), '\n') == seq(|ts|, i requires 0 <= i < |ts| => Line(ts[i]))
  {
    LineOfOne(ts[0]);
    if |ts| == 1 {
      SplitWhole(Line(ts[0]), '\n');
    } else {
      PrintedSplits(ts[1..]);
      SplitFirst(Line(ts[0]), '\n', Printed(ts[1..]));
    }
  }

  /** Each newline in a title is one line too many. */
  lemma {:induction false} PrintedCount(ts: seq<Task>)
    requires ts != []
    ensures Count(Printed(ts), '\n') >= |ts| - 1
    ensures Count(Printed(ts), '\n') == |ts| - 1 <==> forall i :: 0 <= i < |ts| ==> OneLine(ts[i])
  {
    var line := Line(ts[0]);
    LineOfOne(ts[0]);
    CountZero(line, '\n');
    if |ts| > 1 {
      PrintedCount(ts[1..]);
      CountAppend(line + ['\n'], Printed(ts[1..]), '\n');
      CountAppend(line, ['\n'], '\n');
      assert Count(['\n'], '\n') == 1;
      assert forall i :: 0 <= i < |ts| - 1 ==> ts[1..][i] == ts[i + 1];
      assert (forall i :: 0 <= i < |ts| ==> OneLine(ts[i])) <==>
             (OneLine(ts[0]) && forall i :: 0 <= i < |ts| - 1 ==> OneLine(ts[1..][i]));
    }
  }

  // ---- Escapes

  ghost predicate Occurs(pattern: string, s: string) {
    exists i :: 0 <= i <= |s| && pattern <= s[i..]
  }

  /** Every backslash before an n has a backslash before it. */
  predicate EscapesDoubled(s: string) {
    forall i :: 0 <= i < |s| - 1 && s[i] == '\\' && s[i + 1] == 'n' ==> i > 0 && s[i - 1] == '\\'
  }

  predicate NoEscape(s: string) {
    forall i :: 0 <= i < |s| - 1 ==> !(s[i] == '\\' && s[i + 1] == 'n')
  }

  // The first character of the placeholder is nowhere else followed by the second: it cannot overlap itself.
  lemma PlaceholderUnbordered(k: nat)
    requires 1 <= k < |PLACEHOLDER|
    ensures !(PLACEHOLDER[k..] <= PLACEHOLDER)
  {
    assert PLACEHOLDER[k] == 'E' ==> k == 5 || k == 10 || k == 16 || k == 21;
    assert PLACEHOLDER[k..][0] == PLACEHOLDER[k];
    if k == 5 || k == 10 || k == 16 || k == 21 {
      assert PLACEHOLDER[k..][1] == PLACEHOLDER[k + 1] != PLACEHOLDER[1];
    }
  }

  lemma PrefixSteps(pattern: string, s: string)
    requires pattern != "" && s != ""
    ensures pattern <= s <==> pattern[0] == s[0] && pattern[1..] <= s[1..]
  {
    assert pattern == [pattern[0]] + pattern[1..] && s == [s[0]] + s[1..];
  }

  /** An end of the placeholder that starts the escaped text started the text itself. */
  lemma {:induction false} NoPhantom(t: string, k: nat)
    requires 1 <= k <= |PLACEHOLDER| && PLACEHOLDER[k..] <= Escaped(t)
    ensures PLACEHOLDER[k..] <= t
    decreases |t|
  {
    if k < |PLACEHOLDER| && t != "" {
      var tail := PLACEHOLDER[k..];
      if ESCAPED <= t {
        PlaceholderUnbordered(k);
        assert false;
      } else {
        assert tail[1..] == PLACEHOLDER[k + 1..];
        PrefixSteps(tail, Escaped(t));
        NoPhantom(t[1..], k + 1);
        PrefixSteps(tail, t);
      }
    }
  }

  /** Text without the first character of the pattern is passed over. */
  lemma {:induction false} ReplaceAllSkips(a: string, b: string, from: string, to: string)
    requires from != "" && from[0] !in a
    ensures ReplaceAll(a + b, from, to) == a + ReplaceAll(b, from, to)
  {
    if a == "" {
      assert a + b == b;
    } else {
      assert (a + b)[0] == a[0] && (a + b)[1..] == a[1..] + b;
      assert !(from <= a + b);
      ReplaceAllSkips(a[1..], b, from, to);
    }
  }

  /** The placeholder stands for doubled escapes and for itself: restoring does not tell which. */
  lemma {:induction false} UnescapedEscaped(t: string)
    ensures Unescaped(Escaped(t)) == Unescaped(t)
    decreases |t|
  {
    if t == "" {
    } else if ESCAPED <= t {
      assert t == ESCAPED + t[3..];
      ReplaceAllSkips(ESCAPED, t[3..], PLACEHOLDER, ESCAPED);
      Restores(Escaped(t[3..]));
      UnescapedEscaped(t[3..]);
    } else if PLACEHOLDER <= t {
      assert t == PLACEHOLDER + t[|PLACEHOLDER|..];
      ReplaceAllSkips(PLACEHOLDER, t[|PLACEHOLDER|..], ESCAPED, PLACEHOLDER);
      Restores(Escaped(t[|PLACEHOLDER|..]));
      UnescapedEscaped(t[|PLACEHOLDER|..]);
    } else {
      var rest := Escaped(t[1..]);
      assert Escaped(t) == [t[0]] + rest && ([t[0]] + rest)[1..] == rest;
      if PLACEHOLDER <= Escaped(t) {
        PrefixSteps(PLACEHOLDER, Escaped(t));
        NoPhantom(t[1..], 1);
        PrefixSteps(PLACEHOLDER, t);
        assert false;
      }
      UnescapedEscaped(t[1..]);
    }
  }

  lemma Restores(rest: string)
    ensures Unescaped(PLACEHOLDER + rest) == ESCAPED + Unescaped(rest)
  {
    assert (PLACEHOLDER + rest)[|PLACEHOLDER|..] == rest;
  }

  /** Restoring changes exactly the texts that hold the placeholder. */
  lemma {:induction false} UnescapedExact(t: string)
    ensures |Unescaped(t)| <= |t|
    ensures Unescaped(t) == t <==> !Occurs(PLACEHOLDER, t)
    decreases |t|
  {
    assert t[0..] == t;
    if t == "" {
    } else if PLACEHOLDER <= t {
      UnescapedExact(t[|PLACEHOLDER|..]);
    } else {
      UnescapedExact(t[1..]);
      assert Unescaped(t)[1..] == Unescaped(t[1..]);
      if i :| 0 <= i <= |t| && PLACEHOLDER <= t[i..] {
        assert t[1..][i - 1..] == t[i..];
      }
      if i :| 0 <= i <= |t[1..]| && PLACEHOLDER <= t[1..][i..] {
        assert t[1..][i..] == t[i + 1..];
      }
    }
  }

  lemma NoEscapeAppend(a: string, b: string)
    requires a == "" || a[|a| - 1] != '\\'
    ensures NoEscape(a + b) <==> NoEscape(a) && NoEscape(b)
  {
    var s := a + b;
    if NoEscape(s) {
      forall i | 0 <= i < |b| - 1 ensures !(b[i] == '\\' && b[i + 1] == 'n') {
        assert s[i + |a|] == b[i] && s[i + |a| + 1] == b[i + 1];
      }
      forall i | 0 <= i < |a| - 1 ensures !(a[i] == '\\' && a[i + 1] == 'n') {
        assert s[i] == a[i] && s[i + 1] == a[i + 1];
      }
    }
  }

  /** Escapes are left in the escaped text exactly when some escape is not doubled. */
  lemma {:induction false} EscapesLeft(t: string)
    ensures NoEscape(Escaped(t)) <==> EscapesDoubled(t)
    decreases |t|
  {
    if t == "" {
    } else if ESCAPED <= t {
      EscapesLeft(t[3..]);
      NoEscapeAppend(PLACEHOLDER, Escaped(t[3..]));
      DoubledAfterEscaped(t);
    } else {
      var rest := Escaped(t[1..]);
      EscapesLeft(t[1..]);
      StartOfEscaped(t[1..]);
      assert Escaped(t) == [t[0]] + rest;
      DoubledAfterOther(t);
      OneMore(t[0], rest);
    }
  }

  lemma OneMore(c: char, rest: string)
    ensures NoEscape([c] + rest) <==> NoEscape(rest) && !(c == '\\' && rest != "" && rest[0] == 'n')
  {
    var s := [c] + rest;
    assert forall i :: 0 < i < |s| ==> s[i] == rest[i - 1];
    if NoEscape(rest) && !(c == '\\' && rest != "" && rest[0] == 'n') {
      forall i | 0 <= i < |s| - 1 ensures !(s[i] == '\\' && s[i + 1] == 'n') {
        assert i > 0 ==> s[i] == rest[i - 1] && s[i + 1] == rest[i - 1 + 1];
      }
    }
    if NoEscape(s) {
      assert s[0] == c && (rest != "" ==> s[0 + 1] == rest[0]);
      forall i | 0 <= i < |rest| - 1 ensures !(rest[i] == '\\' && rest[i + 1] == 'n') {
        assert s[i + 1] == rest[i] && s[i + 2] == rest[i + 1];
      }
    }
  }

  lemma StartOfEscaped(t: string)
    ensures (Escaped(t) != "" && Escaped(t)[0] == 'n') <==> (t != "" && t[0] == 'n')
  {
  }

  lemma DoubledAfterEscaped(t: string)
    requires ESCAPED <= t
    ensures EscapesDoubled(t) <==> EscapesDoubled(t[3..])
  {
    var rest := t[3..];
    assert t[0] == '\\' && t[1] == '\\' && t[2] == 'n';
    assert forall i :: 0 <= i < |rest| ==> rest[i] == t[i + 3];
    if EscapesDoubled(t) {
      forall i | 0 <= i < |rest| - 1 && rest[i] == '\\' && rest[i + 1] == 'n' ensures i > 0 && rest[i - 1] == '\\' {
        assert t[i + 3] == '\\' && t[i + 3 + 1] == 'n';
      }
    }
  }

  lemma DoubledAfterOther(t: string)
    requires t != "" && !(ESCAPED <= t)
    ensures EscapesDoubled(t) <==> EscapesDoubled(t[1..]) && !(t[0] == '\\' && |t| > 1 && t[1] == 'n')
  {
    var rest := t[1..];
    assert forall i :: 0 <= i < |rest| ==> rest[i] == t[i + 1];
    assert |t| >= 3 && t[0] == '\\' && t[1] == '\\' ==> t[2] != 'n' by {
      if |t| >= 3 && t[0] == '\\' && t[1] == '\\' && t[2] == 'n' {
        assert false;
      }
    }
    if EscapesDoubled(t) {
      forall i | 0 <= i < |rest| - 1 && rest[i] == '\\' && rest[i + 1] == 'n' ensures i > 0 && rest[i - 1] == '\\' {
        assert t[i + 1] == '\\' && t[i + 1 + 1] == 'n';
      }
    }
  }

  /** Without an escape the text is one part, with one it is several. */
  lemma {:induction false} SplitAtEscapesExact(s: string)
    ensures if NoEscape(s) then SplitAtEscapes(s) == [s] else |SplitAtEscapes(s)| > 1
  {
    if s == "" {
    } else if ESCAPE <= s {
      assert s[0] == '\\' && s[1] == 'n';
    } else {
      SplitAtEscapesExact(s[1..]);
      assert s == [s[0]] + s[1..];
      OneMore(s[0], s[1..]);
      if s[0] == '\\' && s[1..] != "" && s[1] == 'n' {
        assert false;
      }
    }
  }

  /** Parts with an escape between them. */
  function JoinedByEscapes(parts: seq<string>): string
    requires parts != []
  {
    if |parts| == 1 then parts[0] else parts[0] + ESCAPE + JoinedByEscapes(parts[1..])
  }

  /** Joining the parts gives the text back, and no part has an escape. */
  lemma {:induction false} PartsOfText(s: string)
    ensures JoinedByEscapes(SplitAtEscapes(s)) == s
    ensures forall i :: 0 <= i < |SplitAtEscapes(s)| ==> NoEscape(SplitAtEscapes(s)[i])
  {
    var parts := SplitAtEscapes(s);
    if s == "" {
    } else if ESCAPE <= s {
      PartsOfText(s[2..]);
      assert parts[1..] == SplitAtEscapes(s[2..]) && s == ESCAPE + s[2..];
    } else {
      var rest := SplitAtEscapes(s[1..]);
      PartsOfText(s[1..]);
      assert parts == [[s[0]] + rest[0]] + rest[1..] && s == [s[0]] + s[1..];
      StartOfParts(s[1..]);
      assert rest[0] != "" && s[0] == '\\' ==> rest[0][0] != 'n';
      OneMore(s[0], rest[0]);
      hide SplitAtEscapes, NoEscape;
      LongerStart(s[0], rest);
    }
  }

  lemma LongerStart(c: char, parts: seq<string>)
    requires parts != []
    ensures JoinedByEscapes([[c] + parts[0]] + parts[1..]) == [c] + JoinedByEscapes(parts)
  {
    assert ([[c] + parts[0]] + parts[1..])[1..] == parts[1..];
  }

  lemma StartOfParts(s: string)
    ensures SplitAtEscapes(s)[0] != "" ==> s != "" && s[0] == SplitAtEscapes(s)[0][0]
  {
  }

  /** A text without an escape that is followed by one is the first part. */
  lemma {:induction false} SplitFirstEscape(a: string, b: string)
    requires NoEscape(a)
    ensures SplitAtEscapes(a + ESCAPE + b) == [a] + SplitAtEscapes(b)
  {
    var s := a + ESCAPE + b;
    if a == "" {
      assert s[2..] == b;
    } else {
      assert s[1..] == a[1..] + ESCAPE + b && a == [a[0]] + a[1..];
      assert !(ESCAPE <= s) by {
        assert s[0] == a[0] && s[1] == if |a| > 1 then a[1] else '\\';
      }
      OneMore(a[0], a[1..]);
      SplitFirstEscape(a[1..], b);
    }
  }

  lemma NoOccurrenceLater(pattern: string, s: string)
    requires s != "" && !Occurs(pattern, s)
    ensures !(pattern <= s) && !Occurs(pattern, s[1..])
  {
    assert s[0..] == s;
    forall i | 0 <= i <= |s[1..]| ensures !(pattern <= s[1..][i..]) {
      assert s[1..][i..] == s[i + 1..];
    }
  }

  /** Text without an occurrence of the pattern is not changed. */
  lemma {:induction false} ReplaceAllSame(s: string, from: string, to: string)
    requires from != "" && !Occurs(from, s)
    ensures ReplaceAll(s, from, to) == s
  {
    if s != "" {
      assert s == [s[0]] + s[1..];
      NoOccurrenceLater(from, s);
      ReplaceAllSame(s[1..], from, to);
    }
  }

  /** Titles that are safe on a line of the older format, in which escapes separate the lines. */
  ghost predicate Plain(t: Task) {
    && NoEscape(t.title) && OneLine(t) && !Occurs(PLACEHOLDER, t.title)
    && (t.title != "" ==> t.title[|t.title| - 1] != '\\')
  }

  function Lines(ts: seq<Task>): seq<string> {
    seq(|ts|, i requires 0 <= i < |ts| => Line(ts[i]))
  }

  lemma PlainLine(t: Task)
    requires Plain(t)
    ensures NoEscape(Line(t)) && '\n' !in Line(t) && Unescaped(Line(t)) == Line(t) && Escaped(Line(t)) == Line(t)
    ensures Line(t) != "" && Line(t)[0] != 'n' && Line(t)[|Line(t)| - 1] != '\\'
  {
    hide ReplaceAll, Occurs;
    var prefix := Prefix(t.completed);
    LineOfOne(t);
    NoEscapeAppend(prefix, t.title);
    ReplaceAllSkips(prefix, t.title, PLACEHOLDER, ESCAPED);
    UnescapedExact(t.title);
    ReplaceAllSkips(prefix, t.title, ESCAPED, PLACEHOLDER);
    NoDoubledEscape(t.title);
    ReplaceAllSame(t.title, ESCAPED, PLACEHOLDER);
  }

  lemma NoDoubledEscape(s: string)
    requires NoEscape(s)
    ensures !Occurs(ESCAPED, s)
  {
    forall i | 0 <= i <= |s| ensures !(ESCAPED <= s[i..]) {
      assert i < |s| - 2 ==> s[i..][1] == s[i + 1] && s[i..][2] == s[i + 1 + 1];
    }
  }

  /** A line that does not end in a backslash is not changed together with the escape that follows it. */
  lemma {:induction false} EscapedLine(a: string, b: string)
    requires !Occurs(ESCAPED, a) && (a != "" ==> a[|a| - 1] != '\\')
    requires b == "" || b[0] != 'n'
    ensures Escaped(a + ESCAPE + b) == a + ESCAPE + Escaped(b)
  {
    if a == "" {
      EscapeStays(b);
      assert a + ESCAPE + b == ESCAPE + b;
    } else {
      var s := a + ESCAPE + b;
      assert s[0] == a[0] && s[1..] == a[1..] + ESCAPE + b;
      NoOccurrenceLater(ESCAPED, a);
      hide Occurs;
      NoEscapedAtStart(a, b);
      EscapedLine(a[1..], b);
      assert Escaped(s) == [s[0]] + Escaped(s[1..]);
    }
  }

  lemma NoEscapedAtStart(a: string, b: string)
    requires a != "" && !(ESCAPED <= a) && a[|a| - 1] != '\\'
    ensures !(ESCAPED <= a + ESCAPE + b)
  {
    var s := a + ESCAPE + b;
    assert s[0] == a[0] && (|a| > 1 ==> s[1] == a[1]);
    assert |a| == 2 ==> s[2] == '\\';
  }

  lemma EscapeStays(b: string)
    ensures Escaped(ESCAPE + b) == ESCAPE + Escaped(b)
  {
    var s := ESCAPE + b;
    assert s[1..][1..] == b;
    assert Escaped(s) == [s[0]] + Escaped(s[1..]) && Escaped(s[1..]) == [s[1]] + Escaped(b);
  }

  lemma {:induction false} OldFormatSplits(ts: seq<Task>)
    requires ts != [] && forall i :: 0 <= i < |ts| ==> Plain(ts[i])
    ensures var text := JoinedByEscapes(Lines(ts));
      && Escaped(text) == text && SplitAtEscapes(text) == Lines(ts)
      && '\n' !in text && text != "" && text[0] != 'n'
  {
    hide ReplaceAll, SplitAtEscapes, Occurs, NoEscape, Plain, Line, Escaped;
    var line := Line(ts[0]);
    PlainLine(ts[0]);
    if |ts| == 1 {
      SplitAtEscapesExact(line);
    } else {
      var rest := JoinedByEscapes(Lines(ts[1..]));
      OldFormatSplits(ts[1..]);
      assert Lines(ts)[1..] == Lines(ts[1..]);
      SplitFirstEscape(line, rest);
      NoDoubledEscape(line);
      EscapedLine(line, rest);
    }
  }

  /** Text of the older format reads back to its tasks when their titles are plain. */
  lemma OldFormatRead(ts: seq<Task>)
    requires ts != [] && forall i :: 0 <= i < |ts| ==> Plain(ts[i])
    ensures Read(JoinedByEscapes(Lines(ts))) == Tasks(ts)
  {
    OldFormatSplits(ts);
    var text := JoinedByEscapes(Lines(ts));
    forall i | 0 <= i < |ts| ensures Unescaped(Lines(ts)[i]) == Lines(ts)[i] && TaskOf(Lines(ts)[i]) == Some(ts[i]) {
      PlainLine(ts[i]);
      LineRead(ts[i]);
    }
    assert Restored(Lines(ts)) == Lines(ts);
    TasksOfEach(TaskTexts(text), ts);
  }

  // ---- Reading undoes printing

  /** The titles that survive: one line each and, for a lone task, no placeholder and only doubled escapes. */
  ghost predicate Clean(ts: seq<Task>) {
    && ts != []
    && (forall i :: 0 <= i < |ts| ==> OneLine(ts[i]))
    && (|ts| == 1 ==> !Occurs(PLACEHOLDER, ts[0].title) && EscapesDoubled(ts[0].title))
  }

  /** One task is read through the escapes: its title is restored, or it falls apart. */
  lemma SingleRead(t: Task)
    requires OneLine(t)
    ensures var r := Read(Printed([t]));
      if EscapesDoubled(t.title) then r == Tasks([t.(title := Unescaped(t.title))]) else r.Tasks? ==> |r.tasks| > 1
  {
    var prefix := Prefix(t.completed);
    var line := Line(t);
    LineOfOne(t);
    ReplaceAllSkips(prefix, t.title, ESCAPED, PLACEHOLDER);
    NoEscapeAppend(prefix, Escaped(t.title));
    EscapesLeft(t.title);
    SplitAtEscapesExact(Escaped(line));
    TasksOfCount(TaskTexts(line));
    if EscapesDoubled(t.title) {
      ReplaceAllSkips(prefix, Escaped(t.title), PLACEHOLDER, ESCAPED);
      UnescapedEscaped(t.title);
      var back := t.(title := Unescaped(t.title));
      assert Unescaped(Escaped(line)) == Line(back);
      LineRead(back);
      TasksOfEach([Line(back)], [back]);
      assert TaskTexts(line) == [Line(back)];
    }
  }

  lemma SingleRoundTrip(t: Task)
    ensures var r := Read(Printed([t]));
      if Clean([t]) then r == Tasks([t]) else r.Tasks? ==> multiset(r.tasks) != multiset{t}
  {
    var text := Line(t);
    LineOfOne(t);
    if OneLine(t) {
      SingleRead(t);
      UnescapedExact(t.title);
      var r := Read(text);
      if EscapesDoubled(t.title) && Unescaped(t.title) != t.title {
        assert r.tasks[0] in multiset(r.tasks);
      } else if r.Tasks? && multiset(r.tasks) == multiset{t} {
        assert |multiset(r.tasks)| == 1;
      }
    } else {
      PrintedCount([t]);
      SplitCount(text, '\n');
      TasksOfCount(TaskTexts(text));
      var r := Read(text);
      if r.Tasks? && multiset(r.tasks) == multiset{t} {
        assert false;
      }
    }
  }

  /** A lone title that is the placeholder comes back as what the placeholder stands for. */
  lemma LonePlaceholderChanged(t: Task)
    requires t.title == PLACEHOLDER
    ensures Read(Printed([t])) == Tasks([t.(title := ESCAPED)])
  {
    PlaceholderPlain();
    UnescapedPlaceholder();
    assert OneLine(t);
    hide *;
    SingleRead(t);
  }

  lemma PlaceholderPlain()
    ensures EscapesDoubled(PLACEHOLDER) && '\n' !in PLACEHOLDER
  {
    assert '\\' !in PLACEHOLDER;
  }

  lemma UnescapedPlaceholder()
    ensures Unescaped(PLACEHOLDER) == ESCAPED
  {
    Restores("");
    assert PLACEHOLDER + "" == PLACEHOLDER && ESCAPED + "" == ESCAPED;
  }

  /** A lone title that is an escape is lost. */
  lemma LoneEscapeLost(t: Task)
    requires t.title == ESCAPE
    ensures Read(Printed([t])) != Tasks([t])
  {
    hide ReplaceAll, Read, Printed, TaskOf, TasksOf;
    assert t.title[0] == '\\' && t.title[0 + 1] == 'n';
    SingleRead(t);
  }

  lemma SeveralRead(ts: seq<Task>)
    requires |ts| > 1
    ensures var r := Read(Printed(ts));
      if forall i :: 0 <= i < |ts| ==> OneLine(ts[i]) then r == Tasks(ts) else r.Tasks? ==> |r.tasks| > |ts|
  {
    var text := Printed(ts);
    assert '\n' in text by {
      assert text[|Line(ts[0])|] == '\n';
    }
    PrintedCount(ts);
    SplitCount(text, '\n');
    TasksOfCount(TaskTexts(text));
    if forall i :: 0 <= i < |ts| ==> OneLine(ts[i]) {
      PrintedSplits(ts);
      forall i | 0 <= i < |ts| ensures TaskOf(TaskTexts(text)[i]) == Some(ts[i]) {
        LineRead(ts[i]);
      }
      TasksOfEach(TaskTexts(text), ts);
    }
  }

  lemma NothingRead()
    ensures Read(Printed([])) == MissingContent
  {
  }

  lemma SameLines(a: seq<Task>, b: seq<Task>)
    requires multiset(a) == multiset(b)
    ensures (forall i :: 0 <= i < |a| ==> OneLine(a[i])) <==> (forall i :: 0 <= i < |b| ==> OneLine(b[i]))
  {
    assert forall i :: 0 <= i < |a| ==> a[i] in multiset(a);
    assert forall i :: 0 <= i < |b| ==> b[i] in multiset(b);
    assert forall i :: 0 <= i < |a| ==> a[i] in b;
    assert forall i :: 0 <= i < |b| ==> b[i] in a;
  }

  lemma SameTasks(a: seq<Task>, b: seq<Task>)
    requires multiset(a) == multiset(b)
    ensures |a| == |b| && (|a| == 1 ==> a == b)
  {
    assert |multiset(a)| == |multiset(b)|;
    if |a| == 1 {
      assert a[0] in multiset(b);
    }
  }

  /**
   Whatever the sort does with equal tasks, reading what was printed gives the same tasks
   exactly when the titles are clean, and then in the order they were printed.
   */
  lemma RoundTripExact(ts: seq<Task>, printed: seq<Task>)
    requires IsSorting(ts, printed)
    ensures var r := Read(Printed(printed));
      && (Clean(ts) <==> r.Tasks? && multiset(r.tasks) == multiset(ts))
      && (Clean(ts) ==> r == Tasks(printed))
  {
    var r := Read(Printed(printed));
    hide Read, Printed, Occurs, EscapesDoubled, OneLine;
    SameTasks(ts, printed);
    if r.Tasks? && multiset(r.tasks) == multiset(ts) {
      SameTasks(r.tasks, ts);
    }
    if ts == [] {
      NothingRead();
    } else if |ts| == 1 {
      assert ts == [ts[0]];
      SingleRoundTrip(ts[0]);
    } else {
      SameLines(ts, printed);
      SeveralRead(printed);
    }
  }

  /** What the whole trip does to a list: nothing but sort it, exactly when its titles are clean. */
  method PrintAndRead(tasks: array<Task>) returns (r: Reading)
    modifies tasks
    ensures Clean(old(tasks[..])) <==> r.Tasks? && IsSorting(old(tasks[..]), r.tasks)
  {
    ghost var ts := tasks[..];
    var text := TasksToNoteText(tasks);
    RoundTripExact(ts, tasks[..]);
    r := NoteTextToTasks(text);
  }
}
