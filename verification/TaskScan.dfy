/** parseOpenSpecTasksMarkdown (shared/openspec-auto-deliver-validators.ts:80-115): task list items
    of a Markdown text, fenced code blocks skipped. */
module TaskScan {
  import opened Wrappers
  import opened Text

  datatype Task = Task(checked: bool, text: string)
  datatype Item = Item(line: nat, task: Task)

  /** The fence automaton: inside a block opened by this character, or outside. */
  datatype Fence = Outside | Inside(marker: char)

  /** /^\s*(```+|~~~+)/, reduced to the fence character */
  function FenceOf(line: string): Option<char> {
    FenceHead(TrimStart(line))
  }

  function FenceHead(t: string): Option<char> {
    if |t| >= 3 && (t[0] == '`' || t[0] == '~') && t[1] == t[0] && t[2] == t[0] then Some(t[0]) else None
  }

  predicate LineTerminator(c: char) {
    c == '\n' || c == '\r' || c == '\U{2028}' || c == '\U{2029}'
  }

  /** /^\s*-\s+\[([ xX])\]\s+(.*)$/ with the label trimmed */
  function TaskOf(line: string): Option<Task> {
    AtDash(TrimStart(line))
  }

  function AtDash(t: string): Option<Task> {
    if t == "" || t[0] != '-' then None else AfterDash(t[1..])
  }

  function AfterDash(u: string): Option<Task> {
    if u == "" || !IsSpace(u[0]) then None else AtBox(TrimStart(u))
  }

  function AtBox(v: string): Option<Task> {
    if |v| < 3 || v[0] != '[' || v[2] != ']' || !(v[1] == ' ' || v[1] == 'x' || v[1] == 'X') then None
    else AfterBox(v[1] != ' ', v[3..])
  }

  function AfterBox(checked: bool, w: string): Option<Task> {
    if w == "" || !IsSpace(w[0]) || exists c :: c in TrimStart(w) && LineTerminator(c) then None
    else Some(Task(checked, Trim(TrimStart(w))))
  }

  /** What the scan makes of one line, whatever came before it. */
  datatype Reading = FenceLine(marker: char) | TaskLine(task: Task) | OtherLine

  function ReadLine(line: string): Reading {
    if FenceOf(line).Some? then FenceLine(FenceOf(line).value)
    else if TaskOf(line).Some? then TaskLine(TaskOf(line).value)
    else OtherLine
  }

  function Map<T, U>(f: T -> U, s: seq<T>): (r: seq<U>)
    ensures |r| == |s| && forall i :: 0 <= i < |r| ==> r[i] == f(s[i])
  {
    seq(|s|, i requires 0 <= i < |s| => f(s[i]))
  }

  function ReadLines(lines: seq<string>): seq<Reading> {
    Map(ReadLine, lines)
  }

  function Next(f: Fence, r: Reading): Fence {
    if !r.FenceLine? then f
    else if f.Outside? then Inside(r.marker)
    else if r.marker == f.marker then Outside
    else f
  }

  function After(f: Fence, lines: seq<Reading>): Fence
    decreases lines
  {
    if lines == [] then f else After(Next(f, lines[0]), lines[1..])
  }

  /** The item of one line, if it has one. */
  function ItemAt(f: Fence, r: Reading, number: nat): seq<Item> {
    if f.Outside? && r.TaskLine? then [Item(number, r.task)] else []
  }

  function Items(f: Fence, lines: seq<Reading>, first: nat): seq<Item>
    decreases lines
  {
    if lines == [] then []
    else ItemAt(f, lines[0], first) + Items(Next(f, lines[0]), lines[1..], first + 1)
  }

  function Lines(markdown: string): seq<Reading> {
    ReadLines(SplitLines(markdown))
  }

  function ItemsOf(markdown: string): seq<Item> {
    Items(Outside, Lines(markdown), 1)
  }

  function CountChecked(items: seq<Item>): (n: nat)
    ensures n <= |items|
  {
    if items == [] then 0 else (if items[0].task.checked then 1 else 0) + CountChecked(items[1..])
  }

  /** Where the checked items are. */
  ghost function CheckedPlaces(items: seq<Item>): set<nat> {
    set i: nat | i < |items| && items[i].task.checked
  }

  lemma {:induction false} CountLast(items: seq<Item>, last: Item)
    ensures CountChecked(items + [last]) == CountChecked(items) + if last.task.checked then 1 else 0
  {
    if items == [] {
      assert items + [last] == [last] && [last][1..] == [];
    } else {
      assert (items + [last])[1..] == items[1..] + [last] && (items + [last])[0] == items[0];
      CountLast(items[1..], last);
    }
  }

  lemma {:induction false} CountsPlaces(items: seq<Item>)
    ensures CountChecked(items) == |CheckedPlaces(items)|
  {
    if items == [] {
      assert CheckedPlaces(items) == {};
    } else {
      var last := |items| - 1;
      CountsPlaces(items[..last]);
      CountLast(items[..last], items[last]);
      assert items == items[..last] + [items[last]];
      PlacesLast(items, last);
    }
  }

  lemma {:induction false} PlacesLast(items: seq<Item>, last: nat)
    requires last + 1 == |items|
    ensures CheckedPlaces(items) == CheckedPlaces(items[..last]) + (if items[last].task.checked then {last} else {})
    ensures last !in CheckedPlaces(items[..last])
  {
  }

  datatype Stats = Stats(total: nat, checked: nat, unchecked: int, items: seq<Item>)

  function State(inFence: bool, fenceMarker: char): Fence {
    if inFence then Inside(fenceMarker) else Outside
  }

  lemma {:induction false} ItemsStep(found: seq<Item>, f: Fence, lines: seq<Reading>, k: nat)
    requires k < |lines|
    ensures found + Items(f, lines[k..], k + 1)
            == found + ItemAt(f, lines[k], k + 1) + Items(Next(f, lines[k]), lines[k + 1..], k + 2)
  {
    assert lines[k..][0] == lines[k] && lines[k..][1..] == lines[k + 1..];
  }

  /** The scan, with inFence and fenceMarker updated line by line. */
  method ScanLines(readings: seq<Reading>) returns (items: seq<Item>)
    ensures items == Items(Outside, readings, 1)
  {
    items := [];
    var inFence, fenceMarker := false, ' ';
    var index := 0;
    assert readings[0..] == readings;
    while index < |readings|
      invariant 0 <= index <= |readings|
      invariant Items(Outside, readings, 1) == items + Items(State(inFence, fenceMarker), readings[index..], index + 1)
    {
      ghost var before, found := State(inFence, fenceMarker), items;
      ItemsStep(found, before, readings, index);
      match readings[index] {
      case FenceLine(marker) =>
        if !inFence {
          inFence, fenceMarker := true, marker;
        } else if marker == fenceMarker {
          inFence := false;
        }
      case TaskLine(task) =>
        if !inFence {
          items := items + [Item(index + 1, task)];
        }
      case OtherLine =>
      }
      assert State(inFence, fenceMarker) == Next(before, readings[index]);
      assert items == found + ItemAt(before, readings[index], index + 1);
      index := index + 1;
    }
  }

  method Parse(markdown: string) returns (r: Stats)
    ensures r.items == ItemsOf(markdown) && r.total == |r.items|
    ensures r.checked == |CheckedPlaces(r.items)| && r.checked + r.unchecked == r.total && r.unchecked >= 0
  {
    var items := ScanLines(Lines(markdown));
    var checked := CountChecked(items);
    CountsPlaces(items);
    r := Stats(|items|, checked, |items| - checked, items);
  }

  // ---------------------------------------------------------------- exactly the open task lines

  /** A line yields an item exactly when it is a task line and the automaton is outside a fence
      when it gets there. */
  lemma {:induction false} ItemsExactly(f: Fence, lines: seq<Reading>, first: nat, item: Item)
    ensures item in Items(f, lines, first)
            <==> && first <= item.line < first + |lines|
                 && After(f, lines[..item.line - first]).Outside? && lines[item.line - first] == TaskLine(item.task)
    decreases lines
  {
    if lines != [] {
      ItemsExactly(Next(f, lines[0]), lines[1..], first + 1, item);
      if first < item.line < first + |lines| {
        var k := item.line - first;
        assert lines[..k][0] == lines[0] && lines[..k][1..] == lines[1..][..k - 1];
      }
    }
  }

  ghost predicate Increasing(items: seq<Item>, first: nat) {
    && (forall i :: 0 <= i < |items| ==> first <= items[i].line)
    && forall i, j :: 0 <= i < j < |items| ==> items[i].line < items[j].line
  }

  /** Line numbers strictly increase. */
  lemma {:induction false} LinesIncrease(f: Fence, lines: seq<Reading>, first: nat)
    ensures Increasing(Items(f, lines, first), first)
    decreases lines
  {
    if lines != [] {
      LinesIncrease(Next(f, lines[0]), lines[1..], first + 1);
      OneMoreIncreases(ItemAt(f, lines[0], first), Items(Next(f, lines[0]), lines[1..], first + 1), first);
    }
  }

  lemma {:induction false} OneMoreIncreases(head: seq<Item>, tail: seq<Item>, first: nat)
    requires |head| <= 1 && (head != [] ==> head[0].line == first) && Increasing(tail, first + 1)
    ensures Increasing(head + tail, first)
  {
  }

  // ---------------------------------------------------------------- composition

  function Shift(items: seq<Item>, offset: nat): (r: seq<Item>)
    ensures |r| == |items| && forall i :: 0 <= i < |r| ==> r[i] == Item(items[i].line + offset, items[i].task)
  {
    seq(|items|, i requires 0 <= i < |items| => Item(items[i].line + offset, items[i].task))
  }

  lemma {:induction false} ItemsConcat(f: Fence, s: seq<Reading>, t: seq<Reading>, first: nat)
    ensures Items(f, s + t, first) == Items(f, s, first) + Items(After(f, s), t, first + |s|)
    ensures After(f, s + t) == After(After(f, s), t)
    decreases s
  {
    if s == [] {
      assert s + t == t;
    } else {
      ItemsConcat(Next(f, s[0]), s[1..], t, first + 1);
      HeadAndRest(s, t);
      Reassociate(ItemAt(f, s[0], first), Items(Next(f, s[0]), s[1..], first + 1), Items(After(f, s), t, first + |s|));
    }
  }

  lemma {:induction false} HeadAndRest<T>(s: seq<T>, t: seq<T>)
    requires s != []
    ensures s + t != [] && (s + t)[0] == s[0] && (s + t)[1..] == s[1..] + t
  {
  }

  lemma {:induction false} ItemsShift(f: Fence, lines: seq<Reading>, first: nat, offset: nat)
    ensures Items(f, lines, first + offset) == Shift(Items(f, lines, first), offset)
    decreases lines
  {
    if lines != [] {
      ItemsShift(Next(f, lines[0]), lines[1..], first + 1, offset);
      ItemShifts(f, lines[0], first, offset);
      ShiftConcat(ItemAt(f, lines[0], first), Items(Next(f, lines[0]), lines[1..], first + 1), offset);
    }
  }

  lemma {:induction false} ItemShifts(f: Fence, line: Reading, first: nat, offset: nat)
    ensures ItemAt(f, line, first + offset) == Shift(ItemAt(f, line, first), offset)
  {
  }

  lemma {:induction false} ShiftConcat(s: seq<Item>, t: seq<Item>, offset: nat)
    ensures Shift(s + t, offset) == Shift(s, offset) + Shift(t, offset)
  {
  }

  function LastLine(a: string): string {
    SplitLines(a)[|SplitLines(a)| - 1]
  }

  /** Ending a text with a newline chops a carriage return off its last line. */
  lemma {:induction false} SplitEnded(a: string)
    ensures SplitLines(a + "\n") == Ended(SplitLines(a))
    decreases |a|
  {
    if LineEnd(a) == |a| {
      OnlyLineEnded(a);
    } else {
      SplitEnded(a[LineEnd(a) + 1..]);
      EndedStep(a, a[LineEnd(a) + 1..]);
    }
  }

  /** The lines when a newline ends the last one. */
  function Ended(lines: seq<string>): seq<string>
    requires lines != []
  {
    lines[..|lines| - 1] + [ChopReturn(lines[|lines| - 1]), ""]
  }

  lemma {:induction false} EndedStep(a: string, rest: string)
    requires LineEnd(a) < |a| && rest == a[LineEnd(a) + 1..] && SplitLines(rest + "\n") == Ended(SplitLines(rest))
    ensures SplitLines(a + "\n") == Ended(SplitLines(a))
  {
    FirstLineKept(a, "\n");
    FirstLineAlone(a);
    PrependEnded(FirstLine(a), SplitLines(rest));
  }

  lemma {:induction false} PrependEnded(head: string, lines: seq<string>)
    requires lines != []
    ensures [head] + Ended(lines) == Ended([head] + lines)
  {
  }

  lemma {:induction false} OnlyLineEnded(a: string)
    requires LineEnd(a) == |a|
    ensures SplitLines(a) == [a] && SplitLines(a + "\n") == Ended([a])
  {
    NoNewline(a);
    OnlyLineAndRest(a, a + "\n");
  }

  lemma {:induction false} OnlyLineAndRest(a: string, t: string)
    requires LineEnd(a) == |a| == LineEnd(t) < |t| == |a| + 1 && t[..|a|] == a
    ensures SplitLines(a) == [a] && SplitLines(t) == [ChopReturn(a), ""]
  {
    FirstLineAlone(t);
    assert t[|a| + 1..] == "";
  }

  lemma {:induction false} NoNewline(a: string)
    requires LineEnd(a) == |a|
    ensures LineEnd(a + "\n") == |a|
  {
    if a != "" {
      assert (a + "\n")[1..] == a[1..] + "\n";
      NoNewline(a[1..]);
    }
  }

  /** The lines of a, newline, b: those of a, the last one chopped, then those of b. */
  lemma {:induction false} JoinedLines(a: string, b: string)
    ensures var lines := SplitLines(a);
            SplitLines(a + "\n" + b) == lines[..|lines| - 1] + [ChopReturn(LastLine(a))] + SplitLines(b)
  {
    var lines, ended := SplitLines(a), SplitLines(a + "\n");
    SplitEnded(a);
    SplitConcat(a + "\n", b);
    assert ended[..|ended| - 1] == lines[..|lines| - 1] + [ChopReturn(LastLine(a))];
  }

  /** What comes after the first character that trimming keeps does not matter to it. */
  lemma {:induction false} TrimStartConcat(x: string, y: string)
    ensures TrimStart(x + y) == if TrimStart(x) == "" then TrimStart(y) else TrimStart(x) + y
  {
    if x == "" {
      assert x + y == y;
    } else {
      TrimStartCons(x, y);
      if IsSpace(x[0]) {
        TrimStartConcat(x[1..], y);
      }
    }
  }

  lemma {:induction false} TrimStartCons(x: string, y: string)
    requires x != ""
    ensures TrimStart(x + y) == if IsSpace(x[0]) then TrimStart(x[1..] + y) else x + y
    ensures TrimStart(x) == if IsSpace(x[0]) then TrimStart(x[1..]) else x
  {
    assert (x + y)[1..] == x[1..] + y;
  }

  lemma {:induction false} FenceHeadReturn(t: string)
    ensures FenceHead(t + "\r") == FenceHead(t)
  {
    var u := t + "\r";
    assert forall i :: 0 <= i < |t| ==> u[i] == t[i];
    assert u[|t|] == '\r';
  }

  lemma {:induction false} FenceOfTrimmed(t: string, u: string)
    requires TrimStart(u) == (if TrimStart(t) == "" then "" else TrimStart(t) + "\r")
    ensures FenceOf(u) == FenceOf(t)
  {
    FenceHeadReturn(TrimStart(t));
  }

  /** The automaton does not notice a chopped carriage return. */
  lemma {:induction false} FenceIgnoresReturn(line: string)
    ensures FenceOf(ChopReturn(line)) == FenceOf(line)
  {
    if line != "" && line[|line| - 1] == '\r' {
      assert line == line[..|line| - 1] + "\r";
      TrimStartReturn(line[..|line| - 1]);
      FenceOfTrimmed(line[..|line| - 1], line);
    }
  }

  lemma {:induction false} TrimStartReturn(x: string)
    ensures TrimStart(x + "\r") == if TrimStart(x) == "" then "" else TrimStart(x) + "\r"
  {
    TrimStartConcat(x, "\r");
    ReturnIsTrimmed("\r");
  }

  lemma {:induction false} ReturnIsTrimmed(end: string)
    requires |end| == 1 && end[0] == '\r'
    ensures TrimStart(end) == ""
  {
    assert end[1..] == "";
  }

  /** The last line of a reads the same with and without its carriage return. */
  predicate EndsCleanly(a: string) {
    ReadLine(LastLine(a)) == ReadLine(ChopReturn(LastLine(a)))
  }

  lemma {:induction false} JoinedReadings(a: string, b: string)
    ensures var lines := Lines(a);
            && Lines(a + "\n" + b) == lines[..|lines| - 1] + [ReadLine(ChopReturn(LastLine(a)))] + Lines(b)
            && lines == lines[..|lines| - 1] + [ReadLine(LastLine(a))]
  {
    JoinedLines(a, b);
    MapJoined(ReadLine, SplitLines(a), ChopReturn(LastLine(a)), SplitLines(b));
  }

  lemma {:induction false} MapJoined<T, U>(f: T -> U, lines: seq<T>, chopped: T, more: seq<T>)
    requires lines != []
    ensures var n := |lines| - 1;
            && Map(f, lines[..n] + [chopped] + more) == Map(f, lines)[..n] + [f(chopped)] + Map(f, more)
            && Map(f, lines) == Map(f, lines)[..n] + [f(lines[n])]
  {
  }

  lemma {:induction false} LastItems(f: Fence, last: Reading, chopped: Reading, n: nat)
    requires Next(f, last).Outside? && (last.FenceLine? || chopped.FenceLine? ==> last == chopped)
    ensures ItemAt(f, chopped, n) == ItemAt(f, last, n) <==> last == chopped
    ensures Next(f, chopped).Outside?
  {
    var x, y := ItemAt(f, chopped, n), ItemAt(f, last, n);
    if x == y && x != [] {
      assert x[0] == y[0];
    }
  }

  lemma {:induction false} LastStep(f: Fence, init: seq<Reading>, last: Reading, first: nat)
    ensures Items(f, init + [last], first) == Items(f, init, first) + ItemAt(After(f, init), last, first + |init|)
    ensures After(f, init + [last]) == Next(After(f, init), last)
  {
    ItemsConcat(f, init, [last], first);
    assert [last][1..] == [];
    assert Items(After(f, init), [last], first + |init|) == ItemAt(After(f, init), last, first + |init|) + [];
  }

  /** Changing the last line of the first part changes the items unless it reads the same. */
  lemma {:induction false} ComposeReadings(init: seq<Reading>, last: Reading, chopped: Reading, tail: seq<Reading>)
    requires After(Outside, init + [last]).Outside? && (last.FenceLine? || chopped.FenceLine? ==> last == chopped)
    ensures var whole := Items(Outside, init + [chopped] + tail, 1);
            whole == Items(Outside, init + [last], 1) + Shift(Items(Outside, tail, 1), |init| + 1) <==> last == chopped
  {
    var f, n := After(Outside, init), |init| + 1;
    LastStep(Outside, init, last, 1);
    LastStep(Outside, init, chopped, 1);
    LastItems(f, last, chopped, n);
    ItemsConcat(Outside, init + [chopped], tail, 1);
    ItemsShift(Outside, tail, 1, n);
    SameMiddle(Items(Outside, init, 1), ItemAt(f, chopped, n), ItemAt(f, last, n), Items(Outside, tail, n + 1));
  }

  /** The scan is compositional: if the automaton is outside a fence after a, the items of a,
      newline, b are those of a followed by those of b shifted by a's line count - exactly when a
      carriage return at the end of a does not decide what its last line is. */
  lemma {:induction false} ScanIsCompositionalIff(a: string, b: string)
    requires After(Outside, Lines(a)).Outside?
    ensures ItemsOf(a + "\n" + b) == ItemsOf(a) + Shift(ItemsOf(b), |SplitLines(a)|) <==> EndsCleanly(a)
  {
    var lines := Lines(a);
    JoinedReadings(a, b);
    FenceIgnoresReturn(LastLine(a));
    ComposeReadings(lines[..|lines| - 1], ReadLine(LastLine(a)), ReadLine(ChopReturn(LastLine(a))), Lines(b));
  }

  /** In particular when a does not end in a carriage return. */
  lemma {:induction false} ScanIsCompositional(a: string, b: string)
    requires After(Outside, Lines(a)).Outside? && (a != "" ==> a[|a| - 1] != '\r')
    ensures ItemsOf(a + "\n" + b) == ItemsOf(a) + Shift(ItemsOf(b), |SplitLines(a)|)
  {
    LastLineEnds(a);
    ScanIsCompositionalIff(a, b);
  }

  lemma {:induction false} LastLineEnds(a: string)
    ensures LastLine(a) == "" || (a != "" && LastLine(a)[|LastLine(a)| - 1] == a[|a| - 1])
    decreases |a|
  {
    if LineEnd(a) < |a| {
      LastLineEnds(a[LineEnd(a) + 1..]);
    }
  }

  /** It can matter: an open task followed by a lone carriage return is no task, but becomes one
      when a newline comes after it. */
  lemma {:induction false} ReturnCanMatter(text: string)
    requires text != "" && !IsSpace(text[0]) && NoTerminator(text)
    ensures var a := "- [ ] " + (text + "\r"); After(Outside, Lines(a)).Outside? && !EndsCleanly(a)
  {
    var a := "- [ ] " + (text + "\r");
    ReturnTexts(text);
    PlainLine(a);
    OnlyLine(a);
    DashLineReads(text + "\r");
    DashLineReads(text);
    MapOne(ReadLine, a);
    OneReading(ReadLine(a));
  }

  lemma {:induction false} ReturnTexts(text: string)
    requires text != "" && NoTerminator(text)
    ensures var a := "- [ ] " + (text + "\r");
            '\n' !in a && ChopReturn(a) == "- [ ] " + text && !NoTerminator(text + "\r") && (text + "\r")[0] == text[0]
  {
    var a := "- [ ] " + (text + "\r");
    assert a == ("- [ ] " + text) + "\r";
    assert (text + "\r")[|text|] == '\r' && '\r' in text + "\r" && LineTerminator('\r');
  }

  lemma {:induction false} OnlyLine(a: string)
    requires LineEnd(a) == |a|
    ensures SplitLines(a) == [a]
  {
  }

  lemma {:induction false} MapOne<T, U>(f: T -> U, x: T)
    ensures Map(f, [x]) == [f(x)]
  {
  }

  lemma {:induction false} OneReading(r: Reading)
    requires r.OtherLine?
    ensures After(Outside, [r]).Outside?
  {
    assert [r][1..] == [];
  }

  lemma {:induction false} PlainLine(a: string)
    requires '\n' !in a
    ensures LineEnd(a) == |a|
  {
    if a != "" {
      PlainLine(a[1..]);
    }
  }

  predicate NoTerminator(text: string) {
    forall c :: c in text ==> !LineTerminator(c)
  }

  lemma {:induction false} BoxLine(text: string)
    requires text != "" && !IsSpace(text[0])
    ensures AfterBox(false, " " + text) == if NoTerminator(text) then Some(Task(false, Trim(text))) else None
  {
    assert (" " + text)[1..] == text;
    assert TrimStart(" " + text) == text;
  }

  lemma {:induction false} DashLine(text: string)
    ensures AfterDash(" [ ] " + text) == AfterBox(false, " " + text)
  {
    BoxText(text);
    TrimOneSpace("[ ] " + text);
    OpenBox("[ ] " + text);
  }

  lemma {:induction false} BoxText(text: string)
    ensures var v := "[ ] " + text;
            && " [ ] " + text == " " + v && v[3..] == " " + text
            && v[0] == '[' && v[1] == ' ' && v[2] == ']'
  {
  }

  lemma {:induction false} OpenBox(v: string)
    requires |v| >= 3 && v[0] == '[' && v[1] == ' ' && v[2] == ']' && TrimStart(" " + v) == v
    ensures AfterDash(" " + v) == AfterBox(false, v[3..])
  {
  }

  lemma {:induction false} TrimOneSpace(v: string)
    requires v != "" && !IsSpace(v[0])
    ensures TrimStart(" " + v) == v && TrimStart(v) == v
  {
    assert (" " + v)[1..] == v;
  }

  /** A line that starts with a dash opens no fence. */
  lemma {:induction false} DashHead(line: string, u: string)
    requires line == "-" + u && TrimStart(line) == line
    ensures FenceOf(line).None? && TaskOf(line) == AfterDash(u)
  {
    assert line[0] == '-' && line[1..] == u;
  }

  lemma {:induction false} DashLineReads(text: string)
    requires text != "" && !IsSpace(text[0])
    ensures ReadLine("- [ ] " + text) == if NoTerminator(text) then TaskLine(Task(false, Trim(text))) else OtherLine
  {
    var line, u := "- [ ] " + text, " [ ] " + text;
    assert line == "-" + u;
    TrimOneSpace(line);
    DashHead(line, u);
    DashLine(text);
    BoxLine(text);
  }
}
