/** The MIB reader of experimental/sysmib.py (`MIB.read_file` and its nested
    helpers `number`, `refinesyntax`, `findlist`, `read_string_end` and
    `parseOID`). The file is the list of its lines as `readlines` gives them
    (each with its line end); opening and reading the file is not part of
    the model.

    The regular expressions of the source are restated as character scans:
    `\d+` (first digit run), `(?<={)[^}]*` and `(?<=")[^"]*` (the text after
    the first `{` or `"` up to the next `}` or `"`), and `{([^"]*)}`.

    `LineStep` is the effect of one iteration of the reading loop and `Run`
    the effect of the first `k` iterations; an IndexError raised by a helper
    ends the run as `Crashed`. Methods `SysMib.Mib.ReadLine` and
    `SysMib.Mib.ReadFile` are proved against them. */
module MibParse {
  import opened Wrappers
  import opened Text
  import opened MibRecords
  import opened MibRegistry

  // ---------------------------------------------------------------------
  // number, refinesyntax, parseOID

  /** The index of the first digit of `s`, if any. */
  function FirstDigit(s: string): (r: Option<nat>)
    ensures r.None? <==> forall i :: 0 <= i < |s| ==> !IsDigit(s[i])
    ensures r.Some? ==> r.value < |s| && IsDigit(s[r.value])
    ensures r.Some? ==> forall j :: 0 <= j < r.value ==> !IsDigit(s[j])
  {
    if |s| == 0 then None
    else if IsDigit(s[0]) then Some(0)
    else
      match FirstDigit(s[1..])
      case None => None
      case Some(i) => Some(i + 1)
  }

  /** `number(string)`: the value of the first run of digits, or None where
      `re.findall(r'\d+', ...)[0]` raises. */
  function Number(s: string): (r: Option<nat>)
    ensures r.None? <==> forall i :: 0 <= i < |s| ==> !IsDigit(s[i])
  {
    match FirstDigit(s)
    case None => None
    case Some(i) => Some(DigitsValue(DigitPrefix(s[i..])))
  }

  /** The fifteen spaces `refinesyntax` splits on. */
  const SyntaxGap: string := "               "

  /** `refinesyntax(line)`: the last piece of `line.split(SyntaxGap)`. */
  function RefineSyntax(line: string): (r: string)
  {
    var parts := Split(line, SyntaxGap);
    parts[|parts| - 1]
  }

  /** The text of `s` after its first `c`, or None when `c` is absent. */
  function AfterFirst(s: string, c: char): (r: Option<string>)
    ensures r.Some? <==> c in s
    ensures r.Some? ==> exists i :: 0 <= i < |s| && s[i] == c && c !in s[..i] && r.value == s[i + 1..]
  {
    if |s| == 0 then None
    else if s[0] == c then
      assert s[..0] == [];
      Some(s[1..])
    else
      var r := AfterFirst(s[1..], c);
      if r.Some? then
        var i :| 0 <= i < |s[1..]| && s[1..][i] == c && c !in s[1..][..i] && r.value == s[1..][i + 1..];
        assert s[..i + 1] == [s[0]] + s[1..][..i];
        assert s[i + 2..] == s[1..][i + 1..];
        r
      else
        assert s == [s[0]] + s[1..];
        r
  }

  /** The longest prefix of `s` without `c` (`[^c]*` from the start). */
  function UpTo(s: string, c: char): (r: string)
    ensures r <= s && c !in r
    ensures |r| < |s| ==> s[|r|] == c
  {
    if |s| == 0 || s[0] == c then "" else [s[0]] + UpTo(s[1..], c)
  }

  /** `re.findall(r'(?<={)[^}]*', s)[0]`: the text after the first `{` up
      to the next `}`; None where the list is empty. */
  function BraceText(s: string): Option<string>
  {
    match AfterFirst(s, '{')
    case None => None
    case Some(t) => Some(UpTo(t, '}'))
  }

  /** `re.findall(r'(?<=")[^"]*', s)[0]`: the text after the first `"` up
      to the next `"`; None where the list is empty. */
  function QuotedText(s: string): Option<string>
  {
    match AfterFirst(s, '"')
    case None => None
    case Some(t) => Some(UpTo(t, '"'))
  }

  /** The index of the last `c` in `s`. */
  function LastIndex(s: string, c: char): (k: nat)
    requires c in s
    ensures k < |s| && s[k] == c && c !in s[k + 1..]
  {
    if s[|s| - 1] == c then |s| - 1
    else
      assert c in s[..|s| - 1] by {
        var i :| 0 <= i < |s| && s[i] == c;
        assert s[..|s| - 1][i] == c;
      }
      var k := LastIndex(s[..|s| - 1], c);
      assert s[k + 1..] == s[..|s| - 1][k + 1..] + [s[|s| - 1]];
      k
  }

  /** `re.findall(r'{([^"]*)}', s)[0]`: from the first `{` that has a `}`
      after it with no `"` in between, the text up to the LAST such `}`
      (the group is greedy); None where nothing matches. */
  function OidGroup(s: string): (r: Option<string>)
    ensures r.Some? ==> '"' !in r.value
  {
    if |s| == 0 then None
    else if s[0] == '{' then
      var seg := UpTo(s[1..], '"');
      if '}' in seg then Some(seg[..LastIndex(seg, '}')]) else OidGroup(s[1..])
    else OidGroup(s[1..])
  }

  /** `parseOID(line)`: the space-separated words inside the braces, joined
      with `.`. */
  function ParseOid(line: string): Option<string>
  {
    match OidGroup(line)
    case None => None
    case Some(g) => Some(Join(Tokens(g), "."))
  }

  // ---------------------------------------------------------------------
  // findlist and read_string_end

  /** The loop `while count != 2: acc += lines[i]; count += lines[i].count(mark); i += 1`
      of `findlist` and `read_string_end`, from line `i` with `count`
      marks in `acc`. None where the loop indexes past the last line: when
      the marks run out, and also when one line takes the count from
      below 2 to above it, as the count then never equals 2. */
  function ScanToSecondMark(lines: seq<string>, i: nat, mark: char, count: nat, acc: string): Option<string>
    decreases |lines| - i
  {
    if count == 2 then Some(acc)
    else if i >= |lines| then None
    else ScanToSecondMark(lines, i + 1, mark, count + Count(lines[i], mark), acc + lines[i])
  }

  /** The number of `mark` characters in lines `i` up to `j`. */
  function Marks(lines: seq<string>, i: nat, j: nat, mark: char): nat
    requires i <= j <= |lines|
  {
    Count(Concat(lines[i..j]), mark)
  }

  lemma ConcatSnoc(lines: seq<string>, i: nat, j: nat)
    requires i <= j < |lines|
    ensures Concat(lines[i..j + 1]) == Concat(lines[i..j]) + lines[j]
  {
    assert lines[i..j + 1][..j - i] == lines[i..j];
  }

  /** Mark counts only grow as lines are added. */
  lemma {:induction false} MarksGrow(lines: seq<string>, i: nat, k: nat, j: nat, mark: char)
    requires i <= k <= j <= |lines|
    ensures Marks(lines, i, k, mark) <= Marks(lines, i, j, mark)
    decreases j - k
  {
    if k < j {
      MarksGrow(lines, i, k, j - 1, mark);
      ConcatSnoc(lines, i, j - 1);
      CountAppend(Concat(lines[i..j - 1]), lines[j - 1], mark);
    }
  }

  /** Once past two marks, the scan fails. */
  lemma {:induction false} ScanOvershoots(lines: seq<string>, i: nat, mark: char, count: nat, acc: string)
    requires count > 2
    ensures ScanToSecondMark(lines, i, mark, count, acc) == None
    decreases |lines| - i
  {
    if i < |lines| {
      ScanOvershoots(lines, i + 1, mark, count + Count(lines[i], mark), acc + lines[i]);
    }
  }

  /** What the scan from line `start` returns: the lines from `start` up to
      the FIRST `j` where exactly two marks have been seen, and None when no
      such `j` exists (the marks run out, or one line overshoots 2). */
  lemma {:induction false} ScanToSecondMarkSpec(lines: seq<string>, start: nat, mark: char)
    requires start <= |lines|
    ensures var r := ScanToSecondMark(lines, start, mark, 0, "");
      && (r.Some? <==> exists j :: start <= j <= |lines| && Marks(lines, start, j, mark) == 2)
      && (r.Some? ==> exists j :: (start <= j <= |lines| && Marks(lines, start, j, mark) == 2 &&
            r.value == Concat(lines[start..j]) &&
            forall j' :: start <= j' < j ==> Marks(lines, start, j', mark) < 2))
  {
    assert lines[start..start] == [];
    ScanFrom(lines, start, start, mark);
  }

  /** Past two marks, no later line count is exactly two. */
  lemma NoLaterSecondMark(lines: seq<string>, start: nat, k: nat, mark: char)
    requires start <= k <= |lines| && Marks(lines, start, k, mark) > 2
    ensures forall j :: k <= j <= |lines| ==> Marks(lines, start, j, mark) != 2
  {
    forall j | k <= j <= |lines| ensures Marks(lines, start, j, mark) != 2 {
      MarksGrow(lines, start, k, j, mark);
    }
  }

  lemma {:induction false} ScanFrom(lines: seq<string>, start: nat, k: nat, mark: char)
    requires start <= k <= |lines|
    requires forall j' :: start <= j' < k ==> Marks(lines, start, j', mark) < 2
    ensures var r := ScanToSecondMark(lines, k, mark, Marks(lines, start, k, mark), Concat(lines[start..k]));
      && (r.Some? <==> exists j :: k <= j <= |lines| && Marks(lines, start, j, mark) == 2)
      && (r.Some? ==> exists j :: (k <= j <= |lines| && Marks(lines, start, j, mark) == 2 &&
            r.value == Concat(lines[start..j]) &&
            forall j' :: start <= j' < j ==> Marks(lines, start, j', mark) < 2))
    decreases |lines| - k
  {
    var m := Marks(lines, start, k, mark);
    if m == 2 {
    } else if m > 2 {
      ScanOvershoots(lines, k, mark, m, Concat(lines[start..k]));
      NoLaterSecondMark(lines, start, k, mark);
    } else if k == |lines| {
    } else {
      ConcatSnoc(lines, start, k);
      CountAppend(Concat(lines[start..k]), lines[k], mark);
      assert ScanToSecondMark(lines, k, mark, m, Concat(lines[start..k]))
        == ScanToSecondMark(lines, k + 1, mark, Marks(lines, start, k + 1, mark), Concat(lines[start..k + 1]));
      ScanFrom(lines, start, k + 1, mark);
    }
  }

  /** `findlist(file, i)`: the member names of an OBJECTS clause starting
      on line `i`, read from the lines up to the second `}`: the text inside
      the first braces, without whitespace, split on `,`. */
  function ObjectsListAt(lines: seq<string>, i: nat): Option<seq<string>>
  {
    match ScanToSecondMark(lines, i, '}', 0, "")
    case None => None
    case Some(acc) =>
      match BraceText(acc)
      case None => None
      case Some(t) => Some(Split(RemoveWhitespace(t), ","))
  }

  /** `read_string_end(file, i)`: the text between the first two `"`
      of the lines from `i` on. */
  function QuotedAt(lines: seq<string>, i: nat): Option<string>
  {
    match ScanToSecondMark(lines, i, '"', 0, "")
    case None => None
    case Some(acc) => QuotedText(acc)
  }

  /** The accumulating loop of `findlist` and `read_string_end`. */
  method AccumulateToSecondMark(lines: seq<string>, start: nat, mark: char) returns (r: Option<string>)
    ensures r == ScanToSecondMark(lines, start, mark, 0, "")
  {
    var lineadd := "";
    var count: nat := 0;
    var i: nat := start;
    while count != 2
      invariant ScanToSecondMark(lines, i, mark, count, lineadd) == ScanToSecondMark(lines, start, mark, 0, "")
      decreases |lines| - i
    {
      if i >= |lines| {
        return None;
      }
      lineadd := lineadd + lines[i];
      count := count + Count(lines[i], mark);
      i := i + 1;
    }
    r := Some(lineadd);
  }

  /** `findlist(file, linecount)`. */
  method FindList(lines: seq<string>, i: nat) returns (r: Option<seq<string>>)
    ensures r == ObjectsListAt(lines, i)
  {
    var lineadd := AccumulateToSecondMark(lines, i, '}');
    if lineadd.None? {
      return None;
    }
    var formString := BraceText(lineadd.value);
    if formString.None? {
      return None;
    }
    r := Some(Split(RemoveWhitespace(formString.value), ","));
  }

  /** `read_string_end(file, linecount)`. */
  method ReadStringEnd(lines: seq<string>, i: nat) returns (r: Option<string>)
    ensures r == QuotedAt(lines, i)
  {
    var lineadd := AccumulateToSecondMark(lines, i, '"');
    if lineadd.None? {
      return None;
    }
    r := QuotedText(lineadd.value);
  }

  // ---------------------------------------------------------------------
  // read_file

  /** The reader's `check`: 0 before the sentinel, 1 after it, 2 inside an
      OBJECT-TYPE, 3 inside a NOTIFICATION-TYPE. */
  datatype Phase = BeforeSentinel | AfterSentinel | InObject | InTrap

  /** `check` with the record being read (`obj` or `trap`). */
  datatype Cursor = Cursor(phase: Phase, obj: NtxObject, trap: NtxTrap)

  /** Still reading, or stopped by an IndexError on line `at`. */
  datatype Progress = Reading(cursor: Cursor, reg: Registry) | Crashed(reg: Registry, at: nat)

  /** What one line does: move the cursor, complete the object or the trap
      being read and register it, or raise. */
  datatype Step = Next(cursor: Cursor) | AddObj(cursor: Cursor) | AddTrp(cursor: Cursor) | Fail

  /** Before the first line: `check = 0`; `obj` and `trap` are not yet
      bound in the source, here they are the class defaults. */
  const Start: Cursor := Cursor(BeforeSentinel, NewObject(""), NewTrap(""))

  /** The effect of one iteration of the loop of `read_file`, on line `i`. */
  function LineStep(lines: seq<string>, i: nat, c: Cursor): Step
    requires i < |lines|
  {
    var line := RStrip(lines[i]);
    var phase := if line == Sentinel then AfterSentinel else c.phase;
    var toks := Tokens(line);
    if phase == BeforeSentinel || |toks| == 0 then Next(c.(phase := phase))
    else FieldLine(lines, i, line, toks, Header(toks, c.(phase := phase)))
  }

  /** A line whose last word is OBJECT-TYPE or NOTIFICATION-TYPE starts a
      new record named by its first word. */
  function Header(toks: seq<string>, c: Cursor): Cursor
    requires |toks| > 0
  {
    var last := toks[|toks| - 1];
    if last == "OBJECT-TYPE" then Cursor(InObject, NewObject(toks[0]), c.trap)
    else if last == "NOTIFICATION-TYPE" then Cursor(InTrap, c.obj, NewTrap(toks[0]))
    else c
  }

  /** A line after the sentinel, read as a field of the record being read. */
  function FieldLine(lines: seq<string>, i: nat, line: string, toks: seq<string>, c: Cursor): Step
    requires i < |lines| && |toks| > 0
  {
    if c.phase == InObject then ObjectLine(lines, i, line, toks, c)
    else if c.phase == InTrap then TrapLine(lines, i, line, toks, c)
    else Next(c)
  }

  /** A line inside an OBJECT-TYPE, dispatched on its first word. */
  function ObjectLine(lines: seq<string>, i: nat, line: string, toks: seq<string>, c: Cursor): Step
    requires i < |lines| && |toks| > 0
  {
    var o := c.obj;
    var key := toks[0];
    var last := toks[|toks| - 1];
    if key == "SYNTAX" then Next(c.(obj := o.(syntax := RefineSyntax(line))))
    else if key == "MAX-ACCESS" then Next(c.(obj := o.(maxAccess := last)))
    else if key == "STATUS" then Next(c.(obj := o.(status := last)))
    else if key == "DESCRIPTION" then
      match QuotedAt(lines, i)
      case None => Fail
      case Some(d) => Next(c.(obj := o.(description := "\"" + d + "\"")))
    else if key == "::=" then
      match (Number(line), ParseOid(line))
      case (Some(n), Some(oid)) => AddObj(c.(obj := o.(counter := n, oid := oid)))
      case _ => Fail
    else Next(c)
  }

  /** A line inside a NOTIFICATION-TYPE, dispatched on its first word. */
  function TrapLine(lines: seq<string>, i: nat, line: string, toks: seq<string>, c: Cursor): Step
    requires i < |lines| && |toks| > 0
  {
    var t := c.trap;
    var key := toks[0];
    var last := toks[|toks| - 1];
    if key == "OBJECTS" then
      match ObjectsListAt(lines, i)
      case None => Fail
      case Some(names) => Next(c.(trap := t.(objects := names)))
    else if key == "STATUS" then Next(c.(trap := t.(status := last)))
    else if key == "DESCRIPTION" then
      match QuotedAt(lines, i)
      case None => Fail
      case Some(d) => Next(c.(trap := t.(description := "\"" + d + "\"")))
    else if key == "::=" then
      match (Number(line), ParseOid(line))
      case (Some(n), Some(oid)) => AddTrp(c.(trap := t.(counter := n, oid := oid)))
      case _ => Fail
    else Next(c)
  }

  /** The state after a line's effect: `add_object(obj)` or `add_trap(trap)`
      on a completed record, the IndexError of line `i` on a failure. */
  function Apply(s: Step, reg: Registry, i: nat): Progress
  {
    match s
    case Next(c) => Reading(c, reg)
    case AddObj(c) => Reading(c, reg.AddObject(c.obj))
    case AddTrp(c) => Reading(c, reg.AddTrap(c.trap))
    case Fail => Crashed(reg, i)
  }

  /** The first `k` iterations of `read_file`, starting from registry `reg0`. */
  function Run(lines: seq<string>, k: nat, reg0: Registry): Progress
    requires k <= |lines|
  {
    if k == 0 then Reading(Start, reg0)
    else
      match Run(lines, k - 1, reg0)
      case Crashed(r, at) => Crashed(r, at)
      case Reading(c, r) => Apply(LineStep(lines, k - 1, c), r, k - 1)
  }

  /** Nothing is registered, and the cursor does not move, until the
      sentinel line is read. */
  lemma {:induction false} NothingBeforeSentinel(lines: seq<string>, k: nat, reg0: Registry)
    requires k <= |lines|
    requires forall j :: 0 <= j < k ==> RStrip(lines[j]) != Sentinel
    ensures Run(lines, k, reg0) == Reading(Start, reg0)
  {
    if k > 0 {
      NothingBeforeSentinel(lines, k - 1, reg0);
    }
  }

  /** An OBJECT-TYPE line completes the object only when its first word is
      `::=`, with the line's first number and brace contents. */
  lemma ObjectLineAdds(lines: seq<string>, i: nat, line: string, toks: seq<string>, c: Cursor)
    requires i < |lines| && |toks| > 0
    ensures !ObjectLine(lines, i, line, toks, c).AddTrp?
    ensures ObjectLine(lines, i, line, toks, c).AddObj? ==>
      && toks[0] == "::=" && Number(line).Some? && ParseOid(line).Some?
      && var c' := ObjectLine(lines, i, line, toks, c).cursor;
      && c'.phase == c.phase && c'.obj.counter == Number(line).value && c'.obj.oid == ParseOid(line).value
  {
  }

  /** A NOTIFICATION-TYPE line completes the trap only when its first word
      is `::=`, with the line's first number and brace contents. */
  lemma TrapLineAdds(lines: seq<string>, i: nat, line: string, toks: seq<string>, c: Cursor)
    requires i < |lines| && |toks| > 0
    ensures !TrapLine(lines, i, line, toks, c).AddObj?
    ensures TrapLine(lines, i, line, toks, c).AddTrp? ==>
      && toks[0] == "::=" && Number(line).Some? && ParseOid(line).Some?
      && var c' := TrapLine(lines, i, line, toks, c).cursor;
      && c'.phase == c.phase && c'.trap.counter == Number(line).value && c'.trap.oid == ParseOid(line).value
  {
  }

  /** A field line completes a record only when its first word is `::=`:
      an object inside an OBJECT-TYPE, a trap inside a NOTIFICATION-TYPE. */
  lemma FieldLineAdds(lines: seq<string>, i: nat, line: string, toks: seq<string>, c: Cursor)
    requires i < |lines| && |toks| > 0
    ensures var s := FieldLine(lines, i, line, toks, c);
      && (s.AddObj? || s.AddTrp? ==> toks[0] == "::=" && Number(line).Some? && ParseOid(line).Some?)
      && (s.AddObj? ==>
            s.cursor.phase == InObject && s.cursor.obj.counter == Number(line).value && s.cursor.obj.oid == ParseOid(line).value)
      && (s.AddTrp? ==>
            s.cursor.phase == InTrap && s.cursor.trap.counter == Number(line).value && s.cursor.trap.oid == ParseOid(line).value)
  {
    ObjectLineAdds(lines, i, line, toks, c);
    TrapLineAdds(lines, i, line, toks, c);
  }

  /** A record is completed only on a line whose first word is `::=`; its
      counter is the first number on that line and its OID that line's
      brace contents. */
  lemma RegistersOnlyOnAssignLine(lines: seq<string>, i: nat, c: Cursor)
    requires i < |lines|
    requires LineStep(lines, i, c).AddObj? || LineStep(lines, i, c).AddTrp?
    ensures var line := RStrip(lines[i]);
      && |Tokens(line)| > 0 && Tokens(line)[0] == "::="
      && Number(line).Some? && ParseOid(line).Some?
      && var c' := LineStep(lines, i, c).cursor;
      && (LineStep(lines, i, c).AddObj? ==>
            c'.phase == InObject && c'.obj.counter == Number(line).value && c'.obj.oid == ParseOid(line).value)
      && (LineStep(lines, i, c).AddTrp? ==>
            c'.phase == InTrap && c'.trap.counter == Number(line).value && c'.trap.oid == ParseOid(line).value)
  {
    var line := RStrip(lines[i]);
    var phase := if line == Sentinel then AfterSentinel else c.phase;
    var toks := Tokens(line);
    var c0 := c.(phase := phase);
    assert |toks| > 0 && LineStep(lines, i, c) == FieldLine(lines, i, line, toks, Header(toks, c0));
    FieldLineAdds(lines, i, line, toks, Header(toks, c0));
  }

  /** Every effect keeps the registry valid. */
  lemma ApplyKeepsValid(s: Step, reg: Registry, i: nat)
    requires reg.Valid()
    ensures Apply(s, reg, i).reg.Valid()
  {
    match s
    case AddObj(c) => AddObjectKeepsValid(reg, c.obj);
    case AddTrp(c) => AddTrapKeepsValid(reg, c.trap);
    case _ =>
  }

  /** Reading keeps the registry valid: no duplicates, counters above
      every registered record's. */
  lemma {:induction false} RunKeepsValid(lines: seq<string>, k: nat, reg0: Registry)
    requires k <= |lines| && reg0.Valid()
    ensures Run(lines, k, reg0).reg.Valid()
  {
    if k > 0 {
      RunKeepsValid(lines, k - 1, reg0);
      StepKeepsValid(lines, k, reg0);
    }
  }

  /** Line `k - 1` keeps the registry valid. */
  lemma StepKeepsValid(lines: seq<string>, k: nat, reg0: Registry)
    requires 0 < k <= |lines| && Run(lines, k - 1, reg0).reg.Valid()
    ensures Run(lines, k, reg0).reg.Valid()
  {
    var prev := Run(lines, k - 1, reg0);
    if prev.Reading? {
      ApplyKeepsValid(LineStep(lines, k - 1, prev.cursor), prev.reg, k - 1);
    }
  }

  /** `after` only adds to `before`: the records registered before are
      kept in order, and neither counter goes down. */
  predicate OnlyAdds(before: Registry, after: Registry)
  {
    before.objects <= after.objects && before.traps <= after.traps &&
    before.nextObjectOid <= after.nextObjectOid && before.nextTrapOid <= after.nextTrapOid
  }

  lemma OnlyAddsTrans(a: Registry, b: Registry, c: Registry)
    requires OnlyAdds(a, b) && OnlyAdds(b, c)
    ensures OnlyAdds(a, c)
  {
  }

  /** An effect only adds to the registry. */
  lemma ApplyOnlyAdds(s: Step, reg: Registry, i: nat)
    ensures OnlyAdds(reg, Apply(s, reg, i).reg)
  {
    match s
    case AddObj(c) =>
    case AddTrp(c) =>
    case _ =>
  }

  /** Reading only adds: the records registered before are kept in order,
      and neither counter goes down. */
  lemma {:induction false} RunOnlyAdds(lines: seq<string>, k: nat, reg0: Registry)
    requires k <= |lines|
    ensures OnlyAdds(reg0, Run(lines, k, reg0).reg)
  {
    if k > 0 {
      RunOnlyAdds(lines, k - 1, reg0);
      StepOnlyAdds(lines, k, reg0);
      OnlyAddsTrans(reg0, Run(lines, k - 1, reg0).reg, Run(lines, k, reg0).reg);
    }
  }

  /** Line `k - 1` only adds to the registry. */
  lemma StepOnlyAdds(lines: seq<string>, k: nat, reg0: Registry)
    requires 0 < k <= |lines|
    ensures OnlyAdds(Run(lines, k - 1, reg0).reg, Run(lines, k, reg0).reg)
  {
    var prev := Run(lines, k - 1, reg0);
    if prev.Reading? {
      ApplyOnlyAdds(LineStep(lines, k - 1, prev.cursor), prev.reg, k - 1);
    }
  }

  /** One more iteration of `read_file` from a reading state. */
  lemma RunNext(lines: seq<string>, k: nat, reg0: Registry, c: Cursor, r: Registry)
    requires k < |lines| && Run(lines, k, reg0) == Reading(c, r)
    ensures Run(lines, k + 1, reg0) == Apply(LineStep(lines, k, c), r, k)
  {
  }

  /** Once a helper has raised, the rest of the file is not read. */
  lemma {:induction false} CrashStays(lines: seq<string>, k: nat, m: nat, reg0: Registry)
    requires k <= m <= |lines|
    requires Run(lines, k, reg0).Crashed?
    ensures Run(lines, m, reg0) == Run(lines, k, reg0)
    decreases m - k
  {
    if k < m {
      CrashStays(lines, k, m - 1, reg0);
    }
  }
}
