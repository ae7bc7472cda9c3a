/** The writers of class `MIB` in experimental/sysmib.py: the OBJECT-TYPE
    and NOTIFICATION-TYPE templates of `dump_object_file` and
    `dump_trap_file`, the list dumps `dump_objlist` and `dump_traplist`, and
    the splice of `apply_changes_file`, as functions. The loops of the
    source are methods of `SysMib.Mib` proved against these. */
module MibEmit {
  import opened Wrappers
  import opened Text
  import opened MibRecords
  import opened MibParse
  import opened MibBuild

  // ---------------------------------------------------------------------
  // Templates

  /** The `::=` line of an OBJECT-TYPE: the OID with its dots written as spaces. */
  function ObjectAssignLine(oid: string): string
  {
    "    ::= {" + Replace(oid, '.', ' ') + "}"
  }

  /** The SYNTAX line of an OBJECT-TYPE: the keyword, the fifteen spaces
      `refinesyntax` splits on, and the syntax. */
  function SyntaxLine(syntax: string): string
  {
    "    SYNTAX" + SyntaxGap + syntax
  }

  /** The first line of an OBJECT-TYPE, naming it. */
  function ObjectHeaderLine(name: string): string
  {
    "  " + name + "    OBJECT-TYPE"
  }

  function MaxAccessLine(maxAccess: string): string
  {
    "    MAX-ACCESS           " + maxAccess
  }

  function ObjectStatusLine(status: string): string
  {
    "    STATUS               " + status
  }

  function ObjectDescriptionLine(description: string): string
  {
    "    DESCRIPTION          " + description
  }

  /** The lines of the OBJECT-TYPE template of `dump_object_file(obj)`,
      each with its line end: a blank line, the header, one field per
      line, and the `::=` line. */
  function ObjectLines(o: NtxObject): seq<string>
  {
    [ "\n",
      ObjectHeaderLine(o.name) + "\n",
      SyntaxLine(o.syntax) + "\n",
      MaxAccessLine(o.maxAccess) + "\n",
      ObjectStatusLine(o.status) + "\n",
      ObjectDescriptionLine(o.description) + "\n",
      ObjectAssignLine(o.oid) + "\n" ]
  }

  /** `dump_object_file(obj)`: the template filled in. */
  function ObjectBlock(o: NtxObject): string
  {
    Concat(ObjectLines(o))
  }

  /** The `::=` line of a NOTIFICATION-TYPE: the counter under `nutanix`. */
  function TrapAssignLine(counter: nat): string
  {
    "     ::= { nutanix " + NatToString(counter) + "}"
  }

  /** `objstring[:len(objstring)-2]` after `objstring += objdef + ', '` for
      every member: the member names, each followed by `", "`. */
  function Terminated(ws: seq<string>, sep: string): string
  {
    if |ws| == 0 then "" else Terminated(ws[..|ws| - 1], sep) + ws[|ws| - 1] + sep
  }

  /** Python's `s[:len(s)-k]`: all but the last `k` characters, nothing when
      `s` is shorter. */
  function DropLast(s: string, k: nat): (r: string)
    ensures r <= s
    ensures |s| >= k ==> |r| == |s| - k
  {
    if |s| >= k then s[..|s| - k] else ""
  }

  /** The first line of a NOTIFICATION-TYPE, naming it. */
  function TrapHeaderLine(name: string): string
  {
    "  " + name + "   NOTIFICATION-TYPE"
  }

  /** The OBJECTS line: the member list between braces. */
  function TrapObjectsLine(members: string): string
  {
    "     OBJECTS             { " + members + " }"
  }

  function TrapStatusLine(status: string): string
  {
    "     STATUS                " + status
  }

  function TrapDescriptionLine(description: string): string
  {
    "     DESCRIPTION           " + description
  }

  /** The lines of the NOTIFICATION-TYPE template with `members` as the
      OBJECTS list, each with its line end, ending with the `::=` line. */
  function TrapLines(t: NtxTrap, members: string): seq<string>
  {
    [ "\n",
      TrapHeaderLine(t.name) + "\n",
      TrapObjectsLine(members) + "\n",
      TrapStatusLine(t.status) + "\n",
      TrapDescriptionLine(t.description) + "\n",
      TrapAssignLine(t.counter) + "\n" ]
  }

  /** The NOTIFICATION-TYPE template filled in. */
  function TrapText(t: NtxTrap, members: string): string
  {
    Concat(TrapLines(t, members))
  }

  /** `dump_trap_file(trap)`: the members are listed separated by `", "`. */
  function TrapBlock(t: NtxTrap): string
  {
    TrapText(t, Join(t.objects, ", "))
  }

  /** `dump_objlist()`: every object block, in list order. */
  function ObjectsText(objects: seq<NtxObject>): string
  {
    if |objects| == 0 then "" else ObjectsText(objects[..|objects| - 1]) + ObjectBlock(objects[|objects| - 1])
  }

  /** `dump_traplist()`: every trap block, in list order. */
  function TrapsText(traps: seq<NtxTrap>): string
  {
    if |traps| == 0 then "" else TrapsText(traps[..|traps| - 1]) + TrapBlock(traps[|traps| - 1])
  }

  lemma ObjectsTextNext(objects: seq<NtxObject>, k: nat)
    requires k < |objects|
    ensures ObjectsText(objects[..k + 1]) == ObjectsText(objects[..k]) + ObjectBlock(objects[k])
  {
    assert objects[..k + 1][..k] == objects[..k];
  }

  lemma TrapsTextNext(traps: seq<NtxTrap>, k: nat)
    requires k < |traps|
    ensures TrapsText(traps[..k + 1]) == TrapsText(traps[..k]) + TrapBlock(traps[k])
  {
    assert traps[..k + 1][..k] == traps[..k];
  }

  // ---------------------------------------------------------------------
  // Properties of the templates

  lemma {:induction false} JoinSnoc(ws: seq<string>, w: string, sep: string)
    requires |ws| >= 1
    ensures Join(ws + [w], sep) == Join(ws, sep) + sep + w
  {
    if |ws| == 1 {
      assert (ws + [w])[1..] == [w];
    } else {
      assert (ws + [w])[1..] == ws[1..] + [w];
      JoinSnoc(ws[1..], w, sep);
    }
  }

  /** Appending a separator after every name and cutting the last one off
      is `sep.join`. */
  lemma {:induction false} TerminatedIsJoin(ws: seq<string>, sep: string)
    ensures |ws| > 0 ==> Terminated(ws, sep) == Join(ws, sep) + sep
    ensures DropLast(Terminated(ws, sep), |sep|) == Join(ws, sep)
  {
    if |ws| > 1 {
      TerminatedIsJoin(ws[..|ws| - 1], sep);
      JoinSnoc(ws[..|ws| - 1], ws[|ws| - 1], sep);
      assert ws[..|ws| - 1] + [ws[|ws| - 1]] == ws;
    } else if |ws| == 1 {
      assert ws[..0] == [];
    }
    if |ws| > 0 {
      var s := Join(ws, sep) + sep;
      assert s[..|s| - |sep|] == Join(ws, sep);
    }
  }

  /** `rstrip` of a line as `readlines` gives it. */
  lemma RStripLine(s: string)
    requires |s| > 0 && !IsSpace(s[|s| - 1])
    ensures RStrip(s + "\n") == s
  {
    assert (s + "\n")[..|s|] == s;
  }

  /** The first `{` of a line that starts with `p`, when `p` has none. */
  lemma {:induction false} OidGroupAfter(p: string, g: string)
    requires '{' !in p && '"' !in g
    ensures OidGroup(p + "{" + g + "}") == Some(g)
    decreases |p|
  {
    var s := p + "{" + g + "}";
    if |p| > 0 {
      assert s[1..] == p[1..] + "{" + g + "}";
      assert s[0] == p[0];
      OidGroupAfter(p[1..], g);
    } else {
      assert s == "{" + g + "}";
      var seg := UpTo(s[1..], '"');
      UpToAll(g + "}", '"');
      assert s[1..] == g + "}";
      assert seg == g + "}";
      assert seg[|seg| - 1] == '}';
      assert seg[..|seg| - 1] == g;
    }
  }

  lemma {:induction false} UpToAll(s: string, c: char)
    requires c !in s
    ensures UpTo(s, c) == s
  {
    if |s| > 0 {
      UpToAll(s[1..], c);
      assert s == [s[0]] + s[1..];
    }
  }

  /** A dotted OID whose parts are non-empty and hold no space, dot or
      quote. */
  predicate PlainOid(oid: string)
  {
    '"' !in oid && ' ' !in oid && forall p :: p in Split(oid, ".") ==> p != ""
  }

  /** The literal head of an object's `::=` line. */
  lemma AssignHeadSplit()
    ensures "    ::= {" == "    ::= " + "{" && '{' !in "    ::= "
  {
  }

  /** `parseOID` reads back the OID that `dump_object_file` wrote. */
  lemma ParseObjectOid(oid: string)
    requires PlainOid(oid)
    ensures ParseOid(ObjectAssignLine(oid)) == Some(oid)
  {
    var g := Replace(oid, '.', ' ');
    assert '"' !in g by {
      forall i | 0 <= i < |g| ensures g[i] != '"' {
        assert oid[i] != '"' by { assert oid[i] in oid; }
      }
    }
    AssignHeadSplit();
    OidGroupAfter("    ::= ", g);
    SplitReplace(oid, '.', ' ', "");
    var parts := Split(oid, ".");
    assert Split(g, " ") == parts;
    assert forall i :: 0 <= i < |parts| ==> parts[i] in parts;
    NonEmptyOfNonEmpty(parts);
    JoinSplit(oid, ".");
  }

  /** The first number of a line is the digit run after a digit-free prefix. */
  lemma NumberAfterPrefix(p: string, ds: string, rest: string)
    requires forall i :: 0 <= i < |p| ==> !IsDigit(p[i])
    requires |ds| > 0 && forall i :: 0 <= i < |ds| ==> IsDigit(ds[i])
    requires |rest| > 0 ==> !IsDigit(rest[0])
    ensures Number(p + (ds + rest)) == Some(DigitsValue(ds))
  {
    FirstDigitSkip(p, ds + rest);
    assert (p + (ds + rest))[|p|..] == ds + rest;
    DigitPrefixOfDigits(ds, rest);
  }

  /** The first digit of `p + s` when `p` has none and `s` starts with one. */
  lemma {:induction false} FirstDigitSkip(p: string, s: string)
    requires forall i :: 0 <= i < |p| ==> !IsDigit(p[i])
    requires |s| > 0 && IsDigit(s[0])
    ensures FirstDigit(p + s) == Some(|p|)
  {
    if |p| == 0 {
      assert p + s == s;
    } else {
      assert (p + s)[0] == p[0];
      assert (p + s)[1..] == p[1..] + s;
      FirstDigitSkip(p[1..], s);
    }
  }

  /** The digits after `nutanix ` on the written line are the counter. */
  lemma NumberOfTrapLine(counter: nat)
    ensures Number(TrapAssignLine(counter)) == Some(counter)
  {
    var p := "     ::= { nutanix ";
    assert forall i :: 0 <= i < |p| ==> !IsDigit(p[i]);
    assert TrapAssignLine(counter) == p + (NatToString(counter) + "}");
    NumberAfterPrefix(p, NatToString(counter), "}");
    NatToStringValue(counter);
  }

  /** The words of `" " + a + " " + b`. */
  lemma TokensOfTwo(a: string, b: string)
    requires a != "" && b != "" && ' ' !in a && ' ' !in b
    ensures Tokens(" " + a + " " + b) == [a, b]
  {
    var s := " " + a + " " + b;
    SplitAtFirst(a, b, ' ');
    SplitNoSep(b, ' ');
    SplitAtFirst("", a + [' '] + b, ' ');
    assert s == "" + [' '] + (a + [' '] + b);
    var parts := ["", a, b];
    assert Split(s, " ") == parts;
    assert parts[1..] == [a, b] && parts[1..][1..] == [b] && [b][1..] == [];
    assert NonEmpty([b]) == [b];
    assert NonEmpty([a, b]) == [a, b];
  }

  /** `parseOID` of a line whose braces come after a prefix without any. */
  lemma ParseOidAfter(p: string, g: string)
    requires '{' !in p && '"' !in g
    ensures ParseOid(p + "{" + g + "}") == Some(Join(Tokens(g), "."))
  {
    OidGroupAfter(p, g);
  }

  /** The trap `::=` line cut at its brace. */
  lemma TrapLineShape(ds: string)
    ensures "     ::= { nutanix " + ds + "}" == "     ::= " + "{" + (" " + "nutanix" + " " + ds) + "}"
  {
  }

  /** `parseOID` of the written trap line is `nutanix.<counter>`. */
  lemma ParseTrapOid(counter: nat)
    ensures ParseOid(TrapAssignLine(counter)) == Some("nutanix." + NatToString(counter))
  {
    var ds := NatToString(counter);
    var g := " " + "nutanix" + " " + ds;
    assert '"' !in ds && ' ' !in ds by {
      assert forall i :: 0 <= i < |ds| ==> IsDigit(ds[i]);
    }
    assert '"' !in g;
    TrapLineShape(ds);
    assert TrapAssignLine(counter) == "     ::= " + "{" + g + "}";
    ParseOidAfter("     ::= ", g);
    TokensOfTwo("nutanix", ds);
    assert ["nutanix", ds][1..] == [ds];
    assert Join(["nutanix", ds], ".") == "nutanix" + "." + ds == "nutanix." + ds;
  }

  /** `ntxAlert.<counter>` is a plain OID. */
  lemma AlertOidPlain(counter: nat)
    ensures PlainOid("ntxAlert." + NatToString(counter))
  {
    var ds := NatToString(counter);
    var oid := "ntxAlert." + ds;
    assert '.' !in ds by {
      assert forall i :: 0 <= i < |ds| ==> IsDigit(ds[i]);
    }
    SplitAtFirst("ntxAlert", ds, '.');
    assert oid == "ntxAlert" + ['.'] + ds;
    SplitNoSep(ds, '.');
    assert Split(oid, ".") == ["ntxAlert", ds];
    forall i | 0 <= i < |oid| ensures oid[i] != ' ' && oid[i] != '"' {
      if i >= 9 {
        assert oid[i] == ds[i - 9] && IsDigit(ds[i - 9]);
      }
    }
  }

  /** The one dot of `w.ds` written as a space. */
  lemma OneDotSpaced(w: string, ds: string)
    requires '.' !in w && '.' !in ds
    ensures Replace(w + ['.'] + ds, '.', ' ') == w + [' '] + ds
  {
    ReplaceAppend(w, ['.'] + ds, '.', ' ');
    ReplaceAppend(['.'], ds, '.', ' ');
    ReplaceAbsent(w, '.', ' ');
    ReplaceAbsent(ds, '.', ' ');
    assert w + ['.'] + ds == w + (['.'] + ds);
    assert w + [' '] + ds == w + ([' '] + ds);
  }

  /** Two digit-free strings make a digit-free string. */
  lemma NoDigitAppend(a: string, b: string)
    requires forall i :: 0 <= i < |a| ==> !IsDigit(a[i])
    requires forall i :: 0 <= i < |b| ==> !IsDigit(b[i])
    ensures forall i :: 0 <= i < |a + b| ==> !IsDigit((a + b)[i])
  {
    forall i | 0 <= i < |a + b| ensures !IsDigit((a + b)[i]) {
      if i < |a| {
        assert (a + b)[i] == a[i];
      } else {
        assert (a + b)[i] == b[i - |a|];
      }
    }
  }

  lemma AssignHeadNoDigit()
    ensures forall i :: 0 <= i < |"    ::= {"| ==> !IsDigit("    ::= {"[i])
  {
  }

  lemma Regroup(a: string, b: string, c: string, d: string, e: string)
    ensures a + (b + c + d) + e == (a + b + c) + (d + e)
  {
  }

  /** The first number of `head + w.ds + "}"` with the dot written as a
      space, with `head` and `w` free of digits, is the value of `ds`. */
  lemma NumberOfSpacedDotted(head: string, w: string, ds: string)
    requires forall i :: 0 <= i < |head| ==> !IsDigit(head[i])
    requires forall i :: 0 <= i < |w| ==> w[i] != '.' && !IsDigit(w[i])
    requires |ds| > 0 && forall i :: 0 <= i < |ds| ==> IsDigit(ds[i])
    ensures Number(head + Replace(w + ['.'] + ds, '.', ' ') + "}") == Some(DigitsValue(ds))
  {
    var p := head + w + [' '];
    assert head + Replace(w + ['.'] + ds, '.', ' ') + "}" == p + (ds + "}") by {
      assert '.' !in w && '.' !in ds by {
        assert forall i :: 0 <= i < |ds| ==> ds[i] != '.';
      }
      OneDotSpaced(w, ds);
      Regroup(head, w, [' '], ds, "}");
    }
    assert forall i :: 0 <= i < |p| ==> !IsDigit(p[i]) by {
      NoDigitAppend(head, w);
      NoDigitAppend(head + w, [' ']);
    }
    NumberAfterPrefix(p, ds, "}");
  }

  /** The first number on the `::=` line of `w.ds`, with `w` free of dots
      and digits, is the value of the digits `ds`. */
  lemma NumberOfDottedLine(w: string, ds: string)
    requires forall i :: 0 <= i < |w| ==> w[i] != '.' && !IsDigit(w[i])
    requires |ds| > 0 && forall i :: 0 <= i < |ds| ==> IsDigit(ds[i])
    ensures Number(ObjectAssignLine(w + ['.'] + ds)) == Some(DigitsValue(ds))
  {
    AssignHeadNoDigit();
    NumberOfSpacedDotted("    ::= {", w, ds);
  }

  /** The literal parts of an object OID. */
  lemma AlertWordFacts()
    ensures "ntxAlert." == "ntxAlert" + ['.']
    ensures forall i :: 0 <= i < |"ntxAlert"| ==> "ntxAlert"[i] != '.' && !IsDigit("ntxAlert"[i])
  {
  }

  /** The first number on the object's `::=` line is its counter. */
  lemma NumberOfAlertObjectLine(counter: nat)
    ensures Number(ObjectAssignLine("ntxAlert." + NatToString(counter))) == Some(counter)
  {
    AlertWordFacts();
    NumberOfDottedLine("ntxAlert", NatToString(counter));
    NatToStringValue(counter);
  }

  /** The `::=` line written for an object built from an attribute reads
      back, after `rstrip`, as that object's counter and OID. */
  lemma BuiltObjectReadBack(attr: string, typeName: string, counter: nat)
    ensures var o := AttrObject(attr, typeName, counter);
      var line := RStrip(ObjectAssignLine(o.oid) + "\n");
      line == ObjectAssignLine(o.oid) && Number(line) == Some(o.counter) && ParseOid(line) == Some(o.oid)
  {
    var oid := "ntxAlert." + NatToString(counter);
    RStripLine(ObjectAssignLine(oid));
    AlertOidPlain(counter);
    ParseObjectOid(oid);
    NumberOfAlertObjectLine(counter);
  }

  /** The `::=` line written for a trap built from an alert reads back,
      after `rstrip`, as that trap's counter and OID. */
  lemma BuiltTrapReadBack(alert: Alert, objects: seq<NtxObject>, counter: nat)
    ensures var t := AlertTrap(alert, objects, counter);
      var line := RStrip(TrapAssignLine(t.counter) + "\n");
      line == TrapAssignLine(t.counter) && Number(line) == Some(t.counter) && ParseOid(line) == Some(t.oid)
  {
    RStripLine(TrapAssignLine(counter));
    NumberOfTrapLine(counter);
    ParseTrapOid(counter);
  }

  /** No occurrence of the gap starts inside the keyword of a SYNTAX line. */
  lemma SyntaxWordNoGap(rest: string)
    ensures forall j :: 0 <= j < |"    SYNTAX"| ==> !(SyntaxGap <= ("    SYNTAX" + rest)[j..])
  {
    forall j | 0 <= j < |"    SYNTAX"| ensures !(SyntaxGap <= ("    SYNTAX" + rest)[j..]) {
      var s := ("    SYNTAX" + rest)[j..];
      if j < 4 {
        assert s[4 - j] == 'S' && SyntaxGap[4 - j] == ' ';
      } else {
        assert s[0] != ' ' && SyntaxGap[0] == ' ';
      }
    }
  }

  /** Splitting a word, a separator that starts with a space, and a
      space-free rest gives the word and the rest. */
  lemma SplitAfterWord(word: string, sep: string, rest: string)
    requires |sep| > 0 && sep[0] == ' ' && ' ' !in rest
    requires forall j :: 0 <= j < |word| ==> !(sep <= (word + (sep + rest))[j..])
    ensures Split(word + (sep + rest), sep) == [word, rest]
  {
    SplitFromNoStart(word, sep + rest, sep, "");
    SplitFromNoSpace(rest, sep, "");
    assert "" + word == word && "" + rest == rest;
    assert sep <= sep + rest && (sep + rest)[|sep|..] == rest;
    assert SplitFrom(sep + rest, sep, word) == [word] + SplitFrom(rest, sep, "");
  }

  /** `refinesyntax` reads back, after `rstrip`, the syntax that
      `dump_object_file` wrote, when the syntax is one word. */
  lemma SyntaxReadBack(syntax: string)
    requires |syntax| > 0 && forall i :: 0 <= i < |syntax| ==> !IsSpace(syntax[i])
    ensures RStrip(SyntaxLine(syntax) + "\n") == SyntaxLine(syntax)
    ensures RefineSyntax(SyntaxLine(syntax)) == syntax
  {
    assert ' ' !in syntax by {
      forall i | 0 <= i < |syntax| ensures syntax[i] != ' ' {
        assert !IsSpace(syntax[i]);
      }
    }
    var word := "    SYNTAX";
    var line := SyntaxLine(syntax);
    assert line == word + (SyntaxGap + syntax);
    assert line[|line| - 1] == syntax[|syntax| - 1];
    RStripLine(line);
    SyntaxWordNoGap(SyntaxGap + syntax);
    assert SyntaxGap[0] == ' ';
    SplitAfterWord(word, SyntaxGap, syntax);
  }

  /** Both syntaxes `selecttype` chooses are single words. */
  lemma SelectTypeOneWord(typeName: string)
    ensures var s := SelectType(typeName);
      |s| > 0 && forall i :: 0 <= i < |s| ==> !IsSpace(s[i])
  {
  }

  /** The syntax of every object built from an attribute reads back. */
  lemma BuiltSyntaxReadBack(typeName: string)
    ensures var s := SelectType(typeName);
      RefineSyntax(RStrip(SyntaxLine(s) + "\n")) == s
  {
    SelectTypeOneWord(typeName);
    SyntaxReadBack(SelectType(typeName));
  }

  // ---------------------------------------------------------------------
  // The splice of apply_changes_file

  /** The line `apply_changes_file` looks for, with its line end. */
  const SentinelLine: string := Sentinel + "\n"

  /** The index of the first line equal to `target`. */
  function FirstIndex(lines: seq<string>, target: string): (r: Option<nat>)
    ensures r.None? <==> target !in lines
    ensures r.Some? ==> r.value < |lines| && lines[r.value] == target && target !in lines[..r.value]
  {
    if |lines| == 0 then None
    else if lines[0] == target then
      assert lines[..0] == [];
      Some(0)
    else
      match FirstIndex(lines[1..], target)
      case None => None
      case Some(i) =>
        assert lines[..i + 1] == [lines[0]] + lines[1..][..i];
        Some(i + 1)
  }

  /** `apply_changes_file` on the lines of the file, when the dumps give
      `text`: the lines up to the first sentinel, that line followed by
      `text` and `END`, and nothing after it; the file as it was when there
      is no sentinel. */
  function Splice(lines: seq<string>, text: string): (r: seq<string>)
    ensures SentinelLine !in lines ==> r == lines
    ensures forall i :: 0 <= i < |lines| && lines[i] == SentinelLine && SentinelLine !in lines[..i] ==>
      |r| == i + 1 && r[..i] == lines[..i] && r[i] == SentinelLine + text + "END\n"
  {
    match FirstIndex(lines, SentinelLine)
    case None => lines
    case Some(i) => lines[..i] + [lines[i] + text + "END\n"]
  }

  /** The splice at the first sentinel line, `k`. */
  lemma SpliceAt(lines: seq<string>, text: string, k: nat)
    requires k < |lines| && lines[k] == SentinelLine && SentinelLine !in lines[..k]
    ensures Splice(lines, text) == lines[..k] + [lines[k] + text + "END\n"]
  {
    var f := FirstIndex(lines, SentinelLine);
    assert lines[k] in lines;
  }

  /** The spliced file keeps its lines in front of the sentinel, and every
      line after the sentinel is gone. */
  lemma SpliceDropsTail(lines: seq<string>, text: string, i: nat)
    requires i < |lines| && lines[i] == SentinelLine
    ensures |Splice(lines, text)| <= i + 1
    ensures Splice(lines, text)[..|Splice(lines, text)| - 1] <= lines
  {
    var f := FirstIndex(lines, SentinelLine);
    assert lines[i] in lines;
  }
}
