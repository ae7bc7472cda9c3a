/** `read_file` of experimental/sysmib.py over what `dump_object_file` and
    `dump_trap_file` wrote: line by line, the reader takes each template
    line back into the field it was written from, and over a whole block it
    registers the record the block was written from. */
module MibReadBack {
  import opened Wrappers
  import opened Text
  import opened MibRecords
  import opened MibRegistry
  import opened MibParse
  import opened MibBuild
  import opened MibEmit

  // ---------------------------------------------------------------------
  // What a field must look like to be read back

  /** The first words `read_file` dispatches on inside an OBJECT-TYPE. */
  const ObjectKeys: set<string> := {"SYNTAX", "MAX-ACCESS", "STATUS", "DESCRIPTION", "::="}

  /** The first words `read_file` dispatches on inside a NOTIFICATION-TYPE. */
  const TrapKeys: set<string> := {"OBJECTS", "STATUS", "DESCRIPTION", "::="}

  /** The last words that start a new record. */
  const HeaderWords: set<string> := {"OBJECT-TYPE", "NOTIFICATION-TYPE"}

  /** One word: not empty, no whitespace. */
  predicate Word(s: string)
  {
    |s| > 0 && forall i :: 0 <= i < |s| ==> !IsSpace(s[i])
  }

  /** A quoted text with no quote inside. */
  predicate QuotedOnce(s: string)
  {
    |s| >= 2 && s[0] == '"' && s[|s| - 1] == '"' && '"' !in s[1..|s| - 1]
  }

  /** An object whose block `read_file` takes back field by field: the
      name, syntax, access and status are single words that are not read
      as a key or a header, the description is quoted once, and the
      OID's line carries a number. */
  predicate ObjectReadable(o: NtxObject)
  {
    && Word(o.name) && o.name !in ObjectKeys
    && Word(o.syntax) && o.syntax !in HeaderWords
    && Word(o.maxAccess) && o.maxAccess !in HeaderWords
    && Word(o.status) && o.status !in HeaderWords
    && QuotedOnce(o.description)
    && PlainOid(o.oid) && Number(ObjectAssignLine(o.oid)).Some?
  }

  /** A trap whose block `read_file` reads up to its DESCRIPTION line:
      as for objects, and the member names are words without `,`, and no
      `}` comes before the `::=` line, where `findlist` stops. */
  predicate TrapHeadReadable(t: NtxTrap)
  {
    && Word(t.name) && t.name !in TrapKeys
    && (forall i :: 0 <= i < |t.objects| ==> Word(t.objects[i]) && ',' !in t.objects[i] && '}' !in t.objects[i])
    && Word(t.status) && t.status !in HeaderWords && '}' !in t.status
    && '}' !in t.description
  }

  /** A trap whose block `read_file` takes back: its description is also
      quoted once. */
  predicate TrapReadable(t: NtxTrap)
  {
    TrapHeadReadable(t) && QuotedOnce(t.description)
  }

  /** `findlist` on an empty OBJECTS list reads one empty name. */
  function ReadMembers(names: seq<string>): seq<string>
  {
    if |names| == 0 then [""] else names
  }

  lemma WordNoSpace(s: string)
    requires Word(s)
    ensures ' ' !in s && s[|s| - 1] != ' ' && !IsSpace(s[|s| - 1])
  {
    forall i | 0 <= i < |s| ensures s[i] != ' ' {
      assert !IsSpace(s[i]);
    }
  }

  lemma AllSpacesTail(q: string)
    requires AllSpaces(q) && |q| > 0
    ensures q[0] == ' ' && AllSpaces(q[1..])
  {
  }

  // ---------------------------------------------------------------------
  // The literal parts of the templates

  lemma SentinelFacts()
    ensures |Sentinel| > 2 && Sentinel[2] == 'n' && Sentinel[|Sentinel| - 1] == '}'
  {
  }

  lemma HeaderWordsEnd()
    ensures forall w :: w in HeaderWords ==> |w| > 0 && w[|w| - 1] == 'E'
  {
  }

  /** A template line: indentation `p`, `key`, a gap `q`, then the value. */
  predicate Head(h: string, p: string, key: string, q: string)
  {
    h == p + key + q && AllSpaces(p) && |p| > 2 && AllSpaces(q) && |q| > 0 && key != "" && ' ' !in key
  }

  lemma MaxAccessHead()
    ensures Head("    MAX-ACCESS           ", "    ", "MAX-ACCESS", "           ")
  {
    assert "    MAX-ACCESS           " == "    " + "MAX-ACCESS" + "           ";
    assert AllSpaces("    ") && AllSpaces("           ");
    assert ' ' !in "MAX-ACCESS";
  }

  lemma ObjectStatusHead()
    ensures Head("    STATUS               ", "    ", "STATUS", "               ")
  {
    assert "    STATUS               " == "    " + "STATUS" + "               ";
    assert AllSpaces("    ") && AllSpaces("               ");
    assert ' ' !in "STATUS";
  }

  lemma ObjectDescriptionHead()
    ensures Head("    DESCRIPTION          ", "    ", "DESCRIPTION", "          ")
  {
    assert "    DESCRIPTION          " == "    " + "DESCRIPTION" + "          ";
    assert AllSpaces("    ") && AllSpaces("          ");
    assert ' ' !in "DESCRIPTION";
  }

  lemma SyntaxHead()
    ensures Head("    SYNTAX" + SyntaxGap, "    ", "SYNTAX", SyntaxGap)
  {
    assert "    SYNTAX" + SyntaxGap == "    " + "SYNTAX" + SyntaxGap;
    assert AllSpaces("    ") && AllSpaces(SyntaxGap);
    assert ' ' !in "SYNTAX";
  }

  lemma ObjectAssignHead()
    ensures Head("    ::= ", "    ", "::=", " ")
  {
    assert "    ::= " == "    " + "::=" + " ";
    assert AllSpaces("    ") && AllSpaces(" ");
    assert ' ' !in "::=";
  }

  lemma TrapObjectsHead()
    ensures Head("     OBJECTS             ", "     ", "OBJECTS", "             ")
  {
    assert "     OBJECTS             " == "     " + "OBJECTS" + "             ";
    assert AllSpaces("     ") && AllSpaces("             ");
    assert ' ' !in "OBJECTS";
  }

  lemma TrapStatusHead()
    ensures Head("     STATUS                ", "     ", "STATUS", "                ")
  {
    assert "     STATUS                " == "     " + "STATUS" + "                ";
    assert AllSpaces("     ") && AllSpaces("                ");
    assert ' ' !in "STATUS";
  }

  lemma TrapDescriptionHead()
    ensures Head("     DESCRIPTION           ", "     ", "DESCRIPTION", "           ")
  {
    assert "     DESCRIPTION           " == "     " + "DESCRIPTION" + "           ";
    assert AllSpaces("     ") && AllSpaces("           ");
    assert ' ' !in "DESCRIPTION";
  }

  lemma TrapAssignHead()
    ensures Head("     ::= ", "     ", "::=", " ")
  {
    assert "     ::= " == "     " + "::=" + " ";
    assert AllSpaces("     ") && AllSpaces(" ");
    assert ' ' !in "::=";
  }

  lemma DescriptionHeadsUnquoted()
    ensures '"' !in "    DESCRIPTION          " && '"' !in "     DESCRIPTION           "
  {
  }

  // ---------------------------------------------------------------------
  // One line at a time

  /** A blank line moves nothing. */
  lemma BlankStep(lines: seq<string>, i: nat, c: Cursor)
    requires i < |lines| && lines[i] == "\n"
    ensures LineStep(lines, i, c) == Next(c)
  {
    assert RStrip("\n") == "";
    SentinelFacts();
    TokensOfEmpty();
  }

  /** The sentinel line, whatever follows it on the line as trailing
      whitespace, starts the records part. */
  lemma SentinelStep(lines: seq<string>, i: nat, c: Cursor)
    requires i < |lines| && RStrip(lines[i]) == Sentinel
    ensures LineStep(lines, i, c) == Next(c.(phase := AfterSentinel))
  {
    SentinelTokens();
  }

  lemma SentinelTokens()
    ensures |Tokens(Sentinel)| > 0 && Tokens(Sentinel)[|Tokens(Sentinel)| - 1] !in HeaderWords
  {
    SentinelFacts();
    TokensLastChar(Sentinel);
    HeaderWordsEnd();
  }

  /** A line after the sentinel whose last word is no header is read as a
      field of the record in progress. */
  lemma FieldStep(lines: seq<string>, i: nat, c: Cursor, line: string)
    requires i < |lines| && lines[i] == line + "\n"
    requires |line| > 2 && line[2] == ' ' && !IsSpace(line[|line| - 1])
    requires c.phase != BeforeSentinel
    requires |Tokens(line)| > 0 && Tokens(line)[|Tokens(line)| - 1] !in HeaderWords
    ensures LineStep(lines, i, c) == FieldLine(lines, i, line, Tokens(line), c)
  {
    RStripLine(line);
    SentinelFacts();
  }

  /** The words of a template line with one word as its value. */
  lemma KeyValueTokens(h: string, p: string, key: string, q: string, v: string)
    requires Head(h, p, key, q) && Word(v)
    ensures var line := h + v;
      Tokens(line) == [key, v] && |line| > 2 && line[2] == ' ' && !IsSpace(line[|line| - 1])
  {
    var line := h + v;
    WordNoSpace(v);
    AllSpacesTail(q);
    assert line == p + (key + " " + (q[1..] + v));
    TokensAfterSpaces(p, key + " " + (q[1..] + v));
    TokensWordThen(key, q[1..] + v);
    TokensAfterSpaces(q[1..], v);
    TokensOfWord(v);
    assert line[2] == p[2];
    assert line[|line| - 1] == v[|v| - 1];
  }

  /** A template line with one word as its value is read as the key and
      the value. */
  lemma KeyValueStep(lines: seq<string>, i: nat, c: Cursor, h: string, p: string, key: string, q: string, v: string)
    requires i < |lines| && lines[i] == h + v + "\n"
    requires Head(h, p, key, q) && Word(v) && v !in HeaderWords
    requires c.phase != BeforeSentinel
    ensures LineStep(lines, i, c) == FieldLine(lines, i, h + v, [key, v], c)
  {
    KeyValueTokens(h, p, key, q, v);
    FieldStep(lines, i, c, h + v);
  }

  /** The words of a template line whose value ends in a quote or a brace. */
  lemma KeyRestTokens(h: string, p: string, key: string, q: string, rest: string)
    requires Head(h, p, key, q)
    requires |rest| > 0 && (rest[|rest| - 1] == '"' || rest[|rest| - 1] == '}')
    ensures var line := h + rest;
      && Tokens(line) == [key] + Tokens(rest) && |line| > 2 && line[2] == ' ' && !IsSpace(line[|line| - 1])
      && |Tokens(line)| > 0 && Tokens(line)[|Tokens(line)| - 1] !in HeaderWords
  {
    var line := h + rest;
    AllSpacesTail(q);
    assert line == p + (key + " " + (q[1..] + rest));
    TokensAfterSpaces(p, key + " " + (q[1..] + rest));
    TokensWordThen(key, q[1..] + rest);
    TokensAfterSpaces(q[1..], rest);
    TokensLastChar(rest);
    HeaderWordsEnd();
    assert line[2] == p[2];
    assert line[|line| - 1] == rest[|rest| - 1];
  }

  /** A template line whose value ends in a quote or a brace is read as
      the key and the words of the value. */
  lemma KeyRestStep(lines: seq<string>, i: nat, c: Cursor, h: string, p: string, key: string, q: string, rest: string)
    requires i < |lines| && lines[i] == h + rest + "\n"
    requires Head(h, p, key, q)
    requires |rest| > 0 && (rest[|rest| - 1] == '"' || rest[|rest| - 1] == '}')
    requires c.phase != BeforeSentinel
    ensures LineStep(lines, i, c) == FieldLine(lines, i, h + rest, [key] + Tokens(rest), c)
  {
    KeyRestTokens(h, p, key, q, rest);
    FieldStep(lines, i, c, h + rest);
  }

  /** The tokens of a header line: the name and the header word. */
  lemma HeaderTokens(name: string, gap: string, word: string)
    requires Word(name) && AllSpaces(gap) && |gap| > 0 && word != "" && ' ' !in word
    ensures Tokens("  " + name + gap + word) == [name, word]
  {
    WordNoSpace(name);
    AllSpacesTail(gap);
    assert "  " + name + gap + word == "  " + (name + " " + (gap[1..] + word));
    TokensAfterSpaces("  ", name + " " + (gap[1..] + word));
    TokensWordThen(name, gap[1..] + word);
    TokensAfterSpaces(gap[1..], word);
    TokensOfWord(word);
  }

  /** A header line is read as a field line of the record it starts. */
  lemma HeaderLineStep(lines: seq<string>, i: nat, c: Cursor, name: string, gap: string, word: string)
    requires i < |lines| && lines[i] == "  " + name + gap + word + "\n"
    requires Word(name) && AllSpaces(gap) && |gap| > 0 && Word(word) && word[|word| - 1] != '}'
    requires c.phase != BeforeSentinel
    ensures LineStep(lines, i, c) == FieldLine(lines, i, "  " + name + gap + word, [name, word], Header([name, word], c))
  {
    var line := "  " + name + gap + word;
    WordNoSpace(word);
    HeaderTokens(name, gap, word);
    assert line[|line| - 1] == word[|word| - 1];
    RStripLine(line);
    SentinelFacts();
  }

  lemma ObjectTypeWord()
    ensures "    OBJECT-TYPE" == "    " + "OBJECT-TYPE"
    ensures AllSpaces("    ") && Word("OBJECT-TYPE") && "OBJECT-TYPE"[10] == 'E'
  {
  }

  lemma NotificationTypeWord()
    ensures "   NOTIFICATION-TYPE" == "   " + "NOTIFICATION-TYPE"
    ensures AllSpaces("   ") && Word("NOTIFICATION-TYPE") && "NOTIFICATION-TYPE"[16] == 'E'
  {
  }

  lemma ObjectHeaderShape(name: string)
    ensures ObjectHeaderLine(name) == "  " + name + "    " + "OBJECT-TYPE"
    ensures AllSpaces("    ") && Word("OBJECT-TYPE") && "OBJECT-TYPE"[10] == 'E'
  {
    ObjectTypeWord();
  }

  lemma TrapHeaderShape(name: string)
    ensures TrapHeaderLine(name) == "  " + name + "   " + "NOTIFICATION-TYPE"
    ensures AllSpaces("   ") && Word("NOTIFICATION-TYPE") && "NOTIFICATION-TYPE"[16] == 'E'
  {
    NotificationTypeWord();
  }

  /** A line whose first word is no key leaves the object in progress. */
  lemma ObjectOtherLine(lines: seq<string>, i: nat, line: string, toks: seq<string>, c: Cursor)
    requires i < |lines| && |toks| > 0 && c.phase == InObject && toks[0] !in ObjectKeys
    ensures FieldLine(lines, i, line, toks, c) == Next(c)
  {
  }

  /** A line whose first word is no key leaves the trap in progress. */
  lemma TrapOtherLine(lines: seq<string>, i: nat, line: string, toks: seq<string>, c: Cursor)
    requires i < |lines| && |toks| > 0 && c.phase == InTrap && toks[0] !in TrapKeys
    ensures FieldLine(lines, i, line, toks, c) == Next(c)
  {
  }

  lemma HeaderObjectType(name: string, c: Cursor)
    ensures Header([name, "OBJECT-TYPE"], c) == Cursor(InObject, NewObject(name), c.trap)
  {
  }

  lemma HeaderNotificationType(name: string, c: Cursor)
    ensures Header([name, "NOTIFICATION-TYPE"], c) == Cursor(InTrap, c.obj, NewTrap(name))
  {
    assert "NOTIFICATION-TYPE" != "OBJECT-TYPE";
  }

  /** The header of an OBJECT-TYPE starts a fresh object with its name. */
  lemma ObjectHeaderStep(lines: seq<string>, i: nat, c: Cursor, name: string)
    requires i < |lines| && lines[i] == ObjectHeaderLine(name) + "\n"
    requires Word(name) && name !in ObjectKeys && c.phase != BeforeSentinel
    ensures LineStep(lines, i, c) == Next(Cursor(InObject, NewObject(name), c.trap))
  {
    var word := "OBJECT-TYPE";
    ObjectHeaderShape(name);
    HeaderLineStep(lines, i, c, name, "    ", word);
    HeaderObjectType(name, c);
    ObjectOtherLine(lines, i, "  " + name + "    " + word, [name, word], Cursor(InObject, NewObject(name), c.trap));
  }

  /** The header of a NOTIFICATION-TYPE starts a fresh trap with its name. */
  lemma TrapHeaderStep(lines: seq<string>, i: nat, c: Cursor, name: string)
    requires i < |lines| && lines[i] == TrapHeaderLine(name) + "\n"
    requires Word(name) && name !in TrapKeys && c.phase != BeforeSentinel
    ensures LineStep(lines, i, c) == Next(Cursor(InTrap, c.obj, NewTrap(name)))
  {
    var word := "NOTIFICATION-TYPE";
    TrapHeaderShape(name);
    HeaderLineStep(lines, i, c, name, "   ", word);
    HeaderNotificationType(name, c);
    TrapOtherLine(lines, i, "  " + name + "   " + word, [name, word], Cursor(InTrap, c.obj, NewTrap(name)));
  }

  // ---------------------------------------------------------------------
  // read_string_end and findlist over the written lines

  /** The text after the first `c` of `p + [c] + rest`, when `p` has none. */
  lemma {:induction false} AfterFirstAt(p: string, c: char, rest: string)
    requires c !in p
    ensures AfterFirst(p + [c] + rest, c) == Some(rest)
    decreases |p|
  {
    var s := p + [c] + rest;
    if |p| == 0 {
      assert s == [c] + rest;
    } else {
      assert s[0] == p[0] && p[0] in p;
      assert s[1..] == p[1..] + [c] + rest;
      AfterFirstAt(p[1..], c, rest);
    }
  }

  /** The text of `a + [c] + rest` up to its first `c`, when `a` has none. */
  lemma {:induction false} UpToAt(a: string, c: char, rest: string)
    requires c !in a
    ensures UpTo(a + [c] + rest, c) == a
    decreases |a|
  {
    var s := a + [c] + rest;
    if |a| == 0 {
      assert s == [c] + rest;
    } else {
      assert s[0] == a[0] && a[0] in a;
      assert s[1..] == a[1..] + [c] + rest;
      UpToAt(a[1..], c, rest);
      assert a == [a[0]] + a[1..];
    }
  }

  /** A line with `d` as its only quoted part has two quotes. */
  lemma QuotedLineCount(h: string, d: string)
    requires '"' !in h && QuotedOnce(d)
    ensures Count(h + d + "\n", '"') == 2
  {
    var inner := d[1..|d| - 1];
    assert '"' !in inner;
    var x := inner + "\"\n";
    assert d + "\n" == "\"" + x;
    CountAppend(inner, "\"\n", '"');
    QuoteThenLineEnd();
    assert ("\"" + x)[1..] == x;
    assert Count("\"" + x, '"') == 1 + Count(x, '"');
    CountAppend(h, d + "\n", '"');
    assert h + d + "\n" == h + (d + "\n");
  }

  lemma QuoteThenLineEnd()
    ensures Count("\"\n", '"') == 1
  {
    assert "\"\n"[1..] == "\n";
  }

  /** The quoted part of a line with one quoted part. */
  lemma QuotedLineText(h: string, d: string)
    requires '"' !in h && QuotedOnce(d)
    ensures QuotedText(h + d + "\n") == Some(d[1..|d| - 1])
  {
    var inner := d[1..|d| - 1];
    var x := inner + "\"\n";
    assert h + d + "\n" == h + ['"'] + x;
    AfterFirstAt(h, '"', x);
    assert x == inner + ['"'] + "\n";
    UpToAt(inner, '"', "\n");
  }

  /** The reader puts the quotes back around what `read_string_end` gives. */
  lemma Requote(d: string)
    requires QuotedOnce(d)
    ensures "\"" + d[1..|d| - 1] + "\"" == d
  {
  }

  /** The scan of `findlist` and `read_string_end` stops after one line
      that has both marks. */
  lemma ScanOneLine(lines: seq<string>, i: nat, mark: char)
    requires i < |lines| && Count(lines[i], mark) == 2
    ensures ScanToSecondMark(lines, i, mark, 0, "") == Some(lines[i])
  {
    assert "" + lines[i] == lines[i];
  }

  /** `read_string_end` on a line with exactly two quotes, both in `d`. */
  lemma QuotedLine(lines: seq<string>, i: nat, h: string, d: string)
    requires i < |lines| && lines[i] == h + d + "\n"
    requires '"' !in h && QuotedOnce(d)
    ensures QuotedAt(lines, i) == Some(d[1..|d| - 1])
  {
    QuotedLineCount(h, d);
    ScanOneLine(lines, i, '"');
    QuotedLineText(h, d);
  }

  /** A prefix without `c` adds no `c`. */
  lemma CountAfterFree(a: string, b: string, c: char)
    requires c !in a
    ensures Count(a + b, c) == Count(b, c)
  {
    CountAppend(a, b, c);
  }

  /** The OBJECTS line has one `}`, at its end. */
  lemma ObjectsLineBraces(members: string)
    requires '}' !in members
    ensures Count(TrapObjectsLine(members) + "\n", '}') == 1
  {
    var a := "     OBJECTS             { ";
    assert '}' !in a;
    assert TrapObjectsLine(members) + "\n" == a + (members + " }\n");
    CountAfterFree(a, members + " }\n", '}');
    CountAfterFree(members, " }\n", '}');
    assert Count(" }\n", '}') == 1;
  }

  /** A line written as `head + v` has no `}` when neither part has. */
  lemma LineWithoutBrace(head: string, v: string)
    requires '}' !in head && '}' !in v
    ensures Count(head + v + "\n", '}') == 0
  {
    CountAppend(head, v, '}');
    CountAppend(head + v, "\n", '}');
  }

  /** The trap's `::=` line has one `}`, at its end. */
  lemma TrapAssignBraces(counter: nat)
    ensures Count(TrapAssignLine(counter) + "\n", '}') == 1
  {
    var a := "     ::= { nutanix ";
    var ds := NatToString(counter);
    assert '}' !in ds by {
      assert forall k :: 0 <= k < |ds| ==> IsDigit(ds[k]);
    }
    assert '}' !in a;
    assert TrapAssignLine(counter) + "\n" == a + (ds + "}\n");
    CountAfterFree(a, ds + "}\n", '}');
    CountAfterFree(ds, "}\n", '}');
    assert Count("}\n", '}') == 1;
  }

  /** The scan of `findlist` and `read_string_end` over four lines with
      one mark on the first and one on the last. */
  lemma ScanFourLines(lines: seq<string>, i: nat, mark: char)
    requires i + 4 <= |lines|
    requires Count(lines[i], mark) == 1 && Count(lines[i + 1], mark) == 0
    requires Count(lines[i + 2], mark) == 0 && Count(lines[i + 3], mark) == 1
    ensures ScanToSecondMark(lines, i, mark, 0, "") == Some(lines[i] + lines[i + 1] + lines[i + 2] + lines[i + 3])
  {
    var l0, l1, l2, l3 := lines[i], lines[i + 1], lines[i + 2], lines[i + 3];
    assert ScanToSecondMark(lines, i, mark, 0, "") == ScanToSecondMark(lines, i + 1, mark, 1, "" + l0);
    assert "" + l0 == l0;
    assert ScanToSecondMark(lines, i + 1, mark, 1, l0) == ScanToSecondMark(lines, i + 2, mark, 1, l0 + l1);
    assert ScanToSecondMark(lines, i + 2, mark, 1, l0 + l1) == ScanToSecondMark(lines, i + 3, mark, 1, l0 + l1 + l2);
    assert ScanToSecondMark(lines, i + 3, mark, 1, l0 + l1 + l2) == ScanToSecondMark(lines, i + 4, mark, 2, l0 + l1 + l2 + l3);
  }

  lemma Reassociate(a: string, b: string, c: string, d: string, e: string)
    ensures (a + b) + c + d + e == a + (b + c + d + e)
  {
  }

  /** The text between the braces of the OBJECTS line, whatever follows it. */
  lemma ObjectsBraceText(members: string, tail: string)
    requires '}' !in members
    ensures BraceText(TrapObjectsLine(members) + tail) == Some(" " + members + " ")
  {
    var pre := "     OBJECTS             ";
    var inside := " " + members + " ";
    assert '{' !in pre;
    assert TrapObjectsLine(members) + tail == pre + ['{'] + (inside + ['}'] + tail);
    assert '}' !in inside;
    AfterFirstAt(pre, '{', inside + ['}'] + tail);
    UpToAt(inside, '}', tail);
  }

  /** The `}` of the trap template from its OBJECTS line on: one on the
      OBJECTS line, one on the `::=` line. */
  lemma TrapBraces(members: string, status: string, d: string, counter: nat)
    requires '}' !in members && '}' !in status && '}' !in d
    ensures Count(TrapObjectsLine(members) + "\n", '}') == 1
    ensures Count(TrapStatusLine(status) + "\n", '}') == 0
    ensures Count(TrapDescriptionLine(d) + "\n", '}') == 0
    ensures Count(TrapAssignLine(counter) + "\n", '}') == 1
  {
    ObjectsLineBraces(members);
    assert '}' !in "     STATUS                " && '}' !in "     DESCRIPTION           ";
    LineWithoutBrace("     STATUS                ", status);
    LineWithoutBrace("     DESCRIPTION           ", d);
    TrapAssignBraces(counter);
  }

  /** `findlist` on the OBJECTS line of the trap template: the lines up to
      the `::=` line hold the two `}` it looks for, and the list is the
      text between the first braces. */
  lemma ObjectsListRead(lines: seq<string>, i: nat, members: string, status: string, d: string, counter: nat)
    requires i + 4 <= |lines|
    requires lines[i] == TrapObjectsLine(members) + "\n"
    requires lines[i + 1] == TrapStatusLine(status) + "\n"
    requires lines[i + 2] == TrapDescriptionLine(d) + "\n"
    requires lines[i + 3] == TrapAssignLine(counter) + "\n"
    requires '}' !in members && '}' !in status && '}' !in d
    ensures ObjectsListAt(lines, i) == Some(Split(RemoveWhitespace(" " + members + " "), ","))
  {
    TrapBraces(members, status, d, counter);
    ScanFourLines(lines, i, '}');
    var tail := "\n" + lines[i + 1] + lines[i + 2] + lines[i + 3];
    Reassociate(TrapObjectsLine(members), "\n", lines[i + 1], lines[i + 2], lines[i + 3]);
    ObjectsBraceText(members, tail);
  }

  lemma SeparatorFacts()
    ensures RemoveWhitespace(" ") == "" && RemoveWhitespace(", ") == ","
    ensures "," == [','] && Split("", ",") == [""]
  {
    assert RemoveWhitespace(" ") == "";
    assert RemoveWhitespace(", ") == ",";
  }

  /** The member names, listed with `", "` between spaces, read back;
      an empty list reads as one empty name. */
  lemma MembersRead(names: seq<string>)
    requires forall k :: 0 <= k < |names| ==> Word(names[k]) && ',' !in names[k]
    ensures Split(RemoveWhitespace(" " + Join(names, ", ") + " "), ",") == ReadMembers(names)
  {
    var j := Join(names, ", ");
    SeparatorFacts();
    RemoveWhitespaceAppend(" " + j, " ");
    RemoveWhitespaceAppend(" ", j);
    RemoveWhitespaceJoin(names);
    var packed := Join(names, ",");
    assert RemoveWhitespace(" " + j + " ") == packed by {
      assert RemoveWhitespace(" " + j) == "" + packed;
      assert "" + packed == packed && packed + "" == packed;
    }
    if |names| > 0 {
      SplitJoin(names, ',');
    } else {
      assert packed == "";
    }
  }

  lemma {:induction false} RemoveWhitespaceJoin(names: seq<string>)
    requires forall k :: 0 <= k < |names| ==> Word(names[k])
    ensures RemoveWhitespace(Join(names, ", ")) == Join(names, ",")
  {
    if |names| == 1 {
      RemoveWhitespaceKeeps(names[0]);
    } else if |names| > 1 {
      RemoveWhitespaceJoin(names[1..]);
      RemoveWhitespaceKeeps(names[0]);
      SeparatorFacts();
      RemoveWhitespaceAppend(names[0] + ", ", Join(names[1..], ", "));
      RemoveWhitespaceAppend(names[0], ", ");
    }
  }

  // ---------------------------------------------------------------------
  // The fields of an OBJECT-TYPE

  /** The SYNTAX line gives back the syntax (`refinesyntax`). */
  lemma SyntaxStep(lines: seq<string>, i: nat, c: Cursor, syntax: string)
    requires i < |lines| && lines[i] == SyntaxLine(syntax) + "\n"
    requires Word(syntax) && syntax !in HeaderWords && c.phase == InObject
    ensures LineStep(lines, i, c) == Next(c.(obj := c.obj.(syntax := syntax)))
  {
    var h := "    SYNTAX" + SyntaxGap;
    SyntaxHead();
    assert SyntaxLine(syntax) == h + syntax;
    KeyValueStep(lines, i, c, h, "    ", "SYNTAX", SyntaxGap, syntax);
    SyntaxReadBack(syntax);
  }

  /** The MAX-ACCESS line gives back the access, its last word. */
  lemma MaxAccessStep(lines: seq<string>, i: nat, c: Cursor, access: string)
    requires i < |lines| && lines[i] == MaxAccessLine(access) + "\n"
    requires Word(access) && access !in HeaderWords && c.phase == InObject
    ensures LineStep(lines, i, c) == Next(c.(obj := c.obj.(maxAccess := access)))
  {
    MaxAccessHead();
    KeyValueStep(lines, i, c, "    MAX-ACCESS           ", "    ", "MAX-ACCESS", "           ", access);
  }

  /** The STATUS line of an object gives back the status. */
  lemma ObjectStatusStep(lines: seq<string>, i: nat, c: Cursor, status: string)
    requires i < |lines| && lines[i] == ObjectStatusLine(status) + "\n"
    requires Word(status) && status !in HeaderWords && c.phase == InObject
    ensures LineStep(lines, i, c) == Next(c.(obj := c.obj.(status := status)))
  {
    ObjectStatusHead();
    KeyValueStep(lines, i, c, "    STATUS               ", "    ", "STATUS", "               ", status);
  }

  /** The DESCRIPTION line of an object gives back the quoted description
      (`read_string_end`, then the quotes put back). */
  lemma ObjectDescriptionStep(lines: seq<string>, i: nat, c: Cursor, d: string)
    requires i < |lines| && lines[i] == ObjectDescriptionLine(d) + "\n"
    requires QuotedOnce(d) && c.phase == InObject
    ensures LineStep(lines, i, c) == Next(c.(obj := c.obj.(description := d)))
  {
    var h := "    DESCRIPTION          ";
    ObjectDescriptionHead();
    DescriptionHeadsUnquoted();
    KeyRestStep(lines, i, c, h, "    ", "DESCRIPTION", "          ", d);
    QuotedLine(lines, i, h, d);
    Requote(d);
  }

  lemma ObjectAssignShape(oid: string)
    ensures ObjectAssignLine(oid) == "    ::= " + ("{" + Replace(oid, '.', ' ') + "}")
    ensures Head("    ::= ", "    ", "::=", " ")
  {
    ObjectAssignHead();
  }

  /** The `::=` line of an object completes it, with the first number of
      the line as its counter and the OID it was written from. */
  lemma ObjectAssignStep(lines: seq<string>, i: nat, c: Cursor, oid: string)
    requires i < |lines| && lines[i] == ObjectAssignLine(oid) + "\n"
    requires PlainOid(oid) && Number(ObjectAssignLine(oid)).Some? && c.phase == InObject
    ensures LineStep(lines, i, c) == AddObj(c.(obj := c.obj.(counter := Number(ObjectAssignLine(oid)).value, oid := oid)))
  {
    var rest := "{" + Replace(oid, '.', ' ') + "}";
    ObjectAssignShape(oid);
    KeyRestStep(lines, i, c, "    ::= ", "    ", "::=", " ", rest);
    ParseObjectOid(oid);
  }

  // ---------------------------------------------------------------------
  // The fields of a NOTIFICATION-TYPE

  /** An OBJECTS line inside a trap takes the list `findlist` returns. */
  lemma ObjectsField(lines: seq<string>, i: nat, line: string, toks: seq<string>, c: Cursor, names: seq<string>)
    requires i < |lines| && |toks| > 0 && toks[0] == "OBJECTS" && c.phase == InTrap
    requires ObjectsListAt(lines, i) == Some(names)
    ensures FieldLine(lines, i, line, toks, c) == Next(c.(trap := c.trap.(objects := names)))
  {
  }

  /** The OBJECTS line gives back the member list (`findlist`). */
  lemma TrapObjectsStep(lines: seq<string>, i: nat, c: Cursor, members: string, names: seq<string>)
    requires i < |lines| && lines[i] == TrapObjectsLine(members) + "\n"
    requires ObjectsListAt(lines, i) == Some(names)
    requires c.phase == InTrap
    ensures LineStep(lines, i, c) == Next(c.(trap := c.trap.(objects := names)))
  {
    TrapObjectsShape(members);
    ObjectsKeyStep(lines, i, c, "     OBJECTS             ", "             ", "{ " + members + " }", names);
  }

  lemma TrapObjectsShape(members: string)
    ensures TrapObjectsLine(members) == "     OBJECTS             " + ("{ " + members + " }")
    ensures var rest := "{ " + members + " }"; |rest| > 0 && rest[|rest| - 1] == '}'
    ensures Head("     OBJECTS             ", "     ", "OBJECTS", "             ")
  {
    TrapObjectsHead();
  }

  lemma ObjectsKeyStep(lines: seq<string>, i: nat, c: Cursor, h: string, q: string, rest: string, names: seq<string>)
    requires i < |lines| && lines[i] == h + rest + "\n"
    requires Head(h, "     ", "OBJECTS", q)
    requires |rest| > 0 && rest[|rest| - 1] == '}'
    requires ObjectsListAt(lines, i) == Some(names)
    requires c.phase == InTrap
    ensures LineStep(lines, i, c) == Next(c.(trap := c.trap.(objects := names)))
  {
    KeyRestStep(lines, i, c, h, "     ", "OBJECTS", q, rest);
    var toks := ["OBJECTS"] + Tokens(rest);
    assert toks[0] == "OBJECTS";
    ObjectsField(lines, i, h + rest, toks, c, names);
  }

  /** The STATUS line of a trap gives back the status. */
  lemma TrapStatusStep(lines: seq<string>, i: nat, c: Cursor, status: string)
    requires i < |lines| && lines[i] == TrapStatusLine(status) + "\n"
    requires Word(status) && status !in HeaderWords && c.phase == InTrap
    ensures LineStep(lines, i, c) == Next(c.(trap := c.trap.(status := status)))
  {
    TrapStatusHead();
    KeyValueStep(lines, i, c, "     STATUS                ", "     ", "STATUS", "                ", status);
  }

  /** The DESCRIPTION line of a trap gives back the quoted description. */
  lemma TrapDescriptionStep(lines: seq<string>, i: nat, c: Cursor, d: string)
    requires i < |lines| && lines[i] == TrapDescriptionLine(d) + "\n"
    requires QuotedOnce(d) && c.phase == InTrap
    ensures LineStep(lines, i, c) == Next(c.(trap := c.trap.(description := d)))
  {
    var h := "     DESCRIPTION           ";
    TrapDescriptionHead();
    DescriptionHeadsUnquoted();
    KeyRestStep(lines, i, c, h, "     ", "DESCRIPTION", "           ", d);
    QuotedLine(lines, i, h, d);
    Requote(d);
  }

  lemma TrapAssignShape(counter: nat)
    ensures TrapAssignLine(counter) == "     ::= " + ("{ nutanix " + NatToString(counter) + "}")
    ensures Head("     ::= ", "     ", "::=", " ")
  {
    TrapAssignHead();
  }

  /** The `::=` line of a trap completes it, with its counter and the OID
      `nutanix.<counter>`. */
  lemma TrapAssignStep(lines: seq<string>, i: nat, c: Cursor, counter: nat)
    requires i < |lines| && lines[i] == TrapAssignLine(counter) + "\n"
    requires c.phase == InTrap
    ensures LineStep(lines, i, c) == AddTrp(c.(trap := c.trap.(counter := counter, oid := "nutanix." + NatToString(counter))))
  {
    var rest := "{ nutanix " + NatToString(counter) + "}";
    TrapAssignShape(counter);
    KeyRestStep(lines, i, c, "     ::= ", "     ", "::=", " ", rest);
    NumberOfTrapLine(counter);
    ParseTrapOid(counter);
  }

  // ---------------------------------------------------------------------
  // Whole blocks

  /** The object `read_file` takes back from the block of `o`: `o`, with
      the first number of its `::=` line as the counter. */
  function ReadObject(o: NtxObject): NtxObject
    requires Number(ObjectAssignLine(o.oid)).Some?
  {
    o.(counter := Number(ObjectAssignLine(o.oid)).value)
  }

  /** The trap `read_file` takes back from the block of `t`: the member
      list as `findlist` reads it and the OID `nutanix.<counter>`. */
  function ReadTrap(t: NtxTrap): NtxTrap
  {
    t.(objects := ReadMembers(t.objects), oid := "nutanix." + NatToString(t.counter))
  }

  /** The lines `k` to `k + 7` of `lines` are the template lines of `o`. */
  lemma ObjectLinesAt(lines: seq<string>, k: nat, o: NtxObject)
    requires k + 7 <= |lines| && lines[k..k + 7] == ObjectLines(o)
    ensures lines[k] == "\n"
    ensures lines[k + 1] == ObjectHeaderLine(o.name) + "\n"
    ensures lines[k + 2] == SyntaxLine(o.syntax) + "\n"
    ensures lines[k + 3] == MaxAccessLine(o.maxAccess) + "\n"
    ensures lines[k + 4] == ObjectStatusLine(o.status) + "\n"
    ensures lines[k + 5] == ObjectDescriptionLine(o.description) + "\n"
    ensures lines[k + 6] == ObjectAssignLine(o.oid) + "\n"
  {
    forall j | 0 <= j < 7 ensures lines[k + j] == ObjectLines(o)[j] {
      assert lines[k..k + 7][j] == lines[k + j];
    }
  }

  /** The first two lines of an OBJECTS-TYPE block start the object. */
  lemma ObjectBlockHead(lines: seq<string>, k: nat, reg0: Registry, c: Cursor, r: Registry, o: NtxObject)
    requires ObjectReadable(o)
    requires k + 7 <= |lines| && lines[k..k + 7] == ObjectLines(o)
    requires Run(lines, k, reg0) == Reading(c, r) && c.phase != BeforeSentinel
    ensures Run(lines, k + 2, reg0) == Reading(Cursor(InObject, NewObject(o.name), c.trap), r)
  {
    ObjectLinesAt(lines, k, o);
    BlankStep(lines, k, c);
    RunNext(lines, k, reg0, c, r);
    ObjectHeaderStep(lines, k + 1, c, o.name);
    RunNext(lines, k + 1, reg0, c, r);
  }

  /** The field lines of an OBJECT-TYPE block fill the object in. */
  lemma ObjectBlockFields(lines: seq<string>, k: nat, reg0: Registry, c: Cursor, r: Registry, o: NtxObject)
    requires ObjectReadable(o)
    requires k + 7 <= |lines| && lines[k..k + 7] == ObjectLines(o)
    requires Run(lines, k + 2, reg0) == Reading(c, r) && c.phase == InObject && c.obj == NewObject(o.name)
    ensures Run(lines, k + 6, reg0) == Reading(c.(obj := o.(counter := 0, oid := "")), r)
  {
    ObjectLinesAt(lines, k, o);
    var c3 := c.(obj := c.obj.(syntax := o.syntax));
    SyntaxStep(lines, k + 2, c, o.syntax);
    RunNext(lines, k + 2, reg0, c, r);
    var c4 := c3.(obj := c3.obj.(maxAccess := o.maxAccess));
    MaxAccessStep(lines, k + 3, c3, o.maxAccess);
    RunNext(lines, k + 3, reg0, c3, r);
    var c5 := c4.(obj := c4.obj.(status := o.status));
    ObjectStatusStep(lines, k + 4, c4, o.status);
    RunNext(lines, k + 4, reg0, c4, r);
    ObjectDescriptionStep(lines, k + 5, c5, o.description);
    RunNext(lines, k + 5, reg0, c5, r);
  }

  /** The `::=` line of an OBJECT-TYPE block registers the object. */
  lemma ObjectBlockEnd(lines: seq<string>, k: nat, reg0: Registry, c: Cursor, r: Registry, o: NtxObject)
    requires ObjectReadable(o)
    requires k + 7 <= |lines| && lines[k..k + 7] == ObjectLines(o)
    requires Run(lines, k + 6, reg0) == Reading(c, r) && c.phase == InObject && c.obj == o.(counter := 0, oid := "")
    ensures Run(lines, k + 7, reg0) == Reading(c.(obj := ReadObject(o)), r.AddObject(ReadObject(o)))
  {
    ObjectLinesAt(lines, k, o);
    ObjectAssignStep(lines, k + 6, c, o.oid);
    RunNext(lines, k + 6, reg0, c, r);
    var n := Number(ObjectAssignLine(o.oid)).value;
    assert c.obj.(counter := n, oid := o.oid) == ReadObject(o);
  }

  /** An OBJECT-TYPE block as `dump_object_file` writes it, read after the
      sentinel, registers the object it was written from (`add_object`),
      with the first number of its `::=` line as the counter; the object
      is then the one in progress and the trap in progress is untouched. */
  lemma ObjectBlockRead(lines: seq<string>, k: nat, reg0: Registry, c: Cursor, r: Registry, o: NtxObject)
    requires ObjectReadable(o)
    requires k + 7 <= |lines| && lines[k..k + 7] == ObjectLines(o)
    requires Run(lines, k, reg0) == Reading(c, r) && c.phase != BeforeSentinel
    ensures Run(lines, k + 7, reg0) == Reading(Cursor(InObject, ReadObject(o), c.trap), r.AddObject(ReadObject(o)))
  {
    ObjectBlockHead(lines, k, reg0, c, r, o);
    var c2 := Cursor(InObject, NewObject(o.name), c.trap);
    ObjectBlockFields(lines, k, reg0, c2, r, o);
    ObjectBlockEnd(lines, k, reg0, c2.(obj := o.(counter := 0, oid := "")), r, o);
  }

  /** The lines `k` to `k + 6` of `lines` are the template lines of `t`. */
  lemma TrapLinesAt(lines: seq<string>, k: nat, t: NtxTrap)
    requires k + 6 <= |lines| && lines[k..k + 6] == TrapLines(t, Join(t.objects, ", "))
    ensures lines[k] == "\n"
    ensures lines[k + 1] == TrapHeaderLine(t.name) + "\n"
    ensures lines[k + 2] == TrapObjectsLine(Join(t.objects, ", ")) + "\n"
    ensures lines[k + 3] == TrapStatusLine(t.status) + "\n"
    ensures lines[k + 4] == TrapDescriptionLine(t.description) + "\n"
    ensures lines[k + 5] == TrapAssignLine(t.counter) + "\n"
  {
    forall j | 0 <= j < 6 ensures lines[k + j] == TrapLines(t, Join(t.objects, ", "))[j] {
      assert lines[k..k + 6][j] == lines[k + j];
    }
  }

  /** The first two lines of a NOTIFICATION-TYPE block start the trap. */
  lemma TrapBlockHead(lines: seq<string>, k: nat, reg0: Registry, c: Cursor, r: Registry, t: NtxTrap)
    requires TrapHeadReadable(t)
    requires k + 6 <= |lines| && lines[k..k + 6] == TrapLines(t, Join(t.objects, ", "))
    requires Run(lines, k, reg0) == Reading(c, r) && c.phase != BeforeSentinel
    ensures Run(lines, k + 2, reg0) == Reading(Cursor(InTrap, c.obj, NewTrap(t.name)), r)
  {
    TrapLinesAt(lines, k, t);
    BlankStep(lines, k, c);
    RunNext(lines, k, reg0, c, r);
    TrapHeaderStep(lines, k + 1, c, t.name);
    RunNext(lines, k + 1, reg0, c, r);
  }

  /** The OBJECTS line of a block reads the members back. */
  lemma TrapMembersStep(lines: seq<string>, k: nat, c: Cursor, t: NtxTrap)
    requires TrapHeadReadable(t)
    requires k + 6 <= |lines| && lines[k..k + 6] == TrapLines(t, Join(t.objects, ", "))
    requires c.phase == InTrap
    ensures LineStep(lines, k + 2, c) == Next(c.(trap := c.trap.(objects := ReadMembers(t.objects))))
  {
    TrapLinesAt(lines, k, t);
    var members := Join(t.objects, ", ");
    assert '}' !in ", ";
    NotInJoin(t.objects, ", ", '}');
    ObjectsListRead(lines, k + 2, members, t.status, t.description, t.counter);
    TrapObjectsStep(lines, k + 2, c, members, Split(RemoveWhitespace(" " + members + " "), ","));
    MembersRead(t.objects);
  }

  /** The OBJECTS and STATUS lines of a NOTIFICATION-TYPE block. */
  lemma TrapBlockMembers(lines: seq<string>, k: nat, reg0: Registry, c: Cursor, r: Registry, t: NtxTrap)
    requires TrapHeadReadable(t)
    requires k + 6 <= |lines| && lines[k..k + 6] == TrapLines(t, Join(t.objects, ", "))
    requires Run(lines, k + 2, reg0) == Reading(c, r) && c.phase == InTrap && c.trap == NewTrap(t.name)
    ensures Run(lines, k + 4, reg0) == Reading(c.(trap := c.trap.(objects := ReadMembers(t.objects), status := t.status)), r)
  {
    TrapLinesAt(lines, k, t);
    var c3 := c.(trap := c.trap.(objects := ReadMembers(t.objects)));
    TrapMembersStep(lines, k, c, t);
    RunNext(lines, k + 2, reg0, c, r);
    TrapStatusStep(lines, k + 3, c3, t.status);
    RunNext(lines, k + 3, reg0, c3, r);
  }

  /** The field lines of a NOTIFICATION-TYPE block fill the trap in. */
  lemma TrapBlockFields(lines: seq<string>, k: nat, reg0: Registry, c: Cursor, r: Registry, t: NtxTrap)
    requires TrapReadable(t)
    requires k + 6 <= |lines| && lines[k..k + 6] == TrapLines(t, Join(t.objects, ", "))
    requires Run(lines, k + 2, reg0) == Reading(c, r) && c.phase == InTrap && c.trap == NewTrap(t.name)
    ensures Run(lines, k + 5, reg0) == Reading(c.(trap := ReadTrap(t).(counter := 0, oid := "")), r)
  {
    TrapBlockMembers(lines, k, reg0, c, r, t);
    var c4 := c.(trap := c.trap.(objects := ReadMembers(t.objects), status := t.status));
    TrapLinesAt(lines, k, t);
    TrapDescriptionStep(lines, k + 4, c4, t.description);
    RunNext(lines, k + 4, reg0, c4, r);
  }

  /** The `::=` line of a NOTIFICATION-TYPE block registers the trap. */
  lemma TrapBlockEnd(lines: seq<string>, k: nat, reg0: Registry, c: Cursor, r: Registry, t: NtxTrap)
    requires k + 6 <= |lines| && lines[k..k + 6] == TrapLines(t, Join(t.objects, ", "))
    requires Run(lines, k + 5, reg0) == Reading(c, r) && c.phase == InTrap && c.trap == ReadTrap(t).(counter := 0, oid := "")
    ensures Run(lines, k + 6, reg0) == Reading(c.(trap := ReadTrap(t)), r.AddTrap(ReadTrap(t)))
  {
    TrapLinesAt(lines, k, t);
    TrapAssignStep(lines, k + 5, c, t.counter);
    RunNext(lines, k + 5, reg0, c, r);
    assert c.trap.(counter := t.counter, oid := "nutanix." + NatToString(t.counter)) == ReadTrap(t);
  }

  /** A NOTIFICATION-TYPE block as `dump_trap_file` writes it, read after
      the sentinel, registers the trap it was written from (`add_trap`),
      with its members as `findlist` reads them and the OID
      `nutanix.<counter>`; the object in progress is untouched. */
  lemma TrapBlockRead(lines: seq<string>, k: nat, reg0: Registry, c: Cursor, r: Registry, t: NtxTrap)
    requires TrapReadable(t)
    requires k + 6 <= |lines| && lines[k..k + 6] == TrapLines(t, Join(t.objects, ", "))
    requires Run(lines, k, reg0) == Reading(c, r) && c.phase != BeforeSentinel
    ensures Run(lines, k + 6, reg0) == Reading(Cursor(InTrap, c.obj, ReadTrap(t)), r.AddTrap(ReadTrap(t)))
  {
    TrapBlockHead(lines, k, reg0, c, r, t);
    var c2 := Cursor(InTrap, c.obj, NewTrap(t.name));
    TrapBlockFields(lines, k, reg0, c2, r, t);
    TrapBlockEnd(lines, k, reg0, c2.(trap := ReadTrap(t).(counter := 0, oid := "")), r, t);
  }

  // ---------------------------------------------------------------------
  // Files

  /** The sentinel line, as `readlines` gives it, starts the records part. */
  lemma SentinelFirst(lines: seq<string>, reg0: Registry)
    requires |lines| > 0 && lines[0] == SentinelLine
    ensures Run(lines, 1, reg0) == Reading(Start.(phase := AfterSentinel), reg0)
  {
    SentinelFacts();
    RStripLine(Sentinel);
    SentinelStep(lines, 0, Start);
    RunNext(lines, 0, reg0, Start, reg0);
  }

  /** `read_file` takes the sentinel after `rstrip`, but `apply_changes_file`
      splices only after a line equal to the sentinel and one line end: a
      file whose sentinel line ends in CR LF has its records read while the
      rewrite leaves it as it was. */
  lemma SentinelNeedsExactLine(reg0: Registry, text: string)
    ensures Run([Sentinel + "\r\n"], 1, reg0) == Reading(Start.(phase := AfterSentinel), reg0)
    ensures Splice([Sentinel + "\r\n"], text) == [Sentinel + "\r\n"]
  {
    var lines := [Sentinel + "\r\n"];
    SentinelFacts();
    assert (Sentinel + "\r\n")[..|Sentinel| + 1] == Sentinel + "\r";
    assert (Sentinel + "\r")[..|Sentinel|] == Sentinel;
    assert RStrip(lines[0]) == Sentinel;
    SentinelStep(lines, 0, Start);
    RunNext(lines, 0, reg0, Start, reg0);
    assert |lines[0]| != |SentinelLine|;
  }

  /** The lines after the first. */
  lemma AfterFirstLine(first: string, ls: seq<string>)
    ensures ([first] + ls)[1..|ls| + 1] == ls && |[first] + ls| == |ls| + 1
  {
  }

  /** The file of the sentinel and one OBJECT-TYPE block, as read. */
  lemma ObjectFileRead(o: NtxObject, reg0: Registry)
    requires ObjectReadable(o)
    ensures var lines := [SentinelLine] + ObjectLines(o);
      Run(lines, |lines|, reg0) == Reading(Cursor(InObject, ReadObject(o), Start.trap), reg0.AddObject(ReadObject(o)))
  {
    var lines := [SentinelLine] + ObjectLines(o);
    SentinelFirst(lines, reg0);
    AfterFirstLine(SentinelLine, ObjectLines(o));
    ObjectBlockRead(lines, 1, reg0, Start.(phase := AfterSentinel), reg0, o);
  }

  /** A file of the sentinel and one OBJECT-TYPE block written by
      `dump_object_file(o)` registers an object that compares equal to
      `o` and differs from it at most in the counter, which is the first
      number of the `::=` line; exactly `o` when that number is its counter. */
  lemma ObjectBlockReadsBack(o: NtxObject, reg0: Registry)
    requires ObjectReadable(o)
    ensures var lines := [SentinelLine] + ObjectLines(o);
      var p := Run(lines, |lines|, reg0);
      && p == Reading(Cursor(InObject, ReadObject(o), Start.trap), reg0.AddObject(ReadObject(o)))
      && HasObjectLike(p.reg.objects, o)
      && (Number(ObjectAssignLine(o.oid)) == Some(o.counter) ==> p.reg == reg0.AddObject(o))
  {
    ObjectFileRead(o, reg0);
    var objs := reg0.AddObject(ReadObject(o)).objects;
    var i :| 0 <= i < |objs| && objs[i].Compare(ReadObject(o));
    assert objs[i].Compare(o);
  }

  /** The file of the sentinel and one NOTIFICATION-TYPE block, as read. */
  lemma TrapFileRead(t: NtxTrap, reg0: Registry)
    requires TrapReadable(t)
    ensures var lines := [SentinelLine] + TrapLines(t, Join(t.objects, ", "));
      Run(lines, |lines|, reg0) == Reading(Cursor(InTrap, Start.obj, ReadTrap(t)), reg0.AddTrap(ReadTrap(t)))
  {
    var lines := [SentinelLine] + TrapLines(t, Join(t.objects, ", "));
    SentinelFirst(lines, reg0);
    AfterFirstLine(SentinelLine, TrapLines(t, Join(t.objects, ", ")));
    TrapBlockRead(lines, 1, reg0, Start.(phase := AfterSentinel), reg0, t);
  }

  /** A file of the sentinel and one NOTIFICATION-TYPE block written by
      `dump_trap_file(t)` registers a trap that compares equal to `t`,
      with the members `findlist` reads and the OID `nutanix.<counter>`;
      exactly `t` when it has members and that OID. */
  lemma TrapBlockReadsBack(t: NtxTrap, reg0: Registry)
    requires TrapReadable(t)
    ensures var lines := [SentinelLine] + TrapLines(t, Join(t.objects, ", "));
      var p := Run(lines, |lines|, reg0);
      && p == Reading(Cursor(InTrap, Start.obj, ReadTrap(t)), reg0.AddTrap(ReadTrap(t)))
      && HasTrapLike(p.reg.traps, t)
      && (|t.objects| > 0 && t.oid == "nutanix." + NatToString(t.counter) ==> p.reg == reg0.AddTrap(t))
  {
    TrapFileRead(t, reg0);
    var traps := reg0.AddTrap(ReadTrap(t)).traps;
    var i :| 0 <= i < |traps| && traps[i].Compare(ReadTrap(t));
    assert traps[i].Compare(t);
  }

  // ---------------------------------------------------------------------
  // Records built by the generator

  lemma WordAppend(a: string, b: string)
    requires Word(a) && forall i :: 0 <= i < |b| ==> !IsSpace(b[i])
    ensures Word(a + b)
  {
    forall i | 0 <= i < |a + b| ensures !IsSpace((a + b)[i]) {
      if i < |a| {
        assert (a + b)[i] == a[i];
      } else {
        assert (a + b)[i] == b[i - |a|];
      }
    }
  }

  /** A character in neither part nor in the text between is not in the whole. */
  lemma NotInAround(a: string, text: string, b: string, c: char)
    requires c !in a && c !in text && c !in b
    ensures c !in a + text + b
  {
    var s := a + text + b;
    forall i | 0 <= i < |s| ensures s[i] != c {
      if i < |a| {
        assert s[i] == a[i];
      } else if i < |a| + |text| {
        assert s[i] == text[i - |a|];
      } else {
        assert s[i] == b[i - |a| - |text|];
      }
    }
  }

  /** `"` followed by `inner` and `"` is quoted once when `inner` has no quote. */
  lemma QuotedAround(inner: string)
    requires '"' !in inner
    ensures QuotedOnce("\"" + inner + "\"")
  {
    var d := "\"" + inner + "\"";
    assert d[1..|d| - 1] == inner;
  }

  /** The description `alertattr_to_object` writes is quoted once. */
  lemma AttrDescriptionQuoted(title: string)
    requires forall i :: 0 <= i < |title| ==> IsAlnum(title[i])
    ensures QuotedOnce("\"Alert " + title + " defined new.\"")
  {
    assert '"' !in "Alert " && '"' !in " defined new." && '"' !in title;
    NotInAround("Alert ", title, " defined new.", '"');
    assert "\"Alert " + title + " defined new.\"" == "\"" + ("Alert " + title + " defined new.") + "\"";
    QuotedAround("Alert " + title + " defined new.");
  }

  /** The quoted description `alert_to_trap` writes around `text`. */
  lemma TrapDescriptionAround(text: string)
    ensures "\" " + text + " .\"" == "\"" + (" " + text + " .") + "\""
    ensures '"' !in " " && '"' !in " ." && '}' !in " " && '}' !in " ." && '}' !in "\""
  {
  }

  lemma ObjectKeysInitials()
    ensures forall k :: k in ObjectKeys ==> |k| > 0 && k[0] != 'n'
    ensures forall k :: k in TrapKeys ==> |k| > 0 && k[0] != 'n'
  {
  }

  lemma BuiltWords()
    ensures Word("ntxAlert") && Word(TrapPrefix) && Word("read-only") && Word("current")
    ensures "read-only" !in HeaderWords && "current" !in HeaderWords && '}' !in "current"
  {
  }

  /** The name `alertattr_to_object` gives is one word and no key. */
  lemma AttrNameReadable(attr: string)
    ensures Word("ntxAlert" + TitleCase(attr)) && "ntxAlert" + TitleCase(attr) !in ObjectKeys
  {
    var name := "ntxAlert" + TitleCase(attr);
    BuiltWords();
    WordAppend("ntxAlert", TitleCase(attr));
    assert name[0] == 'n';
    ObjectKeysInitials();
  }

  /** Every object `alertattr_to_object` builds is read back. */
  lemma AttrObjectReadable(attr: string, typeName: string, counter: nat)
    ensures ObjectReadable(AttrObject(attr, typeName, counter))
    ensures Number(ObjectAssignLine(AttrObject(attr, typeName, counter).oid)) == Some(counter)
  {
    AttrNameReadable(attr);
    BuiltWords();
    SelectTypeOneWord(typeName);
    AttrDescriptionQuoted(TitleCase(attr));
    AlertOidPlain(counter);
    NumberOfAlertObjectLine(counter);
  }

  /** A file of the sentinel and the block `dump_object_file` writes for
      an object `alertattr_to_object` built registers exactly that object. */
  lemma BuiltObjectReadsBack(attr: string, typeName: string, counter: nat, reg0: Registry)
    ensures var o := AttrObject(attr, typeName, counter);
      var lines := [SentinelLine] + ObjectLines(o);
      Run(lines, |lines|, reg0).reg == reg0.AddObject(o)
  {
    AttrObjectReadable(attr, typeName, counter);
    ObjectBlockReadsBack(AttrObject(attr, typeName, counter), reg0);
  }

  /** The members of a trap `alert_to_trap` builds read back when every
      registered object's name is a word without `,` or `}`. */
  predicate MembersReadable(objects: seq<NtxObject>)
  {
    forall i :: 0 <= i < |objects| ==> Word(objects[i].name) && ',' !in objects[i].name && '}' !in objects[i].name
  }

  /** The trap `alert_to_trap` builds is read up to its DESCRIPTION line
      when the alert id has no whitespace, the quoted text no `}`, and the
      member names read back. */
  lemma AlertTrapHeadReadable(alert: Alert, objects: seq<NtxObject>, counter: nat)
    requires forall i :: 0 <= i < |alert.alertId| ==> !IsSpace(alert.alertId[i])
    requires '}' !in AlertText(alert) && MembersReadable(objects)
    ensures TrapHeadReadable(AlertTrap(alert, objects, counter))
  {
    TrapNameReadable(alert);
    BuiltWords();
    AlertDescriptionNoBrace(alert);
  }

  /** The name `alert_to_trap` gives is one word and no key. */
  lemma TrapNameReadable(alert: Alert)
    requires forall i :: 0 <= i < |alert.alertId| ==> !IsSpace(alert.alertId[i])
    ensures Word(TrapName(alert)) && TrapName(alert) !in TrapKeys
  {
    BuiltWords();
    WordAppend(TrapPrefix, TitleCase(alert.title));
    WordAppend(TrapPrefix, alert.alertId);
    assert TrapName(alert)[0] == 'n';
    ObjectKeysInitials();
  }

  lemma AlertDescriptionNoBrace(alert: Alert)
    requires '}' !in AlertText(alert)
    ensures '}' !in "\" " + AlertText(alert) + " .\""
  {
    TrapDescriptionAround(AlertText(alert));
    NotInAround(" ", AlertText(alert), " .", '}');
    NotInAround("\"", " " + AlertText(alert) + " .", "\"", '}');
  }

  /** The trap `alert_to_trap` builds is read back when, besides, its
      quoted text has no `"`. */
  lemma AlertTrapReadable(alert: Alert, objects: seq<NtxObject>, counter: nat)
    requires forall i :: 0 <= i < |alert.alertId| ==> !IsSpace(alert.alertId[i])
    requires '}' !in AlertText(alert) && '"' !in AlertText(alert) && MembersReadable(objects)
    ensures TrapReadable(AlertTrap(alert, objects, counter))
  {
    AlertTrapHeadReadable(alert, objects, counter);
    TrapDescriptionAround(AlertText(alert));
    NotInAround(" ", AlertText(alert), " .", '"');
    QuotedAround(" " + AlertText(alert) + " .");
  }

  /** A file of the sentinel and the block `dump_trap_file` writes for a
      trap `alert_to_trap` built registers that trap, exactly when some
      object was registered before it (an empty OBJECTS list reads back
      as one empty name). */
  lemma BuiltTrapReadsBack(alert: Alert, objects: seq<NtxObject>, counter: nat, reg0: Registry)
    requires forall i :: 0 <= i < |alert.alertId| ==> !IsSpace(alert.alertId[i])
    requires '}' !in AlertText(alert) && '"' !in AlertText(alert) && MembersReadable(objects)
    ensures var t := AlertTrap(alert, objects, counter);
      var lines := [SentinelLine] + TrapLines(t, Join(t.objects, ", "));
      && Run(lines, |lines|, reg0).reg == reg0.AddTrap(t.(objects := ReadMembers(t.objects)))
      && (|objects| > 0 ==> Run(lines, |lines|, reg0).reg == reg0.AddTrap(t))
  {
    var t := AlertTrap(alert, objects, counter);
    AlertTrapReadable(alert, objects, counter);
    TrapBlockReadsBack(t, reg0);
    assert ReadTrap(t) == t.(objects := ReadMembers(t.objects));
  }

  // ---------------------------------------------------------------------
  // A quote inside a trap's description

  /** A description around a text with a quote has at least three quotes. */
  lemma QuoteInTextCount(h: string, text: string)
    requires '"' !in h && '"' in text
    ensures Count(h + ("\" " + text + " .\"") + "\n", '"') >= 3
  {
    var rest := text + " .\"\n";
    assert h + ("\" " + text + " .\"") + "\n" == h + ("\" " + rest);
    CountAfterFree(h, "\" " + rest, '"');
    CountAppend("\" ", rest, '"');
    CountAppend(text, " .\"\n", '"');
    assert Count("\" ", '"') == 1;
    assert Count(" .\"\n", '"') == 1;
  }

  /** On a DESCRIPTION line with more than two quotes the scan of
      `read_string_end` never sees exactly two, and the reader raises. */
  lemma DescriptionOvershoot(lines: seq<string>, i: nat, c: Cursor, text: string)
    requires i < |lines| && lines[i] == TrapDescriptionLine("\" " + text + " .\"") + "\n"
    requires '"' in text && c.phase == InTrap
    ensures LineStep(lines, i, c) == Fail
  {
    var h := "     DESCRIPTION           ";
    var d := "\" " + text + " .\"";
    TrapDescriptionHead();
    DescriptionHeadsUnquoted();
    KeyRestStep(lines, i, c, h, "     ", "DESCRIPTION", "           ", d);
    QuoteInTextCount(h, text);
    var n := Count(lines[i], '"');
    assert ScanToSecondMark(lines, i, '"', 0, "") == ScanToSecondMark(lines, i + 1, '"', n, "" + lines[i]);
    ScanOvershoots(lines, i + 1, '"', n, "" + lines[i]);
  }

  /** A file of the sentinel and a NOTIFICATION-TYPE block, read up to
      the DESCRIPTION line. */
  lemma TrapFileToDescription(t: NtxTrap, reg0: Registry)
    requires TrapHeadReadable(t)
    ensures var lines := [SentinelLine] + TrapLines(t, Join(t.objects, ", "));
      Run(lines, 5, reg0) == Reading(Cursor(InTrap, Start.obj, NewTrap(t.name).(objects := ReadMembers(t.objects), status := t.status)), reg0)
  {
    var lines := [SentinelLine] + TrapLines(t, Join(t.objects, ", "));
    SentinelFirst(lines, reg0);
    AfterFirstLine(SentinelLine, TrapLines(t, Join(t.objects, ", ")));
    var c0 := Start.(phase := AfterSentinel);
    TrapBlockHead(lines, 1, reg0, c0, reg0, t);
    TrapBlockMembers(lines, 1, reg0, Cursor(InTrap, c0.obj, NewTrap(t.name)), reg0, t);
  }

  /** A trap whose description quotes a text holding a `"`: its block
      after the sentinel makes `read_file` raise on the DESCRIPTION line. */
  lemma TrapFileCrashes(t: NtxTrap, text: string, reg0: Registry)
    requires TrapHeadReadable(t) && t.description == "\" " + text + " .\"" && '"' in text
    ensures var lines := [SentinelLine] + TrapLines(t, Join(t.objects, ", "));
      Run(lines, |lines|, reg0) == Crashed(reg0, 5)
  {
    var lines := [SentinelLine] + TrapLines(t, Join(t.objects, ", "));
    TrapFileToDescription(t, reg0);
    var c4 := Cursor(InTrap, Start.obj, NewTrap(t.name).(objects := ReadMembers(t.objects), status := t.status));
    AfterFirstLine(SentinelLine, TrapLines(t, Join(t.objects, ", ")));
    TrapLinesAt(lines, 1, t);
    DescriptionOvershoot(lines, 5, c4, text);
    RunNext(lines, 5, reg0, c4, reg0);
    CrashStays(lines, 6, 7, reg0);
  }

  /** As written: when the text `alert_to_trap` quotes holds a `"` (an
      alert description that quotes something), the file of the sentinel
      and the trap's block makes `read_file` raise IndexError on the
      DESCRIPTION line, with nothing registered. */
  lemma QuotedDescriptionCrashes(alert: Alert, objects: seq<NtxObject>, counter: nat, reg0: Registry)
    requires forall i :: 0 <= i < |alert.alertId| ==> !IsSpace(alert.alertId[i])
    requires '}' !in AlertText(alert) && MembersReadable(objects)
    requires '"' in AlertText(alert)
    ensures var t := AlertTrap(alert, objects, counter);
      var lines := [SentinelLine] + TrapLines(t, Join(t.objects, ", "));
      Run(lines, |lines|, reg0) == Crashed(reg0, 5)
  {
    AlertTrapHeadReadable(alert, objects, counter);
    TrapFileCrashes(AlertTrap(alert, objects, counter), AlertText(alert), reg0);
  }

  /** Corrected: with the quotes of the text written as `'`, the trap of
      every such alert reads back, quotes or not. */
  lemma QuoteSafeTrapReadsBack(alert: Alert, objects: seq<NtxObject>, counter: nat, reg0: Registry)
    requires forall i :: 0 <= i < |alert.alertId| ==> !IsSpace(alert.alertId[i])
    requires '}' !in AlertText(alert) && MembersReadable(objects)
    ensures var t := QuoteSafeAlertTrap(alert, objects, counter);
      var lines := [SentinelLine] + TrapLines(t, Join(t.objects, ", "));
      && Run(lines, |lines|, reg0).reg == reg0.AddTrap(t.(objects := ReadMembers(t.objects)))
      && (|objects| > 0 ==> Run(lines, |lines|, reg0).reg == reg0.AddTrap(t))
  {
    var t := QuoteSafeAlertTrap(alert, objects, counter);
    var text := Replace(AlertText(alert), '"', '\'');
    assert '}' !in text by {
      forall i | 0 <= i < |text| ensures text[i] != '}' {
        assert AlertText(alert)[i] in AlertText(alert);
      }
    }
    AlertTrapHeadReadable(alert, objects, counter);
    TrapDescriptionAround(text);
    NotInAround(" ", text, " .", '}');
    NotInAround("\"", " " + text + " .", "\"", '}');
    assert TrapReadable(t);
    TrapBlockReadsBack(t, reg0);
    assert ReadTrap(t) == t.(objects := ReadMembers(t.objects));
  }
}
