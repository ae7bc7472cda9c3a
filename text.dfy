/** The Python string built-ins the MIB generator relies on, restated as
    functions over `seq<char>`: `str.split`, `str.join`, `str.rstrip`,
    `str.count`, `str.replace` of one character, `str(int)`, `int()` of a
    digit run, and the character classes of Python 2's `re` (`\s`, `\d`,
    `[a-zA-Z0-9]`). */
module Text {

  /** Python 2's whitespace: what `str.rstrip()` removes and what `\s` matches. */
  predicate IsSpace(c: char)
  {
    c == ' ' || c == '\t' || c == '\n' || c == '\r' || c as int == 11 || c as int == 12
  }

  predicate IsDigit(c: char)
  {
    '0' <= c <= '9'
  }

  predicate IsAlnum(c: char)
  {
    ('a' <= c <= 'z') || ('A' <= c <= 'Z') || IsDigit(c)
  }

  /** `c.upper()` for one character: ASCII letters only. */
  function ToUpper(c: char): (u: char)
    ensures IsAlnum(c) <==> IsAlnum(u)
    ensures !('a' <= u <= 'z')
  {
    if 'a' <= c <= 'z' then (c as int - 32) as char else c
  }

  /** `s.rstrip()`: drop trailing whitespace. */
  function RStrip(s: string): (r: string)
    ensures r <= s
    ensures |r| > 0 ==> !IsSpace(r[|r| - 1])
    ensures forall i :: |r| <= i < |s| ==> IsSpace(s[i])
  {
    if |s| > 0 && IsSpace(s[|s| - 1]) then RStrip(s[..|s| - 1]) else s
  }

  /** `s.count(c)` for a one-character needle. */
  function Count(s: string, c: char): (n: nat)
    ensures n <= |s|
    ensures n == 0 <==> c !in s
  {
    if |s| == 0 then 0 else (if s[0] == c then 1 else 0) + Count(s[1..], c)
  }

  lemma CountAppend(a: string, b: string, c: char)
    ensures Count(a + b, c) == Count(a, c) + Count(b, c)
  {
    if |a| > 0 {
      assert (a + b)[1..] == a[1..] + b;
      CountAppend(a[1..], b, c);
    } else {
      assert a + b == b;
    }
  }

  /** `s.replace(a, b)` for one-character `a` and `b`. */
  function Replace(s: string, a: char, b: char): (r: string)
    ensures |r| == |s|
    ensures forall i :: 0 <= i < |s| ==> r[i] == (if s[i] == a then b else s[i])
  {
    if |s| == 0 then "" else [if s[0] == a then b else s[0]] + Replace(s[1..], a, b)
  }

  lemma {:induction false} ReplaceAppend(s: string, t: string, a: char, b: char)
    ensures Replace(s + t, a, b) == Replace(s, a, b) + Replace(t, a, b)
  {
    var whole, parts := Replace(s + t, a, b), Replace(s, a, b) + Replace(t, a, b);
    forall i | 0 <= i < |whole| ensures whole[i] == parts[i] {
      if i < |s| {
        assert (s + t)[i] == s[i];
      } else {
        assert (s + t)[i] == t[i - |s|];
      }
    }
  }

  /** Replacing a character the text does not use changes nothing. */
  lemma {:induction false} ReplaceAbsent(s: string, a: char, b: char)
    requires a !in s
    ensures Replace(s, a, b) == s
  {
    if |s| > 0 {
      ReplaceAbsent(s[1..], a, b);
      assert s == [s[0]] + s[1..];
    }
  }

  /** Every character of `s` that is not whitespace (`re.sub('\s', '', s)`). */
  function RemoveWhitespace(s: string): (r: string)
    ensures forall i :: 0 <= i < |r| ==> !IsSpace(r[i])
    ensures |r| <= |s|
  {
    if |s| == 0 then ""
    else if IsSpace(s[0]) then RemoveWhitespace(s[1..])
    else [s[0]] + RemoveWhitespace(s[1..])
  }
  lemma {:induction false} RemoveWhitespaceAppend(a: string, b: string)
    ensures RemoveWhitespace(a + b) == RemoveWhitespace(a) + RemoveWhitespace(b)
  {
    if |a| > 0 {
      assert (a + b)[0] == a[0] && (a + b)[1..] == a[1..] + b;
      RemoveWhitespaceAppend(a[1..], b);
    } else {
      assert a + b == b;
    }
  }

  /** Text without whitespace is kept whole. */
  lemma {:induction false} RemoveWhitespaceKeeps(s: string)
    requires forall i :: 0 <= i < |s| ==> !IsSpace(s[i])
    ensures RemoveWhitespace(s) == s
  {
    if |s| > 0 {
      RemoveWhitespaceKeeps(s[1..]);
      assert s == [s[0]] + s[1..];
    }
  }


  /** Every character of `s` in `[a-zA-Z0-9]` (`re.sub(r'[^a-zA-Z0-9]', '', s)`). */
  function KeepAlnum(s: string): (r: string)
    ensures forall i :: 0 <= i < |r| ==> IsAlnum(r[i])
    ensures |r| <= |s|
  {
    if |s| == 0 then ""
    else if IsAlnum(s[0]) then [s[0]] + KeepAlnum(s[1..])
    else KeepAlnum(s[1..])
  }

  lemma KeepAlnumOfAlnum(s: string)
    requires forall i :: 0 <= i < |s| ==> IsAlnum(s[i])
    ensures KeepAlnum(s) == s
  {
    if |s| > 0 {
      KeepAlnumOfAlnum(s[1..]);
    }
  }

  // ---------------------------------------------------------------------
  // str.split and str.join

  /** `s.split(sep)` for a non-empty separator: the pieces between the
      occurrences of `sep` found scanning left to right without overlap. */
  function Split(s: string, sep: string): (parts: seq<string>)
    requires |sep| > 0
    ensures |parts| >= 1
  {
    SplitFrom(s, sep, "")
  }

  /** The rest of `Split`, when `cur` is the piece read so far. */
  function SplitFrom(s: string, sep: string, cur: string): (parts: seq<string>)
    requires |sep| > 0
    ensures |parts| >= 1
    decreases |s|
  {
    if |s| == 0 then [cur]
    else if sep <= s then [cur] + SplitFrom(s[|sep|..], sep, "")
    else SplitFrom(s[1..], sep, cur + [s[0]])
  }

  /** `sep.join(parts)`. */
  function Join(parts: seq<string>, sep: string): string
  {
    if |parts| == 0 then ""
    else if |parts| == 1 then parts[0]
    else parts[0] + sep + Join(parts[1..], sep)
  }

  /** A character in none of the parts nor in the separator is not in the join. */
  lemma {:induction false} NotInJoin(parts: seq<string>, sep: string, c: char)
    requires c !in sep && forall i :: 0 <= i < |parts| ==> c !in parts[i]
    ensures c !in Join(parts, sep)
  {
    if |parts| > 1 {
      NotInJoin(parts[1..], sep, c);
      assert c !in parts[0];
    } else if |parts| == 1 {
      assert c !in parts[0];
    }
  }

  /** Splitting and joining again gives back the string. */
  lemma {:induction false} JoinSplit(s: string, sep: string)
    requires |sep| > 0
    ensures Join(Split(s, sep), sep) == s
  {
    JoinSplitFrom(s, sep, "");
  }

  lemma {:induction false} JoinSplitFrom(s: string, sep: string, cur: string)
    requires |sep| > 0
    ensures Join(SplitFrom(s, sep, cur), sep) == cur + s
    decreases |s|
  {
    if |s| == 0 {
    } else if sep <= s {
      var rest := SplitFrom(s[|sep|..], sep, "");
      JoinSplitFrom(s[|sep|..], sep, "");
      assert SplitFrom(s, sep, cur) == [cur] + rest;
      assert ([cur] + rest)[1..] == rest;
      assert s == sep + s[|sep|..];
    } else {
      JoinSplitFrom(s[1..], sep, cur + [s[0]]);
      assert cur + [s[0]] + s[1..] == cur + s;
    }
  }

  /** A piece of a split on one character never contains that character. */
  lemma {:induction false} SplitPiecesAvoidSep(s: string, c: char, cur: string)
    requires c !in cur
    ensures forall p :: p in SplitFrom(s, [c], cur) ==> c !in p
    decreases |s|
  {
    if |s| == 0 {
    } else if [c] <= s {
      SplitPiecesAvoidSep(s[1..], c, "");
    } else {
      assert s[0] != c;
      SplitPiecesAvoidSep(s[1..], c, cur + [s[0]]);
    }
  }

  /** Text without the separator character is read into the current piece. */
  lemma {:induction false} SplitFromSkips(a: string, rest: string, c: char, cur: string)
    requires c !in a
    ensures SplitFrom(a + rest, [c], cur) == SplitFrom(rest, [c], cur + a)
    decreases |a|
  {
    if |a| > 0 {
      assert (a + rest)[1..] == a[1..] + rest;
      assert (a + rest)[0] == a[0] && a[0] in a;
      assert !([c] <= a + rest);
      SplitFromSkips(a[1..], rest, c, cur + [a[0]]);
      assert cur + [a[0]] + a[1..] == cur + a;
    } else {
      assert a + rest == rest;
      assert cur + a == cur;
    }
  }

  /** Splitting `a + [c] + rest` on `c` when `a` holds no `c`. */
  lemma SplitAtFirst(a: string, rest: string, c: char)
    requires c !in a
    ensures Split(a + [c] + rest, [c]) == [a] + Split(rest, [c])
  {
    SplitFromSkips(a, [c] + rest, c, "");
    assert a + [c] + rest == a + ([c] + rest);
    assert ([c] + rest)[1..] == rest;
    assert "" + a == a;
  }

  /** A string without the separator is one piece. */
  lemma SplitNoSep(a: string, c: char)
    requires c !in a
    ensures Split(a, [c]) == [a]
  {
    SplitFromSkips(a, "", c, "");
    assert a + "" == a;
    assert "" + a == a;
  }

  /** Text in which no occurrence of `sep` starts is read into the current
      piece. */
  lemma {:induction false} SplitFromNoStart(a: string, rest: string, sep: string, cur: string)
    requires |sep| > 0
    requires forall j :: 0 <= j < |a| ==> !(sep <= (a + rest)[j..])
    ensures SplitFrom(a + rest, sep, cur) == SplitFrom(rest, sep, cur + a)
    decreases |a|
  {
    var s := a + rest;
    if |a| > 0 {
      assert s[0..] == s;
      assert s[1..] == a[1..] + rest;
      forall j | 0 <= j < |a[1..]| ensures !(sep <= (a[1..] + rest)[j..]) {
        assert (a[1..] + rest)[j..] == s[j + 1..];
      }
      SplitFromNoStart(a[1..], rest, sep, cur + [s[0]]);
      assert cur + [s[0]] + a[1..] == cur + a;
    } else {
      assert s == rest;
      assert cur + a == cur;
    }
  }

  /** A string without spaces is one piece of a split on a separator that
      starts with a space. */
  lemma {:induction false} SplitFromNoSpace(s: string, sep: string, cur: string)
    requires |sep| > 0 && sep[0] == ' ' && ' ' !in s
    ensures SplitFrom(s, sep, cur) == [cur + s]
    decreases |s|
  {
    if |s| > 0 {
      assert s[0] in s;
      assert ' ' !in s[1..] by {
        forall i | 0 <= i < |s[1..]| ensures s[1..][i] != ' ' {
          assert s[1..][i] == s[i + 1] && s[i + 1] in s;
        }
      }
      SplitFromNoSpace(s[1..], sep, cur + [s[0]]);
      assert cur + [s[0]] + s[1..] == cur + s;
    } else {
      assert cur + s == cur;
    }
  }

  /** Replacing the separator character by another one that the text does
      not use splits at the same places. */
  lemma {:induction false} SplitReplace(s: string, a: char, b: char, cur: string)
    requires b !in s
    ensures SplitFrom(Replace(s, a, b), [b], cur) == SplitFrom(s, [a], cur)
    decreases |s|
  {
    if |s| > 0 {
      var r := Replace(s, a, b);
      assert r[1..] == Replace(s[1..], a, b);
      SplitReplace(s[1..], a, b, if s[0] == a then "" else cur + [s[0]]);
      assert ([b] <= r) <==> s[0] == a;
      assert ([a] <= s) <==> s[0] == a;
    }
  }

  /** Joining words that avoid the separator character and splitting again
      gives back the words. */
  lemma {:induction false} SplitJoin(ws: seq<string>, c: char)
    requires |ws| >= 1
    requires forall i :: 0 <= i < |ws| ==> c !in ws[i]
    ensures Split(Join(ws, [c]), [c]) == ws
  {
    if |ws| == 1 {
      SplitNoSep(ws[0], c);
    } else {
      SplitJoin(ws[1..], c);
      SplitAtFirst(ws[0], Join(ws[1..], [c]), c);
      assert Join(ws, [c]) == ws[0] + [c] + Join(ws[1..], [c]);
      assert ws == [ws[0]] + ws[1..];
    }
  }

  /** `Concat` read from the front. */
  lemma {:induction false} ConcatCons(ls: seq<string>)
    requires |ls| > 0
    ensures Concat(ls) == ls[0] + Concat(ls[1..])
  {
    if |ls| > 1 {
      ConcatCons(ls[..|ls| - 1]);
      assert ls[..|ls| - 1][1..] == ls[1..][..|ls[1..]| - 1];
      assert ls[..|ls| - 1][0] == ls[0];
    } else {
      assert ls[..0] == [];
    }
  }

  /** A join is at least as long as its parts run together. */
  lemma {:induction false} JoinLength(ws: seq<string>, sep: string)
    ensures |Concat(ws)| <= |Join(ws, sep)|
  {
    if |ws| > 0 {
      ConcatCons(ws);
      if |ws| == 1 {
        assert ws[1..] == [];
      } else {
        JoinLength(ws[1..], sep);
      }
    }
  }

  /** The non-empty elements of `parts`, in order. */
  function NonEmpty(parts: seq<string>): (r: seq<string>)
    ensures |r| <= |parts|
    ensures forall i :: 0 <= i < |r| ==> r[i] != ""
    ensures forall p :: p in r ==> p in parts
  {
    if |parts| == 0 then []
    else if parts[0] == "" then NonEmpty(parts[1..])
    else [parts[0]] + NonEmpty(parts[1..])
  }

  lemma NonEmptyOfNonEmpty(parts: seq<string>)
    requires forall i :: 0 <= i < |parts| ==> parts[i] != ""
    ensures NonEmpty(parts) == parts
  {
    if |parts| > 0 {
      NonEmptyOfNonEmpty(parts[1..]);
    }
  }

  /** `[x for x in s.split(' ') if x != '']`: the words of a line. */
  function Tokens(s: string): (r: seq<string>)
    ensures forall i :: 0 <= i < |r| ==> r[i] != "" && ' ' !in r[i]
  {
    SplitPiecesAvoidSep(s, ' ', "");
    NonEmpty(Split(s, " "))
  }

  /** A run of spaces (possibly empty). */
  predicate AllSpaces(s: string)
  {
    forall i :: 0 <= i < |s| ==> s[i] == ' '
  }

  /** A line without words has no tokens. */
  lemma TokensOfEmpty()
    ensures Tokens("") == []
  {
    assert Split("", " ") == [""];
  }

  /** A leading space adds only an empty piece, which is dropped. */
  lemma TokensSpace(s: string)
    ensures Tokens(" " + s) == Tokens(s)
  {
    var x := Split(s, " ");
    assert (" " + s)[|" "|..] == s;
    assert Split(" " + s, " ") == [""] + x;
    assert ([""] + x)[1..] == x;
  }

  /** Leading spaces do not change the words. */
  lemma {:induction false} TokensAfterSpaces(p: string, s: string)
    requires AllSpaces(p)
    ensures Tokens(p + s) == Tokens(s)
    decreases |p|
  {
    if |p| > 0 {
      assert p + s == " " + (p[1..] + s);
      TokensSpace(p[1..] + s);
      TokensAfterSpaces(p[1..], s);
    } else {
      assert p + s == s;
    }
  }

  /** A word followed by a space is the first word. */
  lemma TokensWordThen(a: string, rest: string)
    requires a != "" && ' ' !in a
    ensures Tokens(a + " " + rest) == [a] + Tokens(rest)
  {
    SplitAtFirst(a, rest, ' ');
    var x := Split(rest, " ");
    assert ([a] + x)[1..] == x;
  }

  /** A word alone is its only token. */
  lemma TokensOfWord(a: string)
    requires a != "" && ' ' !in a
    ensures Tokens(a) == [a]
  {
    SplitNoSep(a, ' ');
    assert [a][1..] == [];
  }

  /** The last piece of a split of a text that does not end in a space
      ends with the text's last character. */
  lemma {:induction false} SplitFromLastChar(s: string, cur: string)
    requires |s| > 0 && s[|s| - 1] != ' '
    ensures var ps := SplitFrom(s, " ", cur);
      |ps[|ps| - 1]| > 0 && ps[|ps| - 1][|ps[|ps| - 1]| - 1] == s[|s| - 1]
    decreases |s|
  {
    if " " <= s {
      assert s[|" "|..] == s[1..] && |s| > 1;
      SplitFromLastChar(s[1..], "");
    } else if |s| == 1 {
      assert s[1..] == [];
    } else {
      SplitFromLastChar(s[1..], cur + [s[0]]);
    }
  }

  /** Dropping the empty pieces keeps a non-empty last piece last. */
  lemma {:induction false} NonEmptyLast(parts: seq<string>)
    requires |parts| > 0 && parts[|parts| - 1] != ""
    ensures var r := NonEmpty(parts); |r| > 0 && r[|r| - 1] == parts[|parts| - 1]
  {
    if |parts| == 1 {
      assert parts[1..] == [];
    } else {
      NonEmptyLast(parts[1..]);
    }
  }

  /** The last word of a line that does not end in a space ends with the
      line's last character. */
  lemma TokensLastChar(s: string)
    requires |s| > 0 && s[|s| - 1] != ' '
    ensures var t := Tokens(s);
      |t| > 0 && |t[|t| - 1]| > 0 && t[|t| - 1][|t[|t| - 1]| - 1] == s[|s| - 1]
  {
    SplitFromLastChar(s, "");
    NonEmptyLast(Split(s, " "));
  }

  /** The concatenation of a list of strings (`''.join(ls)`). */
  function Concat(ls: seq<string>): string
  {
    if |ls| == 0 then "" else Concat(ls[..|ls| - 1]) + ls[|ls| - 1]
  }

  // ---------------------------------------------------------------------
  // Numbers

  function DigitValue(c: char): (d: nat)
    requires IsDigit(c)
    ensures d < 10
  {
    c as int - '0' as int
  }

  /** The value of a string of decimal digits (`int(ds)`). */
  function DigitsValue(ds: string): nat
    requires forall i :: 0 <= i < |ds| ==> IsDigit(ds[i])
  {
    if |ds| == 0 then 0
    else DigitsValue(ds[..|ds| - 1]) * 10 + DigitValue(ds[|ds| - 1])
  }

  /** `str(n)` for a natural number: its decimal digits, without leading zeros. */
  function NatToString(n: nat): (s: string)
    ensures |s| > 0
    ensures forall i :: 0 <= i < |s| ==> IsDigit(s[i])
    ensures |s| > 1 ==> s[0] != '0'
  {
    if n < 10 then [('0' as int + n) as char]
    else NatToString(n / 10) + [('0' as int + n % 10) as char]
  }

  /** Reading back what `str` printed gives the number. */
  lemma {:induction false} NatToStringValue(n: nat)
    ensures DigitsValue(NatToString(n)) == n
  {
    if n >= 10 {
      var s := NatToString(n);
      assert s[..|s| - 1] == NatToString(n / 10);
      NatToStringValue(n / 10);
    }
  }

  /** The longest prefix of `s` made of digits. */
  function DigitPrefix(s: string): (r: string)
    ensures r <= s
    ensures forall i :: 0 <= i < |r| ==> IsDigit(r[i])
    ensures |r| < |s| ==> !IsDigit(s[|r|])
  {
    if |s| > 0 && IsDigit(s[0]) then [s[0]] + DigitPrefix(s[1..]) else ""
  }

  lemma {:induction false} DigitPrefixOfDigits(ds: string, rest: string)
    requires forall i :: 0 <= i < |ds| ==> IsDigit(ds[i])
    requires |rest| > 0 ==> !IsDigit(rest[0])
    ensures DigitPrefix(ds + rest) == ds
  {
    if |ds| > 0 {
      var s := ds + rest;
      assert s[0] == ds[0] && IsDigit(s[0]);
      assert s[1..] == ds[1..] + rest;
      DigitPrefixOfDigits(ds[1..], rest);
      assert [ds[0]] + ds[1..] == ds;
    } else {
      assert ds + rest == rest;
    }
  }
}
