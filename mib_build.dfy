/** The record builders of class `MIB` in experimental/sysmib.py:
    `selecttype`, `parse_name`, `alertattr_to_object`, `alert_to_trap`, and
    the lookup `find_trap_for_alert`, as functions. The methods of
    `SysMib.Mib` that the source writes with loops are proved against them. */
module MibBuild {
  import opened Wrappers
  import opened Text
  import opened MibRecords
  import opened MibRegistry

  /** `selecttype(tup)`: Counter64 for 64-bit integers and booleans,
      DisplayString for strings and for every other type. */
  function SelectType(typeName: string): (r: string)
    ensures r in AttributeType
    ensures r == "Counter64" <==> typeName == "TYPE_INT64" || typeName == "TYPE_BOOL"
    ensures r == "Counter64" || r == "DisplayString"
  {
    if typeName == "TYPE_INT64" || typeName == "TYPE_BOOL" then AttributeType[1]
    else if typeName == "TYPE_STRING" then AttributeType[3]
    else AttributeType[3]
  }

  /** `word[0].upper() + word[1:]` for a non-empty word, nothing for an empty one. */
  function CapWord(w: string): (r: string)
    ensures |r| == |w|
  {
    if |w| == 0 then "" else [ToUpper(w[0])] + w[1..]
  }

  /** The accumulator of `parse_name` after the words `ws`. */
  function CapWords(ws: seq<string>): string
  {
    if |ws| == 0 then "" else CapWords(ws[..|ws| - 1]) + CapWord(ws[|ws| - 1])
  }

  /** `parse_name(name)`: each space-separated word with its first character
      upper-cased, concatenated, and then every character outside
      `[a-zA-Z0-9]` removed. */
  function TitleCase(name: string): (r: string)
    ensures forall i :: 0 <= i < |r| ==> IsAlnum(r[i])
  {
    KeepAlnum(CapWords(Split(name, " ")))
  }

  lemma {:induction false} CapWordsLength(ws: seq<string>)
    ensures |CapWords(ws)| == |Concat(ws)|
  {
    if |ws| > 0 {
      CapWordsLength(ws[..|ws| - 1]);
    }
  }

  /** The name is never longer than the title it comes from. */
  lemma TitleCaseShorter(name: string)
    ensures |TitleCase(name)| <= |name|
  {
    var ws := Split(name, " ");
    CapWordsLength(ws);
    JoinLength(ws, " ");
    JoinSplit(name, " ");
  }

  lemma {:induction false} CapWordsAlnum(ws: seq<string>)
    requires forall i, j :: 0 <= i < |ws| && 0 <= j < |ws[i]| ==> IsAlnum(ws[i][j])
    ensures forall k :: 0 <= k < |CapWords(ws)| ==> IsAlnum(CapWords(ws)[k])
  {
    if |ws| > 0 {
      CapWordsAlnum(ws[..|ws| - 1]);
      var w := ws[|ws| - 1];
      assert forall j :: 0 <= j < |w| ==> IsAlnum(w[j]);
    }
  }

  /** On alphanumeric words separated by single spaces, the name is the
      words with their first letters upper-cased, run together. */
  lemma TitleCaseOfWords(ws: seq<string>)
    requires |ws| >= 1
    requires forall i, j :: 0 <= i < |ws| && 0 <= j < |ws[i]| ==> IsAlnum(ws[i][j])
    ensures TitleCase(Join(ws, " ")) == CapWords(ws)
  {
    forall i | 0 <= i < |ws| ensures ' ' !in ws[i] {
      assert forall j :: 0 <= j < |ws[i]| ==> ws[i][j] != ' ';
    }
    SplitJoin(ws, ' ');
    CapWordsAlnum(ws);
    KeepAlnumOfAlnum(CapWords(ws));
  }

  /** `alertattr_to_object(attr)` for an attribute whose catalog type name
      is `typeName`, when the next object OID is `counter`. */
  function AttrObject(attr: string, typeName: string, counter: nat): (o: NtxObject)
    ensures o.syntax in AttributeType
    ensures |o.name| >= 8 && o.name[..8] == "ntxAlert"
    ensures forall i :: 8 <= i < |o.name| ==> IsAlnum(o.name[i])
    ensures o.counter == counter
  {
    NtxObject(
      "ntxAlert" + TitleCase(attr),
      SelectType(typeName),
      "read-only",
      "current",
      "\"Alert " + TitleCase(attr) + " defined new.\"",
      counter,
      "ntxAlert." + NatToString(counter))
  }

  /** The prefix of the names `alert_to_trap` gives. */
  const TrapPrefix: string := "ntxTrap"

  /** The name `alert_to_trap` gives a trap: from the title, unless that is
      longer than `MAX_OBJECT_NAME_LIMIT`, and then from the alert id. */
  function TrapName(alert: Alert): (n: string)
    ensures |TrapPrefix + TitleCase(alert.title)| <= MaxObjectNameLimit ==> n == TrapPrefix + TitleCase(alert.title)
    ensures |TrapPrefix + TitleCase(alert.title)| > MaxObjectNameLimit ==> n == TrapPrefix + alert.alertId
  {
    var n := TrapPrefix + TitleCase(alert.title);
    if |n| > MaxObjectNameLimit then TrapPrefix + alert.alertId else n
  }

  /** The names of registered objects, in list order. */
  function ObjectNames(objects: seq<NtxObject>): (names: seq<string>)
    ensures |names| == |objects|
    ensures forall i :: 0 <= i < |objects| ==> names[i] == objects[i].name
  {
    seq(|objects|, i requires 0 <= i < |objects| => objects[i].name)
  }

  /** `alert_to_trap(alert)` when `objects` are registered and the next
      trap OID is `counter`: every registered object is a member. */
  function AlertTrap(alert: Alert, objects: seq<NtxObject>, counter: nat): (t: NtxTrap)
    ensures t.name == TrapName(alert) && t.status == "current"
    ensures t.objects == ObjectNames(objects)
    ensures alert.description.Some? ==> t.description == "\" " + alert.description.value + " .\""
    ensures alert.description.None? ==> t.description == "\" " + Replace(alert.name, '_', ' ') + " .\""
    ensures t.counter == counter
  {
    NtxTrap(TrapName(alert), ObjectNames(objects), "current", "\" " + AlertText(alert) + " .\"", counter,
            "nutanix." + NatToString(counter))
  }

  /** The text `alert_to_trap` puts between the quotes of a description:
      the alert's own description, or its name with `_` written as spaces. */
  function AlertText(alert: Alert): string
  {
    if alert.description.Some? then alert.description.value else Replace(alert.name, '_', ' ')
  }

  /** `alert_to_trap` with every `"` of the quoted text written as `'`:
      the description keeps its two enclosing quotes and no other, and
      nothing else changes. */
  function QuoteSafeAlertTrap(alert: Alert, objects: seq<NtxObject>, counter: nat): (t: NtxTrap)
    ensures var d := t.description;
      |d| >= 2 && d[0] == '"' && d[|d| - 1] == '"' && '"' !in d[1..|d| - 1]
    ensures t.(description := "") == AlertTrap(alert, objects, counter).(description := "")
  {
    var text := Replace(AlertText(alert), '"', '\'');
    QuoteFreeDescription(AlertText(alert));
    AlertTrap(alert, objects, counter).(description := "\" " + text + " .\"")
  }

  /** A text with every `"` written as `'`, placed in `" … ."`, is quoted once. */
  lemma QuoteFreeDescription(s: string)
    ensures var d := "\" " + Replace(s, '"', '\'') + " .\"";
      |d| >= 2 && d[0] == '"' && d[|d| - 1] == '"' && '"' !in d[1..|d| - 1]
  {
    var text := Replace(s, '"', '\'');
    var d := "\" " + text + " .\"";
    assert d[1..|d| - 1] == " " + text + " .";
    assert '"' !in text by {
      forall i | 0 <= i < |text| ensures text[i] != '"' { }
    }
  }

  /** A title that gives a name within the limit: at most 57 characters do. */
  lemma ShortTitleNamesTrap(alert: Alert)
    requires |alert.title| <= MaxObjectNameLimit - |TrapPrefix|
    ensures TrapName(alert) == TrapPrefix + TitleCase(alert.title)
  {
    TitleCaseShorter(alert.title);
  }

  /** The object built for the next OID gets a counter above every
      registered object's, and registering it moves the counter on by one. */
  lemma AttrObjectOidFresh(reg: Registry, attr: string, typeName: string)
    requires reg.Valid()
    ensures var o := AttrObject(attr, typeName, reg.nextObjectOid);
      && (forall i :: 0 <= i < |reg.objects| ==> reg.objects[i].counter < o.counter)
      && (reg.AddObject(o) == reg || reg.AddObject(o).nextObjectOid == reg.nextObjectOid + 1)
  {
  }

  /** The trap built for the next OID gets a counter above every
      registered trap's, and registering it moves the counter on by one. */
  lemma AlertTrapOidFresh(reg: Registry, alert: Alert)
    requires reg.Valid()
    ensures var t := AlertTrap(alert, reg.objects, reg.nextTrapOid);
      && (forall i :: 0 <= i < |reg.traps| ==> reg.traps[i].counter < t.counter)
      && (reg.AddTrap(t) == reg || reg.AddTrap(t).nextTrapOid == reg.nextTrapOid + 1)
  {
  }

  /** Two alerts that give the same trap name register one trap: the second
      `add_trap(alert_to_trap(...))` changes nothing. */
  lemma SameNameRegisteredOnce(reg: Registry, a1: Alert, a2: Alert)
    requires TrapName(a1) == TrapName(a2)
    ensures var r1 := reg.AddTrap(AlertTrap(a1, reg.objects, reg.nextTrapOid));
      r1.AddTrap(AlertTrap(a2, r1.objects, r1.nextTrapOid)) == r1
  {
    var t1 := AlertTrap(a1, reg.objects, reg.nextTrapOid);
    var r1 := reg.AddTrap(t1);
    var t2 := AlertTrap(a2, r1.objects, r1.nextTrapOid);
    var i :| 0 <= i < |r1.traps| && r1.traps[i].Compare(t1);
    assert r1.traps[i].Compare(t2);
  }

  /** The first trap named `name`: what the loop of `find_trap_for_alert`
      returns (None where the loop falls through). */
  function FirstTrapNamed(traps: seq<NtxTrap>, name: string): (r: Option<NtxTrap>)
    ensures r.None? <==> forall i :: 0 <= i < |traps| ==> traps[i].name != name
    ensures r.Some? ==> (exists i :: 0 <= i < |traps| && traps[i] == r.value &&
                           (forall j :: 0 <= j < i ==> traps[j].name != name))
    ensures r.Some? ==> r.value.name == name
  {
    if |traps| == 0 then None
    else if traps[0].name == name then Some(traps[0])
    else
      var r := FirstTrapNamed(traps[1..], name);
      if r.Some? then
        var i :| 0 <= i < |traps[1..]| && traps[1..][i] == r.value &&
                 (forall j :: 0 <= j < i ==> traps[1..][j].name != name);
        assert traps[i + 1] == r.value;
        r
      else r
  }

  /** Where no registered trap's name starts with `N`, the lookup of
      `find_trap_for_alert` as written, which looks for `"NtxTrap" + ...`,
      finds nothing. */
  lemma AsWrittenLookupMisses(traps: seq<NtxTrap>, alertName: string)
    requires forall i :: 0 <= i < |traps| ==> |traps[i].name| > 0 && traps[i].name[0] != 'N'
    ensures FirstTrapNamed(traps, "NtxTrap" + TitleCase(alertName)) == None
  {
    forall i | 0 <= i < |traps| ensures traps[i].name != "NtxTrap" + TitleCase(alertName) {
      assert ("NtxTrap" + TitleCase(alertName))[0] == 'N';
    }
  }

  /** Registering the trap `alert_to_trap` builds for an alert, on a
      registry of such traps, and then looking it up by the alert's title
      as `find_trap_for_alert` is written, finds nothing. */
  lemma AsWrittenMissesBuiltTrap(reg: Registry, alert: Alert)
    requires forall i :: 0 <= i < |reg.traps| ==> |reg.traps[i].name| > 0 && reg.traps[i].name[0] == 'n'
    ensures var r := reg.AddTrap(AlertTrap(alert, reg.objects, reg.nextTrapOid));
      FirstTrapNamed(r.traps, "NtxTrap" + TitleCase(alert.title)) == None
  {
    var t := AlertTrap(alert, reg.objects, reg.nextTrapOid);
    var r := reg.AddTrap(t);
    assert t.name[0] == 'n';
    assert forall i :: 0 <= i < |r.traps| ==> r.traps[i] in reg.traps || r.traps[i] == t;
    forall i | 0 <= i < |r.traps| ensures |r.traps[i].name| > 0 && r.traps[i].name[0] != 'N' {
      if r.traps[i] in reg.traps {
        var j :| 0 <= j < |reg.traps| && reg.traps[j] == r.traps[i];
      }
    }
    AsWrittenLookupMisses(r.traps, alert.title);
  }

  /** With the prefix `alert_to_trap` uses, the lookup by title finds the
      trap registered for an alert whose name came from its title. */
  lemma CorrectedFindsBuiltTrap(reg: Registry, alert: Alert)
    requires |alert.title| <= MaxObjectNameLimit - |TrapPrefix|
    ensures var r := reg.AddTrap(AlertTrap(alert, reg.objects, reg.nextTrapOid));
      var found := FirstTrapNamed(r.traps, TrapPrefix + TitleCase(alert.title));
      found.Some? && found.value.name == TrapName(alert)
  {
    var t := AlertTrap(alert, reg.objects, reg.nextTrapOid);
    var r := reg.AddTrap(t);
    ShortTitleNamesTrap(alert);
    var i :| 0 <= i < |r.traps| && r.traps[i].Compare(t);
    assert r.traps[i].name == TrapPrefix + TitleCase(alert.title);
  }
}
