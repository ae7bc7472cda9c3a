/** Class `MIB` of experimental/sysmib.py: the registry it keeps in
    `Objectlist`, `Traplist`, `ntx_object_start_oid` and
    `ntx_trap_start_oid`, and its operations. Every method is proved
    against the functions of `MibRegistry`, `MibParse`, `MibBuild` and
    `MibEmit`, where the properties of the source are proved. The file the
    source opens is passed in, and written back as the returned lines. */
module SysMib {
  import opened Wrappers
  import opened Text
  import opened MibRecords
  import opened MibRegistry
  import opened MibParse
  import opened MibBuild
  import opened MibEmit

  class Mib {
    var objectList: seq<NtxObject>
    var trapList: seq<NtxTrap>
    var nextObjectOid: nat
    var nextTrapOid: nat

    /** The registry this instance holds. */
    function State(): Registry
      reads this
    {
      Registry(objectList, trapList, nextObjectOid, nextTrapOid)
    }

    /** The class-level defaults, held per instance: no records, counters 1
        and 1000. Reading the source file is `ReadFile`. */
    constructor()
      ensures State() == Initial
    {
      objectList := [];
      trapList := [];
      nextObjectOid := 1;
      nextTrapOid := 1000;
    }

    // -------------------------------------------------------------------
    // Registry

    /** `add_object(obj)`. */
    method AddObject(o: NtxObject)
      modifies this
      ensures State() == old(State()).AddObject(o)
    {
      if !HasObjectLike(objectList, o) {
        objectList := objectList + [o];
        nextObjectOid := Max(nextObjectOid, o.counter + 1);
      }
    }

    /** `add_trap(obj)`. */
    method AddTrap(t: NtxTrap)
      modifies this
      ensures State() == old(State()).AddTrap(t)
    {
      if !HasTrapLike(trapList, t) {
        trapList := trapList + [t];
        nextTrapOid := Max(nextTrapOid, t.counter + 1);
      }
    }

    /** `del_object(obj)`. */
    method DelObject(o: NtxObject)
      modifies this
      ensures State() == old(State()).DelObject(o)
    {
      if o in objectList {
        objectList := RemoveFirst(objectList, o);
      }
    }

    /** `del_trap(obj)`. */
    method DelTrap(t: NtxTrap)
      modifies this
      ensures State() == old(State()).DelTrap(t)
    {
      if t in trapList {
        trapList := RemoveFirst(trapList, t);
      }
    }

    // -------------------------------------------------------------------
    // read_file

    /** One iteration of the loop of `read_file` on line `i`, with `check`,
        `obj` and `trap` as `c` holds them. */
    method ReadLine(lines: seq<string>, i: nat, c: Cursor) returns (s: Step)
      requires i < |lines|
      ensures s == LineStep(lines, i, c)
    {
      var line := RStrip(lines[i]);
      var check := c.phase;
      var obj := c.obj;
      var trap := c.trap;
      if line == Sentinel {
        check := AfterSentinel;
      }
      var splitline := Tokens(line);
      if check == BeforeSentinel || |splitline| == 0 {
        return Next(Cursor(check, obj, trap));
      }
      var last := splitline[|splitline| - 1];
      if last == "OBJECT-TYPE" {
        obj := NewObject(splitline[0]);
        check := InObject;
      } else if last == "NOTIFICATION-TYPE" {
        trap := NewTrap(splitline[0]);
        check := InTrap;
      }
      if check == InObject {
        if splitline[0] == "SYNTAX" {
          obj := obj.(syntax := RefineSyntax(line));
        } else if splitline[0] == "MAX-ACCESS" {
          obj := obj.(maxAccess := last);
        } else if splitline[0] == "STATUS" {
          obj := obj.(status := last);
        } else if splitline[0] == "DESCRIPTION" {
          var d := ReadStringEnd(lines, i);
          if d.None? {
            return Fail;
          }
          obj := obj.(description := "\"" + d.value + "\"");
        } else if splitline[0] == "::=" {
          var n := Number(line);
          var oid := ParseOid(line);
          if n.None? || oid.None? {
            return Fail;
          }
          obj := obj.(counter := n.value, oid := oid.value);
          return AddObj(Cursor(check, obj, trap));
        }
      } else if check == InTrap {
        if splitline[0] == "OBJECTS" {
          var names := FindList(lines, i);
          if names.None? {
            return Fail;
          }
          trap := trap.(objects := names.value);
        } else if splitline[0] == "STATUS" {
          trap := trap.(status := last);
        } else if splitline[0] == "DESCRIPTION" {
          var d := ReadStringEnd(lines, i);
          if d.None? {
            return Fail;
          }
          trap := trap.(description := "\"" + d.value + "\"");
        } else if splitline[0] == "::=" {
          var n := Number(line);
          var oid := ParseOid(line);
          if n.None? || oid.None? {
            return Fail;
          }
          trap := trap.(counter := n.value, oid := oid.value);
          return AddTrp(Cursor(check, obj, trap));
        }
      }
      return Next(Cursor(check, obj, trap));
    }

    /** One iteration of the loop of `read_file` on line `i`, from a
        reading state of a run that started with registry `reg0`: the line
        is read and its record registered; `read` is false where a helper
        raised. */
    method ReadStep(lines: seq<string>, i: nat, c: Cursor, ghost reg0: Registry) returns (next: Cursor, read: bool)
      requires i < |lines| && Run(lines, i, reg0) == Reading(c, State())
      modifies this
      ensures read ==> Run(lines, i + 1, reg0) == Reading(next, State())
      ensures !read ==> Run(lines, i + 1, reg0) == Crashed(State(), i)
    {
      var s := ReadLine(lines, i, c);
      RunNext(lines, i, reg0, c, State());
      if s.Fail? {
        return c, false;
      }
      if s.AddObj? {
        AddObject(s.cursor.obj);
      } else if s.AddTrp? {
        AddTrap(s.cursor.trap);
      }
      return s.cursor, true;
    }

    /** `read_file(source)` on the lines of the file: registers the records
        after the sentinel; `ok` is false where a helper raised, and then
        the records registered before that line stay. */
    method ReadFile(source: seq<string>) returns (ok: bool)
      modifies this
      ensures var p := Run(source, |source|, old(State()));
        ok == p.Reading? && State() == p.reg
    {
      var c := Start;
      for linecount := 0 to |source|
        invariant Run(source, linecount, old(State())) == Reading(c, State())
      {
        var next, read := ReadStep(source, linecount, c, old(State()));
        if !read {
          CrashStays(source, linecount + 1, |source|, old(State()));
          return false;
        }
        c := next;
      }
      return true;
    }

    // -------------------------------------------------------------------
    // Builders

    /** `parse_name(name)`. */
    method ParseName(name: string) returns (r: string)
      ensures r == TitleCase(name)
    {
      var words := Split(name, " ");
      var addup := "";
      var k := 0;
      while k < |words|
        invariant k <= |words|
        invariant addup == CapWords(words[..k])
      {
        var word := words[k];
        if |word| > 0 {
          addup := addup + ([ToUpper(word[0])] + word[1..]);
        }
        assert words[..k + 1][..k] == words[..k];
        k := k + 1;
      }
      assert words[..|words|] == words;
      r := KeepAlnum(addup);
    }

    /** `alertattr_to_object(attr)`, with `attribute` the catalog of
        `utils_mib.ATTRIBUTE`; the registry is not changed. */
    method AlertAttrToObject(attr: string, attribute: map<string, (string, string)>) returns (o: NtxObject)
      requires attr in attribute
      ensures o == AttrObject(attr, attribute[attr].0, nextObjectOid)
    {
      var title := ParseName(attr);
      var description := ParseName(attr);
      o := NtxObject("ntxAlert" + title, SelectType(attribute[attr].0), "read-only", "current",
                     "\"Alert " + description + " defined new.\"", nextObjectOid,
                     "ntxAlert." + NatToString(nextObjectOid));
    }

    /** `add_object_from_attribute(attribute)`. */
    method AddObjectFromAttribute(attr: string, attribute: map<string, (string, string)>)
      requires attr in attribute
      modifies this
      ensures State() == old(State()).AddObject(AttrObject(attr, attribute[attr].0, old(nextObjectOid)))
    {
      var o := AlertAttrToObject(attr, attribute);
      AddObject(o);
    }

    /** `alert_to_trap(alert)`; the registry is not changed. */
    method AlertToTrap(alert: Alert) returns (t: NtxTrap)
      ensures t == AlertTrap(alert, objectList, nextTrapOid)
    {
      var title := ParseName(alert.title);
      var trapName := "ntxTrap" + title;
      if |trapName| > MaxObjectNameLimit {
        trapName := "ntxTrap" + alert.alertId;
      }
      var description := if alert.description.Some? then alert.description.value else Replace(alert.name, '_', ' ');
      t := NtxTrap(trapName, ObjectNames(objectList), "current", "\" " + description + " .\"", nextTrapOid,
                   "nutanix." + NatToString(nextTrapOid));
    }

    /** `alert_to_trap(alert)` with the quotes of the description text
        written as `'`. */
    method AlertToTrapCorrected(alert: Alert) returns (t: NtxTrap)
      ensures t == QuoteSafeAlertTrap(alert, objectList, nextTrapOid)
    {
      t := AlertToTrap(alert);
      var text := if alert.description.Some? then alert.description.value else Replace(alert.name, '_', ' ');
      t := t.(description := "\" " + Replace(text, '"', '\'') + " .\"");
    }

    /** The loop of `find_trap_for_alert`, looking for the trap named `name`. */
    method FindTrapNamed(name: string) returns (r: Option<NtxTrap>)
      ensures r == FirstTrapNamed(trapList, name)
    {
      var k := 0;
      while k < |trapList|
        invariant k <= |trapList|
        invariant FirstTrapNamed(trapList[k..], name) == FirstTrapNamed(trapList, name)
      {
        if trapList[k].name == name {
          return Some(trapList[k]);
        }
        assert trapList[k..][1..] == trapList[k + 1..];
        k := k + 1;
      }
      return None;
    }

    /** `find_trap_for_alert(alertname)` as written: it looks for the name
        `"NtxTrap" + parse_name(alertname)`. */
    method FindTrapForAlert(alertName: string) returns (r: Option<NtxTrap>)
      ensures r == FirstTrapNamed(trapList, "NtxTrap" + TitleCase(alertName))
    {
      var title := ParseName(alertName);
      r := FindTrapNamed("NtxTrap" + title);
    }

    /** `find_trap_for_alert(alertname)` with the prefix `alert_to_trap`
        gives its traps. */
    method FindTrapForAlertCorrected(alertName: string) returns (r: Option<NtxTrap>)
      ensures r == FirstTrapNamed(trapList, TrapPrefix + TitleCase(alertName))
    {
      var title := ParseName(alertName);
      r := FindTrapNamed(TrapPrefix + title);
    }

    // -------------------------------------------------------------------
    // Writers

    /** `dump_trap_file(obj)`: the member names are written separated by
        `", "`. */
    method DumpTrapFile(t: NtxTrap) returns (s: string)
      ensures s == TrapText(t, Join(t.objects, ", "))
    {
      var objstring := "";
      var k := 0;
      while k < |t.objects|
        invariant k <= |t.objects|
        invariant objstring == Terminated(t.objects[..k], ", ")
      {
        objstring := objstring + t.objects[k] + ", ";
        assert t.objects[..k + 1][..k] == t.objects[..k];
        k := k + 1;
      }
      assert t.objects[..|t.objects|] == t.objects;
      TerminatedIsJoin(t.objects, ", ");
      s := TrapText(t, DropLast(objstring, 2));
    }

    /** `dump_objlist()`. */
    method DumpObjList() returns (addfile: string)
      ensures addfile == ObjectsText(objectList)
    {
      addfile := "";
      var k := 0;
      while k < |objectList|
        invariant k <= |objectList|
        invariant addfile == ObjectsText(objectList[..k])
      {
        ObjectsTextNext(objectList, k);
        addfile := addfile + ObjectBlock(objectList[k]);
        k := k + 1;
      }
      assert objectList[..|objectList|] == objectList;
    }

    /** `dump_traplist()`. */
    method DumpTrapList() returns (addfile: string)
      ensures addfile == TrapsText(trapList)
    {
      addfile := "";
      var k := 0;
      while k < |trapList|
        invariant k <= |trapList|
        invariant addfile == TrapsText(trapList[..k])
      {
        var block := DumpTrapFile(trapList[k]);
        TrapsTextNext(trapList, k);
        addfile := addfile + block;
        k := k + 1;
      }
      assert trapList[..|trapList|] == trapList;
    }

    /** `apply_changes_file()` on the lines of the file: the lines to write
        back. */
    method ApplyChangesFile(file: seq<string>) returns (newFile: seq<string>)
      ensures newFile == Splice(file, ObjectsText(objectList) + TrapsText(trapList))
    {
      newFile := [];
      var k := 0;
      while k < |file|
        invariant k <= |file|
        invariant newFile == file[..k] && SentinelLine !in file[..k]
      {
        var lines := file[k];
        if lines == SentinelLine {
          var objects := DumpObjList();
          var traps := DumpTrapList();
          lines := lines + (objects + traps) + "END\n";
          newFile := newFile + [lines];
          SpliceAt(file, objects + traps, k);
          return;
        }
        newFile := newFile + [lines];
        assert file[..k + 1] == file[..k] + [file[k]];
        k := k + 1;
      }
      assert file[..|file|] == file;
    }
  }
}
