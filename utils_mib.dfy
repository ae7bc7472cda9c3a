/** The attribute catalog of experimental/utils_mib.py: a dictionary from a
    protobuf field name to its (type name, label name) pair, filled from a
    message's field descriptors through two fixed code tables, after which
    `severity` and `title` are forced to fixed entries.

    The protobuf descriptor is replaced by a sequence of fields, each a
    (name, type code, label code) triple; the module-global `ATTRIBUTE`
    dictionary is the `attribute` field of an `AttributeCatalog` object. */
module UtilsMib {
  import opened Wrappers

  /** (type name, label name), as `ATTRIBUTE` stores them. */
  type AttrInfo = (string, string)

  /** One field of a message descriptor. */
  datatype Field = Field(name: string, typeCode: int, labelCode: int)

  /** `MAPTYPE`: protobuf type codes to type names. Code 4 is spelled
      `TYPE_UNIT64` in the source, and is kept so. */
  const MapType: map<int, string> :=
    map[1 := "TYPE_DOUBLE", 2 := "TYPE_FLOAT", 3 := "TYPE_INT64",
        4 := "TYPE_UNIT64", 5 := "TYPE_INT32", 6 := "TYPE_FIXED64",
        7 := "TYPE_FIXED32", 8 := "TYPE_BOOL", 9 := "TYPE_STRING",
        10 := "TYPE_GROUP", 11 := "TYPE_MESSAGE", 12 := "TYPE_BYTES",
        13 := "TYPE_UINT32", 14 := "TYPE_ENUM"]

  /** `LABELTYPE`: protobuf label codes to label names. */
  const LabelType: map<int, string> :=
    map[1 := "LABEL_OPTIONAL", 2 := "LABEL_REQUIRED", 3 := "LABEL_REPEATED"]

  const SeverityKey: string := "severity"
  const TitleKey: string := "title"

  /** The entry of one field, or None where a table lookup raises KeyError. */
  function FieldInfo(f: Field): (r: Option<AttrInfo>)
    ensures r.Some? <==> 1 <= f.typeCode <= 14 && 1 <= f.labelCode <= 3
    ensures f.typeCode == 4 && f.labelCode == 1 ==> r == Some(("TYPE_UNIT64", "LABEL_OPTIONAL"))
  {
    if f.typeCode in MapType && f.labelCode in LabelType
    then Some((MapType[f.typeCode], LabelType[f.labelCode]))
    else None
  }

  /** Every field's codes are in the tables. */
  predicate AllKnown(fields: seq<Field>)
  {
    forall i :: 0 <= i < |fields| ==> FieldInfo(fields[i]).Some?
  }

  /** A non-empty list is all known when its head and its tail are. */
  lemma AllKnownCons(fields: seq<Field>)
    requires |fields| > 0
    ensures AllKnown(fields) <==> FieldInfo(fields[0]).Some? && AllKnown(fields[1..])
  {
    var rest := fields[1..];
    if FieldInfo(fields[0]).Some? && AllKnown(rest) {
      forall j | 0 <= j < |fields| ensures FieldInfo(fields[j]).Some? {
        if j > 0 {
          assert fields[j] == rest[j - 1];
        }
      }
    }
  }

  /** The index of the first field whose lookup fails, or `|fields|`. */
  function FirstUnknown(fields: seq<Field>): (k: nat)
    ensures k <= |fields|
    ensures AllKnown(fields[..k])
    ensures k < |fields| ==> FieldInfo(fields[k]).None?
    ensures k == |fields| <==> AllKnown(fields)
  {
    if |fields| == 0 then 0
    else if FieldInfo(fields[0]).None? then 0
    else
      var rest := fields[1..];
      var k := FirstUnknown(rest);
      AllKnownCons(fields);
      AllKnownCons(fields[..k + 1]);
      assert fields[..k + 1][1..] == rest[..k];
      1 + k
  }

  /** `m` after `m[f.name] = ...` for each field, first to last. */
  function Assign(m: map<string, AttrInfo>, fields: seq<Field>): map<string, AttrInfo>
    requires AllKnown(fields)
  {
    if |fields| == 0 then m
    else
      var f := fields[|fields| - 1];
      Assign(m, fields[..|fields| - 1])[f.name := FieldInfo(f).value]
  }

  /** The names of the fields. */
  function Names(fields: seq<Field>): set<string>
  {
    set i | 0 <= i < |fields| :: fields[i].name
  }

  /** The index of the last field called `k`. */
  function LastNamed(fields: seq<Field>, k: string): (j: nat)
    requires k in Names(fields)
    ensures j < |fields| && fields[j].name == k
    ensures forall i :: j < i < |fields| ==> fields[i].name != k
  {
    var f := fields[|fields| - 1];
    if f.name == k then |fields| - 1
    else
      assert k in Names(fields[..|fields| - 1]) by {
        var i :| 0 <= i < |fields| && fields[i].name == k;
        assert fields[..|fields| - 1][i] == fields[i];
      }
      LastNamed(fields[..|fields| - 1], k)
  }

  /** What a successful `addattribute` leaves in the catalog `m`. */
  function Catalog(m: map<string, AttrInfo>, fields: seq<Field>): (r: map<string, AttrInfo>)
    requires AllKnown(fields)
    ensures SeverityKey in r && r[SeverityKey] == ("TYPE_INT64", "LABEL_OPTIONAL")
    ensures TitleKey in r && r[TitleKey] == ("TYPE_STRING", "LABEL_OPTIONAL")
  {
    Assign(m, fields)[SeverityKey := (MapType[3], LabelType[1])][TitleKey := (MapType[9], LabelType[1])]
  }

  /** A field name maps to the entry of the LAST field with that name, and a
      key that no field names keeps its old value: the dictionary is updated,
      never cleared. */
  lemma {:induction false} AssignEntry(m: map<string, AttrInfo>, fields: seq<Field>, k: string)
    requires AllKnown(fields)
    ensures k in Names(fields) ==>
      k in Assign(m, fields) && Assign(m, fields)[k] == FieldInfo(fields[LastNamed(fields, k)]).value
    ensures k !in Names(fields) ==>
      (k in Assign(m, fields) <==> k in m) && (k in m ==> Assign(m, fields)[k] == m[k])
  {
    if |fields| > 0 {
      var init := fields[..|fields| - 1];
      NamesSnoc(fields);
      AssignEntry(m, init, k);
      if fields[|fields| - 1].name != k && k in Names(init) {
        var j := LastNamed(init, k);
        assert LastNamed(fields, k) == j;
        assert init[j] == fields[j];
      }
    }
  }

  /** The fields but the last are all known, and their names are the names
      of all fields but the last one's. */
  lemma NamesSnoc(fields: seq<Field>)
    requires |fields| > 0 && AllKnown(fields)
    ensures AllKnown(fields[..|fields| - 1])
    ensures Names(fields) == Names(fields[..|fields| - 1]) + {fields[|fields| - 1].name}
  {
    var init := fields[..|fields| - 1];
    forall i | 0 <= i < |init| ensures FieldInfo(init[i]).Some? && init[i] == fields[i] {
      assert init[i] == fields[i];
    }
    forall k | k in Names(fields) ensures k in Names(init) + {fields[|fields| - 1].name} {
      var i :| 0 <= i < |fields| && fields[i].name == k;
      if i < |init| { assert init[i] == fields[i]; }
    }
  }

  /** The keys after `addattribute`: the old keys, the field names, and the
      two forced ones. */
  lemma {:induction false} CatalogKeys(m: map<string, AttrInfo>, fields: seq<Field>)
    requires AllKnown(fields)
    ensures Catalog(m, fields).Keys == m.Keys + Names(fields) + {SeverityKey, TitleKey}
  {
    forall k ensures k in Catalog(m, fields) <==> k in m.Keys + Names(fields) + {SeverityKey, TitleKey} {
      AssignEntry(m, fields, k);
    }
  }

  /** Every field name other than `severity` and `title` maps to the entry of
      its last field; every other old key keeps its value. */
  lemma CatalogEntry(m: map<string, AttrInfo>, fields: seq<Field>, k: string)
    requires AllKnown(fields)
    requires k != SeverityKey && k != TitleKey
    ensures k in Names(fields) ==> k in Catalog(m, fields) && Catalog(m, fields)[k] == FieldInfo(fields[LastNamed(fields, k)]).value
    ensures k !in Names(fields) && k in m ==> k in Catalog(m, fields) && Catalog(m, fields)[k] == m[k]
  {
    AssignEntry(m, fields, k);
  }

  /** The module-global `ATTRIBUTE` dictionary and `addattribute`. */
  class AttributeCatalog {
    var attribute: map<string, AttrInfo>

    constructor ()
      ensures attribute == map[]
    {
      attribute := map[];
    }

    /** `addattribute(message)`: each field in turn writes its entry; a type
        or label code outside the tables raises KeyError part-way, leaving the
        entries of the fields before it and no overrides (ok == false). */
    method AddAttribute(fields: seq<Field>) returns (ok: bool)
      modifies this
      ensures ok <==> AllKnown(fields)
      ensures ok ==> attribute == Catalog(old(attribute), fields)
      ensures !ok ==> attribute == Assign(old(attribute), fields[..FirstUnknown(fields)])
    {
      var i := 0;
      while i < |fields|
        invariant 0 <= i <= |fields|
        invariant AllKnown(fields[..i])
        invariant attribute == Assign(old(attribute), fields[..i])
      {
        var f := fields[i];
        var info := FieldInfo(f);
        if info.None? {
          FirstUnknownAt(fields, i);
          return false;
        }
        AssignNext(old(attribute), fields, i);
        attribute := attribute[f.name := info.value];
        i := i + 1;
      }
      assert fields[..i] == fields;
      attribute := attribute[SeverityKey := (MapType[3], LabelType[1])];
      attribute := attribute[TitleKey := (MapType[9], LabelType[1])];
      ok := true;
    }
  }

  /** One more known field writes its entry over the ones before it. */
  lemma AssignNext(m: map<string, AttrInfo>, fields: seq<Field>, i: nat)
    requires i < |fields| && AllKnown(fields[..i]) && FieldInfo(fields[i]).Some?
    ensures AllKnown(fields[..i + 1])
    ensures Assign(m, fields[..i + 1]) == Assign(m, fields[..i])[fields[i].name := FieldInfo(fields[i]).value]
  {
    assert fields[..i + 1] == fields[..i] + [fields[i]];
    assert fields[..i + 1][..i] == fields[..i];
  }

  /** The field where the lookups first fail is the one `FirstUnknown` names. */
  lemma {:induction false} FirstUnknownAt(fields: seq<Field>, i: nat)
    requires i < |fields| && AllKnown(fields[..i]) && FieldInfo(fields[i]).None?
    ensures FirstUnknown(fields) == i
  {
    if i > 0 {
      assert fields[..i][0] == fields[0];
      var rest := fields[1..];
      assert rest[..i - 1] == fields[..i][1..];
      FirstUnknownAt(rest, i - 1);
    }
  }
}
