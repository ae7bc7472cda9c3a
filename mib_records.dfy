/** The two record kinds of experimental/sysmib.py (`MIB.NtxObject`, an
    OBJECT-TYPE, and `MIB.NtxTrap`, a NOTIFICATION-TYPE), their duplicate
    tests, the alert record the builders read, and the fixed constants of
    class `MIB`. Records are modelled as values: where the source fills in
    the object or trap in progress after registering it (the two share one
    instance), the model registers a copy. */
module MibRecords {
  import opened Wrappers

  /** The marker line after which the parser reads records, and after which
      the rewriter splices its text. */
  const Sentinel: string := "  ntxAlert OBJECT IDENTIFIER ::= {nutanix 999}"

  /** `MAX_OBJECT_NAME_LIMIT`. */
  const MaxObjectNameLimit: nat := 64

  /** `AttributeType`: the only syntaxes a built object takes. */
  const AttributeType: seq<string> := ["Integer32", "Counter64", "Unsigned32", "DisplayString"]

  /** An OBJECT-TYPE definition. `counter` is the last number of its OID. */
  datatype NtxObject = NtxObject(
    name: string,
    syntax: string,
    maxAccess: string,
    status: string,
    description: string,
    counter: nat,
    oid: string)
  {
    /** `NtxObject.compare`: same name, syntax, access and status;
        description, counter and OID are not compared. */
    predicate Compare(other: NtxObject)
    {
      name == other.name && syntax == other.syntax &&
      maxAccess == other.maxAccess && status == other.status
    }
  }

  /** A NOTIFICATION-TYPE definition; `objects` names its member objects. */
  datatype NtxTrap = NtxTrap(
    name: string,
    objects: seq<string>,
    status: string,
    description: string,
    counter: nat,
    oid: string)
  {
    /** `NtxTrap.compare`: same name and status. */
    predicate Compare(other: NtxTrap)
    {
      name == other.name && status == other.status
    }
  }

  /** A fresh `NtxObject()` (the class defaults) named `name`. */
  function NewObject(name: string): NtxObject
  {
    NtxObject(name, "", "read-only", "current", "", 0, "")
  }

  /** A fresh `NtxTrap()` (the class defaults) named `name`. */
  function NewTrap(name: string): NtxTrap
  {
    NtxTrap(name, [], "current", "", 0, "")
  }

  /** The parts of a check schema that `alert_to_trap` reads:
      `alert_config.alert_title`, `alert_config.alert_id` (as `str` prints
      it), the optional `description` and the symbolic `name`. */
  datatype Alert = Alert(title: string, alertId: string, description: Option<string>, name: string)

  /** Both comparisons are equivalences, so "no two registered records
      compare equal" is a meaningful invariant. */
  lemma CompareIsEquivalence(a: NtxObject, b: NtxObject, c: NtxObject, s: NtxTrap, t: NtxTrap, u: NtxTrap)
    ensures a.Compare(a) && s.Compare(s)
    ensures a.Compare(b) ==> b.Compare(a)
    ensures s.Compare(t) ==> t.Compare(s)
    ensures a.Compare(b) && b.Compare(c) ==> a.Compare(c)
    ensures s.Compare(t) && t.Compare(u) ==> s.Compare(u)
  {
  }
}
