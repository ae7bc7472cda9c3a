/** The registry that class `MIB` keeps: the ordered lists `Objectlist` and
    `Traplist` and the two OID counters `ntx_object_start_oid` and
    `ntx_trap_start_oid`, as a value, with the effect of `add_object`,
    `add_trap`, `del_object` and `del_trap` on it. Class `SysMib.Mib` holds
    the same state in fields and its methods are proved against these
    functions. */
module MibRegistry {
  import opened MibRecords

  datatype Registry = Registry(
    objects: seq<NtxObject>,
    traps: seq<NtxTrap>,
    nextObjectOid: nat,
    nextTrapOid: nat)
  {
    /** No two records compare equal, the object counter is at least 1 and
        above every object's counter, the trap counter at least 1000 and
        above every trap's counter. */
    predicate Valid()
    {
      && nextObjectOid >= 1
      && nextTrapOid >= 1000
      && (forall i, j :: 0 <= i < j < |objects| ==> !objects[i].Compare(objects[j]))
      && (forall i, j :: 0 <= i < j < |traps| ==> !traps[i].Compare(traps[j]))
      && (forall i :: 0 <= i < |objects| ==> objects[i].counter < nextObjectOid)
      && (forall i :: 0 <= i < |traps| ==> traps[i].counter < nextTrapOid)
    }

    /** `add_object(obj)`: append `o` unless a registered object compares
        equal to it, and then raise the object counter past `o.counter`. */
    function AddObject(o: NtxObject): (r: Registry)
      ensures HasObjectLike(objects, o) ==> r == this
      ensures !HasObjectLike(objects, o) ==> r.objects == objects + [o]
      ensures HasObjectLike(r.objects, o)
      ensures r.nextObjectOid >= nextObjectOid
      ensures r != this ==> r.nextObjectOid > o.counter
      ensures r.nextObjectOid == nextObjectOid || r.nextObjectOid == o.counter + 1
      ensures r.traps == traps && r.nextTrapOid == nextTrapOid
    {
      if HasObjectLike(objects, o) then this
      else
        assert (objects + [o])[|objects|] == o;
        this.(objects := objects + [o], nextObjectOid := Max(nextObjectOid, o.counter + 1))
    }

    /** `add_trap(obj)`: append `t` unless a registered trap has its name
        and status, and then raise the trap counter past `t.counter`. */
    function AddTrap(t: NtxTrap): (r: Registry)
      ensures HasTrapLike(traps, t) ==> r == this
      ensures !HasTrapLike(traps, t) ==> r.traps == traps + [t]
      ensures HasTrapLike(r.traps, t)
      ensures r.nextTrapOid >= nextTrapOid
      ensures r != this ==> r.nextTrapOid > t.counter
      ensures r.nextTrapOid == nextTrapOid || r.nextTrapOid == t.counter + 1
      ensures r.objects == objects && r.nextObjectOid == nextObjectOid
    {
      if HasTrapLike(traps, t) then this
      else
        assert (traps + [t])[|traps|] == t;
        this.(traps := traps + [t], nextTrapOid := Max(nextTrapOid, t.counter + 1))
    }

    /** `del_object(obj)`: remove the first object equal to `o`, if any;
        the counters stay. */
    function DelObject(o: NtxObject): (r: Registry)
      ensures o !in objects ==> r == this
      ensures o in objects ==> |r.objects| == |objects| - 1
      ensures multiset(r.objects) == multiset(objects) - multiset{o}
      ensures r.traps == traps && r.nextObjectOid == nextObjectOid && r.nextTrapOid == nextTrapOid
    {
      this.(objects := RemoveFirst(objects, o))
    }

    /** `del_trap(obj)`: remove the first trap equal to `t`, if any. */
    function DelTrap(t: NtxTrap): (r: Registry)
      ensures t !in traps ==> r == this
      ensures t in traps ==> |r.traps| == |traps| - 1
      ensures multiset(r.traps) == multiset(traps) - multiset{t}
      ensures r.objects == objects && r.nextObjectOid == nextObjectOid && r.nextTrapOid == nextTrapOid
    {
      this.(traps := RemoveFirst(traps, t))
    }
  }

  /** The class-level defaults: no records, counters 1 and 1000. */
  const Initial: Registry := Registry([], [], 1, 1000)

  /** The class-level defaults satisfy the registry invariant. */
  lemma InitialValid()
    ensures Initial.Valid()
  {
  }

  function Max(a: nat, b: nat): nat
  {
    if a < b then b else a
  }

  /** `sum(map(lambda i: i.compare(obj), Objectlist))` is non-zero. */
  predicate HasObjectLike(objects: seq<NtxObject>, o: NtxObject)
  {
    exists i :: 0 <= i < |objects| && objects[i].Compare(o)
  }

  /** `sum(map(lambda i: i.compare(obj), Traplist))` is non-zero. */
  predicate HasTrapLike(traps: seq<NtxTrap>, t: NtxTrap)
  {
    exists i :: 0 <= i < |traps| && traps[i].Compare(t)
  }

  /** The index of the first element of `s` equal to `x`. */
  function IndexOf<T(==)>(s: seq<T>, x: T): (i: nat)
    requires x in s
    ensures i < |s| && s[i] == x && x !in s[..i]
  {
    if s[0] == x then 0
    else
      var i := IndexOf(s[1..], x);
      assert s[..i + 1] == [s[0]] + s[1..][..i];
      1 + i
  }

  /** `if x in s: s.remove(x)`: drop the first element equal to `x`. */
  function RemoveFirst<T(==)>(s: seq<T>, x: T): (r: seq<T>)
    ensures x !in s ==> r == s
    ensures x in s ==> |r| == |s| - 1 && r == s[..IndexOf(s, x)] + s[IndexOf(s, x) + 1..]
    ensures multiset(r) == multiset(s) - multiset{x}
  {
    if x in s then
      var i := IndexOf(s, x);
      assert s == s[..i] + [x] + s[i + 1..];
      s[..i] + s[i + 1..]
    else s
  }

  /** Element `a` after the removal is element `a` or `a + 1` before it,
      so the order of the rest is kept. */
  lemma RemoveFirstAt<T>(s: seq<T>, x: T, a: nat)
    requires x in s && a < |s| - 1
    ensures var i := IndexOf(s, x);
      RemoveFirst(s, x)[a] == if a < i then s[a] else s[a + 1]
  {
  }

  /** Adding an object keeps the registry valid. */
  lemma AddObjectKeepsValid(r: Registry, o: NtxObject)
    requires r.Valid()
    ensures r.AddObject(o).Valid()
  {
  }

  /** Adding a trap keeps the registry valid. */
  lemma AddTrapKeepsValid(r: Registry, t: NtxTrap)
    requires r.Valid()
    ensures r.AddTrap(t).Valid()
  {
  }

  /** Deleting an object keeps the registry valid. */
  lemma {:induction false} DelObjectKeepsValid(r: Registry, o: NtxObject)
    requires r.Valid()
    ensures r.DelObject(o).Valid()
  {
    var s := r.objects;
    if o in s {
      var t := RemoveFirst(s, o);
      forall a, b | 0 <= a < b < |t| ensures !t[a].Compare(t[b]) {
        RemoveFirstAt(s, o, a);
        RemoveFirstAt(s, o, b);
      }
      forall a | 0 <= a < |t| ensures t[a].counter < r.nextObjectOid {
        RemoveFirstAt(s, o, a);
      }
    }
  }

  /** Deleting a trap keeps the registry valid. */
  lemma {:induction false} DelTrapKeepsValid(r: Registry, t: NtxTrap)
    requires r.Valid()
    ensures r.DelTrap(t).Valid()
  {
    var s := r.traps;
    if t in s {
      var u := RemoveFirst(s, t);
      forall a, b | 0 <= a < b < |u| ensures !u[a].Compare(u[b]) {
        RemoveFirstAt(s, t, a);
        RemoveFirstAt(s, t, b);
      }
      forall a | 0 <= a < |u| ensures u[a].counter < r.nextTrapOid {
        RemoveFirstAt(s, t, a);
      }
    }
  }

  /** Adding the same object twice is adding it once. */
  lemma AddObjectIdempotent(r: Registry, o: NtxObject)
    ensures r.AddObject(o).AddObject(o) == r.AddObject(o)
  {
  }

  /** Adding the same trap twice is adding it once. */
  lemma AddTrapIdempotent(r: Registry, t: NtxTrap)
    ensures r.AddTrap(t).AddTrap(t) == r.AddTrap(t)
  {
  }
}
