/** diffSchemas: which paths two flattened records disagree on. */
module SchemaDiff {
  import opened Schema
  import opened Wrappers

  /** The properties every plain object inherits (sections 20.1.3 and B.2.2 of ECMA-262): the
      `in` operator finds them in any record. */
  predicate IsInherited(k: string) {
    k in {
      "constructor", "hasOwnProperty", "isPrototypeOf", "propertyIsEnumerable", "toLocaleString",
      "toString", "valueOf", "__proto__", "__defineGetter__", "__defineSetter__", "__lookupGetter__",
      "__lookupSetter__"
    }
  }

  /** `k in record` */
  predicate HasKey(record: Flat, k: string) {
    k in record || IsInherited(k)
  }

  /** What `record[k]` yields: a type name, or something inherited that equals no type name. */
  datatype Slot = Own(t: string) | Inherited

  function Read(record: Flat, k: string): Slot {
    if k in record then Own(record[k]) else Inherited
  }

  datatype Change = Change(from: Slot, to: string)

  datatype Diff = Diff(added: set<string>, removed: set<string>, typeChanged: map<string, Change>)

  function Added(previous: Flat, current: Flat): set<string> {
    set k | k in current && !HasKey(previous, k)
  }

  function TypeChanged(previous: Flat, current: Flat): map<string, Change> {
    map k | k in current && HasKey(previous, k) && Read(previous, k) != Own(current[k]) ::
      Change(Read(previous, k), current[k])
  }

  function DiffSchemas(previous: Flat, current: Flat): Option<Diff> {
    var added := Added(previous, current);
    var removed := Added(current, previous);
    var typeChanged := TypeChanged(previous, current);
    if |added| == 0 && |removed| == 0 && |typeChanged| == 0 then None
    else Some(Diff(added, removed, typeChanged))
  }

  function IsSchemaDiffEmpty(diff: Option<Diff>): bool {
    diff.None? || (|diff.value.added| == 0 && |diff.value.removed| == 0 && |diff.value.typeChanged| == 0)
  }

  /** The paths on which two records differ. */
  function Differing(a: Flat, b: Flat): set<string> {
    set k | k in a.Keys + b.Keys && Read(a, k) != Read(b, k)
  }

  /** Paths that were dropped without the diff noticing. */
  function Unnoticed(previous: Flat, current: Flat): set<string> {
    set k | k in previous && k !in current && IsInherited(k)
  }

  /** The record has no path that every object inherits. */
  predicate Ordinary(record: Flat) {
    forall k | k in record :: !IsInherited(k)
  }

  /** The diff, or one without entries where the code returns null. */
  function DiffOrEmpty(previous: Flat, current: Flat): Diff {
    var diff := DiffSchemas(previous, current);
    if diff.Some? then diff.value else Diff({}, {}, map[])
  }

  lemma DiffParts(previous: Flat, current: Flat)
    ensures DiffOrEmpty(previous, current)
      == Diff(Added(previous, current), Added(current, previous), TypeChanged(previous, current))
    ensures DiffSchemas(previous, current).None? <==>
        DiffOrEmpty(previous, current) == Diff({}, {}, map[])
    ensures IsSchemaDiffEmpty(DiffSchemas(previous, current)) <==> DiffSchemas(previous, current).None?
  {
    hide Added, TypeChanged;
    if |TypeChanged(previous, current)| == 0 {
      assert TypeChanged(previous, current) == map[];
    }
  }

  /** What becomes of one path. */
  lemma PathAt(previous: Flat, current: Flat, k: string)
    ensures var d := DiffOrEmpty(previous, current);
      && (k in d.added <==> k in current && k !in previous && !IsInherited(k))
      && (k in d.removed <==> k in previous && k !in current && !IsInherited(k))
      && (k in d.typeChanged <==> k in current && HasKey(previous, k) && Read(previous, k) != Own(current[k]))
      && (k in d.typeChanged ==> d.typeChanged[k] == Change(Read(previous, k), current[k]))
    ensures k in Differing(previous, current) <==>
        (k in previous || k in current) && Read(previous, k) != Read(current, k)
    ensures k in Unnoticed(previous, current) <==> k in previous && k !in current && IsInherited(k)
  {
    hide IsInherited, DiffOrEmpty;
    DiffParts(previous, current);
  }

  /** The three parts are disjoint and together name every differing path but the unnoticed ones. */
  lemma DiffCovers(previous: Flat, current: Flat)
    ensures var d := DiffOrEmpty(previous, current);
      && d.added !! d.removed !! d.typeChanged.Keys
      && d.added + d.removed + d.typeChanged.Keys == Differing(previous, current) - Unnoticed(previous, current)
      && (forall k | k in d.typeChanged :: k in current && d.typeChanged[k] == Change(Read(previous, k), current[k]))
  {
    hide IsInherited, DiffOrEmpty, Differing, Unnoticed;
    var d := DiffOrEmpty(previous, current);
    var all := d.added + d.removed + d.typeChanged.Keys;
    forall k ensures k in all <==> k in Differing(previous, current) - Unnoticed(previous, current) {
      PathAt(previous, current, k);
    }
    forall k | k in d.typeChanged
      ensures k in current && d.typeChanged[k] == Change(Read(previous, k), current[k])
    {
      PathAt(previous, current, k);
    }
    forall k ensures !(k in d.added && k in d.removed) && !(k in d.added + d.removed && k in d.typeChanged.Keys) {
      PathAt(previous, current, k);
    }
  }

  /** There is no diff exactly when nothing changed but unnoticed removals. */
  lemma NoDiff(previous: Flat, current: Flat)
    ensures DiffSchemas(previous, current).None? <==> Differing(previous, current) == Unnoticed(previous, current)
    ensures IsSchemaDiffEmpty(DiffSchemas(previous, current)) <==> DiffSchemas(previous, current).None?
  {
    hide IsInherited, DiffOrEmpty, DiffSchemas;
    DiffParts(previous, current);
    DiffCovers(previous, current);
    assert Unnoticed(previous, current) <= Differing(previous, current);
    var d := DiffOrEmpty(previous, current);
    if d.added + d.removed + d.typeChanged.Keys == {} {
      assert d.typeChanged == map[];
    }
  }

  /** The records differ, but only in removals that go unnoticed. */
  predicate Missed(previous: Flat, current: Flat) {
    && Unnoticed(previous, current) != {}
    && Differing(previous, current) == Unnoticed(previous, current)
  }

  lemma DifferingEmpty(previous: Flat, current: Flat)
    ensures Differing(previous, current) == {} <==> previous == current
  {
    hide IsInherited;
    if Differing(previous, current) == {} {
      forall k ensures (k in previous <==> k in current) && (k in previous ==> previous[k] == current[k]) {
        assert k !in Differing(previous, current);
      }
    }
  }

  /** A missing diff means equal records exactly if no change is missed, which needs a path with an
      inherited name. */
  lemma NoDiffIffEqual(previous: Flat, current: Flat)
    ensures (DiffSchemas(previous, current).None? <==> previous == current) <==> !Missed(previous, current)
    ensures previous == current ==> DiffSchemas(previous, current).None?
    ensures Ordinary(previous) ==> !Missed(previous, current)
  {
    hide IsInherited, DiffSchemas, Differing, Unnoticed;
    NoDiff(previous, current);
    DifferingEmpty(previous, current);
    UnnoticedDiffers(previous, current);
  }

  lemma UnnoticedDiffers(previous: Flat, current: Flat)
    ensures Unnoticed(previous, current) <= Differing(previous, current)
    ensures Ordinary(previous) ==> Unnoticed(previous, current) == {}
  {
    hide IsInherited;
  }

  /** Removing a path with an inherited name goes unnoticed. */
  lemma RemovalUnnoticed()
    ensures DiffSchemas(map["toString" := "string"], map[]).None?
  {
    NoDiff(map["toString" := "string"], map[]);
  }

  /** Carries a diff out on the previous record; the diff does not list the types of added paths. */
  function Patched(previous: Flat, diff: Diff, types: Flat): Flat
    requires diff.added <= types.Keys
  {
    (map k | k in previous && k !in diff.removed ::
       if k in diff.typeChanged then diff.typeChanged[k].to else previous[k])
    + (map k | k in diff.typeChanged :: diff.typeChanged[k].to)
    + (map k | k in diff.added :: types[k])
  }

  /** Applying the diff to the previous record gives the current one, and the paths whose
      removal went unnoticed stay. */
  lemma ApplyDiff(previous: Flat, current: Flat)
    ensures var d := DiffOrEmpty(previous, current);
      && d.added <= current.Keys
      && forall k :: Read(Patched(previous, d, current), k) ==
           if k in Unnoticed(previous, current) then Read(previous, k) else Read(current, k)
  {
    hide IsInherited, DiffOrEmpty, Patched, Differing, Unnoticed, Read;
    var d := DiffOrEmpty(previous, current);
    forall k | k in d.added ensures k in current { PathAt(previous, current, k); }
    forall k ensures Read(Patched(previous, d, current), k) ==
        if k in Unnoticed(previous, current) then Read(previous, k) else Read(current, k)
    {
      ApplyDiffAt(previous, current, k);
    }
  }

  lemma ApplyDiffAt(previous: Flat, current: Flat, k: string)
    requires DiffOrEmpty(previous, current).added <= current.Keys
    ensures Read(Patched(previous, DiffOrEmpty(previous, current), current), k) ==
        if k in Unnoticed(previous, current) then Read(previous, k) else Read(current, k)
  {
    hide IsInherited, DiffOrEmpty, Patched, Differing, Unnoticed;
    PathAt(previous, current, k);
    ApplyAt(previous, DiffOrEmpty(previous, current), current, k);
  }

  lemma ApplyAt(previous: Flat, diff: Diff, types: Flat, k: string)
    requires diff.added <= types.Keys
    ensures Read(Patched(previous, diff, types), k) ==
      if k in diff.added then Own(types[k])
      else if k in diff.typeChanged then Own(diff.typeChanged[k].to)
      else if k in diff.removed then Inherited
      else Read(previous, k)
  {
  }

  /** Inherited names that are a path of one record only. */
  function OneSided(a: Flat, b: Flat): set<string> {
    set k | k in a.Keys + b.Keys && IsInherited(k) && (k in a <==> k !in b)
  }

  /** Comparing the other way round swaps added with removed, always. The same paths change type
      exactly if no inherited name is in just one of the records; a path that does in both directions
      swaps old and new type. */
  lemma SwapDiff(a: Flat, b: Flat)
    ensures var d, e := DiffOrEmpty(a, b), DiffOrEmpty(b, a);
      && d.added == e.removed && d.removed == e.added
      && (d.typeChanged.Keys == e.typeChanged.Keys <==> OneSided(a, b) == {})
      && forall k | k in d.typeChanged && k in e.typeChanged ::
           d.typeChanged[k] == Change(Own(e.typeChanged[k].to), d.typeChanged[k].to)
           && e.typeChanged[k] == Change(Own(d.typeChanged[k].to), e.typeChanged[k].to)
  {
    hide IsInherited, DiffOrEmpty, OneSided;
    DiffParts(a, b);
    DiffParts(b, a);
    var d, e := DiffOrEmpty(a, b), DiffOrEmpty(b, a);
    forall k ensures k in OneSided(a, b) <==> (k in d.typeChanged <==> k !in e.typeChanged) { SwapAt(a, b, k); }
    if OneSided(a, b) == {} {
      forall k ensures k in d.typeChanged.Keys <==> k in e.typeChanged.Keys {
        assert k !in OneSided(a, b);
      }
    } else {
      var k :| k in OneSided(a, b);
      assert k in d.typeChanged.Keys <==> k !in e.typeChanged.Keys;
    }
  }

  lemma SwapAt(a: Flat, b: Flat, k: string)
    ensures k in OneSided(a, b) <==> (k in TypeChanged(a, b) <==> k !in TypeChanged(b, a))
  {
    hide IsInherited;
  }

  /** The diff without any notion of inheritance: added and removed are the paths of one record only,
      and typeChanged the common paths with different types, except for the twelve names of
      Object.prototype, of which a removal is dropped and an addition counts as a change of type. */
  lemma DiffIs(a: Flat, b: Flat)
    ensures var d := DiffOrEmpty(a, b);
      var names := {
        "constructor", "hasOwnProperty", "isPrototypeOf", "propertyIsEnumerable", "toLocaleString", "toString",
        "valueOf", "__proto__", "__defineGetter__", "__defineSetter__", "__lookupGetter__", "__lookupSetter__"};
      && d.removed == a.Keys - b.Keys - names
      && d.added == b.Keys - a.Keys - names
      && (forall k :: k in d.typeChanged <==>
            (k in a && k in b && a[k] != b[k]) || (k !in a && k in b && k in names))
      && (forall k | k in d.typeChanged && k in a :: d.typeChanged[k] == Change(Own(a[k]), b[k]))
      && (a.Keys * names == {} && b.Keys * names == {} ==>
            && d.removed == a.Keys - b.Keys && d.added == b.Keys - a.Keys
            && (DiffSchemas(a, b).None? <==> a == b))
  {
    hide DiffOrEmpty, DiffSchemas, IsInherited;
    var names := {
      "constructor", "hasOwnProperty", "isPrototypeOf", "propertyIsEnumerable", "toLocaleString", "toString",
      "valueOf", "__proto__", "__defineGetter__", "__defineSetter__", "__lookupGetter__", "__lookupSetter__"};
    forall k ensures IsInherited(k) <==> k in names { InheritedNames(k); }
    DiffBy(a, b, names);
    if a.Keys * names == {} && b.Keys * names == {} {
      NoNames(a, b, names);
      NoNames(b, a, names);
    }
  }

  lemma InheritedNames(k: string)
    ensures IsInherited(k) <==> k in {
      "constructor", "hasOwnProperty", "isPrototypeOf", "propertyIsEnumerable", "toLocaleString", "toString",
      "valueOf", "__proto__", "__defineGetter__", "__defineSetter__", "__lookupGetter__", "__lookupSetter__"}
  {
  }

  lemma DiffBy(a: Flat, b: Flat, names: set<string>)
    requires forall k :: IsInherited(k) <==> k in names
    ensures var d := DiffOrEmpty(a, b);
      && d.removed == a.Keys - b.Keys - names
      && d.added == b.Keys - a.Keys - names
      && (forall k :: k in d.typeChanged <==>
            (k in a && k in b && a[k] != b[k]) || (k !in a && k in b && k in names))
      && (forall k | k in d.typeChanged && k in a :: d.typeChanged[k] == Change(Own(a[k]), b[k]))
  {
    hide DiffOrEmpty, IsInherited;
    var d := DiffOrEmpty(a, b);
    forall k
      ensures k in d.removed <==> k in a.Keys - b.Keys - names
      ensures k in d.added <==> k in b.Keys - a.Keys - names
      ensures k in d.typeChanged <==> (k in a && k in b && a[k] != b[k]) || (k !in a && k in b && k in names)
      ensures k in d.typeChanged && k in a ==> d.typeChanged[k] == Change(Own(a[k]), b[k])
    {
      PathAt(a, b, k);
    }
  }

  lemma NoNames(a: Flat, b: Flat, names: set<string>)
    requires (forall k :: IsInherited(k) <==> k in names) && a.Keys * names == {}
    ensures DiffSchemas(a, b).None? <==> a == b
    ensures a.Keys - b.Keys - names == a.Keys - b.Keys
  {
    hide DiffSchemas, IsInherited;
    forall k | k in a ensures !IsInherited(k) { assert k !in a.Keys * names; }
    NoDiffIffEqual(a, b);
    forall k | k in a.Keys - b.Keys ensures k !in names { assert k !in a.Keys * names; }
  }
}
