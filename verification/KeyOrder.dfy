/** When the order of object keys shows in a flattened record, among the orders in which an object
    can list its keys: array indices first and ascending, the others in any order. */
module KeyOrder {
  import opened Json
  import opened Schema
  import opened SchemaOrder
  import opened Wrappers

  /** The order of section 10.1.11 of ECMA-262. */
  predicate Ordered(props: Props) {
    forall i, j | 0 <= i < j < |props| :: CanPrecede(props[i].0, props[j].0)
  }

  predicate CanPrecede(a: string, b: string) {
    IsArrayIndex(b) ==> IsArrayIndex(a) && Num(a) < Num(b)
  }

  /** Every object at every depth lists its keys in such an order. */
  predicate Listed(j: Json) {
    match j
    case JArr(items) => forall i | 0 <= i < |items| :: Listed(items[i])
    case JObj(props) => Ordered(props) && forall i | 0 <= i < |props| :: Listed(props[i].1)
    case _ => true
  }

  /* ----- the types that can be printed last ----- */

  /** Nothing is printed for the path by the entries from `from` on. */
  predicate Silent(j: Json, from: nat, prefix: string, q: string) {
    forall k | from <= k < Count(j) :: SilentAt(j, k, prefix, q)
  }

  predicate SilentAt(j: Json, k: nat, prefix: string, q: string)
    requires k < Count(j)
  {
    Last(EntryPrintsAt(j, k, prefix), q).None?
  }

  /** The entry cannot be listed after those that follow it. */
  predicate Fixed(j: Json, i: nat)
    requires i < Count(j)
  {
    j.JArr? || IsArrayIndex(EntryKey(j, i))
  }

  /** Under some key order the entry prints type t last for the path q. */
  ghost predicate CanEndEntry(f: string, v: Json, q: string, t: string)
    decreases v, 1
  {
    match v
    case JArr(items) =>
      || (|items| > 0 && IsContainer(items[0]) && CanEnd(items[0], f + "[]", q, t))
      || (q == f && t == "array")
    case JObj(_) => CanEnd(v, f, q, t)
    case _ => q == f && t == TypeOf(v)
  }

  /** Of the object's entries one that can move to the end, or one that cannot and that is the last to
      print the path; of an array's the one that prints it. */
  ghost predicate CanEnd(j: Json, prefix: string, q: string, t: string)
    decreases j, 0
  {
    exists i | 0 <= i < Count(j) :: CanEndAt(j, i, prefix, q, t)
  }

  ghost predicate CanEndAt(j: Json, i: nat, prefix: string, q: string, t: string)
    requires i < Count(j)
    decreases j, 0, i
  {
    && CanEndEntry(FullKey(prefix, EntryKey(j, i)), EntryValue(j, i), q, t)
    && (Fixed(j, i) ==> Silent(j, i + 1, prefix, q))
  }

  /* ----- each of them is printed last by some listing ----- */

  lemma {:induction false} FixedLast(j: Json, i: nat, n: nat, prefix: string, q: string, t: string)
    requires i < n <= Count(j) && Last(EntryPrintsAt(j, i, prefix), q) == Some(t)
    requires forall k | i < k < n :: SilentAt(j, k, prefix, q)
    ensures Last(Prints(j, n, prefix), q) == Some(t)
  {
    hide EntryPrints, Last;
    LastConcat(Prints(j, n - 1, prefix), EntryPrintsAt(j, n - 1, prefix), q);
    if i < n - 1 {
      assert SilentAt(j, n - 1, prefix, q);
      FixedLast(j, i, n - 1, prefix, q, t);
    }
  }

  lemma EntryListed(j: Json, i: nat)
    requires Valid(j) && Listed(j) && i < Count(j)
    ensures Valid(EntryValue(j, i)) && Listed(EntryValue(j, i)) && EntryValue(j, i) < j
  {
  }

  /** The value with entry i replaced. */
  function Replaced(x: Json, i: nat, w: Json): Json
    requires i < Count(x)
  {
    if x.JArr? then JArr(x.items[i := w]) else JObj(x.props[i := (x.props[i].0, w)])
  }

  lemma ReplacedSame(x: Json, i: nat, w: Json)
    requires i < Count(x) && Valid(x) && Valid(w) && Listed(x) && Listed(w) && Same(EntryValue(x, i), w, {})
    ensures var y := Replaced(x, i, w); Valid(y) && Listed(y) && Same(x, y, {}) && Count(y) == Count(x)
  {
    hide CanPrecede;
    if x.JArr? {
      ReplaceItem(x.items, i, w);
    } else {
      ReplacedValid(x.props, i, w);
      ReplacedProps(x.props, i, w);
    }
  }

  lemma ReplacedValid(props: Props, i: nat, w: Json)
    requires i < |props| && Valid(JObj(props)) && Valid(w)
    ensures var changed := props[i := (props[i].0, w)]; Valid(JObj(changed)) && Keys(changed) == Keys(props)
  {
    var changed := props[i := (props[i].0, w)];
    forall k | 0 <= k < |props|
      ensures changed[k].0 == props[k].0 && changed[k].0 in Keys(props) && props[k].0 in Keys(changed)
    {
      assert changed[k].0 == props[k].0;
    }
  }

  lemma ReplacedProps(props: Props, i: nat, w: Json)
    requires i < |props| && Valid(JObj(props)) && Valid(w) && Same(props[i].1, w, {})
    ensures Same(JObj(props), JObj(props[i := (props[i].0, w)]), {})
  {
    hide Keys;
    var changed := props[i := (props[i].0, w)];
    ReplacedValid(props, i, w);
    forall k | 0 <= k < |props|
      ensures props[k].0 in Keys(changed) - {} && Same(props[k].1, Get(changed, props[k].0), {})
    {
      GetAt(changed, k);
      SameRefl(props[k].1);
    }
  }

  lemma ReplacedPrints(x: Json, i: nat, w: Json, k: nat, prefix: string)
    requires i < Count(x) && k < Count(x)
    ensures Count(Replaced(x, i, w)) == Count(x)
    ensures EntryPrintsAt(Replaced(x, i, w), k, prefix)
         == if k == i then EntryPrints(FullKey(prefix, EntryKey(x, i)), w) else EntryPrintsAt(x, k, prefix)
  {
    hide EntryPrints;
  }

  lemma MovedListed(props: Props, i: nat, w: Json)
    requires i < |props| && Listed(JObj(props)) && Listed(w) && !IsArrayIndex(props[i].0)
    ensures Listed(JObj(MovedLast(props, i, w)))
  {
    hide MovedLast, IsArrayIndex;
    var n, moved := |props| - 1, MovedLast(props, i, w);
    MovedAt(props, i, w, n);
    forall a, b | 0 <= a < b <= n ensures CanPrecede(moved[a].0, moved[b].0) {
      MovedAt(props, i, w, a);
      MovedAt(props, i, w, b);
    }
    forall m | 0 <= m <= n ensures Listed(moved[m].1) { MovedAt(props, i, w, m); }
  }

  lemma {:induction false} EntryEnds(f: string, v: Json, q: string, t: string) returns (w: Json)
    requires Valid(v) && Listed(v) && CanEndEntry(f, v, q, t)
    ensures Valid(w) && Listed(w) && Same(v, w, {}) && Last(EntryPrints(f, w), q) == Some(t)
    decreases v, 1
  {
    match v {
      case JArr(items) =>
        if |items| > 0 && IsContainer(items[0]) && CanEnd(items[0], f + "[]", q, t) {
          var y := Ends(items[0], f + "[]", q, t);
          w := JArr(items[0 := y]);
          ReplaceItem(items, 0, y);
          LastConcat([(f, "array")], Prints(y, Count(y), f + "[]"), q);
        } else {
          w := v;
          SameRefl(v);
          ArrayMark(f, items);
        }
      case JObj(_) => w := Ends(v, f, q, t);
      case _ =>
        w := v;
        SameRefl(v);
        LastOne((f, TypeOf(v)), q);
    }
  }

  lemma FixedEnds(x: Json, i: nat, w: Json, prefix: string, q: string, t: string) returns (y: Json)
    requires i < Count(x) && IsContainer(x) && Valid(x) && Listed(x) && Silent(x, i + 1, prefix, q)
    requires Valid(w) && Listed(w) && Same(EntryValue(x, i), w, {})
    requires Last(EntryPrints(FullKey(prefix, EntryKey(x, i)), w), q) == Some(t)
    ensures IsContainer(y) && Valid(y) && Listed(y) && Same(x, y, {})
    ensures Last(Prints(y, Count(y), prefix), q) == Some(t)
  {
    hide EntryPrints, EntryPrintsAt, Valid, Listed, Same, Last, Prints;
    y := Replaced(x, i, w);
    ReplacedSame(x, i, w);
    ReplacedPrints(x, i, w, i, prefix);
    forall k | i < k < Count(y) ensures SilentAt(y, k, prefix, q) {
      ReplacedPrints(x, i, w, k, prefix);
      assert SilentAt(x, k, prefix, q);
    }
    FixedLast(y, i, Count(y), prefix, q, t);
  }

  lemma MovedEnds(x: Json, i: nat, w: Json, prefix: string, q: string, t: string) returns (y: Json)
    requires x.JObj? && i < Count(x) && Valid(x) && Listed(x) && !IsArrayIndex(EntryKey(x, i))
    requires Valid(w) && Listed(w) && Same(EntryValue(x, i), w, {})
    requires Last(EntryPrints(FullKey(prefix, EntryKey(x, i)), w), q) == Some(t)
    ensures IsContainer(y) && Valid(y) && Listed(y) && Same(x, y, {})
    ensures Last(Prints(y, Count(y), prefix), q) == Some(t)
  {
    hide EntryPrints, Valid, Listed, Same, Last, Prints, IsArrayIndex;
    y := JObj(MovedLast(x.props, i, w));
    MoveLast(x.props, i, w);
    MovedListed(x.props, i, w);
    var n := Count(y) - 1;
    assert y.props[n] == (x.props[i].0, w);
    FixedLast(y, n, n + 1, prefix, q, t);
  }

  lemma {:induction false} Ends(x: Json, prefix: string, q: string, t: string) returns (y: Json)
    requires IsContainer(x) && Valid(x) && Listed(x) && CanEnd(x, prefix, q, t)
    ensures IsContainer(y) && Valid(y) && Listed(y) && Same(x, y, {})
    ensures Last(Prints(y, Count(y), prefix), q) == Some(t)
    decreases x, 0
  {
    hide EntryPrints, Valid, Listed, Same, Last, Prints, IsArrayIndex, Silent, FullKey;
    var i :| 0 <= i < Count(x) && CanEndAt(x, i, prefix, q, t);
    EntryListed(x, i);
    var w := EntryEnds(FullKey(prefix, EntryKey(x, i)), EntryValue(x, i), q, t);
    if Fixed(x, i) {
      y := FixedEnds(x, i, w, prefix, q, t);
    } else {
      y := MovedEnds(x, i, w, prefix, q, t);
    }
  }

  /* ----- no listing prints another one last ----- */

  /** The entry that prints the path last. */
  lemma {:induction false} LastPrinter(j: Json, n: nat, prefix: string, q: string) returns (k: nat)
    requires n <= Count(j) && Last(Prints(j, n, prefix), q).Some?
    ensures k < n && Last(EntryPrintsAt(j, k, prefix), q) == Last(Prints(j, n, prefix), q)
    ensures forall m | k < m < n :: SilentAt(j, m, prefix, q)
  {
    hide EntryPrints, EntryPrintsAt, Last;
    NothingLast(q);
    LastConcat(Prints(j, n - 1, prefix), EntryPrintsAt(j, n - 1, prefix), q);
    if Last(EntryPrintsAt(j, n - 1, prefix), q).Some? {
      k := n - 1;
    } else {
      k := LastPrinter(j, n - 1, prefix, q);
    }
  }

  lemma NothingLast(q: string)
    ensures Last([], q).None?
  {
  }

  lemma {:induction false} EntryEnded(f: string, v: Json, w: Json, q: string, t: string)
    requires Valid(v) && Valid(w) && Listed(v) && Listed(w) && Same(v, w, {})
    requires Last(EntryPrints(f, w), q) == Some(t)
    ensures CanEndEntry(f, v, q, t)
    decreases v, 1
  {
    match v {
      case JArr(items) =>
        LastOne((f, "array"), q);
        if |items| > 0 && IsContainer(items[0]) {
          var inner := Prints(w.items[0], Count(w.items[0]), f + "[]");
          LastConcat([(f, "array")], inner, q);
          if Last(inner, q).Some? { Ended(items[0], w.items[0], f + "[]", q, t); }
        } else {
          assert EntryPrints(f, w) == [(f, "array")];
        }
      case JObj(_) => Ended(v, w, f, q, t);
      case _ => LastOne((f, TypeOf(v)), q);
    }
  }

  /** An entry listed after a fixed one in one listing is so in every other. */
  lemma StaysAfter(x: Json, y: Json, i: nat, m: nat, k: nat, l: nat)
    requires IsContainer(x) && Valid(x) && Valid(y) && Listed(x) && Listed(y) && Same(x, y, {})
    requires i < m < Count(x) && k < Count(y) && l < Count(y) && Fixed(x, i)
    requires EntryKey(y, k) == EntryKey(x, i) && EntryKey(y, l) == EntryKey(x, m)
    ensures k < l
  {
    hide Num, IsNumeral, Dec;
    if x.JArr? {
      DecInjective(i, k);
      DecInjective(m, l);
    } else {
      assert x.props[i].0 != x.props[m].0;
    }
  }

  lemma SilentBoth(x: Json, y: Json, m: nat, l: nat, prefix: string, q: string)
    requires Valid(x) && Valid(y) && m < Count(x) && l < Count(y)
    requires EntryKey(y, l) == EntryKey(x, m) && Same(EntryValue(x, m), EntryValue(y, l), {})
    ensures SilentAt(y, l, prefix, q) ==> SilentAt(x, m, prefix, q)
  {
    hide EntryPrints, Same, Valid;
    var f := FullKey(prefix, EntryKey(x, m));
    EntryParts(x, m);
    EntryParts(y, l);
    LastIn(EntryPrintsAt(x, m, prefix), q);
    LastIn(EntryPrintsAt(y, l, prefix), q);
    if Last(EntryPrintsAt(x, m, prefix), q).Some? {
      SameEntryPrints(f, EntryValue(x, m), EntryValue(y, l), (q, Last(EntryPrintsAt(x, m, prefix), q).value));
    }
  }

  lemma {:induction false} Ended(x: Json, y: Json, prefix: string, q: string, t: string)
    requires IsContainer(x) && Valid(x) && Valid(y) && Listed(x) && Listed(y) && Same(x, y, {})
    requires Last(Prints(y, Count(y), prefix), q) == Some(t)
    ensures CanEnd(x, prefix, q, t)
    decreases x, 0
  {
    hide EntryPrints, Valid, Listed, Same, Last, Prints, IsArrayIndex;
    var k := LastPrinter(y, Count(y), prefix, q);
    var i := CounterpartBack(x, y, k);
    EntryListed(x, i);
    EntryListed(y, k);
    EntryEnded(FullKey(prefix, EntryKey(x, i)), EntryValue(x, i), EntryValue(y, k), q, t);
    if Fixed(x, i) {
      forall m | i < m < Count(x) ensures SilentAt(x, m, prefix, q) {
        var l := Counterpart(x, y, m);
        StaysAfter(x, y, i, m, k, l);
        SilentBoth(x, y, m, l, prefix, q);
      }
    }
    assert CanEndAt(x, i, prefix, q, t);
  }

  /* ----- main results ----- */

  /** Of each path only one type can be printed last. */
  ghost predicate Settled(x: Json) {
    forall q, t, u | q != PROTO && CanEnd(x, "", q, t) && CanEnd(x, "", q, u) :: t == u
  }

  /** The type that some listing of the payload shows for a path is one that can be printed last. */
  lemma ShownCanEnd(x: Json, y: Json, q: string)
    requires IsContainer(x) && Valid(x) && Valid(y) && Listed(x) && Listed(y) && Same(x, y, {})
    requires q in Flatten(y, "")
    ensures q != PROTO && CanEnd(x, "", q, Flatten(y, "")[q])
  {
    hide Flatten, Prints, Valid, Listed, Same;
    ShownAt(y, q);
    Ended(x, y, "", q, Flatten(y, "")[q]);
  }

  /** A listing of the payload whose record has that type at the path. */
  lemma Relisted(x: Json, q: string, t: string) returns (y: Json)
    requires IsContainer(x) && Valid(x) && Listed(x) && CanEnd(x, "", q, t) && q != PROTO
    ensures Valid(y) && Listed(y) && Same(x, y, {}) && At(Flatten(y, ""), q) == Some(t)
  {
    y := Ends(x, "", q, t);
    ShownAt(y, q);
  }

  /** The paths of a record do not depend on the key order. */
  lemma SamePaths(x: Json, y: Json, q: string)
    requires IsContainer(x) && Valid(x) && Valid(y) && Same(x, y, {})
    ensures q in Flatten(x, "") <==> q in Flatten(y, "")
  {
    hide Prints, Flatten, Same, Valid;
    ShownAt(x, q);
    ShownAt(y, q);
    LastIn(Prints(x, Count(x), ""), q);
    LastIn(Prints(y, Count(y), ""), q);
    if q in Flatten(x, "") { SamePrints(x, y, "", (q, Flatten(x, "")[q])); }
    if q in Flatten(y, "") { SamePrints(x, y, "", (q, Flatten(y, "")[q])); }
  }

  lemma SettledSame(x: Json, y: Json)
    requires IsContainer(x) && Valid(x) && Valid(y) && Listed(x) && Listed(y) && Same(x, y, {}) && Settled(x)
    ensures Flatten(y, "") == Flatten(x, "")
  {
    hide Flatten, Prints, Valid, Listed, Same, CanEnd;
    SameRefl(x);
    forall q ensures At(Flatten(y, ""), q) == At(Flatten(x, ""), q) {
      SamePaths(x, y, q);
      if q in Flatten(x, "") {
        ShownCanEnd(x, x, q);
        ShownCanEnd(x, y, q);
      }
    }
    SameFlat(Flatten(y, ""), Flatten(x, ""));
  }

  /** No listing of a payload's keys, at any depth, changes its flattened record exactly if of each
      path only one type can be printed last. */
  lemma KeyOrderIrrelevantIff(x: Json)
    requires IsContainer(x) && Valid(x) && Listed(x)
    ensures (forall y | Valid(y) && Listed(y) && Same(x, y, {}) :: Flatten(y, "") == Flatten(x, "")) <==> Settled(x)
  {
    hide Flatten, Valid, Listed, Same, CanEnd;
    if Settled(x) {
      forall y | Valid(y) && Listed(y) && Same(x, y, {}) ensures Flatten(y, "") == Flatten(x, "") {
        SettledSame(x, y);
      }
    } else {
      var q, t, u :| q != PROTO && CanEnd(x, "", q, t) && CanEnd(x, "", q, u) && t != u;
      var y := Relisted(x, q, t);
      var z := Relisted(x, q, u);
    }
  }

  /** A payload that prints no path with two types is settled. */
  lemma ConsistentSettled(x: Json)
    requires IsContainer(x) && Valid(x) && Listed(x) && Consistent(x)
    ensures Settled(x)
  {
    hide Flatten, Prints, Valid, Listed, Same, CanEnd, Consistent;
    forall q, t, u | q != PROTO && CanEnd(x, "", q, t) && CanEnd(x, "", q, u) ensures t == u {
      var y := Relisted(x, q, t);
      var z := Relisted(x, q, u);
      ConsistentSame(x, y);
      ConsistentSame(x, z);
    }
  }

  const INNER := JObj([("x", JStr(""))])
  const INDEXED := JObj([("1", INNER), ("1.x", JNum("1"))])

  lemma InnerPrints()
    ensures EntryPrints("1", INNER) == [("1.x", "string")]
  {
    assert FullKey("1", "x") == "1.x";
    assert Prints(INNER, 0, "1") == [];
    assert EntryPrintsAt(INNER, 0, "1") == [("1.x", "string")];
    assert Prints(INNER, 1, "1") == [("1.x", "string")];
  }

  lemma IndexedKeys()
    ensures Valid(INDEXED) && Listed(INDEXED) && IsArrayIndex("1")
  {
    assert "1.x"[1] == '.';
    assert "1"[..0] == "";
    assert Num("1") == 1;
  }

  lemma IndexedPrints()
    ensures EntryPrintsAt(INDEXED, 0, "") == [("1.x", "string")] && EntryPrintsAt(INDEXED, 1, "") == [("1.x", "number")]
    ensures Prints(INDEXED, 2, "") == [("1.x", "string"), ("1.x", "number")]
  {
    InnerPrints();
    assert EntryPrintsAt(INDEXED, 0, "") == [("1.x", "string")];
    assert Prints(INDEXED, 0, "") == [];
    assert Prints(INDEXED, 1, "") == Prints(INDEXED, 0, "") + EntryPrintsAt(INDEXED, 0, "");
    assert EntryPrintsAt(INDEXED, 1, "") == [("1.x", "number")];
    assert Prints(INDEXED, 2, "") == Prints(INDEXED, 1, "") + EntryPrintsAt(INDEXED, 1, "");
  }

  lemma IndexedEnds(q: string, t: string)
    requires CanEnd(INDEXED, "", q, t)
    ensures q == "1.x" ==> t == "number"
  {
    hide Prints, EntryPrints, EntryPrintsAt, IsArrayIndex;
    IndexedKeys();
    IndexedPrints();
    LastOne(("1.x", "number"), q);
    var i :| 0 <= i < 2 && CanEndAt(INDEXED, i, "", q, t);
    if i == 0 {
      assert Fixed(INDEXED, 0);
      assert SilentAt(INDEXED, 1, "", q);
    } else {
      assert CanEndEntry("1.x", JNum("1"), q, t);
    }
  }

  /** Two types for one path need not show: of these two places the first has an array index for a key,
      which is always listed first, so the record is the same for every listing. */
  lemma IndexKeysHide()
    ensures Valid(INDEXED) && Listed(INDEXED) && !Consistent(INDEXED)
    ensures forall y | Valid(y) && Listed(y) && Same(INDEXED, y, {}) :: Flatten(y, "") == Flatten(INDEXED, "")
  {
    hide Prints, Flatten, Same, CanEnd, Valid, Listed;
    IndexedKeys();
    IndexedPrints();
    var ps := Prints(INDEXED, 2, "");
    assert ps[0] in ps && ps[1] in ps && "1.x" != PROTO;
    forall q, t, u | q != PROTO && CanEnd(INDEXED, "", q, t) && CanEnd(INDEXED, "", q, u) ensures t == u {
      IndexedPath(q, t);
      IndexedEnds(q, t);
      IndexedEnds(q, u);
    }
    KeyOrderIrrelevantIff(INDEXED);
  }

  lemma IndexedPath(q: string, t: string)
    requires CanEnd(INDEXED, "", q, t)
    ensures q == "1.x"
  {
    hide Prints, Same, CanEnd, Valid, Listed;
    IndexedKeys();
    IndexedPrints();
    var y := Ends(INDEXED, "", q, t);
    LastIn(Prints(y, Count(y), ""), q);
    SamePrints(INDEXED, y, "", (q, t));
  }
}
