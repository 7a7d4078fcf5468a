/** What flattenSchema prints, path by path and in order, for all payloads, whatever their keys: the
    record is what was printed last, and values that are the same up to key order print the same. */
module SchemaOrder {
  import opened Json
  import opened Schema
  import opened Wrappers

  type Print = (string, string)

  /** What one entry prints, in order: paths with their types. */
  function EntryPrints(f: string, v: Json): seq<Print>
    decreases v, Count(v) + 1
  {
    match v
    case JArr(items) =>
      [(f, "array")]
      + (if |items| > 0 && IsContainer(items[0]) then Prints(items[0], Count(items[0]), f + "[]") else [])
    case JObj(_) => Prints(v, Count(v), f)
    case _ => [(f, TypeOf(v))]
  }

  function EntryPrintsAt(j: Json, i: nat, prefix: string): seq<Print>
    requires i < Count(j)
    decreases j, i, 1
  {
    EntryPrints(FullKey(prefix, EntryKey(j, i)), EntryValue(j, i))
  }

  /** What the first n entries print. */
  function Prints(j: Json, n: nat, prefix: string): seq<Print>
    requires n <= Count(j)
    decreases j, n
  {
    if n == 0 then [] else Prints(j, n - 1, prefix) + EntryPrintsAt(j, n - 1, prefix)
  }

  /** The type printed last for a path. */
  function Last(ps: seq<Print>, q: string): Option<string> {
    if |ps| == 0 then None
    else if ps[|ps| - 1].0 == q then Some(ps[|ps| - 1].1)
    else Last(ps[..|ps| - 1], q)
  }

  lemma {:induction false} LastConcat(a: seq<Print>, b: seq<Print>, q: string)
    ensures Last(a + b, q) == if Last(b, q).Some? then Last(b, q) else Last(a, q)
  {
    if |b| == 0 {
      assert a + b == a;
    } else {
      LastConcat(a, b[..|b| - 1], q);
      assert (a + b)[..|a + b| - 1] == a + b[..|b| - 1];
    }
  }

  lemma {:induction false} LastIn(ps: seq<Print>, q: string)
    ensures Last(ps, q).Some? ==> (q, Last(ps, q).value) in ps
    ensures forall t | (q, t) in ps :: Last(ps, q).Some?
  {
    if |ps| > 0 {
      LastIn(ps[..|ps| - 1], q);
      assert ps == ps[..|ps| - 1] + [ps[|ps| - 1]];
    }
  }

  /* ----- the record is what was printed last ----- */

  function Shown(ps: seq<Print>, q: string): Option<string> {
    if q == PROTO then None else Last(ps, q)
  }

  lemma {:induction false} AddEntryLast(acc: Flat, f: string, v: Json, q: string)
    ensures At(AddEntry(acc, f, v), q)
         == if Shown(EntryPrints(f, v), q).Some? then Shown(EntryPrints(f, v), q) else At(acc, q)
    decreases v, Count(v) + 1
  {
    match v {
      case JArr(items) =>
        LastOne((f, "array"), q);
        if |items| > 0 && IsContainer(items[0]) {
          FlattenLast(items[0], Count(items[0]), f + "[]", q);
          LastConcat([(f, "array")], Prints(items[0], Count(items[0]), f + "[]"), q);
        } else {
          assert EntryPrints(f, v) == [(f, "array")];
        }
      case JObj(_) => FlattenLast(v, Count(v), f, q);
      case _ => LastOne((f, TypeOf(v)), q);
    }
  }

  lemma LastOne(pt: Print, q: string)
    ensures Last([pt], q) == if pt.0 == q then Some(pt.1) else None
  {
    assert [pt][..0] == [];
  }

  /** The record holds for a path the type that was printed for it last. */
  lemma {:induction false} FlattenLast(j: Json, n: nat, prefix: string, q: string)
    requires n <= Count(j)
    ensures At(FlattenFirst(j, n, prefix), q) == Shown(Prints(j, n, prefix), q)
    decreases j, n
  {
    hide AddEntry, EntryPrints;
    if n > 0 {
      FlattenLast(j, n - 1, prefix, q);
      AddEntryLast(FlattenFirst(j, n - 1, prefix), FullKey(prefix, EntryKey(j, n - 1)), EntryValue(j, n - 1), q);
      LastConcat(Prints(j, n - 1, prefix), EntryPrintsAt(j, n - 1, prefix), q);
    }
  }

  /* ----- reordering keys prints the same ----- */

  predicate PrintedBy(j: Json, i: nat, prefix: string, pt: Print) {
    i < Count(j) && pt in EntryPrintsAt(j, i, prefix)
  }

  lemma PrintsStep(j: Json, n: nat, prefix: string, pt: Print)
    requires n < Count(j)
    ensures pt in Prints(j, n + 1, prefix) <==> pt in Prints(j, n, prefix) || PrintedBy(j, n, prefix, pt)
  {
    hide EntryPrints;
  }

  lemma {:induction false} EntryPrinted(j: Json, n: nat, i: nat, prefix: string, pt: Print)
    requires i < n <= Count(j) && PrintedBy(j, i, prefix, pt)
    ensures pt in Prints(j, n, prefix)
  {
    hide PrintedBy, Prints;
    PrintsStep(j, n - 1, prefix, pt);
    if i < n - 1 { EntryPrinted(j, n - 1, i, prefix, pt); }
  }

  lemma {:induction false} PrinterOf(j: Json, n: nat, prefix: string, pt: Print) returns (i: nat)
    requires n <= Count(j) && pt in Prints(j, n, prefix)
    ensures i < n && PrintedBy(j, i, prefix, pt)
  {
    hide EntryPrints;
    if pt in EntryPrintsAt(j, n - 1, prefix) { i := n - 1; } else { i := PrinterOf(j, n - 1, prefix, pt); }
  }

  lemma {:induction false} SameEntryPrints(f: string, v: Json, w: Json, pt: Print)
    requires Valid(v) && Valid(w) && Same(v, w, {})
    ensures pt in EntryPrints(f, v) <==> pt in EntryPrints(f, w)
    decreases v, 1
  {
    match v {
      case JArr(items) =>
        if |items| > 0 && IsContainer(items[0]) { SamePrints(items[0], w.items[0], f + "[]", pt); }
      case JObj(_) => SamePrints(v, w, f, pt);
      case _ =>
    }
  }

  /** The entry of the other value that corresponds to entry i. */
  lemma Counterpart(x: Json, y: Json, i: nat) returns (k: nat)
    requires IsContainer(x) && Valid(x) && Valid(y) && Same(x, y, {}) && i < Count(x)
    ensures k < Count(y) && EntryKey(y, k) == EntryKey(x, i) && Same(EntryValue(x, i), EntryValue(y, k), {})
  {
    if x.JArr? {
      k := i;
    } else {
      assert x.props[i].0 in Keys(x.props) - {};
      k := IndexOf(y.props, x.props[i].0);
    }
  }

  lemma CounterpartBack(x: Json, y: Json, k: nat) returns (i: nat)
    requires IsContainer(x) && Valid(x) && Valid(y) && Same(x, y, {}) && k < Count(y)
    ensures i < Count(x) && EntryKey(y, k) == EntryKey(x, i) && Same(EntryValue(x, i), EntryValue(y, k), {})
  {
    if x.JArr? {
      i := k;
    } else {
      assert y.props[k].0 in Keys(y.props) - {};
      assert y.props[k].0 in Keys(x.props) - {};
      i := IndexOf(x.props, y.props[k].0);
      GetAt(y.props, k);
    }
  }

  lemma {:induction false} SamePrints(x: Json, y: Json, prefix: string, pt: Print)
    requires IsContainer(x) && Valid(x) && Valid(y) && Same(x, y, {})
    ensures pt in Prints(x, Count(x), prefix) <==> pt in Prints(y, Count(y), prefix)
    decreases x, 0
  {
    hide Prints, EntryPrints, Same, Valid;
    if pt in Prints(x, Count(x), prefix) {
      var i := PrinterOf(x, Count(x), prefix, pt);
      var k := Counterpart(x, y, i);
      EntryParts(x, i);
      EntryParts(y, k);
      SameEntryPrints(FullKey(prefix, EntryKey(x, i)), EntryValue(x, i), EntryValue(y, k), pt);
      EntryPrinted(y, Count(y), k, prefix, pt);
    }
    if pt in Prints(y, Count(y), prefix) {
      var k := PrinterOf(y, Count(y), prefix, pt);
      var i := CounterpartBack(x, y, k);
      EntryParts(x, i);
      EntryParts(y, k);
      SameEntryPrints(FullKey(prefix, EntryKey(x, i)), EntryValue(x, i), EntryValue(y, k), pt);
      EntryPrinted(x, Count(x), i, prefix, pt);
    }
  }

  lemma EntryParts(j: Json, i: nat)
    requires Valid(j) && i < Count(j)
    ensures Valid(EntryValue(j, i)) && EntryValue(j, i) < j
  {
  }

  /* ----- moving an entry to the end ----- */

  lemma {:induction false} EntryPrintsStart(f: string, v: Json, pt: Print)
    requires f != "" && pt in EntryPrints(f, v)
    ensures f <= pt.0 && (|pt.0| > |f| ==> IsNameEnd(pt.0[|f|]))
    ensures v.JObj? || (v.JArr? && pt != (f, "array")) ==> |pt.0| > |f|
    decreases v, Count(v) + 1
  {
    match v {
      case JArr(items) =>
        if pt != (f, "array") { PrintsStart(items[0], Count(items[0]), f + "[]", pt); }
      case JObj(_) => PrintsStart(v, Count(v), f, pt);
      case _ =>
    }
  }

  lemma {:induction false} PrintsStart(j: Json, n: nat, prefix: string, pt: Print)
    requires n <= Count(j) && prefix != "" && pt in Prints(j, n, prefix)
    ensures prefix + "." <= pt.0
    decreases j, n
  {
    hide EntryPrints;
    if pt in EntryPrintsAt(j, n - 1, prefix) {
      EntryPrintsStart(FullKey(prefix, EntryKey(j, n - 1)), EntryValue(j, n - 1), pt);
    } else {
      PrintsStart(j, n - 1, prefix, pt);
    }
  }

  lemma {:induction false} SameRefl(x: Json)
    requires Valid(x)
    ensures Same(x, x, {})
  {
    match x {
      case JArr(items) =>
        forall i | 0 <= i < |items| ensures Same(items[i], items[i], {}) { SameRefl(items[i]); }
      case JObj(props) =>
        forall i | 0 <= i < |props|
          ensures props[i].0 in Keys(props) - {} && Same(props[i].1, Get(props, props[i].0), {})
        {
          GetAt(props, i);
          SameRefl(props[i].1);
        }
      case _ =>
    }
  }

  lemma ReplaceItem(items: seq<Json>, i: nat, w: Json)
    requires i < |items| && Valid(JArr(items)) && Valid(w) && Same(items[i], w, {})
    ensures Valid(JArr(items[i := w])) && Same(JArr(items), JArr(items[i := w]), {})
  {
    forall k | 0 <= k < |items| ensures Same(items[k], items[i := w][k], {}) { SameRefl(items[k]); }
  }

  function MovedLast(props: Props, i: nat, w: Json): Props
    requires i < |props|
  {
    props[..i] + props[i + 1..] + [(props[i].0, w)]
  }

  lemma MovedAt(props: Props, i: nat, w: Json, k: nat)
    requires i < |props| && k < |props|
    ensures |MovedLast(props, i, w)| == |props|
    ensures MovedLast(props, i, w)[k]
         == if k < i then props[k] else if k < |props| - 1 then props[k + 1] else (props[i].0, w)
  {
  }

  lemma MovedKeys(props: Props, i: nat, w: Json)
    requires i < |props|
    ensures Keys(MovedLast(props, i, w)) == Keys(props)
  {
    hide MovedLast;
    var n, moved := |props| - 1, MovedLast(props, i, w);
    MovedAt(props, i, w, n);
    forall k | 0 <= k <= n ensures props[k].0 in Keys(moved) {
      MovedAt(props, i, w, if k < i then k else if k == i then n else k - 1);
    }
    forall m | 0 <= m <= n ensures moved[m].0 in Keys(props) { MovedAt(props, i, w, m); }
  }

  lemma MovedValid(props: Props, i: nat, w: Json)
    requires i < |props| && Valid(JObj(props)) && Valid(w)
    ensures Valid(JObj(MovedLast(props, i, w)))
  {
    hide MovedLast;
    var n, moved := |props| - 1, MovedLast(props, i, w);
    MovedAt(props, i, w, n);
    forall a, b | 0 <= a < b <= n ensures moved[a].0 != moved[b].0 {
      MovedAt(props, i, w, a);
      MovedAt(props, i, w, b);
    }
    forall m | 0 <= m <= n ensures Valid(moved[m].1) { MovedAt(props, i, w, m); }
  }

  lemma MoveLast(props: Props, i: nat, w: Json)
    requires i < |props| && Valid(JObj(props)) && Valid(w) && Same(props[i].1, w, {})
    ensures Valid(JObj(MovedLast(props, i, w))) && Same(JObj(props), JObj(MovedLast(props, i, w)), {})
  {
    hide MovedLast;
    var n, moved := |props| - 1, MovedLast(props, i, w);
    MovedValid(props, i, w);
    MovedKeys(props, i, w);
    MovedAt(props, i, w, n);
    forall k | 0 <= k < |props|
      ensures props[k].0 in Keys(moved) - {} && Same(props[k].1, Get(moved, props[k].0), {})
    {
      var m := if k < i then k else if k == i then n else k - 1;
      MovedAt(props, i, w, m);
      GetAt(moved, m);
      SameRefl(props[k].1);
    }
  }

  lemma ArrayMark(f: string, items: seq<Json>)
    ensures Last(EntryPrints(f, JArr(items)), f) == Some("array")
  {
    if |items| > 0 && IsContainer(items[0]) {
      var inner := Prints(items[0], Count(items[0]), f + "[]");
      LastConcat([(f, "array")], inner, f);
      LastIn(inner, f);
      if Last(inner, f).Some? {
        PrintsStart(items[0], Count(items[0]), f + "[]", (f, Last(inner, f).value));
      }
    }
  }

  /* ----- payloads that print no path with two types ----- */

  /** No path is printed with two types. */
  ghost predicate Consistent(x: Json) {
    forall a, b | a in Prints(x, Count(x), "") && b in Prints(x, Count(x), "") && a.0 == b.0 != PROTO :: a.1 == b.1
  }

  lemma ConsistentSame(x: Json, y: Json)
    requires IsContainer(x) && Valid(x) && Valid(y) && Same(x, y, {}) && Consistent(x)
    ensures Flatten(x, "") == Flatten(y, "")
  {
    hide Prints, Flatten, Same, Valid;
    var ps, qs := Prints(x, Count(x), ""), Prints(y, Count(y), "");
    forall q ensures At(Flatten(x, ""), q) == At(Flatten(y, ""), q) {
      ShownAt(x, q);
      ShownAt(y, q);
      LastIn(ps, q);
      LastIn(qs, q);
      if Last(ps, q).Some? { SamePrints(x, y, "", (q, Last(ps, q).value)); }
      if Last(qs, q).Some? { SamePrints(x, y, "", (q, Last(qs, q).value)); }
    }
    SameFlat(Flatten(x, ""), Flatten(y, ""));
  }

  lemma ShownAt(x: Json, q: string)
    ensures At(Flatten(x, ""), q) == Shown(Prints(x, Count(x), ""), q)
  {
    FlattenLast(x, Count(x), "", q);
  }

  lemma SameFlat(a: Flat, b: Flat)
    requires forall q {:trigger At(a, q)} :: At(a, q) == At(b, q)
    ensures a == b
  {
    forall q ensures (q in a <==> q in b) && (q in a ==> a[q] == b[q]) { assert At(a, q) == At(b, q); }
  }
}
