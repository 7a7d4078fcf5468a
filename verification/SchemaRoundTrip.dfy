/** Which payloads can be read back from their flattened record, and how the notation that is printed
    differs from the documented one. */
module SchemaRoundTrip {
  import opened Json
  import opened Schema
  import opened SchemaOrder
  import opened Wrappers

  /** All keys of the shape, at every depth, are non-empty and free of '.' and '['. */
  ghost predicate CleanNode(node: Node) {
    match node
    case Leaf(_) => true
    case List(elem) => forall k | k in elem :: CleanKey(k) && CleanNode(elem[k])
    case Nested(fields) => forall k | k in fields :: CleanKey(k) && CleanNode(fields[k])
  }

  lemma {:induction false} NameClean(path: string)
    ensures Name(path) != "" ==> CleanKey(Name(path))
  {
    if |path| > 0 && !IsNameEnd(path[0]) { NameClean(path[1..]); }
  }

  /** Reading any record gives such a shape. */
  lemma {:induction false} ReadClean(flat: Flat, n: nat)
    requires KeysUpTo(flat, n)
    ensures CleanNode(Nested(Read(flat, n)))
    decreases n, 1
  {
    var r := Read(flat, n);
    forall k | k in r ensures CleanKey(k) && CleanNode(r[k]) {
      var path :| path in flat && Name(path) == k;
      NameClean(path);
      ReadNodeClean(flat, k, n);
    }
  }

  lemma {:induction false} ReadNodeClean(flat: Flat, k: string, n: nat)
    requires KeysUpTo(flat, n) && 0 < |k|
    ensures CleanNode(ReadNode(flat, k, n))
    decreases n, 0
  {
    hide Sub, KeysUpTo, Names, Read;
    if !(k in flat && flat[k] != "array") {
      var p := if k in flat then k + "[]." else k + ".";
      if |p| <= n {
        SubUpTo(flat, p, n);
        ReadClean(Sub(flat, p), n - 1);
        ListClean(Read(Sub(flat, p), n - 1));
      }
    }
  }

  lemma ListClean(shape: Shape)
    ensures CleanNode(Nested(shape)) <==> CleanNode(List(shape))
  {
  }

  lemma ChildClean(node: Node, k: string)
    requires !node.Leaf? && CleanNode(node) && k in Inner(node)
    ensures CleanKey(k) && CleanNode(Inner(node)[k])
  {
  }

  /** A payload with a clean shape prints clean keys only. */
  lemma {:induction false} ShapeClean(j: Json)
    requires Valid(j) && CleanNode(Nested(ShapeOf(j)))
    ensures Clean(j)
    decreases j, 0
  {
    hide CleanNode, ShapeOf;
    forall i | 0 <= i < Count(j) ensures CleanAt(j, i) {
      var v := EntryValue(j, i);
      if !Vanishes(v) {
        EntryParts(j, i);
        InShape(j, i);
        ChildClean(Nested(ShapeOf(j)), EntryKey(j, i));
        EntryShapeClean(v);
      }
    }
  }

  lemma InShape(j: Json, i: nat)
    requires Valid(j) && i < Count(j) && !Vanishes(EntryValue(j, i))
    ensures EntryKey(j, i) in ShapeOf(j) && ShapeOf(j)[EntryKey(j, i)] == NodeOf(EntryValue(j, i))
  {
    ValueAtEntry(j, i);
  }

  lemma {:induction false} EntryShapeClean(v: Json)
    requires Valid(v) && CleanNode(NodeOf(v))
    ensures CleanEntry(v)
    decreases v, 1
  {
    match v {
      case JArr(items) =>
        if |items| > 0 && IsContainer(items[0]) {
          assert NodeOf(v) == List(ShapeOf(items[0]));
          ShapeClean(items[0]);
        }
      case JObj(_) => ShapeClean(v);
      case _ =>
    }
  }

  lemma {:induction false} NormalClean(node: Node)
    requires Normal(node)
    ensures CleanNode(node)
  {
    if !node.Leaf? {
      forall k | k in Inner(node) ensures CleanKey(k) && CleanNode(Inner(node)[k]) {
        NormalChild(node, k);
        NormalClean(Inner(node)[k]);
      }
    }
  }

  lemma CleanIffShape(j: Json)
    requires IsContainer(j) && Valid(j)
    ensures Clean(j) <==> CleanNode(Nested(ShapeOf(j)))
  {
    hide Clean, CleanNode, ShapeOf, Normal;
    if Clean(j) {
      ShapeNormal(j);
      NormalClean(Nested(ShapeOf(j)));
    }
    if CleanNode(Nested(ShapeOf(j))) { ShapeClean(j); }
  }

  /** The record never has the path `__proto__`, so it is not read back as a leaf or an array. */
  lemma ProtoNotRead(j: Json, i: nat, n: nat)
    requires IsContainer(j) && Valid(j) && KeysUpTo(Flatten(j, ""), n)
    requires i < Count(j) && EntryKey(j, i) == PROTO && !EntryValue(j, i).JObj?
    ensures Read(Flatten(j, ""), n) != ShapeOf(j)
  {
    hide Flatten, ShapeOf;
    var flat := Flatten(j, "");
    ShownAt(j, PROTO);
    InShape(j, i);
    assert PROTO in Read(flat, n) ==> Read(flat, n)[PROTO].Nested?;
  }

  /** Reading the record back rebuilds the shape of the payload exactly if every printed key is
      non-empty and free of '.' and '[', and a `__proto__` at the top, if any, is an object. */
  lemma RoundTripIff(j: Json, n: nat)
    requires IsContainer(j) && Valid(j) && KeysUpTo(Flatten(j, ""), n)
    ensures Read(Flatten(j, ""), n) == ShapeOf(j) <==> Clean(j) && ProtoIsObject(j)
  {
    hide Flatten, ShapeOf, Clean, Read, CleanNode;
    if Clean(j) && ProtoIsObject(j) {
      RoundTrip(j, n);
    } else if Read(Flatten(j, ""), n) == ShapeOf(j) {
      ReadClean(Flatten(j, ""), n);
      CleanIffShape(j);
      var i :| 0 <= i < Count(j) && EntryKey(j, i) == PROTO && !EntryValue(j, i).JObj?;
      ProtoNotRead(j, i, n);
    }
  }

  /* ----- key order ----- */

  lemma {:induction false} VanishedPrints(v: Json, prefix: string, pt: Print)
    requires Valid(v) && Vanishes(v)
    ensures pt !in Prints(v, Count(v), prefix)
    decreases v
  {
    hide Prints, EntryPrints, Vanishes;
    if pt in Prints(v, Count(v), prefix) {
      var i := PrinterOf(v, Count(v), prefix, pt);
      EntryVanishes(v, i);
      VanishedEntry(FullKey(prefix, EntryKey(v, i)), EntryValue(v, i), pt);
      VanishedPrints(EntryValue(v, i), FullKey(prefix, EntryKey(v, i)), pt);
    }
  }

  lemma VanishedEntry(f: string, v: Json, pt: Print)
    requires Vanishes(v)
    ensures pt in EntryPrints(f, v) <==> pt in Prints(v, Count(v), f)
  {
  }

  /** What an entry prints is what its shape says of the path. */
  lemma {:induction false} EntryPrintBelow(f: string, v: Json, pt: Print)
    requires Valid(v) && CleanEntry(v) && f != "" && pt in EntryPrints(f, v)
    ensures Below(v, f, pt.0) == Some(pt.1)
    decreases v, 1
  {
    match v {
      case JArr(items) =>
        BelowArray(v, f, pt.0);
        if pt != (f, "array") {
          PrintsStart(items[0], Count(items[0]), f + "[]", pt);
          PrintFound(items[0], f + "[]", pt);
          assert f + "[]" + "." == f + "[].";
        }
      case JObj(_) =>
        BelowObject(v, f, pt.0);
        PrintFound(v, f, pt);
      case _ => BelowLeaf(v, f, pt.0);
    }
  }

  lemma {:induction false} PrintFound(j: Json, prefix: string, pt: Print)
    requires IsContainer(j) && Valid(j) && Clean(j) && pt in Prints(j, Count(j), prefix)
    ensures Found(ShapeOf(j), Pre(prefix), pt.0) == Some(pt.1)
    decreases j, 0
  {
    hide Prints, EntryPrints, ShapeOf, Found, Valid, Clean;
    var i := PrinterOf(j, Count(j), prefix, pt);
    var f, v := FullKey(prefix, EntryKey(j, i)), EntryValue(j, i);
    EntryParts(j, i);
    if Vanishes(v) {
      VanishedEntry(f, v, pt);
      VanishedPrints(v, f, pt);
    }
    EntryClean(j, i);
    EntryPrintBelow(f, v, pt);
    EntryBelowFound(j, i, prefix, pt.0);
  }

  /** A payload that can be read back prints no path with two types, so its key order is irrelevant. */
  lemma ReadableConsistent(x: Json)
    requires Readable(x)
    ensures Consistent(x)
  {
    hide Prints, ShapeOf, Found;
    forall a, b | a in Prints(x, Count(x), "") && b in Prints(x, Count(x), "") && a.0 == b.0 != PROTO
      ensures a.1 == b.1
    {
      PrintFound(x, "", a);
      PrintFound(x, "", b);
    }
  }

  /** Reordering the keys of such a payload, at any depth, does not change its record. */
  lemma KeyOrderIrrelevant(x: Json, y: Json)
    requires Readable(x) && Valid(y) && Same(x, y, {})
    ensures Flatten(x, "") == Flatten(y, "")
  {
    hide Flatten, Same, Consistent, Clean;
    ReadableConsistent(x);
    ConsistentSame(x, y);
  }

  /* ----- the documented notation ----- */

  predicate Marked(path: string) {
    |path| >= 2 && path[|path| - 2..] == "[]"
  }

  /** Some printed key ends in "[]". */
  ghost predicate MarkedKeyEntry(v: Json)
    decreases v, 1
  {
    match v
    case JArr(items) => |items| > 0 && IsContainer(items[0]) && MarkedKey(items[0])
    case JObj(_) => MarkedKey(v)
    case _ => false
  }

  ghost predicate MarkedKey(j: Json)
    decreases j, 0
  {
    exists i | 0 <= i < Count(j) :: MarkedKeyAt(j, i)
  }

  ghost predicate MarkedKeyAt(j: Json, i: nat)
    requires i < Count(j)
    decreases j, 0, i
  {
    (Marked(EntryKey(j, i)) && !EntryValue(j, i).JObj?) || MarkedKeyEntry(EntryValue(j, i))
  }

  lemma MarkedFullKey(prefix: string, key: string)
    ensures Marked(FullKey(prefix, key)) <==> Marked(key)
  {
    var f := FullKey(prefix, key);
    if |key| == 1 && prefix != "" { assert f[|f| - 2] == '.'; }
    if |key| == 0 && prefix != "" { assert f[|f| - 1] == '.'; }
    if |key| >= 2 { assert f[|f| - 2..] == key[|key| - 2..]; }
  }

  lemma {:induction false} MarkedEntryPrint(f: string, v: Json) returns (pt: Print)
    requires MarkedKeyEntry(v)
    ensures pt in EntryPrints(f, v) && Marked(pt.0)
    decreases v, 1
  {
    match v {
      case JArr(items) => pt := MarkedPrint(items[0], f + "[]");
      case JObj(_) => pt := MarkedPrint(v, f);
    }
  }

  lemma {:induction false} MarkedPrint(j: Json, prefix: string) returns (pt: Print)
    requires MarkedKey(j)
    ensures pt in Prints(j, Count(j), prefix) && Marked(pt.0)
    decreases j, 0
  {
    hide Prints, EntryPrints, Marked;
    var i :| 0 <= i < Count(j) && MarkedKeyAt(j, i);
    var f := FullKey(prefix, EntryKey(j, i));
    if MarkedKeyEntry(EntryValue(j, i)) {
      EntrySmaller(j, i);
      pt := MarkedEntryPrint(f, EntryValue(j, i));
    } else {
      MarkedFullKey(prefix, EntryKey(j, i));
      pt := OwnPrint(f, EntryValue(j, i));
    }
    EntryPrinted(j, Count(j), i, prefix, pt);
  }

  lemma EntrySmaller(j: Json, i: nat)
    requires i < Count(j)
    ensures EntryValue(j, i) < j
  {
  }

  lemma OwnPrint(f: string, v: Json) returns (pt: Print)
    requires !v.JObj?
    ensures pt in EntryPrints(f, v) && pt.0 == f
  {
    pt := if v.JArr? then (f, "array") else (f, TypeOf(v));
  }

  lemma {:induction false} UnmarkedEntry(f: string, v: Json, pt: Print)
    requires pt in EntryPrints(f, v) && Marked(pt.0)
    ensures MarkedKeyEntry(v) || (pt.0 == f && !v.JObj?)
    decreases v, 1
  {
    match v {
      case JArr(items) =>
        if pt != (f, "array") { Unmarked(items[0], f + "[]", pt); }
      case JObj(_) => Unmarked(v, f, pt);
      case _ =>
    }
  }

  lemma {:induction false} Unmarked(j: Json, prefix: string, pt: Print)
    requires pt in Prints(j, Count(j), prefix) && Marked(pt.0)
    ensures MarkedKey(j)
    decreases j, 0
  {
    hide Prints, EntryPrints, Marked;
    var i := PrinterOf(j, Count(j), prefix, pt);
    EntrySmaller(j, i);
    UnmarkedEntry(FullKey(prefix, EntryKey(j, i)), EntryValue(j, i), pt);
    MarkedFullKey(prefix, EntryKey(j, i));
    assert MarkedKeyAt(j, i);
  }

  /** The documentation writes an array as a path that ends in "[]". The code prints such a path only
      for a key that itself ends in "[]"; an array is the plain path with type "array". */
  lemma ArraysUnmarked(j: Json)
    requires IsContainer(j) && Valid(j)
    ensures (exists q :: q in Flatten(j, "") && Marked(q)) <==> MarkedKey(j)
  {
    hide Flatten, Prints, MarkedKey, Marked;
    if q :| q in Flatten(j, "") && Marked(q) {
      ShownAt(j, q);
      LastIn(Prints(j, Count(j), ""), q);
      Unmarked(j, "", (q, Last(Prints(j, Count(j), ""), q).value));
    }
    if MarkedKey(j) {
      var pt := MarkedPrint(j, "");
      ShownAt(j, pt.0);
      LastIn(Prints(j, Count(j), ""), pt.0);
      ProtoUnmarked();
    }
  }

  lemma ProtoUnmarked()
    ensures !Marked(PROTO)
  {
    assert PROTO[|PROTO| - 1] == '_';
  }
}
