/** flattenSchema: the dot notation it prints, and reading that notation back. */
module Schema {
  import opened Json
  import opened Wrappers

  /** A flattened schema: a record from paths to type names. */
  type Flat = map<string, string>

  /** What Object.entries can list: an object, or an array with its indices as keys. */
  predicate IsContainer(j: Json) {
    j.JObj? || j.JArr?
  }

  /** The decimal text of an array index. */
  function Dec(n: nat): (s: string)
    ensures IsNumeral(s) && (n > 0 ==> s[0] != '0')
  {
    var d := '0' + (n % 10) as char;
    if n < 10 then [d] else Dec(n / 10) + [d]
  }

  lemma {:induction false} DecInjective(m: nat, n: nat)
    requires Dec(m) == Dec(n)
    ensures m == n
  {
    NumDec(m);
    NumDec(n);
  }

  lemma {:induction false} NumDec(n: nat)
    ensures Num(Dec(n)) == n
  {
    var d := '0' + (n % 10) as char;
    if n >= 10 {
      NumDec(n / 10);
      assert Dec(n)[..|Dec(n)| - 1] == Dec(n / 10);
    }
  }

  /** An array index is the decimal text of a number below 2^32 - 1. */
  lemma ArrayIndexIs(s: string)
    ensures IsArrayIndex(s) <==> exists n: nat | n < 4294967295 :: s == Dec(n)
  {
    if IsArrayIndex(s) {
      NumDec(Num(s));
      NumInjective(s, Dec(Num(s)));
    }
    forall n: nat | s == Dec(n) ensures IsNumeral(s) && Num(s) == n { NumDec(n); }
  }

  function Count(j: Json): nat {
    match j
    case JArr(items) => |items|
    case JObj(props) => |props|
    case _ => 0
  }

  function EntryKey(j: Json, i: nat): string
    requires i < Count(j)
  {
    if j.JArr? then Dec(i) else j.props[i].0
  }

  function EntryValue(j: Json, i: nat): Json
    requires i < Count(j)
  {
    if j.JArr? then j.items[i] else j.props[i].1
  }

  function TypeOf(j: Json): string {
    match j
    case JNull => "null"
    case JBool(_) => "boolean"
    case JNum(_) => "number"
    case JInfinite(_) => "number"
    case JStr(_) => "string"
    case _ => "object"
  }

  function FullKey(prefix: string, key: string): string {
    if prefix != "" then prefix + "." + key else key
  }

  function SetKey(acc: Flat, key: string, t: string): Flat {
    if key == PROTO then acc else acc[key := t]
  }

  /** The reduce callback: what one entry adds to the record. */
  function AddEntry(acc: Flat, fullKey: string, value: Json): Flat
    decreases value, Count(value) + 1
  {
    match value
    case JArr(items) =>
      var marked := SetKey(acc, fullKey, "array");
      if |items| > 0 && IsContainer(items[0])
      then marked + FlattenFirst(items[0], Count(items[0]), fullKey + "[]")
      else marked
    case JObj(_) => acc + FlattenFirst(value, Count(value), fullKey)
    case _ => SetKey(acc, fullKey, TypeOf(value))
  }

  /** The reduce over the first n entries. */
  function FlattenFirst(j: Json, n: nat, prefix: string): Flat
    requires n <= Count(j)
    decreases j, n
  {
    if n == 0 then map[]
    else
      AddEntry(FlattenFirst(j, n - 1, prefix), FullKey(prefix, EntryKey(j, n - 1)), EntryValue(j, n - 1))
  }

  function Flatten(j: Json, prefix: string): Flat {
    FlattenFirst(j, Count(j), prefix)
  }

  /** flattenSchema as it runs: a loop that writes into the accumulator and recurses. */
  method FlattenSchema(obj: Json, prefix: string) returns (acc: Flat)
    requires !obj.JStr?
    ensures acc == Flatten(obj, prefix)
    decreases obj
  {
    hide FullKey, TypeOf, Dec;
    acc := map[];
    if obj.JNull? {
      return;
    }
    for n := 0 to Count(obj)
      invariant acc == FlattenFirst(obj, n, prefix)
    {
      var fullKey := FullKey(prefix, EntryKey(obj, n));
      ghost var before := acc;
      match EntryValue(obj, n)
      case JArr(items) =>
        acc := SetKey(acc, fullKey, "array");
        if |items| > 0 && IsContainer(items[0]) {
          var inner := FlattenSchema(items[0], fullKey + "[]");
          acc := acc + inner;
        }
      case JObj(props) =>
        var inner := FlattenSchema(JObj(props), fullKey);
        acc := acc + inner;
      case value => acc := SetKey(acc, fullKey, TypeOf(value));
      assert acc == AddEntry(before, fullKey, EntryValue(obj, n));
    }
  }

  /* ----- shapes ----- */

  /** What the notation is meant to convey of a value: the type of a leaf; that there is an
      array, and the shape of its first element; the shape of an object. */
  datatype Node = Leaf(t: string) | List(elem: Shape) | Nested(fields: Shape)

  type Shape = map<string, Node>

  function EntryKeys(j: Json): set<string> {
    set i | 0 <= i < Count(j) :: EntryKey(j, i)
  }

  /** The value of the entry with key k. */
  function ValueAt(j: Json, k: string): (v: Json)
    requires k in EntryKeys(j)
    ensures exists i | 0 <= i < Count(j) :: EntryKey(j, i) == k && v == EntryValue(j, i)
    ensures v < j
  {
    if j.JObj? then
      assert k in Keys(j.props);
      assert EntryKey(j, IndexOf(j.props, k)) == k;
      var i := IndexOf(j.props, k);
      assert Get(j.props, k) == EntryValue(j, i);
      assert j.props[i].1 < j;
      Get(j.props, k)
    else
      assert exists i | 0 <= i < Count(j) :: EntryKey(j, i) == k;
      DecInjectiveAll();
      var i :| 0 <= i < |j.items| && Dec(i) == k;
      assert EntryKey(j, i) == k && EntryValue(j, i) == j.items[i];
      j.items[i]
  }

  lemma DecInjectiveAll()
    ensures forall m: nat, n: nat | Dec(m) == Dec(n) :: m == n
  {
    forall m: nat, n: nat | Dec(m) == Dec(n) ensures m == n { DecInjective(m, n); }
  }

  lemma ValueAtEntry(j: Json, i: nat)
    requires Valid(j) && i < Count(j)
    ensures EntryKey(j, i) in EntryKeys(j) && ValueAt(j, EntryKey(j, i)) == EntryValue(j, i)
  {
    if j.JObj? {
      GetAt(j.props, i);
    } else {
      DecInjectiveAll();
    }
  }

  /** An object vanishes when nothing below it leaves a trace. */
  predicate Vanishes(v: Json)
    decreases v, 1
  {
    v.JObj? && ShapeOf(v) == map[]
  }

  function NodeOf(v: Json): Node
    decreases v, 1
  {
    match v
    case JArr(items) => List(if |items| > 0 && IsContainer(items[0]) then ShapeOf(items[0]) else map[])
    case JObj(_) => Nested(ShapeOf(v))
    case _ => Leaf(TypeOf(v))
  }

  function ShapeOf(j: Json): Shape
    decreases j, 0
  {
    map k | k in EntryKeys(j) && !Vanishes(ValueAt(j, k)) :: NodeOf(ValueAt(j, k))
  }

  /* ----- the meaning of a path ----- */

  predicate IsNameEnd(c: char) {
    c == '.' || c == '['
  }

  predicate CleanKey(k: string) {
    |k| > 0 && forall i | 0 <= i < |k| :: !IsNameEnd(k[i])
  }

  /** Whatever of the value is printed has keys that are non-empty and free of '.' and '['. Values
      that vanish are not printed, and of an array entry only the first element is. */
  ghost predicate CleanEntry(v: Json)
    decreases v, 1
  {
    match v
    case JArr(items) => |items| > 0 && IsContainer(items[0]) ==> Clean(items[0])
    case JObj(_) => Clean(v)
    case _ => true
  }

  ghost predicate Clean(j: Json)
    decreases j, 0
  {
    forall i | 0 <= i < Count(j) :: CleanAt(j, i)
  }

  ghost predicate CleanAt(j: Json, i: nat)
    requires i < Count(j)
    decreases j, 0, i
  {
    !Vanishes(EntryValue(j, i)) ==> CleanKey(EntryKey(j, i)) && CleanEntry(EntryValue(j, i))
  }

  /** A key `__proto__` is printed only with the paths inside it. */
  ghost predicate ProtoIsObject(j: Json) {
    forall i | 0 <= i < Count(j) && EntryKey(j, i) == PROTO :: EntryValue(j, i).JObj?
  }

  /** The part of a path before the first '.' or '['. */
  function Name(path: string): (k: string)
    ensures k <= path
    ensures |k| < |path| ==> IsNameEnd(path[|k|])
  {
    if |path| == 0 || IsNameEnd(path[0]) then "" else [path[0]] + Name(path[1..])
  }

  /** The dot rules: what a path that starts at the given object says. */
  function Lookup(shape: Shape, path: string): Option<string>
    decreases |path|, 1
  {
    var k := Name(path);
    if k in shape && |k| > 0 then LookupNode(shape[k], path[|k|..]) else None
  }

  function LookupNode(node: Node, rest: string): Option<string>
    decreases |rest|, 2
  {
    match node
    case Leaf(t) => if rest == "" then Some(t) else None
    case List(elem) =>
      if rest == "" then Some("array")
      else if "[]." <= rest then Lookup(elem, rest[3..])
      else None
    case Nested(fields) => if "." <= rest then Lookup(fields, rest[1..]) else None
  }

  lemma {:induction false} NameOf(k: string, rest: string)
    requires CleanKey(k) && (rest == "" || IsNameEnd(rest[0]))
    ensures Name(k + rest) == k
  {
    var path := k + rest;
    assert path[0] == k[0];
    if |k| > 1 {
      assert path[1..] == k[1..] + rest;
      NameOf(k[1..], rest);
    } else {
      assert path[1..] == rest;
    }
  }

  /** What the entry with full key f and value v says of the path q. */
  function Below(v: Json, f: string, q: string): Option<string> {
    if f <= q then LookupNode(NodeOf(v), q[|f|..]) else None
  }

  /** The text a container adds in front of its keys. */
  function Pre(prefix: string): string {
    if prefix != "" then prefix + "." else ""
  }

  lemma PrefixSplit(a: string, b: string, q: string)
    ensures a + b <= q <==> a <= q && b <= q[|a|..]
    ensures a + b <= q ==> q[|a + b|..] == q[|a|..][|b|..]
  {
    if a <= q && b <= q[|a|..] {
      assert q == a + q[|a|..];
    }
    if a + b <= q {
      assert q[..|a + b|] == a + b;
      assert q[|a|..][..|b|] == q[..|a + b|][|a|..];
    }
  }

  /** The path that entry i answers for starts with the key of entry i. */
  lemma BelowName(j: Json, prefix: string, i: nat, q: string)
    requires i < Count(j) && CleanKey(EntryKey(j, i))
    requires Below(EntryValue(j, i), FullKey(prefix, EntryKey(j, i)), q).Some?
    ensures Pre(prefix) <= q && Name(q[|Pre(prefix)|..]) == EntryKey(j, i)
    ensures var path := q[|Pre(prefix)|..];
      Below(EntryValue(j, i), FullKey(prefix, EntryKey(j, i)), q)
        == LookupNode(NodeOf(EntryValue(j, i)), path[|EntryKey(j, i)|..])
  {
    var k := EntryKey(j, i);
    assert FullKey(prefix, k) == Pre(prefix) + k;
    PrefixSplit(Pre(prefix), k, q);
    var path := q[|Pre(prefix)|..];
    assert path == k + path[|k|..];
    NameOf(k, path[|k|..]);
  }

  lemma EntryClean(j: Json, i: nat)
    requires Valid(j) && Clean(j) && i < Count(j) && !Vanishes(EntryValue(j, i))
    ensures CleanKey(EntryKey(j, i)) && CleanEntry(EntryValue(j, i)) && Valid(EntryValue(j, i))
  {
    assert CleanAt(j, i);
  }

  /** What a record holds at a path. */
  function At(m: Flat, q: string): Option<string> {
    if q in m then Some(m[q]) else None
  }

  /** What a shape printed behind the text p says of the path q. */
  function Found(shape: Shape, p: string, q: string): Option<string> {
    if p <= q then Lookup(shape, q[|p|..]) else None
  }

  lemma BelowObject(v: Json, f: string, q: string)
    requires v.JObj?
    ensures Below(v, f, q) == Found(ShapeOf(v), f + ".", q)
  {
    PrefixSplit(f, ".", q);
  }

  lemma BelowArray(v: Json, f: string, q: string)
    requires v.JArr?
    ensures Below(v, f, q) == if q == f then Some("array")
      else if |v.items| > 0 && IsContainer(v.items[0]) then Found(ShapeOf(v.items[0]), f + "[].", q)
      else None
  {
    PrefixSplit(f, "[].", q);
    if f <= q {
      assert q == f + q[|f|..];
    }
    var rest := if f <= q then q[|f|..] else "";
    assert Lookup(map[], if "[]." <= rest then rest[3..] else "") == None;
  }

  lemma BelowLeaf(v: Json, f: string, q: string)
    requires !IsContainer(v)
    ensures Below(v, f, q) == if q == f then Some(TypeOf(v)) else None
  {
    assert NodeOf(v) == Leaf(TypeOf(v));
    assert f <= q ==> q == f + q[|f|..];
  }

  lemma VanishesNothing(v: Json, rest: string)
    requires Vanishes(v)
    ensures LookupNode(NodeOf(v), rest).None?
  {
    assert NodeOf(v) == Nested(map[]);
  }

  lemma BelowVanished(v: Json, f: string, q: string)
    requires Vanishes(v)
    ensures Below(v, f, q).None?
  {
    if f <= q { VanishesNothing(v, q[|f|..]); }
  }

  lemma AddVanished(acc: Flat, f: string, v: Json)
    requires Valid(v) && Vanishes(v)
    ensures AddEntry(acc, f, v) == acc
  {
    FlattenVanished(v, Count(v), f);
  }

  /** What vanishes prints nothing, whatever its keys. */
  lemma {:induction false} FlattenVanished(v: Json, n: nat, prefix: string)
    requires Valid(v) && Vanishes(v) && n <= Count(v)
    ensures FlattenFirst(v, n, prefix) == map[]
    decreases v, n
  {
    if n > 0 {
      FlattenVanished(v, n - 1, prefix);
      var w := EntryValue(v, n - 1);
      EntryVanishes(v, n - 1);
      FlattenVanished(w, Count(w), FullKey(prefix, EntryKey(v, n - 1)));
    }
  }

  lemma EntryVanishes(v: Json, i: nat)
    requires Valid(v) && Vanishes(v) && i < Count(v)
    ensures Vanishes(EntryValue(v, i)) && Valid(EntryValue(v, i)) && EntryValue(v, i) < v
  {
    ValueAtEntry(v, i);
    assert EntryKey(v, i) !in ShapeOf(v);
  }

  lemma {:induction false} AddEntrySpec(acc: Flat, f: string, v: Json, q: string)
    requires Valid(v) && CleanEntry(v) && f != "" && (f == PROTO ==> v.JObj?)
    ensures At(AddEntry(acc, f, v), q) == if Below(v, f, q).Some? then Below(v, f, q) else At(acc, q)
    decreases v, Count(v) + 2
  {
    match v
    case JArr(items) =>
      BelowArray(v, f, q);
      if |items| > 0 && IsContainer(items[0]) {
        FlattenSpec(items[0], f + "[]", q);
        assert f + "[]" + "." == f + "[].";
        assert Found(ShapeOf(items[0]), f + "[].", f).None?;
      }
    case JObj(_) =>
      BelowObject(v, f, q);
      FlattenSpec(v, f, q);
    case _ => BelowLeaf(v, f, q);
  }

  /** What entry i says of the path q. */
  function EntryBelow(j: Json, i: nat, prefix: string, q: string): Option<string>
    requires i < Count(j)
  {
    Below(EntryValue(j, i), FullKey(prefix, EntryKey(j, i)), q)
  }

  /** What the first n entries say of the path q: the last one that says anything wins. */
  function FirstBelow(j: Json, n: nat, prefix: string, q: string): Option<string>
    requires n <= Count(j)
  {
    if n == 0 then None
    else if EntryBelow(j, n - 1, prefix, q).Some? then EntryBelow(j, n - 1, prefix, q)
    else FirstBelow(j, n - 1, prefix, q)
  }

  lemma FullKeyOk(j: Json, i: nat, prefix: string)
    requires i < Count(j) && CleanKey(EntryKey(j, i)) && (prefix == "" ==> ProtoIsObject(j))
    ensures var f := FullKey(prefix, EntryKey(j, i)); f != "" && (f == PROTO ==> EntryValue(j, i).JObj?)
  {
    var f := FullKey(prefix, EntryKey(j, i));
    assert prefix != "" ==> f[|prefix|] == '.';
  }

  lemma {:induction false} FlattenFirstSpec(j: Json, n: nat, prefix: string, q: string)
    requires Valid(j) && Clean(j) && n <= Count(j)
    requires prefix == "" ==> ProtoIsObject(j)
    ensures At(FlattenFirst(j, n, prefix), q) == FirstBelow(j, n, prefix, q)
    decreases j, n
  {
    hide AddEntry, Below, FullKey;
    if n > 0 {
      FlattenFirstSpec(j, n - 1, prefix, q);
      var f, v := FullKey(prefix, EntryKey(j, n - 1)), EntryValue(j, n - 1);
      if Vanishes(v) {
        AddVanished(FlattenFirst(j, n - 1, prefix), f, v);
        BelowVanished(v, f, q);
      } else {
        EntryClean(j, n - 1);
        FullKeyOk(j, n - 1, prefix);
        AddEntrySpec(FlattenFirst(j, n - 1, prefix), f, v, q);
      }
    }
  }

  lemma LookupStep(shape: Shape, path: string)
    requires Name(path) in shape && Name(path) != ""
    ensures Lookup(shape, path) == LookupNode(shape[Name(path)], path[|Name(path)|..])
  {
  }

  /** Only the entry whose key starts the path can say anything of it. */
  lemma EntryBelowFound(j: Json, i: nat, prefix: string, q: string)
    requires Valid(j) && Clean(j) && i < Count(j) && EntryBelow(j, i, prefix, q).Some?
    ensures EntryBelow(j, i, prefix, q) == Found(ShapeOf(j), Pre(prefix), q)
  {
    if Vanishes(EntryValue(j, i)) { BelowVanished(EntryValue(j, i), FullKey(prefix, EntryKey(j, i)), q); }
    EntryClean(j, i);
    BelowName(j, prefix, i, q);
    ValueAtEntry(j, i);
    LookupStep(ShapeOf(j), q[|Pre(prefix)|..]);
  }

  lemma {:induction false} FirstBelowFound(j: Json, n: nat, prefix: string, q: string)
    requires Valid(j) && Clean(j) && n <= Count(j)
    ensures FirstBelow(j, n, prefix, q).Some? ==>
        FirstBelow(j, n, prefix, q) == Found(ShapeOf(j), Pre(prefix), q)
    ensures forall i | 0 <= i < n && EntryBelow(j, i, prefix, q).Some? :: FirstBelow(j, n, prefix, q).Some?
  {
    hide EntryBelow, ShapeOf, Found, Pre;
    if n > 0 {
      FirstBelowFound(j, n - 1, prefix, q);
      if EntryBelow(j, n - 1, prefix, q).Some? {
        EntryBelowFound(j, n - 1, prefix, q);
      }
    }
  }

  lemma FoundEntry(j: Json, prefix: string, q: string) returns (i: nat)
    requires Found(ShapeOf(j), Pre(prefix), q).Some?
    ensures i < Count(j) && EntryBelow(j, i, prefix, q).Some?
  {
    hide ShapeOf, LookupNode;
    var path := q[|Pre(prefix)|..];
    var k := Name(path);
    ShapeNodes(j, k);
    i :| 0 <= i < Count(j) && EntryKey(j, i) == k && ValueAt(j, k) == EntryValue(j, i);
    assert FullKey(prefix, k) == Pre(prefix) + k;
    PrefixSplit(Pre(prefix), k, q);
  }

  lemma ShapeNodes(j: Json, k: string)
    requires k in ShapeOf(j)
    ensures k in EntryKeys(j) && ShapeOf(j)[k] == NodeOf(ValueAt(j, k))
  {
  }

  /** The flattened record holds exactly the paths, and the types, that the shape gives meaning to. */
  lemma {:induction false} FlattenSpec(j: Json, prefix: string, q: string)
    requires IsContainer(j) && Valid(j) && Clean(j)
    requires prefix == "" ==> ProtoIsObject(j)
    ensures At(Flatten(j, prefix), q) == Found(ShapeOf(j), Pre(prefix), q)
    decreases j, Count(j) + 1
  {
    hide FlattenFirst, FirstBelow, EntryBelow, Found, ShapeOf;
    FlattenFirstSpec(j, Count(j), prefix, q);
    FirstBelowFound(j, Count(j), prefix, q);
    if Found(ShapeOf(j), Pre(prefix), q).Some? {
      var i := FoundEntry(j, prefix, q);
    }
  }

  /* ----- reading the notation back ----- */

  function Names(flat: Flat): set<string> {
    set path | path in flat :: Name(path)
  }

  /** The entries behind the text p, with p removed. */
  function Sub(flat: Flat, p: string): Flat {
    map q | q in Ends(flat, p) && p + q in flat :: flat[p + q]
  }

  function Ends(flat: Flat, p: string): set<string> {
    set path | path in flat && p <= path :: path[|p|..]
  }

  lemma SubAt(flat: Flat, p: string, q: string)
    ensures At(Sub(flat, p), q) == At(flat, p + q)
  {
    assert p <= p + q && (p + q)[|p|..] == q;
    assert p + q in flat ==> q in Ends(flat, p);
  }

  predicate KeysUpTo(flat: Flat, n: nat) {
    forall path | path in flat :: |path| <= n
  }

  lemma SubUpTo(flat: Flat, p: string, n: nat)
    requires KeysUpTo(flat, n) && 0 < |p| <= n
    ensures KeysUpTo(Sub(flat, p), n - 1)
  {
    forall q | q in Sub(flat, p) ensures |q| <= n - 1 {
      SubAt(flat, p, q);
    }
  }

  /** The shape a flattened record describes: `k` of type "array" is an array and `k[].rest` its first
      element, any other `k` a leaf, `k.rest` without `k` a nested object. No path is longer than n. */
  function Read(flat: Flat, n: nat): Shape
    requires KeysUpTo(flat, n)
    decreases n, 1
  {
    map k | k in Names(flat) && 0 < |k| :: ReadNode(flat, k, n)
  }

  function ReadNode(flat: Flat, k: string, n: nat): Node
    requires KeysUpTo(flat, n) && 0 < |k|
    decreases n, 0
  {
    if k in flat && flat[k] != "array" then Leaf(flat[k])
    else
      var p := if k in flat then k + "[]." else k + ".";
      var sub := if |p| <= n then (SubUpTo(flat, p, n); Read(Sub(flat, p), n - 1)) else map[];
      if k in flat then List(sub) else Nested(sub)
  }

  /** What a shape of clean keys looks like once empty objects are gone. */
  ghost predicate Normal(node: Node) {
    match node
    case Leaf(t) => t != "array"
    case List(elem) => forall k | k in elem :: CleanKey(k) && Normal(elem[k]) && elem[k] != Nested(map[])
    case Nested(fields) => forall k | k in fields :: CleanKey(k) && Normal(fields[k]) && fields[k] != Nested(map[])
  }

  ghost predicate Represents(flat: Flat, shape: Shape) {
    forall q {:trigger At(flat, q)} :: At(flat, q) == Lookup(shape, q)
  }

  /** Looking up a path that starts with a clean key. */
  lemma LookupName(shape: Shape, k: string, rest: string)
    requires CleanKey(k) && (rest == "" || IsNameEnd(rest[0]))
    ensures Lookup(shape, k + rest) == if k in shape then LookupNode(shape[k], rest) else None
  {
    NameOf(k, rest);
    assert (k + rest)[|k|..] == rest;
  }

  /** Every node that remains gives meaning to some path. */
  lemma {:induction false} SomePath(node: Node) returns (rest: string)
    requires Normal(node) && node != Nested(map[])
    ensures LookupNode(node, rest).Some?
    decreases node
  {
    match node
    case Nested(fields) =>
      assert fields.Keys != {};
      var k :| k in fields;
      var inner := SomePath(fields[k]);
      LookupName(fields, k, inner);
      rest := "." + (k + inner);
    case _ => rest := "";
  }

  lemma KeyPath(shape: Shape, k: string) returns (path: string)
    requires Normal(Nested(shape)) && k in shape
    ensures Lookup(shape, path).Some? && Name(path) == k
  {
    var rest := SomePath(shape[k]);
    LookupName(shape, k, rest);
    NameOf(k, rest);
    path := k + rest;
  }

  /** The text between a key and the paths inside the value it names. */
  function Sep(node: Node): string {
    if node.List? then "[]." else "."
  }

  lemma LookupInner(node: Node, q: string)
    requires !node.Leaf?
    ensures LookupNode(node, Sep(node) + q) == Lookup(Inner(node), q)
  {
    assert (Sep(node) + q)[|Sep(node)|..] == q;
  }

  /** Below an array or object key, the record represents the inner shape. */
  lemma SubRepresents(flat: Flat, shape: Shape, k: string)
    requires CleanKey(k) && k in shape && !shape[k].Leaf? && Represents(flat, shape)
    ensures Represents(Sub(flat, k + Sep(shape[k])), Inner(shape[k]))
  {
    var sep := Sep(shape[k]);
    forall q ensures At(Sub(flat, k + sep), q) == Lookup(Inner(shape[k]), q) {
      SubAt(flat, k + sep, q);
      assert k + sep + q == k + (sep + q);
      assert At(flat, k + (sep + q)) == Lookup(shape, k + (sep + q));
      LookupName(shape, k, sep + q);
      LookupInner(shape[k], q);
    }
  }

  function Inner(node: Node): Shape
    requires !node.Leaf?
  {
    if node.List? then node.elem else node.fields
  }

  /** A key is mentioned by some path exactly when the shape has it. */
  lemma NamesAreKeys(flat: Flat, node: Node, k: string)
    requires !node.Leaf? && Normal(node) && Represents(flat, Inner(node))
    ensures k in Names(flat) && |k| > 0 <==> k in Inner(node)
  {
    var shape := Inner(node);
    if k in Names(flat) {
      var path :| path in flat && Name(path) == k;
      assert At(flat, path).Some?;
    }
    if k in shape {
      var path := KeyPath(shape, k);
      assert At(flat, path).Some?;
    }
  }

  /** Reading recovers the one normal shape that a record represents. */
  lemma {:induction false} ReadRepresents(flat: Flat, node: Node, n: nat)
    requires !node.Leaf? && Normal(node) && Represents(flat, Inner(node)) && KeysUpTo(flat, n)
    ensures Read(flat, n) == Inner(node)
    decreases node, 1
  {
    hide ReadNode, Lookup, Normal;
    var shape, r := Inner(node), Read(flat, n);
    forall k ensures k in Names(flat) && |k| > 0 <==> k in shape {
      NamesAreKeys(flat, node, k);
    }
    forall k | k in shape ensures r[k] == shape[k] {
      ReadNodeRepresents(flat, node, k, n);
    }
  }

  lemma NormalChild(node: Node, k: string)
    requires !node.Leaf? && Normal(node) && k in Inner(node)
    ensures CleanKey(k) && Normal(Inner(node)[k])
    ensures Inner(node)[k].Leaf? ==> Inner(node)[k].t != "array"
  {
  }

  lemma {:induction false} ReadNodeRepresents(flat: Flat, node: Node, k: string, n: nat)
    requires !node.Leaf? && Normal(node) && Represents(flat, Inner(node)) && KeysUpTo(flat, n)
    requires k in Inner(node)
    ensures |k| > 0 && ReadNode(flat, k, n) == Inner(node)[k]
    decreases node, 0
  {
    var shape := Inner(node);
    var child := shape[k];
    NormalChild(node, k);
    LookupName(shape, k, "");
    assert k + "" == k && At(flat, k) == Lookup(shape, k);
    if !child.Leaf? {
      SubRepresents(flat, shape, k);
      ReadInner(flat, child, k + Sep(child), n);
      assert k in flat <==> child.List?;
    }
  }

  lemma SubEmpty(flat: Flat, p: string, n: nat)
    requires KeysUpTo(flat, n) && n < |p|
    ensures KeysUpTo(Sub(flat, p), 0) && Read(Sub(flat, p), 0) == map[]
  {
    forall q ensures q !in Sub(flat, p) { SubAt(flat, p, q); }
    assert Sub(flat, p) == map[];
    assert Names(Sub(flat, p)) == {};
  }

  lemma {:induction false} ReadInner(flat: Flat, node: Node, p: string, n: nat)
    requires !node.Leaf? && Normal(node) && Represents(Sub(flat, p), Inner(node)) && KeysUpTo(flat, n) && |p| > 0
    ensures if |p| <= n then KeysUpTo(Sub(flat, p), n - 1) && Read(Sub(flat, p), n - 1) == Inner(node)
      else Inner(node) == map[]
    decreases node, 2
  {
    if |p| <= n {
      SubUpTo(flat, p, n);
    } else {
      SubEmpty(flat, p, n);
    }
    var sub, m := Sub(flat, p), if |p| <= n then n - 1 else 0;
    ReadRepresents(sub, node, m);
  }

  /* ----- main results ----- */

  /** flattenSchema is unambiguous on these payloads; see DottedKeysCollide for why keys matter. */
  ghost predicate Readable(j: Json) {
    IsContainer(j) && Valid(j) && Clean(j) && ProtoIsObject(j)
  }

  lemma LeafNode(v: Json)
    requires !IsContainer(v)
    ensures NodeOf(v) == Leaf(TypeOf(v)) && TypeOf(v) != "array"
  {
    assert "array"[0] == 'a' && TypeOf(v)[0] != 'a';
  }

  lemma EntryKeysObject(j: Json)
    requires j.JObj?
    ensures EntryKeys(j) == Keys(j.props) == Keys(j.props) - {}
  {
    forall k | k in Keys(j.props) ensures k in EntryKeys(j) {
      assert EntryKey(j, IndexOf(j.props, k)) == k;
    }
    forall k | k in EntryKeys(j) ensures k in Keys(j.props) {
      var i :| 0 <= i < Count(j) && EntryKey(j, i) == k;
      assert j.props[i].0 == k;
    }
  }

  lemma {:induction false} ShapeNormal(j: Json)
    requires IsContainer(j) && Valid(j) && Clean(j)
    ensures Normal(Nested(ShapeOf(j)))
    decreases j, 0
  {
    var shape := ShapeOf(j);
    forall k | k in shape ensures CleanKey(k) && Normal(shape[k]) && shape[k] != Nested(map[]) {
      var i :| 0 <= i < Count(j) && EntryKey(j, i) == k && ValueAt(j, k) == EntryValue(j, i);
      EntryClean(j, i);
      var v := ValueAt(j, k);
      assert shape[k] == NodeOf(v) && !Vanishes(v);
      if v.JArr? {
        if |v.items| > 0 && IsContainer(v.items[0]) { ShapeNormal(v.items[0]); }
      } else if v.JObj? {
        ShapeNormal(v);
      } else {
        LeafNode(v);
      }
    }
  }

  lemma FlattenRepresents(j: Json)
    requires Readable(j)
    ensures Represents(Flatten(j, ""), ShapeOf(j))
  {
    forall q ensures At(Flatten(j, ""), q) == Lookup(ShapeOf(j), q) {
      FlattenSpec(j, "", q);
    }
  }

  /** Round trip: reading the flattened record back rebuilds exactly the shape of the payload. */
  lemma RoundTrip(j: Json, n: nat)
    requires Readable(j) && KeysUpTo(Flatten(j, ""), n)
    ensures Read(Flatten(j, ""), n) == ShapeOf(j)
  {
    ShapeNormal(j);
    FlattenRepresents(j);
    ReadRepresents(Flatten(j, ""), Nested(ShapeOf(j)), n);
  }

  lemma {:induction false} LongestKey(paths: set<string>) returns (n: nat)
    ensures forall path | path in paths :: |path| <= n
  {
    n := 0;
    var rest := paths;
    while rest != {}
      invariant rest <= paths && forall path | path in paths - rest :: |path| <= n
      decreases rest
    {
      var path :| path in rest;
      n := if |path| > n then |path| else n;
      rest := rest - {path};
    }
  }

  /** Two payloads flatten to the same record exactly when they have the same shape. */
  lemma FlattenIffSameShape(x: Json, y: Json)
    requires Readable(x) && Readable(y)
    ensures Flatten(x, "") == Flatten(y, "") <==> ShapeOf(x) == ShapeOf(y)
  {
    FlattenRepresents(x);
    FlattenRepresents(y);
    var f, g := Flatten(x, ""), Flatten(y, "");
    if f == g {
      var n := LongestKey(f.Keys);
      RoundTrip(x, n);
      RoundTrip(y, n);
    }
    if ShapeOf(x) == ShapeOf(y) {
      forall q ensures (q in f <==> q in g) && (q in f ==> f[q] == g[q]) {
        assert At(f, q) == At(g, q);
      }
    }
  }

  lemma SameEntryKeys(x: Json, y: Json)
    requires IsContainer(x) && Same(x, y, {})
    ensures EntryKeys(x) == EntryKeys(y)
  {
    hide Dec, Valid;
    if x.JObj? {
      EntryKeysObject(x);
      EntryKeysObject(y);
    } else {
      assert forall i | 0 <= i < Count(x) :: EntryKey(x, i) == EntryKey(y, i);
    }
  }

  lemma SameEntry(x: Json, y: Json, k: string)
    requires IsContainer(x) && Valid(x) && Valid(y) && Same(x, y, {})
    requires k in EntryKeys(x) && k in EntryKeys(y)
    ensures var v, w := ValueAt(x, k), ValueAt(y, k);
      Valid(v) && Valid(w) && Same(v, w, {}) && v < x
  {
    hide Dec;
    var i :| 0 <= i < Count(x) && EntryKey(x, i) == k && ValueAt(x, k) == EntryValue(x, i);
    if x.JArr? {
      ValueAtEntry(x, i);
      ValueAtEntry(y, i);
    } else {
      var j :| 0 <= j < Count(y) && EntryKey(y, j) == k && ValueAt(y, k) == EntryValue(y, j);
      GetAt(x.props, i);
      GetAt(y.props, j);
    }
  }

  /** Reordering the keys of objects, at any depth, does not change the shape. */
  lemma {:induction false} SameShape(x: Json, y: Json)
    requires IsContainer(x) && Valid(x) && Valid(y) && Same(x, y, {})
    ensures ShapeOf(x) == ShapeOf(y)
    decreases x, 0
  {
    hide Same, Valid, Vanishes, NodeOf, ValueAt, EntryKeys;
    SameEntryKeys(x, y);
    forall k | k in EntryKeys(x)
      ensures Vanishes(ValueAt(x, k)) == Vanishes(ValueAt(y, k)) && NodeOf(ValueAt(x, k)) == NodeOf(ValueAt(y, k))
    {
      SameEntry(x, y, k);
      SameNode(ValueAt(x, k), ValueAt(y, k));
    }
  }

  lemma {:induction false} SameNode(v: Json, w: Json)
    requires Valid(v) && Valid(w) && Same(v, w, {})
    ensures Vanishes(v) == Vanishes(w) && NodeOf(v) == NodeOf(w)
    decreases v, 1
  {
    match v
    case JArr(items) =>
      if |items| > 0 && IsContainer(items[0]) { SameShape(items[0], w.items[0]); }
    case JObj(_) => SameShape(v, w);
    case _ =>
  }

  const DOTTED := ("a.b", JNum("1"))
  const NESTED := ("a", JObj([("b", JStr(""))]))

  lemma CollidingSame()
    ensures Valid(JObj([DOTTED, NESTED])) && Valid(JObj([NESTED, DOTTED]))
    ensures Same(JObj([DOTTED, NESTED]), JObj([NESTED, DOTTED]), {})
  {
    var x, y := JObj([DOTTED, NESTED]), JObj([NESTED, DOTTED]);
    assert |"a.b"| != |"a"|;
    assert x.props[0].0 in Keys(x.props) && x.props[1].0 in Keys(x.props);
    assert y.props[0].0 in Keys(y.props) && y.props[1].0 in Keys(y.props);
  }

  lemma AddLeaf(acc: Flat, f: string, v: Json)
    requires !IsContainer(v) && |f| < 9
    ensures AddEntry(acc, f, v) == acc[f := TypeOf(v)]
  {
  }

  lemma AddNested(acc: Flat)
    ensures AddEntry(acc, "a", NESTED.1) == acc["a.b" := "string"]
  {
    var inner := NESTED.1;
    assert FullKey("a", "b") == "a.b";
    AddLeaf(map[], "a.b", JStr(""));
    assert FlattenFirst(inner, 0, "a") == map[];
    assert FlattenFirst(inner, 1, "a") == map["a.b" := "string"];
  }

  lemma FlattenTwo(p: (string, Json), q: (string, Json))
    ensures Flatten(JObj([p, q]), "") == AddEntry(AddEntry(map[], p.0, p.1), q.0, q.1)
  {
    hide AddEntry;
    var j := JObj([p, q]);
    assert FlattenFirst(j, 0, "") == map[];
    assert FlattenFirst(j, 1, "") == AddEntry(map[], p.0, p.1);
    assert FlattenFirst(j, 2, "") == AddEntry(FlattenFirst(j, 1, ""), q.0, q.1);
  }

  /** With a '.' in a key two paths collide and key order decides which type is kept. */
  lemma DottedKeysCollide()
    ensures var x, y := JObj([DOTTED, NESTED]), JObj([NESTED, DOTTED]);
      && Valid(x) && Valid(y) && Same(x, y, {})
      && Flatten(x, "") == map["a.b" := "string"] && Flatten(y, "") == map["a.b" := "number"]
  {
    hide Flatten, AddEntry;
    CollidingSame();
    FlattenTwo(DOTTED, NESTED);
    FlattenTwo(NESTED, DOTTED);
    AddLeaf(map[], "a.b", DOTTED.1);
    AddNested(map[]);
    AddNested(map["a.b" := "number"]);
    AddLeaf(map["a.b" := "string"], "a.b", DOTTED.1);
  }

  /** The type names, written out: of a single property the record is its key and one of these. */
  lemma LeafTypes(key: string, v: Json)
    requires key != PROTO && !IsContainer(v)
    ensures Flatten(JObj([(key, v)]), "") == map[key :=
      match v
      case JNull => "null"
      case JBool(_) => "boolean"
      case JNum(_) => "number"
      case JInfinite(_) => "number"
      case _ => "string"]
  {
    assert FlattenFirst(JObj([(key, v)]), 0, "") == map[];
    assert FlattenFirst(JObj([(key, v)]), 1, "") == AddEntry(map[], key, v);
  }
}
