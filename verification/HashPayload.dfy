/** hashPayload: the text that is hashed is a canonical form of the payload. */
module HashPayload {
  import opened Json
  import opened JsonText

  /* ----- sorting keys ----- */

  ghost predicate StrictlySorted(ks: seq<string>) {
    forall i, j | 0 <= i < j < |ks| :: StrLess(ks[i], ks[j])
  }

  function InsertKey(k: string, ks: seq<string>): (r: seq<string>)
    requires StrictlySorted(ks) && k !in ks
    ensures StrictlySorted(r)
    ensures forall x :: x in r <==> x == k || x in ks
  {
    if |ks| == 0 then [k]
    else
      assert forall x | x in ks[1..] :: StrLess(ks[0], x);
      StrLessTotal(k, ks[0]);
      if StrLess(k, ks[0]) then
        assert forall i | 0 < i < |ks| :: StrLess(k, ks[i]) by {
          forall i | 0 < i < |ks| ensures StrLess(k, ks[i]) { StrLessTransitive(k, ks[0], ks[i]); }
        }
        assert forall x :: x in [k] + ks <==> x == k || x in ks;
        [k] + ks
      else
        var rest := InsertKey(k, ks[1..]);
        assert forall i | 0 <= i < |rest| :: rest[i] == k || rest[i] in ks[1..];
        [ks[0]] + rest
  }

  /** `Object.keys(obj).sort()`; which algorithm sorts is irrelevant, see SortedUnique. */
  function SortKeyList(ks: seq<string>): (r: seq<string>)
    requires forall i, j | 0 <= i < j < |ks| :: ks[i] != ks[j]
    ensures StrictlySorted(r)
    ensures forall x :: x in r <==> x in ks
  {
    if |ks| == 0 then [] else
      assert forall x :: x in ks <==> x == ks[0] || x in ks[1..];
      assert ks[0] !in ks[1..];
      InsertKey(ks[0], SortKeyList(ks[1..]))
  }

  /* ----- sortKeys ----- */

  /** The reduce over the sorted keys: each step assigns one property of the copy. */
  function Arrange(ks: seq<string>, vals: Props): Props
    requires forall k | k in ks :: k in Keys(vals)
  {
    if |ks| == 0 then []
    else
      var k := ks[|ks| - 1];
      SetProp(Arrange(ks[..|ks| - 1], vals), k, Get(vals, k))
  }

  function SortValues(props: Props): (r: Props)
    requires Valid(JObj(props))
    ensures |r| == |props|
    ensures forall i | 0 <= i < |r| :: r[i].0 == props[i].0 && r[i].1 == SortKeys(props[i].1)
    decreases props, 0
  {
    seq(|props|, i requires 0 <= i < |props| => (props[i].0, SortKeys(props[i].1)))
  }

  function SortKeys(j: Json): Json
    requires Valid(j)
    decreases j, 1
  {
    match j
    case JArr(items) => JArr(seq(|items|, i requires 0 <= i < |items| => SortKeys(items[i])))
    case JObj(props) =>
      var vals := SortValues(props);
      JObj(Arrange(SortKeyList(KeyList(props)), vals))
    case _ => j
  }

  ghost predicate SortedProps(props: Props) {
    forall i, j | 0 <= i < j < |props| :: Before(props[i].0, props[j].0)
  }

  lemma SortedDistinct(props: Props)
    requires SortedProps(props)
    ensures DistinctKeys(props)
  {
    forall i, j | 0 <= i < j < |props| ensures props[i].0 != props[j].0 {
      BeforeTotal(props[i].0, props[j].0);
    }
  }

  /** A list in property order is determined by the properties it holds. */
  lemma {:induction false} SortedUnique(p: Props, q: Props)
    requires SortedProps(p) && SortedProps(q)
    requires forall kv :: kv in p <==> kv in q
    ensures p == q
  {
    assert |p| > 0 ==> p[0] in q;
    assert |q| > 0 ==> q[0] in p;
    if |p| > 0 && |q| > 0 {
      if p[0] != q[0] {
        BeforeTotal(p[0].0, q[0].0);
      }
      SortedDistinct(p);
      SortedDistinct(q);
      forall kv ensures kv in p[1..] <==> kv in q[1..] {
        assert kv in p <==> kv == p[0] || kv in p[1..];
        assert kv in q <==> kv == q[0] || kv in q[1..];
      }
      SortedUnique(p[1..], q[1..]);
      assert p == [p[0]] + p[1..] && q == [q[0]] + q[1..];
    }
  }

  lemma SetPropMembers(acc: Props, k: string, v: Json)
    requires k != PROTO && k !in Keys(acc)
    ensures forall kv :: kv in SetProp(acc, k, v) <==> kv in acc || kv == (k, v)
  {
    if IsArrayIndex(k) {
      var p := IndexPos(acc, k);
      assert acc == acc[..p] + acc[p..];
    }
  }

  /** Where an array index is inserted, smaller keys come before it and all others after it. */
  lemma IndexPosOrders(acc: Props, k: string, i: nat)
    requires SortedProps(acc) && IsArrayIndex(k) && k !in Keys(acc) && i < |acc|
    ensures if i < IndexPos(acc, k) then Before(acc[i].0, k) else Before(k, acc[i].0)
  {
    hide StrLess, Num, IndexPos;
    var p := IndexPos(acc, k);
    if i >= p {
      assert acc[p].0 in Keys(acc);
      if IsArrayIndex(acc[p].0) && Num(acc[p].0) == Num(k) {
        NumInjective(acc[p].0, k);
      }
      assert i > p ==> Before(acc[p].0, acc[i].0);
    }
  }

  /** A key that comes after all others in string order keeps the property order. */
  lemma SetPropSorted(acc: Props, k: string, v: Json)
    requires SortedProps(acc) && k != PROTO && k !in Keys(acc)
    requires forall i | 0 <= i < |acc| :: StrLess(acc[i].0, k)
    ensures SortedProps(SetProp(acc, k, v))
  {
    hide StrLess, Num, IsNumeral, IndexPos;
    if IsArrayIndex(k) {
      hide Before;
      forall i | 0 <= i < |acc|
        ensures if i < IndexPos(acc, k) then Before(acc[i].0, k) else Before(k, acc[i].0)
      {
        IndexPosOrders(acc, k, i);
      }
    }
  }

  lemma {:induction false} ArrangeSpec(ks: seq<string>, vals: Props)
    requires StrictlySorted(ks) && DistinctKeys(vals)
    requires forall k | k in ks :: k in Keys(vals)
    ensures SortedProps(Arrange(ks, vals))
    ensures forall kv :: kv in Arrange(ks, vals) <==> kv.0 in ks && kv.0 != PROTO && kv in vals
  {
    if |ks| > 0 {
      var init, k := ks[..|ks| - 1], ks[|ks| - 1];
      assert ks == init + [k];
      ArrangeSpec(init, vals);
      var acc, v := Arrange(init, vals), Get(vals, k);
      forall i | 0 <= i < |acc| ensures StrLess(acc[i].0, k) {
        assert acc[i] in acc;
      }
      forall kv | kv in vals && kv.0 == k ensures kv.1 == v {
        var i :| 0 <= i < |vals| && vals[i] == kv;
        GetAt(vals, i);
      }
      assert (k, v) in vals;
      if k in Keys(acc) {
        StrLessTotal(k, k);
        assert false;
      }
      if k != PROTO {
        SetPropMembers(acc, k, v);
        SetPropSorted(acc, k, v);
      }
    }
  }

  lemma KeysListed(props: Props)
    requires DistinctKeys(props)
    ensures forall k :: k in SortKeyList(KeyList(props)) <==> k in Keys(props)
  {
    hide SortKeyList;
    forall k | k in KeyList(props) ensures k in Keys(props) {
      var i :| 0 <= i < |props| && KeyList(props)[i] == k;
      assert props[i].0 == k;
    }
    forall k | k in Keys(props) ensures k in KeyList(props) {
      assert KeyList(props)[IndexOf(props, k)] == k;
    }
  }

  lemma SortedValue(props: Props, k: string)
    requires Valid(JObj(props)) && k in Keys(props)
    ensures k in Keys(SortValues(props)) && Get(SortValues(props), k) == SortKeys(Get(props, k))
  {
    GetAt(SortValues(props), IndexOf(props, k));
  }

  lemma SortedMember(props: Props, kv: (string, Json))
    requires Valid(JObj(props))
    ensures kv in SortValues(props) <==> kv.0 in Keys(props) && kv.1 == SortKeys(Get(props, kv.0))
  {
    var vals := SortValues(props);
    if kv in vals {
      var i :| 0 <= i < |vals| && vals[i] == kv;
      GetAt(props, i);
    }
    if kv.0 in Keys(props) && kv.1 == SortKeys(Get(props, kv.0)) {
      assert vals[IndexOf(props, kv.0)] == kv;
    }
  }

  lemma SortKeysArranges(props: Props)
    requires Valid(JObj(props))
    ensures forall k | k in SortKeyList(KeyList(props)) :: k in Keys(SortValues(props))
    ensures DistinctKeys(SortValues(props))
    ensures SortKeys(JObj(props)) == JObj(Arrange(SortKeyList(KeyList(props)), SortValues(props)))
  {
    hide SortKeyList, Arrange;
    KeysListed(props);
    forall k | k in Keys(props) ensures k in Keys(SortValues(props)) { SortedValue(props, k); }
  }

  /** What sorting does to one object: property order, every key but `__proto__`, sorted values. */
  lemma SortKeysObject(props: Props)
    requires Valid(JObj(props))
    ensures SortKeys(JObj(props)).JObj?
    ensures var r := SortKeys(JObj(props)).props;
      && SortedProps(r) && DistinctKeys(r)
      && forall kv :: kv in r <==> kv.0 in (Keys(props) - {PROTO}) && kv.1 == SortKeys(Get(props, kv.0))
  {
    hide SortKeys, SortValues, SortKeyList, Arrange, Keys, SortedProps;
    SortKeysArranges(props);
    KeysListed(props);
    ArrangeSpec(SortKeyList(KeyList(props)), SortValues(props));
    var r := SortKeys(JObj(props)).props;
    SortedDistinct(r);
    forall kv ensures kv in r <==> kv.0 in (Keys(props) - {PROTO}) && kv.1 == SortKeys(Get(props, kv.0)) {
      SortedMember(props, kv);
    }
  }

  /** Values that are the same up to key order have one sorted copy. */
  lemma {:induction false} SameSorts(x: Json, y: Json)
    requires Valid(x) && Valid(y) && Same(x, y, {PROTO})
    ensures SortKeys(x) == SortKeys(y)
    decreases x
  {
    match x
    case JArr(items) =>
      forall i | 0 <= i < |items| ensures SortKeys(items[i]) == SortKeys(y.items[i]) {
        SameSorts(items[i], y.items[i]);
      }
    case JObj(props) =>
      SortKeysObject(props);
      SortKeysObject(y.props);
      forall k | k in (Keys(props) - {PROTO}) ensures SortKeys(Get(props, k)) == SortKeys(Get(y.props, k)) {
        SameSorts(props[IndexOf(props, k)].1, Get(y.props, k));
      }
      SortedUnique(SortKeys(x).props, SortKeys(y).props);
    case _ =>
  }

  /** Values with one sorted copy are the same up to key order. */
  lemma {:induction false} SortsSame(x: Json, y: Json)
    requires Valid(x) && Valid(y) && SortKeys(x) == SortKeys(y)
    ensures Same(x, y, {PROTO})
    decreases x
  {
    match x
    case JArr(items) =>
      forall i | 0 <= i < |items| ensures Same(items[i], y.items[i], {PROTO}) {
        assert SortKeys(x).items[i] == SortKeys(items[i]) && SortKeys(y).items[i] == SortKeys(y.items[i]);
        SortsSame(items[i], y.items[i]);
      }
    case JObj(props) =>
      SortKeysObject(props);
      SortKeysObject(y.props);
      var r := SortKeys(x).props;
      forall k | k in (Keys(props) - {PROTO}) ensures k in (Keys(y.props) - {PROTO}) {
        assert (k, SortKeys(Get(props, k))) in r;
      }
      forall k | k in (Keys(y.props) - {PROTO}) ensures k in (Keys(props) - {PROTO}) {
        assert (k, SortKeys(Get(y.props, k))) in r;
      }
      forall i | 0 <= i < |props| && props[i].0 != PROTO
        ensures props[i].0 in (Keys(y.props) - {PROTO}) && Same(props[i].1, Get(y.props, props[i].0), {PROTO})
      {
        GetAt(props, i);
        assert (props[i].0, SortKeys(props[i].1)) in r;
        SortsSame(props[i].1, Get(y.props, props[i].0));
      }
    case _ =>
  }

  /** The copy is again a valid value, equal to the original up to key order. */
  lemma {:induction false} SortKeysSame(x: Json)
    requires Valid(x)
    ensures Valid(SortKeys(x)) && Same(SortKeys(x), x, {PROTO})
  {
    match x
    case JArr(items) =>
      forall i | 0 <= i < |items| ensures Valid(SortKeys(items[i])) && Same(SortKeys(items[i]), items[i], {PROTO}) {
        SortKeysSame(items[i]);
      }
    case JObj(props) =>
      SortKeysObject(props);
      var r := SortKeys(x).props;
      forall j | 0 <= j < |r|
        ensures Valid(r[j].1) && r[j].0 in (Keys(props) - {PROTO}) && Same(r[j].1, Get(props, r[j].0), {PROTO})
      {
        assert r[j] in r;
        SortKeysSame(props[IndexOf(props, r[j].0)].1);
      }
      forall k | k in (Keys(props) - {PROTO}) ensures k in (Keys(r) - {PROTO}) {
        assert (k, SortKeys(Get(props, k))) in r;
      }
    case _ =>
  }

  /** sortKeys is idempotent. */
  lemma SortKeysIdempotent(x: Json)
    requires Valid(x)
    ensures Valid(SortKeys(x)) && SortKeys(SortKeys(x)) == SortKeys(x)
  {
    SortKeysSame(x);
    SameSorts(SortKeys(x), x);
  }

  /* ----- the copy loop ----- */

  /** The recursion of sortKeys as it runs, one assignment to the accumulator at a time. */
  method CopySorted(j: Json) returns (r: Json)
    requires Valid(j)
    ensures r == SortKeys(j)
    decreases j
  {
    hide SetProp, SortKeyList, SortValues, Keys;
    match j
    case JArr(items) =>
      var out: seq<Json> := [];
      for i := 0 to |items|
        invariant |out| == i && forall k | 0 <= k < i :: out[k] == SortKeys(items[k])
      {
        var item := CopySorted(items[i]);
        out := out + [item];
      }
      r := JArr(out);
    case JObj(props) =>
      var ks := SortKeyList(KeyList(props));
      ghost var vals := SortValues(props);
      KeysListed(props);
      forall k | k in ks ensures k in Keys(vals) { SortedValue(props, k); }
      var acc: Props := [];
      for n := 0 to |ks|
        invariant acc == Arrange(ks[..n], vals)
      {
        SortedValue(props, ks[n]);
        var v := CopySorted(Get(props, ks[n]));
        acc := SetProp(acc, ks[n], v);
        assert ks[..n + 1][..n] == ks[..n];
      }
      assert ks[..|ks|] == ks;
      r := JObj(acc);
    case _ => r := j;
  }

  /* ----- the hash ----- */

  lemma {:induction false} NulledValid(x: Json)
    requires Valid(x)
    ensures Valid(Nulled(x))
  {
    match x
    case JArr(items) =>
      forall i | 0 <= i < |items| ensures Valid(Nulled(items[i])) { NulledValid(items[i]); }
    case JObj(props) =>
      forall i | 0 <= i < |props| ensures Valid(Nulled(props[i].1)) { NulledValid(props[i].1); }
    case _ =>
  }

  lemma NulledGet(props: Props, k: string)
    requires Valid(JObj(props))
    ensures var nulled := Nulled(JObj(props)).props;
      (k in Keys(nulled) <==> k in Keys(props)) && (k in Keys(props) ==> Get(nulled, k) == Nulled(Get(props, k)))
  {
    var nulled := Nulled(JObj(props)).props;
    NulledValid(JObj(props));
    if k in Keys(props) {
      assert nulled[IndexOf(props, k)].0 == k;
      GetAt(nulled, IndexOf(props, k));
    }
    if k in Keys(nulled) { assert props[IndexOf(nulled, k)].0 == k; }
  }

  /** Sorting keys and replacing infinite numbers do not interfere. */
  ghost predicate SortsNulled(x: Json) {
    Valid(x) && Valid(Nulled(x)) && SortKeys(Nulled(x)) == Nulled(SortKeys(x))
  }

  lemma {:induction false} SortNulled(x: Json)
    requires Valid(x)
    ensures SortsNulled(x)
    decreases x
  {
    NulledValid(x);
    match x
    case JArr(items) =>
      forall i | 0 <= i < |items| ensures SortsNulled(items[i]) { SortNulled(items[i]); }
      SortNulledArray(items);
    case JObj(props) =>
      forall k | k in Keys(props) ensures SortsNulled(Get(props, k)) { SortNulled(props[IndexOf(props, k)].1); }
      SortNulledObject(props);
    case _ =>
  }

  lemma SortNulledArray(items: seq<Json>)
    requires Valid(JArr(items)) && Valid(Nulled(JArr(items)))
    requires forall i | 0 <= i < |items| :: SortsNulled(items[i])
    ensures SortsNulled(JArr(items))
  {
    var r, q := SortKeys(Nulled(JArr(items))), Nulled(SortKeys(JArr(items)));
    assert r.JArr? && q.JArr? && |r.items| == |q.items| == |items|;
    forall i | 0 <= i < |items| ensures r.items[i] == q.items[i] {
      assert SortsNulled(items[i]);
      assert r.items[i] == SortKeys(Nulled(items[i]));
    }
  }

  lemma SortNulledObject(props: Props)
    requires Valid(JObj(props)) && Valid(Nulled(JObj(props)))
    requires forall k | k in Keys(props) :: SortsNulled(Get(props, k))
    ensures SortsNulled(JObj(props))
  {
    hide SortKeys, Get, Keys;
    SortKeysObject(props);
    SortKeysObject(Nulled(JObj(props)).props);
    var r, p := SortKeys(JObj(props)).props, SortKeys(Nulled(JObj(props))).props;
    var q := Nulled(JObj(r)).props;
    forall kv ensures kv in p <==> kv in q {
      NulledGet(props, kv.0);
      NulledMember(r, kv);
      if kv.0 in Keys(props) {
        assert SortsNulled(Get(props, kv.0));
        assert (kv.0, SortKeys(Get(props, kv.0))) in r <==> kv.0 != PROTO;
      }
    }
    NulledSorted(r);
    SortedUnique(p, q);
  }

  lemma NulledSorted(r: Props)
    requires SortedProps(r)
    ensures SortedProps(Nulled(JObj(r)).props)
  {
    var q := Nulled(JObj(r)).props;
    forall i, j | 0 <= i < j < |q| ensures Before(q[i].0, q[j].0) { assert Before(r[i].0, r[j].0); }
  }

  lemma NulledMember(r: Props, kv: (string, Json))
    ensures kv in Nulled(JObj(r)).props <==> exists e | e in r :: kv == (e.0, Nulled(e.1))
  {
    var q := Nulled(JObj(r)).props;
    if kv in q {
      var i :| 0 <= i < |q| && q[i] == kv;
      assert r[i] in r;
    }
    if e :| e in r && kv == (e.0, Nulled(e.1)) {
      var i :| 0 <= i < |r| && r[i] == e;
      assert q[i] == kv;
    }
  }

  /** Two payloads get the same hashed text exactly when they are the same JSON value up to key order,
      `__proto__` properties aside, where an infinite number counts as null. */
  lemma CanonicalText(x: Json, y: Json)
    requires Valid(x) && Valid(y)
    ensures Text(SortKeys(x)) == Text(SortKeys(y)) <==> Same(Nulled(x), Nulled(y), {PROTO})
  {
    hide Text, SortKeys, Nulled, Same;
    TextInjective(SortKeys(x), SortKeys(y));
    SortNulled(x);
    SortNulled(y);
    if Same(Nulled(x), Nulled(y), {PROTO}) { SameSorts(Nulled(x), Nulled(y)); }
    if SortKeys(Nulled(x)) == SortKeys(Nulled(y)) { SortsSame(Nulled(x), Nulled(y)); }
  }

  ghost predicate Injective(sha256: string -> string) {
    forall a, b :: sha256(a) == sha256(b) ==> a == b
  }

  function Hash(sha256: string -> string, payload: Json): string
    requires Valid(payload)
  {
    sha256(Text(SortKeys(payload)))
  }

  /** Payloads share a hash exactly when they are the same JSON value, arrays keeping their order and
      objects having none, but for `__proto__` properties and for infinite numbers, which count as
      null. Without these nothing is set aside. */
  lemma HashIffSameValue(sha256: string -> string, x: Json, y: Json)
    requires Injective(sha256) && Valid(x) && Valid(y)
    ensures Hash(sha256, x) == Hash(sha256, y) <==> Same(Nulled(x), Nulled(y), {PROTO})
    ensures NoProto(x) && NoProto(y) && Nulled(x) == x && Nulled(y) == y ==>
      (Hash(sha256, x) == Hash(sha256, y) <==> Same(x, y, {}))
  {
    hide Text, SortKeys, Nulled, Same, NoProto;
    CanonicalText(x, y);
    if NoProto(x) && NoProto(y) { SameSkip(x, y); }
  }

  /** A `__proto__` property is lost: these two different payloads have one hash. */
  lemma ProtoNotHashed(sha256: string -> string)
    ensures var x, y := JObj([(PROTO, JNum("1"))]), JObj([]);
      Valid(x) && Valid(y) && !Same(x, y, {}) && Hash(sha256, x) == Hash(sha256, y)
  {
    var x, y := JObj([(PROTO, JNum("1"))]), JObj([]);
    assert x.props[0].0 in Keys(x.props);
    assert Nulled(x) == x && Nulled(y) == y;
    CanonicalText(x, y);
  }

  lemma NulledHash(sha256: string -> string, x: Json, y: Json)
    requires Valid(x) && Valid(y) && Nulled(x) == Nulled(y)
    ensures Hash(sha256, x) == Hash(sha256, y)
  {
    hide Text, SortKeys, Nulled;
    SortNulled(x);
    SortNulled(y);
    TextInjective(SortKeys(x), SortKeys(y));
  }

  /** So is an infinite number: {"a":1e400} and {"a":null} have one hash. */
  lemma InfinityHashedAsNull(sha256: string -> string)
    ensures var x, y := JObj([("a", JInfinite(false))]), JObj([("a", JNull)]);
      Valid(x) && Valid(y) && !Same(x, y, {}) && Hash(sha256, x) == Hash(sha256, y)
  {
    hide Hash;
    var x, y := JObj([("a", JInfinite(false))]), JObj([("a", JNull)]);
    assert Nulled(x) == Nulled(y);
    assert x.props[0].0 in Keys(x.props) - {} && y.props[0].0 in Keys(y.props);
    NulledHash(sha256, x, y);
  }
}
