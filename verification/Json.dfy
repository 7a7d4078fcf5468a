/** JSON values as the request body parser hands them to the application, with the
    order in which a JavaScript object lists its own properties (section 10.1.11 of
    ECMA-262) and the equality that ignores this order (section 4 of RFC 8259). */
module Json {

  /** A finite number stands for the text Number::toString prints for it. */
  type NumText = s: string | |s| > 0 && forall i | 0 <= i < |s| :: IsNumChar(s[i]) witness "0"

  predicate IsDigit(c: char) {
    '0' <= c <= '9'
  }

  predicate IsNumChar(c: char) {
    IsDigit(c) || c == '-' || c == '+' || c == '.' || c == 'e'
  }

  type Props = seq<(string, Json)>

  /** JInfinite is what the parser makes of a number too large for a double, such as 1e400. */
  datatype Json =
    | JNull
    | JBool(b: bool)
    | JNum(num: NumText)
    | JInfinite(negative: bool)
    | JStr(s: string)
    | JArr(items: seq<Json>)
    | JObj(props: seq<(string, Json)>)

  /** Assigning to this key of a plain object sets its prototype and adds no property. */
  const PROTO := "__proto__"

  function KeyList(props: Props): (ks: seq<string>)
    ensures |ks| == |props|
    ensures forall i | 0 <= i < |ks| :: ks[i] == props[i].0
  {
    seq(|props|, i requires 0 <= i < |props| => props[i].0)
  }

  function Keys(props: Props): set<string> {
    set i | 0 <= i < |props| :: props[i].0
  }

  predicate DistinctKeys(props: Props) {
    forall i, j | 0 <= i < j < |props| :: props[i].0 != props[j].0
  }

  function IndexOf(props: Props, k: string): (i: nat)
    requires k in Keys(props)
    ensures i < |props| && props[i].0 == k
  {
    if props[0].0 == k then 0
    else
      assert k in Keys(props[1..]) by {
        var j :| 0 <= j < |props| && props[j].0 == k;
        assert props[1..][j - 1].0 == k;
      }
      1 + IndexOf(props[1..], k)
  }

  /** The value of property k. */
  function Get(props: Props, k: string): Json
    requires k in Keys(props)
  {
    props[IndexOf(props, k)].1
  }

  /** Every object at every depth has distinct keys. */
  ghost predicate Valid(j: Json) {
    match j
    case JArr(items) => forall i | 0 <= i < |items| :: Valid(items[i])
    case JObj(props) => DistinctKeys(props) && forall i | 0 <= i < |props| :: Valid(props[i].1)
    case _ => true
  }

  /** No object at any depth has a property named `__proto__`. */
  ghost predicate NoProto(j: Json) {
    match j
    case JArr(items) => forall i | 0 <= i < |items| :: NoProto(items[i])
    case JObj(props) => PROTO !in Keys(props) && forall i | 0 <= i < |props| :: NoProto(props[i].1)
    case _ => true
  }

  /** The value with JNull for every infinite number. */
  function Nulled(j: Json): Json {
    match j
    case JInfinite(_) => JNull
    case JArr(items) => JArr(seq(|items|, i requires 0 <= i < |items| => Nulled(items[i])))
    case JObj(props) => JObj(seq(|props|, i requires 0 <= i < |props| => (props[i].0, Nulled(props[i].1))))
    case _ => j
  }

  /** The same JSON value up to the order of object keys at every depth, where properties
      whose key is in `skip` are not looked at. `Same(x, y, {})` is equality of JSON values. */
  ghost predicate Same(x: Json, y: Json, skip: set<string>)
    decreases x
  {
    match x
    case JArr(items) =>
      y.JArr? && |items| == |y.items| && forall i | 0 <= i < |items| :: Same(items[i], y.items[i], skip)
    case JObj(props) =>
      && y.JObj?
      && Keys(props) - skip == Keys(y.props) - skip
      && forall i | 0 <= i < |props| && props[i].0 !in skip ::
           assert props[i].0 in Keys(props) - skip;
           Same(props[i].1, Get(y.props, props[i].0), skip)
    case _ => x == y
  }

  /** Skipping a key that neither value has anywhere changes nothing. */
  lemma {:induction false} SameSkip(x: Json, y: Json)
    requires NoProto(x) && NoProto(y)
    ensures Same(x, y, {PROTO}) <==> Same(x, y, {})
    decreases x
  {
    match x
    case JArr(items) =>
      if y.JArr? && |items| == |y.items| {
        forall i | 0 <= i < |items| ensures Same(items[i], y.items[i], {PROTO}) <==> Same(items[i], y.items[i], {}) {
          SameSkip(items[i], y.items[i]);
        }
      }
    case JObj(props) =>
      assert y.JObj? ==> Keys(y.props) - {PROTO} == Keys(y.props) == Keys(y.props) - {};
      assert Keys(props) - {PROTO} == Keys(props) == Keys(props) - {};
      if y.JObj? && Keys(props) == Keys(y.props) {
        forall i | 0 <= i < |props|
          ensures props[i].0 in Keys(y.props) && props[i].0 != PROTO
          ensures Same(props[i].1, Get(y.props, props[i].0), {PROTO})
              <==> Same(props[i].1, Get(y.props, props[i].0), {})
        {
          assert props[i].0 in Keys(props);
          SameSkip(props[i].1, Get(y.props, props[i].0));
        }
        assert Same(x, y, {PROTO}) <==> Same(x, y, {});
      }
    case _ =>
  }

  /** With distinct keys, the property at position i is the one found under its key. */
  lemma GetAt(props: Props, i: nat)
    requires DistinctKeys(props) && i < |props|
    ensures props[i].0 in Keys(props) && Get(props, props[i].0) == props[i].1
  {
    var j := IndexOf(props, props[i].0);
    assert props[j].0 == props[i].0;
  }

  /** Lexicographic order of strings, as Array.prototype.sort compares them. */
  predicate StrLess(a: string, b: string) {
    |b| > 0 && (|a| == 0 || a[0] < b[0] || (a[0] == b[0] && StrLess(a[1..], b[1..])))
  }

  lemma {:induction false} StrLessTotal(a: string, b: string)
    ensures a == b || StrLess(a, b) || StrLess(b, a)
    ensures !(StrLess(a, b) && StrLess(b, a))
    ensures a == b ==> !StrLess(a, b)
  {
    if |a| > 0 && |b| > 0 && a[0] == b[0] {
      StrLessTotal(a[1..], b[1..]);
      assert a == [a[0]] + a[1..] && b == [b[0]] + b[1..];
    }
  }

  lemma {:induction false} StrLessTransitive(a: string, b: string, c: string)
    requires StrLess(a, b) && StrLess(b, c)
    ensures StrLess(a, c)
  {
    if |a| > 0 && a[0] == b[0] == c[0] {
      StrLessTransitive(a[1..], b[1..], c[1..]);
    }
  }

  /** One string is less than another where the first character that differs is, or where it ends first. */
  lemma {:induction false} StrLessIs(p: string, a: string, b: string)
    requires |a| > 0 && |b| > 0 ==> a[0] != b[0]
    ensures StrLess(p + a, p + b) <==> |b| > 0 && (|a| > 0 ==> a[0] < b[0])
  {
    if |p| > 0 {
      StrLessIs(p[1..], a, b);
      assert (p + a)[1..] == p[1..] + a && (p + b)[1..] == p[1..] + b;
    } else {
      assert p + a == a && p + b == b;
    }
  }

  /** The value of a string of digits. */
  function Num(s: string): nat
    requires forall i | 0 <= i < |s| :: IsDigit(s[i])
  {
    if |s| == 0 then 0
    else
      assert IsDigit(s[|s| - 1]);
      10 * Num(s[..|s| - 1]) + (s[|s| - 1] as int - '0' as int)
  }

  predicate IsNumeral(s: string) {
    && |s| > 0
    && (forall i | 0 <= i < |s| :: IsDigit(s[i]))
    && (|s| > 1 ==> s[0] != '0')
  }

  /** An array index (section 6.1.7 of ECMA-262): such keys are listed before all others. */
  predicate IsArrayIndex(s: string) {
    IsNumeral(s) && Num(s) < 4294967295
  }

  lemma {:induction false} NumZero(s: string)
    requires IsNumeral(s) && Num(s) == 0
    ensures s == "0"
  {
    if |s| > 1 {
      NumZero(s[..|s| - 1]);
    }
  }

  lemma {:induction false} NumInjective(a: string, b: string)
    requires IsNumeral(a) && IsNumeral(b) && Num(a) == Num(b)
    ensures a == b
  {
    var a', b' := a[..|a| - 1], b[..|b| - 1];
    if |a| > 1 && |b| > 1 {
      NumInjective(a', b');
      assert a == a' + [a[|a| - 1]] && b == b' + [b[|b| - 1]];
    } else if |a| > 1 {
      NumZero(a');
    } else if |b| > 1 {
      NumZero(b');
    }
  }

  /** The order in which an object that received its other keys in string order lists them. */
  predicate Before(a: string, b: string) {
    if IsArrayIndex(a) && IsArrayIndex(b) then Num(a) < Num(b)
    else if IsArrayIndex(a) || IsArrayIndex(b) then IsArrayIndex(a)
    else StrLess(a, b)
  }

  lemma BeforeTotal(a: string, b: string)
    ensures a == b || Before(a, b) || Before(b, a)
    ensures !(Before(a, b) && Before(b, a))
  {
    StrLessTotal(a, b);
    if IsArrayIndex(a) && IsArrayIndex(b) && Num(a) == Num(b) {
      NumInjective(a, b);
    }
  }

  /** How many of the leading properties are array indices below k. */
  function IndexPos(props: Props, k: string): (p: nat)
    requires IsArrayIndex(k)
    ensures p <= |props|
    ensures forall i | 0 <= i < p :: IsArrayIndex(props[i].0) && Num(props[i].0) < Num(k)
    ensures p < |props| ==> !(IsArrayIndex(props[p].0) && Num(props[p].0) < Num(k))
  {
    if |props| == 0 || !(IsArrayIndex(props[0].0) && Num(props[0].0) < Num(k)) then 0
    else 1 + IndexPos(props[1..], k)
  }

  /** `acc[k] = v` on a plain object. */
  function SetProp(acc: Props, k: string, v: Json): Props {
    if k == PROTO then acc
    else if k in Keys(acc) then acc[IndexOf(acc, k) := (k, v)]
    else if IsArrayIndex(k) then
      var p := IndexPos(acc, k);
      acc[..p] + [(k, v)] + acc[p..]
    else acc + [(k, v)]
  }

  lemma Replaced(acc: Props, i: nat, x: (string, Json), prop: (string, Json))
    requires DistinctKeys(acc) && i < |acc| && acc[i].0 == x.0
    ensures prop in acc[i := x] <==> prop == x || (prop in acc && prop.0 != x.0)
  {
    var r := acc[i := x];
    assert r[i] == x;
    if prop in acc && prop.0 != x.0 {
      var j :| 0 <= j < |acc| && acc[j] == prop;
      assert r[j] == prop;
    }
  }

  /** An assignment replaces or adds one property and keeps the others; `__proto__` is not one. */
  lemma SetPropIs(acc: Props, k: string, v: Json, prop: (string, Json))
    requires DistinctKeys(acc)
    ensures prop in SetProp(acc, k, v) <==>
      if k == "__proto__" then prop in acc else prop == (k, v) || (prop in acc && prop.0 != k)
  {
    hide IsArrayIndex, DistinctKeys;
    if k != PROTO && k in Keys(acc) {
      Replaced(acc, IndexOf(acc, k), (k, v), prop);
    } else if k != PROTO {
      assert prop in acc ==> prop.0 in Keys(acc);
      if IsArrayIndex(k) {
        var p := IndexPos(acc, k);
        assert acc == acc[..p] + acc[p..];
      }
    }
  }
}
