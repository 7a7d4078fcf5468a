/** The text JSON.stringify prints (section 25.5.2 of ECMA-262), and that it can be read back
    in one way only. */
module JsonText {
  import opened Json

  function HexDigit(n: nat): char
    requires n < 16
  {
    if n < 10 then '0' + n as char else 'a' + (n - 10) as char
  }

  /** How QuoteJSONString prints one character. */
  function Escape(c: char): string {
    if c == '"' then "\\\""
    else if c == '\\' then "\\\\"
    else if c == '\U{0008}' then "\\b"
    else if c == '\t' then "\\t"
    else if c == '\n' then "\\n"
    else if c == '\U{000C}' then "\\f"
    else if c == '\r' then "\\r"
    else if c < ' ' then "\\u00" + [HexDigit(c as int / 16), HexDigit(c as int % 16)]
    else [c]
  }

  function EscapeAll(s: string): string {
    if |s| == 0 then "" else Escape(s[0]) + EscapeAll(s[1..])
  }

  function Quote(s: string): string {
    "\"" + EscapeAll(s) + "\""
  }

  function Text(j: Json): string
    decreases j, 1
  {
    match j
    case JNull => "null"
    case JBool(b) => if b then "true" else "false"
    case JNum(num) => num
    case JInfinite(_) => "null"
    case JStr(s) => Quote(s)
    case JArr(items) => "[" + ItemsText(items) + "]"
    case JObj(props) => "{" + PropsText(props) + "}"
  }

  function ItemsText(items: seq<Json>): string
    decreases items, 0
  {
    if |items| == 0 then ""
    else if |items| == 1 then Text(items[0])
    else Text(items[0]) + "," + ItemsText(items[1..])
  }

  function PropText(prop: (string, Json)): string
    decreases prop, 2
  {
    Quote(prop.0) + ":" + Text(prop.1)
  }

  function PropsText(props: Props): string
    decreases props, 0
  {
    if |props| == 0 then ""
    else if |props| == 1 then PropText(props[0])
    else PropText(props[0]) + "," + PropsText(props[1..])
  }

  /* ----- unique decoding ----- */

  /** What can follow a value: the end of the text, or a separator or closing bracket. */
  predicate Follows(r: string) {
    |r| == 0 || r[0] == ',' || r[0] == ']' || r[0] == '}'
  }

  lemma EscapePrefix(c: char, d: char, u: string, v: string)
    requires Escape(c) + u == Escape(d) + v
    ensures c == d && u == v
  {
    var s, t := Escape(c) + u, Escape(d) + v;
    assert s[0] == Escape(c)[0] && t[0] == Escape(d)[0];
    if |Escape(c)| > 1 {
      assert |Escape(d)| > 1;
      assert s[1] == Escape(c)[1] && t[1] == Escape(d)[1];
      if |Escape(c)| == 6 {
        assert s[4] == Escape(c)[4] && t[4] == Escape(d)[4];
        assert s[5] == Escape(c)[5] && t[5] == Escape(d)[5];
        assert c as int == d as int;
      }
    }
    assert u == s[|Escape(c)|..] && v == t[|Escape(d)|..];
  }

  lemma EscapeHead(c: char)
    ensures |Escape(c)| > 0 && Escape(c)[0] != '"'
  {
  }

  /** What is printed first of a string that is being quoted, and what follows it. */
  function QuotedHead(a: string): string {
    if |a| == 0 then "\"" else Escape(a[0])
  }

  function QuotedTail(a: string, u: string): string {
    if |a| == 0 then u else EscapeAll(a[1..]) + ("\"" + u)
  }

  lemma QuotedSplit(a: string, u: string)
    ensures EscapeAll(a) + ("\"" + u) == QuotedHead(a) + QuotedTail(a, u)
    ensures |QuotedHead(a)| > 0 && (QuotedHead(a)[0] == '"' <==> |a| == 0)
  {
    hide Escape, EscapeAll;
    EscapeAllFirst(a);
    if |a| > 0 {
      EscapeHead(a[0]);
      Associate(Escape(a[0]), EscapeAll(a[1..]), "\"" + u);
    }
  }

  lemma EscapeAllFirst(a: string)
    ensures EscapeAll(a) == if |a| == 0 then "" else Escape(a[0]) + EscapeAll(a[1..])
  {
  }

  lemma Associate(a: string, b: string, c: string)
    ensures (a + b) + c == a + (b + c)
  {
  }

  lemma HeadOf(h: string, t: string)
    requires |h| > 0
    ensures (h + t)[0] == h[0] && (h + t)[|h|..] == t
  {
  }

  lemma {:induction false} QuotedPrefix(a: string, b: string, u: string, v: string)
    requires EscapeAll(a) + ("\"" + u) == EscapeAll(b) + ("\"" + v)
    ensures a == b && u == v
  {
    hide Escape, EscapeAll;
    QuotedSplit(a, u);
    QuotedSplit(b, v);
    HeadOf(QuotedHead(a), QuotedTail(a, u));
    HeadOf(QuotedHead(b), QuotedTail(b, v));
    if |a| > 0 && |b| > 0 {
      EscapePrefix(a[0], b[0], QuotedTail(a, u), QuotedTail(b, v));
      QuotedPrefix(a[1..], b[1..], u, v);
      assert a == [a[0]] + a[1..] && b == [b[0]] + b[1..];
    }
  }

  lemma QuotePrefix(a: string, b: string, u: string, v: string)
    requires Quote(a) + u == Quote(b) + v
    ensures a == b && u == v
  {
    hide EscapeAll;
    Unwrap("\"", EscapeAll(a), "\"", u);
    Unwrap("\"", EscapeAll(b), "\"", v);
    QuotedPrefix(a, b, u, v);
  }

  /** How many leading characters can belong to a number. */
  function NumLen(s: string): nat {
    if |s| == 0 || !IsNumChar(s[0]) then 0 else 1 + NumLen(s[1..])
  }

  lemma {:induction false} NumLenOf(a: string, u: string)
    requires (forall i | 0 <= i < |a| :: IsNumChar(a[i])) && Follows(u)
    ensures NumLen(a + u) == |a|
  {
    if |a| == 0 {
      assert a + u == u;
    } else {
      NumLenOf(a[1..], u);
      assert (a + u)[1..] == a[1..] + u;
    }
  }

  lemma NumPrefix(a: string, b: string, u: string, v: string)
    requires (forall i | 0 <= i < |a| :: IsNumChar(a[i])) && (forall i | 0 <= i < |b| :: IsNumChar(b[i]))
    requires Follows(u) && Follows(v) && a + u == b + v
    ensures a == b && u == v
  {
    NumLenOf(a, u);
    NumLenOf(b, v);
    assert a == (a + u)[..|a|] && b == (b + v)[..|b|];
    assert u == (a + u)[|a|..] && v == (b + v)[|b|..];
  }

  /** The first character of a text tells the kind of value. */
  function Kind(c: char): nat {
    if c == 'n' then 0 else if c == 't' then 1 else if c == 'f' then 2 else if IsNumChar(c) then 3
    else if c == '"' then 4 else if c == '[' then 5 else if c == '{' then 6 else 7
  }

  lemma TextKind(j: Json)
    ensures |Text(j)| > 0 && Kind(Text(j)[0]) < 7
    ensures Kind(Text(j)[0]) == match j
      case JNull => 0
      case JBool(b) => if b then 1 else 2
      case JNum(_) => 3
      case JInfinite(_) => 0
      case JStr(_) => 4
      case JArr(_) => 5
      case JObj(_) => 6
  {
  }

  lemma Regroup(a: string, b: string, c: string, d: string)
    ensures (a + b + c) + d == a + (b + (c + d))
  {
  }

  lemma Unwrap(open: string, m: string, close: string, u: string)
    requires |open| == 1
    ensures (open + m + close + u)[1..] == m + (close + u)
  {
  }

  /** Elements, or properties, that are equal but for infinite numbers. */
  predicate NulledSame(xs: seq<Json>, ys: seq<Json>) {
    |xs| == |ys| && forall i | 0 <= i < |xs| :: Nulled(xs[i]) == Nulled(ys[i])
  }

  predicate NulledSameProps(xs: Props, ys: Props) {
    |xs| == |ys| && forall i | 0 <= i < |xs| :: xs[i].0 == ys[i].0 && Nulled(xs[i].1) == Nulled(ys[i].1)
  }

  /** A value is determined, but for infinite numbers, by any text that starts with its own. */
  lemma {:induction false} TextPrefix(x: Json, y: Json, u: string, v: string)
    requires Text(x) + u == Text(y) + v && Follows(u) && Follows(v)
    ensures Nulled(x) == Nulled(y) && u == v
    decreases x, 1
  {
    var s, t := Text(x) + u, Text(y) + v;
    TextKind(x);
    TextKind(y);
    assert s[0] == Text(x)[0] && t[0] == Text(y)[0];
    match x
    case JNull => assert u == s[4..] && v == t[4..];
    case JInfinite(_) => assert u == s[4..] && v == t[4..];
    case JBool(b) => assert u == s[|Text(x)|..] && v == t[|Text(x)|..];
    case JNum(num) => NumPrefix(num, y.num, u, v);
    case JStr(str) => QuotePrefix(str, y.s, u, v);
    case JArr(items) =>
      Unwrap("[", ItemsText(items), "]", u);
      Unwrap("[", ItemsText(y.items), "]", v);
      ItemsPrefix(items, y.items, u, v);
    case JObj(props) =>
      Unwrap("{", PropsText(props), "}", u);
      Unwrap("{", PropsText(y.props), "}", v);
      PropsPrefix(props, y.props, u, v);
  }

  /** The text after the first element of a non-empty list. */
  function ItemsRest(xs: seq<Json>, u: string): string
    requires |xs| > 0
  {
    if |xs| == 1 then "]" + u else "," + (ItemsText(xs[1..]) + ("]" + u))
  }

  lemma ItemsSplit(xs: seq<Json>, u: string)
    ensures var s := ItemsText(xs) + ("]" + u);
      if |xs| == 0 then s[0] == ']' && s[1..] == u
      else s == Text(xs[0]) + ItemsRest(xs, u) && s[0] != ']'
  {
    hide Text, ItemsText;
    ItemsFirst(xs);
    if |xs| > 0 {
      TextHead(xs[0]);
      HeadOf(Text(xs[0]), ItemsRest(xs, u));
      Regroup(Text(xs[0]), ",", ItemsText(xs[1..]), "]" + u);
    }
  }

  lemma ItemsFirst(xs: seq<Json>)
    ensures ItemsText(xs) == if |xs| == 0 then "" else if |xs| == 1 then Text(xs[0])
      else Text(xs[0]) + "," + ItemsText(xs[1..])
  {
  }

  lemma TextHead(j: Json)
    ensures |Text(j)| > 0 && Text(j)[0] != ']'
  {
    TextKind(j);
  }

  lemma {:induction false} ItemsPrefix(xs: seq<Json>, ys: seq<Json>, u: string, v: string)
    requires ItemsText(xs) + ("]" + u) == ItemsText(ys) + ("]" + v)
    ensures NulledSame(xs, ys) && u == v
    decreases xs, 0
  {
    hide Text, ItemsText, Nulled;
    ItemsSplit(xs, u);
    ItemsSplit(ys, v);
    if |xs| > 0 && |ys| > 0 {
      var p, q := ItemsRest(xs, u), ItemsRest(ys, v);
      TextPrefix(xs[0], ys[0], p, q);
      assert p[0] == q[0];
      assert xs == [xs[0]] + xs[1..] && ys == [ys[0]] + ys[1..];
      assert p[1..] == if |xs| == 1 then u else ItemsText(xs[1..]) + ("]" + u);
      assert q[1..] == if |ys| == 1 then v else ItemsText(ys[1..]) + ("]" + v);
      if |xs| > 1 {
        ItemsPrefix(xs[1..], ys[1..], u, v);
      }
    }
  }

  lemma {:induction false} PropPrefix(a: (string, Json), b: (string, Json), p: string, q: string)
    requires PropText(a) + p == PropText(b) + q && Follows(p) && Follows(q)
    ensures a.0 == b.0 && Nulled(a.1) == Nulled(b.1) && p == q
    decreases a, 2
  {
    var u, v := ":" + (Text(a.1) + p), ":" + (Text(b.1) + q);
    Regroup(Quote(a.0), ":", Text(a.1), p);
    Regroup(Quote(b.0), ":", Text(b.1), q);
    QuotePrefix(a.0, b.0, u, v);
    assert u[1..] == Text(a.1) + p && v[1..] == Text(b.1) + q;
    TextPrefix(a.1, b.1, p, q);
  }

  lemma PropHead(a: (string, Json))
    ensures |PropText(a)| > 0 && PropText(a)[0] == '"'
  {
    var q := Quote(a.0);
    assert q[0] == '"';
    assert (q + ":" + Text(a.1))[0] == q[0];
  }

  function PropsRest(xs: Props, u: string): string
    requires |xs| > 0
  {
    if |xs| == 1 then "}" + u else "," + (PropsText(xs[1..]) + ("}" + u))
  }

  lemma PropsSplit(xs: Props, u: string)
    ensures var s := PropsText(xs) + ("}" + u);
      if |xs| == 0 then s[0] == '}' && s[1..] == u
      else s == PropText(xs[0]) + PropsRest(xs, u) && s[0] != '}'
  {
    if |xs| > 0 {
      var head := PropText(xs[0]);
      if |xs| > 1 {
        Regroup(head, ",", PropsText(xs[1..]), "}" + u);
      }
      PropHead(xs[0]);
      assert (head + PropsRest(xs, u))[0] == head[0];
    }
  }

  lemma {:induction false} PropsPrefix(xs: Props, ys: Props, u: string, v: string)
    requires PropsText(xs) + ("}" + u) == PropsText(ys) + ("}" + v)
    ensures NulledSameProps(xs, ys) && u == v
    decreases xs, 0
  {
    hide PropText, PropsText, Nulled;
    PropsSplit(xs, u);
    PropsSplit(ys, v);
    if |xs| > 0 && |ys| > 0 {
      var p, q := PropsRest(xs, u), PropsRest(ys, v);
      PropPrefix(xs[0], ys[0], p, q);
      assert p[0] == q[0];
      assert xs == [xs[0]] + xs[1..] && ys == [ys[0]] + ys[1..];
      assert p[1..] == if |xs| == 1 then u else PropsText(xs[1..]) + ("}" + u);
      assert q[1..] == if |ys| == 1 then v else PropsText(ys[1..]) + ("}" + v);
      if |xs| > 1 {
        PropsPrefix(xs[1..], ys[1..], u, v);
      }
    }
  }

  lemma {:induction false} TextNulled(x: Json, y: Json)
    requires Nulled(x) == Nulled(y)
    ensures Text(x) == Text(y)
    decreases x, 1
  {
    match x
    case JArr(items) =>
      NulledArr(x, y);
      ItemsNulled(items, y.items);
    case JObj(props) =>
      NulledObj(x, y);
      PropsNulled(props, y.props);
    case _ =>
  }

  lemma NulledArr(x: Json, y: Json)
    requires Nulled(x) == Nulled(y) && x.JArr?
    ensures y.JArr? && NulledSame(x.items, y.items)
  {
    assert |Nulled(x).items| == |Nulled(y).items|;
    forall i | 0 <= i < |x.items| ensures Nulled(x.items[i]) == Nulled(y.items[i]) {
      assert Nulled(x).items[i] == Nulled(y).items[i];
    }
  }

  lemma NulledObj(x: Json, y: Json)
    requires Nulled(x) == Nulled(y) && x.JObj?
    ensures y.JObj? && NulledSameProps(x.props, y.props)
  {
    assert |Nulled(x).props| == |Nulled(y).props|;
    forall i | 0 <= i < |x.props|
      ensures x.props[i].0 == y.props[i].0 && Nulled(x.props[i].1) == Nulled(y.props[i].1)
    {
      assert Nulled(x).props[i] == Nulled(y).props[i];
    }
  }

  lemma {:induction false} ItemsNulled(xs: seq<Json>, ys: seq<Json>)
    requires NulledSame(xs, ys)
    ensures ItemsText(xs) == ItemsText(ys)
    decreases xs, 0
  {
    if |xs| > 0 {
      TextNulled(xs[0], ys[0]);
      ItemsNulled(xs[1..], ys[1..]);
    }
  }

  lemma {:induction false} PropsNulled(xs: Props, ys: Props)
    requires NulledSameProps(xs, ys)
    ensures PropsText(xs) == PropsText(ys)
    decreases xs, 0
  {
    if |xs| > 0 {
      PropNulled(xs[0], ys[0]);
      PropsNulled(xs[1..], ys[1..]);
    }
  }

  lemma {:induction false} PropNulled(a: (string, Json), b: (string, Json))
    requires a.0 == b.0 && Nulled(a.1) == Nulled(b.1)
    ensures PropText(a) == PropText(b)
    decreases a, 2
  {
    TextNulled(a.1, b.1);
  }

  /** Two values print the same text exactly if they are the same, property order included, where an
      infinite number counts as null. */
  lemma TextInjective(x: Json, y: Json)
    ensures Text(x) == Text(y) <==> Nulled(x) == Nulled(y)
  {
    if Text(x) == Text(y) {
      assert Text(x) + "" == Text(x) && Text(y) + "" == Text(y);
      TextPrefix(x, y, "", "");
    }
    if Nulled(x) == Nulled(y) { TextNulled(x, y); }
  }

  /** The texts of small values, written out. */
  lemma TextsAre(x: Json, y: Json)
    ensures Text(JNull) == "null" && Text(JBool(true)) == "true" && Text(JBool(false)) == "false"
    ensures Text(JInfinite(true)) == "null" && Text(JNum("1e+21")) == "1e+21"
    ensures Text(JArr([])) == "[]" && Text(JObj([])) == "{}"
    ensures Text(JArr([x, y])) == "[" + (Text(x) + "," + Text(y)) + "]"
  {
    hide Quote;
    assert [x, y][1..] == [y];
    ItemsFirst([y]);
    ItemsFirst([x, y]);
  }

  lemma ObjectTextIs(k: string, x: Json, l: string, y: Json)
    ensures Text(JObj([(k, x), (l, y)])) == "{" + (Quote(k) + ":" + Text(x) + "," + (Quote(l) + ":" + Text(y))) + "}"
  {
    hide Quote;
    var a, b := (k, x), (l, y);
    assert [a, b][1..] == [b];
    assert PropsText([b]) == PropText(b);
    assert PropsText([a, b]) == PropText(a) + "," + PropText(b);
    assert PropText(a) == Quote(k) + ":" + Text(x) && PropText(b) == Quote(l) + ":" + Text(y);
  }

  lemma EscapesAre()
    ensures Escape('"') == "\\\"" && Escape('\\') == "\\\\" && Escape('\n') == "\\n" && Escape('\t') == "\\t"
    ensures Escape('\r') == "\\r" && Escape('\U{0008}') == "\\b" && Escape('\U{000C}') == "\\f"
    ensures Escape('\U{0001}') == "\\u0001" && Escape('\U{001F}') == "\\u001f" && Escape('/') == "/"
    ensures Quote("") == "\"\""
  {
  }
}
