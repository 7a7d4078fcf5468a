/** parseStripeSignature: the t and v1 entries of a signature header. */
module StripeSignature {
  import opened Wrappers

  /** What String.prototype.trim removes (section 22.1.3.32 of ECMA-262). */
  predicate IsSpace(c: char) {
    || c as int in {0x09, 0x0A, 0x0B, 0x0C, 0x0D, 0x20, 0xA0, 0x1680, 0x2028, 0x2029, 0x202F, 0x205F, 0x3000, 0xFEFF}
    || 0x2000 <= c as int <= 0x200A
  }

  predicate Free(s: string, c: char) {
    forall i | 0 <= i < |s| :: s[i] != c
  }

  predicate Spaces(s: string) {
    forall i | 0 <= i < |s| :: IsSpace(s[i])
  }

  predicate NoSpaces(s: string) {
    forall i | 0 <= i < |s| :: !IsSpace(s[i])
  }

  /** String.prototype.split with a one-character separator. */
  function Split(s: string, c: char): (parts: seq<string>)
    ensures |parts| > 0
  {
    if |s| == 0 then [""]
    else
      var rest := Split(s[1..], c);
      if s[0] == c then [""] + rest else [[s[0]] + rest[0]] + rest[1..]
  }

  function TrimStart(s: string): string {
    if |s| > 0 && IsSpace(s[0]) then TrimStart(s[1..]) else s
  }

  function TrimEnd(s: string): string {
    if |s| > 0 && IsSpace(s[|s| - 1]) then TrimEnd(s[..|s| - 1]) else s
  }

  function Trim(s: string): string {
    TrimEnd(TrimStart(s))
  }

  /** The key and value of a part, if it has both. */
  function Entry(part: string): Option<(string, string)> {
    var kv := Split(Trim(part), '=');
    if |kv| < 2 || kv[0] == "" || kv[1] == "" then None else Some((kv[0], kv[1]))
  }

  function Push(values: map<string, seq<string>>, key: string, value: string): map<string, seq<string>> {
    values[key := (if key in values then values[key] else []) + [value]]
  }

  function Collect(parts: seq<string>, n: nat): map<string, seq<string>>
    requires n <= |parts|
  {
    if n == 0 then map[]
    else
      var values, entry := Collect(parts, n - 1), Entry(parts[n - 1]);
      if entry.None? then values else Push(values, entry.value.0, entry.value.1)
  }

  function FirstValue(values: map<string, seq<string>>, key: string): Option<string> {
    if key in values && |values[key]| > 0 then Some(values[key][0]) else None
  }

  datatype Parsed = Parsed(timestamp: Option<string>, signature: Option<string>)

  function Parse(header: string): Parsed {
    var parts := Split(header, ',');
    var values := Collect(parts, |parts|);
    Parsed(FirstValue(values, "t"), FirstValue(values, "v1"))
  }

  method ParseStripeSignature(header: string) returns (parsed: Parsed)
    ensures parsed == Parse(header)
  {
    var parts := Split(header, ',');
    var values: map<string, seq<string>> := map[];
    for i := 0 to |parts|
      invariant values == Collect(parts, i)
    {
      var kv := Split(Trim(parts[i]), '=');
      if |kv| < 2 || kv[0] == "" || kv[1] == "" {
        continue;
      }
      var existing := if kv[0] in values then values[kv[0]] else [];
      values := values[kv[0] := existing + [kv[1]]];
    }
    parsed := Parsed(FirstValue(values, "t"), FirstValue(values, "v1"));
  }

  /* ----- printing ----- */

  /** A part of a header: a key and a value with spaces around them, and perhaps more behind a second
      '=', which is not read; or text without '='. */
  datatype Part = Pair(before: string, key: string, value: string, rest: string, after: string) | Noise(text: string)

  predicate Plain(s: string) {
    |s| > 0 && Free(s, ',') && Free(s, '=') && NoSpaces(s)
  }

  predicate Printable(p: Part) {
    match p
    case Pair(before, key, value, rest, after) =>
      && Spaces(before) && Plain(key) && Plain(value) && Spaces(after)
      && Free(rest, ',') && NoSpaces(rest) && (rest == "" || rest[0] == '=')
    case Noise(text) => Free(text, ',') && Free(text, '=')
  }

  function Print(p: Part): string {
    match p
    case Pair(before, key, value, rest, after) => before + (key + ['='] + (value + rest)) + after
    case Noise(text) => text
  }

  function Header(parts: seq<Part>): string
    requires |parts| > 0
  {
    if |parts| == 1 then Print(parts[0]) else Print(parts[0]) + [','] + Header(parts[1..])
  }

  /** The value of the first pair with that key. */
  function FirstOf(parts: seq<Part>, key: string): Option<string> {
    if |parts| == 0 then None
    else if parts[0].Pair? && parts[0].key == key then Some(parts[0].value)
    else FirstOf(parts[1..], key)
  }

  /* ----- parsing what was printed ----- */

  lemma {:induction false} SplitFree(s: string, c: char)
    requires Free(s, c)
    ensures Split(s, c) == [s]
  {
    if |s| > 0 {
      SplitFree(s[1..], c);
      assert s == [s[0]] + s[1..];
    }
  }

  lemma {:induction false} SplitAt(a: string, c: char, b: string)
    requires Free(a, c)
    ensures Split(a + [c] + b, c) == [a] + Split(b, c)
  {
    var s := a + [c] + b;
    if |a| > 0 {
      SplitAt(a[1..], c, b);
      assert s[1..] == a[1..] + [c] + b;
      assert a == [a[0]] + a[1..];
    } else {
      assert s[1..] == b;
    }
  }

  lemma {:induction false} TrimSpaces(before: string, core: string, after: string)
    requires Spaces(before) && Spaces(after) && |core| > 0 && NoSpaces(core)
    ensures Trim(before + core + after) == core
  {
    TrimStartSpaces(before, core + after);
    assert before + core + after == before + (core + after);
    TrimEndSpaces(core, after);
  }

  lemma {:induction false} TrimStartSpaces(before: string, rest: string)
    requires Spaces(before) && |rest| > 0 && !IsSpace(rest[0])
    ensures TrimStart(before + rest) == rest
  {
    if |before| > 0 {
      TrimStartSpaces(before[1..], rest);
      assert (before + rest)[1..] == before[1..] + rest;
    } else {
      assert before + rest == rest;
    }
  }

  lemma {:induction false} TrimEndSpaces(core: string, after: string)
    requires Spaces(after) && |core| > 0 && !IsSpace(core[|core| - 1])
    ensures TrimEnd(core + after) == core
  {
    if |after| > 0 {
      var last := |after| - 1;
      TrimEndSpaces(core, after[..last]);
      assert (core + after)[..|core| + last] == core + after[..last];
    } else {
      assert core + after == core;
    }
  }

  lemma {:induction false} TrimStartFree(s: string, c: char)
    requires Free(s, c)
    ensures Free(TrimStart(s), c)
  {
    if |s| > 0 { TrimStartFree(s[1..], c); }
  }

  lemma {:induction false} TrimEndFree(s: string, c: char)
    requires Free(s, c)
    ensures Free(TrimEnd(s), c)
  {
    if |s| > 0 { TrimEndFree(s[..|s| - 1], c); }
  }

  lemma EntryPrint(p: Part)
    requires Printable(p)
    ensures Entry(Print(p)) == if p.Pair? then Some((p.key, p.value)) else None
    ensures Free(Print(p), ',')
  {
    hide Trim, Split, IsSpace;
    match p {
      case Pair(before, key, value, rest, after) =>
        SpacesFree(before);
        SpacesFree(after);
        EqualsIsNoSpace();
        TrimSpaces(before, key + ['='] + (value + rest), after);
        SplitAt(key, '=', value + rest);
        SplitValue(value, rest);
      case Noise(text) =>
        TrimStartFree(text, '=');
        TrimEndFree(TrimStart(text), '=');
        TrimIs(text);
        SplitFree(Trim(text), '=');
    }
  }

  lemma SplitValue(value: string, rest: string)
    requires Free(value, '=') && (rest == "" || rest[0] == '=')
    ensures Split(value + rest, '=')[0] == value
  {
    if rest == "" {
      assert value + rest == value;
      SplitFree(value, '=');
    } else {
      SplitAt(value, '=', rest[1..]);
      assert value + ['='] + rest[1..] == value + rest;
    }
  }

  lemma TrimIs(s: string)
    ensures Trim(s) == TrimEnd(TrimStart(s))
  {
  }

  lemma EqualsIsNoSpace()
    ensures !IsSpace('=')
  {
  }

  lemma SpacesFree(s: string)
    requires Spaces(s)
    ensures Free(s, ',')
  {
  }

  lemma {:induction false} SplitHeader(parts: seq<Part>)
    requires |parts| > 0 && forall i | 0 <= i < |parts| :: Printable(parts[i])
    ensures Split(Header(parts), ',') == seq(|parts|, i requires 0 <= i < |parts| => Print(parts[i]))
  {
    hide Print, Printable, Split;
    EntryPrint(parts[0]);
    if |parts| == 1 {
      SplitFree(Print(parts[0]), ',');
    } else {
      SplitHeader(parts[1..]);
      SplitAt(Print(parts[0]), ',', Header(parts[1..]));
    }
  }

  lemma {:induction false} FirstOfLast(parts: seq<Part>, key: string)
    requires |parts| > 0
    ensures var before, p := parts[..|parts| - 1], parts[|parts| - 1];
      FirstOf(parts, key) == if FirstOf(before, key).Some? then FirstOf(before, key)
                             else if p.Pair? && p.key == key then Some(p.value) else None
  {
    if |parts| > 1 {
      FirstOfLast(parts[1..], key);
      assert parts[..|parts| - 1][1..] == parts[1..][..|parts| - 2];
    }
  }

  lemma {:induction false} CollectFirst(texts: seq<string>, parts: seq<Part>, n: nat, key: string)
    requires n <= |parts| == |texts|
    requires forall i | 0 <= i < n ::
      Entry(texts[i]) == if parts[i].Pair? then Some((parts[i].key, parts[i].value)) else None
    ensures FirstValue(Collect(texts, n), key) == FirstOf(parts[..n], key)
    ensures key in Collect(texts, n) ==> |Collect(texts, n)[key]| > 0
  {
    hide Entry;
    if n > 0 {
      CollectFirst(texts, parts, n - 1, key);
      FirstOfLast(parts[..n], key);
      assert parts[..n][..n - 1] == parts[..n - 1];
    }
  }

  /** Parsing a header printed from any list of pairs, with spaces around them and text without '='
      between them, gives the value of the first t and of the first v1, whatever else there is. */
  lemma ParsePrinted(parts: seq<Part>)
    requires |parts| > 0 && forall i | 0 <= i < |parts| :: Printable(parts[i])
    ensures Parse(Header(parts)) == Parsed(FirstOf(parts, "t"), FirstOf(parts, "v1"))
  {
    hide Split, Entry, Print, Printable, Header, Collect;
    var texts := Split(Header(parts), ',');
    SplitHeader(parts);
    forall i | 0 <= i < |parts|
      ensures Entry(texts[i]) == if parts[i].Pair? then Some((parts[i].key, parts[i].value)) else None
    {
      EntryPrint(parts[i]);
    }
    CollectFirst(texts, parts, |parts|, "t");
    CollectFirst(texts, parts, |parts|, "v1");
    assert parts[..|parts|] == parts;
  }

  /** Blanks, tabs and line ends are spaces, and no visible ASCII character is. */
  lemma SpacesAre(c: char)
    ensures IsSpace(' ') && IsSpace('\t') && IsSpace('\n') && IsSpace('\r')
    ensures '!' <= c <= '~' ==> !IsSpace(c)
  {
  }
}
