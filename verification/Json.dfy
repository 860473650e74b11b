/** JSON values and their text (packages/sip-protocol/src/sip_protocol/canonical.py). */
module Json {
  import opened Prelude
  import opened DecimalText

  /**
   * A float is kept as the text repr gives it; an object as its members in insertion order. JLone is a
   * string that holds lone surrogates, or an object with such a key, shown with U+FFFD in their place:
   * JSON text may spell them, but UTF-8 cannot encode them.
   */
  datatype Json =
    | JNull
    | JBool(b: bool)
    | JInt(i: int)
    | JFloat(text: string)
    | JStr(s: string)
    | JArr(items: seq<Json>)
    | JObj(members: seq<Member>)
    | JLone(shown: Json)

  datatype Member = Member(key: string, value: Json)

  predicate NumberChar(c: char) {
    IsDigit(c) || c == '-' || c == '+' || c == '.' || c == 'e'
  }

  /** The texts of finite floats: number characters with a point or an exponent. */
  predicate FloatText(t: string) {
    && t != "" && (IsDigit(t[0]) || t[0] == '-')
    && (forall i :: 0 <= i < |t| ==> NumberChar(t[i]))
    && ('.' in t || 'e' in t)
  }

  predicate DistinctKeys(ms: seq<Member>) {
    forall i, j :: 0 <= i < j < |ms| ==> ms[i].key != ms[j].key
  }

  /** What canonical_json accepts: finite floats, no lone surrogates, and dictionaries with one value per key. */
  predicate Valid(j: Json) {
    match j
    case JLone(_) => false
    case JFloat(t) => FloatText(t)
    case JArr(items) => forall i :: 0 <= i < |items| ==> Valid(items[i])
    case JObj(ms) => DistinctKeys(ms) && forall i :: 0 <= i < |ms| ==> Valid(ms[i].value)
    case _ => true
  }

  /**
   * The same value: equal leaf by leaf, with the members of objects in any order. Finer than Python's
   * ==, which identifies 1, 1.0 and True although their texts differ.
   */
  ghost predicate SameValue(x: Json, y: Json) {
    match (x, y)
    case (JArr(a), JArr(b)) => |a| == |b| && forall i :: 0 <= i < |a| ==> SameValue(a[i], b[i])
    case (JObj(a), JObj(b)) =>
      && |a| == |b|
      && forall i :: 0 <= i < |a| ==> exists j :: 0 <= j < |b| && a[i].key == b[j].key && SameValue(a[i].value, b[j].value)
    case _ => x == y
  }

  function Get(ms: seq<Member>, key: string): Option<Json> {
    if ms == [] then None else if ms[0].key == key then Some(ms[0].value) else Get(ms[1..], key)
  }

  lemma {:induction false} GetAt(ms: seq<Member>, i: nat)
    requires i < |ms| && forall j :: 0 <= j < i ==> ms[j].key != ms[i].key
    ensures Get(ms, ms[i].key) == Some(ms[i].value)
  {
    if i > 0 {
      GetAt(ms[1..], i - 1);
    }
  }

  /** isinstance(value, str) */
  predicate IsText(j: Json) {
    j.JStr? || (j.JLone? && j.shown.JStr?)
  }

  type JText = j: Json | IsText(j)
    witness JStr("")

  /** The characters of a text, with U+FFFD for a lone surrogate. */
  function Shown(j: JText): string {
    if j.JStr? then j.s else j.shown.s
  }

  /** The members of a dict, None for any other value. */
  function Dict(j: Json): Option<seq<Member>> {
    match j
    case JObj(ms) => Some(ms)
    case JLone(JObj(ms)) => Some(ms)
    case _ => None
  }

  /** value.get(key) on a dict; JNull stands for None, which any other value gives here too. */
  function Field(j: Json, key: string): Json {
    var ms := Dict(j);
    if ms.Some? && Get(ms.value, key).Some? then Get(ms.value, key).value else JNull
  }

  /** Looking up a key in an object listed in full. */
  lemma FieldAt(ms: seq<Member>, i: nat)
    requires i < |ms| && forall j :: 0 <= j < i ==> ms[j].key != ms[i].key
    ensures Field(JObj(ms), ms[i].key) == ms[i].value
  {
    GetAt(ms, i);
  }

  // ---------------------------------------------------------------- printing

  function IntText(i: int): string {
    if i < 0 then "-" + NatText(-i) else NatText(i)
  }

  function HexChar(d: nat): char
    requires d < 16
  {
    if d < 10 then (48 + d) as char else (87 + d) as char
  }

  /** How one character appears between quotes, with ensure_ascii=False. */
  function EscapeChar(c: char): (s: string)
    ensures s != ""
  {
    var p := c as int;
    if c == '"' then "\\\""
    else if c == '\\' then "\\\\"
    else if p == 10 then "\\n"
    else if p == 13 then "\\r"
    else if p == 9 then "\\t"
    else if p == 12 then "\\f"
    else if p == 8 then "\\b"
    else if p < 32 then "\\u00" + [HexChar(p / 16), HexChar(p % 16)]
    else [c]
  }

  function Escape(s: string): string {
    if s == "" then "" else EscapeChar(s[0]) + Escape(s[1..])
  }

  /** Compact text, members in the order given. */
  function Print(j: Json): string {
    match j
    case JNull => "null"
    case JBool(b) => if b then "true" else "false"
    case JInt(i) => IntText(i)
    case JFloat(t) => t
    case JStr(s) => "\"" + Escape(s) + "\""
    case JArr(items) => "[" + PrintItems(items) + "]"
    case JObj(ms) => "{" + PrintMembers(ms) + "}"
    case JLone(_) => ""            // not encodable
  }

  function PrintItems(items: seq<Json>): string {
    if items == [] then ""
    else Print(items[0]) + if |items| == 1 then "" else "," + PrintItems(items[1..])
  }

  function PrintMember(m: Member): string {
    "\"" + Escape(m.key) + "\":" + Print(m.value)
  }

  function PrintMembers(ms: seq<Member>): string {
    if ms == [] then ""
    else PrintMember(ms[0]) + if |ms| == 1 then "" else "," + PrintMembers(ms[1..])
  }

  // ---------------------------------------------------------------- reading back

  function HexValue(c: char): Option<nat> {
    if '0' <= c <= '9' then Some(c as int - 48)
    else if 'a' <= c <= 'f' then Some(c as int - 87)
    else None
  }

  /** The character an escape sequence after the backslash stands for, and its length; only the shortest is read. */
  function Unescape(s: string): Option<(char, nat)> {
    if s == "" then None
    else if s[0] == '"' then Some(('"', 1))
    else if s[0] == '\\' then Some(('\\', 1))
    else if s[0] == 'n' then Some((10 as char, 1))
    else if s[0] == 'r' then Some((13 as char, 1))
    else if s[0] == 't' then Some((9 as char, 1))
    else if s[0] == 'f' then Some((12 as char, 1))
    else if s[0] == 'b' then Some((8 as char, 1))
    else if |s| >= 5 && s[..3] == "u00" && HexValue(s[3]).Some? && HexValue(s[4]).Some? then
      var p := 16 * HexValue(s[3]).value + HexValue(s[4]).value;
      if p < 32 && p !in {8, 9, 10, 12, 13} then Some((p as char, 5)) else None
    else None
  }

  /** The rest of a string after its opening quote. */
  function ParseString(s: string): (r: Option<(string, string)>)
    ensures r.Some? ==> |r.value.1| < |s|
    decreases |s|
  {
    if s == "" then None
    else if s[0] == '"' then Some(("", s[1..]))
    else if s[0] == '\\' then
      var u := Unescape(s[1..]);
      if u.None? || u.value.1 > |s| - 1 then None
      else
        var r := ParseString(s[1 + u.value.1..]);
        if r.None? then None else Some(([u.value.0] + r.value.0, r.value.1))
    else
      var r := ParseString(s[1..]);
      if r.None? then None else Some(([s[0]] + r.value.0, r.value.1))
  }

  /** The longest run of number characters. */
  function NumberRun(s: string): (n: nat)
    ensures n <= |s|
  {
    if s == "" || !NumberChar(s[0]) then 0 else 1 + NumberRun(s[1..])
  }

  function ParseNumber(t: string): Option<Json> {
    if FloatText(t) then Some(JFloat(t))
    else if t != "" && t[0] == '-' then
      var n := ParseNat(t[1..]);
      if n.None? || n.value == 0 then None else Some(JInt(0 - n.value))
    else
      var n := ParseNat(t);
      if n.None? then None else Some(JInt(n.value))
  }

  function ParseValue(s: string): (r: Option<(Json, string)>)
    ensures r.Some? ==> |r.value.1| < |s|
    decreases |s|, 1
  {
    if s == "" then None
    else if s[0] == 'n' then if "null" <= s then Some((JNull, s[4..])) else None
    else if s[0] == 't' then if "true" <= s then Some((JBool(true), s[4..])) else None
    else if s[0] == 'f' then if "false" <= s then Some((JBool(false), s[5..])) else None
    else if s[0] == '"' then
      var r := ParseString(s[1..]);
      if r.None? then None else Some((JStr(r.value.0), r.value.1))
    else if s[0] == '[' then
      if |s| > 1 && s[1] == ']' then Some((JArr([]), s[2..]))
      else
        var r := ParseItems(s[1..]);
        if r.None? then None else Some((JArr(r.value.0), r.value.1))
    else if s[0] == '{' then
      if |s| > 1 && s[1] == '}' then Some((JObj([]), s[2..]))
      else
        var r := ParseMembers(s[1..]);
        if r.None? then None else Some((JObj(r.value.0), r.value.1))
    else
      var n := NumberRun(s);
      var r := ParseNumber(s[..n]);
      if n == 0 || r.None? then None else Some((r.value, s[n..]))
  }

  /** Items up to and including the closing bracket. */
  function ParseItems(s: string): (r: Option<(seq<Json>, string)>)
    ensures r.Some? ==> |r.value.1| < |s|
    decreases |s|, 2
  {
    var v := ParseValue(s);
    if v.None? || v.value.1 == "" then None
    else if v.value.1[0] == ']' then Some(([v.value.0], v.value.1[1..]))
    else if v.value.1[0] == ',' then
      var r := ParseItems(v.value.1[1..]);
      if r.None? then None else Some(([v.value.0] + r.value.0, r.value.1))
    else None
  }

  function ParseMember(s: string): (r: Option<(Member, string)>)
    ensures r.Some? ==> |r.value.1| < |s|
    decreases |s|, 2
  {
    if s == "" || s[0] != '"' then None
    else
      var k := ParseString(s[1..]);
      if k.None? || k.value.1 == "" || k.value.1[0] != ':' then None
      else
        var v := ParseValue(k.value.1[1..]);
        if v.None? then None else Some((Member(k.value.0, v.value.0), v.value.1))
  }

  function ParseMembers(s: string): (r: Option<(seq<Member>, string)>)
    ensures r.Some? ==> |r.value.1| < |s|
    decreases |s|, 3
  {
    var m := ParseMember(s);
    if m.None? || m.value.1 == "" then None
    else if m.value.1[0] == '}' then Some(([m.value.0], m.value.1[1..]))
    else if m.value.1[0] == ',' then
      var r := ParseMembers(m.value.1[1..]);
      if r.None? then None else Some(([m.value.0] + r.value.0, r.value.1))
    else None
  }

  // ---------------------------------------------------------------- the parser undoes the printer

  lemma HexRoundTrip(d: nat)
    requires d < 16
    ensures HexValue(HexChar(d)) == Some(d)
  {
    assert HexChar(d) as int == if d < 10 then 48 + d else 87 + d;
  }

  lemma EscapeRoundTrip(c: char, rest: string)
    ensures var e := EscapeChar(c);
            || (e == [c] && c != '"' && c != '\\')
            || (|e| > 1 && e[0] == '\\' && Unescape(e[1..] + rest) == Some((c, |e| - 1)))
  {
    var p := c as int;
    var e := EscapeChar(c);
    if e != [c] {
      var s := e[1..] + rest;
      assert s[0] == e[1];
      if p < 32 && p != 10 && p != 13 && p != 9 && p != 12 && p != 8 {
        HexRoundTrip(p / 16);
        HexRoundTrip(p % 16);
        assert e[1..] == "u00" + [HexChar(p / 16), HexChar(p % 16)];
        assert s[..3] == "u00" && s[3] == HexChar(p / 16) && s[4] == HexChar(p % 16);
      }
    }
  }

  lemma ParsePlain(c: char, tail: string)
    requires c != '"' && c != '\\' && ParseString(tail).Some?
    ensures ParseString([c] + tail) == Some(([c] + ParseString(tail).value.0, ParseString(tail).value.1))
  {
    assert ([c] + tail)[1..] == tail;
  }

  lemma ParseEscaped(e: string, c: char, tail: string)
    requires |e| > 1 && e[0] == '\\' && Unescape(e[1..] + tail) == Some((c, |e| - 1)) && ParseString(tail).Some?
    ensures ParseString(e + tail) == Some(([c] + ParseString(tail).value.0, ParseString(tail).value.1))
  {
    hide Unescape;
    var text := e + tail;
    assert text[1..] == e[1..] + tail && text[|e|..] == tail && text[0] == '\\';
  }

  lemma {:induction false} StringRoundTrip(s: string, rest: string)
    ensures ParseString(Escape(s) + "\"" + rest) == Some((s, rest))
  {
    hide ParseString, EscapeChar, Unescape;
    var text := Escape(s) + "\"" + rest;
    if s == "" {
      CloseQuote(rest);
      assert text == "\"" + rest;
    } else {
      var e, tail := EscapeChar(s[0]), Escape(s[1..]) + "\"" + rest;
      assert text == e + tail;
      StringRoundTrip(s[1..], rest);
      EscapeRoundTrip(s[0], tail);
      assert s == [s[0]] + s[1..];
      if e == [s[0]] && s[0] != '"' && s[0] != '\\' {
        ParsePlain(s[0], tail);
      } else {
        ParseEscaped(e, s[0], tail);
      }
    }
  }

  lemma CloseQuote(rest: string)
    ensures ParseString("\"" + rest) == Some(("", rest))
  {
    assert ("\"" + rest)[1..] == rest;
  }

  lemma {:induction false} RunStops(t: string, rest: string)
    requires forall i :: 0 <= i < |t| ==> NumberChar(t[i])
    requires rest == "" || !NumberChar(rest[0])
    ensures NumberRun(t + rest) == |t|
  {
    if t == "" {
      assert t + rest == rest;
    } else {
      RunStops(t[1..], rest);
      assert (t + rest)[1..] == t[1..] + rest;
    }
  }

  lemma IntRoundTrip(i: int)
    ensures var t := IntText(i);
            && t != "" && (IsDigit(t[0]) || t[0] == '-') && (forall k :: 0 <= k < |t| ==> NumberChar(t[k]))
            && ParseNumber(t) == Some(JInt(i))
  {
    var t := IntText(i);
    if i < 0 {
      NatRoundTrip(-i);
      assert t[1..] == NatText(-i);
    } else {
      NatRoundTrip(i);
    }
    assert !FloatText(t);
  }

  lemma NumberRoundTrip(t: string, j: Json, rest: string)
    requires t != "" && (IsDigit(t[0]) || t[0] == '-') && forall k :: 0 <= k < |t| ==> NumberChar(t[k])
    requires ParseNumber(t) == Some(j)
    requires rest == "" || !NumberChar(rest[0])
    ensures ParseValue(t + rest) == Some((j, rest))
  {
    RunStops(t, rest);
    assert (t + rest)[..|t|] == t && (t + rest)[|t|..] == rest;
  }

  lemma {:induction false} PrintHead(j: Json)
    requires Valid(j)
    ensures Print(j) != "" && Print(j)[0] != ']' && Print(j)[0] != '}'
  {
    if j.JInt? { IntRoundTrip(j.i); }
  }

  lemma ParseLiteral(j: Json, rest: string)
    requires j.JNull? || j.JBool?
    ensures ParseValue(Print(j) + rest) == Some((j, rest))
  {
    var text := Print(j) + rest;
    assert text[|Print(j)|..] == rest && Print(j) <= text;
  }

  lemma ParseQuoted(s: string, text: string, rest: string)
    requires ParseString(text) == Some((s, rest))
    ensures ParseValue("\"" + text) == Some((JStr(s), rest))
  {
    hide ParseString;
    assert ("\"" + text)[1..] == text;
  }

  lemma ParseBracket(items: seq<Json>, text: string, rest: string)
    requires text != "" && text[0] != ']' && ParseItems(text) == Some((items, rest))
    ensures ParseValue("[" + text) == Some((JArr(items), rest))
  {
    hide ParseItems;
    assert ("[" + text)[1..] == text;
  }

  lemma ParseBrace(ms: seq<Member>, text: string, rest: string)
    requires text != "" && text[0] != '}' && ParseMembers(text) == Some((ms, rest))
    ensures ParseValue("{" + text) == Some((JObj(ms), rest))
  {
    hide ParseMembers;
    assert ("{" + text)[1..] == text;
  }

  lemma ParseEmpty(rest: string)
    ensures ParseValue("[]" + rest) == Some((JArr([]), rest))
    ensures ParseValue("{}" + rest) == Some((JObj([]), rest))
  {
    assert ("[]" + rest)[2..] == rest && ("{}" + rest)[2..] == rest;
  }

  lemma {:induction false} ValueRoundTrip(j: Json, rest: string)
    requires Valid(j) && (rest == "" || !NumberChar(rest[0]))
    ensures ParseValue(Print(j) + rest) == Some((j, rest))
    decreases j, 1
  {
    hide ParseValue, ParseString, ParseItems, ParseMembers, Escape, NumberChar, FloatText;
    var text := Print(j) + rest;
    match j
    case JNull => ParseLiteral(j, rest);
    case JBool(b) => ParseLiteral(j, rest);
    case JInt(i) =>
      IntRoundTrip(i);
      NumberRoundTrip(IntText(i), j, rest);
    case JFloat(t) => FloatRoundTrip(t, rest);
    case JStr(s) =>
      StringRoundTrip(s, rest);
      ParseQuoted(s, Escape(s) + "\"" + rest, rest);
      assert text == "\"" + (Escape(s) + "\"" + rest);
    case JArr(items) =>
      ParseEmpty(rest);
      if items == [] {
        assert text == "[]" + rest;
      } else {
        PrintHead(items[0]);
        ItemsRoundTrip(items, rest);
        ParseBracket(items, PrintItems(items) + "]" + rest, rest);
        assert text == "[" + (PrintItems(items) + "]" + rest);
      }
    case JObj(ms) =>
      ParseEmpty(rest);
      if ms == [] {
        assert text == "{}" + rest;
      } else {
        MembersRoundTrip(ms, rest);
        ParseBrace(ms, PrintMembers(ms) + "}" + rest, rest);
        assert text == "{" + (PrintMembers(ms) + "}" + rest);
      }
  }

  lemma FloatRoundTrip(t: string, rest: string)
    requires FloatText(t) && (rest == "" || !NumberChar(rest[0]))
    ensures ParseValue(t + rest) == Some((JFloat(t), rest))
  {
    NumberRoundTrip(t, JFloat(t), rest);
  }

  lemma ParseLastItem(text: string, j: Json, rest: string)
    requires ParseValue(text) == Some((j, "]" + rest))
    ensures ParseItems(text) == Some(([j], rest))
  {
    hide ParseValue;
    assert ("]" + rest)[1..] == rest;
  }

  lemma ParseNextItem(text: string, j: Json, tail: string, items: seq<Json>, rest: string)
    requires ParseValue(text) == Some((j, "," + tail)) && ParseItems(tail) == Some((items, rest))
    ensures ParseItems(text) == Some(([j] + items, rest))
  {
    hide ParseValue;
    assert ("," + tail)[1..] == tail;
  }

  lemma {:induction false} ItemsRoundTrip(items: seq<Json>, rest: string)
    requires items != [] && forall i :: 0 <= i < |items| ==> Valid(items[i])
    ensures ParseItems(PrintItems(items) + "]" + rest) == Some((items, rest))
    decreases items, 0
  {
    hide ParseValue, ParseItems, Print, Valid;
    var head := Print(items[0]);
    if |items| == 1 {
      ValueRoundTrip(items[0], "]" + rest);
      ParseLastItem(head + ("]" + rest), items[0], rest);
      assert PrintItems(items) + "]" + rest == head + ("]" + rest);
      assert items == [items[0]];
    } else {
      var tail := PrintItems(items[1..]) + "]" + rest;
      ValueRoundTrip(items[0], "," + tail);
      ItemsRoundTrip(items[1..], rest);
      ParseNextItem(head + ("," + tail), items[0], tail, items[1..], rest);
      assert PrintItems(items) + "]" + rest == head + ("," + tail);
      assert items == [items[0]] + items[1..];
    }
  }

  lemma {:induction false} MemberRoundTrip(m: Member, rest: string)
    requires Valid(m.value) && (rest == "" || !NumberChar(rest[0]))
    ensures ParseMember(PrintMember(m) + rest) == Some((m, rest))
    decreases m, 2
  {
    hide ParseValue, ParseString, Escape, Print, Valid, NumberChar;
    var text := PrintMember(m) + rest;
    var value := Print(m.value) + rest;
    var body := Escape(m.key) + "\"" + (":" + value);
    assert text == "\"" + body;
    assert text[1..] == body;
    StringRoundTrip(m.key, ":" + value);
    assert (":" + value)[1..] == value;
    ValueRoundTrip(m.value, rest);
  }

  lemma ParseLastMember(text: string, m: Member, rest: string)
    requires ParseMember(text) == Some((m, "}" + rest))
    ensures ParseMembers(text) == Some(([m], rest))
  {
    hide ParseMember;
    assert ("}" + rest)[1..] == rest;
  }

  lemma ParseNextMember(text: string, m: Member, tail: string, ms: seq<Member>, rest: string)
    requires ParseMember(text) == Some((m, "," + tail)) && ParseMembers(tail) == Some((ms, rest))
    ensures ParseMembers(text) == Some(([m] + ms, rest))
  {
    hide ParseMember;
    assert ("," + tail)[1..] == tail;
  }

  lemma {:induction false} MembersRoundTrip(ms: seq<Member>, rest: string)
    requires ms != [] && forall i :: 0 <= i < |ms| ==> Valid(ms[i].value)
    ensures ParseMembers(PrintMembers(ms) + "}" + rest) == Some((ms, rest))
    decreases ms, 0
  {
    hide ParseMember, ParseMembers, PrintMember, Valid;
    var head := PrintMember(ms[0]);
    if |ms| == 1 {
      MemberRoundTrip(ms[0], "}" + rest);
      ParseLastMember(head + ("}" + rest), ms[0], rest);
      assert PrintMembers(ms) + "}" + rest == head + ("}" + rest);
      assert ms == [ms[0]];
    } else {
      var tail := PrintMembers(ms[1..]) + "}" + rest;
      MemberRoundTrip(ms[0], "," + tail);
      MembersRoundTrip(ms[1..], rest);
      ParseNextMember(head + ("," + tail), ms[0], tail, ms[1..], rest);
      assert PrintMembers(ms) + "}" + rest == head + ("," + tail);
      assert ms == [ms[0]] + ms[1..];
    }
  }

  /** Printing is injective: the parser is its left inverse. */
  lemma PrintInjective(x: Json, y: Json)
    requires Valid(x) && Valid(y) && Print(x) == Print(y)
    ensures x == y
  {
    ValueRoundTrip(x, "");
    ValueRoundTrip(y, "");
    assert Print(x) + "" == Print(x) && Print(y) + "" == Print(y);
  }
}
