/** JSON values and the text `json.dumps` writes for them with its default settings: separators
    `", "` and `": "`, and `ensure_ascii`, so every character outside printable ASCII, and
    the quote and backslash, is escaped. Floats are not modelled. */
module Json {
  import opened Common

  datatype Json =
    | JNull
    | JBool(b: bool)
    | JInt(i: int)
    | JStr(s: string)
    | JArr(items: seq<Json>)
    | JObj(fields: seq<Field>)

  datatype Field = Field(key: string, value: Json)

  /** A character of the printable ASCII range, space to tilde. */
  predicate PrintableChar(c: char) {
    ' ' <= c <= '~'
  }

  predicate Printable(s: string) {
    forall k :: 0 <= k < |s| ==> PrintableChar(s[k])
  }

  lemma PrintableConcat(a: string, b: string)
    requires Printable(a) && Printable(b)
    ensures Printable(a + b)
  {
    forall k | 0 <= k < |a + b| ensures PrintableChar((a + b)[k]) {
      if k < |a| {
        assert (a + b)[k] == a[k];
      } else {
        assert (a + b)[k] == b[k - |a|];
      }
    }
  }

  function HexDigit(d: nat): (c: char)
    requires d < 16
    ensures PrintableChar(c)
  {
    if d < 10 then ('0' as int + d) as char else ('a' as int + d - 10) as char
  }

  /** Two lower-case hexadecimal digits. */
  function Hex2(n: nat): (r: string)
    requires n < 0x100
    ensures |r| == 2 && Printable(r)
  {
    [HexDigit(n / 16), HexDigit(n % 16)]
  }

  /** Four lower-case hexadecimal digits, as in `'\\u{0:04x}'`. */
  function Hex4(n: nat): (r: string)
    requires n < 0x10000
    ensures |r| == 4 && Printable(r)
  {
    PrintableConcat(Hex2(n / 0x100), Hex2(n % 0x100));
    Hex2(n / 0x100) + Hex2(n % 0x100)
  }

  /** The escape of one character inside a JSON string (`py_encode_basestring_ascii`): the
      short escapes, printable ASCII as itself, anything else as `\uXXXX`, with characters
      beyond the Basic Multilingual Plane written as a surrogate pair. */
  function EscapeChar(c: char): (r: string)
    ensures |r| > 0 && Printable(r)
    ensures PrintableChar(c) && c != '"' && c != '\\' ==> r == [c]
  {
    if c == '\\' then "\\\\"
    else if c == '"' then "\\\""
    else if c == '\n' then "\\n"
    else if c == '\r' then "\\r"
    else if c == '\t' then "\\t"
    else if c as int == 0x08 then "\\b"
    else if c as int == 0x0C then "\\f"
    else if PrintableChar(c) then [c]
    else if c as int < 0x10000 then
      PrintableConcat("\\u", Hex4(c as int));
      "\\u" + Hex4(c as int)
    else
      var n := c as int - 0x10000;
      var hi := 0xD800 + n / 0x400;
      var lo := 0xDC00 + n % 0x400;
      PrintableConcat("\\u", Hex4(hi));
      PrintableConcat("\\u", Hex4(lo));
      PrintableConcat("\\u" + Hex4(hi), "\\u" + Hex4(lo));
      "\\u" + Hex4(hi) + "\\u" + Hex4(lo)
  }

  function EscapeString(s: string): (r: string)
    ensures Printable(r)
    ensures |r| >= |s|
    decreases |s|
  {
    if |s| == 0 then ""
    else
      var rest := EscapeString(s[1..]);
      PrintableConcat(EscapeChar(s[0]), rest);
      EscapeChar(s[0]) + rest
  }

  function Quote(s: string): (r: string)
    ensures Printable(r)
    ensures |r| >= 2 && r[0] == '"' && r[|r| - 1] == '"'
  {
    PrintableConcat("\"", EscapeString(s));
    PrintableConcat("\"" + EscapeString(s), "\"");
    "\"" + EscapeString(s) + "\""
  }

  function NatToString(n: nat): (r: string)
    ensures |r| > 0 && Printable(r)
    decreases n
  {
    if n < 10 then [HexDigit(n)]
    else
      PrintableConcat(NatToString(n / 10), [HexDigit(n % 10)]);
      NatToString(n / 10) + [HexDigit(n % 10)]
  }

  function IntToString(i: int): (r: string)
    ensures |r| > 0 && Printable(r)
  {
    if i < 0 then
      PrintableConcat("-", NatToString(-i));
      "-" + NatToString(-i)
    else NatToString(i)
  }

  /** `sep.join(parts)`. */
  function Join(parts: seq<string>, sep: string): (r: string)
    ensures (forall i :: 0 <= i < |parts| ==> Printable(parts[i])) && Printable(sep) ==> Printable(r)
    decreases |parts|
  {
    if |parts| == 0 then ""
    else if |parts| == 1 then parts[0]
    else
      var rest := Join(parts[1..], sep);
      if (forall i :: 0 <= i < |parts| ==> Printable(parts[i])) && Printable(sep) then
        assert Printable(parts[0]);
        assert forall i :: 0 <= i < |parts[1..]| ==> Printable(parts[1..][i]) by {
          forall i | 0 <= i < |parts[1..]| ensures Printable(parts[1..][i]) {
            assert parts[1..][i] == parts[i + 1];
          }
        }
        PrintableConcat(parts[0], sep);
        PrintableConcat(parts[0] + sep, rest);
        parts[0] + sep + rest
      else
        parts[0] + sep + rest
  }

  /** `json.dumps(value)`: always printable ASCII, so in particular free of line breaks. */
  function Dumps(j: Json): (r: string)
    ensures |r| > 0 && Printable(r)
    decreases j, 1
  {
    match j
    case JNull => "null"
    case JBool(b) => if b then "true" else "false"
    case JInt(i) => IntToString(i)
    case JStr(s) => Quote(s)
    case JArr(items) =>
      var parts := DumpsItems(items);
      PrintableConcat("[", Join(parts, ", "));
      PrintableConcat("[" + Join(parts, ", "), "]");
      "[" + Join(parts, ", ") + "]"
    case JObj(fields) =>
      var parts := DumpsFields(fields);
      PrintableConcat("{", Join(parts, ", "));
      PrintableConcat("{" + Join(parts, ", "), "}");
      "{" + Join(parts, ", ") + "}"
  }

  function DumpsItems(items: seq<Json>): (parts: seq<string>)
    ensures |parts| == |items|
    ensures forall i :: 0 <= i < |parts| ==> Printable(parts[i])
    decreases items, 0
  {
    if |items| == 0 then []
    else
      var rest := DumpsItems(items[1..]);
      assert forall i :: 1 <= i < |items| + 0 ==> Printable(([Dumps(items[0])] + rest)[i]) by {
        forall i | 1 <= i < |items| ensures Printable(([Dumps(items[0])] + rest)[i]) {
          assert ([Dumps(items[0])] + rest)[i] == rest[i - 1];
        }
      }
      [Dumps(items[0])] + rest
  }

  /** `"key": value`, one member of an object. */
  function DumpsField(f: Field): (r: string)
    ensures Printable(r)
    decreases f, 2
  {
    PrintableConcat(Quote(f.key), ": ");
    PrintableConcat(Quote(f.key) + ": ", Dumps(f.value));
    Quote(f.key) + ": " + Dumps(f.value)
  }

  function DumpsFields(fields: seq<Field>): (parts: seq<string>)
    ensures |parts| == |fields|
    ensures forall i :: 0 <= i < |parts| ==> Printable(parts[i])
    decreases fields, 0
  {
    if |fields| == 0 then []
    else
      var rest := DumpsFields(fields[1..]);
      assert forall i :: 1 <= i < |fields| ==> Printable(([DumpsField(fields[0])] + rest)[i]) by {
        forall i | 1 <= i < |fields| ensures Printable(([DumpsField(fields[0])] + rest)[i]) {
          assert ([DumpsField(fields[0])] + rest)[i] == rest[i - 1];
        }
      }
      [DumpsField(fields[0])] + rest
  }

  /** A JSON text never contains a line break, so one `data:` line carries it whole. */
  lemma DumpsHasNoNewline(j: Json)
    ensures '\n' !in Dumps(j) && '\r' !in Dumps(j)
  {
  }

  /* Reading escapes back, as a JSON parser does inside a string. */

  function HexValue(c: char): (r: Option<nat>)
    ensures r.Some? ==> r.value < 16
  {
    if '0' <= c <= '9' then Some(c as int - '0' as int)
    else if 'a' <= c <= 'f' then Some(c as int - 'a' as int + 10)
    else if 'A' <= c <= 'F' then Some(c as int - 'A' as int + 10)
    else None
  }

  function ParseHex4(s: string): (r: Option<nat>)
    requires |s| == 4
    ensures r.Some? ==> r.value < 0x10000
  {
    match (HexValue(s[0]), HexValue(s[1]), HexValue(s[2]), HexValue(s[3]))
    case (Some(a), Some(b), Some(c), Some(d)) => Some(a * 0x1000 + b * 0x100 + c * 0x10 + d)
    case _ => None
  }

  lemma HexValueHexDigit(d: nat)
    requires d < 16
    ensures HexValue(HexDigit(d)) == Some(d)
  {
  }

  lemma {:induction false} ParseHex4Hex4(n: nat)
    requires n < 0x10000
    ensures ParseHex4(Hex4(n)) == Some(n)
  {
    var h := Hex4(n);
    var a, b := n / 0x100, n % 0x100;
    assert h == [HexDigit(a / 16), HexDigit(a % 16), HexDigit(b / 16), HexDigit(b % 16)];
    HexValueHexDigit(a / 16);
    HexValueHexDigit(a % 16);
    HexValueHexDigit(b / 16);
    HexValueHexDigit(b % 16);
    assert a / 16 * 0x1000 + a % 16 * 0x100 == a * 0x100;
    assert b / 16 * 0x10 + b % 16 == b;
  }

  /** The character a two-character escape `\x` stands for. */
  function ShortEscape(x: char): Option<char> {
    if x == '\\' then Some('\\')
    else if x == '"' then Some('"')
    else if x == '/' then Some('/')
    else if x == 'n' then Some('\n')
    else if x == 'r' then Some('\r')
    else if x == 't' then Some('\t')
    else if x == 'b' then Some(0x08 as char)
    else if x == 'f' then Some(0x0C as char)
    else None
  }

  function Prepend(c: char, o: Option<string>): (r: Option<string>)
    ensures r.Some? <==> o.Some?
    ensures r.Some? ==> r.value == [c] + o.value
  {
    if o.Some? then Some([c] + o.value) else None
  }

  /** The characters the escaped text `e` stands for; `None` for a malformed escape or a
      surrogate that is not part of a pair. */
  function Unescape(e: string): (r: Option<string>)
    decreases |e|
  {
    if |e| == 0 then Some("")
    else if e[0] != '\\' then Prepend(e[0], Unescape(e[1..]))
    else if |e| < 2 then None
    else if e[1] != 'u' then
      match ShortEscape(e[1])
      case Some(c) => Prepend(c, Unescape(e[2..]))
      case None => None
    else if |e| < 6 then None
    else
      match ParseHex4(e[2..6])
      case None => None
      case Some(v) =>
        if 0xDC00 <= v < 0xE000 then None
        else if v < 0xD800 || 0xE000 <= v then Prepend(v as char, Unescape(e[6..]))
        else if |e| < 12 || e[6..8] != "\\u" then None
        else
          match ParseHex4(e[8..12])
          case None => None
          case Some(w) =>
            if 0xDC00 <= w < 0xE000 then
              Prepend((0x10000 + (v - 0xD800) * 0x400 + (w - 0xDC00)) as char, Unescape(e[12..]))
            else None
  }

  lemma UnescapeShort(x: char, c: char, rest: string)
    requires x != 'u' && ShortEscape(x) == Some(c)
    ensures Unescape(['\\', x] + rest) == Prepend(c, Unescape(rest))
  {
    assert (['\\', x] + rest)[2..] == rest;
  }

  lemma UnescapeBasic(c: char, rest: string)
    requires c as int < 0x10000
    ensures Unescape("\\u" + Hex4(c as int) + rest) == Prepend(c, Unescape(rest))
  {
    var e := "\\u" + Hex4(c as int) + rest;
    ParseHex4Hex4(c as int);
    assert e[0] == '\\' && e[1] == 'u';
    assert e[2..6] == Hex4(c as int) && e[6..] == rest;
  }

  lemma SurrogatePair(c: char)
    requires 0x10000 <= c as int
    ensures 0xD800 <= 0xD800 + (c as int - 0x10000) / 0x400 < 0xDC00
    ensures 0xDC00 <= 0xDC00 + (c as int - 0x10000) % 0x400 < 0xE000
    ensures 0x10000 + (c as int - 0x10000) / 0x400 * 0x400 + (c as int - 0x10000) % 0x400 == c as int
  {
  }

  lemma UnescapePair(c: char, rest: string)
    requires 0x10000 <= c as int
    ensures var n := c as int - 0x10000;
            Unescape("\\u" + Hex4(0xD800 + n / 0x400) + "\\u" + Hex4(0xDC00 + n % 0x400) + rest)
            == Prepend(c, Unescape(rest))
  {
    var n := c as int - 0x10000;
    SurrogatePair(c);
    var hi := 0xD800 + n / 0x400;
    var lo := 0xDC00 + n % 0x400;
    ParseHex4Hex4(hi);
    ParseHex4Hex4(lo);
    var e := "\\u" + Hex4(hi) + "\\u" + Hex4(lo) + rest;
    assert e[0] == '\\' && e[1] == 'u';
    assert e[2..6] == Hex4(hi) && e[6..8] == "\\u" && e[8..12] == Hex4(lo) && e[12..] == rest;
  }

  lemma {:induction false} UnescapeEscapeChar(c: char, rest: string)
    ensures Unescape(EscapeChar(c) + rest) == Prepend(c, Unescape(rest))
  {
    if c == '\\' {
      UnescapeShort('\\', c, rest);
    } else if c == '"' {
      UnescapeShort('"', c, rest);
    } else if c == '\n' {
      UnescapeShort('n', c, rest);
    } else if c == '\r' {
      UnescapeShort('r', c, rest);
    } else if c == '\t' {
      UnescapeShort('t', c, rest);
    } else if c as int == 0x08 {
      UnescapeShort('b', c, rest);
    } else if c as int == 0x0C {
      UnescapeShort('f', c, rest);
    } else if PrintableChar(c) {
      assert ([c] + rest)[1..] == rest;
    } else if c as int < 0x10000 {
      UnescapeBasic(c, rest);
    } else {
      UnescapePair(c, rest);
    }
  }

  /** Reading the escapes of a string back gives the string: the escaping loses nothing. */
  lemma {:induction false} UnescapeEscapeString(s: string)
    ensures Unescape(EscapeString(s)) == Some(s)
    decreases |s|
  {
    if |s| > 0 {
      UnescapeEscapeString(s[1..]);
      UnescapeEscapeChar(s[0], EscapeString(s[1..]));
      assert [s[0]] + s[1..] == s;
    }
  }

  /** The object has a member named `key`. */
  predicate HasKey(fields: seq<Field>, key: string) {
    exists i :: 0 <= i < |fields| && fields[i].key == key
  }

  /** `obj.get(key, default)` on the dict `json.loads` builds from an object's members: a
      repeated name keeps its last value. */
  function Get(fields: seq<Field>, key: string, default: Json): (v: Json)
    ensures !HasKey(fields, key) ==> v == default
    ensures HasKey(fields, key) ==>
              exists i :: 0 <= i < |fields| && fields[i].key == key && v == fields[i].value
                          && forall j :: i < j < |fields| ==> fields[j].key != key
    decreases |fields|
  {
    if |fields| == 0 then default
    else if fields[|fields| - 1].key == key then fields[|fields| - 1].value
    else
      var init := fields[..|fields| - 1];
      assert forall i :: 0 <= i < |init| ==> init[i] == fields[i];
      Get(init, key, default)
  }

  /** A member appended under another name does not change a lookup. */
  lemma GetSkipsLast(fields: seq<Field>, f: Field, key: string, default: Json)
    requires f.key != key
    ensures Get(fields + [f], key, default) == Get(fields, key, default)
  {
    assert (fields + [f])[..|fields|] == fields;
  }

  /** A member appended under the name looked up decides the lookup. */
  lemma GetLast(fields: seq<Field>, f: Field, key: string, default: Json)
    requires f.key == key
    ensures Get(fields + [f], key, default) == f.value
  {
  }

  lemma HasKeyAppend(fields: seq<Field>, f: Field, key: string)
    ensures HasKey(fields + [f], key) <==> HasKey(fields, key) || f.key == key
  {
    if HasKey(fields, key) {
      var i :| 0 <= i < |fields| && fields[i].key == key;
      assert (fields + [f])[i] == fields[i];
    }
    if HasKey(fields + [f], key) && f.key != key {
      var i :| 0 <= i < |fields + [f]| && (fields + [f])[i].key == key;
      assert i < |fields| && (fields + [f])[i] == fields[i];
    }
    if f.key == key {
      assert (fields + [f])[|fields|] == f;
    }
  }

  /** The name of the Python type `json.loads` produces for a value. */
  function TypeName(j: Json): string {
    match j
    case JNull => "NoneType"
    case JBool(_) => "bool"
    case JInt(_) => "int"
    case JStr(_) => "str"
    case JArr(_) => "list"
    case JObj(_) => "dict"
  }
}
