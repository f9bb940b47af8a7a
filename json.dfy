/**
 * The body of an HTTP response as the api pass sees it once it has been parsed: JSON
 * values, `JSON.stringify`, `String(v)` and property access `v[key]`.
 */
module Json {
  import opened Wrappers
  import opened JsString

  datatype Json =
    | JNull
    | JBool(b: bool)
    | JNum(n: int)
    | JStr(s: string)
    | JArr(items: seq<Json>)
    /** An object as its members are written in the text; a key may repeat. */
    | JObj(fields: seq<(string, Json)>)

  function HexDigit(d: nat): (c: char)
    requires d < 16
  {
    if d < 10 then DigitChar(d) else (('a' as int) + d - 10) as char
  }

  function HexValue(c: char): (r: Option<nat>)
    ensures r.Some? ==> r.value < 16
  {
    if IsDigit(c) then Some(DigitValue(c))
    else if 'a' <= c <= 'f' then Some((c as int) - ('a' as int) + 10)
    else if 'A' <= c <= 'F' then Some((c as int) - ('A' as int) + 10)
    else None
  }

  lemma HexRoundTrip(d: nat)
    requires d < 16
    ensures HexValue(HexDigit(d)) == Some(d)
  {
  }

  /** How `JSON.stringify` writes one character inside a string literal. */
  function EscapeChar(c: char): string {
    if c == '"' then "\\\""
    else if c == '\\' then "\\\\"
    else if c as int == 8 then "\\b"
    else if c == '\t' then "\\t"
    else if c == '\n' then "\\n"
    else if c as int == 12 then "\\f"
    else if c == '\r' then "\\r"
    else if c as int < 0x20 then
      "\\u00" + [HexDigit((c as int) / 16), HexDigit((c as int) % 16)]
    else [c]
  }

  function Escape(s: string): string
    decreases |s|
  {
    if s == [] then [] else EscapeChar(s[0]) + Escape(s[1..])
  }

  /** The value of four hexadecimal digits, when they denote a character (not a surrogate). */
  function Hex4(e: string): Option<char>
    requires |e| == 4
  {
    match (HexValue(e[0]), HexValue(e[1]), HexValue(e[2]), HexValue(e[3]))
    case (Some(a), Some(b), Some(c), Some(d)) =>
      var n := ((a * 16 + b) * 16 + c) * 16 + d;
      if 0xD800 <= n < 0xE000 then None else Some(n as char)
    case _ => None
  }

  /** Reads back the body of a JSON string literal; a malformed escape is kept as written. */
  function Unescape(e: string): string
    decreases |e|
  {
    if e == [] then []
    else if e[0] == '\\' && |e| >= 2 && e[1] == '"' then "\"" + Unescape(e[2..])
    else if e[0] == '\\' && |e| >= 2 && e[1] == '\\' then "\\" + Unescape(e[2..])
    else if e[0] == '\\' && |e| >= 2 && e[1] == 'b' then [8 as char] + Unescape(e[2..])
    else if e[0] == '\\' && |e| >= 2 && e[1] == 't' then "\t" + Unescape(e[2..])
    else if e[0] == '\\' && |e| >= 2 && e[1] == 'n' then "\n" + Unescape(e[2..])
    else if e[0] == '\\' && |e| >= 2 && e[1] == 'f' then [12 as char] + Unescape(e[2..])
    else if e[0] == '\\' && |e| >= 2 && e[1] == 'r' then "\r" + Unescape(e[2..])
    else if e[0] == '\\' && |e| >= 6 && e[1] == 'u' && Hex4(e[2..6]).Some? then [Hex4(e[2..6]).value] + Unescape(e[6..])
    else [e[0]] + Unescape(e[1..])
  }

  lemma UnescapeChar(c: char, rest: string)
    ensures Unescape(EscapeChar(c) + rest) == [c] + Unescape(rest)
  {
    var e := EscapeChar(c) + rest;
    if c as int < 0x20 && !(c as int in {8, 9, 10, 12, 13}) {
      var hi, lo := (c as int) / 16, (c as int) % 16;
      HexRoundTrip(hi);
      HexRoundTrip(lo);
      assert e[2..6] == "00" + [HexDigit(hi), HexDigit(lo)];
      assert e[6..] == rest;
    } else if c == '"' || c == '\\' || c as int in {8, 9, 10, 12, 13} {
      assert e[2..] == rest;
    } else {
      assert e[1..] == rest;
    }
  }

  /** Every string comes back unchanged from its JSON escaping. */
  lemma {:induction false} UnescapeEscape(s: string)
    ensures Unescape(Escape(s)) == s
    decreases |s|
  {
    if s != [] {
      UnescapeEscape(s[1..]);
      UnescapeChar(s[0], Escape(s[1..]));
      assert s == [s[0]] + s[1..];
    }
  }

  /** An escaped string holds no raw control character and no unescaped quote. */
  lemma {:induction false} EscapeClean(s: string)
    ensures forall i :: 0 <= i < |Escape(s)| ==> Escape(s)[i] as int >= 0x20
    decreases |s|
  {
    if s != [] {
      EscapeClean(s[1..]);
      var h := EscapeChar(s[0]);
      assert forall i :: 0 <= i < |h| ==> h[i] as int >= 0x20;
      assert Escape(s) == h + Escape(s[1..]);
    }
  }

  function Quote(s: string): string {
    "\"" + Escape(s) + "\""
  }

  /** `JSON.stringify(v)`: compact, members in their stored order. */
  function Stringify(j: Json): string
    decreases j
  {
    match j
    case JNull => "null"
    case JBool(b) => if b then "true" else "false"
    case JNum(n) => IntToString(n)
    case JStr(s) => Quote(s)
    case JArr(items) =>
      "[" + Join(seq(|items|, i requires 0 <= i < |items| => Stringify(items[i])), ",") + "]"
    case JObj(fields) =>
      "{" + Join(seq(|fields|, i requires 0 <= i < |fields| =>
        Quote(fields[i].0) + ":" + Stringify(fields[i].1)), ",") + "}"
  }

  /** A stringified string is a quoted literal whose body reads back as the string. */
  lemma StringifyString(s: string)
    ensures var t := Stringify(JStr(s));
      |t| >= 2 && t[0] == '"' && t[|t| - 1] == '"' && Unescape(t[1..|t| - 1]) == s
  {
    var t := Stringify(JStr(s));
    assert t[1..|t| - 1] == Escape(s);
    UnescapeEscape(s);
  }

  /** `String(v)` of a parsed value, as `replace` inserts it. */
  function JsonToString(j: Json): string
    decreases j
  {
    match j
    case JNull => "null"
    case JBool(b) => if b then "true" else "false"
    case JNum(n) => IntToString(n)
    case JStr(s) => s
    case JArr(items) =>
      Join(seq(|items|, i requires 0 <= i < |items| =>
        if items[i].JNull? then "" else JsonToString(items[i])), ",")
    case JObj(_) => "[object Object]"
  }

  /** The number of UTF-16 code units of a string: its JavaScript `length`. */
  function Utf16Length(s: string): (n: nat)
    ensures n >= |s|
    decreases |s|
  {
    if s == [] then 0 else (if s[0] as int >= 0x10000 then 2 else 1) + Utf16Length(s[1..])
  }

  /**
   * `s[n]` on a string: the character at code unit `n`. A unit that is half of a
   * surrogate pair has no character of its own here and gives `None`.
   */
  function CharAtUnit(s: string, n: nat): Option<char>
    decreases |s|
  {
    if s == [] then None
    else if s[0] as int < 0x10000 then (if n == 0 then Some(s[0]) else CharAtUnit(s[1..], n - 1))
    else if n < 2 then None
    else CharAtUnit(s[1..], n - 2)
  }

  /** The array index a property key denotes: a canonical decimal numeral. */
  function ArrayIndex(key: string): (r: Option<nat>)
    ensures r.Some? ==> NatToString(r.value) == key
  {
    if key != [] && AllDigits(key) && (|key| == 1 || key[0] != '0') then
      CanonicalDigits(key);
      Some(DigitsValue(key))
    else None
  }

  lemma {:induction false} CanonicalDigits(key: string)
    requires key != [] && AllDigits(key) && (|key| == 1 || key[0] != '0')
    ensures NatToString(DigitsValue(key)) == key
    decreases |key|
  {
    var n := DigitsValue(key);
    var init := key[..|key| - 1];
    if |key| == 1 {
      assert n == DigitValue(key[0]) && n < 10;
      assert NatToString(n) == [DigitChar(n)];
    } else {
      assert init[0] == key[0];
      CanonicalDigits(init);
      var m := DigitsValue(init);
      assert m > 0 by {
        if m == 0 { ZeroDigits(init); }
      }
      assert n / 10 == m && n % 10 == DigitValue(key[|key| - 1]);
      assert key == init + [key[|key| - 1]];
    }
  }

  lemma ZeroDigits(s: string)
    requires s != [] && AllDigits(s) && (|s| == 1 || s[0] != '0') && DigitsValue(s) == 0
    ensures s == "0"
  {
    if |s| > 1 {
      LeadingDigitBound(s);
    }
  }

  lemma {:induction false} LeadingDigitBound(s: string)
    requires |s| >= 1 && AllDigits(s) && s[0] != '0'
    ensures DigitsValue(s) > 0
    decreases |s|
  {
    if |s| > 1 {
      assert s[..|s| - 1][0] == s[0];
      LeadingDigitBound(s[..|s| - 1]);
    }
  }

  /** `JSON.parse` keeps the last member of a repeated key, so the lookup finds the last one. */
  function Lookup(fields: seq<(string, Json)>, key: string): (r: Option<Json>)
    ensures r.Some? ==>
      exists i :: 0 <= i < |fields| && fields[i] == (key, r.value) && forall j :: i < j < |fields| ==> fields[j].0 != key
    ensures r.None? ==> forall i :: 0 <= i < |fields| ==> fields[i].0 != key
  {
    if fields == [] then None
    else
      var n := |fields| - 1;
      if fields[n].0 == key then Some(fields[n].1)
      else match Lookup(fields[..n], key)
        case None => None
        case Some(v) =>
          assert forall i :: 0 <= i < n ==> fields[..n][i] == fields[i];
          Some(v)
  }

  /**
   * `base[key]` for a value that is not `null`: a member of an object, an element or
   * the length of an array, a character or the length of a string. Numbers and booleans
   * have no own properties.
   */
  function Get(base: Json, key: string): Option<Json>
    requires !base.JNull?
  {
    match base
    case JObj(fields) => Lookup(fields, key)
    case JArr(items) =>
      if key == "length" then Some(JNum(|items|))
      else (match ArrayIndex(key)
        case Some(n) => if n < |items| then Some(items[n]) else None
        case None => None)
    case JStr(s) =>
      if key == "length" then Some(JNum(Utf16Length(s)))
      else (match ArrayIndex(key)
        case Some(n) => (match CharAtUnit(s, n) case Some(c) => Some(JStr([c])) case None => None)
        case None => None)
    case _ => None
  }

  /** Indexing an array with the decimal text of an index in range gives that element. */
  lemma GetIndex(items: seq<Json>, i: nat)
    requires i < |items|
    ensures Get(JArr(items), NatToString(i)) == Some(items[i])
  {
    var key := NatToString(i);
    assert key != "length" by { assert key[0] != 'l'; }
    NatToStringRoundTrip(i);
    assert ArrayIndex(key) == Some(i);
  }
}
