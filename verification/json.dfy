/** JSON values as the Python side builds them, their text as produced by
    `json.dumps(value, ensure_ascii=False)` with the default separators, and
    the few `dict` operations the classifier applies to a decoded object.
    Floating-point numbers are not part of this model: numbers are integers. */
module Json {
  import opened Base

  /** A decoded JSON value. `Null` is Python's `None`; an object keeps its
      members in insertion order, as a Python `dict` does. */
  datatype Value =
    | Null
    | Bool(b: bool)
    | Int(i: int)
    | Str(s: string)
    | Arr(items: seq<Value>)
    | Obj(members: seq<Member>)

  datatype Member = Member(key: string, value: Value)

  /** Python truthiness of a value: `None`, `False`, `0`, `""`, `[]` and `{}`
      are false, everything else is true. */
  predicate Truthy(v: Value) {
    match v
    case Null => false
    case Bool(b) => b
    case Int(i) => i != 0
    case Str(s) => s != ""
    case Arr(items) => items != []
    case Obj(members) => members != []
  }

  // ---------------------------------------------------------------------
  // Text of a value

  function Digit(d: nat): char
    requires d < 10
  {
    "0123456789"[d]
  }

  /** Decimal digits of `n`, without leading zeros. */
  function NatText(n: nat): (r: string)
    ensures |r| > 0
    ensures forall k | 0 <= k < |r| :: '0' <= r[k] <= '9'
  {
    if n < 10 then [Digit(n)] else NatText(n / 10) + [Digit(n % 10)]
  }

  /** The number a string of decimal digits stands for (`int(s)` on such
      a string). */
  function DigitsValue(s: string): nat {
    if s == [] then 0
    else
      var d := s[|s| - 1];
      DigitsValue(s[..|s| - 1]) * 10 + (if '0' <= d <= '9' then d as nat - '0' as nat else 0)
  }

  /** The decimal text of `n` reads back as `n`. */
  lemma {:induction false} NatTextValue(n: nat)
    ensures DigitsValue(NatText(n)) == n
  {
    var r := NatText(n);
    if n < 10 {
      assert r == [Digit(n)];
      assert r[..0] == [];
    } else {
      NatTextValue(n / 10);
      assert r[..|r| - 1] == NatText(n / 10);
      assert r[|r| - 1] == Digit(n % 10);
    }
  }

  /** Python's `str(i)` for an integer. */
  function IntText(i: int): (r: string)
    ensures |r| > 0
    ensures OneLine(r)
  {
    if i < 0 then "-" + NatText(-i) else NatText(i)
  }

  function HexDigit(d: nat): char
    requires d < 16
  {
    "0123456789abcdef"[d]
  }

  /** How `json.dumps(..., ensure_ascii=False)` writes one character of a
      string: quote, backslash and the C0 control characters are escaped
      (the usual short forms where JSON has one, `\u00XX` otherwise); every
      other character, non-ASCII included, is written as it is. */
  function EscapeChar(c: char): string {
    if c == '"' then "\\\""
    else if c == '\\' then "\\\\"
    else if c == '\n' then "\\n"
    else if c == '\r' then "\\r"
    else if c == '\t' then "\\t"
    else if c as int == 8 then "\\b"
    else if c as int == 12 then "\\f"
    else if c as int < 32 then "\\u00" + [HexDigit(c as int / 16), HexDigit(c as int % 16)]
    else [c]
  }

  function Escape(s: string): string {
    if s == [] then "" else EscapeChar(s[0]) + Escape(s[1..])
  }

  /** A JSON string literal. */
  function Quote(s: string): string {
    "\"" + Escape(s) + "\""
  }

  /** `json.dumps(v, ensure_ascii=False)`: `", "` between items, `": "`
      between a key and its value. */
  function Dumps(v: Value): string {
    match v
    case Null => "null"
    case Bool(b) => if b then "true" else "false"
    case Int(i) => IntText(i)
    case Str(s) => Quote(s)
    case Arr(items) =>
      "[" + Join(seq(|items|, k requires 0 <= k < |items| => Dumps(items[k])), ", ") + "]"
    case Obj(ms) =>
      "{" + Join(seq(|ms|, k requires 0 <= k < |ms| => Quote(ms[k].key) + ": " + Dumps(ms[k].value)), ", ") + "}"
  }

  // ---------------------------------------------------------------------
  // Reading a string literal back

  function HexValue(c: char): nat {
    if '0' <= c <= '9' then c as nat - '0' as nat
    else if 'a' <= c <= 'f' then c as nat - 'a' as nat + 10
    else if 'A' <= c <= 'F' then c as nat - 'A' as nat + 10
    else 0
  }

  /** The characters a JSON string body stands for, for the escapes
      `Escape` writes: the inverse reading of `Escape`. A `\u` escape of a
      surrogate or of a code point from `E000` up reads as `?` here, where
      `json.loads` would give the character or join a surrogate pair. */
  function Unescape(t: string): string
    decreases |t|
  {
    if t == [] then ""
    else if t[0] == '\\' && |t| >= 2 then
      var e := t[1];
      if e == 'u' && |t| >= 6 then
        var code := HexValue(t[2]) * 4096 + HexValue(t[3]) * 256 + HexValue(t[4]) * 16 + HexValue(t[5]);
        (if code < 0xD800 then [code as char] else "?") + Unescape(t[6..])
      else
        [ if e == 'n' then '\n'
          else if e == 'r' then '\r'
          else if e == 't' then '\t'
          else if e == 'b' then 8 as char
          else if e == 'f' then 12 as char
          else e ] + Unescape(t[2..])
    else [t[0]] + Unescape(t[1..])
  }

  lemma HexRoundTrip(d: nat)
    requires d < 16
    ensures HexValue(HexDigit(d)) == d
  {
  }

  /** A control character without a short form reads back from `\u00XX`. */
  lemma HexEscapeRoundTrip(c: char, rest: string)
    requires c as int < 32 && c != '\n' && c != '\r' && c != '\t' && c as int != 8 && c as int != 12
    ensures Unescape(EscapeChar(c) + rest) == [c] + Unescape(rest)
  {
    var t := EscapeChar(c) + rest;
    var n := c as int;
    HexRoundTrip(n / 16);
    HexRoundTrip(n % 16);
    assert t[..6] == "\\u00" + [HexDigit(n / 16), HexDigit(n % 16)];
    assert t[0] == '\\' && t[1] == 'u';
    assert t[2] == '0' && t[3] == '0' && t[4] == HexDigit(n / 16) && t[5] == HexDigit(n % 16);
    assert t[6..] == rest;
  }

  /** A character with a two-character escape reads back from it. */
  lemma ShortEscapeRoundTrip(c: char, rest: string)
    requires c == '"' || c == '\\' || c == '\n' || c == '\r' || c == '\t' || c as int == 8 || c as int == 12
    ensures Unescape(EscapeChar(c) + rest) == [c] + Unescape(rest)
  {
    var t := EscapeChar(c) + rest;
    assert |EscapeChar(c)| == 2 && t[0] == '\\' && t[1] == EscapeChar(c)[1];
    assert t[2..] == rest;
  }

  lemma EscapeCharRoundTrip(c: char, rest: string)
    ensures Unescape(EscapeChar(c) + rest) == [c] + Unescape(rest)
  {
    if c == '"' || c == '\\' || c == '\n' || c == '\r' || c == '\t' || c as int == 8 || c as int == 12 {
      ShortEscapeRoundTrip(c, rest);
    } else if c as int < 32 {
      HexEscapeRoundTrip(c, rest);
    } else {
      var t := EscapeChar(c) + rest;
      assert t[0] == c && t[1..] == rest;
    }
  }

  /** Escaping loses nothing: the text of a string literal reads back as the
      string that was written. */
  lemma {:induction false} EscapeRoundTrip(s: string)
    ensures Unescape(Escape(s)) == s
  {
    if s != [] {
      EscapeCharRoundTrip(s[0], Escape(s[1..]));
      EscapeRoundTrip(s[1..]);
    }
  }

  // ---------------------------------------------------------------------
  // The text of a value never breaks a line

  lemma EscapeCharOneLine(c: char)
    ensures OneLine(EscapeChar(c))
  {
  }

  lemma {:induction false} EscapeOneLine(s: string)
    ensures OneLine(Escape(s))
  {
    if s != [] {
      EscapeCharOneLine(s[0]);
      EscapeOneLine(s[1..]);
      OneLineAppend(EscapeChar(s[0]), Escape(s[1..]));
    }
  }

  lemma QuoteOneLine(s: string)
    ensures OneLine(Quote(s))
  {
    EscapeOneLine(s);
    OneLineAppend("\"", Escape(s));
    OneLineAppend("\"" + Escape(s), "\"");
  }

  /** Every line break inside a string value is escaped, so the text of any
      value fits on the single `data:` line of an event-stream frame. */
  lemma {:induction false} DumpsOneLine(v: Value)
    ensures OneLine(Dumps(v))
  {
    match v
    case Null =>
    case Bool(b) =>
    case Int(i) =>
    case Str(s) => QuoteOneLine(s);
    case Arr(items) =>
      var parts := seq(|items|, k requires 0 <= k < |items| => Dumps(items[k]));
      forall k | 0 <= k < |items|
        ensures OneLine(parts[k])
      {
        DumpsOneLine(items[k]);
      }
      JoinOneLine(parts, ", ");
      OneLineAppend("[", Join(parts, ", "));
      OneLineAppend("[" + Join(parts, ", "), "]");
    case Obj(ms) =>
      var parts := seq(|ms|, k requires 0 <= k < |ms| => Quote(ms[k].key) + ": " + Dumps(ms[k].value));
      forall k | 0 <= k < |ms|
        ensures OneLine(parts[k])
      {
        QuoteOneLine(ms[k].key);
        DumpsOneLine(ms[k].value);
        OneLineAppend(Quote(ms[k].key), ": ");
        OneLineAppend(Quote(ms[k].key) + ": ", Dumps(ms[k].value));
      }
      JoinOneLine(parts, ", ");
      OneLineAppend("{", Join(parts, ", "));
      OneLineAppend("{" + Join(parts, ", "), "}");
  }

  // ---------------------------------------------------------------------
  // Python dict operations on an object's members

  /** The keys of an object, in insertion order. */
  function Keys(ms: seq<Member>): (r: seq<string>)
    ensures |r| == |ms|
    ensures forall k | 0 <= k < |ms| :: r[k] == ms[k].key
  {
    if ms == [] then [] else [ms[0].key] + Keys(ms[1..])
  }

  /** `d.get(key)`: the value stored under `key`, if any. */
  function Get(ms: seq<Member>, key: string): Option<Value> {
    if ms == [] then None
    else if ms[0].key == key then Some(ms[0].value)
    else Get(ms[1..], key)
  }

  /** `d[key] = value`: replaces the value in place when the key is present,
      otherwise appends a new member at the end. */
  function Put(ms: seq<Member>, key: string, value: Value): seq<Member> {
    if ms == [] then [Member(key, value)]
    else if ms[0].key == key then [Member(key, value)] + ms[1..]
    else [ms[0]] + Put(ms[1..], key, value)
  }

  /** `d.setdefault(key, value)`: stores `value` only when `key` is absent. */
  function SetDefault(ms: seq<Member>, key: string, value: Value): (r: seq<Member>)
    ensures Get(ms, key).Some? ==> r == ms
  {
    if Get(ms, key).Some? then ms else ms + [Member(key, value)]
  }

  /** Writing a key stores the value under it, leaves every other key's
      value alone, and keeps the insertion order (a new key goes last). */
  lemma {:induction false} PutSpec(ms: seq<Member>, key: string, value: Value)
    ensures Get(Put(ms, key, value), key) == Some(value)
    ensures forall other | other != key :: Get(Put(ms, key, value), other) == Get(ms, other)
    ensures Keys(Put(ms, key, value)) == if key in Keys(ms) then Keys(ms) else Keys(ms) + [key]
  {
    if ms != [] && ms[0].key != key {
      PutSpec(ms[1..], key, value);
      assert Keys(ms) == [ms[0].key] + Keys(ms[1..]);
    } else if ms != [] {
      assert Keys(ms) == [key] + Keys(ms[1..]);
    }
  }

  lemma {:induction false} GetAppend(ms: seq<Member>, m: Member, key: string)
    ensures Get(ms + [m], key) == if Get(ms, key).Some? then Get(ms, key) else Get([m], key)
  {
    if ms != [] {
      assert (ms + [m])[1..] == ms[1..] + [m];
      GetAppend(ms[1..], m, key);
    }
  }

  lemma {:induction false} GetKeys(ms: seq<Member>, key: string)
    ensures Get(ms, key).Some? <==> key in Keys(ms)
  {
    if ms != [] {
      GetKeys(ms[1..], key);
      assert Keys(ms) == [ms[0].key] + Keys(ms[1..]);
    }
  }

  /** `setdefault` keeps a present value, stores the default under an absent
      key, and touches no other key. */
  lemma SetDefaultSpec(ms: seq<Member>, key: string, value: Value)
    ensures Get(SetDefault(ms, key, value), key) == if Get(ms, key).Some? then Get(ms, key) else Some(value)
    ensures forall other | other != key :: Get(SetDefault(ms, key, value), other) == Get(ms, other)
    ensures Keys(SetDefault(ms, key, value)) == if key in Keys(ms) then Keys(ms) else Keys(ms) + [key]
  {
    GetKeys(ms, key);
    if Get(ms, key).None? {
      GetAppend(ms, Member(key, value), key);
      forall other | other != key
        ensures Get(SetDefault(ms, key, value), other) == Get(ms, other)
      {
        GetAppend(ms, Member(key, value), other);
      }
      assert Keys(ms + [Member(key, value)]) == Keys(ms) + [key];
    }
  }
}
