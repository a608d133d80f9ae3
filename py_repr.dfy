/** Python's `str` and `repr` of decoded JSON values, as an f-string renders them
    into a notification line (`f"ENTRADA: {...}"`, `f"Invalid format ({...})"`). */
module PyRepr {
  import opened Text
  import opened JsonValue

  const HEX_DIGITS: string := "0123456789abcdef"

  /** Two lower-case hex digits, as in Python's `\xNN` escape. */
  function Hex2(n: nat): (h: string)
    requires n < 256
    ensures |h| == 2
  {
    [HEX_DIGITS[n / 16], HEX_DIGITS[n % 16]]
  }

  function HexValue(c: char): Option<nat> {
    if '0' <= c <= '9' then Some(c as int - '0' as int)
    else if 'a' <= c <= 'f' then Some(c as int - 'a' as int + 10)
    else None
  }

  /** The characters below U+0100 that Python's `str.isprintable` rejects. */
  predicate Unprintable(c: char) {
    c < ' ' || 0x7f <= c as int <= 0xa0 || c as int == 0xad
  }

  /** How `repr` writes one character of a string quoted with `q`. */
  function EscapeChar(c: char, q: char): string {
    if c == q || c == '\\' then ['\\', c]
    else if c == '\t' then "\\t"
    else if c == '\n' then "\\n"
    else if c == '\r' then "\\r"
    else if Unprintable(c) then "\\x" + Hex2(c as int)
    else [c]
  }

  function Escape(s: string, q: char): string {
    if s == [] then "" else EscapeChar(s[0], q) + Escape(s[1..], q)
  }

  /** `repr` of a str: single quotes, unless the text holds a single quote and no double quote. */
  function QuoteChar(s: string): char {
    if '\'' in s && '"' !in s then '"' else '\''
  }

  function Quote(s: string): string {
    var q := QuoteChar(s);
    [q] + Escape(s, q) + [q]
  }

  /** Reads back the body of a quoted string (Python's escape sequences that Escape writes). */
  function Unescape(t: string): Option<string> {
    if t == [] then Some("")
    else if t[0] != '\\' then
      match Unescape(t[1..])
      case Some(rest) => Some([t[0]] + rest)
      case None => None
    else if |t| < 2 then None
    else
      var decoded: Option<(char, nat)> :=
        if t[1] in "\\'\"" then Some((t[1], 2))
        else if t[1] == 't' then Some(('\t', 2))
        else if t[1] == 'n' then Some(('\n', 2))
        else if t[1] == 'r' then Some(('\r', 2))
        else if t[1] == 'x' && |t| >= 4 && HexValue(t[2]).Some? && HexValue(t[3]).Some? then
          Some(((HexValue(t[2]).value * 16 + HexValue(t[3]).value) as char, 4))
        else None;
      match decoded
      case None => None
      case Some((c, len)) =>
        match Unescape(t[len..])
        case Some(rest) => Some([c] + rest)
        case None => None
  }

  function Unquote(r: string): Option<string> {
    if |r| >= 2 && r[0] == r[|r| - 1] && r[0] in "'\"" then Unescape(r[1..|r| - 1]) else None
  }

  lemma Hex2Reads(n: nat)
    requires n < 256
    ensures HexValue(Hex2(n)[0]) == Some(n / 16) && HexValue(Hex2(n)[1]) == Some(n % 16)
  {
    var h := Hex2(n);
    assert h[0] == HEX_DIGITS[n / 16] && h[1] == HEX_DIGITS[n % 16];
    HexDigitReads(n / 16);
    HexDigitReads(n % 16);
  }

  lemma HexDigitReads(d: nat)
    requires d < 16
    ensures HexValue(HEX_DIGITS[d]) == Some(d)
  {
  }

  lemma UnescapeChar(c: char, q: char, rest: string)
    requires q == '\'' || q == '"'
    ensures Unescape(EscapeChar(c, q) + rest) ==
      match Unescape(rest) case Some(r) => Some([c] + r) case None => None
  {
    var t := EscapeChar(c, q) + rest;
    if c == q || c == '\\' || c == '\t' || c == '\n' || c == '\r' {
      assert t[2..] == rest;
    } else if Unprintable(c) {
      Hex2Reads(c as int);
      assert t[4..] == rest;
      assert (c as int / 16 * 16 + c as int % 16) as char == c;
    } else {
      assert t[1..] == rest;
    }
  }

  lemma {:induction false} UnescapeEscape(s: string, q: char)
    requires q == '\'' || q == '"'
    ensures Unescape(Escape(s, q)) == Some(s)
    decreases |s|
  {
    if s != [] {
      UnescapeEscape(s[1..], q);
      UnescapeChar(s[0], q, Escape(s[1..], q));
      assert [s[0]] + s[1..] == s;
    }
  }

  /** The closing quote of a repr is never escaped away: Quote can be read back. */
  lemma UnquoteQuote(s: string)
    ensures Unquote(Quote(s)) == Some(s)
  {
    var q := QuoteChar(s);
    var r := Quote(s);
    assert r[1..|r| - 1] == Escape(s, q);
    UnescapeEscape(s, q);
  }

  /** Indices of the members that introduce a new key, in order: a dict's iteration order. */
  function FirstOccurrences(ms: seq<Member>): (ks: seq<nat>)
    ensures forall i :: 0 <= i < |ks| ==> ks[i] < |ms|
  {
    if ms == [] then []
    else
      var prev := FirstOccurrences(ms[..|ms| - 1]);
      if LastIndexOf(ms[..|ms| - 1], ms[|ms| - 1].key) >= 0 then prev else prev + [|ms| - 1]
  }

  /** `repr(v)`, which is also `str(v)` for everything but a str. */
  function Repr(v: Json): string
    decreases v
  {
    match v
    case JNull => "None"
    case JBool(b) => if b then "True" else "False"
    case JInt(n) => IntToString(n)
    case JString(s) => Quote(s)
    case JArray(xs) =>
      "[" + Join(", ", seq(|xs|, i requires 0 <= i < |xs| => Repr(xs[i]))) + "]"
    case JObject(ms) =>
      var ks := FirstOccurrences(ms);
      "{" + Join(", ", seq(|ks|, i requires 0 <= i < |ks| =>
        Quote(ms[ks[i]].key) + ": " + Repr(ms[LastIndexOf(ms, ms[ks[i]].key)].value))) + "}"
  }

  /** `str(v)`, what `f"{v}"` inserts: a str as it is, everything else as its repr. */
  function Str(v: Json): string {
    if v.JString? then v.s else Repr(v)
  }
}
