/**
 * Printing a string as a TOML basic string: JSON's escapes, with DEL rewritten afterwards
 * because JSON lets it stand and TOML (version 1.0.0, section "String") does not.
 */
module TomlString {
  import opened Wrappers

  const DEL: char := '\U{7f}'

  // ---- Printing ----

  function HexDigit(n: nat): char
    requires n < 16
  {
    "0123456789abcdef"[n]
  }

  /** `\u` and four digits. */
  function UnicodeEscape(n: nat): string
    requires n < 0x10000
  {
    ['\\', 'u', HexDigit(n / 4096), HexDigit(n / 256 % 16), HexDigit(n / 16 % 16), HexDigit(n % 16)]
  }

  /** What `json.dumps` prints for one character when it may print non-ASCII ones. */
  function JsonEscape(c: char): string
  {
    if c == '\\' then ['\\', '\\']
    else if c == '"' then ['\\', '"']
    else if c == '\n' then ['\\', 'n']
    else if c == '\r' then ['\\', 'r']
    else if c == '\t' then ['\\', 't']
    else if c as int == 12 then ['\\', 'f']
    else if c as int == 8 then ['\\', 'b']
    else if c < ' ' then UnicodeEscape(c as int)
    else [c]
  }

  /** Seven characters have a short escape; other control characters are two digits; the rest stands for itself. */
  lemma JsonEscapeExactly(c: char)
    ensures |JsonEscape(c)| == 2 <==> c in "\"\\\n\r\t\U{8}\U{c}"
    ensures |JsonEscape(c)| == 6 <==> c !in "\n\r\t\U{8}\U{c}" && (c as int) < 32
    ensures JsonEscape(c) == [c] <==> |JsonEscape(c)| == 1
  {
  }

  lemma JsonControlExactly(n: nat)
    requires n < 32
    ensures UnicodeEscape(n) == "\\u00" + [if n < 16 then '0' else '1', "0123456789abcdef"[n % 16]]
  {
  }

  function JsonBody(s: string): string
  {
    if s == "" then "" else JsonEscape(s[0]) + JsonBody(s[1..])
  }

  function Json(s: string): string { ['"'] + JsonBody(s) + ['"'] }

  /** `replace("\x7f", "\\u007f")` */
  function ReplaceDel(s: string): string
  {
    if s == "" then "" else (if s[0] == DEL then UnicodeEscape(127) else [s[0]]) + ReplaceDel(s[1..])
  }

  function TomlString(s: string): string { ReplaceDel(Json(s)) }

  // ---- Reading a TOML basic string ----

  function FromHex(c: char): Option<nat>
  {
    if '0' <= c <= '9' then Some(c as int - '0' as int)
    else if 'a' <= c <= 'f' then Some(c as int - 'a' as int + 10)
    else if 'A' <= c <= 'F' then Some(c as int - 'A' as int + 10)
    else None
  }

  function FromHexDigits(s: string, high: nat): Option<nat>
  {
    if s == "" then Some(high)
    else
      match FromHex(s[0])
      case None => None
      case Some(d) => FromHexDigits(s[1..], 16 * high + d)
  }

  predicate IsScalar(n: nat) { n < 0xD800 || 0xE000 <= n < 0x110000 }

  /** Control characters other than tab may not stand for themselves. */
  predicate MayStand(c: char)
  {
    (c >= ' ' || c == '\t') && c != DEL && c != '"' && c != '\\'
  }

  /** One escape after a backslash: its character and its length. */
  function ReadEscape(s: string): Option<(char, nat)>
  {
    if s == "" then None
    else if s[0] == 'b' then Some(('\U{8}', 1))
    else if s[0] == 't' then Some(('\t', 1))
    else if s[0] == 'n' then Some(('\n', 1))
    else if s[0] == 'f' then Some(('\U{c}', 1))
    else if s[0] == 'r' then Some(('\r', 1))
    else if s[0] == '"' then Some(('"', 1))
    else if s[0] == '\\' then Some(('\\', 1))
    else
      var digits := if s[0] == 'u' then 4 else if s[0] == 'U' then 8 else 0;
      if digits == 0 || |s| < 1 + digits then None
      else
        match FromHexDigits(s[1..1 + digits], 0)
        case None => None
        case Some(n) => if IsScalar(n) then Some((n as char, 1 + digits)) else None
  }

  /** The rest of a basic string, up to the closing quote, which must end the text. */
  function ReadBody(s: string): Option<string>
    decreases |s|
  {
    if s == "" then None
    else if s[0] == '"' then (if |s| == 1 then Some("") else None)
    else if s[0] == '\\' then
      match ReadEscape(s[1..])
      case None => None
      case Some((c, n)) =>
        if |s| < 1 + n then None
        else
          match ReadBody(s[1 + n..])
          case None => None
          case Some(rest) => Some([c] + rest)
    else if !MayStand(s[0]) then None
    else
      match ReadBody(s[1..])
      case None => None
      case Some(rest) => Some([s[0]] + rest)
  }

  function Read(s: string): Option<string>
  {
    if s == "" || s[0] != '"' then None else ReadBody(s[1..])
  }

  // ---- Reading what was printed ----

  /** The print of one character, both passes together. */
  function Escape(c: char): string
  {
    if c == DEL then UnicodeEscape(127) else JsonEscape(c)
  }

  function Body(s: string): string
  {
    if s == "" then "" else Escape(s[0]) + Body(s[1..])
  }

  lemma {:induction false} ReplaceDelAppend(a: string, b: string)
    ensures ReplaceDel(a + b) == ReplaceDel(a) + ReplaceDel(b)
  {
    if a == "" {
      assert a + b == b;
    } else {
      assert (a + b)[1..] == a[1..] + b;
      ReplaceDelAppend(a[1..], b);
    }
  }

  lemma {:induction false} ReplaceDelKeeps(s: string)
    requires DEL !in s
    ensures ReplaceDel(s) == s
  {
    if s != "" {
      ReplaceDelKeeps(s[1..]);
    }
  }

  lemma JsonEscapeReplaced(c: char)
    ensures ReplaceDel(JsonEscape(c)) == Escape(c)
    ensures DEL in JsonEscape(c) <==> c == DEL
  {
    if c == DEL {
      assert [c][1..] == "";
      assert ReplaceDel([c]) == UnicodeEscape(127) + "";
    } else {
      ReplaceDelKeeps(JsonEscape(c));
    }
  }

  /** Rewriting DEL last is rewriting it character by character: no earlier escape is touched. */
  lemma {:induction false} PassesCommute(s: string)
    ensures ReplaceDel(JsonBody(s)) == Body(s)
  {
    if s != "" {
      PassesCommute(s[1..]);
      ReplaceDelAppend(JsonEscape(s[0]), JsonBody(s[1..]));
      JsonEscapeReplaced(s[0]);
    }
  }

  lemma PrintedForm(s: string)
    ensures TomlString(s) == ['"'] + Body(s) + ['"']
  {
    PassesCommute(s);
    ReplaceDelAppend(['"'] + JsonBody(s), ['"']);
    ReplaceDelAppend(['"'], JsonBody(s));
    ReplaceDelKeeps(['"']);
  }

  lemma HexRoundTrip(n: nat)
    requires n < 16
    ensures FromHex(HexDigit(n)) == Some(n) && ' ' <= HexDigit(n) < DEL
  {
    var digits := "0123456789abcdef";
    assert digits[n] == if n < 10 then ('0' as int + n) as char else ('a' as int + n - 10) as char;
  }

  lemma FourHex(a: nat, b: nat, c: nat, d: nat)
    requires a < 16 && b < 16 && c < 16 && d < 16
    ensures FromHexDigits([HexDigit(a), HexDigit(b), HexDigit(c), HexDigit(d)], 0)
            == Some(4096 * a + 256 * b + 16 * c + d)
  {
    var w, x, y, z := HexDigit(a), HexDigit(b), HexDigit(c), HexDigit(d);
    HexRoundTrip(a);
    HexRoundTrip(b);
    HexRoundTrip(c);
    HexRoundTrip(d);
    assert [z][1..] == "" && [y, z][1..] == [z] && [x, y, z][1..] == [y, z] && [w, x, y, z][1..] == [x, y, z];
    assert FromHexDigits([z], 256 * a + 16 * b + c) == Some(4096 * a + 256 * b + 16 * c + d);
    assert FromHexDigits([y, z], 16 * a + b) == Some(4096 * a + 256 * b + 16 * c + d);
    assert FromHexDigits([x, y, z], a) == Some(4096 * a + 256 * b + 16 * c + d);
  }

  lemma FourDigits(n: nat, rest: string)
    requires n < 0x80
    ensures ReadEscape((UnicodeEscape(n) + rest)[1..]) == Some((n as char, 5))
  {
    FourHex(n / 4096, n / 256 % 16, n / 16 % 16, n % 16);
    ReadFour([HexDigit(n / 4096), HexDigit(n / 256 % 16), HexDigit(n / 16 % 16), HexDigit(n % 16)], n, rest);
    assert (UnicodeEscape(n) + rest)[1..]
        == ['u'] + [HexDigit(n / 4096), HexDigit(n / 256 % 16), HexDigit(n / 16 % 16), HexDigit(n % 16)] + rest;
  }

  lemma ReadFour(digits: string, n: nat, rest: string)
    requires |digits| == 4 && n < 0x80 && FromHexDigits(digits, 0) == Some(n)
    ensures ReadEscape(['u'] + digits + rest) == Some((n as char, 5))
  {
    assert (['u'] + digits + rest)[1..1 + 4] == digits;
  }

  lemma ReadsAsEscape(escape: string, c: char, rest: string)
    requires escape != "" && escape[0] == '\\' && ReadEscape((escape + rest)[1..]) == Some((c, |escape| - 1))
    ensures ReadBody(escape + rest)
            == match ReadBody(rest) case None => None case Some(tail) => Some([c] + tail)
  {
    var s := escape + rest;
    assert s[1 + (|escape| - 1)..] == rest;
  }

  lemma ReadsShort(c: char, rest: string)
    requires |Escape(c)| == 2
    ensures ReadEscape((Escape(c) + rest)[1..]) == Some((c, 1))
  {
    assert (Escape(c) + rest)[1..][0] == Escape(c)[1];
  }

  lemma ReadsEscaped(c: char, rest: string)
    ensures ReadBody(Escape(c) + rest)
            == match ReadBody(rest) case None => None case Some(tail) => Some([c] + tail)
  {
    if Escape(c) == [c] {
      assert (Escape(c) + rest)[1..] == rest;
    } else if |Escape(c)| == 2 {
      ReadsShort(c, rest);
      ReadsAsEscape(Escape(c), c, rest);
    } else {
      FourDigits(c as int, rest);
      ReadsAsEscape(Escape(c), c, rest);
    }
  }

  lemma {:induction false} ReadsBody(s: string)
    ensures ReadBody(Body(s) + ['"']) == Some(s)
  {
    if s == "" {
      assert Body(s) + ['"'] == ['"'];
    } else {
      ReadsBody(s[1..]);
      ReadsEscaped(s[0], Body(s[1..]) + ['"']);
      assert Body(s) + ['"'] == Escape(s[0]) + (Body(s[1..]) + ['"']);
      assert s == [s[0]] + s[1..];
    }
  }

  /** Reading the print as TOML gives the string back, for every string. */
  lemma TomlRoundTrip(s: string)
    ensures Read(TomlString(s)) == Some(s)
  {
    PrintedForm(s);
    ReadsBody(s);
    assert (['"'] + Body(s) + ['"'])[1..] == Body(s) + ['"'];
  }

  /** Nothing printed is a control character or DEL. */
  lemma {:induction false} BodyIsPrintable(s: string)
    ensures forall c :: c in Body(s) ==> ' ' <= c && c != DEL
  {
    if s != "" {
      BodyIsPrintable(s[1..]);
      EscapeIsPrintable(s[0]);
    }
  }

  lemma EscapeIsPrintable(c: char)
    ensures forall x :: x in Escape(c) ==> ' ' <= x && x != DEL
  {
    var n := c as int;
    if n < 0x80 {
      HexRoundTrip(n / 4096);
      HexRoundTrip(n / 256 % 16);
      HexRoundTrip(n / 16 % 16);
      HexRoundTrip(n % 16);
    }
  }

  lemma PrintIsPrintable(s: string)
    ensures forall c :: c in TomlString(s) ==> ' ' <= c && c != DEL
  {
    PrintedForm(s);
    BodyIsPrintable(s);
  }

  // ---- Why the second pass is there ----

  lemma JsonEscapeReads(c: char, rest: string)
    ensures c == DEL ==> ReadBody(JsonEscape(c) + rest) == None
    ensures c != DEL ==>
            ReadBody(JsonEscape(c) + rest)
            == match ReadBody(rest) case None => None case Some(tail) => Some([c] + tail)
  {
    if c == DEL {
      assert (JsonEscape(c) + rest)[0] == DEL;
    } else {
      assert JsonEscape(c) == Escape(c);
      ReadsEscaped(c, rest);
    }
  }

  lemma {:induction false} JsonBodyReads(s: string)
    ensures ReadBody(JsonBody(s) + ['"']) == if DEL in s then None else Some(s)
  {
    if s == "" {
      assert JsonBody(s) + ['"'] == ['"'];
    } else {
      var rest := JsonBody(s[1..]) + ['"'];
      assert JsonBody(s) + ['"'] == JsonEscape(s[0]) + rest;
      JsonBodyReads(s[1..]);
      assert s == [s[0]] + s[1..];
      JsonEscapeReads(s[0], rest);
    }
  }

  /** JSON's print alone is the same TOML string exactly when the original has no DEL. */
  lemma JsonAloneReadsExactly(s: string)
    ensures Read(Json(s)) == Some(s) <==> DEL !in s
  {
    JsonBodyReads(s);
    assert Json(s)[1..] == JsonBody(s) + ['"'];
  }
}
