/** The escaping `PropertiesConfig` applies when it writes a `key=value` line, the same
    escaping `java.util.Properties.store` uses. `Unescape` is the reading side's
    decoding (the `\uXXXX` and backslash rules of `java.util.Properties.load`); it is the
    partner against which the writer is proved. A Dafny `char` stands for one Java
    `char`. */
module PropertiesEscape {
  import opened Wrappers

  const HexDigits: string := "0123456789ABCDEF"

  /** Java's `'\f'`. */
  const FormFeed: char := 12 as char

  /** `toHex(nibble)`: the upper-case hex digit of `nibble & 0xF`. On a Java `int`,
      `& 0xF` is the non-negative remainder modulo 16, which is Dafny's `%`. */
  function ToHex(nibble: int): (c: char)
    ensures IsUpperHexDigit(c)
    ensures HexValue(c) == Some(nibble % 16)
  {
    HexDigits[nibble % 16]
  }

  /** One of `0`-`9`, `A`-`F`. */
  predicate IsUpperHexDigit(c: char) {
    '0' <= c <= '9' || 'A' <= c <= 'F'
  }

  /** The value of a hex digit as a `\uXXXX` reader accepts it (either case). */
  function HexValue(c: char): (v: Option<int>)
    ensures v.Some? ==> 0 <= v.value < 16
  {
    if '0' <= c <= '9' then Some(c as int - '0' as int)
    else if 'a' <= c <= 'f' then Some(c as int - 'a' as int + 10)
    else if 'A' <= c <= 'F' then Some(c as int - 'A' as int + 10)
    else None
  }

  /** `\u` followed by the four hex digits of `c`, most significant first: the nibbles
      `(c >> 12) & 0xF` down to `c & 0xF`. A shift of a non-negative code is a division
      by a power of two. */
  function UnicodeEscape(c: char): (e: string)
    ensures |e| == 6 && e[0] == '\\' && e[1] == 'u'
    ensures IsUpperHexDigit(e[2]) && IsUpperHexDigit(e[3])
    ensures IsUpperHexDigit(e[4]) && IsUpperHexDigit(e[5])
  {
    var code := c as int;
    ['\\', 'u', ToHex(code / 4096), ToHex(code / 256), ToHex(code / 16), ToHex(code)]
  }

  /** The characters the writer leaves alone: those of the range 0x20-0x7E. */
  predicate Printable(c: char) {
    0x20 <= c as int <= 0x7E
  }

  /** The `saveConvert` switch for one character; `first` is `x == 0`. */
  function EscapeChar(c: char, first: bool, escapeSpace: bool, escapeUnicode: bool): (e: string)
    ensures c == '\\' ==> e == "\\\\"
    ensures c in "=:#!" ==> e == ['\\', c]
    ensures c == '\t' ==> e == "\\t"
    ensures c == '\n' ==> e == "\\n"
    ensures c == '\r' ==> e == "\\r"
    ensures c == FormFeed ==> e == "\\f"
    ensures c == ' ' ==> e == (if first || escapeSpace then "\\ " else " ")
    ensures |e| > 0
  {
    if 61 < c as int < 127 then
      if c == '\\' then "\\\\" else [c]
    else if c == ' ' then
      if first || escapeSpace then "\\ " else " "
    else if c == '\t' then "\\t"
    else if c == '\n' then "\\n"
    else if c == '\r' then "\\r"
    else if c == FormFeed then "\\f"
    else if c == '=' || c == ':' || c == '#' || c == '!' then ['\\', c]
    else if (c as int < 0x20 || c as int > 0x7E) && escapeUnicode then UnicodeEscape(c)
    else [c]
  }

  /** `saveConvert` from position `x` of `s` on. */
  function ConvertFrom(s: string, x: nat, escapeSpace: bool, escapeUnicode: bool): string
    requires x <= |s|
    decreases |s| - x
  {
    if x == |s| then ""
    else EscapeChar(s[x], x == 0, escapeSpace, escapeUnicode)
         + ConvertFrom(s, x + 1, escapeSpace, escapeUnicode)
  }

  /** `saveConvert(s, escapeSpace, escapeUnicode)`. */
  function SaveConvert(s: string, escapeSpace: bool, escapeUnicode: bool): string {
    ConvertFrom(s, 0, escapeSpace, escapeUnicode)
  }

  /** `kv(key, val)`: spaces are escaped everywhere in the key, only a leading one in the
      value. */
  function Kv(key: string, val: string, escapeUnicode: bool): string {
    SaveConvert(key, true, escapeUnicode) + "=" + SaveConvert(val, false, escapeUnicode)
  }

  // ---------------------------------------------------------------------------
  // Output alphabet
  // ---------------------------------------------------------------------------

  /** With unicode escaping on, one escaped character is printable ASCII. */
  lemma EscapeCharIsPrintable(c: char, first: bool, escapeSpace: bool)
    ensures forall i :: 0 <= i < |EscapeChar(c, first, escapeSpace, true)| ==>
              Printable(EscapeChar(c, first, escapeSpace, true)[i])
  {
  }

  /** With unicode escaping on, `saveConvert` writes only characters 0x20-0x7E. */
  lemma {:induction false} ConvertFromIsPrintable(s: string, x: nat, escapeSpace: bool)
    requires x <= |s|
    ensures forall i :: 0 <= i < |ConvertFrom(s, x, escapeSpace, true)| ==>
              Printable(ConvertFrom(s, x, escapeSpace, true)[i])
    decreases |s| - x
  {
    if x < |s| {
      var head := EscapeChar(s[x], x == 0, escapeSpace, true);
      var tail := ConvertFrom(s, x + 1, escapeSpace, true);
      EscapeCharIsPrintable(s[x], x == 0, escapeSpace);
      ConvertFromIsPrintable(s, x + 1, escapeSpace);
      assert ConvertFrom(s, x, escapeSpace, true) == head + tail;
      forall i | 0 <= i < |head + tail| ensures Printable((head + tail)[i]) {
        if i >= |head| {
          assert (head + tail)[i] == tail[i - |head|];
        }
      }
    }
  }

  /** A whole `key=value` line written with unicode escaping is printable ASCII. */
  lemma KvIsPrintable(key: string, val: string)
    ensures forall i :: 0 <= i < |Kv(key, val, true)| ==> Printable(Kv(key, val, true)[i])
  {
    ConvertFromIsPrintable(key, 0, true);
    ConvertFromIsPrintable(val, 0, false);
    var k := SaveConvert(key, true, true);
    var v := SaveConvert(val, false, true);
    forall i | 0 <= i < |k + "=" + v| ensures Printable((k + "=" + v)[i]) {
      if i < |k| {
        assert (k + "=" + v)[i] == k[i];
      } else if i > |k| {
        assert (k + "=" + v)[i] == v[i - |k| - 1];
      }
    }
  }

  // ---------------------------------------------------------------------------
  // Round trip through the reading side
  // ---------------------------------------------------------------------------

  /** The value of four hex digits, `None` when one is not a hex digit. */
  function HexQuad(d: string): (v: Option<int>)
    requires |d| == 4
  {
    match (HexValue(d[0]), HexValue(d[1]), HexValue(d[2]), HexValue(d[3]))
    case (Some(a), Some(b), Some(c), Some(e)) => Some(((a * 16 + b) * 16 + c) * 16 + e)
    case _ => None
  }

  /** The escape letters `t`, `n`, `r`, `f` stand for tab, line feed, carriage return and
      form feed; any other escaped character stands for itself. */
  function EscapedMeaning(c: char): char {
    if c == 't' then '\t'
    else if c == 'n' then '\n'
    else if c == 'r' then '\r'
    else if c == 'f' then FormFeed
    else c
  }

  /** The reading side's decoding of escaped text; `None` for a malformed `\uXXXX` or a
      trailing lone backslash. */
  function Unescape(s: string): (r: Option<string>)
    decreases |s|
  {
    if |s| == 0 then Some("")
    else if s[0] != '\\' then
      match Unescape(s[1..])
      case Some(rest) => Some([s[0]] + rest)
      case None => None
    else if |s| == 1 then None
    else if s[1] == 'u' then
      if |s| < 6 then None
      else
        match HexQuad(s[2..6])
        case None => None
        case Some(code) =>
          if 0xD800 <= code < 0xE000 then None
          else
            match Unescape(s[6..])
            case Some(rest) => Some([code as char] + rest)
            case None => None
    else
      match Unescape(s[2..])
      case Some(rest) => Some([EscapedMeaning(s[1])] + rest)
      case None => None
  }

  /** A Java `char`: a code unit below 0x10000. */
  predicate IsJavaChar(c: char) {
    c as int < 0x10000
  }

  /** Reading one escaped character back gives the character. */
  lemma EscapeCharRoundTrip(c: char, first: bool, escapeSpace: bool, escapeUnicode: bool, rest: string)
    requires IsJavaChar(c)
    ensures Unescape(EscapeChar(c, first, escapeSpace, escapeUnicode) + rest)
         == (match Unescape(rest) case Some(r) => Some([c] + r) case None => None)
  {
    var e := EscapeChar(c, first, escapeSpace, escapeUnicode);
    if |e| == 1 {
      assert e == [c];
      assert (e + rest)[1..] == rest;
      assert c != '\\';
    } else if e == UnicodeEscape(c) && !(61 < c as int < 127) && c != ' ' && c != '\t'
              && c != '\n' && c != '\r' && c != FormFeed && c !in "=:#!" {
      assert (e + rest)[6..] == rest;
      assert (e + rest)[2..6] == e[2..6];
      HexQuadOfNibbles(c as int);
    } else {
      assert |e| == 2;
      assert (e + rest)[2..] == rest;
    }
  }

  /** Four digits written by `ToHex` read back as the number their nibbles spell. */
  lemma HexQuadOfDigits(a: int, b: int, c: int, d: int)
    ensures HexQuad([ToHex(a), ToHex(b), ToHex(c), ToHex(d)])
         == Some(((a % 16 * 16 + b % 16) * 16 + c % 16) * 16 + d % 16)
  {
    var q := [ToHex(a), ToHex(b), ToHex(c), ToHex(d)];
    assert HexValue(q[0]) == Some(a % 16);
    assert HexValue(q[1]) == Some(b % 16);
    assert HexValue(q[2]) == Some(c % 16);
    assert HexValue(q[3]) == Some(d % 16);
  }

  /** The four nibbles of a Java `char`, most significant first, spell its code. */
  lemma NibblesSpellCode(code: nat)
    requires code < 0x10000
    ensures ((((code / 4096) % 16) * 16 + (code / 256) % 16) * 16 + (code / 16) % 16) * 16
            + code % 16 == code
  {
    var q1 := code / 16;
    var q2 := q1 / 16;
    var q3 := q2 / 16;
    assert code == q1 * 16 + code % 16;
    assert q1 == q2 * 16 + q1 % 16;
    assert q2 == q3 * 16 + q2 % 16;
    assert q3 < 16;
    assert code / 256 == q2 && code / 4096 == q3;
  }

  /** The four hex digits of a Java `char` read back as its code. */
  lemma HexQuadOfNibbles(code: nat)
    requires code < 0x10000
    ensures HexQuad([ToHex(code / 4096), ToHex(code / 256), ToHex(code / 16), ToHex(code)])
         == Some(code)
  {
    HexQuadOfDigits(code / 4096, code / 256, code / 16, code);
    NibblesSpellCode(code);
  }

  /** `saveConvert` is undone by the reading side: escaping loses nothing. */
  lemma {:induction false} ConvertFromRoundTrip(s: string, x: nat, escapeSpace: bool, escapeUnicode: bool)
    requires x <= |s|
    requires forall i :: 0 <= i < |s| ==> IsJavaChar(s[i])
    ensures Unescape(ConvertFrom(s, x, escapeSpace, escapeUnicode)) == Some(s[x..])
    decreases |s| - x
  {
    if x < |s| {
      ConvertFromRoundTrip(s, x + 1, escapeSpace, escapeUnicode);
      EscapeCharRoundTrip(s[x], x == 0, escapeSpace, escapeUnicode,
                          ConvertFrom(s, x + 1, escapeSpace, escapeUnicode));
      assert s[x..] == [s[x]] + s[x + 1..];
    } else {
      assert s[x..] == [];
    }
  }

  /** The round trip for a whole string. */
  lemma SaveConvertRoundTrip(s: string, escapeSpace: bool, escapeUnicode: bool)
    requires forall i :: 0 <= i < |s| ==> IsJavaChar(s[i])
    ensures Unescape(SaveConvert(s, escapeSpace, escapeUnicode)) == Some(s)
  {
    ConvertFromRoundTrip(s, 0, escapeSpace, escapeUnicode);
  }

  // ---------------------------------------------------------------------------
  // Line structure of a written entry
  // ---------------------------------------------------------------------------

  /** `ch` does not occur in `t`. */
  predicate Avoids(t: string, ch: char) {
    forall i :: 0 <= i < |t| ==> t[i] != ch
  }

  /** Escaping never writes a line break, and writes `=` only for an `=`. */
  lemma EscapeCharAvoids(c: char, first: bool, escapeSpace: bool, escapeUnicode: bool, ch: char)
    requires ch == '\n' || ch == '\r' || ch == '='
    requires ch == '=' ==> c != '='
    ensures Avoids(EscapeChar(c, first, escapeSpace, escapeUnicode), ch)
  {
  }

  /** The characters `saveConvert` never writes: line breaks, and `=` for text without
      one. */
  lemma {:induction false} ConvertFromAvoids(s: string, x: nat, escapeSpace: bool, escapeUnicode: bool, ch: char)
    requires x <= |s|
    requires ch == '\n' || ch == '\r' || ch == '='
    requires ch == '=' ==> Avoids(s, '=')
    ensures Avoids(ConvertFrom(s, x, escapeSpace, escapeUnicode), ch)
    decreases |s| - x
  {
    if x < |s| {
      var head := EscapeChar(s[x], x == 0, escapeSpace, escapeUnicode);
      var tail := ConvertFrom(s, x + 1, escapeSpace, escapeUnicode);
      EscapeCharAvoids(s[x], x == 0, escapeSpace, escapeUnicode, ch);
      ConvertFromAvoids(s, x + 1, escapeSpace, escapeUnicode, ch);
      forall i | 0 <= i < |head + tail| ensures (head + tail)[i] != ch {
        if i >= |head| {
          assert (head + tail)[i] == tail[i - |head|];
        }
      }
    }
  }

  /** A written `key=value` entry is a single line: every line break in the key or the
      value is escaped. */
  lemma KvIsOneLine(key: string, val: string, escapeUnicode: bool)
    ensures Avoids(Kv(key, val, escapeUnicode), '\n') && Avoids(Kv(key, val, escapeUnicode), '\r')
  {
    var k := SaveConvert(key, true, escapeUnicode);
    var v := SaveConvert(val, false, escapeUnicode);
    ConvertFromAvoids(key, 0, true, escapeUnicode, '\n');
    ConvertFromAvoids(key, 0, true, escapeUnicode, '\r');
    ConvertFromAvoids(val, 0, false, escapeUnicode, '\n');
    ConvertFromAvoids(val, 0, false, escapeUnicode, '\r');
    forall i | 0 <= i < |k + "=" + v|
      ensures (k + "=" + v)[i] != '\n' && (k + "=" + v)[i] != '\r'
    {
      if i < |k| {
        assert (k + "=" + v)[i] == k[i];
      } else if i > |k| {
        assert (k + "=" + v)[i] == v[i - |k| - 1];
      }
    }
  }

  /** Every `#` that `saveConvert` writes is escaped: the character before it is a
      backslash. */
  predicate HashesEscaped(t: string) {
    forall i :: 0 <= i < |t| && t[i] == '#' ==> i > 0 && t[i - 1] == '\\'
  }

  lemma {:induction false} ConvertFromEscapesHashes(s: string, x: nat, escapeSpace: bool, escapeUnicode: bool)
    requires x <= |s|
    ensures HashesEscaped(ConvertFrom(s, x, escapeSpace, escapeUnicode))
    decreases |s| - x
  {
    if x < |s| {
      var head := EscapeChar(s[x], x == 0, escapeSpace, escapeUnicode);
      var tail := ConvertFrom(s, x + 1, escapeSpace, escapeUnicode);
      ConvertFromEscapesHashes(s, x + 1, escapeSpace, escapeUnicode);
      assert HashesEscaped(head);
      forall i | 0 <= i < |head + tail| && (head + tail)[i] == '#'
        ensures i > 0 && (head + tail)[i - 1] == '\\'
      {
        if i >= |head| {
          assert (head + tail)[i] == tail[i - |head|];
          assert i - |head| > 0;
          assert (head + tail)[i - 1] == tail[i - 1 - |head|];
        }
      }
    }
  }
}
