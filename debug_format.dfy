/**
 * Rust's `{:?}` rendering of a path, used for the directory named in the
 * "does not contain any version directory" message (src/main.rs:72): the
 * text between double quotes, each character passed through
 * `char::escape_debug`. That escapes NUL, tab, carriage return, line feed,
 * backslash and both quote characters with a backslash, writes the other ASCII
 * control characters as `\u{<lower-case hex>}`, and leaves the other ASCII
 * characters as they are. Every non-ASCII character is treated as printable
 * and left as it is, although Rust also writes the non-printable and
 * grapheme-extending ones as `\u{..}`; that case is not modelled.
 * `Unescape` reads such text back.
 */
module DebugFormat {
  import opened Wrappers

  function HexDigit(d: nat): (c: char)
    requires d < 16
    ensures IsHexDigit(c) && HexValue(c) == d
  {
    if d < 10 then (('0' as int) + d) as char else (('a' as int) + d - 10) as char
  }

  predicate IsHexDigit(c: char)
  {
    ('0' <= c <= '9') || ('a' <= c <= 'f')
  }

  function HexValue(c: char): nat
  {
    if '0' <= c <= '9' then (c as int) - ('0' as int)
    else if 'a' <= c <= 'f' then (c as int) - ('a' as int) + 10
    else 0
  }

  /** `n` in lower-case hexadecimal without leading zeros, as `{:x}` writes it. */
  function Hex(n: nat): (r: string)
    ensures |r| > 0 && forall i :: 0 <= i < |r| ==> IsHexDigit(r[i])
    ensures r[0] == '0' <==> n == 0
    ensures |r| == 1 <==> n < 16
  {
    if n < 16 then [HexDigit(n)] else Hex(n / 16) + [HexDigit(n % 16)]
  }

  /** The number a run of hexadecimal digits denotes. */
  function ParseHex(s: string): nat
  {
    if s == [] then 0 else ParseHex(s[..|s| - 1]) * 16 + HexValue(s[|s| - 1])
  }

  lemma {:induction false} ParseHexOfHex(n: nat)
    ensures ParseHex(Hex(n)) == n
  {
    if n >= 16 {
      var h := Hex(n / 16) + [HexDigit(n % 16)];
      assert h[..|h| - 1] == Hex(n / 16);
      ParseHexOfHex(n / 16);
    } else {
      assert Hex(n)[..0] == [];
    }
  }

  /** ASCII control characters other than the four with a short escape. */
  predicate IsOtherControl(c: char)
  {
    ((c as int) < 0x20 || (c as int) == 0x7F) && c != '\0' && c != '\t' && c != '\r' && c != '\n'
  }

  /** The character a short backslash escape stands for. */
  function ShortEscaped(e: char): Option<char>
  {
    match e
    case '0' => Some('\0')
    case 't' => Some('\t')
    case 'r' => Some('\r')
    case 'n' => Some('\n')
    case '\\' => Some('\\')
    case '"' => Some('"')
    case '\'' => Some('\'')
    case _ => None
  }

  /** `char::escape_debug` for one character. */
  function EscapeChar(c: char): (r: string)
    ensures |r| > 0 && r[0] != '"'
    ensures r[0] != '\\' <==> r == [c]
    ensures r[0] == '\\' ==> |r| >= 2
  {
    match c
    case '\0' => "\\0"
    case '\t' => "\\t"
    case '\r' => "\\r"
    case '\n' => "\\n"
    case '\\' => "\\\\"
    case '"' => "\\\""
    case '\'' => "\\'"
    case _ => if IsOtherControl(c) then "\\u{" + Hex(c as int) + "}" else [c]
  }

  /** The text of a `{:?}` rendering without its quotes; unchanged exactly when no character needs a backslash. */
  function EscapeDebug(s: string): (r: string)
    ensures |r| >= |s|
    ensures r == s <==> forall i :: 0 <= i < |s| ==> EscapeChar(s[i]) == [s[i]]
  {
    if s == [] then []
    else
      var e, rest := EscapeChar(s[0]), EscapeDebug(s[1..]);
      assert (forall i :: 0 <= i < |s| ==> EscapeChar(s[i]) == [s[i]])
        <==> e == [s[0]] && forall i :: 0 <= i < |s[1..]| ==> EscapeChar(s[1..][i]) == [s[1..][i]];
      assert e + rest == s ==> e == [s[0]] && rest == s[1..];
      e + rest
  }

  /** `{:?}` of a path: its escaped text in double quotes. */
  function DebugQuoted(s: string): (r: string)
    ensures |r| >= |s| + 2 && r[0] == '"' && r[|r| - 1] == '"'
  {
    "\"" + EscapeDebug(s) + "\""
  }

  /** How many hexadecimal digits `s` starts with. */
  function HexRunLength(s: string): (k: nat)
    ensures k <= |s|
    ensures forall i :: 0 <= i < k ==> IsHexDigit(s[i])
    ensures k < |s| ==> !IsHexDigit(s[k])
  {
    if s == [] || !IsHexDigit(s[0]) then 0 else 1 + HexRunLength(s[1..])
  }

  function Prepend(c: char, rest: Option<string>): Option<string>
  {
    match rest
    case Some(s) => Some([c] + s)
    case None => None
  }

  predicate IsScalar(n: nat)
  {
    n < 0xD800 || (0xE000 <= n < 0x11_0000)
  }

  /**
   * Reads the inside of a `{:?}` rendering back into the original text; an
   * unescaped double quote or an unknown escape makes it fail.
   */
  function Unescape(t: string): Option<string>
    decreases |t|
  {
    if t == [] then Some([])
    else if t[0] == '"' then None
    else if t[0] != '\\' then Prepend(t[0], Unescape(t[1..]))
    else if |t| < 2 then None
    else if t[1] == 'u' then
      if |t| < 3 || t[2] != '{' then None
      else
        var k := HexRunLength(t[3..]);
        if k == 0 || 3 + k >= |t| || t[3 + k] != '}' then None
        else
          var v := ParseHex(t[3..3 + k]);
          if IsScalar(v) then Prepend(v as char, Unescape(t[4 + k..])) else None
    else
      match ShortEscaped(t[1])
      case Some(c) => Prepend(c, Unescape(t[2..]))
      case None => None
  }

  /** Strips the quotes of a `{:?}` rendering and unescapes what is inside. */
  function Unquote(q: string): Option<string>
  {
    if |q| >= 2 && q[0] == '"' && q[|q| - 1] == '"' then Unescape(q[1..|q| - 1]) else None
  }

  lemma HexRunOfHex(n: nat, rest: string)
    requires rest != [] && !IsHexDigit(rest[0])
    ensures HexRunLength(Hex(n) + rest) == |Hex(n)|
  {
    var t := Hex(n) + rest;
    assert forall i :: 0 <= i < |Hex(n)| ==> t[i] == Hex(n)[i];
    assert t[|Hex(n)|] == rest[0];
  }

  /** A control character's `\u{..}` escape reads back to the character. */
  lemma UnescapeHexEscape(c: char, u: string)
    requires IsOtherControl(c) && c != '\\' && c != '"' && c != '\''
    ensures Unescape(EscapeChar(c) + u) == Prepend(c, Unescape(u))
  {
    var t := EscapeChar(c) + u;
    var h := Hex(c as int);
    assert t == "\\u{" + h + ("}" + u);
    assert t[3..] == h + ("}" + u);
    HexRunOfHex(c as int, "}" + u);
    assert t[3..3 + |h|] == h;
    ParseHexOfHex(c as int);
    assert t[4 + |h|..] == u;
  }

  lemma UnescapeEscapeChar(c: char, u: string)
    ensures Unescape(EscapeChar(c) + u) == Prepend(c, Unescape(u))
  {
    var t := EscapeChar(c) + u;
    if IsOtherControl(c) && c != '\\' && c != '"' && c != '\'' {
      UnescapeHexEscape(c, u);
    } else if EscapeChar(c) == [c] {
      assert t[1..] == u;
    } else {
      assert t[2..] == u;
    }
  }

  /** Escaping loses nothing: the rendering reads back to the original text. */
  lemma {:induction false} UnescapeEscapeDebug(s: string)
    ensures Unescape(EscapeDebug(s)) == Some(s)
  {
    if s != [] {
      UnescapeEscapeChar(s[0], EscapeDebug(s[1..]));
      UnescapeEscapeDebug(s[1..]);
      assert s == [s[0]] + s[1..];
    }
  }

  lemma UnquoteDebugQuoted(s: string)
    ensures Unquote(DebugQuoted(s)) == Some(s)
  {
    var q := DebugQuoted(s);
    assert q[1..|q| - 1] == EscapeDebug(s);
    UnescapeEscapeDebug(s);
  }

  /** Distinct paths are never rendered alike. */
  lemma DebugQuotedInjective(s1: string, s2: string)
    requires DebugQuoted(s1) == DebugQuoted(s2)
    ensures s1 == s2
  {
    UnquoteDebugQuoted(s1);
    UnquoteDebugQuoted(s2);
  }

  /** Letters need no escape. */
  lemma PlainNameUnchanged()
    ensures EscapeDebug("bin") == "bin"
  {
    assert EscapeChar('b') == "b" && EscapeChar('i') == "i" && EscapeChar('n') == "n";
    assert forall i :: 0 <= i < |"bin"| ==> EscapeChar("bin"[i]) == ["bin"[i]];
  }

  lemma ExampleWindowsPath()
    ensures DebugQuoted("C:\\bin") == "\"C:\\\\bin\""
  {
    var s := "C:\\bin";
    PlainNameUnchanged();
    assert s[1..] == ":\\bin" && s[1..][1..] == "\\bin" && s[1..][1..][1..] == "bin";
    assert EscapeDebug("\\bin") == "\\\\" + "bin";
  }
}
