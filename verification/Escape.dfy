/** The escaping writers of template/tmpl.c. Strings are C strings: NUL-free bytes. */
module Escape {
  import opened Common
  import opened Tmpl

  // -------------------------------------------------------------- HTML escaping

  /** The switch of tp_htmlescape. */
  function HtmlChar(c: char): (s: string)
    ensures s != []
  {
    match c
    case '<' => "&lt;"
    case '>' => "&gt;"
    case '&' => "&amp;"
    case '"' => "&quot;"
    case '\'' => "&apos;"
    case _ => [c]
  }

  function HtmlEscape(s: string): string {
    if s == "" then "" else HtmlChar(s[0]) + HtmlEscape(s[1..])
  }

  predicate StartsWith(s: string, p: string) {
    |p| <= |s| && s[..|p|] == p
  }

  /** The first character a text stands for, and how much of the text spells it. */
  function Entity(s: string): (r: (nat, char))
    requires s != ""
    ensures 1 <= r.0 <= |s|
  {
    if StartsWith(s, "&lt;") then (4, '<')
    else if StartsWith(s, "&gt;") then (4, '>')
    else if StartsWith(s, "&amp;") then (5, '&')
    else if StartsWith(s, "&quot;") then (6, '"')
    else if StartsWith(s, "&apos;") then (6, '\'')
    else (1, s[0])
  }

  /** Replacing the five entities by their characters. */
  function HtmlUnescape(s: string): string
    decreases |s|
  {
    if s == "" then "" else var (n, c) := Entity(s); [c] + HtmlUnescape(s[n..])
  }

  lemma StartsWithOwn(e: string, t: string)
    ensures StartsWith(e + t, e)
  {
    assert (e + t)[..|e|] == e;
  }

  /** Text that starts with one entity starts with no other. */
  lemma StartsWithOther(e: string, t: string, p: string, i: nat)
    requires i < |e| && i < |p| && e[i] != p[i]
    ensures !StartsWith(e + t, p)
  {
    assert (e + t)[i] == e[i];
    assert |p| <= |e + t| ==> (e + t)[..|p|][i] == (e + t)[i];
  }

  lemma EntityOf(c: char, t: string)
    ensures Entity(HtmlChar(c) + t) == (|HtmlChar(c)|, c)
  {
    var e := HtmlChar(c);
    StartsWithOwn(e, t);
    if c == '<' {
    } else if c == '>' {
      StartsWithOther(e, t, "&lt;", 1);
    } else if c == '&' {
      StartsWithOther(e, t, "&lt;", 1);
      StartsWithOther(e, t, "&gt;", 1);
    } else if c == '"' {
      StartsWithOther(e, t, "&lt;", 1);
      StartsWithOther(e, t, "&gt;", 1);
      StartsWithOther(e, t, "&amp;", 1);
    } else if c == '\'' {
      StartsWithOther(e, t, "&lt;", 1);
      StartsWithOther(e, t, "&gt;", 1);
      StartsWithOther(e, t, "&amp;", 2);
      StartsWithOther(e, t, "&quot;", 1);
    } else {
      StartsWithOther(e, t, "&lt;", 0);
      StartsWithOther(e, t, "&gt;", 0);
      StartsWithOther(e, t, "&amp;", 0);
      StartsWithOther(e, t, "&quot;", 0);
      StartsWithOther(e, t, "&apos;", 0);
    }
  }

  lemma {:induction false} UnescapeFirst(c: char, t: string)
    ensures HtmlUnescape(HtmlChar(c) + t) == [c] + HtmlUnescape(t)
  {
    EntityOf(c, t);
    assert (HtmlChar(c) + t)[|HtmlChar(c)|..] == t;
  }

  /** Un-escaping inverts escaping, so no two texts escape alike. */
  lemma {:induction false} HtmlRoundTrip(s: string)
    ensures HtmlUnescape(HtmlEscape(s)) == s
  {
    if s != "" {
      HtmlRoundTrip(s[1..]);
      UnescapeFirst(s[0], HtmlEscape(s[1..]));
      assert s == [s[0]] + s[1..];
    }
  }

  predicate Markup(c: char) {
    c == '<' || c == '>' || c == '"' || c == '\''
  }

  /** Escaped text holds no character that could open or close a tag or an attribute. */
  lemma {:induction false} HtmlEscapeSafe(s: string)
    ensures forall c :: c in HtmlEscape(s) ==> !Markup(c)
  {
    if s != "" {
      HtmlEscapeSafe(s[1..]);
      assert forall c :: c in HtmlChar(s[0]) ==> !Markup(c);
    }
  }

  // --------------------------------------------------------------- URL escaping

  /** iscntrl, with bytes from 0x80 up taken as printable. */
  predicate IsControl(c: char) {
    (c as int) < 0x20 || (c as int) == 0x7f
  }

  predicate UrlSpecial(c: char) {
    IsControl(c) || c == ' ' || c == '\'' || c == '"' || c == '\\'
  }

  /** Controls whose code has one hexadecimal digit: "%2X" pads them with a space. */
  predicate LowControl(c: char) {
    (c as int) < 0x10
  }

  function HexDigit(n: int): char
    requires 0 <= n < 16
  {
    "0123456789ABCDEF"[n]
  }

  function UrlChar(c: char): (s: string)
    ensures s != []
  {
    if !UrlSpecial(c) then [c]
    else if LowControl(c) then ['%', ' ', HexDigit(c as int)]
    else ['%', HexDigit(c as int / 16), HexDigit(c as int % 16)]
  }

  function UrlEscape(s: string): string {
    if s == "" then "" else UrlChar(s[0]) + UrlEscape(s[1..])
  }

  predicate IsHex(c: char) {
    '0' <= c <= '9' || 'A' <= c <= 'F' || 'a' <= c <= 'f'
  }

  function HexValue(c: char): (n: int)
    requires IsHex(c)
    ensures 0 <= n < 16
  {
    if c <= '9' then c as int - '0' as int
    else if c <= 'F' then c as int - 'A' as int + 10
    else c as int - 'a' as int + 10
  }

  lemma HexDigitValue(n: int)
    requires 0 <= n < 16
    ensures IsHex(HexDigit(n)) && HexValue(HexDigit(n)) == n
  {
  }

  predicate TwoHex(s: string) {
    |s| >= 2 && IsHex(s[0]) && IsHex(s[1])
  }

  /** Percent-decoding (section 2.1 of RFC 3986); a '%' without two digits stands for itself. */
  function PercentDecode(s: string): string
    decreases |s|
  {
    if s == "" then ""
    else if s[0] == '%' && TwoHex(s[1..]) then
      [(16 * HexValue(s[1]) + HexValue(s[2])) as char] + PercentDecode(s[3..])
    else [s[0]] + PercentDecode(s[1..])
  }

  lemma {:induction false} DecodePlain(c: char, t: string)
    requires c != '%'
    ensures PercentDecode([c] + t) == [c] + PercentDecode(t)
  {
    assert ([c] + t)[1..] == t;
  }

  lemma {:induction false} DecodePercent(t: string)
    ensures PercentDecode("%" + t) ==
            if TwoHex(t) then [(16 * HexValue(t[0]) + HexValue(t[1])) as char] + PercentDecode(t[2..])
            else "%" + PercentDecode(t)
  {
    var s := "%" + t;
    assert s[1..] == t;
    if TwoHex(t) { assert s[3..] == t[2..]; }
  }

  lemma {:induction false} DecodeCoded(c: char, t: string)
    requires UrlSpecial(c) && !LowControl(c)
    ensures PercentDecode(UrlChar(c) + t) == [c] + PercentDecode(t)
  {
    var h := [HexDigit(c as int / 16), HexDigit(c as int % 16)];
    assert UrlChar(c) + t == "%" + (h + t);
    DecodePercent(h + t);
    HexDigitValue(c as int / 16);
    HexDigitValue(c as int % 16);
    assert (h + t)[2..] == t;
  }

  lemma ThreeChars(a: char, b: char, c: char, t: string)
    ensures [a, b, c] + t == [a] + ([b] + ([c] + t))
  {
  }

  lemma {:induction false} DecodePadded(d: char, t: string)
    requires d != '%'
    ensures PercentDecode(['%', ' ', d] + t) == ['%', ' ', d] + PercentDecode(t)
  {
    ThreeChars('%', ' ', d, t);
    ThreeChars('%', ' ', d, PercentDecode(t));
    DecodePercent([' '] + ([d] + t));
    DecodePlain(' ', [d] + t);
    DecodePlain(d, t);
  }

  lemma {:induction false} DecodeBroken(c: char, t: string)
    requires LowControl(c)
    ensures PercentDecode(UrlChar(c) + t) == UrlChar(c) + PercentDecode(t)
  {
    HexDigitValue(c as int);
    DecodePadded(HexDigit(c as int), t);
  }

  /** Escaping never creates or destroys a pair of digits after a '%'. */
  lemma {:induction false} EscapeTwoHex(t: string)
    ensures TwoHex(UrlEscape(t)) <==> TwoHex(t)
    ensures TwoHex(t) ==> UrlEscape(t) == t[..2] + UrlEscape(t[2..])
  {
    if t != "" {
      assert UrlSpecial(t[0]) ==> UrlEscape(t)[0] == '%';
      if |t| >= 2 {
        assert t[1..][0] == t[1] && t[1..][1..] == t[2..];
        assert UrlSpecial(t[1]) ==> UrlEscape(t[1..])[0] == '%';
      } else {
        assert t[1..] == "";
      }
    }
  }

  function LowControls(s: string): nat {
    if s == "" then 0 else (if LowControl(s[0]) then 1 else 0) + LowControls(s[1..])
  }

  lemma {:induction false} UrlDecodeEscape(s: string)
    ensures LowControls(s) == 0 ==> PercentDecode(UrlEscape(s)) == PercentDecode(s)
    ensures |PercentDecode(UrlEscape(s))| == |PercentDecode(s)| + 2 * LowControls(s)
    decreases |s|
  {
    if s != "" {
      var c, t := s[0], s[1..];
      assert s == [c] + t;
      UrlDecodeEscape(t);
      if UrlSpecial(c) {
        if LowControl(c) { DecodeBroken(c, UrlEscape(t)); } else { DecodeCoded(c, UrlEscape(t)); }
        DecodePlain(c, t);
      } else if c != '%' {
        DecodePlain(c, UrlEscape(t));
        DecodePlain(c, t);
      } else {
        DecodePercent(t);
        DecodePercent(UrlEscape(t));
        EscapeTwoHex(t);
        if TwoHex(t) {
          UrlDecodeEscape(t[2..]);
          assert t[1..][1..] == t[2..];
          assert (t[..2] + UrlEscape(t[2..]))[2..] == UrlEscape(t[2..]);
        }
      }
    }
  }

  lemma {:induction false} LowControlsZero(s: string)
    ensures LowControls(s) == 0 <==> forall c :: c in s ==> !LowControl(c)
  {
    if s != "" {
      LowControlsZero(s[1..]);
      assert s == [s[0]] + s[1..];
    }
  }

  /**
   * Percent-decoding the escaped text gives what decoding the text itself
   * gives, exactly when the text has no control byte below 0x10.
   */
  lemma UrlEscapeExact(s: string)
    ensures PercentDecode(UrlEscape(s)) == PercentDecode(s) <==> forall c :: c in s ==> !LowControl(c)
  {
    UrlDecodeEscape(s);
    LowControlsZero(s);
  }

  lemma HexDigitPlain(n: int)
    requires 0 <= n < 16
    ensures !UrlSpecial(HexDigit(n))
  {
  }

  lemma UrlCharSafe(c: char)
    ensures forall d :: d in UrlChar(c) ==> !IsControl(d) && d != '"' && d != '\'' && d != '\\'
  {
    if UrlSpecial(c) {
      HexDigitPlain(c as int / 16);
      HexDigitPlain(c as int % 16);
    }
  }

  /**
   * An escaped URL cannot end the attribute it is written into: it holds no
   * quote, and no control byte or backslash either.
   */
  lemma {:induction false} UrlEscapeSafe(s: string)
    ensures forall c :: c in UrlEscape(s) ==> !IsControl(c) && c != '"' && c != '\'' && c != '\\'
  {
    if s != "" {
      UrlEscapeSafe(s[1..]);
      UrlCharSafe(s[0]);
    }
  }

  /** A blank is left exactly by the control bytes below 0x10. */
  lemma {:induction false} UrlEscapeBlank(s: string)
    ensures ' ' !in UrlEscape(s) <==> forall c :: c in s ==> !LowControl(c)
  {
    if s != "" {
      UrlEscapeBlank(s[1..]);
      assert s == [s[0]] + s[1..];
      assert ' ' in UrlChar(s[0]) <==> LowControl(s[0]);
    }
  }

  // ------------------------------------------------------------- the two loops

  /** tp_htmlescape. */
  method WriteHtml(tp: Template<char>, s: string)
    requires tp.Valid()
    modifies tp, tp.buf
    ensures tp.Valid() && tp.Total() == old(tp.Total()) + HtmlEscape(s)
    ensures old(tp.chunks) <= tp.chunks
  {
    var str := s;
    while str != ""
      invariant old(tp.chunks) <= tp.chunks
      invariant tp.Valid() && tp.Total() + HtmlEscape(str) == old(tp.Total()) + HtmlEscape(s)
      decreases |str|
    {
      Assoc(tp.Total(), HtmlChar(str[0]), HtmlEscape(str[1..]));
      tp.Write(HtmlChar(str[0]));
      str := str[1..];
    }
  }

  /** tp_urlescape. */
  method WriteUrl(tp: Template<char>, s: string)
    requires tp.Valid()
    modifies tp, tp.buf
    ensures tp.Valid() && tp.Total() == old(tp.Total()) + UrlEscape(s)
    ensures old(tp.chunks) <= tp.chunks
  {
    var str := s;
    while str != ""
      invariant old(tp.chunks) <= tp.chunks
      invariant tp.Valid() && tp.Total() + UrlEscape(str) == old(tp.Total()) + UrlEscape(s)
      decreases |str|
    {
      Assoc(tp.Total(), UrlChar(str[0]), UrlEscape(str[1..]));
      tp.Write(UrlChar(str[0]));
      str := str[1..];
    }
  }
}
