/** printq of template/parse.y, and how a C compiler reads back what it prints. */
module CLiteral {
  import opened Common

  /** What printq puts between the quotes: only '"' gets a backslash. */
  function Quoted(s: string): string {
    if s == "" then ""
    else (if s[0] == '"' then "\\\"" else [s[0]]) + Quoted(s[1..])
  }

  function Printq(s: string): string {
    "\"" + Quoted(s) + "\""
  }

  // ------------------------------------------------------- C string literals

  predicate IsOctal(c: char) { '0' <= c <= '7' }

  predicate IsHex(c: char) { '0' <= c <= '9' || 'a' <= c <= 'f' || 'A' <= c <= 'F' }

  function OctalRun(s: string, most: nat): (n: nat)
    ensures n <= |s| && n <= most && forall c :: c in s[..n] ==> IsOctal(c)
  {
    if most == 0 || s == "" || !IsOctal(s[0]) then 0 else 1 + OctalRun(s[1..], most - 1)
  }

  function HexRun(s: string): (n: nat)
    ensures n <= |s| && forall c :: c in s[..n] ==> IsHex(c)
  {
    if s == "" || !IsHex(s[0]) then 0 else 1 + HexRun(s[1..])
  }

  function OctalValue(s: string): int
    requires forall c :: c in s ==> IsOctal(c)
  {
    if s == "" then 0 else 8 * OctalValue(s[..|s| - 1]) + (s[|s| - 1] as int - '0' as int)
  }

  function HexValue(s: string): int
    requires forall c :: c in s ==> IsHex(c)
  {
    if s == "" then 0
    else
      var c := s[|s| - 1];
      16 * HexValue(s[..|s| - 1]) +
      (if c <= '9' then c as int - '0' as int
       else if c <= 'F' then c as int - 'A' as int + 10
       else c as int - 'a' as int + 10)
  }

  predicate IsSimple(c: char) { c in "abfnrtv\\'\"?" }

  function Simple(c: char): char {
    match c
    case 'a' => 7 as char
    case 'b' => 8 as char
    case 'f' => 12 as char
    case 'n' => '\n'
    case 'r' => '\r'
    case 't' => '\t'
    case 'v' => 11 as char
    case _ => c
  }

  /**
   * An escape sequence after its backslash: the character, and how much spells
   * it. None where there is none, and for a universal character name or a
   * spliced line, whose two characters or more too few leave every literal
   * that printq prints too short to be read as far as it is.
   */
  function EscapeAt(s: string): (r: Option<(char, nat)>)
    requires s != ""
    ensures r.Some? ==> 1 <= r.value.1 <= |s|
  {
    if IsOctal(s[0]) then
      var n := OctalRun(s, 3);
      Some(((OctalValue(s[..n]) % 256) as char, n))
    else if s[0] == 'x' then
      var n := HexRun(s[1..]);
      if n == 0 then None else Some(((HexValue(s[1..][..n]) % 256) as char, n + 1))
    else if IsSimple(s[0]) then Some((Simple(s[0]), 1))
    else None
  }

  /** The rest of a literal after its opening quote, which must end where the text ends. */
  function Decoded(s: string): Option<string>
    decreases |s|
  {
    if s == "" || s[0] == '\n' then None
    else if s[0] == '"' then (if |s| == 1 then Some("") else None)
    else if s[0] == '\\' then
      if |s| == 1 || EscapeAt(s[1..]).None? then None
      else
        var (c, n) := EscapeAt(s[1..]).value;
        match Decoded(s[1 + n..])
        case None => None
        case Some(t) => Some([c] + t)
    else
      match Decoded(s[1..])
      case None => None
      case Some(t) => Some([s[0]] + t)
  }

  function Decode(s: string): Option<string> {
    if s != "" && s[0] == '"' then Decoded(s[1..]) else None
  }

  const NUL := 0 as char

  /** The first `len` characters of the array that a literal is, its NUL included; None beyond it. */
  function FirstOf(literal: string, len: nat): Option<string> {
    match Decode(literal)
    case None => None
    case Some(d) => if len <= |d| + 1 then Some((d + [NUL])[..len]) else None
  }

  // ------------------------------------------------------------ reading back

  predicate Plain(c: char) { c != '\\' && c != '\n' }

  function Body(s: string): string { Quoted(s) + "\"" }

  lemma BodyCons(s: string)
    requires s != ""
    ensures Body(s) == (if s[0] == '"' then "\\\"" else [s[0]]) + Body(s[1..])
  {
  }

  lemma BodyFirst(s: string)
    ensures Body(s)[0] == if s == "" then '"' else if s[0] == '"' then '\\' else s[0]
  {
  }

  lemma {:induction false} DecodeQuote(t: string)
    ensures Decoded("\\\"" + t) == match Decoded(t) case None => None case Some(d) => Some("\"" + d)
  {
    var s := "\\\"" + t;
    assert s[0] == '\\' && s[1..][0] == '"' && s[1..] == "\"" + t;
    assert EscapeAt(s[1..]) == Some(('"', 1));
    assert s[2..] == t;
  }

  lemma {:induction false} DecodePlain(c: char, t: string)
    requires Plain(c) && c != '"'
    ensures Decoded([c] + t) == match Decoded(t) case None => None case Some(d) => Some([c] + d)
  {
    assert ([c] + t)[1..] == t;
  }

  lemma {:induction false} OctalInside(t: string, most: nat)
    ensures OctalRun(Body(t), most) == OctalRun(t, most) && Body(t)[..OctalRun(t, most)] == t[..OctalRun(t, most)]
    decreases |t|
  {
    BodyFirst(t);
    if most > 0 && t != "" && IsOctal(t[0]) {
      BodyCons(t);
      assert Body(t)[1..] == Body(t[1..]);
      OctalInside(t[1..], most - 1);
      var n := OctalRun(t[1..], most - 1);
      assert Body(t)[..n + 1] == [t[0]] + Body(t[1..])[..n] && t[..n + 1] == [t[0]] + t[1..][..n];
    }
  }

  lemma {:induction false} HexInside(t: string)
    ensures HexRun(Body(t)) == HexRun(t) && Body(t)[..HexRun(t)] == t[..HexRun(t)]
    decreases |t|
  {
    BodyFirst(t);
    if t != "" && IsHex(t[0]) {
      BodyCons(t);
      assert Body(t)[1..] == Body(t[1..]);
      HexInside(t[1..]);
      var n := HexRun(t[1..]);
      assert Body(t)[..n + 1] == [t[0]] + Body(t[1..])[..n] && t[..n + 1] == [t[0]] + t[1..][..n];
    }
  }

  /** Digits after a backslash are digits of the text, for a quote in it brings its own backslash. */
  lemma {:induction false} RunInside(t: string, k: nat)
    requires k <= |Body(t)| && forall c :: c in Body(t)[..k] ==> c != '"' && c != '\\'
    ensures k <= |t| && Body(t)[k..] == Body(t[k..])
  {
    if k == 0 {
      assert t[0..] == t && Body(t)[0..] == Body(t);
    } else {
      var b := Body(t);
      assert b[0] in b[..k];
      BodyFirst(t);
      BodyCons(t);
      assert t[0] != '"';
      assert b[1..] == Body(t[1..]);
      assert b[1..][..k - 1] == b[1..k];
      assert forall c :: c in b[1..k] ==> c in b[..k];
      RunInside(t[1..], k - 1);
      assert b[1..][k - 1..] == b[k..] && t[1..][k - 1..] == t[k..];
    }
  }

  /** An escape sequence `n` long is one of the text, and what follows it is what is printed of the rest. */
  ghost predicate Inside(t: string, b: string)
    requires t != "" && b != ""
  {
    EscapeAt(b) == EscapeAt(t) &&
    (EscapeAt(t).Some? ==> var n := EscapeAt(t).value.1; b[n..] == Body(t[n..]) && '\n' !in t[..n])
  }

  lemma {:induction false} OctalEscape(t: string)
    requires t != "" && IsOctal(t[0])
    ensures Inside(t, Body(t))
  {
    BodyFirst(t);
    OctalInside(t, 3);
    RunInside(t, OctalRun(t, 3));
  }

  lemma {:induction false} HexEscape(t: string)
    requires t != "" && t[0] == 'x'
    ensures Inside(t, Body(t))
  {
    var b, n := Body(t), HexRun(t[1..]);
    BodyCons(t);
    assert b[0] == 'x' && b[1..] == Body(t[1..]);
    HexInside(t[1..]);
    RunInside(t[1..], n);
    assert b[1..][n..] == b[n + 1..] && t[1..][n..] == t[n + 1..];
    assert t[..n + 1] == [t[0]] + t[1..][..n];
  }

  /** An escape sequence that starts with a character of the text is one of the text. */
  lemma {:induction false} EscapeInside(t: string)
    requires t != "" && t[0] != '"'
    ensures Inside(t, Body(t))
  {
    if IsOctal(t[0]) {
      OctalEscape(t);
    } else if t[0] == 'x' {
      HexEscape(t);
    } else {
      BodyCons(t);
      assert Body(t)[0] == t[0] && Body(t)[1..] == Body(t[1..]);
    }
  }

  lemma EndsInside()
    ensures Decoded("\\" + Body("")).None?
  {
    var b := "\\" + Body("");
    assert b[1..] == "\"" && EscapeAt(b[1..]) == Some(('"', 1)) && b[2..] == "";
  }

  lemma {:induction false} DecodeEscape(s: string)
    requires s != ""
    ensures Decoded("\\" + s) ==
            if EscapeAt(s).None? then None
            else
              match Decoded(s[EscapeAt(s).value.1..])
              case None => None
              case Some(d) => Some([EscapeAt(s).value.0] + d)
  {
    var b := "\\" + s;
    assert b[1..] == s;
    if EscapeAt(s).Some? { assert b[1 + EscapeAt(s).value.1..] == s[EscapeAt(s).value.1..]; }
  }

  /** A text's own backslash takes the one put before a quote, and the quote ends the literal. */
  lemma {:induction false} EndsEarly(t: string)
    requires t != ""
    ensures Decoded("\\" + ("\\\"" + t)).None?
  {
    var s := "\\" + ("\\\"" + t);
    assert s[0] == '\\' && s[1..][0] == '\\';
    assert EscapeAt(s[1..]) == Some(('\\', 1));
    assert s[2..] == "\"" + t && (s[2..])[0] == '"' && |s[2..]| > 1;
  }

  predicate PlainText(t: string) { forall c :: c in t ==> Plain(c) }

  /** The backslash at the start of the text starts an escape sequence of it. */
  predicate Escapes(t: string) {
    |t| > 1 && t[0] == '\\' && t[1] != '"' && EscapeAt(t[1..]).Some?
  }

  /** How many characters spell it. */
  function EscapeSize(t: string): (n: nat)
    requires Escapes(t)
    ensures 2 <= n <= |t|
  {
    1 + EscapeAt(t[1..]).value.1
  }

  /** A backslash in the text starts an escape sequence of it, or the literal is malformed. */
  lemma {:induction false} DecodeBackslash(t: string)
    requires t != "" && t[0] == '\\'
    ensures !Escapes(t) ==> Decoded(Body(t)).None?
    ensures Escapes(t) ==>
              Decoded(Body(t)) ==
              match Decoded(Body(t[EscapeSize(t)..]))
              case None => None
              case Some(d) => Some([EscapeAt(t[1..]).value.0] + d)
  {
    var rest := t[1..];
    BodyCons(t);
    if rest == "" {
      EndsInside();
    } else if rest[0] == '"' {
      BodyCons(rest);
      EndsEarly(Body(rest[1..]));
    } else {
      EscapeInside(rest);
      DecodeEscape(Body(rest));
      if EscapeAt(rest).Some? { assert rest[EscapeAt(rest).value.1..] == t[EscapeSize(t)..]; }
    }
  }

  lemma {:induction false} NoNewlineInside(t: string)
    requires Escapes(t)
    ensures '\n' in t ==> '\n' in t[EscapeSize(t)..]
  {
    var rest := t[1..];
    var n := EscapeAt(rest).value.1;
    EscapeInside(rest);
    assert t == ([t[0]] + rest[..n]) + t[n + 1..];
  }

  /** Reading back never gives more characters than were printed, and fewer once there is a backslash. */
  lemma {:induction false} ReadBack(t: string)
    ensures PlainText(t) ==> Decoded(Body(t)) == Some(t)
    ensures Decoded(Body(t)).Some? ==> |Decoded(Body(t)).value| <= |t|
    ensures '\\' in t && Decoded(Body(t)).Some? ==> |Decoded(Body(t)).value| < |t|
    ensures '\n' in t ==> Decoded(Body(t)).None?
    decreases |t|
  {
    if t == "" {
      assert Body(t) == "\"";
    } else {
      BodyCons(t);
      var rest := t[1..];
      assert t == [t[0]] + rest;
      if t[0] == '"' {
        ReadBack(rest);
        DecodeQuote(Body(rest));
      } else if t[0] == '\\' {
        assert t[0] in t && !Plain(t[0]);
        ReadBackslash(t);
      } else if t[0] != '\n' {
        ReadBack(rest);
        DecodePlain(t[0], Body(rest));
      } else {
        assert t[0] in t && !Plain(t[0]);
      }
    }
  }

  lemma {:induction false} ReadBackslash(t: string)
    requires t != "" && t[0] == '\\'
    ensures Decoded(Body(t)).Some? ==> |Decoded(Body(t)).value| < |t|
    ensures '\n' in t ==> Decoded(Body(t)).None?
    decreases |t|, 0
  {
    DecodeBackslash(t);
    if Escapes(t) {
      ReadBack(t[EscapeSize(t)..]);
      NoNewlineInside(t);
    }
  }

  /** The literal reads back as the text exactly when the text has no backslash and no newline. */
  lemma {:induction false} PrintqExact(s: string)
    ensures Decode(Printq(s)) == Some(s) <==> forall c :: c in s ==> Plain(c)
  {
    ReadBack(s);
    assert Printq(s)[1..] == Body(s);
  }

  // -------------------------------------------------------- one character too few

  /** One escape sequence of two characters, and no other backslash or newline. */
  predicate OneEscape(t: string) {
    t != "" &&
    if t[0] == '\\' then Escapes(t) && EscapeSize(t) == 2 && PlainText(t[2..])
    else t[0] != '\n' && OneEscape(t[1..])
  }

  /** The text with that escape read. */
  function Unescaped(t: string): string
    requires OneEscape(t)
  {
    if t[0] == '\\' then [EscapeAt(t[1..]).value.0] + t[2..] else [t[0]] + Unescaped(t[1..])
  }

  lemma PlainOr(t: string)
    ensures PlainText(t) || '\\' in t || '\n' in t
  {
    if !PlainText(t) {
      var c :| c in t && !Plain(c);
    }
  }

  lemma {:induction false} ReadShort(t: string)
    ensures OneEscape(t) <==> Decoded(Body(t)).Some? && |Decoded(Body(t)).value| + 1 == |t|
    ensures OneEscape(t) ==> Decoded(Body(t)) == Some(Unescaped(t))
    decreases |t|
  {
    ReadBack(t);
    if t != "" {
      var rest := t[1..];
      if t[0] == '\\' {
        DecodeBackslash(t);
        if Escapes(t) {
          ReadBack(t[EscapeSize(t)..]);
          PlainOr(t[EscapeSize(t)..]);
        }
      } else if t[0] != '\n' {
        BodyCons(t);
        ReadShort(rest);
        if t[0] == '"' { DecodeQuote(Body(rest)); } else { DecodePlain(t[0], Body(rest)); }
      } else {
        assert t[0] in t;
      }
    }
  }

  lemma OneDigit(s: string)
    requires |s| == 1 && IsOctal(s[0])
    ensures OctalValue(s) == s[0] as int - '0' as int
  {
    assert s[..0] == "";
  }

  /** Only a backslash is escaped to one in two characters. */
  lemma EscapedBackslash(s: string)
    requires s != ""
    ensures EscapeAt(s) == Some(('\\', 1)) ==> s[0] == '\\'
  {
    if IsOctal(s[0]) { OneDigit(s[..1]); }
  }

  /** It never reads as the text it stands for. */
  lemma {:induction false} ShortDiffers(t: string)
    requires OneEscape(t)
    ensures |Unescaped(t)| + 1 == |t| && Unescaped(t) + [NUL] != t
  {
    var u := Unescaped(t) + [NUL];
    if t[0] == '\\' {
      EscapedBackslash(t[1..]);
      if |t| > 2 { assert t[2] in t[2..] && u[1] == t[2]; }
      assert u[0] != t[0] || u[1] != t[1];
    } else {
      ShortDiffers(t[1..]);
      assert u[1..] == Unescaped(t[1..]) + [NUL];
    }
  }

  /** What is read of the literal of a text when as many characters are taken as the text has. */
  function Spelled(text: string): Option<string> {
    FirstOf(Printq(text), |text|)
  }

  /**
   * Exactly: plain text is read as it stands; text with one escape of two
   * characters is read with the escape replaced and the literal's NUL after it;
   * any other text has a literal that is malformed or ends too soon.
   */
  lemma {:induction false} SpelledExact(text: string)
    ensures Spelled(text) ==
            if PlainText(text) then Some(text)
            else if OneEscape(text) then Some(Unescaped(text) + [NUL])
            else None
    ensures Spelled(text) == Some(text) <==> PlainText(text)
  {
    ReadBack(text);
    ReadShort(text);
    PlainOr(text);
    assert Printq(text)[1..] == Body(text);
    assert (text + [NUL])[..|text|] == text;
    if OneEscape(text) {
      ShortDiffers(text);
      var u := Unescaped(text) + [NUL];
      assert u[..|text|] == u;
    }
  }
}
