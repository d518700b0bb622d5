/**
 * A page read back from its characters: tags with the values of their
 * attributes, and the text between them, entities replaced.
 */
module Browser {
  import opened Common
  import opened Escape
  import opened Html

  // ------------------------------------------------------------------- the reader

  /** One character of text, or a tag. */
  datatype Token =
    | Txt(c: char)
    | Begin(name: string, attrs: seq<(string, string)>)
    | Void(name: string, attrs: seq<(string, string)>)
    | Finish(name: string)
    | Declared

  /** Where the '>' is that ends a tag: the first outside quotes. */
  function TagEnd(s: string, quote: Option<char>): (r: Option<nat>)
    ensures r.Some? ==> r.value < |s|
  {
    if s == "" then None
    else
      match quote
      case None =>
        if s[0] == '>' then Some(0) else Later(TagEnd(s[1..], if IsQuote(s[0]) then Some(s[0]) else None), 1)
      case Some(q) => Later(TagEnd(s[1..], if s[0] == q then None else quote), 1)
  }

  /** How many characters of `s` are the name of an attribute. */
  function NameSize(s: string): (n: nat)
    ensures n <= |s|
  {
    if s == "" || s[0] == ' ' || s[0] == '=' || s[0] == '/' then 0 else 1 + NameSize(s[1..])
  }

  /** The attributes of a tag and their values, entities replaced. */
  function AttrsIn(s: string): seq<(string, string)>
    decreases |s|
  {
    if s == "" then []
    else if s[0] == ' ' || s[0] == '/' then AttrsIn(s[1..])
    else
      var n := NameSize(s);
      var rest := s[n..];
      if n == 0 then []
      else if |rest| < 2 || rest[0] != '=' || !IsQuote(rest[1]) then [(s[..n], "")] + AttrsIn(rest)
      else
        var k := IndexOf(rest[2..], rest[1]);
        if k + 2 == |rest| then [] else [(s[..n], HtmlUnescape(rest[2..k + 2]))] + AttrsIn(rest[k + 3..])
  }

  /** A tag, from what stands between '<' and '>'. */
  function TokenOf(raw: string): Token {
    if raw == "" || raw[0] == '!' then Declared
    else if raw[0] == '/' then Finish(raw[1..])
    else
      var n := IndexOf(raw, ' ');
      if raw[|raw| - 1] == '/' then Void(raw[..n], AttrsIn(raw[n..])) else Begin(raw[..n], AttrsIn(raw[n..]))
  }

  /** What a browser makes of a page. */
  function Seen(s: string): seq<Token>
    decreases |s|
  {
    if s == "" then []
    else if s[0] == '<' then
      match TagEnd(s[1..], None)
      case None => []
      case Some(n) => [TokenOf(s[1..n + 1])] + Seen(s[n + 2..])
    else
      var (n, c) := Entity(s);
      [Txt(c)] + Seen(s[n..])
  }

  function TokenText(t: Token): string {
    if t.Txt? then [t.c] else ""
  }

  /** The text of a page. */
  function Words(ts: seq<Token>): string { FlatMap(ts, TokenText) }

  function Chars(s: string): seq<Token> {
    seq(|s|, i requires 0 <= i < |s| => Txt(s[i]))
  }

  lemma CharsCons(s: string)
    requires s != ""
    ensures Chars(s) == [Txt(s[0])] + Chars(s[1..])
  {
  }

  lemma {:induction false} WordsChars(s: string)
    ensures Words(Chars(s)) == s
  {
    if s != "" {
      CharsCons(s);
      WordsChars(s[1..]);
      assert s == [s[0]] + s[1..];
    }
  }

  // ---------------------------------------------------------------- text on a page

  lemma EntityPlain(c: char, t: string)
    requires c != '&'
    ensures Entity([c] + t) == (1, c)
  {
    StartsWithOther([c], t, "&lt;", 0);
    StartsWithOther([c], t, "&gt;", 0);
    StartsWithOther([c], t, "&amp;", 0);
    StartsWithOther([c], t, "&quot;", 0);
    StartsWithOther([c], t, "&apos;", 0);
  }

  lemma {:induction false} SeenLiteral(s: string, t: string)
    requires '<' !in s && '&' !in s
    ensures Seen(s + t) == Chars(s) + Seen(t)
  {
    if s == "" {
      assert s + t == t;
    } else {
      var c, rest := s[0], s[1..];
      assert s + t == [c] + (rest + t);
      EntityPlain(c, rest + t);
      assert ([c] + (rest + t))[1..] == rest + t;
      SeenLiteral(rest, t);
      CharsCons(s);
      Assoc([Txt(c)], Chars(rest), Seen(t));
    }
  }

  lemma {:induction false} SeenChar(c: char, t: string)
    ensures Seen(HtmlChar(c) + t) == [Txt(c)] + Seen(t)
  {
    var s := HtmlChar(c) + t;
    EntityOf(c, t);
    assert s[0] != '<' && s[|HtmlChar(c)|..] == t;
  }

  lemma {:induction false} SeenEscaped(s: string, t: string)
    ensures Seen(HtmlEscape(s) + t) == Chars(s) + Seen(t)
  {
    if s == "" {
      assert HtmlEscape(s) + t == t;
    } else {
      var c, rest := s[0], s[1..];
      Assoc(HtmlChar(c), HtmlEscape(rest), t);
      SeenChar(c, HtmlEscape(rest) + t);
      SeenEscaped(rest, t);
      CharsCons(s);
      Assoc([Txt(c)], Chars(rest), Seen(t));
    }
  }

  // ---------------------------------------------------------------- tags on a page

  function QuoteOf(lx: Lexer): Option<char> {
    if lx.InQuote? then Some(lx.quote) else None
  }

  /** What the tokenizer scans without completing a tag has no end of a tag in it. */
  lemma {:induction false} EndBeyond(lx: Lexer, a: string, t: string)
    requires !lx.InText? && !Lex(lx, a).0.InText? && Lex(lx, a).1 == []
    ensures TagEnd(a + t, QuoteOf(lx)) == Later(TagEnd(t, QuoteOf(Lex(lx, a).0)), |a|)
    decreases |a|
  {
    if a == "" {
      assert a + t == t;
    } else {
      var c, rest := a[0], a[1..];
      assert (a + t)[0] == c && (a + t)[1..] == rest + t;
      match lx
      case InTag(raw) =>
        if c != '>' { EndBeyond(if IsQuote(c) then InQuote(raw + [c], c) else InTag(raw + [c]), rest, t); }
      case InQuote(raw, q) => EndBeyond(if c == q then InTag(raw + [c]) else InQuote(raw + [c], q), rest, t);
    }
  }

  lemma {:induction false} SeenTag(raw: string, t: string)
    requires Lex(InTag(""), raw) == (InTag(raw), [])
    ensures Seen("<" + (raw + ">") + t) == [TokenOf(raw)] + Seen(t)
  {
    var s, n := "<" + (raw + ">") + t, |raw|;
    assert s[1..] == raw + (">" + t);
    EndBeyond(InTag(""), raw, ">" + t);
    assert TagEnd(">" + t, None) == Some(0);
    assert s[1..n + 1] == raw && s[n + 2..] == t;
  }

  // ----------------------------------------------------------------- their attributes

  lemma {:induction false} NameSizeOf(name: string, t: string)
    requires IsName(name) && (t == "" || t[0] == ' ' || t[0] == '=')
    ensures NameSize(name + t) == |name|
  {
    assert name[0] in name;
    assert (name + t)[1..] == name[1..] + t;
    if |name| == 1 {
      assert name[1..] + t == t;
    } else {
      assert forall c :: c in name[1..] ==> c in name;
      NameSizeOf(name[1..], t);
    }
  }

  /** What an attribute's value is meant to be. */
  function Meant(a: Attr): (string, string) {
    match a
    case Attr(name, _, vals) => (name, HtmlUnescape(ValsText(vals)))
    case Flag(name) => (name, "")
  }

  function Meanings(attrs: seq<Attr>): seq<(string, string)> {
    if attrs == [] then [] else [Meant(attrs[0])] + Meanings(attrs[1..])
  }

  lemma {:induction false} SpaceRead(s: string)
    ensures AttrsIn(" " + s) == AttrsIn(s)
  {
    assert (" " + s)[1..] == s;
  }

  lemma {:induction false} QuotedAt(s: string, rest: string, n: nat, k: nat)
    requires 0 < n <= |s| && s[0] != ' ' && s[0] != '/' && NameSize(s) == n && rest == s[n..]
    requires |rest| >= 2 && rest[0] == '=' && IsQuote(rest[1]) && IndexOf(rest[2..], rest[1]) == k && k + 2 < |rest|
    ensures AttrsIn(s) == [(s[..n], HtmlUnescape(rest[2..k + 2]))] + AttrsIn(rest[k + 3..])
  {
  }

  lemma QuotedParts(q: char, value: string, t: string)
    ensures var rest := "=" + ([q] + (value + ([q] + t)));
            && rest[2..] == value + ([q] + t) && rest[2..|value| + 2] == value && rest[|value| + 3..] == t
  {
  }

  lemma {:induction false} QuotedRead(name: string, q: char, value: string, t: string)
    requires IsName(name) && IsQuote(q) && q !in value
    ensures AttrsIn(name + ("=" + ([q] + (value + ([q] + t))))) == [(name, HtmlUnescape(value))] + AttrsIn(t)
  {
    var rest := "=" + ([q] + (value + ([q] + t)));
    var s := name + rest;
    assert name[0] in name && s[0] == name[0];
    assert s[..|name|] == name && s[|name|..] == rest;
    NameSizeOf(name, rest);
    QuotedParts(q, value, t);
    FirstIndex(value, q, t);
    QuotedAt(s, rest, |name|, |value|);
  }

  lemma ValueSpelled(name: string, q: char, value: string, t: string)
    ensures ((" " + name + "=") + ([q] + (value + [q]))) + t == " " + (name + ("=" + ([q] + (value + ([q] + t)))))
  {
  }

  lemma {:induction false} ValueRead(name: string, q: char, value: string, t: string)
    requires IsName(name) && IsQuote(q) && q !in value
    ensures AttrsIn(((" " + name + "=") + ([q] + (value + [q]))) + t) == [(name, HtmlUnescape(value))] + AttrsIn(t)
  {
    ValueSpelled(name, q, value, t);
    SpaceRead(name + ("=" + ([q] + (value + ([q] + t)))));
    QuotedRead(name, q, value, t);
  }

  lemma {:induction false} FlagRead(name: string, t: string)
    requires IsName(name) && (t == "" || t[0] == ' ')
    ensures AttrsIn((" " + name) + t) == [(name, "")] + AttrsIn(t)
  {
    var s := name + t;
    assert (" " + name) + t == " " + s && (" " + s)[1..] == s;
    assert name[0] in name;
    NameSizeOf(name, t);
    assert s[..|name|] == name && s[|name|..] == t;
  }

  lemma {:induction false} AttrRead(a: Attr, t: string)
    requires SafeAttr(a) && (t == "" || t[0] == ' ')
    ensures AttrsIn(AttrText(a) + t) == [Meant(a)] + AttrsIn(t)
  {
    match a
    case Attr(name, q, vals) =>
      ValsSafe(vals, q);
      ValueRead(name, q, ValsText(vals), t);
    case Flag(name) => FlagRead(name, t);
  }

  lemma {:induction false} AttrsRead(attrs: seq<Attr>, t: string)
    requires (forall a :: a in attrs ==> SafeAttr(a)) && (t == "" || t[0] == ' ')
    ensures AttrsIn(AttrsText(attrs) + t) == Meanings(attrs) + AttrsIn(t)
    ensures AttrsText(attrs) + t == "" || (AttrsText(attrs) + t)[0] == ' '
    decreases |attrs|
  {
    if attrs == [] {
      assert AttrsText(attrs) + t == t;
    } else {
      var a, rest := attrs[0], attrs[1..];
      Assoc(AttrText(a), AttrsText(rest), t);
      AttrsRead(rest, t);
      AttrRead(a, AttrsText(rest) + t);
      Assoc([Meant(a)], Meanings(rest), AttrsIn(t));
    }
  }

  // -------------------------------------------------------------- pieces on a page

  /** What each piece is meant to show. */
  function Sight(p: Piece): seq<Token> {
    match p
    case Literal(text) => Chars(text)
    case Escaped(text) => Chars(text)
    case Open(name) => [Begin(name, [])]
    case OpenWith(name, attrs) => [Begin(name, Meanings(attrs))]
    case Empty(name, attrs) => [Void(name, Meanings(attrs))]
    case Close(name) => [Finish(name)]
    case Doctype => [Declared]
  }

  function Sights(ps: seq<Piece>): seq<Token> { FlatMap(ps, Sight) }

  lemma {:induction false} NameIndex(name: string, t: string)
    requires IsName(name) && (t == "" || t[0] == ' ')
    ensures IndexOf(name + t, ' ') == |name|
  {
    assert ' ' !in name;
    if t == "" {
      assert name + t == name;
    } else {
      assert t == [' '] + t[1..];
      FirstIndex(name, ' ', t[1..]);
    }
  }

  lemma {:induction false} NamedRead(name: string, t: string)
    requires IsName(name) && (t == "" || t[0] == ' ')
    ensures var raw := name + t;
            TokenOf(raw) == if raw[|raw| - 1] == '/' then Void(name, AttrsIn(t)) else Begin(name, AttrsIn(t))
  {
    var raw := name + t;
    assert name[0] in name && raw[0] == name[0];
    NameIndex(name, t);
    assert raw[..|name|] == name && raw[|name|..] == t;
  }

  lemma {:induction false} BeginRead(name: string, attrs: seq<Attr>)
    requires IsName(name) && forall a :: a in attrs ==> SafeAttr(a)
    ensures TokenOf(name + AttrsText(attrs)) == Begin(name, Meanings(attrs))
  {
    var t := AttrsText(attrs);
    AttrsRead(attrs, "");
    assert t + "" == t && Meanings(attrs) + [] == Meanings(attrs);
    NamedRead(name, t);
    assert name[|name| - 1] in name;
    if attrs != [] { AttrsEnds(attrs); }
  }

  lemma NoMoreAttrs()
    ensures AttrsIn(" /") == []
  {
    assert " /"[1..] == "/" && "/"[1..] == "";
  }

  lemma {:induction false} VoidRead(name: string, attrs: seq<Attr>)
    requires IsName(name) && forall a :: a in attrs ==> SafeAttr(a)
    ensures TokenOf(name + AttrsText(attrs) + " /") == Void(name, Meanings(attrs))
  {
    AttrsRead(attrs, " /");
    NoMoreAttrs();
    Assoc(name, AttrsText(attrs), " /");
    NamedRead(name, AttrsText(attrs) + " /");
    assert Meanings(attrs) + [] == Meanings(attrs);
  }

  lemma {:induction false} TokenRead(p: Piece)
    requires SafePiece(p) && !p.Literal? && !p.Escaped?
    ensures [TokenOf(Inside(p))] == Sight(p)
  {
    match p
    case Open(name) => BeginRead(name, []); assert name + "" == name;
    case OpenWith(name, attrs) => BeginRead(name, attrs);
    case Empty(name, attrs) => VoidRead(name, attrs);
    case Close(name) => assert ("/" + name)[1..] == name;
    case Doctype =>
  }

  lemma {:induction false} SeenPiece(p: Piece, t: string)
    requires SafePiece(p)
    ensures Seen(PieceText(p) + t) == Sight(p) + Seen(t)
  {
    match p
    case Literal(text) => SeenLiteral(text, t);
    case Escaped(text) => SeenEscaped(text, t);
    case _ =>
      LexInside(p);
      SeenTag(Inside(p), t);
      TokenRead(p);
  }

  /** A page shows what its pieces are meant to show, one after the other. */
  lemma {:induction false} SeenPieces(ps: seq<Piece>)
    requires Safe(ps)
    ensures Seen(Render(ps)) == Sights(ps)
  {
    if ps != [] {
      SeenPieces(ps[1..]);
      SeenPiece(ps[0], Render(ps[1..]));
    }
  }

  // --------------------------------------------------------------- URLs on a page

  /** One of the five entities is spelled somewhere in `s`. */
  predicate HasEntity(s: string) {
    s != "" && (Entity(s).0 > 1 || HasEntity(s[1..]))
  }

  lemma {:induction false} UnescapeShorter(s: string)
    ensures |HtmlUnescape(s)| <= |s|
    decreases |s|
  {
    if s != "" { UnescapeShorter(s[Entity(s).0..]); }
  }

  /** Text reads as it stands exactly if no entity is spelled in it. */
  lemma {:induction false} UnescapeSame(s: string)
    ensures HtmlUnescape(s) == s <==> !HasEntity(s)
    ensures HasEntity(s) ==> |HtmlUnescape(s)| < |s|
    decreases |s|
  {
    if s != "" {
      UnescapeShorter(s[Entity(s).0..]);
      UnescapeSame(s[1..]);
      Rejoin(s, 1);
    }
  }

  lemma StartsCons(s: string, p: string)
    requires s != "" && p != ""
    ensures StartsWith(s, p) <==> s[0] == p[0] && StartsWith(s[1..], p[1..])
  {
    assert s == [s[0]] + s[1..] && p == [p[0]] + p[1..];
    if |p| <= |s| { assert s[..|p|] == [s[0]] + s[1..][..|p| - 1]; }
  }

  lemma {:induction false} PrefixKept(u: string, p: string)
    requires forall c :: c in p ==> !UrlSpecial(c) && c != '%'
    ensures StartsWith(UrlEscape(u), p) <==> StartsWith(u, p)
  {
    if p != "" && u != "" {
      assert p[0] in p && forall c :: c in p[1..] ==> c in p;
      var e := UrlEscape(u);
      if UrlSpecial(u[0]) {
        assert e[0] == '%' && (|p| <= |e| ==> e[..|p|][0] == e[0]) && (|p| <= |u| ==> u[..|p|][0] == u[0]);
      } else {
        PrefixKept(u[1..], p[1..]);
        assert e[0] == u[0] && e[1..] == UrlEscape(u[1..]);
        StartsCons(e, p);
        StartsCons(u, p);
      }
    }
  }

  lemma EntityStart(u: string)
    requires u != ""
    ensures Entity(UrlEscape(u)).0 > 1 <==> Entity(u).0 > 1
  {
    PrefixKept(u, "&lt;");
    PrefixKept(u, "&gt;");
    PrefixKept(u, "&amp;");
    PrefixKept(u, "&quot;");
    PrefixKept(u, "&apos;");
  }

  lemma {:induction false} NoEntityIn(c: char, t: string)
    requires c != '&'
    ensures HasEntity([c] + t) <==> HasEntity(t)
  {
    EntityPlain(c, t);
    assert ([c] + t)[1..] == t;
  }

  lemma {:induction false} NoEntityInThree(a: char, b: char, c: char, t: string)
    requires a != '&' && b != '&' && c != '&'
    ensures HasEntity([a, b, c] + t) <==> HasEntity(t)
  {
    ThreeChars(a, b, c, t);
    NoEntityIn(a, [b] + ([c] + t));
    NoEntityIn(b, [c] + t);
    NoEntityIn(c, t);
  }

  lemma {:induction false} CodedEntity(c: char, t: string)
    requires UrlSpecial(c)
    ensures HasEntity(UrlChar(c) + t) <==> HasEntity(t)
  {
    var n := c as int;
    if LowControl(c) {
      HexDigitValue(n);
      NoEntityInThree('%', ' ', HexDigit(n), t);
    } else {
      HexDigitValue(n / 16);
      HexDigitValue(n % 16);
      NoEntityInThree('%', HexDigit(n / 16), HexDigit(n % 16), t);
    }
  }

  /** Escaping a URL neither spells nor breaks an entity. */
  lemma {:induction false} EntityKept(u: string)
    ensures HasEntity(UrlEscape(u)) <==> HasEntity(u)
  {
    if u != "" {
      var c, t := u[0], u[1..];
      EntityKept(t);
      assert u == [c] + t;
      if UrlSpecial(c) {
        CodedEntity(c, UrlEscape(t));
        NoEntityIn(c, t);
      } else {
        EntityStart(u);
        assert UrlEscape(u)[1..] == UrlEscape(t);
      }
    }
  }

  // ------------------------------------------------------- what a link leads to

  lemma {:induction false} UnescapePlain(c: char, t: string)
    requires c != '&'
    ensures HtmlUnescape([c] + t) == [c] + HtmlUnescape(t)
  {
    EntityPlain(c, t);
    assert ([c] + t)[1..] == t;
  }

  lemma {:induction false} UnescapeHex(s: string)
    ensures s != "" ==> HtmlUnescape(s) != "" && (IsHex(HtmlUnescape(s)[0]) ==> HtmlUnescape(s)[0] == s[0])
    ensures s != "" && IsHex(s[0]) ==> HtmlUnescape(s) == [s[0]] + HtmlUnescape(s[1..])
  {
    if s != "" && IsHex(s[0]) {
      assert s == [s[0]] + s[1..];
      UnescapePlain(s[0], s[1..]);
    }
  }

  lemma {:induction false} UnescapeOneHex(c: char, t: string)
    requires IsHex(c)
    ensures HtmlUnescape([c] + t) == [c] + HtmlUnescape(t)
    ensures TwoHex([c] + HtmlUnescape(t)) <==> TwoHex([c] + t)
  {
    UnescapePlain(c, t);
    UnescapeHex(t);
  }

  lemma {:induction false} UnescapeBothHex(c: char, d: char, t: string)
    requires IsHex(c) && IsHex(d)
    ensures HtmlUnescape([c] + ([d] + t)) == [c, d] + HtmlUnescape(t)
  {
    UnescapePlain(c, [d] + t);
    UnescapePlain(d, t);
    Assoc([c], [d], HtmlUnescape(t));
  }

  lemma {:induction false} UnescapeTwoHex(s: string)
    ensures TwoHex(HtmlUnescape(s)) <==> TwoHex(s)
    ensures TwoHex(s) ==> HtmlUnescape(s) == s[..2] + HtmlUnescape(s[2..])
  {
    if TwoHex(s) {
      var c, d, t := s[0], s[1], s[2..];
      assert s == [c] + ([d] + t) && s[..2] == [c, d];
      UnescapeBothHex(c, d, t);
    } else if s != "" && IsHex(s[0]) {
      assert s == [s[0]] + s[1..];
      UnescapeOneHex(s[0], s[1..]);
    } else {
      UnescapeHex(s);
    }
  }

  lemma {:induction false} DecodeWords(e: string, t: string)
    requires '%' !in e
    ensures PercentDecode(e + t) == e + PercentDecode(t)
  {
    if e == "" {
      assert e + t == t;
    } else {
      assert e + t == [e[0]] + (e[1..] + t);
      DecodePlain(e[0], e[1..] + t);
      DecodeWords(e[1..], t);
    }
  }

  lemma {:induction false} DecodeEntity(s: string)
    requires s != "" && Entity(s).0 > 1
    ensures |PercentDecode(s)| > 1 + |PercentDecode(s[Entity(s).0..])|
    ensures |PercentDecode(HtmlUnescape(s))| == 1 + |PercentDecode(HtmlUnescape(s[Entity(s).0..]))|
  {
    var (n, c) := Entity(s);
    Rejoin(s, n);
    DecodeWords(s[..n], s[n..]);
    DecodePlain(c, HtmlUnescape(s[n..]));
  }

  lemma {:induction false} HexNoEntity(t: string)
    requires TwoHex(t)
    ensures HasEntity(t) <==> HasEntity(t[2..])
  {
    assert t == [t[0]] + ([t[1]] + t[2..]);
    NoEntityIn(t[1], t[2..]);
    NoEntityIn(t[0], [t[1]] + t[2..]);
  }

  /** Reading entities shortens what a URL decodes to, if there are any. */
  lemma {:induction false} DecodeShorter(s: string)
    ensures |PercentDecode(HtmlUnescape(s))| <= |PercentDecode(s)| - (if HasEntity(s) then 1 else 0)
    decreases |s|
  {
    if s != "" {
      var c, t := s[0], s[1..];
      assert s == [c] + t;
      if Entity(s).0 > 1 {
        DecodeEntity(s);
        DecodeShorter(s[Entity(s).0..]);
      } else {
        DecodeShorter(t);
        assert HtmlUnescape(s) == [c] + HtmlUnescape(t);
        if c != '%' {
          DecodePlain(c, t);
          DecodePlain(c, HtmlUnescape(t));
        } else {
          DecodePercent(t);
          DecodePercent(HtmlUnescape(t));
          UnescapeTwoHex(t);
          if TwoHex(t) {
            DecodeShorter(t[2..]);
            assert (t[..2] + HtmlUnescape(t[2..]))[2..] == HtmlUnescape(t[2..]);
            HexNoEntity(t);
          }
        }
      }
    }
  }

  /** A URL that was written escaped into an attribute, as a browser takes it from there. */
  function Href(url: string): string { HtmlUnescape(UrlEscape(url)) }

  /**
   * What a browser finds in the attribute percent-decodes to what the URL
   * itself does. Without control bytes below 0x10 this is so exactly if the
   * URL spells no entity, and without entities exactly if it has no such byte:
   * tp_urlescape leaves '&' alone.
   */
  lemma {:induction false} HrefExact(url: string)
    ensures Href(url) == UrlEscape(url) <==> !HasEntity(url)
    ensures (forall c :: c in url ==> !LowControl(c)) ==>
              (PercentDecode(Href(url)) == PercentDecode(url) <==> !HasEntity(url))
    ensures !HasEntity(url) ==>
              (PercentDecode(Href(url)) == PercentDecode(url) <==> forall c :: c in url ==> !LowControl(c))
  {
    EntityKept(url);
    UnescapeSame(UrlEscape(url));
    UrlEscapeExact(url);
    DecodeShorter(UrlEscape(url));
  }
}
