/**
 * HTML as a browser's tokenizer sees it: characters into tags, with quoted
 * attribute values skipped, and what it means for the tags to nest.
 */
module Html {
  import opened Common
  import opened Escape

  // --------------------------------------------------------------- the tokenizer

  datatype Lexer = InText | InTag(raw: string) | InQuote(raw: string, quote: char)

  predicate IsQuote(c: char) { c == '"' || c == '\'' }

  /** The lexer after `s`, and the insides of the tags it has completed. */
  function Lex(lx: Lexer, s: string): (Lexer, seq<string>)
    decreases |s|
  {
    if s == "" then (lx, [])
    else
      var c, t := s[0], s[1..];
      match lx
      case InText => if c == '<' then Lex(InTag(""), t) else Lex(InText, t)
      case InTag(raw) =>
        if c == '>' then var r := Lex(InText, t); (r.0, [raw] + r.1)
        else if IsQuote(c) then Lex(InQuote(raw + [c], c), t)
        else Lex(InTag(raw + [c]), t)
      case InQuote(raw, q) =>
        if c == q then Lex(InTag(raw + [c]), t) else Lex(InQuote(raw + [c], q), t)
  }

  datatype Tag = OpenTag(name: string) | CloseTag(name: string)

  function FirstWord(s: string): string {
    if s == "" || s[0] == ' ' then "" else [s[0]] + FirstWord(s[1..])
  }

  /** Declarations and self-closing tags open nothing. */
  function Classify(raw: string): seq<Tag> {
    if raw == "" || raw[0] == '!' then []
    else if raw[0] == '/' then [CloseTag(raw[1..])]
    else if raw[|raw| - 1] == '/' then []
    else [OpenTag(FirstWord(raw))]
  }

  function Tags(raws: seq<string>): seq<Tag> { FlatMap(raws, Classify) }

  /** The stack of open elements after `tags`; None when a tag closes what is not open. */
  function Nest(stack: seq<string>, tags: seq<Tag>): Option<seq<string>>
    decreases |tags|
  {
    if tags == [] then Some(stack)
    else
      match tags[0]
      case OpenTag(n) => Nest([n] + stack, tags[1..])
      case CloseTag(n) => if stack != [] && stack[0] == n then Nest(stack[1..], tags[1..]) else None
  }

  /** A complete document: the lexer is back in text and every element is closed. */
  predicate WellNested(s: string) {
    var (lx, raws) := Lex(InText, s);
    lx == InText && Nest([], Tags(raws)) == Some([])
  }

  lemma {:induction false} LexAppend(lx: Lexer, a: string, b: string)
    ensures var (m, x) := Lex(lx, a); var (n, y) := Lex(m, b); Lex(lx, a + b) == (n, x + y)
    decreases |a|
  {
    if a == "" {
      assert a + b == b;
      assert [] + Lex(lx, b).1 == Lex(lx, b).1;
    } else {
      var c, t := a[0], a[1..];
      assert (a + b)[0] == c && (a + b)[1..] == t + b;
      match lx
      case InText => LexAppend(if c == '<' then InTag("") else InText, t, b);
      case InTag(raw) =>
        if c == '>' {
          LexAppend(InText, t, b);
          Assoc([raw], Lex(InText, t).1, Lex(Lex(InText, t).0, b).1);
        } else {
          LexAppend(if IsQuote(c) then InQuote(raw + [c], c) else InTag(raw + [c]), t, b);
        }
      case InQuote(raw, q) => LexAppend(if c == q then InTag(raw + [c]) else InQuote(raw + [c], q), t, b);
    }
  }

  lemma {:induction false} NestAppend(stack: seq<string>, a: seq<Tag>, b: seq<Tag>)
    ensures Nest(stack, a + b) == match Nest(stack, a) case None => None case Some(s) => Nest(s, b)
    decreases |a|
  {
    if a == [] {
      assert a + b == b;
    } else {
      assert (a + b)[0] == a[0] && (a + b)[1..] == a[1..] + b;
      match a[0]
      case OpenTag(n) => NestAppend([n] + stack, a[1..], b);
      case CloseTag(n) => if stack != [] && stack[0] == n { NestAppend(stack[1..], a[1..], b); }
    }
  }

  // ----------------------------------------------------------------- the pieces

  /** Part of an attribute value: literal, or escaped one of two ways. */
  datatype Val = Lit(s: string) | Html(s: string) | Url(s: string)

  datatype Attr = Attr(name: string, quote: char, value: seq<Val>) | Flag(name: string)

  /** What templates and proxy.c put together a page from. */
  datatype Piece =
    | Literal(text: string)
    | Escaped(text: string)
    | Open(name: string)
    | OpenWith(name: string, attrs: seq<Attr>)
    | Empty(name: string, attrs: seq<Attr>)
    | Close(name: string)
    | Doctype

  function ValText(v: Val): string {
    match v case Lit(s) => s case Html(s) => HtmlEscape(s) case Url(s) => UrlEscape(s)
  }

  function ValsText(vs: seq<Val>): string { FlatMap(vs, ValText) }

  function AttrText(a: Attr): string {
    match a
    case Attr(name, quote, value) => (" " + name + "=") + ([quote] + (ValsText(value) + [quote]))
    case Flag(name) => " " + name
  }

  function AttrsText(attrs: seq<Attr>): string { FlatMap(attrs, AttrText) }

  /** What stands between '<' and '>'. */
  function Inside(p: Piece): string
    requires !p.Literal? && !p.Escaped?
  {
    match p
    case Open(name) => name
    case OpenWith(name, attrs) => name + AttrsText(attrs)
    case Empty(name, attrs) => name + AttrsText(attrs) + " /"
    case Close(name) => "/" + name
    case Doctype => "!doctype html"
  }

  function PieceText(p: Piece): string {
    match p
    case Literal(text) => text
    case Escaped(text) => HtmlEscape(text)
    case _ => "<" + (Inside(p) + ">")
  }

  function Render(ps: seq<Piece>): string { FlatMap(ps, PieceText) }

  // --------------------------------------------- literals that are what they seem

  predicate IsName(s: string) {
    s != "" && forall c :: c in s ==> 'a' <= c <= 'z' || '0' <= c <= '9'
  }

  predicate SafeAttr(a: Attr) {
    IsName(a.name) && (a.Attr? ==> IsQuote(a.quote) && forall v :: v in a.value ==> v.Lit? ==> a.quote !in v.s)
  }

  predicate SafePiece(p: Piece) {
    match p
    case Literal(text) => forall c :: c in text ==> c != '<' && c != '&'
    case Escaped(_) => true
    case Open(name) => IsName(name)
    case OpenWith(name, attrs) => IsName(name) && forall a :: a in attrs ==> SafeAttr(a)
    case Empty(name, attrs) => IsName(name) && forall a :: a in attrs ==> SafeAttr(a)
    case Close(name) => IsName(name)
    case Doctype => true
  }

  function PieceTags(p: Piece): seq<Tag> {
    match p
    case Open(name) => [OpenTag(name)]
    case OpenWith(name, _) => [OpenTag(name)]
    case Close(name) => [CloseTag(name)]
    case _ => []
  }

  function Skeleton(ps: seq<Piece>): seq<Tag> { FlatMap(ps, PieceTags) }

  // ------------------------------------------------- the tokenizer on each piece

  lemma {:induction false} LexText(s: string)
    requires '<' !in s
    ensures Lex(InText, s) == (InText, [])
  {
    if s != "" { LexText(s[1..]); }
  }

  predicate TagChars(s: string) {
    forall c :: c in s ==> c != '>' && !IsQuote(c)
  }

  lemma {:induction false} LexTagChars(raw: string, s: string)
    requires TagChars(s)
    ensures Lex(InTag(raw), s) == (InTag(raw + s), [])
    decreases |s|
  {
    if s == "" {
      assert raw + s == raw;
    } else {
      LexTagChars(raw + [s[0]], s[1..]);
      assert s == [s[0]] + s[1..];
      Assoc(raw, [s[0]], s[1..]);
    }
  }

  lemma {:induction false} LexQuoteChars(raw: string, q: char, s: string)
    requires q !in s
    ensures Lex(InQuote(raw, q), s) == (InQuote(raw + s, q), [])
    decreases |s|
  {
    if s == "" {
      assert raw + s == raw;
    } else {
      LexQuoteChars(raw + [s[0]], q, s[1..]);
      assert s == [s[0]] + s[1..];
      Assoc(raw, [s[0]], s[1..]);
    }
  }

  lemma LexOne(lx: Lexer, c: char)
    ensures Lex(InText, "<") == (InTag(""), [])
    ensures lx.InTag? && IsQuote(c) ==> Lex(lx, [c]) == (InQuote(lx.raw + [c], c), [])
    ensures lx.InQuote? && c == lx.quote ==> Lex(lx, [c]) == (InTag(lx.raw + [c]), [])
    ensures lx.InTag? ==> Lex(lx, ">") == (InText, [lx.raw])
  {
    assert [c][1..] == "" && "<"[1..] == "" && ">"[1..] == "";
    if lx.InTag? { assert [lx.raw] + [] == [lx.raw]; }
  }

  /** Two parts that complete no tag. */
  lemma {:induction false} LexQuiet(lx: Lexer, a: string, b: string)
    requires Lex(lx, a).1 == [] && Lex(Lex(lx, a).0, b).1 == []
    ensures Lex(lx, a + b) == (Lex(Lex(lx, a).0, b).0, [])
  {
    LexAppend(lx, a, b);
    assert Lex(lx, a).1 + Lex(lx, a).1 == Lex(lx, a).1;
  }

  lemma {:induction false} ValsSafe(vs: seq<Val>, q: char)
    requires IsQuote(q) && forall v :: v in vs ==> v.Lit? ==> q !in v.s
    ensures q !in ValsText(vs)
  {
    if vs != [] {
      ValsSafe(vs[1..], q);
      match vs[0]
      case Lit(s) => assert vs[0].Lit?;
      case Html(s) => HtmlEscapeSafe(s);
      case Url(s) => UrlEscapeSafe(s);
    }
  }

  /** A quoted value is scanned as a whole. */
  lemma {:induction false} LexQuoted(raw: string, q: char, value: string)
    requires IsQuote(q) && q !in value
    ensures Lex(InTag(raw), [q] + (value + [q])) == (InTag(raw + ([q] + (value + [q]))), [])
  {
    LexOne(InTag(raw), q);
    LexQuoteChars(raw + [q], q, value);
    LexOne(InQuote((raw + [q]) + value, q), q);
    LexQuiet(InQuote(raw + [q], q), value, [q]);
    LexQuiet(InTag(raw), [q], value + [q]);
    Assoc(raw + [q], value, [q]);
    Assoc(raw, [q], value + [q]);
  }

  lemma {:induction false} LexAttr(raw: string, a: Attr)
    requires SafeAttr(a)
    ensures Lex(InTag(raw), AttrText(a)) == (InTag(raw + AttrText(a)), [])
  {
    match a
    case Flag(name) => LexTagChars(raw, " " + name);
    case Attr(name, quote, vals) =>
      var start, value := " " + name + "=", ValsText(vals);
      assert TagChars(start);
      LexTagChars(raw, start);
      ValsSafe(vals, quote);
      LexQuoted(raw + start, quote, value);
      LexQuiet(InTag(raw), start, [quote] + (value + [quote]));
      Assoc(raw, start, [quote] + (value + [quote]));
  }

  lemma {:induction false} LexAttrs(raw: string, attrs: seq<Attr>)
    requires forall a :: a in attrs ==> SafeAttr(a)
    ensures Lex(InTag(raw), AttrsText(attrs)) == (InTag(raw + AttrsText(attrs)), [])
    decreases |attrs|
  {
    if attrs == [] {
      assert raw + "" == raw;
    } else {
      var a, rest := AttrText(attrs[0]), AttrsText(attrs[1..]);
      LexAttr(raw, attrs[0]);
      LexAttrs(raw + a, attrs[1..]);
      LexQuiet(InTag(raw), a, rest);
      Assoc(raw, a, rest);
    }
  }

  lemma {:induction false} LexNameAttrs(name: string, attrs: seq<Attr>)
    requires IsName(name) && forall a :: a in attrs ==> SafeAttr(a)
    ensures Lex(InTag(""), name + AttrsText(attrs)) == (InTag(name + AttrsText(attrs)), [])
  {
    LexTagChars("", name);
    assert "" + name == name;
    LexAttrs(name, attrs);
    LexQuiet(InTag(""), name, AttrsText(attrs));
  }

  /** A tag is scanned from '<' to '>' whatever its attribute values hold. */
  lemma {:induction false} LexInside(p: Piece)
    requires SafePiece(p) && !p.Literal? && !p.Escaped?
    ensures Lex(InTag(""), Inside(p)) == (InTag(Inside(p)), [])
  {
    match p
    case Open(name) => LexTagChars("", name); assert "" + name == name;
    case OpenWith(name, attrs) => LexNameAttrs(name, attrs);
    case Empty(name, attrs) =>
      LexNameAttrs(name, attrs);
      LexTagChars(name + AttrsText(attrs), " /");
      LexQuiet(InTag(""), name + AttrsText(attrs), " /");
    case Close(name) => LexTagChars("", "/" + name); assert "" + ("/" + name) == "/" + name;
    case Doctype => LexTagChars("", "!doctype html"); assert "" + "!doctype html" == "!doctype html";
  }

  lemma {:induction false} FirstWordOf(name: string, rest: string)
    requires ' ' !in name && (rest == "" || rest[0] == ' ')
    ensures FirstWord(name + rest) == name
  {
    if name == "" {
      assert name + rest == rest;
    } else {
      FirstWordOf(name[1..], rest);
      assert (name + rest)[1..] == name[1..] + rest && name == [name[0]] + name[1..];
    }
  }

  lemma {:induction false} AttrsEnds(attrs: seq<Attr>)
    requires attrs != [] && forall a :: a in attrs ==> SafeAttr(a)
    ensures var s := AttrsText(attrs); s != "" && s[0] == ' ' && s[|s| - 1] != '/'
  {
    var a, rest := AttrText(attrs[0]), AttrsText(attrs[1..]);
    assert SafeAttr(attrs[0]);
    assert a[0] == ' ' && a[|a| - 1] != '/' by {
      var name := attrs[0].name;
      assert name[|name| - 1] in name;
    }
    if |attrs| > 1 {
      AttrsEnds(attrs[1..]);
      assert (a + rest)[|a + rest| - 1] == rest[|rest| - 1];
    } else {
      assert rest == "" && a + rest == a;
    }
  }

  lemma {:induction false} ClassifyOpen(name: string, rest: string)
    requires IsName(name) && (rest == "" || (rest[0] == ' ' && rest[|rest| - 1] != '/'))
    ensures Classify(name + rest) == [OpenTag(name)]
  {
    var s := name + rest;
    assert name[0] in name && name[|name| - 1] in name;
    assert s[0] == name[0];
    assert s[|s| - 1] == if rest == "" then name[|name| - 1] else rest[|rest| - 1];
    FirstWordOf(name, rest);
  }

  lemma {:induction false} ClassifyEmpty(name: string, rest: string)
    requires IsName(name)
    ensures Classify(name + rest + " /") == []
  {
    var s := name + rest + " /";
    assert name[0] in name;
    assert s[0] == name[0] && s[|s| - 1] == '/';
  }

  lemma {:induction false} ClassifyInside(p: Piece)
    requires SafePiece(p) && !p.Literal? && !p.Escaped?
    ensures Classify(Inside(p)) == PieceTags(p)
  {
    match p
    case Open(name) => ClassifyOpen(name, ""); assert name + "" == name;
    case OpenWith(name, attrs) =>
      if attrs != [] { AttrsEnds(attrs); }
      ClassifyOpen(name, AttrsText(attrs));
    case Empty(name, attrs) => ClassifyEmpty(name, AttrsText(attrs));
    case Close(name) => assert ("/" + name)[1..] == name;
    case Doctype =>
  }

  lemma {:induction false} LexWrapped(inside: string)
    requires Lex(InTag(""), inside) == (InTag(inside), [])
    ensures Lex(InText, "<" + (inside + ">")) == (InText, [inside]) && Tags([inside]) == Classify(inside)
  {
    LexOne(InTag(inside), '<');
    LexAppend(InTag(""), inside, ">");
    LexAppend(InText, "<", inside + ">");
    assert [] + [inside] == [inside];
    FlatMapOne(inside, Classify);
  }

  lemma {:induction false} LexPiece(p: Piece)
    requires SafePiece(p)
    ensures Lex(InText, PieceText(p)).0 == InText && Tags(Lex(InText, PieceText(p)).1) == PieceTags(p)
  {
    match p
    case Literal(text) => LexText(text);
    case Escaped(text) => HtmlEscapeSafe(text); LexText(HtmlEscape(text));
    case _ =>
      LexInside(p);
      ClassifyInside(p);
      LexWrapped(Inside(p));
  }

  /** The tags of a page are the tags of its pieces: no text or attribute value adds or hides one. */
  lemma {:induction false} LexPieces(ps: seq<Piece>)
    requires forall p :: p in ps ==> SafePiece(p)
    ensures Lex(InText, Render(ps)).0 == InText && Tags(Lex(InText, Render(ps)).1) == Skeleton(ps)
  {
    if ps != [] {
      LexPiece(ps[0]);
      LexPieces(ps[1..]);
      LexAppend(InText, PieceText(ps[0]), Render(ps[1..]));
      FlatMapAppend(Lex(InText, PieceText(ps[0])).1, Lex(InText, Render(ps[1..])).1, Classify);
    }
  }

  // ---------------------------------------------------------------- nesting

  ghost predicate Safe(ps: seq<Piece>) {
    forall p :: p in ps ==> SafePiece(p)
  }

  /** From the open elements `st`, the pieces lead to the open elements `st'`. */
  ghost predicate Leads(st: seq<string>, ps: seq<Piece>, st': seq<string>) {
    Safe(ps) && Nest(st, Skeleton(ps)) == Some(st')
  }

  lemma {:induction false} LeadsAppend(
    st: seq<string>, a: seq<Piece>, st': seq<string>, b: seq<Piece>, st'': seq<string>)
    requires Leads(st, a, st') && Leads(st', b, st'')
    ensures Leads(st, a + b, st'')
  {
    FlatMapAppend(a, b, PieceTags);
    NestAppend(st, Skeleton(a), Skeleton(b));
  }

  lemma LeadsNothing(st: seq<string>)
    ensures Leads(st, [], st)
  {
  }

  /** A piece that opens and closes nothing. */
  lemma {:induction false} LeadsFlat(st: seq<string>, p: Piece)
    requires SafePiece(p) && PieceTags(p) == []
    ensures Leads(st, [p], st)
  {
    FlatMapOne(p, PieceTags);
  }

  lemma {:induction false} LeadsOpen(st: seq<string>, p: Piece, name: string)
    requires SafePiece(p) && PieceTags(p) == [OpenTag(name)]
    ensures Leads(st, [p], [name] + st)
  {
    FlatMapOne(p, PieceTags);
    assert Skeleton([p])[1..] == [];
  }

  lemma {:induction false} LeadsClose(st: seq<string>, name: string)
    requires IsName(name)
    ensures Leads([name] + st, [Close(name)], st)
  {
    FlatMapOne(Close(name), PieceTags);
    assert Skeleton([Close(name)])[1..] == [] && ([name] + st)[1..] == st;
  }

  /** An element: its opening tag, what it holds, its closing tag. */
  function Element(open: Piece, inner: seq<Piece>, name: string): seq<Piece> {
    [open] + inner + [Close(name)]
  }

  lemma {:induction false} LeadsElement(st: seq<string>, open: Piece, inner: seq<Piece>, name: string)
    requires SafePiece(open) && PieceTags(open) == [OpenTag(name)] && IsName(name)
    requires Leads([name] + st, inner, [name] + st)
    ensures Leads(st, Element(open, inner, name), st)
  {
    LeadsOpen(st, open, name);
    LeadsAppend(st, [open], [name] + st, inner, [name] + st);
    LeadsClose(st, name);
    LeadsAppend(st, [open] + inner, [name] + st, [Close(name)], st);
  }

  lemma {:induction false} LeadsWellNested(ps: seq<Piece>)
    requires Leads([], ps, [])
    ensures WellNested(Render(ps))
  {
    LexPieces(ps);
  }
}
