/**
 * What a reader of a translated page sees, line by line and as a whole, told
 * from the characters of the lines.
 */
module PageText {
  import opened Common
  import opened Escape
  import opened Html
  import opened Gemtext
  import opened Browser

  // ---------------------------------------------------------------- blanks and words

  predicate AllBlank(b: string) {
    forall c :: c in b ==> Blank(c)
  }

  lemma {:induction false} SkipExact(b: string, t: string)
    requires AllBlank(b) && (t == "" || !Blank(t[0]))
    ensures SkipBlanks(b + t) == t
  {
    if b == "" {
      assert b + t == t;
    } else {
      assert b[0] in b && (b + t)[1..] == b[1..] + t;
      SkipExact(b[1..], t);
    }
  }

  /** Every text is blanks and a rest that starts with none. */
  lemma {:induction false} SkipSplit(s: string) returns (b: string)
    ensures AllBlank(b) && s == b + SkipBlanks(s)
    ensures SkipBlanks(s) == "" || !Blank(SkipBlanks(s)[0])
  {
    if s != "" && Blank(s[0]) {
      var b' := SkipSplit(s[1..]);
      b := [s[0]] + b';
      Assoc([s[0]], b', SkipBlanks(s[1..]));
      assert s == [s[0]] + s[1..];
    } else {
      b := "";
    }
  }

  lemma {:induction false} WordExact(w: string, t: string)
    requires (forall c :: c in w ==> !Blank(c)) && (t == "" || Blank(t[0]))
    ensures Word(w + t) == w
  {
    if w == "" {
      assert w + t == t;
    } else {
      assert w[0] in w && (w + t)[1..] == w[1..] + t;
      WordExact(w[1..], t);
    }
  }

  /** A link line after its "=>": blanks, a URL, and a caption that blanks set off. */
  predicate LinkSpelled(s: string, b: string, url: string, b': string, caption: string) {
    && s == b + (url + (b' + caption))
    && AllBlank(b) && AllBlank(b')
    && (forall c :: c in url ==> !Blank(c))
    && (caption == "" || (b' != "" && !Blank(caption[0])))
    && (url == "" ==> b' == "")
  }

  /** The parts of a link are its URL, and its caption or the URL again. */
  lemma {:induction false} LinkPartsExact(s: string, b: string, url: string, b': string, caption: string)
    requires LinkSpelled(s, b, url, b', caption)
    ensures LinkParts(s) == (url, if caption == "" then url else caption)
  {
    var rest := b' + caption;
    assert b' != "" ==> rest[0] == b'[0] && b'[0] in b';
    assert url != "" ==> (url + rest)[0] == url[0] && url[0] in url;
    SkipExact(b, url + rest);
    WordExact(url, rest);
    assert (url + rest)[|url|..] == rest;
    SkipExact(b', caption);
  }

  lemma {:induction false} WordStops(s: string)
    ensures forall c :: c in Word(s) ==> !Blank(c)
    ensures Word(s) == s || Blank(s[|Word(s)|])
  {
    if s != "" && !Blank(s[0]) {
      WordStops(s[1..]);
      assert s == [s[0]] + s[1..];
    }
  }

  lemma {:induction false} WordFirst(line: string)
    requires line == "" || !Blank(line[0])
    ensures Word(line) == "" ==> line == ""
  {
  }

  lemma {:induction false} CaptionSplit(line: string) returns (b': string, caption: string)
    requires line == "" || !Blank(line[0])
    ensures LinkSpelled(line, "", Word(line), b', caption)
  {
    var url := Word(line);
    var rest := line[|url|..];
    WordStops(line);
    WordFirst(line);
    Rejoin(line, |url|);
    b' := SkipSplit(rest);
    caption := SkipBlanks(rest);
    assert "" + (url + (b' + caption)) == url + (b' + caption);
  }

  /** Every link line is spelled so. */
  lemma {:induction false} LinkSplit(s: string) returns (b: string, url: string, b': string, caption: string)
    ensures LinkSpelled(s, b, url, b', caption)
  {
    b := SkipSplit(s);
    url := Word(SkipBlanks(s));
    b', caption := CaptionSplit(SkipBlanks(s));
    assert "" + (url + (b' + caption)) == url + (b' + caption);
  }

  // ------------------------------------------------------------------- one line

  function Tagged(name: string, inner: seq<Token>): seq<Token> {
    [Begin(name, [])] + inner + [Finish(name)]
  }

  function LinkTo(url: string, inner: seq<Token>): seq<Token> {
    [Begin("a", [("href", Href(url))])] + inner + [Finish("a")]
  }

  function FigureOf(url: string, caption: string): seq<Token> {
    Tagged("figure", LinkTo(url, [Void("img", [("src", Href(url))])]) + Tagged("figcaption", Chars(caption)))
  }

  /** What a line leaves: a list, or a list of links. */
  function Left(list: bool, nav: bool): seq<Token> {
    (if list then [Finish("ul")] else []) + (if nav then [Finish("ul")] + [Finish("nav")] else [])
  }

  /** Outside lists, links and preformatted text. */
  function PlainTokens(line: string): seq<Token> {
    if StartsWith(line, "```") then
      var caption := SkipBlanks(line[3..]);
      [Begin("figure", [])] + (if caption == "" then [] else Tagged("figcaption", Chars(caption))) + [Begin("pre", [])]
    else if StartsWith(line, ">") then Tagged("blockquote", Chars(line[1..]))
    else if StartsWith(line, "###") then Tagged("h3", Chars(line[3..]))
    else if StartsWith(line, "##") then Tagged("h2", Chars(line[2..]))
    else if StartsWith(line, "#") then Tagged("h1", Chars(line[1..]))
    else if line == "" then []
    else Tagged("p", Chars(line))
  }

  /** What a line shows, by its first characters. */
  function LineTokens(f: Flags, line: string, site: Site): seq<Token> {
    if f.pre then (if StartsWith(line, "```") then [Finish("pre")] + [Finish("figure")] else Chars(line + "\n"))
    else if StartsWith(line, "* ") then
      Left(false, f.nav) + (if f.list then [] else [Begin("ul", [])]) + Tagged("li", Chars(line[2..]))
    else if StartsWith(line, "=>") then
      var (url, caption) := LinkParts(line[2..]);
      var u := site.resolve(url);
      if site.preview(u) then Left(f.list, f.nav) + FigureOf(u, caption)
      else
        Left(f.list, false) + (if f.nav then [] else [Begin("nav", [])] + [Begin("ul", [])]) +
        Tagged("li", LinkTo(u, Chars(caption)))
    else Left(f.list, f.nav) + PlainTokens(line)
  }

  /** The text of a line: the line without its marker, or what a link is labelled with. */
  function LineWords(pre: bool, line: string): string {
    if pre then (if StartsWith(line, "```") then "" else line + "\n")
    else if StartsWith(line, "* ") then line[2..]
    else if StartsWith(line, "=>") then LinkParts(line[2..]).1
    else if StartsWith(line, "```") then SkipBlanks(line[3..])
    else if StartsWith(line, ">") then line[1..]
    else if StartsWith(line, "###") then line[3..]
    else if StartsWith(line, "##") then line[2..]
    else if StartsWith(line, "#") then line[1..]
    else line
  }

  // ------------------------------------------------------------ pieces of a line

  lemma {:induction false} PairSights(a: Piece, b: Piece)
    ensures Sights([a] + [b]) == Sight(a) + Sight(b)
  {
    FlatMapAppend([a], [b], Sight);
    FlatMapOne(a, Sight);
    FlatMapOne(b, Sight);
  }

  lemma {:induction false} ElementSights(open: Piece, inner: seq<Piece>, name: string)
    ensures Sights(Element(open, inner, name)) == Sight(open) + Sights(inner) + [Finish(name)]
  {
    FlatMapAppend([open], inner, Sight);
    FlatMapAppend([open] + inner, [Close(name)], Sight);
    FlatMapOne(open, Sight);
    FlatMapOne(Close(name), Sight);
  }

  lemma {:induction false} TaggedSights(name: string, inner: seq<Piece>)
    ensures Sights(Element(Open(name), inner, name)) == Tagged(name, Sights(inner))
  {
    ElementSights(Open(name), inner, name);
  }

  lemma {:induction false} SimpleSights(name: string, text: string)
    ensures Sights(Simple(name, text)) == Tagged(name, Chars(text))
  {
    TaggedSights(name, [Escaped(text)]);
    FlatMapOne(Escaped(text), Sight);
  }

  lemma UrlMeant(name: string, quote: char, url: string)
    ensures Meanings([Attr(name, quote, [Url(url)])]) == [(name, Href(url))]
  {
    FlatMapOne(Url(url), ValText);
    assert [Attr(name, quote, [Url(url)])][1..] == [];
  }

  lemma {:induction false} AnchorSights(quote: char, url: string, inner: seq<Piece>)
    ensures Sights(Anchor(quote, url, inner)) == LinkTo(url, Sights(inner))
  {
    ElementSights(OpenWith("a", [Attr("href", quote, [Url(url)])]), inner, "a");
    UrlMeant("href", quote, url);
  }

  lemma {:induction false} FigureSights(url: string, caption: string)
    ensures Sights(Figure(url, caption)) == FigureOf(url, caption)
  {
    var img := Empty("img", [Attr("src", '"', [Url(url)])]);
    FlatMapOne(img, Sight);
    UrlMeant("src", '"', url);
    AnchorSights('"', url, [img]);
    SimpleSights("figcaption", caption);
    FlatMapAppend(Anchor('"', url, [img]), Simple("figcaption", caption), Sight);
    TaggedSights("figure", Anchor('"', url, [img]) + Simple("figcaption", caption));
  }

  lemma {:induction false} LinkSights(url: string, caption: string)
    ensures Sights(LinkItem(url, caption)) == Tagged("li", LinkTo(url, Chars(caption)))
  {
    FlatMapOne(Escaped(caption), Sight);
    AnchorSights('\'', url, [Escaped(caption)]);
    TaggedSights("li", Anchor('\'', url, [Escaped(caption)]));
  }

  lemma {:induction false} PreOpenSights(caption: string)
    ensures Sights(PreOpen(caption)) ==
            [Begin("figure", [])] + (if caption == "" then [] else Tagged("figcaption", Chars(caption))) +
            [Begin("pre", [])]
  {
    var cap := if caption == "" then [] else Simple("figcaption", caption);
    SimpleSights("figcaption", caption);
    FlatMapAppend([Open("figure")], cap, Sight);
    FlatMapAppend([Open("figure")] + cap, [Open("pre")], Sight);
    FlatMapOne(Open("figure"), Sight);
    FlatMapOne(Open("pre"), Sight);
  }

  lemma {:induction false} PreTextSights(line: string)
    ensures Sights([Escaped(line)] + [Literal("\n")]) == Chars(line + "\n")
  {
    PairSights(Escaped(line), Literal("\n"));
    assert Chars(line) + Chars("\n") == Chars(line + "\n");
  }

  lemma {:induction false} ClosingSights(f: Flags, k: Kind)
    ensures Sights(Closing(f, k)) == if f.pre then [] else Left(f.list && k != Bullet, f.nav && k != Link)
  {
    var a := if f.list && k != Bullet && !f.pre then [Close("ul")] else [];
    var b := if f.nav && k != Link && !f.pre then NavClose() else [];
    FlatMapAppend(a, b, Sight);
    FlatMapOne(Close("ul"), Sight);
    PairSights(Close("ul"), Close("nav"));
  }

  lemma {:induction false} OpeningSights(f: Flags, k: Kind)
    ensures Sights(Opening(f, k)) ==
            if k == Bullet && !f.list then [Begin("ul", [])]
            else if k == Link && !f.nav then [Begin("nav", [])] + [Begin("ul", [])]
            else []
  {
    FlatMapOne(Open("ul"), Sight);
    PairSights(Open("nav"), Open("ul"));
  }

  lemma NotMarked(line: string, mark: string)
    requires mark != "" && (line != "" ==> line[0] != mark[0])
    ensures !StartsWith(line, mark)
  {
    assert |mark| <= |line| ==> line[..|mark|][0] == line[0];
  }

  /** Which of the marks a line that starts with '#' has. */
  lemma HashOnly(line: string)
    requires line != "" && line[0] == '#'
    ensures !StartsWith(line, "* ") && !StartsWith(line, "=>") && !StartsWith(line, "```") && !StartsWith(line, ">")
  {
    NotMarked(line, "* ");
    NotMarked(line, "=>");
    NotMarked(line, "```");
    NotMarked(line, ">");
  }

  /** A line of headings is one of the third, the second or the first level. */
  function Level(line: string): nat {
    if StartsWith(line, "###") then 3 else if StartsWith(line, "##") then 2 else 1
  }

  lemma {:induction false} HeadingKind(line: string, site: Site)
    requires StartsWith(line, "#")
    ensures KindOf(false, line, site) == Heading(Level(line))
    ensures PlainTokens(line) == Tagged(HeadingName(Level(line)), Chars(line[Level(line)..]))
  {
    assert line[0] == '#';
    HashOnly(line);
  }

  lemma {:induction false} HeadingSights(line: string, site: Site)
    requires StartsWith(line, "#")
    ensures Sights(Own(KindOf(false, line, site), line, site)) == PlainTokens(line)
  {
    var n := Level(line);
    HeadingKind(line, site);
    SimpleSights(HeadingName(n), line[n..]);
  }

  lemma {:induction false} FenceSights(line: string, site: Site)
    requires !StartsWith(line, "* ") && !StartsWith(line, "=>") && StartsWith(line, "```")
    ensures Sights(Own(KindOf(false, line, site), line, site)) == PlainTokens(line)
  {
    PreOpenSights(SkipBlanks(line[3..]));
  }

  lemma {:induction false} QuoteSights(line: string, site: Site)
    requires !StartsWith(line, "* ") && !StartsWith(line, "=>") && !StartsWith(line, "```") && StartsWith(line, ">")
    ensures Sights(Own(KindOf(false, line, site), line, site)) == PlainTokens(line)
  {
    SimpleSights("blockquote", line[1..]);
  }

  lemma UnmarkedKind(line: string, site: Site)
    requires !StartsWith(line, "* ") && !StartsWith(line, "=>") && !StartsWith(line, "```") && !StartsWith(line, ">")
    requires !StartsWith(line, "###") && !StartsWith(line, "##") && !StartsWith(line, "#")
    ensures KindOf(false, line, site) == if line == "" then Nothing else Paragraph
    ensures PlainTokens(line) == if line == "" then [] else Tagged("p", Chars(line))
  {
  }

  lemma {:induction false} PlainSights(line: string, site: Site)
    requires !StartsWith(line, "* ") && !StartsWith(line, "=>")
    ensures Sights(Own(KindOf(false, line, site), line, site)) == PlainTokens(line)
  {
    if StartsWith(line, "#") {
      HeadingSights(line, site);
    } else if StartsWith(line, "```") {
      FenceSights(line, site);
    } else if StartsWith(line, ">") {
      QuoteSights(line, site);
    } else {
      NotMarked(line, "###");
      NotMarked(line, "##");
      UnmarkedKind(line, site);
      SimpleSights("p", line);
    }
  }

  lemma {:induction false} LineSplit(f: Flags, line: string, site: Site)
    ensures var k := KindOf(f.pre, line, site);
            Sights(Line(f, line, site)) == Sights(Closing(f, k)) + Sights(Opening(f, k)) + Sights(Own(k, line, site))
  {
    var k := KindOf(f.pre, line, site);
    FlatMapAppend(Closing(f, k) + Opening(f, k), Own(k, line, site), Sight);
    FlatMapAppend(Closing(f, k), Opening(f, k), Sight);
  }

  lemma {:induction false} PreSights(f: Flags, line: string, site: Site)
    requires f.pre
    ensures Sights(Line(f, line, site)) == LineTokens(f, line, site)
  {
    LineSplit(f, line, site);
    ClosingSights(f, KindOf(true, line, site));
    OpeningSights(f, KindOf(true, line, site));
    PairSights(Close("pre"), Close("figure"));
    PreTextSights(line);
  }

  lemma {:induction false} BulletSights(f: Flags, line: string, site: Site)
    requires !f.pre && StartsWith(line, "* ")
    ensures Sights(Line(f, line, site)) == LineTokens(f, line, site)
  {
    LineSplit(f, line, site);
    ClosingSights(f, Bullet);
    OpeningSights(f, Bullet);
    SimpleSights("li", line[2..]);
  }

  /** A line that neither continues nor starts a list. */
  lemma {:induction false} ApartSights(f: Flags, k: Kind, own: seq<Piece>, tokens: seq<Token>)
    requires !f.pre && k != Bullet && k != Link && Sights(own) == tokens
    ensures Sights(Closing(f, k) + Opening(f, k) + own) == Left(f.list, f.nav) + tokens
  {
    FlatMapAppend(Closing(f, k) + Opening(f, k), own, Sight);
    FlatMapAppend(Closing(f, k), Opening(f, k), Sight);
    ClosingSights(f, k);
    OpeningSights(f, k);
  }

  lemma {:induction false} LinkedSights(f: Flags, own: seq<Piece>, tokens: seq<Token>)
    requires !f.pre && Sights(own) == tokens
    ensures Sights(Closing(f, Link) + Opening(f, Link) + own) ==
            Left(f.list, false) + (if f.nav then [] else [Begin("nav", [])] + [Begin("ul", [])]) + tokens
  {
    FlatMapAppend(Closing(f, Link) + Opening(f, Link), own, Sight);
    FlatMapAppend(Closing(f, Link), Opening(f, Link), Sight);
    ClosingSights(f, Link);
    OpeningSights(f, Link);
  }

  lemma {:induction false} LinkLineSights(f: Flags, line: string, site: Site)
    requires !f.pre && StartsWith(line, "=>") && !StartsWith(line, "* ")
    ensures Sights(Line(f, line, site)) == LineTokens(f, line, site)
  {
    var (url, caption) := LinkParts(line[2..]);
    var u := site.resolve(url);
    if site.preview(u) {
      FigureSights(u, caption);
      ApartSights(f, Image, Figure(u, caption), FigureOf(u, caption));
    } else {
      LinkSights(u, caption);
      LinkedSights(f, LinkItem(u, caption), Tagged("li", LinkTo(u, Chars(caption))));
    }
  }

  lemma PlainKind(line: string, site: Site)
    requires !StartsWith(line, "* ") && !StartsWith(line, "=>")
    ensures KindOf(false, line, site) != Bullet && KindOf(false, line, site) != Link
  {
  }

  lemma {:induction false} PlainLineSights(f: Flags, line: string, site: Site)
    requires !f.pre && !StartsWith(line, "* ") && !StartsWith(line, "=>")
    ensures Sights(Line(f, line, site)) == Left(f.list, f.nav) + PlainTokens(line)
  {
    var k := KindOf(false, line, site);
    PlainKind(line, site);
    PlainSights(line, site);
    ApartSights(f, k, Own(k, line, site), PlainTokens(line));
  }

  lemma {:induction false} LineSights(f: Flags, line: string, site: Site)
    ensures Sights(Line(f, line, site)) == LineTokens(f, line, site)
  {
    if f.pre {
      PreSights(f, line, site);
    } else if StartsWith(line, "* ") {
      BulletSights(f, line, site);
    } else if StartsWith(line, "=>") {
      LinkLineSights(f, line, site);
    } else {
      PlainLineSights(f, line, site);
    }
  }

  /** What a browser makes of a translated line. */
  lemma {:induction false} LineSeen(f: Flags, line: string, site: Site)
    requires AtMostOne(f)
    ensures Seen(Render(Line(f, line, site))) == LineTokens(f, line, site)
  {
    LineLeads(f, line, site);
    SeenPieces(Line(f, line, site));
    LineSights(f, line, site);
  }

  // ------------------------------------------------------------------ its text

  lemma {:induction false} WordsAppend(a: seq<Token>, b: seq<Token>)
    ensures Words(a + b) == Words(a) + Words(b)
  {
    FlatMapAppend(a, b, TokenText);
  }

  lemma {:induction false} WordsTag(t: Token)
    requires !t.Txt?
    ensures Words([t]) == ""
  {
    FlatMapOne(t, TokenText);
  }

  lemma {:induction false} WordsTwo(a: Token, b: Token)
    requires !a.Txt? && !b.Txt?
    ensures Words([a] + [b]) == ""
  {
    WordsAppend([a], [b]);
    WordsTag(a);
    WordsTag(b);
  }

  lemma {:induction false} WordsWithin(open: Token, inner: seq<Token>, close: Token)
    requires !open.Txt? && !close.Txt?
    ensures Words([open] + inner + [close]) == Words(inner)
  {
    WordsAppend([open] + inner, [close]);
    WordsAppend([open], inner);
    WordsTag(open);
    WordsTag(close);
  }

  lemma {:induction false} WordsTagged(name: string, text: string)
    ensures Words(Tagged(name, Chars(text))) == text
  {
    WordsWithin(Begin(name, []), Chars(text), Finish(name));
    WordsChars(text);
  }

  lemma {:induction false} WordsLeft(list: bool, nav: bool)
    ensures Words(Left(list, nav)) == ""
  {
    WordsAppend(if list then [Finish("ul")] else [], if nav then [Finish("ul")] + [Finish("nav")] else []);
    WordsTag(Finish("ul"));
    WordsTwo(Finish("ul"), Finish("nav"));
  }

  lemma {:induction false} WordsThree(a: seq<Token>, b: seq<Token>, c: seq<Token>)
    requires Words(a) == "" && Words(b) == ""
    ensures Words(a + b + c) == Words(c)
  {
    WordsAppend(a + b, c);
    WordsAppend(a, b);
  }

  lemma {:induction false} WordsFigure(url: string, caption: string)
    ensures Words(FigureOf(url, caption)) == caption
  {
    var img, cap := LinkTo(url, [Void("img", [("src", Href(url))])]), Tagged("figcaption", Chars(caption));
    WordsTag(Void("img", [("src", Href(url))]));
    WordsWithin(Begin("a", [("href", Href(url))]), [Void("img", [("src", Href(url))])], Finish("a"));
    WordsTagged("figcaption", caption);
    WordsAppend(img, cap);
    WordsWithin(Begin("figure", []), img + cap, Finish("figure"));
  }

  lemma {:induction false} WordsLink(url: string, caption: string)
    ensures Words(Tagged("li", LinkTo(url, Chars(caption)))) == caption
  {
    WordsChars(caption);
    WordsWithin(Begin("a", [("href", Href(url))]), Chars(caption), Finish("a"));
    WordsWithin(Begin("li", []), LinkTo(url, Chars(caption)), Finish("li"));
  }

  lemma {:induction false} WordsFence(caption: string)
    ensures Words([Begin("figure", [])] + (if caption == "" then [] else Tagged("figcaption", Chars(caption))) +
                  [Begin("pre", [])]) == caption
  {
    var cap := if caption == "" then [] else Tagged("figcaption", Chars(caption));
    WordsTagged("figcaption", caption);
    WordsWithin(Begin("figure", []), cap, Begin("pre", []));
  }

  lemma {:induction false} WordsHeading(line: string)
    requires StartsWith(line, "#")
    ensures Words(PlainTokens(line)) == line[Level(line)..]
    ensures LineWords(false, line) == line[Level(line)..]
  {
    assert line[0] == '#';
    HashOnly(line);
    WordsTagged(HeadingName(Level(line)), line[Level(line)..]);
  }

  lemma {:induction false} WordsPlain(line: string)
    requires !StartsWith(line, "* ") && !StartsWith(line, "=>")
    ensures Words(PlainTokens(line)) == LineWords(false, line)
  {
    if StartsWith(line, "#") {
      WordsHeading(line);
    } else {
      NotMarked(line, "###");
      NotMarked(line, "##");
      if StartsWith(line, "```") {
        WordsFence(SkipBlanks(line[3..]));
      } else if StartsWith(line, ">") {
        WordsTagged("blockquote", line[1..]);
      } else if line != "" {
        WordsTagged("p", line);
      }
    }
  }

  lemma {:induction false} WordsLinkLine(f: Flags, line: string, site: Site)
    requires !f.pre && !StartsWith(line, "* ") && StartsWith(line, "=>")
    ensures Words(LineTokens(f, line, site)) == LinkParts(line[2..]).1
  {
    var (url, caption) := LinkParts(line[2..]);
    var u := site.resolve(url);
    WordsLeft(f.list, f.nav);
    WordsLeft(f.list, false);
    if site.preview(u) {
      WordsFigure(u, caption);
      WordsAppend(Left(f.list, f.nav), FigureOf(u, caption));
    } else {
      var open := if f.nav then [] else [Begin("nav", [])] + [Begin("ul", [])];
      WordsTwo(Begin("nav", []), Begin("ul", []));
      WordsLink(u, caption);
      WordsThree(Left(f.list, false), open, Tagged("li", LinkTo(u, Chars(caption))));
    }
  }

  lemma {:induction false} WordsBullet(f: Flags, line: string, site: Site)
    requires !f.pre && StartsWith(line, "* ")
    ensures Words(LineTokens(f, line, site)) == line[2..]
  {
    var open := if f.list then [] else [Begin("ul", [])];
    WordsLeft(false, f.nav);
    WordsTag(Begin("ul", []));
    WordsTagged("li", line[2..]);
    WordsThree(Left(false, f.nav), open, Tagged("li", Chars(line[2..])));
  }

  lemma {:induction false} WordsLine(f: Flags, line: string, site: Site)
    ensures Words(LineTokens(f, line, site)) == LineWords(f.pre, line)
  {
    if f.pre {
      WordsTwo(Finish("pre"), Finish("figure"));
      WordsChars(line + "\n");
    } else if StartsWith(line, "* ") {
      WordsBullet(f, line, site);
    } else if StartsWith(line, "=>") {
      WordsLinkLine(f, line, site);
    } else {
      WordsPlain(line);
      WordsLeft(f.list, f.nav);
      WordsAppend(Left(f.list, f.nav), PlainTokens(line));
    }
  }

  /** A reader sees the line without its marker, or what the link is labelled with. */
  lemma {:induction false} LineRead(f: Flags, line: string, site: Site)
    requires AtMostOne(f)
    ensures Words(Seen(Render(Line(f, line, site)))) == LineWords(f.pre, line)
  {
    LineSeen(f, line, site);
    WordsLine(f, line, site);
  }

  // --------------------------------------------------------------------- many lines

  /** The flags after a line, by its first characters. */
  function Turned(f: Flags, line: string, site: Site): Flags {
    if f.pre then (if StartsWith(line, "```") then NONE else f)
    else if StartsWith(line, "* ") then Flags(false, true, false)
    else if StartsWith(line, "=>") then Flags(false, false, !site.preview(site.resolve(LinkParts(line[2..]).0)))
    else Flags(StartsWith(line, "```"), false, false)
  }

  lemma TurnedIs(f: Flags, line: string, site: Site)
    ensures Turned(f, line, site) == After(f, line, site)
  {
  }

  function LinesTokens(f: Flags, lines: seq<string>, site: Site): seq<Token>
    decreases |lines|
  {
    if lines == [] then []
    else LineTokens(f, lines[0], site) + LinesTokens(Turned(f, lines[0], site), lines[1..], site)
  }

  /** The text of the lines, in order; a line of three grave accents starts or ends preformatted text. */
  function LinesWords(pre: bool, lines: seq<string>): string
    decreases |lines|
  {
    if lines == [] then "" else LineWords(pre, lines[0]) + LinesWords(pre != StartsWith(lines[0], "```"), lines[1..])
  }

  function FlagsAfter(f: Flags, lines: seq<string>, site: Site): Flags
    decreases |lines|
  {
    if lines == [] then f else FlagsAfter(Turned(f, lines[0], site), lines[1..], site)
  }

  lemma {:induction false} LinesSights(f: Flags, lines: seq<string>, site: Site)
    ensures Sights(Lines(f, lines, site)) == LinesTokens(f, lines, site)
    ensures AfterLines(f, lines, site) == FlagsAfter(f, lines, site)
    decreases |lines|
  {
    if lines != [] {
      var f' := After(f, lines[0], site);
      TurnedIs(f, lines[0], site);
      LineSights(f, lines[0], site);
      LinesSights(f', lines[1..], site);
      FlatMapAppend(Line(f, lines[0], site), Lines(f', lines[1..], site), Sight);
    }
  }

  lemma TurnedPre(f: Flags, line: string, site: Site)
    ensures Turned(f, line, site).pre == (f.pre != StartsWith(line, "```"))
  {
    if StartsWith(line, "* ") {
      assert line[0] == '*';
      NotMarked(line, "```");
    } else if StartsWith(line, "=>") {
      assert line[0] == '=';
      NotMarked(line, "```");
    }
  }

  lemma {:induction false} WordsLines(f: Flags, lines: seq<string>, site: Site)
    ensures Words(LinesTokens(f, lines, site)) == LinesWords(f.pre, lines)
    decreases |lines|
  {
    if lines != [] {
      var f' := Turned(f, lines[0], site);
      TurnedPre(f, lines[0], site);
      WordsLine(f, lines[0], site);
      WordsLines(f', lines[1..], site);
      WordsAppend(LineTokens(f, lines[0], site), LinesTokens(f', lines[1..], site));
    }
  }
}
