/** Whole pages as a reader sees them: their head and foot, and the text of their lines in order. */
module DocumentText {
  import opened Common
  import opened Escape
  import opened Html
  import opened Gemtext
  import opened Browser
  import opened PageText

  // ---------------------------------------------------------------------- values

  lemma {:induction false} UnescapeText(s: string, t: string)
    ensures HtmlUnescape(HtmlEscape(s) + t) == s + HtmlUnescape(t)
  {
    if s == "" {
      assert HtmlEscape(s) + t == t;
    } else {
      var c, rest := s[0], s[1..];
      assert s == [c] + rest;
      Assoc(HtmlChar(c), HtmlEscape(rest), t);
      UnescapeFirst(c, HtmlEscape(rest) + t);
      UnescapeText(rest, t);
      Assoc([c], rest, HtmlUnescape(t));
    }
  }

  lemma {:induction false} UnescapeLiteral(s: string, t: string)
    requires '&' !in s
    ensures HtmlUnescape(s + t) == s + HtmlUnescape(t)
  {
    if s == "" {
      assert s + t == t;
    } else {
      var c, rest := s[0], s[1..];
      assert s == [c] + rest;
      Assoc([c], rest, t);
      UnescapePlain(c, rest + t);
      UnescapeLiteral(rest, t);
      Assoc([c], rest, HtmlUnescape(t));
    }
  }

  /** A value that stands for its own text. */
  predicate Textual(v: Val) {
    !v.Url? && (v.Lit? ==> '&' !in v.s)
  }

  lemma {:induction false} ValueMeant(v: Val, rest: seq<Val>)
    requires Textual(v)
    ensures HtmlUnescape(ValsText([v] + rest)) == v.s + HtmlUnescape(ValsText(rest))
  {
    FlatMapAppend([v], rest, ValText);
    FlatMapOne(v, ValText);
    if v.Lit? { UnescapeLiteral(v.s, ValsText(rest)); } else { UnescapeText(v.s, ValsText(rest)); }
  }

  lemma {:induction false} OneMeant(v: Val)
    requires Textual(v)
    ensures HtmlUnescape(ValsText([v])) == v.s
  {
    ValueMeant(v, []);
    assert [v] + [] == [v];
  }

  lemma {:induction false} TwoMeant(v: Val, w: Val)
    requires Textual(v) && Textual(w)
    ensures HtmlUnescape(ValsText([v, w])) == v.s + w.s
  {
    ValueMeant(v, [w]);
    OneMeant(w);
    assert [v] + [w] == [v, w];
  }

  lemma {:induction false} ThreeMeant(v: Val, w: Val, x: Val)
    requires Textual(v) && Textual(w) && Textual(x)
    ensures HtmlUnescape(ValsText([v, w, x])) == v.s + (w.s + x.s)
  {
    ValueMeant(v, [w, x]);
    TwoMeant(w, x);
    assert [v] + [w, x] == [v, w, x];
  }

  lemma {:induction false} UrlEscapeAppend(a: string, b: string)
    ensures UrlEscape(a + b) == UrlEscape(a) + UrlEscape(b)
  {
    if a == "" {
      assert a + b == b;
    } else {
      assert (a + b)[1..] == a[1..] + b;
      UrlEscapeAppend(a[1..], b);
      Assoc(UrlChar(a[0]), UrlEscape(a[1..]), UrlEscape(b));
    }
  }

  lemma {:induction false} UrlsMeant(before: string, a: string, b: string)
    requires '&' !in before
    ensures HtmlUnescape(ValsText([Lit(before), Url(a), Url(b)])) == before + Href(a + b)
  {
    ValueMeant(Lit(before), [Url(a), Url(b)]);
    FlatMapAppend([Url(a)], [Url(b)], ValText);
    FlatMapOne(Url(a), ValText);
    FlatMapOne(Url(b), ValText);
    UrlEscapeAppend(a, b);
    assert [Lit(before)] + [Url(a), Url(b)] == [Lit(before), Url(a), Url(b)];
    assert [Url(a)] + [Url(b)] == [Url(a), Url(b)];
  }

  lemma {:induction false} AttrMeant(name: string, quote: char, vals: seq<Val>)
    ensures Meanings([Attr(name, quote, vals)]) == [(name, HtmlUnescape(ValsText(vals)))]
  {
    assert [Attr(name, quote, vals)][1..] == [];
  }

  lemma {:induction false} AttrsMeant(a: Attr, b: Attr)
    ensures Meanings([a, b]) == [Meant(a), Meant(b)]
  {
    assert [a, b][1..] == [b] && [b][1..] == [];
    assert Meanings([b]) == [Meant(b)];
  }

  lemma {:induction false} LitMeant(name: string, text: string)
    requires '&' !in text
    ensures Meant(Attr(name, '"', [Lit(text)])) == (name, text)
  {
    OneMeant(Lit(text));
  }

  // -------------------------------------------------------------- the head of a page

  function Original(pg: Page): string {
    "gemini://" + (pg.proxyName + PathText(pg))
  }

  function TitleWords(pg: Page): string {
    if pg.title.Some? then pg.title.value else if pg.configured then Original(pg) else ""
  }

  const META := Void("meta", [("name", "viewport"), ("content", "initial-scale=1")])

  function SheetHref(pg: Page): string {
    if pg.stylesheet == "" then pg.prefix + "galileo.css" else Href(pg.stylesheet)
  }

  function HeadPart(pg: Page): seq<Token> {
    var sheet := Void("link", [("rel", "stylesheet"), ("href", SheetHref(pg))]);
    Tagged("head", [META] + ([sheet] + Tagged("title", Chars(TitleWords(pg)))))
  }

  function Item(href: string, text: string): seq<Token> {
    Tagged("li", [Begin("a", [("href", href)])] + Chars(text) + [Finish("a")])
  }

  function HomeWords(pg: Page): string {
    "\U{F0}\U{9F}\U{8F}\U{A0} " + (pg.user + "' home")
  }

  function Items(pg: Page): seq<Token> {
    Item(pg.prefix, "/ Root") +
    (Item(pg.prefix + (pg.parent + pg.parentEnd), "\U{E2}\U{86}\U{91} Up") +
     (if pg.home == "" then [] else Item(pg.prefix + pg.home, HomeWords(pg))))
  }

  function NavTokens(pg: Page): seq<Token> {
    if pg.path.Some? && !pg.hideNav then Tagged("header", Tagged("nav", Tagged("ul", Items(pg)))) else []
  }

  /** Everything before the lines. */
  function HeadTokens(pg: Page): seq<Token> {
    [Declared] +
    ([Begin("html", if pg.lang == "" then [] else [("lang", pg.lang)])] +
     (HeadPart(pg) + ([Begin("body", [])] + NavTokens(pg))))
  }

  lemma CharsAppend(a: string, b: string)
    ensures Chars(a + b) == Chars(a) + Chars(b)
  {
  }

  lemma {:induction false} OriginalSights(pg: Page)
    ensures Sights(OriginalUrl(pg)) == Chars(Original(pg))
  {
    var name, path := pg.proxyName, PathText(pg);
    PairSights(Escaped(name), Escaped(path));
    FlatMapAppend([Literal("gemini://")], [Escaped(name)] + [Escaped(path)], Sight);
    FlatMapOne(Literal("gemini://"), Sight);
    CharsAppend(name, path);
    CharsAppend("gemini://", name + path);
  }

  lemma {:induction false} TitleSights(pg: Page)
    ensures Sights(Element(Open("title"), TitleText(pg), "title")) == Tagged("title", Chars(TitleWords(pg)))
  {
    TaggedSights("title", TitleText(pg));
    if pg.title.Some? { FlatMapOne(Escaped(pg.title.value), Sight); }
    else if pg.configured { OriginalSights(pg); }
  }

  lemma {:induction false} ViewportMeant()
    ensures Meant(Attr("name", '"', [Lit("viewport")])) == ("name", "viewport")
    ensures Meant(Attr("content", '"', [Lit("initial-scale=1")])) == ("content", "initial-scale=1")
  {
    LitMeant("name", "viewport");
    LitMeant("content", "initial-scale=1");
  }

  lemma {:induction false} ViewportSight()
    ensures Sight(VIEWPORT) == [META]
  {
    ViewportMeant();
    AttrsMeant(Attr("name", '"', [Lit("viewport")]), Attr("content", '"', [Lit("initial-scale=1")]));
  }

  lemma {:induction false} SheetMeant(pg: Page)
    ensures HtmlUnescape(ValsText(if pg.stylesheet == "" then [Html(pg.prefix), Lit("galileo.css")]
                                  else [Url(pg.stylesheet)])) == SheetHref(pg)
  {
    if pg.stylesheet == "" {
      TwoMeant(Html(pg.prefix), Lit("galileo.css"));
    } else {
      FlatMapOne(Url(pg.stylesheet), ValText);
    }
  }

  lemma {:induction false} SheetAttrs(vals: seq<Val>, href: string)
    requires HtmlUnescape(ValsText(vals)) == href
    ensures Meanings([Attr("rel", '"', [Lit("stylesheet")]), Attr("href", '"', vals)]) ==
            [("rel", "stylesheet"), ("href", href)]
  {
    LitMeant("rel", "stylesheet");
    AttrsMeant(Attr("rel", '"', [Lit("stylesheet")]), Attr("href", '"', vals));
  }

  lemma {:induction false} SheetSight(pg: Page)
    ensures Sight(Stylesheet(pg)) == [Void("link", [("rel", "stylesheet"), ("href", SheetHref(pg))])]
  {
    var vals := if pg.stylesheet == "" then [Html(pg.prefix), Lit("galileo.css")] else [Url(pg.stylesheet)];
    SheetMeant(pg);
    SheetAttrs(vals, SheetHref(pg));
  }

  lemma {:induction false} HeadPartSights(pg: Page)
    ensures Sights(HeadElement(pg)) == HeadPart(pg)
  {
    var title := Element(Open("title"), TitleText(pg), "title");
    TitleSights(pg);
    ViewportSight();
    SheetSight(pg);
    FlatMapOne(VIEWPORT, Sight);
    FlatMapOne(Stylesheet(pg), Sight);
    FlatMapAppend([Stylesheet(pg)], title, Sight);
    FlatMapAppend([VIEWPORT], [Stylesheet(pg)] + title, Sight);
    TaggedSights("head", [VIEWPORT] + ([Stylesheet(pg)] + title));
  }

  lemma {:induction false} ItemSights(href: seq<Val>, text: seq<Piece>, words: string)
    requires Sights(text) == Chars(words)
    ensures Sights(NavItem(href, text)) == Item(HtmlUnescape(ValsText(href)), words)
  {
    var open := OpenWith("a", [Attr("href", '"', href)]);
    AttrMeant("href", '"', href);
    ElementSights(open, text, "a");
    TaggedSights("li", Element(open, text, "a"));
  }

  lemma {:induction false} HomeSights(pg: Page)
    ensures Sights(NavItem([Html(pg.prefix), Html(pg.home)], HomeText(pg))) == Item(pg.prefix + pg.home, HomeWords(pg))
  {
    var house, home := Literal("\U{F0}\U{9F}\U{8F}\U{A0} "), Literal("' home");
    PairSights(Escaped(pg.user), home);
    FlatMapAppend([house], [Escaped(pg.user)] + [home], Sight);
    FlatMapOne(house, Sight);
    CharsAppend(pg.user, "' home");
    CharsAppend("\U{F0}\U{9F}\U{8F}\U{A0} ", pg.user + "' home");
    TwoMeant(Html(pg.prefix), Html(pg.home));
    ItemSights([Html(pg.prefix), Html(pg.home)], HomeText(pg), HomeWords(pg));
  }

  lemma {:induction false} ItemsSights(pg: Page)
    ensures Sights(NavItems(pg)) == Items(pg)
  {
    var top, up := Literal("/ Root"), Literal("\U{E2}\U{86}\U{91} Up");
    var parent := [Html(pg.prefix), Html(pg.parent), Html(pg.parentEnd)];
    var home := if pg.home == "" then [] else NavItem([Html(pg.prefix), Html(pg.home)], HomeText(pg));
    FlatMapOne(top, Sight);
    FlatMapOne(up, Sight);
    OneMeant(Html(pg.prefix));
    ThreeMeant(Html(pg.prefix), Html(pg.parent), Html(pg.parentEnd));
    ItemSights([Html(pg.prefix)], [top], "/ Root");
    ItemSights(parent, [up], "\U{E2}\U{86}\U{91} Up");
    HomeSights(pg);
    FlatMapAppend(NavItem(parent, [up]), home, Sight);
    FlatMapAppend(NavItem([Html(pg.prefix)], [top]), NavItem(parent, [up]) + home, Sight);
  }

  lemma {:induction false} NavSights(pg: Page)
    ensures Sights(MaybeNavigation(pg)) == NavTokens(pg)
  {
    ItemsSights(pg);
    TaggedSights("ul", NavItems(pg));
    TaggedSights("nav", Element(Open("ul"), NavItems(pg), "ul"));
    TaggedSights("header", Element(Open("nav"), Element(Open("ul"), NavItems(pg), "ul"), "nav"));
  }

  lemma {:induction false} HtmlOpenSight(pg: Page)
    ensures Sight(HtmlOpen(pg)) == [Begin("html", if pg.lang == "" then [] else [("lang", pg.lang)])]
  {
    AttrMeant("lang", '"', [Html(pg.lang)]);
    OneMeant(Html(pg.lang));
  }

  lemma {:induction false} FiveSights(a: Piece, b: Piece, c: seq<Piece>, d: Piece, e: seq<Piece>)
    ensures Sights([a] + ([b] + (c + ([d] + e)))) == Sight(a) + (Sight(b) + (Sights(c) + (Sight(d) + Sights(e))))
  {
    FlatMapOne(a, Sight);
    FlatMapOne(b, Sight);
    FlatMapOne(d, Sight);
    FlatMapAppend([d], e, Sight);
    FlatMapAppend(c, [d] + e, Sight);
    FlatMapAppend([b], c + ([d] + e), Sight);
    FlatMapAppend([a], [b] + (c + ([d] + e)), Sight);
  }

  /** The order of the parts of a head. */
  lemma {:induction false} HeadInParts(pg: Page)
    ensures Sights(Head(pg)) ==
            Sight(Doctype) + (Sight(HtmlOpen(pg)) + (Sights(HeadElement(pg)) +
            (Sight(Open("body")) + Sights(MaybeNavigation(pg)))))
  {
    FiveSights(Doctype, HtmlOpen(pg), HeadElement(pg), Open("body"), MaybeNavigation(pg));
  }

  lemma {:induction false} HeadSights(pg: Page)
    ensures Sights(Head(pg)) == HeadTokens(pg)
  {
    HeadInParts(pg);
    HtmlOpenSight(pg);
    HeadPartSights(pg);
    NavSights(pg);
  }

  // -------------------------------------------------------------- the foot of a page

  function FooterTokens(pg: Page): seq<Token> {
    var href := "gemini://" + Href(pg.proxyName + PathText(pg));
    var anchor := [Begin("a", [("href", href)])] + Chars(Original(pg)) + [Finish("a")];
    Tagged("footer",
           [Void("hr", [])] + Tagged("dl", Tagged("dt", Chars("Original URL:")) + Tagged("dd", anchor)))
  }

  /** Everything after the lines. */
  function FootTokens(pg: Page): seq<Token> {
    (if pg.configured && !pg.hideFoot then FooterTokens(pg) else []) + ([Finish("body")] + [Finish("html")])
  }

  lemma {:induction false} FooterLinkSights(pg: Page)
    ensures Sights(FooterLink(pg)) ==
            [Begin("a", [("href", "gemini://" + Href(pg.proxyName + PathText(pg)))])] + Chars(Original(pg)) +
            [Finish("a")]
  {
    UrlsMeant("gemini://", pg.proxyName, PathText(pg));
    AttrMeant("href", '"', [Lit("gemini://"), Url(pg.proxyName), Url(PathText(pg))]);
    OriginalSights(pg);
    ElementSights(FooterAnchor(pg), OriginalUrl(pg), "a");
  }

  lemma {:induction false} FooterSights(pg: Page)
    ensures Sights(Footer(pg)) == FooterTokens(pg)
  {
    var dt, dd := Element(Open("dt"), [Literal(ORIGINAL)], "dt"), Element(Open("dd"), FooterLink(pg), "dd");
    FooterLinkSights(pg);
    FlatMapOne(Literal(ORIGINAL), Sight);
    TaggedSights("dt", [Literal(ORIGINAL)]);
    TaggedSights("dd", FooterLink(pg));
    FlatMapAppend(dt, dd, Sight);
    TaggedSights("dl", dt + dd);
    FlatMapOne(Empty("hr", []), Sight);
    FlatMapAppend([Empty("hr", [])], Element(Open("dl"), dt + dd, "dl"), Sight);
    TaggedSights("footer", [Empty("hr", [])] + Element(Open("dl"), dt + dd, "dl"));
  }

  lemma {:induction false} FootSights(pg: Page)
    ensures Sights(Foot(pg)) == FootTokens(pg)
  {
    FooterSights(pg);
    PairSights(Close("body"), Close("html"));
    FlatMapAppend(if pg.configured && !pg.hideFoot then Footer(pg) else [], [Close("body")] + [Close("html")], Sight);
  }

  // ------------------------------------------------------------------ a whole page

  /** What closes whatever the last line left open. */
  function EndTokens(f: Flags): seq<Token> {
    (if f.pre then [Finish("pre")] + [Finish("figure")] else []) + Left(f.list, f.nav)
  }

  lemma {:induction false} EndSights(f: Flags)
    ensures Sights(AtEnd(f)) == EndTokens(f)
  {
    var a, b := if f.pre then PreClose() else [], if f.list then [Close("ul")] else [];
    var c := if f.nav then NavClose() else [];
    FlatMapAppend(a + b, c, Sight);
    FlatMapAppend(a, b, Sight);
    PairSights(Close("pre"), Close("figure"));
    FlatMapOne(Close("ul"), Sight);
    PairSights(Close("ul"), Close("nav"));
    Assoc(Sights(a), Sights(b), Sights(c));
  }

  function DocumentTokens(pg: Page, lines: seq<string>, site: Site): seq<Token> {
    HeadTokens(pg) + (LinesTokens(NONE, lines, site) + (EndTokens(FlagsAfter(NONE, lines, site)) + FootTokens(pg)))
  }

  lemma {:induction false} DocumentSights(pg: Page, lines: seq<string>, site: Site)
    ensures Sights(Document(pg, lines, site)) == DocumentTokens(pg, lines, site)
  {
    var f := AfterLines(NONE, lines, site);
    HeadSights(pg);
    LinesSights(NONE, lines, site);
    EndSights(f);
    FootSights(pg);
    FlatMapAppend(AtEnd(f), Foot(pg), Sight);
    FlatMapAppend(Lines(NONE, lines, site), AtEnd(f) + Foot(pg), Sight);
    FlatMapAppend(Head(pg), Lines(NONE, lines, site) + (AtEnd(f) + Foot(pg)), Sight);
  }

  /** What a browser makes of a whole translated page. */
  lemma {:induction false} DocumentSeen(pg: Page, lines: seq<string>, site: Site)
    ensures Seen(Render(Document(pg, lines, site))) == DocumentTokens(pg, lines, site)
  {
    DocumentLeads(pg, lines, site);
    SeenPieces(Document(pg, lines, site));
    DocumentSights(pg, lines, site);
  }

  // ----------------------------------------------------------------------- its text

  function NavWords(pg: Page): string {
    if pg.path.Some? && !pg.hideNav then
      "/ Root" + ("\U{E2}\U{86}\U{91} Up" + (if pg.home == "" then "" else HomeWords(pg)))
    else ""
  }

  function FootWords(pg: Page): string {
    if pg.configured && !pg.hideFoot then "Original URL:" + Original(pg) else ""
  }

  lemma {:induction false} WordsInside(name: string, inner: seq<Token>)
    ensures Words(Tagged(name, inner)) == Words(inner)
  {
    WordsWithin(Begin(name, []), inner, Finish(name));
  }

  lemma {:induction false} WordsItem(href: string, text: string)
    ensures Words(Item(href, text)) == text
  {
    var a := Begin("a", [("href", href)]);
    WordsChars(text);
    WordsWithin(a, Chars(text), Finish("a"));
    WordsInside("li", [a] + Chars(text) + [Finish("a")]);
  }

  lemma {:induction false} WordsNav(pg: Page)
    ensures Words(NavTokens(pg)) == NavWords(pg)
  {
    var up := Item(pg.prefix + (pg.parent + pg.parentEnd), "\U{E2}\U{86}\U{91} Up");
    var home := if pg.home == "" then [] else Item(pg.prefix + pg.home, HomeWords(pg));
    WordsItem(pg.prefix, "/ Root");
    WordsItem(pg.prefix + (pg.parent + pg.parentEnd), "\U{E2}\U{86}\U{91} Up");
    WordsItem(pg.prefix + pg.home, HomeWords(pg));
    WordsAppend(up, home);
    WordsAppend(Item(pg.prefix, "/ Root"), up + home);
    WordsInside("ul", Items(pg));
    WordsInside("nav", Tagged("ul", Items(pg)));
    WordsInside("header", Tagged("nav", Tagged("ul", Items(pg))));
  }

  lemma {:induction false} WordsAfter(t: Token, ts: seq<Token>)
    requires !t.Txt?
    ensures Words([t] + ts) == Words(ts)
  {
    WordsAppend([t], ts);
    WordsTag(t);
  }

  lemma {:induction false} WordsHeadPart(pg: Page)
    ensures Words(HeadPart(pg)) == TitleWords(pg)
  {
    var sheet := Void("link", [("rel", "stylesheet"), ("href", SheetHref(pg))]);
    var title := Tagged("title", Chars(TitleWords(pg)));
    WordsTagged("title", TitleWords(pg));
    WordsAfter(sheet, title);
    WordsAfter(META, [sheet] + title);
    WordsInside("head", [META] + ([sheet] + title));
  }

  lemma {:induction false} WordsHead(pg: Page)
    ensures Words(HeadTokens(pg)) == TitleWords(pg) + NavWords(pg)
  {
    var html := Begin("html", if pg.lang == "" then [] else [("lang", pg.lang)]);
    var rest := HeadPart(pg) + ([Begin("body", [])] + NavTokens(pg));
    WordsNav(pg);
    WordsHeadPart(pg);
    WordsAfter(Begin("body", []), NavTokens(pg));
    WordsAppend(HeadPart(pg), [Begin("body", [])] + NavTokens(pg));
    WordsAfter(html, rest);
    WordsAfter(Declared, [html] + rest);
  }

  lemma {:induction false} WordsFooter(pg: Page)
    ensures Words(FooterTokens(pg)) == "Original URL:" + Original(pg)
  {
    var a := Begin("a", [("href", "gemini://" + Href(pg.proxyName + PathText(pg)))]);
    var anchor := [a] + Chars(Original(pg)) + [Finish("a")];
    var dt, dd := Tagged("dt", Chars("Original URL:")), Tagged("dd", anchor);
    WordsChars(Original(pg));
    WordsWithin(a, Chars(Original(pg)), Finish("a"));
    WordsInside("dd", anchor);
    WordsTagged("dt", "Original URL:");
    WordsAppend(dt, dd);
    WordsInside("dl", dt + dd);
    WordsAfter(Void("hr", []), Tagged("dl", dt + dd));
    WordsInside("footer", [Void("hr", [])] + Tagged("dl", dt + dd));
  }

  lemma {:induction false} WordsFoot(pg: Page)
    ensures Words(FootTokens(pg)) == FootWords(pg)
  {
    WordsFooter(pg);
    WordsTwo(Finish("body"), Finish("html"));
    WordsAppend(if pg.configured && !pg.hideFoot then FooterTokens(pg) else [], [Finish("body")] + [Finish("html")]);
  }

  lemma {:induction false} WordsEnd(f: Flags)
    ensures Words(EndTokens(f)) == ""
  {
    WordsTwo(Finish("pre"), Finish("figure"));
    WordsLeft(f.list, f.nav);
    WordsAppend(if f.pre then [Finish("pre")] + [Finish("figure")] else [], Left(f.list, f.nav));
  }

  lemma {:induction false} WordsFour(a: seq<Token>, b: seq<Token>, c: seq<Token>, d: seq<Token>)
    requires Words(c) == ""
    ensures Words(a + (b + (c + d))) == Words(a) + (Words(b) + Words(d))
  {
    WordsAppend(c, d);
    WordsAppend(b, c + d);
    WordsAppend(a, b + (c + d));
  }

  /** The text of a page: title and navigation, then the text of its lines in order, then the original URL. */
  lemma {:induction false} DocumentRead(pg: Page, lines: seq<string>, site: Site)
    ensures Words(Seen(Render(Document(pg, lines, site)))) ==
            (TitleWords(pg) + NavWords(pg)) + (LinesWords(false, lines) + FootWords(pg))
  {
    var f := FlagsAfter(NONE, lines, site);
    DocumentSeen(pg, lines, site);
    WordsHead(pg);
    WordsLines(NONE, lines, site);
    WordsEnd(f);
    WordsFoot(pg);
    WordsFour(HeadTokens(pg), LinesTokens(NONE, lines, site), EndTokens(f), FootTokens(pg));
  }
}
