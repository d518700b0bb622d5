/**
 * Gemtext to HTML: the line translator of proxy.c with its three flags, the
 * page around it from fragments.tmpl, and why every complete page nests.
 */
module Gemtext {
  import opened Common
  import opened Escape
  import opened Html
  import opened Tmpl

  // ------------------------------------------------------------------- one line

  /** TR_PRE, TR_LIST and TR_NAV. */
  datatype Flags = Flags(pre: bool, list: bool, nav: bool)

  predicate AtMostOne(f: Flags) {
    !(f.pre && f.list) && !(f.pre && f.nav) && !(f.list && f.nav)
  }

  /** How links are resolved (proxy_resurl), and which are shown as images (match_image_heur, unless switched off). */
  datatype Site = Site(resolve: string -> string, preview: string -> bool)

  predicate Blank(c: char) { c == ' ' || c == '\t' }

  /** strspn and strcspn of blanks. */
  function SkipBlanks(s: string): string {
    if s != "" && Blank(s[0]) then SkipBlanks(s[1..]) else s
  }

  function Word(s: string): (w: string)
    ensures w <= s
  {
    if s == "" || Blank(s[0]) then "" else [s[0]] + Word(s[1..])
  }

  /** A link line after its "=>": the URL, and the caption or the URL again. */
  function LinkParts(s: string): (string, string) {
    var line := SkipBlanks(s);
    var url := Word(line);
    var caption := SkipBlanks(line[|url|..]);
    (url, if caption == "" then url else caption)
  }

  function Simple(name: string, text: string): seq<Piece> {
    Element(Open(name), [Escaped(text)], name)
  }

  function Anchor(quote: char, url: string, inner: seq<Piece>): seq<Piece> {
    Element(OpenWith("a", [Attr("href", quote, [Url(url)])]), inner, "a")
  }

  /** tp_figure. */
  function Figure(url: string, caption: string): seq<Piece> {
    Element(Open("figure"),
            Anchor('"', url, [Empty("img", [Attr("src", '"', [Url(url)])])]) + Simple("figcaption", caption),
            "figure")
  }

  /** tp_pre_open. */
  function PreOpen(caption: string): seq<Piece> {
    [Open("figure")] + (if caption == "" then [] else Simple("figcaption", caption)) + [Open("pre")]
  }

  /** tp_pre_close. */
  function PreClose(): seq<Piece> { [Close("pre")] + [Close("figure")] }

  function NavOpen(): seq<Piece> { [Open("nav")] + [Open("ul")] }
  function NavClose(): seq<Piece> { [Close("ul")] + [Close("nav")] }

  function LinkItem(url: string, caption: string): seq<Piece> {
    Element(Open("li"), Anchor('\'', url, [Escaped(caption)]), "li")
  }

  datatype Kind =
    | PreText
    | PreEnd
    | Bullet
    | Link
    | Image
    | PreStart(captioned: bool)
    | Quote
    | Heading(level: nat)
    | Nothing
    | Paragraph

  function KindOf(pre: bool, line: string, site: Site): Kind {
    if pre then (if StartsWith(line, "```") then PreEnd else PreText)
    else if StartsWith(line, "* ") then Bullet
    else if StartsWith(line, "=>") then
      (if site.preview(site.resolve(LinkParts(line[2..]).0)) then Image else Link)
    else if StartsWith(line, "```") then PreStart(SkipBlanks(line[3..]) != "")
    else if StartsWith(line, ">") then Quote
    else if StartsWith(line, "###") then Heading(3)
    else if StartsWith(line, "##") then Heading(2)
    else if StartsWith(line, "#") then Heading(1)
    else if line == "" then Nothing
    else Paragraph
  }

  /** What is closed before a line of the given kind. */
  function Closing(f: Flags, k: Kind): seq<Piece> {
    (if f.list && k != Bullet && !f.pre then [Close("ul")] else []) +
    (if f.nav && k != Link && !f.pre then NavClose() else [])
  }

  function Opening(f: Flags, k: Kind): seq<Piece> {
    if k == Bullet && !f.list then [Open("ul")]
    else if k == Link && !f.nav then NavOpen()
    else []
  }

  function HeadingName(level: nat): (s: string)
    ensures IsName(s)
  {
    if level == 3 then "h3" else if level == 2 then "h2" else "h1"
  }

  /** The line itself. */
  function Own(k: Kind, line: string, site: Site): seq<Piece> {
    match k
    case PreText => [Escaped(line)] + [Literal("\n")]
    case PreEnd => PreClose()
    case Bullet => Simple("li", if |line| < 2 then "" else line[2..])
    case Link =>
      var (url, caption) := LinkParts(if |line| < 2 then "" else line[2..]);
      LinkItem(site.resolve(url), caption)
    case Image =>
      var (url, caption) := LinkParts(if |line| < 2 then "" else line[2..]);
      Figure(site.resolve(url), caption)
    case PreStart(_) => PreOpen(SkipBlanks(if |line| < 3 then "" else line[3..]))
    case Quote => Simple("blockquote", if line == "" then "" else line[1..])
    case Heading(n) => Simple(HeadingName(n), if |line| < n then "" else line[n..])
    case Nothing => []
    case Paragraph => Simple("p", line)
  }

  function NextFlags(f: Flags, k: Kind): Flags {
    if k == PreText then f else Flags(k.PreStart?, k == Bullet, k == Link)
  }

  function Line(f: Flags, line: string, site: Site): seq<Piece> {
    var k := KindOf(f.pre, line, site);
    Closing(f, k) + Opening(f, k) + Own(k, line, site)
  }

  function After(f: Flags, line: string, site: Site): Flags {
    NextFlags(f, KindOf(f.pre, line, site))
  }

  // ------------------------------------------------------------- what a line keeps

  const BODY := ["body", "html"]

  /** The elements that are open when the flags are as given. */
  function Opened(f: Flags): seq<string> {
    if f.pre then ["pre"] + (["figure"] + BODY)
    else if f.list then ["ul"] + BODY
    else if f.nav then ["ul"] + (["nav"] + BODY)
    else BODY
  }

  lemma {:induction false} SimpleLeads(st: seq<string>, name: string, text: string)
    requires IsName(name)
    ensures Leads(st, Simple(name, text), st)
  {
    LeadsFlat([name] + st, Escaped(text));
    LeadsElement(st, Open(name), [Escaped(text)], name);
  }

  lemma {:induction false} AnchorLeads(st: seq<string>, quote: char, url: string, inner: seq<Piece>)
    requires IsQuote(quote) && Leads(["a"] + st, inner, ["a"] + st)
    ensures Leads(st, Anchor(quote, url, inner), st)
  {
    LeadsElement(st, OpenWith("a", [Attr("href", quote, [Url(url)])]), inner, "a");
  }

  lemma {:induction false} FigureLeads(st: seq<string>, url: string, caption: string)
    ensures Leads(st, Figure(url, caption), st)
  {
    var fig, img := ["figure"] + st, Empty("img", [Attr("src", '"', [Url(url)])]);
    LeadsFlat(["a"] + fig, img);
    AnchorLeads(fig, '"', url, [img]);
    SimpleLeads(fig, "figcaption", caption);
    LeadsAppend(fig, Anchor('"', url, [img]), fig, Simple("figcaption", caption), fig);
    LeadsElement(st, Open("figure"), Anchor('"', url, [img]) + Simple("figcaption", caption), "figure");
  }

  lemma {:induction false} OpenAround(st: seq<string>, a: string, mid: seq<Piece>, b: string)
    requires IsName(a) && IsName(b) && Leads([a] + st, mid, [a] + st)
    ensures Leads(st, [Open(a)] + mid + [Open(b)], [b] + ([a] + st))
  {
    LeadsOpen(st, Open(a), a);
    LeadsAppend(st, [Open(a)], [a] + st, mid, [a] + st);
    LeadsOpen([a] + st, Open(b), b);
    LeadsAppend(st, [Open(a)] + mid, [a] + st, [Open(b)], [b] + ([a] + st));
  }

  lemma {:induction false} PreOpenLeads(st: seq<string>, caption: string)
    ensures Leads(st, PreOpen(caption), ["pre"] + (["figure"] + st))
  {
    var fig := ["figure"] + st;
    if caption == "" {
      LeadsNothing(fig);
      OpenAround(st, "figure", [], "pre");
    } else {
      SimpleLeads(fig, "figcaption", caption);
      OpenAround(st, "figure", Simple("figcaption", caption), "pre");
    }
  }

  lemma {:induction false} TwoClosed(st: seq<string>, a: string, b: string)
    requires IsName(a) && IsName(b)
    ensures Leads([a] + ([b] + st), [Close(a)] + [Close(b)], st)
  {
    LeadsClose([b] + st, a);
    LeadsClose(st, b);
    LeadsAppend([a] + ([b] + st), [Close(a)], [b] + st, [Close(b)], st);
  }

  lemma {:induction false} TwoOpened(st: seq<string>, a: string, b: string)
    requires IsName(a) && IsName(b)
    ensures Leads(st, [Open(a)] + [Open(b)], [b] + ([a] + st))
  {
    LeadsOpen(st, Open(a), a);
    LeadsOpen([a] + st, Open(b), b);
    LeadsAppend(st, [Open(a)], [a] + st, [Open(b)], [b] + ([a] + st));
  }

  lemma {:induction false} LinkItemLeads(st: seq<string>, url: string, caption: string)
    ensures Leads(st, LinkItem(url, caption), st)
  {
    LeadsFlat(["a"] + (["li"] + st), Escaped(caption));
    AnchorLeads(["li"] + st, '\'', url, [Escaped(caption)]);
    LeadsElement(st, Open("li"), Anchor('\'', url, [Escaped(caption)]), "li");
  }

  /** Where a line itself starts: what it does not continue is closed. */
  function Before(f: Flags, k: Kind): seq<string> {
    if f.pre then Opened(f)
    else if k == Bullet then ["ul"] + BODY
    else if k == Link then ["ul"] + (["nav"] + BODY)
    else BODY
  }

  lemma {:induction false} ClosingLeads(f: Flags, k: Kind)
    requires AtMostOne(f)
    ensures Leads(Opened(f), Closing(f, k),
                  if (f.list && k == Bullet) || (f.nav && k == Link) || f.pre then Opened(f) else BODY)
  {
    var a := if f.list && k != Bullet && !f.pre then [Close("ul")] else [];
    var b := if f.nav && k != Link && !f.pre then NavClose() else [];
    LeadsNothing(Opened(f));
    LeadsNothing(BODY);
    LeadsClose(BODY, "ul");
    TwoClosed(BODY, "ul", "nav");
    if f.list {
      assert Closing(f, k) == a;
    } else {
      assert Closing(f, k) == b;
    }
  }

  lemma {:induction false} OpeningLeads(f: Flags, k: Kind)
    requires AtMostOne(f) && (f.pre ==> k == PreText || k == PreEnd)
    ensures Leads(if (f.list && k == Bullet) || (f.nav && k == Link) || f.pre then Opened(f) else BODY,
                  Opening(f, k), Before(f, k))
  {
    LeadsNothing(Before(f, k));
    LeadsOpen(BODY, Open("ul"), "ul");
    TwoOpened(BODY, "nav", "ul");
  }

  lemma {:induction false} OwnLeads(f: Flags, k: Kind, line: string, site: Site)
    requires AtMostOne(f) && (f.pre <==> k == PreText || k == PreEnd)
    requires k.PreStart? ==> k.captioned == (SkipBlanks(if |line| < 3 then "" else line[3..]) != "")
    ensures Leads(Before(f, k), Own(k, line, site), Opened(NextFlags(f, k)))
  {
    var st := Before(f, k);
    match k
    case PreText =>
      LeadsFlat(st, Escaped(line));
      LeadsFlat(st, Literal("\n"));
      LeadsAppend(st, [Escaped(line)], st, [Literal("\n")], st);
    case PreEnd => TwoClosed(BODY, "pre", "figure");
    case Bullet => SimpleLeads(st, "li", if |line| < 2 then "" else line[2..]);
    case Link =>
      var (url, caption) := LinkParts(if |line| < 2 then "" else line[2..]);
      LinkItemLeads(st, site.resolve(url), caption);
    case Image =>
      var (url, caption) := LinkParts(if |line| < 2 then "" else line[2..]);
      FigureLeads(st, site.resolve(url), caption);
    case PreStart(_) => PreOpenLeads(st, SkipBlanks(if |line| < 3 then "" else line[3..]));
    case Quote => SimpleLeads(st, "blockquote", if line == "" then "" else line[1..]);
    case Heading(n) => SimpleLeads(st, HeadingName(n), if |line| < n then "" else line[n..]);
    case Nothing => LeadsNothing(st);
    case Paragraph => SimpleLeads(st, "p", line);
  }

  /** From the elements one set of flags stands for, a line leads to those the next set stands for. */
  lemma {:induction false} LineLeads(f: Flags, line: string, site: Site)
    requires AtMostOne(f)
    ensures Leads(Opened(f), Line(f, line, site), Opened(After(f, line, site)))
    ensures AtMostOne(After(f, line, site))
  {
    var k := KindOf(f.pre, line, site);
    var mid := if (f.list && k == Bullet) || (f.nav && k == Link) || f.pre then Opened(f) else BODY;
    ClosingLeads(f, k);
    OpeningLeads(f, k);
    OwnLeads(f, k, line, site);
    LeadsAppend(Opened(f), Closing(f, k), mid, Opening(f, k), Before(f, k));
    LeadsAppend(Opened(f), Closing(f, k) + Opening(f, k), Before(f, k), Own(k, line, site), Opened(NextFlags(f, k)));
  }

  // -------------------------------------------------- tags depend on kinds only

  function El(name: string, inner: seq<Tag>): seq<Tag> {
    [OpenTag(name)] + inner + [CloseTag(name)]
  }

  /** The tags of a line of each kind, written out without the line. */
  function KindTags(k: Kind): seq<Tag> {
    match k
    case PreText => []
    case PreEnd => [CloseTag("pre")] + [CloseTag("figure")]
    case Bullet => El("li", [])
    case Link => El("li", El("a", []))
    case Image => El("figure", El("a", []) + El("figcaption", []))
    case PreStart(captioned) =>
      [OpenTag("figure")] + (if captioned then El("figcaption", []) else []) + [OpenTag("pre")]
    case Quote => El("blockquote", [])
    case Heading(n) => El(HeadingName(n), [])
    case Nothing => []
    case Paragraph => El("p", [])
  }

  function LineTags(f: Flags, k: Kind): seq<Tag> {
    (if f.list && k != Bullet && !f.pre then [CloseTag("ul")] else []) +
    (if f.nav && k != Link && !f.pre then [CloseTag("ul")] + [CloseTag("nav")] else []) +
    (if k == Bullet && !f.list then [OpenTag("ul")]
     else if k == Link && !f.nav then [OpenTag("nav")] + [OpenTag("ul")]
     else []) +
    KindTags(k)
  }

  lemma {:induction false} PairSkeleton(a: Piece, b: Piece)
    ensures Skeleton([a] + [b]) == PieceTags(a) + PieceTags(b)
  {
    FlatMapAppend([a], [b], PieceTags);
    FlatMapOne(a, PieceTags);
    FlatMapOne(b, PieceTags);
  }

  lemma {:induction false} ElementSkeleton(open: Piece, inner: seq<Piece>, name: string)
    requires PieceTags(open) == [OpenTag(name)]
    ensures Skeleton(Element(open, inner, name)) == El(name, Skeleton(inner))
  {
    FlatMapAppend([open], inner, PieceTags);
    FlatMapAppend([open] + inner, [Close(name)], PieceTags);
    FlatMapOne(open, PieceTags);
    FlatMapOne(Close(name), PieceTags);
  }

  lemma {:induction false} SimpleSkeleton(name: string, text: string)
    ensures Skeleton(Simple(name, text)) == El(name, [])
  {
    FlatMapOne(Escaped(text), PieceTags);
    ElementSkeleton(Open(name), [Escaped(text)], name);
  }

  lemma {:induction false} LinkSkeleton(url: string, caption: string)
    ensures Skeleton(LinkItem(url, caption)) == El("li", El("a", []))
  {
    FlatMapOne(Escaped(caption), PieceTags);
    ElementSkeleton(OpenWith("a", [Attr("href", '\'', [Url(url)])]), [Escaped(caption)], "a");
    ElementSkeleton(Open("li"), Anchor('\'', url, [Escaped(caption)]), "li");
  }

  lemma {:induction false} FigureSkeleton(url: string, caption: string)
    ensures Skeleton(Figure(url, caption)) == El("figure", El("a", []) + El("figcaption", []))
  {
    var img := Empty("img", [Attr("src", '"', [Url(url)])]);
    FlatMapOne(img, PieceTags);
    ElementSkeleton(OpenWith("a", [Attr("href", '"', [Url(url)])]), [img], "a");
    SimpleSkeleton("figcaption", caption);
    FlatMapAppend(Anchor('"', url, [img]), Simple("figcaption", caption), PieceTags);
    ElementSkeleton(Open("figure"), Anchor('"', url, [img]) + Simple("figcaption", caption), "figure");
  }

  lemma {:induction false} PreOpenSkeleton(caption: string)
    ensures Skeleton(PreOpen(caption)) == KindTags(PreStart(caption != ""))
  {
    var cap := if caption == "" then [] else Simple("figcaption", caption);
    SimpleSkeleton("figcaption", caption);
    FlatMapAppend([Open("figure")], cap, PieceTags);
    FlatMapAppend([Open("figure")] + cap, [Open("pre")], PieceTags);
    FlatMapOne(Open("figure"), PieceTags);
    FlatMapOne(Open("pre"), PieceTags);
  }

  lemma {:induction false} OwnSkeleton(k: Kind, line: string, site: Site)
    requires k.PreStart? ==> k.captioned == (SkipBlanks(if |line| < 3 then "" else line[3..]) != "")
    ensures Skeleton(Own(k, line, site)) == KindTags(k)
  {
    match k
    case PreText => PairSkeleton(Escaped(line), Literal("\n"));
    case PreEnd => PairSkeleton(Close("pre"), Close("figure"));
    case Bullet => SimpleSkeleton("li", if |line| < 2 then "" else line[2..]);
    case Link =>
      var (url, caption) := LinkParts(if |line| < 2 then "" else line[2..]);
      LinkSkeleton(site.resolve(url), caption);
    case Image =>
      var (url, caption) := LinkParts(if |line| < 2 then "" else line[2..]);
      FigureSkeleton(site.resolve(url), caption);
    case PreStart(_) => PreOpenSkeleton(SkipBlanks(if |line| < 3 then "" else line[3..]));
    case Quote => SimpleSkeleton("blockquote", if line == "" then "" else line[1..]);
    case Heading(n) => SimpleSkeleton(HeadingName(n), if |line| < n then "" else line[n..]);
    case Nothing =>
    case Paragraph => SimpleSkeleton("p", line);
  }

  lemma {:induction false} ClosingSkeleton(f: Flags, k: Kind)
    ensures Skeleton(Closing(f, k)) ==
            (if f.list && k != Bullet && !f.pre then [CloseTag("ul")] else []) +
            (if f.nav && k != Link && !f.pre then [CloseTag("ul")] + [CloseTag("nav")] else [])
  {
    var a := if f.list && k != Bullet && !f.pre then [Close("ul")] else [];
    var b := if f.nav && k != Link && !f.pre then NavClose() else [];
    FlatMapAppend(a, b, PieceTags);
    FlatMapOne(Close("ul"), PieceTags);
    PairSkeleton(Close("ul"), Close("nav"));
  }

  lemma {:induction false} OpeningSkeleton(f: Flags, k: Kind)
    ensures Skeleton(Opening(f, k)) ==
            if k == Bullet && !f.list then [OpenTag("ul")]
            else if k == Link && !f.nav then [OpenTag("nav")] + [OpenTag("ul")]
            else []
  {
    FlatMapOne(Open("ul"), PieceTags);
    PairSkeleton(Open("nav"), Open("ul"));
  }

  lemma {:induction false} FrameSkeleton(f: Flags, k: Kind)
    ensures Skeleton(Closing(f, k) + Opening(f, k)) + KindTags(k) == LineTags(f, k)
  {
    FlatMapAppend(Closing(f, k), Opening(f, k), PieceTags);
    ClosingSkeleton(f, k);
    OpeningSkeleton(f, k);
  }

  /**
   * The tags a browser sees in a translated line are fixed by the flags and
   * the kind of the line; its text, labels and URLs add and hide none.
   */
  lemma {:induction false} TagsByKind(f: Flags, line: string, site: Site)
    requires AtMostOne(f)
    ensures Lex(InText, Render(Line(f, line, site))).0 == InText
    ensures Tags(Lex(InText, Render(Line(f, line, site))).1) == LineTags(f, KindOf(f.pre, line, site))
  {
    var k := KindOf(f.pre, line, site);
    LineLeads(f, line, site);
    LexPieces(Line(f, line, site));
    FlatMapAppend(Closing(f, k) + Opening(f, k), Own(k, line, site), PieceTags);
    OwnSkeleton(k, line, site);
    FrameSkeleton(f, k);
  }

  // -------------------------------------------------------------------- the page

  /** What tp_head and tp_foot look at; the last four are what tp_navigation computes from the path. */
  datatype Page = Page(
    lang: string, stylesheet: string, prefix: string, title: Option<string>,
    configured: bool, proxyName: string, path: Option<string>, hideNav: bool, hideFoot: bool,
    parent: string, parentEnd: string, home: string, user: string)

  function PathText(pg: Page): string {
    if pg.path.Some? then pg.path.value else ""
  }

  function HtmlOpen(pg: Page): Piece {
    OpenWith("html", if pg.lang == "" then [] else [Attr("lang", '"', [Html(pg.lang)])])
  }

  function Stylesheet(pg: Page): Piece {
    Empty("link", [Attr("rel", '"', [Lit("stylesheet")]),
                   Attr("href", '"',
                        if pg.stylesheet == "" then [Html(pg.prefix), Lit("galileo.css")] else [Url(pg.stylesheet)])])
  }

  const VIEWPORT :=
    Empty("meta", [Attr("name", '"', [Lit("viewport")]), Attr("content", '"', [Lit("initial-scale=1")])])

  function OriginalUrl(pg: Page): seq<Piece> {
    [Literal("gemini://")] + ([Escaped(pg.proxyName)] + [Escaped(PathText(pg))])
  }

  function TitleText(pg: Page): seq<Piece> {
    if pg.title.Some? then [Escaped(pg.title.value)]
    else if pg.configured then OriginalUrl(pg)
    else []
  }

  function HeadElement(pg: Page): seq<Piece> {
    Element(Open("head"), [VIEWPORT] + ([Stylesheet(pg)] + Element(Open("title"), TitleText(pg), "title")), "head")
  }

  function NavItem(href: seq<Val>, text: seq<Piece>): seq<Piece> {
    Element(Open("li"), Element(OpenWith("a", [Attr("href", '"', href)]), text, "a"), "li")
  }

  function HomeText(pg: Page): seq<Piece> {
    [Literal("\U{F0}\U{9F}\U{8F}\U{A0} ")] + ([Escaped(pg.user)] + [Literal("' home")])
  }

  function NavItems(pg: Page): seq<Piece> {
    NavItem([Html(pg.prefix)], [Literal("/ Root")]) +
    (NavItem([Html(pg.prefix), Html(pg.parent), Html(pg.parentEnd)], [Literal("\U{E2}\U{86}\U{91} Up")]) +
     (if pg.home == "" then []
      else NavItem([Html(pg.prefix), Html(pg.home)], HomeText(pg))))
  }

  /** tp_navigation. */
  function Navigation(pg: Page): seq<Piece> {
    Element(Open("header"), Element(Open("nav"), Element(Open("ul"), NavItems(pg), "ul"), "nav"), "header")
  }

  function MaybeNavigation(pg: Page): seq<Piece> {
    if pg.path.Some? && !pg.hideNav then Navigation(pg) else []
  }

  /** tp_head. */
  function Head(pg: Page): seq<Piece> {
    [Doctype] + ([HtmlOpen(pg)] + (HeadElement(pg) + ([Open("body")] + MaybeNavigation(pg))))
  }

  function FooterAnchor(pg: Page): Piece {
    OpenWith("a", [Attr("href", '"', [Lit("gemini://"), Url(pg.proxyName), Url(PathText(pg))])])
  }

  function FooterLink(pg: Page): seq<Piece> {
    Element(FooterAnchor(pg), OriginalUrl(pg), "a")
  }

  const ORIGINAL := "Original URL:"

  function Footer(pg: Page): seq<Piece> {
    Element(Open("footer"),
            [Empty("hr", [])] +
            Element(Open("dl"),
                    Element(Open("dt"), [Literal(ORIGINAL)], "dt") + Element(Open("dd"), FooterLink(pg), "dd"),
                    "dl"),
            "footer")
  }

  /** tp_foot. */
  function Foot(pg: Page): seq<Piece> {
    (if pg.configured && !pg.hideFoot then Footer(pg) else []) + ([Close("body")] + [Close("html")])
  }

  /** What proxy_error closes at the end of a reply that came to its end. */
  function AtEnd(f: Flags): seq<Piece> {
    (if f.pre then PreClose() else []) + (if f.list then [Close("ul")] else []) + (if f.nav then NavClose() else [])
  }

  function Lines(f: Flags, lines: seq<string>, site: Site): seq<Piece>
    decreases |lines|
  {
    if lines == [] then [] else Line(f, lines[0], site) + Lines(After(f, lines[0], site), lines[1..], site)
  }

  function AfterLines(f: Flags, lines: seq<string>, site: Site): Flags
    decreases |lines|
  {
    if lines == [] then f else AfterLines(After(f, lines[0], site), lines[1..], site)
  }

  const NONE := Flags(false, false, false)

  function Document(pg: Page, lines: seq<string>, site: Site): seq<Piece> {
    Head(pg) + (Lines(NONE, lines, site) + (AtEnd(AfterLines(NONE, lines, site)) + Foot(pg)))
  }

  lemma {:induction false} LinesLeads(f: Flags, lines: seq<string>, site: Site)
    requires AtMostOne(f)
    ensures Leads(Opened(f), Lines(f, lines, site), Opened(AfterLines(f, lines, site)))
    ensures AtMostOne(AfterLines(f, lines, site))
    decreases |lines|
  {
    if lines == [] {
      LeadsNothing(Opened(f));
    } else {
      var f' := After(f, lines[0], site);
      LineLeads(f, lines[0], site);
      LinesLeads(f', lines[1..], site);
      var open := Opened(AfterLines(f, lines, site));
      LeadsAppend(Opened(f), Line(f, lines[0], site), Opened(f'), Lines(f', lines[1..], site), open);
    }
  }

  lemma {:induction false} AtEndLeads(f: Flags)
    requires AtMostOne(f)
    ensures Leads(Opened(f), AtEnd(f), BODY)
  {
    LeadsNothing(BODY);
    TwoClosed(BODY, "pre", "figure");
    LeadsClose(BODY, "ul");
    TwoClosed(BODY, "ul", "nav");
    assert AtEnd(f) == if f.pre then PreClose() else if f.list then [Close("ul")] else if f.nav then NavClose() else [];
  }

  lemma {:induction false} OriginalUrlLeads(st: seq<string>, pg: Page)
    ensures Leads(st, OriginalUrl(pg), st)
  {
    LeadsFlat(st, Literal("gemini://"));
    LeadsFlat(st, Escaped(pg.proxyName));
    LeadsFlat(st, Escaped(PathText(pg)));
    LeadsAppend(st, [Escaped(pg.proxyName)], st, [Escaped(PathText(pg))], st);
    LeadsAppend(st, [Literal("gemini://")], st, [Escaped(pg.proxyName)] + [Escaped(PathText(pg))], st);
  }

  lemma LiteralAttrSafe(name: string, text: string)
    requires IsName(name) && '"' !in text
    ensures SafeAttr(Attr(name, '"', [Lit(text)]))
  {
  }

  lemma ViewportSafe()
    ensures SafePiece(VIEWPORT)
  {
    LiteralAttrSafe("name", "viewport");
    LiteralAttrSafe("content", "initial-scale=1");
  }

  lemma SheetAttrSafe(pg: Page)
    ensures SafeAttr(Attr("href", '"', [Html(pg.prefix), Lit("galileo.css")]))
  {
  }

  lemma StylesheetSafe(pg: Page)
    ensures SafePiece(Stylesheet(pg))
  {
    LiteralAttrSafe("rel", "stylesheet");
    SheetAttrSafe(pg);
  }

  lemma {:induction false} HeadElementLeads(st: seq<string>, pg: Page)
    ensures Leads(st, HeadElement(pg), st)
  {
    var h := ["head"] + st;
    var t := ["title"] + h;
    if pg.title.Some? { LeadsFlat(t, Escaped(pg.title.value)); }
    else if pg.configured { OriginalUrlLeads(t, pg); }
    else { LeadsNothing(t); }
    LeadsElement(h, Open("title"), TitleText(pg), "title");
    var title := Element(Open("title"), TitleText(pg), "title");
    StylesheetSafe(pg);
    ViewportSafe();
    LeadsFlat(h, Stylesheet(pg));
    LeadsFlat(h, VIEWPORT);
    LeadsAppend(h, [Stylesheet(pg)], h, title, h);
    LeadsAppend(h, [VIEWPORT], h, [Stylesheet(pg)] + title, h);
    LeadsElement(st, Open("head"), [VIEWPORT] + ([Stylesheet(pg)] + title), "head");
  }

  lemma {:induction false} NavItemLeads(st: seq<string>, href: seq<Val>, text: seq<Piece>)
    requires forall v :: v in href ==> !v.Lit?
    requires Leads(["a"] + (["li"] + st), text, ["a"] + (["li"] + st))
    ensures Leads(st, NavItem(href, text), st)
  {
    LeadsElement(["li"] + st, OpenWith("a", [Attr("href", '"', href)]), text, "a");
    LeadsElement(st, Open("li"), Element(OpenWith("a", [Attr("href", '"', href)]), text, "a"), "li");
  }

  lemma {:induction false} HomeLeads(st: seq<string>, pg: Page)
    ensures Leads(st, NavItem([Html(pg.prefix), Html(pg.home)], HomeText(pg)), st)
  {
    var a := ["a"] + (["li"] + st);
    LeadsFlat(a, Literal("\U{F0}\U{9F}\U{8F}\U{A0} "));
    LeadsFlat(a, Escaped(pg.user));
    LeadsFlat(a, Literal("' home"));
    LeadsAppend(a, [Escaped(pg.user)], a, [Literal("' home")], a);
    LeadsAppend(a, [Literal("\U{F0}\U{9F}\U{8F}\U{A0} ")], a, [Escaped(pg.user)] + [Literal("' home")], a);
    NavItemLeads(st, [Html(pg.prefix), Html(pg.home)], HomeText(pg));
  }

  lemma {:induction false} NavItemsLeads(st: seq<string>, pg: Page)
    ensures Leads(st, NavItems(pg), st)
  {
    var a := ["a"] + (["li"] + st);
    var root := NavItem([Html(pg.prefix)], [Literal("/ Root")]);
    var up := NavItem([Html(pg.prefix), Html(pg.parent), Html(pg.parentEnd)], [Literal("\U{E2}\U{86}\U{91} Up")]);
    var home := if pg.home == "" then [] else NavItem([Html(pg.prefix), Html(pg.home)], HomeText(pg));
    LeadsFlat(a, Literal("/ Root"));
    LeadsFlat(a, Literal("\U{E2}\U{86}\U{91} Up"));
    NavItemLeads(st, [Html(pg.prefix)], [Literal("/ Root")]);
    NavItemLeads(st, [Html(pg.prefix), Html(pg.parent), Html(pg.parentEnd)], [Literal("\U{E2}\U{86}\U{91} Up")]);
    if pg.home == "" { LeadsNothing(st); } else { HomeLeads(st, pg); }
    LeadsAppend(st, up, st, home, st);
    LeadsAppend(st, root, st, up + home, st);
  }

  lemma {:induction false} NavigationLeads(st: seq<string>, pg: Page)
    ensures Leads(st, MaybeNavigation(pg), st)
  {
    if pg.path.Some? && !pg.hideNav {
      var h := ["header"] + st;
      var n := ["nav"] + h;
      NavItemsLeads(["ul"] + n, pg);
      LeadsElement(n, Open("ul"), NavItems(pg), "ul");
      LeadsElement(h, Open("nav"), Element(Open("ul"), NavItems(pg), "ul"), "nav");
      LeadsElement(st, Open("header"), Element(Open("nav"), Element(Open("ul"), NavItems(pg), "ul"), "nav"), "header");
    } else {
      LeadsNothing(st);
    }
  }

  lemma {:induction false} HeadLeads(pg: Page)
    ensures Leads([], Head(pg), BODY)
  {
    var html := ["html"] + [];
    LeadsFlat([], Doctype);
    LeadsOpen([], HtmlOpen(pg), "html");
    HeadElementLeads(html, pg);
    LeadsOpen(html, Open("body"), "body");
    assert ["body"] + html == BODY;
    NavigationLeads(BODY, pg);
    LeadsAppend(html, [Open("body")], BODY, MaybeNavigation(pg), BODY);
    LeadsAppend(html, HeadElement(pg), html, [Open("body")] + MaybeNavigation(pg), BODY);
    LeadsAppend([], [HtmlOpen(pg)], html, HeadElement(pg) + ([Open("body")] + MaybeNavigation(pg)), BODY);
    LeadsAppend([], [Doctype], [], [HtmlOpen(pg)] + (HeadElement(pg) + ([Open("body")] + MaybeNavigation(pg))), BODY);
  }

  lemma FooterLinkSafe(pg: Page)
    ensures SafePiece(OpenWith("a", [Attr("href", '"', [Lit("gemini://"), Url(pg.proxyName), Url(PathText(pg))])]))
  {
  }

  lemma {:induction false} FooterTermLeads(st: seq<string>)
    ensures Leads(st, Element(Open("dt"), [Literal(ORIGINAL)], "dt"), st)
  {
    LeadsFlat(["dt"] + st, Literal(ORIGINAL));
    LeadsElement(st, Open("dt"), [Literal(ORIGINAL)], "dt");
  }

  lemma {:induction false} FooterListLeads(f: seq<string>, pg: Page)
    ensures Leads(f, Element(Open("dl"),
                             Element(Open("dt"), [Literal(ORIGINAL)], "dt") +
                             Element(Open("dd"), FooterLink(pg), "dd"),
                             "dl"), f)
  {
    var dl := ["dl"] + f;
    var dt, dd := Element(Open("dt"), [Literal(ORIGINAL)], "dt"), Element(Open("dd"), FooterLink(pg), "dd");
    FooterTermLeads(dl);
    OriginalUrlLeads(["a"] + (["dd"] + dl), pg);
    FooterLinkSafe(pg);
    LeadsElement(["dd"] + dl, FooterAnchor(pg), OriginalUrl(pg), "a");
    LeadsElement(dl, Open("dd"), FooterLink(pg), "dd");
    LeadsAppend(dl, dt, dl, dd, dl);
    LeadsElement(f, Open("dl"), dt + dd, "dl");
  }

  lemma {:induction false} FooterLeads(st: seq<string>, pg: Page)
    ensures Leads(st, Footer(pg), st)
  {
    var f := ["footer"] + st;
    var dt, dd := Element(Open("dt"), [Literal(ORIGINAL)], "dt"), Element(Open("dd"), FooterLink(pg), "dd");
    FooterListLeads(f, pg);
    LeadsFlat(f, Empty("hr", []));
    LeadsAppend(f, [Empty("hr", [])], f, Element(Open("dl"), dt + dd, "dl"), f);
    LeadsElement(st, Open("footer"), [Empty("hr", [])] + Element(Open("dl"), dt + dd, "dl"), "footer");
  }

  lemma {:induction false} FootLeads(pg: Page)
    ensures Leads(BODY, Foot(pg), [])
  {
    var foot := if pg.configured && !pg.hideFoot then Footer(pg) else [];
    if pg.configured && !pg.hideFoot { FooterLeads(BODY, pg); } else { LeadsNothing(BODY); }
    TwoClosed([], "body", "html");
    assert ["body"] + (["html"] + []) == BODY;
    LeadsAppend(BODY, foot, BODY, [Close("body")] + [Close("html")], []);
  }

  lemma {:induction false} DocumentLeads(pg: Page, lines: seq<string>, site: Site)
    ensures Leads([], Document(pg, lines, site), [])
  {
    var f := AfterLines(NONE, lines, site);
    HeadLeads(pg);
    LinesLeads(NONE, lines, site);
    AtEndLeads(f);
    FootLeads(pg);
    LeadsAppend(Opened(f), AtEnd(f), BODY, Foot(pg), []);
    LeadsAppend(BODY, Lines(NONE, lines, site), Opened(f), AtEnd(f) + Foot(pg), []);
    LeadsAppend([], Head(pg), BODY, Lines(NONE, lines, site) + (AtEnd(f) + Foot(pg)), []);
  }

  /**
   * For every list of lines and every page, the head, the translated lines,
   * what the end of the reply closes and the foot make one well-nested
   * document, character by character.
   */
  lemma {:induction false} DocumentNests(pg: Page, lines: seq<string>, site: Site)
    ensures WellNested(Render(Document(pg, lines, site)))
  {
    DocumentLeads(pg, lines, site);
    LeadsWellNested(Document(pg, lines, site));
  }

  // -------------------------------------------------------------------- the code

  lemma Regrouped(s: seq<Piece>, a: seq<Piece>, b: seq<Piece>, c: seq<Piece>, d: seq<Piece>)
    ensures s + (a + b + c + d) == (s + a) + b + c + d
    ensures a == [] ==> a + b == b
    ensures b == [] ==> a + b == a && (s + a) + b == s + a
    ensures c == [] ==> (a + b) + c == a + b && ((s + a) + b) + c == (s + a) + b
    ensures a == b == c == [] ==> s + (a + b + c + d) == s + d
  {
  }

  /** The order in which the parts of a line are written. */
  lemma LineParts(s: seq<Piece>, f: Flags, k: Kind, own: seq<Piece>)
    requires AtMostOne(f) && (f.pre <==> k == PreText || k == PreEnd)
    ensures s + (Closing(f, k) + Opening(f, k) + own) ==
            if f.pre then s + own
            else if k == Bullet
            then s + ((if f.nav then NavClose() else []) + (if f.list then [] else [Open("ul")]) + own)
            else if k == Link then (s + if f.list then [Close("ul")] else []) + (if f.nav then [] else NavOpen()) + own
            else (s + if f.list then [Close("ul")] else []) + (if f.nav then NavClose() else []) + own
  {
    var a := if f.list && k != Bullet && !f.pre then [Close("ul")] else [];
    var b := if f.nav && k != Link && !f.pre then NavClose() else [];
    Regrouped(s, a, b, Opening(f, k), own);
  }

  lemma OneMore(s: seq<Piece>, ps: seq<Piece>, i: nat)
    requires i < |ps|
    ensures (s + ps[..i]) + [ps[i]] == s + ps[..i + 1]
  {
    assert ps[..i + 1] == ps[..i] + [ps[i]];
  }

  lemma Joined(s: seq<Piece>, a: seq<Piece>, b: seq<Piece>, c: seq<Piece>)
    ensures s + (a + b + c) == ((s + a) + b) + c
    ensures s + [] == s && (s + a) + [] == s + a && [] + a == a && a + [] == a
  {
  }

  lemma {:induction false} RenderOneMore(start: string, sent: seq<Piece>, p: Piece)
    ensures start + Render(sent + [p]) == (start + Render(sent)) + PieceText(p)
  {
    FlatMapAppend(sent, [p], PieceText);
    FlatMapOne(p, PieceText);
    Assoc(start, Render(sent), PieceText(p));
  }

  /**
   * The part of struct client that translates gemtext, writing through its
   * template; `sent` are the pieces written since `start`.
   */
  class Translator {
    const tp: Template<char>
    const site: Site
    var pre: bool
    var list: bool
    var nav: bool
    ghost var start: string
    ghost var sent: seq<Piece>

    constructor (tp: Template<char>, site: Site)
      requires tp.Valid()
      ensures Valid() && this.tp == tp && this.site == site && State() == NONE && sent == [] && start == tp.Total()
    {
      this.tp, this.site := tp, site;
      pre, list, nav := false, false, false;
      start, sent := tp.Total(), [];
    }

    ghost function State(): Flags
      reads this
    {
      Flags(pre, list, nav)
    }

    ghost predicate Valid()
      reads this, tp, tp.buf
    {
      tp.Valid() && tp.Total() == start + Render(sent)
    }

    /** Writing one piece through the template, escaped or as it is. */
    method EmitOne(p: Piece)
      requires Valid()
      modifies `sent, tp, tp.buf
      ensures Valid() && sent == old(sent) + [p] && start == old(start)
      ensures old(tp.chunks) <= tp.chunks
    {
      RenderOneMore(start, sent, p);
      if p.Escaped? {
        WriteHtml(tp, p.text);
      } else {
        tp.Write(PieceText(p));
      }
      sent := sent + [p];
    }

    method Emit(ps: seq<Piece>)
      requires Valid()
      modifies `sent, tp, tp.buf
      ensures Valid() && sent == old(sent) + ps
      ensures old(tp.chunks) <= tp.chunks
    {
      var i := 0;
      while i < |ps|
        invariant 0 <= i <= |ps| && Valid() && old(tp.chunks) <= tp.chunks
        invariant sent == old(sent) + ps[..i]
      {
        OneMore(old(sent), ps, i);
        EmitOne(ps[i]);
        i := i + 1;
      }
    }

    /** Text before the first piece: the header of the reply. */
    method Prelude(text: string)
      requires Valid() && sent == []
      modifies `start, tp, tp.buf
      ensures Valid() && start == old(start) + text
      ensures old(tp.chunks) <= tp.chunks
    {
      assert start + [] == start && (start + text) + [] == start + text;
      tp.Write(text);
      start := start + text;
    }

    /** Inside preformatted text. */
    method EmitPre(k: Kind, line: string)
      requires Valid() && (k == PreText || k == PreEnd)
      modifies `pre, `sent, tp, tp.buf
      ensures Valid() && sent == old(sent) + Own(k, line, site)
      ensures old(tp.chunks) <= tp.chunks
      ensures pre == (old(pre) && k == PreText)
    {
      if k == PreEnd {
        pre := false;
        Emit(PreClose());
      } else {
        Emit([Escaped(line)] + [Literal("\n")]);
      }
    }

    /** Bullets: an open list is continued. */
    method EmitBullet(item: seq<Piece>)
      requires Valid()
      modifies `list, `nav, `sent, tp, tp.buf
      ensures Valid() && list && !nav
      ensures old(tp.chunks) <= tp.chunks
      ensures sent ==
              old(sent) + ((if old(nav) then NavClose() else []) + (if old(list) then [] else [Open("ul")]) + item)
    {
      Joined(sent, if nav then NavClose() else [], if list then [] else [Open("ul")], item);
      if nav {
        Emit(NavClose());
        nav := false;
      }
      if !list {
        Emit([Open("ul")]);
        list := true;
      }
      Emit(item);
    }

    /** Links: an open list of links is continued. */
    method EmitLink(item: seq<Piece>)
      requires Valid()
      modifies `nav, `sent, tp, tp.buf
      ensures Valid() && nav
      ensures old(tp.chunks) <= tp.chunks
      ensures sent == old(sent) + (if old(nav) then [] else NavOpen()) + item
    {
      assert sent + [] == sent;
      if !nav {
        Emit(NavOpen());
        nav := true;
      }
      Emit(item);
    }

    /** Everything else, images among it, ends a list of links. */
    method EmitBlock(block: seq<Piece>)
      requires Valid()
      modifies `nav, `sent, tp, tp.buf
      ensures Valid() && !nav
      ensures old(tp.chunks) <= tp.chunks
      ensures sent == old(sent) + (if old(nav) then NavClose() else []) + block
    {
      assert sent + [] == sent;
      if nav {
        Emit(NavClose());
        nav := false;
      }
      Emit(block);
    }

    /** A list ends with the first line that is no bullet. */
    method EndList()
      requires Valid()
      modifies `list, `sent, tp, tp.buf
      ensures Valid() && !list
      ensures old(tp.chunks) <= tp.chunks
      ensures sent == old(sent) + if old(list) then [Close("ul")] else []
    {
      assert sent + [] == sent;
      if list {
        Emit([Close("ul")]);
        list := false;
      }
    }

    /** Lines that are no bullets. */
    method EmitOther(link: bool, opens: bool, own: seq<Piece>)
      requires Valid()
      modifies `pre, `list, `nav, `sent, tp, tp.buf
      ensures Valid() && State() == Flags(opens, false, link)
      ensures old(tp.chunks) <= tp.chunks
      ensures sent == (old(sent) + if old(list) then [Close("ul")] else []) +
                      (if old(nav) then (if link then [] else NavClose()) else (if link then NavOpen() else [])) + own
    {
      EndList();
      pre := opens;
      if link {
        EmitLink(own);
      } else {
        EmitBlock(own);
      }
    }

    /** gemtext_translate_line, once the kind of the line is known. */
    method EmitLine(k: Kind, line: string)
      requires Valid() && AtMostOne(State()) && (pre <==> k == PreText || k == PreEnd)
      modifies `pre, `list, `nav, `sent, tp, tp.buf
      ensures Valid() && State() == NextFlags(old(State()), k)
      ensures old(tp.chunks) <= tp.chunks
      ensures sent == old(sent) + (Closing(old(State()), k) + Opening(old(State()), k) + Own(k, line, site))
    {
      ghost var f, own := State(), Own(k, line, site);
      LineParts(sent, f, k, own);
      if pre {
        EmitPre(k, line);
      } else if k == Bullet {
        EmitBullet(Own(k, line, site));
      } else {
        EmitOther(k == Link, k.PreStart?, Own(k, line, site));
      }
    }

    /** gemtext_translate_line. */
    method TranslateLine(line: string)
      requires Valid() && AtMostOne(State())
      modifies `pre, `list, `nav, `sent, tp, tp.buf
      ensures Valid() && State() == After(old(State()), line, site) && AtMostOne(State())
      ensures old(tp.chunks) <= tp.chunks
      ensures sent == old(sent) + Line(old(State()), line, site)
    {
      EmitLine(KindOf(pre, line, site), line);
    }

    /** Pieces that are written only if something is open. */
    method EmitIf(open: bool, ps: seq<Piece>)
      requires Valid()
      modifies `sent, tp, tp.buf
      ensures Valid() && sent == old(sent) + (if open then ps else [])
      ensures old(tp.chunks) <= tp.chunks
    {
      assert sent + [] == sent;
      if open { Emit(ps); }
    }

    /** proxy_error at the end of a reply, before the foot. */
    method CloseAll()
      requires Valid() && AtMostOne(State())
      modifies `pre, `list, `nav, `sent, tp, tp.buf
      ensures Valid() && State() == NONE && sent == old(sent) + AtEnd(old(State()))
      ensures old(tp.chunks) <= tp.chunks
    {
      Joined(sent, if pre then PreClose() else [], if list then [Close("ul")] else [], if nav then NavClose() else []);
      EmitIf(pre, PreClose());
      pre := false;
      EmitIf(list, [Close("ul")]);
      list := false;
      EmitIf(nav, NavClose());
      nav := false;
    }
  }
}
