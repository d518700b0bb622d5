/** The pages that fragments.tmpl puts between the same head and foot: tp_error and tp_inputpage. */
module Pages {
  import opened Common
  import opened Gemtext
  import opened Html

  const FORM_URLENCODED := "application/x-www-form-urlencoded"

  /** "%d". */
  function Decimal(n: int): (s: string)
    ensures s != ""
  {
    if n < 0 then "-" + Digits(-n) else Digits(n)
  }

  /** A paragraph that starts and ends with fixed text. */
  function Said(before: string, inner: seq<Piece>, after: string): seq<Piece> {
    Element(Open("p"), [Literal(before)] + (inner + [Literal(after)]), "p")
  }

  // ---------------------------------------------------------------------- tp_error

  const FAILED := "Request failed" + " with code: "
  const SAYS := "The server says: "
  const UNABLE := "Unable to serve" + " the page due to: "

  function Failure(code: int, reason: string): seq<Piece> {
    if code != -1 then
      Said(FAILED, Element(Open("code"), [Escaped(Decimal(code))], "code"), ".") + Said(SAYS, [Escaped(reason)], ".")
    else Said(UNABLE, [Escaped(reason)], ".")
  }

  function ErrorMain(code: int, reason: string): seq<Piece> {
    Element(Open("main"), Element(Open("h1"), [Literal("Proxy error")], "h1") + Failure(code, reason), "main")
  }

  /** The page of a given body; nothing but its title and its language differ from a page of gemtext. */
  function PageOf(pg: Page, title: string, main: seq<Piece>): seq<Piece> {
    var p := pg.(lang := "en", title := Some(title));
    Head(p) + (main + Foot(p))
  }

  /** tp_error, which returns before it has written anything if the code does not fit sizeof(int) bytes. */
  function ErrorPage(pg: Page, code: int, reason: string): seq<Piece> {
    if |Decimal(code)| >= 4 then [] else PageOf(pg, "Proxy error", ErrorMain(code, reason))
  }

  // ------------------------------------------------------------------ tp_inputpage

  const ASKS := "The server ask" + " for input: "

  const POST := Attr("method", '"', [Lit("post")])
  const ENCTYPE := Attr("enctype", '"', [Html(FORM_URLENCODED)])
  const FORM := OpenWith("form", [POST, ENCTYPE])

  const TEXT := Attr("type", '"', [Lit("text")])
  const VALUE := Attr("value", '"', [])
  const ID := Attr("id", '"', [Lit("reply")])
  const NAME := Attr("name", '"', [Lit("q")])
  const FOCUS := Flag("autofocus")
  const INPUT := Empty("input", [TEXT, VALUE, ID, NAME, FOCUS])

  const LABEL := OpenWith("label", [Attr("for", '"', [Lit("reply")])])

  const BUTTON := OpenWith("button", [Attr("type", '"', [Lit("submit")])])

  function InputForm(): seq<Piece> {
    Element(FORM,
            Element(LABEL, [Escaped("response ")], "label") +
            ([INPUT] + ([Escaped(" ")] + Element(BUTTON, [Literal("Submit!")], "button"))),
            "form")
  }

  function InputMain(prompt: string): seq<Piece> {
    Said(ASKS, Element(Open("q"), [Escaped(prompt)], "q"), ".") + InputForm()
  }

  /** tp_inputpage. */
  function InputPage(pg: Page, prompt: string): seq<Piece> {
    PageOf(pg, "input request", InputMain(prompt))
  }

  // ----------------------------------------------------------------------- nesting

  lemma {:induction false} SaidLeads(st: seq<string>, before: string, inner: seq<Piece>, after: string)
    requires SafePiece(Literal(before)) && SafePiece(Literal(after)) && Leads(["p"] + st, inner, ["p"] + st)
    ensures Leads(st, Said(before, inner, after), st)
  {
    var p := ["p"] + st;
    LeadsFlat(p, Literal(before));
    LeadsFlat(p, Literal(after));
    LeadsAppend(p, inner, p, [Literal(after)], p);
    LeadsAppend(p, [Literal(before)], p, inner + [Literal(after)], p);
    LeadsElement(st, Open("p"), [Literal(before)] + (inner + [Literal(after)]), "p");
  }

  lemma {:induction false} EscapedIn(st: seq<string>, name: string, text: string)
    requires IsName(name)
    ensures Leads(st, Element(Open(name), [Escaped(text)], name), st)
  {
    LeadsFlat([name] + st, Escaped(text));
    LeadsElement(st, Open(name), [Escaped(text)], name);
  }

  lemma {:induction false} ReasonLeads(st: seq<string>, before: string, reason: string)
    requires SafePiece(Literal(before))
    ensures Leads(st, Said(before, [Escaped(reason)], "."), st)
  {
    LeadsFlat(["p"] + st, Escaped(reason));
    SaidLeads(st, before, [Escaped(reason)], ".");
  }

  lemma TwiceSafe(a: string, b: string)
    requires SafePiece(Literal(a)) && SafePiece(Literal(b))
    ensures SafePiece(Literal(a + b))
  {
  }

  lemma FailedSafe()
    ensures SafePiece(Literal(FAILED))
  {
    TwiceSafe("Request failed", " with code: ");
  }

  lemma SaysSafe()
    ensures SafePiece(Literal(SAYS))
  {
  }

  lemma DueSafe()
    ensures SafePiece(Literal(" the page due to: "))
  {
  }

  lemma UnableSafe()
    ensures SafePiece(Literal(UNABLE))
  {
    DueSafe();
    TwiceSafe("Unable to serve", " the page due to: ");
  }

  lemma DotSafe()
    ensures SafePiece(Literal("."))
  {
  }

  lemma {:induction false} CodeLeads(st: seq<string>, code: int)
    ensures Leads(st, Said(FAILED, Element(Open("code"), [Escaped(Decimal(code))], "code"), "."), st)
  {
    EscapedIn(["p"] + st, "code", Decimal(code));
    FailedSafe();
    DotSafe();
    SaidLeads(st, FAILED, Element(Open("code"), [Escaped(Decimal(code))], "code"), ".");
  }

  lemma {:induction false} FailureLeads(st: seq<string>, code: int, reason: string)
    ensures Leads(st, Failure(code, reason), st)
  {
    if code == -1 {
      UnableSafe();
      ReasonLeads(st, UNABLE, reason);
    } else {
      var sent := Element(Open("code"), [Escaped(Decimal(code))], "code");
      CodeLeads(st, code);
      SaysSafe();
      ReasonLeads(st, SAYS, reason);
      LeadsAppend(st, Said(FAILED, sent, "."), st, Said(SAYS, [Escaped(reason)], "."), st);
    }
  }

  lemma {:induction false} ErrorTitleLeads(st: seq<string>)
    ensures Leads(st, Element(Open("h1"), [Literal("Proxy error")], "h1"), st)
  {
    LeadsFlat(["h1"] + st, Literal("Proxy error"));
    LeadsElement(st, Open("h1"), [Literal("Proxy error")], "h1");
  }

  lemma {:induction false} ErrorMainLeads(st: seq<string>, code: int, reason: string)
    ensures Leads(st, ErrorMain(code, reason), st)
  {
    var m, title := ["main"] + st, Element(Open("h1"), [Literal("Proxy error")], "h1");
    ErrorTitleLeads(m);
    FailureLeads(m, code, reason);
    LeadsAppend(m, title, m, Failure(code, reason), m);
    LeadsElement(st, Open("main"), title + Failure(code, reason), "main");
  }

  lemma FormSafe()
    ensures SafePiece(FORM)
  {
    LiteralAttrSafe("method", "post");
    assert SafeAttr(ENCTYPE);
  }

  lemma LabelSafe()
    ensures SafePiece(LABEL)
  {
    LiteralAttrSafe("for", "reply");
  }

  lemma ButtonSafe()
    ensures SafePiece(BUTTON)
  {
    LiteralAttrSafe("type", "submit");
  }

  lemma NamesSafe()
    ensures SafeAttr(TEXT) && SafeAttr(ID) && SafeAttr(NAME)
  {
    LiteralAttrSafe("type", "text");
    LiteralAttrSafe("id", "reply");
    LiteralAttrSafe("name", "q");
  }

  lemma FlagsSafe()
    ensures SafeAttr(VALUE) && SafeAttr(FOCUS)
  {
  }

  lemma FiveSafe(name: string, a: Attr, b: Attr, c: Attr, d: Attr, e: Attr)
    requires IsName(name) && SafeAttr(a) && SafeAttr(b) && SafeAttr(c) && SafeAttr(d) && SafeAttr(e)
    ensures SafePiece(Empty(name, [a, b, c, d, e]))
  {
  }

  lemma InputSafe()
    ensures SafePiece(INPUT)
  {
    NamesSafe();
    FlagsSafe();
    FiveSafe("input", TEXT, VALUE, ID, NAME, FOCUS);
  }

  lemma {:induction false} FormLeads(st: seq<string>)
    ensures Leads(st, InputForm(), st)
  {
    var f := ["form"] + st;
    var reply := Element(LABEL, [Escaped("response ")], "label");
    var submit := Element(BUTTON, [Literal("Submit!")], "button");
    FormSafe();
    LabelSafe();
    ButtonSafe();
    InputSafe();
    LeadsFlat(["label"] + f, Escaped("response "));
    LeadsElement(f, LABEL, [Escaped("response ")], "label");
    LeadsFlat(["button"] + f, Literal("Submit!"));
    LeadsElement(f, BUTTON, [Literal("Submit!")], "button");
    LeadsFlat(f, INPUT);
    LeadsFlat(f, Escaped(" "));
    LeadsAppend(f, [Escaped(" ")], f, submit, f);
    LeadsAppend(f, [INPUT], f, [Escaped(" ")] + submit, f);
    LeadsAppend(f, reply, f, [INPUT] + ([Escaped(" ")] + submit), f);
    LeadsElement(st, FORM, reply + ([INPUT] + ([Escaped(" ")] + submit)), "form");
  }

  lemma {:induction false} PageLeads(pg: Page, title: string, main: seq<Piece>)
    requires Leads(BODY, main, BODY)
    ensures Leads([], PageOf(pg, title, main), [])
  {
    var p := pg.(lang := "en", title := Some(title));
    HeadLeads(p);
    FootLeads(p);
    LeadsAppend(BODY, main, BODY, Foot(p), []);
    LeadsAppend([], Head(p), BODY, main + Foot(p), []);
  }

  /** Whatever is nested in itself makes a well-nested page. */
  lemma {:induction false} PageNests(pg: Page, title: string, main: seq<Piece>)
    requires Leads(BODY, main, BODY)
    ensures WellNested(Render(PageOf(pg, title, main)))
  {
    PageLeads(pg, title, main);
    LeadsWellNested(PageOf(pg, title, main));
  }

  /** Every error page is well nested, whatever the server said. */
  lemma {:induction false} ErrorNests(pg: Page, code: int, reason: string)
    ensures WellNested(Render(ErrorPage(pg, code, reason)))
  {
    ErrorMainLeads(BODY, code, reason);
    PageNests(pg, "Proxy error", ErrorMain(code, reason));
    LeadsNothing([]);
    LeadsWellNested([]);
  }

  lemma AsksSafe()
    ensures SafePiece(Literal(ASKS))
  {
    TwiceSafe("The server ask", " for input: ");
  }

  lemma {:induction false} InputMainLeads(st: seq<string>, prompt: string)
    ensures Leads(st, InputMain(prompt), st)
  {
    var q := Element(Open("q"), [Escaped(prompt)], "q");
    EscapedIn(["p"] + st, "q", prompt);
    AsksSafe();
    DotSafe();
    SaidLeads(st, ASKS, q, ".");
    FormLeads(st);
    LeadsAppend(st, Said(ASKS, q, "."), st, InputForm(), st);
  }

  /** Every input page is well nested, whatever the prompt. */
  lemma {:induction false} InputNests(pg: Page, prompt: string)
    ensures WellNested(Render(InputPage(pg, prompt)))
  {
    InputMainLeads(BODY, prompt);
    PageNests(pg, "input request", InputMain(prompt));
  }

  lemma {:induction false} DigitsShort(n: nat)
    ensures |Digits(n)| < 4 <==> n < 1000
    ensures |Digits(n)| < 3 <==> n < 100
    ensures |Digits(n)| < 2 <==> n < 10
  {
    if n >= 10 {
      DigitsShort(n / 10);
    }
  }

  /** The error page is empty exactly for codes of four characters or more, which no Gemini server can send. */
  lemma {:induction false} ErrorShown(pg: Page, code: int, reason: string)
    ensures ErrorPage(pg, code, reason) == [] <==> code < -99 || code > 999
  {
    DigitsShort(if code < 0 then -code else code);
    assert PageOf(pg, "Proxy error", ErrorMain(code, reason))[0] == Doctype;
  }
}
