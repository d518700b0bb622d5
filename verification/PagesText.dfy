/** The error page and the input page as a reader sees them. */
module PagesText {
  import opened Common
  import opened Escape
  import opened Html
  import opened Gemtext
  import opened Browser
  import opened PageText
  import opened DocumentText
  import opened Pages

  function SaidTokens(before: string, inner: seq<Token>, after: string): seq<Token> {
    Tagged("p", Chars(before) + (inner + Chars(after)))
  }

  lemma {:induction false} SaidSights(before: string, inner: seq<Piece>, after: string)
    ensures Sights(Said(before, inner, after)) == SaidTokens(before, Sights(inner), after)
  {
    FlatMapOne(Literal(before), Sight);
    FlatMapOne(Literal(after), Sight);
    FlatMapAppend(inner, [Literal(after)], Sight);
    FlatMapAppend([Literal(before)], inner + [Literal(after)], Sight);
    TaggedSights("p", [Literal(before)] + (inner + [Literal(after)]));
  }

  /** What an error page says went wrong: the code, if there is one, and the reason. */
  function FailureTokens(code: int, reason: string): seq<Token> {
    if code != -1 then
      SaidTokens(FAILED, Tagged("code", Chars(Decimal(code))), ".") + SaidTokens(SAYS, Chars(reason), ".")
    else SaidTokens(UNABLE, Chars(reason), ".")
  }

  lemma {:induction false} FailureSights(code: int, reason: string)
    ensures Sights(Failure(code, reason)) == FailureTokens(code, reason)
  {
    var sent := Simple("code", Decimal(code));
    FlatMapOne(Escaped(reason), Sight);
    if code == -1 {
      SaidSights(UNABLE, [Escaped(reason)], ".");
    } else {
      SimpleSights("code", Decimal(code));
      SaidSights(FAILED, sent, ".");
      SaidSights(SAYS, [Escaped(reason)], ".");
      FlatMapAppend(Said(FAILED, sent, "."), Said(SAYS, [Escaped(reason)], "."), Sight);
    }
  }

  lemma {:induction false} ErrorMainSights(code: int, reason: string)
    ensures Sights(ErrorMain(code, reason)) ==
            Tagged("main", Tagged("h1", Chars("Proxy error")) + FailureTokens(code, reason))
  {
    var title := Element(Open("h1"), [Literal("Proxy error")], "h1");
    FlatMapOne(Literal("Proxy error"), Sight);
    TaggedSights("h1", [Literal("Proxy error")]);
    FailureSights(code, reason);
    FlatMapAppend(title, Failure(code, reason), Sight);
    TaggedSights("main", title + Failure(code, reason));
  }

  lemma {:induction false} PageSeen(pg: Page, title: string, main: seq<Piece>)
    requires Leads(BODY, main, BODY)
    ensures var p := pg.(lang := "en", title := Some(title));
            Seen(Render(PageOf(pg, title, main))) == HeadTokens(p) + (Sights(main) + FootTokens(p))
  {
    var p := pg.(lang := "en", title := Some(title));
    PageLeads(pg, title, main);
    SeenPieces(PageOf(pg, title, main));
    HeadSights(p);
    FootSights(p);
    FlatMapAppend(main, Foot(p), Sight);
    FlatMapAppend(Head(p), main + Foot(p), Sight);
  }

  /** Every error page a Gemini server can bring about tells its code and its reason. */
  lemma {:induction false} ErrorSeen(pg: Page, code: int, reason: string)
    requires -99 <= code <= 999
    ensures var p := pg.(lang := "en", title := Some("Proxy error"));
            Seen(Render(ErrorPage(pg, code, reason))) ==
            HeadTokens(p) +
            (Tagged("main", Tagged("h1", Chars("Proxy error")) + FailureTokens(code, reason)) + FootTokens(p))
  {
    ErrorShown(pg, code, reason);
    ErrorMainLeads(BODY, code, reason);
    PageSeen(pg, "Proxy error", ErrorMain(code, reason));
    ErrorMainSights(code, reason);
  }

  // ---------------------------------------------------------------- the input page

  const FORM_BEGIN := Begin("form", [("method", "post"), ("enctype", "application/x-www-form-urlencoded")])
  const FIELD :=
    Void("input", [("type", "text"), ("value", ""), ("id", "reply"), ("name", "q"), ("autofocus", "")])

  /** A form that posts one field, "q". */
  function FormTokens(): seq<Token> {
    var reply := [Begin("label", [("for", "reply")])] + Chars("response ") + [Finish("label")];
    var submit := [Begin("button", [("type", "submit")])] + Chars("Submit!") + [Finish("button")];
    [FORM_BEGIN] + (reply + ([FIELD] + (Chars(" ") + submit))) + [Finish("form")]
  }

  lemma {:induction false} HtmlMeant(name: string, text: string)
    ensures Meant(Attr(name, '"', [Html(text)])) == (name, text)
  {
    OneMeant(Html(text));
  }

  lemma {:induction false} FormMeant(enctype: string)
    ensures Sight(OpenWith("form", [POST, Attr("enctype", '"', [Html(enctype)])])) ==
            [Begin("form", [("method", "post"), ("enctype", enctype)])]
  {
    LitMeant("method", "post");
    HtmlMeant("enctype", enctype);
    AttrsMeant(POST, Attr("enctype", '"', [Html(enctype)]));
  }

  lemma {:induction false} FormSight()
    ensures Sight(FORM) == [FORM_BEGIN]
  {
    FormMeant(FORM_URLENCODED);
  }

  lemma {:induction false} LitSight(tag: string, name: string, text: string)
    requires '&' !in text
    ensures Sight(OpenWith(tag, [Attr(name, '"', [Lit(text)])])) == [Begin(tag, [(name, text)])]
  {
    OneMeant(Lit(text));
    AttrMeant(name, '"', [Lit(text)]);
  }

  lemma {:induction false} MeaningsCons(a: Attr, rest: seq<Attr>)
    ensures Meanings([a] + rest) == [Meant(a)] + Meanings(rest)
  {
    assert ([a] + rest)[1..] == rest;
  }

  lemma {:induction false} FiveMeant(a: Attr, b: Attr, c: Attr, d: Attr, e: Attr)
    ensures Meanings([a, b, c, d, e]) == [Meant(a), Meant(b), Meant(c), Meant(d), Meant(e)]
  {
    MeaningsCons(a, [b, c, d, e]);
    MeaningsCons(b, [c, d, e]);
    MeaningsCons(c, [d, e]);
    AttrsMeant(d, e);
    assert [a] + [b, c, d, e] == [a, b, c, d, e] && [b] + [c, d, e] == [b, c, d, e] && [c] + [d, e] == [c, d, e];
  }

  lemma FlagsMeant()
    ensures Meant(VALUE) == ("value", "") && Meant(FOCUS) == ("autofocus", "")
  {
  }

  lemma {:induction false} InputSight()
    ensures Sight(INPUT) == [FIELD]
  {
    LitMeant("type", "text");
    LitMeant("id", "reply");
    LitMeant("name", "q");
    FlagsMeant();
    FiveMeant(TEXT, VALUE, ID, NAME, FOCUS);
  }

  lemma {:induction false} WithinSights(open: Piece, begin: Token, inner: seq<Piece>, tokens: seq<Token>, name: string)
    requires Sight(open) == [begin] && Sights(inner) == tokens
    ensures Sights(Element(open, inner, name)) == [begin] + tokens + [Finish(name)]
  {
    ElementSights(open, inner, name);
  }

  lemma {:induction false} FormSights()
    ensures Sights(InputForm()) == FormTokens()
  {
    var reply := Element(LABEL, [Escaped("response ")], "label");
    var submit := Element(BUTTON, [Literal("Submit!")], "button");
    FormSight();
    InputSight();
    LitSight("label", "for", "reply");
    LitSight("button", "type", "submit");
    FlatMapOne(Escaped("response "), Sight);
    FlatMapOne(Literal("Submit!"), Sight);
    FlatMapOne(Escaped(" "), Sight);
    FlatMapOne(INPUT, Sight);
    WithinSights(LABEL, Begin("label", [("for", "reply")]), [Escaped("response ")], Chars("response "), "label");
    WithinSights(BUTTON, Begin("button", [("type", "submit")]), [Literal("Submit!")], Chars("Submit!"), "button");
    FlatMapAppend([Escaped(" ")], submit, Sight);
    FlatMapAppend([INPUT], [Escaped(" ")] + submit, Sight);
    FlatMapAppend(reply, [INPUT] + ([Escaped(" ")] + submit), Sight);
    WithinSights(FORM, FORM_BEGIN, reply + ([INPUT] + ([Escaped(" ")] + submit)),
                 Sights(reply + ([INPUT] + ([Escaped(" ")] + submit))), "form");
  }

  function AskTokens(prompt: string): seq<Token> {
    SaidTokens(ASKS, Tagged("q", Chars(prompt)), ".")
  }

  /** An input page shows the prompt, and a form that posts the answer as "q". */
  lemma {:induction false} InputSeen(pg: Page, prompt: string)
    ensures var p := pg.(lang := "en", title := Some("input request"));
            Seen(Render(InputPage(pg, prompt))) ==
            HeadTokens(p) + ((AskTokens(prompt) + FormTokens()) + FootTokens(p))
  {
    var q := Simple("q", prompt);
    InputMainLeads(BODY, prompt);
    PageSeen(pg, "input request", InputMain(prompt));
    SimpleSights("q", prompt);
    SaidSights(ASKS, q, ".");
    FormSights();
    FlatMapAppend(Said(ASKS, q, "."), InputForm(), Sight);
  }
}
