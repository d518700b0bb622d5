/**
 * Reading the upstream reply: a header line, then gemtext line by line or any
 * other body as it is. Whatever way the reply is cut up, the output is the same.
 */
module ProxyRead {
  import opened Common
  import opened Escape
  import opened Gemtext
  import opened Html
  import opened PageText
  import opened Tmpl

  const HEADER_MAX := 1026

  // ------------------------------------------------------------ lines in a buffer

  /** The first CRLF: evbuffer_readln with EVBUFFER_EOL_CRLF_STRICT. */
  function CrlfAt(s: string): (r: Option<nat>)
    ensures r.Some? ==> r.value + 2 <= |s|
  {
    if |s| < 2 then None
    else if s[0] == '\r' && s[1] == '\n' then Some(0)
    else match CrlfAt(s[1..]) case None => None case Some(i) => Some(i + 1)
  }

  function NewlineAt(s: string): (r: Option<nat>)
    ensures r.Some? ==> r.value < |s|
  {
    if s == "" then None
    else if s[0] == '\n' then Some(0)
    else match NewlineAt(s[1..]) case None => None case Some(i) => Some(i + 1)
  }

  function Chomp(s: string): string {
    if s != "" && s[|s| - 1] == '\r' then s[..|s| - 1] else s
  }

  /** The complete lines of a text, ended by LF or CRLF: evbuffer_readln with EVBUFFER_EOL_CRLF, again and again. */
  function LinesOf(s: string): seq<string>
    decreases |s|
  {
    match NewlineAt(s)
    case None => []
    case Some(i) => [Chomp(s[..i])] + LinesOf(s[i + 1..])
  }

  /** What follows the last complete line. */
  function Unfinished(s: string): string
    decreases |s|
  {
    match NewlineAt(s)
    case None => s
    case Some(i) => Unfinished(s[i + 1..])
  }

  lemma {:induction false} CrlfAppend(a: string, b: string)
    ensures CrlfAt(a).Some? ==> CrlfAt(a + b) == CrlfAt(a)
    ensures CrlfAt(a).None? && CrlfAt(a + b).Some? ==> CrlfAt(a + b).value + 2 > |a|
  {
    if a == "" {
    } else {
      assert (a + b)[1..] == a[1..] + b;
      if |a| >= 2 { CrlfAppend(a[1..], b); }
    }
  }

  lemma {:induction false} NewlineAppend(a: string, b: string)
    requires NewlineAt(a).Some?
    ensures NewlineAt(a + b) == NewlineAt(a)
  {
    if a[0] != '\n' {
      assert (a + b)[1..] == a[1..] + b;
      NewlineAppend(a[1..], b);
    }
  }

  /** Lines do not depend on where the text is cut. */
  lemma {:induction false} LinesAppend(a: string, b: string)
    ensures LinesOf(a + b) == LinesOf(a) + LinesOf(Unfinished(a) + b)
    ensures Unfinished(a + b) == Unfinished(Unfinished(a) + b)
    decreases |a|
  {
    if NewlineAt(a).Some? {
      var i := NewlineAt(a).value;
      NewlineAppend(a, b);
      assert (a + b)[..i] == a[..i] && (a + b)[i + 1..] == a[i + 1..] + b;
      LinesAppend(a[i + 1..], b);
      Assoc([Chomp(a[..i])], LinesOf(a[i + 1..]), LinesOf(Unfinished(a) + b));
    } else {
      assert [] + LinesOf(a + b) == LinesOf(a + b);
    }
  }

  /** How a line may end: by LF, or by CRLF. */
  predicate LineEnd(end: string) {
    end == "\n" || end == "\r\n"
  }

  lemma {:induction false} NewlineOf(a: string, t: string)
    requires '\n' !in a
    ensures NewlineAt(a + (['\n'] + t)) == Some(|a|)
  {
    if a == "" {
      assert a + (['\n'] + t) == ['\n'] + t;
    } else {
      assert (a + (['\n'] + t))[1..] == a[1..] + (['\n'] + t);
      NewlineOf(a[1..], t);
    }
  }

  /** A line, ended either way, is the first line of the text; a line that ends in CR needs a CRLF. */
  lemma {:induction false} LineFirst(line: string, end: string, rest: string)
    requires '\n' !in line && LineEnd(end) && (end == "\n" ==> Chomp(line) == line)
    ensures LinesOf(line + end + rest) == [line] + LinesOf(rest)
    ensures Unfinished(line + end + rest) == Unfinished(rest)
  {
    var a := line + end[..|end| - 1];
    var s := line + end + rest;
    assert s == a + (['\n'] + rest);
    NewlineOf(a, rest);
    assert s[..|a|] == a && s[|a| + 1..] == rest;
    assert end == "\r\n" ==> a == line + ['\r'] && a[..|a| - 1] == line;
    assert end == "\n" ==> a == line;
  }

  lemma {:induction false} LinesTwice(f: Flags, a: seq<string>, b: seq<string>, site: Site)
    ensures Lines(f, a + b, site) == Lines(f, a, site) + Lines(AfterLines(f, a, site), b, site)
    ensures AfterLines(f, a + b, site) == AfterLines(AfterLines(f, a, site), b, site)
    decreases |a|
  {
    if a == [] {
      assert a + b == b;
    } else {
      var f' := After(f, a[0], site);
      assert (a + b)[0] == a[0] && (a + b)[1..] == a[1..] + b;
      LinesTwice(f', a[1..], b, site);
      Assoc(Line(f, a[0], site), Lines(f', a[1..], site), Lines(AfterLines(f', a[1..], site), b, site));
    }
  }

  // ---------------------------------------------------------------- the header line

  predicate IsDigit(c: char) { '0' <= c <= '9' }

  predicate ValidHeader(hdr: string) {
    |hdr| >= 4 && IsDigit(hdr[0]) && IsDigit(hdr[1]) && hdr[2] == ' '
  }

  /** The error page of proxy_error, and what is answered to a header that brings no body. */
  datatype Answer = ProxyError | AskInput(prompt: string) | RedirectTo(url: string) | Failure(code: int, reason: string)

  datatype Verdict = Answered(a: Answer) | Gemini | Other(mime: string)

  /**
   * What the translation depends on besides the reply: links and images, the
   * page made from the header, which charsets parse_mime turns away, and how
   * redirects are resolved.
   */
  datatype Conf = Conf(
    site: Site, pageOf: string -> Page, refused: string -> bool, redirect: string -> Option<string>)

  /** The switch on the first digit. */
  function AnswerTo(hdr: string, conf: Conf): Answer
    requires ValidHeader(hdr)
  {
    var code := (hdr[0] as int - '0' as int) * 10 + (hdr[1] as int - '0' as int);
    if hdr[0] == '1' then AskInput(hdr[3..])
    else if hdr[0] == '3' && conf.redirect(hdr[3..]).Some? then RedirectTo(conf.redirect(hdr[3..]).value)
    else Failure(code, hdr[3..])
  }

  function VerdictOn(hdr: string, conf: Conf): Verdict {
    if !ValidHeader(hdr) then Answered(ProxyError)
    else if hdr[0] != '2' then Answered(AnswerTo(hdr, conf))
    else
      var mime := SkipBlanks(hdr[2..]);
      if !StartsWith(mime, "text/gemini") then Other(mime)
      else if conf.refused(mime) then Answered(Failure(-1, "Bad response"))
      else Gemini
  }

  /** A line of success: '2', a digit, a blank and perhaps more, and the type `mime`. */
  predicate SuccessLine(hdr: string, digit: char, blanks: string, mime: string) {
    && hdr == ['2', digit, ' '] + (blanks + mime) && '0' <= digit <= '9' && |hdr| >= 4
    && AllBlank(blanks) && (mime == "" || !Blank(mime[0]))
  }

  /** What a header line of success brings: gemtext if its type says so, or the body of that type. */
  lemma {:induction false} SuccessExact(hdr: string, digit: char, blanks: string, mime: string, conf: Conf)
    requires SuccessLine(hdr, digit, blanks, mime)
    ensures VerdictOn(hdr, conf) ==
            if !StartsWith(mime, "text/gemini") then Other(mime)
            else if conf.refused(mime) then Answered(Failure(-1, "Bad response"))
            else Gemini
  {
    assert hdr[2..] == ([' '] + blanks) + mime;
    SkipExact([' '] + blanks, mime);
  }

  /** '2', a digit and a blank, in four characters or more. */
  predicate Success(hdr: string) {
    |hdr| >= 4 && hdr[0] == '2' && '0' <= hdr[1] <= '9' && hdr[2] == ' '
  }

  /** Every line that starts so is spelled so. */
  lemma {:induction false} SuccessSplit(hdr: string) returns (blanks: string, mime: string)
    requires Success(hdr)
    ensures SuccessLine(hdr, hdr[1], blanks, mime)
  {
    blanks := SkipSplit(hdr[3..]);
    mime := SkipBlanks(hdr[3..]);
    assert hdr == ['2', hdr[1], ' '] + hdr[3..];
  }

  /** Fewer than four characters, or not two digits and a blank. */
  predicate Malformed(hdr: string) {
    |hdr| < 4 || !('0' <= hdr[0] <= '9') || !('0' <= hdr[1] <= '9') || hdr[2] != ' '
  }

  /**
   * What becomes of any header line. Only a line of success can bring gemtext
   * or another body; a malformed one, and no other, gets the error page of
   * proxy_error; '1' asks for input, '3' redirects if it can, and what is left
   * is reported with its two digits and its text.
   */
  lemma {:induction false} VerdictExact(hdr: string, conf: Conf)
    ensures VerdictOn(hdr, conf) == Answered(ProxyError) <==> Malformed(hdr)
    ensures VerdictOn(hdr, conf) == Gemini || VerdictOn(hdr, conf).Other? ==> Success(hdr)
    ensures !Malformed(hdr) && !Success(hdr) ==>
              VerdictOn(hdr, conf) == Answered(
                if hdr[0] == '1' then AskInput(hdr[3..])
                else if hdr[0] == '3' && conf.redirect(hdr[3..]).Some? then RedirectTo(conf.redirect(hdr[3..]).value)
                else Failure(10 * (hdr[0] as int - 48) + (hdr[1] as int - 48), hdr[3..]))
  {
  }

  // ------------------------------------------------------------------- the machine

  datatype Reading =
    | AwaitHeader(src: string)
    | InGemtext(hdr: string, src: string, f: Flags, sent: seq<Piece>)
    | InBody(mime: string, body: string)
    | Ended(a: Answer)

  /** `lines` translated, and `left` left over. */
  function Printed(hdr: string, lines: seq<string>, left: string, f: Flags, sent: seq<Piece>, site: Site): Reading {
    InGemtext(hdr, left, AfterLines(f, lines, site), sent + Lines(f, lines, site))
  }

  /** proxy_translate_gemtext: every complete line of the input. */
  function Translated(hdr: string, src: string, f: Flags, sent: seq<Piece>, conf: Conf): Reading {
    Printed(hdr, LinesOf(src), Unfinished(src), f, sent, conf.site)
  }

  /** The rest of proxy_read once a header line is there. */
  function WithHeader(hdr: string, body: string, conf: Conf): Reading {
    match VerdictOn(hdr, conf)
    case Answered(a) => Ended(a)
    case Gemini => Translated(hdr, body, NONE, Head(conf.pageOf(hdr)), conf)
    case Other(mime) => InBody(mime, body)
  }

  /** proxy_read on input that holds no header line yet. */
  function Begin(src: string, conf: Conf): Reading {
    match CrlfAt(src)
    case None => if |src| >= HEADER_MAX then Ended(ProxyError) else AwaitHeader(src)
    case Some(i) => WithHeader(src[..i], src[i + 2..], conf)
  }

  /** More of the reply arrives and proxy_read is called. */
  function Feed(r: Reading, chunk: string, conf: Conf): Reading {
    match r
    case AwaitHeader(src) => Begin(src + chunk, conf)
    case InGemtext(hdr, src, f, sent) => Translated(hdr, src + chunk, f, sent, conf)
    case InBody(mime, body) => InBody(mime, body + chunk)
    case Ended(_) => r
  }

  function FeedAll(r: Reading, chunks: seq<string>, conf: Conf): Reading {
    if chunks == [] then r
    else Feed(FeedAll(r, chunks[..|chunks| - 1], conf), chunks[|chunks| - 1], conf)
  }

  lemma {:induction false} FeedNext(chunks: seq<string>, i: nat, conf: Conf)
    requires i < |chunks|
    ensures var r := AwaitHeader("");
            FeedAll(r, chunks[..i + 1], conf) == Feed(FeedAll(r, chunks[..i], conf), chunks[i], conf)
  {
    assert chunks[..i + 1][..i] == chunks[..i];
  }

  /** Header lines of at most 1024 bytes, or ones that are turned away in any case. */
  predicate HeaderFits(s: string) {
    CrlfAt(s).Some? ==> CrlfAt(s).value <= 1024 || Malformed(s[..CrlfAt(s).value])
  }

  lemma {:induction false} TranslatedMore(
    hdr: string, src: string, chunk: string, f: Flags, sent: seq<Piece>, conf: Conf)
    ensures Feed(Translated(hdr, src, f, sent, conf), chunk, conf) == Translated(hdr, src + chunk, f, sent, conf)
  {
    var a, b := LinesOf(src), LinesOf(Unfinished(src) + chunk);
    LinesAppend(src, chunk);
    LinesTwice(f, a, b, conf.site);
    Assoc(sent, Lines(f, a, conf.site), Lines(AfterLines(f, a, conf.site), b, conf.site));
  }

  lemma {:induction false} FeedWithHeader(hdr: string, body: string, chunk: string, conf: Conf)
    ensures Feed(WithHeader(hdr, body, conf), chunk, conf) == WithHeader(hdr, body + chunk, conf)
  {
    if VerdictOn(hdr, conf) == Gemini {
      TranslatedMore(hdr, body, chunk, NONE, Head(conf.pageOf(hdr)), conf);
    }
  }

  lemma CutReply(s: string, chunk: string, i: nat)
    requires i + 2 <= |s|
    ensures (s + chunk)[..i] == s[..i] && (s + chunk)[i + 2..] == s[i + 2..] + chunk
  {
  }

  lemma {:induction false} FeedMore(s: string, chunk: string, conf: Conf)
    requires HeaderFits(s + chunk)
    ensures Feed(Begin(s, conf), chunk, conf) == Begin(s + chunk, conf)
  {
    CrlfAppend(s, chunk);
    match CrlfAt(s)
    case Some(i) =>
      CutReply(s, chunk, i);
      FeedWithHeader(s[..i], s[i + 2..], chunk, conf);
    case None =>
  }

  lemma {:induction false} FitsPrefix(s: string, chunk: string)
    requires HeaderFits(s + chunk)
    ensures HeaderFits(s)
  {
    CrlfAppend(s, chunk);
    if CrlfAt(s).Some? { assert (s + chunk)[..CrlfAt(s).value] == s[..CrlfAt(s).value]; }
  }

  /** Any way of cutting the reply up gives what the whole reply gives at once. */
  lemma {:induction false} AnySegmentation(chunks: seq<string>, conf: Conf)
    requires HeaderFits(Concat(chunks))
    ensures FeedAll(AwaitHeader(""), chunks, conf) == Begin(Concat(chunks), conf)
  {
    if chunks != [] {
      var front, last := chunks[..|chunks| - 1], chunks[|chunks| - 1];
      ConcatLast(chunks);
      FitsPrefix(Concat(front), last);
      AnySegmentation(front, conf);
      FeedMore(Concat(front), last, conf);
    }
  }

  lemma {:induction false} FeedTwo(a: string, b: string, conf: Conf)
    ensures FeedAll(AwaitHeader(""), [a, b], conf) == Feed(Begin(a, conf), b, conf)
  {
    assert [a, b][..1] == [a] && [a][..0] == [];
    assert FeedAll(AwaitHeader(""), [a], conf) == Feed(FeedAll(AwaitHeader(""), [], conf), a, conf);
    assert "" + a == a;
  }

  lemma {:induction false} CrlfFirst(s: string)
    requires CrlfAt(s).Some?
    ensures CrlfAt(s[..CrlfAt(s).value + 1]).None?
  {
    var i := CrlfAt(s).value;
    if i > 0 {
      CrlfFirst(s[1..]);
      assert s[1..][..i] == s[..i + 1][1..];
    }
  }

  lemma {:induction false} LongHeader(s: string, conf: Conf) returns (chunks: seq<string>)
    requires !HeaderFits(s)
    ensures Concat(chunks) == s && FeedAll(AwaitHeader(""), chunks, conf) != Begin(s, conf)
  {
    var i := CrlfAt(s).value;
    var a, b := s[..i + 1], s[i + 1..];
    chunks := [a, b];
    CrlfFirst(s);
    ConcatCons(a, [b]);
    ConcatCons(b, []);
    assert [a, b] == [a] + [b] && a + (b + []) == s;
    FeedTwo(a, b, conf);
  }

  /** The limit is exact: a longer valid header is read or turned away depending on how it arrives. */
  lemma {:induction false} FitsIffAnySegmentation(s: string, conf: Conf)
    ensures HeaderFits(s) <==>
            forall chunks :: Concat(chunks) == s ==> FeedAll(AwaitHeader(""), chunks, conf) == Begin(s, conf)
  {
    if HeaderFits(s) {
      forall chunks | Concat(chunks) == s
        ensures FeedAll(AwaitHeader(""), chunks, conf) == Begin(s, conf)
      {
        AnySegmentation(chunks, conf);
      }
    } else {
      var chunks := LongHeader(s, conf);
    }
  }

  // ------------------------------------------------------------------ whole replies

  lemma {:induction false} CrlfOf(hdr: string, body: string)
    requires CrlfAt(hdr).None?
    ensures CrlfAt(hdr + "\r\n" + body) == Some(|hdr|)
  {
    var s := hdr + "\r\n" + body;
    if hdr == "" {
      assert s[0] == '\r' && s[1] == '\n';
    } else {
      assert s[1..] == hdr[1..] + "\r\n" + body;
      if |hdr| >= 2 { assert s[1] == hdr[1]; } else { assert s[1] == '\r'; assert CrlfAt(hdr[1..]).None?; }
      CrlfOf(hdr[1..], body);
    }
  }

  lemma {:induction false} ReplyParts(hdr: string, body: string)
    requires CrlfAt(hdr).None?
    ensures var s := hdr + "\r\n" + body; CrlfAt(s) == Some(|hdr|) && s[..|hdr|] == hdr && s[|hdr| + 2..] == body
  {
    CrlfOf(hdr, body);
  }

  lemma {:induction false} WholeDocument(hdr: string, lines: seq<string>, left: string, conf: Conf)
    ensures var page := conf.pageOf(hdr);
            var r := Printed(hdr, lines, left, NONE, Head(page), conf.site);
            r.sent + (AtEnd(r.f) + Foot(page)) == Document(page, lines, conf.site)
  {
    var page := conf.pageOf(hdr);
    var f := AfterLines(NONE, lines, conf.site);
    Assoc(Head(page), Lines(NONE, lines, conf.site), AtEnd(f) + Foot(page));
  }

  /** A header line that announces gemtext in a charset that is not turned away. */
  predicate GemtextLine(hdr: string, digit: char, blanks: string, mime: string, conf: Conf) {
    SuccessLine(hdr, digit, blanks, mime) && StartsWith(mime, "text/gemini") && !conf.refused(mime)
  }

  /** One that announces anything else. */
  predicate BodyLine(hdr: string, digit: char, blanks: string, mime: string) {
    SuccessLine(hdr, digit, blanks, mime) && !StartsWith(mime, "text/gemini")
  }

  /**
   * A gemtext reply, however it arrives, becomes the head, its complete lines
   * translated in order, and at the end of the reply a well-nested document.
   */
  lemma {:induction false} GemtextReply(
      hdr: string, digit: char, blanks: string, mime: string, body: string, chunks: seq<string>, conf: Conf)
    requires CrlfAt(hdr).None? && |hdr| <= 1024 && GemtextLine(hdr, digit, blanks, mime, conf)
    requires Concat(chunks) == hdr + "\r\n" + body
    ensures var r, page := FeedAll(AwaitHeader(""), chunks, conf), conf.pageOf(hdr);
            && r.InGemtext? && r.hdr == hdr && r.src == Unfinished(body)
            && r.sent + (AtEnd(r.f) + Foot(page)) == Document(page, LinesOf(body), conf.site)
            && WellNested(Render(r.sent + (AtEnd(r.f) + Foot(page))))
  {
    SuccessExact(hdr, digit, blanks, mime, conf);
    ReplyParts(hdr, body);
    AnySegmentation(chunks, conf);
    WholeDocument(hdr, LinesOf(body), Unfinished(body), conf);
    DocumentNests(conf.pageOf(hdr), LinesOf(body), conf.site);
  }

  /** Any other successful reply passes its body on unchanged, under the type of its header line. */
  lemma {:induction false} OtherReply(
      hdr: string, digit: char, blanks: string, mime: string, body: string, chunks: seq<string>, conf: Conf)
    requires CrlfAt(hdr).None? && |hdr| <= 1024 && BodyLine(hdr, digit, blanks, mime)
    requires Concat(chunks) == hdr + "\r\n" + body
    ensures FeedAll(AwaitHeader(""), chunks, conf) == InBody(mime, body)
  {
    SuccessExact(hdr, digit, blanks, mime, conf);
    ReplyParts(hdr, body);
    AnySegmentation(chunks, conf);
  }

  /** A reply that brings no body is answered at once, whatever follows its header line. */
  lemma {:induction false} AnsweredReply(hdr: string, body: string, chunks: seq<string>, conf: Conf)
    requires CrlfAt(hdr).None? && |hdr| <= 1024 && !Success(hdr)
    requires Concat(chunks) == hdr + "\r\n" + body
    ensures FeedAll(AwaitHeader(""), chunks, conf) == Ended(
      if Malformed(hdr) then ProxyError
      else if hdr[0] == '1' then AskInput(hdr[3..])
      else if hdr[0] == '3' && conf.redirect(hdr[3..]).Some? then RedirectTo(conf.redirect(hdr[3..]).value)
      else Failure(10 * (hdr[0] as int - 48) + (hdr[1] as int - 48), hdr[3..]))
  {
    VerdictExact(hdr, conf);
    ReplyParts(hdr, body);
    AnySegmentation(chunks, conf);
  }

  // -------------------------------------------------------------------- the code

  lemma {:induction false} LinesOne(f: Flags, line: string, rest: seq<string>, site: Site)
    ensures Lines(f, [line] + rest, site) == Line(f, line, site) + Lines(After(f, line, site), rest, site)
    ensures AfterLines(f, [line] + rest, site) == AfterLines(After(f, line, site), rest, site)
  {
    assert ([line] + rest)[0] == line && ([line] + rest)[1..] == rest;
  }

  lemma {:induction false} PrintedOne(
    hdr: string, line: string, rest: seq<string>, left: string, f: Flags, sent: seq<Piece>, site: Site)
    ensures Printed(hdr, [line] + rest, left, f, sent, site) ==
            Printed(hdr, rest, left, After(f, line, site), sent + Line(f, line, site), site)
  {
    LinesOne(f, line, rest, site);
    Assoc(sent, Line(f, line, site), Lines(After(f, line, site), rest, site));
  }

  lemma {:induction false} FirstLine(src: string)
    requires NewlineAt(src).Some?
    ensures var i := NewlineAt(src).value;
            && LinesOf(src) == [Chomp(src[..i])] + LinesOf(src[i + 1..])
            && Unfinished(src) == Unfinished(src[i + 1..])
  {
  }

  /** One turn of the loop of proxy_translate_gemtext. */
  lemma {:induction false} OneLine(hdr: string, src: string, f: Flags, sent: seq<Piece>, conf: Conf)
    requires NewlineAt(src).Some?
    ensures var i := NewlineAt(src).value;
            var line := Chomp(src[..i]);
            Translated(hdr, src, f, sent, conf) ==
            Translated(hdr, src[i + 1..], After(f, line, conf.site), sent + Line(f, line, conf.site), conf)
  {
    var i := NewlineAt(src).value;
    var line, rest, left := Chomp(src[..i]), LinesOf(src[i + 1..]), Unfinished(src[i + 1..]);
    assert Translated(hdr, src, f, sent, conf) == Printed(hdr, [line] + rest, left, f, sent, conf.site) by {
      FirstLine(src);
    }
    PrintedOne(hdr, line, rest, left, f, sent, conf.site);
  }

  function ContentType(ctype: string): string {
    "Content-Type: " + ctype + "\r\n\r\n"
  }

  const HTML_TYPE := "text/html;charset=utf-8"

  lemma {:induction false} RenderMore(start: string, sent: seq<Piece>, a: seq<Piece>, b: seq<Piece>)
    ensures start + Render((sent + a) + b) == (start + Render(sent)) + Render(a + b)
  {
    Assoc(sent, a, b);
    FlatMapAppend(sent, a + b, PieceText);
    Assoc(start, Render(sent), Render(a + b));
  }

  /** The part of struct client that reads the upstream reply. */
  class Upstream {
    const conf: Conf
    const tr: Translator
    var src: string
    var headersDone: bool
    var translate: bool
    var hdr: string
    /** What has been written past the template. */
    ghost var body: string
    /** What the template held when reading started. */
    ghost const origin: string

    constructor (conf: Conf, tr: Translator)
      requires tr.Valid() && tr.site == conf.site && tr.sent == [] && tr.State() == NONE
      ensures Valid() && this.conf == conf && this.tr == tr && State() == AwaitHeader("")
      ensures origin == tr.start && body == ""
    {
      this.conf, this.tr := conf, tr;
      src, headersDone, translate, hdr, body := "", false, false, "", "";
      origin := tr.start;
    }

    /** What is in the template, and that nothing waits in it behind a raw body. */
    ghost predicate Valid()
      reads this, tr, tr.tp, tr.tp.buf
    {
      tr.site == conf.site &&
      if headersDone && !translate then
        && VerdictOn(hdr, conf).Other? && src == "" && tr.tp.Valid() && tr.tp.Pending() == []
        && tr.tp.Total() == origin + ContentType(VerdictOn(hdr, conf).mime) + body
      else
        && tr.Valid() && AtMostOne(tr.State())
        && (if headersDone then tr.start == origin + ContentType(HTML_TYPE)
            else tr.sent == [] && tr.State() == NONE && tr.start == origin)
    }

    ghost function State(): Reading
      reads this, tr
    {
      if !headersDone then AwaitHeader(src)
      else if translate then InGemtext(hdr, src, tr.State(), tr.sent)
      else match VerdictOn(hdr, conf) case Other(mime) => InBody(mime, body) case _ => Ended(ProxyError)
    }

    /** proxy_translate_gemtext. */
    method TranslateGemtext()
      requires tr.Valid() && AtMostOne(tr.State()) && tr.site == conf.site
      modifies `src, tr`pre, tr`list, tr`nav, tr`sent, tr.tp, tr.tp.buf
      ensures old(tr.tp.chunks) <= tr.tp.chunks
      ensures tr.Valid() && AtMostOne(tr.State())
      ensures InGemtext(hdr, src, tr.State(), tr.sent) ==
              Translated(hdr, old(src), old(tr.State()), old(tr.sent), conf)
    {
      ghost var f, s := tr.State(), tr.sent;
      assert s + [] == s;
      while NewlineAt(src).Some?
        invariant tr.Valid() && AtMostOne(tr.State()) && old(tr.tp.chunks) <= tr.tp.chunks
        invariant Translated(hdr, src, tr.State(), tr.sent, conf) == Translated(hdr, old(src), f, s, conf)
        decreases |src|
      {
        var i := NewlineAt(src).value;
        var line := Chomp(src[..i]);
        OneLine(hdr, src, tr.State(), tr.sent, conf);
        src := src[i + 1..];
        tr.TranslateLine(line);
      }
      assert tr.sent + [] == tr.sent;
    }

    /** The headers of a body that is not gemtext, flushed so that nothing waits in the template. */
    method WriteHeaders(text: string)
      requires tr.Valid() && tr.sent == []
      modifies tr`start, tr.tp, tr.tp.buf
      ensures old(tr.tp.chunks) <= tr.tp.chunks
      ensures tr.tp.Valid() && tr.tp.Pending() == [] && tr.tp.Total() == old(tr.start) + text
    {
      tr.Prelude(text);
      assert tr.start + [] == tr.start;
      tr.tp.Flush();
    }

    /** A body that is not gemtext: what is already there. */
    method StartBody(mime: string)
      requires Valid() && !headersDone && VerdictOn(hdr, conf) == Other(mime) && body == ""
      modifies this, tr`start, tr.tp, tr.tp.buf
      ensures old(tr.tp.chunks) <= tr.tp.chunks
      ensures Valid() && headersDone && !translate && hdr == old(hdr) && body == old(src)
    {
      WriteHeaders(ContentType(mime));
      tr.tp.Raw(src);
      headersDone, translate := true, false;
      body := src;
      src := "";
    }

    /** Gemtext: the head of the page, then the lines that are already there. */
    method StartGemtext(head: seq<Piece>)
      requires Valid() && !headersDone
      modifies this, tr`start, tr`pre, tr`list, tr`nav, tr`sent, tr.tp, tr.tp.buf
      ensures old(tr.tp.chunks) <= tr.tp.chunks
      ensures Valid() && headersDone && translate
      ensures State() == Translated(old(hdr), old(src), NONE, head, conf)
    {
      tr.Prelude(ContentType(HTML_TYPE));
      headersDone, translate := true, true;
      assert [] + head == head;
      tr.Emit(head);
      TranslateGemtext();
    }

    /** More of a body that is not gemtext. */
    method MoreBody(chunk: string)
      requires Valid() && headersDone && !translate
      modifies `body, tr.tp`chunks
      ensures old(tr.tp.chunks) <= tr.tp.chunks
      ensures Valid() && body == old(body) + chunk
    {
      Assoc(origin + ContentType(VerdictOn(hdr, conf).mime), body, chunk);
      tr.tp.Raw(chunk);
      body := body + chunk;
    }

    /** A header line is there. */
    method GotHeader(i: nat) returns (a: Option<Answer>)
      requires Valid() && !headersDone && body == "" && i + 2 <= |src|
      modifies this, tr`start, tr`pre, tr`list, tr`nav, tr`sent, tr.tp, tr.tp.buf
      ensures old(tr.tp.chunks) <= tr.tp.chunks
      ensures match WithHeader(old(src[..i]), old(src[i + 2..]), conf)
              case Ended(answer) => a == Some(answer)
              case r => a == None && Valid() && headersDone && State() == r
    {
      a := None;
      hdr := src[..i];
      src := src[i + 2..];
      match VerdictOn(hdr, conf) {
        case Answered(answer) => a := Some(answer);
        case Gemini => StartGemtext(Head(conf.pageOf(hdr)));
        case Other(mime) => StartBody(mime);
      }
    }

    /** proxy_read while the header line is awaited. */
    method ReadHeader() returns (a: Option<Answer>)
      requires Valid() && !headersDone && body == ""
      modifies this, tr`start, tr`pre, tr`list, tr`nav, tr`sent, tr.tp, tr.tp.buf
      ensures old(tr.tp.chunks) <= tr.tp.chunks
      ensures match Begin(old(src), conf)
              case Ended(answer) => a == Some(answer)
              case r => a == None && Valid() && State() == r && (!headersDone ==> body == "")
    {
      match CrlfAt(src) {
        case None => a := if |src| >= HEADER_MAX then Some(ProxyError) else None;
        case Some(i) => a := GotHeader(i);
      }
    }

    /** Input arrives and proxy_read is called; an answer ends the request. */
    method Receive(chunk: string) returns (a: Option<Answer>)
      requires Valid() && (!headersDone ==> body == "")
      modifies this, tr`start, tr`pre, tr`list, tr`nav, tr`sent, tr.tp, tr.tp.buf
      ensures old(tr.tp.chunks) <= tr.tp.chunks
      ensures match Feed(old(State()), chunk, conf)
              case Ended(answer) => a == Some(answer)
              case r => a == None && Valid() && State() == r && (!headersDone ==> body == "")
    {
      if headersDone && !translate {
        MoreBody(chunk);
        return None;
      }
      src := src + chunk;
      if headersDone {
        TranslateGemtext();
        return None;
      }
      a := ReadHeader();
    }

    /** proxy_error at the end of the reply, its header line there: what is open is closed, then the foot. */
    method Finish()
      requires Valid() && headersDone
      modifies tr`pre, tr`list, tr`nav, tr`sent, tr.tp, tr.tp.buf
      ensures old(tr.tp.chunks) <= tr.tp.chunks && tr.tp.Valid()
      ensures tr.tp.Total() == old(tr.tp.Total()) +
                               if translate then Render(AtEnd(old(tr.State())) + Foot(conf.pageOf(hdr))) else ""
    {
      ghost var total := tr.tp.Total();
      assert total + "" == total;
      if translate {
        RenderMore(tr.start, tr.sent, AtEnd(tr.State()), Foot(conf.pageOf(hdr)));
        tr.CloseAll();
        tr.Emit(Foot(conf.pageOf(hdr)));
      }
    }
  }
}
