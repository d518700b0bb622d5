/**
 * What the printed text does when it is run as C: the four functions it calls
 * are those of template/tmpl.c.
 */
module TemplateMeaning {
  import opened Common
  import opened CLiteral
  import E = Escape
  import opened TemplateCompiler
  import opened TemplateReader
  import opened TemplateText

  // ------------------------------------------------------------------ the library

  /** The C parts of a template in a world W, and tp_write. */
  datatype Parts<!W> = Parts(
    value: (string, W) -> string,
    test: (string, W) -> bool,
    more: (Header, W) -> bool,
    init: (Header, W) -> W,
    step: (Header, W) -> W,
    code: (string, W) -> W,
    call: (string, W) -> (int, W),
    write: (string, W) -> (int, W))

  /** Texts written one after the other, up to the first failure. */
  function WriteAll<W>(ts: seq<string>, w: W, write: (string, W) -> (int, W)): (int, W)
    decreases |ts|
  {
    if ts == [] then (0, w)
    else
      var (r, w') := write(ts[0], w);
      if r == -1 then (-1, w') else WriteAll(ts[1..], w', write)
  }

  function Each(v: string, f: char -> string): seq<string> {
    seq(|v|, i requires 0 <= i < |v| => f(v[i]))
  }

  /** tp_htmlescape, tp_urlescape and tp_writes. */
  function Show<W>(mode: Mode, v: string, w: W, write: (string, W) -> (int, W)): (int, W) {
    match mode
    case Escape => WriteAll(Each(v, E.HtmlChar), w, write)
    case UrlEscape => WriteAll(Each(v, E.UrlChar), w, write)
    case Unsafe => write(v, w)
  }

  function Library<W>(c: Parts<W>): Interp<W> {
    Interp(c.value, c.test, c.more, c.init, c.step, c.code, c.write,
           (mode: Mode, v: string, w: W) => Show(mode, v, w, c.write), c.call)
  }

  /** What a function's text does: read as C, then run with the library. */
  function RunText<W>(fuel: nat, text: string, w: W, c: Parts<W>): Returned<W> {
    match ReadFunction(text)
    case None => IsUndefined
    case Some(f) => RunFunction(fuel, f.body, f.finally, w, Library(c))
  }

  /**
   * For every template with neat C parts, every run and every meaning of these
   * parts: its text, run as C, does what the template means once its raw texts
   * are spelled as their literals spell them.
   */
  lemma {:induction false} TextExact<W>(fuel: nat, signature: string, d: Define, w: W, c: Parts<W>)
    requires '\n' !in signature && AllReadable(Emit(d.body)) && OneLiners(d.finally)
    ensures RunText(fuel, FunctionText(signature, d), w, c) == Called(fuel, d, w, Library(c), Spelled)
  {
    FunctionRead(signature, d);
    CompilerExact(fuel, d, w, Library(c));
  }

  /** And what the template means, if its raw texts have no backslash and no newline. */
  lemma {:induction false} TextPreserves<W>(fuel: nat, signature: string, d: Define, w: W, c: Parts<W>)
    requires '\n' !in signature && AllReadable(Emit(d.body)) && OneLiners(d.finally) && PlainBody(d.body)
    ensures RunText(fuel, FunctionText(signature, d), w, c) == Direct(fuel, d, w, Library(c))
  {
    FunctionRead(signature, d);
    CompilerPreserves(fuel, d, w, Library(c));
  }

  // ---------------------------------------------------------------- what is written

  lemma {:induction false} EachCons(v: string, f: char -> string)
    requires v != ""
    ensures Each(v, f) == [f(v[0])] + Each(v[1..], f)
  {
  }

  lemma {:induction false} EachHtml(v: string)
    ensures Concat(Each(v, E.HtmlChar)) == E.HtmlEscape(v)
  {
    if v != "" {
      EachCons(v, E.HtmlChar);
      EachHtml(v[1..]);
      ConcatCons(E.HtmlChar(v[0]), Each(v[1..], E.HtmlChar));
    }
  }

  lemma {:induction false} EachUrl(v: string)
    ensures Concat(Each(v, E.UrlChar)) == E.UrlEscape(v)
  {
    if v != "" {
      EachCons(v, E.UrlChar);
      EachUrl(v[1..]);
      ConcatCons(E.UrlChar(v[0]), Each(v[1..], E.UrlChar));
    }
  }

  /** The text an expression of value `v` adds to the output. */
  function ShownText(mode: Mode, v: string): string {
    match mode
    case Escape => E.HtmlEscape(v)
    case UrlEscape => E.UrlEscape(v)
    case Unsafe => v
  }

  /** An output that takes everything. */
  function Append(t: string, out: string): (int, string) { (0, out + t) }

  lemma {:induction false} AllAppended(ts: seq<string>, out: string)
    ensures WriteAll(ts, out, Append) == (0, out + Concat(ts))
    decreases |ts|
  {
    if ts == [] {
      assert out + [] == out;
    } else {
      AllAppended(ts[1..], out + ts[0]);
      Assoc(out, ts[0], Concat(ts[1..]));
    }
  }

  lemma {:induction false} ShowAppends(mode: Mode, v: string, out: string)
    ensures Show(mode, v, out, Append) == (0, out + ShownText(mode, v))
  {
    match mode
    case Escape =>
      AllAppended(Each(v, E.HtmlChar), out);
      EachHtml(v);
    case UrlEscape =>
      AllAppended(Each(v, E.UrlChar), out);
      EachUrl(v);
    case Unsafe =>
  }

  lemma {:induction false} PrintCalled<W>(fuel: nat, mode: Mode, expr: string, w: W, m: Interp<W>)
    ensures var (r, w') := m.show(mode, m.value(expr, w), w);
            Called(fuel, Define(Cons(Print(mode, expr), Nil), []), w, m, Spelled) ==
            Returned(w', if r == -1 then -1 else r)
  {
    var b := Cons(Print(mode, expr), Nil);
    var o := MeaningOne(fuel, Print(mode, expr), w, 0, m, Spelled);
    assert Meaning(fuel, b, w, 0, m, Spelled) == o;
  }

  lemma PrintEmits(mode: Mode, expr: string)
    ensures Emit(Cons(Print(mode, expr), Nil)) == [WriteExpr(mode, expr)]
  {
  }

  /** The text of a template that prints one expression of value v adds HtmlEscape(v), UrlEscape(v) or v. */
  lemma {:induction false} PrintWrites(
      fuel: nat, signature: string, mode: Mode, expr: string, out: string, c: Parts<string>)
    requires '\n' !in signature && Argument(expr) && c.write == Append
    ensures RunText(fuel, FunctionText(signature, Define(Cons(Print(mode, expr), Nil), [])), out, c) ==
            Returned(out + ShownText(mode, c.value(expr, out)), 0)
  {
    var d := Define(Cons(Print(mode, expr), Nil), []);
    PrintEmits(mode, expr);
    TextExact(fuel, signature, d, out, c);
    PrintCalled(fuel, mode, expr, out, Library(c));
    ShowAppends(mode, c.value(expr, out), out);
  }
}
