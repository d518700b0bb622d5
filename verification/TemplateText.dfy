/**
 * The C text of the printed lines: its braces outside string and character
 * literals are those of the lines, so the text of a template is balanced.
 */
module TemplateText {
  import opened Common
  import opened CLiteral
  import opened TemplateCompiler

  // -------------------------------------------------------------------- the text

  function WriterOf(mode: Mode): string {
    match mode
    case Escape => "tp_htmlescape"
    case UrlEscape => "tp_urlescape"
    case Unsafe => "tp_writes"
  }

  const WRITE := "if ((tp_ret = tp_write(tp, "
  const WRITE_END := ")) == -1) goto err;\n"
  const CALL := "if ((tp_ret = "
  const CALL_END := ") == -1) goto err;\n"
  const EXPR_END := ")) == -1)\ngoto err;\n"

  /** A loop up to its brace. */
  function HeaderText(h: Header): string {
    match h
    case For(inner) => "for (" + (inner + ")")
    case While(inner) => "while (" + (inner + ")")
    case Foreach(item, head, field) => "TAILQ_FOREACH(" + (item + (", " + (head + (", " + (field + ")")))))
  }

  /** What the grammar's actions print. */
  function LineText(l: Line): string {
    match l
    case WriteLiteral(literal, len) =>
      WRITE + (literal + (", " + (Digits(len) + WRITE_END)))
    case WriteExpr(mode, expr) =>
      CALL + (WriterOf(mode) + ("(tp, " + (expr + EXPR_END)))
    case CallLine(call) => CALL + (call + CALL_END)
    case CodeLine(code) => code + "\n"
    case IfLine(cond) => "if (" + (cond + ") {\n")
    case ElseIfLine(cond) => "} else if (" + (cond + ") {\n")
    case ElseLine => "} else {\n"
    case LoopLine(header) => HeaderText(header) + " {\n"
    case CloseLine => "}\n"
  }

  function Text(ls: seq<Line>): string {
    FlatMap(ls, LineText)
  }

  // ------------------------------------------------------------- braces in C text

  /** Outside literals, in one that `q` ends, or after a backslash in one. */
  datatype Place = Code | Inside(q: char) | Escaped(q: char)

  datatype At = At(place: Place, depth: nat)

  /** One character; None where a brace closes that was never opened or a literal runs past its line. */
  function Step(s: At, c: char): Option<At> {
    match s.place
    case Code =>
      if c == '"' || c == '\'' then Some(s.(place := Inside(c)))
      else if c == '{' then Some(s.(depth := s.depth + 1))
      else if c == '}' then (if s.depth == 0 then None else Some(s.(depth := s.depth - 1)))
      else Some(s)
    case Inside(q) =>
      if c == '\n' then None
      else if c == q then Some(s.(place := Code))
      else if c == '\\' then Some(s.(place := Escaped(q)))
      else Some(s)
    case Escaped(q) => Some(s.(place := Inside(q)))
  }

  function Scan(s: At, t: string): Option<At>
    decreases |t|
  {
    if t == "" then Some(s)
    else
      match Step(s, t[0])
      case None => None
      case Some(s') => Scan(s', t[1..])
  }

  lemma {:induction false} ScanAppend(s: At, a: string, b: string)
    ensures Scan(s, a + b) == match Scan(s, a) case None => None case Some(s') => Scan(s', b)
    decreases |a|
  {
    if a == "" {
      assert a + b == b;
    } else {
      assert (a + b)[0] == a[0] && (a + b)[1..] == a[1..] + b;
      if Step(s, a[0]).Some? { ScanAppend(Step(s, a[0]).value, a[1..], b); }
    }
  }

  /** More braces open outside change nothing inside. */
  lemma {:induction false} ScanShift(s: At, t: string, k: nat)
    requires Scan(s, t).Some?
    ensures Scan(s.(depth := s.depth + k), t) == Some(Scan(s, t).value.(depth := Scan(s, t).value.depth + k))
    decreases |t|
  {
    if t != "" { ScanShift(Step(s, t[0]).value, t[1..], k); }
  }

  /** Text that closes its literals and braces, and closes no brace it did not open. */
  predicate Neat(t: string) {
    Scan(At(Code, 0), t) == Some(At(Code, 0))
  }

  lemma {:induction false} NeatScan(t: string, depth: nat)
    requires Neat(t)
    ensures Scan(At(Code, depth), t) == Some(At(Code, depth))
  {
    ScanShift(At(Code, 0), t, depth);
  }

  lemma {:induction false} NeatAppend(a: string, b: string)
    requires Neat(a) && Neat(b)
    ensures Neat(a + b)
  {
    ScanAppend(At(Code, 0), a, b);
  }

  // --------------------------------------------------------------- what is printed

  predicate Quiet(c: char) { c != '"' && c != '\'' && c != '{' && c != '}' }

  predicate AllQuiet(t: string) { forall c :: c in t ==> Quiet(c) }

  lemma {:induction false} QuietNeat(t: string)
    requires AllQuiet(t)
    ensures Neat(t)
    decreases |t|
  {
    if t != "" {
      assert t[0] in t;
      QuietNeat(t[1..]);
    }
  }

  lemma {:induction false} DigitsNeat(n: nat)
    ensures Neat(Digits(n))
  {
    var digit := [('0' as int + n % 10) as char];
    QuietNeat(digit);
    if n >= 10 {
      DigitsNeat(n / 10);
      NeatAppend(Digits(n / 10), digit);
    } else {
      assert "" + digit == digit;
    }
  }

  /** Inside a literal, characters other than quote, backslash and newline change nothing. */
  lemma {:induction false} InsideRun(t: string, k: nat, depth: nat)
    requires k <= |t| && forall c :: c in t[..k] ==> c != '"' && c != '\\' && c != '\n'
    ensures Scan(At(Inside('"'), depth), t) == Scan(At(Inside('"'), depth), t[k..])
    decreases k
  {
    if k == 0 {
      assert t[0..] == t;
    } else {
      assert t[0] in t[..k];
      assert t[1..][..k - 1] == t[1..k] && t[1..][k - 1..] == t[k..];
      assert forall c :: c in t[1..k] ==> c in t[..k];
      InsideRun(t[1..], k - 1, depth);
    }
  }

  /** After a backslash, an escape sequence is passed over whole. */
  lemma {:induction false} EscapeScan(t: string, depth: nat)
    requires t != "" && EscapeAt(t).Some?
    ensures Scan(At(Escaped('"'), depth), t) == Scan(At(Inside('"'), depth), t[EscapeAt(t).value.1..])
  {
    var n := EscapeAt(t).value.1;
    var rest := t[1..];
    assert rest[n - 1..] == t[n..];
    if IsOctal(t[0]) {
      assert forall c :: c in rest[..n - 1] ==> c in t[..n];
      InsideRun(rest, n - 1, depth);
    } else if t[0] == 'x' {
      InsideRun(rest, n - 1, depth);
    }
  }

  /** A literal that C reads ends where it is read to end. */
  lemma {:induction false} DecodedScan(t: string, depth: nat)
    requires Decoded(t).Some?
    ensures Scan(At(Inside('"'), depth), t) == Some(At(Code, depth))
    decreases |t|
  {
    if t[0] == '"' {
      assert t[1..] == "";
    } else if t[0] == '\\' {
      var n := EscapeAt(t[1..]).value.1;
      assert t[1..][n..] == t[1 + n..];
      EscapeScan(t[1..], depth);
      DecodedScan(t[1 + n..], depth);
    } else {
      DecodedScan(t[1..], depth);
    }
  }

  lemma {:induction false} LiteralNeat(literal: string)
    requires Decode(literal).Some?
    ensures Neat(literal)
  {
    DecodedScan(literal[1..], 0);
  }

  /** Lines whose C parts are neat and whose literals C can read. */
  predicate NeatLine(l: Line) {
    match l
    case WriteLiteral(literal, _) => Decode(literal).Some?
    case WriteExpr(_, expr) => Neat(expr)
    case CallLine(call) => Neat(call)
    case CodeLine(code) => Neat(code)
    case IfLine(cond) => Neat(cond)
    case ElseIfLine(cond) => Neat(cond)
    case LoopLine(header) => Neat(HeaderText(header))
    case _ => true
  }

  function Lift(d: Option<nat>): Option<At> {
    match d
    case None => None
    case Some(depth) => Some(At(Code, depth))
  }

  lemma {:induction false} NeatBetween(a: string, e: string, b: string)
    requires AllQuiet(a) && Neat(e) && AllQuiet(b)
    ensures Neat(a + (e + b))
  {
    QuietNeat(a);
    QuietNeat(b);
    NeatAppend(e, b);
    NeatAppend(a, e + b);
  }

  lemma {:induction false} NeatAfter(a: string, e: string)
    requires AllQuiet(a) && Neat(e)
    ensures Neat(a + e)
  {
    QuietNeat(a);
    NeatAppend(a, e);
  }

  /** Two neat texts between three quiet ones. */
  lemma {:induction false} NeatTwo(a: string, x: string, b: string, y: string, c: string)
    requires AllQuiet(a) && Neat(x) && AllQuiet(b) && Neat(y) && AllQuiet(c)
    ensures Neat(a + (x + (b + (y + c))))
  {
    NeatBetween(b, y, c);
    NeatAppend(x, b + (y + c));
    NeatAfter(a, x + (b + (y + c)));
  }

  lemma FixedQuiet()
    ensures AllQuiet(WRITE) && AllQuiet(WRITE_END) && AllQuiet(CALL) && AllQuiet(CALL_END) && AllQuiet(EXPR_END)
  {
  }

  lemma PartsQuiet(mode: Mode)
    ensures AllQuiet(WriterOf(mode)) && AllQuiet(", ") && AllQuiet("(tp, ")
  {
  }

  lemma {:induction false} LiteralLineNeat(literal: string, len: nat)
    requires Decode(literal).Some?
    ensures Neat(LineText(WriteLiteral(literal, len)))
  {
    FixedQuiet();
    PartsQuiet(Unsafe);
    LiteralNeat(literal);
    DigitsNeat(len);
    NeatTwo(WRITE, literal, ", ", Digits(len), WRITE_END);
  }

  lemma {:induction false} ExprLineNeat(mode: Mode, expr: string)
    requires Neat(expr)
    ensures Neat(LineText(WriteExpr(mode, expr)))
  {
    FixedQuiet();
    PartsQuiet(mode);
    QuietNeat(WriterOf(mode));
    NeatTwo(CALL, WriterOf(mode), "(tp, ", expr, EXPR_END);
  }

  lemma {:induction false} CallLineNeat(call: string)
    requires Neat(call)
    ensures Neat(LineText(CallLine(call)))
  {
    FixedQuiet();
    NeatBetween(CALL, call, CALL_END);
  }

  lemma {:induction false} CodeLineNeat(code: string)
    requires Neat(code)
    ensures Neat(LineText(CodeLine(code)))
  {
    QuietNeat("\n");
    NeatAppend(code, "\n");
  }

  lemma {:induction false} ScanFirst(s: At, c: char, t: string)
    ensures Scan(s, [c] + t) == match Step(s, c) case None => None case Some(s') => Scan(s', t)
  {
    assert ([c] + t)[1..] == t;
  }

  lemma {:induction false} OpenScan(depth: nat)
    ensures Scan(At(Code, depth), " {\n") == Some(At(Code, depth + 1))
  {
    assert " {\n" == [' '] + (['{'] + ['\n']);
    ScanFirst(At(Code, depth), ' ', ['{'] + ['\n']);
    ScanFirst(At(Code, depth), '{', ['\n']);
    QuietNeat(['\n']);
    NeatScan(['\n'], depth + 1);
  }

  /** Text that opens a block: neat up to the brace. */
  lemma {:induction false} OpensScan(head: string, depth: nat)
    requires Neat(head)
    ensures Scan(At(Code, depth), head + " {\n") == Some(At(Code, depth + 1))
  {
    ScanAppend(At(Code, depth), head, " {\n");
    NeatScan(head, depth);
    OpenScan(depth);
  }

  lemma {:induction false} CloseFirst(depth: nat, t: string)
    ensures Scan(At(Code, depth), "}" + t) == if depth == 0 then None else Scan(At(Code, depth - 1), t)
  {
    ScanFirst(At(Code, depth), '}', t);
  }

  lemma {:induction false} OpenLineScan(l: Line, depth: nat)
    requires NeatLine(l) && (l.IfLine? || l.LoopLine?)
    ensures Scan(At(Code, depth), LineText(l)) == Some(At(Code, depth + 1))
  {
    match l
    case IfLine(cond) =>
      NeatBetween("if (", cond, ")");
      OpensScan("if (" + (cond + ")"), depth);
      assert LineText(l) == ("if (" + (cond + ")")) + " {\n";
    case LoopLine(header) => OpensScan(HeaderText(header), depth);
  }

  lemma {:induction false} MiddleLineScan(l: Line, depth: nat)
    requires NeatLine(l) && (l.ElseIfLine? || l.ElseLine?)
    ensures Scan(At(Code, depth), LineText(l)) == if depth == 0 then None else Some(At(Code, depth))
  {
    var head := if l.ElseLine? then " else" else " else if (" + (l.cond + ")");
    if l.ElseLine? { QuietNeat(" else"); } else { NeatBetween(" else if (", l.cond, ")"); }
    assert LineText(l) == "}" + (head + " {\n");
    CloseFirst(depth, head + " {\n");
    if depth > 0 { OpensScan(head, depth - 1); }
  }

  /** Of every line the text moves the depth as the line does. */
  lemma {:induction false} LineScan(l: Line, depth: nat)
    requires NeatLine(l)
    ensures Scan(At(Code, depth), LineText(l)) == Lift(Braces(depth, [l]))
  {
    BracesOne(depth, l);
    match l
    case IfLine(_) => OpenLineScan(l, depth);
    case LoopLine(_) => OpenLineScan(l, depth);
    case ElseIfLine(_) => MiddleLineScan(l, depth);
    case ElseLine => MiddleLineScan(l, depth);
    case CloseLine =>
      assert "}\n" == "}" + "\n";
      CloseFirst(depth, "\n");
      QuietNeat("\n");
      if depth > 0 { NeatScan("\n", depth - 1); }
    case WriteLiteral(literal, len) =>
      LiteralLineNeat(literal, len);
      NeatScan(LineText(l), depth);
    case WriteExpr(mode, expr) =>
      ExprLineNeat(mode, expr);
      NeatScan(LineText(l), depth);
    case CallLine(call) =>
      CallLineNeat(call);
      NeatScan(LineText(l), depth);
    case CodeLine(code) =>
      CodeLineNeat(code);
      NeatScan(LineText(l), depth);
  }

  /** The braces of the text are those of the lines. */
  lemma {:induction false} TextScan(ls: seq<Line>, depth: nat)
    requires forall l :: l in ls ==> NeatLine(l)
    ensures Scan(At(Code, depth), Text(ls)) == Lift(Braces(depth, ls))
    decreases |ls|
  {
    if ls != [] {
      var l, rest := ls[0], ls[1..];
      assert ls == [l] + rest;
      LineScan(l, depth);
      BracesAppend(depth, [l], rest);
      ScanAppend(At(Code, depth), LineText(l), Text(rest));
      match Braces(depth, [l])
      case Some(d) => TextScan(rest, d);
      case None =>
    }
  }

  // -------------------------------------------------------------------- templates

  /** Raw text is one neat literal if it is plain, with braces and quotes in it or not. */
  lemma {:induction false} RawNeat(text: string)
    requires PlainText(text)
    ensures NeatLine(WriteLiteral(Printq(text), |text|))
  {
    PrintqExact(text);
  }

  /** The C text of a template is balanced if its C parts are and C can read its literals. */
  lemma {:induction false} TextBalanced(b: TemplateCompiler.Body, depth: nat)
    requires forall l :: l in Emit(b) ==> NeatLine(l)
    ensures Scan(At(Code, depth), Text(Emit(b))) == Some(At(Code, depth))
  {
    TextScan(Emit(b), depth);
    Balanced(b, depth);
  }
}
