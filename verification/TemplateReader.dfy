/**
 * The printed text read as C: statements told apart by their first words, their
 * parentheses and their braces, calls by the name called and its arguments.
 * Reading the text of a template gives its lines back.
 */
module TemplateReader {
  import opened Common
  import opened CLiteral
  import opened TemplateCompiler
  import opened TemplateText

  // --------------------------------------------------------------- inside C text

  /** Where one character leads: the place, and the parentheses open; None if one closes that was never opened. */
  function Move(p: Place, d: nat, c: char): Option<(Place, nat)> {
    match p
    case Code =>
      if c == '"' || c == '\'' then Some((Inside(c), d))
      else if c == '(' then Some((Code, d + 1))
      else if c == ')' then (if d == 0 then None else Some((Code, d - 1)))
      else Some((Code, d))
    case Inside(q) => Some((if c == q then Code else if c == '\\' then Escaped(q) else p, d))
    case Escaped(q) => Some((Inside(q), d))
  }

  /** Where in C text `stop` is, outside literals and parentheses; None if a parenthesis closes before. */
  function Outside(s: string, p: Place, d: nat, stop: char): (r: Option<nat>)
    ensures r.Some? ==> r.value < |s| && s[r.value] == stop
    decreases |s|
  {
    if s == "" then None
    else if p == Code && d == 0 && s[0] == stop then Some(0)
    else
      match Move(p, d, s[0])
      case None => None
      case Some((p', d')) => Later(Outside(s[1..], p', d', stop), 1)
  }

  /** What stands before the parenthesis that closes, and what stands after it. */
  function Parens(s: string): Option<(string, string)> {
    match Outside(s, Code, 0, ')')
    case None => None
    case Some(k) => Some((s[..k], s[k + 1..]))
  }

  function Trim(s: string): string {
    if s != "" && s[0] == ' ' then s[1..] else s
  }

  /** The arguments of a call. */
  function Args(s: string): seq<string>
    decreases |s|
  {
    match Outside(s, Code, 0, ',')
    case None => [s]
    case Some(k) => [s[..k]] + Args(Trim(s[k + 1..]))
  }

  predicate AllDigits(s: string) {
    forall i :: 0 <= i < |s| ==> '0' <= s[i] <= '9'
  }

  function Value(s: string): nat
    requires AllDigits(s)
  {
    if s == "" then 0 else 10 * Value(s[..|s| - 1]) + (s[|s| - 1] as int - '0' as int)
  }

  /** A decimal number. */
  function Number(s: string): Option<nat> {
    if s != "" && AllDigits(s) then Some(Value(s)) else None
  }

  /** What follows a prefix. */
  function After(s: string, p: string): Option<string> {
    if |p| <= |s| && s[..|p|] == p then Some(s[|p|..]) else None
  }

  // ------------------------------------------------------------------ statements

  /** A call by its name and arguments: of one of the four writers, or of anything else. */
  function Named(call: string, name: string, args: seq<string>): Line {
    if |args| == 3 && args[0] == "tp" && name == "tp_write" && Number(args[2]).Some? then
      WriteLiteral(args[1], Number(args[2]).value)
    else if |args| == 2 && args[0] == "tp" && name == "tp_htmlescape" then WriteExpr(Escape, args[1])
    else if |args| == 2 && args[0] == "tp" && name == "tp_urlescape" then WriteExpr(UrlEscape, args[1])
    else if |args| == 2 && args[0] == "tp" && name == "tp_writes" then WriteExpr(Unsafe, args[1])
    else CallLine(call)
  }

  function CallOf(call: string): Line {
    match Outside(call, Code, 0, '(')
    case None => CallLine(call)
    case Some(k) =>
      match Parens(call[k + 1..])
      case Some((args, "")) => Named(call, call[..k], Args(args))
      case _ => CallLine(call)
  }

  /** The condition of a jump to the label: a call assigned to tp_ret and compared with -1. */
  function Guarded(cond: string): Option<Line> {
    match After(cond, "(tp_ret = ")
    case None => None
    case Some(rest) =>
      match Parens(rest)
      case Some((call, " == -1")) => Some(CallOf(call))
      case _ => None
  }

  /** What follows the condition of an if: a block, or a jump on this line or the next. */
  datatype Then = Brace | Jump(lines: nat) | Nothing

  function ThenOf(rest: string, next: string): Then {
    if rest == " {" then Brace
    else if rest == " goto err;" then Jump(1)
    else if rest == "" && next == "goto err;" then Jump(2)
    else Nothing
  }

  function ReadIf(p: string, inside: string, next: string): (r: (Line, nat))
    ensures 1 <= r.1 <= 2
  {
    match Parens(inside)
    case None => (CodeLine(p), 1)
    case Some((cond, rest)) =>
      match ThenOf(rest, next)
      case Brace => (IfLine(cond), 1)
      case Jump(n) =>
        (match Guarded(cond) case Some(l) => (l, if n == 2 then 2 else 1) case None => (CodeLine(p), 1))
      case Nothing => (CodeLine(p), 1)
  }

  /** A block with something in parentheses before its brace. */
  function ReadBlock(p: string, inside: string, f: string -> Option<Line>): Line {
    match Parens(inside)
    case Some((inner, " {")) => (match f(inner) case Some(l) => l case None => CodeLine(p))
    case _ => CodeLine(p)
  }

  function ForeachOf(inner: string): Option<Line> {
    var args := Args(inner);
    if |args| == 3 then Some(LoopLine(Foreach(args[0], args[1], args[2]))) else None
  }

  /** The statement that starts on a line, and on how many lines it is. */
  function ReadOne(p: string, next: string): (r: (Line, nat))
    ensures 1 <= r.1 <= 2
  {
    if p == "}" then (CloseLine, 1)
    else if p == "} else {" then (ElseLine, 1)
    else if After(p, "} else if (").Some? then
      (ReadBlock(p, After(p, "} else if (").value, s => Some(ElseIfLine(s))), 1)
    else if After(p, "if (").Some? then ReadIf(p, After(p, "if (").value, next)
    else if After(p, "for (").Some? then (ReadBlock(p, After(p, "for (").value, s => Some(LoopLine(For(s)))), 1)
    else if After(p, "while (").Some? then (ReadBlock(p, After(p, "while (").value, s => Some(LoopLine(While(s)))), 1)
    else if After(p, "TAILQ_FOREACH(").Some? then (ReadBlock(p, After(p, "TAILQ_FOREACH(").value, ForeachOf), 1)
    else (CodeLine(p), 1)
  }

  function Next(ps: seq<string>): string {
    if |ps| > 1 then ps[1] else ""
  }

  function Read(ps: seq<string>): seq<Line>
    decreases |ps|
  {
    if ps == [] then []
    else
      var (l, n) := ReadOne(ps[0], Next(ps));
      [l] + if n <= |ps| then Read(ps[n..]) else []
  }

  /** The lines of a text. */
  function Cut(s: string): seq<string>
    decreases |s|
  {
    if s == "" then []
    else
      var i := IndexOf(s, '\n');
      if i == |s| then [s] else [s[..i]] + Cut(s[i + 1..])
  }

  // ------------------------------------------------------------------- neat C parts

  /** Where a text leads. */
  function Leads(s: string, p: Place, d: nat): Option<(Place, nat)>
    decreases |s|
  {
    if s == "" then Some((p, d))
    else match Move(p, d, s[0]) case None => None case Some((p', d')) => Leads(s[1..], p', d')
  }

  /** Text on one line that closes its literals and parentheses. */
  predicate Closed(s: string) {
    '\n' !in s && Leads(s, Code, 0) == Some((Code, 0))
  }

  /** Such text without a comma of its own: one argument of a call. */
  predicate Argument(s: string) {
    Closed(s) && Outside(s, Code, 0, ',').None?
  }

  /** C code that is none of the statements the reader knows, and not the label. */
  ghost predicate Straight(code: string) {
    '\n' !in code && code != "err:" && forall next :: ReadOne(code, next) == (CodeLine(code), 1)
  }

  predicate ReadableHeader(h: Header) {
    match h
    case For(inner) => Closed(inner)
    case While(inner) => Closed(inner)
    case Foreach(item, head, field) => Argument(item) && Argument(head) && Argument(field)
  }

  ghost predicate Readable(l: Line) {
    match l
    case WriteLiteral(literal, _) => Decode(literal).Some?
    case WriteExpr(_, expr) => Argument(expr)
    case CallLine(call) => Closed(call) && CallOf(call) == l
    case CodeLine(code) => Straight(code)
    case IfLine(cond) => Closed(cond)
    case ElseIfLine(cond) => Closed(cond)
    case LoopLine(header) => ReadableHeader(header)
    case _ => true
  }

  // ---------------------------------------------------------------- reading text back

  lemma {:induction false} LeadsAppend(a: string, b: string, p: Place, d: nat)
    ensures Leads(a + b, p, d) == match Leads(a, p, d) case None => None case Some((p', d')) => Leads(b, p', d')
    decreases |a|
  {
    if a == "" {
      assert a + b == b;
    } else {
      assert (a + b)[0] == a[0] && (a + b)[1..] == a[1..] + b;
      var m := Move(p, d, a[0]);
      if m.Some? { LeadsAppend(a[1..], b, m.value.0, m.value.1); }
    }
  }

  /** More parentheses open around it change nothing inside. */
  lemma {:induction false} LeadsDeeper(s: string, p: Place, d: nat)
    requires Leads(s, p, d).Some?
    ensures Leads(s, p, d + 1) == Some((Leads(s, p, d).value.0, Leads(s, p, d).value.1 + 1))
    decreases |s|
  {
    if s != "" {
      var m := Move(p, d, s[0]).value;
      LeadsDeeper(s[1..], m.0, m.1);
    }
  }

  /** Text without the mark is passed over. */
  lemma {:induction false} Skip(e: string, t: string, p: Place, d: nat, stop: char)
    requires Leads(e, p, d).Some? && Outside(e, p, d, stop).None?
    ensures var (p', d') := Leads(e, p, d).value;
            Outside(e + t, p, d, stop) == Later(Outside(t, p', d', stop), |e|)
    decreases |e|
  {
    if e == "" {
      assert e + t == t;
    } else {
      var c, rest := e[0], e[1..];
      var m := Move(p, d, c).value;
      Skip(rest, t, m.0, m.1, stop);
      assert e + t == [c] + (rest + t);
      assert ([c] + (rest + t))[1..] == rest + t;
    }
  }

  /** Text that leads somewhere closes no parenthesis but its own. */
  lemma {:induction false} ClosesNone(e: string, p: Place, d: nat)
    requires Leads(e, p, d).Some?
    ensures Outside(e, p, d, ')').None?
    decreases |e|
  {
    if e != "" {
      var m := Move(p, d, e[0]).value;
      ClosesNone(e[1..], m.0, m.1);
    }
  }

  lemma {:induction false} ParensOf(e: string, t: string)
    requires Closed(e)
    ensures Parens(e + (")" + t)) == Some((e, t))
  {
    var s := e + (")" + t);
    ClosesNone(e, Code, 0);
    Skip(e, ")" + t, Code, 0, ')');
    assert Outside(")" + t, Code, 0, ')') == Some(0);
    assert s[..|e|] == e && s[|e| + 1..] == t;
  }

  lemma {:induction false} ClosedAppend(a: string, b: string)
    requires Closed(a) && Closed(b)
    ensures Closed(a + b)
  {
    LeadsAppend(a, b, Code, 0);
  }

  lemma {:induction false} ClosedWithin(e: string)
    requires Closed(e)
    ensures Closed("(" + (e + ")"))
  {
    var s := "(" + (e + ")");
    assert s[1..] == e + ")";
    LeadsDeeper(e, Code, 0);
    LeadsAppend(e, ")", Code, 1);
    assert ")"[1..] == "";
  }

  predicate WordChar(c: char) {
    c != '"' && c != '\'' && c != '(' && c != ')' && c != ',' && c != '\n'
  }

  /** Neither quotes, parentheses, commas nor newlines. */
  predicate Word(s: string) {
    forall c :: c in s ==> WordChar(c)
  }

  lemma {:induction false} WordLeads(s: string, d: nat)
    requires Word(s)
    ensures Leads(s, Code, d) == Some((Code, d))
    ensures Outside(s, Code, d, ',').None? && Outside(s, Code, d, '(').None?
  {
    if s != "" {
      assert s[0] in s;
      WordLeads(s[1..], d);
    }
  }

  lemma {:induction false} WordArgument(s: string)
    requires Word(s)
    ensures Argument(s)
  {
    WordLeads(s, 0);
  }

  lemma {:induction false} ArgsOne(e: string)
    requires Argument(e)
    ensures Args(e) == [e]
  {
  }

  lemma {:induction false} CommaAfter(e: string, t: string)
    requires Argument(e)
    ensures Outside(e + (", " + t), Code, 0, ',') == Some(|e|)
  {
    Skip(e, ", " + t, Code, 0, ',');
    assert Outside(", " + t, Code, 0, ',') == Some(0);
  }

  lemma CommaParts(e: string, t: string)
    ensures var s := e + (", " + t); s[..|e|] == e && Trim(s[|e| + 1..]) == t
  {
    var s := e + (", " + t);
    assert s[|e| + 1..] == " " + t;
    assert (" " + t)[1..] == t;
  }

  lemma {:induction false} ArgsMore(e: string, t: string)
    requires Argument(e)
    ensures Args(e + (", " + t)) == [e] + Args(t)
  {
    CommaAfter(e, t);
    CommaParts(e, t);
  }

  // ------------------------------------------------------------ numbers and literals

  lemma {:induction false} ValueAppend(s: string, c: char)
    requires AllDigits(s) && '0' <= c <= '9'
    ensures AllDigits(s + [c]) && Value(s + [c]) == 10 * Value(s) + (c as int - '0' as int)
  {
    var t := s + [c];
    assert t[..|t| - 1] == s && t[|t| - 1] == c;
  }

  lemma {:induction false} ValueDigits(n: nat)
    ensures AllDigits(Digits(n)) && Value(Digits(n)) == n
  {
    var c := ('0' as int + n % 10) as char;
    if n >= 10 {
      ValueDigits(n / 10);
      ValueAppend(Digits(n / 10), c);
    } else {
      ValueAppend("", c);
    }
  }

  lemma {:induction false} DigitsWord(n: nat)
    ensures Number(Digits(n)) == Some(n) && Argument(Digits(n))
  {
    ValueDigits(n);
    assert Word(Digits(n));
    WordArgument(Digits(n));
  }

  /** The rest of a literal from where it is: it closes, and there is no comma outside it and no newline. */
  ghost predicate Literally(t: string, p: Place) {
    Leads(t, p, 0) == Some((Code, 0)) && Outside(t, p, 0, ',').None? && '\n' !in t
  }

  lemma {:induction false} InsideSkip(t: string, k: nat)
    requires k <= |t| && (forall c :: c in t[..k] ==> c != '"' && c != '\\' && c != '\n')
    requires Literally(t[k..], Inside('"'))
    ensures Literally(t, Inside('"'))
    decreases k
  {
    if k == 0 {
      assert t[0..] == t;
    } else {
      assert t[0] in t[..k];
      assert t[1..][..k - 1] == t[1..k] && t[1..][k - 1..] == t[k..];
      assert forall c :: c in t[1..k] ==> c in t[..k];
      InsideSkip(t[1..], k - 1);
      assert t == [t[0]] + t[1..];
    }
  }

  lemma {:induction false} EscapeSkip(t: string)
    requires t != "" && EscapeAt(t).Some? && Literally(t[EscapeAt(t).value.1..], Inside('"'))
    ensures Literally(t, Escaped('"'))
  {
    var n := EscapeAt(t).value.1;
    var rest := t[1..];
    assert rest[n - 1..] == t[n..];
    if IsOctal(t[0]) { assert forall c :: c in rest[..n - 1] ==> c in t[..n]; }
    InsideSkip(rest, n - 1);
    assert t[0] != '\n' && t == [t[0]] + rest;
  }

  lemma {:induction false} DecodedLiterally(t: string)
    requires Decoded(t).Some?
    ensures Literally(t, Inside('"'))
    decreases |t|
  {
    if t[0] == '"' {
      assert t[1..] == "" && t == "\"";
    } else if t[0] == '\\' {
      var n := EscapeAt(t[1..]).value.1;
      assert t[1..][n..] == t[1 + n..];
      DecodedLiterally(t[1 + n..]);
      EscapeSkip(t[1..]);
      assert t == ['\\'] + t[1..];
    } else {
      DecodedLiterally(t[1..]);
      assert t == [t[0]] + t[1..];
    }
  }

  lemma {:induction false} LiteralArgument(literal: string)
    requires Decode(literal).Some?
    ensures Argument(literal)
  {
    DecodedLiterally(literal[1..]);
    assert literal == ['"'] + literal[1..];
  }

  // ------------------------------------------------------------------ the statements

  lemma AfterOf(p: string, t: string)
    ensures After(p + t, p) == Some(t)
  {
    assert (p + t)[..|p|] == p && (p + t)[|p|..] == t;
  }

  lemma AfterNot(s: string, p: string, i: nat)
    requires i < |p| && (i < |s| ==> s[i] != p[i])
    ensures After(s, p).None?
  {
    assert |p| <= |s| ==> s[..|p|][i] == s[i];
  }

  lemma {:induction false} NameBefore(name: string, rest: string)
    requires Word(name)
    ensures Outside(name + ("(" + rest), Code, 0, '(') == Some(|name|)
  {
    WordLeads(name, 0);
    Skip(name, "(" + rest, Code, 0, '(');
    assert Outside("(" + rest, Code, 0, '(') == Some(0);
  }

  lemma CallParts(name: string, args: string)
    ensures var call := name + ("(" + (args + ")")); call[..|name|] == name && call[|name| + 1..] == args + (")" + "")
  {
  }

  lemma {:induction false} CallClosed(name: string, args: string)
    requires Word(name) && Closed(args)
    ensures Closed(name + ("(" + (args + ")")))
  {
    WordArgument(name);
    ClosedWithin(args);
    ClosedAppend(name, "(" + (args + ")"));
  }

  /** A call, read by its name. */
  lemma {:induction false} CallRead(name: string, args: string)
    requires Word(name) && Closed(args)
    ensures var call := name + ("(" + (args + ")"));
            CallOf(call) == Named(call, name, Args(args)) && Closed(call)
  {
    NameBefore(name, args + ")");
    CallParts(name, args);
    ParensOf(args, "");
    CallClosed(name, args);
  }

  const CHECK := " == -1"
  const RET := "tp_ret = "

  lemma RetCheckWords()
    ensures Word(RET) && Word(CHECK)
  {
  }

  lemma RetSplit(rest: string)
    ensures ("(" + (RET + rest)) == "(tp_ret = " + rest
  {
  }

  function Cond(call: string): string {
    "(" + (RET + (call + (")" + CHECK)))
  }

  lemma {:induction false} AroundClosed(before: string, call: string, after: string)
    requires Word(before) && Closed(call) && Word(after)
    ensures Closed("(" + (before + (call + (")" + after))))
  {
    WordArgument(before);
    WordArgument(after);
    ClosedAppend(before, call);
    ClosedWithin(before + call);
    ClosedAppend("(" + ((before + call) + ")"), after);
    assert "(" + (before + (call + (")" + after))) == ("(" + ((before + call) + ")")) + after;
  }

  lemma {:induction false} CondGuards(call: string)
    requires Closed(call)
    ensures Guarded(Cond(call)) == Some(CallOf(call))
  {
    RetSplit(call + (")" + CHECK));
    AfterOf("(tp_ret = ", call + (")" + CHECK));
    ParensOf(call, CHECK);
  }

  /** The condition of a jump. */
  lemma {:induction false} CondRead(call: string)
    requires Closed(call)
    ensures Guarded(Cond(call)) == Some(CallOf(call)) && Closed(Cond(call))
  {
    RetCheckWords();
    AroundClosed(RET, call, CHECK);
    CondGuards(call);
  }

  lemma IfIsNoElse(t: string)
    ensures var p := "if (" + t; p != "}" && p != "} else {" && After(p, "} else if (").None?
  {
    var p := "if (" + t;
    assert p[0] == 'i';
    AfterNot(p, "} else if (", 0);
  }

  lemma {:induction false} IfStarts(inside: string, next: string)
    ensures ReadOne("if (" + inside, next) == ReadIf("if (" + inside, inside, next)
  {
    IfIsNoElse(inside);
    AfterOf("if (", inside);
  }

  /** A jump, on one line or on two. */
  lemma {:induction false} JumpRead(call: string, rest: string, next: string)
    requires Closed(call) && ThenOf(rest, next).Jump?
    ensures ReadOne("if (" + (Cond(call) + (")" + rest)), next) == (CallOf(call), if rest == "" then 2 else 1)
  {
    var inside := Cond(call) + (")" + rest);
    CondRead(call);
    IfStarts(inside, next);
    ParensOf(Cond(call), rest);
  }

  lemma {:induction false} IfRead(cond: string, next: string)
    requires Closed(cond)
    ensures ReadOne("if (" + (cond + (")" + " {")), next) == (IfLine(cond), 1)
  {
    IfStarts(cond + (")" + " {"), next);
    ParensOf(cond, " {");
  }

  lemma {:induction false} ElseIfRead(cond: string, next: string)
    requires Closed(cond)
    ensures ReadOne("} else if (" + (cond + (")" + " {")), next) == (ElseIfLine(cond), 1)
  {
    var inside := cond + (")" + " {");
    var p := "} else if (" + inside;
    assert p[7] == 'i' && |p| > 8;
    AfterOf("} else if (", inside);
    ParensOf(cond, " {");
  }

  lemma NoElse(p: string)
    requires p != "" && p[0] != '}'
    ensures p != "}" && p != "} else {" && After(p, "} else if (").None?
  {
    AfterNot(p, "} else if (", 0);
  }

  lemma {:induction false} ForRead(inner: string, next: string)
    requires Closed(inner)
    ensures ReadOne("for (" + (inner + (")" + " {")), next) == (LoopLine(For(inner)), 1)
  {
    var inside := inner + (")" + " {");
    var p := "for (" + inside;
    NoElse(p);
    AfterNot(p, "if (", 0);
    AfterOf("for (", inside);
    ParensOf(inner, " {");
  }

  lemma {:induction false} WhileRead(inner: string, next: string)
    requires Closed(inner)
    ensures ReadOne("while (" + (inner + (")" + " {")), next) == (LoopLine(While(inner)), 1)
  {
    var inside := inner + (")" + " {");
    var p := "while (" + inside;
    NoElse(p);
    AfterNot(p, "if (", 0);
    AfterNot(p, "for (", 0);
    AfterOf("while (", inside);
    ParensOf(inner, " {");
  }

  lemma {:induction false} ForeachStarts(inside: string, next: string)
    ensures var p := "TAILQ_FOREACH(" + inside;
            ReadOne(p, next) == (ReadBlock(p, inside, ForeachOf), 1)
  {
    var p := "TAILQ_FOREACH(" + inside;
    NoElse(p);
    AfterNot(p, "if (", 0);
    AfterNot(p, "for (", 0);
    AfterNot(p, "while (", 0);
    AfterOf("TAILQ_FOREACH(", inside);
  }

  lemma CommaClosed()
    ensures Closed(", ")
  {
    assert ", "[1..] == " " && " "[1..] == "";
  }

  lemma {:induction false} ThreeArgs(a: string, b: string, c: string)
    requires Argument(a) && Argument(b) && Argument(c)
    ensures var s := a + (", " + (b + (", " + c))); Args(s) == [a, b, c] && Closed(s)
  {
    ArgsMore(a, b + (", " + c));
    ArgsMore(b, c);
    ArgsOne(c);
    CommaClosed();
    ClosedAppend(", ", c);
    ClosedAppend(b, ", " + c);
    ClosedAppend(", ", b + (", " + c));
    ClosedAppend(a, ", " + (b + (", " + c)));
  }

  lemma {:induction false} TwoArgs(a: string, b: string)
    requires Argument(a) && Argument(b)
    ensures var s := a + (", " + b); Args(s) == [a, b] && Closed(s)
  {
    ArgsMore(a, b);
    ArgsOne(b);
    CommaClosed();
    ClosedAppend(", ", b);
    ClosedAppend(a, ", " + b);
  }

  lemma {:induction false} ForeachRead(a: string, b: string, c: string, next: string)
    requires Argument(a) && Argument(b) && Argument(c)
    ensures var inner := a + (", " + (b + (", " + c)));
            ReadOne("TAILQ_FOREACH(" + (inner + (")" + " {")), next) == (LoopLine(Foreach(a, b, c)), 1)
  {
    var inner := a + (", " + (b + (", " + c)));
    ThreeArgs(a, b, c);
    ForeachStarts(inner + (")" + " {"), next);
    ParensOf(inner, " {");
  }

  // -------------------------------------------------------------------- the writers

  /** A call of tp_write, and one of the other writers. */
  function WriteCall(literal: string, len: nat): string {
    "tp_write" + ("(" + (("tp" + (", " + (literal + (", " + Digits(len))))) + ")"))
  }

  function ShowCall(mode: Mode, expr: string): string {
    WriterOf(mode) + ("(" + (("tp" + (", " + expr)) + ")"))
  }

  lemma TpArgument()
    ensures Argument("tp") && Word("tp_write")
  {
    assert Word("tp");
    WordArgument("tp");
  }

  lemma WriterWord(mode: Mode)
    ensures Word(WriterOf(mode))
  {
  }

  lemma {:induction false} WriteCallRead(literal: string, len: nat)
    requires Decode(literal).Some?
    ensures Closed(WriteCall(literal, len)) && CallOf(WriteCall(literal, len)) == WriteLiteral(literal, len)
  {
    TpArgument();
    LiteralArgument(literal);
    DigitsWord(len);
    ThreeArgs("tp", literal, Digits(len));
    CallRead("tp_write", "tp" + (", " + (literal + (", " + Digits(len)))));
  }

  lemma WritersDiffer()
    ensures "tp_htmlescape" != "tp_urlescape" && "tp_htmlescape" != "tp_writes" && "tp_urlescape" != "tp_writes"
  {
    assert "tp_htmlescape"[3] == 'h' && "tp_urlescape"[3] == 'u' && "tp_writes"[3] == 'w';
  }

  lemma {:induction false} NamedShow(mode: Mode, expr: string, call: string)
    ensures Named(call, WriterOf(mode), ["tp", expr]) == WriteExpr(mode, expr)
  {
    WritersDiffer();
  }

  lemma {:induction false} ShowCallRead(mode: Mode, expr: string)
    requires Argument(expr)
    ensures Closed(ShowCall(mode, expr)) && CallOf(ShowCall(mode, expr)) == WriteExpr(mode, expr)
  {
    TpArgument();
    WriterWord(mode);
    TwoArgs("tp", expr);
    CallRead(WriterOf(mode), "tp" + (", " + expr));
    NamedShow(mode, expr, ShowCall(mode, expr));
  }

  // ------------------------------------------------------------------ lines of text

  lemma {:induction false} CutLine(a: string, t: string)
    requires '\n' !in a
    ensures Cut(a + ("\n" + t)) == [a] + Cut(t)
  {
    var s := a + ("\n" + t);
    FirstIndex(a, '\n', t);
    assert s[..|a|] == a && s[|a| + 1..] == t;
  }

  const GOTO := "goto err;"

  function HeadLine(h: Header): string {
    match h
    case For(inner) => "for (" + (inner + (")" + " {"))
    case While(inner) => "while (" + (inner + (")" + " {"))
    case Foreach(a, b, c) => "TAILQ_FOREACH(" + ((a + (", " + (b + (", " + c)))) + (")" + " {"))
  }

  /** The lines a printed line is on. */
  function Physical(l: Line): seq<string> {
    match l
    case WriteLiteral(literal, len) => ["if (" + (Cond(WriteCall(literal, len)) + (")" + " goto err;"))]
    case WriteExpr(mode, expr) => ["if (" + (Cond(ShowCall(mode, expr)) + (")" + ""))] + [GOTO]
    case CallLine(call) => ["if (" + (Cond(call) + (")" + " goto err;"))]
    case CodeLine(code) => [code]
    case IfLine(cond) => ["if (" + (cond + (")" + " {"))]
    case ElseIfLine(cond) => ["} else if (" + (cond + (")" + " {"))]
    case ElseLine => ["} else {"]
    case LoopLine(header) => [HeadLine(header)]
    case CloseLine => ["}"]
  }

  /** Reading a line gives it back, and goes on behind it. */
  lemma {:induction false} OneRead(l: Line, ps: seq<string>)
    requires Readable(l)
    ensures Read(Physical(l) + ps) == [l] + Read(ps)
  {
    var all := Physical(l) + ps;
    var next := Next(all);
    assert all[0] == Physical(l)[0] && all[|Physical(l)|..] == ps;
    match l
    case WriteLiteral(literal, len) =>
      WriteCallRead(literal, len);
      JumpRead(WriteCall(literal, len), " goto err;", next);
    case WriteExpr(mode, expr) =>
      ShowCallRead(mode, expr);
      JumpRead(ShowCall(mode, expr), "", next);
    case CallLine(call) => JumpRead(call, " goto err;", next);
    case CodeLine(code) =>
    case IfLine(cond) => IfRead(cond, next);
    case ElseIfLine(cond) => ElseIfRead(cond, next);
    case ElseLine =>
    case LoopLine(For(inner)) => ForRead(inner, next);
    case LoopLine(While(inner)) => WhileRead(inner, next);
    case LoopLine(Foreach(a, b, c)) => ForeachRead(a, b, c, next);
    case CloseLine =>
  }

  // ---------------------------------------------------------- the text is those lines

  lemma {:induction false} Flat(a: string, b: string, c: string, d: string, x: string, e: string)
    ensures a + (b + ((c + (x + d)) + e)) == (a + (b + c)) + (x + (d + e))
  {
    Assoc(c, x + d, e);
    Assoc(x, d, e);
    Assoc(b, c, x + (d + e));
    Assoc(a, b + c, x + (d + e));
  }

  /** A jump's text around its call. */
  lemma {:induction false} CondFlat(call: string, rest: string)
    ensures ("if (" + (Cond(call) + (")" + rest))) + "\n" ==
            ("if (" + ("(" + RET)) + (call + ((")" + CHECK) + (")" + (rest + "\n"))))
  {
    Assoc("if (", Cond(call) + (")" + rest), "\n");
    Assoc(Cond(call), ")" + rest, "\n");
    Assoc(")", rest, "\n");
    Assoc("(", RET, call + (")" + CHECK));
    Flat("if (", "", "(" + RET, ")" + CHECK, call, ")" + (rest + "\n"));
  }

  lemma CallStart()
    ensures "if (" + ("(" + RET) == CALL
  {
  }

  lemma CallEnds()
    ensures (")" + CHECK) + (")" + (" goto err;" + "\n")) == CALL_END
  {
  }

  lemma {:induction false} JumpText(call: string)
    ensures ("if (" + (Cond(call) + (")" + " goto err;"))) + "\n" == CALL + (call + CALL_END)
  {
    CondFlat(call, " goto err;");
    CallStart();
    CallEnds();
  }

  lemma WriteStart()
    ensures CALL + ("tp_write" + ("(" + ("tp" + ", "))) == WRITE
  {
  }

  lemma WriteEnds()
    ensures ")" + CALL_END == WRITE_END
  {
  }

  lemma {:induction false} WriteFlat(a: string, w: string, p: string, tp: string, x: string, y: string, e: string)
    ensures a + ((w + (p + ((tp + (", " + (x + (", " + y)))) + ")"))) + e) ==
            (a + (w + (p + (tp + ", ")))) + (x + (", " + (y + (")" + e))))
  {
    var z := x + (", " + y);
    Assoc(tp, ", ", z);
    Flat(a, w + p, tp + ", ", ")", z, e);
    Assoc(w, p, ((tp + ", ") + (z + ")")) + e);
    Assoc(w, p, tp + ", ");
    Assoc(tp + ", ", z, ")");
    assert (w + (p + ((tp + (", " + z)) + ")"))) + e == (w + p) + (((tp + ", ") + (z + ")")) + e);
    Assoc(x, ", " + y, ")" + e);
    Assoc(", ", y, ")" + e);
  }

  lemma {:induction false} WriteText(literal: string, len: nat)
    ensures ("if (" + (Cond(WriteCall(literal, len)) + (")" + " goto err;"))) + "\n" ==
            LineText(WriteLiteral(literal, len))
  {
    JumpText(WriteCall(literal, len));
    WriteFlat(CALL, "tp_write", "(", "tp", literal, Digits(len), CALL_END);
    WriteStart();
    WriteEnds();
  }

  lemma ShowStart()
    ensures "(" + ("tp" + ", ") == "(tp, "
  {
  }

  lemma ShowEnds()
    ensures ")" + (((")" + CHECK) + (")" + ("" + "\n"))) + (GOTO + "\n")) == EXPR_END
  {
  }

  lemma {:induction false} ShowFlat(a: string, w: string, p: string, tp: string, x: string, e: string)
    ensures a + ((w + (p + ((tp + (", " + x)) + ")"))) + e) == a + (w + ((p + (tp + ", ")) + (x + (")" + e))))
  {
    Assoc(tp, ", ", x);
    Assoc(w, p + ((tp + (", " + x)) + ")"), e);
    Assoc(p, (tp + (", " + x)) + ")", e);
    Assoc(tp + ", ", x, ")");
    Assoc(tp + ", ", x + ")", e);
    Assoc(x, ")", e);
    Assoc(p, tp + ", ", x + (")" + e));
  }

  lemma {:induction false} ShowText(mode: Mode, expr: string)
    ensures (("if (" + (Cond(ShowCall(mode, expr)) + (")" + ""))) + "\n") + (GOTO + "\n") ==
            LineText(WriteExpr(mode, expr))
  {
    var call, end := ShowCall(mode, expr), (")" + CHECK) + (")" + ("" + "\n"));
    CondFlat(call, "");
    CallStart();
    Assoc(CALL, call + end, GOTO + "\n");
    Assoc(call, end, GOTO + "\n");
    ShowFlat(CALL, WriterOf(mode), "(", "tp", expr, end + (GOTO + "\n"));
    ShowStart();
    ShowEnds();
  }

  lemma BraceText(head: string, inner: string)
    ensures (head + (inner + (")" + " {"))) + "\n" == head + (inner + ") {\n")
    ensures (head + (inner + (")" + " {"))) + "\n" == (head + (inner + ")")) + " {\n"
  {
  }

  lemma ForeachText(a: string, b: string, c: string)
    ensures "TAILQ_FOREACH(" + ((a + (", " + (b + (", " + c)))) + ")") == HeaderText(Foreach(a, b, c))
  {
  }

  lemma {:induction false} HeaderLine(h: Header)
    ensures HeadLine(h) + "\n" == LineText(LoopLine(h))
  {
    match h
    case For(inner) => BraceText("for (", inner);
    case While(inner) => BraceText("while (", inner);
    case Foreach(a, b, c) =>
      BraceText("TAILQ_FOREACH(", a + (", " + (b + (", " + c))));
      ForeachText(a, b, c);
  }

  /** All but the writers of expressions print one line. */
  lemma {:induction false} OneLineText(l: Line)
    requires !l.WriteExpr?
    ensures |Physical(l)| == 1 && Physical(l)[0] + "\n" == LineText(l)
  {
    match l
    case WriteLiteral(literal, len) => WriteText(literal, len);
    case CallLine(call) => JumpText(call);
    case CodeLine(code) =>
    case IfLine(cond) => BraceText("if (", cond);
    case ElseIfLine(cond) => BraceText("} else if (", cond);
    case ElseLine => assert "} else {" + "\n" == "} else {\n";
    case LoopLine(h) => HeaderLine(h);
    case CloseLine => assert "}" + "\n" == "}\n";
  }

  lemma FixedLines()
    ensures '\n' !in "if (" && '\n' !in (")" + " goto err;") && '\n' !in (")" + " {") && '\n' !in (")" + "")
    ensures '\n' !in "} else if (" && '\n' !in "for (" && '\n' !in "while (" && '\n' !in "TAILQ_FOREACH("
    ensures '\n' !in "} else {" && '\n' !in "}" && '\n' !in GOTO
  {
  }

  lemma Joined(a: string, b: string, c: string)
    requires '\n' !in a && '\n' !in b && '\n' !in c
    ensures '\n' !in (a + (b + c))
  {
  }

  lemma {:induction false} JumpOneLine(call: string, rest: string)
    requires Closed(call) && '\n' !in (")" + rest)
    ensures '\n' !in ("if (" + (Cond(call) + (")" + rest)))
  {
    FixedLines();
    CondRead(call);
    Joined("if (", Cond(call), ")" + rest);
  }

  lemma {:induction false} BraceOneLine(head: string, inner: string)
    requires '\n' !in head && '\n' !in inner
    ensures '\n' !in (head + (inner + (")" + " {")))
  {
    FixedLines();
    Joined(head, inner, ")" + " {");
  }

  lemma {:induction false} BlockOneLine(h: Header)
    requires ReadableHeader(h)
    ensures '\n' !in HeadLine(h)
  {
    FixedLines();
    match h
    case For(inner) => BraceOneLine("for (", inner);
    case While(inner) => BraceOneLine("while (", inner);
    case Foreach(a, b, c) =>
      ThreeArgs(a, b, c);
      BraceOneLine("TAILQ_FOREACH(", a + (", " + (b + (", " + c))));
  }

  lemma {:induction false} OneLine(l: Line)
    requires Readable(l)
    ensures '\n' !in Physical(l)[0]
  {
    FixedLines();
    match l
    case WriteLiteral(literal, len) =>
      WriteCallRead(literal, len);
      JumpOneLine(WriteCall(literal, len), " goto err;");
    case WriteExpr(mode, expr) =>
      ShowCallRead(mode, expr);
      JumpOneLine(ShowCall(mode, expr), "");
    case CallLine(call) => JumpOneLine(call, " goto err;");
    case CodeLine(code) =>
    case IfLine(cond) => BraceOneLine("if (", cond);
    case ElseIfLine(cond) => BraceOneLine("} else if (", cond);
    case ElseLine =>
    case LoopLine(h) => BlockOneLine(h);
    case CloseLine =>
  }

  lemma {:induction false} CutFirst(p: string, text: string, t: string)
    requires '\n' !in p && p + "\n" == text
    ensures Cut(text + t) == [p] + Cut(t)
  {
    Assoc(p, "\n", t);
    CutLine(p, t);
  }

  lemma {:induction false} LineCut(l: Line, t: string)
    requires Readable(l)
    ensures Cut(LineText(l) + t) == Physical(l) + Cut(t)
  {
    var p := Physical(l)[0];
    OneLine(l);
    if l.WriteExpr? {
      ShowText(l.mode, l.expr);
      FixedLines();
      Assoc(p + "\n", GOTO + "\n", t);
      CutFirst(p, p + "\n", (GOTO + "\n") + t);
      CutFirst(GOTO, GOTO + "\n", t);
      Assoc([p], [GOTO], Cut(t));
    } else {
      OneLineText(l);
      CutFirst(p, LineText(l), t);
    }
  }

  /** All the lines a text is on. */
  function Lines(ls: seq<Line>): seq<string> { FlatMap(ls, Physical) }

  ghost predicate AllReadable(ls: seq<Line>) {
    forall i :: 0 <= i < |ls| ==> Readable(ls[i])
  }

  lemma {:induction false} TextCut(ls: seq<Line>, t: string)
    requires AllReadable(ls)
    ensures Cut(Text(ls) + t) == Lines(ls) + Cut(t)
    decreases |ls|
  {
    if ls == [] {
      assert Text(ls) + t == t && Lines(ls) + Cut(t) == Cut(t);
    } else {
      var l, rest := ls[0], ls[1..];
      Assoc(LineText(l), Text(rest), t);
      LineCut(l, Text(rest) + t);
      TextCut(rest, t);
      Assoc(Physical(l), Lines(rest), Cut(t));
    }
  }

  lemma {:induction false} LinesRead(ls: seq<Line>)
    requires AllReadable(ls)
    ensures Read(Lines(ls)) == ls
    decreases |ls|
  {
    if ls != [] {
      OneRead(ls[0], Lines(ls[1..]));
      LinesRead(ls[1..]);
      assert ls == [ls[0]] + ls[1..];
    }
  }

  /** Reading the text of a template gives back the lines that were printed. */
  lemma {:induction false} ReadBack(b: TemplateCompiler.Body)
    requires AllReadable(Emit(b))
    ensures Read(Cut(Text(Emit(b)))) == Emit(b)
  {
    TextCut(Emit(b), "");
    LinesRead(Emit(b));
    assert Text(Emit(b)) + "" == Text(Emit(b)) && Lines(Emit(b)) + [] == Lines(Emit(b));
  }

  // ----------------------------------------------------------------- whole functions

  const LABEL := "err:"
  const START := "int tp_ret = 0;"
  const RETURN := "return tp_ret;"

  function CodeText(code: string): string { code + "\n" }

  /** What a define block prints: the label stands before what `finally` brings. */
  function FunctionText(signature: string, d: Define): string {
    "int\n" + (signature + ("\n{\n" + ((START + "\n") + (Text(Emit(d.body)) +
    ((LABEL + "\n") + (FlatMap(d.finally, CodeText) + ((RETURN + "\n") + "}\n")))))))
  }

  /** A function as C reads it: its signature, its statements up to the label, and the lines after it. */
  datatype Function = Function(signature: string, body: seq<Line>, finally: seq<string>)

  function ReadTail(signature: string, body: seq<string>, tail: seq<string>): Option<Function> {
    var n := |tail|;
    if n < 2 || tail[n - 2] != RETURN || tail[n - 1] != "}" then None
    else Some(Function(signature, Read(body), tail[..n - 2]))
  }

  function ReadFunction(s: string): Option<Function> {
    var ps := Cut(s);
    if |ps| < 4 || ps[0] != "int" || ps[2] != "{" || ps[3] != START then None
    else
      var rest := ps[4..];
      var k := IndexOf(rest, LABEL);
      if k == |rest| then None else ReadTail(ps[1], rest[..k], rest[k + 1..])
  }

  predicate OneLiners(codes: seq<string>) {
    forall i :: 0 <= i < |codes| ==> '\n' !in codes[i]
  }

  lemma {:induction false} CodeCut(code: string, rest: string, t: string)
    requires '\n' !in code
    ensures Cut((CodeText(code) + rest) + t) == [code] + Cut(rest + t)
  {
    Assoc(CodeText(code), rest, t);
    CutFirst(code, CodeText(code), rest + t);
  }

  lemma {:induction false} CodesCut(codes: seq<string>, t: string)
    requires OneLiners(codes)
    ensures Cut(FlatMap(codes, CodeText) + t) == codes + Cut(t)
    decreases |codes|
  {
    if codes == [] {
      assert FlatMap(codes, CodeText) + t == t && codes + Cut(t) == Cut(t);
    } else {
      var code, rest := codes[0], codes[1..];
      CodeCut(code, FlatMap(rest, CodeText), t);
      CodesCut(rest, t);
      assert codes == [code] + rest;
      Assoc([code], rest, Cut(t));
    }
  }

  lemma FrameLines()
    ensures '\n' !in "int" && '\n' !in "{" && '\n' !in START && '\n' !in LABEL && '\n' !in RETURN && '\n' !in "}"
  {
  }

  lemma FrameText(signature: string, t: string)
    ensures "int\n" + (signature + ("\n{\n" + t)) == ("int" + "\n") + ((signature + "\n") + (("{" + "\n") + t))
  {
  }

  lemma {:induction false} TailCut(d: Define)
    requires OneLiners(d.finally)
    ensures Cut((LABEL + "\n") + (FlatMap(d.finally, CodeText) + ((RETURN + "\n") + "}\n"))) ==
            [LABEL] + (d.finally + ([RETURN] + ["}"]))
  {
    FrameLines();
    CutFirst(LABEL, LABEL + "\n", FlatMap(d.finally, CodeText) + ((RETURN + "\n") + "}\n"));
    CodesCut(d.finally, (RETURN + "\n") + "}\n");
    CutFirst(RETURN, RETURN + "\n", "}\n");
    assert "}\n" == ("}" + "\n") + "";
    CutFirst("}", "}" + "\n", "");
    assert ["}"] + [] == ["}"];
  }

  lemma {:induction false} FunctionCut(signature: string, d: Define)
    requires '\n' !in signature && AllReadable(Emit(d.body)) && OneLiners(d.finally)
    ensures Cut(FunctionText(signature, d)) ==
            ["int"] + ([signature] + (["{"] + ([START] +
            (Lines(Emit(d.body)) + ([LABEL] + (d.finally + ([RETURN] + ["}"])))))))
  {
    var tail := (LABEL + "\n") + (FlatMap(d.finally, CodeText) + ((RETURN + "\n") + "}\n"));
    var body := Text(Emit(d.body)) + tail;
    FrameLines();
    FrameText(signature, (START + "\n") + body);
    CutFirst("int", "int" + "\n", (signature + "\n") + (("{" + "\n") + ((START + "\n") + body)));
    CutFirst(signature, signature + "\n", ("{" + "\n") + ((START + "\n") + body));
    CutFirst("{", "{" + "\n", (START + "\n") + body);
    CutFirst(START, START + "\n", body);
    TextCut(Emit(d.body), tail);
    TailCut(d);
  }

  lemma NoLabels(p: string)
    requires p == "" || p[0] != 'e'
    ensures p != LABEL
  {
  }

  lemma {:induction false} NoLabel(l: Line)
    requires Readable(l)
    ensures LABEL !in Physical(l)
  {
    var p := Physical(l)[0];
    if !l.CodeLine? {
      assert p[0] == 'i' || p[0] == '}' || p[0] == 'f' || p[0] == 'w' || p[0] == 'T';
      NoLabels(p);
    }
    NoLabels(GOTO);
  }

  lemma {:induction false} NoLabelIn(ls: seq<Line>)
    requires AllReadable(ls)
    ensures LABEL !in Lines(ls)
    decreases |ls|
  {
    if ls != [] {
      NoLabel(ls[0]);
      NoLabelIn(ls[1..]);
    }
  }

  lemma {:induction false} FrameRead(signature: string, body: seq<string>, finally: seq<string>)
    requires LABEL !in body
    ensures var ps := ["int"] + ([signature] + (["{"] + ([START] +
                      (body + ([LABEL] + (finally + ([RETURN] + ["}"])))))));
            && |ps| >= 4 && ps[0] == "int" && ps[1] == signature && ps[2] == "{" && ps[3] == START
            && IndexOf(ps[4..], LABEL) == |body| && ps[4..][..|body|] == body
            && ps[4..][|body| + 1..] == finally + ([RETURN] + ["}"])
  {
    var tail := finally + ([RETURN] + ["}"]);
    var rest := body + ([LABEL] + tail);
    FirstIndex(body, LABEL, tail);
    assert (["int"] + ([signature] + (["{"] + ([START] + rest))))[4..] == rest;
    assert rest[..|body|] == body && rest[|body| + 1..] == tail;
  }

  lemma TailRead(signature: string, body: seq<string>, finally: seq<string>)
    ensures ReadTail(signature, body, finally + ([RETURN] + ["}"])) ==
            Some(Function(signature, Read(body), finally))
  {
    var tail := finally + ([RETURN] + ["}"]);
    assert tail[..|tail| - 2] == finally;
  }

  /** Reading the text of a define block gives back its signature, its lines and what follows the label. */
  lemma {:induction false} FunctionRead(signature: string, d: Define)
    requires '\n' !in signature && AllReadable(Emit(d.body)) && OneLiners(d.finally)
    ensures ReadFunction(FunctionText(signature, d)) == Some(Function(signature, Emit(d.body), d.finally))
  {
    var body := Lines(Emit(d.body));
    FunctionCut(signature, d);
    NoLabelIn(Emit(d.body));
    FrameRead(signature, body, d.finally);
    TailRead(signature, body, d.finally);
    LinesRead(Emit(d.body));
  }
}
