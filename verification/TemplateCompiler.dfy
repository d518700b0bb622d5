/**
 * The template compiler: the grammar actions of template/parse.y, which print
 * C line by line, and a C compiler's view of those lines: blocks found again
 * by their braces, then run.
 */
module TemplateCompiler {
  import opened Common
  import opened CLiteral

  // --------------------------------------------------------------------- templates

  datatype Mode = Escape | UrlEscape | Unsafe

  /** The three loops; their parts are C text. */
  datatype Header = For(inner: string) | While(inner: string) | Foreach(item: string, head: string, field: string)

  /** The parse tree of a define block; expressions are C text. */
  datatype Stmt =
    | Raw(text: string)
    | Print(mode: Mode, expr: string)
    | Render(call: string)
    | Verbatim(code: string)
    | If(cond: string, yes: Body, no: Else)
    | Loop(header: Header, body: Body)

  datatype Body = Nil | Cons(head: Stmt, tail: Body)

  datatype Else = NoElse | ElseBody(body: Body) | ElseIf(cond: string, yes: Body, no: Else)

  // --------------------------------------------------------------------- emission

  /** One printed line; a write is printed with its failure test, which jumps to the label at the end. */
  datatype Line =
    | WriteLiteral(literal: string, len: nat)
    | WriteExpr(mode: Mode, expr: string)
    | CallLine(call: string)
    | CodeLine(code: string)
    | IfLine(cond: string)
    | ElseIfLine(cond: string)
    | ElseLine
    | LoopLine(header: Header)
    | CloseLine

  function Emit(b: Body): seq<Line> {
    match b
    case Nil => []
    case Cons(s, rest) => EmitStmt(s) + Emit(rest)
  }

  function EmitStmt(s: Stmt): seq<Line> {
    match s
    case Raw(text) => [WriteLiteral(Printq(text), |text|)]
    case Print(mode, expr) => [WriteExpr(mode, expr)]
    case Render(call) => [CallLine(call)]
    case Verbatim(code) => [CodeLine(code)]
    case If(cond, yes, no) => [IfLine(cond)] + (Emit(yes) + EmitElse(no))
    case Loop(header, body) => [LoopLine(header)] + (Emit(body) + [CloseLine])
  }

  /** From an else or the end of an if to its last brace. */
  function EmitElse(e: Else): seq<Line> {
    match e
    case NoElse => [CloseLine]
    case ElseBody(body) => [ElseLine] + (Emit(body) + [CloseLine])
    case ElseIf(cond, yes, no) => [ElseIfLine(cond)] + (Emit(yes) + EmitElse(no))
  }

  // ------------------------------------------------------------------- C structure

  datatype Block = Empty | Then(head: Command, tail: Block)

  datatype Command =
    | One(line: Line)
    | Choice(cond: string, yes: Block, no: Block)
    | Repeat(header: Header, body: Block)

  predicate Ends(l: Line) { l.CloseLine? || l.ElseLine? || l.ElseIfLine? }

  /** Statements up to the line that ends their block, and the lines from there on. */
  function Parse(ls: seq<Line>): (r: Option<(Block, seq<Line>)>)
    ensures r.Some? ==> |r.value.1| <= |ls|
    decreases |ls|, 1
  {
    if ls == [] || Ends(ls[0]) then Some((Empty, ls))
    else
      match ParseOne(ls)
      case None => None
      case Some((c, rest)) =>
        match Parse(rest)
        case None => None
        case Some((b, rest')) => Some((Then(c, b), rest'))
  }

  function ParseOne(ls: seq<Line>): (r: Option<(Command, seq<Line>)>)
    requires ls != []
    ensures r.Some? ==> |r.value.1| < |ls|
    decreases |ls|, 0
  {
    match ls[0]
    case IfLine(cond) =>
      (match Parse(ls[1..])
       case None => None
       case Some((yes, rest)) =>
         match ParseElse(rest)
         case None => None
         case Some((no, rest')) => Some((Choice(cond, yes, no), rest')))
    case LoopLine(header) =>
      (match Parse(ls[1..])
       case None => None
       case Some((body, rest)) =>
         if rest != [] && rest[0].CloseLine? then Some((Repeat(header, body), rest[1..])) else None)
    case _ => Some((One(ls[0]), ls[1..]))
  }

  /** What follows the braces of an if: C reads an else-if as an if inside the else. */
  function ParseElse(ls: seq<Line>): (r: Option<(Block, seq<Line>)>)
    ensures r.Some? ==> |r.value.1| < |ls|
    decreases |ls|, 0
  {
    if ls == [] then None
    else
      match ls[0]
      case CloseLine => Some((Empty, ls[1..]))
      case ElseLine =>
        (match Parse(ls[1..])
         case None => None
         case Some((no, rest)) => if rest != [] && rest[0].CloseLine? then Some((no, rest[1..])) else None)
      case ElseIfLine(cond) =>
        (match Parse(ls[1..])
         case None => None
         case Some((yes, rest)) =>
           match ParseElse(rest)
           case None => None
           case Some((no, rest')) => Some((Then(Choice(cond, yes, no), Empty), rest')))
      case _ => None
  }

  /** The C structure that a template stands for. */
  function Shape(b: Body): Block {
    match b
    case Nil => Empty
    case Cons(s, rest) => Then(ShapeStmt(s), Shape(rest))
  }

  function ShapeStmt(s: Stmt): Command {
    match s
    case Raw(text) => One(WriteLiteral(Printq(text), |text|))
    case Print(mode, expr) => One(WriteExpr(mode, expr))
    case Render(call) => One(CallLine(call))
    case Verbatim(code) => One(CodeLine(code))
    case If(cond, yes, no) => Choice(cond, Shape(yes), ShapeElse(no))
    case Loop(header, body) => Repeat(header, Shape(body))
  }

  function ShapeElse(e: Else): Block {
    match e
    case NoElse => Empty
    case ElseBody(body) => Shape(body)
    case ElseIf(cond, yes, no) => Then(Choice(cond, Shape(yes), ShapeElse(no)), Empty)
  }

  predicate AtEnd(ls: seq<Line>) { ls == [] || Ends(ls[0]) }

  lemma Front(l: Line, a: seq<Line>, rest: seq<Line>)
    ensures ([l] + a) + rest == [l] + (a + rest) && ([l] + (a + rest))[0] == l && ([l] + (a + rest))[1..] == a + rest
  {
  }

  lemma EmitStarts(s: Stmt)
    ensures EmitStmt(s) != [] && !Ends(EmitStmt(s)[0])
  {
  }

  lemma ElseStarts(e: Else, rest: seq<Line>)
    ensures AtEnd(EmitElse(e) + rest)
  {
  }

  lemma {:induction false} OneParsed(l: Line, rest: seq<Line>)
    requires !Ends(l) && !l.IfLine? && !l.LoopLine?
    ensures ParseOne([l] + rest) == Some((One(l), rest))
  {
    assert ([l] + rest)[1..] == rest;
  }

  /** Braces keep everything apart: a template's lines parse back to its structure, whatever block they stand in. */
  lemma {:induction false} ParseEmit(b: Body, rest: seq<Line>)
    requires AtEnd(rest)
    ensures Parse(Emit(b) + rest) == Some((Shape(b), rest))
    decreases b, 1
  {
    match b
    case Nil => assert [] + rest == rest;
    case Cons(s, tail) =>
      Assoc(EmitStmt(s), Emit(tail), rest);
      EmitStarts(s);
      ParseEmitOne(s, Emit(tail) + rest);
      ParseEmit(tail, rest);
  }

  lemma {:induction false} ParseEmitOne(s: Stmt, rest: seq<Line>)
    ensures EmitStmt(s) + rest != [] && ParseOne(EmitStmt(s) + rest) == Some((ShapeStmt(s), rest))
    decreases s, 0
  {
    match s
    case If(cond, yes, no) =>
      Front(IfLine(cond), Emit(yes) + EmitElse(no), rest);
      Assoc(Emit(yes), EmitElse(no), rest);
      ElseStarts(no, rest);
      ParseEmit(yes, EmitElse(no) + rest);
      ParseEmitElse(no, rest);
    case Loop(header, body) =>
      Front(LoopLine(header), Emit(body) + [CloseLine], rest);
      Assoc(Emit(body), [CloseLine], rest);
      ParseEmit(body, [CloseLine] + rest);
      assert ([CloseLine] + rest)[1..] == rest;
    case Raw(text) => OneParsed(WriteLiteral(Printq(text), |text|), rest);
    case Print(mode, expr) => OneParsed(WriteExpr(mode, expr), rest);
    case Render(call) => OneParsed(CallLine(call), rest);
    case Verbatim(code) => OneParsed(CodeLine(code), rest);
  }

  lemma {:induction false} ParseEmitElse(e: Else, rest: seq<Line>)
    ensures ParseElse(EmitElse(e) + rest) == Some((ShapeElse(e), rest))
    decreases e, 0
  {
    match e
    case NoElse => assert ([CloseLine] + rest)[1..] == rest;
    case ElseBody(body) =>
      Front(ElseLine, Emit(body) + [CloseLine], rest);
      Assoc(Emit(body), [CloseLine], rest);
      ParseEmit(body, [CloseLine] + rest);
      assert ([CloseLine] + rest)[1..] == rest;
    case ElseIf(cond, yes, no) =>
      Front(ElseIfLine(cond), Emit(yes) + EmitElse(no), rest);
      Assoc(Emit(yes), EmitElse(no), rest);
      ElseStarts(no, rest);
      ParseEmit(yes, EmitElse(no) + rest);
      ParseEmitElse(no, rest);
  }

  // ----------------------------------------------------------------------- braces

  /** The depth of open braces after the lines; None if one closes that was never opened. */
  function Braces(depth: nat, ls: seq<Line>): Option<nat>
    decreases |ls|
  {
    if ls == [] then Some(depth)
    else
      match ls[0]
      case IfLine(_) => Braces(depth + 1, ls[1..])
      case LoopLine(_) => Braces(depth + 1, ls[1..])
      case ElseIfLine(_) => if depth == 0 then None else Braces(depth, ls[1..])
      case ElseLine => if depth == 0 then None else Braces(depth, ls[1..])
      case CloseLine => if depth == 0 then None else Braces(depth - 1, ls[1..])
      case _ => Braces(depth, ls[1..])
  }

  lemma {:induction false} BracesAppend(depth: nat, a: seq<Line>, b: seq<Line>)
    ensures Braces(depth, a + b) == match Braces(depth, a) case None => None case Some(d) => Braces(d, b)
    decreases |a|
  {
    if a == [] {
      assert a + b == b;
    } else {
      assert (a + b)[0] == a[0] && (a + b)[1..] == a[1..] + b;
      match a[0]
      case IfLine(_) => BracesAppend(depth + 1, a[1..], b);
      case LoopLine(_) => BracesAppend(depth + 1, a[1..], b);
      case CloseLine => if depth > 0 { BracesAppend(depth - 1, a[1..], b); }
      case _ => BracesAppend(depth, a[1..], b);
    }
  }

  lemma BracesOne(depth: nat, l: Line)
    ensures Braces(depth, [l]) ==
            match l
            case IfLine(_) => Some(depth + 1)
            case LoopLine(_) => Some(depth + 1)
            case ElseIfLine(_) => if depth == 0 then None else Some(depth)
            case ElseLine => if depth == 0 then None else Some(depth)
            case CloseLine => if depth == 0 then None else Some(depth - 1)
            case _ => Some(depth)
  {
    assert [l][1..] == [];
  }

  /** The printed lines have balanced braces. */
  lemma {:induction false} Balanced(b: Body, depth: nat)
    ensures Braces(depth, Emit(b)) == Some(depth)
    decreases b, 1
  {
    match b
    case Nil =>
    case Cons(s, tail) =>
      BalancedStmt(s, depth);
      Balanced(tail, depth);
      BracesAppend(depth, EmitStmt(s), Emit(tail));
  }

  lemma {:induction false} BalancedStmt(s: Stmt, depth: nat)
    ensures Braces(depth, EmitStmt(s)) == Some(depth)
    decreases s, 0
  {
    match s
    case If(cond, yes, no) =>
      Balanced(yes, depth + 1);
      BalancedElse(no, depth);
      BracesAppend(depth + 1, Emit(yes), EmitElse(no));
      BracesOne(depth, IfLine(cond));
      BracesAppend(depth, [IfLine(cond)], Emit(yes) + EmitElse(no));
    case Loop(header, body) =>
      Balanced(body, depth + 1);
      BracesOne(depth + 1, CloseLine);
      BracesAppend(depth + 1, Emit(body), [CloseLine]);
      BracesOne(depth, LoopLine(header));
      BracesAppend(depth, [LoopLine(header)], Emit(body) + [CloseLine]);
    case _ => BracesOne(depth, EmitStmt(s)[0]); assert EmitStmt(s) == [EmitStmt(s)[0]];
  }

  lemma {:induction false} BalancedElse(e: Else, depth: nat)
    ensures Braces(depth + 1, EmitElse(e)) == Some(depth)
    decreases e, 0
  {
    match e
    case NoElse => BracesOne(depth + 1, CloseLine);
    case ElseBody(body) =>
      Balanced(body, depth + 1);
      BracesOne(depth + 1, CloseLine);
      BracesAppend(depth + 1, Emit(body), [CloseLine]);
      BracesOne(depth + 1, ElseLine);
      BracesAppend(depth + 1, [ElseLine], Emit(body) + [CloseLine]);
    case ElseIf(cond, yes, no) =>
      Balanced(yes, depth + 1);
      BalancedElse(no, depth);
      BracesAppend(depth + 1, Emit(yes), EmitElse(no));
      BracesOne(depth + 1, ElseIfLine(cond));
      BracesAppend(depth + 1, [ElseIfLine(cond)], Emit(yes) + EmitElse(no));
  }

  // ---------------------------------------------------------------------- meaning

  /**
   * What the C text of expressions, loop headers and calls does in a world W,
   * which holds the output. Writes and calls return -1 for failure.
   */
  datatype Interp<!W> = Interp(
    value: (string, W) -> string,
    test: (string, W) -> bool,
    more: (Header, W) -> bool,
    init: (Header, W) -> W,
    step: (Header, W) -> W,
    code: (string, W) -> W,
    write: (string, W) -> (int, W),
    show: (Mode, string, W) -> (int, W),
    call: (string, W) -> (int, W))

  /**
   * Goes on with the last result, or stops at a failure; Spins when a loop has
   * used up its turns, Garbled at a raw text that is not spelled at all.
   */
  datatype Outcome<W> = Goes(w: W, last: int) | Stops(w: W) | Spins(w: W) | Garbled

  function Result<W>(r: (int, W)): Outcome<W> {
    if r.0 == -1 then Stops(r.1) else Goes(r.1, r.0)
  }

  /** What is written for a raw text, if anything is. */
  type Spelling = string -> Option<string>

  /** The text itself. */
  function AsIs(text: string): Option<string> { Some(text) }

  /** The text itself, if it has no backslash and no newline. */
  function PlainOnly(text: string): Option<string> {
    if PlainText(text) then Some(text) else None
  }

  /** A template's meaning, with raw text written as it is spelled: its parts in order, up to the first failure. */
  function Meaning<W>(fuel: nat, b: Body, w: W, last: int, m: Interp<W>, spell: Spelling): Outcome<W>
    decreases fuel, b, 1
  {
    match b
    case Nil => Goes(w, last)
    case Cons(s, rest) =>
      match MeaningOne(fuel, s, w, last, m, spell)
      case Goes(w', last') => Meaning(fuel, rest, w', last', m, spell)
      case o => o
  }

  function MeaningOne<W>(fuel: nat, s: Stmt, w: W, last: int, m: Interp<W>, spell: Spelling): Outcome<W>
    decreases fuel, s, 0
  {
    match s
    case Raw(text) => (match spell(text) case None => Garbled case Some(t) => Result(m.write(t, w)))
    case Print(mode, expr) => Result(m.show(mode, m.value(expr, w), w))
    case Render(call) => Result(m.call(call, w))
    case Verbatim(code) => Goes(m.code(code, w), last)
    case If(cond, yes, no) =>
      if m.test(cond, w) then Meaning(fuel, yes, w, last, m, spell) else MeaningElse(fuel, no, w, last, m, spell)
    case Loop(header, body) => Turns(fuel, header, body, m.init(header, w), last, m, spell)
  }

  function MeaningElse<W>(fuel: nat, e: Else, w: W, last: int, m: Interp<W>, spell: Spelling): Outcome<W>
    decreases fuel, e, 0
  {
    match e
    case NoElse => Goes(w, last)
    case ElseBody(body) => Meaning(fuel, body, w, last, m, spell)
    case ElseIf(cond, yes, no) =>
      if m.test(cond, w) then Meaning(fuel, yes, w, last, m, spell) else MeaningElse(fuel, no, w, last, m, spell)
  }

  function Turns<W>(fuel: nat, header: Header, body: Body, w: W, last: int, m: Interp<W>, spell: Spelling): Outcome<W>
    decreases fuel, body, 2
  {
    if !m.more(header, w) then Goes(w, last)
    else if fuel == 0 then Spins(w)
    else
      match Meaning(fuel - 1, body, w, last, m, spell)
      case Goes(w', last') => Turns(fuel - 1, header, body, m.step(header, w'), last', m, spell)
      case o => o
  }

  /** C: falling through to the next statement, or at the error label; tp_ret in both cases. */
  datatype Control<W> = Falls(w: W, ret: int) | Jumps(w: W, ret: int) | Undefined | Loops(w: W)

  /** The test after every write and call. */
  function Checked<W>(r: (int, W)): Control<W> {
    if r.0 == -1 then Jumps(r.1, r.0) else Falls(r.1, r.0)
  }

  function RunLine<W>(l: Line, w: W, ret: int, m: Interp<W>): Control<W> {
    match l
    case WriteLiteral(literal, len) =>
      (match FirstOf(literal, len)
       case None => Undefined
       case Some(t) => Checked(m.write(t, w)))
    case WriteExpr(mode, expr) => Checked(m.show(mode, m.value(expr, w), w))
    case CallLine(call) => Checked(m.call(call, w))
    case CodeLine(code) => Falls(m.code(code, w), ret)
    case _ => Undefined
  }

  function Run<W>(fuel: nat, b: Block, w: W, ret: int, m: Interp<W>): Control<W>
    decreases fuel, b, 1
  {
    match b
    case Empty => Falls(w, ret)
    case Then(c, rest) =>
      match RunOne(fuel, c, w, ret, m)
      case Falls(w', ret') => Run(fuel, rest, w', ret', m)
      case o => o
  }

  function RunOne<W>(fuel: nat, c: Command, w: W, ret: int, m: Interp<W>): Control<W>
    decreases fuel, c, 0
  {
    match c
    case One(line) => RunLine(line, w, ret, m)
    case Choice(cond, yes, no) => if m.test(cond, w) then Run(fuel, yes, w, ret, m) else Run(fuel, no, w, ret, m)
    case Repeat(header, body) => RunLoop(fuel, header, body, m.init(header, w), ret, m)
  }

  function RunLoop<W>(fuel: nat, header: Header, body: Block, w: W, ret: int, m: Interp<W>): Control<W>
    decreases fuel, body, 2
  {
    if !m.more(header, w) then Falls(w, ret)
    else if fuel == 0 then Loops(w)
    else
      match Run(fuel - 1, body, w, ret, m)
      case Falls(w', ret') => RunLoop(fuel - 1, header, body, m.step(header, w'), ret', m)
      case o => o
  }

  // ------------------------------------------------------------------ preservation

  function Expected<W>(o: Outcome<W>): Control<W> {
    match o
    case Goes(w, last) => Falls(w, last)
    case Stops(w) => Jumps(w, -1)
    case Spins(w) => Loops(w)
    case Garbled => Undefined
  }

  /** A line writes what its literal spells, which is the text exactly if that is plain. */
  lemma {:induction false} RawExact<W>(text: string, w: W, ret: int, m: Interp<W>)
    ensures RunLine(WriteLiteral(Printq(text), |text|), w, ret, m) ==
            if PlainText(text) then Expected(Result(m.write(text, w)))
            else if OneEscape(text) then Expected(Result(m.write(Unescaped(text) + [NUL], w)))
            else Undefined
  {
    SpelledExact(text);
  }

  lemma {:induction false} RunSingle<W>(fuel: nat, c: Command, w: W, ret: int, m: Interp<W>)
    ensures Run(fuel, Then(c, Empty), w, ret, m) == RunOne(fuel, c, w, ret, m)
  {
  }

  lemma {:induction false} RunShape<W>(fuel: nat, b: Body, w: W, last: int, m: Interp<W>)
    ensures Run(fuel, Shape(b), w, last, m) == Expected(Meaning(fuel, b, w, last, m, Spelled))
    decreases fuel, b, 1
  {
    match b
    case Nil =>
    case Cons(s, rest) =>
      RunShapeOne(fuel, s, w, last, m);
      match MeaningOne(fuel, s, w, last, m, Spelled)
      case Goes(w', last') => RunShape(fuel, rest, w', last', m);
      case _ =>
  }

  lemma {:induction false} RunShapeOne<W>(fuel: nat, s: Stmt, w: W, last: int, m: Interp<W>)
    ensures RunOne(fuel, ShapeStmt(s), w, last, m) == Expected(MeaningOne(fuel, s, w, last, m, Spelled))
    decreases fuel, s, 0
  {
    match s
    case Raw(text) => RawExact(text, w, last, m);
    case If(cond, yes, no) =>
      if m.test(cond, w) { RunShape(fuel, yes, w, last, m); } else { RunShapeElse(fuel, no, w, last, m); }
    case Loop(header, body) => RunShapeLoop(fuel, header, body, m.init(header, w), last, m);
    case _ =>
  }

  lemma {:induction false} RunShapeElse<W>(fuel: nat, e: Else, w: W, last: int, m: Interp<W>)
    ensures Run(fuel, ShapeElse(e), w, last, m) == Expected(MeaningElse(fuel, e, w, last, m, Spelled))
    decreases fuel, e, 0
  {
    match e
    case NoElse =>
    case ElseBody(body) => RunShape(fuel, body, w, last, m);
    case ElseIf(cond, yes, no) =>
      if m.test(cond, w) { RunShape(fuel, yes, w, last, m); } else { RunShapeElse(fuel, no, w, last, m); }
      RunSingle(fuel, Choice(cond, Shape(yes), ShapeElse(no)), w, last, m);
  }

  lemma {:induction false} RunShapeLoop<W>(fuel: nat, header: Header, body: Body, w: W, last: int, m: Interp<W>)
    ensures RunLoop(fuel, header, Shape(body), w, last, m) == Expected(Turns(fuel, header, body, w, last, m, Spelled))
    decreases fuel, body, 2
  {
    if m.more(header, w) && fuel > 0 {
      RunShape(fuel - 1, body, w, last, m);
      match Meaning(fuel - 1, body, w, last, m, Spelled)
      case Goes(w', last') => RunShapeLoop(fuel - 1, header, body, m.step(header, w'), last', m);
      case _ =>
    }
  }

  // ------------------------------------------------------------------- whole functions

  /** A define block; `finally` is C text that runs at the error label. */
  datatype Define = Define(body: Body, finally: seq<string>)

  function Codes<W>(codes: seq<string>, w: W, m: Interp<W>): W
    decreases |codes|
  {
    if codes == [] then w else Codes(codes[1..], m.code(codes[0], w), m)
  }

  /** What a call of the function does: the world it leaves and tp_ret. */
  datatype Returned<W> = Returned(w: W, ret: int) | Diverges(w: W) | IsUndefined

  /** The printed function: tp_ret starts at 0, and both ways out of the body meet at the error label. */
  function RunFunction<W>(fuel: nat, ls: seq<Line>, finally: seq<string>, w: W, m: Interp<W>): Returned<W> {
    match Parse(ls)
    case None => IsUndefined
    case Some((b, rest)) =>
      if rest != [] then IsUndefined
      else
        match Run(fuel, b, w, 0, m)
        case Falls(w', ret) => Returned(Codes(finally, w', m), ret)
        case Jumps(w', ret) => Returned(Codes(finally, w', m), ret)
        case Undefined => IsUndefined
        case Loops(w') => Diverges(w')
  }

  /** A template's function, with raw text written as it is spelled. */
  function Called<W>(fuel: nat, d: Define, w: W, m: Interp<W>, spell: Spelling): Returned<W> {
    match Meaning(fuel, d.body, w, 0, m, spell)
    case Goes(w', last) => Returned(Codes(d.finally, w', m), last)
    case Stops(w') => Returned(Codes(d.finally, w', m), -1)
    case Spins(w') => Diverges(w')
    case Garbled => IsUndefined
  }

  /** What the template means. */
  function Direct<W>(fuel: nat, d: Define, w: W, m: Interp<W>): Returned<W> {
    Called(fuel, d, w, m, AsIs)
  }

  // ----------------------------------------------- raw text that is not plain

  predicate PlainBody(b: Body) {
    match b case Nil => true case Cons(s, rest) => PlainStmt(s) && PlainBody(rest)
  }

  predicate PlainStmt(s: Stmt) {
    match s
    case Raw(text) => PlainText(text)
    case If(_, yes, no) => PlainBody(yes) && PlainElse(no)
    case Loop(_, body) => PlainBody(body)
    case _ => true
  }

  predicate PlainElse(e: Else) {
    match e
    case NoElse => true
    case ElseBody(body) => PlainBody(body)
    case ElseIf(_, yes, no) => PlainBody(yes) && PlainElse(no)
  }

  /** Plain text is spelled as it stands. */
  ghost predicate Keeps(spell: Spelling) {
    forall t :: PlainText(t) ==> spell(t) == Some(t)
  }

  /** Until a raw text that is not plain, both spellings agree. */
  ghost predicate Agree<W>(strict: Outcome<W>, o: Outcome<W>, plain: bool) {
    if strict.Garbled? then !plain else strict == o
  }

  lemma {:induction false} Strict<W>(fuel: nat, b: Body, w: W, last: int, m: Interp<W>, spell: Spelling)
    requires Keeps(spell)
    ensures Agree(Meaning(fuel, b, w, last, m, PlainOnly), Meaning(fuel, b, w, last, m, spell), PlainBody(b))
    decreases fuel, b, 1
  {
    match b
    case Nil =>
    case Cons(s, rest) =>
      StrictOne(fuel, s, w, last, m, spell);
      match MeaningOne(fuel, s, w, last, m, PlainOnly)
      case Goes(w', last') => Strict(fuel, rest, w', last', m, spell);
      case _ =>
  }

  lemma {:induction false} StrictOne<W>(fuel: nat, s: Stmt, w: W, last: int, m: Interp<W>, spell: Spelling)
    requires Keeps(spell)
    ensures Agree(MeaningOne(fuel, s, w, last, m, PlainOnly), MeaningOne(fuel, s, w, last, m, spell), PlainStmt(s))
    decreases fuel, s, 0
  {
    match s
    case If(cond, yes, no) =>
      if m.test(cond, w) { Strict(fuel, yes, w, last, m, spell); } else { StrictElse(fuel, no, w, last, m, spell); }
    case Loop(header, body) => StrictTurns(fuel, header, body, m.init(header, w), last, m, spell);
    case _ =>
  }

  lemma {:induction false} StrictElse<W>(fuel: nat, e: Else, w: W, last: int, m: Interp<W>, spell: Spelling)
    requires Keeps(spell)
    ensures Agree(MeaningElse(fuel, e, w, last, m, PlainOnly), MeaningElse(fuel, e, w, last, m, spell), PlainElse(e))
    decreases fuel, e, 0
  {
    match e
    case NoElse =>
    case ElseBody(body) => Strict(fuel, body, w, last, m, spell);
    case ElseIf(cond, yes, no) =>
      if m.test(cond, w) { Strict(fuel, yes, w, last, m, spell); } else { StrictElse(fuel, no, w, last, m, spell); }
  }

  lemma {:induction false} StrictTurns<W>(
    fuel: nat, header: Header, body: Body, w: W, last: int, m: Interp<W>, spell: Spelling)
    requires Keeps(spell)
    ensures Agree(Turns(fuel, header, body, w, last, m, PlainOnly), Turns(fuel, header, body, w, last, m, spell),
                  PlainBody(body))
    decreases fuel, body, 2
  {
    if m.more(header, w) && fuel > 0 {
      Strict(fuel - 1, body, w, last, m, spell);
      match Meaning(fuel - 1, body, w, last, m, PlainOnly)
      case Goes(w', last') => StrictTurns(fuel - 1, header, body, m.step(header, w'), last', m, spell);
      case _ =>
    }
  }

  /** What is spelled is written, and -1 is kept for failures. */
  ghost predicate Sound<W>(o: Outcome<W>, last: int, spell: Spelling) {
    && (last != -1 && o.Goes? ==> o.last != -1)
    && ((forall t :: spell(t).Some?) ==> !o.Garbled?)
  }

  lemma {:induction false} Lax<W>(fuel: nat, b: Body, w: W, last: int, m: Interp<W>, spell: Spelling)
    ensures Sound(Meaning(fuel, b, w, last, m, spell), last, spell)
    decreases fuel, b, 1
  {
    match b
    case Nil =>
    case Cons(s, rest) =>
      LaxOne(fuel, s, w, last, m, spell);
      match MeaningOne(fuel, s, w, last, m, spell)
      case Goes(w', last') => Lax(fuel, rest, w', last', m, spell);
      case _ =>
  }

  lemma {:induction false} LaxOne<W>(fuel: nat, s: Stmt, w: W, last: int, m: Interp<W>, spell: Spelling)
    ensures Sound(MeaningOne(fuel, s, w, last, m, spell), last, spell)
    decreases fuel, s, 0
  {
    match s
    case If(cond, yes, no) =>
      if m.test(cond, w) { Lax(fuel, yes, w, last, m, spell); } else { LaxElse(fuel, no, w, last, m, spell); }
    case Loop(header, body) => LaxTurns(fuel, header, body, m.init(header, w), last, m, spell);
    case _ =>
  }

  lemma {:induction false} LaxElse<W>(fuel: nat, e: Else, w: W, last: int, m: Interp<W>, spell: Spelling)
    ensures Sound(MeaningElse(fuel, e, w, last, m, spell), last, spell)
    decreases fuel, e, 0
  {
    match e
    case NoElse =>
    case ElseBody(body) => Lax(fuel, body, w, last, m, spell);
    case ElseIf(cond, yes, no) =>
      if m.test(cond, w) { Lax(fuel, yes, w, last, m, spell); } else { LaxElse(fuel, no, w, last, m, spell); }
  }

  lemma {:induction false} LaxTurns<W>(
    fuel: nat, header: Header, body: Body, w: W, last: int, m: Interp<W>, spell: Spelling)
    ensures Sound(Turns(fuel, header, body, w, last, m, spell), last, spell)
    decreases fuel, body, 2
  {
    if m.more(header, w) && fuel > 0 {
      Lax(fuel - 1, body, w, last, m, spell);
      match Meaning(fuel - 1, body, w, last, m, spell)
      case Goes(w', last') => LaxTurns(fuel - 1, header, body, m.step(header, w'), last', m, spell);
      case _ =>
    }
  }

  // ------------------------------------------------------------ writes on record

  /** A world that also holds the texts written. */
  type Noted<W> = (W, seq<string>)

  /** An interpretation in which every write goes on record. */
  function Recording<W>(m: Interp<W>): Interp<Noted<W>> {
    Interp(
      (e: string, x: Noted<W>) => m.value(e, x.0),
      (e: string, x: Noted<W>) => m.test(e, x.0),
      (h: Header, x: Noted<W>) => m.more(h, x.0),
      (h: Header, x: Noted<W>) => (m.init(h, x.0), x.1),
      (h: Header, x: Noted<W>) => (m.step(h, x.0), x.1),
      (c: string, x: Noted<W>) => (m.code(c, x.0), x.1),
      (t: string, x: Noted<W>) => (m.write(t, x.0).0, (m.write(t, x.0).1, x.1 + [t])),
      (mode: Mode, t: string, x: Noted<W>) => (m.show(mode, t, x.0).0, (m.show(mode, t, x.0).1, x.1)),
      (c: string, x: Noted<W>) => (m.call(c, x.0).0, (m.call(c, x.0).1, x.1)))
  }

  /** What is on record grows, unless nothing is known any more. */
  ghost predicate Grows<W>(log: seq<string>, o: Outcome<Noted<W>>) {
    o.Garbled? || log <= o.w.1
  }

  lemma {:induction false} Noting<W>(
    fuel: nat, b: Body, x: Noted<W>, last: int, m: Interp<W>, spell: Spelling)
    ensures Grows(x.1, Meaning(fuel, b, x, last, Recording(m), spell))
    decreases fuel, b, 1
  {
    match b
    case Nil =>
    case Cons(s, rest) =>
      NotingOne(fuel, s, x, last, m, spell);
      match MeaningOne(fuel, s, x, last, Recording(m), spell)
      case Goes(x', last') => Noting(fuel, rest, x', last', m, spell);
      case _ =>
  }

  lemma {:induction false} NotingOne<W>(
    fuel: nat, s: Stmt, x: Noted<W>, last: int, m: Interp<W>, spell: Spelling)
    ensures Grows(x.1, MeaningOne(fuel, s, x, last, Recording(m), spell))
    decreases fuel, s, 0
  {
    match s
    case If(cond, yes, no) =>
      if m.test(cond, x.0) { Noting(fuel, yes, x, last, m, spell); } else { NotingElse(fuel, no, x, last, m, spell); }
    case Loop(header, body) => NotingTurns(fuel, header, body, Recording(m).init(header, x), last, m, spell);
    case _ =>
  }

  lemma {:induction false} NotingElse<W>(
    fuel: nat, e: Else, x: Noted<W>, last: int, m: Interp<W>, spell: Spelling)
    ensures Grows(x.1, MeaningElse(fuel, e, x, last, Recording(m), spell))
    decreases fuel, e, 0
  {
    match e
    case NoElse =>
    case ElseBody(body) => Noting(fuel, body, x, last, m, spell);
    case ElseIf(cond, yes, no) =>
      if m.test(cond, x.0) { Noting(fuel, yes, x, last, m, spell); } else { NotingElse(fuel, no, x, last, m, spell); }
  }

  lemma {:induction false} NotingTurns<W>(
    fuel: nat, header: Header, body: Body, x: Noted<W>, last: int, m: Interp<W>, spell: Spelling)
    ensures Grows(x.1, Turns(fuel, header, body, x, last, Recording(m), spell))
    decreases fuel, body, 2
  {
    if m.more(header, x.0) && fuel > 0 {
      Noting(fuel - 1, body, x, last, m, spell);
      match Meaning(fuel - 1, body, x, last, Recording(m), spell)
      case Goes(x', last') => NotingTurns(fuel - 1, header, body, Recording(m).step(header, x'), last', m, spell);
      case _ =>
    }
  }

  /** The two records differ where both have an entry. */
  ghost predicate Differ(a: seq<string>, b: seq<string>) {
    exists i :: 0 <= i < |a| && i < |b| && a[i] != b[i]
  }

  lemma DifferMore(a: seq<string>, b: seq<string>, a': seq<string>, b': seq<string>)
    requires Differ(a, b) && a <= a' && b <= b'
    ensures Differ(a', b')
  {
    var i :| 0 <= i < |a| && i < |b| && a[i] != b[i];
    assert a'[i] == a[i] && b'[i] == b[i];
  }

  /** Plain text is spelled as it stands, and no other text is. */
  ghost predicate Honest(spell: Spelling) {
    forall t :: spell(t) == Some(t) <==> PlainText(t)
  }

  /** Once a text that is not plain has been met, the records differ for good. */
  ghost predicate Parted<W>(o: Outcome<Noted<W>>, o': Outcome<Noted<W>>) {
    o.Garbled? || (!o'.Garbled? && Differ(o.w.1, o'.w.1))
  }

  lemma {:induction false} PartedRaw<W>(text: string, x: Noted<W>, m: Interp<W>, spell: Spelling)
    requires Honest(spell) && !PlainText(text)
    ensures spell(text).Some? ==>
              Parted(Result(Recording(m).write(spell(text).value, x)), Result(Recording(m).write(text, x)))
  {
    if spell(text).Some? {
      var a, b := x.1 + [spell(text).value], x.1 + [text];
      assert a[|x.1|] != b[|x.1|];
    }
  }

  lemma {:induction false} PartedRest<W>(
    fuel: nat, rest: Body, o: Outcome<Noted<W>>, o': Outcome<Noted<W>>, m: Interp<W>, spell: Spelling)
    requires Parted(o, o')
    ensures Parted(if o.Goes? then Meaning(fuel, rest, o.w, o.last, Recording(m), spell) else o,
                   if o'.Goes? then Meaning(fuel, rest, o'.w, o'.last, Recording(m), AsIs) else o')
  {
    if !o.Garbled? {
      var p := if o.Goes? then Meaning(fuel, rest, o.w, o.last, Recording(m), spell) else o;
      var p' := if o'.Goes? then Meaning(fuel, rest, o'.w, o'.last, Recording(m), AsIs) else o';
      if o.Goes? { Noting(fuel, rest, o.w, o.last, m, spell); }
      if o'.Goes? {
        Noting(fuel, rest, o'.w, o'.last, m, AsIs);
        Lax(fuel, rest, o'.w, o'.last, Recording(m), AsIs);
      }
      if !p.Garbled? { DifferMore(o.w.1, o'.w.1, p.w.1, p'.w.1); }
    }
  }

  lemma {:induction false} PartedTurns<W>(
    fuel: nat, header: Header, body: Body, o: Outcome<Noted<W>>, o': Outcome<Noted<W>>, m: Interp<W>, spell: Spelling)
    requires Parted(o, o')
    ensures var r := Recording(m);
            Parted(if o.Goes? then Turns(fuel, header, body, r.step(header, o.w), o.last, r, spell) else o,
                   if o'.Goes? then Turns(fuel, header, body, r.step(header, o'.w), o'.last, r, AsIs) else o')
  {
    if !o.Garbled? {
      var r := Recording(m);
      var p := if o.Goes? then Turns(fuel, header, body, r.step(header, o.w), o.last, r, spell) else o;
      var p' := if o'.Goes? then Turns(fuel, header, body, r.step(header, o'.w), o'.last, r, AsIs) else o';
      if o.Goes? { NotingTurns(fuel, header, body, r.step(header, o.w), o.last, m, spell); }
      if o'.Goes? {
        NotingTurns(fuel, header, body, r.step(header, o'.w), o'.last, m, AsIs);
        LaxTurns(fuel, header, body, r.step(header, o'.w), o'.last, r, AsIs);
      }
      if !p.Garbled? { DifferMore(o.w.1, o'.w.1, p.w.1, p'.w.1); }
    }
  }

  lemma {:induction false} Parts<W>(fuel: nat, b: Body, x: Noted<W>, last: int, m: Interp<W>, spell: Spelling)
    requires Honest(spell) && Meaning(fuel, b, x, last, Recording(m), PlainOnly).Garbled?
    ensures Parted(Meaning(fuel, b, x, last, Recording(m), spell), Meaning(fuel, b, x, last, Recording(m), AsIs))
    decreases fuel, b, 1
  {
    var Cons(s, rest) := b;
    var r := Recording(m);
    match MeaningOne(fuel, s, x, last, r, PlainOnly)
    case Goes(x', last') =>
      StrictOne(fuel, s, x, last, r, spell);
      StrictOne(fuel, s, x, last, r, AsIs);
      Parts(fuel, rest, x', last', m, spell);
    case Garbled =>
      PartsOne(fuel, s, x, last, m, spell);
      PartedRest(fuel, rest, MeaningOne(fuel, s, x, last, r, spell), MeaningOne(fuel, s, x, last, r, AsIs), m, spell);
  }

  lemma {:induction false} PartsOne<W>(fuel: nat, s: Stmt, x: Noted<W>, last: int, m: Interp<W>, spell: Spelling)
    requires Honest(spell) && MeaningOne(fuel, s, x, last, Recording(m), PlainOnly).Garbled?
    ensures Parted(MeaningOne(fuel, s, x, last, Recording(m), spell), MeaningOne(fuel, s, x, last, Recording(m), AsIs))
    decreases fuel, s, 0
  {
    match s
    case Raw(text) => PartedRaw(text, x, m, spell);
    case If(cond, yes, no) =>
      if m.test(cond, x.0) { Parts(fuel, yes, x, last, m, spell); } else { PartsElse(fuel, no, x, last, m, spell); }
    case Loop(header, body) => PartsTurns(fuel, header, body, Recording(m).init(header, x), last, m, spell);
  }

  lemma {:induction false} PartsElse<W>(fuel: nat, e: Else, x: Noted<W>, last: int, m: Interp<W>, spell: Spelling)
    requires Honest(spell) && MeaningElse(fuel, e, x, last, Recording(m), PlainOnly).Garbled?
    ensures Parted(MeaningElse(fuel, e, x, last, Recording(m), spell),
                   MeaningElse(fuel, e, x, last, Recording(m), AsIs))
    decreases fuel, e, 0
  {
    match e
    case ElseBody(body) => Parts(fuel, body, x, last, m, spell);
    case ElseIf(cond, yes, no) =>
      if m.test(cond, x.0) { Parts(fuel, yes, x, last, m, spell); } else { PartsElse(fuel, no, x, last, m, spell); }
  }

  lemma {:induction false} PartsTurns<W>(
    fuel: nat, header: Header, body: Body, x: Noted<W>, last: int, m: Interp<W>, spell: Spelling)
    requires Honest(spell) && Turns(fuel, header, body, x, last, Recording(m), PlainOnly).Garbled?
    ensures Parted(Turns(fuel, header, body, x, last, Recording(m), spell),
                   Turns(fuel, header, body, x, last, Recording(m), AsIs))
    decreases fuel, body, 2
  {
    var r := Recording(m);
    match Meaning(fuel - 1, body, x, last, r, PlainOnly)
    case Goes(x', last') =>
      Strict(fuel - 1, body, x, last, r, spell);
      Strict(fuel - 1, body, x, last, r, AsIs);
      PartsTurns(fuel - 1, header, body, r.step(header, x'), last', m, spell);
    case Garbled =>
      Parts(fuel - 1, body, x, last, m, spell);
      PartedTurns(fuel - 1, header, body,
                  Meaning(fuel - 1, body, x, last, r, spell), Meaning(fuel - 1, body, x, last, r, AsIs), m, spell);
  }

  lemma {:induction false} CodesNoted<W>(codes: seq<string>, x: Noted<W>, m: Interp<W>)
    ensures Codes(codes, x, Recording(m)).1 == x.1
    decreases |codes|
  {
    if codes != [] { CodesNoted(codes[1..], Recording(m).code(codes[0], x), m); }
  }

  // ------------------------------------------------------------------ correctness

  lemma {:induction false} SpelledHonest()
    ensures Honest(Spelled) && Keeps(Spelled) && Keeps(AsIs)
  {
    forall t
      ensures Spelled(t) == Some(t) <==> PlainText(t)
    {
      SpelledExact(t);
    }
  }

  /**
   * For every template, every run and every interpretation of its C parts, the
   * printed function does what the template means once its raw texts are
   * spelled as their literals spell them: the same writes in the same order and
   * nothing after the first failure.
   */
  lemma {:induction false} CompilerExact<W>(fuel: nat, d: Define, w: W, m: Interp<W>)
    ensures RunFunction(fuel, Emit(d.body), d.finally, w, m) == Called(fuel, d, w, m, Spelled)
  {
    ParseEmit(d.body, []);
    assert Emit(d.body) + [] == Emit(d.body);
    RunShape(fuel, d.body, w, 0, m);
  }

  /** The run comes to a raw text with a backslash or a newline in it. */
  predicate MeetsGarbled<W>(fuel: nat, d: Define, w: W, m: Interp<W>) {
    Meaning(fuel, d.body, w, 0, m, PlainOnly).Garbled?
  }

  /** A run that comes to no such text does what the template means. */
  lemma {:induction false} RunPreserved<W>(fuel: nat, d: Define, w: W, m: Interp<W>)
    requires !MeetsGarbled(fuel, d, w, m)
    ensures RunFunction(fuel, Emit(d.body), d.finally, w, m) == Direct(fuel, d, w, m)
  {
    CompilerExact(fuel, d, w, m);
    SpelledHonest();
    Strict(fuel, d.body, w, 0, m, Spelled);
    Strict(fuel, d.body, w, 0, m, AsIs);
  }

  lemma {:induction false} CalledApart<W>(fuel: nat, d: Define, x: Noted<W>, m: Interp<W>)
    requires var r := Recording(m);
             Parted(Meaning(fuel, d.body, x, 0, r, Spelled), Meaning(fuel, d.body, x, 0, r, AsIs))
    ensures Called(fuel, d, x, Recording(m), Spelled) != Direct(fuel, d, x, Recording(m))
  {
    var r := Recording(m);
    var o, o' := Meaning(fuel, d.body, x, 0, r, Spelled), Meaning(fuel, d.body, x, 0, r, AsIs);
    Lax(fuel, d.body, x, 0, r, AsIs);
    if !o.Garbled? {
      CodesNoted(d.finally, o.w, m);
      CodesNoted(d.finally, o'.w, m);
    }
  }

  /** With every write on record: it does so exactly if it comes to no such text. */
  lemma {:induction false} PreservedIff<W>(fuel: nat, d: Define, x: Noted<W>, m: Interp<W>)
    ensures RunFunction(fuel, Emit(d.body), d.finally, x, Recording(m)) == Direct(fuel, d, x, Recording(m)) <==>
            !MeetsGarbled(fuel, d, x, Recording(m))
  {
    var r := Recording(m);
    if MeetsGarbled(fuel, d, x, r) {
      CompilerExact(fuel, d, x, r);
      SpelledHonest();
      Parts(fuel, d.body, x, 0, m, Spelled);
      CalledApart(fuel, d, x, m);
    } else {
      RunPreserved(fuel, d, x, r);
    }
  }

  /** A template without such raw text is preserved in every run. */
  lemma {:induction false} CompilerPreserves<W>(fuel: nat, d: Define, w: W, m: Interp<W>)
    requires PlainBody(d.body)
    ensures RunFunction(fuel, Emit(d.body), d.finally, w, m) == Direct(fuel, d, w, m)
  {
    SpelledHonest();
    Strict(fuel, d.body, w, 0, m, AsIs);
    RunPreserved(fuel, d, w, m);
  }

  /** The printed function returns -1 exactly when the template, as its literals spell it, stopped at a failure. */
  lemma {:induction false} FailureReported<W>(fuel: nat, d: Define, w: W, m: Interp<W>)
    requires RunFunction(fuel, Emit(d.body), d.finally, w, m).Returned?
    ensures RunFunction(fuel, Emit(d.body), d.finally, w, m).ret == -1 <==>
            Meaning(fuel, d.body, w, 0, m, Spelled).Stops?
  {
    CompilerExact(fuel, d, w, m);
    Lax(fuel, d.body, w, 0, m, Spelled);
  }

  /** One escape in the raw text is read as C reads it, and the literal's NUL is written after it. */
  lemma {:induction false} OneEscapeWritten<W>(w: W, ret: int, m: Interp<W>)
    ensures var text := "a\\nb";
            |text| == 4 &&
            RunLine(WriteLiteral(Printq(text), |text|), w, ret, m) == Checked(m.write(['a', '\n', 'b', NUL], w))
  {
    var text := "a\\nb";
    assert text[1..] == "\\nb" && text[1..][1..] == "nb" && text[1..][2..] == "b";
    assert OneEscape("\\nb") && Unescaped("\\nb") == "\nb";
    assert OneEscape(text) && Unescaped(text) == "a\nb";
    assert text[1] in text;
    RawExact(text, w, ret, m);
    assert Unescaped(text) + [NUL] == ['a', '\n', 'b', NUL];
  }
}
