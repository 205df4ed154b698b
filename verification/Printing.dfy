/** The printer of expressions, and the parser undoing it. */
module Printing {
  import opened IR
  import opened Lexing
  import opened Locals
  import opened Parsing

  /** The names that are printed for loops and buffers. */
  datatype Labels = Labels(loop: LoopId -> string, buffer: nat -> string)

  function Infix(op: BinOp): string
  {
    match op
    case Add => " + "
    case Mul => " * "
    case Sub => " - "
    case Div => " / "
    case Max => "max"
    case Min => "min"
    case Pow => "pow"
  }

  predicate IsInfix(op: BinOp) { op == Add || op == Mul || op == Sub || op == Div }

  function FuncName(op: UnOp): string
  {
    match op
    case Exp => "exp"
    case Log => "log"
    case Sqrt => "sqrt"
    case Abs => "abs"
  }

  function PrintInt(i: int): string { if i < 0 then "-" + Decimal(-i) else Decimal(i) }

  /** dump. */
  function Print(n: Labels, e: Expr): string
    decreases e
  {
    match e
    case Const(i) => PrintInt(i)
    case Index(l, _) => n.loop(l)
    case LoadLocal(v) => v.name
    case Load(arg, subs, ty) =>
      n.buffer(arg) + "[" + PrintList(n, subs) + "]" + if ty.width != 1 then "." + Decimal(ty.width) else ""
    case Binary(op, a, b) =>
      if IsInfix(op) then "(" + Print(n, a) + " " + Infix(op) + " " + Print(n, b) + ")"
      else "(" + " " + Infix(op) + "(" + Print(n, a) + ", " + Print(n, b) + ")" + ")"
    case Unary(op, v) => " " + FuncName(op) + "(" + Print(n, v) + ")"
    case _ => ""
  }

  function PrintList(n: Labels, es: seq<Expr>): string
    decreases es
  {
    if es == [] then "" else if |es| == 1 then Print(n, es[0]) else Print(n, es[0]) + "," + PrintList(n, es[1..])
  }

  // ---- Parsing what was printed ---------------------------------------------------------------------------

  /** Integer constants, and names that stand for one thing only and are not reserved. */
  predicate Printable(c: Names, n: Labels, e: Expr)
  {
    match e
    case Const(i) => IntSized(i)
    case Index(l, w) => w == 1 && IsName(n.loop(l)) && n.loop(l) in c.loops && c.loops[n.loop(l)] == l
    case LoadLocal(v) => IsName(v.name) && v.name !in c.loops && v.name in c.vars && c.vars[v.name] == v
    case Load(arg, subs, ty) =>
      var x := n.buffer(arg);
      IsName(x) && x !in c.loops && x !in c.vars && x in c.args && c.args[x] == Buffer(arg, ty.elem, |subs|) &&
        IsWidth(ty.width) &&
      PrintableAll(c, n, subs) && subs != []
    case Binary(_, a, b) => TypeOf(a) == TypeOf(b) && Printable(c, n, a) && Printable(c, n, b)
    case Unary(_, v) => Printable(c, n, v)
    case _ => false
  }

  predicate PrintableAll(c: Names, n: Labels, es: seq<Expr>)
  {
    es == [] || (Printable(c, n, es[0]) && PrintableAll(c, n, es[1..]))
  }

  /** What may follow an expression: it ends the last token, and no vector width follows. */
  predicate Follows(r: string) { Ends(r) && Lex(r).tok != Punct(".") }

  lemma {:induction false} DecimalDigits(n: nat)
    ensures (forall c | c in Decimal(n) :: IsDigit(c)) && DigitsValue(Decimal(n)) == n
  {
    var s := Decimal(n);
    if n >= 10 {
      DecimalDigits(n / 10);
      assert s[..|s| - 1] == Decimal(n / 10);
    } else {
      assert s[..0] == [];
    }
  }

  lemma {:induction false} IntBack(i: int, r: string)
    requires Ends(r)
    ensures Lex(PrintInt(i) + r) == Lexed(IntLit(PrintInt(i)), r) && Atoi(PrintInt(i)) == Narrow(i)
  {
    hide Lex, Narrow, Decimal;
    var n := if i < 0 then -i else i;
    DecimalDigits(n);
    if i < 0 {
      LexMinus(Decimal(n), r);
      assert ("-" + Decimal(n))[1..] == Decimal(n);
      assert "-" + Decimal(n) + r == ['-'] + Decimal(n) + r;
    } else {
      LexDigits(Decimal(n), r);
      assert Decimal(n)[0] in Decimal(n);
    }
  }

  lemma {:induction false} NameBack(x: string, r: string)
    requires IsName(x) && Ends(r)
    ensures Lex(x + r) == Lexed(Ident(x), r)
  {
    LexWord(x, r);
  }

  /** An operator between blanks. */
  lemma {:induction false} OperatorBack(op: BinOp, s: string)
    requires IsInfix(op)
    ensures var t := " " + Infix(op) + " " + s;
      Follows(t) && InfixOp(Lex(t).tok) == Some(op) && Lex(t).rest == "  " + s && Precedence(Lex(t).tok) > 0
  {
    var sym := Infix(op)[1..2];
    var t := " " + Infix(op) + " " + s;
    var u := sym + "  " + s;
    assert t == "  " + u;
    LexBlanks(u);
    assert u[0] == sym[0] && u[1] == ' ' && u[1..] == "  " + s && u[..1] == sym;
    if op == Mul { LexPlain('*', "  " + s); assert u == ['*'] + ("  " + s); }
  }

  /** What is printed for e is parsed as e, whatever follows it. */
  ghost predicate ParsedBack(c: Names, n: Labels, e: Expr, r: string)
  {
    ParsePrimary(c, Lex(Print(n, e) + r)) == Parsed(e, Lex(r))
  }

  /** A primary expression before a token that is no operator is a whole expression. */
  lemma {:induction false} WholeExpr(c: Names, n: Labels, e: Expr, r: string, rbp: nat)
    requires ParsedBack(c, n, e, r) && Precedence(Lex(r).tok) <= rbp
    ensures ParseExpr(c, Lex(Print(n, e) + r), rbp) == Parsed(e, Lex(r))
  {}

  lemma {:induction false} Closing(p: char, r: string)
    requires p == ')' || p == ']' || p == ','
    ensures var s := [p] + r; Lex(s) == Lexed(Punct([p]), r) && Follows(s) && Precedence(Lex(s).tok) == 0
  {
    LexPlain(p, r);
  }

  lemma {:induction false} InfixBack(c: Names, n: Labels, e: Expr, r: string)
    requires e.Binary? && IsInfix(e.op) && TypeOf(e.lhs) == TypeOf(e.rhs)
    requires ParsedBack(c, n, e.lhs, " " + Infix(e.op) + " " + Print(n, e.rhs) + ")" + r)
    requires ParsedBack(c, n, e.rhs, ")" + r)
    ensures ParsedBack(c, n, e, r)
  {
    hide Infix, Print, Lex;
    var a, b := Print(n, e.lhs), Print(n, e.rhs);
    var tail := b + ")" + r;
    var r1 := " " + Infix(e.op) + " " + tail;
    assert " " + Infix(e.op) + " " + b + ")" + r == r1;
    InfixPrinted(n, e, r);
    var s := a + r1;
    LexPlain('(', s);
    OperatorBack(e.op, tail);
    LexBlanks(tail);
    Closing(')', r);
    assert b + (")" + r) == tail;
    var lbp := Precedence(Lex(r1).tok);
    WholeExpr(c, n, e.rhs, ")" + r, lbp);
    var st := Lex(s);
    assert ParsePrimary(c, st) == Parsed(e.lhs, Lex(r1));
    assert ParseRest(c, e.lhs, Lex(r1), 0) == ParseRest(c, e, Lex(")" + r), 0);
    assert ParseRest(c, e, Lex(")" + r), 0) == Parsed(e, Lex(")" + r));
    assert ParseExpr(c, st, 0) == Parsed(e, Lex(")" + r));
  }

  lemma {:induction false} InfixPrinted(n: Labels, e: Expr, r: string)
    requires e.Binary? && IsInfix(e.op)
    ensures Print(n, e) + r ==
      ['('] + (Print(n, e.lhs) + (" " + Infix(e.op) + " " + (Print(n, e.rhs) + ")" + r)))
  {}

  lemma {:induction false} CallBack(c: Names, n: Labels, e: Expr, r: string)
    requires e.Binary? && !IsInfix(e.op) && TypeOf(e.lhs) == TypeOf(e.rhs)
    requires ParsedBack(c, n, e.lhs, ", " + Print(n, e.rhs) + "))" + r)
    requires ParsedBack(c, n, e.rhs, "))" + r)
    ensures ParsedBack(c, n, e, r)
  {
    hide Print, Lex, ParseExpr, ParsePrimary;
    var a, b, f := Print(n, e.lhs), Print(n, e.rhs), Infix(e.op);
    var r2 := "))" + r;
    var tail := b + r2;
    var r1 := ", " + tail;
    assert ", " + b + "))" + r == r1;
    CallPrinted(n, e, r);
    var args := a + r1;
    var s := ['('] + args;
    LexPlain('(', [' '] + (f + s));
    LexBlank(f + s);
    FuncWord(f, s);
    LexPlain('(', args);
    assert r1 == [','] + ([' '] + tail);
    Closing(',', [' '] + tail);
    LexBlank(tail);
    assert r2 == [')'] + ([')'] + r);
    Closing(')', [')'] + r);
    Closing(')', r);
    WholeExpr(c, n, e.lhs, r1, 0);
    WholeExpr(c, n, e.rhs, r2, 0);
    TwoArgs(c, e, Lex(args), Lex(tail), Lex(r1), Lex(r2));
    BuiltinParsed(c, e, f, Lex(f + s), Lex([')'] + r));
    ParenParsed(c, e, Lex(['('] + ([' '] + (f + s))), Lex([')'] + r));
  }

  lemma {:induction false} CallPrinted(n: Labels, e: Expr, r: string)
    requires e.Binary? && !IsInfix(e.op)
    ensures Print(n, e) + r ==
      ['('] + ([' '] + (Infix(e.op) + (['('] + (Print(n, e.lhs) + (", " + (Print(n, e.rhs) + ("))" + r)))))))
  {}

  lemma {:induction false} FuncWord(f: string, s: string)
    requires f in FUNCS && Ends(s)
    ensures Lex(f + s) == Lexed(Func(f), s)
  {
    LexWord(f, s);
  }

  /** Two arguments and the closing parenthesis. */
  lemma {:induction false} TwoArgs(c: Names, e: Expr, st: Lexed, st2: Lexed, comma: Lexed, close: Lexed)
    requires e.Binary? && ParseExpr(c, st, 0) == Parsed(e.lhs, comma) && comma.tok == Punct(",") && Next(comma) == st2
    requires ParseExpr(c, st2, 0) == Parsed(e.rhs, close) && close.tok == Punct(")")
    ensures ParseList(c, st, Punct(")")) == ParsedList([e.lhs, e.rhs], Next(close))
  {
    assert ParseList(c, st2, Punct(")")) == ParsedList([e.rhs], Next(close));
    assert [e.lhs] + [e.rhs] == [e.lhs, e.rhs];
  }

  lemma {:induction false} BuiltinParsed(c: Names, e: Expr, f: string, st: Lexed, end: Lexed)
    requires e.Binary? && !IsInfix(e.op) && TypeOf(e.lhs) == TypeOf(e.rhs) && f == Infix(e.op) && st.tok == Func(f)
    requires Next(st).tok == Punct("(") && ParseList(c, Next(Next(st)), Punct(")")) == ParsedList([e.lhs, e.rhs], end)
    ensures ParsePrimary(c, st) == Parsed(e, end)
  {}

  lemma {:induction false} ParenParsed(c: Names, e: Expr, st: Lexed, close: Lexed)
    requires st.tok == Punct("(") && ParsePrimary(c, Next(st)) == Parsed(e, close) && close.tok == Punct(")")
    ensures ParsePrimary(c, st) == Parsed(e, Next(close))
  {
    assert Precedence(close.tok) == 0;
    assert ParseExpr(c, Next(st), 0) == Parsed(e, close);
  }

  lemma {:induction false} UnaryBack(c: Names, n: Labels, e: Expr, r: string)
    requires e.Unary? && ParsedBack(c, n, e.val, ")" + r)
    ensures ParsedBack(c, n, e, r)
  {
    hide Print, Lex, ParseExpr, ParsePrimary;
    var a, f := Print(n, e.val), FuncName(e.un);
    var args := a + (")" + r);
    var s := ['('] + args;
    UnaryPrinted(n, e, r);
    LexBlank(f + s);
    FuncWord(f, s);
    LexPlain('(', args);
    Closing(')', r);
    WholeExpr(c, n, e.val, ")" + r, 0);
    assert ParseList(c, Lex(args), Punct(")")) == ParsedList([e.val], Lex(r));
    UnaryParsed(c, e, f, Lex(f + s), Lex(r));
  }

  lemma {:induction false} UnaryPrinted(n: Labels, e: Expr, r: string)
    requires e.Unary?
    ensures Print(n, e) + r == [' '] + (FuncName(e.un) + (['('] + (Print(n, e.val) + (")" + r))))
  {}

  lemma {:induction false} UnaryParsed(c: Names, e: Expr, f: string, st: Lexed, end: Lexed)
    requires e.Unary? && f == FuncName(e.un) && st.tok == Func(f)
    requires Next(st).tok == Punct("(") && ParseList(c, Next(Next(st)), Punct(")")) == ParsedList([e.val], end)
    ensures ParsePrimary(c, st) == Parsed(e, end)
  {}

  lemma {:induction false} LoadBack(c: Names, n: Labels, e: Expr, r: string)
    requires e.Load? && Printable(c, n, e) && Follows(r)
    requires var tail := if e.ty.width != 1 then "." + Decimal(e.ty.width) + r else r;
      ParseList(c, Lex(PrintList(n, e.subs) + ("]" + tail)), Punct("]")) == ParsedList(e.subs, Lex(tail))
    ensures ParsedBack(c, n, e, r)
  {
    hide Print, PrintList, PrintableAll, ParseExpr, ParseList, Lex, Atoi, Decimal, IsName;
    var x := n.buffer(e.arg);
    var tail := if e.ty.width != 1 then "." + Decimal(e.ty.width) + r else r;
    var list := PrintList(n, e.subs) + ("]" + tail);
    LoadPrinted(n, e, r);
    NameBack(x, ['['] + list);
    LexPlain('[', list);
    if e.ty.width != 1 { WidthBack(e.ty.width, r); }
    var st := Lex(Print(n, e) + r);
    assert st.tok == Ident(x) && Next(st) == Lexed(Punct("["), list);
    assert ParseList(c, Next(Next(st)), Punct("]")) == ParsedList(e.subs, Lex(tail));
    assert e == Load(e.arg, e.subs, ExprType(e.ty.elem, e.ty.width));
    assert ParseName(c, x, st) == Parsed(e, Lex(r));
  }

  /** A printed vector width. */
  lemma {:induction false} WidthBack(width: nat, r: string)
    requires Ends(r) && IsWidth(width)
    ensures var s := Lex("." + Decimal(width) + r);
      s.tok == Punct(".") && Next(s) == Lexed(IntLit(Decimal(width)), r) && Atoi(Decimal(width)) == width
  {
    hide Decimal;
    var w := Decimal(width);
    DecimalDigits(width);
    assert w[0] in w;
    LexPeriod(w + r);
    assert "." + w + r == ['.'] + (w + r);
    LexDigits(w, r);
  }

  lemma {:induction false} LexPeriod(s: string)
    requires s != [] && s[0] != '.'
    ensures Lex(['.'] + s) == Lexed(Punct("."), s)
  {
    var t := ['.'] + s;
    assert t[1..] == s && t[1] == s[0];
  }

  lemma {:induction false} LoadPrinted(n: Labels, e: Expr, r: string)
    requires e.Load?
    ensures var tail := if e.ty.width != 1 then "." + Decimal(e.ty.width) + r else r;
      Print(n, e) + r == n.buffer(e.arg) + (['['] + (PrintList(n, e.subs) + ("]" + tail)))
  {}

  /** A printed subscript list, up to its bracket. */
  lemma {:induction false} ListBack(c: Names, n: Labels, es: seq<Expr>, r: string)
    requires PrintableAll(c, n, es) && es != []
    ensures ParseList(c, Lex(PrintList(n, es) + ("]" + r)), Punct("]")) == ParsedList(es, Lex(r))
    decreases es, 0
  {
    hide Print, Lex, ParseExpr, ParsePrimary;
    Closing(']', r);
    assert "]" + r == [']'] + r;
    if |es| == 1 {
      PrintedBack(c, n, es[0], "]" + r);
      WholeExpr(c, n, es[0], "]" + r, 0);
      assert es == [es[0]];
    } else {
      var rest := PrintList(n, es[1..]) + ("]" + r);
      var r1 := [','] + rest;
      assert PrintList(n, es) + ("]" + r) == Print(n, es[0]) + r1;
      Closing(',', rest);
      PrintedBack(c, n, es[0], r1);
      WholeExpr(c, n, es[0], r1, 0);
      ListBack(c, n, es[1..], r);
      assert [es[0]] + es[1..] == es;
    }
  }

  /** Lexing and parsing what dump prints yields the same expression. */
  lemma {:induction false} PrintedBack(c: Names, n: Labels, e: Expr, r: string)
    requires Printable(c, n, e) && Follows(r)
    ensures ParsedBack(c, n, e, r)
    decreases e, 1
  {
    hide ParsedBack, Follows, Print, Infix, Lex, Ends, PrintList, IsName;
    match e
    case Binary(op, a, b) =>
      if IsInfix(op) {
        var tail := Print(n, b) + ")" + r;
        InfixFollowed(op, Print(n, b), r);
        PrintedBack(c, n, a, " " + Infix(op) + " " + tail);
        PrintedBack(c, n, b, ")" + r);
        InfixBack(c, n, e, r);
      } else {
        CallFollowed(Print(n, b), r);
        PrintedBack(c, n, a, ", " + Print(n, b) + "))" + r);
        PrintedBack(c, n, b, "))" + r);
        CallBack(c, n, e, r);
      }
    case Unary(_, v) =>
      Closing(')', r);
      PrintedBack(c, n, v, ")" + r);
      UnaryBack(c, n, e, r);
    case Load(_, subs, ty) =>
      ListBack(c, n, subs, if ty.width != 1 then "." + Decimal(ty.width) + r else r);
      LoadBack(c, n, e, r);
    case _ => LeafBack(c, n, e, r);
  }

  lemma {:induction false} LeafBack(c: Names, n: Labels, e: Expr, r: string)
    requires Printable(c, n, e) && Follows(r) && (e.Const? || e.Index? || e.LoadLocal?)
    ensures ParsedBack(c, n, e, r)
  {
    hide Lex, IsName, Ends, PrintInt, Atoi, Narrow, Decimal;
    assert Ends(r);
    match e
    case Const(i) => IntBack(i, r);
    case Index(l, w) =>
      NameBack(n.loop(l), r);
      assert e == Index(l, 1);
      assert ParseName(c, n.loop(l), Lex(Print(n, e) + r)) == Parsed(e, Lex(r));
    case LoadLocal(v) =>
      NameBack(v.name, r);
      assert ParseName(c, v.name, Lex(Print(n, e) + r)) == Parsed(e, Lex(r));
  }

  lemma {:induction false} InfixFollowed(op: BinOp, b: string, r: string)
    requires IsInfix(op)
    ensures " " + Infix(op) + " " + (b + ")" + r) == " " + Infix(op) + " " + b + ")" + r
    ensures Follows(" " + Infix(op) + " " + (b + ")" + r)) && Follows(")" + r)
  {
    OperatorBack(op, b + ")" + r);
    Closing(')', r);
  }

  lemma {:induction false} CallFollowed(b: string, r: string)
    ensures Follows(", " + b + "))" + r) && Follows("))" + r)
  {
    hide Lex;
    var tail := b + "))" + r;
    Closing(',', [' '] + tail);
    assert [','] + ([' '] + tail) == ", " + b + "))" + r;
    Closing(')', [')'] + r);
    assert [')'] + ([')'] + r) == "))" + r;
  }

  /** The round trip of a whole expression. */
  lemma {:induction false} ParsePrinted(c: Names, n: Labels, e: Expr)
    requires Printable(c, n, e)
    ensures ParseExpr(c, Lex(Print(n, e)), 0) == Parsed(e, Lexed(Eof, []))
  {
    PrintedBack(c, n, e, []);
    WholeExpr(c, n, e, [], 0);
    assert Print(n, e) + [] == Print(n, e);
  }

  /** A constant alone comes back exactly when the int that receives it can hold it. */
  lemma {:induction false} ConstExactly(c: Names, n: Labels, i: int)
    ensures ParseExpr(c, Lex(Print(n, Const(i))), 0) == Parsed(Const(i), Lexed(Eof, [])) <==> IntSized(i)
  {
    hide Lex, Atoi, PrintInt;
    IntBack(i, []);
    assert PrintInt(i) + [] == PrintInt(i) == Print(n, Const(i));
    assert Lex([]) == Lexed(Eof, []) by { LexNothing(); }
    var st := Lex(PrintInt(i));
    assert ParsePrimary(c, st) == Parsed(Const(Narrow(i)), Lexed(Eof, []));
    assert ParseExpr(c, st, 0) == ParsePrimary(c, st);
  }

  lemma {:induction false} LexNothing()
    ensures Lex([]) == Lexed(Eof, [])
  {}

  // ---- Precedence and associativity ------------------------------------------------------------------------

  /** The reading of operators: products bind tighter than sums. */
  function Level(op: BinOp): (l: nat)
    ensures 1 <= l <= 2
  {
    if op == Mul || op == Div then 2 else 1
  }

  /**
   * An infix tree with no parentheses but those it needs where operators of level q or less may not appear:
   * a left operand may repeat its operator's level, a right operand must be above it.
   */
  function PrintSpare(n: Labels, e: Expr, q: nat): string
    decreases e
  {
    if e.Binary? && IsInfix(e.op) then
      var body := SpareBody(n, e);
      if Level(e.op) > q then body else "(" + body + ")"
    else Print(n, e)
  }

  function SpareBody(n: Labels, e: Expr): string
    requires e.Binary? && IsInfix(e.op)
    decreases e, 0
  {
    PrintSpare(n, e.lhs, Level(e.op) - 1) + (" " + Infix(e.op) + " " + PrintSpare(n, e.rhs, Level(e.op)))
  }

  /** The binding power that stops at operators of level l. */
  function Power(l: nat): nat
  {
    if l == 0 then 0 else if l == 1 then Precedence(Punct("+")) else Precedence(Punct("*"))
  }

  /** The least level that may follow e without being taken into it. */
  function Top(e: Expr, q: nat): nat { if e.Binary? && IsInfix(e.op) && Level(e.op) > q then Level(e.op) else 2 }

  /** Parsing goes on after e as if e were a single token. */
  ghost predicate ReadAs(c: Names, text: string, e: Expr, r: string, rbp: nat)
  {
    ParseExpr(c, Lex(text + r), rbp) == ParseRest(c, e, Lex(r), rbp)
  }

  lemma {:induction false} OperatorPower(op: BinOp, s: string)
    requires IsInfix(op)
    ensures Precedence(Lex(" " + Infix(op) + " " + s).tok) == Power(Level(op))
  {
    var t := " " + Infix(op) + " " + s;
    OperatorBack(op, s);
    hide Lex;
    assert InfixOp(Lex(t).tok) == Some(op);
  }

  lemma {:induction false} SpareBack(c: Names, n: Labels, e: Expr, q: nat, r: string, rbp: nat)
    requires Printable(c, n, e) && Follows(r) && rbp <= Power(q) && Precedence(Lex(r).tok) <= Power(Top(e, q))
    ensures ReadAs(c, PrintSpare(n, e, q), e, r, rbp)
    decreases e, 2
  {
    hide Lex, Print, ParsePrimary, Follows;
    if e.Binary? && IsInfix(e.op) {
      if Level(e.op) > q {
        SpareInfix(c, n, e, r, rbp);
      } else {
        Closing(')', r);
        SpareInfix(c, n, e, [')'] + r, 0);
        SpareParen(c, e, SpareBody(n, e), r, rbp);
      }
    } else {
      PrintedBack(c, n, e, r);
    }
  }

  lemma {:induction false} SpareParen(c: Names, e: Expr, body: string, r: string, rbp: nat)
    requires ReadAs(c, body, e, [')'] + r, 0)
    ensures ReadAs(c, "(" + body + ")", e, r, rbp)
  {
    hide Lex;
    Closing(')', r);
    var s := body + ([')'] + r);
    assert "(" + body + ")" + r == ['('] + s;
    LexPlain('(', s);
    assert ParseExpr(c, Lex(s), 0) == Parsed(e, Lex([')'] + r));
    assert ParsePrimary(c, Lex(['('] + s)) == Parsed(e, Lex(r));
  }

  lemma {:induction false} SpareInfix(c: Names, n: Labels, e: Expr, r: string, rbp: nat)
    requires e.Binary? && IsInfix(e.op) && Printable(c, n, e) && Follows(r)
    requires rbp < Power(Level(e.op)) && rbp <= Power(Level(e.op) - 1)
    requires Precedence(Lex(r).tok) <= Power(Level(e.op))
    ensures ReadAs(c, SpareBody(n, e), e, r, rbp)
    decreases e, 1
  {
    hide Lex, Follows, Infix, ParseExpr, ParseRest, ParsePrimary, PrintSpare;
    var p := Level(e.op);
    var a, b := PrintSpare(n, e.lhs, p - 1), PrintSpare(n, e.rhs, p);
    var r1 := " " + Infix(e.op) + " " + (b + r);
    OperatorBack(e.op, b + r);
    OperatorPower(e.op, b + r);
    SpareBack(c, n, e.lhs, p - 1, r1, rbp);
    SpareBack(c, n, e.rhs, p, r, Power(p));
    SpareJoin(c, e, a, b, r, rbp);
    assert SpareBody(n, e) == a + (" " + Infix(e.op) + " " + b);
  }

  lemma {:induction false} SpareJoin(c: Names, e: Expr, a: string, b: string, r: string, rbp: nat)
    requires e.Binary? && IsInfix(e.op) && TypeOf(e.lhs) == TypeOf(e.rhs)
    requires rbp < Power(Level(e.op)) && Precedence(Lex(r).tok) <= Power(Level(e.op))
    requires ReadAs(c, a, e.lhs, " " + Infix(e.op) + " " + (b + r), rbp) && ReadAs(c, b, e.rhs, r, Power(Level(e.op)))
    ensures ReadAs(c, a + (" " + Infix(e.op) + " " + b), e, r, rbp)
  {
    hide Lex, Infix, ParseExpr, ParsePrimary, Level;
    var p := Power(Level(e.op));
    var r1 := " " + Infix(e.op) + " " + (b + r);
    assert a + (" " + Infix(e.op) + " " + b) + r == a + r1;
    OperatorBack(e.op, b + r);
    OperatorPower(e.op, b + r);
    LexBlanks(b + r);
    assert ParseRest(c, e.rhs, Lex(r), p) == Parsed(e.rhs, Lex(r));
    var st := Lex(r1);
    assert Next(st) == Lex(b + r);
    assert ParseExpr(c, Next(st), p) == Parsed(e.rhs, Lex(r));
  }

  /** Precedence climbing reads a minimally parenthesized tree back: * and / before + and -, and each from the left. */
  lemma {:induction false} ParseSpare(c: Names, n: Labels, e: Expr)
    requires Printable(c, n, e)
    ensures ParseExpr(c, Lex(PrintSpare(n, e, 0)), 0) == Parsed(e, Lexed(Eof, []))
  {
    var text := PrintSpare(n, e, 0);
    assert text + [] == text;
    SpareBack(c, n, e, 0, [], 0);
  }
}
