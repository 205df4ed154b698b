/** The expression parser: precedence climbing over the lexer's tokens. */
module Parsing {
  import opened IR
  import opened Lexing

  /** A buffer as the parser knows it. */
  datatype Buffer = Buffer(index: nat, elem: ElemKind, dims: nat)

  /** The names in scope. */
  datatype Names = Names(loops: map<string, LoopId>, vars: map<string, LocalVar>, args: map<string, Buffer>)

  datatype Parsed = Failed | Parsed(e: Expr, st: Lexed)
  datatype ParsedList = FailedList | ParsedList(es: seq<Expr>, st: Lexed)

  /** How much input is left, the current token included. */
  function Left(st: Lexed): nat { |st.rest| + if st.tok == Eof then 0 else 1 }

  function Next(st: Lexed): (r: Lexed)
    ensures st.tok != Eof ==> Left(r) < Left(st)
  {
    Lex(st.rest)
  }

  /** getBinOpPrecedence. */
  function Precedence(t: Token): nat
  {
    if !t.Punct? then 0
    else if t.sym == "." then 100
    else if t.sym == "!" then 90
    else if t.sym == "*" || t.sym == "/" then 80
    else if t.sym == "+" || t.sym == "-" then 70
    else if t.sym == ">" || t.sym == ">=" || t.sym == "<" || t.sym == "<=" then 60
    else if t.sym == "!=" || t.sym == "==" then 50
    else 0
  }

  function InfixOp(t: Token): Option<BinOp>
  {
    if t == Punct("+") then Some(Add)
    else if t == Punct("*") then Some(Mul)
    else if t == Punct("/") then Some(Div)
    else if t == Punct("-") then Some(Sub)
    else None
  }

  /** tryToAdjustTypes: a scalar beside a vector is broadcast. */
  function Adjusted(a: Expr, b: Expr): (Expr, Expr)
  {
    var s, t := TypeOf(a), TypeOf(b);
    if s == t then (a, b)
    else if s.width > 0 && t.width == 1 then (a, Broadcast(b, s.width))
    else if t.width > 0 && s.width == 1 then (Broadcast(a, t.width), b)
    else (a, b)
  }

  /** The value of decimal digits. */
  function DigitsValue(s: string): int
  {
    if s == [] then 0 else DigitsValue(s[..|s| - 1]) * 10 + (s[|s| - 1] as int - '0' as int)
  }

  /** What fits the int that holds a parsed literal. */
  predicate IntSized(i: int) { -0x8000_0000 <= i < 0x8000_0000 }

  /** The low 32 bits, read with their sign. */
  function Narrow(i: int): (r: int)
    ensures IntSized(r) && (r == i <==> IntSized(i))
  {
    (i + 0x8000_0000) % 0x1_0000_0000 - 0x8000_0000
  }

  /** atoi. A literal of more than 32 bits is cut, as the int that receives it does. */
  function Atoi(s: string): int
  {
    Narrow(if s != [] && s[0] == '-' then -DigitsValue(s[1..]) else DigitsValue(s))
  }

  /** The widths that ExprType's assertion lets through. */
  predicate IsWidth(w: int) { 0 < w < 64 }

  function ParsePrimary(c: Names, st: Lexed): (r: Parsed)
    ensures r.Parsed? ==> Left(r.st) < Left(st)
    decreases Left(st), 0
  {
    match st.tok
    case IntLit(x) => Parsed(Const(Atoi(x)), Next(st))
    case Ident(x) => ParseName(c, x, st)
    case Func(f) => ParseBuiltin(c, f, st)
    case Punct(p) =>
      if p != "(" then Failed
      else
        (match ParseExpr(c, Next(st), 0)
         case Failed => Failed
         case Parsed(e, s1) => if s1.tok == Punct(")") then Parsed(e, Next(s1)) else Failed)
    // Floats and strings are constants of their own; they are not part of this model.
    case _ => Failed
  }

  /** A loop, a local variable, or an element of a buffer. */
  function ParseName(c: Names, x: string, st: Lexed): (r: Parsed)
    requires st.tok == Ident(x)
    ensures r.Parsed? ==> Left(r.st) < Left(st)
    decreases Left(st), 0, 0
  {
    var s1 := Next(st);
    if x in c.loops then Parsed(Index(c.loops[x], 1), s1)
    else if x in c.vars then Parsed(LoadLocal(c.vars[x]), s1)
    else if s1.tok != Punct("[") || x !in c.args then Failed
    else
      match ParseList(c, Next(s1), Punct("]"))
      case FailedList => Failed
      case ParsedList(es, s2) =>
        var a := c.args[x];
        if |es| != a.dims then Failed
        else if s2.tok == Punct(".") then
          (var s3 := Next(s2);
           if s3.tok.IntLit? && IsWidth(Atoi(s3.tok.text))
           then Parsed(Load(a.index, es, ExprType(a.elem, Atoi(s3.tok.text))), Next(s3))
           else Failed)
        else Parsed(Load(a.index, es, ExprType(a.elem, 1)), s2)
  }

  /** Expressions separated by commas, up to the closing token. */
  function ParseList(c: Names, st: Lexed, close: Token): (r: ParsedList)
    requires close != Eof
    ensures r.ParsedList? ==> Left(r.st) < Left(st)
    decreases Left(st), 2
  {
    match ParseExpr(c, st, 0)
    case Failed => FailedList
    case Parsed(e, s1) =>
      if s1.tok == close then ParsedList([e], Next(s1))
      else if s1.tok == Punct(",") then
        (match ParseList(c, Next(s1), close)
         case FailedList => FailedList
         case ParsedList(es, s2) => ParsedList([e] + es, s2))
      else FailedList
  }

  /** The built-in functions of one argument. */
  function UnaryNamed(f: string): UnOp
  {
    if f == "log" then Log else if f == "exp" then Exp else if f == "sqrt" then Sqrt else Abs
  }

  function ParseBuiltin(c: Names, f: string, st: Lexed): (r: Parsed)
    requires st.tok == Func(f)
    ensures r.Parsed? ==> Left(r.st) < Left(st)
    decreases Left(st), 0, 0
  {
    var s1 := Next(st);
    if s1.tok != Punct("(") then Failed
    else
      match ParseList(c, Next(s1), Punct(")"))
      case FailedList => Failed
      case ParsedList(es, s2) =>
        if f == "max" || f == "min" || f == "pow" then
          (if |es| != 2 || TypeOf(es[0]) != TypeOf(es[1]) then Failed
           else Parsed(Binary(if f == "max" then Max else if f == "min" then Min else Pow, es[0], es[1]), s2))
        else if |es| != 1 then Failed
        else
          Parsed(Unary(UnaryNamed(f), es[0]), s2)
  }

  function ParseExpr(c: Names, st: Lexed, rbp: nat): (r: Parsed)
    ensures r.Parsed? ==> Left(r.st) < Left(st)
    decreases Left(st), 1
  {
    match ParsePrimary(c, st)
    case Failed => Failed
    case Parsed(lhs, s1) => ParseRest(c, lhs, s1, rbp)
  }

  /** As long as the next operator binds tighter than rbp. */
  function ParseRest(c: Names, lhs: Expr, st: Lexed, rbp: nat): (r: Parsed)
    ensures r.Parsed? ==> Left(r.st) <= Left(st)
    decreases Left(st), 3
  {
    var lbp := Precedence(st.tok);
    if rbp >= lbp then Parsed(lhs, st)
    else
      match ParseExpr(c, Next(st), lbp)
      case Failed => Failed
      case Parsed(rhs, s1) =>
        var op := InfixOp(st.tok);
        var (a, b) := Adjusted(lhs, rhs);
        if op.None? || TypeOf(a) != TypeOf(b) then Failed
        else ParseRest(c, Binary(op.value, a, b), s1, rbp)
  }

  /** A list with these expressions before it. */
  function After(done: seq<Expr>, l: ParsedList): ParsedList
  {
    if l.FailedList? then l else ParsedList(done + l.es, l.st)
  }

  /** One more element of a list, and the comma after it. */
  lemma {:induction false} ListStep(c: Names, done: seq<Expr>, st: Lexed, e: Expr, s1: Lexed, close: Token)
    requires close != Eof && close != Punct(",")
    requires ParseExpr(c, st, 0) == Parsed(e, s1) && s1.tok == Punct(",")
    ensures After(done, ParseList(c, st, close)) == After(done + [e], ParseList(c, Next(s1), close))
  {
    hide ParseExpr, Lex;
    var l := ParseList(c, Next(s1), close);
    if l.ParsedList? { assert done + ([e] + l.es) == done + [e] + l.es; }
  }

  // ---- The parser as the source runs it: one current token, consumed step by step -------------------------

  class Parser {
    const names: Names
    var st: Lexed

    constructor (c: Names, text: string)
      ensures names == c && st == Lex(text)
    {
      names := c;
      st := Lex(text);
    }

    /** What a method that parses one expression has done. */
    ghost predicate Did(want: Parsed, e: Option<Expr>)
      reads this
    {
      match want
      case Failed => e.None?
      case Parsed(x, s) => e == Some(x) && st == s
    }

    ghost predicate DidList(want: ParsedList, es: Option<seq<Expr>>)
      reads this
    {
      match want
      case FailedList => es.None?
      case ParsedList(xs, s) => es == Some(xs) && st == s
    }

    method Consume()
      modifies this
      ensures st == Next(old(st))
    {
      st := Next(st);
    }

    method Expr(rbp: nat) returns (e: Option<Expr>)
      modifies this
      ensures Did(ParseExpr(names, old(st), rbp), e)
      decreases Left(st), 1
    {
      ghost var start := st;
      e := Primary();
      if e.None? { return; }
      while rbp < Precedence(st.tok)
        invariant e.Some? && Left(st) < Left(start)
        invariant ParseExpr(names, start, rbp) == ParseRest(names, e.value, st, rbp)
        decreases Left(st)
      {
        var op, lbp := InfixOp(st.tok), Precedence(st.tok);
        Consume();
        var rhs := Expr(lbp);
        if rhs.None? || op.None? { return None; }
        var (a, b) := Adjusted(e.value, rhs.value);
        if TypeOf(a) != TypeOf(b) { return None; }
        e := Some(Binary(op.value, a, b));
      }
    }

    method Primary() returns (e: Option<Expr>)
      modifies this
      ensures Did(ParsePrimary(names, old(st)), e)
      decreases Left(st), 0
    {
      match st.tok {
        case IntLit(x) =>
          e := Some(Const(Atoi(x)));
          Consume();
        case Ident(x) => e := Name(x);
        case Func(f) => e := Builtin(f);
        case Punct(p) =>
          if p != "(" { return None; }
          Consume();
          e := Expr(0);
          if e.None? || st.tok != Punct(")") { return None; }
          Consume();
        case _ => e := None;
      }
    }

    method Name(x: string) returns (e: Option<Expr>)
      requires st.tok == Ident(x)
      modifies this
      ensures Did(ParseName(names, x, old(st)), e)
      decreases Left(st), 0, 0
    {
      Consume();
      if x in names.loops { return Some(Index(names.loops[x], 1)); }
      if x in names.vars { return Some(LoadLocal(names.vars[x])); }
      if st.tok != Punct("[") || x !in names.args { return None; }
      Consume();
      var es := List(Punct("]"));
      if es.None? || |es.value| != names.args[x].dims { return None; }
      var width := 1;
      if st.tok == Punct(".") {
        Consume();
        if !st.tok.IntLit? { return None; }
        width := Atoi(st.tok.text);
        if !IsWidth(width) { return None; }
        Consume();
      }
      e := Some(Load(names.args[x].index, es.value, ExprType(names.args[x].elem, width)));
    }

    method Builtin(f: string) returns (e: Option<Expr>)
      requires st.tok == Func(f)
      modifies this
      ensures Did(ParseBuiltin(names, f, old(st)), e)
      decreases Left(st), 0, 0
    {
      Consume();
      if st.tok != Punct("(") { return None; }
      Consume();
      var es := List(Punct(")"));
      if es.None? { return None; }
      if f == "max" || f == "min" || f == "pow" {
        if |es.value| != 2 || TypeOf(es.value[0]) != TypeOf(es.value[1]) { return None; }
        e := Some(Binary(if f == "max" then Max else if f == "min" then Min else Pow, es.value[0], es.value[1]));
      } else {
        if |es.value| != 1 { return None; }
        e := Some(Unary(UnaryNamed(f), es.value[0]));
      }
    }

    method List(close: Token) returns (es: Option<seq<Expr>>)
      requires close == Punct("]") || close == Punct(")")
      modifies this
      ensures DidList(ParseList(names, old(st), close), es)
      decreases Left(st), 2
    {
      ghost var start := st;
      var done: seq<Expr> := [];
      while true
        invariant Left(st) <= Left(start)
        invariant ParseList(names, start, close) == After(done, ParseList(names, st, close))
        decreases Left(st)
      {
        hide Lex, ParseExpr;
        ghost var here := st;
        var e := Expr(0);
        if e.None? { return None; }
        if st.tok == close { done := done + [e.value]; break; }
        if st.tok != Punct(",") { return None; }
        ListStep(names, done, here, e.value, st, close);
        done := done + [e.value];
        Consume();
      }
      Consume();
      es := Some(done);
    }
  }
}
