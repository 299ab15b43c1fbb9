/** The expression parser (internal/lang/parse/expr.go): precedence climbing over a token cursor.
    The functions say what each parse method answers on a token suffix; Parser is the cursor-moving
    parser itself, proved to answer the same. */
module Parsing {
  import opened Wrappers
  import opened Syntax

  /** An expression (Missing for nil), the tokens left, and the number of errors recorded. */
  datatype Parsed = Parsed(e: Expr, rest: Stream, errs: nat)

  ghost function Len(ts: Stream): nat {
    if ts.End? then 0 else 1 + Len(ts.rest)
  }

  function Cur(ts: Stream): Token {
    if ts.End? then EOF else ts.tok
  }

  function Peek(ts: Stream): Token {
    Cur(Advance(ts))
  }

  /** At the end of the stream the cursor stays on EOF. */
  function Advance(ts: Stream): (r: Stream)
    ensures Len(r) <= Len(ts) && (!ts.End? ==> Len(r) < Len(ts))
  {
    if ts.End? then End else ts.rest
  }

  /** Consumes the token if it is the wanted one, otherwise records an error and stays. */
  function Expect(ts: Stream, want: Token): (r: (Stream, nat))
    ensures Len(r.0) <= Len(ts)
  {
    if Cur(ts) == want then (Advance(ts), 0) else (ts, 1)
  }

  predicate CanTakeStructLit(x: Expr) {
    x.Ident? || x.Selector?
  }

  // What the parser answers
  // ---------------------------------------------------------------------------

  function ParseExpr(ts: Stream, inCond: bool): (r: Parsed)
    ensures Len(r.rest) <= Len(ts) && (r.e.Missing? || Len(r.rest) < Len(ts))
    ensures r.e.Missing? ==> r.errs > 0
    decreases Len(ts), 6
  {
    ParseBinary(ts, inCond, 0)
  }

  function ParseBinary(ts: Stream, inCond: bool, minPrec: nat): (r: Parsed)
    ensures Len(r.rest) <= Len(ts) && (r.e.Missing? || Len(r.rest) < Len(ts))
    ensures r.e.Missing? ==> r.errs > 0
    decreases Len(ts), 5
  {
    var left := ParseUnary(ts, inCond);
    if left.e.Missing? then left
    else
      var r := BinaryLoop(left.e, left.rest, inCond, minPrec);
      r.(errs := left.errs + r.errs)
  }

  function BinaryLoop(left: Expr, ts: Stream, inCond: bool, minPrec: nat): (r: Parsed)
    ensures Len(r.rest) <= Len(ts) && (r.e.Missing? ==> left.Missing?)
    decreases Len(ts), 5
  {
    var prec := BinaryPrec(Cur(ts));
    if prec < minPrec then Parsed(left, ts, 0)
    else
      var right := ParseBinary(Advance(ts), inCond, prec + 1);
      if right.e.Missing? then Parsed(left, right.rest, right.errs)
      else
        var r := BinaryLoop(Binary(Cur(ts), left, right.e), right.rest, inCond, minPrec);
        r.(errs := right.errs + r.errs)
  }

  function ParseUnary(ts: Stream, inCond: bool): (r: Parsed)
    ensures Len(r.rest) <= Len(ts) && (r.e.Missing? || Len(r.rest) < Len(ts))
    ensures r.e.Missing? ==> r.errs > 0
    decreases Len(ts), 4
  {
    if Cur(ts) == Not || Cur(ts) == Minus then
      var x := ParseUnary(Advance(ts), inCond);
      if x.e.Missing? then x else x.(e := Unary(Cur(ts), x.e))
    else
      ParsePostfix(ts, inCond)
  }

  function ParsePostfix(ts: Stream, inCond: bool): (r: Parsed)
    ensures Len(r.rest) <= Len(ts) && (r.e.Missing? || Len(r.rest) < Len(ts))
    ensures r.e.Missing? ==> r.errs > 0
    decreases Len(ts), 3
  {
    var x := ParsePrimary(ts, inCond);
    if x.e.Missing? then x
    else
      var r := PostfixLoop(x.e, x.rest, inCond);
      r.(errs := x.errs + r.errs)
  }

  /** Struct literals and block fills after `{` are outside the model: they count as an error. */
  function PostfixLoop(x: Expr, ts: Stream, inCond: bool): (r: Parsed)
    ensures Len(r.rest) <= Len(ts) && (r.e.Missing? ==> x.Missing?)
    decreases Len(ts), 3
  {
    match Cur(ts)
    case Dot =>
      var t := Advance(ts);
      if Cur(t).Name? then PostfixLoop(Selector(x, Cur(t).text), Advance(t), inCond)
      else Parsed(x, t, 1)
    case LBrack =>
      var i := ParseExpr(Advance(ts), inCond);
      var (t, n) := Expect(i.rest, RBrack);
      var r := PostfixLoop(Index(x, i.e), t, inCond);
      r.(errs := i.errs + n + r.errs)
    case LParen =>
      var a := ArgLoop([], Advance(ts), inCond);
      var (t, n) := Expect(a.rest, RParen);
      var r := PostfixLoop(Call(x, a.args), t, inCond);
      r.(errs := a.errs + n + r.errs)
    case LBrace =>
      Parsed(x, ts, if !inCond && (x.Call? || CanTakeStructLit(x)) then 1 else 0)
    case _ => Parsed(x, ts, 0)
  }

  datatype ParsedArgs = ParsedArgs(args: seq<Arg>, rest: Stream, errs: nat)

  /** Arguments up to the closing parenthesis; commas and semicolons between them are skipped. */
  function ArgLoop(args: seq<Arg>, ts: Stream, inCond: bool): (r: ParsedArgs)
    ensures Len(r.rest) <= Len(ts)
    decreases Len(ts), 7
  {
    if Cur(ts) == RParen || Cur(ts) == EOF then ParsedArgs(args, ts, 0)
    else if Cur(ts) == Comma || Cur(ts) == Semi then ArgLoop(args, Advance(ts), inCond)
    else if Cur(ts).Name? && Peek(ts) == Assign then
      var v := ParseExpr(Advance(Advance(ts)), inCond);
      var args' := if v.e.Missing? then args else args + [Arg(Some(Cur(ts).text), v.e)];
      var r := ArgLoop(args', v.rest, inCond);
      r.(errs := v.errs + r.errs)
    else
      var a := ParseExpr(ts, inCond);
      if a.e.Missing? then ParsedArgs(args, a.rest, a.errs)
      else
        var r := ArgLoop(args + [Arg(None, a.e)], a.rest, inCond);
        r.(errs := a.errs + r.errs)
  }

  /** Interpolated strings, maps and struct literals are outside the model: they count as an error. */
  function ParsePrimary(ts: Stream, inCond: bool): (r: Parsed)
    ensures Len(r.rest) <= Len(ts) && (r.e.Missing? || Len(r.rest) < Len(ts))
    ensures r.e.Missing? ==> r.errs > 0
    decreases Len(ts), 2
  {
    var t := Advance(ts);
    match Cur(ts)
    case Number(raw) => Parsed(IntLit(raw), t, 0)
    case Text(raw, multi) => Parsed(StringLit(raw, multi), t, 0)
    case KwTrue => Parsed(BoolLit(true), t, 0)
    case KwFalse => Parsed(BoolLit(false), t, 0)
    case KwNone => Parsed(NoneLit, t, 0)
    case KwSelf => Parsed(SelfLit, t, 0)
    case Name(text) => Parsed(Ident(text), t, 0)
    case LParen =>
      var e := ParseExpr(t, inCond);
      var (u, n) := Expect(e.rest, RParen);
      Parsed(Paren(e.e), u, e.errs + n)
    case LBrack => ParseListOrComp(t, inCond)
    case KwIf => ParseIfExpr(t, inCond)
    case _ => Parsed(Missing, t, 1)
  }

  /** What follows `[`. */
  function ParseListOrComp(ts: Stream, inCond: bool): (r: Parsed)
    ensures Len(r.rest) <= Len(ts) && !r.e.Missing?
    decreases Len(ts), 8
  {
    if Cur(ts) == RBrack then Parsed(ListLit([]), Advance(ts), 0)
    else
      var first := ParseExpr(ts, inCond);
      if Cur(first.rest) == KwFor then
        var r := CompTail(first.e, Advance(first.rest), inCond);
        r.(errs := first.errs + r.errs)
      else
        var r := ItemLoop([first.e], first.rest, inCond);
        var (t, n) := Expect(r.rest, RBrack);
        Parsed(ListLit(r.items), t, first.errs + r.errs + n)
  }

  /** What follows `[e for`. */
  function CompTail(e: Expr, ts: Stream, inCond: bool): (r: Parsed)
    ensures Len(r.rest) <= Len(ts) && r.e.ListComp?
    decreases Len(ts), 7
  {
    var v := if Cur(ts).Name? then Some(Cur(ts).text) else None;
    var (t1, n1) := if Cur(ts).Name? then (Advance(ts), 0) else (ts, 1);
    var (t2, n2) := Expect(t1, KwIn);
    var iter := ParseExpr(t2, inCond);
    var cond := if Cur(iter.rest) == KwIf then ParseExpr(Advance(iter.rest), inCond) else Parsed(Missing, iter.rest, 0);
    var (t3, n3) := Expect(cond.rest, RBrack);
    Parsed(ListComp(e, v, iter.e, cond.e), t3, n1 + n2 + iter.errs + cond.errs + n3)
  }

  datatype ParsedItems = ParsedItems(items: seq<Expr>, rest: Stream, errs: nat)

  function ItemLoop(items: seq<Expr>, ts: Stream, inCond: bool): (r: ParsedItems)
    ensures Len(r.rest) <= Len(ts)
    decreases Len(ts), 7
  {
    if Cur(ts) == RBrack || Cur(ts) == EOF then ParsedItems(items, ts, 0)
    else if Cur(ts) == Comma || Cur(ts) == Semi then ItemLoop(items, Advance(ts), inCond)
    else
      var x := ParseExpr(ts, inCond);
      if x.e.Missing? then ParsedItems(items, x.rest, x.errs)
      else
        var r := ItemLoop(items + [x.e], x.rest, inCond);
        r.(errs := x.errs + r.errs)
  }

  /** What follows `if`. The condition is read with the flag set; the branches with the outer flag. */
  function ParseIfExpr(ts: Stream, inCond: bool): (r: Parsed)
    ensures Len(r.rest) <= Len(ts) && r.e.If?
    decreases Len(ts), 9
  {
    var c := ParseExpr(ts, true);
    var r := IfBranches(c.e, c.rest, inCond);
    r.(errs := c.errs + r.errs)
  }

  function IfBranches(cond: Expr, ts: Stream, inCond: bool): (r: Parsed)
    ensures Len(r.rest) <= Len(ts) && r.e.If?
    decreases Len(ts), 8
  {
    var (t1, n1) := Expect(ts, LBrace);
    var a := ParseExpr(t1, inCond);
    var r := ElseBranch(cond, a.e, a.rest, inCond);
    r.(errs := n1 + a.errs + r.errs)
  }

  function ElseBranch(cond: Expr, thn: Expr, ts: Stream, inCond: bool): (r: Parsed)
    ensures Len(r.rest) <= Len(ts) && r.e.If?
    decreases Len(ts), 7
  {
    var (t2, n2) := Expect(ts, RBrace);
    var (t3, n3) := Expect(t2, KwElse);
    var (t4, n4) := Expect(t3, LBrace);
    var b := ParseExpr(t4, inCond);
    var (t5, n5) := Expect(b.rest, RBrace);
    Parsed(If(cond, thn, b.e), t5, n2 + n3 + n4 + b.errs + n5)
  }
}
