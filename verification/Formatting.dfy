/** The expression printer (internal/lang/format/format.go) at token level: which tokens it writes,
    in which order. Blanks, line breaks and indentation carry no tokens inside an expression. */
module Formatting {
  import opened Syntax

  /** Whether the source span of a list or call holds a line break; the printer then writes one
      element per line, each followed by a comma. */
  type Layout = Expr -> bool

  /** The tokens of e, followed by what comes after it. */
  function Print(e: Expr, broken: Layout, after: Stream): Stream
    decreases e, 1
  {
    match e
    case Missing => after
    case Ident(name) => Next(Name(name), after)
    case IntLit(raw) => Next(Number(raw), after)
    case StringLit(raw, multi) => Next(Text(raw, multi), after)
    case BoolLit(b) => Next(if b then KwTrue else KwFalse, after)
    case NoneLit => Next(KwNone, after)
    case SelfLit => Next(KwSelf, after)
    case Paren(inner) => Next(LParen, Print(inner, broken, Next(RParen, after)))
    case Unary(op, x) => Next(op, Print(x, broken, after))
    case Binary(op, l, r) => Print(l, broken, Next(op, Print(r, broken, after)))
    case Selector(x, sel) => Print(x, broken, Next(Dot, Next(Name(sel), after)))
    case Index(x, i) => Print(x, broken, Next(LBrack, Print(i, broken, Next(RBrack, after))))
    case Call(f, args) => Print(f, broken, Next(LParen, PrintArgs(args, broken, broken(e), Next(RParen, after))))
    case ListLit(items) => Next(LBrack, PrintItems(items, broken, broken(e), Next(RBrack, after)))
    case ListComp(x, v, iter, cond) =>
      var close := Next(RBrack, after);
      var filter := if cond.Missing? then close else Next(KwIf, Print(cond, broken, close));
      var source := Next(KwIn, Print(iter, broken, filter));
      Next(LBrack, Print(x, broken, Next(KwFor, if v.Some? then Next(Name(v.value), source) else source)))
    case If(c, t, f) =>
      var elseTail := Next(RBrace, Next(KwElse, Next(LBrace, Print(f, broken, Next(RBrace, after)))));
      Next(KwIf, Print(c, broken, Next(LBrace, Print(t, broken, elseTail))))
  }

  /** A comma follows every element but the last, and the last too when each has its own line. */
  function Separated(more: bool, lines: bool, after: Stream): Stream {
    if more || lines then Next(Comma, after) else after
  }

  function PrintItems(items: seq<Expr>, broken: Layout, lines: bool, after: Stream): Stream
    decreases items, 0
  {
    if items == [] then after
    else Print(items[0], broken, Separated(|items| > 1, lines, PrintItems(items[1..], broken, lines, after)))
  }

  function PrintArgs(args: seq<Arg>, broken: Layout, lines: bool, after: Stream): Stream
    decreases args, 0
  {
    if args == [] then after
    else PrintArg(args[0], broken, Separated(|args| > 1, lines, PrintArgs(args[1..], broken, lines, after)))
  }

  function PrintArg(a: Arg, broken: Layout, after: Stream): Stream
    decreases a, 0
  {
    var value := Print(a.value, broken, after);
    if a.name.Some? then Next(Name(a.name.value), Next(Assign, value)) else value
  }
}
