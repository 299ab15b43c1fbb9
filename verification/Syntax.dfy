/** Tokens and expression trees of the language (internal/lang/token, internal/lang/ast), as far as
    the expression parser and printer are modelled. */
module Syntax {
  import opened Wrappers

  /** Token kinds that matter for expressions; literals carry their text. Where a stream
      ends the lexer answers EOF for ever. */
  datatype Token =
    | EOF | Semi | Comma
    | Name(text: string) | Number(raw: string) | Text(raw: string, multi: bool)
    | KwTrue | KwFalse | KwNone | KwSelf | KwIf | KwElse | KwFor | KwIn
    | Plus | Minus | Star | Slash | Percent
    | Eq | Neq | Lt | Gt | Leq | Geq | And | Or | Not
    | Assign | Dot
    | LBrace | RBrace | LBrack | RBrack | LParen | RParen
    | Other(kind: nat)

  /** The tokens still to come. */
  datatype Stream = End | Next(tok: Token, rest: Stream)

  /** Missing stands for a nil child, which the parser leaves behind only together with an error;
      the absent condition of a comprehension is also Missing. */
  datatype Expr =
    | Missing
    | Ident(name: string)
    | IntLit(raw: string)
    | StringLit(raw: string, multi: bool)
    | BoolLit(value: bool)
    | NoneLit
    | SelfLit
    | Paren(inner: Expr)
    | Unary(op: Token, x: Expr)
    | Binary(op: Token, left: Expr, right: Expr)
    | Selector(x: Expr, sel: string)
    | Index(x: Expr, index: Expr)
    | Call(fn: Expr, args: seq<Arg>)
    | ListLit(items: seq<Expr>)
    | ListComp(expr: Expr, v: Option<string>, iter: Expr, cond: Expr)
    | If(cond: Expr, thn: Expr, els: Expr)

  /** A positional argument has no name. */
  datatype Arg = Arg(name: Option<string>, value: Expr)

  /** Operator precedence; -1 means "not a binary operator". */
  function BinaryPrec(t: Token): int {
    match t
    case Or => 1
    case And => 2
    case Eq | Neq | Lt | Gt | Leq | Geq => 3
    case KwIn => 4
    case Plus | Minus => 5
    case Star | Slash | Percent => 6
    case _ => -1
  }

  const UNARY_LEVEL := 7
  const POSTFIX_LEVEL := 8

  /** How tightly the outermost construct of a tree binds. */
  function Level(e: Expr): int {
    match e
    case Missing => -1
    case Binary(op, _, _) => BinaryPrec(op)
    case Unary(_, _) => UNARY_LEVEL
    case _ => POSTFIX_LEVEL
  }

  /** The nesting of the tree respects the operator levels, with binary operators grouping to the
      left, and nothing is missing. */
  predicate Levelled(e: Expr)
    decreases e, 1
  {
    match e
    case Missing => false
    case Ident(_) | IntLit(_) | StringLit(_, _) | BoolLit(_) | NoneLit | SelfLit => true
    case Paren(inner) => Levelled(inner)
    case Unary(op, x) => (op == Not || op == Minus) && Levelled(x) && Level(x) >= UNARY_LEVEL
    case Binary(op, l, r) =>
      BinaryPrec(op) > 0 && Levelled(l) && Levelled(r) && Level(l) >= BinaryPrec(op) && Level(r) > BinaryPrec(op)
    case Selector(x, _) => Levelled(x) && Level(x) >= POSTFIX_LEVEL
    case Index(x, i) => Levelled(x) && Level(x) >= POSTFIX_LEVEL && Levelled(i)
    case Call(f, args) => Levelled(f) && Level(f) >= POSTFIX_LEVEL && LevelledArgs(args)
    case ListLit(items) => LevelledAll(items)
    case ListComp(x, v, iter, cond) => v.Some? && Levelled(x) && Levelled(iter) && (cond.Missing? || Levelled(cond))
    case If(c, t, f) => Levelled(c) && Levelled(t) && Levelled(f)
  }

  predicate LevelledAll(items: seq<Expr>)
    decreases items, 0
  {
    items == [] || (Levelled(items[0]) && LevelledAll(items[1..]))
  }

  predicate LevelledArgs(args: seq<Arg>)
    decreases args, 0
  {
    args == [] || (LevelledArg(args[0]) && LevelledArgs(args[1..]))
  }

  predicate LevelledArg(a: Arg)
    decreases a, 0
  {
    Levelled(a.value)
  }
}
