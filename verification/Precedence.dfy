/** How chains of operators group (binaryPrec and parseBinary in internal/lang/parse/expr.go), said with the
    classes of operators alone. */
module Precedence {
  import opened Wrappers
  import opened Syntax
  import opened Parsing
  import opened Formatting
  import opened RoundTrip

  /** The binary operators, from the loosest class to the tightest. */
  ghost function OperatorClasses(): seq<set<Token>> {
    [{Or}, {And}, {Eq, Neq, Lt, Gt, Leq, Geq}, {KwIn}, {Plus, Minus}, {Star, Slash, Percent}]
  }

  ghost predicate InClass(t: Token, i: nat) {
    i < |OperatorClasses()| && t in OperatorClasses()[i]
  }

  ghost predicate IsOperator(t: Token) {
    exists i: nat :: InClass(t, i)
  }

  /** p stands in an earlier class than q. */
  ghost predicate Looser(p: Token, q: Token) {
    exists i: nat, j: nat :: i < j && InClass(p, i) && InClass(q, j)
  }

  lemma {:induction false} ClassOfOperator(t: Token, i: nat)
    requires InClass(t, i)
    ensures BinaryPrec(t) == i + 1
  {
  }

  lemma {:induction false} OperatorsHavePrec(t: Token)
    ensures IsOperator(t) <==> BinaryPrec(t) > 0
    ensures !IsOperator(t) ==> BinaryPrec(t) < 0
  {
    if BinaryPrec(t) > 0 {
      assert InClass(t, BinaryPrec(t) - 1);
    }
    if IsOperator(t) {
      var i: nat :| InClass(t, i);
      ClassOfOperator(t, i);
    }
  }

  lemma {:induction false} OperatorClass(t: Token) returns (i: nat)
    requires IsOperator(t)
    ensures InClass(t, i) && BinaryPrec(t) == i + 1
  {
    i :| InClass(t, i);
    ClassOfOperator(t, i);
  }

  lemma {:induction false} LooserClasses(p: Token, q: Token) returns (i: nat, j: nat)
    requires Looser(p, q)
    ensures i < j && InClass(p, i) && InClass(q, j)
  {
    i, j :| i < j && InClass(p, i) && InClass(q, j);
  }

  lemma {:induction false} LooserBy(p: Token, q: Token, i: nat, j: nat)
    requires i < j && InClass(p, i) && InClass(q, j)
    ensures Looser(p, q)
  {
  }

  lemma {:induction false} LooserIsLessPrec(p: Token, q: Token)
    requires IsOperator(p) && IsOperator(q)
    ensures Looser(p, q) <==> BinaryPrec(p) < BinaryPrec(q)
  {
    hide *;
    var i := OperatorClass(p);
    var j := OperatorClass(q);
    if i < j {
      LooserBy(p, q, i, j);
    }
    if Looser(p, q) {
      var k, l := LooserClasses(p, q);
      ClassOfOperator(p, k);
      ClassOfOperator(q, l);
    }
  }

  lemma {:induction false} OperatorsCompare(p: Token, q: Token)
    requires IsOperator(p) && IsOperator(q)
    ensures 0 < BinaryPrec(p) < UNARY_LEVEL && (Looser(p, q) <==> BinaryPrec(p) < BinaryPrec(q))
  {
    OperatorsHavePrec(p);
    LooserIsLessPrec(p, q);
  }

  // Chains
  // ---------------------------------------------------------------------------

  ghost predicate IsOperand(t: Token) {
    t.Name? || t.Number? || t.Text? || t in {KwTrue, KwFalse, KwNone, KwSelf}
  }

  /** The tree an operand stands for. */
  ghost function Leaf(t: Token): Expr
    requires IsOperand(t)
  {
    match t
    case Name(text) => Ident(text)
    case Number(raw) => IntLit(raw)
    case Text(raw, multi) => StringLit(raw, multi)
    case KwTrue => BoolLit(true)
    case KwFalse => BoolLit(false)
    case KwNone => NoneLit
    case KwSelf => SelfLit
  }

  /** Operands with an operator between every two. */
  ghost predicate IsChain(xs: seq<Token>, ops: seq<Token>) {
    && |xs| == |ops| + 1
    && (forall x :: x in xs ==> IsOperand(x))
    && (forall p :: p in ops ==> IsOperator(p))
  }

  ghost function ChainTokens(xs: seq<Token>, ops: seq<Token>, after: Stream): Stream
    requires IsChain(xs, ops)
    decreases |ops|
  {
    Next(xs[0], if ops == [] then after else Next(ops[0], ChainTokens(xs[1..], ops[1..], after)))
  }

  /** Operator k is as loose as any in the chain, and the last such. */
  ghost predicate IsRoot(ops: seq<Token>, k: nat) {
    && k < |ops|
    && (forall j :: 0 <= j < |ops| ==> !Looser(ops[j], ops[k]))
    && (forall j :: k < j < |ops| ==> Looser(ops[k], ops[j]))
  }

  /** e is the chain, split at its root and then on both sides again. */
  ghost predicate Groups(e: Expr, xs: seq<Token>, ops: seq<Token>)
    requires IsChain(xs, ops)
    decreases |ops|
  {
    if ops == [] then e == Leaf(xs[0])
    else
      exists k: nat :: IsRoot(ops, k) && e.Binary? && e.op == ops[k] &&
        Groups(e.left, xs[..k + 1], ops[..k]) && Groups(e.right, xs[k + 1..], ops[k + 1..])
  }

  /** A token after which the chain cannot go on. */
  ghost predicate EndsChain(t: Token) {
    !IsOperator(t) && t !in {Dot, LBrack, LParen, LBrace}
  }

  lemma {:induction false} RootExists(ops: seq<Token>) returns (k: nat)
    requires ops != [] && forall p :: p in ops ==> IsOperator(p)
    ensures k < |ops| && IsRoot(ops, k)
    decreases |ops|
  {
    var n := |ops| - 1;
    forall p, q | p in ops && q in ops ensures Looser(p, q) <==> BinaryPrec(p) < BinaryPrec(q) {
      LooserIsLessPrec(p, q);
    }
    if n == 0 {
      k := 0;
    } else {
      var m := RootExists(ops[..n]);
      k := if BinaryPrec(ops[n]) <= BinaryPrec(ops[m]) then n else m;
      hide Looser, IsOperator, BinaryPrec;
      forall j | 0 <= j < |ops| ensures BinaryPrec(ops[j]) >= BinaryPrec(ops[k]) {
        assert j < n ==> ops[..n][j] == ops[j] && !Looser(ops[..n][j], ops[..n][m]);
      }
      forall j | k < j < |ops| ensures Looser(ops[k], ops[j]) {
        assert j < n ==> ops[..n][j] == ops[j] && Looser(ops[..n][m], ops[..n][j]);
      }
    }
  }

  lemma {:induction false} ChainSplits(xs: seq<Token>, ops: seq<Token>, k: nat, after: Stream)
    requires IsChain(xs, ops) && k < |ops|
    ensures IsChain(xs[..k + 1], ops[..k]) && IsChain(xs[k + 1..], ops[k + 1..])
    ensures ChainTokens(xs, ops, after) ==
      ChainTokens(xs[..k + 1], ops[..k], Next(ops[k], ChainTokens(xs[k + 1..], ops[k + 1..], after)))
    decreases k
  {
    if k > 0 {
      ChainSplits(xs[1..], ops[1..], k - 1, after);
      assert xs[1..][..k] == xs[..k + 1][1..] && ops[1..][..k - 1] == ops[..k][1..];
      assert xs[1..][k..] == xs[k + 1..] && ops[1..][k..] == ops[k + 1..];
    }
  }

  /** The level of a tree is that of its root operator, which is one of ops. */
  ghost predicate LevelIn(e: Expr, ops: seq<Token>) {
    if ops == [] then Level(e) == POSTFIX_LEVEL else exists p :: p in ops && Level(e) == BinaryPrec(p)
  }

  lemma {:induction false} LeafIsLevelled(x: Token)
    requires IsOperand(x)
    ensures Levelled(Leaf(x)) && Level(Leaf(x)) == POSTFIX_LEVEL
  {
  }

  lemma {:induction false} LeafPrints(x: Token, broken: Layout, after: Stream)
    requires IsOperand(x)
    ensures Print(Leaf(x), broken, after) == Next(x, after)
  {
  }

  lemma {:induction false} BinaryIsLevelled(op: Token, l: Expr, r: Expr, ops: seq<Token>, k: nat)
    requires k < |ops| && Levelled(l) && Levelled(r) && LevelIn(l, ops[..k]) && LevelIn(r, ops[k + 1..])
    requires IsRoot(ops, k) && op == ops[k] && forall p :: p in ops ==> IsOperator(p)
    ensures Levelled(Binary(op, l, r)) && LevelIn(Binary(op, l, r), ops)
  {
    hide Looser, IsOperator, BinaryPrec, Levelled;
    forall j | 0 <= j < |ops|
      ensures BinaryPrec(op) <= BinaryPrec(ops[j]) < UNARY_LEVEL && (k < j ==> BinaryPrec(op) < BinaryPrec(ops[j]))
    {
      assert ops[j] in ops && ops[k] in ops;
      OperatorsCompare(ops[j], op);
      OperatorsCompare(op, ops[j]);
    }
    assert op in ops;
    OperatorsCompare(op, op);
    JoinIsLevelled(op, l, r);
  }

  lemma {:induction false} JoinIsLevelled(op: Token, l: Expr, r: Expr)
    requires Levelled(l) && Levelled(r) && BinaryPrec(op) > 0
    requires Level(l) >= BinaryPrec(op) && Level(r) > BinaryPrec(op)
    ensures Levelled(Binary(op, l, r)) && Level(Binary(op, l, r)) == BinaryPrec(op)
  {
    hide BinaryPrec;
  }

  /** The tree of a chain: its nesting respects the levels, and it prints as the chain. */
  lemma {:induction false} TreeOfChain(xs: seq<Token>, ops: seq<Token>, after: Stream, broken: Layout)
    returns (e: Expr)
    requires IsChain(xs, ops)
    ensures Groups(e, xs, ops) && Levelled(e) && LevelIn(e, ops)
    ensures Print(e, broken, after) == ChainTokens(xs, ops, after)
    decreases |ops|
  {
    hide Looser, IsOperator, BinaryPrec, Levelled, LevelIn, IsRoot, Leaf;
    if ops == [] {
      e := Leaf(xs[0]);
      LeafIsLevelled(xs[0]);
      LeafPrints(xs[0], broken, after);
      LeafLevelIn(xs[0]);
    } else {
      var k := RootExists(ops);
      ChainSplits(xs, ops, k, after);
      var more := ChainTokens(xs[k + 1..], ops[k + 1..], after);
      var r := TreeOfChain(xs[k + 1..], ops[k + 1..], after, broken);
      var l := TreeOfChain(xs[..k + 1], ops[..k], Next(ops[k], more), broken);
      e := Binary(ops[k], l, r);
      BinaryIsLevelled(ops[k], l, r, ops, k);
      assert Print(e, broken, after) == Print(l, broken, Next(ops[k], Print(r, broken, after)));
    }
  }

  lemma {:induction false} LeafLevelIn(x: Token)
    requires IsOperand(x)
    ensures LevelIn(Leaf(x), [])
  {
  }

  /** Every chain of operands and operators is read whole and grouped by the classes alone: split at the last
      operator of its loosest class, on each side again. */
  lemma {:induction false} ChainGroups(xs: seq<Token>, ops: seq<Token>, after: Stream, c: bool)
    requires IsChain(xs, ops) && EndsChain(Cur(after))
    ensures var r := ParseExpr(ChainTokens(xs, ops, after), c);
      Groups(r.e, xs, ops) && r.rest == after && r.errs == 0
  {
    var flat: Layout := e => false;
    var e := TreeOfChain(xs, ops, after, flat);
    OperatorsHavePrec(Cur(after));
    hide ParseExpr, IsOperator, Leaf;
    ExprRoundTrip(e, flat, after, c);
  }

  /** x p y q z groups to the right exactly when q stands in a later class than p. */
  lemma {:induction false} TwoOperatorsGroup(x: Token, p: Token, y: Token, q: Token, z: Token, i: nat, j: nat,
                                             after: Stream, c: bool)
    requires IsOperand(x) && IsOperand(y) && IsOperand(z) && InClass(p, i) && InClass(q, j) && EndsChain(Cur(after))
    ensures ParseExpr(Next(x, Next(p, Next(y, Next(q, Next(z, after))))), c) ==
      Parsed(if i < j then Binary(p, Leaf(x), Binary(q, Leaf(y), Leaf(z)))
             else Binary(q, Binary(p, Leaf(x), Leaf(y)), Leaf(z)), after, 0)
  {
    var flat: Layout := e => false;
    var e := if i < j then Binary(p, Leaf(x), Binary(q, Leaf(y), Leaf(z)))
             else Binary(q, Binary(p, Leaf(x), Leaf(y)), Leaf(z));
    ClassOfOperator(p, i);
    ClassOfOperator(q, j);
    LeafIsLevelled(x);
    LeafIsLevelled(y);
    LeafIsLevelled(z);
    if i < j {
      JoinIsLevelled(q, Leaf(y), Leaf(z));
    } else {
      JoinIsLevelled(p, Leaf(x), Leaf(y));
    }
    JoinIsLevelled(e.op, e.left, e.right);
    LeafPrints(x, flat, Next(p, Next(y, Next(q, Next(z, after)))));
    LeafPrints(y, flat, Next(q, Next(z, after)));
    LeafPrints(z, flat, after);
    OperatorsHavePrec(Cur(after));
    hide ParseExpr, IsOperator, Leaf;
    ExprRoundTrip(e, flat, after, c);
  }

  lemma {:induction false} PrefixIsLevelled(u: Token, x: Expr, sel: string)
    requires u in {Not, Minus} && Levelled(x) && Level(x) == POSTFIX_LEVEL
    ensures Levelled(Unary(u, Selector(x, sel))) && Level(Unary(u, Selector(x, sel))) == UNARY_LEVEL
  {
    hide BinaryPrec;
  }

  /** A prefix operator takes its operand with all its suffixes, and nothing of a binary operator after it. */
  lemma {:induction false} PrefixGroups(u: Token, x: Token, sel: string, p: Token, y: Token, after: Stream, c: bool)
    requires u in {Not, Minus} && IsOperand(x) && IsOperand(y) && IsOperator(p) && EndsChain(Cur(after))
    ensures ParseExpr(Next(u, Next(x, Next(Dot, Next(Name(sel), Next(p, Next(y, after)))))), c) ==
      Parsed(Binary(p, Unary(u, Selector(Leaf(x), sel)), Leaf(y)), after, 0)
  {
    var flat: Layout := e => false;
    var operand := Selector(Leaf(x), sel);
    var e := Binary(p, Unary(u, operand), Leaf(y));
    PrefixChainPrints(u, x, sel, p, y, after, flat);
    LeafIsLevelled(x);
    LeafIsLevelled(y);
    OperatorsHavePrec(p);
    PrefixIsLevelled(u, Leaf(x), sel);
    JoinIsLevelled(p, Unary(u, operand), Leaf(y));
    OperatorsHavePrec(Cur(after));
    hide ParseExpr, IsOperator, Leaf, BinaryPrec, Levelled, Print;
    ExprRoundTrip(e, flat, after, c);
  }

  lemma {:induction false} PrefixChainPrints(u: Token, x: Token, sel: string, p: Token, y: Token, after: Stream,
                                             broken: Layout)
    requires IsOperand(x) && IsOperand(y)
    ensures Print(Binary(p, Unary(u, Selector(Leaf(x), sel)), Leaf(y)), broken, after) ==
      Next(u, Next(x, Next(Dot, Next(Name(sel), Next(p, Next(y, after))))))
  {
    hide Leaf;
    var more := Next(p, Next(y, after));
    LeafPrints(x, broken, Next(Dot, Next(Name(sel), more)));
    LeafPrints(y, broken, after);
    assert Print(Unary(u, Selector(Leaf(x), sel)), broken, more) ==
      Next(u, Print(Selector(Leaf(x), sel), broken, more));
  }
}
