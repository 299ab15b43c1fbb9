/** Printing a tree and parsing the tokens gives the tree back, in every layout and context. */
module RoundTrip {
  import opened Wrappers
  import opened Syntax
  import opened Parsing
  import opened Formatting

  /** Would an opening brace after e be read as part of it? It is when its rightmost operand can take a
      struct literal or a block. */
  ghost predicate TakesBrace(e: Expr) {
    match e
    case Ident(_) | Selector(_, _) | Call(_, _) => true
    case Unary(_, x) => TakesBrace(x)
    case Binary(_, _, r) => TakesBrace(r)
    case _ => false
  }

  /** A token that does not continue the operand e. */
  ghost predicate Quiet(t: Token, inCond: bool, e: Expr) {
    t != Dot && t != LBrack && t != LParen && (t == LBrace ==> inCond || !TakesBrace(e))
  }

  /** A token that does not extend the whole expression e. */
  ghost predicate Ends(t: Token, inCond: bool, e: Expr) {
    Quiet(t, inCond, e) && BinaryPrec(t) < 0
  }

  ghost predicate Starter(t: Token) {
    t.Name? || t.Number? || t.Text? ||
    t in {KwTrue, KwFalse, KwNone, KwSelf, KwIf, Not, Minus, LBrack, LParen}
  }

  // First tokens
  // ---------------------------------------------------------------------------

  lemma {:induction false} PrintStarts(e: Expr, broken: Layout, after: Stream)
    requires Levelled(e)
    ensures Starter(Cur(Print(e, broken, after)))
    ensures Level(e) >= POSTFIX_LEVEL ==>
      Cur(Print(e, broken, after)) != Not && Cur(Print(e, broken, after)) != Minus
    decreases e
  {
    match e
    case Binary(op, l, r) => PrintStarts(l, broken, Next(op, Print(r, broken, after)));
    case Selector(x, sel) => PrintStarts(x, broken, Next(Dot, Next(Name(sel), after)));
    case Index(x, i) => PrintStarts(x, broken, Next(LBrack, Print(i, broken, Next(RBrack, after))));
    case Call(f, args) =>
      PrintStarts(f, broken, Next(LParen, PrintArgs(args, broken, broken(e), Next(RParen, after))));
    case _ =>
  }

  /** A printed tree never looks like the start of a keyword argument. */
  lemma {:induction false} NotKeywordStart(e: Expr, broken: Layout, after: Stream)
    requires Levelled(e) && Cur(after) != Assign
    ensures Cur(Print(e, broken, after)).Name? ==> Peek(Print(e, broken, after)) != Assign
    decreases e
  {
    hide PrintItems, PrintArgs, LevelledAll, LevelledArgs;
    match e
    case Binary(op, l, r) => NotKeywordStart(l, broken, Next(op, Print(r, broken, after)));
    case Selector(x, sel) => NotKeywordStart(x, broken, Next(Dot, Next(Name(sel), after)));
    case Index(x, i) => NotKeywordStart(x, broken, Next(LBrack, Print(i, broken, Next(RBrack, after))));
    case Call(f, args) =>
      NotKeywordStart(f, broken, Next(LParen, PrintArgs(args, broken, broken(e), Next(RParen, after))));
    case _ =>
  }

  // One parser step for each construct
  // ---------------------------------------------------------------------------

  lemma SelectorStep(x: Expr, sel: string, after: Stream, c: bool)
    ensures PostfixLoop(x, Next(Dot, Next(Name(sel), after)), c) == PostfixLoop(Selector(x, sel), after, c)
  {
    hide ParseExpr, ArgLoop;
  }

  lemma IndexStep(x: Expr, i: Expr, inside: Stream, after: Stream, c: bool)
    requires ParseExpr(inside, c) == Parsed(i, Next(RBrack, after), 0)
    ensures PostfixLoop(x, Next(LBrack, inside), c) == PostfixLoop(Index(x, i), after, c)
  {
    hide ParseExpr, ArgLoop;
  }

  lemma CallStep(f: Expr, args: seq<Arg>, inside: Stream, after: Stream, c: bool)
    requires ArgLoop([], inside, c) == ParsedArgs(args, Next(RParen, after), 0)
    ensures PostfixLoop(f, Next(LParen, inside), c) == PostfixLoop(Call(f, args), after, c)
  {
    hide ParseExpr, ArgLoop;
  }

  lemma PositionalStep(done: seq<Arg>, v: Expr, ts: Stream, after: Stream, c: bool)
    requires Starter(Cur(ts)) && (Cur(ts).Name? ==> Peek(ts) != Assign)
    requires ParseExpr(ts, c) == Parsed(v, after, 0) && !v.Missing?
    ensures ArgLoop(done, ts, c) == ArgLoop(done + [Arg(None, v)], after, c)
  {
    hide ParseExpr;
  }

  lemma KeywordStep(done: seq<Arg>, name: string, v: Expr, ts: Stream, after: Stream, c: bool)
    requires ParseExpr(ts, c) == Parsed(v, after, 0) && !v.Missing?
    ensures ArgLoop(done, Next(Name(name), Next(Assign, ts)), c) == ArgLoop(done + [Arg(Some(name), v)], after, c)
  {
    hide ParseExpr;
  }

  lemma ItemStep(done: seq<Expr>, v: Expr, ts: Stream, after: Stream, c: bool)
    requires Starter(Cur(ts)) && ParseExpr(ts, c) == Parsed(v, after, 0) && !v.Missing?
    ensures ItemLoop(done, ts, c) == ItemLoop(done + [v], after, c)
  {
    hide ParseExpr;
  }

  lemma ListStep(first: Expr, items: seq<Expr>, ts: Stream, next: Stream, after: Stream, c: bool)
    requires Starter(Cur(ts)) && ParseExpr(ts, c) == Parsed(first, next, 0) && Cur(next) != KwFor
    requires ItemLoop([first], next, c) == ParsedItems(items, Next(RBrack, after), 0)
    ensures ParseListOrComp(ts, c) == Parsed(ListLit(items), after, 0)
  {
    hide ParseExpr;
  }

  lemma CompStep(x: Expr, v: string, iter: Expr, ts: Stream, source: Stream, filter: Stream, c: bool)
    requires Starter(Cur(ts))
    requires ParseExpr(ts, c) == Parsed(x, Next(KwFor, Next(Name(v), Next(KwIn, source))), 0)
    requires ParseExpr(source, c) == Parsed(iter, filter, 0)
    ensures ParseListOrComp(ts, c) == CompFilter(x, v, iter, filter, c)
  {
    hide ParseExpr;
  }

  lemma BracketStep(ts: Stream, c: bool)
    ensures ParsePrimary(Next(LBrack, ts), c) == ParseListOrComp(ts, c)
  {
    hide ParseExpr, ParseListOrComp, ParseIfExpr;
  }

  lemma EmptyListStep(ts: Stream, c: bool)
    ensures ParseListOrComp(Next(RBrack, ts), c) == Parsed(ListLit([]), ts, 0)
  {
    hide ParseExpr, ItemLoop, CompTail;
  }

  lemma IfKeywordStep(ts: Stream, c: bool)
    ensures ParsePrimary(Next(KwIf, ts), c) == ParseIfExpr(ts, c)
  {
    hide ParseExpr, ParseListOrComp, ParseIfExpr;
  }

  /** The end of a comprehension, from its optional condition on. */
  ghost function CompFilter(x: Expr, v: string, iter: Expr, filter: Stream, c: bool): Parsed {
    var cond := if Cur(filter) == KwIf then ParseExpr(Advance(filter), c) else Parsed(Missing, filter, 0);
    var (t, n) := Expect(cond.rest, RBrack);
    Parsed(ListComp(x, Some(v), iter, cond.e), t, cond.errs + n)
  }

  lemma IfStep(cond: Expr, thn: Expr, els: Expr, ts: Stream, t1: Stream, t2: Stream, after: Stream, c: bool)
    requires ParseExpr(ts, true) == Parsed(cond, Next(LBrace, t1), 0)
    requires ParseExpr(t1, c) == Parsed(thn, Next(RBrace, Next(KwElse, Next(LBrace, t2))), 0)
    requires ParseExpr(t2, c) == Parsed(els, Next(RBrace, after), 0)
    ensures ParseIfExpr(ts, c) == Parsed(If(cond, thn, els), after, 0)
  {
    hide ParseExpr;
    var elseTail := Next(RBrace, Next(KwElse, Next(LBrace, t2)));
    assert ElseBranch(cond, thn, elseTail, c) == Parsed(If(cond, thn, els), after, 0);
    assert IfBranches(cond, Next(LBrace, t1), c) == Parsed(If(cond, thn, els), after, 0);
  }

  // The round trip, level by level
  // ---------------------------------------------------------------------------

  lemma {:induction false} PrimaryRoundTrip(e: Expr, broken: Layout, after: Stream, c: bool)
    requires Levelled(e) && Level(e) == POSTFIX_LEVEL && !e.Selector? && !e.Index? && !e.Call?
    ensures ParsePrimary(Print(e, broken, after), c) == Parsed(e, after, 0)
    decreases e, 1
  {
    hide ParsePrimary, ParseListOrComp, ParseIfExpr;
    match e
    case Paren(inner) => ParenRoundTrip(e, broken, after, c);
    case ListLit(items) =>
      ListRoundTrip(items, broken, broken(e), after, c);
      BracketStep(PrintItems(items, broken, broken(e), Next(RBrack, after)), c);
    case ListComp(_, _, _, _) => CompRoundTrip(e, broken, after, c);
    case If(_, _, _) => IfRoundTrip(e, broken, after, c);
    case _ => LeafRoundTrip(e, broken, after, c);
  }

  lemma LeafRoundTrip(e: Expr, broken: Layout, after: Stream, c: bool)
    requires e.Ident? || e.IntLit? || e.StringLit? || e.BoolLit? || e.NoneLit? || e.SelfLit?
    ensures ParsePrimary(Print(e, broken, after), c) == Parsed(e, after, 0)
  {
    hide ParseExpr, ParseListOrComp, ParseIfExpr;
  }

  lemma {:induction false} ParenRoundTrip(e: Expr, broken: Layout, after: Stream, c: bool)
    requires Levelled(e) && e.Paren?
    ensures ParsePrimary(Print(e, broken, after), c) == Parsed(e, after, 0)
    decreases e, 0
  {
    hide ParseListOrComp, ParseIfExpr, ParseBinary;
    ExprRoundTrip(e.inner, broken, Next(RParen, after), c);
  }

  lemma {:induction false} PostfixRoundTrip(e: Expr, broken: Layout, after: Stream, c: bool)
    requires Levelled(e) && Level(e) == POSTFIX_LEVEL
    ensures ParsePostfix(Print(e, broken, after), c) == PostfixLoop(e, after, c)
    decreases e, 2
  {
    hide ParsePrimary, ParseExpr, ArgLoop, PostfixLoop;
    if e.Selector? {
      PostfixRoundTrip(e.x, broken, Next(Dot, Next(Name(e.sel), after)), c);
      SelectorStep(e.x, e.sel, after, c);
    } else if e.Index? {
      var close := Next(RBrack, after);
      var inside := Print(e.index, broken, close);
      PostfixRoundTrip(e.x, broken, Next(LBrack, inside), c);
      ExprRoundTrip(e.index, broken, close, c);
      IndexStep(e.x, e.index, inside, after, c);
    } else if e.Call? {
      var close := Next(RParen, after);
      var inside := PrintArgs(e.args, broken, broken(e), close);
      PostfixRoundTrip(e.fn, broken, Next(LParen, inside), c);
      ArgsRoundTrip([], e.args, broken, broken(e), close, c);
      assert [] + e.args == e.args;
      CallStep(e.fn, e.args, inside, after, c);
    } else {
      PrimaryRoundTrip(e, broken, after, c);
      ParsedPrimary(Print(e, broken, after), e, after, c);
    }
  }

  lemma ParsedPrimary(ts: Stream, e: Expr, after: Stream, c: bool)
    requires ParsePrimary(ts, c) == Parsed(e, after, 0)
    ensures ParsePostfix(ts, c) == PostfixLoop(e, after, c)
  {
    hide ParsePrimary, PostfixLoop;
  }

  lemma {:induction false} UnaryRoundTrip(e: Expr, broken: Layout, after: Stream, c: bool)
    requires Levelled(e) && Level(e) >= UNARY_LEVEL && Quiet(Cur(after), c, e)
    ensures ParseUnary(Print(e, broken, after), c) == Parsed(e, after, 0)
    decreases e, 3
  {
    hide ParsePrimary, ParsePostfix;
    if e.Unary? {
      UnaryRoundTrip(e.x, broken, after, c);
    } else {
      PrintStarts(e, broken, after);
      PostfixRoundTrip(e, broken, after, c);
    }
  }

  /** Parsing a printed tree comes to where the climbing loop holds that tree as its left operand. */
  lemma {:induction false} BinaryRoundTrip(e: Expr, broken: Layout, after: Stream, c: bool, minPrec: nat)
    requires Levelled(e) && Level(e) >= minPrec
    requires Quiet(Cur(after), c, e) && BinaryPrec(Cur(after)) <= Level(e)
    ensures ParseBinary(Print(e, broken, after), c, minPrec) == BinaryLoop(e, after, c, minPrec)
    decreases e, 4
  {
    hide ParseUnary, ParseBinary, BinaryLoop, Len;
    if e.Binary? {
      var right := Print(e.right, broken, after);
      BinaryRoundTrip(e.left, broken, Next(e.op, right), c, minPrec);
      BinaryRoundTrip(e.right, broken, after, c, BinaryPrec(e.op) + 1);
      LoopEndsAt(e.right, after, c, BinaryPrec(e.op) + 1);
      LoopTakes(e.op, e.left, e.right, right, after, c, minPrec);
    } else {
      UnaryRoundTrip(e, broken, after, c);
      LoopBegins(Print(e, broken, after), e, after, c, minPrec);
    }
  }

  lemma LoopBegins(ts: Stream, e: Expr, after: Stream, c: bool, minPrec: nat)
    requires ParseUnary(ts, c) == Parsed(e, after, 0) && !e.Missing?
    ensures ParseBinary(ts, c, minPrec) == BinaryLoop(e, after, c, minPrec)
  {
    hide ParseUnary, BinaryLoop;
  }

  lemma LoopEndsAt(e: Expr, after: Stream, c: bool, minPrec: nat)
    requires BinaryPrec(Cur(after)) < minPrec
    ensures BinaryLoop(e, after, c, minPrec) == Parsed(e, after, 0)
  {
    hide ParseBinary;
  }

  lemma LoopTakes(op: Token, l: Expr, r: Expr, ts: Stream, after: Stream, c: bool, minPrec: nat)
    requires BinaryPrec(op) >= minPrec && !r.Missing?
    requires ParseBinary(ts, c, BinaryPrec(op) + 1) == Parsed(r, after, 0)
    ensures BinaryLoop(l, Next(op, ts), c, minPrec) == BinaryLoop(Binary(op, l, r), after, c, minPrec)
  {
    hide ParseBinary;
  }

  /** Parsing the printed tokens of a levelled tree, followed by any token that does not extend it,
      returns that tree without error and leaves the rest. */
  lemma {:induction false} ExprRoundTrip(e: Expr, broken: Layout, after: Stream, c: bool)
    requires Levelled(e) && Ends(Cur(after), c, e)
    ensures ParseExpr(Print(e, broken, after), c) == Parsed(e, after, 0)
    decreases e, 5
  {
    hide ParseBinary, BinaryLoop, Print;
    BinaryRoundTrip(e, broken, after, c, 0);
    LoopEndsAt(e, after, c, 0);
  }

  lemma {:induction false} ItemsRoundTrip(done: seq<Expr>, items: seq<Expr>, broken: Layout, lines: bool,
                                          after: Stream, c: bool)
    requires LevelledAll(items) && Cur(after) == RBrack
    ensures ItemLoop(done, PrintItems(items, broken, lines, after), c) == ParsedItems(done + items, after, 0)
    decreases items, 6
  {
    hide ParseExpr, ItemLoop, Print, Levelled, Len;
    if items == [] {
      assert done + items == done;
      ItemsEnd(done, after, c);
    } else {
      var more := PrintItems(items[1..], broken, lines, after);
      var next := Separated(|items| > 1, lines, more);
      PrintStarts(items[0], broken, next);
      ExprRoundTrip(items[0], broken, next, c);
      ItemStep(done, items[0], Print(items[0], broken, next), next, c);
      SeparatorSkipped(done + [items[0]], |items| > 1, lines, more, c);
      ItemsRoundTrip(done + [items[0]], items[1..], broken, lines, after, c);
      assert done + [items[0]] + items[1..] == done + items;
    }
  }

  lemma {:induction false} ListRoundTrip(items: seq<Expr>, broken: Layout, lines: bool, after: Stream, c: bool)
    requires LevelledAll(items)
    ensures ParseListOrComp(PrintItems(items, broken, lines, Next(RBrack, after)), c) ==
      Parsed(ListLit(items), after, 0)
    decreases items, 7
  {
    hide ParseListOrComp, Print, Levelled;
    if items == [] {
      EmptyListStep(after, c);
    } else {
      NonEmptyListRoundTrip(items, broken, lines, after, c);
    }
  }

  lemma {:induction false} NonEmptyListRoundTrip(items: seq<Expr>, broken: Layout, lines: bool, after: Stream, c: bool)
    requires items != [] && Levelled(items[0]) && LevelledAll(items[1..])
    ensures var more := PrintItems(items[1..], broken, lines, Next(RBrack, after));
      ParseListOrComp(Print(items[0], broken, Separated(|items| > 1, lines, more)), c) ==
        Parsed(ListLit(items), after, 0)
    decreases items, 6
  {
    hide ParseExpr, ParseListOrComp, ItemLoop, Print, Levelled, LevelledAll, Len;
    var first, tail := items[0], items[1..];
    assert items == [first] + tail;
    var close := Next(RBrack, after);
    var more := PrintItems(tail, broken, lines, close);
    var next := Separated(|tail| > 0, lines, more);
    PrintStarts(first, broken, next);
    ExprRoundTrip(first, broken, next, c);
    ItemsRoundTrip([first], tail, broken, lines, close, c);
    SeparatorSkipped([first], |tail| > 0, lines, more, c);
    ListStep(first, items, Print(first, broken, next), next, after, c);
  }

  lemma ItemsEnd(done: seq<Expr>, after: Stream, c: bool)
    requires Cur(after) == RBrack
    ensures ItemLoop(done, after, c) == ParsedItems(done, after, 0)
  {
    hide ParseExpr;
  }

  lemma SeparatorSkipped(done: seq<Expr>, more: bool, lines: bool, ts: Stream, c: bool)
    ensures ItemLoop(done, Separated(more, lines, ts), c) == ItemLoop(done, ts, c)
  {
    hide ParseExpr;
  }

  lemma {:induction false} ArgsRoundTrip(done: seq<Arg>, args: seq<Arg>, broken: Layout, lines: bool,
                                         after: Stream, c: bool)
    requires LevelledArgs(args) && Cur(after) == RParen
    ensures ArgLoop(done, PrintArgs(args, broken, lines, after), c) == ParsedArgs(done + args, after, 0)
    decreases args, 6
  {
    hide ParseExpr, PrintArg, LevelledArg, ArgLoop, Len;
    if args == [] {
      assert done + args == done;
      ArgsEnd(done, after, c);
    } else {
      var more := PrintArgs(args[1..], broken, lines, after);
      var next := Separated(|args| > 1, lines, more);
      ArgSeparatorSkipped(done + [args[0]], |args| > 1, lines, more, c);
      ArgRoundTrip(done, args[0], broken, next, c);
      ArgsRoundTrip(done + [args[0]], args[1..], broken, lines, after, c);
      assert done + [args[0]] + args[1..] == done + args;
    }
  }

  lemma ArgsEnd(done: seq<Arg>, after: Stream, c: bool)
    requires Cur(after) == RParen
    ensures ArgLoop(done, after, c) == ParsedArgs(done, after, 0)
  {
    hide ParseExpr;
  }

  lemma ArgSeparatorSkipped(done: seq<Arg>, more: bool, lines: bool, ts: Stream, c: bool)
    ensures ArgLoop(done, Separated(more, lines, ts), c) == ArgLoop(done, ts, c)
  {
    hide ParseExpr;
  }

  lemma {:induction false} ArgRoundTrip(done: seq<Arg>, a: Arg, broken: Layout, after: Stream, c: bool)
    requires LevelledArg(a) && (Cur(after) == Comma || Cur(after) == RParen)
    ensures ArgLoop(done, PrintArg(a, broken, after), c) == ArgLoop(done + [a], after, c)
    decreases a, 6
  {
    hide ParseExpr, ArgLoop, Print, Levelled;
    var value := Print(a.value, broken, after);
    ExprRoundTrip(a.value, broken, after, c);
    if a.name.Some? {
      KeywordStep(done, a.name.value, a.value, value, after, c);
    } else {
      PrintStarts(a.value, broken, after);
      NotKeywordStart(a.value, broken, after);
      PositionalStep(done, a.value, value, after, c);
    }
  }

  lemma {:induction false} CompRoundTrip(e: Expr, broken: Layout, after: Stream, c: bool)
    requires Levelled(e) && e.ListComp?
    ensures ParsePrimary(Print(e, broken, after), c) == Parsed(e, after, 0)
    decreases e, 0
  {
    hide ParsePrimary, ParseExpr, ParseListOrComp, CompFilter, ParseIfExpr, Len;
    var close := Next(RBrack, after);
    var filter := if e.cond.Missing? then close else Next(KwIf, Print(e.cond, broken, close));
    var source := Print(e.iter, broken, filter);
    var comp := Next(KwFor, Next(Name(e.v.value), Next(KwIn, source)));
    var ts := Print(e.expr, broken, comp);
    assert Print(e, broken, after) == Next(LBrack, ts);
    CompHeadRoundTrip(e, broken, filter, c);
    CompFilterRoundTrip(e, broken, after, c);
    BracketStep(ts, c);
  }

  lemma {:induction false} CompHeadRoundTrip(e: Expr, broken: Layout, filter: Stream, c: bool)
    requires Levelled(e) && e.ListComp? && Ends(Cur(filter), c, e.iter)
    ensures var source := Print(e.iter, broken, filter);
      var comp := Next(KwFor, Next(Name(e.v.value), Next(KwIn, source)));
      ParseListOrComp(Print(e.expr, broken, comp), c) == CompFilter(e.expr, e.v.value, e.iter, filter, c)
    decreases e, 0, 0
  {
    hide ParseExpr, ParseListOrComp, CompFilter, Print;
    var source := Print(e.iter, broken, filter);
    var comp := Next(KwFor, Next(Name(e.v.value), Next(KwIn, source)));
    PrintStarts(e.expr, broken, comp);
    ExprRoundTrip(e.expr, broken, comp, c);
    ExprRoundTrip(e.iter, broken, filter, c);
    CompStep(e.expr, e.v.value, e.iter, Print(e.expr, broken, comp), source, filter, c);
  }

  lemma {:induction false} CompFilterRoundTrip(e: Expr, broken: Layout, after: Stream, c: bool)
    requires Levelled(e) && e.ListComp?
    ensures var close := Next(RBrack, after);
      var filter := if e.cond.Missing? then close else Next(KwIf, Print(e.cond, broken, close));
      CompFilter(e.expr, e.v.value, e.iter, filter, c) == Parsed(e, after, 0)
    decreases e, 0, 0
  {
    hide ParseExpr, Print;
    if !e.cond.Missing? {
      ExprRoundTrip(e.cond, broken, Next(RBrack, after), c);
    }
  }

  lemma {:induction false} IfRoundTrip(e: Expr, broken: Layout, after: Stream, c: bool)
    requires Levelled(e) && e.If?
    ensures ParsePrimary(Print(e, broken, after), c) == Parsed(e, after, 0)
    decreases e, 0
  {
    hide ParsePrimary, ParseExpr, ParseIfExpr, ParseListOrComp;
    var close := Next(RBrace, after);
    var t2 := Print(e.els, broken, close);
    var elseTail := Next(RBrace, Next(KwElse, Next(LBrace, t2)));
    var t1 := Print(e.thn, broken, elseTail);
    var ts := Print(e.cond, broken, Next(LBrace, t1));
    ExprRoundTrip(e.cond, broken, Next(LBrace, t1), true);
    ExprRoundTrip(e.thn, broken, elseTail, c);
    ExprRoundTrip(e.els, broken, close, c);
    IfStep(e.cond, e.thn, e.els, ts, t1, t2, after, c);
    IfKeywordStep(ts, c);
    assert Print(e, broken, after) == Next(KwIf, ts);
  }
}
