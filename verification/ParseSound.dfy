/** What an error-free parse returns: a tree whose nesting respects the operator levels, grouped to
    the left, and whose printed tokens are the ones that were read, up to separators. */
module ParseSound {
  import opened Wrappers
  import opened Syntax
  import opened Parsing
  import opened Formatting
  import RoundTrip

  /** The stream without the commas and semicolons that the list and argument loops skip. */
  ghost function Strip(ts: Stream): Stream {
    if ts.End? then End
    else if ts.tok == Comma || ts.tok == Semi then Strip(ts.rest)
    else Next(ts.tok, Strip(ts.rest))
  }

  // Stripping only looks at what follows modulo separators
  // ---------------------------------------------------------------------------

  lemma StripNext(t: Token, a: Stream, b: Stream)
    requires Strip(a) == Strip(b)
    ensures Strip(Next(t, a)) == Strip(Next(t, b))
  {
  }

  lemma StripSeparator(ts: Stream)
    requires Cur(ts) == Comma || Cur(ts) == Semi
    ensures Strip(ts) == Strip(Advance(ts))
  {
  }

  lemma StripComma(a: Stream)
    ensures Strip(Next(Comma, a)) == Strip(a)
  {
  }

  lemma {:induction false} StripPrint(e: Expr, broken: Layout, a: Stream, b: Stream)
    requires Strip(a) == Strip(b)
    ensures Strip(Print(e, broken, a)) == Strip(Print(e, broken, b))
    decreases e, 1
  {
    hide Print, Strip;
    match e
    case Paren(_) => StripParen(e, broken, a, b);
    case Unary(_, _) => StripUnary(e, broken, a, b);
    case Binary(_, _, _) => StripBinary(e, broken, a, b);
    case Selector(_, _) => StripSelector(e, broken, a, b);
    case Index(_, _) => StripIndex(e, broken, a, b);
    case Call(_, _) => StripCall(e, broken, a, b);
    case ListLit(_) => StripList(e, broken, a, b);
    case ListComp(_, _, _, _) => StripComp(e, broken, a, b);
    case If(_, _, _) => StripIf(e, broken, a, b);
    case _ => StripLeaf(e, broken, a, b);
  }

  lemma {:induction false} StripLeaf(e: Expr, broken: Layout, a: Stream, b: Stream)
    requires Strip(a) == Strip(b)
    requires e.Missing? || e.Ident? || e.IntLit? || e.StringLit? || e.BoolLit? || e.NoneLit? || e.SelfLit?
    ensures Strip(Print(e, broken, a)) == Strip(Print(e, broken, b))
  {
  }

  lemma {:induction false} StripParen(e: Expr, broken: Layout, a: Stream, b: Stream)
    requires Strip(a) == Strip(b) && e.Paren?
    ensures Strip(Print(e, broken, a)) == Strip(Print(e, broken, b))
    decreases e, 0
  {
    StripPrint(e.inner, broken, Next(RParen, a), Next(RParen, b));
  }

  lemma {:induction false} StripUnary(e: Expr, broken: Layout, a: Stream, b: Stream)
    requires Strip(a) == Strip(b) && e.Unary?
    ensures Strip(Print(e, broken, a)) == Strip(Print(e, broken, b))
    decreases e, 0
  {
    StripPrint(e.x, broken, a, b);
  }

  lemma {:induction false} StripList(e: Expr, broken: Layout, a: Stream, b: Stream)
    requires Strip(a) == Strip(b) && e.ListLit?
    ensures Strip(Print(e, broken, a)) == Strip(Print(e, broken, b))
    decreases e, 0
  {
    StripItems(e.items, broken, broken(e), broken(e), Next(RBrack, a), Next(RBrack, b));
  }

  lemma {:induction false} StripBinary(e: Expr, broken: Layout, a: Stream, b: Stream)
    requires Strip(a) == Strip(b) && e.Binary?
    ensures Strip(Print(e, broken, a)) == Strip(Print(e, broken, b))
    decreases e, 0
  {
    StripPrint(e.right, broken, a, b);
    StripPrint(e.left, broken, Next(e.op, Print(e.right, broken, a)), Next(e.op, Print(e.right, broken, b)));
  }

  lemma {:induction false} StripSelector(e: Expr, broken: Layout, a: Stream, b: Stream)
    requires Strip(a) == Strip(b) && e.Selector?
    ensures Strip(Print(e, broken, a)) == Strip(Print(e, broken, b))
    decreases e, 0
  {
    StripPrint(e.x, broken, Next(Dot, Next(Name(e.sel), a)), Next(Dot, Next(Name(e.sel), b)));
  }

  lemma {:induction false} StripIndex(e: Expr, broken: Layout, a: Stream, b: Stream)
    requires Strip(a) == Strip(b) && e.Index?
    ensures Strip(Print(e, broken, a)) == Strip(Print(e, broken, b))
    decreases e, 0
  {
    var i := e.index;
    var a', b' := Print(i, broken, Next(RBrack, a)), Print(i, broken, Next(RBrack, b));
    StripPrint(i, broken, Next(RBrack, a), Next(RBrack, b));
    StripPrint(e.x, broken, Next(LBrack, a'), Next(LBrack, b'));
  }

  lemma {:induction false} StripCall(e: Expr, broken: Layout, a: Stream, b: Stream)
    requires Strip(a) == Strip(b) && e.Call?
    ensures Strip(Print(e, broken, a)) == Strip(Print(e, broken, b))
    decreases e, 0
  {
    var args, lines := e.args, broken(e);
    var a', b' := PrintArgs(args, broken, lines, Next(RParen, a)), PrintArgs(args, broken, lines, Next(RParen, b));
    StripArgs(args, broken, lines, lines, Next(RParen, a), Next(RParen, b));
    StripPrint(e.fn, broken, Next(LParen, a'), Next(LParen, b'));
  }

  lemma {:induction false} StripComp(e: Expr, broken: Layout, a: Stream, b: Stream)
    requires Strip(a) == Strip(b) && e.ListComp?
    ensures Strip(Print(e, broken, a)) == Strip(Print(e, broken, b))
    decreases e, 0
  {
    hide Print, Strip;
    var a1, b1 := Next(RBrack, a), Next(RBrack, b);
    StripNext(RBrack, a, b);
    var a2, b2 := PrintFilter(e.cond, broken, a1), PrintFilter(e.cond, broken, b1);
    StripFilter(e, broken, a1, b1);
    var a3, b3 := Next(KwIn, Print(e.iter, broken, a2)), Next(KwIn, Print(e.iter, broken, b2));
    StripPrint(e.iter, broken, a2, b2);
    StripNext(KwIn, Print(e.iter, broken, a2), Print(e.iter, broken, b2));
    var a4 := if e.v.Some? then Next(Name(e.v.value), a3) else a3;
    var b4 := if e.v.Some? then Next(Name(e.v.value), b3) else b3;
    if e.v.Some? {
      StripNext(Name(e.v.value), a3, b3);
    }
    StripNext(KwFor, a4, b4);
    StripPrint(e.expr, broken, Next(KwFor, a4), Next(KwFor, b4));
    StripNext(LBrack, Print(e.expr, broken, Next(KwFor, a4)), Print(e.expr, broken, Next(KwFor, b4)));
    PrintComp(e, broken, a);
    PrintComp(e, broken, b);
  }

  /** The optional condition of a comprehension. */
  ghost function PrintFilter(cond: Expr, broken: Layout, close: Stream): Stream {
    if cond.Missing? then close else Next(KwIf, Print(cond, broken, close))
  }

  lemma PrintComp(e: Expr, broken: Layout, after: Stream)
    requires e.ListComp?
    ensures var source := Next(KwIn, Print(e.iter, broken, PrintFilter(e.cond, broken, Next(RBrack, after))));
      Print(e, broken, after) ==
        Next(LBrack, Print(e.expr, broken, Next(KwFor, if e.v.Some? then Next(Name(e.v.value), source) else source)))
  {
  }

  lemma {:induction false} StripFilter(e: Expr, broken: Layout, a: Stream, b: Stream)
    requires Strip(a) == Strip(b) && e.ListComp?
    ensures Strip(PrintFilter(e.cond, broken, a)) == Strip(PrintFilter(e.cond, broken, b))
    decreases e, 0, 0
  {
    if !e.cond.Missing? {
      StripPrint(e.cond, broken, a, b);
    }
  }

  lemma {:induction false} StripIf(e: Expr, broken: Layout, a: Stream, b: Stream)
    requires Strip(a) == Strip(b) && e.If?
    ensures Strip(Print(e, broken, a)) == Strip(Print(e, broken, b))
    decreases e, 0
  {
    hide Strip, Print;
    StripNext(RBrace, a, b);
    StripPrint(e.els, broken, Next(RBrace, a), Next(RBrace, b));
    var a1, b1 := Print(e.els, broken, Next(RBrace, a)), Print(e.els, broken, Next(RBrace, b));
    StripNext(LBrace, a1, b1);
    StripNext(KwElse, Next(LBrace, a1), Next(LBrace, b1));
    var a2, b2 := Next(RBrace, Next(KwElse, Next(LBrace, a1))), Next(RBrace, Next(KwElse, Next(LBrace, b1)));
    StripNext(RBrace, Next(KwElse, Next(LBrace, a1)), Next(KwElse, Next(LBrace, b1)));
    StripPrint(e.thn, broken, a2, b2);
    var a3, b3 := Next(LBrace, Print(e.thn, broken, a2)), Next(LBrace, Print(e.thn, broken, b2));
    StripNext(LBrace, Print(e.thn, broken, a2), Print(e.thn, broken, b2));
    StripPrint(e.cond, broken, a3, b3);
    StripNext(KwIf, Print(e.cond, broken, a3), Print(e.cond, broken, b3));
    PrintIf(e, broken, a);
    PrintIf(e, broken, b);
  }

  lemma PrintIf(e: Expr, broken: Layout, after: Stream)
    requires e.If?
    ensures var elseTail := Next(RBrace, Next(KwElse, Next(LBrace, Print(e.els, broken, Next(RBrace, after)))));
      Print(e, broken, after) == Next(KwIf, Print(e.cond, broken, Next(LBrace, Print(e.thn, broken, elseTail))))
  {
  }

  lemma {:induction false} StripItems(items: seq<Expr>, broken: Layout, l: bool, m: bool, a: Stream, b: Stream)
    requires Strip(a) == Strip(b)
    ensures Strip(PrintItems(items, broken, l, a)) == Strip(PrintItems(items, broken, m, b))
    decreases items, 0
  {
    if items != [] {
      StripItems(items[1..], broken, l, m, a, b);
      StripPrint(items[0], broken,
                 Separated(|items| > 1, l, PrintItems(items[1..], broken, l, a)),
                 Separated(|items| > 1, m, PrintItems(items[1..], broken, m, b)));
    }
  }

  lemma {:induction false} StripArgs(args: seq<Arg>, broken: Layout, l: bool, m: bool, a: Stream, b: Stream)
    requires Strip(a) == Strip(b)
    ensures Strip(PrintArgs(args, broken, l, a)) == Strip(PrintArgs(args, broken, m, b))
    decreases args, 0
  {
    if args != [] {
      StripArgs(args[1..], broken, l, m, a, b);
      StripArg(args[0], broken,
               Separated(|args| > 1, l, PrintArgs(args[1..], broken, l, a)),
               Separated(|args| > 1, m, PrintArgs(args[1..], broken, m, b)));
    }
  }

  lemma {:induction false} StripArg(arg: Arg, broken: Layout, a: Stream, b: Stream)
    requires Strip(a) == Strip(b)
    ensures Strip(PrintArg(arg, broken, a)) == Strip(PrintArg(arg, broken, b))
    decreases arg, 0
  {
    StripPrint(arg.value, broken, a, b);
  }

  // Error-free parses, level by level
  // ---------------------------------------------------------------------------

  /** r accounts for the tokens of ts: they are those of its tree and its rest, up to separators. */
  ghost predicate Accounts(ts: Stream, r: Parsed, broken: Layout) {
    Levelled(r.e) && Strip(ts) == Strip(Print(r.e, broken, r.rest))
  }

  lemma {:induction false} BinarySound(ts: Stream, c: bool, minPrec: nat, broken: Layout)
    requires minPrec <= UNARY_LEVEL
    ensures var r := ParseBinary(ts, c, minPrec);
      r.errs == 0 ==> Accounts(ts, r, broken) && Level(r.e) >= minPrec && BinaryPrec(Cur(r.rest)) < minPrec
    decreases Len(ts), 5
  {
    hide ParseUnary, Print, Levelled, Strip, BinaryLoop;
    var left := ParseUnary(ts, c);
    UnarySound(ts, c, broken);
    if !left.e.Missing? && left.errs == 0 {
      LoopSound(left.e, left.rest, c, minPrec, broken);
    }
  }

  lemma {:induction false} LoopSound(left: Expr, ts: Stream, c: bool, minPrec: nat, broken: Layout)
    requires Levelled(left) && Level(left) >= minPrec && BinaryPrec(Cur(ts)) <= Level(left)
    requires minPrec <= UNARY_LEVEL
    ensures var r := BinaryLoop(left, ts, c, minPrec);
      r.errs == 0 ==>
        && Levelled(r.e) && Level(r.e) >= minPrec && BinaryPrec(Cur(r.rest)) < minPrec
        && Strip(Print(left, broken, ts)) == Strip(Print(r.e, broken, r.rest))
    decreases Len(ts), 5
  {
    hide ParseBinary, Strip, Len;
    var op := Cur(ts);
    var prec := BinaryPrec(op);
    if prec >= minPrec {
      var right := ParseBinary(Advance(ts), c, prec + 1);
      BinarySound(Advance(ts), c, prec + 1, broken);
      if !right.e.Missing? && right.errs == 0 {
        var next := Next(op, Print(right.e, broken, right.rest));
        StripNext(op, Advance(ts), Print(right.e, broken, right.rest));
        StripPrint(left, broken, ts, next);
        assert Print(Binary(op, left, right.e), broken, right.rest) == Print(left, broken, next);
        LoopSound(Binary(op, left, right.e), right.rest, c, minPrec, broken);
      }
    }
  }

  lemma {:induction false} UnarySound(ts: Stream, c: bool, broken: Layout)
    ensures var r := ParseUnary(ts, c); r.errs == 0 ==> Accounts(ts, r, broken) && Level(r.e) >= UNARY_LEVEL
    decreases Len(ts), 4
  {
    hide ParsePostfix, Strip, Len;
    if Cur(ts) == Not || Cur(ts) == Minus {
      UnarySound(Advance(ts), c, broken);
      var x := ParseUnary(Advance(ts), c);
      if x.errs == 0 {
        StripNext(Cur(ts), Advance(ts), Print(x.e, broken, x.rest));
      }
    } else {
      PostfixSound(ts, c, broken);
    }
  }

  lemma {:induction false} PostfixSound(ts: Stream, c: bool, broken: Layout)
    ensures var r := ParsePostfix(ts, c); r.errs == 0 ==> Accounts(ts, r, broken) && Level(r.e) == POSTFIX_LEVEL
    decreases Len(ts), 3
  {
    hide ParsePrimary, PostfixLoop, Print, Levelled, Strip;
    var x := ParsePrimary(ts, c);
    PrimarySound(ts, c, broken);
    if !x.e.Missing? && x.errs == 0 {
      SuffixSound(x.e, x.rest, c, broken);
    }
  }

  ghost predicate Continues(x: Expr, ts: Stream, r: Parsed, broken: Layout) {
    Levelled(r.e) && Level(r.e) == POSTFIX_LEVEL && Strip(Print(x, broken, ts)) == Strip(Print(r.e, broken, r.rest))
  }

  lemma {:induction false} SuffixSound(x: Expr, ts: Stream, c: bool, broken: Layout)
    requires Levelled(x) && Level(x) == POSTFIX_LEVEL
    ensures var r := PostfixLoop(x, ts, c); r.errs == 0 ==> Continues(x, ts, r, broken)
    decreases Len(ts), 3
  {
    hide ParseExpr, ArgLoop;
    match Cur(ts)
    case Dot =>
      var t := Advance(ts);
      if Cur(t).Name? {
        var next := Next(Dot, Next(Name(Cur(t).text), Advance(t)));
        assert ts == next;
        SuffixSound(Selector(x, Cur(t).text), Advance(t), c, broken);
      }
    case LBrack => IndexSound(x, ts, c, broken);
    case LParen => CallSound(x, ts, c, broken);
    case _ =>
  }

  // An error-free suffix was read completely before the loop went on.

  lemma {:induction false} SelectorSplits(x: Expr, ts: Stream, c: bool)
    requires PostfixLoop(x, ts, c).errs == 0 && Cur(ts) == Dot
    ensures Cur(Advance(ts)).Name?
    ensures PostfixLoop(x, ts, c) == PostfixLoop(Selector(x, Cur(Advance(ts)).text), Advance(Advance(ts)), c)
  {
    hide ParseExpr, ArgLoop;
  }

  lemma {:induction false} IndexSplits(x: Expr, ts: Stream, c: bool)
    requires PostfixLoop(x, ts, c).errs == 0 && Cur(ts) == LBrack
    ensures var i := ParseExpr(Advance(ts), c);
      && i.errs == 0 && Cur(i.rest) == RBrack
      && PostfixLoop(x, ts, c) == PostfixLoop(Index(x, i.e), Advance(i.rest), c)
  {
    hide ParseExpr, ArgLoop;
  }

  lemma {:induction false} CallSplits(x: Expr, ts: Stream, c: bool)
    requires PostfixLoop(x, ts, c).errs == 0 && Cur(ts) == LParen
    ensures var a := ArgLoop([], Advance(ts), c);
      && a.errs == 0 && Cur(a.rest) == RParen
      && PostfixLoop(x, ts, c) == PostfixLoop(Call(x, a.args), Advance(a.rest), c)
  {
    hide ParseExpr, ArgLoop;
  }

  lemma {:induction false} IndexSound(x: Expr, ts: Stream, c: bool, broken: Layout)
    requires Levelled(x) && Level(x) == POSTFIX_LEVEL && Cur(ts) == LBrack
    ensures var r := PostfixLoop(x, ts, c); r.errs == 0 ==> Continues(x, ts, r, broken)
    decreases Len(ts), 2
  {
    hide ParseExpr, ArgLoop, PostfixLoop, Strip;
    if PostfixLoop(x, ts, c).errs == 0 {
      IndexSplits(x, ts, c);
      var i := ParseExpr(Advance(ts), c);
      ExprSound(Advance(ts), c, broken);
      var next := Next(LBrack, Print(i.e, broken, i.rest));
      StripNext(LBrack, Advance(ts), Print(i.e, broken, i.rest));
      StripPrint(x, broken, ts, next);
      SuffixSound(Index(x, i.e), Advance(i.rest), c, broken);
    }
  }

  lemma {:induction false} CallSound(x: Expr, ts: Stream, c: bool, broken: Layout)
    requires Levelled(x) && Level(x) == POSTFIX_LEVEL && Cur(ts) == LParen
    ensures var r := PostfixLoop(x, ts, c); r.errs == 0 ==> Continues(x, ts, r, broken)
    decreases Len(ts), 2
  {
    hide ParseExpr, ArgLoop, PostfixLoop, Strip, PrintArgs, LevelledArgs;
    if PostfixLoop(x, ts, c).errs == 0 {
      CallSplits(x, ts, c);
      var a := ArgLoop([], Advance(ts), c);
      ArgsSound([], Advance(ts), c, broken);
      assert a.args[0..] == a.args;
      CallStrips(x, a.args, ts, a.rest, broken);
      SuffixSound(Call(x, a.args), Advance(a.rest), c, broken);
    }
  }

  /** The tokens of a call up to its closing parenthesis. */
  lemma {:induction false} CallStrips(x: Expr, args: seq<Arg>, ts: Stream, rest: Stream, broken: Layout)
    requires Cur(ts) == LParen && Cur(rest) == RParen
    requires Strip(Advance(ts)) == Strip(PrintArgs(args, broken, true, rest))
    ensures Strip(Print(x, broken, ts)) == Strip(Print(Call(x, args), broken, Advance(rest)))
  {
    hide Strip, PrintArgs;
    var e := Call(x, args);
    var inside := PrintArgs(args, broken, broken(e), rest);
    StripArgs(args, broken, true, broken(e), rest, rest);
    StripNext(LParen, Advance(ts), inside);
    StripPrint(x, broken, ts, Next(LParen, inside));
  }

  lemma {:induction false} ExprSound(ts: Stream, c: bool, broken: Layout)
    ensures var r := ParseExpr(ts, c); r.errs == 0 ==> Accounts(ts, r, broken) && BinaryPrec(Cur(r.rest)) < 0
    decreases Len(ts), 6
  {
    hide ParseBinary;
    BinarySound(ts, c, 0, broken);
  }

  lemma {:induction false} ArgsSound(done: seq<Arg>, ts: Stream, c: bool, broken: Layout)
    ensures var r := ArgLoop(done, ts, c);
      r.errs == 0 ==>
        && done <= r.args && LevelledArgs(r.args[|done|..])
        && Strip(ts) == Strip(PrintArgs(r.args[|done|..], broken, true, r.rest))
    decreases Len(ts), 7
  {
    hide ParseExpr;
    var r := ArgLoop(done, ts, c);
    if Cur(ts) == RParen || Cur(ts) == EOF {
    } else if Cur(ts) == Comma || Cur(ts) == Semi {
      ArgsSound(done, Advance(ts), c, broken);
    } else if Cur(ts).Name? && Peek(ts) == Assign {
      var t := Advance(Advance(ts));
      ExprSound(t, c, broken);
      var v := ParseExpr(t, c);
      if r.errs == 0 {
        OneArg(done, Arg(Some(Cur(ts).text), v.e), ts, t, v, c, broken);
      }
    } else {
      ExprSound(ts, c, broken);
      var v := ParseExpr(ts, c);
      if r.errs == 0 {
        OneArg(done, Arg(None, v.e), ts, ts, v, c, broken);
      }
    }
  }

  /** One argument read, and the loop run on from there. */
  lemma {:induction false} OneArg(done: seq<Arg>, a: Arg, ts: Stream, t: Stream, v: Parsed, c: bool, broken: Layout)
    requires Accounts(t, v, broken) && v.e == a.value && Len(v.rest) < Len(ts)
    requires if a.name.Some? then ts == Next(Name(a.name.value), Next(Assign, t)) else ts == t
    requires ArgLoop(done, ts, c) == ArgLoop(done + [a], v.rest, c)
    ensures var r := ArgLoop(done, ts, c);
      r.errs == 0 ==>
        && done <= r.args && LevelledArgs(r.args[|done|..])
        && Strip(ts) == Strip(PrintArgs(r.args[|done|..], broken, true, r.rest))
    decreases Len(ts), 6
  {
    hide ArgLoop, Print, Levelled;
    var r := ArgLoop(done + [a], v.rest, c);
    ArgsSound(done + [a], v.rest, c, broken);
    if r.errs == 0 {
      var more := r.args[|done| + 1..];
      assert r.args[|done|..] == [a] + more;
      StripPrint(v.e, broken, v.rest, Next(Comma, PrintArgs(more, broken, true, r.rest)));
      assert ([a] + more)[1..] == more;
    }
  }

  lemma {:induction false} ItemsSound(done: seq<Expr>, ts: Stream, c: bool, broken: Layout)
    ensures var r := ItemLoop(done, ts, c);
      r.errs == 0 ==>
        && done <= r.items && LevelledAll(r.items[|done|..])
        && Strip(ts) == Strip(PrintItems(r.items[|done|..], broken, true, r.rest))
    decreases Len(ts), 7
  {
    hide ParseExpr, Print, Levelled, PrintItems, LevelledAll, Strip;
    var r := ItemLoop(done, ts, c);
    NoItems(broken, r.rest);
    assert done[|done|..] == [];
    if Cur(ts) == RBrack || Cur(ts) == EOF {
    } else if Cur(ts) == Comma || Cur(ts) == Semi {
      StripSeparator(ts);
      ItemsSound(done, Advance(ts), c, broken);
    } else {
      var x := ParseExpr(ts, c);
      ExprSound(ts, c, broken);
      if !x.e.Missing? {
        ItemsSound(done + [x.e], x.rest, c, broken);
      }
      if r.errs == 0 {
        var more := r.items[|done| + 1..];
        assert r.items[|done|..] == [x.e] + more;
        ItemFirst(x.e, more, ts, x.rest, r.rest, broken);
      }
    }
  }

  lemma NoItems(broken: Layout, after: Stream)
    ensures LevelledAll([]) && Strip(PrintItems([], broken, true, after)) == Strip(after)
  {
  }

  lemma {:induction false} ItemsCons(x: Expr, more: seq<Expr>, broken: Layout, after: Stream)
    ensures PrintItems([x] + more, broken, true, after) ==
      Print(x, broken, Next(Comma, PrintItems(more, broken, true, after)))
    ensures LevelledAll([x] + more) <==> Levelled(x) && LevelledAll(more)
  {
    hide Print, Levelled;
    assert ([x] + more)[1..] == more;
  }

  lemma {:induction false} ItemFirst(x: Expr, more: seq<Expr>, ts: Stream, mid: Stream, after: Stream, broken: Layout)
    requires Strip(ts) == Strip(Print(x, broken, mid)) && Strip(mid) == Strip(PrintItems(more, broken, true, after))
    requires Levelled(x) && LevelledAll(more)
    ensures LevelledAll([x] + more) && Strip(ts) == Strip(PrintItems([x] + more, broken, true, after))
  {
    hide Print, Levelled, PrintItems, LevelledAll, Strip;
    ItemsCons(x, more, broken, after);
    StripComma(PrintItems(more, broken, true, after));
    StripPrint(x, broken, mid, Next(Comma, PrintItems(more, broken, true, after)));
  }

  lemma {:induction false} PrimarySound(ts: Stream, c: bool, broken: Layout)
    ensures var r := ParsePrimary(ts, c); r.errs == 0 ==> Accounts(ts, r, broken) && Level(r.e) == POSTFIX_LEVEL
    decreases Len(ts), 2
  {
    hide ParseExpr, ParseListOrComp, ParseIfExpr, Strip, Print, Levelled;
    match Cur(ts)
    case LParen => ParenSound(ts, c, broken);
    case LBrack => ListSound(Advance(ts), c, broken);
    case KwIf => IfSound(Advance(ts), c, broken);
    case _ => AtomSound(ts, c, broken);
  }

  lemma {:induction false} ParenSound(ts: Stream, c: bool, broken: Layout)
    requires Cur(ts) == LParen
    ensures var r := ParsePrimary(ts, c); r.errs == 0 ==> Accounts(ts, r, broken) && Level(r.e) == POSTFIX_LEVEL
    decreases Len(ts), 1
  {
    hide ParseExpr, ParseListOrComp, ParseIfExpr;
    ExprSound(Advance(ts), c, broken);
  }

  lemma {:induction false} AtomSound(ts: Stream, c: bool, broken: Layout)
    requires Cur(ts) != LParen && Cur(ts) != LBrack && Cur(ts) != KwIf
    ensures var r := ParsePrimary(ts, c); r.errs == 0 ==> Accounts(ts, r, broken) && Level(r.e) == POSTFIX_LEVEL
  {
    hide ParseExpr, ParseListOrComp, ParseIfExpr, Strip, Len;
    if ParsePrimary(ts, c).errs == 0 {
      assert ts == Print(ParsePrimary(ts, c).e, broken, ParsePrimary(ts, c).rest);
    }
  }

  lemma {:induction false} ListSound(ts: Stream, c: bool, broken: Layout)
    ensures var r := ParseListOrComp(ts, c);
      r.errs == 0 ==>
        && Levelled(r.e) && Level(r.e) == POSTFIX_LEVEL
        && Strip(Next(LBrack, ts)) == Strip(Print(r.e, broken, r.rest))
    decreases Len(ts), 8
  {
    hide ParseExpr, ItemLoop, CompTail, Print, Levelled, Strip;
    var r := ParseListOrComp(ts, c);
    if Cur(ts) == RBrack {
      EmptyListSound(ts, c, broken);
    } else if r.errs == 0 {
      var first := ParseExpr(ts, c);
      ExprSound(ts, c, broken);
      StripNext(LBrack, ts, Print(first.e, broken, first.rest));
      if Cur(first.rest) == KwFor {
        CompSound(first.e, Advance(first.rest), c, broken);
      } else {
        var items := ItemLoop([first.e], first.rest, c);
        ItemsSound([first.e], first.rest, c, broken);
        NonEmptyListSound(first.e, items.items, first.rest, items.rest, r.rest, broken);
      }
    }
  }

  lemma EmptyListSound(ts: Stream, c: bool, broken: Layout)
    requires Cur(ts) == RBrack
    ensures var r := ParseListOrComp(ts, c);
      Levelled(r.e) && Level(r.e) == POSTFIX_LEVEL && Next(LBrack, ts) == Print(r.e, broken, r.rest)
  {
    hide ParseExpr, ItemLoop, CompTail;
  }

  lemma NonEmptyListSound(first: Expr, items: seq<Expr>, ts: Stream, close: Stream, after: Stream, broken: Layout)
    requires Levelled(first) && [first] <= items && LevelledAll(items[1..]) && close == Next(RBrack, after)
    requires Strip(ts) == Strip(PrintItems(items[1..], broken, true, close))
    ensures Levelled(ListLit(items)) && Level(ListLit(items)) == POSTFIX_LEVEL
    ensures Strip(Next(LBrack, Print(first, broken, ts))) == Strip(Print(ListLit(items), broken, after))
  {
    var e := ListLit(items);
    var more := PrintItems(items[1..], broken, true, close);
    StripPrint(first, broken, ts, Next(Comma, more));
    StripItems(items, broken, true, broken(e), close, close);
  }

  lemma {:induction false} CompSound(x: Expr, ts: Stream, c: bool, broken: Layout)
    requires Levelled(x)
    ensures var r := CompTail(x, ts, c);
      r.errs == 0 ==>
        && Levelled(r.e) && Level(r.e) == POSTFIX_LEVEL
        && Strip(Next(LBrack, Print(x, broken, Next(KwFor, ts)))) == Strip(Print(r.e, broken, r.rest))
    decreases Len(ts), 7
  {
    hide ParseExpr, Print, Strip;
    var r := CompTail(x, ts, c);
    if r.errs == 0 {
      var source := Advance(Advance(ts));
      assert ts == Next(Name(r.e.v.value), Next(KwIn, source));
      var iter := ParseExpr(source, c);
      ExprSound(source, c, broken);
      var filter := PrintFilter(r.e.cond, broken, Next(RBrack, r.rest));
      if Cur(iter.rest) == KwIf {
        ExprSound(Advance(iter.rest), c, broken);
        StripNext(KwIf, Advance(iter.rest), Print(r.e.cond, broken, Next(RBrack, r.rest)));
      }
      StripPrint(iter.e, broken, iter.rest, filter);
      CompStrips(r.e, ts, source, r.rest, broken);
    }
  }

  /** The tokens of a comprehension up to its source. */
  lemma {:induction false} CompStrips(e: Expr, ts: Stream, source: Stream, after: Stream, broken: Layout)
    requires e.ListComp? && e.v.Some? && ts == Next(Name(e.v.value), Next(KwIn, source))
    requires Strip(source) == Strip(Print(e.iter, broken, PrintFilter(e.cond, broken, Next(RBrack, after))))
    ensures Strip(Next(LBrack, Print(e.expr, broken, Next(KwFor, ts)))) == Strip(Print(e, broken, after))
  {
    hide Print, Strip;
    var source' := Print(e.iter, broken, PrintFilter(e.cond, broken, Next(RBrack, after)));
    StripNext(KwIn, source, source');
    StripNext(Name(e.v.value), Next(KwIn, source), Next(KwIn, source'));
    var ts' := Next(Name(e.v.value), Next(KwIn, source'));
    StripNext(KwFor, ts, ts');
    StripPrint(e.expr, broken, Next(KwFor, ts), Next(KwFor, ts'));
    StripNext(LBrack, Print(e.expr, broken, Next(KwFor, ts)), Print(e.expr, broken, Next(KwFor, ts')));
    PrintComp(e, broken, after);
  }

  lemma {:induction false} IfSound(ts: Stream, c: bool, broken: Layout)
    ensures var r := ParseIfExpr(ts, c);
      r.errs == 0 ==> Levelled(r.e) && Strip(Next(KwIf, ts)) == Strip(Print(r.e, broken, r.rest))
    decreases Len(ts), 9
  {
    hide ParseExpr, IfBranches, Print, Strip;
    var cond := ParseExpr(ts, true);
    ExprSound(ts, true, broken);
    if cond.errs == 0 {
      BranchesSound(cond.e, cond.rest, c, broken);
      StripNext(KwIf, ts, Print(cond.e, broken, cond.rest));
    }
  }

  lemma {:induction false} BranchesSound(cond: Expr, ts: Stream, c: bool, broken: Layout)
    requires Levelled(cond)
    ensures var r := IfBranches(cond, ts, c);
      r.errs == 0 ==>
        Levelled(r.e) && Strip(Next(KwIf, Print(cond, broken, ts))) == Strip(Print(r.e, broken, r.rest))
    decreases Len(ts), 8
  {
    hide ParseExpr, ElseBranch, Print, Strip;
    var r := IfBranches(cond, ts, c);
    if r.errs == 0 {
      var t1 := Advance(ts);
      var thn := ParseExpr(t1, c);
      ExprSound(t1, c, broken);
      var t4 := Advance(Advance(Advance(thn.rest)));
      ElseTokens(cond, thn.e, thn.rest, c);
      ExprSound(t4, c, broken);
      IfTokens(r.e, ts, t1, thn.rest, t4, r.rest, broken);
    }
  }

  lemma {:induction false} ElseTokens(cond: Expr, thn: Expr, ts: Stream, c: bool)
    ensures var r := ElseBranch(cond, thn, ts, c);
      r.errs == 0 ==>
        && var t4 := Advance(Advance(Advance(ts)));
        && ts == Next(RBrace, Next(KwElse, Next(LBrace, t4)))
        && ParseExpr(t4, c) == Parsed(r.e.els, Next(RBrace, r.rest), 0)
        && r.e == If(cond, thn, r.e.els)
  {
    hide ParseExpr, Len;
  }

  /** The tokens between the parts of an if expression. */
  lemma IfTokens(e: Expr, a: Stream, t1: Stream, b: Stream, t4: Stream, after: Stream, broken: Layout)
    requires e.If?
    requires a == Next(LBrace, t1) && b == Next(RBrace, Next(KwElse, Next(LBrace, t4)))
    requires Strip(t1) == Strip(Print(e.thn, broken, b))
    requires Strip(t4) == Strip(Print(e.els, broken, Next(RBrace, after)))
    ensures Strip(Next(KwIf, Print(e.cond, broken, a))) == Strip(Print(e, broken, after))
  {
    hide Print, Strip;
    var t4' := Print(e.els, broken, Next(RBrace, after));
    StripNext(LBrace, t4, t4');
    StripNext(KwElse, Next(LBrace, t4), Next(LBrace, t4'));
    var b' := Next(RBrace, Next(KwElse, Next(LBrace, t4')));
    StripNext(RBrace, Next(KwElse, Next(LBrace, t4)), Next(KwElse, Next(LBrace, t4')));
    StripPrint(e.thn, broken, b, b');
    var a' := Next(LBrace, Print(e.thn, broken, b'));
    StripNext(LBrace, t1, Print(e.thn, broken, b'));
    StripPrint(e.cond, broken, a, a');
    StripNext(KwIf, Print(e.cond, broken, a), Print(e.cond, broken, a'));
    PrintIf(e, broken, after);
  }

  // What stops the parser
  // ---------------------------------------------------------------------------

  lemma {:induction false} SuffixStops(x: Expr, ts: Stream, c: bool)
    requires Level(x) == POSTFIX_LEVEL
    ensures var r := PostfixLoop(x, ts, c); r.errs == 0 ==> RoundTrip.Quiet(Cur(r.rest), c, r.e)
    decreases Len(ts)
  {
    hide ParseExpr, ArgLoop, PostfixLoop, RoundTrip.Quiet;
    if PostfixLoop(x, ts, c).errs == 0 {
      if Cur(ts) == Dot {
        SelectorSplits(x, ts, c);
        var t := Advance(ts);
        SuffixStops(Selector(x, Cur(t).text), Advance(t), c);
      } else if Cur(ts) == LBrack {
        IndexSplits(x, ts, c);
        var i := ParseExpr(Advance(ts), c);
        SuffixStops(Index(x, i.e), Advance(i.rest), c);
      } else if Cur(ts) == LParen {
        CallSplits(x, ts, c);
        var a := ArgLoop([], Advance(ts), c);
        SuffixStops(Call(x, a.args), Advance(a.rest), c);
      } else {
        NoSuffix(x, ts, c);
      }
    }
  }

  lemma NoSuffix(x: Expr, ts: Stream, c: bool)
    requires Level(x) == POSTFIX_LEVEL && PostfixLoop(x, ts, c).errs == 0
    requires Cur(ts) != Dot && Cur(ts) != LBrack && Cur(ts) != LParen
    ensures var r := PostfixLoop(x, ts, c); RoundTrip.Quiet(Cur(r.rest), c, r.e)
  {
    hide ParseExpr, ArgLoop;
  }

  lemma {:induction false} UnaryStops(ts: Stream, c: bool, broken: Layout)
    ensures var r := ParseUnary(ts, c); r.errs == 0 ==> RoundTrip.Quiet(Cur(r.rest), c, r.e)
    decreases Len(ts)
  {
    hide ParsePrimary, PostfixLoop, Strip, Print, Levelled;
    if Cur(ts) == Not || Cur(ts) == Minus {
      UnaryStops(Advance(ts), c, broken);
    } else {
      PrimarySound(ts, c, broken);
      var x := ParsePrimary(ts, c);
      if !x.e.Missing? && x.errs == 0 {
        SuffixStops(x.e, x.rest, c);
      }
    }
  }

  lemma {:induction false} BinaryStops(ts: Stream, c: bool, minPrec: nat, broken: Layout)
    ensures var r := ParseBinary(ts, c, minPrec); r.errs == 0 ==> RoundTrip.Quiet(Cur(r.rest), c, r.e)
    decreases Len(ts), 1
  {
    hide ParseUnary, BinaryLoop;
    UnaryStops(ts, c, broken);
    var left := ParseUnary(ts, c);
    if !left.e.Missing? && left.errs == 0 {
      ClimbingStops(left.e, left.rest, c, minPrec, broken);
    }
  }

  lemma {:induction false} ClimbingStops(left: Expr, ts: Stream, c: bool, minPrec: nat, broken: Layout)
    requires RoundTrip.Quiet(Cur(ts), c, left)
    ensures var r := BinaryLoop(left, ts, c, minPrec); r.errs == 0 ==> RoundTrip.Quiet(Cur(r.rest), c, r.e)
    decreases Len(ts), 0
  {
    hide ParseBinary;
    var prec := BinaryPrec(Cur(ts));
    if prec >= minPrec {
      BinaryStops(Advance(ts), c, prec + 1, broken);
      var right := ParseBinary(Advance(ts), c, prec + 1);
      if !right.e.Missing? && right.errs == 0 {
        ClimbingStops(Binary(Cur(ts), left, right.e), right.rest, c, minPrec, broken);
      }
    }
  }

  /** After an expression read without error stands a token that does not extend it. */
  lemma ExprStops(ts: Stream, c: bool, broken: Layout)
    ensures var r := ParseExpr(ts, c); r.errs == 0 ==> RoundTrip.Ends(Cur(r.rest), c, r.e)
  {
    hide Strip, Print, Levelled, ParseBinary;
    BinaryStops(ts, c, 0, broken);
    BinarySound(ts, c, 0, broken);
  }

  // Consequences
  // ---------------------------------------------------------------------------

  /** A tree survives printing and parsing exactly when its nesting respects the operator levels. */
  lemma RoundTripsIffLevelled(e: Expr, broken: Layout, after: Stream, c: bool)
    requires RoundTrip.Ends(Cur(after), c, e)
    ensures ParseExpr(Print(e, broken, after), c) == Parsed(e, after, 0) <==> Levelled(e)
  {
    hide ParseExpr, Print, Levelled, Strip;
    ExprSound(Print(e, broken, after), c, broken);
    if Levelled(e) {
      RoundTrip.ExprRoundTrip(e, broken, after, c);
    }
  }

  /** Formatting what was parsed without error, in any layout, and parsing that again changes nothing. */
  lemma FormattingIsStable(ts: Stream, c: bool, broken: Layout)
    ensures var r := ParseExpr(ts, c); r.errs == 0 ==> ParseExpr(Print(r.e, broken, r.rest), c) == r
  {
    hide ParseExpr, Print, Levelled, Strip, RoundTrip.Ends;
    var r := ParseExpr(ts, c);
    if r.errs == 0 {
      ExprSound(ts, c, broken);
      ExprStops(ts, c, broken);
      RoundTrip.ExprRoundTrip(r.e, broken, r.rest, c);
    }
  }

  /** e was read from before up to after: its nesting respects the levels, the next token does not extend
      it, and its tokens are those between, up to separators, in whatever layout they are printed. */
  ghost predicate ReadWhole(e: Expr, before: Stream, after: Stream, c: bool) {
    && Levelled(e) && RoundTrip.Ends(Cur(after), c, e)
    && forall broken: Layout :: Strip(before) == Strip(Print(e, broken, after))
  }

  lemma ErrorFreeIsReadWhole(ts: Stream, c: bool)
    ensures var r := ParseExpr(ts, c); r.errs == 0 ==> ReadWhole(r.e, ts, r.rest, c)
  {
    hide ParseExpr, Print, Levelled, Strip, RoundTrip.Ends;
    var r := ParseExpr(ts, c);
    if r.errs == 0 {
      var flat: Layout := e => false;
      ExprSound(ts, c, flat);
      ExprStops(ts, c, flat);
      forall broken: Layout ensures Strip(ts) == Strip(Print(r.e, broken, r.rest)) {
        ExprSound(ts, c, broken);
      }
    }
  }

  /** No two levelled trees print the same tokens, whatever their layouts. */
  lemma PrintIsInjective(e: Expr, f: Expr, b: Layout, d: Layout)
    requires Levelled(e) && Levelled(f) && Print(e, b, End) == Print(f, d, End)
    ensures e == f
  {
    hide ParseExpr, Print, Levelled;
    RoundTrip.ExprRoundTrip(e, b, End, false);
    RoundTrip.ExprRoundTrip(f, d, End, false);
  }

  /** Without parentheses an operator of the same level on the right does not survive: printing
      1 - (2 - 3) without its parentheses reads back as (1 - 2) - 3. */
  lemma RightNestingIsLost(broken: Layout)
    ensures var one, two, three := IntLit("1"), IntLit("2"), IntLit("3");
      var e := Binary(Minus, one, Binary(Minus, two, three));
      !Levelled(e) && ParseExpr(Print(e, broken, End), false).e != e
  {
    var one, two, three := IntLit("1"), IntLit("2"), IntLit("3");
    var e := Binary(Minus, one, Binary(Minus, two, three));
    var f := Binary(Minus, Binary(Minus, one, two), three);
    assert Print(e, broken, End) == Print(f, broken, End);
    RoundTrip.ExprRoundTrip(f, broken, End, false);
  }
}
