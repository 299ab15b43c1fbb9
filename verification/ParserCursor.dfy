/** The parser as the source runs it (internal/lang/parse/expr.go, parse.go): methods that advance a
    token cursor, set the condition flag and collect errors, with a loop wherever the source loops.
    Each one is proved to answer what the function of the same name in Parsing says. */
module ParserCursor {
  import opened Wrappers
  import opened Syntax
  import P = Parsing
  import ParseSound

  class Parser {
    var toks: Stream   // current token, look-ahead token and what the lexer still holds
    var inCond: bool   // reading a condition: `{` ends it
    var errs: nat      // errors recorded so far

    constructor (toks: Stream)
      ensures this.toks == toks && !inCond && errs == 0
    {
      this.toks, inCond, errs := toks, false, 0;
    }

    method Expect(want: Token)
      modifies this`toks, this`errs
      ensures toks == P.Expect(old(toks), want).0 && errs == old(errs) + P.Expect(old(toks), want).1
    {
      if P.Cur(toks) == want {
        toks := P.Advance(toks);
      } else {
        errs := errs + 1;
      }
    }

    /** The cursor stands where r leaves it, with r's errors added; the flag is as it was. */
    twostate predicate Answers(e: Expr, r: P.Parsed)
      reads this
    {
      e == r.e && toks == r.rest && errs == old(errs) + r.errs && inCond == old(inCond)
    }

    /** An unchanged error count means that the tree respects the operator levels and that its tokens are
        exactly the ones consumed. */
    method ParseExpr() returns (e: Expr)
      modifies this
      ensures Answers(e, P.ParseExpr(old(toks), old(inCond)))
      ensures errs == old(errs) ==> ParseSound.ReadWhole(e, old(toks), toks, inCond)
      decreases P.Len(toks), 6
    {
      hide P.ParseBinary, ParseSound.ReadWhole;
      ParseSound.ErrorFreeIsReadWhole(toks, inCond);
      e := ParseBinary(0);
    }

    method ParseBinary(minPrec: nat) returns (left: Expr)
      modifies this
      ensures Answers(left, P.ParseBinary(old(toks), old(inCond), minPrec))
      decreases P.Len(toks), 5
    {
      hide P.ParseUnary, P.BinaryLoop, P.Len;
      left := ParseUnary();
      if left.Missing? {
        return;
      }
      ghost var r := P.BinaryLoop(left, toks, inCond, minPrec);
      ghost var errs0 := errs;
      while BinaryPrec(P.Cur(toks)) >= minPrec
        invariant inCond == old(inCond) && P.Len(toks) < P.Len(old(toks)) && errs >= errs0
        invariant var now := P.BinaryLoop(left, toks, inCond, minPrec);
          now.e == r.e && now.rest == r.rest && errs + now.errs == errs0 + r.errs
        decreases P.Len(toks)
      {
        LoopTurns(left, toks, inCond, minPrec);
        var op := P.Cur(toks);
        var prec := BinaryPrec(op);
        toks := P.Advance(toks);
        var right := ParseBinary(prec + 1);
        if right.Missing? {
          return;
        }
        left := Binary(op, left, right);
      }
      LoopEnds(left, toks, inCond, minPrec);
    }

    method ParseUnary() returns (e: Expr)
      modifies this
      ensures Answers(e, P.ParseUnary(old(toks), old(inCond)))
      decreases P.Len(toks), 4
    {
      hide P.ParsePostfix;
      if P.Cur(toks) == Not || P.Cur(toks) == Minus {
        var op := P.Cur(toks);
        toks := P.Advance(toks);
        e := ParseUnary();
        if !e.Missing? {
          e := Unary(op, e);
        }
      } else {
        e := ParsePostfix();
      }
    }

    method ParsePostfix() returns (x: Expr)
      modifies this
      ensures Answers(x, P.ParsePostfix(old(toks), old(inCond)))
      decreases P.Len(toks), 3
    {
      hide P.ParsePrimary, P.ParseExpr, P.ArgLoop, P.Len, P.PostfixLoop;
      x := ParsePrimary();
      if x.Missing? {
        return;
      }
      ghost var r := P.PostfixLoop(x, toks, inCond);
      ghost var errs0 := errs;
      while P.Cur(toks) == Dot || P.Cur(toks) == LBrack || P.Cur(toks) == LParen
        invariant !x.Missing? && inCond == old(inCond) && P.Len(toks) < P.Len(old(toks)) && errs >= errs0
        invariant var now := P.PostfixLoop(x, toks, inCond);
          now.e == r.e && now.rest == r.rest && errs + now.errs == errs0 + r.errs
        decreases P.Len(toks)
      {
        var more := true;
        match P.Cur(toks) {
          case Dot => x, more := ParseSelector(x);
          case LBrack => x := ParseIndex(x);
          case LParen => x := ParseCall(x);
        }
        if !more {
          return;
        }
      }
      // Block fills and struct literals are not part of this model.
      if P.Cur(toks) == LBrace && !inCond && (x.Call? || P.CanTakeStructLit(x)) {
        errs := errs + 1;
      }
      LoopStops(x, toks, inCond);
    }

    /** The suffix loop goes on with x' where the call leaves the cursor. */
    twostate predicate TakesSuffix(x: Expr, x': Expr)
      reads this
    {
      var was, now := P.PostfixLoop(x, old(toks), old(inCond)), P.PostfixLoop(x', toks, inCond);
      && inCond == old(inCond) && P.Len(toks) < P.Len(old(toks)) && errs >= old(errs)
      && was.e == now.e && was.rest == now.rest && old(errs) + was.errs == errs + now.errs
    }

    method ParseSelector(x: Expr) returns (x': Expr, more: bool)
      requires P.Cur(toks) == Dot && !x.Missing?
      modifies this
      ensures if more then TakesSuffix(x, x') && !x'.Missing?
              else Answers(x', P.PostfixLoop(x, old(toks), old(inCond)))
    {
      toks := P.Advance(toks);
      if !P.Cur(toks).Name? {
        errs := errs + 1;
        return x, false;
      }
      x' := Selector(x, P.Cur(toks).text);
      toks := P.Advance(toks);
      more := true;
    }

    method ParseIndex(x: Expr) returns (x': Expr)
      requires P.Cur(toks) == LBrack
      modifies this
      ensures TakesSuffix(x, x') && !x'.Missing?
      decreases P.Len(toks), 2
    {
      hide P.ParseExpr, P.ArgLoop;
      toks := P.Advance(toks);
      var i := ParseExpr();
      Expect(RBrack);
      x' := Index(x, i);
    }

    method ParseCall(x: Expr) returns (x': Expr)
      requires P.Cur(toks) == LParen
      modifies this
      ensures TakesSuffix(x, x') && !x'.Missing?
      decreases P.Len(toks), 2
    {
      hide P.ParseExpr, P.ArgLoop;
      toks := P.Advance(toks);
      var args := ParseCallArgs();
      Expect(RParen);
      x' := Call(x, args);
    }

    method ParseCallArgs() returns (args: seq<Arg>)
      modifies this
      ensures var r := P.ArgLoop([], old(toks), old(inCond));
        args == r.args && toks == r.rest && errs == old(errs) + r.errs && inCond == old(inCond)
      decreases P.Len(toks), 7
    {
      hide P.ParseExpr;
      args := [];
      ghost var r := P.ArgLoop([], toks, inCond);
      while P.Cur(toks) != RParen && P.Cur(toks) != EOF
        invariant inCond == old(inCond) && P.Len(toks) <= P.Len(old(toks)) && errs >= old(errs)
        invariant var now := P.ArgLoop(args, toks, inCond);
          now.args == r.args && now.rest == r.rest && errs + now.errs == old(errs) + r.errs
        decreases P.Len(toks)
      {
        if P.Cur(toks) == Comma || P.Cur(toks) == Semi {
          toks := P.Advance(toks);
        } else if P.Cur(toks).Name? && P.Peek(toks) == Assign {
          var name := P.Cur(toks).text;
          toks := P.Advance(P.Advance(toks));
          var v := ParseExpr();
          if !v.Missing? {
            args := args + [Arg(Some(name), v)];
          }
        } else {
          var a := ParseExpr();
          if a.Missing? {
            return;
          }
          args := args + [Arg(None, a)];
        }
      }
    }

    method ParsePrimary() returns (e: Expr)
      modifies this
      ensures Answers(e, P.ParsePrimary(old(toks), old(inCond)))
      decreases P.Len(toks), 2
    {
      hide P.ParseExpr, P.ParseListOrComp, P.ParseIfExpr, P.Len, P.Advance, P.Expect;
      var tok := P.Cur(toks);
      toks := P.Advance(toks);
      match tok {
        case Number(raw) => e := IntLit(raw);
        case Text(raw, multi) => e := StringLit(raw, multi);
        case KwTrue => e := BoolLit(true);
        case KwFalse => e := BoolLit(false);
        case KwNone => e := NoneLit;
        case KwSelf => e := SelfLit;
        case Name(text) => e := Ident(text);
        case LParen =>
          var inner := ParseExpr();
          Expect(RParen);
          e := Paren(inner);
        case LBrack => e := ParseListOrComp();
        case KwIf => e := ParseIfExpr();
        case _ =>
          errs := errs + 1;
          e := Missing;
      }
    }

    method ParseListOrComp() returns (e: Expr)
      modifies this
      ensures Answers(e, P.ParseListOrComp(old(toks), old(inCond)))
      decreases P.Len(toks), 8
    {
      hide P.ParseExpr, P.CompTail, P.ItemLoop;
      if P.Cur(toks) == RBrack {
        toks := P.Advance(toks);
        return ListLit([]);
      }
      var first := ParseExpr();
      if P.Cur(toks) == KwFor {
        toks := P.Advance(toks);
        e := ParseCompTail(first);
      } else {
        var items := ParseItems(first);
        Expect(RBrack);
        e := ListLit(items);
      }
    }

    method ParseCompTail(first: Expr) returns (e: Expr)
      modifies this
      ensures Answers(e, P.CompTail(first, old(toks), old(inCond)))
      decreases P.Len(toks), 7
    {
      hide P.ParseExpr, P.Len, P.Cur, P.Advance, P.Expect;
      var v: Option<string> := None;
      if P.Cur(toks).Name? {
        v := Some(P.Cur(toks).text);
        toks := P.Advance(toks);
      } else {
        errs := errs + 1;
      }
      Expect(KwIn);
      var iter := ParseExpr();
      var cond := Missing;
      if P.Cur(toks) == KwIf {
        toks := P.Advance(toks);
        cond := ParseExpr();
      }
      Expect(RBrack);
      e := ListComp(first, v, iter, cond);
    }

    method ParseItems(first: Expr) returns (items: seq<Expr>)
      modifies this
      ensures var r := P.ItemLoop([first], old(toks), old(inCond));
        items == r.items && toks == r.rest && errs == old(errs) + r.errs && inCond == old(inCond)
      decreases P.Len(toks), 7
    {
      hide P.ParseExpr;
      items := [first];
      ghost var r := P.ItemLoop([first], toks, inCond);
      while P.Cur(toks) != RBrack && P.Cur(toks) != EOF
        invariant inCond == old(inCond) && P.Len(toks) <= P.Len(old(toks)) && errs >= old(errs)
        invariant var now := P.ItemLoop(items, toks, inCond);
          now.items == r.items && now.rest == r.rest && errs + now.errs == old(errs) + r.errs
        decreases P.Len(toks)
      {
        if P.Cur(toks) == Comma || P.Cur(toks) == Semi {
          toks := P.Advance(toks);
        } else {
          var x := ParseExpr();
          if x.Missing? {
            return;
          }
          items := items + [x];
        }
      }
    }

    method ParseIfExpr() returns (e: Expr)
      modifies this
      ensures Answers(e, P.ParseIfExpr(old(toks), old(inCond)))
      decreases P.Len(toks), 9
    {
      hide P.ParseExpr, P.IfBranches;
      var prev := inCond;
      inCond := true;
      var cond := ParseExpr();
      inCond := prev;
      e := ParseBranches(cond);
    }

    method ParseBranches(cond: Expr) returns (e: Expr)
      modifies this
      ensures Answers(e, P.IfBranches(cond, old(toks), old(inCond)))
      decreases P.Len(toks), 8
    {
      hide P.ParseExpr, P.ElseBranch;
      Expect(LBrace);
      var thn := ParseExpr();
      e := ParseElseBranch(cond, thn);
    }

    method ParseElseBranch(cond: Expr, thn: Expr) returns (e: Expr)
      modifies this
      ensures Answers(e, P.ElseBranch(cond, thn, old(toks), old(inCond)))
      decreases P.Len(toks), 7
    {
      hide P.ParseExpr, P.Len;
      Expect(RBrace);
      Expect(KwElse);
      Expect(LBrace);
      var els := ParseExpr();
      Expect(RBrace);
      e := If(cond, thn, els);
    }
  }

  lemma LoopStops(x: Expr, ts: Stream, c: bool)
    requires P.Cur(ts) != Dot && P.Cur(ts) != LBrack && P.Cur(ts) != LParen
    ensures P.PostfixLoop(x, ts, c) ==
      P.Parsed(x, ts, if P.Cur(ts) == LBrace && !c && (x.Call? || P.CanTakeStructLit(x)) then 1 else 0)
  {
    hide P.ParseExpr, P.ArgLoop;
  }

  lemma LoopEnds(left: Expr, ts: Stream, c: bool, minPrec: nat)
    requires BinaryPrec(P.Cur(ts)) < minPrec
    ensures P.BinaryLoop(left, ts, c, minPrec) == P.Parsed(left, ts, 0)
  {
    hide P.ParseBinary;
  }

  lemma LoopTurns(left: Expr, ts: Stream, c: bool, minPrec: nat)
    requires BinaryPrec(P.Cur(ts)) >= minPrec
    ensures var right := P.ParseBinary(P.Advance(ts), c, BinaryPrec(P.Cur(ts)) + 1);
      if right.e.Missing? then P.BinaryLoop(left, ts, c, minPrec) == P.Parsed(left, right.rest, right.errs)
      else
        var more := P.BinaryLoop(Binary(P.Cur(ts), left, right.e), right.rest, c, minPrec);
        P.BinaryLoop(left, ts, c, minPrec) == more.(errs := right.errs + more.errs)
  {
    hide P.ParseBinary;
  }
}
