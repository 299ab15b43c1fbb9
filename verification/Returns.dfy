/** Statements: the interpreter that signals a return through a mutable field (internal/lang/eval/eval.go)
    against a semantics with explicit outcomes, and the checker's "all paths return" analysis
    (internal/lang/check/checker.go) against both. */
module Returns {
  import opened Wrappers

  /** Nil stands for a nil Value, which some expressions evaluate to; `none` is a value of its own. */
  datatype Value = Nil | NoneVal | BoolVal(b: bool) | ListVal(items: seq<Value>) | OtherVal(id: nat)

  /** Expressions are opaque; what they evaluate to is a parameter. */
  datatype Expr = Expr(id: nat)

  datatype Stmt =
    | ExprStmt(e: Expr)
    | LetStmt(name: string, e: Expr)
    | AssignStmt(e: Expr)
    | ForStmt(v: string, iter: Expr, body: seq<Stmt>)
    | IfStmt(cond: Expr, thn: seq<Stmt>, hasElse: bool, els: seq<Stmt>)
    | ReturnStmt(value: Option<Expr>)

  /** Scopes from the innermost outwards. */
  type Env = seq<map<string, Value>>

  /** Everything else evaluation can touch: emitted values, errors, contents of collections. */
  datatype World = World(emitted: seq<Value>, errs: nat, store: nat)

  type Evaluation = (Expr, Env, World) -> (Value, World)

  ghost function Bind(env: Env, name: string, v: Value): Env {
    if env == [] then [map[name := v]] else [env[0][name := v]] + env[1..]
  }

  // Explicit outcomes
  // ---------------------------------------------------------------------------

  datatype Outcome = Normal | Returned(value: Value)

  datatype After = After(outcome: Outcome, env: Env, world: World)

  ghost function Emit(v: Value, w: World): World {
    if v == Nil || v == NoneVal then w else w.(emitted := w.emitted + [v])
  }

  /** Conditions that are not booleans count as false and record an error. */
  ghost function Truth(v: Value, w: World): (bool, World) {
    if v.BoolVal? then (v.b, w) else (false, w.(errs := w.errs + 1))
  }

  /** nilEnds: does a return statement end the block even when its value is Nil? It should; a
      flag that is Nil for "not returned" cannot tell. */
  ghost function Exec(s: Stmt, nilEnds: bool, eval: Evaluation, env: Env, w: World): (r: After)
    ensures !nilEnds ==> r.outcome != Returned(Nil)
    decreases s, 0, 0
  {
    match s
    case ExprStmt(e) =>
      var (v, w') := eval(e, env, w);
      After(Normal, env, Emit(v, w'))
    case LetStmt(name, e) =>
      var (v, w') := eval(e, env, w);
      After(Normal, Bind(env, name, v), w')
    case AssignStmt(e) =>
      After(Normal, env, eval(e, env, w).1)
    case ForStmt(v, iter, body) =>
      var (l, w') := eval(iter, env, w);
      if l.ListVal? then ExecItems(v, l.items, body, nilEnds, eval, env, w')
      else After(Normal, env, w'.(errs := w'.errs + 1))
    case IfStmt(cond, thn, hasElse, els) =>
      var (v, w1) := eval(cond, env, w);
      var (b, w2) := Truth(v, w1);
      if b then ExecInner(thn, nilEnds, eval, [map[]] + env, w2)
      else if hasElse then ExecInner(els, nilEnds, eval, [map[]] + env, w2)
      else After(Normal, env, w2)
    case ReturnStmt(value) =>
      if value.Some? then
        var (v, w') := eval(value.value, env, w);
        After(if nilEnds || v != Nil then Returned(v) else Normal, env, w')
      else
        After(Returned(NoneVal), env, w)
  }

  /** A block in its own scope, which is dropped afterwards. */
  ghost function ExecInner(b: seq<Stmt>, nilEnds: bool, eval: Evaluation, env: Env, w: World): (r: After)
    requires env != []
    ensures !nilEnds ==> r.outcome != Returned(Nil)
    decreases b, 1, 0
  {
    var r := ExecBlock(b, nilEnds, eval, env, w);
    r.(env := env[1..])
  }

  ghost function ExecBlock(b: seq<Stmt>, nilEnds: bool, eval: Evaluation, env: Env, w: World): (r: After)
    ensures !nilEnds ==> r.outcome != Returned(Nil)
    decreases b, 0, 0
  {
    if b == [] then After(Normal, env, w)
    else
      var r := Exec(b[0], nilEnds, eval, env, w);
      if r.outcome.Returned? then r else ExecBlock(b[1..], nilEnds, eval, r.env, r.world)
  }

  ghost function ExecItems(v: string, items: seq<Value>, body: seq<Stmt>, nilEnds: bool, eval: Evaluation, env: Env,
                     w: World): (r: After)
    ensures !nilEnds ==> r.outcome != Returned(Nil)
    decreases body, 2, |items|
  {
    if items == [] then After(Normal, env, w)
    else
      var r := ExecInner(body, nilEnds, eval, [map[v := items[0]]] + env, w);
      if r.outcome.Returned? then r else ExecItems(v, items[1..], body, nilEnds, eval, env, r.world)
  }

  // The checker's analysis
  // ---------------------------------------------------------------------------

  /** Does every path through the block end with a return that has a value, as far as its last
      statement shows? */
  predicate DefinitelyReturns(b: seq<Stmt>)
    decreases b, 0
  {
    b != [] && EndsInReturn(b[|b| - 1])
  }

  predicate EndsInReturn(s: Stmt)
    decreases s, 1
  {
    match s
    case ReturnStmt(value) => value.Some?
    case IfStmt(_, thn, hasElse, els) => hasElse && DefinitelyReturns(thn) && DefinitelyReturns(els)
    case _ => false
  }

  lemma {:induction false} EndsInReturnSound(s: Stmt, eval: Evaluation, env: Env, w: World)
    requires EndsInReturn(s)
    ensures Exec(s, true, eval, env, w).outcome.Returned?
    decreases s, 1
  {
    if s.IfStmt? {
      var (v, w1) := eval(s.cond, env, w);
      var (b, w2) := Truth(v, w1);
      DefinitelyReturnsSound(if b then s.thn else s.els, eval, [map[]] + env, w2);
    }
  }

  /** A block the checker accepts returns, whatever its conditions and loops evaluate to. */
  lemma {:induction false} DefinitelyReturnsSound(b: seq<Stmt>, eval: Evaluation, env: Env, w: World)
    requires DefinitelyReturns(b)
    ensures ExecBlock(b, true, eval, env, w).outcome.Returned?
    decreases b, 0
  {
    var r := Exec(b[0], true, eval, env, w);
    if |b| == 1 {
      EndsInReturnSound(b[0], eval, env, w);
    } else if r.outcome.Normal? {
      assert b[1..][|b[1..]| - 1] == b[|b| - 1];
      DefinitelyReturnsSound(b[1..], eval, r.env, r.world);
    }
  }

  // Scopes
  // ---------------------------------------------------------------------------

  /** A block can only change the innermost scope it runs in. */
  lemma {:induction false} BlockKeepsOuterScopes(b: seq<Stmt>, nilEnds: bool, eval: Evaluation, env: Env, w: World)
    requires env != []
    ensures var r := ExecBlock(b, nilEnds, eval, env, w); r.env != [] && r.env[1..] == env[1..]
    decreases b, 0
  {
    if b != [] {
      var r := Exec(b[0], nilEnds, eval, env, w);
      StmtKeepsOuterScopes(b[0], nilEnds, eval, env, w);
      if r.outcome.Normal? {
        BlockKeepsOuterScopes(b[1..], nilEnds, eval, r.env, r.world);
      }
    }
  }

  lemma {:induction false} StmtKeepsOuterScopes(s: Stmt, nilEnds: bool, eval: Evaluation, env: Env, w: World)
    requires env != []
    ensures var r := Exec(s, nilEnds, eval, env, w); r.env != [] && r.env[1..] == env[1..]
    ensures !s.LetStmt? ==> Exec(s, nilEnds, eval, env, w).env == env
    decreases s, 1
  {
    if s.ForStmt? {
      var (l, w') := eval(s.iter, env, w);
      if l.ListVal? {
        ItemsKeepScopes(s.v, l.items, s.body, nilEnds, eval, env, w');
      }
    } else if s.IfStmt? {
      assert ([map[]] + env)[1..] == env;
    }
  }

  lemma {:induction false} ItemsKeepScopes(v: string, items: seq<Value>, body: seq<Stmt>, nilEnds: bool,
                                           eval: Evaluation, env: Env, w: World)
    ensures ExecItems(v, items, body, nilEnds, eval, env, w).env == env
    decreases |items|
  {
    if items != [] {
      var inner := [map[v := items[0]]] + env;
      assert inner[1..] == env;
      var r := ExecInner(body, nilEnds, eval, inner, w);
      if r.outcome.Normal? {
        ItemsKeepScopes(v, items[1..], body, nilEnds, eval, env, r.world);
      }
    }
  }

  /** The value of a name: that of the innermost scope that has it. */
  ghost function Find(env: Env, name: string): Option<Value> {
    if env == [] then None else if name in env[0] then Some(env[0][name]) else Find(env[1..], name)
  }

  /** A let binds its name from there on and no other, and a value is emitted unless it is nil or none. */
  lemma LetBinds(name: string, e: Expr, nilEnds: bool, eval: Evaluation, env: Env, w: World, other: string)
    requires env != []
    ensures var r := Exec(LetStmt(name, e), nilEnds, eval, env, w);
      && r.outcome.Normal? && r.world == eval(e, env, w).1
      && Find(r.env, other) == if other == name then Some(eval(e, env, w).0) else Find(env, other)
  {
    var r := Exec(LetStmt(name, e), nilEnds, eval, env, w);
    assert r.env[1..] == env[1..];
  }

  // How exact the analysis is
  // ---------------------------------------------------------------------------

  /** No return statement anywhere inside. */
  predicate ReturnFree(b: seq<Stmt>)
    decreases b, 0
  {
    b == [] || (ReturnFreeStmt(b[0]) && ReturnFree(b[1..]))
  }

  predicate ReturnFreeStmt(s: Stmt)
    decreases s, 1
  {
    match s
    case ReturnStmt(_) => false
    case ForStmt(_, _, body) => ReturnFree(body)
    case IfStmt(_, thn, hasElse, els) => ReturnFree(thn) && (hasElse ==> ReturnFree(els))
    case _ => true
  }

  /** Return statements stand at the ends of blocks only, and have a value. */
  predicate ReturnsLast(b: seq<Stmt>)
    decreases b, 0
  {
    b == [] || (ReturnFree(b[..|b| - 1]) && ReturnsLastIn(b[|b| - 1]))
  }

  predicate ReturnsLastIn(s: Stmt)
    decreases s, 1
  {
    match s
    case ReturnStmt(value) => value.Some?
    case IfStmt(_, thn, hasElse, els) => ReturnsLast(thn) && (hasElse ==> ReturnsLast(els))
    case _ => ReturnFreeStmt(s)
  }

  lemma {:induction false} ReturnFreeRuns(b: seq<Stmt>, eval: Evaluation, env: Env, w: World)
    requires ReturnFree(b)
    ensures ExecBlock(b, true, eval, env, w).outcome.Normal?
    decreases b, 0
  {
    if b != [] {
      ReturnFreeStmtRuns(b[0], eval, env, w);
      var r := Exec(b[0], true, eval, env, w);
      ReturnFreeRuns(b[1..], eval, r.env, r.world);
    }
  }

  lemma {:induction false} ReturnFreeStmtRuns(s: Stmt, eval: Evaluation, env: Env, w: World)
    requires ReturnFreeStmt(s)
    ensures Exec(s, true, eval, env, w).outcome.Normal?
    decreases s, 1
  {
    if s.ForStmt? {
      var (l, w') := eval(s.iter, env, w);
      if l.ListVal? {
        ReturnFreeItemsRun(s.v, l.items, s.body, eval, env, w');
      }
    } else if s.IfStmt? {
      var (v, w1) := eval(s.cond, env, w);
      var (b, w2) := Truth(v, w1);
      if b {
        ReturnFreeRuns(s.thn, eval, [map[]] + env, w2);
      } else if s.hasElse {
        ReturnFreeRuns(s.els, eval, [map[]] + env, w2);
      }
    }
  }

  lemma {:induction false} ReturnFreeItemsRun(v: string, items: seq<Value>, body: seq<Stmt>, eval: Evaluation,
                                              env: Env, w: World)
    requires ReturnFree(body)
    ensures ExecItems(v, items, body, true, eval, env, w).outcome.Normal?
    decreases body, 2, |items|
  {
    if items != [] {
      ReturnFreeRuns(body, eval, [map[v := items[0]]] + env, w);
      var r := ExecInner(body, true, eval, [map[v := items[0]]] + env, w);
      ReturnFreeItemsRun(v, items[1..], body, eval, env, r.world);
    }
  }

  /** Every expression is a boolean that depends on how many scopes are open. */
  ghost function ByDepth(choice: nat -> bool): Evaluation {
    (e, env, w) => (BoolVal(choice(|env|)), w)
  }

  lemma {:induction false} ExecConcat(a: seq<Stmt>, b: seq<Stmt>, eval: Evaluation, env: Env, w: World)
    requires ExecBlock(a, true, eval, env, w).outcome.Normal?
    ensures var r := ExecBlock(a, true, eval, env, w);
      ExecBlock(a + b, true, eval, env, w) == ExecBlock(b, true, eval, r.env, r.world)
    decreases |a|
  {
    if a == [] {
      assert a + b == b;
    } else {
      var r := Exec(a[0], true, eval, env, w);
      assert (a + b)[1..] == a[1..] + b;
      ExecConcat(a[1..], b, eval, r.env, r.world);
    }
  }

  /** A block the analysis rejects can fall off its end: conditions can be chosen so. */
  lemma {:induction false} RejectedFallsThrough(b: seq<Stmt>, depth: nat) returns (choice: nat -> bool)
    requires ReturnsLast(b) && !DefinitelyReturns(b) && depth > 0
    ensures forall c: nat -> bool, env, w {:trigger ExecBlock(b, true, ByDepth(c), env, w)} ::
      |env| == depth && (forall d: nat :: d >= depth ==> c(d) == choice(d)) ==>
      ExecBlock(b, true, ByDepth(c), env, w).outcome.Normal?
    decreases b, 0
  {
    if b == [] {
      choice := d => false;
    } else {
      var init, last := b[..|b| - 1], b[|b| - 1];
      choice := RejectedStmtFallsThrough(last, depth);
      forall c: nat -> bool, env, w | |env| == depth && (forall d: nat :: d >= depth ==> c(d) == choice(d))
        ensures ExecBlock(b, true, ByDepth(c), env, w).outcome.Normal?
      {
        ReturnFreeRuns(init, ByDepth(c), env, w);
        BlockKeepsOuterScopes(init, true, ByDepth(c), env, w);
        ExecConcat(init, [last], ByDepth(c), env, w);
        assert init + [last] == b;
        var r := ExecBlock(init, true, ByDepth(c), env, w);
        assert |r.env| == depth && [last][1..] == [];
        var r2 := Exec(last, true, ByDepth(c), r.env, r.world);
        assert r2.outcome.Normal?;
        assert ExecBlock([last], true, ByDepth(c), r.env, r.world) == ExecBlock([], true, ByDepth(c), r2.env, r2.world);
      }
    }
  }

  lemma {:induction false} RejectedStmtFallsThrough(s: Stmt, depth: nat) returns (choice: nat -> bool)
    requires ReturnsLastIn(s) && !EndsInReturn(s) && depth > 0
    ensures forall c: nat -> bool, env, w {:trigger Exec(s, true, ByDepth(c), env, w)} ::
      |env| == depth && (forall d: nat :: d >= depth ==> c(d) == choice(d)) ==>
      Exec(s, true, ByDepth(c), env, w).outcome.Normal?
    decreases s, 1
  {
    choice := d => false;
    if s.IfStmt? {
      var inner: nat -> bool := d => false;
      var taken := !DefinitelyReturns(s.thn);
      if taken {
        inner := RejectedFallsThrough(s.thn, depth + 1);
      } else if s.hasElse {
        inner := RejectedFallsThrough(s.els, depth + 1);
      }
      choice := (d: nat) => if d == depth then taken else inner(d);
      forall c: nat -> bool, env, w | |env| == depth && (forall d: nat :: d >= depth ==> c(d) == choice(d))
        ensures Exec(s, true, ByDepth(c), env, w).outcome.Normal?
      {
        assert c(depth) == taken && forall d: nat :: d >= depth + 1 ==> c(d) == inner(d);
        var env': Env := [map[]] + env;
        assert |env'| == depth + 1;
        if taken {
          assert ExecBlock(s.thn, true, ByDepth(c), env', w).outcome.Normal?;
        } else if s.hasElse {
          assert ExecBlock(s.els, true, ByDepth(c), env', w).outcome.Normal?;
        }
      }
    } else {
      forall c: nat -> bool, env, w ensures Exec(s, true, ByDepth(c), env, w).outcome.Normal? {
        ReturnFreeStmtRuns(s, ByDepth(c), env, w);
      }
    }
  }

  /** On blocks whose return statements all stand last and have values, the analysis is exact: it accepts
      just the blocks that return whatever their expressions evaluate to. */
  lemma AnalysisIsExact(b: seq<Stmt>)
    requires ReturnsLast(b)
    ensures DefinitelyReturns(b) <==>
      forall eval: Evaluation, env: Env, w: World :: env != [] ==> ExecBlock(b, true, eval, env, w).outcome.Returned?
  {
    if DefinitelyReturns(b) {
      forall eval: Evaluation, env: Env, w: World ensures ExecBlock(b, true, eval, env, w).outcome.Returned? {
        DefinitelyReturnsSound(b, eval, env, w);
      }
    } else {
      var choice := RejectedFallsThrough(b, 1);
      var env: Env, w := [map[]], World([], 0, 0);
      assert ExecBlock(b, true, ByDepth(choice), env, w).outcome.Normal?;
    }
  }

  // A Nil flag
  // ---------------------------------------------------------------------------

  lemma {:induction false} StmtAgrees(s: Stmt, eval: Evaluation, env: Env, w: World)
    requires Exec(s, true, eval, env, w).outcome != Returned(Nil)
    ensures Exec(s, false, eval, env, w) == Exec(s, true, eval, env, w)
    decreases s, 1
  {
    if s.ForStmt? {
      var (l, w') := eval(s.iter, env, w);
      if l.ListVal? {
        ItemsAgree(s.v, l.items, s.body, eval, env, w');
      }
    } else if s.IfStmt? {
      var (v, w1) := eval(s.cond, env, w);
      var (b, w2) := Truth(v, w1);
      if b || s.hasElse {
        BlockAgrees(if b then s.thn else s.els, eval, [map[]] + env, w2);
      }
    }
  }

  /** Unless the return statement that is reached evaluates to Nil, a flag does as well as an outcome. */
  lemma {:induction false} BlockAgrees(b: seq<Stmt>, eval: Evaluation, env: Env, w: World)
    requires ExecBlock(b, true, eval, env, w).outcome != Returned(Nil)
    ensures ExecBlock(b, false, eval, env, w) == ExecBlock(b, true, eval, env, w)
    decreases b, 0
  {
    if b != [] {
      StmtAgrees(b[0], eval, env, w);
      var r := Exec(b[0], true, eval, env, w);
      if r.outcome.Normal? {
        BlockAgrees(b[1..], eval, r.env, r.world);
      }
    }
  }

  lemma {:induction false} ItemsAgree(v: string, items: seq<Value>, body: seq<Stmt>, eval: Evaluation,
                                      env: Env, w: World)
    requires ExecItems(v, items, body, true, eval, env, w).outcome != Returned(Nil)
    ensures ExecItems(v, items, body, false, eval, env, w) == ExecItems(v, items, body, true, eval, env, w)
    decreases body, 2, |items|
  {
    if items != [] {
      var inner := [map[v := items[0]]] + env;
      BlockAgrees(body, eval, inner, w);
      var r := ExecInner(body, true, eval, inner, w);
      if r.outcome.Normal? {
        ItemsAgree(v, items[1..], body, eval, env, r.world);
      }
    }
  }

  /** The flag does as well as an outcome exactly when the return statement that is reached, if any, does
      not evaluate to Nil. */
  lemma AgreesIffNoNilReturn(b: seq<Stmt>, eval: Evaluation, env: Env, w: World)
    ensures ExecBlock(b, false, eval, env, w) == ExecBlock(b, true, eval, env, w) <==>
      ExecBlock(b, true, eval, env, w).outcome != Returned(Nil)
  {
    if ExecBlock(b, true, eval, env, w).outcome != Returned(Nil) {
      BlockAgrees(b, eval, env, w);
    }
  }

  ghost predicate NeverNil(e: Expr, eval: Evaluation) {
    forall env, w :: eval(e, env, w).0 != Nil
  }

  /** No return statement of the block can evaluate to Nil; this can be told before the block runs. */
  ghost predicate NilFree(b: seq<Stmt>, eval: Evaluation)
    decreases b, 0
  {
    forall i :: 0 <= i < |b| ==> NilFreeStmt(b[i], eval)
  }

  ghost predicate NilFreeStmt(s: Stmt, eval: Evaluation)
    decreases s, 1
  {
    match s
    case ReturnStmt(value) => value.Some? ==> NeverNil(value.value, eval)
    case IfStmt(_, thn, _, els) => NilFree(thn, eval) && NilFree(els, eval)
    case ForStmt(_, _, body) => NilFree(body, eval)
    case _ => true
  }

  lemma {:induction false} NilFreeStmtReturns(s: Stmt, eval: Evaluation, env: Env, w: World)
    requires NilFreeStmt(s, eval)
    ensures Exec(s, true, eval, env, w).outcome != Returned(Nil)
    decreases s, 1
  {
    if s.ForStmt? {
      var (l, w') := eval(s.iter, env, w);
      if l.ListVal? {
        NilFreeItemsReturn(s.v, l.items, s.body, eval, env, w');
      }
    } else if s.IfStmt? {
      var (v, w1) := eval(s.cond, env, w);
      var (b, w2) := Truth(v, w1);
      NilFreeReturns(if b then s.thn else s.els, eval, [map[]] + env, w2);
    } else if s.ReturnStmt? && s.value.Some? {
      assert NeverNil(s.value.value, eval);
    }
  }

  lemma {:induction false} NilFreeReturns(b: seq<Stmt>, eval: Evaluation, env: Env, w: World)
    requires NilFree(b, eval)
    ensures ExecBlock(b, true, eval, env, w).outcome != Returned(Nil)
    decreases b, 0
  {
    if b != [] {
      NilFreeStmtReturns(b[0], eval, env, w);
      var r := Exec(b[0], true, eval, env, w);
      if r.outcome.Normal? {
        assert forall i :: 0 <= i < |b[1..]| ==> b[1..][i] == b[i + 1];
        NilFreeReturns(b[1..], eval, r.env, r.world);
      }
    }
  }

  lemma {:induction false} NilFreeItemsReturn(v: string, items: seq<Value>, body: seq<Stmt>, eval: Evaluation,
                                              env: Env, w: World)
    requires NilFree(body, eval)
    ensures ExecItems(v, items, body, true, eval, env, w).outcome != Returned(Nil)
    decreases body, 2, |items|
  {
    if items != [] {
      var inner := [map[v := items[0]]] + env;
      NilFreeReturns(body, eval, inner, w);
      var r := ExecInner(body, true, eval, inner, w);
      if r.outcome.Normal? {
        NilFreeItemsReturn(v, items[1..], body, eval, env, r.world);
      }
    }
  }

  /** The promise of the checker, for the interpreter as it is: an accepted block none of whose returns can
      be Nil ends with a return value set, whatever its conditions and loops evaluate to, and runs nothing
      after it. */
  lemma AcceptedBlockSetsValue(b: seq<Stmt>, eval: Evaluation, env: Env, w: World)
    requires DefinitelyReturns(b) && NilFree(b, eval)
    ensures ExecBlock(b, false, eval, env, w) == ExecBlock(b, true, eval, env, w)
    ensures ExecBlock(b, false, eval, env, w).outcome.Returned?
  {
    DefinitelyReturnsSound(b, eval, env, w);
    NilFreeReturns(b, eval, env, w);
    BlockAgrees(b, eval, env, w);
  }

  /** With an expression 0 that evaluates to Nil, a body the checker accepts runs on past its return
      statement and ends without a return value. */
  lemma NilReturnRunsOn(eval: Evaluation, w: World)
    requires eval(Expr(0), [map[], map[]], w) == (Nil, w) && eval(Expr(0), [map[]], w) == (Nil, w)
    requires eval(Expr(1), [map[]], w) == (BoolVal(true), w)
    requires eval(Expr(0), [map[]], w.(emitted := w.emitted + [BoolVal(true)])).0 == Nil
    ensures var ret := ReturnStmt(Some(Expr(0)));
      var body := [IfStmt(Expr(1), [ret], false, []), ExprStmt(Expr(1)), ret];
      && DefinitelyReturns(body)
      && ExecBlock(body, true, eval, [map[]], w) == After(Returned(Nil), [map[]], w)
      && var flagged := ExecBlock(body, false, eval, [map[]], w);
      && flagged.outcome == Normal
  {
    var ret := ReturnStmt(Some(Expr(0)));
    var body := [IfStmt(Expr(1), [ret], false, []), ExprStmt(Expr(1)), ret];
    var inner: Env, outer: Env := [map[], map[]], [map[]];
    assert [map[]] + outer == inner && inner[1..] == outer;
    assert body[1..] == [ExprStmt(Expr(1)), ret] && body[1..][1..] == [ret];
    var w2 := w.(emitted := w.emitted + [BoolVal(true)]);
    assert [ret][1..] == [];
    assert ExecBlock([ret], false, eval, outer, w2).outcome == Normal;
    assert ExecBlock([ExprStmt(Expr(1)), ret], false, eval, outer, w).outcome == Normal;
    assert ExecBlock([ret], false, eval, inner, w) == After(Normal, inner, w);
    assert ExecBlock([ret], true, eval, inner, w) == After(Returned(Nil), inner, w);
    assert Exec(body[0], false, eval, outer, w) == After(Normal, outer, w);
    assert Exec(body[0], true, eval, outer, w) == After(Returned(Nil), outer, w);
  }

  // The interpreter
  // ---------------------------------------------------------------------------

  class Evaluator {
    const eval: Evaluation
    var env: Env
    var world: World
    var returnVal: Value   // Nil: nothing returned yet

    constructor (eval: Evaluation, env: Env, world: World)
      ensures this.eval == eval && this.env == env && this.world == world && returnVal == Nil
    {
      this.eval, this.env, this.world, returnVal := eval, env, world, Nil;
    }

    /** The evaluator is where the semantics that only sees the flag ends. */
    ghost predicate At(r: After)
      reads this
    {
      env == r.env && world == r.world && returnVal == if r.outcome.Returned? then r.outcome.value else Nil
    }

    /** emitValue: neither nil nor none is emitted. */
    method EmitValue(v: Value)
      modifies this`world
      ensures world == Emit(v, old(world))
    {
      if v.Nil? || v.NoneVal? {
        return;
      }
      world := world.(emitted := world.emitted + [v]);
    }

    /** The innermost scope gets the name, in place of an older one of the same name. */
    method SetLocal(name: string, v: Value)
      requires env != []
      modifies this`env
      ensures env == Bind(old(env), name, v)
    {
      env := [env[0][name := v]] + env[1..];
    }

    /** asBool: a condition that is not a boolean is an error and counts as false. */
    method AsBool(v: Value) returns (b: bool)
      modifies this`world
      ensures (b, world) == Truth(v, old(world))
    {
      if v.BoolVal? {
        return v.b;
      }
      world := world.(errs := world.errs + 1);
      return false;
    }

    method EvalStmt(s: Stmt)
      requires returnVal == Nil && env != []
      modifies this
      ensures At(Exec(s, false, eval, old(env), old(world)))
      ensures env != []
      decreases s, 1
    {
      match s {
        case ExprStmt(e) =>
          var (v, w) := eval(e, env, world);
          world := w;
          EmitValue(v);
        case LetStmt(name, e) =>
          var (v, w) := eval(e, env, world);
          world := w;
          SetLocal(name, v);
        case AssignStmt(e) =>
          world := eval(e, env, world).1;
        case ForStmt(_, _, _) =>
          EvalFor(s);
        case IfStmt(_, _, _, _) =>
          EvalIf(s);
        case ReturnStmt(value) =>
          if value.Some? {
            var (v, w) := eval(value.value, env, world);
            world := w;
            returnVal := v;
          } else {
            returnVal := NoneVal;
          }
      }
    }

    method EvalBlock(b: seq<Stmt>)
      requires returnVal == Nil && env != []
      modifies this
      ensures At(ExecBlock(b, false, eval, old(env), old(world)))
      ensures env != []
      decreases b, 0
    {
      ghost var whole := ExecBlock(b, false, eval, env, world);
      for i := 0 to |b|
        invariant env != [] && returnVal == Nil
        invariant whole == ExecBlock(b[i..], false, eval, env, world)
      {
        assert b[i..][0] == b[i] && b[i..][1..] == b[i + 1..];
        EvalStmt(b[i]);
        if returnVal != Nil {
          return;
        }
      }
    }

    method EvalFor(s: Stmt)
      requires s.ForStmt? && returnVal == Nil && env != []
      modifies this
      ensures At(Exec(s, false, eval, old(env), old(world)))
      ensures env != []
      decreases s, 0
    {
      var (iter, w) := eval(s.iter, env, world);
      world := w;
      if !iter.ListVal? {
        world := world.(errs := world.errs + 1);
        return;
      }
      var items := iter.items;
      ghost var whole := ExecItems(s.v, items, s.body, false, eval, env, world);
      ghost var env0 := env;
      for i := 0 to |items|
        invariant env == env0 && returnVal == Nil
        invariant whole == ExecItems(s.v, items[i..], s.body, false, eval, env, world)
      {
        assert items[i..][0] == items[i] && items[i..][1..] == items[i + 1..];
        var prev := env;
        env := [map[s.v := items[i]]] + env;
        assert env[1..] == env0;
        EvalBlock(s.body);
        env := prev;
        if returnVal != Nil {
          return;
        }
      }
    }

    method EvalIf(s: Stmt)
      requires s.IfStmt? && returnVal == Nil && env != []
      modifies this
      ensures At(Exec(s, false, eval, old(env), old(world)))
      ensures env == old(env)
      decreases s, 0
    {
      var (cond, w1) := eval(s.cond, env, world);
      world := w1;
      var b := AsBool(cond);
      var prev := env;
      assert ([map[]] + prev)[1..] == prev;
      if b {
        env := [map[]] + env;
        EvalBlock(s.thn);
        env := prev;
      } else if s.hasElse {
        env := [map[]] + env;
        EvalBlock(s.els);
        env := prev;
      }
    }

    /** The body of a function call, in a fresh environment. The caller's environment is back afterwards
        and the field is clear. A Nil that the body returns is taken for not having returned yet: the call
        has the effects and the value of the rest of the body. Otherwise they are those of the outcome
        semantics, and a body the checker accepts never falls off its end. */
    method CallBody(body: seq<Stmt>, child: Env) returns (v: Value)
      requires child != []
      modifies this
      ensures env == old(env) && returnVal == Nil && v != Nil
      ensures var r := ExecBlock(body, false, eval, child, old(world));
        world == r.world && v == if r.outcome.Returned? then r.outcome.value else NoneVal
      ensures var r := ExecBlock(body, true, eval, child, old(world));
        && (r.outcome != Returned(Nil) ==>
              world == r.world && v == if r.outcome.Returned? then r.outcome.value else NoneVal)
        && (DefinitelyReturns(body) ==> r.outcome.Returned?)
    {
      var prev := env;
      env := child;
      returnVal := Nil;
      if DefinitelyReturns(body) {
        DefinitelyReturnsSound(body, eval, env, world);
      }
      if ExecBlock(body, true, eval, env, world).outcome != Returned(Nil) {
        BlockAgrees(body, eval, env, world);
      }
      EvalBlock(body);
      v := if returnVal == Nil then NoneVal else returnVal;
      returnVal := Nil;
      env := prev;
    }

    /** Running a block the checker accepts ends with a return value set, whatever its conditions and
        loops evaluate to, unless the return statement it reached evaluated to Nil. */
    method RunAccepted(body: seq<Stmt>)
      requires DefinitelyReturns(body) && returnVal == Nil && env != []
      modifies this
      ensures var r := ExecBlock(body, true, eval, old(env), old(world));
        && r.outcome.Returned?
        && (r.outcome.value != Nil ==> returnVal == r.outcome.value)
    {
      DefinitelyReturnsSound(body, eval, env, world);
      if ExecBlock(body, true, eval, env, world).outcome != Returned(Nil) {
        BlockAgrees(body, eval, env, world);
      }
      EvalBlock(body);
    }
  }
}
