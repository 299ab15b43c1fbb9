/** Ascending enumeration of finite sets of naturals: what sorting the keys of a map gives. */
module Ordering {

  ghost predicate Increasing(s: seq<nat>) {
    forall a, b :: 0 <= a < b < |s| ==> s[a] < s[b]
  }

  lemma IncreasingAppend(s: seq<nat>, t: seq<nat>)
    requires Increasing(s) && Increasing(t)
    requires forall i, k :: i in s && k in t ==> i < k
    ensures Increasing(s + t)
  {
    var u := s + t;
    forall a, b | 0 <= a < b < |u| ensures u[a] < u[b] {
      if a < |s| <= b {
        assert s[a] in s && t[b - |s|] in t;
      }
    }
  }

  ghost predicate IsLeast(m: nat, S: set<nat>) {
    m in S && forall x :: x in S ==> m <= x
  }

  lemma {:induction false} LeastExists(S: set<nat>)
    requires S != {}
    ensures exists m :: IsLeast(m, S)
    decreases |S|
  {
    var m :| m in S;
    if S == {m} {
      assert IsLeast(m, S);
    } else {
      LeastExists(S - {m});
      var k :| IsLeast(k, S - {m});
      assert forall x :: x in S ==> x == m || x in S - {m};
      assert IsLeast(if k < m then k else m, S);
    }
  }

  ghost function Least(S: set<nat>): (m: nat)
    requires S != {}
    ensures IsLeast(m, S)
  {
    LeastExists(S);
    var m :| IsLeast(m, S);
    m
  }

  /** The members of S in ascending order. */
  ghost function Ascending(S: set<nat>): seq<nat> {
    if S == {} then [] else [Least(S)] + Ascending(S - {Least(S)})
  }

  lemma {:induction false} AscendingSorts(S: set<nat>)
    ensures Increasing(Ascending(S))
    ensures forall i :: i in Ascending(S) <==> i in S
    decreases |S|
  {
    if S != {} {
      var m := Least(S);
      AscendingSorts(S - {m});
      IncreasingAppend([m], Ascending(S - {m}));
    }
  }

  /** An increasing sequence is determined by its members. */
  lemma {:induction false} IncreasingUnique(s: seq<nat>, t: seq<nat>)
    requires Increasing(s) && Increasing(t) && forall i :: i in s <==> i in t
    ensures s == t
    decreases |s|
  {
    if s != [] || t != [] {
      assert |t| == 0 || t[0] in t;
      assert |s| == 0 || s[0] in s;
      assert s[0] in t && t[0] in s;
      assert s == [s[0]] + s[1..] && t == [t[0]] + t[1..];
      assert s[0] == t[0];
      forall i ensures i in s[1..] <==> i in t[1..] {
        TailMember(s, i);
        TailMember(t, i);
      }
      IncreasingUnique(s[1..], t[1..]);
    }
  }

  lemma TailMember(s: seq<nat>, i: nat)
    requires s != [] && Increasing(s)
    ensures i in s[1..] <==> i in s && i != s[0]
  {
    assert s == [s[0]] + s[1..];
  }

  method TakeLeast(S: set<nat>) returns (m: nat)
    requires S != {}
    ensures m in S && forall x :: x in S ==> m <= x
  {
    m :| m in S;
    var todo := S - {m};
    while todo != {}
      invariant todo <= S && m in S && forall x :: x in S && x !in todo ==> m <= x
      decreases todo
    {
      var k :| k in todo;
      todo := todo - {k};
      m := if k < m then k else m;
    }
  }

  /** Collecting the keys of a map and sorting them. */
  method SortKeys(S: set<nat>) returns (s: seq<nat>)
    ensures s == Ascending(S)
    ensures Increasing(s) && forall i :: i in s <==> i in S
  {
    s := [];
    var todo := S;
    while todo != {}
      invariant todo <= S && Increasing(s)
      invariant forall i :: i in s <==> i in S && i !in todo
      invariant forall i, k :: i in s && k in todo ==> i < k
      decreases todo
    {
      var m := TakeLeast(todo);
      IncreasingAppend(s, [m]);
      s := s + [m];
      todo := todo - {m};
    }
    AscendingSorts(S);
    IncreasingUnique(s, Ascending(S));
  }
}
