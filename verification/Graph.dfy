/** Finite directed graphs as edge sets: paths, reachability and acyclicity.
    Every scheduler, layering and cycle result of the project is phrased with these notions. */
module Graph {

  ghost predicate NoDuplicates<T>(s: seq<T>) {
    forall a, b :: 0 <= a < b < |s| ==> s[a] != s[b]
  }

  /** A non-empty vertex sequence in which every two neighbours are joined by an edge. */
  ghost predicate IsPath<T>(E: set<(T, T)>, p: seq<T>) {
    && |p| > 0
    && forall i :: 0 <= i < |p| - 1 ==> (p[i], p[i + 1]) in E
  }

  /** There is a path of at least one edge from a to b. */
  ghost predicate Reaches<T(!new)>(E: set<(T, T)>, a: T, b: T) {
    exists p: seq<T> :: IsPath(E, p) && |p| >= 2 && p[0] == a && p[|p| - 1] == b
  }

  ghost predicate Acyclic<T(!new)>(E: set<(T, T)>) {
    forall a :: !Reaches(E, a, a)
  }

  lemma EdgeReaches<T(!new)>(E: set<(T, T)>, a: T, b: T)
    requires (a, b) in E
    ensures Reaches(E, a, b)
  {
    assert IsPath(E, [a, b]);
  }

  lemma PathSuffix<T(!new)>(E: set<(T, T)>, p: seq<T>, i: nat)
    requires IsPath(E, p) && i < |p|
    ensures IsPath(E, p[i..])
  {
  }

  lemma PathPrefix<T(!new)>(E: set<(T, T)>, p: seq<T>, k: nat)
    requires IsPath(E, p) && 0 < k <= |p|
    ensures IsPath(E, p[..k])
  {
    forall i | 0 <= i < k - 1 ensures (p[..k][i], p[..k][i + 1]) in E {
      assert (p[i], p[i + 1]) in E;
    }
  }

  lemma PathConcat<T(!new)>(E: set<(T, T)>, p: seq<T>, q: seq<T>)
    requires IsPath(E, p) && IsPath(E, q)
    requires p[|p| - 1] == q[0]
    ensures IsPath(E, p + q[1..])
  {
    var r := p + q[1..];
    forall i | 0 <= i < |r| - 1 ensures (r[i], r[i + 1]) in E {
      if i >= |p| - 1 {
        assert r[i] == q[i - |p| + 1];
        assert r[i + 1] == q[i - |p| + 2];
      }
    }
  }

  lemma ReachesTransitive<T(!new)>(E: set<(T, T)>, a: T, b: T, c: T)
    requires Reaches(E, a, b) && Reaches(E, b, c)
    ensures Reaches(E, a, c)
  {
    var p: seq<T> :| IsPath(E, p) && |p| >= 2 && p[0] == a && p[|p| - 1] == b;
    var q: seq<T> :| IsPath(E, q) && |q| >= 2 && q[0] == b && q[|q| - 1] == c;
    PathConcat(E, p, q);
    var r := p + q[1..];
    assert r[|r| - 1] == c && r[0] == a;
  }

  /** The first edge of a path, and what is left of it. */
  lemma ReachesFirstEdge<T(!new)>(E: set<(T, T)>, a: T, b: T) returns (c: T)
    requires Reaches(E, a, b)
    ensures (a, c) in E && (c == b || Reaches(E, c, b))
  {
    var p: seq<T> :| IsPath(E, p) && |p| >= 2 && p[0] == a && p[|p| - 1] == b;
    c := p[1];
    assert (p[0], p[1]) in E;
    if |p| > 2 {
      PathSuffix(E, p, 1);
      assert p[1..][|p[1..]| - 1] == b;
    }
  }

  lemma ReachesMonotone<T(!new)>(E: set<(T, T)>, F: set<(T, T)>, a: T, b: T)
    requires E <= F && Reaches(E, a, b)
    ensures Reaches(F, a, b)
  {
    var p: seq<T> :| IsPath(E, p) && |p| >= 2 && p[0] == a && p[|p| - 1] == b;
    assert IsPath(F, p);
  }

  /** If each edge of E is a path of F, then so is each path of E. */
  lemma {:induction false} PathLifts<T(!new)>(E: set<(T, T)>, F: set<(T, T)>, p: seq<T>)
    requires forall e :: e in E ==> Reaches(F, e.0, e.1)
    requires IsPath(E, p) && |p| >= 2
    ensures Reaches(F, p[0], p[|p| - 1])
    decreases |p|
  {
    assert (p[0], p[1]) in E;
    assert Reaches(F, (p[0], p[1]).0, (p[0], p[1]).1);
    if |p| > 2 {
      PathSuffix(E, p, 1);
      PathLifts(E, F, p[1..]);
      ReachesTransitive(F, p[0], p[1], p[|p| - 1]);
    }
  }

  lemma ReachesLifts<T(!new)>(E: set<(T, T)>, F: set<(T, T)>, a: T, b: T)
    requires forall e :: e in E ==> Reaches(F, e.0, e.1)
    requires Reaches(E, a, b)
    ensures Reaches(F, a, b)
  {
    var p: seq<T> :| IsPath(E, p) && |p| >= 2 && p[0] == a && p[|p| - 1] == b;
    PathLifts(E, F, p);
  }

  /** Every non-empty finite set of vertices of an acyclic graph has a member
      without a predecessor inside the set. */
  lemma {:induction false} MinimalExists<T(!new)>(E: set<(T, T)>, W: set<T>) returns (m: T)
    requires Acyclic(E) && W != {}
    ensures m in W && forall v :: v in W ==> (v, m) !in E
    decreases |W|
  {
    var w :| w in W;
    var P := set v | v in W && Reaches(E, v, w);
    if P == {} {
      m := w;
      forall v | v in W ensures (v, m) in E ==> v in P {
        if (v, m) in E {
          EdgeReaches(E, v, m);
        }
      }
    } else {
      assert w !in P;
      assert P <= W - {w};
      ProperSubsetSmaller(P, W, w);
      m := MinimalExists(E, P);
      forall v | v in W ensures (v, m) in E ==> v in P {
        if (v, m) in E {
          EdgeReaches(E, v, m);
          ReachesTransitive(E, v, m, w);
        }
      }
    }
  }

  lemma SubsetSize<T>(A: set<T>, B: set<T>)
    requires A <= B
    ensures |A| <= |B|
    decreases |A|
  {
    if A != {} {
      var x :| x in A;
      SubsetSize(A - {x}, B - {x});
    }
  }

  lemma ProperSubsetSmaller<T>(A: set<T>, B: set<T>, x: T)
    requires A <= B && x in B && x !in A
    ensures |A| < |B|
  {
    SubsetSize(A, B - {x});
  }

  /** Removing vertices or edges cannot create a cycle. */
  lemma AcyclicSubset<T(!new)>(E: set<(T, T)>, F: set<(T, T)>)
    requires Acyclic(F) && E <= F
    ensures Acyclic(E)
  {
    forall a ensures !Reaches(E, a, a) {
      if Reaches(E, a, a) {
        ReachesMonotone(E, F, a, a);
      }
    }
  }

  ghost function Reversed<T>(E: set<(T, T)>): set<(T, T)> {
    set e | e in E :: (e.1, e.0)
  }

  lemma {:induction false} ReversedReaches<T(!new)>(E: set<(T, T)>, p: seq<T>)
    requires IsPath(Reversed(E), p) && |p| >= 2
    ensures Reaches(E, p[|p| - 1], p[0])
    decreases |p|
  {
    assert (p[0], p[1]) in Reversed(E);
    EdgeReaches(E, p[1], p[0]);
    if |p| > 2 {
      PathSuffix(Reversed(E), p, 1);
      ReversedReaches(E, p[1..]);
      ReachesTransitive(E, p[|p| - 1], p[1], p[0]);
    }
  }

  lemma ReversedAcyclic<T(!new)>(E: set<(T, T)>)
    requires Acyclic(E)
    ensures Acyclic(Reversed(E))
  {
    forall a ensures !Reaches(Reversed(E), a, a) {
      if Reaches(Reversed(E), a, a) {
        var p: seq<T> :| IsPath(Reversed(E), p) && |p| >= 2 && p[0] == a && p[|p| - 1] == a;
        ReversedReaches(E, p);
      }
    }
  }
}
