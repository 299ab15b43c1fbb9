/** Canonical keys for cycles and the removal of cycles that are rotations of one another
    (internal/engine/cycles.go). */
module CycleDedup {
  import opened Graph

  // Strings in byte order
  // ---------------------------------------------------------------------------

  predicate StringLess(a: string, b: string) {
    |b| > 0 && (|a| == 0 || a[0] < b[0] || (a[0] == b[0] && StringLess(a[1..], b[1..])))
  }

  lemma {:induction false} StringLessTotal(a: string, b: string)
    ensures StringLess(a, b) || StringLess(b, a) || a == b
    ensures !(StringLess(a, b) && StringLess(b, a))
    ensures StringLess(a, b) ==> a != b
    decreases |a|
  {
    if |a| > 0 && |b| > 0 {
      StringLessTotal(a[1..], b[1..]);
      assert a == [a[0]] + a[1..] && b == [b[0]] + b[1..];
    }
  }

  lemma {:induction false} StringLessTransitive(a: string, b: string, c: string)
    requires StringLess(a, b) && StringLess(b, c)
    ensures StringLess(a, c)
    decreases |a|
  {
    if |a| > 0 && a[0] == b[0] == c[0] {
      StringLessTransitive(a[1..], b[1..], c[1..]);
    }
  }

  // Keys
  // ---------------------------------------------------------------------------

  /** A cycle without its final repeated node. */
  ghost function Body<N>(c: seq<N>): seq<N>
    requires |c| >= 1
  {
    c[..|c| - 1]
  }

  /** First position among the first k whose key is least. */
  ghost function MinIndex<N>(b: seq<N>, key: N -> string, k: nat): (m: nat)
    requires k <= |b|
    ensures k > 0 ==> m < k
  {
    if k <= 1 then 0
    else
      var m := MinIndex(b, key, k - 1);
      if StringLess(key(b[k - 1]), key(b[m])) then k - 1 else m
  }

  ghost function JoinKeys<N>(s: seq<N>, key: N -> string): string {
    if s == [] then "" else key(s[0]) + ">" + JoinKeys(s[1..], key)
  }

  ghost function RotatedTo<N>(b: seq<N>, m: nat): seq<N>
    requires m <= |b|
  {
    b[m..] + b[..m]
  }

  ghost function CanonicalKey<N>(c: seq<N>, key: N -> string): string
    requires |c| >= 1
  {
    var b := Body(c);
    JoinKeys(RotatedTo(b, MinIndex(b, key, |b|)), key)
  }

  lemma {:induction false} JoinKeysAppend<N>(s: seq<N>, x: N, key: N -> string)
    ensures JoinKeys(s + [x], key) == JoinKeys(s, key) + key(x) + ">"
    decreases |s|
  {
    if s != [] {
      JoinKeysAppend(s[1..], x, key);
      assert (s + [x])[1..] == s[1..] + [x];
    }
  }

  /** The position in b of entry i of b rotated by s. */
  ghost function Unrotate(n: nat, s: nat, i: nat): (j: nat)
    requires s <= n && i < n
    ensures j < n
  {
    if i < n - s then i + s else i - (n - s)
  }

  lemma RotatedAt<N>(b: seq<N>, s: nat)
    requires s <= |b|
    ensures |RotatedTo(b, s)| == |b|
    ensures forall i :: 0 <= i < |b| ==> RotatedTo(b, s)[i] == b[Unrotate(|b|, s, i)]
  {
  }

  lemma WrapIndex(n: nat, s: nat, i: nat)
    requires s <= n && i < n
    ensures (s + i) % n == Unrotate(n, s, i)
  {
    RemainderIs(s + i, n, if i < n - s then 0 else 1);
  }

  /** A nonzero multiple of n is at least n away from zero. */
  lemma {:induction false} MultipleIsFar(n: nat, d: int)
    ensures d >= 1 ==> n * d >= n
    ensures d <= -1 ==> n * d + n <= 0
    decreases if d < 0 then -d else d
  {
    if d > 1 {
      MultipleIsFar(n, d - 1);
    } else if d < -1 {
      MultipleIsFar(n, d + 1);
    }
  }

  /** The remainder is what is left after taking n away q times. */
  lemma RemainderIs(x: nat, n: nat, q: nat)
    requires n > 0 && q <= 1 && 0 <= x - q * n < n
    ensures x % n == x - q * n
  {
    var d := x / n - q;
    MultipleIsFar(n, d);
    assert n * d == n * (x / n) - n * q;
  }

  /** The writing loop, with its wrapped index. */
  method WriteFrom<N>(cycle: seq<N>, minIdx: nat, key: N -> string) returns (k: string)
    requires |cycle| >= 1 && minIdx <= |cycle| - 1
    ensures k == JoinKeys(RotatedTo(Body(cycle), minIdx), key)
  {
    var n := |cycle| - 1;
    k := "";
    ghost var r := RotatedTo(Body(cycle), minIdx);
    RotatedAt(Body(cycle), minIdx);
    for i := 0 to n
      invariant k == JoinKeys(r[..i], key)
    {
      WrapIndex(n, minIdx, i);
      var j := (minIdx + i) % n;
      assert cycle[j] == r[i];
      JoinKeysAppend(r[..i], r[i], key);
      assert r[..i] + [r[i]] == r[..i + 1];
      k := k + key(cycle[j]) + ">";
    }
    assert r[..n] == r;
  }

  /** The key of a cycle: the scan for the least key, then the writing loop. */
  method RotationKey<N>(cycle: seq<N>, key: N -> string) returns (k: string)
    requires |cycle| >= 1
    ensures k == CanonicalKey(cycle, key)
  {
    var n := |cycle| - 1;
    ghost var b := Body(cycle);
    var minIdx, minKey := 0, key(cycle[0]);
    if n >= 1 {
      for i := 1 to n
        invariant minIdx == MinIndex(b, key, i) && minKey == key(b[minIdx])
      {
        var ki := key(cycle[i]);
        if StringLess(ki, minKey) {
          minIdx, minKey := i, ki;
        }
      }
    }
    k := WriteFrom(cycle, minIdx, key);
  }

  // Equal keys mean rotations
  // ---------------------------------------------------------------------------

  ghost predicate Separable<N(!new)>(key: N -> string) {
    && (forall x, y :: key(x) == key(y) ==> x == y)
    && (forall x :: '>' !in key(x))
  }

  ghost predicate IsRotation<N>(b: seq<N>, c: seq<N>) {
    exists m: nat :: m <= |b| && c == RotatedTo(b, m)
  }

  /** A separator-free head is determined by the joined text. */
  lemma HeadDetermined(a: string, s: string, b: string, t: string)
    requires '>' !in a && '>' !in b
    requires a + ">" + s == b + ">" + t
    ensures a == b && s == t
  {
    var u, v := a + ">" + s, b + ">" + t;
    assert u[|a|] == '>' && v[|b|] == '>';
    assert forall i :: 0 <= i < |a| ==> u[i] == a[i];
    assert forall i :: 0 <= i < |b| ==> v[i] == b[i];
    assert |a| == |b|;
    assert a == u[..|a|] && b == v[..|b|];
    assert s == u[|a| + 1..] && t == v[|b| + 1..];
  }

  lemma {:induction false} JoinKeysInjective<N(!new)>(s: seq<N>, t: seq<N>, key: N -> string)
    requires Separable(key)
    requires JoinKeys(s, key) == JoinKeys(t, key)
    ensures s == t
    decreases |s|
  {
    if s != [] && t != [] {
      HeadDetermined(key(s[0]), JoinKeys(s[1..], key), key(t[0]), JoinKeys(t[1..], key));
      JoinKeysInjective(s[1..], t[1..], key);
      assert s == [s[0]] + s[1..] && t == [t[0]] + t[1..];
    }
  }

  lemma {:induction false} MinIndexIsLeast<N>(b: seq<N>, key: N -> string, k: nat, i: nat)
    requires i < k <= |b|
    ensures !StringLess(key(b[i]), key(b[MinIndex(b, key, k)]))
    decreases k
  {
    var m := MinIndex(b, key, k);
    if k == 1 {
      StringLessTotal(key(b[0]), key(b[0]));
    } else {
      var m' := MinIndex(b, key, k - 1);
      StringLessTotal(key(b[k - 1]), key(b[m']));
      StringLessTotal(key(b[m]), key(b[m]));
      if i < k - 1 {
        MinIndexIsLeast(b, key, k - 1, i);
        if StringLess(key(b[i]), key(b[m])) && m == k - 1 {
          StringLessTransitive(key(b[i]), key(b[m]), key(b[m']));
        }
      }
    }
  }

  /** With distinct nodes and injective keys the least position is the only one. */
  lemma MinIndexUnique<N(!new)>(b: seq<N>, key: N -> string, m: nat)
    requires Separable(key) && NoDuplicates(b) && m < |b|
    requires forall i :: 0 <= i < |b| ==> !StringLess(key(b[i]), key(b[m]))
    ensures m == MinIndex(b, key, |b|)
  {
    var k := MinIndex(b, key, |b|);
    MinIndexIsLeast(b, key, |b|, m);
    StringLessTotal(key(b[m]), key(b[k]));
    assert key(b[m]) == key(b[k]);
  }

  lemma RotatedDistinct<N>(b: seq<N>, s: nat)
    requires s <= |b| && NoDuplicates(b)
    ensures NoDuplicates(RotatedTo(b, s))
  {
    RotatedAt(b, s);
    var c := RotatedTo(b, s);
    forall i, j | 0 <= i < j < |c| ensures c[i] != c[j] {
      var i', j' := Unrotate(|b|, s, i), Unrotate(|b|, s, j);
      assert if i' < j' then b[i'] != b[j'] else b[j'] != b[i'];
    }
  }

  /** Rotating a simple cycle does not change its canonical form. */
  lemma RotationKeepsKey<N(!new)>(b: seq<N>, c: seq<N>, s: nat, key: N -> string)
    requires Separable(key) && NoDuplicates(b) && |b| >= 1
    requires s <= |b| && c == RotatedTo(b, s)
    ensures RotatedTo(b, MinIndex(b, key, |b|)) == RotatedTo(c, MinIndex(c, key, |c|))
  {
    hide StringLess, MinIndex, RotatedTo, Separable, NoDuplicates;
    var m := MinIndex(b, key, |b|);
    var t := if m < s then |b| - s + m else m - s;
    RotatedAt(b, s);
    assert c[t] == b[m];
    forall i | 0 <= i < |c| ensures !StringLess(key(c[i]), key(c[t])) {
      MinIndexIsLeast(b, key, |b|, Unrotate(|b|, s, i));
    }
    RotatedDistinct(b, s);
    MinIndexUnique(c, key, t);
    SameAfterUndoing(b, s, m, t);
  }

  lemma SameAfterUndoing<N>(b: seq<N>, s: nat, m: nat, t: nat)
    requires s <= |b| && m < |b| && t == if m < s then |b| - s + m else m - s
    ensures RotatedTo(b, m) == RotatedTo(RotatedTo(b, s), t)
  {
    var c := RotatedTo(b, s);
    RotatedAt(b, s);
    RotatedAt(b, m);
    RotatedAt(c, t);
    forall i | 0 <= i < |b| ensures RotatedTo(b, m)[i] == RotatedTo(c, t)[i] {
      assert c[Unrotate(|b|, t, i)] == b[Unrotate(|b|, s, Unrotate(|b|, t, i))];
    }
  }

  lemma CommonRotationAt<N>(b: seq<N>, m: nat, c: seq<N>, k: nat, s: nat)
    requires m <= |b| == |c| && k <= |c| && RotatedTo(b, m) == RotatedTo(c, k)
    requires s == if k <= m then m - k else |b| - (k - m)
    ensures c == RotatedTo(b, s)
  {
    var n, u := |b|, RotatedTo(b, m);
    RotatedAt(b, m);
    RotatedAt(c, k);
    RotatedAt(b, s);
    forall i | 0 <= i < n ensures c[i] == RotatedTo(b, s)[i] {
      var j := if i < k then n - k + i else i - k;
      assert Unrotate(n, k, j) == i;
      assert c[i] == RotatedTo(c, k)[j];
      assert RotatedTo(b, m)[j] == b[Unrotate(n, m, j)];
    }
  }

  /** Two sequences with a common rotation are rotations of one another. */
  lemma CommonRotation<N>(b: seq<N>, m: nat, c: seq<N>, k: nat)
    requires m <= |b| && k <= |c| && RotatedTo(b, m) == RotatedTo(c, k)
    ensures IsRotation(b, c)
  {
    assert |b| == |RotatedTo(b, m)| == |c|;
    var s := if k <= m then m - k else |b| - (k - m);
    CommonRotationAt(b, m, c, k, s);
  }

  /** Cycles have the same key exactly when one is a rotation of the other. */
  lemma SameKeyIffRotation<N(!new)>(c: seq<N>, d: seq<N>, key: N -> string)
    requires Separable(key)
    requires |c| >= 2 && |d| >= 2 && NoDuplicates(Body(c)) && NoDuplicates(Body(d))
    ensures CanonicalKey(c, key) == CanonicalKey(d, key) <==> IsRotation(Body(c), Body(d))
  {
    var b, e := Body(c), Body(d);
    var m, k := MinIndex(b, key, |b|), MinIndex(e, key, |e|);
    if CanonicalKey(c, key) == CanonicalKey(d, key) {
      JoinKeysInjective(RotatedTo(b, m), RotatedTo(e, k), key);
      CommonRotation(b, m, e, k);
    }
    if IsRotation(b, e) {
      var s: nat :| s <= |b| && e == RotatedTo(b, s);
      RotationKeepsKey(b, e, s, key);
    }
  }

  // Deduplication
  // ---------------------------------------------------------------------------

  ghost predicate Seen<N>(cycles: seq<seq<N>>, c: seq<N>)
    requires |c| >= 1 && forall d :: d in cycles ==> |d| >= 1
  {
    exists d :: d in cycles && IsRotation(Body(d), Body(c))
  }

  /** The cycles that are not a rotation of an earlier one, in their order. */
  ghost function FirstOfEachClass<N>(cycles: seq<seq<N>>): (out: seq<seq<N>>)
    requires forall d :: d in cycles ==> |d| >= 1
    ensures forall d :: d in out ==> d in cycles
  {
    if cycles == [] then []
    else
      var c := cycles[|cycles| - 1];
      var earlier := cycles[..|cycles| - 1];
      if Seen(earlier, c) then FirstOfEachClass(earlier) else FirstOfEachClass(earlier) + [c]
  }

  ghost predicate Simple<N>(cycles: seq<seq<N>>) {
    forall c :: c in cycles ==> |c| >= 2 && NoDuplicates(Body(c))
  }

  ghost function KeysOf<N>(cycles: seq<seq<N>>, key: N -> string): set<string>
    requires Simple(cycles)
  {
    set d | d in cycles :: CanonicalKey(d, key)
  }

  lemma KeysOfAppend<N>(earlier: seq<seq<N>>, c: seq<N>, key: N -> string)
    requires Simple(earlier + [c])
    ensures Simple(earlier) && KeysOf(earlier + [c], key) == KeysOf(earlier, key) + {CanonicalKey(c, key)}
  {
    assert forall d :: d in earlier + [c] <==> d in earlier || d == c;
    assert c in earlier + [c];
  }

  lemma FirstOfEachClassAppend<N>(earlier: seq<seq<N>>, c: seq<N>)
    requires |c| >= 1 && forall d :: d in earlier ==> |d| >= 1
    ensures FirstOfEachClass(earlier + [c]) ==
      if Seen(earlier, c) then FirstOfEachClass(earlier) else FirstOfEachClass(earlier) + [c]
  {
    assert (earlier + [c])[..|earlier|] == earlier;
  }

  /** A key has been met exactly when a rotation of the cycle has. */
  lemma SeenByKey<N(!new)>(earlier: seq<seq<N>>, c: seq<N>, key: N -> string)
    requires Separable(key) && Simple(earlier) && |c| >= 2 && NoDuplicates(Body(c))
    ensures Seen(earlier, c) <==> CanonicalKey(c, key) in KeysOf(earlier, key)
  {
    forall d | d in earlier
      ensures CanonicalKey(d, key) == CanonicalKey(c, key) <==> IsRotation(Body(d), Body(c))
    {
      SameKeyIffRotation(d, c, key);
    }
  }

  lemma NothingSeen<N>(key: N -> string)
    ensures FirstOfEachClass<N>([]) == [] && KeysOf([], key) == {}
  {
  }

  method DedupCycles<N(!new)>(cycles: seq<seq<N>>, key: N -> string) returns (out: seq<seq<N>>)
    requires Separable(key) && Simple(cycles)
    ensures out == FirstOfEachClass(cycles)
  {
    hide FirstOfEachClass, KeysOf, CanonicalKey, Seen, Separable;
    var seen: set<string> := {};
    out := [];
    NothingSeen(key);
    assert cycles[..0] == [];
    for i := 0 to |cycles|
      invariant out == FirstOfEachClass(cycles[..i])
      invariant seen == KeysOf(cycles[..i], key)
    {
      var c := cycles[i];
      ghost var earlier := cycles[..i];
      assert cycles[..i + 1] == earlier + [c];
      KeysOfAppend(earlier, c, key);
      FirstOfEachClassAppend(earlier, c);
      var k := RotationKey(c, key);
      SeenByKey(earlier, c, key);
      if k !in seen {
        seen := seen + {k};
        out := out + [c];
      }
    }
    assert cycles[..|cycles|] == cycles;
  }

  /** Every reported cycle keeps a representative. */
  lemma {:induction false} EveryClassRepresented<N(!new)>(cycles: seq<seq<N>>, d: seq<N>)
    requires (forall c :: c in cycles ==> |c| >= 2) && d in cycles
    ensures Seen(FirstOfEachClass(cycles), d)
    decreases |cycles|
  {
    var c := cycles[|cycles| - 1];
    var earlier := cycles[..|cycles| - 1];
    assert cycles == earlier + [c];
    var out := FirstOfEachClass(cycles);
    if Seen(earlier, d) {
      var e :| e in earlier && IsRotation(Body(e), Body(d));
      EveryClassRepresented(earlier, e);
      var f :| f in FirstOfEachClass(earlier) && IsRotation(Body(f), Body(e));
      RotationsCompose(Body(f), Body(e), Body(d));
      assert f in out;
    } else {
      assert Body(d) == RotatedTo(Body(d), 0);
      assert d == c;
      assert out[|out| - 1] == d;
    }
  }

  /** No two representatives are rotations of each other. */
  lemma {:induction false} RepresentativesDiffer<N(!new)>(cycles: seq<seq<N>>, i: nat, j: nat)
    requires forall c :: c in cycles ==> |c| >= 2
    requires i < j < |FirstOfEachClass(cycles)|
    ensures !IsRotation(Body(FirstOfEachClass(cycles)[i]), Body(FirstOfEachClass(cycles)[j]))
    decreases |cycles|
  {
    var c := cycles[|cycles| - 1];
    var earlier := cycles[..|cycles| - 1];
    var before := FirstOfEachClass(earlier);
    if j < |before| {
      RepresentativesDiffer(earlier, i, j);
    } else {
      assert before[i] in earlier;
    }
  }

  /** Rotating twice is rotating once. */
  lemma RotateTwice<N>(a: seq<N>, s: nat, t: nat) returns (u: nat)
    requires s <= |a| && t <= |a|
    ensures u <= |a| && RotatedTo(RotatedTo(a, s), t) == RotatedTo(a, u)
  {
    if t <= |a| - s {
      u := s + t;
      var x, y, z := a[..s], a[s..u], a[u..];
      assert a[s..] == y + z && a[..u] == x + y;
      assert RotatedTo(a, s) == (y + z) + x;
      assert RotatedTo(a, s)[t..] == z + x && RotatedTo(a, s)[..t] == y;
    } else {
      u := s + t - |a|;
      var x, y, z := a[..u], a[u..s], a[s..];
      assert a[..s] == x + y && a[u..] == y + z;
      assert RotatedTo(a, s) == z + (x + y);
      assert RotatedTo(a, s)[t..] == y && RotatedTo(a, s)[..t] == z + x;
    }
  }

  lemma RotationsCompose<N>(a: seq<N>, b: seq<N>, c: seq<N>)
    requires IsRotation(a, b) && IsRotation(b, c)
    ensures IsRotation(a, c)
  {
    var s: nat :| s <= |a| && b == RotatedTo(a, s);
    var t: nat :| t <= |b| && c == RotatedTo(b, t);
    var u := RotateTwice(a, s, t);
  }
}
