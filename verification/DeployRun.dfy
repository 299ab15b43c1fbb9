/** Running the levels of the deploy graph (runPlansConcurrent and runLevel in internal/engine/engine.go).
    A run is recorded as a log of events; within a level any interleaving may happen. */
module DeployRun {
  import opened Graph
  import opened Ordering
  import opened OpPlan
  import opened Layers
  import opened DeployGraph

  datatype Event =
    | Began(deploy: nat)
    | Ended(deploy: nat, failed: bool)

  // Logs
  // ---------------------------------------------------------------------------

  /** The deploys whose work returned an error, in the order in which the errors were collected. */
  ghost function Failures(log: seq<Event>): seq<nat> {
    if log == [] then []
    else
      var e := log[|log| - 1];
      Failures(log[..|log| - 1]) + if e.Ended? && e.failed then [e.deploy] else []
  }

  /** A complete run of one level: every deploy of it, and nobody else, begins once and then ends once. */
  ghost predicate LevelLog(level: seq<nat>, log: seq<Event>) {
    && (forall e :: e in log ==> e.deploy in level)
    && (forall a, b :: 0 <= a < b < |log| && log[a].deploy == log[b].deploy ==> log[a].Began? && log[b].Ended?)
    && (forall i :: i in level ==> Began(i) in log && (Ended(i, false) in log || Ended(i, true) in log))
  }

  /** Whole levels, one after the other; the first one with a failure is the last one that runs. */
  ghost predicate LevelsLog(levels: seq<seq<nat>>, logs: seq<seq<Event>>) {
    && |logs| <= |levels|
    && (forall k :: 0 <= k < |logs| ==> LevelLog(levels[k], logs[k]))
    && (forall k :: 0 <= k < |logs| - 1 ==> Failures(logs[k]) == [])
    && (|logs| < |levels| ==> |logs| > 0 && Failures(logs[|logs| - 1]) != [])
  }

  ghost function Flatten<T>(ss: seq<seq<T>>): seq<T> {
    if ss == [] then [] else Flatten(ss[..|ss| - 1]) + ss[|ss| - 1]
  }

  ghost function Offset<T>(ss: seq<seq<T>>, k: nat): nat
    requires k <= |ss|
  {
    |Flatten(ss[..k])|
  }

  lemma FlattenAppend<T>(ss: seq<seq<T>>, s: seq<T>)
    ensures Flatten(ss + [s]) == Flatten(ss) + s
  {
    assert (ss + [s])[..|ss|] == ss;
  }

  /** Entry o of list k, and where it is in the flat list. */
  lemma {:induction false} FlattenIndex<T>(ss: seq<seq<T>>, k: nat, o: nat)
    requires k < |ss| && o < |ss[k]|
    ensures Offset(ss, k) + o < |Flatten(ss)| && Flatten(ss)[Offset(ss, k) + o] == ss[k][o]
    decreases |ss|
  {
    var init := ss[..|ss| - 1];
    if k < |ss| - 1 {
      FlattenIndex(init, k, o);
      assert init[..k] == ss[..k];
    }
  }

  lemma {:induction false} FlattenAt<T>(ss: seq<seq<T>>, a: nat) returns (k: nat, o: nat)
    requires a < |Flatten(ss)|
    ensures k < |ss| && o < |ss[k]| && a == Offset(ss, k) + o && Flatten(ss)[a] == ss[k][o]
    decreases |ss|
  {
    var init := ss[..|ss| - 1];
    if a < |Flatten(init)| {
      k, o := FlattenAt(init, a);
      assert init[..k] == ss[..k];
    } else {
      k, o := |ss| - 1, a - |Flatten(init)|;
    }
  }

  lemma {:induction false} OffsetsGrow<T>(ss: seq<seq<T>>, k: nat, m: nat)
    requires k < m <= |ss|
    ensures Offset(ss, k) + |ss[k]| <= Offset(ss, m)
    decreases m
  {
    assert ss[..m][..m - 1] == ss[..m - 1];
    if k < m - 1 {
      OffsetsGrow(ss, k, m - 1);
    }
  }

  lemma {:induction false} FailureIsLogged(log: seq<Event>, i: nat)
    ensures i in Failures(log) <==> Ended(i, true) in log
    decreases |log|
  {
    if log != [] {
      FailureIsLogged(log[..|log| - 1], i);
      assert log == log[..|log| - 1] + [log[|log| - 1]];
    }
  }

  /** Deploy d failed, as event k. */
  ghost predicate FailsAt(log: seq<Event>, d: nat, k: nat) {
    k < |log| && log[k] == Ended(d, true)
  }

  /** cs lists every deploy that failed, once, in order of arrival. */
  ghost predicate ListsFailures(log: seq<Event>, cs: seq<nat>) {
    && NoDuplicates(cs)
    && (forall d :: d in cs <==> Ended(d, true) in log)
    && (forall a, b, j, k :: 0 <= a < b < |cs| && FailsAt(log, cs[a], j) && FailsAt(log, cs[b], k) ==> j < k)
  }

  lemma {:induction false} FailuresListed(log: seq<Event>)
    requires forall a, b :: 0 <= a < b < |log| && log[a].deploy == log[b].deploy ==> log[a].Began? && log[b].Ended?
    ensures ListsFailures(log, Failures(log))
    decreases |log|
  {
    if log != [] {
      var init, last := log[..|log| - 1], log[|log| - 1];
      FailuresListed(init);
      assert log == init + [last];
      var cs, before := Failures(log), Failures(init);
      assert last == Ended(last.deploy, true) ==> last !in init;
      forall a, b, j, k | 0 <= a < b < |cs| && FailsAt(log, cs[a], j) && FailsAt(log, cs[b], k) ensures j < k {
        assert cs[a] == before[a] && Ended(cs[a], true) in init;
        assert FailsAt(init, cs[a], j);
        assert b < |before| ==> cs[b] == before[b] && Ended(cs[b], true) in init && FailsAt(init, cs[b], k);
      }
    }
  }

  // What a run of levels guarantees
  // ---------------------------------------------------------------------------

  /** An event is logged while the level of its deploy runs. */
  lemma EventLevel(E: set<(int, int)>, n: nat, levels: seq<seq<nat>>, logs: seq<seq<Event>>, a: nat)
    returns (k: nat, o: nat)
    requires Staged(E, n, levels) && LevelsLog(levels, logs) && a < |Flatten(logs)|
    ensures k < |logs| && o < |logs[k]| && a == Offset(logs, k) + o && Flatten(logs)[a] == logs[k][o]
    ensures k < |levels| && Flatten(logs)[a].deploy in levels[k]
    ensures forall m: nat :: m < |levels| && Flatten(logs)[a].deploy in levels[m] ==> m == k
  {
    k, o := FlattenAt(logs, a);
    assert LevelLog(levels[k], logs[k]) && logs[k][o] in logs[k];
  }

  /** A deploy begins and ends at most once, and ends after it began. */
  lemma EachRunsAtMostOnce(E: set<(int, int)>, n: nat, levels: seq<seq<nat>>, logs: seq<seq<Event>>, a: nat, b: nat)
    requires Staged(E, n, levels) && LevelsLog(levels, logs)
    requires a < b < |Flatten(logs)| && Flatten(logs)[a].deploy == Flatten(logs)[b].deploy
    ensures Flatten(logs)[a].Began? && Flatten(logs)[b].Ended?
  {
    hide Staged, Flatten;
    var k, o := EventLevel(E, n, levels, logs, a);
    var m, q := EventLevel(E, n, levels, logs, b);
    assert LevelLog(levels[k], logs[k]);
  }

  /** Work starts on a deploy only after every deploy it depends on, directly or not, returned without error. */
  lemma StartsAfterDependencies(E: set<(int, int)>, n: nat, levels: seq<seq<nat>>, logs: seq<seq<Event>>,
                                a: nat, i: nat, j: nat)
    requires Staged(E, n, levels) && LevelsLog(levels, logs) && Reaches(E, i, j)
    requires a < |Flatten(logs)| && Flatten(logs)[a] == Began(i)
    ensures exists b :: 0 <= b < a && Flatten(logs)[b] == Ended(j, false)
  {
    var k, o := EventLevel(E, n, levels, logs, a);
    var p: seq<int> :| IsPath(E, p) && |p| >= 2 && p[0] == i && p[|p| - 1] == j;
    StagedPath(E, n, levels, p, k);
    hide Staged, Flatten, LevelsLog, LevelLog;
    var m: nat :| m < k && j in levels[m];
    var b := EndedEarlier(levels, logs, m, k, j);
    assert b < a;
  }

  /** A deploy of an earlier level has ended without error before a level starts. */
  lemma EndedEarlier(levels: seq<seq<nat>>, logs: seq<seq<Event>>, m: nat, k: nat, j: nat) returns (b: nat)
    requires LevelsLog(levels, logs) && m < k < |logs| && j in levels[m]
    ensures b < Offset(logs, k) && b < |Flatten(logs)| && Flatten(logs)[b] == Ended(j, false)
  {
    hide Flatten;
    assert LevelLog(levels[m], logs[m]) && Failures(logs[m]) == [];
    FailureIsLogged(logs[m], j);
    var q :| 0 <= q < |logs[m]| && logs[m][q] == Ended(j, false);
    FlattenIndex(logs, m, q);
    OffsetsGrow(logs, m, k);
    b := Offset(logs, m) + q;
  }

  /** A failure in one level keeps every later level from starting; its siblings still run. */
  lemma FailureStopsLaterLevels(levels: seq<seq<nat>>, logs: seq<seq<Event>>, E: set<(int, int)>, n: nat,
                                k: nat, j: nat)
    requires Staged(E, n, levels) && LevelsLog(levels, logs)
    requires k < |levels| && j in levels[k] && Ended(j, true) in Flatten(logs)
    ensures k < |logs|
    ensures forall i :: i in levels[k] ==> Began(i) in Flatten(logs)
    ensures forall m: nat, i :: k < m < |levels| && i in levels[m] ==> Began(i) !in Flatten(logs)
  {
    hide Staged, Flatten;
    var flat := Flatten(logs);
    var a :| 0 <= a < |flat| && flat[a] == Ended(j, true);
    var l, o := EventLevel(E, n, levels, logs, a);
    FailureIsLogged(logs[k], j);
    assert k == |logs| - 1;
    assert LevelLog(levels[k], logs[k]);
    forall i | i in levels[k] ensures Began(i) in flat {
      var q :| 0 <= q < |logs[k]| && logs[k][q] == Began(i);
      FlattenIndex(logs, k, q);
    }
    forall m: nat, i | k < m < |levels| && i in levels[m] ensures Began(i) !in flat {
      if Began(i) in flat {
        var b :| 0 <= b < |flat| && flat[b] == Began(i);
        var x, y := EventLevel(E, n, levels, logs, b);
      }
    }
  }

  /** If nothing fails, every deploy of the run begins and ends, and by EachRunsAtMostOnce just once. */
  lemma AllRunWhenNothingFails(E: set<(int, int)>, n: nat, levels: seq<seq<nat>>, logs: seq<seq<Event>>, i: nat)
    requires Staged(E, n, levels) && LevelsLog(levels, logs) && Failures(Flatten(logs)) == [] && i < n
    ensures Began(i) in Flatten(logs) && Ended(i, false) in Flatten(logs)
  {
    NoFailures(logs);
    assert i < n;
    assert InSomeLevel(levels, i, |levels|);
    var k: nat :| k < |levels| && i in levels[k];
    RunsInLevel(levels, logs, k, i);
  }

  lemma RunsInLevel(levels: seq<seq<nat>>, logs: seq<seq<Event>>, k: nat, i: nat)
    requires k < |logs| && k < |levels| && LevelLog(levels[k], logs[k]) && Failures(logs[k]) == [] && i in levels[k]
    ensures Began(i) in Flatten(logs) && Ended(i, false) in Flatten(logs)
  {
    FailureIsLogged(logs[k], i);
    var b :| 0 <= b < |logs[k]| && logs[k][b] == Began(i);
    var e :| 0 <= e < |logs[k]| && logs[k][e] == Ended(i, false);
    hide *;
    FlattenIndex(logs, k, b);
    FlattenIndex(logs, k, e);
  }

  lemma {:induction false} FailuresConcat(a: seq<Event>, b: seq<Event>)
    ensures Failures(a + b) == Failures(a) + Failures(b)
    decreases |b|
  {
    if b == [] {
      assert a + b == a;
    } else {
      var init := b[..|b| - 1];
      FailuresConcat(a, init);
      assert (a + b)[..|a + b| - 1] == a + init;
    }
  }

  lemma FailuresOne(e: Event)
    ensures Failures([]) == []
    ensures Failures([e]) == if e.Ended? && e.failed then [e.deploy] else []
  {
    assert [e][..0] == [];
  }

  lemma {:induction false} NoFailures(logs: seq<seq<Event>>)
    requires Failures(Flatten(logs)) == []
    ensures forall k :: 0 <= k < |logs| ==> Failures(logs[k]) == []
    decreases |logs|
  {
    if logs != [] {
      var init := logs[..|logs| - 1];
      FailuresConcat(Flatten(init), logs[|logs| - 1]);
      NoFailures(init);
    }
  }

  // Running one level
  // ---------------------------------------------------------------------------

  ghost predicate MidLevel(level: seq<nat>, waiting: set<nat>, running: set<nat>, log: seq<Event>) {
    && (forall i :: i in waiting || i in running ==> i in level)
    && (forall i :: i in waiting ==> i !in running)
    && (forall e :: e in log ==> e.deploy in level && e.deploy !in waiting)
    && (forall a, b :: 0 <= a < b < |log| && log[a].deploy == log[b].deploy ==> log[a].Began? && log[b].Ended?)
    && (forall i :: i in level && i !in waiting ==> Began(i) in log)
    && (forall i :: i in running ==> Ended(i, false) !in log && Ended(i, true) !in log)
    && (forall i :: i in level && i !in waiting && i !in running ==> Ended(i, false) in log || Ended(i, true) in log)
  }

  lemma BeginKeepsLevel(level: seq<nat>, waiting: set<nat>, running: set<nat>, log: seq<Event>, i: nat)
    requires MidLevel(level, waiting, running, log) && i in waiting
    ensures MidLevel(level, waiting - {i}, running + {i}, log + [Began(i)])
  {
    var log' := log + [Began(i)];
    assert forall a :: 0 <= a < |log| ==> log[a] in log;
    assert log'[|log|] == Began(i);
    assert forall e :: e in log ==> e in log';
  }

  lemma EndKeepsLevel(level: seq<nat>, waiting: set<nat>, running: set<nat>, log: seq<Event>, i: nat, failed: bool)
    requires MidLevel(level, waiting, running, log) && i in running
    ensures MidLevel(level, waiting, running - {i}, log + [Ended(i, failed)])
  {
    var log' := log + [Ended(i, failed)];
    forall a | 0 <= a < |log| && log[a].deploy == i ensures log[a].Began? {
      assert log[a] in log;
    }
    assert log'[|log|] == Ended(i, failed);
    assert forall e :: e in log ==> e in log';
  }

  lemma LevelStarts(level: seq<nat>)
    ensures MidLevel(level, set i | i in level, {}, [])
  {
  }

  lemma LevelEnds(level: seq<nat>, log: seq<Event>)
    requires MidLevel(level, {}, {}, log)
    ensures LevelLog(level, log)
  {
  }

  /** Every deploy ended as its work did. */
  ghost predicate Reports(fails: nat -> bool, log: seq<Event>) {
    forall e :: e in log && e.Ended? ==> e.failed == fails(e.deploy)
  }

  lemma ReportsMore(fails: nat -> bool, a: seq<Event>, b: seq<Event>)
    requires Reports(fails, a) && Reports(fails, b)
    ensures Reports(fails, a + b)
  {
  }

  lemma ReportsOne(fails: nat -> bool, e: Event)
    requires e.Ended? ==> e.failed == fails(e.deploy)
    ensures Reports(fails, []) && Reports(fails, [e])
  {
  }

  /** Every deploy of the level is started at once; errors are collected, nobody is cancelled. fails(i) is
      whether the work of deploy i returns an error. */
  method RunLevel(level: seq<nat>, fails: nat -> bool) returns (causes: seq<nat>, log: seq<Event>)
    ensures LevelLog(level, log) && Reports(fails, log) && causes == Failures(log)
  {
    var waiting, running := set i | i in level, {};
    causes, log := [], [];
    LevelStarts(level);
    hide MidLevel, LevelLog, Reports, Failures;
    FailuresOne(Began(0));
    ReportsOne(fails, Began(0));
    while waiting + running != {}
      invariant MidLevel(level, waiting, running, log) && Reports(fails, log) && causes == Failures(log)
      decreases |waiting|, |running|
    {
      var i :| i in waiting + running;
      if i in waiting {
        BeginKeepsLevel(level, waiting, running, log, i);
        FailuresConcat(log, [Began(i)]);
        FailuresOne(Began(i));
        ReportsOne(fails, Began(i));
        ReportsMore(fails, log, [Began(i)]);
        waiting, running, log := waiting - {i}, running + {i}, log + [Began(i)];
      } else {
        var failed := fails(i);
        EndKeepsLevel(level, waiting, running, log, i, failed);
        FailuresConcat(log, [Ended(i, failed)]);
        FailuresOne(Ended(i, failed));
        ReportsOne(fails, Ended(i, failed));
        ReportsMore(fails, log, [Ended(i, failed)]);
        running, log := running - {i}, log + [Ended(i, failed)];
        if failed {
          causes := causes + [i];
        }
      }
    }
    assert waiting == {} && running == {};
    LevelEnds(level, log);
  }

  // Lanes
  // ---------------------------------------------------------------------------

  /** Lane numbers are 0..n-1, each used once. */
  ghost predicate IsBijection(n: nat, ord: map<nat, nat>) {
    && (forall i: nat {:trigger i in ord} :: i in ord <==> i < n)
    && (forall i :: i in ord ==> ord[i] < n)
    && (forall i, j :: i in ord && j in ord && ord[i] == ord[j] ==> i == j)
    && (forall o: nat :: o < n ==> InUse(ord, o))
  }

  ghost predicate InUse(ord: map<nat, nat>, o: nat) {
    exists i :: i in ord && ord[i] == o
  }

  /** They grow level by level, and in declaration order within a level. */
  ghost predicate IsLevelMajor(levels: seq<seq<nat>>, ord: map<nat, nat>) {
    forall k: nat, m: nat, i, j :: k <= m < |levels| && i in levels[k] && j in levels[m] && (k == m ==> i < j) ==>
      Precedes(ord, i, j)
  }

  ghost predicate Precedes(ord: map<nat, nat>, i: nat, j: nat) {
    i in ord && j in ord && ord[i] < ord[j]
  }

  /** They grow from every deploy to the deploys that depend on it. */
  ghost predicate GrowsAlong(E: set<(int, int)>, ord: map<nat, nat>) {
    forall i: nat, j: nat :: (i as int, j as int) in E && i in ord && j in ord ==> ord[j] < ord[i]
  }

  /** The lanes given out so far, in order; ord is the inverse. */
  ghost predicate Numbering(lanes: seq<nat>, ord: map<nat, nat>) {
    && |ord| == |lanes|
    && (forall i :: i in ord <==> i in lanes)
    && (forall o :: 0 <= o < |lanes| ==> lanes[o] in ord && ord[lanes[o]] == o)
  }

  lemma NumberNext(lanes: seq<nat>, ord: map<nat, nat>, i: nat)
    requires Numbering(lanes, ord) && i !in lanes
    ensures Numbering(lanes + [i], ord[i := |lanes|])
  {
    assert ord[i := |lanes|].Keys == ord.Keys + {i};
  }

  /** A deploy has one place in the flat list of levels. */
  lemma StagedOnce(E: set<(int, int)>, n: nat, levels: seq<seq<nat>>, a: nat, b: nat)
    requires Staged(E, n, levels) && a < b < |Flatten(levels)|
    ensures Flatten(levels)[a] != Flatten(levels)[b]
  {
    var k, o := FlattenAt(levels, a);
    var m, q := FlattenAt(levels, b);
    assert levels[k][o] in levels[k] && levels[m][q] in levels[m];
  }

  /** What the places of two deploys in the flat list say about their levels. */
  lemma LevelsAscend(E: set<(int, int)>, n: nat, levels: seq<seq<nat>>, a: nat, b: nat, k: nat, m: nat)
    requires Staged(E, n, levels) && a < |Flatten(levels)| && b < |Flatten(levels)|
    requires k <= m < |levels| && Flatten(levels)[a] in levels[k] && Flatten(levels)[b] in levels[m]
    requires k == m ==> Flatten(levels)[a] < Flatten(levels)[b]
    ensures a < b
  {
    var k', o := FlattenAt(levels, a);
    var m', q := FlattenAt(levels, b);
    assert levels[k][o] in levels[k] && levels[m][q] in levels[m];
    if k < m {
      OffsetsGrow(levels, k, m);
    }
  }

  lemma NumberedMembers(E: set<(int, int)>, n: nat, levels: seq<seq<nat>>, i: nat)
    requires Staged(E, n, levels)
    ensures i in Flatten(levels) <==> i < n
  {
    var lanes := Flatten(levels);
    if i in lanes {
      var o :| 0 <= o < |lanes| && lanes[o] == i;
      var k, a := FlattenAt(levels, o);
      assert levels[k][a] in levels[k];
    } else if i < n {
      assert InSomeLevel(levels, i, |levels|);
      var k: nat :| k < |levels| && i in levels[k];
      var a :| 0 <= a < |levels[k]| && levels[k][a] == i;
      FlattenIndex(levels, k, a);
    }
  }

  lemma NumberingIsBijection(E: set<(int, int)>, n: nat, levels: seq<seq<nat>>, ord: map<nat, nat>)
    requires Staged(E, n, levels) && Numbering(Flatten(levels), ord)
    ensures IsBijection(n, ord)
  {
    var lanes := Flatten(levels);
    forall i: nat ensures i in ord <==> i < n {
      NumberedMembers(E, n, levels, i);
    }
    LanesCount(E, n, levels);
    hide Staged, Flatten;
    ValuesOfNumbering(lanes, ord);
    forall o: nat | o < n ensures InUse(ord, o) {
      assert lanes[o] in ord && ord[lanes[o]] == o;
    }
  }

  lemma LanesCount(E: set<(int, int)>, n: nat, levels: seq<seq<nat>>)
    requires Staged(E, n, levels)
    ensures |Flatten(levels)| == n
  {
    var lanes := Flatten(levels);
    forall i: nat ensures i in lanes <==> i in Below(n) {
      NumberedMembers(E, n, levels, i);
    }
    forall a, b | 0 <= a < b < |lanes| ensures lanes[a] != lanes[b] {
      StagedOnce(E, n, levels, a, b);
    }
    hide Staged, Flatten;
    BelowSize(n);
    DistinctFits(lanes, Below(n));
    CoverFits(Below(n), lanes);
  }

  lemma LaneBefore(E: set<(int, int)>, n: nat, levels: seq<seq<nat>>, ord: map<nat, nat>, k: nat, m: nat,
                   i: nat, j: nat)
    requires Staged(E, n, levels) && Numbering(Flatten(levels), ord)
    requires k <= m < |levels| && i in levels[k] && j in levels[m] && (k == m ==> i < j)
    ensures i in ord && j in ord && ord[i] < ord[j]
  {
    assert i < n && j < n;
    hide Staged, Flatten;
    NumberedMembers(E, n, levels, i);
    NumberedMembers(E, n, levels, j);
    ValuesOfNumbering(Flatten(levels), ord);
    LevelsAscend(E, n, levels, ord[i], ord[j], k, m);
  }

  lemma NumberingIsLevelMajor(E: set<(int, int)>, n: nat, levels: seq<seq<nat>>, ord: map<nat, nat>)
    requires Staged(E, n, levels) && Numbering(Flatten(levels), ord)
    ensures IsLevelMajor(levels, ord)
  {
    forall k: nat, m: nat, i, j | k <= m < |levels| && i in levels[k] && j in levels[m] && (k == m ==> i < j)
      ensures Precedes(ord, i, j)
    {
      LaneBefore(E, n, levels, ord, k, m, i, j);
    }
  }

  lemma LevelMajorGrows(E: set<(int, int)>, n: nat, levels: seq<seq<nat>>, ord: map<nat, nat>)
    requires Staged(E, n, levels) && IsBijection(n, ord) && IsLevelMajor(levels, ord)
    ensures GrowsAlong(E, ord)
  {
    forall i: nat, j: nat | (i as int, j as int) in E && i in ord && j in ord ensures ord[j] < ord[i] {
      EdgeDescends(E, n, levels, i, j);
      hide Staged;
      var k: nat, m: nat :| m < k < |levels| && i in levels[k] && j in levels[m];
      assert Precedes(ord, j, i);
    }
  }

  lemma EdgeDescends(E: set<(int, int)>, n: nat, levels: seq<seq<nat>>, i: nat, j: nat)
    requires Staged(E, n, levels) && i < n && (i as int, j as int) in E
    ensures exists k: nat, m: nat :: m < k < |levels| && i in levels[k] && j in levels[m]
  {
    assert InSomeLevel(levels, i, |levels|);
    var k: nat :| k < |levels| && i in levels[k];
    assert InSomeLevel(levels, j, k);
    var m: nat :| m < k && j in levels[m];
  }

  lemma ValuesOfNumbering(lanes: seq<nat>, ord: map<nat, nat>)
    requires Numbering(lanes, ord)
    ensures forall i :: i in ord ==> ord[i] < |lanes| && lanes[ord[i]] == i
  {
    forall i | i in ord ensures ord[i] < |lanes| && lanes[ord[i]] == i {
      var o :| 0 <= o < |lanes| && lanes[o] == i;
    }
  }

  /** Levels in order; each level in declaration order, whatever order it is listed in. */
  method AssignOrdinals(ghost E: set<(int, int)>, ghost n: nat, levels: seq<seq<nat>>) returns (ord: map<nat, nat>)
    requires Staged(E, n, levels)
    ensures IsBijection(n, ord) && IsLevelMajor(levels, ord) && GrowsAlong(E, ord)
  {
    hide *;
    ord := map[];
    var next := 0;
    NumberingStarts();
    assert levels[..0] == [];
    for k := 0 to |levels|
      invariant Numbering(Flatten(levels[..k]), ord) && next == |Flatten(levels[..k])|
    {
      var nodes := SortKeys(set i | i in levels[k]);
      AlreadySorted(E, n, levels, k, nodes);
      assert Flatten(levels[..k]) + nodes[..0] == Flatten(levels[..k]);
      for a := 0 to |nodes|
        invariant Numbering(Flatten(levels[..k]) + nodes[..a], ord) && next == |Flatten(levels[..k])| + a
      {
        ghost var lanes := Flatten(levels[..k]) + nodes[..a];
        assert lanes + [nodes[a]] == Flatten(levels[..k]) + nodes[..a + 1];
        NotYetNumbered(E, n, levels, k, a);
        NumberNext(lanes, ord, nodes[a]);
        ord := ord[nodes[a] := next];
        next := next + 1;
      }
      assert nodes[..|nodes|] == levels[k];
      FlattenAppend(levels[..k], levels[k]);
      assert levels[..k + 1] == levels[..k] + [levels[k]];
    }
    assert levels[..|levels|] == levels;
    NumberingIsBijection(E, n, levels, ord);
    NumberingIsLevelMajor(E, n, levels, ord);
    LevelMajorGrows(E, n, levels, ord);
  }

  lemma NumberingStarts()
    ensures Numbering(Flatten([]), map[])
  {
  }

  lemma AlreadySorted(E: set<(int, int)>, n: nat, levels: seq<seq<nat>>, k: nat, nodes: seq<nat>)
    requires Staged(E, n, levels) && k < |levels|
    requires Increasing(nodes) && forall i :: i in nodes <==> i in levels[k]
    ensures nodes == levels[k]
  {
    IncreasingUnique(nodes, levels[k]);
  }

  lemma NotYetNumbered(E: set<(int, int)>, n: nat, levels: seq<seq<nat>>, k: nat, a: nat)
    requires Staged(E, n, levels) && k < |levels| && a < |levels[k]|
    ensures levels[k][a] !in Flatten(levels[..k]) + levels[k][..a]
  {
    var lanes := Flatten(levels[..k]) + levels[k][..a];
    if levels[k][a] in lanes {
      var b :| 0 <= b < |lanes| && lanes[b] == levels[k][a];
      if b < |Flatten(levels[..k])| {
        var m, o := FlattenAt(levels[..k], b);
        assert levels[m][o] == levels[k][a];
        SameLevel(E, n, levels, m, o, k, a);
      }
    }
  }

  lemma SameLevel(E: set<(int, int)>, n: nat, levels: seq<seq<nat>>, m: nat, o: nat, k: nat, a: nat)
    requires Staged(E, n, levels) && m < |levels| && k < |levels| && o < |levels[m]| && a < |levels[k]|
    requires levels[m][o] == levels[k][a]
    ensures m == k
  {
    assert levels[m][o] in levels[m] && levels[k][a] in levels[k];
  }

  // The whole run
  // ---------------------------------------------------------------------------

  datatype Outcome<R> =
    | Succeeded
    | FailedOne(deploy: nat)
    | Aborted(causes: seq<nat>)
    | Rejected(plan: DeployPlan<R>)

  lemma OneLaneFailsOnce(log: seq<Event>)
    requires LevelLog([0], log)
    ensures |Failures(log)| <= 1
    ensures Failures(log) != [] ==> Failures(log) == [0]
  {
    FailuresListed(log);
    var fs := Failures(log);
    assert |fs| > 1 ==> fs[0] != fs[1];
    forall a | 0 <= a < |Failures(log)| ensures Failures(log)[a] == 0 {
      FailureIsLogged(log, Failures(log)[a]);
      assert Failures(log)[a] in Failures(log);
    }
  }

  /** What the caller of the run gets to see. */
  function Summary<R>(causes: seq<nat>): (outcome: Outcome<R>)
    ensures !outcome.Rejected?
  {
    if |causes| == 1 then FailedOne(causes[0]) else if |causes| > 0 then Aborted(causes) else Succeeded
  }

  /** What the caller sees of a run that logged what happened. */
  ghost predicate Concludes<R>(log: seq<Event>, outcome: Outcome<R>) {
    match outcome
    case Succeeded => forall d :: Ended(d, true) !in log
    case FailedOne(d) => Ended(d, true) in log && forall x :: Ended(x, true) in log ==> x == d
    case Aborted(cs) => |cs| >= 2 && ListsFailures(log, cs)
    case Rejected(_) => false
  }

  lemma SummaryConcludes<R>(log: seq<Event>)
    requires forall a, b :: 0 <= a < b < |log| && log[a].deploy == log[b].deploy ==> log[a].Began? && log[b].Ended?
    ensures Concludes<R>(log, Summary(Failures(log)))
  {
    FailuresListed(log);
    var cs := Failures(log);
    if |cs| == 1 {
      assert cs[0] in cs;
    } else if |cs| == 0 {
      forall d ensures Ended(d, true) !in log {
        assert d !in cs;
      }
    }
  }

  /** The levels that run log each deploy once. */
  lemma LogsEachOnce(E: set<(int, int)>, n: nat, levels: seq<seq<nat>>, logs: seq<seq<Event>>)
    requires Staged(E, n, levels) && LevelsLog(levels, logs)
    ensures var log := Flatten(logs);
      forall a, b :: 0 <= a < b < |log| && log[a].deploy == log[b].deploy ==> log[a].Began? && log[b].Ended?
  {
    hide *;
    var log := Flatten(logs);
    forall a, b | 0 <= a < b < |log| && log[a].deploy == log[b].deploy ensures log[a].Began? && log[b].Ended? {
      EachRunsAtMostOnce(E, n, levels, logs, a, b);
    }
  }

  /** The levels that have run, none but the last with a failure, and what was collected. */
  ghost predicate RanSoFar(levels: seq<seq<nat>>, fails: nat -> bool, causes: seq<nat>, logs: seq<seq<Event>>) {
    && |logs| <= |levels|
    && (forall k :: 0 <= k < |logs| ==> LevelLog(levels[k], logs[k]))
    && (forall k :: 0 <= k < |logs| - 1 ==> Failures(logs[k]) == [])
    && Reports(fails, Flatten(logs)) && causes == Failures(Flatten(logs))
    && (causes == [] <==> logs == [] || Failures(logs[|logs| - 1]) == [])
  }

  lemma NothingRan(levels: seq<seq<nat>>, fails: nat -> bool)
    ensures RanSoFar(levels, fails, [], [])
  {
  }

  lemma OneLevelMore(levels: seq<seq<nat>>, fails: nat -> bool, logs: seq<seq<Event>>, log: seq<Event>)
    requires RanSoFar(levels, fails, [], logs) && |logs| < |levels|
    requires LevelLog(levels[|logs|], log) && Reports(fails, log)
    ensures RanSoFar(levels, fails, Failures(log), logs + [log])
  {
    hide LevelLog, Reports, Failures, Flatten;
    FlattenAppend(logs, log);
    FailuresConcat(Flatten(logs), log);
    ReportsMore(fails, Flatten(logs), log);
    var longer := logs + [log];
    forall k | 0 <= k < |longer| ensures LevelLog(levels[k], longer[k]) {
    }
  }

  lemma RanIsLevelsLog(levels: seq<seq<nat>>, fails: nat -> bool, causes: seq<nat>, logs: seq<seq<Event>>)
    requires RanSoFar(levels, fails, causes, logs) && (|logs| < |levels| ==> causes != [])
    ensures LevelsLog(levels, logs) && Reports(fails, Flatten(logs)) && causes == Failures(Flatten(logs))
  {
    hide LevelLog, Reports, Failures, Flatten;
    NoFailureYet();
  }

  lemma NoFailureYet()
    ensures Failures(Flatten<Event>([])) == []
  {
  }

  method RunLevels(levels: seq<seq<nat>>, fails: nat -> bool) returns (causes: seq<nat>, logs: seq<seq<Event>>)
    ensures LevelsLog(levels, logs) && Reports(fails, Flatten(logs)) && causes == Failures(Flatten(logs))
  {
    hide RanSoFar, LevelsLog, LevelLog, Reports, Failures, Flatten;
    causes, logs := [], [];
    NothingRan(levels, fails);
    for k := 0 to |levels|
      invariant |logs| == k && RanSoFar(levels, fails, causes, logs)
    {
      if |causes| > 0 {
        RanIsLevelsLog(levels, fails, causes, logs);
        return;
      }
      var levelCauses, log := RunLevel(levels[k], fails);
      OneLevelMore(levels, fails, logs, log);
      assert causes == [] && causes + levelCauses == levelCauses;
      causes, logs := causes + levelCauses, logs + [log];
    }
    RanIsLevelsLog(levels, fails, causes, logs);
  }

  /** The shortcut for a single lane. */
  method RunSingle<R(!new)>(fails: nat -> bool) returns (outcome: Outcome<R>, logs: seq<seq<Event>>)
    ensures LevelsLog([[0]], logs) && Reports(fails, Flatten(logs)) && Concludes(Flatten(logs), outcome)
  {
    var causes, log := RunLevel([0], fails);
    OneLaneFailsOnce(log);
    SummaryConcludes<R>(log);
    FlattenAppend([], log);
    assert [] + [log] == [log] && Flatten([]) + log == log;
    return (if |causes| > 0 then FailedOne(0) else Succeeded), [log];
  }

  /** One deploy runs on its own, without a graph. Otherwise the graph must build, every deploy gets a lane,
      and the levels run in order. A single failure is returned as it is, several as a list. */
  method RunPlansConcurrent<R(==, !new)>(supplies: seq<seq<R>>, needs: seq<seq<R>>, fails: nat -> bool)
    returns (outcome: Outcome<R>, ord: map<nat, nat>, levels: seq<seq<nat>>, logs: seq<seq<Event>>)
    requires |supplies| == |needs|
    ensures |supplies| == 1 ==> levels == [[0]] && ord == map[0 := 0] && !outcome.Rejected?
    ensures |supplies| != 1 ==>
      (outcome.Rejected? <==> (exists r :: Ambiguous(supplies, r)) || !Acyclic(NeedEdges(supplies, needs)))
    ensures outcome.Rejected? ==>
      !outcome.plan.Levels? && IsPlan(supplies, needs, outcome.plan) && levels == [] && logs == []
    ensures |supplies| != 1 && !outcome.Rejected? ==>
      && IsPlan(supplies, needs, Levels(levels))
      && IsBijection(|supplies|, ord) && IsLevelMajor(levels, ord) && GrowsAlong(NeedEdges(supplies, needs), ord)
    ensures !outcome.Rejected? ==>
      LevelsLog(levels, logs) && Reports(fails, Flatten(logs)) && Concludes(Flatten(logs), outcome)
  {
    hide *;
    if |supplies| == 1 {
      outcome, logs := RunSingle(fails);
      NotRejected(Flatten(logs), outcome);
      return outcome, map[0 := 0], [[0]], logs;
    }
    var plan := BuildDeployGraph(supplies, needs);
    if !plan.Levels? {
      return Rejected(plan), map[], [], [];
    }
    levels := plan.levels;
    PlannedIsStaged(supplies, needs, levels);
    ord := AssignOrdinals(NeedEdges(supplies, needs), |supplies|, levels);
    var causes: seq<nat>;
    causes, logs := RunLevels(levels, fails);
    LogsEachOnce(NeedEdges(supplies, needs), |supplies|, levels, logs);
    SummaryConcludes<R>(Flatten(logs));
    outcome := Summary(causes);
  }

  lemma PlannedIsStaged<R(!new)>(supplies: seq<seq<R>>, needs: seq<seq<R>>, levels: seq<seq<nat>>)
    requires IsPlan(supplies, needs, Levels(levels))
    ensures Staged(NeedEdges(supplies, needs), |supplies|, levels)
  {
  }

  lemma NotRejected<R>(log: seq<Event>, outcome: Outcome<R>)
    requires Concludes(log, outcome)
    ensures !outcome.Rejected?
  {
  }
}
