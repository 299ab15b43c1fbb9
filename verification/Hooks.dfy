/** Hooks that run after the steps of a deploy (executeHooks and stepChanged in internal/engine/hooks.go):
    a queue that grows while it is worked off. */
module Hooks {
  import opened Graph
  import Cycles

  datatype Summary = Summary(changed: nat, wouldChange: nat)

  /** What running or checking one hook step gives. */
  datatype Answer = Answer(summary: Summary, failed: bool)

  datatype Report<H> = Report(hook: H, step: nat, index: nat, answer: Answer)

  /** Everything the loop looks at. onChange is keyed by step position, counts gives the number of planned
      steps of each planned hook, chains the on_change lists of the steps of each configured hook, and
      answer what each hook step will report. */
  datatype Setting<!H> = Setting(
    steps: seq<Summary>,
    onChange: map<nat, seq<H>>,
    counts: map<H, nat>,
    chains: map<H, seq<seq<H>>>,
    answer: (H, nat) -> Answer,
    checkOnly: bool)

  predicate StepChanged(s: Summary, checkOnly: bool) {
    if checkOnly then s.wouldChange > 0 else s.changed > 0
  }

  /** A check counts what would change, an apply what did; neither looks at the other count. */
  ghost predicate DidChange(s: Summary, checkOnly: bool) {
    (checkOnly && s.wouldChange != 0) || (!checkOnly && s.changed != 0)
  }

  // Who is notified
  // ---------------------------------------------------------------------------

  ghost function Notified<H>(c: Setting<H>, i: nat): seq<H>
    requires i < |c.steps|
  {
    if i in c.onChange && DidChange(c.steps[i], c.checkOnly) then c.onChange[i] else []
  }

  /** What the first k steps notify. */
  ghost function Direct<H>(c: Setting<H>, k: nat): seq<H>
    requires k <= |c.steps|
  {
    if k == 0 then [] else Direct(c, k - 1) + Notified(c, k - 1)
  }

  ghost function Join<H>(lists: seq<seq<H>>): seq<H> {
    if lists == [] then [] else Join(lists[..|lists| - 1]) + lists[|lists| - 1]
  }

  ghost function ChainOf<H>(c: Setting<H>, h: H): seq<H> {
    if h in c.chains then Join(c.chains[h]) else []
  }

  /** A planned hook one of whose steps changes something. */
  ghost predicate Changed<H>(c: Setting<H>, h: H) {
    h in c.counts && exists j: nat :: j < c.counts[h] && DidChange(c.answer(h, j).summary, c.checkOnly)
  }

  ghost predicate Fails<H>(c: Setting<H>, h: H) {
    h in c.counts && exists j: nat :: j < c.counts[h] && c.answer(h, j).failed
  }

  ghost function ChainedBy<H>(c: Setting<H>, h: H): seq<H> {
    if Changed(c, h) then ChainOf(c, h) else []
  }

  /** Every notification, first by the steps and then by the hooks that ran, in the order in which they come. */
  ghost function Notices<H>(c: Setting<H>, ran: seq<H>): seq<H> {
    if ran == [] then Direct(c, |c.steps|)
    else Notices(c, ran[..|ran| - 1]) + ChainedBy(c, ran[|ran| - 1])
  }

  ghost function FirstOccurrences<H>(s: seq<H>): seq<H> {
    if s == [] then []
    else
      var firsts := FirstOccurrences(s[..|s| - 1]);
      if s[|s| - 1] in firsts then firsts else firsts + [s[|s| - 1]]
  }

  /** Hook h notifies hook g. */
  ghost function ChainEdges<H>(c: Setting<H>): set<(H, H)> {
    set h, g | h in c.chains && g in ChainedBy(c, h) :: (h, g)
  }

  /** The first `ran` hooks of the queue have run: the queue lists who was notified so far, in order of the
      first notice, and everyone was notified by a step or by a hook that stands earlier. */
  ghost predicate NotificationOrder<H(!new)>(c: Setting<H>, queue: seq<H>, ran: nat)
    requires ran <= |queue|
  {
    && queue == FirstOccurrences(Notices(c, queue[..ran]))
    && forall p {:trigger NoticedEarlier(c, queue, p, ran)} :: 0 <= p < |queue| ==> NoticedEarlier(c, queue, p, ran)
  }

  ghost predicate NoticedEarlier<H(!new)>(c: Setting<H>, queue: seq<H>, p: nat, ran: nat)
    requires p < |queue| && ran <= |queue|
  {
    queue[p] in Notices(c, queue[..if p < ran then p else ran])
  }

  // First occurrences
  // ---------------------------------------------------------------------------

  lemma {:induction false} FirstsMembers<H>(s: seq<H>)
    ensures forall x :: x in FirstOccurrences(s) <==> x in s
    ensures forall a, b :: 0 <= a < b < |FirstOccurrences(s)| ==> FirstOccurrences(s)[a] != FirstOccurrences(s)[b]
    decreases |s|
  {
    if s != [] {
      FirstsMembers(s[..|s| - 1]);
      assert s == s[..|s| - 1] + [s[|s| - 1]];
    }
  }

  lemma FirstsAppend<H>(s: seq<H>, x: H)
    ensures FirstOccurrences(s + [x]) ==
      if x in FirstOccurrences(s) then FirstOccurrences(s) else FirstOccurrences(s) + [x]
  {
    assert (s + [x])[..|s|] == s;
  }

  lemma NoticesStep<H>(c: Setting<H>, ran: seq<H>, h: H)
    ensures Notices(c, ran + [h]) == Notices(c, ran) + ChainedBy(c, h)
  {
    assert (ran + [h])[..|ran|] == ran;
  }

  lemma {:induction false} NoticesGrow<H>(c: Setting<H>, ran: seq<H>, k: nat)
    requires k <= |ran|
    ensures Notices(c, ran[..k]) <= Notices(c, ran)
    decreases |ran|
  {
    if k == |ran| {
      assert ran[..k] == ran;
    } else {
      NoticesGrow(c, ran[..|ran| - 1], k);
      assert ran[..|ran| - 1][..k] == ran[..k];
    }
  }

  lemma {:induction false} NoticeSource<H>(c: Setting<H>, ran: seq<H>, x: H) returns (p: int)
    requires x in Notices(c, ran)
    ensures p == -1 ==> x in Direct(c, |c.steps|)
    ensures p != -1 ==> 0 <= p < |ran| && x in ChainedBy(c, ran[p])
    decreases |ran|
  {
    if ran == [] {
      p := -1;
    } else if x in Notices(c, ran[..|ran| - 1]) {
      p := NoticeSource(c, ran[..|ran| - 1], x);
    } else {
      p := |ran| - 1;
    }
  }

  lemma {:induction false} ChainIsNoticed<H>(c: Setting<H>, ran: seq<H>, p: nat, x: H)
    requires p < |ran| && x in ChainedBy(c, ran[p])
    ensures x in Notices(c, ran)
    decreases |ran|
  {
    if p < |ran| - 1 {
      ChainIsNoticed(c, ran[..|ran| - 1], p, x);
    }
  }

  lemma DirectIsNoticed<H>(c: Setting<H>, ran: seq<H>, x: H)
    requires x in Direct(c, |c.steps|)
    ensures x in Notices(c, ran)
  {
    NoticesGrow(c, ran, 0);
    assert ran[..0] == [];
  }

  // The notified hooks are the least closed set
  // ---------------------------------------------------------------------------

  lemma {:induction false} QueuedIsReached<H(!new)>(c: Setting<H>, queue: seq<H>, ran: nat, p: nat)
    requires ran <= |queue| && NotificationOrder(c, queue, ran) && p < |queue|
    ensures Cycles.FromRoots(ChainEdges(c), Direct(c, |c.steps|), queue[p])
    decreases p
  {
    assert NoticedEarlier(c, queue, p, ran);
    var before := queue[..if p < ran then p else ran];
    var q := NoticeSource(c, before, queue[p]);
    if q != -1 {
      assert before[q] == queue[q];
      QueuedIsReached(c, queue, ran, q);
      assert (queue[q], queue[p]) in ChainEdges(c);
      Cycles.FromRootsStep(ChainEdges(c), Direct(c, |c.steps|), queue[q], queue[p]);
    }
  }

  lemma {:induction false} ReachedIsQueued<H(!new)>(c: Setting<H>, queue: seq<H>, p: seq<H>)
    requires NotificationOrder(c, queue, |queue|)
    requires IsPath(ChainEdges(c), p) && p[0] in queue
    ensures p[|p| - 1] in queue
    decreases |p|
  {
    if |p| > 1 {
      assert (p[0], p[0 + 1]) in ChainEdges(c);
      QueueIsClosed(c, queue, p[0], p[1]);
      PathSuffix(ChainEdges(c), p, 1);
      ReachedIsQueued(c, queue, p[1..]);
    }
  }

  lemma QueueIsClosed<H(!new)>(c: Setting<H>, queue: seq<H>, h: H, g: H)
    requires NotificationOrder(c, queue, |queue|)
    requires h in queue && (h, g) in ChainEdges(c)
    ensures g in queue
  {
    assert queue[..|queue|] == queue;
    var q :| 0 <= q < |queue| && queue[q] == h;
    ChainIsNoticed(c, queue, q, g);
    FirstsMembers(Notices(c, queue));
  }

  /** When the whole queue has run, the queued hooks are exactly those that a changed step notifies or that
      can be reached from these through hooks that changed. Chains may be cyclic. */
  lemma NotifiedIsLeast<H(!new)>(c: Setting<H>, queue: seq<H>, h: H)
    requires NotificationOrder(c, queue, |queue|)
    ensures h in queue <==> Cycles.FromRoots(ChainEdges(c), Direct(c, |c.steps|), h)
  {
    var E, direct := ChainEdges(c), Direct(c, |c.steps|);
    assert queue[..|queue|] == queue;
    FirstsMembers(Notices(c, queue));
    if h in queue {
      var p :| 0 <= p < |queue| && queue[p] == h;
      QueuedIsReached(c, queue, |queue|, p);
    } else if Cycles.FromRoots(E, direct, h) {
      if h in direct {
        DirectIsNoticed(c, queue, h);
      } else {
        var r :| r in direct && Reaches(E, r, h);
        DirectIsNoticed(c, queue, r);
        var p: seq<H> :| IsPath(E, p) && |p| >= 2 && p[0] == r && p[|p| - 1] == h;
        ReachedIsQueued(c, queue, p);
      }
    }
  }

  /** It is contained in every set that holds the directly notified hooks and is closed under the chains. */
  lemma {:induction false} NotifiedInEveryClosedSet<H(!new)>(c: Setting<H>, queue: seq<H>, ran: nat, S: set<H>, p: nat)
    requires ran <= |queue| && NotificationOrder(c, queue, ran) && p < |queue|
    requires forall x :: x in Direct(c, |c.steps|) ==> x in S
    requires forall h, g :: h in S && g in ChainedBy(c, h) ==> g in S
    ensures queue[p] in S
    decreases p
  {
    assert NoticedEarlier(c, queue, p, ran);
    var before := queue[..if p < ran then p else ran];
    var q := NoticeSource(c, before, queue[p]);
    if q != -1 {
      assert before[q] == queue[q];
      NotifiedInEveryClosedSet(c, queue, ran, S, q);
    }
  }

  // Reports
  // ---------------------------------------------------------------------------

  /** The steps of h that run: all of them, or those up to the first that fails. */
  ghost predicate RunsSteps<H(!new)>(c: Setting<H>, h: H, n: nat) {
    && n <= (if h in c.counts then c.counts[h] else 0)
    && (forall j: nat :: j + 1 < n ==> !c.answer(h, j).failed)
    && (if Fails(c, h) then n > 0 && c.answer(h, n - 1).failed
        else n == if h in c.counts then c.counts[h] else 0)
  }

  ghost function StepsRun<H(!new)>(c: Setting<H>, h: H): (n: nat)
    ensures RunsSteps(c, h, n)
  {
    StepsRunExists(c, h, 0);
    var n: nat :| RunsSteps(c, h, n);
    n
  }

  lemma {:induction false} StepsRunExists<H(!new)>(c: Setting<H>, h: H, k: nat)
    requires k <= if h in c.counts then c.counts[h] else 0
    requires forall j: nat :: j < k ==> !c.answer(h, j).failed
    ensures exists n: nat :: RunsSteps(c, h, n)
    decreases (if h in c.counts then c.counts[h] else 0) - k
  {
    if h !in c.counts || k == c.counts[h] {
      assert RunsSteps(c, h, k);
    } else if c.answer(h, k).failed {
      assert RunsSteps(c, h, k + 1);
    } else {
      StepsRunExists(c, h, k + 1);
    }
  }

  ghost function HookReports<H(!new)>(c: Setting<H>, h: H, n: nat, base: nat): (r: seq<Report<H>>)
    ensures |r| == n
    ensures forall j :: 0 <= j < n ==> r[j] == Report(h, j, base + j, c.answer(h, j))
  {
    seq(n, j requires 0 <= j < n => Report(h, j, base + j, c.answer(h, j)))
  }

  /** The reports of the hooks that ran, numbered on from the steps. */
  ghost function AllReports<H(!new)>(c: Setting<H>, ran: seq<H>): seq<Report<H>> {
    if ran == [] then []
    else
      var before := AllReports(c, ran[..|ran| - 1]);
      before + HookReports(c, ran[|ran| - 1], StepsRun(c, ran[|ran| - 1]), |c.steps| + |before|)
  }

  /** Indices continue the step numbers without gap or repetition. */
  lemma {:induction false} IndicesContinue<H(!new)>(c: Setting<H>, ran: seq<H>, k: nat)
    requires k < |AllReports(c, ran)|
    ensures AllReports(c, ran)[k].index == |c.steps| + k
    decreases |ran|
  {
    var before := AllReports(c, ran[..|ran| - 1]);
    if k < |before| {
      IndicesContinue(c, ran[..|ran| - 1], k);
    }
  }

  lemma {:induction false} ReportsFromRan<H(!new)>(c: Setting<H>, ran: seq<H>, k: nat)
    requires k < |AllReports(c, ran)|
    ensures AllReports(c, ran)[k].hook in ran
    decreases |ran|
  {
    var before := AllReports(c, ran[..|ran| - 1]);
    if k < |before| {
      ReportsFromRan(c, ran[..|ran| - 1], k);
    }
  }

  /** Each step of each hook is reported at most once: no hook fires twice. */
  lemma {:induction false} FiresAtMostOnce<H(!new)>(c: Setting<H>, ran: seq<H>, a: nat, b: nat)
    requires forall x, y :: 0 <= x < y < |ran| ==> ran[x] != ran[y]
    requires a < b < |AllReports(c, ran)|
    ensures AllReports(c, ran)[a].hook == AllReports(c, ran)[b].hook ==>
      AllReports(c, ran)[a].step < AllReports(c, ran)[b].step
    decreases |ran|
  {
    var init := ran[..|ran| - 1];
    var before := AllReports(c, init);
    if b < |before| {
      FiresAtMostOnce(c, init, a, b);
    } else if a < |before| {
      ReportsFromRan(c, init, a);
    }
  }

  lemma StepsRunUnique<H(!new)>(c: Setting<H>, h: H, n: nat)
    requires RunsSteps(c, h, n)
    ensures n == StepsRun(c, h)
  {
    var m := StepsRun(c, h);
    assert RunsSteps(c, h, m);
    assert n < m ==> n - 1 + 1 < m;
    assert m < n ==> m - 1 + 1 < n;
  }

  // The loop
  // ---------------------------------------------------------------------------

  /** Appends the hooks of ids that were not notified before. s is the list of all notices so far. */
  method Enqueue<H(==)>(queue0: seq<H>, notified0: set<H>, ids: seq<H>, ghost s: seq<H>)
    returns (queue: seq<H>, notified: set<H>)
    requires queue0 == FirstOccurrences(s) && notified0 == set x | x in queue0
    ensures queue == FirstOccurrences(s + ids) && notified == set x | x in queue
    ensures queue0 <= queue
  {
    hide FirstOccurrences;
    queue, notified := queue0, notified0;
    assert s + ids[..0] == s;
    for k := 0 to |ids|
      invariant queue == FirstOccurrences(s + ids[..k]) && notified == set x | x in queue
      invariant queue0 <= queue
    {
      assert s + ids[..k + 1] == (s + ids[..k]) + [ids[k]];
      FirstsAppend(s + ids[..k], ids[k]);
      if ids[k] !in notified {
        notified := notified + {ids[k]};
        queue := queue + [ids[k]];
      }
    }
    assert ids[..|ids|] == ids;
  }

  /** The hooks notified by the steps. */
  method CollectNotified<H(==, !new)>(c: Setting<H>) returns (queue: seq<H>, notified: set<H>)
    ensures queue == FirstOccurrences(Direct(c, |c.steps|)) && notified == set x | x in queue
  {
    queue, notified := [], {};
    for i := 0 to |c.steps|
      invariant queue == FirstOccurrences(Direct(c, i)) && notified == set x | x in queue
    {
      if i in c.onChange && StepChanged(c.steps[i], c.checkOnly) {
        queue, notified := Enqueue(queue, notified, c.onChange[i], Direct(c, i));
      } else {
        assert Direct(c, i + 1) == Direct(c, i);
      }
    }
  }

  /** The hooks notified by a hook that changed something. */
  method Chain<H(==, !new)>(c: Setting<H>, h: H, queue0: seq<H>, notified0: set<H>, ghost s: seq<H>)
    returns (queue: seq<H>, notified: set<H>)
    requires queue0 == FirstOccurrences(s) && notified0 == set x | x in queue0
    ensures queue == FirstOccurrences(s + ChainOf(c, h)) && notified == set x | x in queue
    ensures queue0 <= queue
  {
    queue, notified := queue0, notified0;
    if h in c.chains {
      var lists := c.chains[h];
      assert s + Join(lists[..0]) == s;
      for k := 0 to |lists|
        invariant queue == FirstOccurrences(s + Join(lists[..k])) && notified == set x | x in queue
        invariant queue0 <= queue
      {
        queue, notified := Enqueue(queue, notified, lists[k], s + Join(lists[..k]));
        assert lists[..k + 1][..k] == lists[..k];
        assert s + Join(lists[..k]) + lists[k] == s + Join(lists[..k + 1]);
      }
      assert lists[..|lists|] == lists;
    } else {
      assert s + [] == s;
    }
  }

  /** Runs the steps of one hook until one fails. */
  method RunHook<H(==, !new)>(c: Setting<H>, h: H, base: nat)
    returns (reports: seq<Report<H>>, changed: bool, failed: bool)
    requires h in c.counts
    ensures reports == HookReports(c, h, StepsRun(c, h), base)
    ensures failed <==> Fails(c, h)
    ensures !failed ==> (changed <==> Changed(c, h))
  {
    reports, changed, failed := [], false, false;
    for j := 0 to c.counts[h]
      invariant reports == HookReports(c, h, j, base)
      invariant !failed && forall i: nat :: i < j ==> !c.answer(h, i).failed
      invariant changed <==> exists i: nat :: i < j && DidChange(c.answer(h, i).summary, c.checkOnly)
    {
      var answer := c.answer(h, j);
      reports := reports + [Report(h, j, base + |reports|, answer)];
      if StepChanged(answer.summary, c.checkOnly) {
        changed := true;
      }
      if answer.failed {
        failed := true;
        StepsRunUnique(c, h, j + 1);
        return;
      }
    }
    StepsRunUnique(c, h, c.counts[h]);
  }

  /** Hooks that can be mentioned at all. */
  ghost function Universe<H(!new)>(c: Setting<H>): set<H> {
    (set x | x in Direct(c, |c.steps|)) + (set h, x | h in c.chains && x in ChainOf(c, h) :: x)
  }

  lemma NoticesInUniverse<H(!new)>(c: Setting<H>, ran: seq<H>, x: H)
    requires x in Notices(c, ran)
    ensures x in Universe(c)
  {
    var p := NoticeSource(c, ran, x);
  }

  lemma OrderStarts<H(!new)>(c: Setting<H>, queue: seq<H>)
    requires queue == FirstOccurrences(Direct(c, |c.steps|))
    ensures NotificationOrder(c, queue, 0)
  {
    assert queue[..0] == [];
    FirstsMembers(Direct(c, |c.steps|));
    forall p | 0 <= p < |queue| ensures NoticedEarlier(c, queue, p, 0) {
      assert queue[p] in queue;
    }
  }

  lemma OrderAdvances<H(!new)>(c: Setting<H>, queue: seq<H>, i: nat, queue': seq<H>)
    requires i < |queue| && NotificationOrder(c, queue, i) && queue <= queue'
    requires queue' == FirstOccurrences(Notices(c, queue[..i]) + ChainedBy(c, queue[i]))
    ensures NotificationOrder(c, queue', i + 1)
  {
    assert queue'[..i + 1] == queue[..i] + [queue[i]];
    NoticesStep(c, queue[..i], queue[i]);
    FirstsMembers(Notices(c, queue'[..i + 1]));
    var next := i + 1;
    forall p | 0 <= p < |queue'| ensures NoticedEarlier(c, queue', p, next) {
      if p <= i {
        assert NoticedEarlier(c, queue, p, i);
        assert queue'[..p] == queue[..p];
      } else {
        assert queue'[p] in queue';
      }
    }
  }

  lemma ReportsStep<H(!new)>(c: Setting<H>, ran: seq<H>, h: H)
    ensures AllReports(c, ran + [h]) ==
      AllReports(c, ran) + HookReports(c, h, StepsRun(c, h), |c.steps| + |AllReports(c, ran)|)
  {
    assert (ran + [h])[..|ran|] == ran;
  }

  lemma QueueFacts<H(!new)>(c: Setting<H>, queue: seq<H>, i: nat)
    requires i < |queue| && NotificationOrder(c, queue, i)
    ensures queue == FirstOccurrences(Notices(c, queue[..i]))
    ensures queue[i] in Universe(c) && queue[i] !in queue[..i]
  {
    FirstsMembers(Notices(c, queue[..i]));
    assert queue[i] in queue;
    NoticesInUniverse(c, queue[..i], queue[i]);
  }

  lemma ChainedByIs<H(!new)>(c: Setting<H>, h: H)
    ensures ChainedBy(c, h) == if Changed(c, h) then ChainOf(c, h) else []
  {
  }

  lemma NoReportsYet<H(!new)>(c: Setting<H>)
    ensures AllReports(c, []) == []
  {
  }

  lemma UnplannedIsSilent<H(!new)>(c: Setting<H>, h: H)
    requires h !in c.counts
    ensures StepsRun(c, h) == 0 && !Changed(c, h) && !Fails(c, h)
  {
  }

  /** Works off the queue. queue is its final content and ran the number of its hooks that ran without error.
      The source also skips hooks it has executed before; the queue never holds one twice. */
  method ExecuteHooks<H(==, !new)>(c: Setting<H>)
    returns (reports: seq<Report<H>>, failed: bool, ghost queue: seq<H>, ghost ran: nat)
    ensures |c.counts| == 0 ==> reports == [] && !failed
    ensures |c.counts| != 0 ==> ran <= |queue| && NotificationOrder(c, queue, ran)
    ensures |c.counts| != 0 ==> forall p :: 0 <= p < ran ==> !Fails(c, queue[p])
    ensures |c.counts| != 0 && !failed ==> ran == |queue| && reports == AllReports(c, queue)
    ensures |c.counts| != 0 && failed ==>
      ran < |queue| && Fails(c, queue[ran]) && reports == AllReports(c, queue[..ran + 1])
  {
    hide *;
    reports, failed, queue, ran := [], false, [], 0;
    if |c.counts| == 0 {
      return;
    }
    var work, notified := CollectNotified(c);
    OrderStarts(c, work);
    assert work[..0] == [];
    NoReportsYet(c);
    var executed: set<H> := {};
    var i := 0;
    while i < |work|
      invariant i <= |work| && NotificationOrder(c, work, i)
      invariant notified == set x | x in work
      invariant executed == set x | x in work[..i]
      invariant reports == AllReports(c, work[..i]) && !failed
      invariant forall p :: 0 <= p < i ==> !Fails(c, work[p])
      decreases Universe(c) - executed
    {
      var h := work[i];
      ghost var notices := Notices(c, work[..i]);
      QueueFacts(c, work, i);
      ChainedByIs(c, h);
      if h !in executed {
        executed := executed + {h};
        ghost var before := work;
        ReportsStep(c, before[..i], h);
        assert before[..i + 1] == before[..i] + [h];
        assert notices + [] == notices;
        if h in c.counts {
          var rs, changed;
          rs, changed, failed := RunHook(c, h, |c.steps| + |reports|);
          reports := reports + rs;
          if failed {
            queue, ran := work, i;
            return;
          }
          if changed {
            work, notified := Chain(c, h, work, notified, notices);
          }
        } else {
          UnplannedIsSilent(c, h);
        }
        OrderAdvances(c, before, i, work);
        assert work[..i + 1] == before[..i + 1];
      }
      i := i + 1;
    }
    assert work[..i] == work;
    queue, ran := work, i;
  }
}
