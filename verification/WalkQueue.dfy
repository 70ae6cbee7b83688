/** When a full directory queue can block a walk: exactly when the queue and the scanners
  together cannot hold more directories than are reachable. */
module WalkQueue {
  import opened DirectoryWalk
  import opened WalkResults
  import opened WalkEffort

  /** No scanner and no pending trigger can move. */
  ghost predicate Stuck(fs: Tree, s: State) {
    forall step :: Enabled(fs, s, step) ==> step.Trigger?
  }

  predicate Jammed(s: State) {
    |s.queue| == s.capacity && forall w :: 0 <= w < |s.workers| ==> s.workers[w].Sending?
  }

  lemma {:induction false} QueueFits(fs: Tree, capacity: nat, scanners: nat, steps: seq<Step>)
    ensures |Exec(fs, Initial(capacity, scanners), steps).queue| <= capacity
    ensures Exec(fs, Initial(capacity, scanners), steps).capacity == capacity
  {
    if steps != [] { QueueFits(fs, capacity, scanners, steps[..|steps| - 1]); }
  }

  lemma JammedIsStuck(fs: Tree, s: State)
    requires Jammed(s)
    ensures s.workers != [] ==> Stuck(fs, s)
  {
  }

  lemma StuckWorkers(fs: Tree, s: State)
    requires Stuck(fs, s) && AllOk(fs, s.workers)
    ensures forall w :: 0 <= w < |s.workers| ==> !s.workers[w].Scanning?
    ensures s.queue != [] ==> forall w :: 0 <= w < |s.workers| ==> !s.workers[w].Idle?
    ensures |s.queue| < s.capacity ==> s.announced == [] && forall w :: 0 <= w < |s.workers| ==> !s.workers[w].Sending?
  {
    forall w | 0 <= w < |s.workers| ensures !s.workers[w].Scanning? {
      assert !Enabled(fs, s, Look(w)) && !Enabled(fs, s, Finish(w));
    }
    forall w | 0 <= w < |s.workers| ensures !(s.queue != [] && s.workers[w].Idle?) { assert !Enabled(fs, s, Take(w)); }
    forall w | 0 <= w < |s.workers| ensures !(|s.queue| < s.capacity && s.workers[w].Sending?) {
      assert !Enabled(fs, s, Push(w));
    }
    assert !Enabled(fs, s, Send(0));
  }

  /** A walk that is not finished stops moving exactly when every scanner wants to queue a
    subdirectory and the queue is full. */
  lemma StuckIsJammed(fs: Tree, capacity: nat, scanners: nat, steps: seq<Step>)
    requires capacity >= 1 && scanners >= 1
    ensures var s := Exec(fs, Initial(capacity, scanners), steps);
            s.counter > 0 ==> (Stuck(fs, s) <==> Jammed(s))
  {
    var s := Exec(fs, Initial(capacity, scanners), steps);
    EveryRunBalances(fs, capacity, scanners, steps, []);
    QueueFits(fs, capacity, scanners, steps);
    hide Exec, Known, Total, Count, AllSubdirs, AllFiles, Enabled;
    if s.counter > 0 && Stuck(fs, s) {
      StuckWorkers(fs, s);
      assert !s.workers[0].Scanning?;
      if forall w :: 0 <= w < |s.workers| ==> s.workers[w].Idle? { IdleTotal(fs, s.workers, []); }
    }
    if Jammed(s) { JammedIsStuck(fs, s); }
  }

  /** The directories in the scanners' hands. */
  function Hands(fs: Tree, ws: seq<Worker>): seq<Path>
    requires forall i :: 0 <= i < |ws| ==> WorkerOk(fs, ws[i])
  {
    if ws == [] then [] else Hands(fs, ws[..|ws| - 1]) + InHand(fs, ws[|ws| - 1])
  }

  function InHand(fs: Tree, w: Worker): seq<Path>
    requires WorkerOk(fs, w)
  {
    match w
    case Idle => []
    case Scanning(d, _) => [d]
    case Sending(d, n) => [d] + [Child(d, Entries(fs, d)[n])]
  }

  lemma InHandCount(fs: Tree, w: Worker, p: Path)
    requires WorkerOk(fs, w)
    ensures Count(InHand(fs, w), p) == Holds(fs, w, p).hand && |InHand(fs, w)| == Holds(fs, w, p).weight
  {
    match w
    case Idle =>
    case Scanning(d, n) =>
      CountOne(d, p);
      hide Count, Subdirs, Files;
    case Sending(d, n) =>
      CountOne(d, p);
      CountSnoc([d], Child(d, Entries(fs, d)[n]), p);
      hide Count, Subdirs, Files;
  }

  lemma {:induction false} HandsCount(fs: Tree, ws: seq<Worker>, p: Path)
    requires AllOk(fs, ws)
    ensures Count(Hands(fs, ws), p) == Total(fs, ws, p).hand && |Hands(fs, ws)| == Total(fs, ws, p).weight
  {
    if ws != [] {
      hide Holds, InHand, Count;
      var n := |ws| - 1;
      HandsCount(fs, ws[..n], p);
      InHandCount(fs, ws[n], p);
      CountConcat(Hands(fs, ws[..n]), InHand(fs, ws[n]), p);
    }
  }

  lemma {:induction false} DistinctFit(t: seq<Path>, w: set<Path>)
    requires forall p :: Count(t, p) <= if p in w then 1 else 0
    ensures |t| <= |w|
  {
    if t != [] {
      var last := t[|t| - 1];
      assert Count(t, last) >= 1;
      forall p ensures Count(t[..|t| - 1], p) <= if p in w - {last} then 1 else 0 {
        assert Count(t, p) <= if p in w then 1 else 0;
      }
      DistinctFit(t[..|t| - 1], w - {last});
    }
  }

  /** After a single trigger the wait group never exceeds the number of reachable directories. */
  lemma CounterFits(fs: Tree, capacity: nat, scanners: nat, steps: seq<Step>, root: Path, dirs: set<Path>)
    requires IsTree(fs) && Exec(fs, Initial(capacity, scanners), steps).triggered == [root]
    requires forall p :: Walkable(fs, root, p) ==> p in dirs
    ensures Exec(fs, Initial(capacity, scanners), steps).counter <= |dirs|
  {
    hide Exec, Lists, Walkable, Visits;
    var s := Exec(fs, Initial(capacity, scanners), steps);
    EveryRunBalances(fs, capacity, scanners, steps, []);
    hide Total, AllSubdirs, AllFiles, Count, Hands;
    var open := s.queue + s.announced + Hands(fs, s.workers);
    forall p ensures Count(open, p) <= if p in dirs then 1 else 0 {
      NeverTooOften(fs, capacity, scanners, steps, p);
      OneRootVisits(fs, root, p);
      HandsCount(fs, s.workers, p);
      CountConcat(s.queue, s.announced, p);
      CountConcat(s.queue + s.announced, Hands(fs, s.workers), p);
    }
    HandsCount(fs, s.workers, []);
    DistinctFit(open, dirs);
  }

  lemma {:induction false} AllSendingWeight(fs: Tree, ws: seq<Worker>, p: Path)
    requires AllOk(fs, ws) && forall i :: 0 <= i < |ws| ==> ws[i].Sending?
    ensures Total(fs, ws, p).weight == 2 * |ws|
  {
    if ws != [] {
      hide Count, Subdirs, Files;
      AllSendingWeight(fs, ws[..|ws| - 1], p);
    }
  }

  /** If the queue and the scanners can hold more directories than are reachable, a single
    scan never blocks: it stops moving only when it is complete. */
  lemma LargeQueueCompletes(fs: Tree, capacity: nat, scanners: nat, steps: seq<Step>, root: Path, dirs: set<Path>)
    requires capacity >= 1 && scanners >= 1 && IsTree(fs)
    requires Exec(fs, Initial(capacity, scanners), steps).triggered == [root]
    requires forall p :: Walkable(fs, root, p) ==> p in dirs
    requires |dirs| < capacity + 2 * scanners
    ensures var s := Exec(fs, Initial(capacity, scanners), steps);
            Stuck(fs, s) ==> s.counter == 0
  {
    hide Exec, Lists, Walkable, Stuck;
    var s := Exec(fs, Initial(capacity, scanners), steps);
    EveryRunBalances(fs, capacity, scanners, steps, []);
    StuckIsJammed(fs, capacity, scanners, steps);
    CounterFits(fs, capacity, scanners, steps, root, dirs);
    hide Total, AllSubdirs, AllFiles, Count;
    if Jammed(s) { AllSendingWeight(fs, s.workers, []); }
  }

  lemma {:induction false} MovesKeepTriggers(fs: Tree, s: State, steps: seq<Step>)
    requires Moves(fs, s, steps)
    ensures Exec(fs, s, steps).triggered == s.triggered
  {
    if steps != [] { MovesKeepTriggers(fs, s, steps[..|steps| - 1]); }
  }

  /** With such a queue, every single scan that goes on while it can ends complete, and always
    after the same number of steps. */
  lemma EveryScanCompletes(fs: Tree, capacity: nat, scanners: nat, before: seq<Step>, root: Path, dirs: set<Path>)
      returns (cost: nat)
    requires capacity >= 1 && scanners >= 1 && IsTree(fs)
    requires Exec(fs, Initial(capacity, scanners), before).triggered == [root]
    requires forall p :: Walkable(fs, root, p) ==> p in dirs
    requires |dirs| < capacity + 2 * scanners
    ensures var s := Exec(fs, Initial(capacity, scanners), before);
            forall steps :: Moves(fs, s, steps) ==>
              && |steps| <= cost
              && (Exec(fs, s, steps).counter == 0 <==> |steps| == cost)
              && (Stuck(fs, Exec(fs, s, steps)) <==> |steps| == cost)
  {
    var s := Exec(fs, Initial(capacity, scanners), before);
    cost := EveryWalkEnds(fs, capacity, scanners, before);
    hide Exec, Walkable, Stuck, Enabled, Moves;
    forall steps | Moves(fs, s, steps) ensures Stuck(fs, Exec(fs, s, steps)) <==> |steps| == cost {
      MovesKeepTriggers(fs, s, steps);
      ExecConcat(fs, Initial(capacity, scanners), before, steps);
      LargeQueueCompletes(fs, capacity, scanners, before + steps, root, dirs);
      if |steps| == cost { FullCostIsStuck(fs, s, steps, cost); }
    }
  }

  lemma FullCostIsStuck(fs: Tree, s: State, steps: seq<Step>, cost: nat)
    requires Moves(fs, s, steps) && |steps| == cost
    requires forall more :: Moves(fs, s, more) ==> |more| <= cost
    ensures Stuck(fs, Exec(fs, s, steps))
  {
    forall step | Enabled(fs, Exec(fs, s, steps), step) ensures step.Trigger? {
      if !step.Trigger? { MovesOn(fs, s, steps, step); }
    }
  }

  lemma MovesOn(fs: Tree, s: State, steps: seq<Step>, step: Step)
    requires Moves(fs, s, steps) && !step.Trigger? && Enabled(fs, Exec(fs, s, steps), step)
    ensures Moves(fs, s, steps + [step])
  {
    assert (steps + [step])[..|steps|] == steps;
  }

  // ---------------------------------------------------------- a tight tree

  /** Distinct names. */
  function Name(i: nat): string { seq(i, _ => 'a') }

  function Top(i: nat): Path { [Name(i)] }

  function Deep(i: nat): Path { [Name(i), "c"] }

  function Readable(scanners: nat): set<Path>
    requires scanners >= 1
  {
    {[]} + Tops(scanners - 1)
  }

  function RootEntries(capacity: nat, scanners: nat): seq<DirEntry> {
    seq(capacity + scanners, i requires 0 <= i < capacity + scanners => DirEntry(Name(i), Directory))
  }

  /** A root with one subdirectory for every scanner and every place in the queue, where all
    scanners but one find one more below the one they take. */
  function Comb(capacity: nat, scanners: nat): Tree
    requires scanners >= 1
  {
    map p | p in Readable(scanners) :: if p == [] then RootEntries(capacity, scanners) else [DirEntry("c", Directory)]
  }

  lemma CombEntries(capacity: nat, scanners: nat)
    requires scanners >= 1
    ensures var fs := Comb(capacity, scanners);
            && IsTree(fs) && Entries(fs, []) == RootEntries(capacity, scanners)
            && forall i :: 0 <= i < scanners - 1 ==> Entries(fs, Top(i)) == [DirEntry("c", Directory)]
  {
    var fs := Comb(capacity, scanners);
    forall i | 0 <= i < scanners - 1 ensures Entries(fs, Top(i)) == [DirEntry("c", Directory)] {
      assert Top(i) in Readable(scanners);
    }
    forall d, i, j | d in fs && 0 <= i < j < |fs[d]| ensures fs[d][i].name != fs[d][j].name {
      assert |Name(i)| == i && |Name(j)| == j;
    }
  }

  /** One scanner at the root, the next ones waiting to queue what they found, the rest idle. */
  function Busy(scanners: nat, waiting: nat, first: Worker): seq<Worker>
    requires scanners >= 1
  {
    seq(scanners, k requires 0 <= k < scanners =>
      if k == 0 then first else if k <= waiting then Sending(Top(k - 1), 0) else Idle)
  }

  lemma BusyMeans(scanners: nat, waiting: nat, a: Worker, b: Worker)
    requires scanners >= 1
    ensures var ws := Busy(scanners, waiting, a);
            |ws| == scanners && ws[0] == a && ws[0 := b] == Busy(scanners, waiting, b)
    ensures waiting + 1 < scanners ==>
      var ws := Busy(scanners, waiting, a);
      ws[waiting + 1] == Idle && ws[waiting + 1 := Sending(Top(waiting), 0)] == Busy(scanners, waiting + 1, a)
  {
    hide Top;
  }

  function Spread(n: nat): seq<Step> {
    if n == 0 then [Trigger([])] + [Send(0)] + [Take(0)]
    else Spread(n - 1) + [Look(0)] + [Push(0)] + [Take(n)] + [Look(n)]
  }

  /** After the root was triggered and taken, with nothing finished yet. */
  function Under(capacity: nat, counter: nat, queue: seq<Path>, workers: seq<Worker>): State {
    State(capacity, counter, queue, [], workers, [[]], [], [])
  }

  function Spreading(capacity: nat, scanners: nat, n: nat): State
    requires scanners >= 1
  {
    Under(capacity, 1 + 2 * n, [], Busy(scanners, n, Scanning([], n)))
  }

  lemma SpreadStart(fs: Tree, capacity: nat, scanners: nat)
    requires capacity >= 1 && scanners >= 1
    ensures Exec(fs, Initial(capacity, scanners), Spread(0)) == Spreading(capacity, scanners, 0)
  {
    var s := Initial(capacity, scanners);
    hide Exec;
    assert Exec(fs, s, []) == s by { ExecNothing(fs, s); }
    assert [] + [Trigger([])] == [Trigger([])];
    ExecSnoc(fs, s, [], Trigger([]));
    ExecSnoc(fs, s, [Trigger([])], Send(0));
    ExecSnoc(fs, s, [Trigger([])] + [Send(0)], Take(0));
    assert s.workers[0 := Scanning([], 0)] == Busy(scanners, 0, Scanning([], 0));
  }

  lemma ExecNothing(fs: Tree, s: State)
    ensures Exec(fs, s, []) == s
  {
  }

  /** A step that happens from one state to the next. */
  predicate Leads(fs: Tree, s: State, step: Step, t: State) { Enabled(fs, s, step) && Apply(fs, s, step) == t }

  lemma ExecLeads(fs: Tree, s: State, steps: seq<Step>, step: Step, t: State)
    requires Leads(fs, Exec(fs, s, steps), step, t)
    ensures Exec(fs, s, steps + [step]) == t
  {
    ExecSnoc(fs, s, steps, step);
  }

  lemma RootEntry(capacity: nat, scanners: nat, n: nat)
    requires scanners >= 1 && n < capacity + scanners
    ensures var es := Entries(Comb(capacity, scanners), []);
            n < |es| && es[n].kind.Directory? && Child([], es[n]) == Top(n)
  {
    CombEntries(capacity, scanners);
    hide Comb;
  }

  /** The root's scanner finds its next subdirectory. */
  lemma RootLooks(capacity: nat, scanners: nat, counter: nat, queue: seq<Path>, waiting: nat, n: nat)
    requires scanners >= 1 && n < capacity + scanners
    ensures Leads(Comb(capacity, scanners),
                  Under(capacity, counter, queue, Busy(scanners, waiting, Scanning([], n))), Look(0),
                  Under(capacity, counter + 1, queue, Busy(scanners, waiting, Sending([], n))))
  {
    RootEntry(capacity, scanners, n);
    BusyMeans(scanners, waiting, Scanning([], n), Sending([], n));
    hide Comb, Busy, Top, Entries;
  }

  /** It queues what it found. */
  lemma RootPushes(capacity: nat, scanners: nat, counter: nat, queue: seq<Path>, waiting: nat, n: nat)
    requires scanners >= 1 && n < capacity + scanners && |queue| < capacity
    ensures Leads(Comb(capacity, scanners),
                  Under(capacity, counter, queue, Busy(scanners, waiting, Sending([], n))), Push(0),
                  Under(capacity, counter, queue + [Top(n)], Busy(scanners, waiting, Scanning([], n + 1))))
  {
    RootEntry(capacity, scanners, n);
    BusyMeans(scanners, waiting, Sending([], n), Scanning([], n + 1));
    hide Comb, Busy, Top, Entries, Child;
  }

  /** The next scanner takes it. */
  lemma NextTakes(fs: Tree, capacity: nat, scanners: nat, counter: nat, waiting: nat, first: Worker)
    requires waiting + 1 < scanners
    ensures Leads(fs, Under(capacity, counter, [Top(waiting)], Busy(scanners, waiting, first)), Take(waiting + 1),
                  Under(capacity, counter, [], Busy(scanners, waiting, first)[waiting + 1 := Scanning(Top(waiting), 0)]))
  {
    BusyMeans(scanners, waiting, first, first);
    hide Busy, Top;
    assert [Top(waiting)][1..] == [];
  }

  /** It finds what lies below. */
  lemma NextLooks(capacity: nat, scanners: nat, counter: nat, waiting: nat, first: Worker)
    requires waiting + 1 < scanners
    ensures Leads(Comb(capacity, scanners),
                  Under(capacity, counter, [], Busy(scanners, waiting, first)[waiting + 1 := Scanning(Top(waiting), 0)]),
                  Look(waiting + 1), Under(capacity, counter + 1, [], Busy(scanners, waiting + 1, first)))
  {
    CombEntries(capacity, scanners);
    BusyMeans(scanners, waiting, first, first);
    hide Comb, Busy, Top, IsTree;
    var ws := Busy(scanners, waiting, first);
    var k, a, b := waiting + 1, Scanning(Top(waiting), 0), Sending(Top(waiting), 0);
    assert ws[k := a][k := b] == ws[k := b];
  }

  lemma {:induction false} AfterSpread(capacity: nat, scanners: nat, n: nat)
    requires capacity >= 1 && n < scanners
    ensures Exec(Comb(capacity, scanners), Initial(capacity, scanners), Spread(n)) == Spreading(capacity, scanners, n)
  {
    hide Exec, Comb, Initial, Spreading, Leads, Busy, Under, Top;
    var fs, s := Comb(capacity, scanners), Initial(capacity, scanners);
    if n == 0 {
      SpreadStart(fs, capacity, scanners);
    } else {
      AfterSpread(capacity, scanners, n - 1);
      var steps := Spread(n - 1);
      SpreadAt(capacity, scanners, n);
      var s1 := Under(capacity, 2 * n, [], Busy(scanners, n - 1, Sending([], n - 1)));
      var s2 := Under(capacity, 2 * n, [Top(n - 1)], Busy(scanners, n - 1, Scanning([], n)));
      var s3 := Under(capacity, 2 * n, [], Busy(scanners, n - 1, Scanning([], n))[n := Scanning(Top(n - 1), 0)]);
      RootLooks(capacity, scanners, 2 * n - 1, [], n - 1, n - 1);
      RootPushes(capacity, scanners, 2 * n, [], n - 1, n - 1);
      assert [] + [Top(n - 1)] == [Top(n - 1)];
      NextTakes(fs, capacity, scanners, 2 * n, n - 1, Scanning([], n));
      NextLooks(capacity, scanners, 2 * n, n - 1, Scanning([], n));
      ExecLeads(fs, s, steps, Look(0), s1);
      ExecLeads(fs, s, steps + [Look(0)], Push(0), s2);
      ExecLeads(fs, s, steps + [Look(0)] + [Push(0)], Take(n), s3);
      ExecLeads(fs, s, steps + [Look(0)] + [Push(0)] + [Take(n)], Look(n), Spreading(capacity, scanners, n));
    }
  }

  lemma SpreadAt(capacity: nat, scanners: nat, n: nat)
    requires 0 < n < scanners
    ensures Spreading(capacity, scanners, n - 1) == Under(capacity, 2 * n - 1, [], Busy(scanners, n - 1, Scanning([], n - 1)))
    ensures Spreading(capacity, scanners, n) == Under(capacity, 2 * n + 1, [], Busy(scanners, n, Scanning([], n)))
    ensures |Busy(scanners, n - 1, Scanning([], n))| == scanners
  {
  }

  function Fill(scanners: nat, n: nat): seq<Step>
    requires scanners >= 1
  {
    if n == 0 then Spread(scanners - 1) else Fill(scanners, n - 1) + [Look(0)] + [Push(0)]
  }

  function Queued(scanners: nat, n: nat): seq<Path>
    requires scanners >= 1
  {
    seq(n, i requires 0 <= i < n => Top(scanners - 1 + i))
  }

  function Filling(capacity: nat, scanners: nat, n: nat): State
    requires scanners >= 1
  {
    Under(capacity, 2 * scanners - 1 + n, Queued(scanners, n), Busy(scanners, scanners - 1, Scanning([], scanners - 1 + n)))
  }

  /** All scanners but the root's wait, the queue holds `n`, and the root's scanner wants more. */
  function Wanting(capacity: nat, scanners: nat, n: nat): State
    requires scanners >= 1
  {
    Under(capacity, 2 * scanners + n, Queued(scanners, n), Busy(scanners, scanners - 1, Sending([], scanners - 1 + n)))
  }

  lemma LookAtNext(capacity: nat, scanners: nat, n: nat)
    requires scanners >= 1 && n <= capacity
    ensures Leads(Comb(capacity, scanners), Filling(capacity, scanners, n), Look(0), Wanting(capacity, scanners, n))
  {
    hide Leads, Busy, Comb, Queued;
    RootLooks(capacity, scanners, 2 * scanners - 1 + n, Queued(scanners, n), scanners - 1, scanners - 1 + n);
  }

  lemma PushNext(capacity: nat, scanners: nat, n: nat)
    requires scanners >= 1 && n < capacity
    ensures Leads(Comb(capacity, scanners), Wanting(capacity, scanners, n), Push(0), Filling(capacity, scanners, n + 1))
  {
    QueuedNext(scanners, n);
    hide Leads, Busy, Comb, Queued;
    RootPushes(capacity, scanners, 2 * scanners + n, Queued(scanners, n), scanners - 1, scanners - 1 + n);
  }

  lemma QueuedNext(scanners: nat, n: nat)
    requires scanners >= 1
    ensures |Queued(scanners, n)| == n && Queued(scanners, n) + [Top(scanners - 1 + n)] == Queued(scanners, n + 1)
  {
    hide Top;
  }

  lemma FillStart(capacity: nat, scanners: nat)
    requires scanners >= 1
    ensures Spreading(capacity, scanners, scanners - 1) == Filling(capacity, scanners, 0)
  {
    assert Queued(scanners, 0) == [];
  }

  lemma {:induction false} AfterFill(capacity: nat, scanners: nat, n: nat)
    requires capacity >= 1 && scanners >= 1 && n <= capacity
    ensures var fs, s := Comb(capacity, scanners), Initial(capacity, scanners);
            && Exec(fs, s, Fill(scanners, n)) == Filling(capacity, scanners, n)
            && Exec(fs, s, Fill(scanners, n) + [Look(0)]) == Wanting(capacity, scanners, n)
  {
    hide Exec, Comb, Initial, Filling, Wanting, Leads, Spreading;
    var fs, s := Comb(capacity, scanners), Initial(capacity, scanners);
    if n == 0 {
      AfterSpread(capacity, scanners, scanners - 1);
      FillStart(capacity, scanners);
    } else {
      AfterFill(capacity, scanners, n - 1);
      PushNext(capacity, scanners, n - 1);
      ExecLeads(fs, s, Fill(scanners, n - 1) + [Look(0)], Push(0), Filling(capacity, scanners, n));
    }
    LookAtNext(capacity, scanners, n);
    ExecLeads(fs, s, Fill(scanners, n), Look(0), Wanting(capacity, scanners, n));
  }

  function Tops(n: nat): set<Path> { set i: nat | i < n :: Top(i) }

  function Deeps(n: nat): set<Path> { set i: nat | i < n :: Deep(i) }

  lemma {:induction false} TopsSize(n: nat)
    ensures |Tops(n)| <= n && |Deeps(n)| <= n
  {
    hide Top, Deep;
    if n > 0 {
      TopsSize(n - 1);
      assert Tops(n) == Tops(n - 1) + {Top(n - 1)} && Deeps(n) == Deeps(n - 1) + {Deep(n - 1)};
    }
  }

  function Reachable(capacity: nat, scanners: nat): set<Path>
    requires scanners >= 1
  {
    {[]} + Tops(capacity + scanners) + Deeps(scanners - 1)
  }

  lemma {:induction false} CombReach(capacity: nat, scanners: nat, p: Path)
    requires scanners >= 1 && Walkable(Comb(capacity, scanners), [], p)
    ensures p in Reachable(capacity, scanners)
    decreases |p|
  {
    var fs := Comb(capacity, scanners);
    if p != [] {
      assert IsSubdir(fs, p);
      var d := Parent(p);
      CombReach(capacity, scanners, d);
      var i :| 0 <= i < |Entries(fs, d)| && Matches(Entries(fs, d)[i], p, false);
      assert p == d + [p[|p| - 1]];
      if d == [] {
        assert p == Top(i);
      } else {
        assert d in Readable(scanners);
        var k: nat :| k < scanners - 1 && d == Top(k);
        assert p == Deep(k);
      }
    }
  }

  lemma ReachableSize(capacity: nat, scanners: nat)
    requires scanners >= 1
    ensures |Reachable(capacity, scanners)| <= capacity + 2 * scanners
  {
    TopsSize(capacity + scanners);
    TopsSize(scanners - 1);
  }

  /** For every queue and every number of scanners, some tree with exactly as many reachable
    directories as the queue and twice the scanners blocks the walk in some run. */
  lemma SmallQueueBlocks(capacity: nat, scanners: nat) returns (fs: Tree, steps: seq<Step>, dirs: set<Path>)
    requires capacity >= 1 && scanners >= 1
    ensures IsTree(fs) && |dirs| == capacity + 2 * scanners
    ensures forall p :: Walkable(fs, [], p) <==> p in dirs
    ensures var s := Exec(fs, Initial(capacity, scanners), steps);
            s.triggered == [[]] && s.counter == |dirs| && Jammed(s) && Stuck(fs, s)
  {
    hide Comb, Reachable, Exec, Walkable, Fill, Wanting, Stuck, Jammed, IsTree;
    fs := Comb(capacity, scanners);
    dirs := Reachable(capacity, scanners);
    steps := Fill(scanners, capacity) + [Look(0)];
    AfterFill(capacity, scanners, capacity);
    FullState(capacity, scanners);
    CombIsTree(capacity, scanners);
    ReachableSize(capacity, scanners);
    forall p | Walkable(fs, [], p) ensures p in dirs { CombReach(capacity, scanners, p); }
    CounterFits(fs, capacity, scanners, steps, [], dirs);
    forall p | p in dirs ensures Walkable(fs, [], p) {
      AllNeeded(fs, capacity, scanners, steps, dirs, p);
    }
  }

  lemma CombIsTree(capacity: nat, scanners: nat)
    requires scanners >= 1
    ensures IsTree(Comb(capacity, scanners))
  {
    CombEntries(capacity, scanners);
    hide Comb, IsTree;
  }

  /** In the last state the queue is full and everybody wants more. */
  lemma FullState(capacity: nat, scanners: nat)
    requires capacity >= 1 && scanners >= 1
    ensures var s := Wanting(capacity, scanners, capacity);
            s.triggered == [[]] && s.counter == capacity + 2 * scanners && Jammed(s) && Stuck(Comb(capacity, scanners), s)
  {
    hide Comb, Stuck, Top;
    JammedIsStuck(Comb(capacity, scanners), Wanting(capacity, scanners, capacity));
  }

  /** A wait group as large as the set of candidates needs every one of them. */
  lemma AllNeeded(fs: Tree, capacity: nat, scanners: nat, steps: seq<Step>, dirs: set<Path>, p: Path)
    requires IsTree(fs) && Exec(fs, Initial(capacity, scanners), steps).triggered == [[]]
    requires Exec(fs, Initial(capacity, scanners), steps).counter == |dirs| && p in dirs
    requires forall q :: Walkable(fs, [], q) ==> q in dirs
    ensures Walkable(fs, [], p)
  {
    hide Exec, Walkable, IsTree;
    if !Walkable(fs, [], p) { CounterFits(fs, capacity, scanners, steps, [], dirs - {p}); }
  }

  /** This run of a single scan over at most `n` reachable directories does not stop early. */
  ghost predicate NotBlocked(fs: Tree, capacity: nat, scanners: nat, steps: seq<Step>, root: Path, dirs: set<Path>) {
    var s := Exec(fs, Initial(capacity, scanners), steps);
    && IsTree(fs) && s.triggered == [root] && (forall p :: Walkable(fs, root, p) ==> p in dirs)
    ==> (Stuck(fs, s) ==> s.counter == 0)
  }

  /** No single scan over at most `n` reachable directories ever blocks if and only if `n` is
    less than the queue and twice the scanners. */
  lemma QueueSizeIsExact(capacity: nat, scanners: nat, n: nat)
    requires capacity >= 1 && scanners >= 1
    ensures (forall fs, steps, root, dirs :: |dirs| <= n ==> NotBlocked(fs, capacity, scanners, steps, root, dirs))
        <==> n < capacity + 2 * scanners
  {
    if n < capacity + 2 * scanners {
      forall fs, steps, root, dirs | |dirs| <= n ensures NotBlocked(fs, capacity, scanners, steps, root, dirs) {
        hide Exec, Walkable, Stuck;
        var s := Exec(fs, Initial(capacity, scanners), steps);
        if IsTree(fs) && s.triggered == [root] && forall p :: Walkable(fs, root, p) ==> p in dirs {
          LargeQueueCompletes(fs, capacity, scanners, steps, root, dirs);
        }
      }
    } else {
      var fs, steps, dirs := SmallQueueBlocks(capacity, scanners);
      assert !NotBlocked(fs, capacity, scanners, steps, [], dirs);
    }
  }
}
