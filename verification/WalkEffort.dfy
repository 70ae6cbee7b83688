/** How many steps a directory walk takes, in every interleaving. */
module WalkEffort {
  import opened DirectoryWalk

  ghost predicate DepthAtMost(fs: Tree, h: nat) { forall d :: d in fs ==> |d| <= h }

  /** Every tree has a depth. */
  lemma {:induction false} DepthExists(fs: Tree) returns (h: nat)
    ensures DepthAtMost(fs, h)
    decreases |fs|
  {
    if fs.Keys == {} {
      h := 0;
    } else {
      var d :| d in fs;
      assert fs.Keys == (fs - {d}).Keys + {d};
      h := DepthExists(fs - {d});
      h := if h < |d| then |d| else h;
      forall x | x in fs ensures |x| <= h { assert x == d || x in fs - {d}; }
    }
  }

  function Below(h: nat, d: Path): nat { if |d| <= h then h + 1 - |d| else 0 }

  /** Scanner steps a queued directory still costs, with all that lies below it. */
  ghost function DirCost(fs: Tree, h: nat, d: Path): nat
    requires DepthAtMost(fs, h)
    decreases Below(h, d), |Entries(fs, d)| + 1
  {
    2 + RestCost(fs, h, d, 0)
  }

  ghost function RestCost(fs: Tree, h: nat, d: Path, n: nat): nat
    requires DepthAtMost(fs, h) && n <= |Entries(fs, d)|
    decreases Below(h, d), |Entries(fs, d)| - n
  {
    if n == |Entries(fs, d)| then 0
    else
      var e := Entries(fs, d)[n];
      (if e.kind.Directory? then 2 + DirCost(fs, h, Child(d, e)) else 1) + RestCost(fs, h, d, n + 1)
  }

  ghost function WorkerCost(fs: Tree, h: nat, w: Worker): nat
    requires DepthAtMost(fs, h) && WorkerOk(fs, w)
  {
    match w
    case Idle => 0
    case Scanning(d, n) => 1 + RestCost(fs, h, d, n)
    case Sending(d, n) => 2 + DirCost(fs, h, Child(d, Entries(fs, d)[n])) + RestCost(fs, h, d, n + 1)
  }

  ghost function QueueCost(fs: Tree, h: nat, ds: seq<Path>, extra: nat): nat
    requires DepthAtMost(fs, h)
  {
    if ds == [] then 0 else QueueCost(fs, h, ds[..|ds| - 1], extra) + extra + DirCost(fs, h, ds[|ds| - 1])
  }

  ghost function WorkersCost(fs: Tree, h: nat, ws: seq<Worker>): nat
    requires DepthAtMost(fs, h) && AllOk(fs, ws)
  {
    if ws == [] then 0 else WorkersCost(fs, h, ws[..|ws| - 1]) + WorkerCost(fs, h, ws[|ws| - 1])
  }

  /** The steps that remain until the walk is complete. */
  ghost function Cost(fs: Tree, h: nat, s: State): nat
    requires DepthAtMost(fs, h) && AllOk(fs, s.workers)
  {
    QueueCost(fs, h, s.queue, 0) + QueueCost(fs, h, s.announced, 1) + WorkersCost(fs, h, s.workers)
  }

  lemma {:induction false} QueueCostConcat(fs: Tree, h: nat, a: seq<Path>, b: seq<Path>, extra: nat)
    requires DepthAtMost(fs, h)
    ensures QueueCost(fs, h, a + b, extra) == QueueCost(fs, h, a, extra) + QueueCost(fs, h, b, extra)
  {
    hide DirCost;
    if b == [] {
      assert a + b == a;
    } else {
      assert (a + b)[..|a + b| - 1] == a + b[..|b| - 1];
      QueueCostConcat(fs, h, a, b[..|b| - 1], extra);
    }
  }

  lemma QueueCostOne(fs: Tree, h: nat, d: Path, extra: nat)
    requires DepthAtMost(fs, h)
    ensures QueueCost(fs, h, [d], extra) == extra + DirCost(fs, h, d)
  {
    assert [d][..0] == [];
    assert QueueCost(fs, h, [d][..0], extra) == 0;
  }

  lemma {:induction false} WorkersCostUpdate(fs: Tree, h: nat, ws: seq<Worker>, i: nat, w: Worker)
    requires DepthAtMost(fs, h) && AllOk(fs, ws) && i < |ws| && WorkerOk(fs, w)
    ensures AllOk(fs, ws[i := w])
    ensures WorkersCost(fs, h, ws[i := w]) + WorkerCost(fs, h, ws[i]) == WorkersCost(fs, h, ws) + WorkerCost(fs, h, w)
  {
    hide WorkerCost;
    var n := |ws| - 1;
    if i == n {
      assert ws[i := w][..n] == ws[..n];
    } else {
      assert ws[i := w][..n] == ws[..n][i := w];
      WorkersCostUpdate(fs, h, ws[..n], i, w);
    }
  }

  lemma SendCostsOne(fs: Tree, h: nat, s: State, i: nat)
    requires DepthAtMost(fs, h) && AllOk(fs, s.workers) && Enabled(fs, s, Send(i))
    ensures Cost(fs, h, Apply(fs, s, Send(i))) == Cost(fs, h, s) - 1
  {
    hide QueueCost, WorkersCost, DirCost;
    var d, a, b := s.announced[i], s.announced[..i], s.announced[i + 1..];
    assert s.announced == a + ([d] + b);
    QueueCostConcat(fs, h, a, [d] + b, 1);
    QueueCostConcat(fs, h, [d], b, 1);
    QueueCostConcat(fs, h, a, b, 1);
    QueueCostConcat(fs, h, s.queue, [d], 0);
    QueueCostOne(fs, h, d, 1);
    QueueCostOne(fs, h, d, 0);
  }

  lemma TakeCostsOne(fs: Tree, h: nat, s: State, w: nat)
    requires DepthAtMost(fs, h) && AllOk(fs, s.workers) && Enabled(fs, s, Take(w))
    ensures AllOk(fs, Apply(fs, s, Take(w)).workers)
    ensures Cost(fs, h, Apply(fs, s, Take(w))) == Cost(fs, h, s) - 1
  {
    hide QueueCost, WorkersCost, RestCost;
    var d := s.queue[0];
    assert s.queue == [d] + s.queue[1..];
    QueueCostConcat(fs, h, [d], s.queue[1..], 0);
    QueueCostOne(fs, h, d, 0);
    WorkersCostUpdate(fs, h, s.workers, w, Scanning(d, 0));
  }

  lemma LookCostsOne(fs: Tree, h: nat, s: State, w: nat)
    requires DepthAtMost(fs, h) && AllOk(fs, s.workers) && Enabled(fs, s, Look(w))
    ensures AllOk(fs, Apply(fs, s, Look(w)).workers)
    ensures Cost(fs, h, Apply(fs, s, Look(w))) == Cost(fs, h, s) - 1
  {
    hide QueueCost, WorkersCost, DirCost;
    var d, n := s.workers[w].dir, s.workers[w].next;
    var e := Entries(fs, d)[n];
    WorkersCostUpdate(fs, h, s.workers, w, if e.kind.Directory? then Sending(d, n) else Scanning(d, n + 1));
  }

  lemma PushCostsOne(fs: Tree, h: nat, s: State, w: nat)
    requires DepthAtMost(fs, h) && AllOk(fs, s.workers) && Enabled(fs, s, Push(w))
    ensures AllOk(fs, Apply(fs, s, Push(w)).workers)
    ensures Cost(fs, h, Apply(fs, s, Push(w))) == Cost(fs, h, s) - 1
  {
    hide QueueCost, WorkersCost, DirCost, RestCost;
    var d, n := s.workers[w].dir, s.workers[w].next;
    var c := Child(d, Entries(fs, d)[n]);
    QueueCostConcat(fs, h, s.queue, [c], 0);
    QueueCostOne(fs, h, c, 0);
    WorkersCostUpdate(fs, h, s.workers, w, Scanning(d, n + 1));
  }

  lemma FinishCostsOne(fs: Tree, h: nat, s: State, w: nat)
    requires DepthAtMost(fs, h) && AllOk(fs, s.workers) && Enabled(fs, s, Finish(w))
    ensures AllOk(fs, Apply(fs, s, Finish(w)).workers)
    ensures Cost(fs, h, Apply(fs, s, Finish(w))) == Cost(fs, h, s) - 1
  {
    hide QueueCost, WorkersCost, DirCost;
    WorkersCostUpdate(fs, h, s.workers, w, Idle);
  }

  /** Every step of a walk brings it exactly one step nearer to its end, so no interleaving
    runs forever and all complete walks of a tree take equally many steps. */
  lemma StepCostsOne(fs: Tree, h: nat, s: State, step: Step)
    requires DepthAtMost(fs, h) && AllOk(fs, s.workers) && Enabled(fs, s, step) && !step.Trigger?
    ensures AllOk(fs, Apply(fs, s, step).workers)
    ensures Cost(fs, h, Apply(fs, s, step)) == Cost(fs, h, s) - 1
  {
    hide Cost;
    match step
    case Send(i) => SendCostsOne(fs, h, s, i);
    case Take(w) => TakeCostsOne(fs, h, s, w);
    case Look(w) => LookCostsOne(fs, h, s, w);
    case Push(w) => PushCostsOne(fs, h, s, w);
    case Finish(w) => FinishCostsOne(fs, h, s, w);
  }

  // ------------------------------------------------------------------- runs

  lemma {:induction false} QueueCostZero(fs: Tree, h: nat, ds: seq<Path>, extra: nat)
    requires DepthAtMost(fs, h)
    ensures QueueCost(fs, h, ds, extra) == 0 <==> ds == []
  {
  }

  lemma {:induction false} WorkersCostZero(fs: Tree, h: nat, ws: seq<Worker>, p: Path)
    requires DepthAtMost(fs, h) && AllOk(fs, ws)
    ensures WorkersCost(fs, h, ws) == 0 <==> Total(fs, ws, p).weight == 0
  {
    if ws != [] {
      hide Holds, WorkerCost;
      var n := |ws| - 1;
      WorkersCostZero(fs, h, ws[..n], p);
      WorkerCostZero(fs, h, ws[n], p);
    }
  }

  lemma WorkerCostZero(fs: Tree, h: nat, w: Worker, p: Path)
    requires DepthAtMost(fs, h) && WorkerOk(fs, w)
    ensures WorkerCost(fs, h, w) == 0 <==> Holds(fs, w, p).weight == 0
  {
    hide Count, Subdirs, Files, RestCost, DirCost;
  }

  /** Nothing is left to do exactly when the wait group is at zero. */
  lemma CostZero(fs: Tree, h: nat, s: State, p: Path)
    requires DepthAtMost(fs, h) && Balanced(fs, s, p)
    ensures Cost(fs, h, s) == 0 <==> s.counter == 0
  {
    hide Total, QueueCost, WorkersCost, Known, Count, AllSubdirs, AllFiles;
    QueueCostZero(fs, h, s.queue, 0);
    QueueCostZero(fs, h, s.announced, 1);
    WorkersCostZero(fs, h, s.workers, p);
  }

  /** Every step of the run happens, and none is a new trigger. */
  ghost predicate Moves(fs: Tree, s: State, steps: seq<Step>) {
    steps == []
    || var front, step := steps[..|steps| - 1], steps[|steps| - 1];
       Moves(fs, s, front) && !step.Trigger? && Enabled(fs, Exec(fs, s, front), step)
  }

  lemma {:induction false} RunCosts(fs: Tree, h: nat, s: State, steps: seq<Step>)
    requires DepthAtMost(fs, h) && AllOk(fs, s.workers) && Moves(fs, s, steps)
    ensures AllOk(fs, Exec(fs, s, steps).workers)
    ensures Cost(fs, h, Exec(fs, s, steps)) == Cost(fs, h, s) - |steps|
  {
    if steps != [] {
      hide Cost, Enabled, Apply;
      var n := |steps| - 1;
      RunCosts(fs, h, s, steps[..n]);
      StepCostsOne(fs, h, Exec(fs, s, steps[..n]), steps[n]);
    }
  }

  lemma {:induction false} ExecConcat(fs: Tree, s: State, a: seq<Step>, b: seq<Step>)
    ensures Exec(fs, s, a + b) == Exec(fs, Exec(fs, s, a), b)
  {
    hide Enabled, Apply;
    if b == [] {
      assert a + b == a;
    } else {
      var n := |b| - 1;
      assert (a + b)[..|a + b| - 1] == a + b[..n];
      ExecConcat(fs, s, a, b[..n]);
    }
  }

  /** From every reachable state, and without new triggers, there is one number of steps: no
    interleaving takes more, and the walk is complete exactly when that many were taken. */
  lemma EveryWalkEnds(fs: Tree, capacity: nat, scanners: nat, before: seq<Step>) returns (cost: nat)
    ensures var s := Exec(fs, Initial(capacity, scanners), before);
            forall steps :: Moves(fs, s, steps) ==>
              |steps| <= cost && (Exec(fs, s, steps).counter == 0 <==> |steps| == cost)
  {
    var s := Exec(fs, Initial(capacity, scanners), before);
    EveryRunBalances(fs, capacity, scanners, before, []);
    var h := DepthExists(fs);
    cost := Cost(fs, h, s);
    hide Cost, DepthAtMost, Exec;
    forall steps | Moves(fs, s, steps) ensures |steps| <= cost && (Exec(fs, s, steps).counter == 0 <==> |steps| == cost) {
      RunCosts(fs, h, s, steps);
      ExecConcat(fs, Initial(capacity, scanners), before, steps);
      EveryRunBalances(fs, capacity, scanners, before + steps, []);
      CostZero(fs, h, Exec(fs, s, steps), []);
    }
  }
}
