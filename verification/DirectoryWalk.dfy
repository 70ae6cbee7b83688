/** The concurrent directory walk: scanners take directories from a bounded queue and
  put the subdirectories they find back into it; a wait group counts what is open. */
module DirectoryWalk {
  /** A path is the list of its components; joining appends a name. */
  type Path = seq<string>

  datatype Kind = Symlink | Directory | Regular(infoOk: bool, authorised: bool) | Special

  datatype DirEntry = DirEntry(name: string, kind: Kind)

  /** A static tree: the readable directories and their entries. */
  type Tree = map<Path, seq<DirEntry>>

  /** Names within a directory are distinct. */
  ghost predicate IsTree(fs: Tree) {
    forall d, i, j :: d in fs && 0 <= i < j < |fs[d]| ==> fs[d][i].name != fs[d][j].name
  }

  /** What `ReadDir` lists; nothing for a directory that cannot be read. */
  function Entries(fs: Tree, d: Path): seq<DirEntry> { if d in fs then fs[d] else [] }

  function Child(d: Path, e: DirEntry): Path { d + [e.name] }

  predicate Emitted(e: DirEntry) { e.kind.Regular? && e.kind.infoOk && e.kind.authorised }

  /** The subdirectories among the first `n` entries of `d`, in order. */
  function Subdirs(fs: Tree, d: Path, n: nat): seq<Path>
    requires n <= |Entries(fs, d)|
  {
    if n == 0 then []
    else
      var e := Entries(fs, d)[n - 1];
      Subdirs(fs, d, n - 1) + if e.kind.Directory? then [Child(d, e)] else []
  }

  /** The files to report among the first `n` entries of `d`, in order. */
  function Files(fs: Tree, d: Path, n: nat): seq<Path>
    requires n <= |Entries(fs, d)|
  {
    if n == 0 then []
    else
      var e := Entries(fs, d)[n - 1];
      Files(fs, d, n - 1) + if Emitted(e) then [Child(d, e)] else []
  }

  predicate Increasing(at: seq<nat>) { forall j, k :: 0 <= j < k < |at| ==> at[j] < at[k] }

  /** The entries of one kind, by position and in order. */
  ghost predicate Picks(es: seq<DirEntry>, kind: Kind, n: nat, at: seq<nat>)
    requires n <= |es|
  {
    && (forall k :: 0 <= k < |at| ==> at[k] < n && es[at[k]].kind == kind)
    && Increasing(at)
    && (forall i :: 0 <= i < n && es[i].kind == kind ==> i in at)
  }

  lemma NoPicks(es: seq<DirEntry>, kind: Kind)
    ensures Picks(es, kind, 0, [])
  {
  }

  lemma StillIncreasing(at: seq<nat>, n: nat)
    requires Increasing(at) && forall k :: 0 <= k < |at| ==> at[k] < n
    ensures Increasing(at + [n])
  {
  }

  lemma PickMore(es: seq<DirEntry>, kind: Kind, n: nat, before: seq<nat>) returns (at: seq<nat>)
    requires 0 < n <= |es| && Picks(es, kind, n - 1, before)
    ensures at == if es[n - 1].kind == kind then before + [n - 1] else before
    ensures Picks(es, kind, n, at)
  {
    hide Increasing;
    if es[n - 1].kind == kind {
      at := before + [n - 1];
      StillIncreasing(before, n - 1);
      forall i | 0 <= i < n && es[i].kind == kind ensures i in at {
        if i < n - 1 { assert i in before; }
      }
    } else {
      at := before;
    }
  }

  /** The paths of the picked entries, each under the directory's path. */
  predicate Named(d: Path, es: seq<DirEntry>, at: seq<nat>, ps: seq<Path>) {
    && |ps| == |at|
    && forall k :: 0 <= k < |at| ==> at[k] < |es| && ps[k] == d + [es[at[k]].name]
  }

  lemma NameNone(d: Path, es: seq<DirEntry>)
    ensures Named(d, es, [], [])
  {
  }

  lemma NameMore(d: Path, es: seq<DirEntry>, at: seq<nat>, ps: seq<Path>, n: nat, more: bool)
    requires Named(d, es, at, ps) && n < |es|
    ensures Named(d, es, if more then at + [n] else at, ps + if more then [Child(d, es[n])] else [])
  {
    assert ps + [] == ps;
  }

  /** What a directory reports, from its entries alone: exactly the regular files of an
    authorised type with readable information, each under the directory's path, in order. */
  lemma {:induction false} FilesMeaning(fs: Tree, d: Path, n: nat) returns (at: seq<nat>)
    requires n <= |Entries(fs, d)|
    ensures Picks(Entries(fs, d), Regular(true, true), n, at) && Named(d, Entries(fs, d), at, Files(fs, d, n))
  {
    hide Picks, Named, Entries, Child;
    var es := Entries(fs, d);
    if n == 0 {
      at := [];
      NoPicks(es, Regular(true, true));
      NameNone(d, es);
    } else {
      var before := FilesMeaning(fs, d, n - 1);
      at := PickMore(es, Regular(true, true), n, before);
      NameMore(d, es, before, Files(fs, d, n - 1), n - 1, es[n - 1].kind == Regular(true, true));
    }
  }

  /** What it queues: exactly the directories, no links, each under the directory's path, in order. */
  lemma {:induction false} SubdirsMeaning(fs: Tree, d: Path, n: nat) returns (at: seq<nat>)
    requires n <= |Entries(fs, d)|
    ensures Picks(Entries(fs, d), Directory, n, at) && Named(d, Entries(fs, d), at, Subdirs(fs, d, n))
  {
    hide Picks, Named, Entries, Child;
    var es := Entries(fs, d);
    if n == 0 {
      at := [];
      NoPicks(es, Directory);
      NameNone(d, es);
    } else {
      var before := SubdirsMeaning(fs, d, n - 1);
      at := PickMore(es, Directory, n, before);
      NameMore(d, es, before, Subdirs(fs, d, n - 1), n - 1, es[n - 1].kind == Directory);
    }
  }

  class Channels {
    var dirChan: seq<Path>
    var fileChan: seq<Path>
    var scanWG: int

    constructor ()
      ensures dirChan == [] && fileChan == [] && scanWG == 0
    {
      dirChan, fileChan, scanWG := [], [], 0;
    }

    method TriggerScan(root: Path)
      modifies this
      ensures scanWG == old(scanWG) + 1 && dirChan == old(dirChan) + [root] && fileChan == old(fileChan)
    {
      scanWG := scanWG + 1;
      dirChan := dirChan + [root];
    }

    /** One directory without interference: all its subdirectories queued, all its files
      reported, and the wait group raised by what was queued and lowered by one. */
    method HandleDirectory(fs: Tree, currentDir: Path)
      modifies this
      ensures var n := |Entries(fs, currentDir)|;
              && dirChan == old(dirChan) + Subdirs(fs, currentDir, n)
              && fileChan == old(fileChan) + Files(fs, currentDir, n)
              && scanWG == old(scanWG) + |Subdirs(fs, currentDir, n)| - 1
    {
      var entries := Entries(fs, currentDir);
      for i := 0 to |entries|
        invariant dirChan == old(dirChan) + Subdirs(fs, currentDir, i)
        invariant fileChan == old(fileChan) + Files(fs, currentDir, i)
        invariant scanWG == old(scanWG) + |Subdirs(fs, currentDir, i)|
      {
        var entry := entries[i];
        if entry.kind.Symlink? {
          continue;
        }
        var fullPath := currentDir + [entry.name];
        if entry.kind.Directory? {
          scanWG := scanWG + 1;
          dirChan := dirChan + [fullPath];
          continue;
        }
        if entry.kind.Regular? && entry.kind.infoOk && entry.kind.authorised {
          fileChan := fileChan + [fullPath];
        }
      }
      scanWG := scanWG - 1;
    }
  }

  // ---------------------------------------------------------- interleavings

  /** A scanner is idle, is about to look at entry `next` of its directory, or has raised
    the wait group for the subdirectory at `next` and waits for room in the queue. */
  datatype Worker = Idle | Scanning(dir: Path, next: nat) | Sending(dir: Path, next: nat)

  /** `announced` are triggered roots counted but not queued yet; the rest is history. */
  datatype State = State(
    capacity: nat, counter: int, queue: seq<Path>, announced: seq<Path>, workers: seq<Worker>,
    triggered: seq<Path>, visited: seq<Path>, emitted: seq<Path>)

  datatype Step =
    | Trigger(root: Path)
    | Send(i: nat)
    | Take(w: nat)
    | Look(w: nat)
    | Push(w: nat)
    | Finish(w: nat)

  predicate WorkerOk(fs: Tree, w: Worker) {
    match w
    case Idle => true
    case Scanning(d, n) => n <= |Entries(fs, d)|
    case Sending(d, n) => n < |Entries(fs, d)| && Entries(fs, d)[n].kind.Directory?
  }

  predicate Enabled(fs: Tree, s: State, step: Step) {
    match step
    case Trigger(root) => true
    case Send(i) => i < |s.announced| && |s.queue| < s.capacity
    case Take(w) => w < |s.workers| && s.workers[w].Idle? && s.queue != []
    case Look(w) => w < |s.workers| && s.workers[w].Scanning? && s.workers[w].next < |Entries(fs, s.workers[w].dir)|
    case Push(w) => w < |s.workers| && s.workers[w].Sending? && WorkerOk(fs, s.workers[w]) && |s.queue| < s.capacity
    case Finish(w) => w < |s.workers| && s.workers[w].Scanning? && s.workers[w].next == |Entries(fs, s.workers[w].dir)|
  }

  function Apply(fs: Tree, s: State, step: Step): State
    requires Enabled(fs, s, step)
  {
    match step
    case Trigger(root) =>
      s.(counter := s.counter + 1, announced := s.announced + [root], triggered := s.triggered + [root])
    case Send(i) =>
      s.(queue := s.queue + [s.announced[i]], announced := s.announced[..i] + s.announced[i + 1..])
    case Take(w) =>
      s.(workers := s.workers[w := Scanning(s.queue[0], 0)], queue := s.queue[1..])
    case Look(w) =>
      var d, n := s.workers[w].dir, s.workers[w].next;
      var e := Entries(fs, d)[n];
      if e.kind.Directory? then
        s.(counter := s.counter + 1, workers := s.workers[w := Sending(d, n)])
      else
        s.(workers := s.workers[w := Scanning(d, n + 1)],
           emitted := if Emitted(e) then s.emitted + [Child(d, e)] else s.emitted)
    case Push(w) =>
      var d, n := s.workers[w].dir, s.workers[w].next;
      s.(queue := s.queue + [Child(d, Entries(fs, d)[n])], workers := s.workers[w := Scanning(d, n + 1)])
    case Finish(w) =>
      s.(counter := s.counter - 1, visited := s.visited + [s.workers[w].dir], workers := s.workers[w := Idle])
  }

  /** A run: steps that are not enabled do not happen. */
  function Exec(fs: Tree, s: State, steps: seq<Step>): State {
    if steps == [] then s
    else
      var p, step := Exec(fs, s, steps[..|steps| - 1]), steps[|steps| - 1];
      if Enabled(fs, p, step) then Apply(fs, p, step) else p
  }

  function Initial(capacity: nat, scanners: nat): State {
    State(capacity, 0, [], [], seq(scanners, _ => Idle), [], [], [])
  }

  // ------------------------------------------------------------ the ledger

  /** How often a path occurs in a list. */
  function Count(s: seq<Path>, p: Path): nat {
    if s == [] then 0 else Count(s[..|s| - 1], p) + if s[|s| - 1] == p then 1 else 0
  }

  lemma {:induction false} CountConcat(a: seq<Path>, b: seq<Path>, p: Path)
    ensures Count(a + b, p) == Count(a, p) + Count(b, p)
  {
    if b == [] {
      assert a + b == a;
    } else {
      assert (a + b)[..|a + b| - 1] == a + b[..|b| - 1];
      CountConcat(a, b[..|b| - 1], p);
    }
  }

  lemma CountOne(d: Path, p: Path)
    ensures Count([d], p) == if d == p then 1 else 0
  {
    assert [d][..0] == [];
    assert Count([d][..0], p) == 0;
  }

  lemma CountSnoc(a: seq<Path>, d: Path, p: Path)
    ensures Count(a + [d], p) == Count(a, p) + if d == p then 1 else 0
  {
    CountConcat(a, [d], p);
    CountOne(d, p);
  }

  /** What a scanner holds, as far as the path `p` is concerned: directories in hand,
    subdirectories brought up, files reported; and its share of the wait group. */
  datatype Ledger = Ledger(hand: nat, kids: nat, files: nat, weight: nat)

  function Plus(a: Ledger, b: Ledger): Ledger {
    Ledger(a.hand + b.hand, a.kids + b.kids, a.files + b.files, a.weight + b.weight)
  }

  const EMPTY: Ledger := Ledger(0, 0, 0, 0)

  function Is(d: Path, p: Path): nat { if d == p then 1 else 0 }

  function Holds(fs: Tree, w: Worker, p: Path): Ledger
    requires WorkerOk(fs, w)
  {
    match w
    case Idle => EMPTY
    case Scanning(d, n) => Ledger(Is(d, p), Count(Subdirs(fs, d, n), p), Count(Files(fs, d, n), p), 1)
    case Sending(d, n) =>
      Ledger(Is(d, p) + Is(Child(d, Entries(fs, d)[n]), p), Count(Subdirs(fs, d, n + 1), p), Count(Files(fs, d, n + 1), p), 2)
  }

  ghost predicate AllOk(fs: Tree, ws: seq<Worker>) {
    forall i :: 0 <= i < |ws| ==> WorkerOk(fs, ws[i])
  }

  ghost function Total(fs: Tree, ws: seq<Worker>, p: Path): Ledger
    requires AllOk(fs, ws)
  {
    if ws == [] then EMPTY else Plus(Total(fs, ws[..|ws| - 1], p), Holds(fs, ws[|ws| - 1], p))
  }

  lemma {:induction false} TotalUpdate(fs: Tree, ws: seq<Worker>, i: nat, w: Worker, p: Path)
    requires AllOk(fs, ws) && i < |ws| && WorkerOk(fs, w)
    ensures AllOk(fs, ws[i := w])
    ensures Plus(Total(fs, ws[i := w], p), Holds(fs, ws[i], p)) == Plus(Total(fs, ws, p), Holds(fs, w, p))
  {
    hide Holds, Plus;
    var n := |ws| - 1;
    if i == n {
      assert ws[i := w][..n] == ws[..n];
      PlusSwap(Total(fs, ws[..n], p), Holds(fs, w, p), Holds(fs, ws[i], p));
    } else {
      assert ws[i := w][..n] == ws[..n][i := w];
      TotalUpdate(fs, ws[..n], i, w, p);
      PlusSwap(Total(fs, ws[..n][i := w], p), Holds(fs, ws[n], p), Holds(fs, ws[i], p));
      PlusSwap(Total(fs, ws[..n], p), Holds(fs, ws[n], p), Holds(fs, w, p));
    }
  }

  lemma PlusSwap(a: Ledger, b: Ledger, c: Ledger)
    ensures Plus(Plus(a, b), c) == Plus(Plus(a, c), b)
  {
  }

  /** How often fully visited directories brought up the subdirectory `p`, or reported the file `p`. */
  function AllSubdirs(fs: Tree, ds: seq<Path>, p: Path): nat {
    if ds == [] then 0
    else
      var d := ds[|ds| - 1];
      AllSubdirs(fs, ds[..|ds| - 1], p) + Count(Subdirs(fs, d, |Entries(fs, d)|), p)
  }

  function AllFiles(fs: Tree, ds: seq<Path>, p: Path): nat {
    if ds == [] then 0
    else
      var d := ds[|ds| - 1];
      AllFiles(fs, ds[..|ds| - 1], p) + Count(Files(fs, d, |Entries(fs, d)|), p)
  }

  /** How often the walk knows `p`: queued, about to be queued, in hand or visited. */
  ghost function Known(fs: Tree, s: State, p: Path): nat
    requires AllOk(fs, s.workers)
  {
    Count(s.queue, p) + Count(s.announced, p) + Total(fs, s.workers, p).hand + Count(s.visited, p)
  }

  /** A path is known as often as it was triggered or brought up by a directory looked at,
    and reported as often as a directory looked at lists it; the wait group counts what
    is queued, about to be queued or in hand. */
  ghost predicate Balanced(fs: Tree, s: State, p: Path) {
    && AllOk(fs, s.workers)
    && var held := Total(fs, s.workers, p);
       && Known(fs, s, p) == Count(s.triggered, p) + AllSubdirs(fs, s.visited, p) + held.kids
       && Count(s.emitted, p) == AllFiles(fs, s.visited, p) + held.files
       && s.counter == |s.queue| + |s.announced| + held.weight
  }

  lemma LookKeepsBalance(fs: Tree, s: State, w: nat, p: Path)
    requires Balanced(fs, s, p) && Enabled(fs, s, Look(w))
    ensures Balanced(fs, Apply(fs, s, Look(w)), p)
  {
    hide Total, AllSubdirs, AllFiles, Count;
    var d, n := s.workers[w].dir, s.workers[w].next;
    var e := Entries(fs, d)[n];
    var next := if e.kind.Directory? then Sending(d, n) else Scanning(d, n + 1);
    TotalUpdate(fs, s.workers, w, next, p);
    CountSnoc(Subdirs(fs, d, n), Child(d, e), p);
    CountSnoc(Files(fs, d, n), Child(d, e), p);
    CountSnoc(s.emitted, Child(d, e), p);
    assert Subdirs(fs, d, n) + [] == Subdirs(fs, d, n) && Files(fs, d, n) + [] == Files(fs, d, n);
  }

  lemma PushKeepsBalance(fs: Tree, s: State, w: nat, p: Path)
    requires Balanced(fs, s, p) && Enabled(fs, s, Push(w))
    ensures Balanced(fs, Apply(fs, s, Push(w)), p)
  {
    hide Total, AllSubdirs, AllFiles, Count, Subdirs, Files;
    var d, n := s.workers[w].dir, s.workers[w].next;
    TotalUpdate(fs, s.workers, w, Scanning(d, n + 1), p);
    CountSnoc(s.queue, Child(d, Entries(fs, d)[n]), p);
  }

  lemma FinishKeepsBalance(fs: Tree, s: State, w: nat, p: Path)
    requires Balanced(fs, s, p) && Enabled(fs, s, Finish(w))
    ensures Balanced(fs, Apply(fs, s, Finish(w)), p)
  {
    hide Total, Count, Subdirs, Files, AllSubdirs, AllFiles;
    var d := s.workers[w].dir;
    TotalUpdate(fs, s.workers, w, Idle, p);
    CountSnoc(s.visited, d, p);
    VisitedSnoc(fs, s.visited, d, p);
  }

  lemma VisitedSnoc(fs: Tree, ds: seq<Path>, d: Path, p: Path)
    ensures AllSubdirs(fs, ds + [d], p) == AllSubdirs(fs, ds, p) + Count(Subdirs(fs, d, |Entries(fs, d)|), p)
    ensures AllFiles(fs, ds + [d], p) == AllFiles(fs, ds, p) + Count(Files(fs, d, |Entries(fs, d)|), p)
  {
    hide Count, Subdirs, Files;
    assert (ds + [d])[..|ds|] == ds;
  }

  lemma TakeKeepsBalance(fs: Tree, s: State, w: nat, p: Path)
    requires Balanced(fs, s, p) && Enabled(fs, s, Take(w))
    ensures Balanced(fs, Apply(fs, s, Take(w)), p)
  {
    hide Total, AllSubdirs, AllFiles;
    var d := s.queue[0];
    TotalUpdate(fs, s.workers, w, Scanning(d, 0), p);
    CountConcat([d], s.queue[1..], p);
    CountOne(d, p);
    assert s.queue == [d] + s.queue[1..];
  }

  lemma SendKeepsBalance(fs: Tree, s: State, i: nat, p: Path)
    requires Balanced(fs, s, p) && Enabled(fs, s, Send(i))
    ensures Balanced(fs, Apply(fs, s, Send(i)), p)
  {
    hide Total, AllSubdirs, AllFiles, Count;
    var d, a, b := s.announced[i], s.announced[..i], s.announced[i + 1..];
    assert s.announced == a + [d] + b;
    CountConcat(a + [d], b, p);
    CountSnoc(a, d, p);
    CountConcat(a, b, p);
    CountSnoc(s.queue, d, p);
  }

  lemma TriggerKeepsBalance(fs: Tree, s: State, root: Path, p: Path)
    requires Balanced(fs, s, p)
    ensures Balanced(fs, Apply(fs, s, Trigger(root)), p)
  {
    hide Total, AllSubdirs, AllFiles, Count;
    CountSnoc(s.announced, root, p);
    CountSnoc(s.triggered, root, p);
  }

  lemma StepKeepsBalance(fs: Tree, s: State, step: Step, p: Path)
    requires Balanced(fs, s, p) && Enabled(fs, s, step)
    ensures Balanced(fs, Apply(fs, s, step), p)
    ensures Apply(fs, s, step).capacity == s.capacity && |Apply(fs, s, step).workers| == |s.workers|
  {
    hide Balanced;
    match step
    case Trigger(root) => TriggerKeepsBalance(fs, s, root, p);
    case Send(i) => SendKeepsBalance(fs, s, i, p);
    case Take(w) => TakeKeepsBalance(fs, s, w, p);
    case Look(w) => LookKeepsBalance(fs, s, w, p);
    case Push(w) => PushKeepsBalance(fs, s, w, p);
    case Finish(w) => FinishKeepsBalance(fs, s, w, p);
  }

  lemma {:induction false} IdleTotal(fs: Tree, ws: seq<Worker>, p: Path)
    requires forall i :: 0 <= i < |ws| ==> ws[i].Idle?
    ensures AllOk(fs, ws) && Total(fs, ws, p) == EMPTY
  {
    if ws != [] { IdleTotal(fs, ws[..|ws| - 1], p); }
  }

  lemma ExecSnoc(fs: Tree, s: State, steps: seq<Step>, step: Step)
    ensures var q := Exec(fs, s, steps);
            Exec(fs, s, steps + [step]) == if Enabled(fs, q, step) then Apply(fs, q, step) else q
  {
    assert (steps + [step])[..|steps|] == steps;
  }

  lemma InitialBalanced(fs: Tree, capacity: nat, scanners: nat, p: Path)
    ensures var s := Initial(capacity, scanners);
            Balanced(fs, s, p) && s.capacity == capacity && |s.workers| == scanners
  {
    IdleTotal(fs, Initial(capacity, scanners).workers, p);
  }

  /** In every interleaving of triggers and scanners, for every path. */
  lemma {:induction false} EveryRunBalances(fs: Tree, capacity: nat, scanners: nat, steps: seq<Step>, p: Path)
    ensures var s := Exec(fs, Initial(capacity, scanners), steps);
            Balanced(fs, s, p) && s.capacity == capacity && |s.workers| == scanners
  {
    hide Balanced, Enabled, Apply, Initial;
    if steps == [] {
      InitialBalanced(fs, capacity, scanners, p);
    } else {
      hide Exec;
      var n := |steps| - 1;
      EveryRunBalances(fs, capacity, scanners, steps[..n], p);
      var q := Exec(fs, Initial(capacity, scanners), steps[..n]);
      ExecSnoc(fs, Initial(capacity, scanners), steps[..n], steps[n]);
      assert steps == steps[..n] + [steps[n]];
      if Enabled(fs, q, steps[n]) { StepKeepsBalance(fs, q, steps[n], p); }
    }
  }
}
