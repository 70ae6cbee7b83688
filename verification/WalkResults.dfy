/** What a directory walk achieves: exact coverage when the wait group reaches zero. */
module WalkResults {
  import opened DirectoryWalk

  function Parent(p: Path): Path
    requires p != []
  {
    p[..|p| - 1]
  }

  /** `p` is listed by its readable parent directory, as an entry of the wanted sort. */
  ghost predicate Lists(fs: Tree, p: Path, files: bool) {
    && p != []
    && exists i :: 0 <= i < |Entries(fs, Parent(p))| && Matches(Entries(fs, Parent(p))[i], p, files)
  }

  predicate Matches(e: DirEntry, p: Path, files: bool)
    requires p != []
  {
    e.name == p[|p| - 1] && if files then Emitted(e) else e.kind.Directory?
  }

  ghost predicate IsSubdir(fs: Tree, p: Path) { Lists(fs, p, false) }

  ghost predicate IsReported(fs: Tree, p: Path) { Lists(fs, p, true) }

  function Listing(fs: Tree, d: Path, n: nat, files: bool): seq<Path>
    requires n <= |Entries(fs, d)|
  {
    if files then Files(fs, d, n) else Subdirs(fs, d, n)
  }

  lemma ListingSnoc(fs: Tree, d: Path, n: nat, files: bool, p: Path)
    requires 0 < n <= |Entries(fs, d)|
    ensures Count(Listing(fs, d, n, files), p) == Count(Listing(fs, d, n - 1, files), p)
      + if p != [] && d == Parent(p) && Matches(Entries(fs, d)[n - 1], p, files) then 1 else 0
  {
    var e := Entries(fs, d)[n - 1];
    var front := Listing(fs, d, n - 1, files);
    CountSnoc(front, Child(d, e), p);
    assert front + [] == front;
    assert Child(d, e) == p <==> p != [] && d == Parent(p) && e.name == p[|p| - 1] by {
      assert Child(d, e)[..|d|] == d;
      if p != [] { assert p == p[..|p| - 1] + [p[|p| - 1]]; }
    }
  }

  /** Names being distinct, a directory lists a path at most once. */
  lemma {:induction false} ListedOnce(fs: Tree, d: Path, n: nat, files: bool, p: Path)
    requires IsTree(fs) && n <= |Entries(fs, d)|
    ensures Count(Listing(fs, d, n, files), p)
         == if p != [] && d == Parent(p) && exists i :: 0 <= i < n && Matches(Entries(fs, d)[i], p, files) then 1 else 0
  {
    hide Count, Listing;
    if n > 0 {
      ListingSnoc(fs, d, n, files, p);
      ListedOnce(fs, d, n - 1, files, p);
      if p != [] && d == Parent(p) && Matches(Entries(fs, d)[n - 1], p, files) {
        forall i | 0 <= i < n - 1 ensures !Matches(Entries(fs, d)[i], p, files) {
          assert Entries(fs, d)[i].name != Entries(fs, d)[n - 1].name;
        }
      }
    } else {
      EmptyListing(fs, d, files, p);
    }
  }

  lemma EmptyListing(fs: Tree, d: Path, files: bool, p: Path)
    ensures Count(Listing(fs, d, 0, files), p) == 0
  {
  }

  lemma ListedWhole(fs: Tree, d: Path, files: bool, p: Path)
    requires IsTree(fs)
    ensures Count(Listing(fs, d, |Entries(fs, d)|, files), p) == if Lists(fs, p, files) then Is(d, Parent(p)) else 0
  {
    ListedOnce(fs, d, |Entries(fs, d)|, files, p);
  }

  /** Visited directories bring up `p` as often as its parent was visited. */
  lemma {:induction false} VisitedBringUp(fs: Tree, ds: seq<Path>, p: Path)
    requires IsTree(fs)
    ensures AllSubdirs(fs, ds, p) == if IsSubdir(fs, p) then Count(ds, Parent(p)) else 0
    ensures AllFiles(fs, ds, p) == if IsReported(fs, p) then Count(ds, Parent(p)) else 0
  {
    hide Lists;
    if ds != [] {
      var n := |ds| - 1;
      VisitedBringUp(fs, ds[..n], p);
      ListedWhole(fs, ds[n], false, p);
      ListedWhole(fs, ds[n], true, p);
    }
  }

  /** Scanners have brought up or reported `p` at most as often as they hold its parent. */
  lemma {:induction false} HeldBringUp(fs: Tree, ws: seq<Worker>, p: Path)
    requires IsTree(fs) && AllOk(fs, ws)
    ensures Total(fs, ws, p).kids <= if IsSubdir(fs, p) then Total(fs, ws, Parent(p)).hand else 0
    ensures Total(fs, ws, p).files <= if IsReported(fs, p) then Total(fs, ws, Parent(p)).hand else 0
  {
    hide Lists, Holds;
    if ws != [] {
      var n := |ws| - 1;
      HeldBringUp(fs, ws[..n], p);
      OneBringsUp(fs, ws[n], p);
    }
  }

  lemma OneBringsUp(fs: Tree, w: Worker, p: Path)
    requires IsTree(fs) && WorkerOk(fs, w)
    ensures Holds(fs, w, p).kids <= if IsSubdir(fs, p) then Holds(fs, w, Parent(p)).hand else 0
    ensures Holds(fs, w, p).files <= if IsReported(fs, p) then Holds(fs, w, Parent(p)).hand else 0
  {
    if !w.Idle? {
      var n := if w.Scanning? then w.next else w.next + 1;
      ListedOnce(fs, w.dir, n, false, p);
      ListedOnce(fs, w.dir, n, true, p);
      hide Count, Subdirs, Files;
    }
  }

  // -------------------------------------------------------------- coverage

  /** How often a path should be visited: once for each trigger of it, and once for each
    visit of the readable directory that lists it as a subdirectory. */
  ghost function Visits(fs: Tree, roots: seq<Path>, p: Path): nat
    decreases |p|
  {
    Count(roots, p) + if IsSubdir(fs, p) then Visits(fs, roots, Parent(p)) else 0
  }

  ghost function Reports(fs: Tree, roots: seq<Path>, p: Path): nat {
    if IsReported(fs, p) then Visits(fs, roots, Parent(p)) else 0
  }

  /** At no time is a path known more often than it should be visited. */
  lemma {:induction false} NeverTooOften(fs: Tree, capacity: nat, scanners: nat, steps: seq<Step>, p: Path)
    requires IsTree(fs)
    ensures var s := Exec(fs, Initial(capacity, scanners), steps);
            AllOk(fs, s.workers) && Known(fs, s, p) <= Visits(fs, s.triggered, p)
    decreases |p|
  {
    var s := Exec(fs, Initial(capacity, scanners), steps);
    EveryRunBalances(fs, capacity, scanners, steps, p);
    hide Exec, Lists, Total, Count, AllSubdirs, AllFiles;
    VisitedBringUp(fs, s.visited, p);
    HeldBringUp(fs, s.workers, p);
    if IsSubdir(fs, p) {
      SubdirHasParent(fs, p);
      NeverTooOften(fs, capacity, scanners, steps, Parent(p));
    }
  }

  lemma SubdirHasParent(fs: Tree, p: Path)
    requires IsSubdir(fs, p) || IsReported(fs, p)
    ensures p != []
  {
  }

  /** Only an empty ledger weighs nothing. */
  predicate Sound(l: Ledger) { l.weight > 0 || l.hand + l.kids + l.files == 0 }

  lemma HoldsSound(fs: Tree, w: Worker, p: Path)
    requires WorkerOk(fs, w)
    ensures Sound(Holds(fs, w, p))
  {
    hide Count, Subdirs, Files;
  }

  lemma PlusSound(a: Ledger, b: Ledger)
    requires Sound(a) && Sound(b)
    ensures Sound(Plus(a, b))
  {
  }

  lemma {:induction false} TotalSound(fs: Tree, ws: seq<Worker>, p: Path)
    requires AllOk(fs, ws)
    ensures Sound(Total(fs, ws, p))
  {
    if ws != [] {
      hide Holds, Plus, Sound;
      var n := |ws| - 1;
      TotalSound(fs, ws[..n], p);
      HoldsSound(fs, ws[n], p);
      PlusSound(Total(fs, ws[..n], p), Holds(fs, ws[n], p));
    }
  }

  /** When the wait group is at zero, every path has been visited exactly as often as it
    should have been, and nothing is queued or in hand. */
  lemma {:induction false} ZeroMeansVisited(fs: Tree, capacity: nat, scanners: nat, steps: seq<Step>, p: Path)
    requires IsTree(fs) && Exec(fs, Initial(capacity, scanners), steps).counter == 0
    ensures var s := Exec(fs, Initial(capacity, scanners), steps);
            && Count(s.visited, p) == Visits(fs, s.triggered, p)
            && Count(s.emitted, p) == AllFiles(fs, s.visited, p)
            && s.queue == [] && s.announced == []
    decreases |p|
  {
    var s := Exec(fs, Initial(capacity, scanners), steps);
    EveryRunBalances(fs, capacity, scanners, steps, p);
    TotalSound(fs, s.workers, p);
    VisitedBringUp(fs, s.visited, p);
    if IsSubdir(fs, p) {
      SubdirHasParent(fs, p);
      ZeroMeansVisited(fs, capacity, scanners, steps, Parent(p));
    }
  }

  /** The walk is exact: at every moment nothing has been visited or reported too often,
    and when the wait group is at zero everything has been visited and reported exactly
    as often as the triggers ask for. */
  lemma WalkIsExact(fs: Tree, capacity: nat, scanners: nat, steps: seq<Step>, p: Path)
    requires IsTree(fs)
    ensures var s := Exec(fs, Initial(capacity, scanners), steps);
            && Count(s.visited, p) <= Visits(fs, s.triggered, p)
            && Count(s.emitted, p) <= Reports(fs, s.triggered, p)
            && (s.counter == 0 ==>
                  Count(s.visited, p) == Visits(fs, s.triggered, p) && Count(s.emitted, p) == Reports(fs, s.triggered, p))
  {
    var s := Exec(fs, Initial(capacity, scanners), steps);
    EveryRunBalances(fs, capacity, scanners, steps, p);
    NeverTooOften(fs, capacity, scanners, steps, p);
    VisitedBringUp(fs, s.visited, p);
    HeldBringUp(fs, s.workers, p);
    hide Exec, Lists, Total, Count, AllSubdirs, AllFiles, Visits;
    if IsReported(fs, p) {
      SubdirHasParent(fs, p);
      NeverTooOften(fs, capacity, scanners, steps, Parent(p));
    }
    if s.counter == 0 {
      ZeroMeansVisited(fs, capacity, scanners, steps, p);
      if IsReported(fs, p) { ZeroMeansVisited(fs, capacity, scanners, steps, Parent(p)); }
    }
  }

  /** Reachable from the root through readable directories, without following links. */
  ghost predicate Walkable(fs: Tree, root: Path, p: Path)
    decreases |p|
  {
    p == root || (IsSubdir(fs, p) && Walkable(fs, root, Parent(p)))
  }

  /** A path is reported when its parent lists it as a regular file of an authorised type with
    readable information, and nothing else is. */
  lemma ReportedMeans(fs: Tree, p: Path)
    ensures IsReported(fs, p) <==> p != [] && DirEntry(p[|p| - 1], Regular(true, true)) in Entries(fs, p[..|p| - 1])
  {
    if p != [] {
      var es, e := Entries(fs, Parent(p)), DirEntry(p[|p| - 1], Regular(true, true));
      if e in es {
        var i :| 0 <= i < |es| && es[i] == e;
        assert Matches(es[i], p, true);
      }
      if IsReported(fs, p) {
        var i :| 0 <= i < |es| && Matches(es[i], p, true);
        assert es[i] == e;
      }
    }
  }

  /** A path is descended into when its parent lists it as a directory, and nothing else is:
    no link, no file. */
  lemma SubdirMeans(fs: Tree, p: Path)
    ensures IsSubdir(fs, p) <==> p != [] && DirEntry(p[|p| - 1], Directory) in Entries(fs, p[..|p| - 1])
  {
    if p != [] {
      var es, e := Entries(fs, Parent(p)), DirEntry(p[|p| - 1], Directory);
      if e in es {
        var i :| 0 <= i < |es| && es[i] == e;
        assert Matches(es[i], p, false);
      }
      if IsSubdir(fs, p) {
        var i :| 0 <= i < |es| && Matches(es[i], p, false);
        assert es[i] == e;
      }
    }
  }

  /** `p` extends the root, and every step from the root to `p` is a directory entry of a
    readable directory. */
  ghost predicate Reaches(fs: Tree, root: Path, p: Path) {
    root <= p && forall k :: |root| <= k < |p| ==> p[..k] in fs && DirEntry(p[k], Directory) in fs[p[..k]]
  }

  /** Step by step is all at once. */
  lemma {:induction false} ReachesMeans(fs: Tree, root: Path, p: Path)
    ensures Walkable(fs, root, p) <==> Reaches(fs, root, p)
    decreases |p|
  {
    hide Lists;
    SubdirMeans(fs, p);
    if p != [] && p != root {
      var n, q := |p| - 1, p[..|p| - 1];
      ReachesMeans(fs, root, q);
      assert forall k :: 0 <= k <= n ==> q[..k] == p[..k];
      assert p[..n] == q;
      if Walkable(fs, root, p) {
        assert root <= q && q <= p;
        forall k | |root| <= k < |p| ensures p[..k] in fs && DirEntry(p[k], Directory) in fs[p[..k]] {
          if k < n { assert q[..k] in fs && q[k] == p[k]; }
        }
      }
      if Reaches(fs, root, p) {
        assert |root| <= n;
        assert root <= q;
        forall k | |root| <= k < |q| ensures q[..k] in fs && DirEntry(q[k], Directory) in fs[q[..k]] {
          assert p[..k] in fs;
        }
        assert p[..n] in fs && DirEntry(p[n], Directory) in fs[p[..n]];
      }
    }
  }

  lemma {:induction false} OneRootVisits(fs: Tree, root: Path, p: Path)
    ensures Visits(fs, [root], p) == if Walkable(fs, root, p) then 1 else 0
    ensures Walkable(fs, root, p) ==> |root| <= |p|
    decreases |p|
  {
    hide Lists;
    CountOne(root, p);
    if IsSubdir(fs, p) {
      SubdirHasParent(fs, p);
      OneRootVisits(fs, root, Parent(p));
    }
  }

  /** After a single trigger: once the wait group is back at zero, every reachable directory
    was visited exactly once and every authorised regular file listed by one of them
    was reported exactly once, and nothing else was. */
  lemma SingleScanIsComplete(fs: Tree, capacity: nat, scanners: nat, steps: seq<Step>, root: Path, p: Path)
    requires IsTree(fs) && Exec(fs, Initial(capacity, scanners), steps).triggered == [root]
    ensures var s := Exec(fs, Initial(capacity, scanners), steps);
            s.counter == 0 ==>
              && Count(s.visited, p) == (if Walkable(fs, root, p) then 1 else 0)
              && Count(s.emitted, p) == (if IsReported(fs, p) && Walkable(fs, root, Parent(p)) then 1 else 0)
              && (Count(s.emitted, p) == 1 <==>
                    p != [] && DirEntry(p[|p| - 1], Regular(true, true)) in Entries(fs, p[..|p| - 1])
                    && Reaches(fs, root, p[..|p| - 1]))
              && (Count(s.visited, p) == 1 <==> Reaches(fs, root, p))
  {
    ReportedMeans(fs, p);
    ReachesMeans(fs, root, p);
    if p != [] { ReachesMeans(fs, root, Parent(p)); }
    hide Exec, Lists, Reaches, Walkable;
    WalkIsExact(fs, capacity, scanners, steps, p);
    OneRootVisits(fs, root, p);
    if IsReported(fs, p) {
      SubdirHasParent(fs, p);
      OneRootVisits(fs, root, Parent(p));
    }
  }

  // -------------------------------------------------- one scanner undisturbed

  /** What scanner `w` does with the first `n` entries of `d`. */
  function Alone(fs: Tree, d: Path, w: nat, n: nat): seq<Step>
    requires n <= |Entries(fs, d)|
  {
    if n == 0 then []
    else
      Alone(fs, d, w, n - 1) + [Look(w)] + if Entries(fs, d)[n - 1].kind.Directory? then [Push(w)] else []
  }

  /** What `HandleDirectory` has done to the queue, the reports and the wait group after
    `n` entries, as its contract states it. */
  function Handled(fs: Tree, s: State, d: Path, w: nat, n: nat): State
    requires n <= |Entries(fs, d)| && w < |s.workers|
  {
    s.(queue := s.queue + Subdirs(fs, d, n), emitted := s.emitted + Files(fs, d, n),
       counter := s.counter + |Subdirs(fs, d, n)|, workers := s.workers[w := Scanning(d, n)])
  }

  lemma HandledFile(fs: Tree, s: State, d: Path, w: nat, n: nat)
    requires n < |Entries(fs, d)| && w < |s.workers| && !Entries(fs, d)[n].kind.Directory?
    ensures Enabled(fs, Handled(fs, s, d, w, n), Look(w))
    ensures Apply(fs, Handled(fs, s, d, w, n), Look(w)) == Handled(fs, s, d, w, n + 1)
  {
    var q := Handled(fs, s, d, w, n);
    assert Files(fs, d, n) + [] == Files(fs, d, n) && Subdirs(fs, d, n) + [] == Subdirs(fs, d, n);
    assert q.workers[w := Scanning(d, n + 1)] == s.workers[w := Scanning(d, n + 1)];
  }

  lemma HandledSubdir(fs: Tree, s: State, d: Path, w: nat, n: nat)
    requires n < |Entries(fs, d)| && w < |s.workers| && Entries(fs, d)[n].kind.Directory?
    requires |s.queue| + |Subdirs(fs, d, n + 1)| <= s.capacity
    ensures Enabled(fs, Handled(fs, s, d, w, n), Look(w))
    ensures var q := Apply(fs, Handled(fs, s, d, w, n), Look(w));
            Enabled(fs, q, Push(w)) && Apply(fs, q, Push(w)) == Handled(fs, s, d, w, n + 1)
  {
    var q := Handled(fs, s, d, w, n);
    assert Files(fs, d, n) + [] == Files(fs, d, n);
    assert q.workers[w := Sending(d, n)][w := Scanning(d, n + 1)] == s.workers[w := Scanning(d, n + 1)];
  }

  /** With room in the queue and nobody interfering, the scanner's steps have the effect of
    one call of `HandleDirectory` up to its final decrement. */
  lemma {:induction false} AloneIsHandleDirectory(fs: Tree, s: State, d: Path, w: nat, n: nat)
    requires n <= |Entries(fs, d)| && w < |s.workers| && s.workers[w] == Scanning(d, 0)
    requires |s.queue| + |Subdirs(fs, d, n)| <= s.capacity
    ensures Exec(fs, s, Alone(fs, d, w, n)) == Handled(fs, s, d, w, n)
  {
    hide Exec, Handled, Alone, Subdirs;
    if n == 0 {
      NothingHandled(fs, s, d, w);
    } else {
      MoreSubdirs(fs, d, n - 1);
      AloneIsHandleDirectory(fs, s, d, w, n - 1);
      AloneStep(fs, s, d, w, n - 1);
    }
  }

  lemma MoreSubdirs(fs: Tree, d: Path, n: nat)
    requires n < |Entries(fs, d)|
    ensures |Subdirs(fs, d, n)| <= |Subdirs(fs, d, n + 1)|
  {
  }

  lemma NothingHandled(fs: Tree, s: State, d: Path, w: nat)
    requires w < |s.workers| && s.workers[w] == Scanning(d, 0)
    ensures Exec(fs, s, Alone(fs, d, w, 0)) == Handled(fs, s, d, w, 0)
  {
    assert s.workers[w := Scanning(d, 0)] == s.workers;
    assert s.queue + [] == s.queue && s.emitted + [] == s.emitted;
  }

  lemma AloneStep(fs: Tree, s: State, d: Path, w: nat, n: nat)
    requires n < |Entries(fs, d)| && w < |s.workers|
    requires |s.queue| + |Subdirs(fs, d, n + 1)| <= s.capacity
    requires Exec(fs, s, Alone(fs, d, w, n)) == Handled(fs, s, d, w, n)
    ensures Exec(fs, s, Alone(fs, d, w, n + 1)) == Handled(fs, s, d, w, n + 1)
  {
    hide Exec, Handled, Apply, Enabled, Subdirs;
    var before := Alone(fs, d, w, n);
    ExecSnoc(fs, s, before, Look(w));
    if Entries(fs, d)[n].kind.Directory? {
      HandledSubdir(fs, s, d, w, n);
      ExecSnoc(fs, s, before + [Look(w)], Push(w));
      assert Alone(fs, d, w, n + 1) == before + [Look(w)] + [Push(w)];
    } else {
      HandledFile(fs, s, d, w, n);
      assert Alone(fs, d, w, n + 1) == before + [Look(w)];
    }
  }
}
