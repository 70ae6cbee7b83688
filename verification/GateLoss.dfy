/** Capacity the job gate loses for good: to files no specialist handles and to answers the
  coordinator drops. */
module GateLoss {
  import opened Text
  import opened JobGate
  import opened JobProtocol

  /** All slots taken and no answer outstanding. */
  ghost predicate Exhausted(s: System) {
    s.gate.count == s.gate.max && s.awaiting == multiset{}
  }

  /** From there the gate never sends, answers or drops a file again; it only collects more. */
  lemma {:induction false} ExhaustedIsFinal(s: System, steps: seq<Step>)
    requires Exhausted(s)
    ensures var r := Exec(s, steps, true);
            && Exhausted(r) && r.gate.count == s.gate.count && Running(r.gate.jobs) == Running(s.gate.jobs)
            && r.answered == s.answered && r.rejected == s.rejected && r.emitted == s.emitted
            && s.gate.jobs.Keys <= r.gate.jobs.Keys
  {
    if steps != [] {
      hide Enabled, Apply, Running, Exhausted;
      var n := |steps| - 1;
      ExhaustedIsFinal(s, steps[..n]);
      var p := Exec(s, steps[..n], true);
      if Enabled(p, steps[n], true) { ExhaustedStep(p, steps[n]); }
    }
  }

  lemma ExhaustedStep(p: System, step: Step)
    requires Exhausted(p) && Enabled(p, step, true)
    ensures var r := Apply(p, step);
            && Exhausted(r) && r.gate.count == p.gate.count && Running(r.gate.jobs) == Running(p.gate.jobs)
            && r.answered == p.answered && r.rejected == p.rejected && r.emitted == p.emitted
            && p.gate.jobs.Keys <= r.gate.jobs.Keys
  {
    match step
    case Arrive(l) => if l.fileID !in p.gate.jobs { Register(p.gate.jobs, l); }
    case TimeTick(order, outcome) =>
      NoSlots(Tick(p.gate, 0, [], []), order, outcome);
      assert p.rejected + [] == p.rejected && p.awaiting + multiset([]) == p.awaiting;
    case Answer(id) =>
    case GiveUp(id) =>
  }

  /** Files no specialist handles are never answered and never released: one tick over at
    least `max` of them exhausts the gate for good. */
  lemma UnhandledFilesExhaustTheGate(s: System, order: seq<string>)
    requires Counted(s) && s.awaiting == multiset{} && |s.gate.jobs| >= s.gate.max
    requires RangesOver(order, s.gate.jobs)
    ensures Exhausted(Apply(s, TimeTick(order, (id: string) => NoSpecialist)))
  {
    var none := (id: string) => NoSpecialist;
    var t := AfterTick(s.gate, order, none);
    TickKeepsAccount(s.gate, order, none);
    AllStay(Tick(s.gate, Wrap(s.gate.max - s.gate.count), [], []), order);
    NoneWaiting(t.gate.jobs);
    NoneWaiting(s.gate.jobs);
  }

  lemma NoneWaiting(jobs: map<string, Job>)
    ensures |jobs| == |jobs.Keys|
    ensures (forall id :: id in jobs ==> id !in Waiting(jobs)) ==> |Running(jobs)| == |jobs|
  {
    assert (forall id :: id in jobs ==> id !in Waiting(jobs)) ==> Running(jobs) == jobs.Keys;
  }

  lemma {:induction false} AllStay(t: Tick, order: seq<string>)
    ensures var r := VisitAll(t, order, (id: string) => NoSpecialist);
            r.gate.jobs.Keys == t.gate.jobs.Keys && r.sent == t.sent
  {
    if order != [] { AllStay(t, order[..|order| - 1]); }
  }

  /** The slots a step loses: one for each file that a tick sends to no specialist, one for
    an answer that the coordinator drops. */
  ghost function LostBy(s: System, step: Step): nat {
    match step
    case TimeTick(order, outcome) =>
      |Unhandled(Running(s.gate.jobs), Running(AfterTick(s.gate, order, outcome).gate.jobs), outcome)|
    case GiveUp(id) => 1
    case Arrive(l) => 0
    case Answer(id) => 0
  }

  ghost function Unhandled(before: set<string>, after: set<string>, outcome: string -> Broadcast): set<string> {
    set id | id in after && id !in before && outcome(id) == NoSpecialist
  }

  /** The slots lost in an honest run. */
  ghost function Lost(max: uint32, steps: seq<Step>): nat {
    if steps == [] then 0
    else
      var front, step := steps[..|steps| - 1], steps[|steps| - 1];
      var p := Exec(Initial(max), front, true);
      Lost(max, front) + if Enabled(p, step, true) then LostBy(p, step) else 0
  }

  /** Of the files that start to run in a tick, those dispatched are sent and the others are
    unhandled; a failed broadcast starts nothing. */
  ghost predicate Explained(before: set<string>, t: Tick, outcome: string -> Broadcast) {
    forall id :: id in Running(t.gate.jobs) && id !in before ==>
      outcome(id) != Failed && (id in t.sent <==> outcome(id) == Dispatched)
  }

  lemma VisitKeepsExplained(before: set<string>, t: Tick, id: string, outcome: string -> Broadcast)
    requires Explained(before, t, outcome) && forall x :: x in t.sent ==> x in Running(t.gate.jobs)
    ensures var n := Visit(t, id, outcome(id));
            Explained(before, n, outcome) && forall x :: x in n.sent ==> x in Running(n.gate.jobs)
  {
    RunningOrWaiting(t.gate.jobs, id);
    if t.left != 0 && id in t.gate.jobs && !t.gate.jobs[id].running {
      StartRunning(t.gate.jobs, id);
      Forget(t.gate.jobs, id);
    }
    hide Running, Waiting, Held, LocationOf, Wrap;
  }

  lemma {:induction false} TickIsExplained(g: Gate, order: seq<string>, outcome: string -> Broadcast)
    ensures var t := AfterTick(g, order, outcome);
            Explained(Running(g.jobs), t, outcome) && forall x :: x in t.sent ==> x in Running(t.gate.jobs)
  {
    if order != [] {
      hide Explained, Visit;
      var n := |order| - 1;
      TickIsExplained(g, order[..n], outcome);
      VisitKeepsExplained(Running(g.jobs), AfterTick(g, order[..n], outcome), order[n], outcome);
    }
  }

  /** What starts to run in a tick was sent or is unhandled. */
  lemma StartedCount(before: set<string>, t: Tick, outcome: string -> Broadcast)
    requires Explained(before, t, outcome) && SentFresh(before, t.sent, Running(t.gate.jobs))
    requires before <= Running(t.gate.jobs)
    ensures |Running(t.gate.jobs)| == |before| + |t.sent| + |Unhandled(before, Running(t.gate.jobs), outcome)|
  {
    hide Running;
    var after := Running(t.gate.jobs);
    var sent := set x | x in t.sent;
    var rest := Unhandled(before, after, outcome);
    DistinctSize(t.sent);
    assert after == before + (sent + rest);
    assert before !! (sent + rest) && sent !! rest;
  }

  lemma TickLoses(s: System, order: seq<string>, outcome: string -> Broadcast)
    requires Counted(s)
    ensures var r := Apply(s, TimeTick(order, outcome));
            r.gate.count - |r.awaiting| == s.gate.count - |s.awaiting| + LostBy(s, TimeTick(order, outcome))
  {
    hide Running, AfterTick, Held, Explained, SentFresh, Unhandled;
    var t := AfterTick(s.gate, order, outcome);
    TickKeepsAccount(s.gate, order, outcome);
    TickKeepsHistory(s.gate, order, outcome);
    TickIsExplained(s.gate, order, outcome);
    StartedCount(Running(s.gate.jobs), t, outcome);
    assert |s.awaiting + multiset(t.sent)| == |s.awaiting| + |t.sent|;
  }

  lemma StepLoses(s: System, step: Step)
    requires Counted(s) && Enabled(s, step, true)
    ensures var r := Apply(s, step);
            r.gate.count - |r.awaiting| == s.gate.count - |s.awaiting| + LostBy(s, step)
  {
    match step
    case Arrive(l) =>
    case TimeTick(order, outcome) => TickLoses(s, order, outcome);
    case Answer(id) =>
      assert |s.awaiting - multiset{id}| == |s.awaiting| - 1;
      assert id in Running(s.gate.jobs);
    case GiveUp(id) =>
      assert |s.awaiting - multiset{id}| == |s.awaiting| - 1;
  }

  /** In every honest run the counter is what is awaited and what is lost, and the gate is
    exhausted exactly when as many slots are lost as there are. */
  lemma {:induction false} SlotsAreAwaitedOrLost(max: uint32, steps: seq<Step>)
    ensures var s := Exec(Initial(max), steps, true);
            && s.gate.count == |s.awaiting| + Lost(max, steps) && Lost(max, steps) <= max == s.gate.max
            && (Exhausted(s) <==> Lost(max, steps) == max)
  {
    var s := Exec(Initial(max), steps, true);
    HonestRuns(max, steps);
    if steps != [] {
      hide Counted, Conserved, Apply, Enabled, LostBy;
      var n := |steps| - 1;
      var p := Exec(Initial(max), steps[..n], true);
      HonestRuns(max, steps[..n]);
      SlotsAreAwaitedOrLost(max, steps[..n]);
      if Enabled(p, steps[n], true) { StepLoses(p, steps[n]); }
    }
    CountFits(s);
    assert |s.awaiting| == 0 <==> s.awaiting == multiset{};
  }

  lemma CountFits(s: System)
    requires Counted(s)
    ensures s.gate.count <= s.gate.max
  {
  }

  /** A lost slot stays lost. */
  lemma {:induction false} LossesOnlyGrow(max: uint32, steps: seq<Step>, n: nat)
    requires n <= |steps|
    ensures Lost(max, steps[..n]) <= Lost(max, steps)
  {
    hide LostBy, Exec, Enabled;
    var m := |steps| - 1;
    if n <= m {
      LossesOnlyGrow(max, steps[..m], n);
      assert steps[..m][..n] == steps[..n];
    } else {
      assert steps[..n] == steps;
    }
  }

  // ------------------------------------------ a gate that is not exhausted answers

  lemma {:induction false} Enumerate(keys: set<string>) returns (order: seq<string>)
    ensures (forall id :: id in order <==> id in keys)
    ensures forall i, j :: 0 <= i < j < |order| ==> order[i] != order[j]
  {
    if keys == {} {
      order := [];
    } else {
      var id :| id in keys;
      var rest := Enumerate(keys - {id});
      order := rest + [id];
    }
  }

  /** Some name is longer than all those in use. */
  lemma {:induction false} LongName(keys: set<string>) returns (name: string)
    ensures forall k :: k in keys ==> |k| < |name|
  {
    if keys == {} {
      name := "a";
    } else {
      var id :| id in keys;
      var other := LongName(keys - {id});
      name := if |other| > |id| then other else id + "a";
      forall k | k in keys ensures |k| < |name| { assert k == id || k in keys - {id}; }
    }
  }

  lemma {:induction false} SentStays(t: Tick, order: seq<string>, outcome: string -> Broadcast, id: string)
    requires id in t.sent
    ensures id in VisitAll(t, order, outcome).sent
  {
    if order != [] { SentStays(t, order[..|order| - 1], outcome, id); }
  }

  /** A tick with a slot left that ranges over a new file first sends it out. */
  lemma FirstIsSent(g: Gate, l: Location, rest: seq<string>)
    requires g.count < g.max && l.fileID !in g.jobs
    ensures l.fileID in AfterTick(WithJob(g, l), [l.fileID] + rest, (id: string) => Dispatched).sent
  {
    var send := (id: string) => Dispatched;
    var start, order := Tick(WithJob(g, l), Wrap(g.max - g.count), [], []), [l.fileID] + rest;
    OneVisit(start, l.fileID, send);
    SplitVisit(start, order, 1, send);
    assert order[..1] == [l.fileID] && order[1..] == rest;
    SentStays(VisitAll(start, [l.fileID], send), rest, send, l.fileID);
  }

  lemma ExecOne(s: System, steps: seq<Step>, step: Step)
    requires Enabled(Exec(s, steps, true), step, true)
    ensures Exec(s, steps + [step], true) == Apply(Exec(s, steps, true), step)
  {
    assert (steps + [step])[..|steps|] == steps;
  }

  /** A gate that is not exhausted can still answer: some honest continuation emits. */
  lemma CanStillAnswer(s: System) returns (more: seq<Step>)
    requires Counted(s) && !Exhausted(s)
    ensures |Exec(s, more, true).emitted| > |s.emitted|
  {
    hide Running;
    assert Exec(s, [], true) == s;
    if s.awaiting != multiset{} {
      var id :| id in s.awaiting;
      more := [] + [Answer(id)];
      ExecOne(s, [], Answer(id));
    } else {
      var id := LongName(s.gate.jobs.Keys);
      var l := Location("drive", id, "/tmp/file", "application/pdf");
      var keys := Enumerate(s.gate.jobs.Keys);
      assert id !in s.gate.jobs;
      var tick := TimeTick([id] + keys, (x: string) => Dispatched);
      ExecOne(s, [], Arrive(l));
      var s1 := Apply(s, Arrive(l));
      RangesWithNew(s.gate.jobs, keys, id, s1.gate.jobs);
      ExecOne(s, [] + [Arrive(l)], tick);
      FirstIsSent(s.gate, l, keys);
      var s2 := Apply(s1, tick);
      SentIsAwaited(s1.awaiting, AfterTick(s1.gate, [id] + keys, (x: string) => Dispatched).sent, id);
      ExecOne(s, [] + [Arrive(l)] + [tick], Answer(id));
      more := [] + [Arrive(l)] + [tick] + [Answer(id)];
    }
  }

  lemma SentIsAwaited(awaiting: multiset<string>, sent: seq<string>, id: string)
    requires id in sent
    ensures id in awaiting + multiset(sent)
  {
  }

  lemma RangesWithNew(jobs: map<string, Job>, keys: seq<string>, id: string, more: map<string, Job>)
    requires (forall k :: k in keys <==> k in jobs) && (forall i, j :: 0 <= i < j < |keys| ==> keys[i] != keys[j])
    requires id !in jobs && more.Keys == jobs.Keys + {id}
    ensures RangesOver([id] + keys, more)
  {
    assert forall i :: 0 <= i < |keys| ==> keys[i] in keys;
  }

  /** The gate is lost for good, that is, no honest continuation ever emits another answer,
    if and only if the run lost as many slots as there are: to files no specialist
    handles and to dropped answers. */
  lemma GateIsLostIff(max: uint32, steps: seq<Step>)
    ensures var s := Exec(Initial(max), steps, true);
            (forall more :: Exec(s, more, true).emitted == s.emitted) <==> Lost(max, steps) == max
  {
    var s := Exec(Initial(max), steps, true);
    HonestRuns(max, steps);
    SlotsAreAwaitedOrLost(max, steps);
    hide Counted, Conserved, Exhausted, Lost;
    if Exhausted(s) {
      forall more ensures Exec(s, more, true).emitted == s.emitted { ExhaustedIsFinal(s, more); }
    } else {
      var more := CanStillAnswer(s);
      assert Exec(s, more, true).emitted != s.emitted;
    }
  }
}
