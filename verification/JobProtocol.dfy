/** The job gate and the specialists around it, in every interleaving of arrivals,
  ticks and answers. */
module JobProtocol {
  import opened JobGate

  /** The gate, the accepted broadcasts that may still be answered, and what has become of
    every location the gate registered. */
  datatype System = System(
    gate: Gate, awaiting: multiset<string>,
    registered: seq<Location>, answered: seq<Location>, rejected: seq<Location>, emitted: seq<Segment>)

  datatype Step =
    | Arrive(l: Location)
    | TimeTick(order: seq<string>, outcome: string -> Broadcast)
    | Answer(id: string)
    | GiveUp(id: string)      // the coordinator drops an answer because the context is cancelled

  /** `honest` specialists answer accepted broadcasts only, each at most once. */
  ghost predicate Enabled(s: System, step: Step, honest: bool) {
    match step
    case Arrive(l) => true
    case TimeTick(order, outcome) => RangesOver(order, s.gate.jobs)
    case Answer(id) => honest ==> id in s.awaiting
    case GiveUp(id) => id in s.awaiting
  }

  ghost function Apply(s: System, step: Step): System {
    match step
    case Arrive(l) =>
      if l.fileID in s.gate.jobs then s else s.(gate := WithJob(s.gate, l), registered := s.registered + [l])
    case TimeTick(order, outcome) =>
      var t := AfterTick(s.gate, order, outcome);
      s.(gate := t.gate, awaiting := s.awaiting + multiset(t.sent), rejected := s.rejected + t.dropped)
    case Answer(id) =>
      s.(gate := WithoutJob(s.gate, id), awaiting := s.awaiting - multiset{id},
         answered := if id in s.gate.jobs then s.answered + [LocationOf(id, s.gate.jobs[id])] else s.answered,
         emitted := s.emitted + [SegmentFor(s.gate, id)])
    case GiveUp(id) => s.(awaiting := s.awaiting - multiset{id})
  }

  /** A run: steps that are not enabled do not happen. */
  ghost function Exec(s: System, steps: seq<Step>, honest: bool): System {
    if steps == [] then s
    else
      var p, step := Exec(s, steps[..|steps| - 1], honest), steps[|steps| - 1];
      if Enabled(p, step, honest) then Apply(p, step) else p
  }

  function Initial(max: uint32): System { System(Gate(max, 0, map[]), multiset{}, [], [], [], []) }

  function SegmentsOf(ls: seq<Location>): seq<Segment> {
    seq(|ls|, i requires 0 <= i < |ls| => Segment(ls[i].driveID, ls[i].fileID))
  }

  // ------------------------------------------------------ honest specialists

  ghost predicate Counted(s: System) {
    && s.gate.count == |Running(s.gate.jobs)| <= s.gate.max
    && (forall id :: s.awaiting[id] <= 1)
    && (forall id :: id in s.awaiting ==> id in Running(s.gate.jobs))
  }

  ghost predicate Conserved(s: System) {
    && multiset(s.registered) == Held(s.gate.jobs) + multiset(s.answered) + multiset(s.rejected)
    && s.emitted == SegmentsOf(s.answered)
  }

  lemma TickKeepsCounted(s: System, order: seq<string>, outcome: string -> Broadcast)
    requires Counted(s)
    ensures Counted(Apply(s, TimeTick(order, outcome)))
  {
    hide Running, AfterTick, Held;
    TickKeepsAccount(s.gate, order, outcome);
    TickKeepsHistory(s.gate, order, outcome);
    AddSent(s.awaiting, AfterTick(s.gate, order, outcome).sent, Running(s.gate.jobs), Running(AfterTick(s.gate, order, outcome).gate.jobs));
  }

  lemma AddSent(awaiting: multiset<string>, sent: seq<string>, before: set<string>, after: set<string>)
    requires forall id :: awaiting[id] <= 1
    requires forall id :: id in awaiting ==> id in before
    requires SentFresh(before, sent, after) && before <= after
    ensures forall id :: (awaiting + multiset(sent))[id] <= 1
    ensures forall id :: id in awaiting + multiset(sent) ==> id in after
  {
    forall id ensures (awaiting + multiset(sent))[id] <= 1 && (id in awaiting + multiset(sent) ==> id in after) {
      AtMostOnce(sent, id);
      assert id in multiset(sent) <==> id in sent;
    }
  }

  lemma {:induction false} AtMostOnce(sent: seq<string>, id: string)
    requires forall i, j :: 0 <= i < j < |sent| ==> sent[i] != sent[j]
    ensures multiset(sent)[id] <= 1
  {
    if sent != [] {
      var n := |sent| - 1;
      AtMostOnce(sent[..n], id);
      assert sent == sent[..n] + [sent[n]];
      assert sent[n] !in sent[..n];
    }
  }

  lemma StepKeepsCounted(s: System, step: Step)
    requires Counted(s) && Enabled(s, step, true)
    ensures Counted(Apply(s, step))
  {
    match step
    case Arrive(l) => if l.fileID !in s.gate.jobs { Register(s.gate.jobs, l); }
    case TimeTick(order, outcome) => TickKeepsCounted(s, order, outcome);
    case Answer(id) => AnswerKeepsCounted(s, id);
    case GiveUp(id) =>
  }

  lemma AnswerKeepsCounted(s: System, id: string)
    requires Counted(s) && id in s.awaiting
    ensures Counted(Apply(s, Answer(id)))
  {
    Forget(s.gate.jobs, id);
    hide Running, Held, Waiting;
    var r := Running(s.gate.jobs);
    assert |r - {id}| == |r| - 1;
  }

  lemma StepKeepsConserved(s: System, step: Step)
    requires Counted(s) && Conserved(s) && Enabled(s, step, true)
    ensures Conserved(Apply(s, step))
  {
    match step
    case Arrive(l) => if l.fileID !in s.gate.jobs { ArriveKeepsConserved(s, l); }
    case TimeTick(order, outcome) =>
      hide Running, AfterTick, Held;
      TickKeepsHistory(s.gate, order, outcome);
    case Answer(id) => AnswerKeepsConserved(s, id);
    case GiveUp(id) =>
  }

  lemma ArriveKeepsConserved(s: System, l: Location)
    requires Conserved(s) && l.fileID !in s.gate.jobs
    ensures Conserved(Apply(s, Arrive(l)))
  {
    Register(s.gate.jobs, l);
    hide Running, Held;
  }

  lemma AnswerKeepsConserved(s: System, id: string)
    requires Conserved(s) && id in s.gate.jobs
    ensures Conserved(Apply(s, Answer(id)))
  {
    hide Running, Held, Waiting;
    Forget(s.gate.jobs, id);
    var l := LocationOf(id, s.gate.jobs[id]);
    assert SegmentsOf(s.answered + [l]) == SegmentsOf(s.answered) + [Segment(l.driveID, l.fileID)];
  }

  /** In every run with honest specialists the counter is the number of running jobs and
    within the maximum, outstanding answers name distinct running jobs, every registered
    location is in exactly one of waiting, running, answered and rejected, and every
    emitted segment carries the drive its location was registered with. */
  lemma {:induction false} HonestRuns(max: uint32, steps: seq<Step>)
    ensures var s := Exec(Initial(max), steps, true);
            Counted(s) && Conserved(s) && s.gate.max == max
  {
    if steps == [] {
      var s := Initial(max);
      assert Running(s.gate.jobs) == {};
      assert SegmentsOf([]) == [];
    } else {
      var n := |steps| - 1;
      HonestRuns(max, steps[..n]);
      var p := Exec(Initial(max), steps[..n], true);
      if Enabled(p, steps[n], true) {
        StepKeepsCounted(p, steps[n]);
        StepKeepsConserved(p, steps[n]);
        MaxStays(p, steps[n]);
      }
    }
  }

  lemma MaxStays(s: System, step: Step)
    requires s.gate.count <= s.gate.max && s.gate.count <= |Running(s.gate.jobs)|
    ensures Apply(s, step).gate.max == s.gate.max
  {
    if step.TimeTick? { TickKeepsAccount(s.gate, step.order, step.outcome); }
  }

  /** Honest answers always find their job, so the unknown-file branch is never taken. */
  lemma AnswersFindTheirJob(max: uint32, steps: seq<Step>, id: string)
    ensures var s := Exec(Initial(max), steps, true);
            Enabled(s, Answer(id), true) ==>
              && id in s.gate.jobs
              && LocationOf(id, s.gate.jobs[id]) in s.registered
              && SegmentFor(s.gate, id).driveID == s.gate.jobs[id].driveID
  {
    HonestRuns(max, steps);
    var s := Exec(Initial(max), steps, true);
    if id in s.awaiting {
      Forget(s.gate.jobs, id);
      assert LocationOf(id, s.gate.jobs[id]) in multiset(s.registered);
    }
  }

  // ------------------------------------------------------ spurious answers

  /** Whatever answers arrive, the counter stays within the maximum and within the number
    of running jobs, so the subtraction in `processJobs` never wraps. */
  lemma {:induction false} AnyRun(max: uint32, steps: seq<Step>)
    ensures var s := Exec(Initial(max), steps, false);
            s.gate.max == max && s.gate.count <= max && s.gate.count <= |Running(s.gate.jobs)|
  {
    if steps != [] {
      var n := |steps| - 1;
      AnyRun(max, steps[..n]);
      var p, step := Exec(Initial(max), steps[..n], false), steps[n];
      if Enabled(p, step, false) {
        MaxStays(p, step);
        match step
        case Arrive(l) => if l.fileID !in p.gate.jobs { Register(p.gate.jobs, l); }
        case TimeTick(order, outcome) => TickKeepsAccount(p.gate, order, outcome);
        case Answer(id) => AnswerShrinks(p.gate, id);
        case GiveUp(id) =>
      }
    }
  }

  lemma AnswerShrinks(g: Gate, id: string)
    requires g.count <= |Running(g.jobs)|
    ensures WithoutJob(g, id).count <= |Running(WithoutJob(g, id).jobs)|
  {
    Forget(g.jobs, id);
    var r := Running(g.jobs);
    assert if id in r then |r - {id}| == |r| - 1 else r - {id} == r;
  }

  /** An answer keeps the distance between running jobs and the counter exactly when it names
    a running job and the counter is positive, or does neither; in particular it keeps an
    exact counter exact exactly then. */
  lemma AnswerKeepsExactness(g: Gate, id: string)
    ensures |Running(WithoutJob(g, id).jobs)| - WithoutJob(g, id).count == |Running(g.jobs)| - g.count
        <==> (id in Running(g.jobs) <==> g.count > 0)
  {
    Forget(g.jobs, id);
    var r := Running(g.jobs);
    assert if id in r then |r - {id}| == |r| - 1 else r - {id} == r;
  }

  /** One spurious answer is enough to run more jobs than the maximum. */
  lemma SpuriousAnswerOverAdmits(a: Location, b: Location, stranger: string)
    requires a.fileID != b.fileID && stranger != a.fileID && stranger != b.fileID
    ensures var send := (id: string) => Dispatched;
            var g1 := AfterTick(WithJob(Gate(1, 0, map[]), a), [a.fileID], send).gate;
            var g2 := WithJob(WithoutJob(g1, stranger), b);
            var g3 := AfterTick(g2, [a.fileID, b.fileID], send).gate;
            && RangesOver([a.fileID, b.fileID], g2.jobs)
            && g3.count == 1 == g3.max && |Running(g3.jobs)| == 2
  {
    var send := (id: string) => Dispatched;
    var x, y := a.fileID, b.fileID;
    var ja, jb := Job(a.driveID, a.path, a.mime, true), Job(b.driveID, b.path, b.mime, true);
    var g0 := WithJob(Gate(1, 0, map[]), a);
    OneVisit(Tick(g0, 1, [], []), x, send);
    var g1 := AfterTick(g0, [x], send).gate;
    assert g1 == Gate(1, 1, map[x := ja]);
    var g2 := WithJob(WithoutJob(g1, stranger), b);
    assert g2 == Gate(1, 0, map[x := ja, y := jb.(running := false)]);
    hide WithJob, WithoutJob, AfterTick, VisitAll, Running;
    SecondSent(x, y, ja, jb);
  }

  lemma SecondSent(x: string, y: string, ja: Job, jb: Job)
    requires x != y && ja.running && jb.running
    ensures var g2 := Gate(1, 0, map[x := ja, y := jb.(running := false)]);
            var g3 := AfterTick(g2, [x, y], (id: string) => Dispatched).gate;
            g3 == Gate(1, 1, map[x := ja, y := jb]) && Running(g3.jobs) == {x, y} && |{x, y}| == 2
  {
    var send := (id: string) => Dispatched;
    var t := Tick(Gate(1, 0, map[x := ja, y := jb.(running := false)]), 1, [], []);
    OneVisit(t, x, send);
    assert [x, y][..1] == [x];
    assert VisitAll(t, [x, y], send) == Visit(VisitAll(t, [x], send), y, Dispatched);
  }

  lemma OneVisit(t: Tick, id: string, outcome: string -> Broadcast)
    ensures VisitAll(t, [id], outcome) == Visit(t, id, outcome(id))
  {
    assert [id][..0] == [];
    assert VisitAll(t, [id][..0], outcome) == t;
  }
}
