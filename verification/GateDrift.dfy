/** How answers that name no running job let the gate run more jobs than its maximum, and
  exactly when. */
module GateDrift {
  import opened Text
  import opened JobGate
  import opened JobProtocol
  import opened GateLoss

  /** What an answer does to the distance between running jobs and the counter: one more when
    it names no running job but lowers the counter, one less when it names one but finds
    the counter at zero. */
  ghost function DriftBy(s: System, step: Step): int {
    if !step.Answer? then 0
    else if step.id !in Running(s.gate.jobs) && s.gate.count > 0 then 1
    else if step.id in Running(s.gate.jobs) && s.gate.count == 0 then -1
    else 0
  }

  /** The drift of a run in which any answers may arrive. */
  ghost function Drift(max: uint32, steps: seq<Step>): int {
    if steps == [] then 0
    else
      var front, step := steps[..|steps| - 1], steps[|steps| - 1];
      var p := Exec(Initial(max), front, false);
      Drift(max, front) + if Enabled(p, step, false) then DriftBy(p, step) else 0
  }

  /** The counter is within its bounds, and outstanding answers name distinct running jobs. */
  ghost predicate Sane(s: System) {
    && s.gate.count <= s.gate.max && s.gate.count <= |Running(s.gate.jobs)|
    && (forall id :: s.awaiting[id] <= 1)
    && (forall id :: id in s.awaiting ==> id in Running(s.gate.jobs))
  }

  lemma TickDrifts(s: System, order: seq<string>, outcome: string -> Broadcast)
    requires Sane(s)
    ensures var r := Apply(s, TimeTick(order, outcome));
            && Sane(r) && |Running(r.gate.jobs)| - r.gate.count == |Running(s.gate.jobs)| - s.gate.count
  {
    hide Running, AfterTick, Held;
    TickKeepsAccount(s.gate, order, outcome);
    TickKeepsHistory(s.gate, order, outcome);
    var t := AfterTick(s.gate, order, outcome);
    AddSent(s.awaiting, t.sent, Running(s.gate.jobs), Running(t.gate.jobs));
  }

  lemma AnswerDrifts(s: System, id: string)
    requires Sane(s)
    ensures var r := Apply(s, Answer(id));
            && Sane(r)
            && |Running(r.gate.jobs)| - r.gate.count == |Running(s.gate.jobs)| - s.gate.count + DriftBy(s, Answer(id))
  {
    Forget(s.gate.jobs, id);
    hide Running, Held, Waiting;
    var r := Running(s.gate.jobs);
    assert if id in r then |r - {id}| == |r| - 1 else r - {id} == r;
  }

  lemma StepDrifts(s: System, step: Step)
    requires Sane(s) && Enabled(s, step, false)
    ensures var r := Apply(s, step);
            && Sane(r) && r.gate.max == s.gate.max
            && |Running(r.gate.jobs)| - r.gate.count == |Running(s.gate.jobs)| - s.gate.count + DriftBy(s, step)
  {
    MaxStays(s, step);
    match step
    case Arrive(l) => if l.fileID !in s.gate.jobs { Register(s.gate.jobs, l); }
    case TimeTick(order, outcome) => TickDrifts(s, order, outcome);
    case Answer(id) => AnswerDrifts(s, id);
    case GiveUp(id) =>
  }

  /** In every run, whatever answers arrive, as many jobs run as the counter and the drift say. */
  lemma {:induction false} RunningIsCountAndDrift(max: uint32, steps: seq<Step>)
    ensures var s := Exec(Initial(max), steps, false);
            && Sane(s) && s.gate.max == max
            && |Running(s.gate.jobs)| == s.gate.count + Drift(max, steps)
  {
    if steps == [] {
      assert Running(Initial(max).gate.jobs) == {};
    } else {
      hide Sane, Apply, Enabled, DriftBy, Running;
      var n := |steps| - 1;
      RunningIsCountAndDrift(max, steps[..n]);
      var p := Exec(Initial(max), steps[..n], false);
      if Enabled(p, steps[n], false) { StepDrifts(p, steps[n]); }
    }
  }

  // ------------------------------------------------------- from there on

  /** Without drift, honest steps keep the counter exact. */
  lemma {:induction false} ExactStaysWithin(s: System, more: seq<Step>)
    requires Counted(s)
    ensures var r := Exec(s, more, true);
            Counted(r) && r.gate.max == s.gate.max && |Running(r.gate.jobs)| <= s.gate.max
  {
    if more != [] {
      hide Enabled, Apply, Running;
      var n := |more| - 1;
      ExactStaysWithin(s, more[..n]);
      var p := Exec(s, more[..n], true);
      if Enabled(p, more[n], true) {
        StepKeepsCounted(p, more[n]);
        MaxStays(p, more[n]);
      }
    }
  }

  /** As many new files as one likes can arrive. */
  lemma {:induction false} Arrivals(s: System, n: nat) returns (more: seq<Step>)
    ensures var r := Exec(s, more, true);
            && r.gate.count == s.gate.count && r.gate.max == s.gate.max
            && Running(r.gate.jobs) == Running(s.gate.jobs) && |r.gate.jobs| == |s.gate.jobs| + n
  {
    if n == 0 {
      more := [];
    } else {
      hide Running;
      var front := Arrivals(s, n - 1);
      var p := Exec(s, front, true);
      var id := LongName(p.gate.jobs.Keys);
      var l := Location("drive", id, "/tmp/file", "application/pdf");
      assert id !in p.gate.jobs;
      ExecOne(s, front, Arrive(l));
      Register(p.gate.jobs, l);
      more := front + [Arrive(l)];
    }
  }

  lemma {:induction false} AllSentStay(t: Tick, order: seq<string>)
    ensures VisitAll(t, order, (id: string) => Dispatched).gate.jobs.Keys == t.gate.jobs.Keys
  {
    if order != [] { AllSentStay(t, order[..|order| - 1]); }
  }

  /** A tick over more jobs than the maximum, with drift, runs more than the maximum. */
  lemma TickOverAdmits(g: Gate, order: seq<string>)
    requires g.count <= g.max && g.count < |Running(g.jobs)| && |g.jobs| > g.max && RangesOver(order, g.jobs)
    ensures |Running(AfterTick(g, order, (id: string) => Dispatched).gate.jobs)| > g.max
  {
    hide AfterTick, Running, Waiting;
    var send := (id: string) => Dispatched;
    TickKeepsAccount(g, order, send);
    SendingTickKeepsKeys(g, order);
    var t := AfterTick(g, order, send);
    SameSize(t.gate.jobs, g.jobs);
    SameRange(order, g.jobs, t.gate.jobs);
    AllOrMax(order, t.gate);
  }

  lemma SendingTickKeepsKeys(g: Gate, order: seq<string>)
    ensures AfterTick(g, order, (id: string) => Dispatched).gate.jobs.Keys == g.jobs.Keys
  {
    AllSentStay(Tick(g, Wrap(g.max - g.count), [], []), order);
  }

  lemma SameSize(a: map<string, Job>, b: map<string, Job>)
    requires a.Keys == b.Keys
    ensures |a| == |b|
  {
    NoneWaiting(a);
    NoneWaiting(b);
  }

  lemma SameRange(order: seq<string>, a: map<string, Job>, b: map<string, Job>)
    requires RangesOver(order, a) && a.Keys == b.Keys
    ensures RangesOver(order, b)
  {
    forall id ensures id in order <==> id in b { assert id in a <==> id in a.Keys; }
  }

  /** If nothing ranged over is left waiting, everything runs. */
  lemma AllOrMax(order: seq<string>, g: Gate)
    requires RangesOver(order, g.jobs)
    ensures (forall id :: id in order ==> id !in Waiting(g.jobs)) ==> |Running(g.jobs)| == |g.jobs|
  {
    NoneWaiting(g.jobs);
  }

  /** With drift, the gate can run more jobs than its maximum: let enough files arrive, then
    let a tick send them out. */
  lemma DriftOverAdmits(s: System) returns (more: seq<Step>)
    requires Sane(s) && s.gate.count < |Running(s.gate.jobs)|
    ensures |Running(Exec(s, more, true).gate.jobs)| > s.gate.max
  {
    var front := Arrivals(s, s.gate.max);
    var p := Exec(s, front, true);
    RunningFits(s.gate.jobs);
    hide Running, Exec, RangesOver;
    var order := Enumerate(p.gate.jobs.Keys);
    var tick := TimeTick(order, (id: string) => Dispatched);
    EnumerationRanges(order, p.gate.jobs);
    ExecOne(s, front, tick);
    TickOverAdmits(p.gate, order);
    more := front + [tick];
  }

  lemma RunningFits(jobs: map<string, Job>)
    ensures |Running(jobs)| <= |jobs|
  {
    assert Running(jobs) <= jobs.Keys;
    SubsetSize(Running(jobs), jobs.Keys);
  }

  lemma EnumerationRanges(order: seq<string>, jobs: map<string, Job>)
    requires (forall id :: id in order <==> id in jobs.Keys)
    requires forall i, j :: 0 <= i < j < |order| ==> order[i] != order[j]
    ensures RangesOver(order, jobs)
  {
  }

  /** After any run, the gate can still come to run more jobs than its maximum, with honest
    specialists from then on, if and only if the run has drifted. */
  lemma OverAdmitsIff(max: uint32, steps: seq<Step>)
    ensures var s := Exec(Initial(max), steps, false);
            (exists more :: |Running(Exec(s, more, true).gate.jobs)| > max) <==> Drift(max, steps) > 0
  {
    var s := Exec(Initial(max), steps, false);
    RunningIsCountAndDrift(max, steps);
    hide Drift, Running;
    if s.gate.count < |Running(s.gate.jobs)| {
      var more := DriftOverAdmits(s);
      assert |Running(Exec(s, more, true).gate.jobs)| > max;
    } else {
      forall more ensures |Running(Exec(s, more, true).gate.jobs)| <= max { ExactStaysWithin(s, more); }
    }
  }
}
