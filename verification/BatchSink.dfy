/** The batching sink: fan-out workers share one buffer that is flushed when it is
  full or when its timer fires. The lock protects the append and the swap; the
  size-triggered flush runs after the lock has been released. */
module BatchSink {
  import opened Text

  /** What the lock protects: the buffered events and the timer field. Timers are numbered. */
  datatype Buffer<E> = Buffer(events: seq<E>, timer: Option<nat>, nextTimer: nat)

  /** The locked part of `handleNewFile`. */
  function Append<E>(b: Buffer<E>, e: E): Buffer<E> {
    var events := b.events + [e];
    if |events| == 1 && b.timer.None? then Buffer(events, Some(b.nextTimer), b.nextTimer + 1)
    else b.(events := events)
  }

  /** The locked part of `flush`. */
  function Swap<E>(b: Buffer<E>): Buffer<E> {
    b.(events := [], timer := None)
  }

  class AnalysisSink<E> {
    const maxAnalyzedEvent: int
    var events: seq<E>
    var timer: Option<nat>
    var nextTimer: nat
    /** The batches handed to storage, in order. */
    var handedOff: seq<seq<E>>

    ghost function View(): Buffer<E>
      reads this
    {
      Buffer(events, timer, nextTimer)
    }

    constructor (max: int)
      ensures View() == Buffer([], None, 0) && handedOff == [] && maxAnalyzedEvent == max
    {
      maxAnalyzedEvent, events, timer, nextTimer, handedOff := max, [], None, 0, [];
    }

    method AppendLocked(e: E) returns (isFull: bool)
      modifies this
      ensures View() == Append(old(View()), e) && handedOff == old(handedOff)
      ensures isFull <==> |old(events)| + 1 >= maxAnalyzedEvent
    {
      events := events + [e];
      if |events| == 1 && timer.None? {
        timer, nextTimer := Some(nextTimer), nextTimer + 1;
      }
      isFull := |events| >= maxAnalyzedEvent;
    }

    method Flush()
      modifies this
      ensures View() == Swap(old(View()))
      ensures handedOff == if old(events) == [] then old(handedOff) else old(handedOff) + [old(events)]
    {
      if timer.Some? {
        timer := None;
      }
      if |events| == 0 {
        return;
      }
      var batchEvents := events;
      events := [];
      handedOff := handedOff + [batchEvents];
    }

    /** Without interference: the event ends up in the buffer or in the batch just handed off. */
    method HandleNewFile(e: E)
      modifies this
      ensures if |old(events)| + 1 >= maxAnalyzedEvent
              then View() == Swap(Append(old(View()), e)) && handedOff == old(handedOff) + [old(events) + [e]]
              else View() == Append(old(View()), e) && handedOff == old(handedOff)
    {
      var isFull := AppendLocked(e);
      if isFull {
        Flush();
      }
    }
  }

  // ---------------------------------------------------------- interleavings

  /** `flushing[w]`: worker `w` saw a full buffer and is between unlock and flush.
    `armed` timers may still fire; `fired` ones have a callback waiting for the lock. */
  datatype State<E> = State(
    max: int, buffer: Buffer<E>, armed: set<nat>, fired: set<nat>, flushing: seq<bool>,
    batches: seq<seq<E>>, accepted: seq<E>)

  datatype Step<E> =
    | Accept(w: nat, e: E)    // a worker appends an event under the lock
    | SizeFlush(w: nat)       // that worker's flush takes the lock
    | Fire(t: nat)            // an armed timer goes off
    | TimerFlush(t: nat)      // its callback takes the lock, possibly long after

  predicate Enabled<E>(s: State<E>, step: Step<E>) {
    match step
    case Accept(w, e) => w < |s.flushing| && !s.flushing[w]
    case SizeFlush(w) => w < |s.flushing| && s.flushing[w]
    case Fire(t) => t in s.armed
    case TimerFlush(t) => t in s.fired
  }

  /** A flush: stopping the timer only helps if it has not fired yet. */
  function Flushed<E>(s: State<E>): State<E> {
    s.(buffer := Swap(s.buffer),
       armed := if s.buffer.timer.Some? then s.armed - {s.buffer.timer.value} else s.armed,
       batches := if s.buffer.events == [] then s.batches else s.batches + [s.buffer.events])
  }

  function Apply<E>(s: State<E>, step: Step<E>): State<E>
    requires Enabled(s, step)
  {
    match step
    case Accept(w, e) =>
      var b := Append(s.buffer, e);
      s.(buffer := b,
         armed := if b.nextTimer > s.buffer.nextTimer then s.armed + {s.buffer.nextTimer} else s.armed,
         flushing := s.flushing[w := |b.events| >= s.max],
         accepted := s.accepted + [e])
    case SizeFlush(w) => Flushed(s).(flushing := s.flushing[w := false])
    case Fire(t) => s.(armed := s.armed - {t}, fired := s.fired + {t})
    case TimerFlush(t) => Flushed(s).(fired := s.fired - {t})
  }

  /** A run: steps that are not enabled do not happen. */
  function Exec<E>(s: State<E>, steps: seq<Step<E>>): State<E> {
    if steps == [] then s
    else
      var p, step := Exec(s, steps[..|steps| - 1]), steps[|steps| - 1];
      if Enabled(p, step) then Apply(p, step) else p
  }

  lemma ExecSnoc<E>(s: State<E>, steps: seq<Step<E>>, step: Step<E>)
    ensures var p := Exec(s, steps);
            Exec(s, steps + [step]) == if Enabled(p, step) then Apply(p, step) else p
  {
    assert (steps + [step])[..|steps|] == steps;
  }

  function Initial<E>(max: int, workers: nat): State<E> {
    State(max, Buffer([], None, 0), {}, {}, seq(workers, _ => false), [], [])
  }

  /** How many workers are between unlock and flush. */
  function Flushing(ws: seq<bool>): (n: nat)
    ensures n <= |ws|
  {
    if ws == [] then 0 else Flushing(ws[..|ws| - 1]) + if ws[|ws| - 1] then 1 else 0
  }

  lemma {:induction false} FlushingUpdate(ws: seq<bool>, w: nat, b: bool)
    requires w < |ws|
    ensures Flushing(ws[w := b]) == Flushing(ws) - (if ws[w] then 1 else 0) + (if b then 1 else 0)
  {
    var n := |ws| - 1;
    if w == n {
      assert ws[w := b][..n] == ws[..n];
    } else {
      assert ws[w := b][..n] == ws[..n][w := b];
      FlushingUpdate(ws[..n], w, b);
    }
  }

  function Slack(max: int): nat { if max >= 1 then max - 1 else 0 }

  /** No event is lost, reordered or handed off twice, and no batch is empty. */
  ghost predicate InOrder<E>(s: State<E>) {
    && Flatten(s.batches) + s.buffer.events == s.accepted
    && (forall i :: 0 <= i < |s.batches| ==> s.batches[i] != [])
  }

  /** A buffer holds events exactly when it has a timer, and that timer is armed or its
    callback is waiting; no other timer is armed. */
  ghost predicate TimerGuards<E>(s: State<E>) {
    && (s.buffer.timer.Some? <==> s.buffer.events != [])
    && (s.buffer.timer.Some? ==> s.buffer.timer.value in s.armed || s.buffer.timer.value in s.fired)
    && (forall t :: t in s.armed ==> s.buffer.timer == Some(t))
    && (forall t :: t in s.armed ==> t < s.buffer.nextTimer)
    && (forall t :: t in s.fired ==> t < s.buffer.nextTimer)
  }

  /** The buffer exceeds its limit only by what the flushing workers added. */
  ghost predicate Bounded<E>(s: State<E>) {
    && |s.buffer.events| <= Slack(s.max) + Flushing(s.flushing)
    && (forall i :: 0 <= i < |s.batches| ==> |s.batches[i]| <= Slack(s.max) + |s.flushing|)
  }

  ghost predicate Inv<E>(s: State<E>) {
    InOrder(s) && TimerGuards(s) && Bounded(s)
  }

  lemma FlushKeeps<E>(s: State<E>)
    requires Inv(s)
    ensures InOrder(Flushed(s)) && TimerGuards(Flushed(s))
    ensures forall i :: 0 <= i < |Flushed(s).batches| ==> |Flushed(s).batches[i]| <= Slack(s.max) + |s.flushing|
  {
    FlattenConcat(s.batches, [s.buffer.events]);
    FlattenOne(s.buffer.events);
  }

  lemma StepKeepsInv<E>(s: State<E>, step: Step<E>)
    requires Inv(s) && Enabled(s, step)
    ensures Inv(Apply(s, step))
  {
    var n := Apply(s, step);
    match step
    case Accept(w, e) =>
      FlushingUpdate(s.flushing, w, |n.buffer.events| >= s.max);
      assert Flatten(n.batches) + n.buffer.events == Flatten(s.batches) + s.buffer.events + [e];
    case SizeFlush(w) =>
      FlushKeeps(s);
      FlushingUpdate(s.flushing, w, false);
    case Fire(t) =>
    case TimerFlush(t) =>
      FlushKeeps(s);
  }

  /** In every interleaving of appends, flushes, timers and stale timer callbacks. */
  lemma {:induction false} EveryRunKeepsInv<E>(max: int, workers: nat, steps: seq<Step<E>>)
    ensures var s := Exec(Initial(max, workers), steps);
            Inv(s) && s.max == max && |s.flushing| == workers
  {
    if steps == [] {
      var s := Initial<E>(max, workers);
      assert Flatten<E>([]) == [];
    } else {
      EveryRunKeepsInv(max, workers, steps[..|steps| - 1]);
      var p, step := Exec(Initial(max, workers), steps[..|steps| - 1]), steps[|steps| - 1];
      if Enabled(p, step) { StepKeepsInv(p, step); }
    }
  }

  /** Batches in hand-off order followed by the buffer are the accepted events in order;
    no batch is empty or larger than the limit less one plus the number of workers. */
  lemma BatchesAreTheEvents<E>(max: int, workers: nat, steps: seq<Step<E>>)
    ensures var s := Exec(Initial(max, workers), steps);
            && Flatten(s.batches) + s.buffer.events == s.accepted
            && (forall b :: b in s.batches ==> 0 < |b| <= Slack(max) + workers)
            && |s.buffer.events| <= Slack(max) + Flushing(s.flushing)
  {
    EveryRunKeepsInv(max, workers, steps);
  }

  /** No event is stranded: the buffer's own timer alone, without any further event,
    brings its content to storage. */
  lemma TimerRescues<E>(max: int, workers: nat, steps: seq<Step<E>>)
    ensures var s := Exec(Initial(max, workers), steps);
            s.buffer.events != [] ==>
              var t := s.buffer.timer;
              && t.Some?
              && var r := Exec(s, [Fire(t.value), TimerFlush(t.value)]);
                 r.buffer.events == [] && r.batches == s.batches + [s.buffer.events]
  {
    EveryRunKeepsInv(max, workers, steps);
    var s := Exec(Initial(max, workers), steps);
    if s.buffer.events != [] {
      var t := s.buffer.timer.value;
      var fire: Step<E>, flush: Step<E> := Fire(t), TimerFlush(t);
      ExecSnoc(s, [], fire);
      ExecSnoc(s, [fire], flush);
      assert [] + [fire] == [fire] && [fire] + [flush] == [fire, flush];
    }
  }

  // -------------------------------------------------------- the bound is met

  /** Worker 0 fills the buffer to one below the limit, then every worker appends once. */
  function Crowd<E>(max: nat, e: E, n: nat): seq<Step<E>>
    requires max >= 1
  {
    seq(n, i requires 0 <= i < n => Accept(if i < max - 1 then 0 else i - (max - 1), e))
  }

  lemma {:induction false} CrowdFills<E>(max: nat, workers: nat, e: E, n: nat)
    requires max >= 1 && workers >= 1 && n <= max - 1 + workers
    ensures var s := Exec(Initial(max, workers), Crowd(max, e, n));
            && s.max == max && |s.flushing| == workers && |s.buffer.events| == n && s.batches == []
            && forall w :: 0 <= w < workers ==> (s.flushing[w] <==> w + max <= n)
  {
    if n > 0 {
      CrowdFills(max, workers, e, n - 1);
      assert Crowd(max, e, n)[..n - 1] == Crowd(max, e, n - 1);
    }
  }

  /** The bound on batches is attained for every limit and every number of workers. */
  lemma BoundIsTight<E>(max: nat, workers: nat, e: E)
    requires max >= 1 && workers >= 1
    ensures var s := Exec(Initial(max, workers), Crowd(max, e, max - 1 + workers) + [SizeFlush(0)]);
            |s.batches| == 1 && |s.batches[0]| == max - 1 + workers
  {
    var crowd := Crowd(max, e, max - 1 + workers);
    CrowdFills(max, workers, e, max - 1 + workers);
    assert (crowd + [SizeFlush(0)])[..|crowd|] == crowd;
  }
}
