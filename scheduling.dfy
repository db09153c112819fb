/** The cooperative round-robin scheduler of the desktop and the two periodic
    tasks it runs (main.py). A Python generator is replaced by an explicit
    step-state value: `Advance` is one `next(gen)`. */
module Scheduling {
  import opened Wrappers

  /** The two reference tasks: the status blink of a document window and the
      title-bar clock. */
  datatype PeriodicKind = Blink | Clock

  /** Number of `yield`s in each round of each periodic task's loop. */
  const BlinkPeriod: nat := 25
  const ClockPeriod: nat := 40

  /** Default delay between two ticks of the scheduler, in milliseconds. */
  const DefaultTickMs: nat := 25

  function Period(kind: PeriodicKind): nat {
    match kind
    case Blink => BlinkPeriod
    case Clock => ClockPeriod
  }

  /** A suspended generator.
      Periodic: a `while True` loop that publishes an update and then yields
      `Period(kind)` times; `phase` is how many of those yields are done in the
      current round (0 means the next resumption starts at the top of the loop)
      and `rounds` counts the rounds started so far. At the top of each round
      the clock republishes the title; the blink task sets its status only
      when it reads "Ready".
      Finite: a generator that will yield `yieldsLeft` more times and then end. */
  datatype Task =
    | Periodic(kind: PeriodicKind, phase: nat, rounds: nat)
    | Finite(yieldsLeft: nat)

  /** A periodic task stands at one of its Period(kind) yields. */
  predicate ValidTask(t: Task) {
    t.Periodic? ==> t.phase < Period(t.kind)
  }

  /** A periodic task that has not been started yet. */
  function Fresh(kind: PeriodicKind): (t: Task)
    ensures ValidTask(t) && t.Periodic? && t.kind == kind
  {
    Periodic(kind, 0, 0)
  }

  /** Outcome of one `next(gen)`: the generator suspended again, or it raised
      `StopIteration`. */
  datatype StepResult = Yielded(resumed: Task) | StopIteration

  /** Run a task until its next `yield` (or its end). A periodic loop never
      ends, a finite task ends once its yields are used up, and a task that
      yields keeps its kind and stays valid. */
  function Advance(t: Task): (r: StepResult)
    ensures t.Periodic? ==> r.Yielded? && r.resumed.Periodic? && r.resumed.kind == t.kind
    ensures t.Periodic? ==> r.resumed.rounds == if t.phase == 0 then t.rounds + 1 else t.rounds
    ensures t.Finite? ==> (r.StopIteration? <==> t.yieldsLeft == 0)
    ensures t.Finite? && r.Yielded? ==> r.resumed == Finite(t.yieldsLeft - 1)
    ensures r.Yielded? ==> ValidTask(r.resumed)
  {
    match t
    case Periodic(kind, phase, rounds) =>
      Yielded(Periodic(kind, (phase + 1) % Period(kind), if phase == 0 then rounds + 1 else rounds))
    case Finite(n) =>
      if n == 0 then StopIteration else Yielded(Finite(n - 1))
  }

  /** The state of a task after `k` resumptions, or None if it ended on the way. */
  function Resume(t: Task, k: nat): Option<Task> {
    if k == 0 then Some(t)
    else match Resume(t, k - 1)
      case None => None
      case Some(u) =>
        match Advance(u)
        case Yielded(v) => Some(v)
        case StopIteration => None
  }

  /** What a resumed task contributes to the queue tail: itself if it yielded,
      nothing if it finished. */
  function Survive(t: Task): seq<Task> {
    match Advance(t)
    case Yielded(u) => [u]
    case StopIteration => []
  }

  /** The queue after one tick: the head leaves the front and comes back,
      resumed, at the tail unless it finished (`TickFront`: the others keep
      their order). */
  function Tick(q: seq<Task>): (r: seq<Task>)
    ensures q == [] ==> r == []
    ensures q != [] ==> |r| == |q| - 1 + |Survive(q[0])|
    ensures q != [] && Advance(q[0]).Yielded? ==> r[|q| - 1] == Advance(q[0]).resumed
  {
    if q == [] then [] else q[1..] + Survive(q[0])
  }

  /** A tick keeps every queued task valid. */
  lemma TickKeepsValid(q: seq<Task>)
    requires forall i :: 0 <= i < |q| ==> ValidTask(q[i])
    ensures forall i :: 0 <= i < |Tick(q)| ==> ValidTask(Tick(q)[i])
  {
  }

  /** The queue after `n` ticks. */
  function Ticks(q: seq<Task>, n: nat): seq<Task> {
    if n == 0 then q else Tick(Ticks(q, n - 1))
  }

  /** The tasks of `s`, each resumed once, in order, the finished ones dropped. */
  function Survivors(s: seq<Task>): seq<Task> {
    if s == [] then [] else Survivors(s[..|s| - 1]) + Survive(s[|s| - 1])
  }

  /** Every task of the queue is a never-ending loop. */
  predicate AllEndless(q: seq<Task>) {
    forall i :: 0 <= i < |q| ==> q[i].Periodic?
  }

  /** After k <= |q| ticks, the first k tasks have each been resumed exactly once,
      in queue order, and sit behind the k..|q|-1 tasks not yet resumed. */
  lemma {:induction false} FirstRound(q: seq<Task>, k: nat)
    requires k <= |q|
    ensures Ticks(q, k) == q[k..] + Survivors(q[..k])
  {
    if k > 0 {
      FirstRound(q, k - 1);
      var done := Survivors(q[..k - 1]);
      ShiftOne(q, k, done);
      assert q[..k] == q[..k - 1] + [q[k - 1]];
      SurvivorsSnoc(q[..k - 1], q[k - 1]);
    }
  }

  lemma ShiftOne(q: seq<Task>, k: nat, done: seq<Task>)
    requires 0 < k <= |q|
    ensures Tick(q[k - 1..] + done) == q[k..] + (done + Survive(q[k - 1]))
  {
  }

  /** A tick takes the head off and keeps the rest of the queue, in order, in
      front of what the head leaves behind. */
  lemma TickFront(t: Task, rest: seq<Task>)
    ensures Tick([t] + rest) == rest + Survive(t)
  {
  }

  lemma SurvivorsSnoc(s: seq<Task>, t: Task)
    ensures Survivors(s + [t]) == Survivors(s) + Survive(t)
  {
  }

  /** Tick number k + 1 (k < |q|) resumes the task that stood at position k. */
  lemma HeadOrder(q: seq<Task>, k: nat)
    requires k < |q|
    ensures Ticks(q, k) != [] && Ticks(q, k)[0] == q[k]
  {
    FirstRound(q, k);
  }

  /** Resuming endless tasks drops none of them and keeps their order. */
  lemma {:induction false} SurvivorsEndless(s: seq<Task>)
    requires AllEndless(s)
    ensures |Survivors(s)| == |s|
    ensures forall i :: 0 <= i < |s| ==> Survivors(s)[i] == Advance(s[i]).resumed
  {
    if s != [] {
      SurvivorsEndless(s[..|s| - 1]);
    }
  }

  /** Fairness: N ticks over N never-ending tasks advance each exactly once and
      give back the queue in its original order. */
  lemma RoundRobin(q: seq<Task>)
    requires AllEndless(q)
    ensures |Ticks(q, |q|)| == |q|
    ensures forall i :: 0 <= i < |q| ==>
      Ticks(q, |q|)[i] == Advance(q[i]).resumed && Ticks(q, |q|)[i].kind == q[i].kind
  {
    FirstRound(q, |q|);
    assert q[|q|..] == [] && q[..|q|] == q;
    assert Ticks(q, |q|) == Survivors(q);
    SurvivorsEndless(q);
  }

  /** A fresh periodic task resumed `rounds` times P plus `phase` times (phase < P)
      is at that phase and has started one loop round per started round of P
      resumptions: one on its first resumption and one more every P after it. */
  lemma PeriodicSchedule(kind: PeriodicKind, rounds: nat, phase: nat)
    requires phase < Period(kind)
    ensures Resume(Fresh(kind), rounds * Period(kind) + phase) ==
      Some(Periodic(kind, phase, if phase == 0 then rounds else rounds + 1))
  {
    ScheduleAt(kind, rounds * Period(kind) + phase, rounds, phase);
  }

  /** `PeriodicSchedule` by induction on the number k of resumptions. */
  lemma {:induction false} ScheduleAt(kind: PeriodicKind, k: nat, rounds: nat, phase: nat)
    requires phase < Period(kind) && k == rounds * Period(kind) + phase
    ensures Resume(Fresh(kind), k) == Some(Periodic(kind, phase, if phase == 0 then rounds else rounds + 1))
    decreases k
  {
    var p := Period(kind);
    if phase > 0 {
      var before := Periodic(kind, phase - 1, if phase - 1 == 0 then rounds else rounds + 1);
      ScheduleAt(kind, k - 1, rounds, phase - 1);
      ResumeNext(Fresh(kind), k - 1, before);
      AdvanceWithinPeriod(before);
    } else if rounds > 0 {
      LastOfRound(rounds, p);
      ScheduleAt(kind, k - 1, rounds - 1, p - 1);
      ResumeNext(Fresh(kind), k - 1, Periodic(kind, p - 1, rounds));
      AdvanceWithinPeriod(Periodic(kind, p - 1, rounds));
    } else {
      assert rounds * p == 0;
    }
  }

  /** A periodic step without the remainder: the phase moves on by one and wraps to 0 at the period. */
  lemma AdvanceWithinPeriod(t: Task)
    requires t.Periodic? && ValidTask(t)
    ensures Advance(t) == Yielded(Periodic(t.kind, if t.phase + 1 == Period(t.kind) then 0 else t.phase + 1,
                                           if t.phase == 0 then t.rounds + 1 else t.rounds))
  {
  }

  /** One more resumption of a task that has not ended. */
  lemma ResumeNext(t: Task, k: nat, u: Task)
    requires Resume(t, k) == Some(u)
    ensures Resume(t, k + 1) == if Advance(u).Yielded? then Some(Advance(u).resumed) else None
  {
  }

  lemma LastOfRound(rounds: nat, p: nat)
    requires rounds > 0 && p > 0
    ensures (rounds - 1) * p + (p - 1) + 1 == rounds * p
  {
  }

  /** A task that yields n more times survives n resumptions and ends on the next. */
  lemma {:induction false} FiniteStops(n: nat)
    ensures Resume(Finite(n), n) == Some(Finite(0))
    ensures Resume(Finite(n), n + 1) == None
  {
    FiniteCountdown(n, n);
  }

  lemma {:induction false} FiniteCountdown(n: nat, k: nat)
    requires k <= n
    ensures Resume(Finite(n), k) == Some(Finite(n - k))
  {
    if k > 0 {
      FiniteCountdown(n, k - 1);
    }
  }

  /** The scheduler: a FIFO queue of suspended tasks, advanced one task per tick.
      The tick itself (`root.after`) is an external timer and is not part of this
      model: each call of `Run` is one tick. */
  class CoopScheduler {
    const tickMs: nat
    var tasks: seq<Task>

    constructor (tickMs: nat)
      ensures this.tickMs == tickMs && tasks == []
    {
      this.tickMs := tickMs;
      tasks := [];
    }

    /** Register a task at the tail of the queue. */
    method Add(task: Task)
      modifies this
      ensures tasks == old(tasks) + [task]
    {
      tasks := tasks + [task];
    }

    /** One tick: resume the head task once; put it back at the tail unless it
        raised `StopIteration`. An empty queue is left alone. */
    method Run()
      modifies this
      ensures tasks == Tick(old(tasks))
      ensures old(tasks) == [] ==> tasks == []
      ensures old(tasks) != [] && Advance(old(tasks)[0]).Yielded? ==>
        tasks == old(tasks)[1..] + [Advance(old(tasks)[0]).resumed] && |tasks| == |old(tasks)|
      ensures old(tasks) != [] && Advance(old(tasks)[0]).StopIteration? ==>
        tasks == old(tasks)[1..] && |tasks| == |old(tasks)| - 1
    {
      if tasks != [] {
        var gen := tasks[0];
        tasks := tasks[1..];
        match Advance(gen)
        case Yielded(resumed) =>
          tasks := tasks + [resumed];
        case StopIteration =>
      }
    }
  }
}
