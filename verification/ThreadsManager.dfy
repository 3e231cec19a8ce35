/**
 The daemon's worker threads: handlers spawn and register them, workers mark
 themselves finished, a collector joins finished ones, and finish() joins the
 rest. One step per critical section or blocking call, in any interleaving.
 */
module ThreadsManager {
  // ---------- the critical section of join_threads ----------

  function RemoveFirst(s: seq<nat>, t: nat): (r: seq<nat>)
    ensures forall x :: x in r ==> x in s
  {
    if s == [] then [] else if s[0] == t then s[1..] else [s[0]] + RemoveFirst(s[1..], t)
  }

  datatype Swept = Swept(running: seq<nat>, finished: seq<nat>, taken: seq<nat>)

  /** Which threads are taken to be joined, and what is left of the two lists. */
  function Sweep(running: seq<nat>, finished: seq<nat>, onlyFinished: bool): Swept {
    if running == [] then Swept([], finished, [])
    else
      var t := running[0];
      if !onlyFinished || t in finished then
        var r := Sweep(running[1..], RemoveFirst(finished, t), onlyFinished);
        Swept(r.running, r.finished, [t] + r.taken)
      else
        var r := Sweep(running[1..], finished, onlyFinished);
        Swept([t] + r.running, r.finished, r.taken)
  }

  /** A sweep loses no thread; with onlyFinished it takes exactly the marked threads, without it takes all. */
  lemma {:induction false} SweepFacts(running: seq<nat>, finished: seq<nat>, onlyFinished: bool)
    ensures var r := Sweep(running, finished, onlyFinished);
            && multiset(r.running) + multiset(r.taken) == multiset(running)
            && |r.running| + |r.taken| == |running|
            && (forall t :: t in r.finished ==> t in finished)
            && (forall t :: t in finished && t !in r.taken ==> t in r.finished)
            && (onlyFinished ==> forall t :: t in r.taken ==> t in finished)
            && (onlyFinished ==> forall t :: t in running && t in finished ==> t in r.taken)
            && (!onlyFinished ==> r.running == [])
  {
    if running != [] {
      var t := running[0];
      assert running == [t] + running[1..];
      var left := if !onlyFinished || t in finished then RemoveFirst(finished, t) else finished;
      RemoveOnly(finished, t);
      SweepFacts(running[1..], left, onlyFinished);
    }
  }

  lemma {:induction false} RemoveOnly(s: seq<nat>, t: nat)
    ensures forall x :: x in s && x != t ==> x in RemoveFirst(s, t)
  {
    if s != [] && s[0] != t {
      RemoveOnly(s[1..], t);
    }
  }

  /** A sweep that has gone through part of the list: what it kept and took, and what is to come. */
  function SweepFrom(kept: seq<nat>, rest: seq<nat>, finished: seq<nat>, taken: seq<nat>, onlyFinished: bool): Swept {
    var r := Sweep(rest, finished, onlyFinished);
    Swept(kept + r.running, r.finished, taken + r.taken)
  }

  lemma {:induction false} SweepStart(running: seq<nat>, finished: seq<nat>, onlyFinished: bool)
    ensures SweepFrom(running[..0], running[0..], finished, [], onlyFinished) == Sweep(running, finished, onlyFinished)
  {
    var r := Sweep(running, finished, onlyFinished);
    assert running[0..] == running && [] + r.running == r.running && [] + r.taken == r.taken;
  }

  lemma {:induction false} SweepTakes(
    kept: seq<nat>, t: nat, rest: seq<nat>, finished: seq<nat>, taken: seq<nat>, onlyFinished: bool)
    requires !onlyFinished || t in finished
    ensures SweepFrom(kept, [t] + rest, finished, taken, onlyFinished)
         == SweepFrom(kept, rest, RemoveFirst(finished, t), taken + [t], onlyFinished)
  {
    var r := Sweep(rest, RemoveFirst(finished, t), onlyFinished);
    assert ([t] + rest)[1..] == rest;
    assert taken + ([t] + r.taken) == (taken + [t]) + r.taken;
  }

  lemma {:induction false} SweepKeeps(
    kept: seq<nat>, t: nat, rest: seq<nat>, finished: seq<nat>, taken: seq<nat>, onlyFinished: bool)
    requires onlyFinished && t !in finished
    ensures SweepFrom(kept, [t] + rest, finished, taken, onlyFinished) ==
            SweepFrom(kept + [t], rest, finished, taken, onlyFinished)
  {
    var r := Sweep(rest, finished, onlyFinished);
    assert ([t] + rest)[1..] == rest;
    assert kept + ([t] + r.running) == (kept + [t]) + r.running;
  }

  class Manager {
    var runningThreads: seq<nat>
    var finishedThreads: seq<nat>

    method RegisterThread(t: nat)
      modifies this`runningThreads
      ensures runningThreads == old(runningThreads) + [t]
    {
      runningThreads := runningThreads + [t];
    }

    method MarkThreadFinished(t: nat)
      modifies this`finishedThreads
      ensures finishedThreads == old(finishedThreads) + [t]
    {
      finishedThreads := finishedThreads + [t];
    }

    /** The loop under the lock: erases taken threads, and their marks, while it goes through the list. */
    method TakeThreads(onlyFinished: bool) returns (toBeJoined: seq<nat>)
      modifies this
      ensures Swept(runningThreads, finishedThreads, toBeJoined) ==
              Sweep(old(runningThreads), old(finishedThreads), onlyFinished)
    {
      toBeJoined := [];
      var i := 0;
      SweepStart(runningThreads, finishedThreads, onlyFinished);
      while i < |runningThreads|
        invariant i <= |runningThreads|
        invariant SweepFrom(runningThreads[..i], runningThreads[i..], finishedThreads, toBeJoined, onlyFinished)
               == Sweep(old(runningThreads), old(finishedThreads), onlyFinished)
        decreases |runningThreads| - i
      {
        var t := runningThreads[i];
        ghost var kept, rest := runningThreads[..i], runningThreads[i + 1..];
        assert runningThreads[i..] == [t] + rest;
        if !onlyFinished || t in finishedThreads {
          SweepTakes(kept, t, rest, finishedThreads, toBeJoined, onlyFinished);
          toBeJoined := toBeJoined + [t];
          runningThreads := runningThreads[..i] + runningThreads[i + 1..];
          EraseMark(t);
          assert runningThreads[..i] == kept && runningThreads[i..] == rest;
        } else {
          SweepKeeps(kept, t, rest, finishedThreads, toBeJoined, onlyFinished);
          i := i + 1;
          assert runningThreads[..i] == kept + [t];
        }
      }
      assert runningThreads[..i] + [] == runningThreads && toBeJoined + [] == toBeJoined;
    }

    /** Erases the first mark of a thread, if it has one. */
    method EraseMark(t: nat)
      modifies this`finishedThreads
      ensures finishedThreads == RemoveFirst(old(finishedThreads), t)
    {
      var k := 0;
      assert finishedThreads[0..] == finishedThreads;
      while k < |finishedThreads| && finishedThreads[k] != t
        invariant k <= |finishedThreads| && finishedThreads == old(finishedThreads)
        invariant RemoveFirst(finishedThreads, t) == finishedThreads[..k] + RemoveFirst(finishedThreads[k..], t)
      {
        assert finishedThreads[k..][1..] == finishedThreads[k + 1..];
        assert finishedThreads[..k] + ([finishedThreads[k]] + RemoveFirst(finishedThreads[k + 1..], t))
            == finishedThreads[..k + 1] + RemoveFirst(finishedThreads[k + 1..], t);
        k := k + 1;
      }
      if k < |finishedThreads| {
        assert finishedThreads[k..][1..] == finishedThreads[k + 1..];
        finishedThreads := finishedThreads[..k] + finishedThreads[k + 1..];
      } else {
        assert finishedThreads[..k] + [] == finishedThreads;
      }
    }
  }

  // ---------- all threads together ----------

  /** A worker runs, then marks itself finished, then exits. */
  datatype Worker = Working | Marked | Exited

  datatype Collector = Testing | Sweeping | Joining | Ended

  datatype Finisher = Idle | FlagSet | JoiningAll | AwaitingCollector | Returned

  datatype State = State(
    workers: map<nat, Worker>,
    running: seq<nat>,
    finished: seq<nat>,
    collected: seq<nat>,     // what the collector is joining
    swept: seq<nat>,         // what finish() is joining
    joined: seq<nat>,
    finishCollector: bool,
    collector: Collector,
    finisher: Finisher,
    registered: set<nat>)    // every thread registered so far

  datatype Step =
    | Spawn(t: nat) | Mark(t: nat) | Exit(t: nat) | Register(t: nat)
    | CollectorTest | CollectorSweep | CollectorJoin | CollectorSleep
    | FinishStart | FinishSweep | FinishJoin | FinishJoined | FinishReturn

  /** Thread ids are distinct; a join returns only after the thread has exited. */
  predicate Enabled(s: State, step: Step) {
    match step
    case Spawn(t) => t !in s.workers
    case Mark(t) => t in s.workers && s.workers[t].Working?
    case Exit(t) => t in s.workers && s.workers[t].Marked?
    case Register(t) => t in s.workers && t !in s.registered
    case CollectorTest => s.collector.Testing?
    case CollectorSweep => s.collector.Sweeping?
    case CollectorJoin => s.collector.Joining? && s.collected != [] && Gone(s, s.collected[0])
    case CollectorSleep => s.collector.Joining? && s.collected == []
    case FinishStart => s.finisher.Idle?
    case FinishSweep => s.finisher.FlagSet?
    case FinishJoin => s.finisher.JoiningAll? && s.swept != [] && Gone(s, s.swept[0])
    case FinishJoined => s.finisher.JoiningAll? && s.swept == []
    case FinishReturn => s.finisher.AwaitingCollector? && s.collector.Ended?
  }

  predicate Gone(s: State, t: nat) {
    t in s.workers && s.workers[t].Exited?
  }

  function Next(s: State, step: Step): State
    requires Enabled(s, step)
  {
    match step
    case Spawn(t) => s.(workers := s.workers[t := Working])
    case Mark(t) => s.(workers := s.workers[t := Marked], finished := s.finished + [t])
    case Exit(t) => s.(workers := s.workers[t := Exited])
    case Register(t) => s.(running := s.running + [t], registered := s.registered + {t})
    case CollectorTest => s.(collector := if s.finishCollector then Ended else Sweeping)
    case CollectorSweep =>
      var r := Sweep(s.running, s.finished, true);
      s.(running := r.running, finished := r.finished, collected := r.taken, collector := Joining)
    case CollectorJoin => s.(joined := s.joined + [s.collected[0]], collected := s.collected[1..])
    case CollectorSleep => s.(collector := Testing)
    case FinishStart => s.(finishCollector := true, finisher := FlagSet)
    case FinishSweep =>
      var r := Sweep(s.running, s.finished, false);
      s.(running := r.running, finished := r.finished, swept := r.taken, finisher := JoiningAll)
    case FinishJoin => s.(joined := s.joined + [s.swept[0]], swept := s.swept[1..])
    case FinishJoined => s.(finisher := AwaitingCollector)
    case FinishReturn => s.(finisher := Returned)
  }

  const START := State(map[], [], [], [], [], [], false, Testing, Idle, {})

  // ---------- the invariant ----------

  /** Every registered thread is in exactly one of the four places, once. */
  ghost predicate Placed(s: State) {
    multiset(s.running) + multiset(s.collected) + multiset(s.swept) + multiset(s.joined) == multiset(s.registered)
  }

  predicate Past(s: State, t: nat) {
    t in s.workers && !s.workers[t].Working?
  }

  /** A mark belongs to a thread past its work, and stays until the thread is taken to be joined. */
  ghost predicate MarksTrue(s: State) {
    && (forall t :: t in s.registered ==> t in s.workers)
    && (forall t :: t in s.finished ==> Past(s, t))
    && (forall t :: t in s.collected ==> Past(s, t))
    && (forall t :: Past(s, t) && (t in s.running || t !in s.registered) ==> t in s.finished)
    && (forall t :: t in s.joined ==> Gone(s, t))
  }

  /** What the program counters of the collector and of finish() tell. */
  ghost predicate Phases(s: State) {
    && (!s.collector.Joining? ==> s.collected == [])
    && (!s.finisher.JoiningAll? ==> s.swept == [])
    && (s.finisher.Idle? <==> !s.finishCollector)
    && (s.finisher.Returned? ==> s.collector.Ended?)
    && (s.collector.Ended? ==> s.finishCollector)
  }

  ghost predicate Valid(s: State) {
    Placed(s) && MarksTrue(s) && Phases(s)
  }

  lemma {:induction false} MoveHead(list: seq<nat>, to: seq<nat>)
    requires list != []
    ensures multiset(list[1..]) + multiset(to + [list[0]]) == multiset(list) + multiset(to)
  {
    assert list == [list[0]] + list[1..];
  }

  /** Moving threads between two of the four places. */
  lemma {:induction false} Moved(
    a: multiset<nat>, b: multiset<nat>, c: multiset<nat>, d: multiset<nat>, x: multiset<nat>, y: multiset<nat>)
    ensures x + y == a + b ==> x + y + c + d == a + b + c + d
    ensures x + y == b + d ==> a + x + c + y == a + b + c + d
    ensures x + y == c + d ==> a + b + x + y == a + b + c + d
    ensures x + y == a + c ==> x + b + y + d == a + b + c + d
  {
    assert x + y == b + d ==> a + x + c + y == (a + c) + (x + y) && a + b + c + d == (a + c) + (b + d);
    assert x + y == c + d ==> a + b + x + y == (a + b) + (x + y) && a + b + c + d == (a + b) + (c + d);
    assert x + y == a + c ==> x + b + y + d == (b + d) + (x + y) && a + b + c + d == (b + d) + (a + c);
  }

  lemma {:induction false} SweepKeepsPlaces(s: State, step: Step)
    requires Valid(s) && Enabled(s, step) && (step.CollectorSweep? || step.FinishSweep?)
    ensures Placed(Next(s, step))
  {
    var r := Sweep(s.running, s.finished, step.CollectorSweep?);
    SweepFacts(s.running, s.finished, step.CollectorSweep?);
    Moved(multiset(s.running), multiset(s.collected), multiset(s.swept), multiset(s.joined),
          multiset(r.running), multiset(r.taken));
  }

  lemma {:induction false} JoinKeepsPlaces(s: State, step: Step)
    requires Valid(s) && Enabled(s, step) && (step.CollectorJoin? || step.FinishJoin?)
    ensures Placed(Next(s, step))
  {
    var from := if step.CollectorJoin? then s.collected else s.swept;
    MoveHead(from, s.joined);
    Moved(multiset(s.running), multiset(s.collected), multiset(s.swept), multiset(s.joined),
          multiset(from[1..]), multiset(s.joined + [from[0]]));
  }

  lemma {:induction false} StepKeepsPlaces(s: State, step: Step)
    requires Valid(s) && Enabled(s, step)
    ensures Placed(Next(s, step))
  {
    match step
    case Register(t) =>
      assert multiset(s.registered + {t}) == multiset(s.registered) + multiset{t};
      assert multiset(s.running + [t]) == multiset(s.running) + multiset{t};
    case CollectorSweep => SweepKeepsPlaces(s, step);
    case FinishSweep => SweepKeepsPlaces(s, step);
    case CollectorJoin => JoinKeepsPlaces(s, step);
    case FinishJoin => JoinKeepsPlaces(s, step);
    case _ =>
  }

  /** A thread is in one place only. */
  lemma {:induction false} OnePlace(s: State, t: nat)
    requires Placed(s)
    ensures t in s.registered <==> t in s.running || t in s.collected || t in s.swept || t in s.joined
    ensures t in s.registered ==>
              multiset(s.running)[t] + multiset(s.collected)[t] + multiset(s.swept)[t] + multiset(s.joined)[t] == 1
  {
    var places := multiset(s.running) + multiset(s.collected) + multiset(s.swept) + multiset(s.joined);
    assert places[t] == multiset(s.registered)[t];
    assert t in multiset(s.registered) <==> t in s.registered;
    assert t in s.running <==> multiset(s.running)[t] > 0;
    assert t in s.collected <==> multiset(s.collected)[t] > 0;
    assert t in s.swept <==> multiset(s.swept)[t] > 0;
    assert t in s.joined <==> multiset(s.joined)[t] > 0;
  }

  /** After a sweep a thread is still running exactly when it was running and was not taken. */
  lemma {:induction false} SweepRunning(s: State, onlyFinished: bool, t: nat)
    requires Placed(s)
    ensures var r := Sweep(s.running, s.finished, onlyFinished);
            t in r.running <==> t in s.running && t !in r.taken
  {
    var r := Sweep(s.running, s.finished, onlyFinished);
    SweepFacts(s.running, s.finished, onlyFinished);
    OnePlace(s, t);
    assert (multiset(r.running) + multiset(r.taken))[t] == multiset(s.running)[t] <= 1;
    assert t in r.running <==> multiset(r.running)[t] > 0;
    assert t in r.taken <==> multiset(r.taken)[t] > 0;
    assert t in s.running <==> multiset(s.running)[t] > 0;
  }

  lemma {:induction false} SweepKeepsMarks(s: State, step: Step)
    requires Valid(s) && Enabled(s, step) && (step.CollectorSweep? || step.FinishSweep?)
    ensures MarksTrue(Next(s, step))
  {
    SweepFacts(s.running, s.finished, step.CollectorSweep?);
    forall t
      ensures var r := Sweep(s.running, s.finished, step.CollectorSweep?);
              && (t in r.running <==> t in s.running && t !in r.taken)
              && (t in r.taken ==> t in s.registered)
    {
      SweepRunning(s, step.CollectorSweep?, t);
      OnePlace(s, t);
      TakenWasRunning(s, step.CollectorSweep?, t);
    }
  }

  lemma {:induction false} TakenWasRunning(s: State, onlyFinished: bool, t: nat)
    ensures t in Sweep(s.running, s.finished, onlyFinished).taken ==> t in s.running
  {
    var r := Sweep(s.running, s.finished, onlyFinished);
    SweepFacts(s.running, s.finished, onlyFinished);
    assert t in r.taken ==> t in multiset(r.running) + multiset(r.taken);
    assert t in multiset(s.running) ==> t in s.running;
  }

  lemma {:induction false} StepKeepsMarks(s: State, step: Step)
    requires Valid(s) && Enabled(s, step)
    ensures MarksTrue(Next(s, step))
  {
    match step
    case CollectorJoin => assert forall t :: t in s.collected[1..] ==> t in s.collected;
    case CollectorSweep => SweepKeepsMarks(s, step);
    case FinishSweep => SweepKeepsMarks(s, step);
    case Register(t) => assert s.running <= Next(s, step).running;
    case _ =>
  }

  lemma {:induction false} StepKeepsPhases(s: State, step: Step)
    requires Valid(s) && Enabled(s, step)
    ensures Phases(Next(s, step))
  {
  }

  lemma {:induction false} StepKeeps(s: State, step: Step)
    requires Valid(s) && Enabled(s, step)
    ensures Valid(Next(s, step))
  {
    StepKeepsPlaces(s, step);
    StepKeepsMarks(s, step);
    StepKeepsPhases(s, step);
  }

  // ---------- what the steps taken so far tell ----------

  /**
   The k-th step was a sweep that took thread t: finish() takes every registered thread, the
   collector the marked ones.
   */
  predicate TakenAt(steps: seq<Step>, k: nat, t: nat) {
    && k < |steps| && Register(t) in steps[..k]
    && (steps[k] == FinishSweep || (steps[k] == CollectorSweep && Mark(t) in steps[..k]))
  }

  ghost predicate Taken(steps: seq<Step>, t: nat) {
    exists k: nat :: TakenAt(steps, k, t)
  }

  lemma {:induction false} TakenNext(past: seq<Step>, step: Step, t: nat)
    ensures Taken(past + [step], t) <==>
            Taken(past, t)
                || (Register(t) in past && (step == FinishSweep || (step == CollectorSweep && Mark(t) in past)))
  {
    var now := past + [step];
    assert now[..|past|] == past && now[|past|] == step;
    if k: nat :| TakenAt(past, k, t) {
      assert now[..k] == past[..k] && TakenAt(now, k, t);
    }
    if k: nat :| TakenAt(now, k, t) {
      if k < |past| {
        assert now[..k] == past[..k] && TakenAt(past, k, t);
      }
    }
    if Register(t) in past && (step == FinishSweep || (step == CollectorSweep && Mark(t) in past)) {
      assert TakenAt(now, |past|, t);
    }
  }

  /** The state agrees with the steps that led to it. */
  ghost predicate Tells(past: seq<Step>, s: State) {
    && (forall t :: t in s.registered <==> Register(t) in past)
    && (forall t :: Past(s, t) <==> Mark(t) in past)
    && (forall t :: t in s.workers <==> Spawn(t) in past)
    && (forall t :: Gone(s, t) <==> Exit(t) in past)
    && (forall t :: t in s.running <==> Register(t) in past && !Taken(past, t))
  }

  lemma {:induction false} TellsNext(past: seq<Step>, s: State, step: Step)
    requires Valid(s) && Tells(past, s) && Enabled(s, step)
    ensures Tells(past + [step], Next(s, step))
  {
    var now, next := past + [step], Next(s, step);
    forall t
      ensures t in next.registered <==> Register(t) in now
      ensures Past(next, t) <==> Mark(t) in now
      ensures t in next.workers <==> Spawn(t) in now
      ensures Gone(next, t) <==> Exit(t) in now
      ensures t in next.running <==> Register(t) in now && !Taken(now, t)
    {
      assert forall x :: x in now <==> x in past || x == step;
      TakenNext(past, step, t);
      RunningNext(past, s, step, t);
    }
  }

  /** A registered thread is running until a sweep takes it. */
  lemma {:induction false} RunningNext(past: seq<Step>, s: State, step: Step, t: nat)
    requires Valid(s) && Tells(past, s) && Enabled(s, step)
    ensures t in Next(s, step).running <==>
            || step == Register(t)
            || (t in s.running && !(step == FinishSweep || (step == CollectorSweep && Mark(t) in past)))
    ensures step == Register(t) ==> Register(t) !in past && !Taken(past, t)
  {
    if step.CollectorSweep? || step.FinishSweep? {
      SweepFacts(s.running, s.finished, step.CollectorSweep?);
      SweepRunning(s, step.CollectorSweep?, t);
    }
    if k: nat :| TakenAt(past, k, t) {
      assert Register(t) in past;
    }
  }

  // ---------- runs ----------

  ghost predicate Legal(s: State, steps: seq<Step>)
    decreases |steps|
  {
    steps == [] || (Enabled(s, steps[0]) && Legal(Next(s, steps[0]), steps[1..]))
  }

  function Run(s: State, steps: seq<Step>): State
    requires Legal(s, steps)
    decreases |steps|
  {
    if steps == [] then s else Run(Next(s, steps[0]), steps[1..])
  }

  lemma {:induction false} RunKeeps(s: State, past: seq<Step>, steps: seq<Step>)
    requires Valid(s) && Tells(past, s) && Legal(s, steps)
    ensures Valid(Run(s, steps)) && Tells(past + steps, Run(s, steps))
    decreases |steps|
  {
    if steps != [] {
      StepKeeps(s, steps[0]);
      TellsNext(past, s, steps[0]);
      RunKeeps(Next(s, steps[0]), past + [steps[0]], steps[1..]);
      assert past + [steps[0]] + steps[1..] == past + steps;
    } else {
      assert past + steps == past;
    }
  }

  /**
   In every interleaving: no thread is joined twice, the collector joins only
   threads that have marked themselves, and once finish() has returned, a
   thread has been joined exactly when it was registered before the sweep of
   finish(), or registered and marked before a sweep of the collector.
   */
  lemma {:induction false} EveryInterleaving(steps: seq<Step>)
    requires Legal(START, steps)
    ensures var s := Run(START, steps);
            && (forall t :: Register(t) in steps ==>
                 multiset(s.running)[t] + multiset(s.collected)[t] + multiset(s.swept)[t] + multiset(s.joined)[t] == 1)
            && (forall t :: t in s.collected ==> Mark(t) in steps)
            && (forall t :: t in s.joined ==> Exit(t) in steps)
            && (s.finisher.Returned? ==> forall t :: t in s.joined <==> Taken(steps, t))
  {
    assert Valid(START) && Tells([], START);
    RunKeeps(START, [], steps);
    var s := Run(START, steps);
    assert [] + steps == steps;
    forall t
      ensures Register(t) in steps ==>
                multiset(s.running)[t] + multiset(s.collected)[t] + multiset(s.swept)[t] + multiset(s.joined)[t] == 1
      ensures s.finisher.Returned? ==> (t in s.joined <==> Taken(steps, t))
    {
      OnePlace(s, t);
      if s.finisher.Returned? {
        JoinedOrRunning(s, t);
        if k: nat :| TakenAt(steps, k, t) {
          assert Register(t) in steps;
        }
      }
    }
  }

  lemma {:induction false} JoinedOrRunning(s: State, t: nat)
    requires Valid(s) && s.finisher.Returned?
    ensures t in s.joined <==> t in s.registered && t !in s.running
  {
    OnePlace(s, t);
    assert multiset(s.collected)[t] == 0 && multiset(s.swept)[t] == 0;
    assert t in s.joined <==> multiset(s.joined)[t] > 0;
    assert t in s.running <==> multiset(s.running)[t] > 0;
  }

  const LATE := [Spawn(0), FinishStart, FinishSweep, Register(0), FinishJoined, CollectorTest, FinishReturn]

  /** A thread spawned before the sweep of finish() but registered after it may be left running for good. */
  lemma {:induction false} LateThreadIsLeft()
    ensures Legal(START, LATE)
    ensures var s := Run(START, LATE); s.finisher.Returned? && 0 in s.registered && 0 !in s.joined
  {
    var s1 := Next(START, Spawn(0));
    var s2 := Next(s1, FinishStart);
    var s3 := Next(s2, FinishSweep);
    var s4 := Next(s3, Register(0));
    var s5 := Next(s4, FinishJoined);
    var s6 := Next(s5, CollectorTest);
    RunOne(s6, FinishReturn, []);
    RunOne(s5, CollectorTest, [FinishReturn]);
    RunOne(s4, FinishJoined, [CollectorTest, FinishReturn]);
    RunOne(s3, Register(0), [FinishJoined, CollectorTest, FinishReturn]);
    RunOne(s2, FinishSweep, [Register(0), FinishJoined, CollectorTest, FinishReturn]);
    RunOne(s1, FinishStart, [FinishSweep, Register(0), FinishJoined, CollectorTest, FinishReturn]);
    RunOne(START, Spawn(0), [FinishStart, FinishSweep, Register(0), FinishJoined, CollectorTest, FinishReturn]);
  }

  lemma {:induction false} RunOne(s: State, step: Step, rest: seq<Step>)
    requires Enabled(s, step) && Legal(Next(s, step), rest)
    ensures Legal(s, [step] + rest) && Run(s, [step] + rest) == Run(Next(s, step), rest)
  {
    assert ([step] + rest)[1..] == rest;
  }

  // ---------- finish() returns ----------

  /** A step of finish() or of the collector. */
  predicate Serves(step: Step) {
    !(step.Spawn? || step.Register? || step.Mark? || step.Exit?)
  }

  function FinisherLeft(f: Finisher): nat {
    match f
    case Idle => 4
    case FlagSet => 3
    case JoiningAll => 2
    case AwaitingCollector => 1
    case Returned => 0
  }

  /** The collector's steps to its end once the flag is set, joins aside. */
  function CollectorLeft(c: Collector): nat {
    match c
    case Sweeping => 3
    case Joining => 2
    case Testing => 1
    case Ended => 0
  }

  /** How many steps finish() and the collector have left: one for each thread to join, and their own. */
  function Work(s: State): nat {
    |s.running| + |s.collected| + |s.swept| + FinisherLeft(s.finisher) + CollectorLeft(s.collector)
  }

  /**
   Once the flag is set, each step of finish() and the collector does one unit of the work; only a
   registration adds one.
   */
  lemma {:induction false} StepWorks(s: State, step: Step)
    requires Valid(s) && s.finishCollector && Enabled(s, step)
    ensures Next(s, step).finishCollector
    ensures Work(Next(s, step)) == Work(s) - (if Serves(step) then 1 else 0) + (if step.Register? then 1 else 0)
  {
    if step.CollectorSweep? || step.FinishSweep? {
      SweepFacts(s.running, s.finished, step.CollectorSweep?);
    }
  }

  function Servings(steps: seq<Step>): nat {
    if steps == [] then 0 else (if Serves(steps[0]) then 1 else 0) + Servings(steps[1..])
  }

  function Registrations(steps: seq<Step>): nat {
    if steps == [] then 0 else (if steps[0].Register? then 1 else 0) + Registrations(steps[1..])
  }

  predicate AllExited(s: State) {
    forall t :: t in s.workers ==> s.workers[t].Exited?
  }

  /** finish() cannot get stuck: once all workers have exited, it or the collector can always go on. */
  lemma {:induction false} FinishProgresses(s: State) returns (step: Step)
    requires Valid(s) && AllExited(s)
    requires !s.finisher.Idle? && !s.finisher.Returned?
    ensures Enabled(s, step) && Serves(step)
  {
    match s.finisher
    case FlagSet => step := FinishSweep;
    case JoiningAll =>
      if s.swept == [] {
        step := FinishJoined;
      } else {
        assert s.swept[0] in multiset(s.swept);
        assert s.swept[0] in multiset(s.registered);
        step := FinishJoin;
      }
    case AwaitingCollector =>
      match s.collector {
        case Testing => step := CollectorTest;
        case Sweeping => step := CollectorSweep;
        case Joining =>
          if s.collected == [] {
            step := CollectorSleep;
          } else {
            assert s.collected[0] in s.collected;
            step := CollectorJoin;
          }
        case Ended => step := FinishReturn;
      }
  }

  /**
   finish() returns: in every run after it was called the steps of finish() and
   the collector are at most Work(s) and one for each thread registered
   meanwhile, and when the workers have exited, another such step is possible
   as long as finish() has not returned.
   */
  lemma {:induction false} FinishReturns(s: State, steps: seq<Step>)
    requires Valid(s) && s.finishCollector && Legal(s, steps)
    ensures var last := Run(s, steps);
            && Work(last) + Servings(steps) == Work(s) + Registrations(steps)
            && (AllExited(last) && !last.finisher.Returned? ==> exists step :: Enabled(last, step) && Serves(step))
    decreases |steps|
  {
    if steps != [] {
      StepKeeps(s, steps[0]);
      StepWorks(s, steps[0]);
      FinishReturns(Next(s, steps[0]), steps[1..]);
    } else if AllExited(s) && !s.finisher.Returned? {
      var step := FinishProgresses(s);
    }
  }
}
