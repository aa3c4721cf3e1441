/** Draining the send queue: newest first, one echo per task; and what a give-up or an empty payload breaks. */
module AsyncUDPDrain {
  import opened Wrappers
  import opened AsyncUDPModel
  import opened AsyncUDPTrace
  import opened AsyncUDPRuns
  import opened AsyncUDPEcho
  import opened AsyncUDPTheorems

  function Reversed(q: seq<Task>): seq<Task> {
    if q == [] then [] else Reversed(q[1..]) + [q[0]]
  }

  /** No new work and no give-up; everything else may still happen. */
  predicate Calm(s: Sys, steps: seq<Step>)
    requires Legal(s, steps)
    decreases |steps|
  {
    steps != [] ==> !steps[0].Push? && !GivesUp(s, steps[0]) && Calm(Do(s, steps[0]), steps[1..])
  }

  /** `s` has taken `q` apart from its end, in that order, and `given` was sent before. */
  ghost predicate Draining(q: seq<Task>, given: seq<Task>, s: Sys) {
    && s.core.queue <= q
    && given <= SentTasks(s.core.trace)
    && SentTasks(s.core.trace) + (if s.pc.Popped? then [s.pc.task] else [])
       == given + Reversed(q[|s.core.queue|..])
  }

  lemma DrainingPop(q: seq<Task>, given: seq<Task>, s: Sys)
    requires Enabled(s, TryPop) && Draining(q, given, s)
    ensures Draining(q, given, Do(s, TryPop))
  {
    if s.core.CanPop() {
      var k := |s.core.queue|;
      assert q[k - 1..][1..] == q[k..] && q[k - 1..][0] == s.core.Next();
      assert SentTasks(s.core.trace) + [] == SentTasks(s.core.trace);
      assert given + (Reversed(q[k..]) + [s.core.Next()]) == given + Reversed(q[k..]) + [s.core.Next()];
    }
  }

  lemma DrainingStep(q: seq<Task>, given: seq<Task>, s: Sys, step: Step)
    requires Enabled(s, step) && !step.Push? && Draining(q, given, s)
    ensures Draining(q, given, Do(s, step))
  {
    SentTasksStep(s, step);
    if step.TryPop? {
      DrainingPop(q, given, s);
    } else if step.HandOver? {
      assert SentTasks(Do(s, step).core.trace) + [] == SentTasks(Do(s, step).core.trace);
    } else {
      TasksStay(s, step);
      assert Do(s, step).pc.Popped? <==> s.pc.Popped?;
    }
  }

  lemma CalmStep(s: Sys, step: Step)
    requires Enabled(s, step) && !GivesUp(s, step)
    ensures TimedOutTasks(Do(s, step).core.trace) == TimedOutTasks(s.core.trace)
  {
    ProjectionsStep(s, step);
    NewTasks(s, step);
  }

  lemma {:induction false} CalmRun(q: seq<Task>, given: seq<Task>, s: Sys, steps: seq<Step>)
    requires Legal(s, steps) && Calm(s, steps) && TraceKept(s) && Draining(q, given, s)
    ensures TraceKept(After(s, steps)) && Draining(q, given, After(s, steps))
    ensures TimedOutTasks(After(s, steps).core.trace) == TimedOutTasks(s.core.trace)
    decreases |steps|
  {
    if steps != [] {
      TraceKeptStep(s, steps[0]);
      DrainingStep(q, given, s, steps[0]);
      CalmStep(s, steps[0]);
      CalmRun(q, given, Do(s, steps[0]), steps[1..]);
    }
  }

  function Outstandings(s: Sys): nat {
    if s.pc.Popped? || Outstanding(s.core.trace).Some? then 1 else 0
  }

  lemma DrainingCount(q: seq<Task>, given: seq<Task>, s: Sys)
    requires Draining(q, given, s) && TraceKept(s)
    ensures |given| + |q| - |s.core.queue|
            == |LoopedTasks(s.core.trace)| + |TimedOutTasks(s.core.trace)| + Outstandings(s)
  {
    var rest := Reversed(q[|s.core.queue|..]);
    ReversedLength(q[|s.core.queue|..]);
    CountReleases(s.core.trace);
    var sent := SentTasks(s.core.trace);
    assert !s.pc.Popped? ==> sent + [] == sent;
    assert s.pc.Popped? ==> |sent| + 1 == |given + rest|;
  }

  lemma DrainingDone(q: seq<Task>, given: seq<Task>, s: Sys)
    requires Draining(q, given, s) && s.core.queue == [] && !s.pc.Popped?
    ensures SentTasks(s.core.trace) == given + Reversed(q)
  {
    assert q[0..] == q;
    assert SentTasks(s.core.trace) + [] == SentTasks(s.core.trace);
  }

  /**
    From an idle sender with queue `q`, whatever else happens short of new work and give-ups:
    each echo takes exactly one task off what is left, and after |q| echoes the queue is empty
    and exactly the reverse of `q` has been sent.
   */
  lemma QueueDrains(s: Sys, steps: seq<Step>)
    requires s.pc.Idle? && s.core.parked.None? && Inv(s) && Legal(s, steps) && Calm(s, steps)
    ensures var s', q := After(s, steps), s.core.queue;
            var echoes := |LoopedTasks(s'.core.trace)| - |LoopedTasks(s.core.trace)|;
            && |s'.core.queue| + Outstandings(s') + echoes == |q|
            && SentTasks(s.core.trace) <= SentTasks(s'.core.trace)
            && (s'.core.queue == [] && Outstandings(s') == 0 ==>
                  s'.core.parked.None? && SentTasks(s'.core.trace) == SentTasks(s.core.trace) + Reversed(q))
  {
    var q, given := s.core.queue, SentTasks(s.core.trace);
    DrainingStart(s);
    CalmRun(q, given, s, steps);
    CountReleases(s.core.trace);
    var s' := After(s, steps);
    DrainingCount(q, given, s');
    if s'.core.queue == [] && Outstandings(s') == 0 {
      DrainingDone(q, given, s');
    }
  }

  lemma DrainingStart(s: Sys)
    requires s.pc.Idle?
    ensures Draining(s.core.queue, SentTasks(s.core.trace), s)
  {
    assert s.core.queue[|s.core.queue|..] == [];
  }

  lemma {:induction false} ReversedLength(q: seq<Task>)
    ensures |Reversed(q)| == |q|
  {
    if q != [] {
      ReversedLength(q[1..]);
    }
  }

  lemma CountReleases(tr: Trace)
    requires Disciplined(tr)
    ensures |SentTasks(tr)|
            == |LoopedTasks(tr)| + |TimedOutTasks(tr)| + if Outstanding(tr).Some? then 1 else 0
  {
    StopAndWait(tr);
    ReleasesSplit(tr);
    assert |multiset(Releases(tr))| == |Releases(tr)|;
    assert |multiset(LoopedTasks(tr))| == |LoopedTasks(tr)|;
    assert |multiset(TimedOutTasks(tr))| == |TimedOutTasks(tr)|;
  }

  // ---- such a run exists: one wakeup, then every packet echoed ----

  predicate AllNonEmpty(q: seq<Task>) {
    forall i :: 0 <= i < |q| ==> q[i].data != []
  }

  lemma {:induction false} CalmConcat(s: Sys, a: seq<Step>, b: seq<Step>)
    requires Legal(s, a) && Calm(s, a) && Legal(After(s, a), b) && Calm(After(s, a), b)
    ensures Legal(s, a + b) && Calm(s, a + b) && After(s, a + b) == After(After(s, a), b)
    decreases |a|
  {
    if a == [] {
      assert a + b == b;
    } else {
      CalmConcat(Do(s, a[0]), a[1..], b);
      CalmCons(s, a[0], a[1..] + b);
      assert a + b == [a[0]] + (a[1..] + b);
    }
  }

  lemma CalmCons(s: Sys, step: Step, rest: seq<Step>)
    requires Enabled(s, step) && !step.Push? && !GivesUp(s, step)
    requires Legal(Do(s, step), rest) && Calm(Do(s, step), rest)
    ensures Legal(s, [step] + rest) && Calm(s, [step] + rest)
    ensures After(s, [step] + rest) == After(Do(s, step), rest)
  {
    assert ([step] + rest)[1..] == rest;
  }

  lemma CalmAttempt(s: Sys) returns (steps: seq<Step>)
    requires s.pc.Attempting? && s.core.parked.None?
    ensures Legal(s, steps) && Calm(s, steps)
    ensures After(s, steps) == (if s.core.queue == [] then s.(pc := Leave(s.pc.async))
                                else s.(core := s.core.Attempt(), pc := Leave(s.pc.async),
                                        inflight := s.inflight + multiset{s.core.Next()}))
  {
    if s.core.queue != [] {
      var s1 := Do(s, TryPop);
      var s2 := Do(s1, HandOver);
      CalmCons(s2, ParkTask, []);
      CalmCons(s1, HandOver, [ParkTask] + []);
      CalmCons(s, TryPop, [HandOver] + ([ParkTask] + []));
      steps := [TryPop] + ([HandOver] + ([ParkTask] + []));
    } else {
      CalmCons(s, TryPop, []);
      steps := [TryPop] + [];
    }
  }

  /** One echo: the parked task's copy comes back, is read, and the next task goes out. */
  lemma CalmEcho(s: Sys) returns (steps: seq<Step>)
    requires s.pc.Idle? && s.rx == [] && !s.core.recvStopped
    requires s.core.parked.Some? && s.core.parked.value.data != [] && s.core.parked.value in s.inflight
    ensures Legal(s, steps) && Calm(s, steps)
    ensures var s' := After(s, steps);
            && s'.pc.Idle? && s'.rx == [] && !s'.core.recvStopped
            && (s.core.queue == [] ==> s'.core.queue == [] && s'.core.parked.None?)
            && (s.core.queue != [] ==>
                  s'.core.queue == s.core.queue[..|s.core.queue| - 1]
                  && s'.core.parked == Some(s.core.Next()) && s.core.Next() in s'.inflight)
  {
    var t := s.core.parked.value;
    var s1 := Do(s, LoopBack(t));
    var s2 := Do(s1, ReadDatagram);
    var attempt := CalmAttempt(s2);
    CalmCons(s1, ReadDatagram, attempt);
    CalmCons(s, LoopBack(t), [ReadDatagram] + attempt);
    steps := [LoopBack(t)] + ([ReadDatagram] + attempt);
  }

  lemma {:induction false} CalmEchoes(s: Sys) returns (steps: seq<Step>)
    requires s.pc.Idle? && s.rx == [] && !s.core.recvStopped && AllNonEmpty(s.core.queue)
    requires s.core.parked.Some? && s.core.parked.value.data != [] && s.core.parked.value in s.inflight
    ensures Legal(s, steps) && Calm(s, steps)
    ensures After(s, steps).core.queue == [] && After(s, steps).core.parked.None? && After(s, steps).pc.Idle?
    decreases |s.core.queue|
  {
    steps := CalmEcho(s);
    if s.core.queue != [] {
      var rest := CalmEchoes(After(s, steps));
      CalmConcat(s, steps, rest);
      steps := steps + rest;
    }
  }

  /** One wakeup: the newest task, if any, goes out. */
  lemma CalmWakeup(s: Sys) returns (steps: seq<Step>)
    requires s.pc.Idle? && s.core.wake && s.core.parked.None? && !s.core.quit
    ensures Legal(s, steps) && Calm(s, steps)
    ensures var s' := After(s, steps);
            && s'.pc.Idle? && s'.rx == s.rx && s'.core.recvStopped == s.core.recvStopped
            && (s.core.queue == [] ==> s'.core.queue == [] && s'.core.parked.None?)
            && (s.core.queue != [] ==>
                  s'.core.queue == s.core.queue[..|s.core.queue| - 1]
                  && s'.core.parked == Some(s.core.Next()) && s.core.Next() in s'.inflight)
  {
    var s1 := Do(s, Wake);
    var attempt := CalmAttempt(s1);
    CalmCons(After(s1, attempt), Finish, []);
    CalmConcat(s1, attempt, [Finish] + []);
    CalmCons(s, Wake, attempt + ([Finish] + []));
    steps := [Wake] + (attempt + ([Finish] + []));
  }

  /** If every packet is echoed, one wakeup drains the queue. */
  lemma OneWakeupDrains(s: Sys) returns (steps: seq<Step>)
    requires s.pc.Idle? && s.core.wake && s.core.parked.None? && Inv(s)
    requires s.rx == [] && !s.core.recvStopped && !s.core.quit && AllNonEmpty(s.core.queue)
    ensures Legal(s, steps) && Calm(s, steps)
    ensures After(s, steps).core.queue == [] && After(s, steps).core.parked.None?
    ensures SentTasks(After(s, steps).core.trace) == SentTasks(s.core.trace) + Reversed(s.core.queue)
  {
    steps := CalmWakeup(s);
    if s.core.queue != [] {
      var rest := CalmEchoes(After(s, steps));
      CalmConcat(s, steps, rest);
      steps := steps + rest;
    }
    QueueDrains(s, steps);
    InvRun(s, steps);
  }

  // ---- every run in which everything is echoed drains ----

  /** Work that waits has a wakeup on its way; no give-up is excused. */
  predicate Driven(s: Sys) {
    Neglected(s) ==> s.core.wake || s.writers > 0
  }

  lemma DrivenStep(s: Sys, step: Step)
    requires Enabled(s, step) && TraceKept(s) && !GivesUp(s, step) && Driven(s)
    ensures Driven(Do(s, step))
  {
  }

  lemma {:induction false} DrivenRun(s: Sys, steps: seq<Step>)
    requires Legal(s, steps) && Calm(s, steps) && TraceKept(s) && Driven(s)
    ensures Driven(After(s, steps))
    decreases |steps|
  {
    if steps != [] {
      TraceKeptStep(s, steps[0]);
      DrivenStep(s, steps[0]);
      DrivenRun(Do(s, steps[0]), steps[1..]);
    }
  }

  /**
    From an idle sender with a wakeup pending: every run without new work and give-ups that comes
    to rest with all own copies read has drained the queue, newest task first.
   */
  lemma EveryEchoedRunDrains(s: Sys, steps: seq<Step>)
    requires s.pc.Idle? && s.core.wake && s.core.parked.None? && Inv(s)
    requires Legal(s, steps) && Calm(s, steps)
    requires var s' := After(s, steps);
             s'.pc.Idle? && !s'.core.wake && s'.writers == 0
             && multiset(SentTasks(s'.core.trace)) <= Echoes(s'.readLog)
    ensures var s' := After(s, steps);
            && s'.core.queue == [] && s'.core.parked.None?
            && SentTasks(s'.core.trace) == SentTasks(s.core.trace) + Reversed(s.core.queue)
  {
    InvRun(s, steps);
    DrivenRun(s, steps);
    AllRead(After(s, steps));
    QueueDrains(s, steps);
  }

  // ---- what the promises do not cover ----

  /** Idle, something queued, nothing parked, and no wakeup on its way. */
  predicate Stalled(s: Sys) {
    Neglected(s) && s.pc.Idle? && !s.core.wake && s.writers == 0
  }

  lemma StallPersistsStep(s: Sys, step: Step)
    requires Enabled(s, step) && Stalled(s) && !step.Push? && !step.SignalQuit?
    ensures Stalled(Do(s, step)) && Do(s, step).core.queue == s.core.queue
    ensures SentTasks(Do(s, step).core.trace) == SentTasks(s.core.trace)
  {
    SentTasksStep(s, step);
    TasksStay(s, step);
    assert SentTasks(s.core.trace) + [] == SentTasks(s.core.trace);
  }

  /** Nobody writes, and no shutdown wakes the loop thread. */
  predicate NoNewWakeup(steps: seq<Step>) {
    forall step :: step in steps ==> !step.Push? && !step.SignalQuit?
  }

  /** A stalled sender stays stalled. */
  lemma {:induction false} StallPersists(s: Sys, steps: seq<Step>)
    requires Legal(s, steps) && Stalled(s) && NoNewWakeup(steps)
    ensures var s' := After(s, steps);
            Stalled(s') && s'.core.queue == s.core.queue && SentTasks(s'.core.trace) == SentTasks(s.core.trace)
    decreases |steps|
  {
    if steps != [] {
      assert steps[0] in steps;
      StallPersistsStep(s, steps[0]);
      StallPersists(Do(s, steps[0]), steps[1..]);
    }
  }

  /** What is queued stays unsent in every run until somebody writes or shuts down. */
  ghost predicate Stranded(s: Sys) {
    forall steps :: Legal(s, steps) && NoNewWakeup(steps) ==>
      SentTasks(After(s, steps).core.trace) == SentTasks(s.core.trace)
  }

  /** A run that sends a task, from a wakeup that is pending or that a writer is about to give. */
  lemma ComingWakeupSends(s: Sys) returns (steps: seq<Step>)
    requires s.pc.Idle? && s.core.CanPop() && (s.core.wake || s.writers > 0)
    ensures Legal(s, steps) && NoNewWakeup(steps)
    ensures SentTasks(After(s, steps).core.trace) == SentTasks(s.core.trace) + [s.core.Next()]
  {
    if s.core.wake {
      steps := WakeupEndsStall(s);
    } else {
      var s1 := Do(s, Signal);
      var rest := WakeupEndsStall(s1);
      LegalCons(s, Signal, rest);
      steps := [Signal] + rest;
    }
  }

  lemma StrandedIffStalled(s: Sys)
    requires s.pc.Idle? && s.core.CanPop()
    ensures Stranded(s) <==> Stalled(s)
  {
    if Stalled(s) {
      forall steps | Legal(s, steps) && NoNewWakeup(steps)
        ensures SentTasks(After(s, steps).core.trace) == SentTasks(s.core.trace)
      {
        StallPersists(s, steps);
      }
    } else {
      var steps := ComingWakeupSends(s);
      assert |SentTasks(After(s, steps).core.trace)| == |SentTasks(s.core.trace)| + 1;
    }
  }

  /**
    The watchdog does not call _attemptWrite: a give-up strands what is queued exactly when no
    wakeup was pending and no writer was about to give one.
   */
  lemma GiveUpStrands(s: Sys)
    requires Enabled(s, Tick) && Inv(s) && GivesUp(s, Tick) && s.core.queue != []
    ensures Stranded(Do(s, Tick)) <==> !s.core.wake && s.writers == 0
  {
    StrandedIffStalled(Do(s, Tick));
  }

  /** An empty read and a tick, with a task parked and nothing else going on, strand what is queued. */
  lemma TimeOutStrands(s: Sys) returns (steps: seq<Step>)
    requires s.pc.Idle? && !s.core.recvStopped && s.core.timer && s.core.parked.Some?
    requires s.core.queue != [] && !s.core.wake && s.writers == 0
    ensures Legal(s, steps) && Stalled(After(s, steps))
  {
    LegalCons(Do(s, ReadNothing), Tick, []);
    LegalCons(s, ReadNothing, [Tick] + []);
    steps := [ReadNothing] + ([Tick] + []);
  }

  /** It does happen: a second task written while the first waits is stranded when the first times out. */
  lemma StallHappens(data: Payload, dest: Endpoint) returns (steps: seq<Step>)
    ensures Legal(Start, steps) && Stranded(After(Start, steps)) && After(Start, steps).core.queue != []
  {
    var first := WriteAndWake(Start, data, dest);
    var s1 := After(Start, first);
    var second := WriteAndWake(s1, data, dest);
    var last := TimeOutStrands(After(s1, second));
    LegalConcat(s1, second, last);
    LegalConcat(Start, first, second + last);
    StrandedIffStalled(After(After(s1, second), last));
    steps := first + (second + last);
  }

  /** One whole writeTo followed by the async callback it causes. */
  lemma WriteAndWake(s: Sys, data: Payload, dest: Endpoint) returns (steps: seq<Step>)
    requires s.pc.Idle?
    ensures Legal(s, steps) && After(s, steps).pc.Idle? && After(s, steps).writers == s.writers
    ensures After(s, steps).core == s.core.Push(data, dest).(wake := false).OnAsync()
  {
    var s1 := Do(s, Push(data, dest));
    var s2 := Do(s1, Signal);
    var callback := AsyncCbSteps(s2);
    LegalCons(s1, Signal, callback);
    LegalCons(s, Push(data, dest), [Signal] + callback);
    steps := [Push(data, dest)] + ([Signal] + callback);
  }

  /** Stranding needs a give-up: without one, work in the queue always has a wakeup coming. */
  lemma OnlyGiveUpsStrand(steps: seq<Step>)
    requires Legal(Start, steps)
    requires var s := After(Start, steps); s.pc.Idle? && s.core.CanPop() && Stranded(s)
    ensures TimedOutTasks(After(Start, steps).core.trace) != []
  {
    Reachable(steps);
    StrandedIffStalled(After(Start, steps));
    if TimedOutTasks(After(Start, steps).core.trace) == [] {
      NoGiveUp(After(Start, steps).core.trace);
    }
  }

  /** A parked empty payload is never taken for its echo: only the watchdog ends its wait. */
  lemma EmptyPayloadOnlyTimesOut(steps: seq<Step>, t: Task)
    requires Legal(Start, steps) && t.data == []
    ensures t !in LoopedTasks(After(Start, steps).core.trace)
  {
    Reachable(steps);
    LoopedAreNonEmpty(After(Start, steps).core.trace);
  }
}
