/** What holds of the AsyncUDP protocol after every run from the initial state. */
module AsyncUDPTheorems {
  import opened Wrappers
  import opened AsyncUDPModel
  import opened AsyncUDPTrace
  import opened AsyncUDPRuns
  import opened AsyncUDPEcho

  // ---- wakeups ----

  predicate GaveUpLast(tr: Trace) {
    tr != [] && (Last(tr).TimedOut? || (!Last(tr).Looped? && GaveUpLast(Front(tr))))
  }

  /** Work is waiting, nothing blocks it, and the loop thread is not about to look. */
  predicate Neglected(s: Sys) {
    (s.pc.Idle? || s.pc.Finishing?) && s.core.CanPop()
  }

  ghost predicate NoLostWakeup(s: Sys) {
    Neglected(s) ==> s.core.wake || s.writers > 0 || GaveUpLast(s.core.trace)
  }

  predicate InAsyncCallback(pc: LoopPc) {
    pc.Finishing? || ((pc.Attempting? || pc.Popped? || pc.Handed?) && pc.async)
  }

  /** A requested shutdown is never forgotten. */
  ghost predicate QuitHeard(s: Sys) {
    s.core.quit && !s.core.recvStopped ==> s.quitSignal || s.core.wake || InAsyncCallback(s.pc)
  }

  lemma GaveUpStep(s: Sys, step: Step)
    requires Enabled(s, step) && TraceKept(s)
    ensures GaveUpLast(s.core.trace) && !(step.ReadDatagram? && s.core.parked.Some?) ==>
              GaveUpLast(Do(s, step).core.trace)
    ensures step.Tick? && GivesUp(s, step) ==> GaveUpLast(Do(s, step).core.trace)
  {
    TraceStep(s, step);
  }

  lemma NoLostWakeupStep(s: Sys, step: Step)
    requires Enabled(s, step) && TraceKept(s) && NoLostWakeup(s)
    ensures NoLostWakeup(Do(s, step))
  {
    GaveUpStep(s, step);
  }

  lemma QuitHeardStep(s: Sys, step: Step)
    requires Enabled(s, step) && QuitHeard(s)
    ensures QuitHeard(Do(s, step))
  {
  }

  // ---- every run ----

  ghost predicate Inv(s: Sys) {
    && Conserved(s)
    && TraceKept(s)
    && EchoesKept(s)
    && ReadsAccounted(s)
    && NoLostWakeup(s)
    && QuitHeard(s)
  }

  lemma InvStep(s: Sys, step: Step)
    requires Enabled(s, step) && Inv(s)
    ensures Inv(Do(s, step))
  {
    ConservedStep(s, step);
    TraceKeptStep(s, step);
    EchoesKeptStep(s, step);
    ReadsAccountedStep(s, step);
    NoLostWakeupStep(s, step);
    QuitHeardStep(s, step);
  }

  lemma {:induction false} InvRun(s: Sys, steps: seq<Step>)
    requires Legal(s, steps) && Inv(s)
    ensures Inv(After(s, steps))
    decreases |steps|
  {
    if steps != [] {
      InvStep(s, steps[0]);
      InvRun(Do(s, steps[0]), steps[1..]);
    }
  }

  lemma Reachable(steps: seq<Step>)
    requires Legal(Start, steps)
    ensures Inv(After(Start, steps))
  {
    InvRun(Start, steps);
  }

  // ---- stop-and-wait, conservation, watchdog ----

  lemma Conservation(steps: seq<Step>)
    requires Legal(Start, steps)
    ensures var s := After(Start, steps);
            var tr := s.core.trace;
            && multiset(s.core.submitted) == multiset(s.core.queue) + InHand(s.pc) + multiset(SentTasks(tr))
            && (s.pc.Idle? ==>
                  multiset(SentTasks(tr)) == multiset(LoopedTasks(tr)) + multiset(TimedOutTasks(tr))
                    + if s.core.parked.Some? then multiset{s.core.parked.value} else multiset{})
            && forall t :: multiset(SentTasks(tr))[t] <= 1
  {
    Reachable(steps);
    var s := After(Start, steps);
    StopAndWait(s.core.trace);
    ReleasesSplit(s.core.trace);
    forall t ensures multiset(SentTasks(s.core.trace))[t] <= 1 {
      SentOnce(s, t);
    }
  }

  /** What the writers were asked to send, in the order of their pushes. */
  function Written(steps: seq<Step>): seq<(Payload, Endpoint)> {
    if steps == [] then []
    else (if steps[0].Push? then [(steps[0].data, steps[0].dest)] else []) + Written(steps[1..])
  }

  function Orders(tasks: seq<Task>): seq<(Payload, Endpoint)> {
    seq(|tasks|, (i: nat) requires i < |tasks| => (tasks[i].data, tasks[i].dest))
  }

  /** The submitted tasks are the writes, byte for byte, so with Conservation nothing else is ever sent. */
  lemma {:induction false} SubmittedAreTheWrites(s: Sys, steps: seq<Step>)
    requires Legal(s, steps)
    ensures Orders(After(s, steps).core.submitted) == Orders(s.core.submitted) + Written(steps)
    decreases |steps|
  {
    if steps != [] {
      var s' := Do(s, steps[0]);
      SubmittedStep(s, steps[0]);
      SubmittedAreTheWrites(s', steps[1..]);
      var added := if steps[0].Push? then [(steps[0].data, steps[0].dest)] else [];
      Regrouped(Orders(s.core.submitted), added, Written(steps[1..]));
    }
  }

  lemma Regrouped(a: seq<(Payload, Endpoint)>, b: seq<(Payload, Endpoint)>, c: seq<(Payload, Endpoint)>)
    ensures a + b + c == a + (b + c)
  {
  }

  lemma SubmittedStep(s: Sys, step: Step)
    requires Enabled(s, step)
    ensures Orders(Do(s, step).core.submitted)
            == Orders(s.core.submitted) + if step.Push? then [(step.data, step.dest)] else []
  {
    if step.Push? {
      assert Orders(s.core.submitted + [Task(|s.core.submitted|, step.data, step.dest)])
             == Orders(s.core.submitted) + [(step.data, step.dest)];
    } else {
      assert Do(s, step).core.submitted == s.core.submitted;
    }
  }

  lemma ExactlyOneReleaseBetweenSends(steps: seq<Step>, i: nat, j: nat) returns (k: nat)
    requires Legal(Start, steps)
    requires var tr := After(Start, steps).core.trace;
             i < j < |tr| && tr[i].Sent? && tr[j].Sent? && forall m :: i < m < j ==> !tr[m].Sent?
    ensures var tr := After(Start, steps).core.trace;
            && i < k < j && IsRelease(tr[k]) && tr[k].task == tr[i].task
            && forall m :: i < m < j && IsRelease(tr[m]) ==> m == k
  {
    Reachable(steps);
    k := OneReleaseBetweenSends(After(Start, steps).core.trace, i, j);
  }

  /** The give-up at `j` ends the wait begun by the send at `h`, which saw the buffer empty at `i`. */
  predicate Justified(tr: Trace, h: nat, i: nat, j: nat) {
    && h < i < j < |tr|
    && tr[j].TimedOut? && tr[h] == Sent(tr[j].task) && tr[i] == EmptyRead
    && forall m :: h < m < j ==> !tr[m].Sent? && !IsRelease(tr[m])
  }

  /** The timer runs exactly while a task is parked, so its nothing-parked branch is dead. */
  lemma WatchdogTimer(steps: seq<Step>)
    requires Legal(Start, steps)
    ensures var s := After(Start, steps);
            (s.core.timer <==> s.core.parked.Some?) && (Enabled(s, Tick) ==> s.core.parked.Some?)
  {
    Reachable(steps);
  }

  /** A give-up follows an empty read of its own wait, never of an earlier one. */
  lemma WatchdogSound(steps: seq<Step>)
    requires Legal(Start, steps)
    ensures var tr := After(Start, steps).core.trace;
            forall j: nat :: j < |tr| && tr[j].TimedOut? ==> exists h: nat, i: nat :: Justified(tr, h, i, j)
  {
    Reachable(steps);
    var tr := After(Start, steps).core.trace;
    forall j: nat | j < |tr| && tr[j].TimedOut?
      ensures exists h: nat, i: nat :: Justified(tr, h, i, j)
    {
      var h, i := GiveUpSawEmptyRead(tr, j);
      assert Justified(tr, h, i, j);
    }
  }

  // ---- what the handler sees ----

  lemma EchoAccounting(steps: seq<Step>)
    requires Legal(Start, steps)
    ensures var s := After(Start, steps);
            var tr := s.core.trace;
            && ReadData(s.readLog) == multiset(PassedOn(tr)) + DataOf(LoopedTasks(tr))
            && |PassedOn(tr)| <= |ForeignData(s.readLog)| + |TimedOutTasks(tr)|
  {
    Reachable(steps);
    var s := After(Start, steps);
    var tr := s.core.trace;
    ReadDataSplit(s.readLog);
    OwnDataSize(s.readLog);
    ReleasesSplit(tr);
    DataOfSize(LoopedTasks(tr));
    SubsetSize(Echoes(s.readLog), multiset(Releases(tr)));
    assert |multiset(Releases(tr))| == |LoopedTasks(tr)| + |TimedOutTasks(tr)|;
    assert |ReadData(s.readLog)| == |PassedOn(tr)| + |LoopedTasks(tr)|;
  }

  /** The invariant behind it: the own copy of a task still parked has not been read. */
  lemma ParkedCopyIsUnread(steps: seq<Step>)
    requires Legal(Start, steps)
    ensures var s := After(Start, steps);
            s.pc.Idle? && s.core.parked.Some? ==> Echoes(s.readLog)[s.core.parked.value] == 0
  {
    Reachable(steps);
    if After(Start, steps).pc.Idle? && After(Start, steps).core.parked.Some? {
      ParkedUnread(After(Start, steps));
    }
  }

  lemma ParkedUnread(s: Sys)
    requires Inv(s) && s.pc.Idle? && s.core.parked.Some?
    ensures Echoes(s.readLog)[s.core.parked.value] == 0
  {
    var t := s.core.parked.value;
    StopAndWait(s.core.trace);
    SentOnce(s, t);
    UnreadCount(Echoes(s.readLog), Releases(s.core.trace), t);
  }

  lemma UnreadCount(echoes: multiset<Task>, released: seq<Task>, t: Task)
    requires echoes <= multiset(released) && multiset(released + [t])[t] <= 1
    ensures echoes[t] == 0
  {
    assert multiset(released + [t])[t] == multiset(released)[t] + 1;
  }

  lemma SubsetSize(a: multiset<Task>, b: multiset<Task>)
    requires a <= b
    ensures |a| <= |b|
  {
    assert b == a + (b - a);
  }

  /** The handler sees the foreign payloads exactly when echoes read and echoes released agree. */
  lemma HandlerSeesForeign(steps: seq<Step>)
    requires Legal(Start, steps)
    ensures var s := After(Start, steps);
            multiset(PassedOn(s.core.trace)) == ForeignData(s.readLog)
            <==> OwnData(s.readLog) == DataOf(LoopedTasks(s.core.trace))
    ensures var s := After(Start, steps);
            TimedOutTasks(s.core.trace) == [] && Echoes(s.readLog) == multiset(SentTasks(s.core.trace)) ==>
              multiset(PassedOn(s.core.trace)) == ForeignData(s.readLog) && (s.pc.Idle? ==> s.core.parked.None?)
  {
    Reachable(steps);
    var s := After(Start, steps);
    var tr := s.core.trace;
    ReadDataSplit(s.readLog);
    BalancedSides(multiset(PassedOn(tr)), DataOf(LoopedTasks(tr)), ForeignData(s.readLog), OwnData(s.readLog));
    if TimedOutTasks(tr) == [] && Echoes(s.readLog) == multiset(SentTasks(tr)) {
      ReleasesSplit(tr);
      AllRead(s);
      OwnDataIsDataOf(s.readLog, LoopedTasks(tr));
    }
  }

  lemma BalancedSides(a: multiset<Payload>, b: multiset<Payload>, c: multiset<Payload>, d: multiset<Payload>)
    requires a + b == c + d
    ensures a == c <==> d == b
  {
    assert a == (a + b) - b && b == (a + b) - a;
    assert c == (c + d) - d && d == (c + d) - c;
  }

  lemma NotWithin(ts: seq<Task>, t: Task)
    ensures !(multiset(ts + [t]) <= multiset(ts))
  {
    assert multiset(ts + [t])[t] == multiset(ts)[t] + 1;
  }

  lemma AllRead(s: Sys)
    requires Inv(s) && multiset(SentTasks(s.core.trace)) <= Echoes(s.readLog)
    ensures Outstanding(s.core.trace).None?
    ensures multiset(Releases(s.core.trace)) == multiset(SentTasks(s.core.trace))
  {
    var tr := s.core.trace;
    StopAndWait(tr);
    if Outstanding(tr).Some? {
      NotWithin(Releases(tr), Outstanding(tr).value);
    }
    assert Releases(tr) + [] == Releases(tr);
  }

  lemma NewlyPassedIsHandled(s: Sys, step: Step)
    requires Enabled(s, step) && s.core.handler
    ensures Delivered(NewEvents(s, step)) == PassedOn(NewEvents(s, step))
  {
    var es := NewEvents(s, step);
    if es != [] {
      assert es[0].Passed? ==> es[0].handled;
      ProjectOne(es[0]);
      assert es == [es[0]];
    }
  }

  lemma HandlerKept(s: Sys, step: Step)
    requires Enabled(s, step) && s.core.handler && step != SetHandler(false)
    ensures Do(s, step).core.handler
  {
    match step
    case SetHandler(on) => assert on;
    case ReadDatagram => assert s.core.Receive(s.rx[0].Data()).handler;
    case _ =>
  }

  /** Every datagram passed on while a handler is set reaches it. */
  lemma {:induction false} HandlerStays(s: Sys, steps: seq<Step>)
    requires Legal(s, steps) && s.core.handler && SetHandler(false) !in steps
    requires Delivered(s.core.trace) == PassedOn(s.core.trace)
    ensures Delivered(After(s, steps).core.trace) == PassedOn(After(s, steps).core.trace)
    decreases |steps|
  {
    if steps != [] {
      HandlerKept(s, steps[0]);
      NewlyPassedIsHandled(s, steps[0]);
      ProjectionsStep(s, steps[0]);
      HandlerStays(Do(s, steps[0]), steps[1..]);
    }
  }

  /**
    A handler set before anything else and never removed is called with exactly the foreign
    payloads, once all own copies are read and no send was given up, even where foreign payloads
    equal our own.
   */
  lemma HandlerHearsForeign(steps: seq<Step>)
    requires Legal(Start, steps) && steps != [] && steps[0] == SetHandler(true)
    requires SetHandler(false) !in steps
    ensures var s := After(Start, steps);
            TimedOutTasks(s.core.trace) == [] && Echoes(s.readLog) == multiset(SentTasks(s.core.trace)) ==>
              multiset(Delivered(s.core.trace)) == ForeignData(s.readLog)
  {
    HandlerSeesForeign(steps);
    HandlerStays(Do(Start, steps[0]), steps[1..]);
  }

  lemma SilentStep(s: Sys, step: Step)
    requires Enabled(s, step) && !s.core.handler && step != SetHandler(true)
    ensures !Do(s, step).core.handler && Delivered(NewEvents(s, step)) == []
  {
    var es := NewEvents(s, step);
    if es != [] {
      assert es[0].Passed? ==> !es[0].handled;
      ProjectOne(es[0]);
      assert es == [es[0]];
    }
    match step
    case SetHandler(on) => assert !on;
    case ReadDatagram => assert !s.core.Receive(s.rx[0].Data()).handler;
    case _ =>
  }

  /** With no handler set, none is called. */
  lemma {:induction false} NoHandlerHearsNothing(s: Sys, steps: seq<Step>)
    requires Legal(s, steps) && !s.core.handler && SetHandler(true) !in steps
    ensures Delivered(After(s, steps).core.trace) == Delivered(s.core.trace)
    decreases |steps|
  {
    if steps != [] {
      SilentStep(s, steps[0]);
      ProjectionsStep(s, steps[0]);
      NoHandlerHearsNothing(Do(s, steps[0]), steps[1..]);
    }
  }

  /** Once a handler is removed nothing more is delivered until one is set again. */
  lemma RemovedHandlerHearsNothing(s: Sys, steps: seq<Step>)
    requires Legal(Do(s, SetHandler(false)), steps) && SetHandler(true) !in steps
    ensures Delivered(After(Do(s, SetHandler(false)), steps).core.trace) == Delivered(s.core.trace)
  {
    NoHandlerHearsNothing(Do(s, SetHandler(false)), steps);
  }

  // ---- order of sending ----

  /** The queue holds tasks in the order in which they were written. */
  ghost predicate InWriteOrder(s: Sys) {
    && (forall i, j :: 0 <= i < j < |s.core.queue| ==> s.core.queue[i].id < s.core.queue[j].id)
    && (forall i :: 0 <= i < |s.core.queue| ==> s.core.queue[i].id < |s.core.submitted|)
  }

  lemma InWriteOrderStep(s: Sys, step: Step)
    requires Enabled(s, step) && InWriteOrder(s)
    ensures InWriteOrder(Do(s, step))
  {
    if step.Push? {
      assert Do(s, step).core.queue == s.core.queue + [Task(|s.core.submitted|, step.data, step.dest)];
    } else if step.TryPop? || step.HandOver? {
      assert Do(s, step).core.queue <= s.core.queue && Do(s, step).core.submitted == s.core.submitted;
    } else {
      TasksStay(s, step);
    }
  }

  lemma {:induction false} InWriteOrderRun(s: Sys, steps: seq<Step>)
    requires Legal(s, steps) && InWriteOrder(s)
    ensures InWriteOrder(After(s, steps))
    decreases |steps|
  {
    if steps != [] {
      InWriteOrderStep(s, steps[0]);
      InWriteOrderRun(Do(s, steps[0]), steps[1..]);
    }
  }

  /** Whatever the interleaving, the task taken next is the one written last of those that wait. */
  lemma LastWrittenGoesFirst(steps: seq<Step>, t: Task)
    requires Legal(Start, steps)
    requires var s := After(Start, steps); Enabled(s, TryPop) && s.core.CanPop() && t in s.core.queue
    ensures var s := After(Start, steps);
            && Do(s, TryPop).pc.Popped? && Do(s, TryPop).pc.task in s.core.queue
            && t.id <= Do(s, TryPop).pc.task.id
  {
    InWriteOrderRun(Start, steps);
  }

  // ---- shutdown ----

  lemma QuitUnderWayStep(s: Sys, step: Step)
    requires Enabled(s, step) && s.core.quit && (InAsyncCallback(s.pc) || s.core.recvStopped)
    ensures Do(s, step).core.quit && (InAsyncCallback(Do(s, step).pc) || Do(s, step).core.recvStopped)
  {
    FlagsStay(s, step);
    if !s.core.recvStopped {
      if OfOthers(step) {
        OthersStay(s, step);
      } else {
        AsyncCallbackStep(s, step);
      }
    }
  }

  /** A shutdown is not taken back. */
  lemma FlagsStay(s: Sys, step: Step)
    requires Enabled(s, step)
    ensures s.core.quit ==> Do(s, step).core.quit
    ensures s.core.recvStopped ==> Do(s, step).core.recvStopped
  {
    match step
    case ReadDatagram =>
    case Tick =>
    case TryPop =>
    case _ =>
  }

  lemma AsyncCallbackStep(s: Sys, step: Step)
    requires Enabled(s, step) && s.core.quit && InAsyncCallback(s.pc) && !OfOthers(step)
    ensures InAsyncCallback(Do(s, step).pc) || Do(s, step).core.recvStopped
  {
    assert step == TryPop || step == HandOver || step == ParkTask || step == Finish;
  }

  lemma {:induction false} QuitUnderWay(s: Sys, steps: seq<Step>)
    requires Legal(s, steps) && s.core.quit && (InAsyncCallback(s.pc) || s.core.recvStopped)
    ensures var s' := After(s, steps); InAsyncCallback(s'.pc) || s'.core.recvStopped
    decreases |steps|
  {
    if steps != [] {
      QuitUnderWayStep(s, steps[0]);
      QuitUnderWay(Do(s, steps[0]), steps[1..]);
    }
  }

  /** The first wakeup after a shutdown request stops reception, and for good. */
  lemma QuitStopsReading(s: Sys, steps: seq<Step>)
    requires Enabled(s, Wake) && s.core.quit && Legal(Do(s, Wake), steps)
    ensures var s' := After(Do(s, Wake), steps);
            s'.pc.Idle? ==> s'.core.recvStopped && !Enabled(s', ReadDatagram) && !Enabled(s', ReadNothing)
  {
    QuitUnderWay(Do(s, Wake), steps);
  }

  // ---- progress ----

  lemma NoWakeupIsLost(steps: seq<Step>)
    requires Legal(Start, steps)
    ensures var s := After(Start, steps);
            Neglected(s) ==> s.core.wake || s.writers > 0 || GaveUpLast(s.core.trace)
    ensures var s := After(Start, steps);
            s.core.quit && !s.core.recvStopped ==> s.quitSignal || s.core.wake || InAsyncCallback(s.pc)
  {
    Reachable(steps);
  }

  /** More than `n` tasks were sent, or the loop thread is in the middle of sending one. */
  predicate SendsMore(s: Sys, n: nat) {
    |SentTasks(s.core.trace)| > n
    || (|SentTasks(s.core.trace)| == n && (s.pc.Popped? || (s.pc.Attempting? && s.core.CanPop())))
  }

  lemma SendsMoreStep(s: Sys, step: Step, n: nat)
    requires Enabled(s, step) && SendsMore(s, n)
    ensures SendsMore(Do(s, step), n)
  {
    SentTasksStep(s, step);
  }

  lemma {:induction false} SendsMoreRun(s: Sys, steps: seq<Step>, n: nat)
    requires Legal(s, steps) && SendsMore(s, n)
    ensures SendsMore(After(s, steps), n)
    decreases |steps|
  {
    if steps != [] {
      SendsMoreStep(s, steps[0], n);
      SendsMoreRun(Do(s, steps[0]), steps[1..], n);
    }
  }

  /**
    Whatever the other threads and the kernel do meanwhile, a wakeup that finds something queued
    and nothing parked has sent a task by the time the loop thread is idle again. So the next
    wakeup always ends the stall a give-up may leave behind.
   */
  lemma WakeupAlwaysSends(s: Sys, steps: seq<Step>)
    requires Enabled(s, Wake) && s.core.CanPop() && Legal(Do(s, Wake), steps)
    ensures var s' := After(Do(s, Wake), steps);
            s'.pc.Idle? || s'.pc.Finishing? ==> |SentTasks(s'.core.trace)| > |SentTasks(s.core.trace)|
  {
    SendsMoreRun(Do(s, Wake), steps, |SentTasks(s.core.trace)|);
  }

  /** Uninterrupted, it sends the newest task. */
  lemma WakeupEndsStall(s: Sys) returns (steps: seq<Step>)
    requires Enabled(s, Wake) && s.core.CanPop()
    ensures Legal(s, steps) && After(s, steps).pc.Idle?
    ensures After(s, steps).core.parked == Some(s.core.Next())
    ensures forall step :: step in steps ==> !OfOthers(step)
    ensures SentTasks(After(s, steps).core.trace) == SentTasks(s.core.trace) + [s.core.Next()]
  {
    steps := AsyncCbSteps(s);
    Extend(s.core.trace, Sent(s.core.Next()));
  }

  /** Nothing on its way: no wakeup, no writer half-way, no give-up so far, every own copy read. */
  ghost predicate Quiescent(s: Sys) {
    && s.pc.Idle? && !s.core.wake && s.writers == 0
    && TimedOutTasks(s.core.trace) == []
    && multiset(SentTasks(s.core.trace)) <= Echoes(s.readLog)
  }

  lemma QuiescentIsEmpty(s: Sys)
    requires Inv(s) && Quiescent(s)
    ensures s.core.queue == [] && s.core.parked.None?
    ensures multiset(SentTasks(s.core.trace)) == multiset(LoopedTasks(s.core.trace)) == Echoes(s.readLog)
  {
    AllRead(s);
    ReleasesSplit(s.core.trace);
    NoGiveUp(s.core.trace);
  }

  /**
    Then nothing is left behind: all that was submitted was sent and echoed, all the rest was
    passed on, and a handler set first and kept heard it.
   */
  lemma QuiescentMeansDone(steps: seq<Step>)
    requires Legal(Start, steps) && Quiescent(After(Start, steps))
    ensures var s := After(Start, steps);
            && s.core.queue == [] && s.core.parked.None?
            && multiset(s.core.submitted) == multiset(LoopedTasks(s.core.trace))
            && multiset(PassedOn(s.core.trace)) == ForeignData(s.readLog)
    ensures steps != [] && steps[0] == SetHandler(true) && SetHandler(false) !in steps ==>
              var s := After(Start, steps);
              multiset(Delivered(s.core.trace)) == ForeignData(s.readLog)
  {
    Reachable(steps);
    QuiescentIsEmpty(After(Start, steps));
    HandlerSeesForeign(steps);
    if steps != [] && steps[0] == SetHandler(true) && SetHandler(false) !in steps {
      HandlerHearsForeign(steps);
    }
  }

  lemma {:induction false} NoGiveUp(tr: Trace)
    requires TimedOutTasks(tr) == []
    ensures !GaveUpLast(tr)
  {
    if tr != [] {
      NoGiveUp(Front(tr));
    }
  }
}
