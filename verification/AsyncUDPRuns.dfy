/**
  The AsyncUDP object inside its environment: any number of writer threads, one loop thread
  whose callbacks are cut at every point where another thread could get in between, and a
  kernel that may echo a multicast packet at most once, in any order, late or never.
 */
module AsyncUDPRuns {
  import opened Wrappers
  import opened AsyncUDPModel
  import opened AsyncUDPTrace

  /** A datagram in the receive buffer; the code sees only its data. */
  datatype Datagram = Foreign(payload: Payload) | Own(task: Task)
  {
    function Data(): Payload {
      if Foreign? then payload else task.data
    }
  }

  /** Where the loop thread is; `async` tells an async callback from a read callback. */
  datatype LoopPc =
    | Idle
    | Attempting(async: bool)          // entered _attemptWrite
    | Popped(task: Task, async: bool)  // queue mutex released again
    | Handed(task: Task, async: bool)  // uv_udp_send returned, task not yet parked
    | Finishing                        // async callback, before the _quit test

  datatype Sys = Sys(
    core: Core,
    pc: LoopPc,
    writers: nat,               // threads between their push and their uv_async_send
    quitSignal: bool,           // the destructor, between its flag and its uv_async_send
    inflight: multiset<Task>,   // own copies the kernel may still deliver
    rx: seq<Datagram>,          // receive buffer
    readLog: seq<Datagram>)     // everything ever read from it

  datatype Step =
    | Push(data: Payload, dest: Endpoint)
    | Signal
    | SetHandler(on: bool)
    | StoreQuit
    | SignalQuit
    | Wake
    | TryPop
    | HandOver
    | ParkTask
    | Finish
    | ReadDatagram
    | ReadNothing
    | Tick
    | LoopBack(task: Task)
    | Drop(task: Task)
    | Arrive(payload: Payload)

  const Start := Sys(Initial, Idle, 0, false, multiset{}, [], [])

  predicate Enabled(s: Sys, step: Step) {
    match step
    case Push(_, _) => true
    case Signal => s.writers > 0
    case SetHandler(_) => true
    case StoreQuit => !s.core.quit
    case SignalQuit => s.quitSignal
    case Wake => s.pc.Idle? && s.core.wake
    case TryPop => s.pc.Attempting?
    case HandOver => s.pc.Popped?
    case ParkTask => s.pc.Handed?
    case Finish => s.pc.Finishing?
    case ReadDatagram => s.pc.Idle? && !s.core.recvStopped && s.rx != []
    case ReadNothing => s.pc.Idle? && !s.core.recvStopped
    case Tick => s.pc.Idle? && s.core.timer
    case LoopBack(t) => t in s.inflight
    case Drop(t) => t in s.inflight
    case Arrive(_) => true
  }

  function Leave(async: bool): LoopPc {
    if async then Finishing else Idle
  }

  function Do(s: Sys, step: Step): Sys
    requires Enabled(s, step)
  {
    var c := s.core;
    match step
    case Push(data, dest) => s.(core := c.Push(data, dest), writers := s.writers + 1)
    case Signal => s.(core := c.Signal(), writers := s.writers - 1)
    case SetHandler(on) => s.(core := c.(handler := on))
    case StoreQuit => s.(core := c.(quit := true), quitSignal := true)
    case SignalQuit => s.(core := c.Signal(), quitSignal := false)
    case Wake => s.(core := c.(wake := false), pc := Attempting(true))
    case TryPop =>
      if c.CanPop() then s.(core := c.Pop(), pc := Popped(c.Next(), s.pc.async)) else s.(pc := Leave(s.pc.async))
    case HandOver =>
      s.(core := c.Hand(s.pc.task), inflight := s.inflight + multiset{s.pc.task}, pc := Handed(s.pc.task, s.pc.async))
    case ParkTask => s.(core := c.Park(s.pc.task), pc := Leave(s.pc.async))
    case Finish => s.(core := c.StopIfQuit(), pc := Idle)
    case ReadDatagram =>
      var d := s.rx[0];
      var pc := if d.Data() != [] && c.IsEcho(d.Data()) then Attempting(false) else Idle;
      s.(core := c.Receive(d.Data()), pc := pc, rx := s.rx[1..], readLog := s.readLog + [d])
    case ReadNothing => s.(core := c.Receive([]))
    case Tick => s.(core := c.OnTimer())
    case LoopBack(t) => s.(inflight := s.inflight - multiset{t}, rx := s.rx + [Own(t)])
    case Drop(t) => s.(inflight := s.inflight - multiset{t})
    case Arrive(payload) => s.(rx := s.rx + [Foreign(payload)])
  }

  predicate Legal(s: Sys, steps: seq<Step>)
    decreases |steps|
  {
    steps != [] ==> Enabled(s, steps[0]) && Legal(Do(s, steps[0]), steps[1..])
  }

  function After(s: Sys, steps: seq<Step>): Sys
    requires Legal(s, steps)
    decreases |steps|
  {
    if steps == [] then s else After(Do(s, steps[0]), steps[1..])
  }

  // ---- the object's methods are these steps, run without interruption ----

  lemma LegalCons(s: Sys, step: Step, rest: seq<Step>)
    requires Enabled(s, step) && Legal(Do(s, step), rest)
    ensures Legal(s, [step] + rest) && After(s, [step] + rest) == After(Do(s, step), rest)
  {
    assert ([step] + rest)[1..] == rest;
  }

  lemma {:induction false} LegalConcat(s: Sys, a: seq<Step>, b: seq<Step>)
    requires Legal(s, a) && Legal(After(s, a), b)
    ensures Legal(s, a + b) && After(s, a + b) == After(After(s, a), b)
    decreases |a|
  {
    if a == [] {
      assert a + b == b;
    } else {
      LegalConcat(Do(s, a[0]), a[1..], b);
      LegalCons(s, a[0], a[1..] + b);
      assert a + b == [a[0]] + (a[1..] + b);
    }
  }

  lemma AttemptSteps(s: Sys) returns (steps: seq<Step>)
    requires s.pc.Attempting?
    ensures Legal(s, steps) && After(s, steps).pc == Leave(s.pc.async) && After(s, steps).writers == s.writers
    ensures After(s, steps).core == s.core.Attempt()
    ensures forall step :: step in steps ==> !OfOthers(step)
  {
    var s1 := Do(s, TryPop);
    if s.core.CanPop() {
      var s2 := Do(s1, HandOver);
      LegalCons(s2, ParkTask, []);
      LegalCons(s1, HandOver, [ParkTask] + []);
      LegalCons(s, TryPop, [HandOver] + ([ParkTask] + []));
      steps := [TryPop] + ([HandOver] + ([ParkTask] + []));
    } else {
      LegalCons(s, TryPop, []);
      steps := [TryPop] + [];
    }
  }

  /** An uninterrupted async callback does what AsyncUDP.AsyncCb does. */
  lemma AsyncCbSteps(s: Sys) returns (steps: seq<Step>)
    requires Enabled(s, Wake)
    ensures Legal(s, steps) && After(s, steps).pc.Idle? && After(s, steps).writers == s.writers
    ensures After(s, steps).core == s.core.(wake := false).OnAsync()
    ensures forall step :: step in steps ==> !OfOthers(step)
  {
    var s1 := Do(s, Wake);
    var attempt := AttemptSteps(s1);
    LegalCons(After(s1, attempt), Finish, []);
    LegalConcat(s1, attempt, [Finish] + []);
    LegalCons(s, Wake, attempt + ([Finish] + []));
    steps := [Wake] + (attempt + ([Finish] + []));
  }

  /** An uninterrupted read callback does what AsyncUDP.UvOnRead does. */
  lemma ReadCbSteps(s: Sys) returns (steps: seq<Step>)
    requires Enabled(s, ReadDatagram)
    ensures Legal(s, steps) && After(s, steps).pc.Idle?
    ensures After(s, steps).core == s.core.OnRead(s.rx[0].Data())
    ensures forall step :: step in steps ==> !OfOthers(step)
  {
    var s1 := Do(s, ReadDatagram);
    if s1.pc.Idle? {
      LegalCons(s, ReadDatagram, []);
      steps := [ReadDatagram] + [];
    } else {
      var attempt := AttemptSteps(s1);
      LegalCons(s, ReadDatagram, attempt);
      steps := [ReadDatagram] + attempt;
    }
  }

  /** A whole writeTo is its push and then its signal; a whole destructor call its flag and then its signal. */
  lemma WriterSteps(s: Sys, data: Payload, dest: Endpoint)
    ensures var s1 := Do(s, Push(data, dest));
            && Enabled(s1, Signal) && Do(s1, Signal).core == s.core.Push(data, dest).Signal()
            && Do(s1, Signal).writers == s.writers && Do(s1, Signal).core.wake
    ensures !s.core.quit ==>
              var s1 := Do(s, StoreQuit);
              && Enabled(s1, SignalQuit) && Do(s1, SignalQuit).core == s.core.(quit := true).Signal()
              && Do(s1, SignalQuit).core.quit && Do(s1, SignalQuit).core.wake
  {
  }

  // ---- invariants of every run ----

  function InHand(pc: LoopPc): multiset<Task> {
    if pc.Popped? then multiset{pc.task} else multiset{}
  }

  ghost predicate Numbered(submitted: seq<Task>) {
    forall i :: 0 <= i < |submitted| ==> submitted[i].id == i
  }

  /** Every submitted task is in exactly one place: queued, between pop and send, or sent. */
  ghost predicate Conserved(s: Sys) {
    && Numbered(s.core.submitted)
    && multiset(s.core.submitted)
       == multiset(s.core.queue) + InHand(s.pc) + multiset(SentTasks(s.core.trace))
  }

  /** The object's fields say what its trace says. */
  ghost predicate TraceKept(s: Sys) {
    && Disciplined(s.core.trace)
    && Outstanding(s.core.trace) == (if s.pc.Handed? then Some(s.pc.task) else s.core.parked)
    && s.core.timer == s.core.parked.Some?
    && (s.core.parked.Some? ==> s.core.emptied == EmptySince(s.core.trace))
    && (s.pc.Handed? ==> s.core.parked.None? && !EmptySince(s.core.trace))
    && (s.pc.Popped? ==> s.core.parked.None?)
    && (s.pc.Attempting? && !s.pc.async ==> s.core.parked.None?)
  }

  predicate GivesUp(s: Sys, step: Step) {
    step.Tick? && s.core.parked.Some? && s.core.emptied
  }

  predicate ReadsEcho(s: Sys, step: Step)
    requires Enabled(s, step)
  {
    step.ReadDatagram? && s.rx[0].Data() != [] && s.core.IsEcho(s.rx[0].Data())
  }

  /** What one step appends to the trace: at most one event. */
  function NewEvents(s: Sys, step: Step): seq<Event>
    requires Enabled(s, step)
  {
    match step
    case HandOver => [Sent(s.pc.task)]
    case ReadDatagram =>
      var data := s.rx[0].Data();
      if data == [] then [EmptyRead]
      else if s.core.IsEcho(data) then [Looped(s.core.parked.value)]
      else [Passed(data, s.core.handler)]
    case ReadNothing => [EmptyRead]
    case Tick => if s.core.parked.Some? && s.core.emptied then [TimedOut(s.core.parked.value)] else []
    case _ => []
  }

  /** Steps of other threads and of the kernel. */
  predicate OfOthers(step: Step) {
    step.Push? || step.Signal? || step.SetHandler? || step.StoreQuit? || step.SignalQuit?
    || step.LoopBack? || step.Drop? || step.Arrive?
  }

  /** They leave alone what belongs to the loop thread. */
  lemma OthersStay(s: Sys, step: Step)
    requires Enabled(s, step) && OfOthers(step)
    ensures var s' := Do(s, step);
            && s'.pc == s.pc && s'.core.parked == s.core.parked && s'.core.emptied == s.core.emptied
            && s'.core.timer == s.core.timer && s'.core.trace == s.core.trace
    ensures NewEvents(s, step) == []
  {
  }

  lemma LogStep(s: Sys, step: Step)
    requires Enabled(s, step) && !OfOthers(step)
    ensures Do(s, step).core.trace == s.core.trace + NewEvents(s, step)
  {
    if step.ReadDatagram? {
      LogRead(s);
    } else if step.Tick? {
      LogTick(s);
    } else if step.HandOver? || step.ReadNothing? {
      LogOne(s, step);
    } else {
      LogNothing(s, step);
      assert s.core.trace + [] == s.core.trace;
    }
  }

  lemma LogRead(s: Sys)
    requires Enabled(s, ReadDatagram)
    ensures Do(s, ReadDatagram).core.trace == s.core.trace + NewEvents(s, ReadDatagram)
  {
  }

  lemma LogTick(s: Sys)
    requires Enabled(s, Tick)
    ensures Do(s, Tick).core.trace == s.core.trace + NewEvents(s, Tick)
  {
  }

  lemma LogOne(s: Sys, step: Step)
    requires Enabled(s, step) && (step.HandOver? || step.ReadNothing?)
    ensures Do(s, step).core.trace == s.core.trace + NewEvents(s, step)
  {
  }

  lemma LogNothing(s: Sys, step: Step)
    requires Enabled(s, step) && (step.Wake? || step.TryPop? || step.ParkTask? || step.Finish?)
    ensures Do(s, step).core.trace == s.core.trace && NewEvents(s, step) == []
  {
  }

  lemma TraceStep(s: Sys, step: Step)
    requires Enabled(s, step)
    ensures |NewEvents(s, step)| <= 1
    ensures Do(s, step).core.trace == s.core.trace + NewEvents(s, step)
    ensures NewEvents(s, step) != [] ==>
              var tr := Do(s, step).core.trace;
              tr != [] && Front(tr) == s.core.trace && Last(tr) == NewEvents(s, step)[0]
  {
    if OfOthers(step) {
      OthersStay(s, step);
    } else {
      LogStep(s, step);
    }
    var es := NewEvents(s, step);
    if es != [] {
      Extend(s.core.trace, es[0]);
      assert es == [es[0]];
    } else {
      assert s.core.trace + es == s.core.trace;
    }
  }

  /** The projections of the new events, as additions to those of the old trace. */
  lemma ProjectionsStep(s: Sys, step: Step)
    requires Enabled(s, step)
    ensures var tr, tr', es := s.core.trace, Do(s, step).core.trace, NewEvents(s, step);
            && SentTasks(tr') == SentTasks(tr) + SentTasks(es)
            && Releases(tr') == Releases(tr) + Releases(es)
            && LoopedTasks(tr') == LoopedTasks(tr) + LoopedTasks(es)
            && TimedOutTasks(tr') == TimedOutTasks(tr) + TimedOutTasks(es)
            && PassedOn(tr') == PassedOn(tr) + PassedOn(es)
            && Delivered(tr') == Delivered(tr) + Delivered(es)
  {
    TraceStep(s, step);
    Appended(s.core.trace, NewEvents(s, step));
  }

  /** Which tasks one step sends, and which it releases. */
  lemma NewTasks(s: Sys, step: Step)
    requires Enabled(s, step)
    ensures var es := NewEvents(s, step);
            && SentTasks(es) == (if step.HandOver? then [s.pc.task] else [])
            && LoopedTasks(es) == (if ReadsEcho(s, step) then [s.core.parked.value] else [])
            && TimedOutTasks(es) == (if GivesUp(s, step) then [s.core.parked.value] else [])
            && Releases(es) == (if ReadsEcho(s, step) || GivesUp(s, step) then [s.core.parked.value] else [])
  {
    var es := NewEvents(s, step);
    if step.HandOver? {
      ProjectOne(Sent(s.pc.task));
    } else if step.ReadDatagram? {
      ReadTasks(s);
    } else if step.ReadNothing? {
      ProjectOne(EmptyRead);
    } else if GivesUp(s, step) {
      ProjectOne(es[0]);
    } else {
      assert es == [];
    }
  }

  lemma ReadTasks(s: Sys)
    requires Enabled(s, ReadDatagram)
    ensures var es, looped := NewEvents(s, ReadDatagram), ReadsEcho(s, ReadDatagram);
            && SentTasks(es) == [] && TimedOutTasks(es) == []
            && LoopedTasks(es) == (if looped then [s.core.parked.value] else [])
            && Releases(es) == (if looped then [s.core.parked.value] else [])
  {
    ProjectOne(NewEvents(s, ReadDatagram)[0]);
  }

  lemma SentTasksStep(s: Sys, step: Step)
    requires Enabled(s, step)
    ensures SentTasks(Do(s, step).core.trace)
            == SentTasks(s.core.trace) + if step.HandOver? then [s.pc.task] else []
  {
    ProjectionsStep(s, step);
    NewTasks(s, step);
  }

  lemma SplitLast(q: seq<Task>)
    requires q != []
    ensures multiset(q) == multiset(q[..|q| - 1]) + multiset{q[|q| - 1]}
  {
    assert q == q[..|q| - 1] + [q[|q| - 1]];
  }

  lemma PopConserved(s: Sys)
    requires Enabled(s, TryPop) && Conserved(s)
    ensures Conserved(Do(s, TryPop))
  {
    if s.core.CanPop() {
      SplitLast(s.core.queue);
      var s' := Do(s, TryPop);
      assert s'.core.queue == s.core.queue[..|s.core.queue| - 1] && s'.core.trace == s.core.trace;
      assert InHand(s.pc) == multiset{} && InHand(s'.pc) == multiset{s.core.Next()};
    }
  }

  lemma HandConserved(s: Sys)
    requires Enabled(s, HandOver) && Conserved(s)
    ensures Conserved(Do(s, HandOver))
  {
    SentTasksStep(s, HandOver);
  }

  lemma PushConserved(s: Sys, data: Payload, dest: Endpoint)
    requires Conserved(s)
    ensures Conserved(Do(s, Push(data, dest)))
  {
  }

  /** Only a push, a pop and a hand-over move tasks. */
  lemma TasksStay(s: Sys, step: Step)
    requires Enabled(s, step) && !step.Push? && !step.TryPop? && !step.HandOver?
    ensures Do(s, step).core.queue == s.core.queue
    ensures Do(s, step).core.submitted == s.core.submitted
    ensures InHand(Do(s, step).pc) == InHand(s.pc)
  {
    match step
    case ReadDatagram =>
    case Tick =>
    case ParkTask =>
    case _ =>
  }

  lemma ConservedStep(s: Sys, step: Step)
    requires Enabled(s, step) && Conserved(s)
    ensures Conserved(Do(s, step))
  {
    match step
    case Push(data, dest) => PushConserved(s, data, dest);
    case TryPop => PopConserved(s);
    case HandOver => HandConserved(s);
    case _ =>
      TasksStay(s, step);
      SentTasksStep(s, step);
      assert SentTasks(s.core.trace) + [] == SentTasks(s.core.trace);
  }

  /** A step that logs nothing and belongs to the loop thread. */
  lemma SilentKeepsTrace(s: Sys, step: Step)
    requires Enabled(s, step) && TraceKept(s)
    requires step.Wake? || step.TryPop? || step.ParkTask? || step.Finish? || (step.Tick? && !GivesUp(s, step))
    ensures TraceKept(Do(s, step))
  {
  }

  lemma HandOverKeepsTrace(s: Sys)
    requires Enabled(s, HandOver) && TraceKept(s)
    ensures TraceKept(Do(s, HandOver))
  {
    Logged(s.core.trace, Sent(s.pc.task));
  }

  lemma EmptyReadKeepsTrace(s: Sys)
    requires Enabled(s, ReadNothing) && TraceKept(s)
    ensures TraceKept(Do(s, ReadNothing))
  {
    Logged(s.core.trace, EmptyRead);
  }

  lemma EmptyDatagramKeepsTrace(s: Sys)
    requires Enabled(s, ReadDatagram) && TraceKept(s) && s.rx[0].Data() == []
    ensures TraceKept(Do(s, ReadDatagram))
  {
    Logged(s.core.trace, EmptyRead);
  }

  lemma EchoKeepsTrace(s: Sys)
    requires Enabled(s, ReadDatagram) && TraceKept(s) && ReadsEcho(s, ReadDatagram)
    ensures TraceKept(Do(s, ReadDatagram))
  {
    Logged(s.core.trace, Looped(s.core.parked.value));
  }

  lemma PassingKeepsTrace(s: Sys)
    requires Enabled(s, ReadDatagram) && TraceKept(s) && s.rx[0].Data() != [] && !ReadsEcho(s, ReadDatagram)
    ensures TraceKept(Do(s, ReadDatagram))
  {
    Logged(s.core.trace, Passed(s.rx[0].Data(), s.core.handler));
  }

  lemma GiveUpKeepsTrace(s: Sys)
    requires Enabled(s, Tick) && TraceKept(s) && GivesUp(s, Tick)
    ensures TraceKept(Do(s, Tick))
  {
    Logged(s.core.trace, TimedOut(s.core.parked.value));
  }

  lemma TraceKeptStep(s: Sys, step: Step)
    requires Enabled(s, step) && TraceKept(s)
    ensures TraceKept(Do(s, step))
  {
    if OfOthers(step) {
      OthersStay(s, step);
    } else if step.HandOver? {
      HandOverKeepsTrace(s);
    } else if step.ReadNothing? {
      EmptyReadKeepsTrace(s);
    } else if step.ReadDatagram? && s.rx[0].Data() == [] {
      EmptyDatagramKeepsTrace(s);
    } else if step.ReadDatagram? && ReadsEcho(s, step) {
      EchoKeepsTrace(s);
    } else if step.ReadDatagram? {
      PassingKeepsTrace(s);
    } else if GivesUp(s, step) {
      GiveUpKeepsTrace(s);
    } else {
      SilentKeepsTrace(s, step);
    }
  }
}
