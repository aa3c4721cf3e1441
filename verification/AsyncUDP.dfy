/**
  The sender side of cores/ardulinux/AsyncUDP.cpp: a task queue filled by any thread, and a
  loop thread that sends one task at a time, parks it, and waits for its multicast echo.

  `Core` is the state of one AsyncUDP object together with its history; its members say what
  each callback does to it. `AsyncUDP` is the object itself, whose methods are proved to do
  exactly that. AsyncUDPRuns.dfy puts the object next to writer threads and a kernel.
 */
module AsyncUDPModel {
  import opened Wrappers

  type Payload = seq<bv8>

  datatype Endpoint = Endpoint(addr: bv32, port: bv16)

  /** One asyncUDPSendTask. `id` stands for the identity of the heap object. */
  datatype Task = Task(id: nat, data: Payload, dest: Endpoint)

  /** What an observer of the loop thread sees. */
  datatype Event =
    | Sent(task: Task)                       // handed to uv_udp_send
    | Looped(task: Task)                     // released because a matching datagram was read
    | TimedOut(task: Task)                   // released by the watchdog
    | EmptyRead                              // a read callback with nread <= 0
    | Passed(data: Payload, handled: bool)   // a datagram that is not an echo; handled iff a handler was set

  datatype Core = Core(
    handler: bool,
    queue: seq<Task>,
    parked: Option<Task>,
    emptied: bool,
    timer: bool,
    quit: bool,
    wake: bool,
    recvStopped: bool,
    submitted: seq<Task>,
    trace: seq<Event>)
  {
    function Log(e: Event): Core {
      this.(trace := trace + [e])
    }

    // ---- writer threads ----

    function Push(data: Payload, dest: Endpoint): Core {
      var t := Task(|submitted|, data, dest);
      this.(queue := queue + [t], submitted := submitted + [t])
    }

    function Signal(): Core {
      this.(wake := true)
    }

    // ---- loop thread, in the order _attemptWrite goes through them ----

    predicate CanPop() {
      parked.None? && queue != []
    }

    function Next(): Task
      requires queue != []
    {
      queue[|queue| - 1]
    }

    function Pop(): Core
      requires queue != []
    {
      this.(queue := queue[..|queue| - 1])
    }

    function Hand(t: Task): Core {
      Log(Sent(t))
    }

    function Park(t: Task): Core {
      this.(parked := Some(t), emptied := false, timer := true)
    }

    function Attempt(): Core {
      if CanPop() then Pop().Hand(Next()).Park(Next()) else this
    }

    // ---- callbacks ----

    predicate IsEcho(data: Payload) {
      parked.Some? && data == parked.value.data
    }

    function Unpark(e: Event): Core {
      this.(parked := None, timer := false).Log(e)
    }

    /** The read callback up to the point where it would call _attemptWrite. */
    function Receive(data: Payload): (c: Core)
      ensures c.queue == queue && c.submitted == submitted && c.handler == handler && c.wake == wake
    {
      if data == [] then this.(emptied := emptied || parked.Some?).Log(EmptyRead)
      else if IsEcho(data) then Unpark(Looped(parked.value))
      else Log(Passed(data, handler))
    }

    function OnRead(data: Payload): Core {
      if data != [] && IsEcho(data) then Receive(data).Attempt() else Receive(data)
    }

    function StopIfQuit(): Core {
      if quit then this.(recvStopped := true) else this
    }

    function OnAsync(): Core {
      Attempt().StopIfQuit()
    }

    function OnTimer(): (c: Core)
      ensures parked.None? ==> !c.timer && c.parked.None? && c.trace == trace
      ensures c.queue == queue && c.submitted == submitted && c.handler == handler && c.wake == wake
    {
      if parked.None? then this.(timer := false)
      else if emptied then Unpark(TimedOut(parked.value))
      else this
    }
  }

  const Initial := Core(false, [], None, false, false, false, false, false, [], [])

  class AsyncUDP {
    var handler: bool                          // whether _handler is set
    var sendQueue: seq<Task>
    var waitingToBeLooped: Option<Task>
    var emptiedBuffer: bool
    var timerActive: bool
    var quit: bool
    var asyncPending: bool                     // a uv_async_send the loop has not yet picked up
    var recvStopped: bool
    var submitted: seq<Task>                   // every task ever built; its length numbers the next one
    ghost var trace: seq<Event>

    ghost function View(): Core
      reads this
    {
      Core(handler, sendQueue, waitingToBeLooped, emptiedBuffer, timerActive, quit, asyncPending,
           recvStopped, submitted, trace)
    }

    constructor ()
      ensures View() == Initial
    {
      handler, sendQueue, waitingToBeLooped, emptiedBuffer := false, [], None, false;
      timerActive, quit, asyncPending, recvStopped := false, false, false, false;
      submitted, trace := [], [];
    }

    method OnPacket(callback: bool)
      modifies `handler
      ensures View() == old(View()).(handler := callback)
    {
      handler := callback;
    }

    /** Copy, enqueue under the mutex, then wake the loop; reports all bytes as queued. */
    method WriteTo(data: Payload, dest: Endpoint) returns (len: nat)
      modifies this
      ensures View() == old(View()).Push(data, dest).Signal()
      ensures len == |data|
    {
      var task := Task(|submitted|, data, dest);
      submitted := submitted + [task];
      sendQueue := sendQueue + [task];
      asyncPending := true;
      len := |data|;
    }

    method AttemptWrite()
      modifies this
      ensures View() == old(View()).Attempt()
    {
      if waitingToBeLooped.Some? {
        return;
      }
      if sendQueue != [] {
        var task := sendQueue[|sendQueue| - 1];
        sendQueue := sendQueue[..|sendQueue| - 1];
        trace := trace + [Sent(task)];          // _doWrite
        waitingToBeLooped := Some(task);
        emptiedBuffer := false;
        timerActive := true;
      }
    }

    /** `nread` is negative on an error, 0 for "nothing to read" and for a zero-length datagram. */
    method UvOnRead(nread: int, buf: Payload)
      requires nread <= |buf|
      modifies this
      ensures View() == old(View()).OnRead(if nread <= 0 then [] else buf[..nread])
    {
      if nread <= 0 {
        if waitingToBeLooped.Some? {
          emptiedBuffer := true;
        }
        trace := trace + [EmptyRead];
        return;
      }
      var h := handler;
      if waitingToBeLooped.Some? && nread == |waitingToBeLooped.value.data|
        && buf[..nread] == waitingToBeLooped.value.data
      {
        trace := trace + [Looped(waitingToBeLooped.value)];
        waitingToBeLooped := None;
        timerActive := false;
        AttemptWrite();
      } else {
        trace := trace + [Passed(buf[..nread], h)];
      }
    }

    method AsyncCb()
      modifies this
      ensures View() == old(View()).OnAsync()
    {
      AttemptWrite();
      if quit {
        recvStopped := true;
      }
    }

    method TimerCb()
      modifies this
      ensures View() == old(View()).OnTimer()
    {
      if waitingToBeLooped.None? {
        timerActive := false;
        return;
      }
      if emptiedBuffer {
        trace := trace + [TimedOut(waitingToBeLooped.value)];
        waitingToBeLooped := None;
        timerActive := false;
      }
    }

    /** The destructor's part of the protocol: raise the flag, then wake the loop. */
    method Shutdown()
      modifies this
      ensures View() == old(View()).(quit := true).Signal()
    {
      quit := true;
      asyncPending := true;
    }
  }
}
