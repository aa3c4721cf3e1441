/**
  Echo accounting: which datagrams the application sees, over every run. The kernel delivers
  each own copy at most once; the filter compares payloads only, so it may mistake a foreign
  datagram for an echo, and this file shows what that can and cannot cost.
 */
module AsyncUDPEcho {
  import opened Wrappers
  import opened AsyncUDPModel
  import opened AsyncUDPTrace
  import opened AsyncUDPRuns

  // ---- counting datagrams; a zero-length one counts for nothing, as in the code ----

  function Echo(d: Datagram): multiset<Task> {
    if d.Own? && d.task.data != [] then multiset{d.task} else multiset{}
  }

  /** The own copies among `ds`. */
  function Echoes(ds: seq<Datagram>): multiset<Task> {
    if ds == [] then multiset{} else Echo(ds[0]) + Echoes(ds[1..])
  }

  function Bytes(data: Payload): multiset<Payload> {
    if data == [] then multiset{} else multiset{data}
  }

  function ReadData(ds: seq<Datagram>): multiset<Payload> {
    if ds == [] then multiset{} else Bytes(ds[0].Data()) + ReadData(ds[1..])
  }

  function ForeignData(ds: seq<Datagram>): multiset<Payload> {
    if ds == [] then multiset{}
    else (if ds[0].Foreign? then Bytes(ds[0].payload) else multiset{}) + ForeignData(ds[1..])
  }

  function OwnData(ds: seq<Datagram>): multiset<Payload> {
    if ds == [] then multiset{}
    else (if ds[0].Own? then Bytes(ds[0].task.data) else multiset{}) + OwnData(ds[1..])
  }

  function DataOf(ts: seq<Task>): multiset<Payload> {
    if ts == [] then multiset{} else DataOf(ts[..|ts| - 1]) + multiset{ts[|ts| - 1].data}
  }

  lemma {:induction false} EchoesConcat(a: seq<Datagram>, b: seq<Datagram>)
    ensures Echoes(a + b) == Echoes(a) + Echoes(b)
  {
    if a == [] {
      assert a + b == b;
    } else {
      assert (a + b)[1..] == a[1..] + b;
      EchoesConcat(a[1..], b);
    }
  }

  lemma EchoesOne(d: Datagram)
    ensures Echoes([d]) == Echo(d)
  {
    assert [d][1..] == [];
  }

  lemma {:induction false} ReadDataConcat(a: seq<Datagram>, b: seq<Datagram>)
    ensures ReadData(a + b) == ReadData(a) + ReadData(b)
  {
    if a == [] {
      assert a + b == b;
    } else {
      assert (a + b)[1..] == a[1..] + b;
      ReadDataConcat(a[1..], b);
    }
  }

  lemma ReadDataOne(d: Datagram)
    ensures ReadData([d]) == Bytes(d.Data())
  {
    assert [d][1..] == [];
  }

  lemma Interleave(a: multiset<Payload>, b: multiset<Payload>, c: multiset<Payload>, d: multiset<Payload>)
    ensures (a + b) + (c + d) == (a + c) + (b + d)
  {
  }

  lemma {:induction false} ReadDataSplit(ds: seq<Datagram>)
    ensures ReadData(ds) == ForeignData(ds) + OwnData(ds)
  {
    if ds != [] {
      var d := ds[0];
      ReadDataSplit(ds[1..]);
      var foreign := if d.Foreign? then Bytes(d.payload) else multiset{};
      var own := if d.Own? then Bytes(d.task.data) else multiset{};
      assert Bytes(d.Data()) == foreign + own;
      Interleave(foreign, own, ForeignData(ds[1..]), OwnData(ds[1..]));
    }
  }

  lemma {:induction false} OwnDataSize(ds: seq<Datagram>)
    ensures |OwnData(ds)| == |Echoes(ds)|
  {
    if ds != [] {
      OwnDataSize(ds[1..]);
    }
  }

  lemma {:induction false} DataOfSize(ts: seq<Task>)
    ensures |DataOf(ts)| == |ts|
  {
    if ts != [] {
      DataOfSize(ts[..|ts| - 1]);
    }
  }

  lemma DataOfAppend(ts: seq<Task>, t: Task)
    ensures DataOf(ts + [t]) == DataOf(ts) + multiset{t.data}
  {
    assert (ts + [t])[..|ts|] == ts;
  }

  lemma Exchange(rest: multiset<Payload>, a: Payload, b: Payload)
    ensures rest + multiset{a} + multiset{b} == rest + multiset{b} + multiset{a}
  {
  }

  /** Dropping element `k` and then appending is appending and then dropping it. */
  lemma WithoutSnoc(front: seq<Task>, last: Task, k: nat)
    requires k < |front|
    ensures var ts := front + [last];
            ts[..k] + ts[k + 1..] == (front[..k] + front[k + 1..]) + [last]
  {
  }

  lemma {:induction false} DataOfWithout(ts: seq<Task>, k: nat)
    requires k < |ts|
    ensures DataOf(ts) == DataOf(ts[..k] + ts[k + 1..]) + multiset{ts[k].data}
    decreases |ts|
  {
    var n := |ts| - 1;
    var front, last := ts[..n], ts[n];
    assert ts == front + [last];
    DataOfAppend(front, last);
    if k == n {
      assert ts[..k] + ts[k + 1..] == front;
    } else {
      var rest := front[..k] + front[k + 1..];
      DataOfWithout(front, k);
      WithoutSnoc(front, last, k);
      DataOfAppend(rest, last);
      Exchange(DataOf(rest), ts[k].data, last.data);
    }
  }

  lemma Cancel(a: multiset<Task>, b: multiset<Task>, t: Task)
    requires multiset{t} + a == b + multiset{t}
    ensures a == b
  {
    assert a == (multiset{t} + a) - multiset{t};
    assert b == (b + multiset{t}) - multiset{t};
  }

  lemma Without(ts: seq<Task>, k: nat)
    requires k < |ts|
    ensures multiset(ts) == multiset(ts[..k] + ts[k + 1..]) + multiset{ts[k]}
  {
    assert ts == ts[..k] + [ts[k]] + ts[k + 1..];
  }

  /** If the own copies read are exactly the tasks `ts`, their payloads are the payloads of `ts`. */
  lemma {:induction false} OwnDataIsDataOf(ds: seq<Datagram>, ts: seq<Task>)
    requires Echoes(ds) == multiset(ts)
    ensures OwnData(ds) == DataOf(ts)
  {
    if ds == [] {
      assert |multiset(ts)| == |ts|;
    } else if Echo(ds[0]) == multiset{} {
      OwnDataIsDataOf(ds[1..], ts);
    } else {
      var t := ds[0].task;
      assert t in multiset(ts);
      var k :| 0 <= k < |ts| && ts[k] == t;
      Without(ts, k);
      DataOfWithout(ts, k);
      var rest := ts[..k] + ts[k + 1..];
      Cancel(Echoes(ds[1..]), multiset(rest), t);
      OwnDataIsDataOf(ds[1..], rest);
    }
  }

  // ---- the invariant ----

  /** No own copy exists twice; a copy that was read belongs to a released task. */
  ghost predicate EchoesKept(s: Sys) {
    Balanced(Echoes(s.readLog), Echoes(s.rx), s.inflight,
             multiset(SentTasks(s.core.trace)), multiset(Releases(s.core.trace)))
  }

  /** Copies read, in the buffer and in flight, against tasks sent and released. */
  ghost predicate Balanced(read: multiset<Task>, buffered: multiset<Task>, flight: multiset<Task>,
                           sent: multiset<Task>, released: multiset<Task>) {
    read + buffered + flight <= sent && read <= released
  }

  lemma StillBalanced(read: multiset<Task>, buffered: multiset<Task>, flight: multiset<Task>,
                      sent: multiset<Task>, released: multiset<Task>,
                      flight': multiset<Task>, more: multiset<Task>, released': multiset<Task>)
    requires Balanced(read, buffered, flight, sent, released)
    requires flight' <= flight + more && released <= released'
    ensures Balanced(read, buffered, flight', sent + more, released')
  {
    assert read + buffered + flight' <= read + buffered + (flight + more);
    assert read + buffered + (flight + more) == (read + buffered + flight) + more;
  }

  /** The sends and releases a step adds, as multisets. */
  lemma SentGrows(s: Sys, step: Step)
    requires Enabled(s, step)
    ensures multiset(SentTasks(Do(s, step).core.trace))
            == multiset(SentTasks(s.core.trace)) + multiset(if step.HandOver? then [s.pc.task] else [])
    ensures multiset(Releases(s.core.trace)) <= multiset(Releases(Do(s, step).core.trace))
  {
    SentTasksStep(s, step);
    ReleasesStep(s, step);
    GrowsBy(SentTasks(s.core.trace), SentTasks(Do(s, step).core.trace), if step.HandOver? then [s.pc.task] else []);
  }

  lemma GrowsBy(sent: seq<Task>, sent': seq<Task>, more: seq<Task>)
    requires sent' == sent + more
    ensures multiset(sent') == multiset(sent) + multiset(more)
  {
  }

  /** Every non-empty datagram read was either passed on or used up by a release. */
  ghost predicate ReadsAccounted(s: Sys) {
    ReadData(s.readLog) == multiset(PassedOn(s.core.trace)) + DataOf(LoopedTasks(s.core.trace))
  }

  lemma SentOnce(s: Sys, t: Task)
    requires Conserved(s)
    ensures multiset(SentTasks(s.core.trace))[t] <= 1
  {
    var sub := s.core.submitted;
    assert multiset(SentTasks(s.core.trace)) <= multiset(sub);
    NumberedOnce(sub, t);
  }

  lemma {:induction false} NumberedOnce(sub: seq<Task>, t: Task)
    requires Numbered(sub)
    ensures multiset(sub)[t] <= 1
  {
    if sub != [] {
      var n := |sub| - 1;
      assert sub == sub[..n] + [sub[n]];
      NumberedOnce(sub[..n], t);
      if t == sub[n] {
        assert t !in sub[..n];
      }
    }
  }

  lemma ReleasesStep(s: Sys, step: Step)
    requires Enabled(s, step)
    ensures multiset(Releases(s.core.trace)) <= multiset(Releases(Do(s, step).core.trace))
    ensures ReadsEcho(s, step) ==>
              Releases(Do(s, step).core.trace) == Releases(s.core.trace) + [s.core.parked.value]
  {
    ProjectionsStep(s, step);
    NewTasks(s, step);
  }

  lemma AddedOnce(read: multiset<Task>, sent: multiset<Task>, released: multiset<Task>, t: Task)
    requires read + multiset{t} <= sent && sent[t] <= 1
    requires read <= released && t in released
    ensures read + multiset{t} <= released
  {
  }

  lemma MoveHead(read: multiset<Task>, head: multiset<Task>, tail: multiset<Task>, flight: multiset<Task>)
    ensures (read + head) + tail + flight == read + (head + tail) + flight
  {
  }

  /** A released task is not the parked one, unless this very read releases it. */
  lemma ReadOwnIsReleased(s: Sys, t: Task)
    requires Enabled(s, ReadDatagram) && TraceKept(s)
    requires s.rx[0] == Own(t) && t.data != [] && t in SentTasks(s.core.trace)
    ensures t in multiset(Releases(Do(s, ReadDatagram).core.trace))
  {
    StopAndWait(s.core.trace);
    ReleasesStep(s, ReadDatagram);
    if t in Releases(s.core.trace) {
      assert t in multiset(Releases(s.core.trace));
    } else {
      assert s.core.parked == Some(t);
    }
  }

  /** The key step: reading the parked task's own copy always releases it. */
  lemma ReadKeepsEchoes(s: Sys)
    requires Enabled(s, ReadDatagram) && Conserved(s) && TraceKept(s) && EchoesKept(s)
    ensures EchoesKept(Do(s, ReadDatagram))
  {
    var d := s.rx[0];
    var read, sent := Echoes(s.readLog), multiset(SentTasks(s.core.trace));
    SentTasksStep(s, ReadDatagram);
    ReleasesStep(s, ReadDatagram);
    EchoesConcat(s.readLog, [d]);
    EchoesOne(d);
    MoveHead(read, Echo(d), Echoes(s.rx[1..]), s.inflight);
    if Echo(d) != multiset{} {
      var t := d.task;
      assert read + multiset{t} <= sent;
      assert t in sent;
      SentOnce(s, t);
      ReadOwnIsReleased(s, t);
      AddedOnce(read, sent, multiset(Releases(Do(s, ReadDatagram).core.trace)), t);
    } else {
      assert read + Echo(d) == read;
    }
  }

  lemma LoopBackKeepsEchoes(s: Sys, t: Task)
    requires Enabled(s, LoopBack(t)) && EchoesKept(s)
    ensures EchoesKept(Do(s, LoopBack(t)))
  {
    SentGrows(s, LoopBack(t));
    EchoesConcat(s.rx, [Own(t)]);
    EchoesOne(Own(t));
    MovedIn(Echoes(s.readLog), Echoes(s.rx), s.inflight, Echo(Own(t)), t);
  }

  lemma MovedIn(read: multiset<Task>, buffered: multiset<Task>, flight: multiset<Task>, echo: multiset<Task>, t: Task)
    requires t in flight && echo <= multiset{t}
    ensures read + (buffered + echo) + (flight - multiset{t}) <= read + buffered + flight
  {
    assert flight == (flight - multiset{t}) + multiset{t};
  }

  lemma ArriveKeepsEchoes(s: Sys, data: Payload)
    requires EchoesKept(s)
    ensures EchoesKept(Do(s, Arrive(data)))
  {
    SentGrows(s, Arrive(data));
    EchoesConcat(s.rx, [Foreign(data)]);
    EchoesOne(Foreign(data));
    assert Echoes(s.rx) + multiset{} == Echoes(s.rx);
  }

  lemma KernelStays(s: Sys, step: Step)
    requires Enabled(s, step) && !step.ReadDatagram? && !step.LoopBack? && !step.Arrive?
    ensures Do(s, step).rx == s.rx && Do(s, step).readLog == s.readLog
    ensures Do(s, step).inflight <= s.inflight + multiset(if step.HandOver? then [s.pc.task] else [])
  {
  }

  lemma EchoesKeptStep(s: Sys, step: Step)
    requires Enabled(s, step) && Conserved(s) && TraceKept(s) && EchoesKept(s)
    ensures EchoesKept(Do(s, step))
  {
    match step
    case ReadDatagram => ReadKeepsEchoes(s);
    case LoopBack(t) => LoopBackKeepsEchoes(s, t);
    case Arrive(p) => ArriveKeepsEchoes(s, p);
    case _ => OtherStepKeepsEchoes(s, step);
  }

  lemma OtherStepKeepsEchoes(s: Sys, step: Step)
    requires Enabled(s, step) && EchoesKept(s) && !step.ReadDatagram? && !step.LoopBack? && !step.Arrive?
    ensures EchoesKept(Do(s, step))
  {
    var s', more := Do(s, step), multiset(if step.HandOver? then [s.pc.task] else []);
    KernelStays(s, step);
    SentGrows(s, step);
    StillBalanced(Echoes(s.readLog), Echoes(s.rx), s.inflight,
                  multiset(SentTasks(s.core.trace)), multiset(Releases(s.core.trace)),
                  s'.inflight, more, multiset(Releases(s'.core.trace)));
  }

  lemma AccountsStay(s: Sys, step: Step)
    requires Enabled(s, step) && !step.ReadDatagram?
    ensures PassedOn(Do(s, step).core.trace) == PassedOn(s.core.trace)
    ensures LoopedTasks(Do(s, step).core.trace) == LoopedTasks(s.core.trace)
    ensures Do(s, step).readLog == s.readLog
  {
    ProjectionsStep(s, step);
    NothingRead(s, step);
    var tr := s.core.trace;
    assert PassedOn(tr) + [] == PassedOn(tr) && LoopedTasks(tr) + [] == LoopedTasks(tr);
  }

  lemma NothingRead(s: Sys, step: Step)
    requires Enabled(s, step) && !step.ReadDatagram?
    ensures PassedOn(NewEvents(s, step)) == [] && LoopedTasks(NewEvents(s, step)) == []
    ensures Do(s, step).readLog == s.readLog
  {
    var es := NewEvents(s, step);
    if es != [] {
      ProjectOne(es[0]);
      assert es == [es[0]];
      assert !es[0].Passed? && !es[0].Looped?;
    }
  }

  /** What one datagram adds to each side of the account. */
  lemma ReadHistory(s: Sys)
    requires Enabled(s, ReadDatagram)
    ensures var s', data := Do(s, ReadDatagram), s.rx[0].Data();
            var passed, looped := PassedOn(s.core.trace), LoopedTasks(s.core.trace);
            && ReadData(s'.readLog) == ReadData(s.readLog) + Bytes(data)
            && PassedOn(s'.core.trace)
               == passed + (if data != [] && !s.core.IsEcho(data) then [data] else [])
            && LoopedTasks(s'.core.trace)
               == looped + (if data != [] && s.core.IsEcho(data) then [s.core.parked.value] else [])
  {
    ProjectionsStep(s, ReadDatagram);
    ProjectOne(NewEvents(s, ReadDatagram)[0]);
    ReadDataConcat(s.readLog, [s.rx[0]]);
    ReadDataOne(s.rx[0]);
  }

  lemma Regroup(read: multiset<Payload>, passed: seq<Payload>, looped: multiset<Payload>, data: Payload)
    requires read == multiset(passed) + looped
    ensures read + multiset{data} == multiset(passed + [data]) + looped
    ensures read + multiset{data} == multiset(passed) + (looped + multiset{data})
  {
  }

  lemma ReadAccounted(s: Sys)
    requires Enabled(s, ReadDatagram) && ReadsAccounted(s)
    ensures ReadsAccounted(Do(s, ReadDatagram))
  {
    var data := s.rx[0].Data();
    var passed, looped := PassedOn(s.core.trace), LoopedTasks(s.core.trace);
    ReadHistory(s);
    Regroup(ReadData(s.readLog), passed, DataOf(looped), data);
    if data != [] && s.core.IsEcho(data) {
      DataOfAppend(looped, s.core.parked.value);
      assert passed + [] == passed;
    } else {
      assert looped + [] == looped;
      assert data == [] ==> passed + [] == passed;
    }
  }

  lemma ReadsAccountedStep(s: Sys, step: Step)
    requires Enabled(s, step) && ReadsAccounted(s)
    ensures ReadsAccounted(Do(s, step))
  {
    if step.ReadDatagram? {
      ReadAccounted(s);
    } else {
      AccountsStay(s, step);
    }
  }
}
