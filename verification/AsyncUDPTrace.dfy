/**
  What a trace of loop-thread events must look like: stop-and-wait (a send only with nothing
  outstanding, a release only of the outstanding task) and a watchdog that gives up only after
  an empty read since that very send.
 */
module AsyncUDPTrace {
  import opened Wrappers
  import opened AsyncUDPModel

  type Trace = seq<Event>

  function Front(tr: Trace): Trace
    requires tr != []
  {
    tr[..|tr| - 1]
  }

  function Last(tr: Trace): Event
    requires tr != []
  {
    tr[|tr| - 1]
  }

  /** The task sent and not yet released, if any. */
  function Outstanding(tr: Trace): Option<Task> {
    if tr == [] then None
    else match Last(tr)
      case Sent(t) => Some(t)
      case Looped(_) => None
      case TimedOut(_) => None
      case _ => Outstanding(Front(tr))
  }

  /** Whether the receive buffer was found empty since the last send or release. */
  predicate EmptySince(tr: Trace) {
    tr != [] && match Last(tr)
      case EmptyRead => true
      case Passed(_, _) => EmptySince(Front(tr))
      case _ => false
  }

  predicate MayFollow(tr: Trace, e: Event) {
    match e
    case Sent(_) => Outstanding(tr).None?
    case Looped(t) => Outstanding(tr) == Some(t) && t.data != []
    case TimedOut(t) => Outstanding(tr) == Some(t) && EmptySince(tr)
    case _ => true
  }

  predicate Disciplined(tr: Trace) {
    tr != [] ==> Disciplined(Front(tr)) && MayFollow(Front(tr), Last(tr))
  }

  predicate IsRelease(e: Event) {
    e.Looped? || e.TimedOut?
  }

  // ---- projections of a trace ----

  function SentTasks(tr: Trace): seq<Task> {
    if tr == [] then []
    else SentTasks(Front(tr)) + if Last(tr).Sent? then [Last(tr).task] else []
  }

  function Releases(tr: Trace): seq<Task> {
    if tr == [] then []
    else Releases(Front(tr)) + if IsRelease(Last(tr)) then [Last(tr).task] else []
  }

  function LoopedTasks(tr: Trace): seq<Task> {
    if tr == [] then []
    else LoopedTasks(Front(tr)) + if Last(tr).Looped? then [Last(tr).task] else []
  }

  function TimedOutTasks(tr: Trace): seq<Task> {
    if tr == [] then []
    else TimedOutTasks(Front(tr)) + if Last(tr).TimedOut? then [Last(tr).task] else []
  }

  /** The payloads that went past the echo filter, whether or not a handler was set. */
  function PassedOn(tr: Trace): seq<Payload> {
    if tr == [] then []
    else PassedOn(Front(tr)) + if Last(tr).Passed? then [Last(tr).data] else []
  }

  /** The payloads the application handler was called with. */
  function Delivered(tr: Trace): seq<Payload> {
    if tr == [] then []
    else Delivered(Front(tr)) + if Last(tr).Passed? && Last(tr).handled then [Last(tr).data] else []
  }

  lemma Extend(tr: Trace, e: Event)
    ensures Front(tr + [e]) == tr && Last(tr + [e]) == e
  {
  }

  lemma Logged(tr: Trace, e: Event)
    requires Disciplined(tr) && MayFollow(tr, e)
    ensures Disciplined(tr + [e])
    ensures Outstanding(tr + [e]) == if e.Sent? then Some(e.task) else if IsRelease(e) then None else Outstanding(tr)
    ensures EmptySince(tr + [e]) <==> e.EmptyRead? || (e.Passed? && EmptySince(tr))
  {
    Extend(tr, e);
  }

  lemma ProjectOne(e: Event)
    ensures SentTasks([e]) == if e.Sent? then [e.task] else []
    ensures Releases([e]) == if IsRelease(e) then [e.task] else []
    ensures LoopedTasks([e]) == if e.Looped? then [e.task] else []
    ensures TimedOutTasks([e]) == if e.TimedOut? then [e.task] else []
    ensures PassedOn([e]) == if e.Passed? then [e.data] else []
    ensures Delivered([e]) == if e.Passed? && e.handled then [e.data] else []
  {
    assert Front([e]) == [];
  }

  lemma AppendedTasks(tr: Trace, e: Event)
    ensures SentTasks(tr + [e]) == SentTasks(tr) + SentTasks([e])
    ensures Releases(tr + [e]) == Releases(tr) + Releases([e])
    ensures LoopedTasks(tr + [e]) == LoopedTasks(tr) + LoopedTasks([e])
    ensures TimedOutTasks(tr + [e]) == TimedOutTasks(tr) + TimedOutTasks([e])
  {
    Extend(tr, e);
    ProjectOne(e);
  }

  lemma AppendedData(tr: Trace, e: Event)
    ensures PassedOn(tr + [e]) == PassedOn(tr) + PassedOn([e])
    ensures Delivered(tr + [e]) == Delivered(tr) + Delivered([e])
  {
    Extend(tr, e);
    ProjectOne(e);
  }

  /** How at most one more event changes each projection. */
  lemma Appended(tr: Trace, es: seq<Event>)
    requires |es| <= 1
    ensures SentTasks(tr + es) == SentTasks(tr) + SentTasks(es)
    ensures Releases(tr + es) == Releases(tr) + Releases(es)
    ensures LoopedTasks(tr + es) == LoopedTasks(tr) + LoopedTasks(es)
    ensures TimedOutTasks(tr + es) == TimedOutTasks(tr) + TimedOutTasks(es)
    ensures PassedOn(tr + es) == PassedOn(tr) + PassedOn(es)
    ensures Delivered(tr + es) == Delivered(tr) + Delivered(es)
  {
    if es == [] {
      assert tr + es == tr;
    } else {
      assert es == [es[0]];
      AppendedTasks(tr, es[0]);
      AppendedData(tr, es[0]);
    }
  }

  /** Releases come in the order of the sends and are one behind them at most. */
  lemma {:induction false} StopAndWait(tr: Trace)
    requires Disciplined(tr)
    ensures SentTasks(tr) == Releases(tr) + if Outstanding(tr).Some? then [Outstanding(tr).value] else []
  {
    if tr != [] {
      StopAndWait(Front(tr));
    }
  }

  /** Every release is an echo or a give-up, never both. */
  lemma {:induction false} ReleasesSplit(tr: Trace)
    ensures multiset(Releases(tr)) == multiset(LoopedTasks(tr)) + multiset(TimedOutTasks(tr))
  {
    if tr != [] {
      ReleasesSplit(Front(tr));
    }
  }

  lemma {:induction false} LoopedAreNonEmpty(tr: Trace)
    requires Disciplined(tr)
    ensures forall t :: t in LoopedTasks(tr) ==> t.data != []
  {
    if tr != [] {
      LoopedAreNonEmpty(Front(tr));
    }
  }

  lemma {:induction false} DisciplinedAt(tr: Trace, j: nat)
    requires Disciplined(tr) && j < |tr|
    ensures Disciplined(tr[..j]) && MayFollow(tr[..j], tr[j])
  {
    if j < |tr| - 1 {
      assert Front(tr)[..j] == tr[..j];
      DisciplinedAt(Front(tr), j);
    }
  }

  /** What is outstanding was sent, and nothing was sent or released since. */
  lemma {:induction false} OutstandingMeansSent(tr: Trace) returns (h: nat)
    requires Outstanding(tr).Some?
    ensures h < |tr| && tr[h] == Sent(Outstanding(tr).value)
    ensures forall m :: h < m < |tr| ==> tr[m].EmptyRead? || tr[m].Passed?
    ensures EmptySince(tr) ==> exists i :: h < i < |tr| && tr[i].EmptyRead?
  {
    h := |tr| - 1;
    if !Last(tr).Sent? {
      h := OutstandingMeansSent(Front(tr));
      assert forall m :: h < m < |tr| ==> m == |tr| - 1 || tr[m] == Front(tr)[m];
      if EmptySince(tr) && Last(tr).Passed? {
        var i :| h < i < |Front(tr)| && Front(tr)[i].EmptyRead?;
        assert tr[i].EmptyRead?;
      } else if EmptySince(tr) {
        assert tr[|tr| - 1].EmptyRead?;
      }
    }
  }

  /** Between two consecutive sends lies exactly one release, and it releases the first of them. */
  lemma OneReleaseBetweenSends(tr: Trace, i: nat, j: nat) returns (k: nat)
    requires Disciplined(tr) && i < j < |tr| && tr[i].Sent? && tr[j].Sent?
    requires forall m :: i < m < j ==> !tr[m].Sent?
    ensures i < k < j && IsRelease(tr[k]) && tr[k].task == tr[i].task
    ensures forall m :: i < m < j && IsRelease(tr[m]) ==> m == k
  {
    DisciplinedAt(tr, j);
    k := FirstRelease(tr, i, j);
    NoReleaseAfter(tr, k, j);
  }

  lemma {:induction false} FirstRelease(tr: Trace, i: nat, j: nat) returns (k: nat)
    requires Disciplined(tr) && i < j < |tr| && tr[i].Sent? && Outstanding(tr[..j]).None?
    requires forall m :: i < m < j ==> !tr[m].Sent?
    ensures i < k < j && IsRelease(tr[k]) && tr[k].task == tr[i].task
    ensures forall m :: i < m < k ==> !IsRelease(tr[m])
  {
    k := i + 1;
    Extend(tr[..i], tr[i]);
    assert tr[..i] + [tr[i]] == tr[..i + 1];
    while k < j && !IsRelease(tr[k])
      invariant i < k <= j
      invariant Outstanding(tr[..k]) == Some(tr[i].task)
      invariant forall m :: i < m < k ==> !IsRelease(tr[m])
    {
      Extend(tr[..k], tr[k]);
      assert tr[..k] + [tr[k]] == tr[..k + 1];
      k := k + 1;
    }
    DisciplinedAt(tr, k);
  }

  lemma NoReleaseAfter(tr: Trace, k: nat, j: nat)
    requires Disciplined(tr) && k < j < |tr| && IsRelease(tr[k])
    requires forall m :: k < m < j ==> !tr[m].Sent?
    ensures forall m :: k < m < j ==> !IsRelease(tr[m])
  {
    var n := k + 1;
    Extend(tr[..k], tr[k]);
    assert tr[..k] + [tr[k]] == tr[..k + 1];
    while n < j
      invariant k < n <= j
      invariant Outstanding(tr[..n]).None?
      invariant forall m :: k < m < n ==> !IsRelease(tr[m])
    {
      DisciplinedAt(tr, n);
      Extend(tr[..n], tr[n]);
      assert tr[..n] + [tr[n]] == tr[..n + 1];
      n := n + 1;
    }
  }

  /** A give-up is preceded by the send of that task and, after it, by an empty read. */
  lemma GiveUpSawEmptyRead(tr: Trace, j: nat) returns (h: nat, i: nat)
    requires Disciplined(tr) && j < |tr| && tr[j].TimedOut?
    ensures h < i < j && tr[h] == Sent(tr[j].task) && tr[i].EmptyRead?
    ensures forall m :: h < m < j ==> !tr[m].Sent? && !IsRelease(tr[m])
  {
    DisciplinedAt(tr, j);
    h := OutstandingMeansSent(tr[..j]);
    assert forall m :: h < m < j ==> tr[m] == tr[..j][m];
    i :| h < i < |tr[..j]| && tr[..j][i].EmptyRead?;
  }
}
