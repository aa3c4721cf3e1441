/**
  Edge accounting: how often the interrupt callback runs over a run of polls and reads of an
  input pin, compared with the sequence of levels the pin went through.
 */
module GpioEdges {
  import opened Wrappers
  import opened GpioPin

  /** A poll or a read whose callback, if it runs, does nothing to this pin but poll and read it. */
  predicate Observes(op: Op)
    decreases op
  {
    match op
    case Read(_, callback) => forall o :: o in callback ==> Observes(o)
    case Poll(_, callback) => forall o :: o in callback ==> Observes(o)
    case _ => false
  }

  /**
    The levels the hardware shows to one operation, in order: a failed read shows none, and
    what a callback samples comes right after the sample that made it run.
   */
  function SeenBy(p: Pin, op: Op): seq<PinStatus>
    decreases op, 1
  {
    match op
    case Read(res, callback) => SeenOn(p, res, callback)
    case Poll(res, callback) => SeenOn(p, res, callback)
    case _ => []
  }

  function SeenOn(p: Pin, res: int, callback: seq<Op>): seq<PinStatus>
    decreases callback, 1
  {
    if p.ReadFails(res) then []
    else [LevelOf(res)] + if p.Fires(res) then Seen(p.Sample(res), callback) else []
  }

  function Seen(p: Pin, ops: seq<Op>): seq<PinStatus>
    decreases ops, 0
  {
    if ops == [] then [] else SeenBy(p, ops[0]) + Seen(Run(p, ops[0]), ops[1..])
  }

  /** The adjacent pairs of `levels`, in order, that trigger `when`. */
  function Edges(when: PinStatus, levels: seq<PinStatus>): seq<Edge> {
    if |levels| < 2 then []
    else (if Triggered(when, levels[0], levels[1]) then [Edge(levels[0], levels[1])] else [])
         + Edges(when, levels[1..])
  }

  ghost predicate AllLevels(levels: seq<PinStatus>) {
    forall i :: 0 <= i < |levels| ==> IsLevel(levels[i])
  }

  /** An input with a callback attached for `when`. */
  predicate Watching(p: Pin, when: PinStatus) {
    !p.dead && p.isr && p.trigger == Some(when) && !p.mode.OUTPUT? && IsLevel(p.status)
  }

  lemma EdgesCons(when: PinStatus, a: PinStatus, b: PinStatus, rest: seq<PinStatus>)
    ensures Edges(when, [a] + ([b] + rest)) == Edges(when, [a, b]) + Edges(when, [b] + rest)
  {
    var all, first := [a] + ([b] + rest), if Triggered(when, a, b) then [Edge(a, b)] else [];
    assert all[0] == a && all[1] == b && all[1..] == [b] + rest;
    assert [a, b][1..] == [b] && Edges(when, [b]) == [];
    assert Edges(when, [a, b]) == first + [] == first;
    assert Edges(when, all) == first + Edges(when, [b] + rest);
  }

  function Last(levels: seq<PinStatus>): PinStatus
    requires levels != []
  {
    levels[|levels| - 1]
  }

  /** From `p` to `p'` the callback ran for every edge of what was seen, and only for those. */
  ghost predicate Accounted(p: Pin, p': Pin, when: PinStatus, seen: seq<PinStatus>) {
    && Watching(p', when)
    && p'.calls == p.calls + Edges(when, [p.status] + seen)
    && p'.status == Last([p.status] + seen)
    && AllLevels([p.status] + seen)
  }

  lemma JoinCalls(a: seq<Edge>, b: seq<Edge>, c: seq<Edge>)
    ensures a + b + c == a + (b + c)
  {
  }

  /** Edges of a joined sequence: those of each part, the second starting where the first ends. */
  lemma {:induction false} EdgesJoin(when: PinStatus, a: PinStatus, xs: seq<PinStatus>, ys: seq<PinStatus>)
    ensures Edges(when, [a] + (xs + ys)) == Edges(when, [a] + xs) + Edges(when, [Last([a] + xs)] + ys)
    decreases |xs|
  {
    if xs == [] {
      assert xs + ys == ys && [a] + xs == [a];
    } else {
      var x, rest := xs[0], xs[1..];
      assert xs == [x] + rest && xs + ys == [x] + (rest + ys);
      EdgesJoin(when, x, rest, ys);
      EdgesCons(when, a, x, rest + ys);
      EdgesCons(when, a, x, rest);
      assert Last([a] + xs) == Last([x] + rest);
      JoinCalls(Edges(when, [a, x]), Edges(when, [x] + rest), Edges(when, [Last([x] + rest)] + ys));
    }
  }

  lemma Levels(a: PinStatus, xs: seq<PinStatus>, ys: seq<PinStatus>)
    requires AllLevels([a] + xs) && AllLevels([Last([a] + xs)] + ys)
    ensures AllLevels([a] + (xs + ys)) && Last([a] + (xs + ys)) == Last([Last([a] + xs)] + ys)
  {
    var all, second := [a] + (xs + ys), [Last([a] + xs)] + ys;
    forall i | 0 <= i < |all|
      ensures IsLevel(all[i])
    {
      if i <= |xs| {
        assert all[i] == ([a] + xs)[i];
      } else {
        assert all[i] == second[i - |xs|];
      }
    }
  }

  lemma AccountedJoin(p: Pin, p1: Pin, p2: Pin, when: PinStatus, xs: seq<PinStatus>, ys: seq<PinStatus>)
    requires Accounted(p, p1, when, xs) && Accounted(p1, p2, when, ys)
    ensures Accounted(p, p2, when, xs + ys)
  {
    EdgesJoin(when, p.status, xs, ys);
    Levels(p.status, xs, ys);
    JoinCalls(p.calls, Edges(when, [p.status] + xs), Edges(when, [p1.status] + ys));
  }

  lemma AccountedNothing(p: Pin, when: PinStatus)
    requires Watching(p, when)
    ensures Accounted(p, p, when, [])
  {
    assert [p.status] + [] == [p.status];
  }

  lemma OneSample(p: Pin, when: PinStatus, res: int)
    requires Watching(p, when)
    ensures if p.ReadFails(res) then p.Sample(res) == p
            else Accounted(p, p.Sample(res), when, [LevelOf(res)])
  {
    var two := [p.status, LevelOf(res)];
    assert [p.status] + [LevelOf(res)] == two && two[1..] == [LevelOf(res)];
    assert Edges(when, two[1..]) == [];
  }

  lemma {:induction false} RefreshAccounts(p: Pin, when: PinStatus, res: int, callback: seq<Op>)
    requires Watching(p, when) && forall o :: o in callback ==> Observes(o)
    ensures Accounted(p, Refresh(p, res, callback), when, SeenOn(p, res, callback))
    decreases callback, 1
  {
    OneSample(p, when, res);
    if p.ReadFails(res) {
      AccountedNothing(p, when);
    } else if p.Fires(res) {
      CallsAreEdges(p.Sample(res), when, callback);
      AccountedJoin(p, p.Sample(res), Refresh(p, res, callback), when,
                    [LevelOf(res)], Seen(p.Sample(res), callback));
    } else {
      assert [LevelOf(res)] + [] == [LevelOf(res)];
    }
  }

  lemma {:induction false} ObservingAccounts(p: Pin, when: PinStatus, op: Op)
    requires Watching(p, when) && Observes(op)
    ensures Accounted(p, Run(p, op), when, SeenBy(p, op))
    decreases op, 2
  {
    match op
    case Read(res, callback) => RefreshAccounts(p, when, res, callback);
    case Poll(res, callback) => RefreshAccounts(p, when, res, callback);
  }

  /**
    Over every run of polls and reads, of which callbacks may make more, the callback runs once
    per triggering adjacent pair of (cached level, samples...), and the last sample is cached.
   */
  lemma {:induction false} CallsAreEdges(p: Pin, when: PinStatus, ops: seq<Op>)
    requires Watching(p, when) && forall op :: op in ops ==> Observes(op)
    ensures Accounted(p, RunAll(p, ops), when, Seen(p, ops))
    decreases ops, 0
  {
    if ops == [] {
      AccountedNothing(p, when);
    } else {
      assert ops[0] in ops;
      ObservingAccounts(p, when, ops[0]);
      CallsAreEdges(Run(p, ops[0]), when, ops[1..]);
      AccountedJoin(p, Run(p, ops[0]), RunAll(p, ops), when, SeenBy(p, ops[0]), Seen(Run(p, ops[0]), ops[1..]));
    }
  }

  /** Attaching a callback to an input, whatever was attached before, makes it watch for that trigger. */
  lemma AttachWatches(p: Pin, when: PinStatus, ops: seq<Op>)
    requires !p.dead && !p.mode.OUTPUT? && IsLevel(p.status)
    requires forall op :: op in ops ==> Observes(op)
    ensures var p0 := Run(p, Attach(false, when));
            Watching(p0, when) && Accounted(p0, RunAll(p0, ops), when, Seen(p0, ops)) && p0.calls == p.calls
  {
    CallsAreEdges(Run(p, Attach(false, when)), when, ops);
  }

  // ---- the same, from what the hardware returned ----

  /** Polls and reads whose callback leaves this pin alone. */
  predicate Plain(op: Op) {
    (op.Read? || op.Poll?) && op.callback == []
  }

  /** The values among the results: a failed read gives none. */
  function Values(results: seq<int>): seq<int> {
    if results == [] then []
    else (if results[0] == 0 || results[0] == 1 then [results[0]] else []) + Values(results[1..])
  }

  function Results(ops: seq<Op>): seq<int>
    requires forall op :: op in ops ==> Plain(op)
  {
    if ops == [] then [] else assert Plain(ops[0]); [ops[0].res] + Results(ops[1..])
  }

  /** The level is HIGH exactly where the value is 1, and LOW where it is 0. */
  ghost predicate Shows(levels: seq<PinStatus>, values: seq<int>) {
    && |levels| == |values|
    && forall i :: 0 <= i < |levels| ==>
         (levels[i] == HIGH <==> values[i] == 1) && (levels[i] == LOW <==> values[i] == 0)
  }

  lemma {:induction false} SeenShowsValues(p: Pin, when: PinStatus, ops: seq<Op>)
    requires Watching(p, when) && forall op :: op in ops ==> Plain(op)
    ensures Shows(Seen(p, ops), Values(Results(ops)))
    decreases |ops|
  {
    if ops != [] {
      assert Plain(ops[0]) && Observes(ops[0]);
      ObservingAccounts(p, when, ops[0]);
      SeenShowsValues(Run(p, ops[0]), when, ops[1..]);
      var first, rest := SeenBy(p, ops[0]), Values(Results(ops[1..]));
      assert Results(ops) == [ops[0].res] + Results(ops[1..]);
      assert Results(ops)[1..] == Results(ops[1..]);
      OneValue(p, ops[0]);
      var here := if ops[0].res == 0 || ops[0].res == 1 then [ops[0].res] else [];
      assert Values(Results(ops)) == here + rest;
      ShowsJoin(first, here, Seen(Run(p, ops[0]), ops[1..]), rest);
    }
  }

  lemma OneValue(p: Pin, op: Op)
    requires Plain(op) && !p.mode.OUTPUT?
    ensures Shows(SeenBy(p, op), if op.res == 0 || op.res == 1 then [op.res] else [])
  {
    var res := op.res;
    assert SeenBy(p, op) == SeenOn(p, res, []);
    assert Seen(p.Sample(res), []) == [];
    assert [LevelOf(res)] + [] == [LevelOf(res)];
    assert SeenOn(p, res, []) == if p.ReadFails(res) then [] else [LevelOf(res)];
  }

  lemma ShowsJoin(a: seq<PinStatus>, x: seq<int>, b: seq<PinStatus>, y: seq<int>)
    requires Shows(a, x) && Shows(b, y)
    ensures Shows(a + b, x + y)
  {
  }

  /** How many adjacent pairs of values rise (`up`) or fall (`down`). */
  function Turns(values: seq<int>, up: bool, down: bool): nat {
    if |values| < 2 then 0
    else (if (up && values[0] < values[1]) || (down && values[0] > values[1]) then 1 else 0)
         + Turns(values[1..], up, down)
  }

  lemma {:induction false} EdgesAreTurns(when: PinStatus, levels: seq<PinStatus>, values: seq<int>)
    requires Shows(levels, values) && AllLevels(levels) && (when.CHANGE? || when.RISING? || when.FALLING?)
    ensures |Edges(when, levels)| == Turns(values, when != FALLING, when != RISING)
    decreases |levels|
  {
    if |levels| >= 2 {
      assert IsLevel(levels[0]) && IsLevel(levels[1]);
      EdgesAreTurns(when, levels[1..], values[1..]);
    }
  }

  /**
    From attaching on, over every run of polls and reads, the callback ran once per rise, per
    fall or per change of the values the line returned, counted from the cached level on; and
    the cached level is the last value.
   */
  lemma CallsCountTurns(p: Pin, when: PinStatus, ops: seq<Op>)
    requires !p.dead && !p.mode.OUTPUT? && IsLevel(p.status)
    requires when == CHANGE || when == RISING || when == FALLING
    requires forall op :: op in ops ==> Plain(op)
    ensures var p' := RunAll(Run(p, Attach(false, when)), ops);
            var values := [if p.status == HIGH then 1 else 0] + Values(Results(ops));
            && |p'.calls| - |p.calls| == Turns(values, when != FALLING, when != RISING)
            && p'.status == if values[|values| - 1] == 1 then HIGH else LOW
  {
    var p0 := Run(p, Attach(false, when));
    var first := if p.status == HIGH then 1 else 0;
    forall op | op in ops
      ensures Observes(op)
    {
      assert Plain(op);
    }
    AttachWatches(p, when, ops);
    SeenShowsValues(p0, when, ops);
    assert Shows([p.status], [first]);
    ShowsJoin([p.status], [first], Seen(p0, ops), Values(Results(ops)));
    EdgesAreTurns(when, [p.status] + Seen(p0, ops), [first] + Values(Results(ops)));
  }

  predicate Differs(levels: seq<PinStatus>, i: nat)
    requires i + 1 < |levels|
  {
    levels[i] != levels[i + 1]
  }

  /** The positions where a level is followed by a different one. */
  ghost function Changes(levels: seq<PinStatus>): set<nat> {
    set i: nat | 0 <= i < |levels| - 1 && Differs(levels, i)
  }

  lemma {:induction false} EdgesSnoc(when: PinStatus, levels: seq<PinStatus>, next: PinStatus)
    requires levels != []
    ensures var last := levels[|levels| - 1];
            Edges(when, levels + [next])
            == Edges(when, levels) + if Triggered(when, last, next) then [Edge(last, next)] else []
  {
    if |levels| > 1 {
      var all, first := levels + [next], Edges(when, levels[..2]);
      assert all[1..] == levels[1..] + [next];
      assert levels[..2] == [levels[0], levels[1]];
      EdgesCons(when, levels[0], levels[1], levels[2..]);
      EdgesCons(when, levels[0], levels[1], levels[2..] + [next]);
      assert levels == [levels[0]] + ([levels[1]] + levels[2..]);
      assert all == [levels[0]] + ([levels[1]] + (levels[2..] + [next]));
      EdgesSnoc(when, levels[1..], next);
    } else {
      assert (levels + [next])[1..] == [next];
    }
  }

  lemma ChangesSnoc(front: seq<PinStatus>, next: PinStatus)
    requires front != []
    ensures |Changes(front + [next])| == |Changes(front)| + if front[|front| - 1] != next then 1 else 0
  {
    var levels, i := front + [next], |front| - 1;
    assert forall k :: 0 <= k < i ==> Differs(levels, k) == Differs(front, k);
    assert Differs(levels, i) == (front[i] != next);
    assert i !in Changes(front);
    if front[i] != next {
      assert Changes(levels) == Changes(front) + {i};
    } else {
      assert Changes(levels) == Changes(front);
    }
  }

  /** For CHANGE the count is the number of adjacent differing pairs. */
  lemma {:induction false} ChangeCount(levels: seq<PinStatus>)
    requires AllLevels(levels)
    ensures |Edges(CHANGE, levels)| == |Changes(levels)|
  {
    var n := |levels| - 1;
    if n < 1 {
      assert Changes(levels) == {};
    } else {
      var front := levels[..n];
      ChangeCount(front);
      EdgesSnoc(CHANGE, front, levels[n]);
      ChangesSnoc(front, levels[n]);
      assert levels == front + [levels[n]];
      assert IsLevel(front[n - 1]) && IsLevel(levels[n]);
    }
  }

  function One(s: PinStatus): int {
    if s.HIGH? then 1 else 0
  }

  /**
    Rises and falls together are the changes; the last level is the first plus rises minus
    falls, so the two counts never differ by more than one.
   */
  lemma {:induction false} RisesAndFalls(levels: seq<PinStatus>)
    requires levels != [] && AllLevels(levels)
    ensures |Edges(RISING, levels)| + |Edges(FALLING, levels)| == |Edges(CHANGE, levels)|
    ensures One(levels[|levels| - 1]) == One(levels[0]) + |Edges(RISING, levels)| - |Edges(FALLING, levels)|
  {
    if |levels| > 1 {
      RisesAndFalls(levels[1..]);
    }
  }

  /** Consecutive changes meet: each starts at the level the one before it ended at. */
  lemma {:induction false} EdgesAlternate(levels: seq<PinStatus>)
    requires levels != [] && AllLevels(levels)
    ensures var es := Edges(CHANGE, levels);
            && (es != [] ==> es[0].before == levels[0])
            && forall i :: 0 <= i < |es| ==>
                 IsLevel(es[i].before) && IsLevel(es[i].after) && es[i].before != es[i].after
                 && (i + 1 < |es| ==> es[i].after == es[i + 1].before)
  {
    if |levels| > 1 {
      EdgesAlternate(levels[1..]);
    }
  }

  /** The level triggers are not edges: they fire on every sample at their level. */
  lemma {:induction false} LevelTriggersCountSamples(when: PinStatus, levels: seq<PinStatus>)
    requires IsLevel(when) && levels != [] && AllLevels(levels)
    ensures |Edges(when, levels)| == multiset(levels[1..])[when]
  {
    if |levels| > 1 {
      LevelTriggersCountSamples(when, levels[1..]);
      assert levels[1..] == [levels[1]] + levels[2..];
      assert levels[1..][1..] == levels[2..];
    }
  }

  lemma CountsAgree(seen: seq<PinStatus>)
    requires seen != [] && AllLevels(seen)
    ensures var rises, falls := |Edges(RISING, seen)|, |Edges(FALLING, seen)|;
            && rises + falls == |Edges(CHANGE, seen)| == |Changes(seen)|
            && -1 <= rises - falls <= 1
            && One(seen[|seen| - 1]) == One(seen[0]) + rises - falls
  {
    ChangeCount(seen);
    RisesAndFalls(seen);
  }

  /**
    Three pins that see the same levels, watching for CHANGE, RISING and FALLING, agree with one
    another, whatever each callback does to see them.
   */
  lemma ThreeWatchers(levels: seq<PinStatus>, level: PinStatus, c: Pin, cs: seq<Op>, r: Pin, rs: seq<Op>,
                      f: Pin, fs: seq<Op>)
    requires Watching(c, CHANGE) && Watching(r, RISING) && Watching(f, FALLING)
    requires c.status == level && r.status == level && f.status == level
    requires forall op :: op in cs || op in rs || op in fs ==> Observes(op)
    requires Seen(c, cs) == levels && Seen(r, rs) == levels && Seen(f, fs) == levels
    ensures var changes := |RunAll(c, cs).calls| - |c.calls|;
            var rises := |RunAll(r, rs).calls| - |r.calls|;
            var falls := |RunAll(f, fs).calls| - |f.calls|;
            && rises + falls == changes == |Changes([level] + levels)|
            && -1 <= rises - falls <= 1
            && One(RunAll(c, cs).status) == One(level) + rises - falls
  {
    CallsAreEdges(c, CHANGE, cs);
    CallsAreEdges(r, RISING, rs);
    CallsAreEdges(f, FALLING, fs);
    CountsAgree([level] + levels);
  }
}
