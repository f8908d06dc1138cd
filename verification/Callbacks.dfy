/** What callbacks do to the animation manager: every operation that was performed was
    asked for, and every operation that was asked for was performed. */
module Callbacks {
  import opened Animation
  import opened Options
  import opened Seqs

  const NO_WORLD := World([], [], [], [], [])
  const NO_OPS: seq<Op> := []

  // ----- What one operation does ------------------------------------------------------------------

  /** Finishing outside of a dispatch, where the animations it names have no callbacks:
      those are completed in the order of the list, and the others stay as they are. */
  lemma FinishTakesExactly(choice: Choice, w: World, a: Anim)
    requires Finishing(w.live) == [] && forall b :: b in w.live ==> b.subject.done == []
    ensures var t := Outside(ToFinish(choice), w);
      && t.completed == w.completed + Ids(Chosen(choice, w.live))
      && (choice.All? ==> t.live == [])
      && (choice.OfData? ==>
        (a in t.live <==> a in w.live && (choice.data == None || a.subject.data != choice.data)))
      && (choice.OfOwner? ==>
        (a in t.live <==> a in w.live && (choice.owner == None || a.subject.owner != choice.owner)))
  {
    var v := Logged(ToFinish(choice), w).(live := Marked(choice, w.live));
    MarkedSplits(choice, w.live);
    QuietChosen(choice, w.live);
    QuietDrained(v);
    OthersExactly(choice, w.live, a);
    if choice.All? {
      NoOthers(w.live);
    }
  }

  lemma {:induction false} QuietChosen(choice: Choice, s: seq<Anim>)
    requires forall b :: b in s ==> b.subject.done == []
    ensures Quiet(Chosen(choice, s))
  {
    if s != [] {
      QuietChosen(choice, s[1..]);
      HeadAndTail(s[0], Chosen(choice, s[1..]));
    }
  }

  lemma {:induction false} NoOthers(s: seq<Anim>)
    ensures Others(All, s) == []
  {
    if s != [] {
      NoOthers(s[1..]);
    }
  }

  /** What a done callback leaves behind is the effect of its last operation: the
      animation it runs is at the head of the list, nothing with the data it cancels is
      on it, and what it finishes is marked. */
  lemma LastOperationHolds(a: Anim, ops: seq<Op>, op: Op, w: World)
    requires a.subject.done == ops + [op]
    ensures var t := Released(a, w);
      match op
      case ToRun(s) => !s.instant ==>
        t.live != [] && t.live[0].subject == s && !t.live[0].finishing && t.live[0].id + 1 == |t.started|
      case ToCancel(data) => data.Some? ==> forall b :: b in t.live ==> b.subject.data != data
      case ToFinish(choice) => forall b :: b in t.live && Meant(choice, b) ==> b.finishing
  {
    var called := w.(completed := w.completed + [a.id]);
    InsideConcat(ops, op, called);
    var before := InsideAll(ops, called);
    match op {
      case ToRun(s) =>
      case ToCancel(data) =>
        forall b | b in Others(OfData(data), before.live)
          ensures !Meant(OfData(data), b)
        {
          OthersExactly(OfData(data), before.live, b);
        }
      case ToFinish(choice) =>
        var marked := Marked(choice, before.live);
        forall b | b in marked && Meant(choice, b)
          ensures b.finishing
        {
          var k :| 0 <= k < |marked| && marked[k] == b;
        }
    }
  }

  lemma {:induction false} InsideConcat(ops: seq<Op>, op: Op, w: World)
    ensures InsideAll(ops + [op], w) == Inside(op, InsideAll(ops, w))
    decreases |ops|
  {
    if ops == [] {
      assert [] + [op] == [op] && [op][1..] == [];
    } else {
      assert (ops + [op])[1..] == ops[1..] + [op];
      InsideConcat(ops[1..], op, Inside(ops[0], w));
    }
  }

  /** A done callback that runs another animation: when the drain is over the other one
      is at the head of the list, before everything that is left. */
  lemma DoneCallbackRuns(a: Anim, s: Subject, w: World)
    requires Finishing(w.live) == [a] && a.subject.done == [ToRun(s)] && !s.instant
    ensures var t := Drained(w);
      && t.live == [Anim(|w.started|, s, false)] + Running(w.live)
      && t.completed == w.completed + [a.id] && t.cancelled == w.cancelled
      && t.started == w.started + [s] && t.log == w.log + [ToRun(s)]
  {
    var rest := w.(live := Running(w.live));
    var next, called := ReleasedAll([a], rest), rest.(completed := w.completed + [a.id]);
    InsideConcat([], ToRun(s), called);
    assert [a][1..] == [] && [] + [ToRun(s)] == [ToRun(s)];
    assert Released(a, rest) == Born(s, Logged(ToRun(s), called));
    assert ReleasedAll([a][1..], Released(a, rest)) == Released(a, rest);
    assert next == ReleasedAll([a][1..], Released([a][0], rest));
    RunningSettled(w.live);
    HeadAndTail(Anim(|w.started|, s, false), Running(w.live));
    assert Finishing(next.live) == [];
    DrainedStep(w);
    DrainedStep(next);
  }

  // ----- Which animations there are ------------------------------------------------------------------

  /** The subjects of the animations that operations run, in order. */
  function Runs(log: seq<Op>): seq<Subject> {
    if log == [] then []
    else
      var last := log[|log| - 1];
      Runs(log[..|log| - 1]) + if last.ToRun? then [last.subject] else []
  }

  /** An animation was started for every run that was performed, and for nothing else. */
  predicate StartedByRuns(w: World) { w.started == Runs(w.log) }

  lemma RunsNext(log: seq<Op>, op: Op)
    ensures Runs(log + [op]) == Runs(log) + if op.ToRun? then [op.subject] else []
  {
    assert (log + [op])[..|log|] == log;
  }

  lemma {:induction false} InsideStarts(op: Op, w: World)
    requires StartedByRuns(w)
    ensures StartedByRuns(Inside(op, w))
    decreases op, 0
  {
    RunsNext(w.log, op);
    if op.ToRun? && op.subject.instant {
      InsideAllStarts(op.subject.done, Born(op.subject, Logged(op, w)));
    }
  }

  lemma {:induction false} InsideAllStarts(ops: seq<Op>, w: World)
    requires StartedByRuns(w)
    ensures StartedByRuns(InsideAll(ops, w))
    decreases ops, 1
  {
    if ops != [] {
      InsideStarts(ops[0], w);
      InsideAllStarts(ops[1..], Inside(ops[0], w));
    }
  }

  lemma {:induction false} ReleasedAllStarts(taken: seq<Anim>, w: World)
    requires StartedByRuns(w)
    ensures StartedByRuns(ReleasedAll(taken, w))
    decreases |taken|
  {
    if taken != [] {
      InsideAllStarts(taken[0].subject.done, w.(completed := w.completed + [taken[0].id]));
      ReleasedAllStarts(taken[1..], Released(taken[0], w));
    }
  }

  lemma {:induction false} DrainedStarts(w: World)
    requires StartedByRuns(w)
    ensures StartedByRuns(Drained(w))
    decreases Load(w.live)
  {
    if Finishing(w.live) != [] {
      var taken, rest := Finishing(w.live), w.(live := Running(w.live));
      LoadFinishing(w.live);
      LoadReleasedAll(taken, rest);
      ReleasedAllStarts(taken, rest);
      DrainedStarts(ReleasedAll(taken, rest));
    }
  }

  lemma {:induction false} OutsideStarts(op: Op, w: World)
    requires StartedByRuns(w)
    ensures StartedByRuns(Outside(op, w))
    decreases op, 0
  {
    RunsNext(w.log, op);
    match op {
      case ToFinish(choice) => DrainedStarts(Logged(op, w).(live := Marked(choice, w.live)));
      case ToCancel(data) =>
      case ToRun(s) =>
        if s.instant {
          OutsideAllStarts(s.done, Born(s, Logged(op, w)));
        }
    }
  }

  lemma {:induction false} OutsideAllStarts(ops: seq<Op>, w: World)
    requires StartedByRuns(w)
    ensures StartedByRuns(OutsideAll(ops, w))
    decreases ops, 1
  {
    if ops != [] {
      OutsideStarts(ops[0], w);
      OutsideAllStarts(ops[1..], Outside(ops[0], w));
    }
  }

  lemma {:induction false} WalkedStarts(cursor: Option<nat>, w: World, ended: set<nat>, applies: map<nat, seq<Op>>)
    requires StartedByRuns(w)
    ensures StartedByRuns(WalkedFrom(cursor, w, ended, applies).0)
    decreases if cursor.Some? then cursor.value + 1 else 0
  {
    if cursor.Some? && Holds(w.live, cursor.value) {
      var index := IndexOf(w.live, cursor.value);
      var next, v := NextOf(w.live, index), VisitedAt(w, index, ended, applies);
      InsideAllStarts(OpsOf(applies, w.live[index].id), w);
      if !(next.Some? && (next.value >= cursor.value || !Holds(v.live, next.value))) {
        WalkedStarts(next, v, ended, applies);
      }
    }
  }

  lemma {:induction false} PlayedStarts(events: seq<Event>, w: World)
    requires StartedByRuns(w)
    ensures StartedByRuns(Played(events, w).0)
    decreases |events|
  {
    if events != [] {
      match events[0] {
        case Call(op) =>
          OutsideStarts(op, w);
          PlayedStarts(events[1..], Outside(op, w));
        case Frame(ended, applies) =>
          WalkedStarts(CursorAt(w.live, 0), w, ended, applies);
          var (v, survived) := WalkedFrom(CursorAt(w.live, 0), w, ended, applies);
          if survived {
            DrainedStarts(v);
            PlayedStarts(events[1..], Drained(v));
          }
      }
    }
  }

  // ----- Which operations were performed ----------------------------------------------------------------

  /** The animations on the list have the subjects they were started with, and what is
      completed was started. */
  ghost predicate Consistent(w: World) {
    && (forall a :: a in w.live ==> Genuine(a, w.started))
    && forall id :: id in w.completed ==> id < |w.started|
  }

  predicate Genuine(a: Anim, started: seq<Subject>) {
    a.id < |started| && a.subject == started[a.id]
  }

  /** All the operations of the done callbacks of those animations. */
  function Due(ids: seq<nat>, started: seq<Subject>): multiset<Op> {
    if ids == [] then multiset{}
    else (if ids[0] < |started| then multiset(started[ids[0]].done) else multiset{}) + Due(ids[1..], started)
  }

  lemma {:induction false} DueConcat(a: seq<nat>, b: seq<nat>, started: seq<Subject>)
    ensures Due(a + b, started) == Due(a, started) + Due(b, started)
    decreases |a|
  {
    if a == [] {
      assert a + b == b;
    } else {
      assert (a + b)[1..] == a[1..] + b;
      DueConcat(a[1..], b, started);
    }
  }

  lemma {:induction false} DueStable(ids: seq<nat>, started: seq<Subject>, more: seq<Subject>)
    requires started <= more && forall k :: 0 <= k < |ids| ==> ids[k] < |started|
    ensures Due(ids, more) == Due(ids, started)
    decreases |ids|
  {
    if ids != [] {
      DueStable(ids[1..], started, more);
    }
  }

  /** From w to t exactly these operations were performed: those asked for, and the whole
      done callback of every animation that was completed meanwhile, once. */
  ghost predicate Performs(w: World, t: World, asked: seq<Op>) {
    && Kept(w, t) && Consistent(t)
    && multiset(t.log) == multiset(w.log) + multiset(asked) + Due(t.completed[|w.completed|..], t.started)
  }

  lemma PerformsNothing(w: World, t: World)
    requires Consistent(t) && t.log == w.log && t.completed == w.completed && w.cancelled <= t.cancelled
    requires w.started <= t.started
    ensures Performs(w, t, [])
  {
    assert t.completed[|w.completed|..] == [];
  }

  lemma DueThen(w: World, t: World, u: World)
    requires Kept(w, t) && Kept(t, u) && Consistent(t)
    ensures Due(u.completed[|w.completed|..], u.started)
      == Due(t.completed[|w.completed|..], t.started) + Due(u.completed[|t.completed|..], u.started)
  {
    var first, second := t.completed[|w.completed|..], u.completed[|t.completed|..];
    assert u.completed[|w.completed|..] == first + second;
    forall k | 0 <= k < |first|
      ensures first[k] < |t.started|
    {
      assert first[k] in t.completed;
    }
    DueConcat(first, second, u.started);
    DueStable(first, t.started, u.started);
  }

  lemma PerformsThen(w: World, t: World, u: World, a: seq<Op>, b: seq<Op>)
    requires Performs(w, t, a) && Performs(t, u, b)
    ensures Performs(w, u, a + b)
  {
    DueThen(w, t, u);
    assert multiset(a + b) == multiset(a) + multiset(b);
  }

  lemma PerformsAll(w: World, t: World, u: World, ops: seq<Op>)
    requires ops != [] && Performs(w, t, [ops[0]]) && Performs(t, u, ops[1..])
    ensures Performs(w, u, ops)
  {
    PerformsThen(w, t, u, [ops[0]], ops[1..]);
    assert [ops[0]] + ops[1..] == ops;
  }

  /** An animation is completed and its callback is run. */
  lemma PerformsCallback(w: World, done: World, t: World, id: nat)
    requires Consistent(w) && done.completed == w.completed + [id] && id < |done.started|
    requires w.log <= done.log && w.cancelled <= done.cancelled && w.started <= done.started
    requires Performs(done, t, done.started[id].done)
    ensures Performs(w, t, done.log[|w.log|..])
  {
    var rest := t.completed[|done.completed|..];
    assert t.completed[|w.completed|..] == [id] + rest;
    assert ([id] + rest)[1..] == rest;
    assert done.log == w.log + done.log[|w.log|..];
    assert multiset(done.log) == multiset(w.log) + multiset(done.log[|w.log|..]);
  }

  lemma {:induction false} InsidePerforms(op: Op, w: World)
    requires Consistent(w)
    ensures Performs(w, Inside(op, w), [op])
    decreases op, 0
  {
    var t := Inside(op, w);
    match op {
      case ToFinish(choice) => MarkedPerforms(op, w, choice);
      case ToCancel(data) => CancelPerforms(op, w, data);
      case ToRun(s) =>
        BornPerforms(op, w, s);
        if s.instant {
          var born := Born(s, Logged(op, w));
          InsideAllPerforms(s.done, born);
          PerformsCallback(w, born, t, |w.started|);
          assert born.log[|w.log|..] == [op];
        }
    }
  }

  lemma MarkedPerforms(op: Op, w: World, choice: Choice)
    requires Consistent(w)
    ensures Performs(w, Logged(op, w).(live := Marked(choice, w.live)), [op])
  {
    var marked := Marked(choice, w.live);
    forall a | a in marked
      ensures Genuine(a, w.started)
    {
      var k :| 0 <= k < |marked| && marked[k] == a;
      assert Genuine(w.live[k], w.started);
    }
    assert w.completed[|w.completed|..] == [];
  }

  lemma CancelPerforms(op: Op, w: World, data: Pointer)
    requires Consistent(w)
    ensures Performs(w, Cancelled(data, Logged(op, w)), [op])
  {
    forall a | a in Others(OfData(data), w.live)
      ensures Genuine(a, w.started)
    {
      OthersExactly(OfData(data), w.live, a);
    }
    assert w.completed[|w.completed|..] == [];
  }

  /** A new animation is consistent, and if it is not instant that is all. */
  lemma BornPerforms(op: Op, w: World, s: Subject)
    requires Consistent(w)
    ensures var born := Born(s, Logged(op, w));
      Consistent(born) && (!s.instant ==> Performs(w, born, [op]))
  {
    var born := Born(s, Logged(op, w));
    forall a | a in w.live
      ensures Genuine(a, born.started)
    {
      assert Genuine(a, w.started);
    }
    if !s.instant {
      assert born.completed[|w.completed|..] == [];
    }
  }

  lemma {:induction false} InsideAllPerforms(ops: seq<Op>, w: World)
    requires Consistent(w)
    ensures Performs(w, InsideAll(ops, w), ops)
    decreases ops, 1
  {
    if ops == [] {
      PerformsNothing(w, w);
    } else {
      InsidePerforms(ops[0], w);
      InsideAllPerforms(ops[1..], Inside(ops[0], w));
      PerformsAll(w, Inside(ops[0], w), InsideAll(ops[1..], Inside(ops[0], w)), ops);
    }
  }

  lemma ReleasedPerforms(a: Anim, w: World)
    requires Consistent(w) && Genuine(a, w.started)
    ensures Performs(w, Released(a, w), [])
  {
    var done := w.(completed := w.completed + [a.id]);
    InsideAllPerforms(a.subject.done, done);
    PerformsCallback(w, done, Released(a, w), a.id);
    assert done.log[|w.log|..] == [];
  }

  lemma {:induction false} ReleasedAllPerforms(taken: seq<Anim>, w: World)
    requires Consistent(w) && forall a :: a in taken ==> Genuine(a, w.started)
    ensures Performs(w, ReleasedAll(taken, w), [])
    decreases |taken|
  {
    if taken == [] {
      PerformsNothing(w, w);
    } else {
      ReleasedPerforms(taken[0], w);
      forall a | a in taken[1..]
        ensures Genuine(a, Released(taken[0], w).started)
      {
        assert Genuine(a, w.started);
      }
      ReleasedAllPerforms(taken[1..], Released(taken[0], w));
      PerformsThen(w, Released(taken[0], w), ReleasedAll(taken, w), [], []);
      assert NO_OPS + NO_OPS == NO_OPS;
    }
  }

  /** A drain performs the whole callback of every animation it completes, and nothing else. */
  lemma {:induction false} DrainedPerforms(w: World)
    requires Consistent(w)
    ensures Performs(w, Drained(w), [])
    decreases Load(w.live)
  {
    var taken, rest := Finishing(w.live), w.(live := Running(w.live));
    if taken == [] {
      PerformsNothing(w, w);
    } else {
      PartsAreGenuine(w.live, w.started);
      PerformsNothing(w, rest);
      LoadFinishing(w.live);
      LoadReleasedAll(taken, rest);
      ReleasedAllPerforms(taken, rest);
      DrainedPerforms(ReleasedAll(taken, rest));
      PerformsThen(w, rest, ReleasedAll(taken, rest), [], []);
      PerformsThen(w, ReleasedAll(taken, rest), Drained(w), [] + [], []);
      assert NO_OPS + NO_OPS + NO_OPS == NO_OPS;
    }
  }

  lemma {:induction false} PartsAreGenuine(s: seq<Anim>, started: seq<Subject>)
    requires forall a :: a in s ==> Genuine(a, started)
    ensures forall a :: a in Finishing(s) || a in Running(s) ==> Genuine(a, started)
  {
    if s != [] {
      PartsAreGenuine(s[1..], started);
    }
  }

  lemma {:induction false} OutsidePerforms(op: Op, w: World)
    requires Consistent(w)
    ensures Performs(w, Outside(op, w), [op])
    decreases op, 0
  {
    var t := Outside(op, w);
    match op {
      case ToFinish(choice) =>
        var marked := Logged(op, w).(live := Marked(choice, w.live));
        MarkedPerforms(op, w, choice);
        DrainedPerforms(marked);
        PerformsThen(w, marked, t, [op], []);
        assert [op] + [] == [op];
      case ToCancel(data) => CancelPerforms(op, w, data);
      case ToRun(s) =>
        BornPerforms(op, w, s);
        if s.instant {
          var born := Born(s, Logged(op, w));
          OutsideAllPerforms(s.done, born);
          PerformsCallback(w, born, t, |w.started|);
          assert born.log[|w.log|..] == [op];
        }
    }
  }

  lemma {:induction false} OutsideAllPerforms(ops: seq<Op>, w: World)
    requires Consistent(w)
    ensures Performs(w, OutsideAll(ops, w), ops)
    decreases ops, 1
  {
    if ops == [] {
      PerformsNothing(w, w);
    } else {
      OutsidePerforms(ops[0], w);
      OutsideAllPerforms(ops[1..], Outside(ops[0], w));
      PerformsAll(w, Outside(ops[0], w), OutsideAll(ops[1..], Outside(ops[0], w)), ops);
    }
  }

  // ----- A whole run --------------------------------------------------------------------------------------

  /** The apply callback of an animation is called while its time is not over. */
  function Applied(a: Anim, ended: set<nat>, applies: map<nat, seq<Op>>): seq<Op> {
    if a.finishing || a.id in ended then [] else OpsOf(applies, a.id)
  }

  lemma VisitedPerforms(w: World, index: nat, ended: set<nat>, applies: map<nat, seq<Op>>)
    requires Consistent(w) && index < |w.live|
    ensures Performs(w, VisitedAt(w, index, ended, applies), Applied(w.live[index], ended, applies))
  {
    var a, v := w.live[index], VisitedAt(w, index, ended, applies);
    if a.finishing || a.id in ended {
      forall b | b in v.live
        ensures Genuine(b, w.started)
      {
        var k :| 0 <= k < |v.live| && v.live[k] == b;
        assert Genuine(w.live[k], w.started);
      }
      PerformsNothing(w, v);
    } else {
      InsideAllPerforms(OpsOf(applies, a.id), w);
    }
  }

  /** The operations of the apply callbacks that a walk calls, in order. */
  function WalkOps(cursor: Option<nat>, w: World, ended: set<nat>, applies: map<nat, seq<Op>>): seq<Op>
    decreases if cursor.Some? then cursor.value + 1 else 0
  {
    if cursor.None? || !Holds(w.live, cursor.value) then []
    else
      var index := IndexOf(w.live, cursor.value);
      var next, v := NextOf(w.live, index), VisitedAt(w, index, ended, applies);
      Applied(w.live[index], ended, applies)
      + if next.Some? && (next.value >= cursor.value || !Holds(v.live, next.value)) then []
        else WalkOps(next, v, ended, applies)
  }

  lemma {:induction false} WalkedPerforms(cursor: Option<nat>, w: World, ended: set<nat>, applies: map<nat, seq<Op>>)
    requires Consistent(w)
    ensures Performs(w, WalkedFrom(cursor, w, ended, applies).0, WalkOps(cursor, w, ended, applies))
    decreases if cursor.Some? then cursor.value + 1 else 0
  {
    if cursor.None? || !Holds(w.live, cursor.value) {
      PerformsNothing(w, w);
    } else {
      var index := IndexOf(w.live, cursor.value);
      var next, v := NextOf(w.live, index), VisitedAt(w, index, ended, applies);
      var called := Applied(w.live[index], ended, applies);
      VisitedPerforms(w, index, ended, applies);
      if next.Some? && (next.value >= cursor.value || !Holds(v.live, next.value)) {
        assert called + [] == called;
      } else {
        WalkedPerforms(next, v, ended, applies);
        PerformsThen(w, v, WalkedFrom(next, v, ended, applies).0, called, WalkOps(next, v, ended, applies));
      }
    }
  }

  /** What a run asks for: the calls of the event loop and the apply callbacks. */
  function Asked(events: seq<Event>, w: World): seq<Op> {
    if events == [] then []
    else
      match events[0]
      case Call(op) => [op] + Asked(events[1..], Outside(op, w))
      case Frame(ended, applies) =>
        var (v, survived) := Ticked(w, ended, applies);
        WalkOps(CursorAt(w.live, 0), w, ended, applies) + if survived then Asked(events[1..], v) else []
  }

  lemma TickedPerforms(w: World, ended: set<nat>, applies: map<nat, seq<Op>>)
    requires Consistent(w)
    ensures Performs(w, Ticked(w, ended, applies).0, WalkOps(CursorAt(w.live, 0), w, ended, applies))
  {
    var cursor := CursorAt(w.live, 0);
    var (v, survived) := WalkedFrom(cursor, w, ended, applies);
    WalkedPerforms(cursor, w, ended, applies);
    if survived {
      DrainedPerforms(v);
      PerformsThen(w, v, Drained(v), WalkOps(cursor, w, ended, applies), []);
      assert WalkOps(cursor, w, ended, applies) + [] == WalkOps(cursor, w, ended, applies);
    }
  }

  lemma {:induction false} PlayedPerforms(events: seq<Event>, w: World)
    requires Consistent(w)
    ensures Performs(w, Played(events, w).0, Asked(events, w))
    decreases |events|
  {
    if events == [] {
      PerformsNothing(w, w);
    } else {
      match events[0] {
        case Call(op) =>
          OutsidePerforms(op, w);
          PlayedPerforms(events[1..], Outside(op, w));
          PerformsThen(w, Outside(op, w), Played(events, w).0, [op], Asked(events[1..], Outside(op, w)));
        case Frame(ended, applies) =>
          var (v, survived) := Ticked(w, ended, applies);
          var called := WalkOps(CursorAt(w.live, 0), w, ended, applies);
          TickedPerforms(w, ended, applies);
          if survived {
            PlayedPerforms(events[1..], v);
            PerformsThen(w, v, Played(events, w).0, called, Asked(events[1..], v));
          } else {
            assert called + [] == called;
          }
      }
    }
  }

  /** Conservation of operations: whatever a run does, and whatever the callbacks in it
      do, every operation performed was asked for by the event loop, by an apply callback
      or by the done callback of a completed animation; all of these were performed, each
      as often as it was asked for; and each run among them started one animation. */
  lemma EveryCallbackRuns(events: seq<Event>)
    ensures var t := Played(events, NO_WORLD).0;
      && multiset(t.log) == multiset(Asked(events, NO_WORLD)) + Due(t.completed, t.started)
      && t.started == Runs(t.log)
  {
    PlayedPerforms(events, NO_WORLD);
    PlayedStarts(events, NO_WORLD);
    var t := Played(events, NO_WORLD).0;
    assert t.completed[0..] == t.completed;
  }
}
