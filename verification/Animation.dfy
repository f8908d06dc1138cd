/** The animation manager (render/animation.c): callbacks that run when an animation
    ends may start, finish and cancel other animations, while the list is walked. */
module Animation {
  import opened Options
  import opened Seqs

  /** An address that may be NULL. */
  type Pointer = Option<nat>

  /** A way to choose animations; `Ended` is how a tick does it. */
  datatype Choice = All | OfData(data: Pointer) | OfOwner(owner: Pointer) | Ended(ids: set<nat>)

  /** What a callback does to the manager. */
  datatype Op = ToFinish(choice: Choice) | ToCancel(data: Pointer) | ToRun(subject: Subject)

  /** An animation to be started; `instant` when its duration is zero, and `done` is
      what its done callback does. */
  datatype Subject = Subject(data: Pointer, owner: Pointer, instant: bool, done: seq<Op>)

  datatype Anim = Anim(id: nat, subject: Subject, finishing: bool)

  // ----- Which animations are meant --------------------------------------------------------

  predicate Meant(choice: Choice, a: Anim) {
    match choice
    case All => true
    case OfData(data) => data.Some? && a.subject.data == data
    case OfOwner(owner) => owner.Some? && a.subject.owner == owner
    case Ended(ids) => a.id in ids
  }

  /** NULL chooses nothing. */
  predicate Pointless(choice: Choice) {
    (choice.OfData? && choice.data.None?) || (choice.OfOwner? && choice.owner.None?)
  }

  lemma {:induction false} PointlessMarksNothing(choice: Choice, s: seq<Anim>)
    requires Pointless(choice)
    ensures Marked(choice, s) == s && Chosen(choice, s) == [] && Others(choice, s) == s
  {
    if s != [] {
      PointlessMarksNothing(choice, s[1..]);
    }
  }

  function Marked(choice: Choice, s: seq<Anim>): (r: seq<Anim>)
    ensures |r| == |s|
    ensures forall k :: 0 <= k < |s| ==> r[k] == if Meant(choice, s[k]) then s[k].(finishing := true) else s[k]
  {
    if s == [] then []
    else [if Meant(choice, s[0]) then s[0].(finishing := true) else s[0]] + Marked(choice, s[1..])
  }

  /** The animations an operation means, and the others. */
  function Chosen(choice: Choice, s: seq<Anim>): seq<Anim> {
    if s == [] then [] else (if Meant(choice, s[0]) then [s[0]] else []) + Chosen(choice, s[1..])
  }

  function Others(choice: Choice, s: seq<Anim>): seq<Anim> {
    if s == [] then [] else (if Meant(choice, s[0]) then [] else [s[0]]) + Others(choice, s[1..])
  }

  function Finishing(s: seq<Anim>): seq<Anim> {
    if s == [] then [] else (if s[0].finishing then [s[0]] else []) + Finishing(s[1..])
  }

  function Running(s: seq<Anim>): seq<Anim> {
    if s == [] then [] else (if s[0].finishing then [] else [s[0]]) + Running(s[1..])
  }

  function Ids(s: seq<Anim>): (r: seq<nat>)
    ensures |r| == |s| && forall k :: 0 <= k < |s| ==> r[k] == s[k].id
  {
    if s == [] then [] else [s[0].id] + Ids(s[1..])
  }

  lemma {:induction false} FinishingExactly(s: seq<Anim>, a: Anim)
    ensures a in Finishing(s) <==> a in s && a.finishing
  {
    if s != [] {
      FinishingExactly(s[1..], a);
    }
  }

  lemma FinishingNext(s: seq<Anim>, index: nat, taken: seq<Anim>, kept: seq<Anim>)
    requires index < |s|
    ensures var a, rest := s[index], s[index + 1..];
      if a.finishing then
        taken + Finishing(s[index..]) == taken + [a] + Finishing(rest) && Running(s[index..]) == Running(rest)
      else
        kept + Running(s[index..]) == kept + [a] + Running(rest) && Finishing(s[index..]) == Finishing(rest)
  {
    var a, rest := s[index], s[index + 1..];
    assert s[index..][0] == a && s[index..][1..] == rest;
    Associate(taken, [a], Finishing(rest));
    Associate(kept, [a], Running(rest));
    HeadAndTail(a, Finishing(rest));
    HeadAndTail(a, Running(rest));
  }

  lemma {:induction false} RunningSettled(s: seq<Anim>)
    ensures Finishing(Running(s)) == []
  {
    if s != [] {
      RunningSettled(s[1..]);
      var r := Running(s[1..]);
      assert ([s[0]] + r)[1..] == r && [] + r == r;
    }
  }

  /** Their callbacks do nothing. */
  predicate Quiet(s: seq<Anim>) {
    s == [] || (s[0].subject.done == [] && Quiet(s[1..]))
  }

  lemma {:induction false} RunningAgain(s: seq<Anim>)
    requires Finishing(s) == []
    ensures Running(s) == s
  {
    if s != [] {
      HeadAndTail(s[0], Finishing(s[1..]));
      RunningAgain(s[1..]);
    }
  }

  /** Where nothing was marked, the marked ones are the chosen ones. */
  lemma {:induction false} MarkedSplits(choice: Choice, s: seq<Anim>)
    requires Finishing(s) == []
    ensures Running(Marked(choice, s)) == Others(choice, s)
    ensures Ids(Finishing(Marked(choice, s))) == Ids(Chosen(choice, s))
    ensures Quiet(Finishing(Marked(choice, s))) == Quiet(Chosen(choice, s))
  {
    if s != [] {
      MarkedSplits(choice, s[1..]);
      var m := Marked(choice, s);
      assert m[1..] == Marked(choice, s[1..]);
      HeadAndTail(s[0], Finishing(s[1..]));
      HeadAndTail(m[0], Finishing(m[1..]));
      HeadAndTail(s[0], Chosen(choice, s[1..]));
    }
  }

  lemma {:induction false} OthersSettled(choice: Choice, s: seq<Anim>)
    requires Finishing(s) == []
    ensures Finishing(Others(choice, s)) == []
  {
    if s != [] {
      OthersSettled(choice, s[1..]);
      var r := Others(choice, s[1..]);
      assert ([s[0]] + r)[1..] == r && [] + r == r;
    }
  }

  lemma {:induction false} MarkedMeansFinishing(choice: Choice, s: seq<Anim>, a: Anim)
    requires a in s && Meant(choice, a)
    ensures a.(finishing := true) in Marked(choice, s)
  {
    if a != s[0] {
      MarkedMeansFinishing(choice, s[1..], a);
    }
  }

  // ----- Counting animations ------------------------------------------------------------------

  function Count(s: seq<Anim>, id: nat): nat {
    if s == [] then 0 else (if s[0].id == id then 1 else 0) + Count(s[1..], id)
  }

  function Tally(s: seq<nat>, id: nat): nat {
    if s == [] then 0 else (if s[0] == id then 1 else 0) + Tally(s[1..], id)
  }

  lemma {:induction false} TallyConcat(a: seq<nat>, b: seq<nat>, id: nat)
    ensures Tally(a + b, id) == Tally(a, id) + Tally(b, id)
  {
    if a == [] {
      assert a + b == b;
    } else {
      assert (a + b)[1..] == a[1..] + b;
      TallyConcat(a[1..], b, id);
    }
  }

  lemma {:induction false} TallyIds(s: seq<Anim>, id: nat)
    ensures Tally(Ids(s), id) == Count(s, id)
  {
    if s != [] {
      assert Ids(s)[1..] == Ids(s[1..]);
      TallyIds(s[1..], id);
    }
  }

  lemma {:induction false} TallyPositive(s: seq<nat>, id: nat)
    ensures id in s <==> Tally(s, id) > 0
  {
    if s != [] {
      TallyPositive(s[1..], id);
    }
  }

  lemma {:induction false} CountMarked(choice: Choice, s: seq<Anim>, id: nat)
    ensures Count(Marked(choice, s), id) == Count(s, id)
  {
    if s != [] {
      CountMarked(choice, s[1..], id);
      assert Marked(choice, s)[1..] == Marked(choice, s[1..]);
    }
  }

  lemma {:induction false} CountMarkedAt(s: seq<Anim>, index: nat, id: nat)
    requires index < |s|
    ensures Count(s[index := s[index].(finishing := true)], id) == Count(s, id)
  {
    var r := s[index := s[index].(finishing := true)];
    if index > 0 {
      assert r[1..] == s[1..][index - 1 := s[index].(finishing := true)];
      CountMarkedAt(s[1..], index - 1, id);
    } else {
      assert r[1..] == s[1..];
    }
  }

  lemma {:induction false} CountChosen(choice: Choice, s: seq<Anim>, id: nat)
    ensures Count(Chosen(choice, s), id) + Count(Others(choice, s), id) == Count(s, id)
  {
    if s != [] {
      CountChosen(choice, s[1..], id);
      HeadAndTail(s[0], Chosen(choice, s[1..]));
      HeadAndTail(s[0], Others(choice, s[1..]));
    }
  }

  lemma {:induction false} CountFinishing(s: seq<Anim>, id: nat)
    ensures Count(Finishing(s), id) + Count(Running(s), id) == Count(s, id)
  {
    if s != [] {
      CountFinishing(s[1..], id);
      HeadAndTail(s[0], Finishing(s[1..]));
      HeadAndTail(s[0], Running(s[1..]));
    }
  }

  /** How often an animation is found among the four places it can be in. */
  function Places(live: seq<Anim>, pending: seq<Anim>, completed: seq<nat>, cancelled: seq<nat>, id: nat): nat {
    Count(live, id) + Count(pending, id) + Tally(completed, id) + Tally(cancelled, id)
  }

  /** Of the n animations started, each is in exactly one place, once. */
  ghost predicate Books(live: seq<Anim>, pending: seq<Anim>, completed: seq<nat>, cancelled: seq<nat>, n: nat) {
    forall id: nat :: Places(live, pending, completed, cancelled, id) == if id < n then 1 else 0
  }

  lemma BooksTaken(live: seq<Anim>, completed: seq<nat>, cancelled: seq<nat>, n: nat)
    requires Books(live, [], completed, cancelled, n)
    ensures Books(Running(live), Finishing(live), completed, cancelled, n)
  {
    forall id: nat
      ensures Places(Running(live), Finishing(live), completed, cancelled, id) == if id < n then 1 else 0
    {
      assert Places(live, [], completed, cancelled, id) == if id < n then 1 else 0;
      CountFinishing(live, id);
    }
  }

  lemma BooksReleased(live: seq<Anim>, pending: seq<Anim>, completed: seq<nat>, cancelled: seq<nat>, n: nat)
    requires pending != [] && Books(live, pending, completed, cancelled, n)
    ensures Books(live, pending[1..], completed + [pending[0].id], cancelled, n)
  {
    var a := pending[0].id;
    forall id: nat
      ensures Places(live, pending[1..], completed + [a], cancelled, id) == if id < n then 1 else 0
    {
      assert Places(live, pending, completed, cancelled, id) == if id < n then 1 else 0;
      TallyConcat(completed, [a], id);
    }
  }

  lemma BooksMarked(choice: Choice, live: seq<Anim>, pending: seq<Anim>, completed: seq<nat>, cancelled: seq<nat>,
      n: nat)
    requires Books(live, pending, completed, cancelled, n)
    ensures Books(Marked(choice, live), pending, completed, cancelled, n)
  {
    forall id: nat
      ensures Places(Marked(choice, live), pending, completed, cancelled, id) == if id < n then 1 else 0
    {
      assert Places(live, pending, completed, cancelled, id) == if id < n then 1 else 0;
      CountMarked(choice, live, id);
    }
  }

  lemma BooksMarkedAt(index: nat, live: seq<Anim>, pending: seq<Anim>, completed: seq<nat>, cancelled: seq<nat>, n: nat)
    requires index < |live| && Books(live, pending, completed, cancelled, n)
    ensures Books(live[index := live[index].(finishing := true)], pending, completed, cancelled, n)
  {
    var marked := live[index := live[index].(finishing := true)];
    forall id: nat
      ensures Places(marked, pending, completed, cancelled, id) == if id < n then 1 else 0
    {
      assert Places(live, pending, completed, cancelled, id) == if id < n then 1 else 0;
      CountMarkedAt(live, index, id);
    }
  }

  lemma BooksCancelled(choice: Choice, live: seq<Anim>, pending: seq<Anim>, completed: seq<nat>, cancelled: seq<nat>,
      n: nat)
    requires Books(live, pending, completed, cancelled, n)
    ensures Books(Others(choice, live), pending, completed, cancelled + Ids(Chosen(choice, live)), n)
  {
    var gone := cancelled + Ids(Chosen(choice, live));
    forall id: nat
      ensures Places(Others(choice, live), pending, completed, gone, id) == if id < n then 1 else 0
    {
      assert Places(live, pending, completed, cancelled, id) == if id < n then 1 else 0;
      CountChosen(choice, live, id);
      TallyConcat(cancelled, Ids(Chosen(choice, live)), id);
      TallyIds(Chosen(choice, live), id);
    }
  }

  lemma BooksStarted(a: Anim, live: seq<Anim>, pending: seq<Anim>, completed: seq<nat>, cancelled: seq<nat>, n: nat)
    requires a.id == n && Books(live, pending, completed, cancelled, n)
    ensures Books([a] + live, pending, completed, cancelled, n + 1)
    ensures Books(live, pending, completed + [n], cancelled, n + 1)
  {
    forall id: nat
      ensures Places([a] + live, pending, completed, cancelled, id) == if id < n + 1 then 1 else 0
      ensures Places(live, pending, completed + [n], cancelled, id) == if id < n + 1 then 1 else 0
    {
      assert Places(live, pending, completed, cancelled, id) == if id < n then 1 else 0;
      HeadAndTail(a, live);
      TallyConcat(completed, [n], id);
    }
  }

  /** Conservation: an animation that was started is live, or taken off the list and
      about to be released, or completed, or cancelled; only one of these, and once. */
  lemma ExactlyOneFate(live: seq<Anim>, pending: seq<Anim>, completed: seq<nat>, cancelled: seq<nat>, n: nat, id: nat)
    requires Books(live, pending, completed, cancelled, n)
    ensures id < n <==> id in Ids(live) || id in Ids(pending) || id in completed || id in cancelled
    ensures id in completed ==> id !in cancelled && id !in Ids(live) && id !in Ids(pending) && Tally(completed, id) == 1
    ensures id in cancelled ==> id !in completed && id !in Ids(live) && id !in Ids(pending) && Tally(cancelled, id) == 1
    ensures id in Ids(pending) ==> id !in Ids(live) && Tally(Ids(pending), id) == 1
    ensures id in Ids(live) ==> Tally(Ids(live), id) == 1
  {
    var l := FoundIn(live, id);
    var p := FoundIn(pending, id);
    var c := Recordings(completed, id);
    var x := Recordings(cancelled, id);
    assert Places(live, pending, completed, cancelled, id) == if id < n then 1 else 0;
    assert l + p + c + x == if id < n then 1 else 0;
  }

  lemma FoundIn(s: seq<Anim>, id: nat) returns (times: nat)
    ensures times == Count(s, id) == Tally(Ids(s), id) && (id in Ids(s) <==> times > 0)
  {
    TallyIds(s, id);
    TallyPositive(Ids(s), id);
    times := Count(s, id);
  }

  lemma Recordings(s: seq<nat>, id: nat) returns (times: nat)
    ensures times == Tally(s, id) && (id in s <==> times > 0)
  {
    TallyPositive(s, id);
    times := Tally(s, id);
  }

  // ----- How much can still happen ------------------------------------------------------------------

  function Cost(op: Op): (n: nat)
    ensures n > 0
  {
    1 + if op.ToRun? then SubjectCost(op.subject) else 0
  }

  function SubjectCost(s: Subject): (n: nat)
    ensures n > 0
  {
    1 + Costs(s.done)
  }

  function Costs(ops: seq<Op>): nat {
    if ops == [] then 0 else Cost(ops[0]) + Costs(ops[1..])
  }

  function Load(s: seq<Anim>): nat {
    if s == [] then 0 else SubjectCost(s[0].subject) + Load(s[1..])
  }

  lemma {:induction false} LoadMarked(choice: Choice, s: seq<Anim>)
    ensures Load(Marked(choice, s)) == Load(s)
  {
    if s != [] {
      LoadMarked(choice, s[1..]);
      assert Marked(choice, s)[1..] == Marked(choice, s[1..]);
    }
  }

  lemma {:induction false} LoadOthers(choice: Choice, s: seq<Anim>)
    ensures Load(Others(choice, s)) <= Load(s)
  {
    if s != [] {
      LoadOthers(choice, s[1..]);
      HeadAndTail(s[0], Others(choice, s[1..]));
    }
  }

  lemma {:induction false} LoadFinishing(s: seq<Anim>)
    ensures Load(Finishing(s)) + Load(Running(s)) == Load(s)
  {
    if s != [] {
      LoadFinishing(s[1..]);
      HeadAndTail(s[0], Finishing(s[1..]));
      HeadAndTail(s[0], Running(s[1..]));
    }
  }

  // ----- The order of the list ------------------------------------------------------------------------

  /** Newest first, every animation older than n. */
  predicate Descending(s: seq<Anim>, n: nat) {
    s == [] || (s[0].id < n && Descending(s[1..], s[0].id))
  }

  lemma {:induction false} DescendingMarked(choice: Choice, s: seq<Anim>, n: nat)
    requires Descending(s, n)
    ensures Descending(Marked(choice, s), n)
  {
    if s != [] {
      DescendingMarked(choice, s[1..], s[0].id);
      assert Marked(choice, s)[1..] == Marked(choice, s[1..]);
    }
  }

  lemma {:induction false} DescendingMarkedAt(s: seq<Anim>, index: nat, n: nat)
    requires index < |s| && Descending(s, n)
    ensures Descending(s[index := s[index].(finishing := true)], n)
  {
    var r := s[index := s[index].(finishing := true)];
    if index > 0 {
      assert r[1..] == s[1..][index - 1 := s[index].(finishing := true)];
      DescendingMarkedAt(s[1..], index - 1, s[0].id);
    } else {
      assert r[1..] == s[1..];
    }
  }

  lemma {:induction false} DescendingOthers(choice: Choice, s: seq<Anim>, n: nat)
    requires Descending(s, n)
    ensures Descending(Others(choice, s), n)
  {
    if s != [] {
      DescendingOthers(choice, s[1..], s[0].id);
      HeadAndTail(s[0], Others(choice, s[1..]));
    }
  }

  lemma {:induction false} DescendingRunning(s: seq<Anim>, n: nat)
    requires Descending(s, n)
    ensures Descending(Running(s), n)
  {
    if s != [] {
      DescendingRunning(s[1..], s[0].id);
      HeadAndTail(s[0], Running(s[1..]));
    }
  }

  lemma {:induction false} InOrder(s: seq<Anim>, n: nat, i: nat, j: nat)
    requires Descending(s, n) && i < |s| && j < |s|
    ensures s[i].id < n
    ensures i < j ==> s[j].id < s[i].id
  {
    if i > 0 && j > 0 {
      InOrder(s[1..], s[0].id, i - 1, j - 1);
    } else if i > 0 {
      InOrder(s[1..], s[0].id, i - 1, i - 1);
    } else if j > 0 {
      InOrder(s[1..], s[0].id, j - 1, j - 1);
    }
  }

  lemma SameId(s: seq<Anim>, n: nat, i: nat, a: Anim)
    requires Descending(s, n) && i < |s| && a in s && a.id == s[i].id
    ensures a == s[i]
  {
    var k :| 0 <= k < |s| && s[k] == a;
    InOrder(s, n, i, k);
    InOrder(s, n, k, i);
  }

  predicate Holds(s: seq<Anim>, id: nat) {
    exists a :: a in s && a.id == id
  }

  /** Where the animation of that number is. */
  function IndexOf(s: seq<Anim>, id: nat): (index: nat)
    requires Holds(s, id)
    ensures index < |s| && s[index].id == id
  {
    if s[0].id == id then 0
    else
      assert Holds(s[1..], id) by {
        var a :| a in s && a.id == id;
        assert a in s[1..];
      }
      1 + IndexOf(s[1..], id)
  }

  // ----- What a callback may do while the list is walked ---------------------------------------------

  predicate CancelsNothing(ops: seq<Op>) {
    ops == [] || (DoesNotCancel(ops[0]) && CancelsNothing(ops[1..]))
  }

  predicate DoesNotCancel(op: Op) {
    match op
    case ToFinish(_) => true
    case ToCancel(_) => false
    case ToRun(s) => s.instant ==> CancelsNothing(s.done)
  }

  /** Whether callbacks leave the animations with that data alone. */
  predicate Spares(ops: seq<Op>, data: Pointer) {
    ops == [] || (DoesNotTouch(ops[0], data) && Spares(ops[1..], data))
  }

  predicate DoesNotTouch(op: Op, data: Pointer) {
    match op
    case ToFinish(_) => true
    case ToCancel(other) => other.None? || other != data
    case ToRun(s) => s.instant ==> Spares(s.done, data)
  }

  lemma {:induction false} CancelsNothingSpares(ops: seq<Op>, data: Pointer)
    requires CancelsNothing(ops)
    ensures Spares(ops, data)
    decreases ops, 1
  {
    if ops != [] {
      DoesNotCancelSpares(ops[0], data);
      CancelsNothingSpares(ops[1..], data);
    }
  }

  lemma {:induction false} DoesNotCancelSpares(op: Op, data: Pointer)
    requires DoesNotCancel(op)
    ensures DoesNotTouch(op, data)
    decreases op, 0
  {
    if op.ToRun? && op.subject.instant {
      CancelsNothingSpares(op.subject.done, data);
    }
  }

  function Finished(a: Anim): Anim { a.(finishing := true) }

  function Unmarked(a: Anim): Anim { a.(finishing := false) }

  /** Of the animations below n, b holds none but those of a, perhaps marked. */
  predicate Came(a: seq<Anim>, n: nat, b: seq<Anim>) {
    forall x :: x in b && x.id < n ==> x in a || (x.finishing && Unmarked(x) in a)
  }

  /** What the callbacks spare is still in b, perhaps marked. */
  predicate Stayed(ops: seq<Op>, a: seq<Anim>, b: seq<Anim>) {
    forall x :: x in a && Spares(ops, x.subject.data) ==> x in b || Finished(x) in b
  }

  lemma CameTransitive(a: seq<Anim>, n: nat, b: seq<Anim>, m: nat, c: seq<Anim>)
    requires Came(a, n, b) && Came(b, m, c) && n <= m
    ensures Came(a, n, c)
  {
  }

  lemma StayedNext(ops: seq<Op>, a: seq<Anim>, b: seq<Anim>, c: seq<Anim>)
    requires ops != [] && Stayed([ops[0]], a, b) && Stayed(ops[1..], b, c)
    ensures Stayed(ops, a, c)
  {
    forall x | x in a && Spares(ops, x.subject.data)
      ensures x in c || Finished(x) in c
    {
      assert [ops[0]][1..] == [] && Spares([ops[0]], x.subject.data);
      assert x in b || Finished(x) in b;
      assert Finished(Finished(x)) == Finished(x);
    }
  }

  lemma MarkedChanges(choice: Choice, s: seq<Anim>, n: nat, ops: seq<Op>)
    ensures Came(s, n, Marked(choice, s)) && Stayed(ops, s, Marked(choice, s))
  {
    var r := Marked(choice, s);
    forall x | x in r
      ensures x in s || (x.finishing && Unmarked(x) in s)
    {
      var k :| 0 <= k < |r| && r[k] == x;
      assert x == s[k] || (x == Finished(s[k]) && (s[k].finishing || Unmarked(x) == s[k]));
    }
    forall x | x in s
      ensures x in r || Finished(x) in r
    {
      var k :| 0 <= k < |s| && s[k] == x;
      assert r[k] in r;
    }
  }

  lemma MarkedAtChanges(s: seq<Anim>, index: nat, n: nat, ops: seq<Op>)
    requires index < |s| && !s[index].finishing
    ensures var r := s[index := Finished(s[index])]; Came(s, n, r) && Stayed(ops, s, r)
  {
    var r := s[index := Finished(s[index])];
    forall x | x in r
      ensures x in s || (x.finishing && Unmarked(x) in s)
    {
      var k :| 0 <= k < |r| && r[k] == x;
      assert k == index ==> Unmarked(x) == s[index];
    }
    forall x | x in s
      ensures x in r || Finished(x) in r
    {
      var k :| 0 <= k < |s| && s[k] == x;
      assert r[k] in r;
    }
  }

  lemma {:induction false} OthersExactly(choice: Choice, s: seq<Anim>, a: Anim)
    ensures a in Others(choice, s) <==> a in s && !Meant(choice, a)
  {
    if s != [] {
      OthersExactly(choice, s[1..], a);
    }
  }

  lemma CancelChanges(data: Pointer, s: seq<Anim>, n: nat)
    ensures var r := Others(OfData(data), s); Came(s, n, r) && Stayed([ToCancel(data)], s, r)
  {
    forall x
      ensures x in Others(OfData(data), s) <==> x in s && !Meant(OfData(data), x)
    {
      OthersExactly(OfData(data), s, x);
    }
  }

  lemma StartChanges(subject: Subject, s: seq<Anim>, n: nat)
    ensures var r := [Anim(n, subject, false)] + s; Came(s, n, r) && Stayed([ToRun(subject)], s, r)
  {
  }

  lemma InstantChanges(subject: Subject, s: seq<Anim>, n: nat, r: seq<Anim>)
    requires subject.instant && Came(s, n + 1, r) && Stayed(subject.done, s, r)
    ensures Came(s, n, r) && Stayed([ToRun(subject)], s, r)
  {
  }

  predicate SameOrMarked(a: Anim, b: Anim) {
    b == a || b == a.(finishing := true)
  }

  predicate Kin(a: seq<Anim>, b: seq<Anim>) {
    |a| == |b| && forall k :: 0 <= k < |a| ==> SameOrMarked(a[k], b[k])
  }

  /** The old list is still there at the end of the new one, except for marks. */
  predicate Grown(a: seq<Anim>, b: seq<Anim>) {
    |a| <= |b| && Kin(a, b[|b| - |a|..])
  }

  lemma GrownTransitive(a: seq<Anim>, b: seq<Anim>, c: seq<Anim>)
    requires Grown(a, b) && Grown(b, c)
    ensures Grown(a, c)
  {
    var bTail, cTail := b[|b| - |a|..], c[|c| - |b|..];
    assert c[|c| - |a|..] == cTail[|b| - |a|..];
    forall k | 0 <= k < |a|
      ensures SameOrMarked(a[k], c[|c| - |a|..][k])
    {
      assert SameOrMarked(a[k], bTail[k]) && SameOrMarked(b[|b| - |a| + k], cTail[|b| - |a| + k]);
    }
  }

  lemma MarkedGrown(choice: Choice, s: seq<Anim>)
    ensures Grown(s, Marked(choice, s))
  {
    assert Marked(choice, s)[0..] == Marked(choice, s);
  }

  lemma MarkedAtGrown(s: seq<Anim>, index: nat)
    requires index < |s|
    ensures Grown(s, s[index := s[index].(finishing := true)])
  {
    var r := s[index := s[index].(finishing := true)];
    assert r[0..] == r;
  }

  // ----- The walk of a tick -------------------------------------------------------------------------

  /** What the apply callback of an animation does. */
  function OpsOf(applies: map<nat, seq<Op>>, id: nat): seq<Op> {
    if id in applies then applies[id] else []
  }

  /** No apply callback cancels anything. */
  ghost predicate Harmless(applies: map<nat, seq<Op>>) {
    forall id :: id in applies ==> CancelsNothing(applies[id])
  }

  /** No apply callback cancels an animation that the walk has still to reach: it may
      cancel its own, and any that is newer. */
  ghost predicate Sparing(applies: map<nat, seq<Op>>, s: seq<Anim>) {
    forall a, b :: a in s && b in s && b.id < a.id ==> Spares(OpsOf(applies, a.id), b.subject.data)
  }

  lemma HarmlessIsSparing(applies: map<nat, seq<Op>>, s: seq<Anim>)
    requires Harmless(applies)
    ensures Sparing(applies, s)
  {
    forall a, b | a in s && b in s
      ensures Spares(OpsOf(applies, a.id), b.subject.data)
    {
      if a.id in applies {
        CancelsNothingSpares(applies[a.id], b.subject.data);
      }
    }
  }

  /** So a callback may always cancel its own data if no two animations share theirs. */
  lemma OwnDataIsSparing(applies: map<nat, seq<Op>>, s: seq<Anim>)
    requires forall a, b :: a in s && b in s && a.id != b.id ==> a.subject.data != b.subject.data
    requires forall a, data :: a in s && data != a.subject.data ==> Spares(OpsOf(applies, a.id), data)
    ensures Sparing(applies, s)
  {
    forall a, b | a in s && b in s && b.id < a.id
      ensures Spares(OpsOf(applies, a.id), b.subject.data)
    {
      assert b.subject.data != a.subject.data;
    }
  }

  /** The animation behind an index, which the walk saves before it calls anything. */
  function NextOf(s: seq<Anim>, index: nat): Option<nat>
    requires index < |s|
  {
    if index + 1 < |s| then Some(s[index + 1].id) else None
  }

  /** Of the list a, what is behind that animation is still in b, if anything is. */
  predicate SavedNextHolds(a: seq<Anim>, id: nat, b: seq<Anim>)
    requires Holds(a, id)
  {
    var next := NextOf(a, IndexOf(a, id));
    next.Some? ==> Holds(b, next.value)
  }

  predicate Passed(cursor: Option<nat>, id: nat) {
    cursor.None? || cursor.value < id
  }

  /** Every animation below n that the walk has passed is marked if its time is over. */
  predicate Caught(ended: set<nat>, n: nat, cursor: Option<nat>, s: seq<Anim>) {
    forall x :: x in s && x.id < n && Passed(cursor, x.id) && x.id in ended ==> x.finishing
  }

  predicate Timed(ended: set<nat>, id: nat, s: seq<Anim>) {
    forall x :: x in s && x.id == id && id in ended ==> x.finishing
  }

  lemma CaughtFirst(ended: set<nat>, n: nat, s: seq<Anim>)
    requires Descending(s, n)
    ensures Caught(ended, n, if s == [] then None else Some(s[0].id), s)
  {
    forall x | x in s
      ensures x.id <= s[0].id
    {
      var k :| 0 <= k < |s| && s[k] == x;
      InOrder(s, n, 0, k);
    }
  }

  lemma CaughtNext(ended: set<nat>, n: nat, s: seq<Anim>, m: nat, index: nat, t: seq<Anim>)
    requires Descending(s, m) && n <= m && index < |s| && Caught(ended, n, Some(s[index].id), s)
    requires Came(s, m, t) && Timed(ended, s[index].id, t)
    ensures Caught(ended, n, NextOf(s, index), t)
  {
    forall x | x in t && x.id < n && Passed(NextOf(s, index), x.id) && x.id in ended
      ensures x.finishing
    {
      if !x.finishing {
        var k :| 0 <= k < |s| && s[k] == x;
        InOrder(s, m, k, index);
        if k > index + 1 {
          InOrder(s, m, index + 1, k);
        }
      }
    }
  }

  /** What is behind the animation that is visited is spared. */
  lemma NextStays(applies: map<nat, seq<Op>>, a: seq<Anim>, n: nat, s: seq<Anim>, m: nat, index: nat, t: seq<Anim>)
    requires Sparing(applies, a) && Came(a, n, s) && Descending(s, m) && index < |s| && s[index].id < n
    requires Stayed(OpsOf(applies, s[index].id), s, t)
    ensures NextOf(s, index).Some? ==> Holds(t, NextOf(s, index).value)
  {
    if index + 1 < |s| {
      var v, x := s[index], s[index + 1];
      InOrder(s, m, index, index + 1);
      var v', x' := if v in a then v else Unmarked(v), if x in a then x else Unmarked(x);
      assert v' in a && x' in a && x'.id < v'.id;
      assert Spares(OpsOf(applies, v.id), x.subject.data);
      assert x in t || Finished(x) in t;
      assert Finished(x).id == x.id;
    }
  }

  lemma TimedHere(ended: set<nat>, s: seq<Anim>, n: nat, index: nat)
    requires Descending(s, n) && index < |s| && (s[index].id in ended ==> s[index].finishing)
    ensures Timed(ended, s[index].id, s)
  {
    forall x | x in s && x.id == s[index].id
      ensures x == s[index]
    {
      SameId(s, n, index, x);
    }
  }

  predicate Due(s: seq<Anim>, id: nat) {
    exists x :: x in s && x.id == id && x.finishing
  }

  /** After the walk an animation whose time is over is about to be completed, unless it
      has been cancelled. */
  lemma EndedIsDue(a: Anim, ended: set<nat>, n: nat, live: seq<Anim>, completed: seq<nat>, cancelled: seq<nat>, m: nat)
    requires Books(live, [], completed, cancelled, m) && a.id < n <= m && a.id in ended
    requires Caught(ended, n, None, live)
    ensures a.id in completed || a.id in cancelled || Due(live, a.id)
  {
    ExactlyOneFate(live, [], completed, cancelled, m, a.id);
    if a.id in Ids(live) {
      var k :| 0 <= k < |live| && Ids(live)[k] == a.id;
      assert live[k] in live;
    }
  }

  lemma GrownIsDue(a: Anim, ended: set<nat>, n: nat, s: seq<Anim>, live: seq<Anim>)
    requires a in s && a.id < n && a.id in ended && Grown(s, live) && Caught(ended, n, None, live)
    ensures Due(live, a.id)
  {
    var k :| 0 <= k < |s| && s[k] == a;
    var x := live[|live| - |s|..][k];
    assert SameOrMarked(a, x) && x in live;
  }

  /** An animation that is marked, or left as it is. */
  lemma VisitOne(s: seq<Anim>, n: nat, index: nat, ops: seq<Op>, ended: set<nat>)
    requires Descending(s, n) && index < |s|
    ensures Came(s, n, s) && Stayed(ops, s, s) && Grown(s, s)
    ensures (s[index].id in ended ==> s[index].finishing) ==> Timed(ended, s[index].id, s)
    ensures !s[index].finishing ==>
      var r := s[index := Finished(s[index])];
      && Came(s, n, r) && Stayed(ops, s, r) && Grown(s, r) && Descending(r, n) && Timed(ended, s[index].id, r)
  {
    assert s[0..] == s;
    if s[index].id in ended ==> s[index].finishing {
      TimedHere(ended, s, n, index);
    }
    if !s[index].finishing {
      DescendingMarkedAt(s, index, n);
      MarkedAtGrown(s, index);
      MarkedAtChanges(s, index, n, ops);
      TimedHere(ended, s[index := Finished(s[index])], n, index);
    }
  }

  /** One step of the walk, from s to t. */
  lemma StepSound(ended: set<nat>, applies: map<nat, seq<Op>>, a: seq<Anim>, n: nat, s: seq<Anim>, m: nat, index: nat,
      t: seq<Anim>)
    requires Descending(s, m) && n <= m && index < |s| && s[index].id < n && Came(a, n, s) && Came(s, m, t)
    requires Caught(ended, n, Some(s[index].id), s) && Timed(ended, s[index].id, t)
    requires Stayed(OpsOf(applies, s[index].id), s, t)
    ensures Came(a, n, t) && Caught(ended, n, NextOf(s, index), t)
    ensures NextOf(s, index).Some? ==> NextOf(s, index).value < s[index].id
    ensures NextOf(s, index).Some? && Sparing(applies, a) ==> Holds(t, NextOf(s, index).value)
  {
    CameTransitive(a, n, s, m, t);
    CaughtNext(ended, n, s, m, index, t);
    if index + 1 < |s| {
      InOrder(s, m, index, index + 1);
    }
    if Sparing(applies, a) {
      NextStays(applies, a, n, s, m, index, t);
    }
  }

  /** The walk without callbacks marks one animation after another. */
  predicate HalfWay(ended: set<nat>, a: seq<Anim>, n: nat, b: seq<Anim>, cursor: Option<nat>) {
    && n <= |a| == |b| && cursor == CursorAt(b, n)
    && forall k: nat :: k < |a| ==> b[k] == if k < n && a[k].id in ended then Finished(a[k]) else a[k]
  }

  function CursorAt(s: seq<Anim>, n: nat): Option<nat> {
    if n < |s| then Some(s[n].id) else None
  }

  function TimedAt(ended: set<nat>, s: seq<Anim>, k: nat): seq<Anim>
    requires k < |s|
  {
    if s[k].id in ended then s[k := s[k].(finishing := true)] else s
  }

  predicate Silent(applies: map<nat, seq<Op>>) {
    forall id :: id !in applies
  }

  // ----- What the manager computes ----------------------------------------------------------------------

  /** The manager's state as a value, with the subjects of all animations ever started,
      by number, and every operation that was ever performed. */
  datatype World = World(live: seq<Anim>, completed: seq<nat>, cancelled: seq<nat>, started: seq<Subject>,
    log: seq<Op>)

  function Logged(op: Op, w: World): World {
    w.(log := w.log + [op])
  }

  function Cancelled(data: Pointer, w: World): World {
    w.(live := Others(OfData(data), w.live), cancelled := w.cancelled + Ids(Chosen(OfData(data), w.live)))
  }

  /** A new animation; the callback of an instant one is still to come. */
  function Born(s: Subject, w: World): World {
    var id, more := |w.started|, w.started + [s];
    if s.instant then w.(completed := w.completed + [id], started := more)
    else w.(live := [Anim(id, s, false)] + w.live, started := more)
  }

  /** Callbacks inside a dispatch: finishing only marks. */
  function Inside(op: Op, w: World): World
    decreases op, 0
  {
    match op
    case ToFinish(choice) => Logged(op, w).(live := Marked(choice, w.live))
    case ToCancel(data) => Cancelled(data, Logged(op, w))
    case ToRun(s) => if s.instant then InsideAll(s.done, Born(s, Logged(op, w))) else Born(s, Logged(op, w))
  }

  function InsideAll(ops: seq<Op>, w: World): World
    decreases ops, 1
  {
    if ops == [] then w else InsideAll(ops[1..], Inside(ops[0], w))
  }

  /** An animation is completed, and its done callback runs. */
  function Released(a: Anim, w: World): World {
    InsideAll(a.subject.done, w.(completed := w.completed + [a.id]))
  }

  function ReleasedAll(taken: seq<Anim>, w: World): World
    decreases |taken|
  {
    if taken == [] then w else ReleasedAll(taken[1..], Released(taken[0], w))
  }

  lemma {:induction false} LoadInside(op: Op, w: World)
    ensures Load(Inside(op, w).live) < Load(w.live) + Cost(op)
    decreases op, 0
  {
    match op {
      case ToFinish(choice) => LoadMarked(choice, w.live);
      case ToCancel(data) => LoadOthers(OfData(data), w.live);
      case ToRun(s) =>
        HeadAndTail(Anim(|w.started|, s, false), w.live);
        if s.instant {
          LoadInsideAll(s.done, Born(s, Logged(op, w)));
        }
    }
  }

  lemma {:induction false} LoadInsideAll(ops: seq<Op>, w: World)
    ensures Load(InsideAll(ops, w).live) <= Load(w.live) + Costs(ops)
    decreases ops, 1
  {
    if ops != [] {
      LoadInside(ops[0], w);
      LoadInsideAll(ops[1..], Inside(ops[0], w));
    }
  }

  lemma {:induction false} LoadReleasedAll(taken: seq<Anim>, w: World)
    ensures Load(ReleasedAll(taken, w).live) <= Load(w.live) + Load(taken)
    ensures taken != [] ==> Load(ReleasedAll(taken, w).live) < Load(w.live) + Load(taken)
    decreases |taken|
  {
    if taken != [] {
      var a := taken[0];
      LoadInsideAll(a.subject.done, w.(completed := w.completed + [a.id]));
      LoadReleasedAll(taken[1..], Released(a, w));
    }
  }

  /** What is marked is taken off the list and released, until nothing is marked. */
  function Drained(w: World): World
    decreases Load(w.live)
  {
    if Finishing(w.live) == [] then w
    else
      LoadFinishing(w.live);
      LoadReleasedAll(Finishing(w.live), w.(live := Running(w.live)));
      Drained(ReleasedAll(Finishing(w.live), w.(live := Running(w.live))))
  }

  /** Nothing that is recorded is ever taken back. */
  predicate Kept(w: World, t: World) {
    w.completed <= t.completed && w.cancelled <= t.cancelled && w.started <= t.started && w.log <= t.log
  }

  lemma {:induction false} InsideKeeps(op: Op, w: World)
    ensures Kept(w, Inside(op, w))
    decreases op, 0
  {
    if op.ToRun? && op.subject.instant {
      InsideAllKeeps(op.subject.done, Born(op.subject, Logged(op, w)));
    }
  }

  lemma {:induction false} InsideAllKeeps(ops: seq<Op>, w: World)
    ensures Kept(w, InsideAll(ops, w))
    decreases ops, 1
  {
    if ops != [] {
      InsideKeeps(ops[0], w);
      InsideAllKeeps(ops[1..], Inside(ops[0], w));
    }
  }

  lemma {:induction false} ReleasedAllKeeps(taken: seq<Anim>, w: World)
    ensures Kept(w, ReleasedAll(taken, w))
    ensures forall a :: a in taken ==> a.id in ReleasedAll(taken, w).completed
    decreases |taken|
  {
    if taken != [] {
      var a := taken[0];
      var done := w.(completed := w.completed + [a.id]);
      InsideAllKeeps(a.subject.done, done);
      ReleasedAllKeeps(taken[1..], Released(a, w));
      InPrefix(done.completed, ReleasedAll(taken, w).completed, a.id);
    }
  }

  /** What operations inside a dispatch do to the list: it holds nothing old that is new
      to it, what they spare stays, and if they cancel nothing everything does. */
  lemma {:induction false} InsideChanges(op: Op, w: World)
    ensures Came(w.live, |w.started|, Inside(op, w).live) && Stayed([op], w.live, Inside(op, w).live)
    ensures DoesNotCancel(op) ==> Grown(w.live, Inside(op, w).live)
    decreases op, 0
  {
    match op {
      case ToFinish(choice) =>
        MarkedChanges(choice, w.live, |w.started|, [op]);
        MarkedGrown(choice, w.live);
      case ToCancel(data) => CancelChanges(data, w.live, |w.started|);
      case ToRun(s) =>
        if s.instant {
          InsideAllChanges(s.done, Born(s, Logged(op, w)));
          InstantChanges(s, w.live, |w.started|, Inside(op, w).live);
        } else {
          StartChanges(s, w.live, |w.started|);
          HeadAndTail(Anim(|w.started|, s, false), w.live);
        }
    }
  }

  lemma {:induction false} InsideAllChanges(ops: seq<Op>, w: World)
    ensures Came(w.live, |w.started|, InsideAll(ops, w).live) && Stayed(ops, w.live, InsideAll(ops, w).live)
    ensures CancelsNothing(ops) ==> Grown(w.live, InsideAll(ops, w).live)
    decreases ops, 1
  {
    if ops == [] {
      assert w.live[0..] == w.live;
    } else {
      var between := Inside(ops[0], w);
      var after := InsideAll(ops[1..], between);
      InsideChanges(ops[0], w);
      InsideKeeps(ops[0], w);
      InsideAllChanges(ops[1..], between);
      CameTransitive(w.live, |w.started|, between.live, |between.started|, after.live);
      StayedNext(ops, w.live, between.live, after.live);
      if CancelsNothing(ops) {
        GrownTransitive(w.live, between.live, after.live);
      }
    }
  }

  /** Animations whose callbacks do nothing are just completed, in order. */
  lemma {:induction false} QuietReleased(taken: seq<Anim>, w: World)
    requires Quiet(taken)
    ensures ReleasedAll(taken, w) == w.(completed := w.completed + Ids(taken))
    decreases |taken|
  {
    if taken == [] {
      assert w.completed + [] == w.completed;
    } else {
      QuietReleased(taken[1..], Released(taken[0], w));
      Associate(w.completed, [taken[0].id], Ids(taken[1..]));
    }
  }

  lemma {:induction false} DrainedKeeps(w: World)
    ensures Kept(w, Drained(w)) && Finishing(Drained(w).live) == []
    ensures forall a :: a in w.live && a.finishing ==> a.id in Drained(w).completed
    decreases Load(w.live)
  {
    if Finishing(w.live) != [] {
      var taken, rest := Finishing(w.live), w.(live := Running(w.live));
      LoadFinishing(w.live);
      LoadReleasedAll(taken, rest);
      ReleasedAllKeeps(taken, rest);
      DrainedKeeps(ReleasedAll(taken, rest));
      forall a | a in w.live && a.finishing
        ensures a.id in Drained(w).completed
      {
        FinishingExactly(w.live, a);
        InPrefix(ReleasedAll(taken, rest).completed, Drained(w).completed, a.id);
      }
    } else {
      forall a | a in w.live && a.finishing
        ensures false
      {
        FinishingExactly(w.live, a);
      }
    }
  }

  lemma QuietDrained(w: World)
    requires Quiet(Finishing(w.live))
    ensures Drained(w) == w.(live := Running(w.live), completed := w.completed + Ids(Finishing(w.live)))
  {
    if Finishing(w.live) == [] {
      RunningAgain(w.live);
      assert w.completed + [] == w.completed;
    } else {
      QuietReleased(Finishing(w.live), w.(live := Running(w.live)));
      RunningSettled(w.live);
      DrainedStep(w);
    }
  }

  lemma DrainedStep(w: World)
    ensures var next := ReleasedAll(Finishing(w.live), w.(live := Running(w.live)));
      Drained(w) == if Finishing(w.live) == [] then w else Drained(next)
    ensures Finishing(w.live) == [] ==> Running(w.live) == w.live
  {
    if Finishing(w.live) == [] {
      RunningAgain(w.live);
    }
  }

  /** The same operations outside of any dispatch: finishing also drains. */
  function Outside(op: Op, w: World): World
    decreases op, 0
  {
    match op
    case ToFinish(choice) => Drained(Logged(op, w).(live := Marked(choice, w.live)))
    case ToCancel(data) => Cancelled(data, Logged(op, w))
    case ToRun(s) => if s.instant then OutsideAll(s.done, Born(s, Logged(op, w))) else Born(s, Logged(op, w))
  }

  function OutsideAll(ops: seq<Op>, w: World): World
    decreases ops, 1
  {
    if ops == [] then w else OutsideAll(ops[1..], Outside(ops[0], w))
  }

  /** The walk of a tick at one animation. */
  function VisitedAt(w: World, index: nat, ended: set<nat>, applies: map<nat, seq<Op>>): World
    requires index < |w.live|
  {
    var a := w.live[index];
    if a.finishing then w
    else if a.id in ended then w.(live := w.live[index := Finished(a)])
    else InsideAll(OpsOf(applies, a.id), w)
  }

  /** The walk from an animation on, and whether the ones it saves stay on the list. */
  function WalkedFrom(cursor: Option<nat>, w: World, ended: set<nat>, applies: map<nat, seq<Op>>): (World, bool)
    decreases if cursor.Some? then cursor.value + 1 else 0
  {
    if cursor.None? then (w, true)
    else if !Holds(w.live, cursor.value) then (w, false)
    else
      var index := IndexOf(w.live, cursor.value);
      var next, v := NextOf(w.live, index), VisitedAt(w, index, ended, applies);
      if next.Some? && (next.value >= cursor.value || !Holds(v.live, next.value)) then (v, false)
      else WalkedFrom(next, v, ended, applies)
  }

  /** What the event loop calls. */
  datatype Event = Call(op: Op) | Frame(ended: set<nat>, applies: map<nat, seq<Op>>)

  function Ticked(w: World, ended: set<nat>, applies: map<nat, seq<Op>>): (World, bool) {
    var (v, survived) := WalkedFrom(CursorAt(w.live, 0), w, ended, applies);
    (if survived then Drained(v) else v, survived)
  }

  function Handled(event: Event, w: World): (World, bool) {
    match event
    case Call(op) => (Outside(op, w), true)
    case Frame(ended, applies) => Ticked(w, ended, applies)
  }

  /** A run of the event loop, up to a walk that is lost. */
  function Played(events: seq<Event>, w: World): (World, bool) {
    if events == [] then (w, true)
    else
      var (v, survived) := Handled(events[0], w);
      if survived then Played(events[1..], v) else (v, false)
  }

  lemma InPrefix(s: seq<nat>, t: seq<nat>, x: nat)
    requires s <= t && x in s
    ensures x in t
  {
    var k :| 0 <= k < |s| && s[k] == x;
    assert t[k] == x;
  }

  lemma AllDue(applies: map<nat, seq<Op>>, ended: set<nat>, s: seq<Anim>, n: nat, live: seq<Anim>, completed: seq<nat>,
      cancelled: seq<nat>, m: nat)
    requires Descending(s, n) && Books(live, [], completed, cancelled, m) && n <= m && Caught(ended, n, None, live)
    requires Harmless(applies) ==> Grown(s, live)
    ensures forall a :: a in s && a.id in ended ==> a.id in completed || a.id in cancelled || Due(live, a.id)
    ensures Harmless(applies) ==> forall a :: a in s && a.id in ended ==> Due(live, a.id)
  {
    forall a | a in s && a.id in ended
      ensures a.id in completed || a.id in cancelled || Due(live, a.id)
      ensures Harmless(applies) ==> Due(live, a.id)
    {
      InOrder(s, n, PlaceOf(s, a), 0);
      EndedIsDue(a, ended, n, live, completed, cancelled, m);
      if Harmless(applies) {
        GrownIsDue(a, ended, n, s, live);
      }
    }
  }

  lemma AllDone(ended: set<nat>, s: seq<Anim>, live: seq<Anim>, ids: seq<nat>, completed: seq<nat>, gone: seq<nat>,
      cancelled: seq<nat>)
    requires ids <= completed && gone <= cancelled
    requires forall a :: a in live && a.finishing ==> a.id in completed
    requires forall a :: a in s && a.id in ended ==> a.id in ids || a.id in gone || Due(live, a.id)
    ensures forall a :: a in s && a.id in ended ==> a.id in completed || a.id in cancelled
    ensures forall a :: a in s && a.id in ended && Due(live, a.id) ==> a.id in completed
  {
    forall a | a in s && a.id in ended
      ensures a.id in completed || a.id in cancelled
      ensures Due(live, a.id) ==> a.id in completed
    {
      Recorded(ids, completed, gone, cancelled, a.id);
    }
  }

  lemma HalfWayFirst(ended: set<nat>, s: seq<Anim>)
    ensures HalfWay(ended, s, 0, s, CursorAt(s, 0)) && Grown(s, s)
  {
    assert s[0..] == s;
  }

  lemma HalfWayNext(ended: set<nat>, a: seq<Anim>, n: nat, b: seq<Anim>, m: nat)
    requires n < |b| && HalfWay(ended, a, n, b, Some(b[n].id)) && Descending(b, m)
    ensures var index := IndexOf(b, b[n].id);
      HalfWay(ended, a, n + 1, TimedAt(ended, b, index), NextOf(b, index))
  {
    var index := IndexOf(b, b[n].id);
    InOrder(b, m, n, index);
    InOrder(b, m, index, n);
  }

  lemma HalfWayAll(ended: set<nat>, a: seq<Anim>, n: nat, b: seq<Anim>)
    requires HalfWay(ended, a, n, b, None)
    ensures b == Marked(Ended(ended), a)
  {
  }

  lemma Recorded(s: seq<nat>, t: seq<nat>, u: seq<nat>, v: seq<nat>, x: nat)
    requires s <= t && u <= v
    ensures (x in s ==> x in t) && (x in u ==> x in v)
  {
    if x in s {
      InPrefix(s, t, x);
    }
    if x in u {
      InPrefix(u, v, x);
    }
  }

  function PlaceOf(s: seq<Anim>, a: Anim): (k: nat)
    requires a in s
    ensures k < |s| && s[k] == a
  {
    if s[0] == a then 0 else 1 + PlaceOf(s[1..], a)
  }

  class Manager {
    /** Newest first: an animation is inserted at the head of the list. */
    var animations: seq<Anim>
    var dispatching: bool
    var nextId: nat

    /** Animations a running drain has taken off the list and not yet released. */
    ghost var pending: seq<Anim>
    /** The animations whose done callback was called, in that order. */
    ghost var completed: seq<nat>
    ghost var cancelled: seq<nat>
    /** The subject of every animation, by its number, and every operation performed. */
    ghost var started: seq<Subject>
    ghost var log: seq<Op>

    ghost function Now(): World
      reads this
    {
      World(animations, completed, cancelled, started, log)
    }

    ghost predicate Valid()
      reads this
    {
      && Books(animations, pending, completed, cancelled, nextId)
      && Descending(animations, nextId)
      && |started| == nextId
      && (!dispatching ==> pending == [])
    }

    /** Outside of any callback dispatch, no live animation is marked finishing. */
    ghost predicate Settled()
      reads this
    {
      !dispatching ==> Finishing(animations) == []
    }

    ghost function Total(): nat
      reads this
    {
      Load(animations) + Load(pending)
    }

    /** What every operation keeps: nothing recorded is ever taken back. */
    twostate predicate Onward()
      reads this
    {
      && old(completed) <= completed && old(cancelled) <= cancelled && old(nextId) <= nextId
      && pending == old(pending) && dispatching == old(dispatching)
    }

    twostate predicate Idle()
      reads this
    {
      completed == old(completed) && cancelled == old(cancelled) && nextId == old(nextId) && Onward()
    }

    /** The animations chosen are completed in the order of the list, the others stay,
        and nothing else happens. */
    twostate predicate Completes(choice: Choice)
      reads this
    {
      && animations == Others(choice, old(animations))
      && completed == old(completed) + Ids(Chosen(choice, old(animations)))
      && cancelled == old(cancelled) && nextId == old(nextId)
    }

    constructor ()
      ensures Valid() && Settled() && !dispatching && animations == [] && nextId == 0
      ensures Now() == World([], [], [], [], [])
    {
      animations, dispatching, nextId, pending, completed, cancelled := [], false, 0, [], [], [];
      started, log := [], [];
    }

    /** leme_animation_manager_take_finishing. */
    method TakeFinishing() returns (taken: seq<Anim>)
      modifies this`animations
      ensures taken == Finishing(old(animations)) && animations == Running(old(animations))
      ensures Finishing(animations) == []
    {
      taken := [];
      var kept, index := [], 0;
      assert animations[0..] == animations;
      while index < |animations|
        invariant index <= |animations| && animations == old(animations)
        invariant taken + Finishing(animations[index..]) == Finishing(animations)
        invariant kept + Running(animations[index..]) == Running(animations)
      {
        var a := animations[index];
        FinishingNext(animations, index, taken, kept);
        if a.finishing {
          taken := taken + [a];
        } else {
          kept := kept + [a];
        }
        index := index + 1;
      }
      RunningSettled(animations);
      animations := kept;
    }

    method TakePending() returns (taken: seq<Anim>)
      requires Valid() && pending == []
      modifies this`animations, this`pending
      ensures Now() == old(Now()).(live := Running(old(animations)))
      ensures taken == Finishing(old(animations)) && animations == Running(old(animations)) && pending == taken
      ensures Books(animations, pending, completed, cancelled, nextId) && Descending(animations, nextId)
      ensures Finishing(animations) == [] && Total() == old(Total())
    {
      DescendingRunning(animations, nextId);
      BooksTaken(animations, completed, cancelled, nextId);
      LoadFinishing(animations);
      taken := TakeFinishing();
      pending := taken;
    }

    /** leme_animation_manager_drain: everything marked gets its done callback called,
        and so does everything those callbacks mark. */
    method Drain()
      requires Valid()
      modifies this
      ensures Valid() && Settled() && Onward() && Total() <= old(Total())
      ensures dispatching ==> Now() == old(Now()) && Idle()
      ensures !dispatching ==> Now() == Drained(old(Now()))
      ensures !dispatching ==> forall a :: a in old(animations) && a.finishing ==> a.id in completed
      ensures !dispatching && Quiet(Finishing(old(animations))) ==> animations == Running(old(animations))
      ensures !dispatching && Quiet(Finishing(old(animations))) ==>
        completed == old(completed) + Ids(Finishing(old(animations))) && (cancelled, nextId) == old((cancelled, nextId))
      decreases Total(), 3
    {
      if dispatching {
        return;
      }
      dispatching := true;
      ghost var w := Now();
      DrainedStep(w);
      var taken := TakePending();
      while taken != []
        invariant pending == taken && dispatching && Valid()
        invariant Drained(old(Now())) == if taken == [] then Now() else Drained(ReleasedAll(taken, Now()))
        invariant old(completed) <= completed && old(cancelled) <= cancelled && old(nextId) <= nextId
        invariant Total() <= old(Total())
        decreases Total()
      {
        ReleaseAll(taken);
        w := Now();
        DrainedStep(w);
        taken := TakePending();
      }
      dispatching := false;
      DrainedKeeps(old(Now()));
      if Quiet(Finishing(old(animations))) {
        QuietDrained(old(Now()));
      }
    }

    /** The inner loop: every animation taken off the list is released, in order. */
    method ReleaseAll(taken: seq<Anim>)
      requires dispatching && Valid() && pending == taken && taken != []
      modifies this
      ensures dispatching && Valid() && pending == [] && Total() < old(Total())
      ensures old(completed) <= completed && old(cancelled) <= cancelled && old(nextId) <= nextId
      ensures Now() == ReleasedAll(taken, old(Now()))
      decreases Total(), 2
    {
      var left := taken;
      while left != []
        invariant dispatching && Valid() && pending == left
        invariant Total() <= old(Total()) && (left == taken || Total() < old(Total()))
        invariant old(completed) <= completed && old(cancelled) <= cancelled && old(nextId) <= nextId
        invariant ReleasedAll(left, Now()) == ReleasedAll(taken, old(Now()))
        decreases Total()
      {
        var a := left[0];
        assert [a] + left[1..] == left;
        left := left[1..];
        pending := left;
        Release(a);
      }
    }

    /** leme_animation_release: the done callback is called, once. */
    method Release(a: Anim)
      requires dispatching && Books(animations, [a] + pending, completed, cancelled, nextId)
      requires Descending(animations, nextId) && |started| == nextId
      modifies this
      ensures Now() == Released(a, old(Now()))
      ensures Valid() && Onward() && Total() < old(Total()) + SubjectCost(a.subject)
      ensures old(completed) + [a.id] <= completed
      ensures a.subject.done == [] ==> completed == old(completed) + [a.id] && animations == old(animations)
      ensures a.subject.done == [] ==> cancelled == old(cancelled) && nextId == old(nextId)
      decreases Total() + SubjectCost(a.subject), 1
    {
      BooksReleased(animations, [a] + pending, completed, cancelled, nextId);
      HeadAndTail(a, pending);
      completed := completed + [a.id];
      Perform(a.subject.done);
    }

    /** A callback acting on the manager. */
    method Perform(ops: seq<Op>)
      requires Valid() && Settled()
      modifies this
      ensures Valid() && Settled() && Onward() && Total() <= old(Total()) + Costs(ops)
      ensures Now() == if dispatching then InsideAll(ops, old(Now())) else OutsideAll(ops, old(Now()))
      ensures ops == [] ==> Idle() && animations == old(animations)
      decreases Total() + Costs(ops), 5
    {
      if ops != [] {
        Do(ops[0]);
        Perform(ops[1..]);
      }
    }

    method Do(op: Op)
      requires Valid() && Settled()
      modifies this
      ensures Valid() && Settled() && Onward() && Total() < old(Total()) + Cost(op)
      ensures Now() == if dispatching then Inside(op, old(Now())) else Outside(op, old(Now()))
      decreases Total() + Cost(op), 4
    {
      log := log + [op];
      match op {
        case ToFinish(choice) => Finish(choice);
        case ToCancel(data) => Cancel(data);
        case ToRun(subject) => Start(subject);
      }
    }

    /** leme_animation_manager_finish_all, _finish_data and _finish_owner. */
    method Finish(choice: Choice)
      requires Valid() && Settled()
      modifies this
      ensures Valid() && Settled() && Onward() && Total() <= old(Total())
      ensures var marked := old(Now()).(live := Marked(choice, old(animations)));
        Now() == if dispatching then marked else Drained(marked)
      ensures Pointless(choice) ==> Idle() && animations == old(animations)
      ensures dispatching ==> Idle() && animations == Marked(choice, old(animations))
      ensures dispatching ==> Grown(old(animations), animations)
      ensures !dispatching ==> forall a :: a in old(animations) && Meant(choice, a) ==> a.id in completed
      ensures !dispatching && Quiet(Chosen(choice, old(animations))) ==> Completes(choice)
      decreases Total(), 5
    {
      if Pointless(choice) {
        MarkedGrown(choice, animations);
        PointlessMarksNothing(choice, animations);
        assert completed + Ids([]) == completed;
      } else {
        MarkAndDrain(choice);
      }
    }

    method MarkAndDrain(choice: Choice)
      requires Valid() && Settled()
      modifies this
      ensures Valid() && Settled() && Onward() && Total() <= old(Total())
      ensures var marked := old(Now()).(live := Marked(choice, old(animations)));
        Now() == if dispatching then marked else Drained(marked)
      ensures dispatching ==> Idle() && animations == Marked(choice, old(animations))
      ensures dispatching ==> Grown(old(animations), animations)
      ensures !dispatching ==> forall a :: a in old(animations) && Meant(choice, a) ==> a.id in completed
      ensures !dispatching && Quiet(Chosen(choice, old(animations))) ==> Completes(choice)
      decreases Total(), 4
    {
      MarkedGrown(choice, animations);
      Mark(choice);
      LoadMarked(choice, old(animations));
      DescendingMarked(choice, old(animations), nextId);
      BooksMarked(choice, old(animations), pending, completed, cancelled, nextId);
      if !dispatching {
        MarkedSplits(choice, old(animations));
      }
      Drain();
      forall a | a in old(animations) && Meant(choice, a) && !dispatching
        ensures a.id in completed
      {
        MarkedMeansFinishing(choice, old(animations), a);
      }
    }

    method Mark(choice: Choice)
      modifies this`animations
      ensures animations == Marked(choice, old(animations))
    {
      ghost var were := animations;
      var index := 0;
      while index < |animations|
        invariant index <= |animations| && |animations| == |were|
        invariant forall k :: 0 <= k < |were| ==>
          animations[k] == if k < index then Marked(choice, were)[k] else were[k]
      {
        var a := animations[index];
        if Meant(choice, a) {
          animations := animations[index := a.(finishing := true)];
        }
        index := index + 1;
      }
    }

    /** leme_animation_manager_cancel_data: no done callback, and what a drain has taken
        off the list already is out of reach. */
    method Cancel(data: Pointer)
      requires Valid() && Settled()
      modifies this
      ensures Valid() && Settled() && Onward() && Total() <= old(Total())
      ensures Now() == Cancelled(data, old(Now()))
      ensures animations == Others(OfData(data), old(animations))
      ensures cancelled == old(cancelled) + Ids(Chosen(OfData(data), old(animations)))
      ensures completed == old(completed) && nextId == old(nextId)
    {
      ghost var gone := Remove(data);
      ghost var choice, were := OfData(data), old(animations);
      BooksCancelled(choice, were, pending, completed, cancelled, nextId);
      LoadOthers(choice, were);
      DescendingOthers(choice, were, nextId);
      if !dispatching {
        OthersSettled(choice, were);
      }
      cancelled := cancelled + Ids(gone);
    }

    method Remove(data: Pointer) returns (ghost gone: seq<Anim>)
      modifies this`animations
      ensures animations == Others(OfData(data), old(animations))
      ensures gone == Chosen(OfData(data), old(animations))
    {
      ghost var choice := OfData(data);
      gone := [];
      var kept, index := [], 0;
      assert animations[0..] == animations;
      while index < |animations|
        invariant index <= |animations| && unchanged(this)
        invariant gone + Chosen(choice, animations[index..]) == Chosen(choice, animations)
        invariant kept + Others(choice, animations[index..]) == Others(choice, animations)
      {
        var a := animations[index];
        assert animations[index..][0] == a && animations[index..][1..] == animations[index + 1..];
        Associate(gone, [a], Chosen(choice, animations[index + 1..]));
        Associate(kept, [a], Others(choice, animations[index + 1..]));
        if data.Some? && a.subject.data == data {
          gone := gone + [a];
        } else {
          kept := kept + [a];
        }
        index := index + 1;
      }
      assert gone + [] == gone && kept + [] == kept;
      animations := kept;
    }

    /** leme_animation_run. */
    method Start(subject: Subject)
      requires Valid() && Settled()
      modifies this
      ensures Valid() && Settled() && Onward() && Total() <= old(Total()) + SubjectCost(subject)
      ensures var born := Born(subject, old(Now()));
        Now() == if !subject.instant then born
                 else if dispatching then InsideAll(subject.done, born)
                 else OutsideAll(subject.done, born)
      ensures !subject.instant ==> animations == [Anim(old(nextId), subject, false)] + old(animations)
      ensures !subject.instant ==> (completed, cancelled, nextId) == old((completed, cancelled, nextId + 1))
      ensures subject.instant ==> old(completed) + [old(nextId)] <= completed
      ensures subject.instant && subject.done == [] ==> completed == old(completed) + [old(nextId)]
      ensures subject.instant && subject.done == [] ==>
        (animations, cancelled, nextId) == old((animations, cancelled, nextId + 1))
      decreases Total() + SubjectCost(subject), 1
    {
      var id := nextId;
      BooksStarted(Anim(id, subject, false), animations, pending, completed, cancelled, id);
      HeadAndTail(Anim(id, subject, false), animations);
      nextId, started := nextId + 1, started + [subject];
      if subject.instant {
        completed := completed + [id];
        Perform(subject.done);
      } else {
        animations := [Anim(id, subject, false)] + animations;
        assert animations[1..] == old(animations);
      }
    }

    /** The list walk of leme_animation_manager_tick: `ended` are the animations whose
        time is over, `applies` what the apply callbacks do. The walk saves the next
        animation first; if a callback cancels that one, the walk is lost. */
    method Advance(ended: set<nat>, applies: map<nat, seq<Op>>) returns (survived: bool)
      requires Valid() && dispatching
      modifies this
      ensures Valid() && Onward() && Came(old(animations), old(nextId), animations)
      ensures (Now(), survived) == WalkedFrom(CursorAt(old(animations), 0), old(Now()), ended, applies)
      ensures survived ==> Caught(ended, old(nextId), None, animations)
      ensures Sparing(applies, old(animations)) ==> survived
      ensures Harmless(applies) ==> Grown(old(animations), animations)
      ensures Silent(applies) ==> Idle() && animations == Marked(Ended(ended), old(animations))
    {
      ghost var were, n, visited := animations, nextId, 0;
      var cursor := CursorAt(animations, 0);
      CaughtFirst(ended, n, animations);
      HalfWayFirst(ended, animations);
      if Harmless(applies) {
        HarmlessIsSparing(applies, animations);
      }
      while cursor.Some?
        invariant Walking(cursor, were, n, ended) && Onward()
        invariant WalkedFrom(cursor, Now(), ended, applies)
          == WalkedFrom(CursorAt(were, 0), old(Now()), ended, applies)
        invariant Harmless(applies) ==> Grown(were, animations)
        invariant Silent(applies) ==> Idle() && HalfWay(ended, were, visited, animations, cursor)
        decreases if cursor.Some? then cursor.value + 1 else 0
      {
        ghost var s := animations;
        survived, cursor := Step(ended, applies, cursor.value, were, n, visited);
        if Harmless(applies) {
          GrownTransitive(were, s, animations);
        }
        if !survived {
          return;
        }
        visited := visited + 1;
      }
      if Silent(applies) {
        HalfWayAll(ended, were, visited, animations);
      }
      survived := true;
    }

    /** Between two steps of that walk: what was passed is marked if its time is over, and
        the animation that comes next is there. */
    ghost predicate Walking(cursor: Option<nat>, were: seq<Anim>, n: nat, ended: set<nat>)
      reads this
    {
      && Valid() && dispatching && n <= nextId
      && Came(were, n, animations) && Caught(ended, n, cursor, animations)
      && (cursor.Some? ==> cursor.value < n && Holds(animations, cursor.value))
    }

    method Step(ended: set<nat>, applies: map<nat, seq<Op>>, cursor: nat, ghost were: seq<Anim>, ghost n: nat,
        ghost visited: nat) returns (survived: bool, next: Option<nat>)
      requires Walking(Some(cursor), were, n, ended)
      modifies this
      ensures Valid() && Onward() && Came(were, n, animations)
      ensures survived ==> Walking(next, were, n, ended) && (next.Some? ==> next.value < cursor)
      ensures survived <==> SavedNextHolds(old(animations), cursor, animations)
      ensures Now() == VisitedAt(old(Now()), IndexOf(old(animations), cursor), ended, applies)
      ensures next == NextOf(old(animations), IndexOf(old(animations), cursor))
      ensures next.Some? ==> next.value < cursor
      ensures Sparing(applies, were) ==> survived
      ensures Harmless(applies) ==> Grown(old(animations), animations)
      ensures Silent(applies) ==> Idle()
      ensures Silent(applies) && HalfWay(ended, were, visited, old(animations), Some(cursor)) ==>
        HalfWay(ended, were, visited + 1, animations, next)
    {
      var index := IndexOf(animations, cursor);
      ghost var s, m := animations, nextId;
      next := NextOf(animations, index);
      Visit(index, ended, applies);
      StepSound(ended, applies, were, n, s, m, index, animations);
      if Silent(applies) && HalfWay(ended, were, visited, s, Some(cursor)) {
        HalfWayNext(ended, were, visited, s, m);
      }
      survived := next.None? || Holds(animations, next.value);
    }

    /** The body of that walk. */
    method Visit(index: nat, ended: set<nat>, applies: map<nat, seq<Op>>)
      requires Valid() && dispatching && index < |animations|
      modifies this
      ensures Valid() && Onward() && Came(old(animations), old(nextId), animations)
      ensures Stayed(OpsOf(applies, old(animations)[index].id), old(animations), animations)
      ensures Now() == VisitedAt(old(Now()), index, ended, applies)
      ensures Timed(ended, old(animations)[index].id, animations)
      ensures Harmless(applies) ==> Grown(old(animations), animations)
      ensures Silent(applies) ==> Idle() && animations == TimedAt(ended, old(animations), index)
    {
      var a := animations[index];
      VisitOne(animations, nextId, index, OpsOf(applies, a.id), ended);
      if a.finishing {
      } else if a.id in ended {
        BooksMarkedAt(index, animations, pending, completed, cancelled, nextId);
        animations := animations[index := a.(finishing := true)];
      } else if a.id in applies {
        InsideAllChanges(applies[a.id], Now());
        Perform(applies[a.id]);
      }
    }

    /** leme_animation_manager_tick. */
    method Tick(ended: set<nat>, applies: map<nat, seq<Op>>) returns (survived: bool)
      requires Valid() && Settled()
      modifies this
      ensures Valid() && Onward() && (survived ==> Settled())
      ensures dispatching ==> survived && Now() == old(Now()) && Idle()
      ensures !dispatching ==> (Now(), survived) == Ticked(old(Now()), ended, applies)
      ensures dispatching || Sparing(applies, old(animations)) ==> survived
      ensures !dispatching && survived ==>
        forall a :: a in old(animations) && a.id in ended ==> a.id in completed || a.id in cancelled
      ensures !dispatching && Harmless(applies) ==>
        forall a :: a in old(animations) && a.id in ended ==> a.id in completed
      ensures !dispatching && Silent(applies) && Quiet(Chosen(Ended(ended), old(animations))) ==>
        Completes(Ended(ended))
    {
      if dispatching {
        return true;
      }
      if Harmless(applies) {
        HarmlessIsSparing(applies, animations);
      }
      dispatching := true;
      survived := Advance(ended, applies);
      dispatching := false;
      if !survived {
        return;
      }
      ghost var live, ids, gone := animations, completed, cancelled;
      AllDue(applies, ended, old(animations), old(nextId), live, ids, gone, nextId);
      MarkedSplits(Ended(ended), old(animations));
      Drain();
      AllDone(ended, old(animations), live, ids, completed, gone, cancelled);
    }

    method Handle(event: Event) returns (survived: bool)
      requires Valid() && Settled() && !dispatching
      modifies this
      ensures Valid() && Onward() && !dispatching && (survived ==> Settled())
      ensures (Now(), survived) == Handled(event, old(Now()))
      ensures (event.Frame? ==> Harmless(event.applies)) ==> survived
    {
      match event {
        case Call(op) =>
          Do(op);
          survived := true;
        case Frame(ended, applies) =>
          if Harmless(applies) {
            HarmlessIsSparing(applies, animations);
          }
          survived := Tick(ended, applies);
      }
    }

    /** Whatever the event loop calls, in any order, as long as every walk survives:
        afterwards nothing is left marked, and every animation ever started is live,
        completed or cancelled, only one of the three, and its done callback was called
        at most once. */
    method Session(events: seq<Event>) returns (survived: bool)
      requires Valid() && Settled() && !dispatching
      modifies this
      ensures Valid() && Onward() && (survived ==> Settled())
      ensures (Now(), survived) == Played(events, old(Now()))
      ensures (forall k :: 0 <= k < |events| && events[k].Frame? ==> Harmless(events[k].applies)) ==> survived
      ensures forall id: nat :: OneFate(id, Ids(animations), completed, cancelled, nextId)
    {
      var index := 0;
      survived := true;
      assert events[0..] == events;
      while index < |events| && survived
        invariant index <= |events| && Valid() && Onward() && !dispatching && (survived ==> Settled())
        invariant Played(events, old(Now())) == if survived then Played(events[index..], Now()) else (Now(), false)
        invariant survived || exists k :: 0 <= k < index && events[k].Frame? && !Harmless(events[k].applies)
      {
        assert events[index..][0] == events[index] && events[index..][1..] == events[index + 1..];
        survived := Handle(events[index]);
        index := index + 1;
      }
      forall id: nat
        ensures OneFate(id, Ids(animations), completed, cancelled, nextId)
      {
        ExactlyOneFate(animations, pending, completed, cancelled, nextId, id);
      }
    }
  }

  predicate OneFate(id: nat, live: seq<nat>, completed: seq<nat>, cancelled: seq<nat>, n: nat) {
    if id >= n then id !in live && id !in completed && id !in cancelled
    else if id in completed then Tally(completed, id) == 1 && id !in live && id !in cancelled
    else if id in cancelled then Tally(cancelled, id) == 1 && id !in live
    else id in live && Tally(live, id) == 1
  }
}
