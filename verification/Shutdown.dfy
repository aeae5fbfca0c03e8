// Admission and forced shutdown (internal/server/interceptor.go, lifecycle.go). Requests are admitted under a lock that
// the stopping flag does not take; the cancel snapshot is taken under that lock.
module Shutdown {
  /** A request inside `admit`, running, or inside its done function. Holding, Passed and Deleting hold the active lock;
      Passed has loaded the stopping flag and found it clear. */
  datatype Request =
    | Arrived
    | Refused
    | Checked
    | Holding
    | Passed
    | Admitted(id: nat)
    | Leaving(id: nat)
    | Deleting(id: nat)
    | Finished

  datatype Owner = Nobody | Requester(i: nat) | Canceller

  /** The shutdown: not begun, flag set, holding the lock for the snapshot, cancelling, returned. */
  datatype Stop =
    | Serving
    | Marked
    | Locked
    | Cancelling(snapshot: set<nat>, todo: set<nat>)
    | Returned(snapshot: set<nat>, incompleteAudit: bool)

  /** `active` maps admission ids to requests, and `cancelled` holds the requests whose context was cancelled. */
  datatype System = System(
    stopping: bool, owner: Owner, nextID: nat, active: map<nat, nat>,
    requests: seq<Request>, cancelled: set<nat>, stop: Stop)

  const INITIAL := System(false, Nobody, 0, map[], [], {}, Serving)

  datatype Event =
    | Arrives
    | ChecksFlag(i: nat)
    | TakesLock(i: nat)
    | LoadsFlag(i: nat)
    | Inserts(i: nat)
    | Leaves(i: nat)
    | LocksToDelete(i: nat)
    | Deletes(i: nat)
    | MarksStopping
    | CancellerLocks
    | Snapshots
    | Cancels(i: nat)
    | CancelReturns

  predicate At(x: System, i: nat, r: Request) {
    i < |x.requests| && x.requests[i] == r
  }

  function Put(x: System, i: nat, r: Request): System
    requires i < |x.requests|
  {
    x.(requests := x.requests[i := r])
  }

  /** The atomic steps; one that is not enabled changes nothing. */
  function Next(x: System, e: Event): System {
    match e
    case Arrives => x.(requests := x.requests + [Arrived])
    case ChecksFlag(i) =>
      if At(x, i, Arrived) then Put(x, i, if x.stopping then Refused else Checked) else x
    case TakesLock(i) =>
      if At(x, i, Checked) && x.owner.Nobody? then Put(x, i, Holding).(owner := Requester(i)) else x
    case LoadsFlag(i) =>
      if At(x, i, Holding) then
        if x.stopping then Put(x, i, Refused).(owner := Nobody, cancelled := x.cancelled + {i}) else Put(x, i, Passed)
      else x
    case Inserts(i) =>
      if At(x, i, Passed) then
        var id := x.nextID + 1;
        Put(x, i, Admitted(id)).(nextID := id, active := x.active[id := i], owner := Nobody)
      else x
    case Leaves(i) =>
      if i < |x.requests| && x.requests[i].Admitted? then
        Put(x, i, Leaving(x.requests[i].id)).(cancelled := x.cancelled + {i})
      else x
    case LocksToDelete(i) =>
      if i < |x.requests| && x.requests[i].Leaving? && x.owner.Nobody? then
        Put(x, i, Deleting(x.requests[i].id)).(owner := Requester(i))
      else x
    case Deletes(i) =>
      if i < |x.requests| && x.requests[i].Deleting? then
        Put(x, i, Finished).(active := x.active - {x.requests[i].id}, owner := Nobody)
      else x
    case MarksStopping =>
      x.(stopping := true, stop := if x.stop.Serving? then Marked else x.stop)
    case CancellerLocks =>
      if x.stop.Marked? && x.owner.Nobody? then x.(stop := Locked, owner := Canceller) else x
    case Snapshots =>
      if x.stop.Locked? then x.(stop := Cancelling(x.active.Values, x.active.Values), owner := Nobody) else x
    case Cancels(i) =>
      if x.stop.Cancelling? && i in x.stop.todo then
        x.(cancelled := x.cancelled + {i}, stop := x.stop.(todo := x.stop.todo - {i}))
      else x
    case CancelReturns =>
      if x.stop.Cancelling? && x.stop.todo == {} then
        x.(stop := Returned(x.stop.snapshot, x.stop.snapshot != {}))
      else x
  }

  function Exec(x: System, events: seq<Event>): System
    decreases |events|
  {
    if events == [] then x else Exec(Next(x, events[0]), events[1..])
  }

  // ----- invariant -----

  /** Admitted and not yet removed from the active map. */
  predicate InFlight(r: Request) {
    r.Admitted? || r.Leaving? || r.Deleting?
  }

  predicate HoldsLock(r: Request) {
    r.Holding? || r.Passed? || r.Deleting?
  }

  predicate LockOk(x: System) {
    && (forall i :: 0 <= i < |x.requests| ==> (HoldsLock(x.requests[i]) <==> x.owner == Requester(i)))
    && (x.owner.Requester? ==> x.owner.i < |x.requests|)
    && (x.owner.Canceller? <==> x.stop.Locked?)
  }

  /** The active map lists exactly the requests in flight. */
  predicate ActiveOk(x: System) {
    && (forall id :: id in x.active ==>
           id <= x.nextID && x.active[id] < |x.requests| && InFlight(x.requests[x.active[id]]) &&
               x.requests[x.active[id]].id == id)
    && (forall i :: 0 <= i < |x.requests| && InFlight(x.requests[i]) ==>
           x.requests[i].id in x.active && x.active[x.requests[i].id] == i)
  }

  predicate Snapshotted(x: System) {
    x.stop.Cancelling? || x.stop.Returned?
  }

  predicate StopOk(x: System) {
    && (!x.stop.Serving? ==> x.stopping)
    && (x.stop.Locked? || Snapshotted(x) ==> forall i :: 0 <= i < |x.requests| ==> !x.requests[i].Passed?)
    && (Snapshotted(x) ==> forall i :: 0 <= i < |x.requests| && InFlight(x.requests[i]) ==> i in x.stop.snapshot)
    && (x.stop.Cancelling? ==> forall i :: i in x.stop.snapshot ==> i in x.stop.todo || i in x.cancelled)
    && (x.stop.Returned? ==> forall i :: i in x.stop.snapshot ==> i in x.cancelled)
    && (x.stop.Returned? ==> (x.stop.incompleteAudit <==> x.stop.snapshot != {}))
    && (forall i :: 0 <= i < |x.requests| && (x.requests[i].Leaving? || x.requests[i].Deleting?) ==> i in x.cancelled)
  }

  predicate Inv(x: System) {
    LockOk(x) && ActiveOk(x) && StopOk(x)
  }

  lemma StepLock(x: System, e: Event)
    requires LockOk(x)
    ensures LockOk(Next(x, e))
  {
  }

  lemma InsertsActive(x: System, i: nat)
    requires ActiveOk(x)
    ensures ActiveOk(Next(x, Inserts(i)))
  {
  }

  lemma DeletesActive(x: System, i: nat)
    requires ActiveOk(x)
    ensures ActiveOk(Next(x, Deletes(i)))
  {
  }

  lemma ArrivesActive(x: System)
    requires ActiveOk(x)
    ensures ActiveOk(Next(x, Arrives))
  {
  }

  /** The steps that neither insert nor delete leave the map alone, and at most move one request. */
  lemma OtherSteps(x: System, e: Event)
    requires !e.Inserts? && !e.Deletes? && !e.Arrives?
    ensures var y := Next(x, e);
            && y.active == x.active && y.nextID == x.nextID && |y.requests| == |x.requests|
            && (forall i :: 0 <= i < |x.requests| ==>
                y.requests[i] == x.requests[i] || Moves(x.requests[i], y.requests[i]))
  {
    match e
    case ChecksFlag(i) =>
    case TakesLock(i) =>
    case LoadsFlag(i) =>
    case Leaves(i) =>
    case LocksToDelete(i) =>
    case _ =>
  }

  predicate Moves(before: Request, after: Request) {
    InFlight(before) == InFlight(after) && (InFlight(after) ==> after.id == before.id)
  }

  lemma StepActive(x: System, e: Event)
    requires ActiveOk(x)
    ensures ActiveOk(Next(x, e))
  {
    hide Next, ActiveOk;
    match e
    case Inserts(i) => InsertsActive(x, i);
    case Deletes(i) => DeletesActive(x, i);
    case Arrives => ArrivesActive(x);
    case _ =>
      OtherSteps(x, e);
      SameActive(x, Next(x, e));
  }

  lemma SameActive(x: System, y: System)
    requires ActiveOk(x) && y.active == x.active && y.nextID == x.nextID && |y.requests| == |x.requests|
    requires forall i :: 0 <= i < |x.requests| ==> y.requests[i] == x.requests[i] || Moves(x.requests[i], y.requests[i])
    ensures ActiveOk(y)
  {
  }

  lemma SnapshotsKeepsStop(x: System)
    requires Inv(x)
    ensures StopOk(Next(x, Snapshots))
  {
    hide LockOk;
  }

  lemma RequestsKeepStop(x: System, e: Event)
    requires LockOk(x) && StopOk(x)
    requires !e.MarksStopping? && !e.CancellerLocks? && !e.Snapshots? && !e.Cancels? && !e.CancelReturns?
    ensures StopOk(Next(x, e))
  {
  }

  lemma ShutdownKeepsStop(x: System, e: Event)
    requires LockOk(x) && StopOk(x)
    requires e.MarksStopping? || e.CancellerLocks? || e.Cancels? || e.CancelReturns?
    ensures StopOk(Next(x, e))
  {
  }

  lemma StepStop(x: System, e: Event)
    requires Inv(x)
    ensures StopOk(Next(x, e))
  {
    hide Next, LockOk, ActiveOk, StopOk;
    if e.Snapshots? {
      SnapshotsKeepsStop(x);
    } else if e.MarksStopping? || e.CancellerLocks? || e.Cancels? || e.CancelReturns? {
      ShutdownKeepsStop(x, e);
    } else {
      RequestsKeepStop(x, e);
    }
  }

  lemma StepInv(x: System, e: Event)
    requires Inv(x)
    ensures Inv(Next(x, e))
  {
    hide Next, LockOk, ActiveOk, StopOk;
    StepLock(x, e);
    StepActive(x, e);
    StepStop(x, e);
  }

  lemma {:induction false} RunInv(x: System, events: seq<Event>)
    requires Inv(x)
    ensures Inv(Exec(x, events))
    decreases |events|
  {
    hide Next, Inv;
    if events != [] {
      StepInv(x, events[0]);
      RunInv(Next(x, events[0]), events[1..]);
    }
  }

  // ----- what every run guarantees -----

  /** Once the snapshot is taken, no later step admits anything and none changes the snapshot. */
  lemma {:induction false} NoLaterAdmission(x: System, later: seq<Event>)
    requires Inv(x) && Snapshotted(x)
    ensures var y := Exec(x, later);
            y.nextID == x.nextID && Snapshotted(y) && y.stop.snapshot == x.stop.snapshot
    decreases |later|
  {
    if later != [] {
      StepInv(x, later[0]);
      OneLater(x, later[0]);
      hide Next, Inv;
      NoLaterAdmission(Next(x, later[0]), later[1..]);
    }
  }

  lemma OneLater(x: System, e: Event)
    requires Inv(x) && Snapshotted(x)
    ensures var y := Next(x, e);
            y.nextID == x.nextID && Snapshotted(y) && y.stop.snapshot == x.stop.snapshot
  {
  }

  /** In every interleaving, when the forced cancellation has returned, every request ever admitted has finished or had
      its context cancelled, and no later run admits another. */
  lemma NothingEscapes(events: seq<Event>, later: seq<Event>)
    requires Exec(INITIAL, events).stop.Returned?
    ensures var x := Exec(INITIAL, events);
            && (forall i :: 0 <= i < |x.requests| && InFlight(x.requests[i]) ==> i in x.cancelled)
            && (forall i :: 0 <= i < |x.requests| ==> !x.requests[i].Passed?)
            && Exec(x, later).nextID == x.nextID
  {
    assert Inv(INITIAL);
    RunInv(INITIAL, events);
    NoLaterAdmission(Exec(INITIAL, events), later);
    hide Exec, Next;
  }

  /** The snapshot is exactly the requests in flight when it is taken, and the shutdown reports an incomplete audit
      exactly when there were any. */
  lemma IncompleteIffInFlight(events: seq<Event>, later: seq<Event>)
    requires Exec(INITIAL, events).stop.Locked?
    requires Exec(Next(Exec(INITIAL, events), Snapshots), later).stop.Returned?
    ensures var x := Exec(INITIAL, events);
            Exec(Next(x, Snapshots), later).stop.incompleteAudit <==>
              exists i :: 0 <= i < |x.requests| && InFlight(x.requests[i])
  {
    var x := Exec(INITIAL, events);
    assert Inv(INITIAL);
    RunInv(INITIAL, events);
    StepInv(x, Snapshots);
    var y := Next(x, Snapshots);
    assert y.stop.snapshot == x.active.Values;
    NoLaterAdmission(y, later);
    RunInv(y, later);
    var z := Exec(y, later);
    assert z.stop.incompleteAudit <==> x.active.Values != {};
    if x.active.Values != {} {
      var i :| i in x.active.Values;
      assert InFlight(x.requests[i]);
    }
    forall i | 0 <= i < |x.requests| && InFlight(x.requests[i])
      ensures i in x.active.Values
    {
      assert x.active[x.requests[i].id] == i;
    }
  }

  /** The first loop of cancelActive: every active request, in whatever order the map yields them. */
  method Collect(active: map<nat, nat>) returns (cancellations: seq<nat>)
    ensures forall i :: i in cancellations <==> i in active.Values
  {
    cancellations := [];
    var ids := active.Keys;
    while ids != {}
      invariant ids <= active.Keys
      invariant forall id :: id in active && id !in ids ==> active[id] in cancellations
      invariant forall i :: i in cancellations ==> i in active.Values
      decreases |ids|
    {
      var id :| id in ids;
      ids := ids - {id};
      cancellations := cancellations + [active[id]];
    }
  }

  /** The second loop, and the result: whether there was anything to cancel. */
  method CancelActive(active: map<nat, nat>, before: set<nat>) returns (cancelled: set<nat>, any: bool)
    ensures cancelled == before + active.Values
    ensures any <==> active.Values != {}
  {
    var cancellations := Collect(active);
    cancelled := before;
    var k := 0;
    while k < |cancellations|
      invariant 0 <= k <= |cancellations|
      invariant forall i :: i in cancelled <==> i in before || i in cancellations[..k]
    {
      cancelled := cancelled + {cancellations[k]};
      k := k + 1;
    }
    any := |cancellations| != 0;
    assert any ==> cancellations[0] in active.Values;
  }

  // ----- nothing without a cause -----

  /** Only a stopping server refuses, and only done functions, refusals and the snapshot cancel. */
  predicate CauseOk(x: System) {
    && (forall i :: 0 <= i < |x.requests| && x.requests[i].Refused? ==> x.stopping)
    && (forall i :: i in x.cancelled ==>
           i < |x.requests| && (Ended(x.requests[i]) || (Snapshotted(x) && i in x.stop.snapshot)))
    && (Snapshotted(x) ==> forall i :: i in x.stop.snapshot ==> i < |x.requests|)
    && (x.stop.Cancelling? ==> x.stop.todo <= x.stop.snapshot)
  }

  predicate Ended(r: Request) {
    r.Refused? || r.Leaving? || r.Deleting? || r.Finished?
  }

  lemma ActiveExists(x: System)
    requires ActiveOk(x)
    ensures forall i :: i in x.active.Values ==> i < |x.requests|
  {
  }

  lemma ShutdownKeepsCause(x: System, e: Event)
    requires CauseOk(x) && (forall i :: i in x.active.Values ==> i < |x.requests|)
    requires e.MarksStopping? || e.CancellerLocks? || e.Snapshots? || e.Cancels? || e.CancelReturns?
    ensures CauseOk(Next(x, e))
  {
  }

  lemma RequestsKeepCause(x: System, e: Event)
    requires CauseOk(x)
    requires !e.MarksStopping? && !e.CancellerLocks? && !e.Snapshots? && !e.Cancels? && !e.CancelReturns?
    ensures CauseOk(Next(x, e))
  {
    match e
    case LoadsFlag(i) => LoadsFlagKeepsCause(x, i);
    case Leaves(i) => LeavesKeepsCause(x, i);
    case _ =>
  }

  lemma LoadsFlagKeepsCause(x: System, i: nat)
    requires CauseOk(x)
    ensures CauseOk(Next(x, LoadsFlag(i)))
  {
  }

  lemma LeavesKeepsCause(x: System, i: nat)
    requires CauseOk(x)
    ensures CauseOk(Next(x, Leaves(i)))
  {
  }

  lemma StepCause(x: System, e: Event)
    requires CauseOk(x) && ActiveOk(x)
    ensures CauseOk(Next(x, e))
  {
    ActiveExists(x);
    hide CauseOk, Next, ActiveOk;
    if e.MarksStopping? || e.CancellerLocks? || e.Snapshots? || e.Cancels? || e.CancelReturns? {
      ShutdownKeepsCause(x, e);
    } else {
      RequestsKeepCause(x, e);
    }
  }

  lemma {:induction false} RunCause(x: System, events: seq<Event>)
    requires Inv(x) && CauseOk(x)
    ensures CauseOk(Exec(x, events)) && Inv(Exec(x, events))
    decreases |events|
  {
    hide Next, Inv, CauseOk;
    if events != [] {
      assert ActiveOk(x) by { InvActive(x); }
      StepInv(x, events[0]);
      StepCause(x, events[0]);
      RunCause(Next(x, events[0]), events[1..]);
    }
  }

  lemma InvLock(x: System)
    requires Inv(x)
    ensures x.owner.Canceller? <==> x.stop.Locked?
  {
  }

  lemma InvActive(x: System)
    requires Inv(x)
    ensures ActiveOk(x)
  {
  }

  /** In every interleaving a request is refused only by a stopping server, and a running one is cancelled only as part
      of the snapshot. */
  lemma NothingWithoutCause(events: seq<Event>, i: nat)
    requires i < |Exec(INITIAL, events).requests|
    ensures var x := Exec(INITIAL, events);
            && (x.requests[i].Refused? ==> x.stopping)
            && (x.requests[i].Admitted? && i in x.cancelled ==> Snapshotted(x) && i in x.stop.snapshot)
  {
    assert Inv(INITIAL) && CauseOk(INITIAL);
    RunCause(INITIAL, events);
  }

  // ----- every step can be taken -----

  lemma {:induction false} ExecAppend(x: System, a: seq<Event>, b: seq<Event>)
    ensures Exec(x, a + b) == Exec(Exec(x, a), b)
    decreases |a|
  {
    if a == [] {
      assert a + b == b;
    } else {
      assert (a + b)[1..] == a[1..] + b;
      ExecAppend(Next(x, a[0]), a[1..], b);
    }
  }

  lemma First(x: System, e: Event, rest: seq<Event>)
    ensures Exec(x, [e] + rest) == Exec(Next(x, e), rest)
  {
    assert ([e] + rest)[1..] == rest;
  }

  lemma Two(x: System, e: Event, f: Event)
    ensures Exec(x, [e, f]) == Next(Next(x, e), f)
  {
    hide Next;
    First(x, e, [f]);
    First(Next(x, e), f, []);
    assert [e] + [f] == [e, f] && [f] + [] == [f];
  }

  /** Whoever holds the lock can let it go. */
  lemma FreeLock(x: System) returns (events: seq<Event>)
    requires LockOk(x)
    ensures var y := Exec(x, events);
            && y.owner.Nobody? && y.stopping == x.stopping && |y.requests| == |x.requests|
            && (forall i :: 0 <= i < |x.requests| && !HoldsLock(x.requests[i]) ==> y.requests[i] == x.requests[i])
            && (y.stop == x.stop || (x.stop.Locked? && y.stop.Cancelling?))
  {
    match x.owner
    case Nobody => events := [];
    case Canceller =>
      events := [Snapshots];
      First(x, Snapshots, []);
      assert [Snapshots] + [] == [Snapshots];
    case Requester(i) =>
      events := [LoadsFlag(i), Inserts(i), Deletes(i)];
      First(x, LoadsFlag(i), [Inserts(i), Deletes(i)]);
      Two(Next(x, LoadsFlag(i)), Inserts(i), Deletes(i));
      assert [LoadsFlag(i)] + [Inserts(i), Deletes(i)] == events;
      assert HoldsLock(x.requests[i]);
  }

  /** While the server is not stopping, every request that has arrived can be admitted. */
  lemma CanAdmit(events: seq<Event>, i: nat) returns (more: seq<Event>)
    requires i < |Exec(INITIAL, events).requests| && Exec(INITIAL, events).requests[i].Arrived?
    requires !Exec(INITIAL, events).stopping
    ensures var y := Exec(Exec(INITIAL, events), more); i < |y.requests| && y.requests[i].Admitted?
  {
    assert Inv(INITIAL);
    RunInv(INITIAL, events);
    var x := Exec(INITIAL, events);
    var free := FreeLock(x);
    var y := Exec(x, free);
    var steps := [ChecksFlag(i), TakesLock(i)] + [LoadsFlag(i), Inserts(i)];
    ExecAppend(y, [ChecksFlag(i), TakesLock(i)], [LoadsFlag(i), Inserts(i)]);
    Two(y, ChecksFlag(i), TakesLock(i));
    Two(Exec(y, [ChecksFlag(i), TakesLock(i)]), LoadsFlag(i), Inserts(i));
    Admits(y, i);
    more := free + steps;
    ExecAppend(x, free, steps);
  }

  lemma Admits(y: System, i: nat)
    requires i < |y.requests| && y.requests[i].Arrived? && !y.stopping && y.owner.Nobody?
    ensures var z := Next(Next(Next(Next(y, ChecksFlag(i)), TakesLock(i)), LoadsFlag(i)), Inserts(i));
            i < |z.requests| && z.requests[i].Admitted?
  {
  }

  lemma {:induction false} CancelRest(x: System) returns (events: seq<Event>)
    requires x.stop.Cancelling?
    ensures Exec(x, events).stop == Cancelling(x.stop.snapshot, {})
    decreases |x.stop.todo|
  {
    if x.stop.todo == {} {
      events := [];
    } else {
      var i :| i in x.stop.todo;
      var y := Next(x, Cancels(i));
      assert y.stop == Cancelling(x.stop.snapshot, x.stop.todo - {i});
      var rest := CancelRest(y);
      events := [Cancels(i)] + rest;
      First(x, Cancels(i), rest);
    }
  }

  lemma Opens(x: System)
    requires x.owner.Nobody? && !x.stop.Serving? && !x.stop.Locked?
    ensures var y := Next(Next(x, CancellerLocks), Snapshots);
            y.stop.Cancelling? || y.stop.Returned?
  {
  }

  lemma Returns(x: System)
    requires x.stop.Returned? || (x.stop.Cancelling? && x.stop.todo == {})
    ensures Next(x, CancelReturns).stop.Returned?
  {
  }

  /** Once the server is stopping, the forced cancellation can always come to its return. */
  lemma CanReturn(events: seq<Event>) returns (more: seq<Event>)
    requires !Exec(INITIAL, events).stop.Serving?
    ensures Exec(Exec(INITIAL, events), more).stop.Returned?
  {
    assert Inv(INITIAL);
    RunInv(INITIAL, events);
    var x := Exec(INITIAL, events);
    var free := FreeLock(x);
    RunInv(x, free);
    var y := Exec(x, free);
    InvLock(y);
    var opening := [CancellerLocks, Snapshots];
    Two(y, CancellerLocks, Snapshots);
    Opens(y);
    var z := Exec(y, opening);
    hide Next;
    var rest: seq<Event> := [];
    if z.stop.Cancelling? {
      rest := CancelRest(z);
    }
    var last := [CancelReturns];
    First(Exec(z, rest), CancelReturns, []);
    Returns(Exec(z, rest));
    assert [CancelReturns] + [] == last;
    more := free + opening + rest + last;
    ExecAppend(x, free, opening);
    ExecAppend(x, free + opening, rest);
    ExecAppend(x, free + opening + rest, last);
  }

  /** Every running request can finish, whatever the shutdown does. */
  lemma CanFinish(events: seq<Event>, i: nat) returns (more: seq<Event>)
    requires i < |Exec(INITIAL, events).requests| && Exec(INITIAL, events).requests[i].Admitted?
    ensures var y := Exec(Exec(INITIAL, events), more); i < |y.requests| && y.requests[i].Finished?
  {
    assert Inv(INITIAL);
    RunInv(INITIAL, events);
    var x := Exec(INITIAL, events);
    var y := Next(x, Leaves(i));
    StepInv(x, Leaves(i));
    First(x, Leaves(i), []);
    var free := FreeLock(y);
    var steps := [LocksToDelete(i), Deletes(i)];
    Two(Exec(y, free), LocksToDelete(i), Deletes(i));
    more := [Leaves(i)] + (free + steps);
    First(x, Leaves(i), free + steps);
    ExecAppend(y, free, steps);
  }
}
