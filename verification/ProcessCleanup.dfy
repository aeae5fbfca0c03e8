/** Starting, terminating, reaping and cleaning up provider processes, in every interleaving. */
module ProcessCleanup {
  import opened Text

  // ----- authority over one process group -----

  datatype Reason = InputLimit | OutputLimit | DeadlineExceeded | Canceled

  /** What reaches the kernel: SIGKILL to the group, and the reaping of leader and group. */
  datatype Signal = Kill | Reap

  datatype Authority = Authority(terminated: bool, retired: bool, reason: Option<Reason>, sent: seq<Signal>)

  const FRESH := Authority(false, false, None, [])

  /** terminate: the first caller kills and names the reason; later ones can only record an output overflow. */
  function Terminate(a: Authority, reason: Option<Reason>): (Authority, bool) {
    if a.retired || a.terminated then
      (if a.reason.None? && reason == Some(OutputLimit) then a.(reason := reason) else a, false)
    else (a.(terminated := true, reason := reason, sent := a.sent + [Kill]), true)
  }

  /** retireAndReap, which holds the lock from the kill to the retirement. */
  function Retire(a: Authority): Authority {
    a.(terminated := true, retired := true, sent := (if a.terminated then a.sent else a.sent + [Kill]) + [Reap])
  }

  class ProcessAuthority {
    var terminated: bool
    var retired: bool
    var reason: Option<Reason>
    ghost var sent: seq<Signal>

    ghost function View(): Authority
      reads this
    {
      Authority(terminated, retired, reason, sent)
    }

    constructor ()
      ensures View() == FRESH
    {
      terminated, retired, reason, sent := false, false, None, [];
    }

    /** Whoever comes first kills the group, and only it does; a reason, once there, stays. */
    method TerminateGroup(why: Option<Reason>) returns (initiated: bool)
      requires AuthorityOk(View())
      modifies this
      ensures AuthorityOk(View()) && terminated && retired == old(retired)
      ensures initiated <==> !old(terminated)
      ensures sent == old(sent) + (if initiated then [Kill] else [])
      ensures old(reason).Some? ==> reason == old(reason)
      ensures initiated ==> reason == why
      ensures !initiated && old(reason).None? ==> reason == if why == Some(OutputLimit) then why else None
      ensures View() == Terminate(old(View()), why).0
    {
      if retired || terminated {
        if reason.None? && why == Some(OutputLimit) {
          reason := Some(OutputLimit);
        }
        return false;
      }
      terminated := true;
      reason := why;
      sent := sent + [Kill];
      return true;
    }

    /** Whether or not anybody terminated the group before, it ends killed once and then reaped. */
    method RetireAndReap()
      requires AuthorityOk(View()) && !retired
      modifies this
      ensures AuthorityOk(View()) && retired && sent == [Kill, Reap] && reason == old(reason)
      ensures View() == Retire(old(View()))
    {
      if !terminated {
        terminated := true;
        sent := sent + [Kill];
      }
      sent := sent + [Reap];
      retired := true;
    }
  }

  /** Nothing, one kill, or one kill and then the reaping: never a signal to a group that may no longer be ours. */
  predicate AuthorityOk(a: Authority) {
    && (!a.terminated ==> a.sent == [] && !a.retired && a.reason.None?)
    && (a.terminated && !a.retired ==> a.sent == [Kill])
    && (a.retired ==> a.terminated && a.sent == [Kill, Reap])
  }

  // ----- the start barrier -----

  type Pid = nat

  datatype Barrier = Barrier(closing: bool, starting: nat, registry: set<Pid>)

  function BeginStart(b: Barrier): (Barrier, bool) {
    if b.closing then (b, false) else (b.(starting := b.starting + 1), true)
  }

  class Runner {
    var closing: bool
    var starting: nat
    var processes: set<Pid>

    ghost function View(): Barrier
      reads this
    {
      Barrier(closing, starting, processes)
    }

    constructor ()
      ensures View() == Barrier(false, 0, {})
    {
      closing, starting, processes := false, 0, {};
    }

    method Begin() returns (admitted: bool)
      modifies this
      ensures admitted <==> !old(closing)
      ensures starting == old(starting) + (if admitted then 1 else 0)
      ensures closing == old(closing) && processes == old(processes)
      ensures View() == BeginStart(old(View())).0
    {
      if closing {
        return false;
      }
      starting := starting + 1;
      return true;
    }

    method Register(p: Pid)
      modifies this
      ensures View() == old(View()).(registry := old(processes) + {p})
    {
      processes := processes + {p};
    }

    method Forget(p: Pid)
      modifies this
      ensures View() == old(View()).(registry := old(processes) - {p})
    {
      processes := processes - {p};
    }
  }

  // ----- the system -----

  /** One call of Start: refused, or admitted until its deferred Done. */
  datatype Starter = Refused | Admitted | Spawned(p: Pid) | Registered(p: Pid) | Finished

  /** The once-only wait of a process. */
  datatype Wait = NotWaiting | Waiting | Reaped | Over

  datatype Process = Process(authority: Authority, observed: bool, wait: Wait)

  /** One call of Cleanup, from its first section on. */
  datatype Cleanup =
    | Closed
    | Drained
    | Stopping(snapshot: set<Pid>, todo: set<Pid>)
    | Joining(snapshot: set<Pid>)
    | Returned(snapshot: set<Pid>)

  datatype System = System(barrier: Barrier, starters: seq<Starter>, procs: seq<Process>, cleanups: seq<Cleanup>)

  const INITIAL := System(Barrier(false, 0, {}), [], [], [])

  datatype Event =
    | CallStart
    | StartFails(s: nat)
    | Spawn(s: nat)
    | Register(s: nat)
    | StartReturns(s: nat)
    | Terminates(p: Pid, why: Option<Reason>)
    | ExitObserved(p: Pid)
    | CallWait(p: Pid)
    | RetireStep(p: Pid)
    | ForgetStep(p: Pid)
    | CleanupCloses
    | CleanupDrains(c: nat)
    | CleanupSnapshots(c: nat)
    | CleanupStops(c: nat, p: Pid)
    | CleanupJoins(c: nat)
    | CleanupReturns(c: nat)

  predicate InFlight(st: Starter) {
    st.Admitted? || st.Spawned? || st.Registered?
  }

  /** The atomic steps, each a section under one lock; a step that is not enabled changes nothing. */
  function Next(x: System, e: Event): System {
    match e
    case CallStart =>
      var (b, admitted) := BeginStart(x.barrier);
      x.(barrier := b, starters := x.starters + [if admitted then Admitted else Refused])
    case StartFails(s) =>
      if s < |x.starters| && x.starters[s].Admitted? then Leave(x, s) else x
    case Spawn(s) =>
      if s < |x.starters| && x.starters[s].Admitted? then
        x.(starters := x.starters[s := Spawned(|x.procs|)], procs := x.procs + [Process(FRESH, false, NotWaiting)])
      else x
    case Register(s) =>
      if s < |x.starters| && x.starters[s].Spawned? then
        var p := x.starters[s].p;
        x.(starters := x.starters[s := Registered(p)], barrier := x.barrier.(registry := x.barrier.registry + {p}))
      else x
    case StartReturns(s) =>
      if s < |x.starters| && x.starters[s].Registered? then Leave(x, s) else x
    case Terminates(p, why) =>
      if p < |x.procs| then TerminateAt(x, p, why) else x
    case ExitObserved(p) =>
      // The monitor has terminated the group before it reports the exit.
      if p < |x.procs| && x.procs[p].authority.terminated then
        x.(procs := x.procs[p := x.procs[p].(observed := true)])
      else x
    case CallWait(p) =>
      if p in x.barrier.registry && p < |x.procs| && x.procs[p].wait.NotWaiting? then
        x.(procs := x.procs[p := x.procs[p].(wait := Waiting)])
      else x
    case RetireStep(p) =>
      if p < |x.procs| && x.procs[p].wait.Waiting? && x.procs[p].observed then
        x.(procs := x.procs[p := x.procs[p].(wait := Reaped, authority := Retire(x.procs[p].authority))])
      else x
    case ForgetStep(p) =>
      if p < |x.procs| && x.procs[p].wait.Reaped? then
        x.(procs := x.procs[p := x.procs[p].(wait := Over)],
           barrier := x.barrier.(registry := x.barrier.registry - {p}))
      else x
    case CleanupCloses =>
      x.(cleanups := x.cleanups + [Closed], barrier := x.barrier.(closing := true))
    case CleanupDrains(c) =>
      if c < |x.cleanups| && x.cleanups[c].Closed? && x.barrier.starting == 0 then PutCleanup(x, c, Drained) else x
    case CleanupSnapshots(c) =>
      if c < |x.cleanups| && x.cleanups[c].Drained? then
        PutCleanup(x, c, Stopping(x.barrier.registry, x.barrier.registry))
      else x
    case CleanupStops(c, p) =>
      if c < |x.cleanups| && x.cleanups[c].Stopping? && p in x.cleanups[c].todo && p < |x.procs| then
        PutCleanup(TerminateAt(x, p, Some(Canceled)), c, x.cleanups[c].(todo := x.cleanups[c].todo - {p}))
      else x
    case CleanupJoins(c) =>
      if c < |x.cleanups| && x.cleanups[c].Stopping? && x.cleanups[c].todo == {} then
        PutCleanup(x, c, Joining(x.cleanups[c].snapshot))
      else x
    case CleanupReturns(c) =>
      if c < |x.cleanups| && x.cleanups[c].Joining? && AllOver(x, x.cleanups[c].snapshot) then
        PutCleanup(x, c, Returned(x.cleanups[c].snapshot))
      else x
  }

  predicate AllOver(x: System, pids: set<Pid>) {
    forall p :: p in pids ==> p < |x.procs| && x.procs[p].wait.Over?
  }

  function PutCleanup(x: System, c: nat, k: Cleanup): System
    requires c < |x.cleanups|
  {
    x.(cleanups := x.cleanups[c := k])
  }

  /** A Start call ends: its deferred Done takes it off the barrier. */
  function Leave(x: System, s: nat): System
    requires s < |x.starters|
  {
    x.(starters := x.starters[s := Finished],
       barrier := x.barrier.(starting := if x.barrier.starting > 0 then x.barrier.starting - 1 else 0))
  }

  function TerminateAt(x: System, p: Pid, why: Option<Reason>): System
    requires p < |x.procs|
  {
    x.(procs := x.procs[p := x.procs[p].(authority := Terminate(x.procs[p].authority, why).0)])
  }

  function Exec(x: System, events: seq<Event>): System
    decreases |events|
  {
    if events == [] then x else Exec(Next(x, events[0]), events[1..])
  }

  // ----- invariant -----

  function CountInFlight(starters: seq<Starter>): nat {
    if starters == [] then 0
    else CountInFlight(starters[..|starters| - 1]) + (if InFlight(starters[|starters| - 1]) then 1 else 0)
  }

  lemma {:induction false} CountUpdate(starters: seq<Starter>, s: nat, next: Starter)
    requires s < |starters|
    ensures CountInFlight(starters[s := next]) ==
            CountInFlight(starters) - (if InFlight(starters[s]) then 1 else 0) + (if InFlight(next) then 1 else 0)
  {
    var last := |starters| - 1;
    if s < last {
      CountUpdate(starters[..last], s, next);
      assert starters[s := next][..last] == starters[..last][s := next];
    } else {
      assert starters[s := next][..last] == starters[..last];
    }
  }

  lemma {:induction false} CountZero(starters: seq<Starter>, s: nat)
    requires s < |starters| && CountInFlight(starters) == 0
    ensures !InFlight(starters[s])
  {
    if s < |starters| - 1 {
      CountZero(starters[..|starters| - 1], s);
    }
  }

  lemma CountAppend(starters: seq<Starter>, next: Starter)
    ensures CountInFlight(starters + [next]) == CountInFlight(starters) + (if InFlight(next) then 1 else 0)
  {
    assert (starters + [next])[..|starters|] == starters;
  }

  /** No call of Start is under way, and none will be admitted. */
  predicate Quiet(b: Barrier) {
    b.closing && b.starting == 0
  }

  predicate ProcessOk(q: Process) {
    && AuthorityOk(q.authority)
    && (q.observed ==> q.authority.terminated)
    && (q.authority.retired <==> q.wait.Reaped? || q.wait.Over?)
  }

  predicate StartersOk(x: System) {
    && x.barrier.starting == CountInFlight(x.starters)
    && forall s :: 0 <= s < |x.starters| && (x.starters[s].Spawned? || x.starters[s].Registered?) ==>
           x.starters[s].p < |x.procs|
  }

  /** A started process is registered, or its wait is over, or the call that started it is still on the barrier. */
  predicate Tracked(x: System, p: Pid)
    requires p < |x.procs|
  {
    || p in x.barrier.registry
    || x.procs[p].wait.Over?
    || exists s :: 0 <= s < |x.starters| && x.starters[s] == Spawned(p)
  }

  predicate HasSnapshot(k: Cleanup) {
    k.Stopping? || k.Joining? || k.Returned?
  }

  /** Past the barrier nothing starts; past the snapshot every process ever started is in it or over. */
  predicate CleanupOk(x: System, k: Cleanup) {
    && x.barrier.closing
    && (!k.Closed? ==> Quiet(x.barrier))
    && (HasSnapshot(k) ==> forall p :: 0 <= p < |x.procs| ==> p in k.snapshot || x.procs[p].wait.Over?)
    && (k.Returned? ==> AllOver(x, k.snapshot))
  }

  /** Only processes that exist are registered, and every start that was refused was refused for closing. */
  predicate BoundsOk(x: System) {
    && (forall p :: p in x.barrier.registry ==> p < |x.procs|)
    && (forall c, p :: 0 <= c < |x.cleanups| && HasSnapshot(x.cleanups[c]) && p in x.cleanups[c].snapshot ==>
          p < |x.procs|)
    && (forall c, p :: 0 <= c < |x.cleanups| && x.cleanups[c].Stopping? && p in x.cleanups[c].todo ==>
          p in x.cleanups[c].snapshot)
    && (forall s :: 0 <= s < |x.starters| && x.starters[s].Refused? ==> x.barrier.closing)
  }

  ghost predicate Inv(x: System) {
    && BoundsOk(x)
    && (forall p :: 0 <= p < |x.procs| ==> ProcessOk(x.procs[p]))
    && StartersOk(x)
    && (forall c :: 0 <= c < |x.cleanups| ==> CleanupOk(x, x.cleanups[c]))
    && (forall p :: 0 <= p < |x.procs| ==> Tracked(x, p))
  }

  lemma StepStarters(x: System, e: Event)
    requires StartersOk(x)
    ensures StartersOk(Next(x, e))
  {
    hide CountInFlight, Terminate, Retire;
    match e
    case CallStart =>
      CountAppend(x.starters, Admitted);
      CountAppend(x.starters, Refused);
    case StartFails(s) =>
      if s < |x.starters| && x.starters[s].Admitted? {
        CountUpdate(x.starters, s, Finished);
      }
    case Spawn(s) =>
      if s < |x.starters| && x.starters[s].Admitted? {
        CountUpdate(x.starters, s, Spawned(|x.procs|));
      }
    case Register(s) =>
      if s < |x.starters| && x.starters[s].Spawned? {
        CountUpdate(x.starters, s, Registered(x.starters[s].p));
      }
    case StartReturns(s) =>
      if s < |x.starters| && x.starters[s].Registered? {
        CountUpdate(x.starters, s, Finished);
      }
    case _ =>
  }

  lemma StepBounds(x: System, e: Event)
    requires BoundsOk(x) && StartersOk(x)
    ensures BoundsOk(Next(x, e))
  {
    hide Terminate, Retire, CountInFlight;
    match e
    case CleanupCloses =>
    case CleanupSnapshots(_) =>
    case CleanupStops(_, _) =>
    case _ =>
  }

  lemma StepTracked(x: System, e: Event, p: Pid)
    requires p < |x.procs| ==> Tracked(x, p)
    requires p < |Next(x, e).procs|
    ensures Tracked(Next(x, e), p)
  {
    hide Terminate, Retire;
    var y := Next(x, e);
    if p >= |x.procs| {
      assert y.starters[e.s] == Spawned(p);
    } else if p !in x.barrier.registry && !x.procs[p].wait.Over? {
      var s :| 0 <= s < |x.starters| && x.starters[s] == Spawned(p);
      assert y.starters[s] == Spawned(p) || p in y.barrier.registry;
    }
  }

  /** On a quiet barrier every process is registered or over, and none can be added. */
  lemma QuietBarrier(x: System)
    requires StartersOk(x) && Quiet(x.barrier)
    ensures forall i :: 0 <= i < |x.starters| ==> !InFlight(x.starters[i])
    ensures forall p :: 0 <= p < |x.procs| && Tracked(x, p) ==> p in x.barrier.registry || x.procs[p].wait.Over?
  {
    forall i | 0 <= i < |x.starters|
      ensures !InFlight(x.starters[i])
    {
      CountZero(x.starters, i);
    }
  }

  lemma StepQuiet(x: System, e: Event)
    requires StartersOk(x) && Quiet(x.barrier)
    ensures Quiet(Next(x, e).barrier) && |Next(x, e).procs| == |x.procs|
  {
    hide Terminate, Retire;
    QuietBarrier(x);
  }

  lemma StepOver(x: System, e: Event)
    ensures x.barrier.closing ==> Next(x, e).barrier.closing
    ensures |x.procs| <= |Next(x, e).procs|
    ensures forall p :: 0 <= p < |x.procs| && x.procs[p].wait.Over? ==> Next(x, e).procs[p].wait.Over?
  {
    hide Terminate, Retire;
  }

  /** What holds of a cleanup that does not move keeps holding, whatever else moves. */
  lemma StepIdle(x: System, e: Event, k: Cleanup)
    requires StartersOk(x) && CleanupOk(x, k)
    ensures CleanupOk(Next(x, e), k)
  {
    hide Next, StartersOk;
    StepOver(x, e);
    if !k.Closed? {
      StepQuiet(x, e);
    }
  }

  /** The moving cleanup: each of its steps establishes what the next state promises. */
  lemma StepMoving(x: System, e: Event, c: nat)
    requires Inv(x) && c < |Next(x, e).cleanups|
    requires c < |x.cleanups| ==> Next(x, e).cleanups[c] != x.cleanups[c]
    ensures CleanupOk(Next(x, e), Next(x, e).cleanups[c])
  {
    hide Terminate, Retire, Tracked;
    if Quiet(x.barrier) {
      QuietBarrier(x);
    }
  }

  lemma StepCleanup(x: System, e: Event, c: nat)
    requires Inv(x) && c < |Next(x, e).cleanups|
    ensures CleanupOk(Next(x, e), Next(x, e).cleanups[c])
  {
    hide Next, CleanupOk, StartersOk, ProcessOk, Tracked;
    if c < |x.cleanups| && Next(x, e).cleanups[c] == x.cleanups[c] {
      StepIdle(x, e, x.cleanups[c]);
    } else {
      StepMoving(x, e, c);
    }
  }

  lemma StepProcesses(x: System, e: Event, p: Pid)
    requires forall q :: 0 <= q < |x.procs| ==> ProcessOk(x.procs[q])
    requires p < |Next(x, e).procs|
    ensures ProcessOk(Next(x, e).procs[p])
  {
  }

  lemma StepInv(x: System, e: Event)
    requires Inv(x)
    ensures Inv(Next(x, e))
  {
    hide Next, ProcessOk, StartersOk, CleanupOk, Tracked, BoundsOk;
    StepStarters(x, e);
    StepBounds(x, e);
    forall c | 0 <= c < |Next(x, e).cleanups|
      ensures CleanupOk(Next(x, e), Next(x, e).cleanups[c])
    {
      StepCleanup(x, e, c);
    }
    forall p | 0 <= p < |Next(x, e).procs|
      ensures ProcessOk(Next(x, e).procs[p]) && Tracked(Next(x, e), p)
    {
      StepProcesses(x, e, p);
      StepTracked(x, e, p);
    }
  }

  lemma {:induction false} RunInv(x: System, events: seq<Event>)
    requires Inv(x)
    ensures Inv(Exec(x, events))
    decreases |events|
  {
    hide Next, Inv;
    if events != [] {
      StepInv(x, events[0]);
      RunInv(Next(x, events[0]), events[1..]);
    }
  }

  // ----- what every run guarantees -----

  /** In every interleaving of any number of Cleanup calls, when one of them has returned every process ever started has
      been killed once and then reaped, its wait is over, and no process will ever be started again. */
  lemma CleanupBarrier(events: seq<Event>, later: seq<Event>, c: nat)
    requires c < |Exec(INITIAL, events).cleanups| && Exec(INITIAL, events).cleanups[c].Returned?
    ensures var x := Exec(INITIAL, events);
            && (forall p :: 0 <= p < |x.procs| ==> x.procs[p].wait.Over? && x.procs[p].authority.sent == [Kill, Reap])
            && |Exec(x, later).procs| == |x.procs|
  {
    assert Inv(INITIAL);
    RunInv(INITIAL, events);
    assert CleanupOk(Exec(INITIAL, events), Exec(INITIAL, events).cleanups[c]);
    NothingLater(Exec(INITIAL, events), later);
  }

  /** Once the runner is closing and no start is under way, no run starts another process, and none is admitted. */
  lemma {:induction false} NothingLater(x: System, later: seq<Event>)
    requires Inv(x) && Quiet(x.barrier)
    ensures |Exec(x, later).procs| == |x.procs| && Quiet(Exec(x, later).barrier)
    decreases |later|
  {
    if later != [] {
      StepInv(x, later[0]);
      StepQuiet(x, later[0]);
      hide Next, Inv;
      NothingLater(Next(x, later[0]), later[1..]);
    }
  }

  /** In every interleaving each process group gets at most one SIGKILL, before it is reaped and never after. */
  lemma KilledOnceBeforeReaping(events: seq<Event>, p: Pid)
    requires p < |Exec(INITIAL, events).procs|
    ensures Exec(INITIAL, events).procs[p].authority.sent in {[], [Kill], [Kill, Reap]}
  {
    assert Inv(INITIAL);
    RunInv(INITIAL, events);
    assert ProcessOk(Exec(INITIAL, events).procs[p]);
  }

  /** Once a termination reason is set, no later step changes it. */
  lemma {:induction false} ReasonIsFinal(x: System, later: seq<Event>, p: Pid)
    requires Inv(x) && p < |x.procs| && x.procs[p].authority.reason.Some?
    ensures p < |Exec(x, later).procs| && Exec(x, later).procs[p].authority.reason == x.procs[p].authority.reason
    decreases |later|
  {
    if later != [] {
      StepInv(x, later[0]);
      assert ProcessOk(x.procs[p]);
      ReasonStep(x, later[0], p);
      hide Next, Inv;
      ReasonIsFinal(Next(x, later[0]), later[1..], p);
    }
  }

  lemma ReasonStep(x: System, e: Event, p: Pid)
    requires p < |x.procs| && AuthorityOk(x.procs[p].authority) && x.procs[p].authority.reason.Some?
    ensures p < |Next(x, e).procs| && Next(x, e).procs[p].authority.reason == x.procs[p].authority.reason
  {
  }

  /** A start is refused only once a Cleanup has begun. */
  lemma RefusedOnlyWhenClosing(events: seq<Event>, s: nat)
    requires s < |Exec(INITIAL, events).starters| && Exec(INITIAL, events).starters[s].Refused?
    ensures Exec(INITIAL, events).barrier.closing
  {
    assert Inv(INITIAL);
    RunInv(INITIAL, events);
  }

  // ----- every Cleanup can return -----

  lemma {:induction false} ExecAppend(x: System, a: seq<Event>, b: seq<Event>)
    ensures Exec(x, a + b) == Exec(Exec(x, a), b)
    decreases |a|
  {
    if a == [] {
      assert a + b == b;
    } else {
      assert (a + b)[1..] == a[1..] + b;
      ExecAppend(Next(x, a[0]), a[1..], b);
    }
  }

  lemma First(x: System, e: Event, rest: seq<Event>)
    ensures Exec(x, [e] + rest) == Exec(Next(x, e), rest)
  {
    assert ([e] + rest)[1..] == rest;
  }

  lemma One(x: System, e: Event)
    ensures Exec(x, [e]) == Next(x, e)
  {
    assert [e][1..] == [];
  }

  lemma Two(x: System, e: Event, f: Event)
    ensures Exec(x, [e, f]) == Next(Next(x, e), f)
  {
    hide Next;
    First(x, e, [f]);
    One(Next(x, e), f);
    assert [e] + [f] == [e, f];
  }

  lemma {:induction false} SomeInFlight(starters: seq<Starter>) returns (s: nat)
    requires CountInFlight(starters) > 0
    ensures s < |starters| && InFlight(starters[s])
  {
    var last := |starters| - 1;
    if InFlight(starters[last]) {
      s := last;
    } else {
      s := SomeInFlight(starters[..last]);
    }
  }

  /** One call of Start can end. */
  lemma EndStart(x: System, s: nat) returns (events: seq<Event>)
    requires Inv(x) && s < |x.starters| && InFlight(x.starters[s])
    ensures var y := Exec(x, events);
            y.barrier.starting == x.barrier.starting - 1 && y.cleanups == x.cleanups &&
                y.barrier.closing == x.barrier.closing
  {
    hide CountInFlight, Tracked, ProcessOk, CleanupOk, BoundsOk;
    CountPositive(x.starters, s);
    match x.starters[s]
    case Admitted =>
      events := [StartFails(s)];
      One(x, StartFails(s));
    case Spawned(_) =>
      events := [Register(s), StartReturns(s)];
      Two(x, Register(s), StartReturns(s));
    case Registered(_) =>
      events := [StartReturns(s)];
      One(x, StartReturns(s));
  }

  lemma {:induction false} CountPositive(starters: seq<Starter>, s: nat)
    requires s < |starters| && InFlight(starters[s])
    ensures CountInFlight(starters) > 0
  {
    if s < |starters| - 1 {
      CountPositive(starters[..|starters| - 1], s);
    }
  }

  /** All calls of Start can end. */
  lemma {:induction false} EndStarts(x: System) returns (events: seq<Event>)
    requires Inv(x)
    ensures var y := Exec(x, events);
            y.barrier.starting == 0 && y.cleanups == x.cleanups && y.barrier.closing == x.barrier.closing
    decreases x.barrier.starting
  {
    hide Next, Tracked, ProcessOk, CleanupOk, BoundsOk;
    if x.barrier.starting == 0 {
      events := [];
    } else {
      var s := SomeInFlight(x.starters);
      var first := EndStart(x, s);
      RunInv(x, first);
      var rest := EndStarts(Exec(x, first));
      events := first + rest;
      ExecAppend(x, first, rest);
    }
  }

  function Wind(p: Pid): seq<Event> {
    [Terminates(p, None), ExitObserved(p), CallWait(p), RetireStep(p), ForgetStep(p)]
  }

  lemma Five(x: System, a: Event, b: Event, c: Event, d: Event, e: Event)
    ensures Exec(x, [a, b, c, d, e]) == Next(Next(Next(Next(Next(x, a), b), c), d), e)
  {
    hide Next, Exec;
    First(x, a, [b, c, d, e]);
    First(Next(x, a), b, [c, d, e]);
    First(Next(Next(x, a), b), c, [d, e]);
    Two(Next(Next(Next(x, a), b), c), d, e);
    assert [a] + [b, c, d, e] == [a, b, c, d, e] && [b] + [c, d, e] == [b, c, d, e] && [c] + [d, e] == [c, d, e];
  }

  predicate SameBut(x: System, y: System, p: Pid) {
    && |y.procs| == |x.procs| && y.cleanups == x.cleanups && y.barrier.closing == x.barrier.closing
    && y.barrier.starting == x.barrier.starting
    && forall q :: 0 <= q < |x.procs| && q != p ==> y.procs[q] == x.procs[q]
  }

  /** The group is killed, its exit observed, and somebody waits for it. */
  lemma WindHead(x: System, p: Pid)
    requires p < |x.procs| && ProcessOk(x.procs[p]) && (p in x.barrier.registry || x.procs[p].wait.Over?)
    ensures var y := Next(Next(Next(x, Terminates(p, None)), ExitObserved(p)), CallWait(p));
            && SameBut(x, y, p) && y.procs[p].observed && !y.procs[p].wait.NotWaiting?
            && (x.procs[p].wait.Over? ==> y.procs[p].wait.Over?)
  {
    var x1 := Next(x, Terminates(p, None));
    assert x1.procs[p].authority.terminated && x1.procs[p].wait == x.procs[p].wait && x1.barrier == x.barrier;
    var x2 := Next(x1, ExitObserved(p));
    assert x2.procs[p].observed && x2.procs[p].wait == x.procs[p].wait && x2.barrier == x.barrier;
  }

  lemma WindTail(x: System, p: Pid)
    requires p < |x.procs| && x.procs[p].observed && !x.procs[p].wait.NotWaiting?
    ensures var y := Next(Next(x, RetireStep(p)), ForgetStep(p)); SameBut(x, y, p) && y.procs[p].wait.Over?
  {
    hide Retire;
  }

  /** On a quiet barrier one process can be wound up, and no other is disturbed. */
  lemma WindUp(x: System, p: Pid)
    requires Inv(x) && Quiet(x.barrier) && p < |x.procs|
    ensures var y := Exec(x, Wind(p)); SameBut(x, y, p) && y.procs[p].wait.Over?
  {
    assert Tracked(x, p);
    QuietBarrier(x);
    assert ProcessOk(x.procs[p]);
    hide CountInFlight, Tracked, CleanupOk, BoundsOk, StartersOk, Exec, Next, ProcessOk;
    Five(x, Terminates(p, None), ExitObserved(p), CallWait(p), RetireStep(p), ForgetStep(p));
    WindHead(x, p);
    WindTail(Next(Next(Next(x, Terminates(p, None)), ExitObserved(p)), CallWait(p)), p);
  }

  /** All of them can. */
  lemma {:induction false} WindUpFrom(x: System, from: nat) returns (events: seq<Event>)
    requires Inv(x) && Quiet(x.barrier) && from <= |x.procs|
    requires forall q :: 0 <= q < from ==> x.procs[q].wait.Over?
    ensures var y := Exec(x, events);
            && y.cleanups == x.cleanups && Quiet(y.barrier)
            && forall q :: 0 <= q < |y.procs| ==> y.procs[q].wait.Over?
    decreases |x.procs| - from
  {
    hide Next, Inv;
    if from == |x.procs| {
      events := [];
    } else {
      WindUp(x, from);
      RunInv(x, Wind(from));
      var rest := WindUpFrom(Exec(x, Wind(from)), from + 1);
      events := Wind(from) + rest;
      ExecAppend(x, Wind(from), rest);
    }
  }

  /** The stops that are left can be made. */
  lemma {:induction false} StopRest(x: System, c: nat) returns (events: seq<Event>)
    requires Inv(x) && c < |x.cleanups| && x.cleanups[c].Stopping?
    requires forall q :: 0 <= q < |x.procs| ==> x.procs[q].wait.Over?
    ensures var y := Exec(x, events);
            && |y.cleanups| == |x.cleanups| && y.cleanups[c] == Stopping(x.cleanups[c].snapshot, {})
            && forall q :: 0 <= q < |y.procs| ==> y.procs[q].wait.Over?
    decreases |x.cleanups[c].todo|
  {
    var todo := x.cleanups[c].todo;
    if todo == {} {
      events := [];
    } else {
      var p :| p in todo;
      var e := CleanupStops(c, p);
      StopOne(x, c, p);
      StepInv(x, e);
      hide Next, Inv;
      var rest := StopRest(Next(x, e), c);
      events := [e] + rest;
      assert events[1..] == rest;
    }
  }

  lemma StopOne(x: System, c: nat, p: Pid)
    requires BoundsOk(x) && c < |x.cleanups| && x.cleanups[c].Stopping? && p in x.cleanups[c].todo
    ensures var y := Next(x, CleanupStops(c, p));
            && |y.cleanups| == |x.cleanups| && |y.procs| == |x.procs|
            && y.cleanups[c] == Stopping(x.cleanups[c].snapshot, x.cleanups[c].todo - {p})
            && forall q :: 0 <= q < |x.procs| ==> y.procs[q].wait == x.procs[q].wait
  {
    hide Terminate;
  }

  /** From every reachable state, some run brings every begun Cleanup to its return. */
  lemma CanReturn(events: seq<Event>, c: nat) returns (more: seq<Event>)
    requires c < |Exec(INITIAL, events).cleanups|
    ensures c < |Exec(INITIAL, events + more).cleanups| && Exec(INITIAL, events + more).cleanups[c].Returned?
  {
    assert Inv(INITIAL);
    RunInv(INITIAL, events);
    var x := Exec(INITIAL, events);
    assert CleanupOk(x, x.cleanups[c]);
    var ends := EndStarts(x);
    RunInv(x, ends);
    var y := Exec(x, ends);
    var winds := WindUpFrom(y, 0);
    RunInv(y, winds);
    var z := Exec(y, winds);
    var finish := Finish(z, c);
    more := ends + winds + finish;
    ExecAppend(x, ends, winds);
    ExecAppend(x, ends + winds, finish);
    ExecAppend(INITIAL, events, more);
  }

  /** With every process over, a Cleanup call has nothing to wait for. */
  lemma Finish(x: System, c: nat) returns (events: seq<Event>)
    requires Inv(x) && Quiet(x.barrier) && c < |x.cleanups|
    requires forall q :: 0 <= q < |x.procs| ==> x.procs[q].wait.Over?
    ensures c < |Exec(x, events).cleanups| && Exec(x, events).cleanups[c].Returned?
  {
    var opening := [CleanupDrains(c), CleanupSnapshots(c)];
    var y := Exec(x, opening);
    Two(x, CleanupDrains(c), CleanupSnapshots(c));
    Opens(x, c);
    RunInv(x, opening);
    var stops: seq<Event> := [];
    if y.cleanups[c].Stopping? {
      stops := StopRest(y, c);
    }
    RunInv(y, stops);
    var z := Exec(y, stops);
    var closing := [CleanupJoins(c), CleanupReturns(c)];
    Two(z, CleanupJoins(c), CleanupReturns(c));
    Closes(z, c);
    events := opening + stops + closing;
    ExecAppend(x, opening, stops);
    ExecAppend(x, opening + stops, closing);
  }

  lemma Opens(x: System, c: nat)
    requires Quiet(x.barrier) && c < |x.cleanups|
    ensures var y := Next(Next(x, CleanupDrains(c)), CleanupSnapshots(c));
            |y.cleanups| == |x.cleanups| && y.procs == x.procs && HasSnapshot(y.cleanups[c])
  {
  }

  lemma Closes(x: System, c: nat)
    requires BoundsOk(x) && c < |x.cleanups| && HasSnapshot(x.cleanups[c])
    requires x.cleanups[c].Stopping? ==> x.cleanups[c].todo == {}
    requires forall q :: 0 <= q < |x.procs| ==> x.procs[q].wait.Over?
    ensures var y := Next(Next(x, CleanupJoins(c)), CleanupReturns(c));
            |y.cleanups| == |x.cleanups| && y.cleanups[c].Returned?
  {
    assert AllOver(x, x.cleanups[c].snapshot);
    assert Next(x, CleanupJoins(c)).procs == x.procs;
  }
}
