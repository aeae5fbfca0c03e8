// Request capacity (internal/server/concurrency.go): a global lease taken before authentication and a per-principal
// count taken after it, both released on the way out.
module Concurrency {
  type Principal = string

  type Counts = map<Principal, int>

  function Get(per: Counts, p: Principal): int {
    if p in per then per[p] else 0
  }

  function TryAcquire(per: Counts, perMax: int, p: Principal): (Counts, bool) {
    if Get(per, p) >= perMax then (per, false) else (per[p := Get(per, p) + 1], true)
  }

  function Released(per: Counts, p: Principal): Counts {
    if Get(per, p) == 1 then per - {p} else per[p := Get(per, p) - 1]
  }

  predicate WithinLimits(per: Counts, perMax: int) {
    forall p :: p in per ==> 0 < per[p] <= perMax
  }

  /** Releasing undoes acquiring, including the removal of an entry that acquiring created. */
  lemma ReleaseUndoesAcquire(per: Counts, perMax: int, p: Principal)
    requires p in per ==> per[p] > 0
    ensures var (after, ok) := TryAcquire(per, perMax, p);
            if ok then Released(after, p) == per else after == per && Get(per, p) >= perMax
  {
    if p !in per {
      assert per[p := 1] - {p} == per;
    } else {
      assert per[p := per[p] + 1][p := per[p]] == per;
    }
  }

  class ConcurrencyLimits {
    const perMax: int
    var per: Counts

    constructor (perMax: int)
      ensures this.perMax == perMax && per == map[]
    {
      this.perMax, this.per := perMax, map[];
    }

    /** No principal beyond its limit, and no entry for one that holds nothing. */
    predicate Valid()
      reads this
    {
      WithinLimits(per, perMax)
    }

    /** Admitted exactly below the limit; then one more is counted, for this principal alone. */
    method Acquire(p: Principal) returns (ok: bool)
      requires Valid()
      modifies this
      ensures Valid()
      ensures ok <==> old(Get(per, p)) < perMax
      ensures Get(per, p) == old(Get(per, p)) + (if ok then 1 else 0)
      ensures forall q :: q != p ==> Get(per, q) == old(Get(per, q))
      ensures per == TryAcquire(old(per), perMax, p).0
    {
      if Get(per, p) >= perMax {
        return false;
      }
      per := per[p := Get(per, p) + 1];
      return true;
    }

    method Release(p: Principal)
      modifies this
      ensures per == Released(old(per), p)
      ensures Get(per, p) == old(Get(per, p)) - 1
      ensures forall q :: q != p ==> Get(per, q) == old(Get(per, q))
      ensures old(Valid()) && old(Get(per, p)) > 0 ==> Valid()
    {
      per := per[p := Get(per, p) - 1];
      if per[p] == 0 {
        per := per - {p};
        assert per == old(per) - {p};
      }
    }
  }

  // ----- the system -----

  /** A request on its way through the interceptors: refused without a lease; leased; known; running, for a principal or
      as a health check; past its handler and still leased; gone. */
  datatype Request = Arrived | Refused | Leased | Known(p: Principal) | Running(p: Principal) | Health | Leaving | Gone

  datatype System = System(max: nat, perMax: int, global: nat, per: Counts, requests: seq<Request>)

  datatype Event =
    | Arrives
    | TakesLease(i: nat)
    | Authenticates(i: nat, p: Principal)
    | Fails(i: nat)
    | PassesHealth(i: nat)
    | Acquires(i: nat)
    | Returns(i: nat)
    | DropsLease(i: nat)

  function Initial(max: nat, perMax: int): System {
    System(max, perMax, 0, map[], [])
  }

  function Put(x: System, i: nat, r: Request): System
    requires i < |x.requests|
  {
    x.(requests := x.requests[i := r])
  }

  /** The atomic steps; one that is not enabled changes nothing. */
  function Next(x: System, e: Event): System {
    match e
    case Arrives => x.(requests := x.requests + [Arrived])
    case TakesLease(i) =>
      if i < |x.requests| && x.requests[i].Arrived? then
        if x.global < x.max then Put(x, i, Leased).(global := x.global + 1) else Put(x, i, Refused)
      else x
    case Authenticates(i, p) =>
      if i < |x.requests| && x.requests[i].Leased? then Put(x, i, Known(p)) else x
    case Fails(i) =>
      if i < |x.requests| && (x.requests[i].Leased? || x.requests[i].Known?) then Put(x, i, Leaving) else x
    case PassesHealth(i) =>
      if i < |x.requests| && x.requests[i].Leased? then Put(x, i, Health) else x
    case Acquires(i) =>
      if i < |x.requests| && x.requests[i].Known? then
        var (per, ok) := TryAcquire(x.per, x.perMax, x.requests[i].p);
        Put(x, i, if ok then Running(x.requests[i].p) else Leaving).(per := per)
      else x
    case Returns(i) =>
      if i < |x.requests| && x.requests[i].Running? then
        Put(x, i, Leaving).(per := Released(x.per, x.requests[i].p))
      else if i < |x.requests| && x.requests[i].Health? then Put(x, i, Leaving)
      else x
    case DropsLease(i) =>
      if i < |x.requests| && x.requests[i].Leaving? && x.global > 0 then Put(x, i, Gone).(global := x.global - 1) else x
  }

  function Exec(x: System, events: seq<Event>): System
    decreases |events|
  {
    if events == [] then x else Exec(Next(x, events[0]), events[1..])
  }

  // ----- counting -----

  /** What is counted: the leases, all running principals' requests, or those of one principal. */
  datatype Measure = Leases | AllRunning | RunningOf(p: Principal)

  predicate HasLease(r: Request) {
    !r.Arrived? && !r.Refused? && !r.Gone?
  }

  function Weight(r: Request, m: Measure): nat {
    match m
    case Leases => if HasLease(r) then 1 else 0
    case AllRunning => if r.Running? then 1 else 0
    case RunningOf(p) => if r == Running(p) then 1 else 0
  }

  function Count(requests: seq<Request>, m: Measure): nat {
    if requests == [] then 0
    else Count(requests[..|requests| - 1], m) + Weight(requests[|requests| - 1], m)
  }

  lemma {:induction false} CountUpdate(requests: seq<Request>, i: nat, r: Request, m: Measure)
    requires i < |requests|
    ensures Count(requests[i := r], m) == Count(requests, m) - Weight(requests[i], m) + Weight(r, m)
  {
    var last := |requests| - 1;
    if i < last {
      CountUpdate(requests[..last], i, r, m);
      assert requests[i := r][..last] == requests[..last][i := r];
    } else {
      assert requests[i := r][..last] == requests[..last];
    }
  }

  lemma CountsUpdate(requests: seq<Request>, i: nat, r: Request)
    requires i < |requests|
    ensures forall m :: Count(requests[i := r], m) == Count(requests, m) - Weight(requests[i], m) + Weight(r, m)
  {
    forall m: Measure
      ensures Count(requests[i := r], m) == Count(requests, m) - Weight(requests[i], m) + Weight(r, m)
    {
      CountUpdate(requests, i, r, m);
    }
  }

  lemma CountsAppend(requests: seq<Request>, r: Request)
    ensures forall m :: Count(requests + [r], m) == Count(requests, m) + Weight(r, m)
  {
    assert (requests + [r])[..|requests|] == requests;
  }

  lemma {:induction false} RunningHaveLeases(requests: seq<Request>)
    ensures Count(requests, AllRunning) <= Count(requests, Leases)
  {
    if requests != [] {
      RunningHaveLeases(requests[..|requests| - 1]);
    }
  }

  /** The sum of the counters over all principals. */
  ghost function Total(per: Counts): int
    decreases |per|
  {
    if per == map[] then 0
    else
      var p :| p in per;
      assert (per - {p}).Keys == per.Keys - {p};
      per[p] + Total(per - {p})
  }

  lemma {:induction false} TotalWithout(per: Counts, p: Principal)
    requires p in per
    ensures Total(per) == per[p] + Total(per - {p})
    decreases |per|
  {
    var q :| q in per && Total(per) == per[q] + Total(per - {q});
    assert (per - {q}).Keys == per.Keys - {q} && (per - {p}).Keys == per.Keys - {p};
    if q != p {
      TotalWithout(per - {q}, p);
      TotalWithout(per - {p}, q);
      assert per - {q} - {p} == per - {p} - {q};
    }
  }

  lemma TotalSet(per: Counts, p: Principal, n: int)
    ensures Total(per[p := n]) == Total(per) - Get(per, p) + n
  {
    TotalWithout(per[p := n], p);
    assert per[p := n] - {p} == per - {p};
    if p in per {
      TotalWithout(per, p);
    } else {
      assert per - {p} == per;
    }
  }

  // ----- invariant -----

  ghost predicate PerOk(x: System) {
    && (forall p :: Get(x.per, p) == Count(x.requests, RunningOf(p)))
    && WithinLimits(x.per, x.perMax)
  }

  predicate GlobalOk(x: System) {
    x.global == Count(x.requests, Leases) <= x.max
  }

  ghost predicate TotalOk(x: System) {
    Total(x.per) == Count(x.requests, AllRunning)
  }

  ghost predicate Inv(x: System) {
    PerOk(x) && GlobalOk(x) && TotalOk(x)
  }

  lemma StepCounts(x: System, e: Event)
    ensures match e
            case Arrives => forall m :: Count(Next(x, e).requests, m) == Count(x.requests, m)
            case _ =>
              e.i < |x.requests| ==>
                forall m :: Count(Next(x, e).requests, m) == Count(x.requests, m) - Weight(x.requests[e.i], m) +
                    Weight(Next(x, e).requests[e.i], m)
  {
    hide Count, TryAcquire, Released;
    if e.Arrives? {
      CountsAppend(x.requests, Arrived);
    } else if e.i < |x.requests| {
      CountsUpdate(x.requests, e.i, Next(x, e).requests[e.i]);
    }
  }

  lemma StepPer(x: System, e: Event)
    requires PerOk(x)
    ensures PerOk(Next(x, e))
  {
    hide Count;
    StepCounts(x, e);
  }

  lemma StepGlobal(x: System, e: Event)
    requires GlobalOk(x)
    ensures GlobalOk(Next(x, e))
  {
    hide Count, TryAcquire, Released;
    StepCounts(x, e);
  }

  lemma StepTotal(x: System, e: Event)
    requires PerOk(x) && TotalOk(x)
    ensures TotalOk(Next(x, e))
  {
    hide Count, Total;
    StepCounts(x, e);
    if e.Acquires? && e.i < |x.requests| && x.requests[e.i].Known? {
      TotalSet(x.per, x.requests[e.i].p, Get(x.per, x.requests[e.i].p) + 1);
    }
    if e.Returns? && e.i < |x.requests| && x.requests[e.i].Running? {
      var p := x.requests[e.i].p;
      TotalSet(x.per, p, Get(x.per, p) - 1);
      if p in x.per {
        TotalWithout(x.per, p);
      }
    }
  }

  lemma StepInv(x: System, e: Event)
    requires Inv(x)
    ensures Inv(Next(x, e))
  {
    hide Next, PerOk, GlobalOk, TotalOk;
    StepPer(x, e);
    StepGlobal(x, e);
    StepTotal(x, e);
  }

  lemma {:induction false} RunInv(x: System, events: seq<Event>)
    requires Inv(x)
    ensures Inv(Exec(x, events))
    ensures Exec(x, events).max == x.max && Exec(x, events).perMax == x.perMax
    decreases |events|
  {
    hide Inv;
    if events != [] {
      StepInv(x, events[0]);
      assert Next(x, events[0]).max == x.max && Next(x, events[0]).perMax == x.perMax;
      hide Next;
      RunInv(Next(x, events[0]), events[1..]);
    }
  }

  /** In every interleaving: a principal's counter is the number of its running requests, within its limit and never
      stored as zero; the counters' sum is within the leases held, and those within the global limit. */
  lemma Accounting(max: nat, perMax: int, events: seq<Event>)
    ensures var x := Exec(Initial(max, perMax), events);
            && (forall p :: Get(x.per, p) == Count(x.requests, RunningOf(p)))
            && (forall p :: p in x.per ==> 0 < x.per[p] <= perMax)
            && Total(x.per) <= x.global == Count(x.requests, Leases) <= max
  {
    assert Inv(Initial(max, perMax));
    RunInv(Initial(max, perMax), events);
    RunningHaveLeases(Exec(Initial(max, perMax), events).requests);
  }

  /** In every interleaving a known request is admitted exactly when fewer than its principal's limit are running. */
  lemma AdmittedIff(max: nat, perMax: int, events: seq<Event>, i: nat)
    requires i < |Exec(Initial(max, perMax), events).requests| && Exec(Initial(max, perMax), events).requests[i].Known?
    ensures var x := Exec(Initial(max, perMax), events);
            var p := x.requests[i].p;
            Next(x, Acquires(i)).requests[i] ==
              if Count(x.requests, RunningOf(p)) < perMax then Running(p) else Leaving
  {
    assert Inv(Initial(max, perMax));
    RunInv(Initial(max, perMax), events);
  }

  /** A lease is given exactly while fewer than the limit are held. */
  lemma LeasedIff(max: nat, perMax: int, events: seq<Event>, i: nat)
    requires i < |Exec(Initial(max, perMax), events).requests| &&
        Exec(Initial(max, perMax), events).requests[i].Arrived?
    ensures var x := Exec(Initial(max, perMax), events);
            Next(x, TakesLease(i)).requests[i] == if Count(x.requests, Leases) < max then Leased else Refused
  {
    assert Inv(Initial(max, perMax));
    RunInv(Initial(max, perMax), events);
  }

  // ----- every request can go -----

  lemma {:induction false} ExecAppend(x: System, a: seq<Event>, b: seq<Event>)
    ensures Exec(x, a + b) == Exec(Exec(x, a), b)
    decreases |a|
  {
    if a == [] {
      assert a + b == b;
    } else {
      assert (a + b)[1..] == a[1..] + b;
      ExecAppend(Next(x, a[0]), a[1..], b);
    }
  }

  function Leave(i: nat): seq<Event> {
    [TakesLease(i), Fails(i), Returns(i), DropsLease(i)]
  }

  predicate Past(r: Request) {
    r.Gone? || r.Refused?
  }

  lemma First(x: System, e: Event, rest: seq<Event>)
    ensures Exec(x, [e] + rest) == Exec(Next(x, e), rest)
  {
    assert ([e] + rest)[1..] == rest;
  }

  lemma Steps(x: System, a: Event, b: Event, c: Event, d: Event)
    ensures Exec(x, [a, b, c, d]) == Next(Next(Next(Next(x, a), b), c), d)
  {
    hide Next, Exec;
    First(x, a, [b, c, d]);
    First(Next(x, a), b, [c, d]);
    First(Next(Next(x, a), b), c, [d]);
    Last(Next(Next(Next(x, a), b), c), d);
    assert [a] + [b, c, d] == [a, b, c, d] && [b] + [c, d] == [b, c, d] && [c] + [d] == [c, d];
  }

  lemma Last(x: System, e: Event)
    ensures Exec(x, [e]) == Next(x, e)
  {
    assert [e][1..] == [];
  }

  lemma {:induction false} LeasePositive(requests: seq<Request>, i: nat)
    requires i < |requests| && HasLease(requests[i])
    ensures Count(requests, Leases) > 0
  {
    if i < |requests| - 1 {
      LeasePositive(requests[..|requests| - 1], i);
    }
  }

  lemma LeavesAlone(x: System, i: nat)
    requires Inv(x) && i < |x.requests|
    ensures var y := Exec(x, Leave(i));
            && |y.requests| == |x.requests| && Past(y.requests[i])
            && forall j :: 0 <= j < |x.requests| && j != i ==> y.requests[j] == x.requests[j]
  {
    hide Exec, TryAcquire, Released, Count;
    Steps(x, TakesLease(i), Fails(i), Returns(i), DropsLease(i));
    var z := Next(Next(Next(x, TakesLease(i)), Fails(i)), Returns(i));
    StepInv(x, TakesLease(i));
    StepInv(Next(x, TakesLease(i)), Fails(i));
    StepInv(Next(Next(x, TakesLease(i)), Fails(i)), Returns(i));
    if z.requests[i].Leaving? {
      LeasePositive(z.requests, i);
    }
  }

  lemma {:induction false} LeaveFrom(x: System, from: nat) returns (events: seq<Event>)
    requires Inv(x) && from <= |x.requests| && forall j :: 0 <= j < from ==> Past(x.requests[j])
    ensures Inv(Exec(x, events)) && forall j :: 0 <= j < |Exec(x, events).requests| ==>
        Past(Exec(x, events).requests[j])
    decreases |x.requests| - from
  {
    hide Next, Inv;
    if from == |x.requests| {
      events := [];
    } else {
      LeavesAlone(x, from);
      RunInv(x, Leave(from));
      var rest := LeaveFrom(Exec(x, Leave(from)), from + 1);
      events := Leave(from) + rest;
      ExecAppend(x, Leave(from), rest);
    }
  }

  lemma {:induction false} NothingCounted(requests: seq<Request>, m: Measure)
    requires forall j :: 0 <= j < |requests| ==> Past(requests[j])
    ensures Count(requests, m) == 0
  {
    if requests != [] {
      NothingCounted(requests[..|requests| - 1], m);
    }
  }

  /** From every reachable state some run lets every request go, and then no lease is held and no counter is left. */
  lemma CanDrain(max: nat, perMax: int, events: seq<Event>) returns (more: seq<Event>)
    ensures var y := Exec(Exec(Initial(max, perMax), events), more); y.global == 0 && y.per == map[]
  {
    assert Inv(Initial(max, perMax));
    RunInv(Initial(max, perMax), events);
    more := LeaveFrom(Exec(Initial(max, perMax), events), 0);
    var y := Exec(Exec(Initial(max, perMax), events), more);
    hide Exec, Next;
    NothingCounted(y.requests, Leases);
    forall p
      ensures p !in y.per
    {
      NothingCounted(y.requests, RunningOf(p));
      assert Get(y.per, p) == 0;
    }
  }

  lemma RunsBelowLimit(x: System, i: nat, p: Principal)
    requires PerOk(x) && i < |x.requests| && x.requests[i].Leased?
    ensures Next(Next(x, Authenticates(i, p)), Acquires(i)).requests[i] ==
            if Count(x.requests, RunningOf(p)) < x.perMax then Running(p) else Leaving
  {
    hide Count;
  }

  /** A leased request that is a known principal's runs if the principal is below its limit, and a health check runs
      without being counted for anybody. */
  lemma CanRun(max: nat, perMax: int, events: seq<Event>, i: nat, p: Principal)
    requires i < |Exec(Initial(max, perMax), events).requests| && Exec(Initial(max, perMax), events).requests[i].Leased?
    ensures var x := Exec(Initial(max, perMax), events);
            var y := Next(Next(x, Authenticates(i, p)), Acquires(i));
            y.requests[i] == if Count(x.requests, RunningOf(p)) < perMax then Running(p) else Leaving
    ensures var x := Exec(Initial(max, perMax), events);
            var y := Next(x, PassesHealth(i));
            y.requests[i] == Health && y.per == x.per && y.global == x.global
  {
    assert Inv(Initial(max, perMax));
    RunInv(Initial(max, perMax), events);
    RunsBelowLimit(Exec(Initial(max, perMax), events), i, p);
    hide Exec, Count, TryAcquire, Released;
  }
}
