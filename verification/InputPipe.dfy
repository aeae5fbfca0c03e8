// The budgeted provider input of internal/runner/input.go: concurrent Write and Close calls, the once-only configured
// prefix, and one cumulative byte budget.
module InputPipe {
  import opened Text

  /** `reserve`: a write is admitted when it fits what is left of the budget. */
  function TryReserve(reserved: nat, limit: nat, size: nat): (nat, bool) {
    if size > limit - reserved then (reserved, false) else (reserved + size, true)
  }

  class Budget {
    const limit: nat
    var reserved: nat

    constructor (limit: nat, prefix: Bytes)
      requires |prefix| <= limit
      ensures this.limit == limit && reserved == |prefix|
    {
      this.limit, this.reserved := limit, |prefix|;
    }

    method Reserve(size: nat) returns (ok: bool)
      modifies this
      ensures (reserved, ok) == TryReserve(old(reserved), limit, size)
      ensures old(reserved) <= limit ==> reserved <= limit
    {
      if size > limit - reserved {
        return false;
      }
      reserved := reserved + size;
      return true;
    }
  }

  /** Where a Write call stands: refused; past the budget; past the prefix; holding the write lock with its raw write
      under way; its raw write over; returned. */
  datatype Stage = Entered | Refused | Reserved | Cleared | Writing | Wrote | Returned

  /** One Write call: `n` bytes of `value` have reached the pipe, and `err` is what it reports. */
  datatype Call = Call(value: Bytes, stage: Stage, n: nat, err: bool)

  datatype Prefix = NotSent | Sending | Sent(err: bool) | Counted(err: bool)

  /** `order` lists the calls in the order in which they took the write lock; `sent` counts the prefix bytes written. */
  datatype System = System(
    prefix: Bytes, limit: nat,
    reserved: nat, count: nat, pipe: Bytes,
    state: Prefix, sent: nat, calls: seq<Call>, order: seq<nat>, locked: bool,
    closing: bool, closed: bool)

  /** The command was checked first: its configured input fits its limit. */
  function Initial(prefix: Bytes, limit: nat): System
    requires |prefix| <= limit
  {
    System(prefix, limit, |prefix|, 0, "", NotSent, 0, [], [], false, false, false)
  }

  datatype Event =
    | Enters(value: Bytes)
    | Reserves(i: nat)
    | CloseEnters
    | PrefixStarts
    | PrefixAdvances(k: nat)
    | PrefixEnds(err: bool)
    | PrefixCounts
    | SeesPrefix(i: nat)
    | Locks(i: nat)
    | Advances(i: nat, k: nat)
    | RawEnds(i: nat, err: bool)
    | Counts(i: nat)
    | CloseEnds

  predicate At(x: System, i: nat, stage: Stage) {
    i < |x.calls| && x.calls[i].stage == stage
  }

  function Put(x: System, i: nat, c: Call): System
    requires i < |x.calls|
  {
    x.(calls := x.calls[i := c])
  }

  /** The atomic steps; one that is not enabled changes nothing. A raw write moves its bytes in pieces, and reports an
      error whenever it stops short. */
  function Next(x: System, e: Event): System {
    match e
    case Enters(value) => x.(calls := x.calls + [Call(value, Entered, 0, false)])
    case Reserves(i) =>
      if At(x, i, Entered) then
        var (reserved, ok) := TryReserve(x.reserved, x.limit, |x.calls[i].value|);
        Put(x, i, x.calls[i].(stage := if ok then Stage.Reserved else Refused, err := !ok)).(reserved := reserved)
      else x
    case CloseEnters => x.(closing := true)
    case PrefixStarts =>
      // Whoever comes first: the process monitor, a Write past its reservation, or a Close.
      if x.state.NotSent? then x.(state := Sending) else x
    case PrefixAdvances(k) =>
      if x.state.Sending? && k <= |x.prefix| - x.sent then
        x.(pipe := x.pipe + x.prefix[x.sent..x.sent + k], sent := x.sent + k)
      else x
    case PrefixEnds(err) =>
      if x.state.Sending? && (x.sent < |x.prefix| ==> err) then x.(state := Sent(err)) else x
    case PrefixCounts =>
      if x.state.Sent? then x.(state := Prefix.Counted(x.state.err), count := x.count + x.sent) else x
    case SeesPrefix(i) =>
      if At(x, i, Stage.Reserved) && x.state.Counted? then
        Put(x, i, if x.state.err then x.calls[i].(stage := Returned, err := true) else x.calls[i].(stage := Cleared))
      else x
    case Locks(i) =>
      if At(x, i, Cleared) && !x.locked then
        Put(x, i, x.calls[i].(stage := Writing)).(order := x.order + [i], locked := true)
      else x
    case Advances(i, k) =>
      if At(x, i, Writing) && k <= |x.calls[i].value| - x.calls[i].n then
        var c := x.calls[i];
        Put(x, i, c.(n := c.n + k)).(pipe := x.pipe + c.value[c.n..c.n + k])
      else x
    case RawEnds(i, err) =>
      if At(x, i, Writing) && (x.calls[i].n < |x.calls[i].value| ==> err) then
        Put(x, i, x.calls[i].(stage := Wrote, err := err))
      else x
    case Counts(i) =>
      // The count is added and the lock released by the same deferred return.
      if At(x, i, Wrote) then
        Put(x, i, x.calls[i].(stage := Returned)).(count := x.count + x.calls[i].n, locked := false)
      else x
    case CloseEnds =>
      if x.closing && x.state.Counted? then x.(closed := true) else x
  }

  function Exec(x: System, events: seq<Event>): System
    decreases |events|
  {
    if events == [] then x else Exec(Next(x, events[0]), events[1..])
  }

  // ----- sums over calls -----

  datatype Measure = Budgeted | Written | Accounted

  predicate Admitted(c: Call) {
    !c.stage.Entered? && !c.stage.Refused?
  }

  function Weight(c: Call, m: Measure): nat {
    match m
    case Budgeted => if Admitted(c) then |c.value| else 0
    case Written => c.n
    case Accounted => if c.stage.Returned? then c.n else 0
  }

  function Sum(calls: seq<Call>, m: Measure): nat {
    if calls == [] then 0 else Sum(calls[..|calls| - 1], m) + Weight(calls[|calls| - 1], m)
  }

  lemma {:induction false} SumUpdate(calls: seq<Call>, i: nat, c: Call, m: Measure)
    requires i < |calls|
    ensures Sum(calls[i := c], m) == Sum(calls, m) - Weight(calls[i], m) + Weight(c, m)
  {
    var last := |calls| - 1;
    if i < last {
      SumUpdate(calls[..last], i, c, m);
      assert calls[i := c][..last] == calls[..last][i := c];
    } else {
      assert calls[i := c][..last] == calls[..last];
    }
  }

  lemma SumAppend(calls: seq<Call>, c: Call, m: Measure)
    ensures Sum(calls + [c], m) == Sum(calls, m) + Weight(c, m)
  {
    assert (calls + [c])[..|calls|] == calls;
  }

  predicate CallOk(c: Call) {
    && c.n <= |c.value|
    && (!Admitted(c) ==> c.n == 0)
    && (c.stage.Reserved? || c.stage.Cleared? ==> c.n == 0)
    && (c.stage.Wrote? || c.stage.Returned? ==> c.err || c.n == |c.value|)
  }

  lemma {:induction false} SumOrder(calls: seq<Call>)
    requires forall i :: 0 <= i < |calls| ==> CallOk(calls[i])
    ensures Sum(calls, Accounted) <= Sum(calls, Written) <= Sum(calls, Budgeted)
  {
    if calls != [] {
      SumOrder(calls[..|calls| - 1]);
    }
  }

  // ----- invariant -----

  /** What the calls, in lock order, have put on the pipe. */
  function Stream(calls: seq<Call>, order: seq<nat>): Bytes {
    if order == [] then ""
    else
      var i := order[|order| - 1];
      Stream(calls, order[..|order| - 1]) +
      (if i < |calls| && calls[i].n <= |calls[i].value| then calls[i].value[..calls[i].n] else "")
  }

  predicate CallsOk(x: System) {
    forall i :: 0 <= i < |x.calls| ==> CallOk(x.calls[i])
  }

  predicate Accounts(x: System) {
    && x.reserved == |x.prefix| + Sum(x.calls, Budgeted) <= x.limit
    && |x.pipe| == x.sent + Sum(x.calls, Written)
    && x.count == (if x.state.Counted? then x.sent else 0) + Sum(x.calls, Accounted)
  }

  predicate PastPrefix(c: Call) {
    c.stage.Cleared? || c.stage.Writing? || c.stage.Wrote? || c.n > 0
  }

  /** No call is past the prefix before the prefix is complete. */
  predicate PrefixOk(x: System) {
    && x.sent <= |x.prefix|
    && (x.state.NotSent? ==> x.sent == 0)
    && (x.state.Sent? || x.state.Counted? ==> x.state.err || x.sent == |x.prefix|)
    && (forall i :: 0 <= i < |x.calls| && PastPrefix(x.calls[i]) ==> x.state == Prefix.Counted(false))
    && (x.order != [] ==> x.state == Prefix.Counted(false))
  }

  predicate Busy(c: Call) {
    c.stage.Writing? || c.stage.Wrote?
  }

  /** Only the last call in lock order can hold the lock, and no call takes it twice. */
  predicate LockOk(x: System) {
    && (forall k :: 0 <= k < |x.order| ==>
           x.order[k] < |x.calls| && (Busy(x.calls[x.order[k]]) || x.calls[x.order[k]].stage.Returned?))
    && (forall k, l :: 0 <= k < l < |x.order| ==> x.order[k] != x.order[l])
    && (forall i :: 0 <= i < |x.calls| && Busy(x.calls[i]) ==> x.locked && x.order != [] && x.order[|x.order| - 1] == i)
    && (x.locked ==> x.order != [] && x.order[|x.order| - 1] < |x.calls| && Busy(x.calls[x.order[|x.order| - 1]]))
  }

  predicate PipeOk(x: System) {
    x.sent <= |x.prefix| && x.pipe == x.prefix[..x.sent] + Stream(x.calls, x.order)
  }

  predicate Inv(x: System) {
    CallsOk(x) && Accounts(x) && PrefixOk(x) && LockOk(x) && PipeOk(x)
  }

  lemma StepCalls(x: System, e: Event)
    requires CallsOk(x)
    ensures CallsOk(Next(x, e))
  {
  }

  /** What updating one call does to the three sums. */
  lemma SumsUpdate(calls: seq<Call>, i: nat, c: Call)
    requires i < |calls|
    ensures forall m :: Sum(calls[i := c], m) == Sum(calls, m) - Weight(calls[i], m) + Weight(c, m)
  {
    forall m: Measure
      ensures Sum(calls[i := c], m) == Sum(calls, m) - Weight(calls[i], m) + Weight(c, m)
    {
      SumUpdate(calls, i, c, m);
    }
  }

  lemma ReservesAccounts(x: System, i: nat)
    requires CallsOk(x) && Accounts(x)
    ensures Accounts(Next(x, Reserves(i)))
  {
    hide Sum;
    if i < |x.calls| {
      SumsUpdate(x.calls, i, Next(x, Reserves(i)).calls[i]);
    }
  }

  lemma EntersAccounts(x: System, value: Bytes)
    requires Accounts(x)
    ensures Accounts(Next(x, Enters(value)))
  {
    hide Sum;
    SumAppend(x.calls, Call(value, Entered, 0, false), Budgeted);
    SumAppend(x.calls, Call(value, Entered, 0, false), Written);
    SumAppend(x.calls, Call(value, Entered, 0, false), Accounted);
  }

  /** The steps of an admitted call: what it writes and what it counts move together with its stage. */
  lemma CallAccounts(x: System, e: Event)
    requires CallsOk(x) && Accounts(x)
    requires e.SeesPrefix? || e.Locks? || e.Advances? || e.RawEnds? || e.Counts?
    ensures Accounts(Next(x, e))
  {
    hide Sum, TryReserve;
    if e.i < |x.calls| {
      SumsUpdate(x.calls, e.i, Next(x, e).calls[e.i]);
    }
    match e
    case SeesPrefix(_) =>
    case Advances(_, _) =>
    case Counts(_) =>
    case _ =>
  }

  lemma StepAccounts(x: System, e: Event)
    requires CallsOk(x) && Accounts(x)
    ensures Accounts(Next(x, e))
  {
    hide Sum, TryReserve, CallsOk;
    match e
    case Enters(value) => EntersAccounts(x, value);
    case Reserves(i) => ReservesAccounts(x, i);
    case SeesPrefix(_) => CallAccounts(x, e);
    case Locks(_) => CallAccounts(x, e);
    case Advances(_, _) => CallAccounts(x, e);
    case RawEnds(_, _) => CallAccounts(x, e);
    case Counts(_) => CallAccounts(x, e);
    case _ =>
  }

  lemma StepPrefix(x: System, e: Event)
    requires PrefixOk(x) && CallsOk(x)
    ensures PrefixOk(Next(x, e))
  {
    hide TryReserve;
  }

  lemma LocksKeepsLock(x: System, i: nat)
    requires LockOk(x)
    ensures LockOk(Next(x, Locks(i)))
  {
    hide TryReserve;
  }

  lemma CountsKeepsLock(x: System, i: nat)
    requires LockOk(x)
    ensures LockOk(Next(x, Counts(i)))
  {
    hide TryReserve;
  }

  /** A call that neither takes nor gives up the lock. */
  lemma MoveKeepsLock(x: System, i: nat, c: Call)
    requires LockOk(x) && i < |x.calls| && Busy(c) == Busy(x.calls[i])
    requires x.calls[i].stage.Returned? ==> c.stage.Returned?
    ensures LockOk(Put(x, i, c))
  {
  }

  lemma StepLock(x: System, e: Event)
    requires LockOk(x)
    ensures LockOk(Next(x, e))
  {
    hide TryReserve, LockOk;
    match e
    case Enters(value) => EntersKeepsLock(x, value);
    case Locks(i) => LocksKeepsLock(x, i);
    case Counts(i) => CountsKeepsLock(x, i);
    case Reserves(i) =>
      if At(x, i, Entered) {
        MoveKeepsLock(x, i, Next(x, e).calls[i]);
        SameLock(Put(x, i, Next(x, e).calls[i]), Next(x, e));
      }
    case SeesPrefix(i) =>
      if At(x, i, Stage.Reserved) && x.state.Counted? {
        MoveKeepsLock(x, i, Next(x, e).calls[i]);
      }
    case Advances(i, k) =>
      if At(x, i, Writing) && k <= |x.calls[i].value| - x.calls[i].n {
        MoveKeepsLock(x, i, Next(x, e).calls[i]);
        SameLock(Put(x, i, Next(x, e).calls[i]), Next(x, e));
      }
    case RawEnds(i, err) =>
      if At(x, i, Writing) && (x.calls[i].n < |x.calls[i].value| ==> err) {
        MoveKeepsLock(x, i, Next(x, e).calls[i]);
      }
    case _ => SameLock(x, Next(x, e));
  }

  lemma SameLock(x: System, y: System)
    requires LockOk(x) && y.calls == x.calls && y.order == x.order && y.locked == x.locked
    ensures LockOk(y)
  {
  }

  lemma EntersKeepsLock(x: System, value: Bytes)
    requires LockOk(x)
    ensures LockOk(Next(x, Enters(value)))
  {
  }

  lemma {:induction false} StreamSame(calls: seq<Call>, more: seq<Call>, order: seq<nat>)
    requires |calls| <= |more|
    requires forall k :: 0 <= k < |order| ==>
        order[k] < |calls| && more[order[k]].value == calls[order[k]].value && more[order[k]].n == calls[order[k]].n
    ensures Stream(more, order) == Stream(calls, order)
  {
    if order != [] {
      StreamSame(calls, more, order[..|order| - 1]);
    }
  }

  lemma StreamAppend(calls: seq<Call>, order: seq<nat>, i: nat)
    requires i < |calls| && calls[i].n == 0
    ensures Stream(calls, order + [i]) == Stream(calls, order)
  {
    assert (order + [i])[..|order|] == order;
    assert calls[i].value[..0] == "";
  }

  predicate Holds(c: Call, written: Bytes) {
    c.n <= |c.value| && c.value[..c.n] == written
  }

  /** The call that took the lock last moves its next bytes to the end of the stream. */
  lemma StreamAdvance(calls: seq<Call>, next: seq<Call>, order: seq<nat>, written: Bytes, piece: Bytes)
    requires order != [] && order[|order| - 1] < |calls| == |next|
    requires Stream(next, order[..|order| - 1]) == Stream(calls, order[..|order| - 1])
    requires Holds(calls[order[|order| - 1]], written) && Holds(next[order[|order| - 1]], written + piece)
    ensures Stream(next, order) == Stream(calls, order) + piece
  {
    hide Stream;
    StreamLast(calls, order);
    StreamLast(next, order);
    assert Stream(calls, order[..|order| - 1]) + (written + piece) == (Stream(calls, order[..|order| - 1]) + written) +
        piece;
  }

  lemma StreamLast(calls: seq<Call>, order: seq<nat>)
    requires order != [] && order[|order| - 1] < |calls|
    requires calls[order[|order| - 1]].n <= |calls[order[|order| - 1]].value|
    ensures var c := calls[order[|order| - 1]];
            Stream(calls, order) == Stream(calls, order[..|order| - 1]) + c.value[..c.n]
  {
  }

  lemma PrefixPipe(x: System, k: nat)
    requires PrefixOk(x) && PipeOk(x)
    ensures PipeOk(Next(x, PrefixAdvances(k)))
  {
    if x.state.Sending? && k <= |x.prefix| - x.sent {
      assert x.order == [] && Stream(x.calls, x.order) == "";
    }
  }

  lemma LocksPipe(x: System, i: nat)
    requires CallsOk(x) && LockOk(x) && PipeOk(x)
    ensures PipeOk(Next(x, Locks(i)))
  {
    hide TryReserve, Stream;
    if At(x, i, Cleared) && !x.locked {
      var y := Next(x, Locks(i));
      StreamSame(x.calls, y.calls, x.order);
      StreamAppend(y.calls, x.order, i);
    }
  }

  lemma AdvancesPipe(x: System, i: nat, k: nat)
    requires CallsOk(x) && LockOk(x) && PipeOk(x)
    ensures PipeOk(Next(x, Advances(i, k)))
  {
    hide TryReserve, Stream;
    if At(x, i, Writing) && k <= |x.calls[i].value| - x.calls[i].n {
      var c := x.calls[i];
      assert c.value[..c.n + k] == c.value[..c.n] + c.value[c.n..c.n + k];
      var next := x.calls[i := c.(n := c.n + k)];
      StreamSame(x.calls, next, x.order[..|x.order| - 1]);
      StreamAdvance(x.calls, next, x.order, c.value[..c.n], c.value[c.n..c.n + k]);
    }
  }

  lemma StepPipe(x: System, e: Event)
    requires CallsOk(x) && PrefixOk(x) && LockOk(x) && PipeOk(x)
    ensures PipeOk(Next(x, e))
  {
    hide TryReserve, Stream, Next, PipeOk;
    match e
    case PrefixAdvances(k) => PrefixPipe(x, k);
    case Locks(i) => LocksPipe(x, i);
    case Advances(i, k) => AdvancesPipe(x, i, k);
    case _ => OtherPipe(x, e);
  }

  lemma OtherPipe(x: System, e: Event)
    requires LockOk(x) && PipeOk(x)
    requires !e.PrefixAdvances? && !e.Locks? && !e.Advances?
    ensures PipeOk(Next(x, e))
  {
    hide TryReserve, Stream;
    StreamSame(x.calls, Next(x, e).calls, x.order);
  }

  lemma StepInv(x: System, e: Event)
    requires Inv(x)
    ensures Inv(Next(x, e))
  {
    hide Next, CallsOk, Accounts, PrefixOk, LockOk, PipeOk;
    StepCalls(x, e);
    StepAccounts(x, e);
    StepPrefix(x, e);
    StepLock(x, e);
    StepPipe(x, e);
  }

  lemma {:induction false} RunInv(x: System, events: seq<Event>)
    requires Inv(x)
    ensures Inv(Exec(x, events))
    ensures Exec(x, events).prefix == x.prefix && Exec(x, events).limit == x.limit
    decreases |events|
  {
    hide Inv;
    if events != [] {
      StepInv(x, events[0]);
      Constant(x, events[0]);
      hide Next;
      RunInv(Next(x, events[0]), events[1..]);
    }
  }

  lemma Constant(x: System, e: Event)
    ensures Next(x, e).prefix == x.prefix && Next(x, e).limit == x.limit
  {
    hide TryReserve;
  }

  // ----- what every run guarantees -----

  /** In every interleaving the bytes counted are at most those on the pipe, those at most the bytes reserved, and those
      at most the limit. */
  lemma WithinBudget(prefix: Bytes, limit: nat, events: seq<Event>)
    requires |prefix| <= limit
    ensures var x := Exec(Initial(prefix, limit), events);
            x.count <= |x.pipe| <= x.reserved <= limit
  {
    Reachable(prefix, limit, events);
    SumOrder(Exec(Initial(prefix, limit), events).calls);
  }

  lemma Reachable(prefix: Bytes, limit: nat, events: seq<Event>)
    requires |prefix| <= limit
    ensures var x := Exec(Initial(prefix, limit), events);
            Inv(x) && x.prefix == prefix && x.limit == limit
  {
    assert Inv(Initial(prefix, limit));
    RunInv(Initial(prefix, limit), events);
  }

  lemma {:induction false} SumQuiet(calls: seq<Call>)
    requires forall i :: 0 <= i < |calls| ==> CallOk(calls[i]) && !Busy(calls[i])
    ensures Sum(calls, Accounted) == Sum(calls, Written)
  {
    if calls != [] {
      SumQuiet(calls[..|calls| - 1]);
    }
  }

  /** Whenever no raw write is under way, the count is exact. */
  lemma QuietCount(prefix: Bytes, limit: nat, events: seq<Event>)
    requires |prefix| <= limit
    requires !Exec(Initial(prefix, limit), events).locked
    requires !Exec(Initial(prefix, limit), events).state.Sending? && !Exec(Initial(prefix, limit), events).state.Sent?
    ensures var x := Exec(Initial(prefix, limit), events);
            x.count == |x.pipe|
  {
    Reachable(prefix, limit, events);
    SumQuiet(Exec(Initial(prefix, limit), events).calls);
  }

  /** In every interleaving the pipe holds the prefix, at most once and first, then the admitted values one after
      another: each call's bytes contiguous, from its beginning, and none before the whole prefix. */
  lemma PrefixThenWrites(prefix: Bytes, limit: nat, events: seq<Event>)
    requires |prefix| <= limit
    ensures var x := Exec(Initial(prefix, limit), events);
            && x.sent <= |prefix|
            && x.pipe == prefix[..x.sent] + Stream(x.calls, x.order)
            && (x.order != [] ==> x.sent == |prefix|)
            && (forall k :: 0 <= k < |x.order| ==> x.order[k] < |x.calls| && Admitted(x.calls[x.order[k]]))
            && (forall k, l :: 0 <= k < l < |x.order| ==> x.order[k] != x.order[l])
            && (forall i :: 0 <= i < |x.calls| && x.calls[i].stage.Refused? ==> x.calls[i].n == 0)
  {
    Reachable(prefix, limit, events);
    hide Next, Exec;
  }

  /** A write is refused exactly when it does not fit, and then neither budget nor pipe changes. */
  lemma RefusedChangesNothing(x: System, i: nat)
    requires At(x, i, Entered)
    ensures var y := Next(x, Reserves(i));
            && (At(y, i, Refused) <==> x.reserved + |x.calls[i].value| > x.limit)
            && (At(y, i, Refused) ==> y == Put(x, i, x.calls[i].(stage := Refused, err := true)))
  {
  }

  /** A call that reports success has put its whole value on the pipe. */
  lemma {:induction false} SuccessIsWhole(prefix: Bytes, limit: nat, events: seq<Event>, i: nat)
    requires |prefix| <= limit
    requires At(Exec(Initial(prefix, limit), events), i, Returned) && !Exec(Initial(prefix, limit), events).calls[i].err
    ensures Exec(Initial(prefix, limit), events).calls[i].n == |Exec(Initial(prefix, limit), events).calls[i].value|
  {
    Reachable(prefix, limit, events);
  }

  // ----- failures have causes -----

  /** No raw write fails. */
  predicate Sound(e: Event) {
    match e
    case PrefixEnds(err) => !err
    case RawEnds(_, err) => !err
    case _ => true
  }

  predicate NoFault(x: System) {
    && (x.state.Sent? || x.state.Counted? ==> !x.state.err)
    && (forall i :: 0 <= i < |x.calls| && x.calls[i].err ==> x.calls[i].stage.Refused?)
  }

  lemma StepNoFault(x: System, e: Event)
    requires NoFault(x) && Sound(e)
    ensures NoFault(Next(x, e))
  {
    hide TryReserve;
  }

  lemma {:induction false} RunNoFault(x: System, events: seq<Event>)
    requires NoFault(x) && forall k :: 0 <= k < |events| ==> Sound(events[k])
    ensures NoFault(Exec(x, events))
    decreases |events|
  {
    hide Next, NoFault;
    if events != [] {
      StepNoFault(x, events[0]);
      RunNoFault(Next(x, events[0]), events[1..]);
    }
  }

  /** Unless a raw write fails, the only calls that report an error are those refused for the budget. */
  lemma ErrorHasCause(prefix: Bytes, limit: nat, events: seq<Event>, i: nat)
    requires |prefix| <= limit && forall k :: 0 <= k < |events| ==> Sound(events[k])
    requires i < |Exec(Initial(prefix, limit), events).calls|
    ensures Exec(Initial(prefix, limit), events).calls[i].err ==>
        Exec(Initial(prefix, limit), events).calls[i].stage.Refused?
  {
    assert NoFault(Initial(prefix, limit));
    RunNoFault(Initial(prefix, limit), events);
  }

  // ----- every call can return -----

  lemma {:induction false} ExecAppend(x: System, a: seq<Event>, b: seq<Event>)
    ensures Exec(x, a + b) == Exec(Exec(x, a), b)
    decreases |a|
  {
    if a == [] {
      assert a + b == b;
    } else {
      assert (a + b)[1..] == a[1..] + b;
      ExecAppend(Next(x, a[0]), a[1..], b);
    }
  }

  lemma First(x: System, e: Event, rest: seq<Event>)
    ensures Exec(x, [e] + rest) == Exec(Next(x, e), rest)
  {
    assert ([e] + rest)[1..] == rest;
  }

  lemma Three(x: System, a: Event, b: Event, c: Event)
    ensures Exec(x, [a, b, c]) == Next(Next(Next(x, a), b), c)
  {
    hide Next;
    First(x, a, [b, c]);
    First(Next(x, a), b, [c]);
    First(Next(Next(x, a), b), c, []);
    assert [a] + [b, c] == [a, b, c] && [b] + [c] == [b, c] && [c] + [] == [c];
  }

  /** The prefix can be sent and counted. */
  lemma PrefixCanEnd(x: System) returns (events: seq<Event>)
    requires x.sent <= |x.prefix|
    ensures Exec(x, events).state.Counted? && Exec(x, events).calls == x.calls
    ensures Exec(x, events).order == x.order && Exec(x, events).locked == x.locked
  {
    var start := [PrefixStarts];
    First(x, PrefixStarts, []);
    assert [PrefixStarts] + [] == start;
    var y := Next(x, PrefixStarts);
    var left := |x.prefix| - x.sent;
    var rest := [PrefixAdvances(left), PrefixEnds(false), PrefixCounts];
    Three(y, PrefixAdvances(left), PrefixEnds(false), PrefixCounts);
    PrefixEnding(x);
    hide Next;
    events := start + rest;
    ExecAppend(x, start, rest);
  }

  lemma PrefixEnding(x: System)
    requires x.sent <= |x.prefix|
    ensures var left := |x.prefix| - x.sent;
            var y := Next(Next(Next(Next(x, PrefixStarts), PrefixAdvances(left)), PrefixEnds(false)), PrefixCounts);
            y.state.Counted? && y.calls == x.calls && y.order == x.order && y.locked == x.locked
  {
  }

  function Rest(x: System, i: nat): nat {
    if i < |x.calls| && x.calls[i].n <= |x.calls[i].value| then |x.calls[i].value| - x.calls[i].n else 0
  }

  /** A call that holds the lock can write the rest of its value and return. */
  lemma WriterCanReturn(x: System, i: nat) returns (events: seq<Event>)
    requires i < |x.calls| && CallOk(x.calls[i]) && Busy(x.calls[i])
    ensures var y := Exec(x, events);
            && |y.calls| == |x.calls| && y.calls[i].stage.Returned? && !y.locked && y.state == x.state
            && forall j :: 0 <= j < |x.calls| && j != i ==> y.calls[j] == x.calls[j]
  {
    events := [Advances(i, Rest(x, i)), RawEnds(i, false), Counts(i)];
    Three(x, Advances(i, Rest(x, i)), RawEnds(i, false), Counts(i));
    hide Exec;
  }

  /** With the prefix done and the lock free, a call can take its way to its end. */
  lemma CallCanReturn(x: System, i: nat) returns (events: seq<Event>)
    requires i < |x.calls| && CallOk(x.calls[i]) && x.state.Counted? && !x.locked && !Busy(x.calls[i])
    ensures var y := Exec(x, events); i < |y.calls| && (y.calls[i].stage.Returned? || y.calls[i].stage.Refused?)
  {
    var opening := [Reserves(i), SeesPrefix(i), Locks(i)];
    Three(x, Reserves(i), SeesPrefix(i), Locks(i));
    var y := Exec(x, opening);
    CallOpens(x, i);
    hide Exec, Next, TryReserve;
    if Busy(y.calls[i]) {
      var rest := WriterCanReturn(y, i);
      events := opening + rest;
      ExecAppend(x, opening, rest);
    } else {
      events := opening;
    }
  }

  lemma CallOpens(x: System, i: nat)
    requires i < |x.calls| && CallOk(x.calls[i]) && x.state.Counted? && !x.locked && !Busy(x.calls[i])
    ensures var y := Next(Next(Next(x, Reserves(i)), SeesPrefix(i)), Locks(i));
            && i < |y.calls| && CallOk(y.calls[i])
            && (Busy(y.calls[i]) || y.calls[i].stage.Returned? || y.calls[i].stage.Refused?)
  {
    var y := Next(x, Reserves(i));
    assert y.calls[i].n == x.calls[i].n && y.state == x.state && !y.locked && |y.calls| == |x.calls|;
    hide TryReserve;
    var z := Next(y, SeesPrefix(i));
    assert !z.locked && |z.calls| == |x.calls|;
  }

  /** From every reachable state some run brings every call to its end: returned, or refused. */
  lemma CanReturn(prefix: Bytes, limit: nat, events: seq<Event>, i: nat) returns (more: seq<Event>)
    requires |prefix| <= limit && i < |Exec(Initial(prefix, limit), events).calls|
    ensures var y := Exec(Exec(Initial(prefix, limit), events), more);
            i < |y.calls| && (y.calls[i].stage.Returned? || y.calls[i].stage.Refused?)
  {
    Reachable(prefix, limit, events);
    var x := Exec(Initial(prefix, limit), events);
    var first := PrefixCanEnd(x);
    RunInv(x, first);
    var y := Exec(x, first);
    var unlock: seq<Event> := [];
    if y.locked {
      unlock := WriterCanReturn(y, y.order[|y.order| - 1]);
    }
    RunInv(y, unlock);
    var z := Exec(y, unlock);
    var last: seq<Event> := [];
    if !z.calls[i].stage.Returned? {
      last := CallCanReturn(z, i);
    }
    more := first + unlock + last;
    ExecAppend(x, first, unlock);
    ExecAppend(x, first + unlock, last);
  }
}
