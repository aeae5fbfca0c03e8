// The send pump, the sole caller of stream.Send (internal/gitservice/send.go), and the session that feeds it: provider
// output in order, then the terminal (internal/gitservice/upload.go, receive.go, copy.go).
module SendPump {
  import opened Text
  import opened Chunks
  import opened Terminals

  datatype Request = Request(id: nat, frame: Frame)

  /** The session: Reading provider output, inside Send for a chunk, past its output, inside SendFinal, or returned. */
  datatype Caller =
    | Reading
    | OfferingData(data: Bytes)
    | AwaitingData(id: nat)
    | Ended(failed: bool)
    | OfferingFinal
    | AwaitingFinal(id: nat)
    | Returned(sent: bool)

  datatype Pump =
    | Top
    | Selecting
    | Got(req: Request)
    | Marking(req: Request)
    | Sending(req: Request)
    | Sent(req: Request, ok: bool)
    | Replying(req: Request, ok: bool)
    | Failing
    | Stopped

  /** `sends` records what stream.Send returned for each request; `dataDone`, `finalDone` and `pumpDone` are the
      contexts of chunk sends, of the final send and of the pump; `results` are the one-element reply channels; `calls`
      counts the stream.Send calls under way. */
  datatype System = System(
    caller: Caller, pump: Pump, busy: bool,
    dataDone: bool, finalDone: bool, pumpDone: bool,
    issued: nat, results: map<nat, bool>,
    produced: seq<Bytes>, closing: Option<Terminal>,
    calls: nat, sends: map<nat, bool>, delivered: seq<Frame>)

  const INITIAL := System(Reading, Top, false, false, false, false, 0, map[], [], None, 0, map[], [])

  datatype Event =
    | Reads(data: Bytes)
    | Ends(failed: bool)
    | Handoff
    | TakesResult
    | GivesUp
    | Finishes(cause: Option<Failure>)
    | CancelData
    | CancelFinal
    | CancelPump
    | PumpLooks
    | PumpStops
    | PumpChecks
    | PumpMarks
    | SendReturns(ok: bool, reached: bool)
    | PumpClears
    | PumpReplies
    | PumpFails

  function OfferedFrame(x: System): Option<Frame> {
    match x.caller
    case OfferingData(data) => Some(Data(Some(data)))
    case OfferingFinal => Some(Final(x.closing))
    case _ => None
  }

  function ContextDone(x: System, frame: Frame): bool {
    if frame.Final? then x.finalDone else x.dataDone
  }

  /** The atomic steps; one that is not enabled changes nothing. A failed stream.Send may or may not have reached the
      client, and the end of a session knows of a failed send. */
  function SessionStep(x: System, e: Event): System {
    match e
    case Reads(data) =>
      if x.caller.Reading? && 0 < |data| <= MAX_CHUNK_BYTES then
        x.(caller := OfferingData(data), produced := x.produced + [data])
      else x
    case Ends(failed) =>
      if x.caller.Reading? then x.(caller := Ended(failed)) else x
    case Handoff =>
      var frame := OfferedFrame(x);
      if frame.Some? && x.pump.Selecting? then
        x.(pump := Got(Request(x.issued, frame.value)), issued := x.issued + 1,
           caller := if x.caller.OfferingData? then AwaitingData(x.issued) else AwaitingFinal(x.issued))
      else x
    case TakesResult =>
      if x.caller.AwaitingData? && x.caller.id in x.results then
        x.(caller := if x.results[x.caller.id] then Reading else Ended(true))
      else if x.caller.AwaitingFinal? && x.caller.id in x.results then
        x.(caller := Returned(x.results[x.caller.id]))
      else x
    case GivesUp =>
      if (x.caller.OfferingData? || x.caller.AwaitingData?) && (x.dataDone || x.pump.Stopped?) then
        x.(caller := Ended(true))
      else if (x.caller.OfferingFinal? || x.caller.AwaitingFinal?) && (x.finalDone || x.pump.Stopped?) then
        x.(caller := Returned(false))
      else x
    case Finishes(cause) =>
      if x.caller.Ended? && (x.caller.failed ==> cause.Some?) then
        var t := TerminalOf(cause);
        if !ValidTerminal(t) || x.busy then x.(caller := Returned(false))
        else x.(caller := OfferingFinal, closing := Some(t))
      else x
    case CancelData => x.(dataDone := true)
    case CancelFinal => x.(finalDone := true)
    case CancelPump => x.(pumpDone := true)
    case _ => x
  }

  function PumpStep(x: System, e: Event): System {
    match e
    case PumpLooks =>
      if x.pump.Top? then x.(pump := if x.pumpDone then Stopped else Selecting) else x
    case PumpStops =>
      if x.pump.Selecting? && x.pumpDone then x.(pump := Stopped) else x
    case PumpChecks =>
      if x.pump.Got? then
        if ContextDone(x, x.pump.req.frame) then x.(pump := Top, results := x.results[x.pump.req.id := false])
        else x.(pump := Marking(x.pump.req))
      else x
    case PumpMarks =>
      if x.pump.Marking? then x.(pump := Sending(x.pump.req), busy := true, calls := x.calls + 1) else x
    case SendReturns(ok, reached) =>
      if x.pump.Sending? && x.calls > 0 && (ok ==> reached) then
        x.(pump := Sent(x.pump.req, ok), calls := x.calls - 1, sends := x.sends[x.pump.req.id := ok],
           delivered := if reached then x.delivered + [x.pump.req.frame] else x.delivered)
      else x
    case PumpClears =>
      if x.pump.Sent? then x.(pump := Replying(x.pump.req, x.pump.ok), busy := false) else x
    case PumpReplies =>
      if x.pump.Replying? then
        x.(pump := if x.pump.ok then Top else Failing, results := x.results[x.pump.req.id := x.pump.ok])
      else x
    case PumpFails =>
      if x.pump.Failing? then x.(pump := Stopped, pumpDone := true) else x
    case _ => x
  }

  predicate OfPump(e: Event) {
    e.PumpLooks? || e.PumpStops? || e.PumpChecks? || e.PumpMarks? || e.SendReturns? || e.PumpClears? ||
        e.PumpReplies? || e.PumpFails?
  }

  function Next(x: System, e: Event): System {
    if OfPump(e) then PumpStep(x, e) else SessionStep(x, e)
  }

  function Exec(x: System, events: seq<Event>): System
    decreases |events|
  {
    if events == [] then x else Exec(Next(x, events[0]), events[1..])
  }

  // ----- invariant -----

  /** The frame the pump has taken and not yet sent or dropped. */
  function Held(x: System): Option<Frame> {
    if x.pump.Got? || x.pump.Marking? || x.pump.Sending? then Some(x.pump.req.frame) else None
  }

  /** Everything on its way to the client, in order. */
  function Line(x: System): seq<Frame> {
    Lined(x.delivered, Held(x), OfferedFrame(x))
  }

  function Lined(delivered: seq<Frame>, held: Option<Frame>, offered: Option<Frame>): seq<Frame> {
    delivered + (if held.Some? then [held.value] else []) + (if offered.Some? then [offered.value] else [])
  }

  /** The provider's chunks from the first on, each once, and then perhaps the terminal. */
  predicate Orderly(frames: seq<Frame>, produced: seq<Bytes>, closing: Option<Terminal>) {
    forall i :: 0 <= i < |frames| ==>
      || (i < |produced| && frames[i] == Data(Some(produced[i])))
      || (i == |frames| - 1 && closing.Some? && frames[i] == Final(closing))
  }

  predicate Working(p: Pump) {
    p.Got? || p.Marking? || p.Sending? || p.Sent? || p.Replying?
  }

  /** The reply to the latest request is still to come or waits in its channel. */
  predicate Answering(x: System, id: nat) {
    && id + 1 == x.issued
    && (x.pump.Got? || x.pump.Marking? || x.pump.Sending? ==> |x.delivered| + 1 == |x.produced|)
    && (x.pump.Sent? || x.pump.Replying? ==> (x.pump.ok ==> |x.delivered| == |x.produced|))
    && (!Working(x.pump) ==> id in x.results && (x.results[id] ==> |x.delivered| == |x.produced|))
    && (Working(x.pump) ==> id !in x.results)
  }

  /** A reply is what stream.Send returned; a request that was never sent is answered false, for a context that
      ended. */
  predicate RepliesOk(x: System) {
    && (forall id :: id in x.sends ==> id < x.issued)
    && (x.pump.Got? || x.pump.Marking? || x.pump.Sending? ==> x.pump.req.id !in x.sends)
    && (x.pump.Sent? || x.pump.Replying? ==> x.pump.req.id in x.sends && x.sends[x.pump.req.id] == x.pump.ok)
    && (forall id :: id in x.results && id in x.sends ==> x.results[id] == x.sends[id])
    && (forall id :: id in x.results && id !in x.sends ==> !x.results[id] && (x.dataDone || x.finalDone))
  }

  predicate PumpOk(x: System) {
    && (Working(x.pump) ==> x.pump.req.id + 1 == x.issued && x.pump.req.id !in x.results)
    && (forall id :: id in x.results ==> id < x.issued)
    && x.calls == (if x.pump.Sending? then 1 else 0)
    && RepliesOk(x)
    && (x.busy <==> x.pump.Sending? || x.pump.Sent?)
  }

  predicate EndsWithTerminal(x: System) {
    x.closing.Some? && x.delivered != [] && x.delivered[|x.delivered| - 1] == Final(x.closing)
  }

  /** The same for the final request: success stands for a delivered terminal. */
  predicate FinalAnswering(x: System, id: nat) {
    && x.closing.Some? && id + 1 == x.issued
    && (Working(x.pump) ==> id !in x.results && x.pump.req.frame == Final(x.closing))
    && ((x.pump.Sent? || x.pump.Replying?) && x.pump.ok ==> EndsWithTerminal(x))
    && (!Working(x.pump) ==> id in x.results && (x.results[id] ==> EndsWithTerminal(x)))
  }

  predicate CallerOk(x: System) {
    match x.caller
    case Reading => !Working(x.pump) && x.closing.None? && |x.delivered| == |x.produced|
    case OfferingData(data) =>
      !Working(x.pump) && x.closing.None? && |x.delivered| + 1 == |x.produced| && x.produced[|x.delivered|] == data
    case AwaitingData(id) => x.closing.None? && Answering(x, id)
    case Ended(failed) => x.closing.None? && (!failed ==> !Working(x.pump) && |x.delivered| == |x.produced|)
    case OfferingFinal => x.closing.Some?
    case AwaitingFinal(id) => FinalAnswering(x, id)
    case Returned(sent) => sent ==> !Working(x.pump) && EndsWithTerminal(x)
  }

  predicate DataUpTo(frames: seq<Frame>, n: nat) {
    n <= |frames| && forall i :: 0 <= i < n ==> frames[i].Data?
  }

  predicate ClosingOk(x: System) {
    && (forall i :: 0 <= i < |x.produced| ==> |x.produced[i]| <= MAX_CHUNK_BYTES)
    && (x.closing.Some? ==> ValidTerminal(x.closing.value))
    && (x.closing.Some? && x.closing.value.category.Completed? ==>
          && DataUpTo(x.delivered, |x.produced|)
          && (Held(x).Some? ==> Held(x).value.Final?))
  }

  predicate Inv(x: System) {
    PumpOk(x) && CallerOk(x) && ClosingOk(x) && Orderly(Line(x), x.produced, x.closing)
  }

  /** What the session never touches. */
  predicate SessionFrame(x: System, y: System) {
    && y.busy == x.busy && y.calls == x.calls && y.results == x.results && y.delivered == x.delivered
    && y.sends == x.sends && (x.dataDone ==> y.dataDone) && (x.finalDone ==> y.finalDone)
  }

  lemma TakesResultLeaves(x: System)
    ensures var y := SessionStep(x, TakesResult); SessionFrame(x, y) && y.pump == x.pump && y.issued == x.issued
    ensures SessionStep(x, TakesResult).produced == x.produced
  {
    hide ValidTerminal, TerminalOf, OfferedFrame;
  }

  lemma GivesUpLeaves(x: System)
    ensures var y := SessionStep(x, GivesUp); SessionFrame(x, y) && y.pump == x.pump && y.issued == x.issued
    ensures SessionStep(x, GivesUp).produced == x.produced
  {
    hide ValidTerminal, TerminalOf, OfferedFrame;
  }

  lemma FinishesLeaves(x: System, cause: Option<Failure>)
    ensures var y := SessionStep(x, Finishes(cause)); SessionFrame(x, y) && y.pump == x.pump && y.issued == x.issued
    ensures SessionStep(x, Finishes(cause)).produced == x.produced
  {
    hide ValidTerminal, TerminalOf, OfferedFrame;
  }

  lemma OthersLeave(x: System, e: Event)
    requires !e.TakesResult? && !e.GivesUp? && !e.Finishes?
    ensures var y := SessionStep(x, e); SessionFrame(x, y) && (!e.Handoff? ==> y.pump == x.pump && y.issued == x.issued)
    ensures SessionStep(x, e).closing == x.closing
  {
    hide ValidTerminal, TerminalOf, OfferedFrame;
  }

  lemma SessionLeaves(x: System, e: Event)
    ensures SessionFrame(x, SessionStep(x, e))
    ensures !e.Handoff? ==> SessionStep(x, e).pump == x.pump && SessionStep(x, e).issued == x.issued
  {
    hide SessionStep, SessionFrame;
    match e
    case TakesResult => TakesResultLeaves(x);
    case GivesUp => GivesUpLeaves(x);
    case Finishes(cause) => FinishesLeaves(x, cause);
    case _ => OthersLeave(x, e);
  }

  lemma HandoffKeeps(x: System)
    requires PumpOk(x) && CallerOk(x)
    ensures var y := SessionStep(x, Handoff); PumpOk(y) && CallerOk(y)
  {
  }

  lemma SessionKeepsPump(x: System, e: Event)
    requires PumpOk(x) && CallerOk(x)
    ensures PumpOk(SessionStep(x, e))
  {
    if e.Handoff? {
      HandoffKeeps(x);
    } else {
      hide SessionStep;
      SessionLeaves(x, e);
    }
  }

  lemma TakesResultKeepsCaller(x: System)
    requires CallerOk(x)
    ensures CallerOk(SessionStep(x, TakesResult))
  {
  }

  lemma GivesUpKeepsCaller(x: System)
    requires CallerOk(x)
    ensures CallerOk(SessionStep(x, GivesUp))
  {
  }

  lemma FinishesKeepsCaller(x: System, cause: Option<Failure>)
    requires CallerOk(x)
    ensures CallerOk(SessionStep(x, Finishes(cause)))
  {
    hide ValidTerminal, TerminalOf, Answering, FinalAnswering;
  }

  lemma SessionKeepsCaller(x: System, e: Event)
    requires PumpOk(x) && CallerOk(x)
    ensures CallerOk(SessionStep(x, e))
  {
    hide ValidTerminal, TerminalOf, PumpOk, SessionStep;
    if e.Handoff? {
      HandoffKeeps(x);
    } else if e.TakesResult? {
      TakesResultKeepsCaller(x);
    } else if e.GivesUp? {
      GivesUpKeepsCaller(x);
    } else if e.Finishes? {
      FinishesKeepsCaller(x, e.cause);
    } else {
      hide Answering, FinalAnswering, EndsWithTerminal, OfferedFrame;
      OthersKeepCaller(x, e);
    }
  }

  lemma OthersKeepCaller(x: System, e: Event)
    requires CallerOk(x) && !e.Handoff? && !e.TakesResult? && !e.GivesUp? && !e.Finishes?
    ensures CallerOk(SessionStep(x, e))
  {
    hide ValidTerminal, TerminalOf, OfferedFrame;
  }

  lemma AllData(x: System)
    requires Orderly(Line(x), x.produced, x.closing) && x.closing.None?
    ensures DataUpTo(x.delivered, |x.delivered|)
  {
    forall i | 0 <= i < |x.delivered|
      ensures x.delivered[i].Data?
    {
      assert Line(x)[i] == x.delivered[i];
    }
  }

  lemma SessionKeepsClosing(x: System, e: Event)
    requires CallerOk(x) && ClosingOk(x) && Orderly(Line(x), x.produced, x.closing)
    ensures ClosingOk(SessionStep(x, e))
  {
    hide Orderly;
    if x.closing.None? {
      AllData(x);
    }
    if e.TakesResult? || e.GivesUp? || e.Finishes? {
      hide ValidTerminal, Int32, DataUpTo, Answering, FinalAnswering;
      CallerKeepsClosing(x, e);
    } else {
      hide ValidTerminal, TerminalOf, DataUpTo, Answering, FinalAnswering;
      OthersKeepClosing(x, e);
    }
  }

  lemma CallerKeepsClosing(x: System, e: Event)
    requires CallerOk(x) && ClosingOk(x) && (x.closing.None? ==> DataUpTo(x.delivered, |x.delivered|))
    requires e.TakesResult? || e.GivesUp? || e.Finishes?
    ensures ClosingOk(SessionStep(x, e))
  {
    hide ValidTerminal, Int32, DataUpTo, Answering, FinalAnswering;
  }

  lemma OthersKeepClosing(x: System, e: Event)
    requires CallerOk(x) && ClosingOk(x) && !e.TakesResult? && !e.GivesUp? && !e.Finishes?
    ensures ClosingOk(SessionStep(x, e))
  {
    hide ValidTerminal, TerminalOf, DataUpTo, Answering, FinalAnswering;
  }

  lemma ChecksKeepsPump(x: System)
    requires PumpOk(x)
    ensures PumpOk(PumpStep(x, PumpChecks))
  {
  }

  lemma SendReturnsKeepsPump(x: System, ok: bool, reached: bool)
    requires PumpOk(x)
    ensures PumpOk(PumpStep(x, SendReturns(ok, reached)))
  {
  }

  lemma RepliesKeepsPump(x: System)
    requires PumpOk(x)
    ensures PumpOk(PumpStep(x, PumpReplies))
  {
  }

  lemma MovesKeepPump(x: System, e: Event)
    requires PumpOk(x) && !e.PumpChecks? && !e.SendReturns? && !e.PumpReplies?
    ensures PumpOk(PumpStep(x, e))
  {
  }

  lemma PumpKeepsPump(x: System, e: Event)
    requires PumpOk(x)
    ensures PumpOk(PumpStep(x, e))
  {
    hide PumpOk, PumpStep;
    match e
    case PumpChecks => ChecksKeepsPump(x);
    case SendReturns(ok, reached) => SendReturnsKeepsPump(x, ok, reached);
    case PumpReplies => RepliesKeepsPump(x);
    case _ => MovesKeepPump(x, e);
  }

  lemma SendReturnsKeepsClosing(x: System, ok: bool, reached: bool)
    requires ClosingOk(x)
    ensures ClosingOk(PumpStep(x, SendReturns(ok, reached)))
  {
    hide ValidTerminal, DataUpTo;
    if x.pump.Sending? {
      DataStays(x.delivered, x.pump.req.frame, |x.produced|);
    }
  }

  lemma PumpKeepsClosing(x: System, e: Event)
    requires ClosingOk(x)
    ensures ClosingOk(PumpStep(x, e))
  {
    hide ValidTerminal, DataUpTo, ContextDone;
    if e.SendReturns? {
      SendReturnsKeepsClosing(x, e.ok, e.reached);
    }
  }

  /** The end of a stream.Send is what the caller's promises wait for. */
  lemma SendReturnsKeepsCaller(x: System, ok: bool, reached: bool)
    requires PumpOk(x) && CallerOk(x)
    ensures CallerOk(PumpStep(x, SendReturns(ok, reached)))
  {
  }

  lemma ChecksKeepsCaller(x: System)
    requires PumpOk(x) && CallerOk(x)
    ensures CallerOk(PumpStep(x, PumpChecks))
  {
    hide ContextDone, RepliesOk;
  }

  lemma RepliesKeepCaller(x: System)
    requires PumpOk(x) && CallerOk(x)
    ensures CallerOk(PumpStep(x, PumpReplies))
  {
    hide RepliesOk;
  }

  lemma PumpKeepsCaller(x: System, e: Event)
    requires PumpOk(x) && CallerOk(x)
    ensures CallerOk(PumpStep(x, e))
  {
    hide PumpStep, CallerOk, PumpOk;
    match e
    case SendReturns(ok, reached) => SendReturnsKeepsCaller(x, ok, reached);
    case PumpChecks => ChecksKeepsCaller(x);
    case PumpReplies => RepliesKeepCaller(x);
    case _ => MovesKeepCaller(x, e);
  }

  lemma MovesKeepCaller(x: System, e: Event)
    requires CallerOk(x) && !e.SendReturns? && !e.PumpChecks? && !e.PumpReplies?
    ensures CallerOk(PumpStep(x, e))
  {
    hide ContextDone;
  }

  lemma DataStays(frames: seq<Frame>, more: Frame, n: nat)
    ensures DataUpTo(frames, n) ==> DataUpTo(frames + [more], n)
  {
  }

  lemma OrderlyPrefix(part: seq<Frame>, frames: seq<Frame>, produced: seq<Bytes>, closing: Option<Terminal>)
    requires Orderly(frames, produced, closing) && part <= frames
    ensures Orderly(part, produced, closing)
  {
  }

  lemma OneMoreChunk(x: System, data: Bytes)
    requires CallerOk(x) && x.caller.Reading? && Orderly(Line(x), x.produced, x.closing)
    ensures Orderly(Lined(x.delivered, None, Some(Data(Some(data)))), x.produced + [data], x.closing)
  {
    assert Line(x) == x.delivered;
  }

  lemma OneTerminal(delivered: seq<Frame>, held: Option<Frame>, produced: seq<Bytes>, t: Terminal)
    requires Orderly(Lined(delivered, held, None), produced, None)
    ensures Orderly(Lined(delivered, held, Some(Final(Some(t)))), produced, Some(t))
  {
    assert Lined(delivered, held, Some(Final(Some(t)))) == Lined(delivered, held, None) + [Final(Some(t))];
  }

  /** A frame that moves up the line leaves the line as it is; one that is no longer offered shortens it. */
  lemma LineMoves(delivered: seq<Frame>, frame: Frame, offered: Option<Frame>)
    ensures Lined(delivered, None, Some(frame)) == Lined(delivered, Some(frame), None)
    ensures Lined(delivered, Some(frame), offered) == Lined(delivered + [frame], None, offered)
    ensures Lined(delivered, Some(frame), None) <= Lined(delivered, Some(frame), offered)
    ensures Lined(delivered, None, None) <= Lined(delivered, None, offered)
  {
  }

  lemma GivesUpLine(x: System)
    requires Orderly(Line(x), x.produced, x.closing)
    ensures Orderly(Lined(x.delivered, Held(x), None), x.produced, x.closing)
  {
    LineMoves(x.delivered, if Held(x).Some? then Held(x).value else NilFrame, OfferedFrame(x));
    OrderlyPrefix(Lined(x.delivered, Held(x), None), Line(x), x.produced, x.closing);
  }

  lemma HandoffLine(x: System)
    requires CallerOk(x) && Orderly(Line(x), x.produced, x.closing)
    ensures var y := SessionStep(x, Handoff); Orderly(Line(y), y.produced, y.closing)
  {
    hide Orderly, Lined, CallerOk;
    if OfferedFrame(x).Some? {
      LineMoves(x.delivered, OfferedFrame(x).value, None);
    }
  }

  lemma FinishesKeepsLine(x: System, cause: Option<Failure>)
    requires CallerOk(x) && Orderly(Line(x), x.produced, x.closing)
    ensures var y := SessionStep(x, Finishes(cause)); Orderly(Line(y), y.produced, y.closing)
  {
    hide TerminalOf, ValidTerminal, Orderly, Lined, Answering, FinalAnswering;
    if x.caller.Ended? {
      OneTerminal(x.delivered, Held(x), x.produced, TerminalOf(cause));
    }
  }

  lemma ReadsKeepsLine(x: System, data: Bytes)
    requires CallerOk(x) && Orderly(Line(x), x.produced, x.closing)
    ensures var y := SessionStep(x, Reads(data)); Orderly(Line(y), y.produced, y.closing)
  {
    hide Orderly, Lined, Answering, FinalAnswering;
    if x.caller.Reading? {
      OneMoreChunk(x, data);
    }
  }

  lemma GivesUpKeepsLine(x: System)
    requires Orderly(Line(x), x.produced, x.closing)
    ensures var y := SessionStep(x, GivesUp); Orderly(Line(y), y.produced, y.closing)
  {
    hide Orderly, Lined;
    GivesUpLine(x);
  }

  lemma OthersKeepLine(x: System, e: Event)
    requires Orderly(Line(x), x.produced, x.closing)
    requires e.TakesResult? || e.Ends? || e.CancelData? || e.CancelFinal? || e.CancelPump? || OfPump(e)
    ensures var y := SessionStep(x, e); Orderly(Line(y), y.produced, y.closing)
  {
    hide Orderly, Lined;
    match e
    case TakesResult =>
    case Ends(_) =>
    case _ =>
  }

  lemma SessionLine(x: System, e: Event)
    requires CallerOk(x) && Orderly(Line(x), x.produced, x.closing)
    ensures var y := SessionStep(x, e); Orderly(Line(y), y.produced, y.closing)
  {
    hide SessionStep, Orderly, Line;
    match e
    case Reads(data) => ReadsKeepsLine(x, data);
    case Handoff => HandoffLine(x);
    case GivesUp => GivesUpKeepsLine(x);
    case Finishes(cause) => FinishesKeepsLine(x, cause);
    case _ => OthersKeepLine(x, e);
  }

  lemma PumpLine(x: System, e: Event)
    requires CallerOk(x) && Orderly(Line(x), x.produced, x.closing)
    ensures var y := PumpStep(x, e); Orderly(Line(y), y.produced, y.closing)
  {
    hide Orderly, CallerOk, Lined;
    if Held(x).Some? {
      LineMoves(x.delivered, Held(x).value, OfferedFrame(x));
      DroppedFrame(x);
    }
  }

  /** A line stays orderly without the frame the pump holds: only a terminal can follow that one. */
  lemma DroppedFrame(x: System)
    requires CallerOk(x) && Orderly(Line(x), x.produced, x.closing) && Held(x).Some?
    ensures Orderly(Lined(x.delivered, None, OfferedFrame(x)), x.produced, x.closing)
  {
    var rest := Lined(x.delivered, None, OfferedFrame(x));
    forall i | 0 <= i < |rest|
      ensures || (i < |x.produced| && rest[i] == Data(Some(x.produced[i])))
              || (i == |rest| - 1 && x.closing.Some? && rest[i] == Final(x.closing))
    {
      if i < |x.delivered| {
        assert Line(x)[i] == rest[i];
      } else {
        assert x.caller.OfferingFinal?;
      }
    }
  }

  lemma StepInv(x: System, e: Event)
    requires Inv(x)
    ensures Inv(Next(x, e))
  {
    hide PumpStep, SessionStep, PumpOk, CallerOk, ClosingOk, Orderly;
    if OfPump(e) {
      PumpKeepsPump(x, e);
      PumpKeepsCaller(x, e);
      PumpKeepsClosing(x, e);
      PumpLine(x, e);
    } else {
      SessionKeepsPump(x, e);
      SessionKeepsCaller(x, e);
      SessionKeepsClosing(x, e);
      SessionLine(x, e);
    }
  }

  lemma {:induction false} RunInv(x: System, events: seq<Event>)
    requires Inv(x)
    ensures Inv(Exec(x, events))
    decreases |events|
  {
    hide Next, Inv;
    if events != [] {
      StepInv(x, events[0]);
      RunInv(Next(x, events[0]), events[1..]);
    }
  }

  lemma ReachableInv(events: seq<Event>)
    ensures Inv(Exec(INITIAL, events))
  {
    assert Inv(INITIAL);
    RunInv(INITIAL, events);
  }

  // ----- what every run guarantees -----

  /** The bytes of the data frames, in order. */
  function DataBytes(frames: seq<Frame>): Bytes {
    if frames == [] then ""
    else (if frames[0].Data? && frames[0].data.Some? then frames[0].data.value else "") + DataBytes(frames[1..])
  }

  lemma OrderlyTail(frames: seq<Frame>, produced: seq<Bytes>, closing: Option<Terminal>)
    requires Orderly(frames, produced, closing) && frames != [] && produced != []
    ensures Orderly(frames[1..], produced[1..], closing)
  {
    forall i | 0 <= i < |frames[1..]|
      ensures || (i < |produced[1..]| && frames[1..][i] == Data(Some(produced[1..][i])))
              || (i == |frames[1..]| - 1 && closing.Some? && frames[1..][i] == Final(closing))
    {
      assert frames[1..][i] == frames[i + 1];
      if i + 1 < |produced| {
        assert produced[1..][i] == produced[i + 1];
      }
    }
  }

  lemma {:induction false} OrderlyBytes(frames: seq<Frame>, produced: seq<Bytes>, closing: Option<Terminal>)
    requires Orderly(frames, produced, closing)
    ensures DataBytes(frames) <= Concat(produced)
    ensures DataUpTo(frames, |produced|) ==> DataBytes(frames) == Concat(produced)
    decreases |frames|
  {
    if frames != [] {
      assert forall i :: 0 <= i < |frames| - 1 ==> frames[1..][i] == frames[i + 1];
      if produced != [] && frames[0] == Data(Some(produced[0])) {
        OrderlyTail(frames, produced, closing);
        OrderlyBytes(frames[1..], produced[1..], closing);
      } else {
        assert |frames| == 1 && frames[0] == Final(closing) && frames[1..] == [];
        assert DataBytes(frames) == "";
      }
    }
  }

  /** In every interleaving stream.Send calls never overlap; what reached the client is a prefix of the provider's
      output, then at most one terminal and nothing after it; and the client's frame machine accepts all of it. */
  lemma ClientAcceptsEveryRun(events: seq<Event>)
    ensures var x := Exec(INITIAL, events);
            && x.calls <= 1
            && DataBytes(x.delivered) <= Concat(x.produced)
            && (forall i :: 0 <= i < |x.delivered| && x.delivered[i].Final? ==> i == |x.delivered| - 1)
            && Accepts(false, x.delivered)
  {
    ReachableInv(events);
    var x := Exec(INITIAL, events);
    hide Exec, Next;
    OrderlyPrefix(x.delivered, Line(x), x.produced, x.closing);
    OrderlyBytes(x.delivered, x.produced, x.closing);
    AcceptsIff(x.delivered);
  }

  /** A client that is told the operation completed has received the provider's whole output. */
  lemma CompletedMeansAll(events: seq<Event>)
    ensures var x := Exec(INITIAL, events);
            x.delivered != [] && x.delivered[|x.delivered| - 1] == Final(Some(Terminal(0, Completed))) ==>
              DataBytes(x.delivered) == Concat(x.produced)
  {
    ReachableInv(events);
    var x := Exec(INITIAL, events);
    hide Exec, Next;
    OrderlyPrefix(x.delivered, Line(x), x.produced, x.closing);
    OrderlyBytes(x.delivered, x.produced, x.closing);
  }

  /** When the final send reports success, the terminal is the last frame the client has received. */
  lemma FinalReportIsTrue(events: seq<Event>)
    requires Exec(INITIAL, events).caller == Returned(true)
    ensures var x := Exec(INITIAL, events);
            x.delivered != [] && GoodTerminal(x.delivered[|x.delivered| - 1])
  {
    ReachableInv(events);
    hide Exec, Next;
  }

  /** Once a terminal has reached the client nothing more does. */
  lemma {:induction false} NothingAfterTerminal(x: System, later: seq<Event>)
    requires Inv(x) && x.delivered != [] && x.delivered[|x.delivered| - 1].Final?
    ensures Exec(x, later).delivered == x.delivered
    decreases |later|
  {
    if later != [] {
      StepInv(x, later[0]);
      FinalIsLast(x);
      StaysDelivered(x, later[0]);
      hide Inv, Next, Held;
      NothingAfterTerminal(Next(x, later[0]), later[1..]);
    }
  }

  lemma StaysDelivered(x: System, e: Event)
    requires Held(x).None?
    ensures Next(x, e).delivered == x.delivered
  {
    hide SessionStep, PumpStep;
    if OfPump(e) {
      PumpSendsHeld(x, e);
    } else {
      SessionLeaves(x, e);
    }
  }

  lemma PumpSendsHeld(x: System, e: Event)
    requires Held(x).None?
    ensures PumpStep(x, e).delivered == x.delivered
  {
    hide ContextDone;
  }

  lemma FinalIsLast(x: System)
    requires Inv(x)
    ensures forall i :: 0 <= i < |x.delivered| && x.delivered[i].Final? ==> i == |x.delivered| - 1 && Held(x).None?
  {
    forall i | 0 <= i < |x.delivered| && x.delivered[i].Final?
      ensures i == |x.delivered| - 1 && Held(x).None?
    {
      assert Line(x)[i] == x.delivered[i];
    }
  }

  // ----- failures have causes -----

  /** A request answered with a failure was sent and stream.Send failed, or its context had ended before. */
  lemma FailureHasCause(events: seq<Event>, id: nat)
    requires id in Exec(INITIAL, events).results && !Exec(INITIAL, events).results[id]
    ensures var x := Exec(INITIAL, events);
            (id in x.sends && !x.sends[id]) || x.dataDone || x.finalDone
  {
    ReachableInv(events);
    hide Exec, Next;
  }

  /** Nothing is cancelled, no send fails, the output ends in order, and the terminal is one the client accepts. */
  predicate CalmEvent(e: Event) {
    match e
    case CancelData => false
    case CancelFinal => false
    case CancelPump => false
    case SendReturns(ok, _) => ok
    case Ends(failed) => !failed
    case Finishes(cause) => ValidTerminal(TerminalOf(cause))
    case _ => true
  }

  predicate Calm(events: seq<Event>) {
    forall i :: 0 <= i < |events| ==> CalmEvent(events[i])
  }

  predicate CalmState(x: System) {
    && !x.dataDone && !x.finalDone && !x.pumpDone && !x.pump.Failing? && !x.pump.Stopped?
    && (x.pump.Sent? || x.pump.Replying? ==> x.pump.ok)
    && (forall id :: id in x.results ==> x.results[id])
    && x.caller != Ended(true) && x.caller != Returned(false)
  }

  lemma CalmSessionStep(x: System, e: Event)
    requires Inv(x) && CalmState(x) && CalmEvent(e)
    ensures CalmState(SessionStep(x, e))
  {
    hide TerminalOf, ValidTerminal, Orderly, OfferedFrame, DataUpTo;
  }

  lemma CalmPumpStep(x: System, e: Event)
    requires CalmState(x) && CalmEvent(e)
    ensures CalmState(PumpStep(x, e))
  {
  }

  lemma {:induction false} CalmRun(x: System, events: seq<Event>)
    requires Inv(x) && CalmState(x) && Calm(events)
    ensures CalmState(Exec(x, events)) && Inv(Exec(x, events))
    decreases |events|
  {
    hide Inv, CalmState, SessionStep, PumpStep;
    if events != [] {
      var e := events[0];
      StepInv(x, e);
      if OfPump(e) {
        CalmPumpStep(x, e);
      } else {
        CalmSessionStep(x, e);
      }
      CalmRun(Next(x, e), events[1..]);
    }
  }

  /** In a run without cancellation, failed send, failed output or invalid terminal, no send is reported as failed, and
      neither the chunks nor the terminal are given up. */
  lemma CalmNeverFails(events: seq<Event>)
    requires Calm(events)
    ensures var x := Exec(INITIAL, events);
            && (forall id :: id in x.results ==> x.results[id])
            && x.caller != Ended(true) && x.caller != Returned(false)
  {
    assert Inv(INITIAL);
    CalmRun(INITIAL, events);
  }

  predicate NoCause(events: seq<Event>) {
    forall i :: 0 <= i < |events| && events[i].Finishes? ==> events[i].cause == None
  }

  lemma {:induction false} ClosesCompleted(x: System, events: seq<Event>)
    requires x.closing in {None, Some(Terminal(0, Completed))} && NoCause(events)
    ensures Exec(x, events).closing in {None, Some(Terminal(0, Completed))}
    decreases |events|
  {
    if events != [] {
      ClosesOnlyThen(x, events[0]);
      hide Next;
      ClosesCompleted(Next(x, events[0]), events[1..]);
    }
  }

  lemma ClosesOnlyThen(x: System, e: Event)
    ensures Next(x, e).closing == x.closing || (e.Finishes? && Next(x, e).closing == Some(TerminalOf(e.cause)))
  {
    hide TerminalOf, ValidTerminal, OfferedFrame, ContextDone, SessionStep, PumpStep;
    if OfPump(e) {
      PumpLeavesClosing(x, e);
    } else if e.TakesResult? || e.GivesUp? || e.Finishes? {
      FinishesSetsClosing(x, e);
    } else {
      OthersLeave(x, e);
    }
  }

  lemma PumpLeavesClosing(x: System, e: Event)
    ensures PumpStep(x, e).closing == x.closing && PumpStep(x, e).produced == x.produced
  {
    hide ContextDone;
  }

  lemma FinishesSetsClosing(x: System, e: Event)
    requires e.TakesResult? || e.GivesUp? || e.Finishes?
    ensures SessionStep(x, e).closing == x.closing ||
            (e.Finishes? && SessionStep(x, e).closing == Some(TerminalOf(e.cause)))
  {
    hide TerminalOf, ValidTerminal;
  }

  /** Such a session, finished without a cause, has delivered the whole output, chunk by chunk, and then completion. */
  lemma CalmSessionIsComplete(events: seq<Event>)
    requires Calm(events) && NoCause(events) && Exec(INITIAL, events).caller.Returned?
    ensures var x := Exec(INITIAL, events);
            && |x.delivered| == |x.produced| + 1
            && (forall i :: 0 <= i < |x.produced| ==> x.delivered[i] == Data(Some(x.produced[i])))
            && x.delivered[|x.produced|] == Final(Some(Terminal(0, Completed)))
  {
    CalmNeverFails(events);
    ReachableInv(events);
    ClosesCompleted(INITIAL, events);
    var x := Exec(INITIAL, events);
    hide Exec, Next;
    assert EndsWithTerminal(x) && DataUpTo(x.delivered, |x.produced|);
    OrderlyPrefix(x.delivered, Line(x), x.produced, x.closing);
    var n, last := |x.produced|, |x.delivered| - 1;
    assert x.delivered[last].Final? && n <= last;
    assert x.delivered[n] == x.delivered[last] && n == last;
  }

  // ----- every session can complete -----

  function PumpRank(p: Pump): nat {
    match p
    case Got(_) => 6
    case Marking(_) => 5
    case Sending(_) => 4
    case Sent(_, _) => 3
    case Replying(_, _) => 2
    case Top => 1
    case _ => 0
  }

  function CallerRank(c: Caller): nat {
    match c
    case OfferingData(_) => 7
    case AwaitingData(_) => 6
    case Reading => 5
    case Ended(_) => 4
    case OfferingFinal => 3
    case AwaitingFinal(_) => 2
    case Returned(_) => 0
  }

  function Rank(x: System): nat {
    10 * CallerRank(x.caller) + PumpRank(x.pump)
  }

  /** The pump goes on until it waits for a request; then the session takes its next step. */
  function Onward(x: System): Event {
    match x.pump
    case Top => PumpLooks
    case Got(_) => PumpChecks
    case Marking(_) => PumpMarks
    case Sending(_) => SendReturns(true, true)
    case Sent(_, _) => PumpClears
    case Replying(_, _) => PumpReplies
    case _ =>
      match x.caller
      case Reading => Ends(false)
      case OfferingData(_) => Handoff
      case AwaitingData(_) => TakesResult
      case Ended(_) => Finishes(None)
      case OfferingFinal => Handoff
      case AwaitingFinal(_) => TakesResult
      case Returned(_) => PumpLooks
  }

  lemma OnwardStep(x: System)
    requires Inv(x) && CalmState(x) && !x.caller.Returned?
    ensures CalmEvent(Onward(x)) && NoCause([Onward(x)])
    ensures Rank(Next(x, Onward(x))) < Rank(x)
  {
    hide Orderly, DataUpTo;
  }

  lemma {:induction false} GoOn(x: System) returns (events: seq<Event>)
    requires Inv(x) && CalmState(x)
    ensures Calm(events) && NoCause(events) && Exec(x, events).caller.Returned?
    decreases Rank(x)
  {
    hide Inv, CalmState, Next, Rank, Onward, CalmEvent;
    if x.caller.Returned? {
      events := [];
    } else {
      var e := Onward(x);
      OnwardStep(x);
      assert Calm([e]);
      CalmRun(x, [e]);
      assert [e][1..] == [] && Exec(x, [e]) == Next(x, e);
      var rest := GoOn(Next(x, e));
      events := [e] + rest;
      assert events[1..] == rest;
      assert [e][0] == e;
    }
  }

  /** From every state of an undisturbed session, some undisturbed run brings it to its end. */
  lemma CanComplete(events: seq<Event>) returns (more: seq<Event>)
    requires Calm(events)
    ensures Calm(more) && NoCause(more) && Exec(Exec(INITIAL, events), more).caller == Returned(true)
  {
    assert Inv(INITIAL);
    CalmRun(INITIAL, events);
    more := GoOn(Exec(INITIAL, events));
    CalmRun(Exec(INITIAL, events), more);
  }

  /** A session that reads takes any chunk from one byte to the limit, and offers it as it is. */
  lemma ReadsAnyChunk(x: System, data: Bytes)
    requires x.caller.Reading? && 0 < |data| <= 0x1_0000
    ensures Next(x, Reads(data)) == x.(caller := OfferingData(data), produced := x.produced + [data])
  {
  }
}
