/** The server half of a Git stream: the terminal a session ends with, and the frame sequence its client accepts. */
module Terminals {
  import opened Text
  import opened Chunks

  datatype Category =
    | Completed
    | PermissionDenied
    | InvalidRequest
    | ProviderFailure
    | DeadlineExceeded
    | LimitExceeded
    | Unavailable
    | Unknown(code: int)

  datatype Terminal = Terminal(exitCode: int, category: Category)

  datatype Frame = NilFrame | Data(data: Option<Bytes>) | Final(terminal: Option<Terminal>) | OtherFrame

  // ----- the client's frame machine -----

  predicate ValidTerminal(t: Terminal) {
    match t.category
    case Completed => t.exitCode == 0
    case Unknown(_) => false
    case _ => t.exitCode != 0
  }

  /** One frame, given whether a terminal was seen: whether one has been seen now, and whether the frame is accepted. */
  function AcceptFrame(terminal: bool, frame: Frame): (bool, bool) {
    if terminal then (terminal, false)
    else
      match frame
      case Data(Some(data)) => (terminal, |data| <= MAX_CHUNK_BYTES)
      case Final(Some(t)) => if ValidTerminal(t) then (true, true) else (terminal, false)
      case _ => (terminal, false)
  }

  class ServerFrameState {
    var terminal: bool

    constructor ()
      ensures !terminal
    {
      terminal := false;
    }

    method Accept(frame: Frame) returns (done: bool, ok: bool)
      modifies this
      ensures (terminal, ok) == AcceptFrame(old(terminal), frame)
      ensures done <==> terminal && !old(terminal)
    {
      if terminal || frame.NilFrame? {
        return false, false;
      }
      match frame
      case Data(data) =>
        return false, data.Some? && |data.value| <= MAX_CHUNK_BYTES;
      case Final(t) =>
        if t.None? || !ValidTerminal(t.value) {
          return false, false;
        }
        terminal := true;
        return true, true;
      case _ =>
        return false, false;
    }
  }

  predicate Accepts(terminal: bool, frames: seq<Frame>)
    decreases |frames|
  {
    frames == [] ||
    (var (next, ok) := AcceptFrame(terminal, frames[0]);
     ok && Accepts(next, frames[1..]))
  }

  predicate GoodChunk(f: Frame) {
    f.Data? && f.data.Some? && |f.data.value| <= MAX_CHUNK_BYTES
  }

  predicate GoodTerminal(f: Frame) {
    f.Final? && f.terminal.Some? && ValidTerminal(f.terminal.value)
  }

  /** The accepted sequences: chunks within the limit, then at most one valid terminal and nothing after it. */
  lemma {:induction false} AcceptsIff(frames: seq<Frame>)
    ensures Accepts(false, frames) <==>
            forall i :: 0 <= i < |frames| ==> GoodChunk(frames[i]) || (i == |frames| - 1 && GoodTerminal(frames[i]))
  {
    if frames != [] {
      var rest := frames[1..];
      AcceptsIff(rest);
      if Accepts(false, frames) {
        if rest != [] && GoodTerminal(frames[0]) {
          assert !Accepts(true, rest);
        }
        forall i | 0 <= i < |frames|
          ensures GoodChunk(frames[i]) || (i == |frames| - 1 && GoodTerminal(frames[i]))
        {
          if i > 0 {
            assert frames[i] == rest[i - 1];
          }
        }
      }
      if forall i :: 0 <= i < |frames| ==> GoodChunk(frames[i]) || (i == |frames| - 1 && GoodTerminal(frames[i])) {
        forall i | 0 <= i < |rest|
          ensures GoodChunk(rest[i]) || (i == |rest| - 1 && GoodTerminal(rest[i]))
        {
          assert rest[i] == frames[i + 1];
        }
        assert GoodChunk(frames[0]) || rest == [];
      }
    }
  }

  // ----- how a session ends -----

  /** The sentinel errors an error chain can be tested for. */
  datatype Sentinel =
    | Denied
    | RefPolicy
    | InvalidFrame
    | InvalidArgument
    | ChunkLimit
    | InputLimit
    | OutputLimit
    | ResourceExhausted
    | Deadline
    | Canceled
    | StartFailed
    | CommandFailed
    | CleanupFailed

  /** An error: what it wraps, and the exit code if it carries a process failure. */
  datatype Failure = Failure(wraps: set<Sentinel>, exit: Option<int>)

  function CauseWithExit(err: Option<Failure>, exit: int): Option<Failure> {
    if err.None? && exit == 0 then None
    else Some(Failure(if err.None? then {CommandFailed} else err.value.wraps, Some(exit)))
  }

  function TerminalCategory(err: Option<Failure>): Category {
    if err.None? then Completed
    else
      var w := err.value.wraps;
      if Denied in w then PermissionDenied
      else if w * {InvalidFrame, InvalidArgument, RefPolicy} != {} then InvalidRequest
      else if w * {ChunkLimit, InputLimit, OutputLimit, ResourceExhausted} != {} then LimitExceeded
      else if Deadline in w then DeadlineExceeded
      else if w * {StartFailed, CommandFailed, CleanupFailed} != {} then ProviderFailure
      else Unavailable
  }

  /** Go's conversion to int32: the low 32 bits, as a signed number. */
  function Int32(x: int): int {
    (x + 0x8000_0000) % 0x1_0000_0000 - 0x8000_0000
  }

  function TerminalOf(err: Option<Failure>): Terminal {
    Terminal(
      if TerminalCategory(err).Completed? then 0
      else if err.Some? && err.value.exit.Some? && err.value.exit.value > 0 then Int32(err.value.exit.value)
      else 1,
      TerminalCategory(err))
  }

  /** The terminal is one the client accepts, except for exit codes that truncation to 32 bits turns into zero. */
  lemma TerminalValidIff(err: Option<Failure>)
    ensures ValidTerminal(TerminalOf(err)) <==>
            !(err.Some? && err.value.exit.Some? && err.value.exit.value > 0 &&
                err.value.exit.value % 0x1_0000_0000 == 0)
  {
    if err.Some? && err.value.exit.Some? {
      TruncatesToZero(err.value.exit.value);
    }
  }

  lemma TruncatesToZero(x: int)
    ensures Int32(x) == 0 <==> x % 0x1_0000_0000 == 0
    ensures -0x8000_0000 <= x < 0x8000_0000 ==> Int32(x) == x
  {
  }

  /** Such an exit code exists, so the condition is needed. */
  lemma TerminalCanBeInvalid()
    ensures !ValidTerminal(TerminalOf(CauseWithExit(None, 0x1_0000_0000)))
  {
    TerminalValidIff(CauseWithExit(None, 0x1_0000_0000));
  }

  /** What the client learns: completion exactly for an error-free session whose process exited with zero; otherwise the
      exit code itself when it is a positive 32-bit number, and one when there is none or it is negative. */
  lemma TerminalTellsExit(err: Option<Failure>, exit: int)
    requires -0x8000_0000 <= exit < 0x8000_0000
    ensures var t := TerminalOf(CauseWithExit(err, exit));
            && ValidTerminal(t)
            && (t.category.Completed? <==> err.None? && exit == 0)
            && (t.exitCode == 0 <==> err.None? && exit == 0)
            && (exit > 0 ==> t.exitCode == exit)
            && (err.None? && exit != 0 ==> t.category.ProviderFailure?)
  {
    TerminalValidIff(CauseWithExit(err, exit));
    TruncatesToZero(exit);
    if err.None? && exit != 0 {
      var w := CauseWithExit(err, exit).value.wraps;
      assert w == {CommandFailed} && CommandFailed in w * {StartFailed, CommandFailed, CleanupFailed};
      assert w * {InvalidFrame, InvalidArgument, RefPolicy} == {};
      assert w * {ChunkLimit, InputLimit, OutputLimit, ResourceExhausted} == {};
    }
  }

  // ----- which error is told -----

  /** The category of an error that wraps one sentinel. */
  function CategoryOf(s: Sentinel): Category {
    match s
    case Denied => PermissionDenied
    case RefPolicy => InvalidRequest
    case InvalidFrame => InvalidRequest
    case InvalidArgument => InvalidRequest
    case ChunkLimit => LimitExceeded
    case InputLimit => LimitExceeded
    case OutputLimit => LimitExceeded
    case ResourceExhausted => LimitExceeded
    case Deadline => DeadlineExceeded
    case Canceled => Unavailable
    case StartFailed => ProviderFailure
    case CommandFailed => ProviderFailure
    case CleanupFailed => ProviderFailure
  }

  function Urgency(c: Category): nat {
    match c
    case PermissionDenied => 6
    case InvalidRequest => 5
    case LimitExceeded => 4
    case DeadlineExceeded => 3
    case ProviderFailure => 2
    case Unavailable => 1
    case _ => 0
  }

  /** An error is told as the most urgent of the categories of what it wraps: a denial before an invalid request, that
      before a limit, then a deadline, then a provider failure. One that wraps nothing known is unavailability. */
  lemma MostUrgentIsTold(f: Failure)
    ensures forall s :: s in f.wraps ==> Urgency(CategoryOf(s)) <= Urgency(TerminalCategory(Some(f)))
    ensures TerminalCategory(Some(f)) != Unavailable ==>
              exists s :: s in f.wraps && TerminalCategory(Some(f)) == CategoryOf(s)
    ensures f.wraps == {} ==> TerminalCategory(Some(f)) == Unavailable
  {
    var w := f.wraps;
    var invalid, limits := {InvalidFrame, InvalidArgument, RefPolicy},
        {ChunkLimit, InputLimit, OutputLimit, ResourceExhausted};
    var provider := {StartFailed, CommandFailed, CleanupFailed};
    Meet(w, invalid);
    Meet(w, limits);
    Meet(w, provider);
  }

  lemma Meet(a: set<Sentinel>, b: set<Sentinel>)
    ensures a * b != {} <==> exists s :: s in a && s in b
  {
    if s :| s in a && s in b {
      assert s in a * b;
    }
  }

  /** A terminal is valid when its category is known and its code is zero exactly for completion, and every valid one
      with a 32-bit code is made by some error, or by none. */
  lemma ValidTerminalsAreMade(t: Terminal)
    requires -0x8000_0000 <= t.exitCode < 0x8000_0000
    ensures ValidTerminal(t) <==> !t.category.Unknown? && (t.category.Completed? <==> t.exitCode == 0)
    ensures ValidTerminal(t) ==> exists err :: TerminalOf(err) == t
  {
    if ValidTerminal(t) {
      if t.category.Completed? {
        assert TerminalOf(None) == t;
      } else {
        var s := match t.category
          case PermissionDenied => Denied
          case InvalidRequest => InvalidFrame
          case LimitExceeded => OutputLimit
          case DeadlineExceeded => Deadline
          case ProviderFailure => CommandFailed
          case _ => Canceled;
        var exit := if t.exitCode > 0 then t.exitCode else t.exitCode + 0x1_0000_0000;
        var err := Some(Failure({s}, Some(exit)));
        MostUrgentIsTold(err.value);
        assert TerminalOf(err).category == t.category;
        assert Int32(exit) == t.exitCode;
        assert TerminalOf(err) == t;
      }
    }
  }
}
