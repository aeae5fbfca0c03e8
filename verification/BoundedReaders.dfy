/** The readers that cap what a provider can make the broker hold: an HTTP response body
    (internal/providerhttp/response.go), a process's standard output and its standard error (internal/runner/output.go).
    Each refines one rule: take at most the limit, and tell a longer source from a complete one. */
module BoundedReaders {
  import opened Text

  datatype Error = Eof | ReadFailed | LimitExceeded | Timeout | Cancelled | DeadlineExceeded

  /** How a source ends for a reader that takes at most `limit` bytes of it. */
  function Ending(source: Bytes, end: Error, limit: nat): Error {
    if |source| <= limit then end else LimitExceeded
  }

  function AtMost(source: Bytes, limit: nat): Bytes {
    if |source| <= limit then source else source[..limit]
  }

  predicate AllRoomy(rooms: seq<nat>) {
    forall i :: 0 <= i < |rooms| ==> rooms[i] > 0
  }

  /** An underlying reader. It delivers its bytes in pieces of its own choosing, may deliver none, and may report its
      end with the last bytes or after them; it delivers nothing only so many times in a row. */
  class RawReader {
    var rest: Bytes
    var idle: nat
    const end: Error

    constructor (source: Bytes, idle: nat, end: Error)
      ensures rest == source && this.end == end
    {
      this.rest, this.idle, this.end := source, idle, end;
    }

    method Read(room: nat) returns (data: Bytes, err: Option<Error>)
      modifies this
      ensures old(rest) == data + rest && |data| <= room
      ensures err.Some? ==> rest == "" && err.value == end
      ensures err.None? && data == "" && room > 0 ==> idle < old(idle)
      ensures idle <= old(idle)
    {
      var want := *;
      var n := if 0 <= want <= |rest| && want <= room then want else 0;
      if n == 0 && idle == 0 && room > 0 && rest != "" {
        n := 1;
      }
      data := rest[..n];
      rest := rest[n..];
      var now := *;
      if rest == "" && (now || (n == 0 && idle == 0)) {
        return data, Some(end);
      }
      if n == 0 && idle > 0 {
        idle := idle - 1;
      }
      return data, None;
    }
  }

  // ----- the HTTP response body -----

  /** The contexts at the moment of an error: what ended the caller's and the operation's, and whether the caller's
      deadline was the shorter one. */
  datatype Contexts = Contexts(caller: Option<Error>, operation: Option<Error>, callerShorter: bool)

  function MapError(c: Contexts, err: Error): Error {
    if c.caller.Some? && (c.callerShorter || c.caller.value == Cancelled) then c.caller.value
    else if c.operation == Some(DeadlineExceeded) then Timeout
    else if c.operation.Some? then c.operation.value
    else err
  }

  /** A caller that cancelled, or whose deadline was the shorter, is told its own error; otherwise the end of the
      operation is told, its deadline as a timeout; and the source's own error only while both live. */
  lemma EndedContextWins(c: Contexts, err: Error)
    ensures c.caller == Some(Cancelled) ==> MapError(c, err) == Cancelled
    ensures c.caller.Some? && c.callerShorter ==> MapError(c, err) == c.caller.value
    ensures c.operation == Some(DeadlineExceeded) && c.caller.None? ==> MapError(c, err) == Timeout
    ensures c.operation == Some(DeadlineExceeded) && c.caller == Some(DeadlineExceeded) && !c.callerShorter ==>
              MapError(c, err) == Timeout
    ensures c.operation == Some(Cancelled) && c.caller.None? ==> MapError(c, err) == Cancelled
    ensures c.operation.Some? ==> forall other :: MapError(c, other) == MapError(c, err)
    ensures Live(c) ==> MapError(c, err) == err
  {
  }

  predicate Live(c: Contexts) {
    c.caller.None? && c.operation.None?
  }

  class BoundedResponseBody {
    const body: RawReader
    var remaining: nat
    var terminal: Option<Error>
    var finished: bool
    ghost const source: Bytes
    ghost const limit: nat
    ghost var delivered: Bytes
    ghost var live: bool

    ghost predicate Valid()
      reads this, body
    {
      && remaining + |delivered| == limit
      && (terminal.None? ==> source == delivered + body.rest && !finished)
      && (terminal.Some? ==> finished)
      && (terminal.Some? && live ==>
             delivered == AtMost(source, limit) && terminal.value == Ending(source, body.end, limit))
      && delivered <= source
    }

    constructor (body: RawReader, limit: nat)
      ensures Valid() && fresh(this) && this.body == body && source == body.rest && this.limit == limit
      ensures delivered == "" && terminal.None? && live
    {
      this.body, this.remaining, this.limit := body, limit, limit;
      this.terminal, this.finished := None, false;
      this.source, this.delivered, this.live := body.rest, "", true;
    }

    /** `live` records that no context had ended at any error so far. */
    method Finish(err: Error, c: Contexts)
      modifies this
      ensures terminal == Some(err) && finished && live == (old(live) && Live(c))
      ensures remaining == old(remaining) && delivered == old(delivered)
    {
      terminal, finished := Some(err), true;
      live := live && Live(c);
    }

    method Read(room: nat, c: Contexts) returns (data: Bytes, err: Option<Error>)
      requires Valid() && this as object != body as object
      modifies this, body
      ensures Valid()
      ensures delivered == old(delivered) + data && |data| <= room
      ensures err.Some? ==> terminal == err
      ensures old(terminal).Some? ==> data == "" && terminal == old(terminal) && (room > 0 ==> err == terminal)
      ensures live == old(live) || !Live(c)
      ensures room > 0 && terminal.None? ==> |body.rest| + body.idle < old(|body.rest| + body.idle)
      ensures |body.rest| + body.idle <= old(|body.rest| + body.idle)
      ensures old(terminal).None? && terminal.Some? ==>
          terminal.value == LimitExceeded || terminal.value == MapError(c, body.end)
      ensures terminal.None? ==> err.None?
    {
      if room == 0 {
        return "", None;
      }
      if terminal.Some? {
        return "", terminal;
      }
      if remaining == 0 {
        var probe, e := body.Read(1);
        if probe != "" {
          Finish(LimitExceeded, Contexts(None, None, false));
          return "", terminal;
        }
        if e.None? {
          return "", None;
        }
        Finish(MapError(c, e.value), c);
        return "", terminal;
      }
      var size := if room > remaining + 1 then remaining + 1 else room;
      var got, e := body.Read(size);
      var taken := if |got| > remaining then remaining else |got|;
      data := got[..taken];
      remaining := remaining - taken;
      delivered := delivered + data;
      if |got| > taken {
        Finish(LimitExceeded, Contexts(None, None, false));
        return data, terminal;
      }
      if e.Some? {
        Finish(MapError(c, e.value), c);
        return data, if taken > 0 then None else terminal;
      }
      return data, None;
    }

    /** For every sequence of buffer sizes, with live contexts: the bytes are those of the source, up to the limit; once
        an error comes they are all of them, and the error is the source's own end or the limit. And it does come, for
        any buffers with room, in a number of reads that the source bounds. */
    method ReadAll(rooms: seq<nat>) returns (all: Bytes, end: Option<Error>)
      requires Valid() && live && delivered == "" && terminal.None? && this as object != body as object
      modifies this, body
      ensures all <= AtMost(source, limit)
      ensures end.Some? ==> all == AtMost(source, limit) && end.value == Ending(source, body.end, limit)
      ensures AllRoomy(rooms) && |rooms| > |source| + old(body.idle) + 1 ==> end.Some?
    {
      all, end := "", None;
      var i := 0;
      while i < |rooms| && end.None?
        invariant 0 <= i <= |rooms|
        invariant Valid() && live && all == delivered
        invariant end.Some? ==> terminal == end
        invariant terminal.None? && AllRoomy(rooms) ==> |body.rest| + body.idle + i <= |source| + old(body.idle)
        invariant end.None? && terminal.Some? && AllRoomy(rooms) ==> i <= |source| + old(body.idle) + 1
      {
        var data;
        data, end := Read(rooms[i], Contexts(None, None, false));
        all := all + data;
        i := i + 1;
      }
    }
  }

  // ----- a process's standard output -----

  class LimitedReader {
    const raw: RawReader
    const limit: nat
    var count: nat
    var killed: bool
    ghost const source: Bytes
    ghost var delivered: Bytes

    /** Before any error: everything taken from the process has been delivered. */
    ghost predicate Clean()
      reads this, raw
    {
      count == |delivered| <= limit && !killed && source == delivered + raw.rest
    }

    constructor (raw: RawReader, limit: nat)
      ensures Clean() && fresh(this) && this.raw == raw && source == raw.rest && this.limit == limit && delivered == ""
    {
      this.raw, this.limit, this.count, this.killed := raw, limit, 0, false;
      this.source, this.delivered := raw.rest, "";
    }

    method Read(room: nat) returns (data: Bytes, err: Option<Error>)
      requires Clean() && this as object != raw as object
      modifies this, raw
      ensures delivered == old(delivered) + data && |data| <= room
      ensures err.None? ==> Clean()
      ensures err.None? && room > 0 ==> |raw.rest| + raw.idle < old(|raw.rest| + raw.idle)
      ensures |raw.rest| + raw.idle <= old(|raw.rest| + raw.idle)
      ensures err.Some? ==> delivered == AtMost(source, limit) && err.value == Ending(source, raw.end, limit)
      ensures killed <==> err.Some? && |source| > limit
    {
      if limit - count <= 0 {
        var probe;
        probe, err := raw.Read(1);
        if probe != "" {
          killed := true;
          return "", Some(LimitExceeded);
        }
        return "", err;
      }
      var remaining := limit - count;
      var size := if room > remaining + 1 then remaining + 1 else room;
      var got;
      got, err := raw.Read(size);
      if |got| > remaining {
        data := got[..remaining];
        count := count + remaining;
        killed := true;
        delivered := delivered + data;
        return data, Some(LimitExceeded);
      }
      count := count + |got|;
      delivered := delivered + got;
      return got, err;
    }

    method ReadAll(rooms: seq<nat>) returns (all: Bytes, end: Option<Error>)
      requires Clean() && delivered == "" && this as object != raw as object
      modifies this, raw
      ensures all <= AtMost(source, limit)
      ensures end.Some? ==> all == AtMost(source, limit) && end.value == Ending(source, raw.end, limit)
      ensures killed <==> end.Some? && |source| > limit
      ensures AllRoomy(rooms) && |rooms| > |source| + old(raw.idle) ==> end.Some?
    {
      all, end := "", None;
      var i := 0;
      while i < |rooms| && end.None?
        invariant 0 <= i <= |rooms|
        invariant all == delivered
        invariant end.None? ==> Clean()
        invariant end.Some? ==> all == AtMost(source, limit) && end.value == Ending(source, raw.end, limit)
        invariant killed <==> end.Some? && |source| > limit
        invariant end.None? && AllRoomy(rooms) ==> |raw.rest| + raw.idle + i <= |source| + old(raw.idle)
      {
        var data;
        data, end := Read(rooms[i]);
        all := all + data;
        i := i + 1;
      }
    }
  }

  // ----- a process's standard error -----

  const BUFFER_BYTES := 32 * 1024

  /** Keeping what the limit allows of one more piece keeps what it allows of the whole. */
  lemma KeepsAtMost(taken: Bytes, got: Bytes, limit: nat)
    ensures var kept := AtMost(taken, limit);
            var accepted := if |got| > limit - |kept| then limit - |kept| else |got|;
            accepted >= 0 && AtMost(taken + got, limit) == kept + got[..accepted]
  {
    var kept := AtMost(taken, limit);
    var accepted := if |got| > limit - |kept| then limit - |kept| else |got|;
    if |taken + got| <= limit {
      assert got[..accepted] == got;
    } else if |taken| > limit {
      assert got[..accepted] == "" && (taken + got)[..limit] == taken[..limit];
    } else {
      assert (taken + got)[..limit] == taken + got[..accepted];
    }
  }

  lemma AtMostFits(taken: Bytes, limit: nat)
    ensures |AtMost(taken, limit)| == if |taken| <= limit then |taken| else limit
  {
  }

  class StderrCapture {
    const raw: RawReader
    const limit: nat
    var count: nat
    var killed: bool
    var data: Bytes

    constructor (raw: RawReader, limit: nat)
      ensures fresh(this) && this.raw == raw && this.limit == limit && data == "" && count == 0 && !killed
    {
      this.raw, this.limit, this.count, this.killed, this.data := raw, limit, 0, false, "";
    }

    ghost predicate Kept(taken: Bytes)
      reads this
    {
      data == AtMost(taken, limit) && count == |data| && (killed <==> |taken| > limit)
    }

    /** One piece, inside the drain loop. */
    method Keep(got: Bytes, ghost taken: Bytes)
      requires Kept(taken)
      modifies this
      ensures Kept(taken + got)
    {
      hide AtMost;
      KeepsAtMost(taken, got, limit);
      AtMostFits(taken, limit);
      AtMostFits(taken + got, limit);
      var remaining := limit - count;
      var accepted := if |got| > remaining then remaining else |got|;
      if accepted > 0 {
        data := data + got[..accepted];
        count := count + accepted;
      }
      if accepted < |got| {
        killed := true;
      }
    }

    /** Reads to the end whatever the length, keeps what the limit allows, and kills the process exactly on overflow. */
    method Drain() returns (err: Option<Error>)
      requires data == "" && count == 0 && !killed && this as object != raw as object
      modifies this, raw
      ensures data == AtMost(old(raw.rest), limit) && count == |data|
      ensures killed <==> |old(raw.rest)| > limit
      ensures err == if raw.end == Eof then None else Some(raw.end)
    {
      ghost var source := raw.rest;
      ghost var taken: Bytes := "";
      while true
        invariant source == taken + raw.rest && Kept(taken)
        decreases |raw.rest|, raw.idle
      {
        var got, e := raw.Read(BUFFER_BYTES);
        Keep(got, taken);
        taken := taken + got;
        if e.Some? {
          assert taken == source;
          return if e.value == Eof then None else e;
        }
      }
    }
  }
}
