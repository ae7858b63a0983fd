/** `src/random.rs`: filling a buffer from the `getrandom` system call.
    The kernel is a script of replies, one per call, in call order. */
module Random {
  import opened Base
  import opened Errors

  const GRND_NONBLOCK: nat := 1

  /** The `flags` argument: 0 to block until the entropy pool is ready. */
  function Flags(block: bool): (f: nat)
    ensures f == 0 <==> block
  {
    if block then 0 else GRND_NONBLOCK
  }

  /** One `getrandom(p, l, flags)` call: the buffer offset `p` points at,
      the length asked for and the flags. */
  datatype Call = Call(offset: nat, len: nat, flags: nat)

  /** The kernel's reply to one call: the bytes it wrote, or an error. */
  datatype Reply = Got(bytes: seq<Byte>) | Errno(e: Error)

  /** `rand::ErrorKind` of a failure. */
  datatype RandError = Unavailable | NotReady | Unexpected(code: Error)

  datatype FillResult = FillOk | FillErr(kind: RandError)

  /** What a run did: its result, the calls it made, and the bytes the
      kernel wrote, in buffer order. */
  datatype Trace = Trace(result: FillResult, calls: seq<Call>, written: seq<Byte>)

  /** How a kernel error other than `EINTR` is reported. */
  function Kind(e: Error): (k: RandError)
    ensures k == Unavailable <==> e == ENOSYS
    ensures k == NotReady <==> e == EAGAIN
    ensures k.Unexpected? ==> k.code == e
  {
    if e == ENOSYS then Unavailable
    else if e == EAGAIN then NotReady
    else Unexpected(e)
  }

  /** Bytes of progress a reply makes. */
  function Progress(r: Reply): nat
  {
    if r.Got? then |r.bytes| else 0
  }

  function Then(call: Call, bs: seq<Byte>, t: Option<Trace>): Option<Trace>
  {
    match t
    case None => None
    case Some(tr) => Some(Trace(tr.result, [call] + tr.calls, bs + tr.written))
  }

  /** The loop of `try_fill_bytes_getrandom` from offset `done` of a
      buffer of `total` bytes: ask for the rest, retry `EINTR`, stop at
      the first other error. `None` when the script runs out first, or
      when the kernel claims more bytes than were asked for (which it
      never does). */
  function Loop(script: seq<Reply>, total: nat, done: nat, flags: nat): Option<Trace>
    requires done <= total
    decreases |script|
  {
    if done == total then Some(Trace(FillOk, [], []))
    else if script == [] then None
    else
      var call := Call(done, total - done, flags);
      match script[0]
      case Errno(e) =>
        if e == EINTR then Then(call, [], Loop(script[1..], total, done, flags))
        else Some(Trace(FillErr(Kind(e)), [call], []))
      case Got(bs) =>
        if |bs| > total - done then None
        else Then(call, bs, Loop(script[1..], total, done + |bs|, flags))
  }

  /** Success means the successful calls wrote exactly the rest of the
      buffer; a failure leaves part of it unwritten. */
  lemma {:induction false} WrittenLength(script: seq<Reply>, total: nat, done: nat, flags: nat)
    requires done <= total && Loop(script, total, done, flags).Some?
    ensures var t := Loop(script, total, done, flags).value;
      (t.result == FillOk ==> |t.written| == total - done)
      && (t.result.FillErr? ==> |t.written| < total - done)
    decreases |script|
  {
    if done < total {
      match script[0]
      case Errno(e) =>
        if e == EINTR { WrittenLength(script[1..], total, done, flags); }
      case Got(bs) =>
        WrittenLength(script[1..], total, done + |bs|, flags);
    }
  }

  /** One step of the loop: the first call asks for the rest at `done`;
      after an `EINTR` or a read the run goes on from the reply's
      progress. */
  lemma LoopStep(script: seq<Reply>, total: nat, done: nat, flags: nat)
    requires done < total && Loop(script, total, done, flags).Some?
    ensures script != []
    ensures var calls := Loop(script, total, done, flags).value.calls;
      var call := Call(done, total - done, flags);
      var k := done + Progress(script[0]);
      if script[0].Errno? && script[0].e != EINTR then calls == [call]
      else k <= total && Loop(script[1..], total, k, flags).Some?
           && calls == [call] + Loop(script[1..], total, k, flags).value.calls
  {
  }

  /** Every call asks for all that remains at its offset, with the same
      flags; the first starts at `done`, and there is at most one call per
      reply. */
  lemma {:induction false} CallsAskForRest(script: seq<Reply>, total: nat, done: nat, flags: nat)
    requires done <= total && Loop(script, total, done, flags).Some?
    ensures var calls := Loop(script, total, done, flags).value.calls;
      |calls| <= |script|
      && (|calls| > 0 ==> calls[0].offset == done)
      && forall i :: 0 <= i < |calls| ==>
           calls[i].offset < total && calls[i].len == total - calls[i].offset
           && calls[i].flags == flags
    decreases |script|
  {
    if done < total {
      LoopStep(script, total, done, flags);
      if !(script[0].Errno? && script[0].e != EINTR) {
        CallsAskForRest(script[1..], total, done + Progress(script[0]), flags);
      }
    }
  }

  /** Each next call's offset is the previous one's advanced by that
      reply's progress (so `EINTR` retries in place), which is to say the
      `i`-th call gets the `i`-th reply; every reply but the last one's is
      a read or an `EINTR`. */
  lemma {:induction false} CallsFollowReplies(script: seq<Reply>, total: nat, done: nat, flags: nat)
    requires done <= total && Loop(script, total, done, flags).Some?
    ensures var calls := Loop(script, total, done, flags).value.calls;
      |calls| <= |script|
      && forall i :: 0 <= i < |calls| - 1 ==>
           calls[i + 1].offset == calls[i].offset + Progress(script[i])
           && (script[i].Errno? ==> script[i].e == EINTR)
    decreases |script|
  {
    if done < total {
      LoopStep(script, total, done, flags);
      if !(script[0].Errno? && script[0].e != EINTR) {
        var k := done + Progress(script[0]);
        CallsFollowReplies(script[1..], total, k, flags);
        CallsAskForRest(script[1..], total, k, flags);
        var calls := Loop(script, total, done, flags).value.calls;
        forall i | 0 <= i < |calls| - 1
          ensures calls[i + 1].offset == calls[i].offset + Progress(script[i])
          ensures script[i].Errno? ==> script[i].e == EINTR
        {
          if i > 0 { assert script[i] == script[1..][i - 1]; }
        }
      }
    }
  }

  /** A failure is the kind of the reply to the last call, which is not `EINTR`. */
  lemma {:induction false} FailureIsLastReply(script: seq<Reply>, total: nat, done: nat, flags: nat)
    requires done <= total && Loop(script, total, done, flags).Some?
    requires Loop(script, total, done, flags).value.result.FillErr?
    ensures var t := Loop(script, total, done, flags).value;
      var n := |t.calls|;
      0 < n <= |script| && script[n - 1].Errno? && script[n - 1].e != EINTR
      && t.result.kind == Kind(script[n - 1].e)
    decreases |script|
  {
    match script[0]
    case Errno(e) =>
      if e == EINTR {
        FailureIsLastReply(script[1..], total, done, flags);
      }
    case Got(bs) =>
      FailureIsLastReply(script[1..], total, done + |bs|, flags);
  }

  /** The loop's invariant: the run so far made `calls` and wrote
      `written`, and the rest of the script, from reply `n` at offset `p`,
      completes the trace `t` of the whole run. */
  ghost predicate Midway(t: Trace, script: seq<Reply>, n: nat, total: nat, p: nat, flags: nat,
                         calls: seq<Call>, written: seq<Byte>)
  {
    && n <= |script| && p <= total && |written| == p
    && Loop(script[n..], total, p, flags).Some?
    && var rest := Loop(script[n..], total, p, flags).value;
       t.result == rest.result && t.calls == calls + rest.calls && t.written == written + rest.written
  }

  /** Reply `n` is consumed: an `EINTR` or a successful read moves the
      run on, any other error ends it with `t`'s result. */
  lemma Advance(t: Trace, script: seq<Reply>, n: nat, total: nat, p: nat, flags: nat,
                calls: seq<Call>, written: seq<Byte>)
    requires Midway(t, script, n, total, p, flags, calls, written) && p < total
    ensures n < |script|
    ensures var call := Call(p, total - p, flags);
      match script[n]
      case Errno(e) =>
        if e == EINTR then Midway(t, script, n + 1, total, p, flags, calls + [call], written)
        else t.result == FillErr(Kind(e)) && t.calls == calls + [call] && t.written == written
      case Got(bs) =>
        p + |bs| <= total
        && Midway(t, script, n + 1, total, p + |bs|, flags, calls + [call], written + bs)
  {
    assert script[n..][0] == script[n];
    assert script[n..][1..] == script[n + 1..];
  }

  /** `try_fill_bytes_getrandom`. `&mut bs[0]` panics on an empty buffer
      before any call, hence the first precondition; the second says the
      script covers the run. The buffer ends up holding the kernel's
      bytes in order, followed by whatever was not overwritten. */
  method TryFillBytesGetrandom(bs: array<Byte>, block: bool, script: seq<Reply>)
      returns (r: FillResult, ghost calls: seq<Call>)
    requires bs.Length > 0
    requires Loop(script, bs.Length, 0, Flags(block)).Some?
    modifies bs
    ensures var t := Loop(script, bs.Length, 0, Flags(block)).value;
      r == t.result && calls == t.calls
      && |t.written| <= bs.Length && bs[..] == t.written + old(bs[..])[|t.written|..]
  {
    var flags := Flags(block);
    ghost var total := bs.Length;
    ghost var t := Loop(script, total, 0, flags).value;
    var p: nat := 0;
    var l := bs.Length;
    var n: nat := 0;
    calls := [];
    ghost var written: seq<Byte> := [];
    while l > 0
      invariant l == total - p
      invariant Midway(t, script, n, total, p, flags, calls, written)
      invariant bs[..] == written + old(bs[..])[p..]
      decreases |script| - n
    {
      Advance(t, script, n, total, p, flags, calls, written);
      var call := Call(p, l, flags);
      var reply := script[n];
      n := n + 1;
      calls := calls + [call];
      match reply {
        case Errno(e) =>
          if e == EINTR {
            continue;
          }
          return FillErr(Kind(e)), calls;
        case Got(chunk) =>
          Store(bs, p, chunk);
          assert old(bs[..])[p..][|chunk|..] == old(bs[..])[p + |chunk|..];
          written := written + chunk;
          p := p + |chunk|;
          l := l - |chunk|;
      }
    }
    r := FillOk;
  }

  /** The kernel writing `chunk` into the buffer at offset `p`. */
  method Store(bs: array<Byte>, p: nat, chunk: seq<Byte>)
    requires p + |chunk| <= bs.Length
    modifies bs
    ensures bs[..] == old(bs[..p]) + chunk + old(bs[p + |chunk|..])
  {
    forall k | 0 <= k < |chunk| {
      bs[p + k] := chunk[k];
    }
    assert bs[..] == old(bs[..p]) + chunk + old(bs[p + |chunk|..]);
  }

  /** `RngCore::fill_bytes`: blocking, and unwrapping, so it panics on any
      error (here: may only be called when the run succeeds). */
  method FillBytes(bs: array<Byte>, script: seq<Reply>)
    requires bs.Length > 0
    requires Loop(script, bs.Length, 0, Flags(true)).Some?
    requires Loop(script, bs.Length, 0, Flags(true)).value.result == FillOk
    modifies bs
    ensures bs[..] == Loop(script, bs.Length, 0, Flags(true)).value.written
  {
    WrittenLength(script, bs.Length, 0, Flags(true));
    var r; ghost var calls;
    r, calls := TryFillBytesGetrandom(bs, true, script);
  }

  /** `RngCore::try_fill_bytes`: non-blocking, errors returned. */
  method TryFillBytes(bs: array<Byte>, script: seq<Reply>) returns (r: FillResult)
    requires bs.Length > 0
    requires Loop(script, bs.Length, 0, Flags(false)).Some?
    modifies bs
    ensures var t := Loop(script, bs.Length, 0, Flags(false)).value;
      r == t.result && (r == FillOk ==> bs[..] == t.written)
  {
    WrittenLength(script, bs.Length, 0, Flags(false));
    ghost var calls;
    r, calls := TryFillBytesGetrandom(bs, false, script);
  }
}
