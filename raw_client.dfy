/**
 * `run_capnp_over_raw()`'s `struct Algo` as a class whose methods update its fields in place, over
 * a scripted blob channel. Every method is proved to do what the function of the same name in
 * `Protocol` (or `Reassembly`) says, so the properties proved of those functions hold of it.
 */
module RawClient {
  import opened Wire
  import opened Wrappers
  import opened Reassembly
  import opened Protocol

  /** The non-blocking blob channel, driven by a script of arrivals. */
  class BlobChannel {
    var script: seq<Arrival>
    /** The continuation registered by the last receive that reported would-block, until it runs. */
    var pending: Option<Registration>
    /** Blobs sent so far. */
    var sent: seq<seq<byte>>

    constructor (script: seq<Arrival>)
      ensures this.script == script && pending == None && sent == []
    {
      this.script := script;
      pending := None;
      sent := [];
    }

    /** `send_blob`. */
    method SendBlob(b: seq<byte>)
      modifies this
      ensures sent == old(sent) + [b] && script == old(script) && pending == old(pending)
    {
      sent := sent + [b];
    }

    /**
     * `async_receive_blob` into a buffer of `room` bytes, with continuation `h`: completes at once
     * with the next arrival, or reports would-block and registers `h` to run when its wait ends.
     */
    method AsyncReceiveBlob(room: nat, h: Handler) returns (code: Code, data: seq<byte>)
      requires pending.None?
      modifies this
      ensures var p := Poll(old(script), h);
              && script == p.rest && pending == p.pending && sent == old(sent)
              && (p.result.None? ==> code == WouldBlock && data == [])
              && (p.result.Some? ==> Delivery(code, data) == Transfer(p.result.value, room))
    {
      var p := Poll(script, h);
      script, pending := p.rest, p.pending;
      if p.result.None? {
        code, data := WouldBlock, [];
      } else {
        var d := Transfer(p.result.value, room);
        code, data := d.code, d.data;
      }
    }

    /** The event loop takes the registered continuation, to run it or to drop it. */
    method TakePending() returns (reg: Registration)
      requires pending.Some?
      modifies this
      ensures reg == old(pending).value && pending == None && script == old(script) && sent == old(sent)
    {
      reg := pending.value;
      pending := None;
    }
  }

  class Algo {
    const chan: BlobChannel
    var errCode: Code           // m_err_code
    var sz: nat                 // m_sz
    var n: seq<byte>            // m_n: the count, then each segment length
    var nSegs: nat              // m_n_segs
    var segs: seq<Blob>         // m_segs
    var newSegNext: bool        // m_new_seg_next
    /** The word arrays handed to the decoder, once `on_complete_response` has run. */
    var decoded: Option<seq<seq<seq<byte>>>>

    constructor (chan: BlobChannel)
      ensures this.chan == chan && Snapshot() == Initial() && decoded.None?
    {
      this.chan := chan;
      errCode, sz := NoError, 0;
      n := Zeros(WordSize);
      nSegs := 0;
      segs := [];
      newSegNext := true;
      decoded := None;
    }

    function Snapshot(): State
      reads this
    {
      State(n, nSegs, segs, newSegNext)
    }

    /** Where the run stands after a call that returned (or threw) `r`. */
    ghost function Observed(r: Outcome<Failure>): Status
      reads this, chan
    {
      if r.Fail? then Failed(r.error)
      else if decoded.Some? then Finished(Snapshot())
      else if chan.pending.Some? then Waiting(Snapshot(), chan.pending.value)
      else Idle(Snapshot())
    }

    /** The call that returned `r` ended where `p` says, and a finished run handed its words on. */
    ghost predicate Reports(r: Outcome<Failure>, p: Progress)
      reads this, chan
    {
      && Observed(r) == p.status
      && chan.script == p.rest
      && (p.status.Finished? && Assembled(p.status.state) ==> decoded == Some(WordArrays(p.status.state.segs)))
    }

    /** The channel's write of a receive's bytes into the buffer it was given. */
    method Deposit(data: seq<byte>)
      requires Receivable(Snapshot()) && |data| <= Room(Snapshot())
      modifies this
      ensures Snapshot() == Land(old(Snapshot()), data)
      ensures decoded == old(decoded) && errCode == old(errCode) && sz == old(sz)
    {
      if newSegNext {
        n := Overwrite(n, 0, data);
      } else {
        var k := |segs| - 1;
        segs := segs[..k] + [segs[k].(storage := Overwrite(segs[k].storage, segs[k].size, data))];
      }
    }

    /**
     * A receive completed inline with `code` and `data`, as the channel delivers arrival `a`: the
     * channel has written the result into `m_err_code` and `m_sz` and the bytes are in place.
     */
    method Accept(ghost a: Arrived, code: Code, data: seq<byte>)
      requires Receivable(Snapshot()) && Delivery(code, data) == Transfer(a, Room(Snapshot()))
      modifies this
      ensures Received(Snapshot(), errCode, sz) == Receive(old(Snapshot()), a)
      ensures decoded == old(decoded)
    {
      if code == NoError {
        Deposit(data);
      }
      errCode, sz := code, |data|;
    }

    /** `start`. */
    method Start() returns (r: Outcome<Failure>)
      requires Snapshot() == Initial() && chan.pending.None? && decoded.None?
      modifies this, chan
      ensures Reports(r, Protocol.Start(old(chan.script)))
      ensures chan.sent == old(chan.sent) + [Zeros(WordSize)]
    {
      // the request signal: the one word m_n, still 0
      chan.SendBlob(n);
      ghost var p := Poll(chan.script, OnNSegsCont);
      var code, data := chan.AsyncReceiveBlob(WordSize, OnNSegsCont);
      if code != WouldBlock {
        Accept(p.result.value, code, data);
        r := OnNSegs(errCode, sz);
      } else {
        errCode := code;
        r := Pass;
      }
    }

    /** `on_n_segs`. */
    method OnNSegs(code: Code, size: nat) returns (r: Outcome<Failure>)
      requires Fresh(Snapshot()) && chan.pending.None? && decoded.None?
      modifies this, chan
      ensures Reports(r, Protocol.OnNSegs(old(Snapshot()), code, size, old(chan.script)))
      ensures chan.sent == old(chan.sent)
    {
      if code != NoError {
        return Fail(RuntimeError(code, OnNSegsSite));
      }
      if size != WordSize {
        return Fail(AssertionFailed(CountSizeCheck));
      }
      if Decode(n) == 0 {
        return Fail(AssertionFailed(NonZeroCheck));
      }
      nSegs := Decode(n);
      r := ReadSegs();
    }

    /** `read_segs`: the drain loop. */
    method ReadSegs() returns (r: Outcome<Failure>)
      requires Reassembling(Snapshot()) && chan.pending.None? && decoded.None?
      modifies this, chan
      ensures Reports(r, Protocol.ReadSegs(old(Snapshot()), old(chan.script)))
      ensures chan.sent == old(chan.sent)
    {
      while true
        invariant Reassembling(Snapshot()) && chan.pending.None? && decoded.None?
        invariant Protocol.ReadSegs(Snapshot(), chan.script) == Protocol.ReadSegs(old(Snapshot()), old(chan.script))
        invariant chan.sent == old(chan.sent)
        decreases |chan.script|
      {
        var stop := ReadSeg();
        if stop.Some? {
          return stop.value;
        }
      }
    }

    /**
     * One pass of `read_segs`'s loop: post a receive into `m_n` or into the last blob's free room and
     * handle what it delivered. Returns the call's result when the loop ends here, and `None` when
     * it goes round again, having consumed one arrival on the way to the same outcome.
     */
    method ReadSeg() returns (stop: Option<Outcome<Failure>>)
      requires Reassembling(Snapshot()) && chan.pending.None? && decoded.None?
      modifies this, chan
      ensures stop.Some? ==> Reports(stop.value, Protocol.ReadSegs(old(Snapshot()), old(chan.script)))
      ensures stop.None? ==>
                && Reassembling(Snapshot()) && chan.pending.None? && decoded.None?
                && |chan.script| < |old(chan.script)|
                && Protocol.ReadSegs(Snapshot(), chan.script) == Protocol.ReadSegs(old(Snapshot()), old(chan.script))
      ensures chan.sent == old(chan.sent)
    {
      ghost var p := Poll(chan.script, OnBlobCont);
      var code, data;
      if newSegNext {
        code, data := chan.AsyncReceiveBlob(WordSize, OnBlobCont);
      } else {
        var seg := segs[|segs| - 1];
        code, data := chan.AsyncReceiveBlob(seg.Capacity() - seg.size, OnBlobCont);
      }
      if code == WouldBlock {
        errCode := code;
        return Some(Pass);
      }
      Accept(p.result.value, code, data);
      var handled := HandleBlob(errCode, sz);
      match handled
      case Failure(f) =>
        stop := Some(Fail(f));
      case Success(complete) =>
        stop := if complete then Some(Pass) else None;
    }

    /** `on_blob`. */
    method OnBlob(code: Code, size: nat) returns (r: Outcome<Failure>)
      requires Reassembling(Snapshot()) && chan.pending.None? && decoded.None?
      requires code == NoError && !newSegNext ==> size <= Last(segs).Room()
      modifies this, chan
      ensures Reports(r, Protocol.OnBlob(old(Snapshot()), code, size, old(chan.script)))
      ensures chan.sent == old(chan.sent)
    {
      if code != NoError {
        return Fail(RuntimeError(code, OnSegSzSite));
      }
      var handled := HandleBlob(code, size);
      match handled
      case Failure(f) =>
        r := Fail(f);
      case Success(complete) =>
        if !complete {
          r := ReadSegs();
        } else {
          r := Pass;
        }
    }

    /** `handle_blob`: returns whether the response is complete. */
    method HandleBlob(code: Code, size: nat) returns (r: Result<bool, Failure>)
      requires Reassembling(Snapshot()) && decoded.None?
      requires code == NoError && !newSegNext ==> size <= Last(segs).Room()
      modifies this
      ensures match Reassembly.HandleBlob(old(Snapshot()), code, size)
              case Continue(t) => r == Success(false) && Snapshot() == t && decoded.None?
              case Complete(t) => r == Success(true) && Snapshot() == t && decoded == Some(WordArrays(t.segs))
              case Raised(f) => r == Failure(f)
    {
      if code != NoError {
        return Failure(RuntimeError(code, OnSegSzSite));
      }
      if newSegNext {
        newSegNext := false;
        if Decode(n) == 0 {
          return Failure(AssertionFailed(NonZeroCheck));
        }
        // emplace_back(m_n) followed by clear(): capacity m_n, size 0
        segs := segs + [Blob(Zeros(Decode(n)), 0)];
      } else {
        var k := |segs| - 1;
        var seg := segs[k].(size := segs[k].size + size);
        segs := segs[..k] + [seg];
        if seg.Full() {
          if |segs| == nSegs {
            var words := OnCompleteResponse();
            decoded := Some(words);
            return Success(true);
          }
          newSegNext := true;
        }
      }
      return Success(false);
    }

    /**
     * `on_complete_response`: one word array per blob, in blob order, each `size / sizeof(word)`
     * words long and holding the blob's bytes.
     */
    method OnCompleteResponse() returns (words: seq<seq<seq<byte>>>)
      requires forall i | 0 <= i < |segs| :: segs[i].Valid()
      ensures |words| == |segs|
      ensures forall i | 0 <= i < |segs| :: |words[i]| == segs[i].size / WordSize
      ensures forall i | 0 <= i < |segs| :: Flatten(words[i]) + segs[i].Content()[|words[i]| * WordSize..] == segs[i].Content()
      ensures words == WordArrays(segs)
    {
      words := [];
      for i := 0 to |segs|
        invariant |words| == i
        invariant forall j | 0 <= j < i :: words[j] == Chunks(segs[j].Content())
      {
        words := words + [Chunks(segs[i].Content())];
      }
    }

    /**
     * `ev_wait`'s continuation for the registered wait `reg`: an aborted wait returns at once, and
     * the continuation does not run; otherwise the receive completes and the continuation runs.
     */
    method EvWait(reg: Registration) returns (r: Outcome<Failure>)
      requires !reg.wait.Never? && Ready(Snapshot(), reg.handler) && chan.pending.None? && decoded.None?
      modifies this, chan
      ensures Reports(r, Protocol.EvWait(old(Snapshot()), reg, old(chan.script)))
      ensures chan.sent == old(chan.sent)
    {
      match reg.wait
      case Aborts =>
        r := Pass;
      case Fires(a) =>
        // the channel completes the receive into the buffer it was given, and passes its result
        // to the continuation as arguments; m_err_code and m_sz are not written on this path
        var d := Transfer(a, Room(Snapshot()));
        if d.code == NoError {
          Deposit(d.data);
        }
        assert Received(Snapshot(), d.code, |d.data|) == Receive(old(Snapshot()), a);
        if reg.handler == OnNSegsCont {
          r := OnNSegs(d.code, |d.data|);
        } else {
          r := OnBlob(d.code, |d.data|);
        }
    }

    /** `run_capnp_over_raw`: post `start`, then run the event loop until nothing is left to run. */
    method Run() returns (r: Outcome<Failure>)
      requires Snapshot() == Initial() && chan.pending.None? && decoded.None?
      modifies this, chan
      ensures Reports(r, Exchange(old(chan.script)))
      ensures chan.sent == old(chan.sent) + [Zeros(WordSize)]
    {
      r := Start();
      while r.Pass? && decoded.None? && chan.pending.Some? && !chan.pending.value.wait.Never?
        invariant Sound(Observed(r))
        invariant Reports(r, Progress(Observed(r), chan.script))
        invariant Loop(Progress(Observed(r), chan.script)) == Exchange(old(chan.script))
        invariant chan.sent == old(chan.sent) + [Zeros(WordSize)]
        decreases Measure(Progress(Observed(r), chan.script))
      {
        var reg := chan.TakePending();
        r := EvWait(reg);
      }
    }
  }
}
