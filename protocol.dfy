/**
 * The control flow of `Algo` over a non-blocking blob channel, as pure functions of a scripted
 * channel: `start`, `on_n_segs`, the drain loop of `read_segs`, `on_blob`, the abort rule of
 * `ev_wait`, and the event loop that runs continuations until nothing is left to run.
 *
 * The channel is a script of arrivals, one per receive call, in call order. An `Immediate` arrival
 * completes the receive synchronously; a `Deferred` one makes it report would-block, and its
 * continuation later runs with the arrival; an `Aborted` one makes it report would-block and its
 * wait is later aborted as the event loop shuts down. An exhausted script makes every receive
 * report would-block with nothing ever arriving.
 */
module Protocol {
  import opened Wire
  import opened Wrappers
  import opened Reassembly

  datatype Arrival = Immediate(a: Arrived) | Deferred(a: Arrived) | Aborted

  /** How a wait registered by a would-block receive ends. */
  datatype Wait = Fires(a: Arrived) | Aborts | Never

  /** The continuation a receive was given: `on_n_segs` (for the count) or `on_blob`. */
  datatype Handler = OnNSegsCont | OnBlobCont

  datatype Registration = Registration(handler: Handler, wait: Wait)

  /** Where a run stands after a call returns. */
  datatype Status =
    | Waiting(state: State, reg: Registration)   // a receive reported would-block
    | Idle(state: State)                         // its wait was aborted: nothing is left to run
    | Finished(state: State)                     // `handle_blob` returned true
    | Failed(failure: Failure)                   // an exception or assertion ended the run

  datatype Progress = Progress(status: Status, rest: seq<Arrival>)

  /** The result of posting one receive: a synchronous arrival, or the wait it registers. */
  datatype Polled = Polled(result: Option<Arrived>, pending: Option<Registration>, rest: seq<Arrival>)

  function Poll(script: seq<Arrival>, h: Handler): (p: Polled)
    ensures p.result.Some? <==> p.pending.None?
    ensures p.pending.Some? ==> p.pending.value.handler == h
    ensures script == [] ==> p.rest == [] && p.pending == Some(Registration(h, Never))
    ensures script != [] ==> p.rest == script[1..]
    ensures script != [] && script[0].Immediate? ==> p.result == Some(script[0].a)
    ensures script != [] && script[0].Deferred? ==> p.pending == Some(Registration(h, Fires(script[0].a)))
    ensures script != [] && script[0].Aborted? ==> p.pending == Some(Registration(h, Aborts))
  {
    if script == [] then Polled(None, Some(Registration(h, Never)), [])
    else match script[0]
      case Immediate(a) => Polled(Some(a), None, script[1..])
      case Deferred(a) => Polled(None, Some(Registration(h, Fires(a))), script[1..])
      case Aborted => Polled(None, Some(Registration(h, Aborts)), script[1..])
  }

  /** The state a continuation needs in order to run. */
  predicate Ready(s: State, h: Handler)
  {
    if h == OnNSegsCont then Fresh(s) else Reassembling(s)
  }

  predicate Sound(st: Status)
  {
    match st
    case Waiting(s, reg) => Ready(s, reg.handler)
    case Idle(s) => Receivable(s)
    case Finished(s) => Assembled(s)
    case Failed(_) => true
  }

  /** True while a continuation is still due to run or be dropped. */
  predicate Live(st: Status)
  {
    st.Waiting? && !st.reg.wait.Never?
  }

  function Measure(p: Progress): nat
  {
    2 * |p.rest| + if Live(p.status) then 1 else 0
  }

  /**
   * `read_segs`: post a receive into `m_n` or into the last blob's free room; on would-block return
   * with the state as it is; otherwise apply `handle_blob` and loop until it reports completion.
   */
  function ReadSegs(s: State, script: seq<Arrival>): (r: Progress)
    requires Reassembling(s)
    ensures Sound(r.status) && Measure(r) <= 2 * |script| && !r.status.Idle?
    ensures r.status.Waiting? ==> r.status.reg.handler == OnBlobCont
    ensures (script == [] || !script[0].Immediate?) ==>
              r == Progress(Waiting(s, Poll(script, OnBlobCont).pending.value), Poll(script, OnBlobCont).rest)
    decreases |script|
  {
    var p := Poll(script, OnBlobCont);
    if p.result.None? then Progress(Waiting(s, p.pending.value), p.rest)
    else
      var rc := Receive(s, p.result.value);
      match HandleBlob(rc.state, rc.code, rc.sz)
      case Continue(t) => ReadSegs(t, p.rest)
      case Complete(t) => Progress(Finished(t), p.rest)
      case Raised(f) => Progress(Failed(f), p.rest)
  }

  /** `on_blob`: throw on an error code, else one `handle_blob` step and, unless done, `read_segs`. */
  function OnBlob(s: State, code: Code, sz: nat, script: seq<Arrival>): (r: Progress)
    requires Reassembling(s)
    requires code == NoError && !s.newSegNext ==> sz <= Last(s.segs).Room()
    ensures Sound(r.status) && Measure(r) <= 2 * |script| && !r.status.Idle?
    ensures code != NoError ==> r == Progress(Failed(RuntimeError(code, OnSegSzSite)), script)
  {
    if code != NoError then Progress(Failed(RuntimeError(code, OnSegSzSite)), script)
    else
      match HandleBlob(s, code, sz)
      case Continue(t) => ReadSegs(t, script)
      case Complete(t) => Progress(Finished(t), script)
      case Raised(f) => Progress(Failed(f), script)
  }

  /** `on_n_segs`: accept the count (or throw / fail an assertion), then `read_segs`. */
  function OnNSegs(s: State, code: Code, sz: nat, script: seq<Arrival>): (r: Progress)
    requires Fresh(s)
    ensures Sound(r.status) && Measure(r) <= 2 * |script| && !r.status.Idle?
  {
    match AcceptCount(s, code, sz)
    case Success(t) => ReadSegs(t, script)
    case Failure(f) => Progress(Failed(f), script)
  }

  /** `start`: send the request word, then receive the count into `m_n`, synchronously or not. */
  function Start(script: seq<Arrival>): (r: Progress)
    ensures Sound(r.status)
  {
    var p := Poll(script, OnNSegsCont);
    if p.result.None? then Progress(Waiting(Initial(), p.pending.value), p.rest)
    else
      var rc := Receive(Initial(), p.result.value);
      OnNSegs(rc.state, rc.code, rc.sz, p.rest)
  }

  /**
   * `ev_wait`'s continuation: an aborted wait returns without running the continuation, leaving the
   * state as it was and raising nothing; a wait that fires completes the receive and runs it.
   */
  function EvWait(s: State, reg: Registration, script: seq<Arrival>): (r: Progress)
    requires !reg.wait.Never? && Ready(s, reg.handler)
    ensures Sound(r.status) && Measure(r) < 2 * |script| + 1
    ensures reg.wait.Aborts? <==> r == Progress(Idle(s), script)
  {
    match reg.wait
    case Aborts => Progress(Idle(s), script)
    case Fires(a) => Dispatch(s, reg.handler, a, script)
  }

  /** A wait that fired: the receive completes with the arrival and its continuation runs. */
  function Dispatch(s: State, h: Handler, a: Arrived, script: seq<Arrival>): (r: Progress)
    requires Ready(s, h)
    ensures Sound(r.status) && Measure(r) <= 2 * |script| && !r.status.Idle?
  {
    var rc := Receive(s, a);
    if h == OnNSegsCont then OnNSegs(rc.state, rc.code, rc.sz, script)
    else OnBlob(rc.state, rc.code, rc.sz, script)
  }

  /** The event loop: run due continuations until none is left; a finished or failed run stays so. */
  function Loop(p: Progress): (r: Progress)
    requires Sound(p.status)
    ensures Sound(r.status) && !Live(r.status)
    ensures !Live(p.status) ==> r == p
    decreases Measure(p)
  {
    if Live(p.status) then Loop(EvWait(p.status.state, p.status.reg, p.rest)) else p
  }

  /** `run_capnp_over_raw`: post `start` and run the event loop. */
  function Exchange(script: seq<Arrival>): (r: Progress)
    ensures Sound(r.status) && !Live(r.status)
  {
    Loop(Start(script))
  }
}
