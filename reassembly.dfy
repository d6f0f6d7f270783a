/**
 * The state of `run_capnp_over_raw()`'s local `struct Algo` and the steps that change it, as pure
 * functions: accepting the segment count (`on_n_segs`), landing received bytes in the buffer a
 * receive was given, one `handle_blob` step, and the word arrays `on_complete_response` builds.
 */
module Reassembly {
  import opened Wire
  import opened Wrappers

  /**
   * One `Blob` of `m_segs`: its memory (`storage`, whose length is the capacity) and its size.
   * A receive writes past `size`; `resize` then makes those bytes part of the blob.
   */
  datatype Blob = Blob(storage: seq<byte>, size: nat) {
    predicate Valid() { size <= |storage| }
    function Capacity(): nat { |storage| }
    predicate Full() { size == |storage| }
    function Room(): nat requires Valid() { |storage| - size }
    function Content(): seq<byte> requires Valid() { storage[..size] }
  }

  /** The fields of `Algo` that carry the protocol: `m_n`, `m_n_segs`, `m_segs`, `m_new_seg_next`. */
  datatype State = State(n: seq<byte>, nSegs: nat, segs: seq<Blob>, newSegNext: bool)

  /** An `Error_code` as the blob channel reports it. */
  datatype Code =
    | NoError
    | WouldBlock            // S_SYNC_IO_WOULD_BLOCK: no result yet, the continuation will run later
    | TooLarge              // the in-blob was larger than the buffer the receive offered
    | Fault(id: nat)        // any other transport error

  /** Why a run stops without completing: a thrown `Runtime_error`, or a failed `assert`. */
  datatype Failure = RuntimeError(code: Code, site: string) | AssertionFailed(what: string)

  const OnNSegsSite := "run_capnp_over_raw():on_n_segs()"
  const OnSegSzSite := "run_capnp_over_raw():on_seg_sz()"
  const CountSizeCheck := "First in-message should be capnp-segment count."
  const NonZeroCheck := "m_n != 0"

  /** The result of one `handle_blob` call: keep reading, the response is complete, or it threw. */
  datatype Step = Continue(next: State) | Complete(next: State) | Raised(failure: Failure)

  function Last(segs: seq<Blob>): Blob
    requires segs != []
  {
    segs[|segs| - 1]
  }

  /** `Algo` as constructed: `m_n = 0`, no segments, a header (here: the count) expected next. */
  function Initial(): (s: State)
    ensures Fresh(s) && Decode(s.n) == 0
  {
    DecodeEncode(0, WordSize);
    assert Zeros(WordSize) == Encode(0, WordSize);
    State(Zeros(WordSize), 0, [], true)
  }

  /** Before the count is accepted: no segment yet, the next bytes go into `m_n`. */
  predicate Fresh(s: State)
  {
    |s.n| == WordSize && s.segs == [] && s.newSegNext
  }

  /**
   * The invariant of the reassembly phase, between two `handle_blob` steps: the count is at least
   * one and bounds the list; every blob fits its capacity, which is a non-zero header value; all but
   * the last blob are full; and `m_new_seg_next` tells whether the last one is full.
   */
  predicate Reassembling(s: State)
  {
    && |s.n| == WordSize
    && 1 <= s.nSegs
    && |s.segs| <= s.nSegs
    && (forall i | 0 <= i < |s.segs| :: s.segs[i].Valid() && s.segs[i].Capacity() > 0)
    && (forall i | 0 <= i < |s.segs| - 1 :: s.segs[i].Full())
    && if s.newSegNext then |s.segs| < s.nSegs && (s.segs == [] || Last(s.segs).Full())
       else s.segs != [] && !Last(s.segs).Full()
  }

  /** The state `handle_blob` completes in: exactly `m_n_segs` blobs, every one of them full. */
  predicate Assembled(s: State)
  {
    && |s.n| == WordSize
    && 1 <= s.nSegs == |s.segs|
    && forall i | 0 <= i < |s.segs| :: s.segs[i].Valid() && s.segs[i].Capacity() > 0 && s.segs[i].Full()
  }

  /** A state a receive can be posted from: `m_n` is a word, and a body receive has a last blob. */
  predicate Receivable(s: State)
  {
    |s.n| == WordSize && (!s.newSegNext ==> s.segs != [] && Last(s.segs).Valid())
  }

  /**
   * The size of the buffer `read_segs` offers: `sizeof(m_n)` for a count or header, else
   * `capacity() - size()` of the last blob.
   */
  function Room(s: State): nat
    requires Receivable(s)
  {
    if s.newSegNext then WordSize else Last(s.segs).Room()
  }

  /**
   * The memory effect of a receive that delivered `data`: into `m_n` when a header is expected,
   * otherwise just past the end of the last blob, whose size and content are not yet changed.
   */
  function Land(s: State, data: seq<byte>): (t: State)
    requires Receivable(s) && |data| <= Room(s)
    ensures Receivable(t) && Room(t) == Room(s)
    ensures t.nSegs == s.nSegs && t.newSegNext == s.newSegNext && |t.segs| == |s.segs|
    ensures s.newSegNext ==> t.segs == s.segs && t.n[..|data|] == data && t.n[|data|..] == s.n[|data|..]
    ensures !s.newSegNext ==>
              && t.n == s.n
              && t.segs[..|s.segs| - 1] == s.segs[..|s.segs| - 1]
              && Last(t.segs).size == Last(s.segs).size
              && Last(t.segs).Capacity() == Last(s.segs).Capacity()
              && Last(t.segs).Content() == Last(s.segs).Content()
              && Last(t.segs).storage[Last(s.segs).size..Last(s.segs).size + |data|] == data
    ensures Reassembling(s) ==> Reassembling(t)
    ensures Fresh(s) ==> Fresh(t)
  {
    if s.newSegNext then
      s.(n := Overwrite(s.n, 0, data))
    else
      var k := |s.segs| - 1;
      var seg := s.segs[k];
      var t := s.(segs := s.segs[..k] + [seg.(storage := Overwrite(seg.storage, seg.size, data))]);
      assert forall i | 0 <= i < k :: t.segs[i] == s.segs[i];
      t
  }

  /** What a receive into a buffer of `room` bytes reports for an in-blob or a transport error. */
  datatype Delivery = Delivery(code: Code, data: seq<byte>)

  /** The channel's side of an arrival: the in-blob, or a transport error. */
  datatype Arrived = Bytes(data: seq<byte>) | Error(id: nat)

  function Transfer(a: Arrived, room: nat): (d: Delivery)
    ensures d.code == NoError <==> a.Bytes? && |a.data| <= room
    ensures d.code == NoError ==> d.data == a.data
    ensures d.code != NoError ==> d.data == [] && d.code != WouldBlock
  {
    match a
    case Bytes(data) => if |data| <= room then Delivery(NoError, data) else Delivery(TooLarge, [])
    case Error(id) => Delivery(Fault(id), [])
  }

  /** The state, `m_err_code` and `m_sz` once a receive has completed with arrival `a`. */
  datatype Received = Received(state: State, code: Code, sz: nat)

  function Receive(s: State, a: Arrived): (rc: Received)
    requires Receivable(s)
    ensures rc.code != WouldBlock
    ensures rc.code == NoError ==> a.Bytes? && rc.sz == |a.data| <= Room(s) && rc.state == Land(s, a.data)
    ensures rc.code != NoError ==> rc.state == s && rc.sz == 0
    ensures Reassembling(s) ==> Reassembling(rc.state)
    ensures Fresh(s) ==> Fresh(rc.state)
  {
    var d := Transfer(a, Room(s));
    if d.code == NoError then Received(Land(s, d.data), NoError, |d.data|) else Received(s, d.code, 0)
  }

  /**
   * `on_n_segs` up to its call of `read_segs`: the count is accepted exactly when the receive
   * succeeded with `sizeof(m_n)` bytes and `m_n` is non-zero; it is then saved as `m_n_segs`,
   * with the segment list still empty.
   */
  function AcceptCount(s: State, code: Code, sz: nat): (r: Result<State, Failure>)
    requires Fresh(s)
    ensures r.Success? <==> code == NoError && sz == WordSize && Decode(s.n) != 0
    ensures code != NoError ==> r == Failure(RuntimeError(code, OnNSegsSite))
    ensures code == NoError && sz != WordSize ==> r == Failure(AssertionFailed(CountSizeCheck))
    ensures code == NoError && sz == WordSize && Decode(s.n) == 0 ==> r == Failure(AssertionFailed(NonZeroCheck))
    ensures r.Success? ==>
              && Reassembling(r.value)
              && r.value.nSegs == Decode(s.n)
              && r.value.segs == []
              && r.value.newSegNext
              && r.value.n == s.n
  {
    if code != NoError then Failure(RuntimeError(code, OnNSegsSite))
    else if sz != WordSize then Failure(AssertionFailed(CountSizeCheck))
    else if Decode(s.n) == 0 then Failure(AssertionFailed(NonZeroCheck))
    else Success(s.(nSegs := Decode(s.n)))
  }

  /**
   * One `handle_blob(err_code, sz)` step, taken after the receive's bytes have landed: an error
   * code throws; otherwise a header step or a body step, as `m_new_seg_next` says.
   */
  function HandleBlob(s: State, code: Code, sz: nat): (r: Step)
    requires Reassembling(s)
    requires code == NoError && !s.newSegNext ==> sz <= Last(s.segs).Room()
    ensures code != NoError ==> r == Raised(RuntimeError(code, OnSegSzSite))
    ensures r.Continue? ==> Reassembling(r.next)
    ensures r.Complete? ==> Assembled(r.next)
  {
    if code != NoError then Raised(RuntimeError(code, OnSegSzSite))
    else if s.newSegNext then HeaderStep(s)
    else BodyStep(s, sz)
  }

  /**
   * The header branch of `handle_blob`: `m_n` holds the segment's length. A zero length fails its
   * assertion; otherwise exactly one blob is appended, with capacity equal to the header value and
   * size 0, and the next receive is for body bytes.
   */
  function HeaderStep(s: State): (r: Step)
    requires Reassembling(s) && s.newSegNext
    ensures Decode(s.n) == 0 <==> r == Raised(AssertionFailed(NonZeroCheck))
    ensures Decode(s.n) != 0 ==>
              && r.Continue?
              && Reassembling(r.next)
              && !r.next.newSegNext
              && r.next.nSegs == s.nSegs
              && r.next.n == s.n
              && |r.next.segs| == |s.segs| + 1
              && r.next.segs[..|s.segs|] == s.segs
              && Last(r.next.segs).Capacity() == Decode(s.n)
              && Last(r.next.segs).size == 0
  {
    var v := Decode(s.n);
    if v == 0 then Raised(AssertionFailed(NonZeroCheck))
    else
      // emplace_back(m_n) followed by clear(): capacity m_n, size 0
      var t := s.(newSegNext := false, segs := s.segs + [Blob(Zeros(v), 0)]);
      assert t.segs[..|s.segs|] == s.segs;
      assert forall i | 0 <= i < |s.segs| :: t.segs[i] == s.segs[i];
      Continue(t)
  }

  /**
   * The body branch of `handle_blob`: the last blob grows by exactly `sz`, and nothing else changes.
   * The blob that fills the N-th segment completes the response; any other full blob makes the next
   * receive a header; a partial fill keeps reading into the same blob.
   */
  function BodyStep(s: State, sz: nat): (r: Step)
    requires Reassembling(s) && !s.newSegNext && sz <= Last(s.segs).Room()
    ensures !r.Raised?
    ensures r.next.nSegs == s.nSegs && r.next.n == s.n
    ensures |r.next.segs| == |s.segs|
    ensures r.next.segs[..|s.segs| - 1] == s.segs[..|s.segs| - 1]
    ensures Last(r.next.segs).storage == Last(s.segs).storage
    ensures Last(r.next.segs).size == Last(s.segs).size + sz
    ensures r.Complete? <==> Last(r.next.segs).Full() && |s.segs| == s.nSegs
    ensures r.Continue? ==> r.next.newSegNext == Last(r.next.segs).Full()
    ensures r.Continue? ==> Reassembling(r.next)
    ensures r.Complete? ==> Assembled(r.next)
  {
    var k := |s.segs| - 1;
    var seg := s.segs[k].(size := s.segs[k].size + sz);
    var t := s.(segs := s.segs[..k] + [seg]);
    assert forall i | 0 <= i < k :: t.segs[i] == s.segs[i];
    assert t.segs[..k] == s.segs[..k];
    if seg.Full() then
      if |t.segs| == s.nSegs then Complete(t) else Continue(t.(newSegNext := true))
    else Continue(t)
  }

  /** The arrays of words `on_complete_response` hands to the decoder, one per blob, in order. */
  function WordArrays(segs: seq<Blob>): (ws: seq<seq<seq<byte>>>)
    requires forall i | 0 <= i < |segs| :: segs[i].Valid()
    ensures |ws| == |segs|
    ensures forall i | 0 <= i < |segs| :: ws[i] == Chunks(segs[i].Content())
  {
    seq(|segs|, i requires 0 <= i < |segs| => Chunks(segs[i].Content()))
  }
}
