/**
 * What a whole response cycle does with a well-framed response: the segment count, then for each
 * segment its length header followed by its body split into any number of non-empty blobs, each
 * blob completing synchronously or after a would-block, in any mix.
 */
module Framing {
  import opened Wire
  import opened Wrappers
  import opened Reassembly
  import opened Protocol

  /** One blob on the channel, completing synchronously (`sync`) or after a would-block. */
  function Wrap(a: Arrived, sync: bool): Arrival
  {
    if sync then Immediate(a) else Deferred(a)
  }

  function Schedule(blobs: seq<seq<byte>>, sync: seq<bool>): (script: seq<Arrival>)
    requires |sync| == |blobs|
    ensures |script| == |blobs|
    decreases |blobs|
  {
    if blobs == [] then [] else [Wrap(Bytes(blobs[0]), sync[0])] + Schedule(blobs[1..], sync[1..])
  }

  /**
   * Reference semantics of the reassembly phase: the blobs are handed to `handle_blob` one by one,
   * as if every receive completed synchronously, until it completes, throws, or the blobs run out.
   */
  function Feed(s: State, blobs: seq<seq<byte>>): Status
    requires Reassembling(s)
    decreases |blobs|
  {
    if blobs == [] then Waiting(s, Registration(OnBlobCont, Never))
    else
      var rc := Receive(s, Bytes(blobs[0]));
      match HandleBlob(rc.state, rc.code, rc.sz)
      case Continue(t) => Feed(t, blobs[1..])
      case Complete(t) => Finished(t)
      case Raised(f) => Failed(f)
  }

  /**
   * Would-block interleaving changes nothing: whichever receives complete synchronously (the drain
   * loop of `read_segs`) and whichever complete later (`on_blob` from the event loop), the run ends
   * where the synchronous reference ends.
   */
  lemma {:induction false} DrainMatchesFeed(s: State, blobs: seq<seq<byte>>, sync: seq<bool>)
    requires Reassembling(s) && |sync| == |blobs|
    ensures Loop(ReadSegs(s, Schedule(blobs, sync))).status == Feed(s, blobs)
    decreases |blobs|
  {
    var script := Schedule(blobs, sync);
    if blobs != [] {
      assert script[1..] == Schedule(blobs[1..], sync[1..]);
      var rc := Receive(s, Bytes(blobs[0]));
      if rc.code == NoError {
        match HandleBlob(rc.state, rc.code, rc.sz)
        case Continue(t) => DrainMatchesFeed(t, blobs[1..], sync[1..]);
        case Complete(t) =>
        case Raised(f) =>
      }
    }
  }

  /** The state once the last blob's body is `body` and its size has reached its capacity. */
  function Sealed(s: State, body: seq<byte>): (t: State)
    requires s.segs != []
    ensures |t.segs| == |s.segs| && Last(t.segs) == Blob(body, |body|)
  {
    s.(segs := s.segs[..|s.segs| - 1] + [Blob(body, |body|)])
  }

  /** The state once body bytes `f` have landed past the end of the last blob and it was resized. */
  function Grown(s: State, f: seq<byte>): (t: State)
    requires Receivable(s) && !s.newSegNext && |f| <= Last(s.segs).Room()
    ensures |t.segs| == |s.segs|
  {
    var last := Last(s.segs);
    s.(segs := s.segs[..|s.segs| - 1] + [Blob(Overwrite(last.storage, last.size, f), last.size + |f|)])
  }

  /** One body blob: it is appended to the last segment's content, and the run goes on from there. */
  lemma {:induction false} FeedFragment(s: State, f: seq<byte>, tail: seq<seq<byte>>)
    requires Reassembling(s) && !s.newSegNext && |f| <= Last(s.segs).Room()
    ensures var t := Grown(s, f);
            && Last(t.segs).Valid()
            && Last(t.segs).Content() == Last(s.segs).Content() + f
            && Last(t.segs).Capacity() == Last(s.segs).Capacity()
            && Last(t.segs).size == Last(s.segs).size + |f|
            && t.segs[..|s.segs| - 1] == s.segs[..|s.segs| - 1]
            && (Last(t.segs).Full() ==> t == Sealed(s, Last(s.segs).Content() + f))
            && if Last(t.segs).Full() then
                 if |s.segs| == s.nSegs then Feed(s, [f] + tail) == Finished(t)
                 else Reassembling(t.(newSegNext := true)) && Feed(s, [f] + tail) == Feed(t.(newSegNext := true), tail)
               else Reassembling(t) && Feed(s, [f] + tail) == Feed(t, tail)
  {
    var k := |s.segs| - 1;
    var last := Last(s.segs);
    var t := Grown(s, f);
    assert ([f] + tail)[0] == f && ([f] + tail)[1..] == tail;
    var rc := Receive(s, Bytes(f));
    assert rc.state == Land(s, f);
    var step := BodyStep(rc.state, |f|);
    assert HandleBlob(rc.state, rc.code, rc.sz) == step;
    assert step.next.segs[..k] == s.segs[..k];
    assert step.next.segs == t.segs;
    var st := Last(t.segs).storage;
    assert st[..last.size + |f|] == st[..last.size] + st[last.size..last.size + |f|];
    if Last(t.segs).Full() {
      var body := last.Content() + f;
      assert st == body by { assert st == st[..last.size + |f|]; }
      assert t.segs == t.segs[..k] + [Last(t.segs)];
    }
  }

  /**
   * Body bytes split across any number of non-empty blobs that together fill the last segment
   * exactly: the segment's content is what it held followed by the blobs in order; it completes the
   * response if it is the N-th segment, and otherwise the next blob is read as a header.
   */
  lemma {:induction false} FeedBody(s: State, frs: seq<seq<byte>>, more: seq<seq<byte>>)
    requires Reassembling(s) && !s.newSegNext
    requires frs != [] && forall j | 0 <= j < |frs| :: frs[j] != []
    requires Last(s.segs).size + |Flatten(frs)| == Last(s.segs).Capacity()
    ensures var done := Sealed(s, Last(s.segs).Content() + Flatten(frs));
            && (|s.segs| == s.nSegs ==> Feed(s, frs + more) == Finished(done))
            && (|s.segs| < s.nSegs ==>
                  Reassembling(done.(newSegNext := true)) && Feed(s, frs + more) == Feed(done.(newSegNext := true), more))
    decreases |frs|, 1
  {
    if |frs| == 1 {
      var f := frs[0];
      assert Flatten(frs[1..]) == [];
      assert Flatten(frs) == f + Flatten(frs[1..]);
      assert frs + more == [f] + more;
      FeedFragment(s, f, more);
      assert Last(Grown(s, f).segs).Full();
      assert Last(s.segs).Content() + Flatten(frs) == Last(s.segs).Content() + f;
    } else {
      FeedBodyMore(s, frs, more);
    }
  }

  /** `FeedBody` for two or more blobs: the first one fills the segment only partly. */
  lemma {:induction false} FeedBodyMore(s: State, frs: seq<seq<byte>>, more: seq<seq<byte>>)
    requires Reassembling(s) && !s.newSegNext
    requires |frs| > 1 && forall j | 0 <= j < |frs| :: frs[j] != []
    requires Last(s.segs).size + |Flatten(frs)| == Last(s.segs).Capacity()
    ensures var done := Sealed(s, Last(s.segs).Content() + Flatten(frs));
            && (|s.segs| == s.nSegs ==> Feed(s, frs + more) == Finished(done))
            && (|s.segs| < s.nSegs ==>
                  Reassembling(done.(newSegNext := true)) && Feed(s, frs + more) == Feed(done.(newSegNext := true), more))
    decreases |frs|, 0
  {
    var last := Last(s.segs);
    var f := frs[0];
    var k := |s.segs| - 1;
    var rest := Flatten(frs[1..]);
    assert Flatten(frs) == f + rest;
    assert |rest| > 0 by {
      assert rest == frs[1] + Flatten(frs[2..]);
    }
    assert frs + more == [f] + (frs[1..] + more);
    FeedFragment(s, f, frs[1..] + more);
    var t := Grown(s, f);
    assert Feed(s, frs + more) == Feed(t, frs[1..] + more);
    FeedBody(t, frs[1..], more);
    var body := last.Content() + Flatten(frs);
    SeqAssoc(last.Content(), f, rest);
    assert Sealed(t, body) == Sealed(s, body) by {
      assert t.segs[..k] == s.segs[..k];
    }
  }

  /** Concatenation regrouped; applied to one instance at a time, outside the larger proofs. */
  lemma SeqAssoc<T>(a: seq<T>, b: seq<T>, c: seq<T>)
    ensures (a + b) + c == a + (b + c)
  {
  }

  /**
   * One length header: it lands in `m_n`, and `handle_blob` opens an empty segment of that capacity
   * and expects body bytes next.
   */
  lemma {:induction false} FeedHeader(s: State, len: nat, tail: seq<seq<byte>>)
    requires Reassembling(s) && s.newSegNext && 0 < len < WordLimit
    ensures var t := s.(n := Encode(len, WordSize), newSegNext := false, segs := s.segs + [Blob(Zeros(len), 0)]);
            Reassembling(t) && Feed(s, [Encode(len, WordSize)] + tail) == Feed(t, tail)
  {
    var h := Encode(len, WordSize);
    assert ([h] + tail)[0] == h && ([h] + tail)[1..] == tail;
    DecodeEncode(len, WordSize);
    var rc := Receive(s, Bytes(h));
    assert rc.state.n == h by { assert rc.state.n == rc.state.n[..WordSize]; }
    assert rc.state == s.(n := h);
  }

  /**
   * A segment-length header's size is not checked, unlike the count's: a header blob of fewer than
   * `sizeof(m_n)` bytes overwrites only that many low-order bytes of `m_n`, and the new segment's
   * capacity is read from the resulting mix of new and previous bytes.
   */
  lemma {:induction false} HeaderSizeUnchecked(s: State, h: seq<byte>)
    requires Reassembling(s) && s.newSegNext && |h| <= WordSize
    ensures var rc := Receive(s, Bytes(h));
            && rc.code == NoError
            && rc.state.n == h + s.n[|h|..]
            && (Decode(h + s.n[|h|..]) != 0 ==>
                  && HandleBlob(rc.state, rc.code, rc.sz).Continue?
                  && Last(HandleBlob(rc.state, rc.code, rc.sz).next.segs).Capacity() == Decode(h + s.n[|h|..]))
  {
    var rc := Receive(s, Bytes(h));
    var t := rc.state;
    assert t.n == t.n[..|h|] + t.n[|h|..];
  }

  /** Each segment is a non-empty list of non-empty blobs whose total length fits a `size_t`. */
  predicate Framed(frags: seq<seq<seq<byte>>>)
  {
    forall i | 0 <= i < |frags| ::
      && frags[i] != []
      && (forall j | 0 <= j < |frags[i]| :: frags[i][j] != [])
      && |Flatten(frags[i])| < WordLimit
  }

  /** The blobs the server sends for the segments: each length header, then that segment's body. */
  function SegmentBlobs(frags: seq<seq<seq<byte>>>): seq<seq<byte>>
  {
    if frags == [] then []
    else [Encode(|Flatten(frags[0])|, WordSize)] + frags[0] + SegmentBlobs(frags[1..])
  }

  /** The whole response: the segment count, then the segments. */
  function ResponseBlobs(frags: seq<seq<seq<byte>>>): seq<seq<byte>>
  {
    [Encode(|frags|, WordSize)] + SegmentBlobs(frags)
  }

  /** The blobs the segments should end up in: each full, holding its body. */
  function Filled(frags: seq<seq<seq<byte>>>): (segs: seq<Blob>)
    ensures |segs| == |frags|
  {
    if frags == [] then [] else [Blob(Flatten(frags[0]), |Flatten(frags[0])|)] + Filled(frags[1..])
  }

  /** The i-th blob of `Filled` is full and holds the i-th body. */
  lemma {:induction false} FilledAt(frags: seq<seq<seq<byte>>>, i: nat)
    requires i < |frags|
    ensures Filled(frags)[i] == Blob(Flatten(frags[i]), |Flatten(frags[i])|)
    decreases i
  {
    if i > 0 {
      FilledAt(frags[1..], i - 1);
    }
  }

  /**
   * Header-expecting state plus the remaining segments, as many as the count still allows: the run
   * completes with exactly those segments appended, each holding its body, whatever the split.
   */
  lemma {:induction false} FeedSegments(s: State, frags: seq<seq<seq<byte>>>)
    requires Reassembling(s) && s.newSegNext
    requires frags != [] && |s.segs| + |frags| == s.nSegs && Framed(frags)
    ensures Feed(s, SegmentBlobs(frags)).Finished?
    ensures Feed(s, SegmentBlobs(frags)).state.segs == s.segs + Filled(frags)
    decreases |frags|, 1
  {
    if |frags| == 1 {
      var body := frags[0];
      var len := |Flatten(body)|;
      assert SegmentBlobs(frags) == [Encode(len, WordSize)] + (body + []) by {
        assert SegmentBlobs(frags[1..]) == [];
      }
      FeedSegment(s, body, []);
      assert Filled(frags) == [Blob(Flatten(body), len)] by {
        assert Filled(frags[1..]) == [];
      }
    } else {
      FeedSegmentsMore(s, frags);
    }
  }

  /** `FeedSegments` for two or more segments: the first one does not complete the response. */
  lemma {:induction false} FeedSegmentsMore(s: State, frags: seq<seq<seq<byte>>>)
    requires Reassembling(s) && s.newSegNext
    requires |frags| > 1 && |s.segs| + |frags| == s.nSegs && Framed(frags)
    ensures Feed(s, SegmentBlobs(frags)).Finished?
    ensures Feed(s, SegmentBlobs(frags)).state.segs == s.segs + Filled(frags)
    decreases |frags|, 0
  {
    var body := frags[0];
    var len := |Flatten(body)|;
    var rest := SegmentBlobs(frags[1..]);
    assert SegmentBlobs(frags) == [Encode(len, WordSize)] + (body + rest);
    FeedSegment(s, body, rest);
    var head := Blob(Flatten(body), len);
    var next := s.(n := Encode(len, WordSize), newSegNext := true, segs := s.segs + [head]);
    assert Feed(s, SegmentBlobs(frags)) == Feed(next, rest);
    FeedSegments(next, frags[1..]);
    var tail := Filled(frags[1..]);
    assert Filled(frags) == [head] + tail;
    SeqAssoc(s.segs, [head], tail);
  }

  /**
   * One segment: its length header, then its body in non-empty blobs. The segment is appended full,
   * holding the body; it completes the response if it is the N-th.
   */
  lemma {:induction false} FeedSegment(s: State, body: seq<seq<byte>>, more: seq<seq<byte>>)
    requires Reassembling(s) && s.newSegNext
    requires body != [] && (forall j | 0 <= j < |body| :: body[j] != []) && |Flatten(body)| < WordLimit
    ensures var len := |Flatten(body)|;
            var done := s.(n := Encode(len, WordSize), newSegNext := false, segs := s.segs + [Blob(Flatten(body), len)]);
            && (|s.segs| + 1 == s.nSegs ==> Feed(s, [Encode(len, WordSize)] + (body + more)) == Finished(done))
            && (|s.segs| + 1 < s.nSegs ==>
                  && Reassembling(done.(newSegNext := true))
                  && Feed(s, [Encode(len, WordSize)] + (body + more)) == Feed(done.(newSegNext := true), more))
  {
    var len := |Flatten(body)|;
    assert len > 0 by { assert Flatten(body) == body[0] + Flatten(body[1..]); }
    FeedHeader(s, len, body + more);
    var s1 := s.(n := Encode(len, WordSize), newSegNext := false, segs := s.segs + [Blob(Zeros(len), 0)]);
    assert Last(s1.segs).Content() == [];
    FeedBody(s1, body, more);
    assert [] + Flatten(body) == Flatten(body);
    assert Sealed(s1, Flatten(body)).segs == s.segs + [Blob(Flatten(body), len)];
  }

  /**
   * A framed response of N >= 1 non-empty segments, each body split into non-empty blobs and every
   * blob completing synchronously or after a would-block in any mix, reassembles into exactly N full
   * blobs holding the N bodies in order.
   */
  lemma {:induction false} ExchangeReassembles(frags: seq<seq<seq<byte>>>, sync: seq<bool>)
    requires 1 <= |frags| < WordLimit && Framed(frags)
    requires |sync| == |ResponseBlobs(frags)|
    ensures Exchange(Schedule(ResponseBlobs(frags), sync)).status.Finished?
    ensures Exchange(Schedule(ResponseBlobs(frags), sync)).status.state.segs == Filled(frags)
    ensures var segs := Exchange(Schedule(ResponseBlobs(frags), sync)).status.state.segs;
            forall i | 0 <= i < |frags| :: segs[i].Valid() && segs[i].Full() && segs[i].Content() == Flatten(frags[i])
  {
    var blobs := ResponseBlobs(frags);
    var script := Schedule(blobs, sync);
    var c := Encode(|frags|, WordSize);
    DecodeEncode(|frags|, WordSize);
    assert blobs[0] == c && blobs[1..] == SegmentBlobs(frags);
    assert script[1..] == Schedule(SegmentBlobs(frags), sync[1..]);
    var rc := Receive(Initial(), Bytes(c));
    assert rc.state.n == c by { assert rc.state.n == rc.state.n[..WordSize]; }
    var s2 := AcceptCount(rc.state, rc.code, rc.sz).value;
    assert Exchange(script) == Loop(ReadSegs(s2, script[1..]));
    DrainMatchesFeed(s2, SegmentBlobs(frags), sync[1..]);
    FeedSegments(s2, frags);
    assert [] + Filled(frags) == Filled(frags);
    forall i | 0 <= i < |frags|
      ensures Filled(frags)[i].Valid() && Filled(frags)[i].Full() && Filled(frags)[i].Content() == Flatten(frags[i])
    {
      FilledAt(frags, i);
      assert Flatten(frags[i])[..|Flatten(frags[i])|] == Flatten(frags[i]);
    }
  }

  /**
   * The segment count gate, whichever way the count's receive completes: a transport error throws
   * from `on_n_segs`; a blob larger than `m_n` is a channel error; any other size than
   * `sizeof(m_n)`, or a zero count, fails an assertion; and a non-zero count is saved as
   * `m_n_segs` before reading segments into an empty list.
   */
  lemma {:induction false} CountGate(a: Arrived, sync: bool, rest: seq<Arrival>)
    ensures var st := Exchange([Wrap(a, sync)] + rest).status;
            && (a.Error? ==> st == Failed(RuntimeError(Fault(a.id), OnNSegsSite)))
            && (a.Bytes? && |a.data| > WordSize ==> st == Failed(RuntimeError(TooLarge, OnNSegsSite)))
            && (a.Bytes? && |a.data| < WordSize ==> st == Failed(AssertionFailed(CountSizeCheck)))
            && (a.Bytes? && |a.data| == WordSize && Decode(a.data) == 0 ==> st == Failed(AssertionFailed(NonZeroCheck)))
    ensures a.Bytes? && |a.data| == WordSize && Decode(a.data) != 0 ==>
              Exchange([Wrap(a, sync)] + rest) == Loop(ReadSegs(State(a.data, Decode(a.data), [], true), rest))
  {
    var script := [Wrap(a, sync)] + rest;
    assert script[1..] == rest;
    var rc := Receive(Initial(), a);
    assert Exchange(script) == Loop(OnNSegs(rc.state, rc.code, rc.sz, rest));
    if a.Bytes? && |a.data| == WordSize {
      assert rc.state.n == a.data by { assert rc.state.n == rc.state.n[..WordSize]; }
    }
  }
}
