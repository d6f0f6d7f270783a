/**
 * Bytes and machine words as they cross the blob channel.
 *
 * The segment count and every segment-length header travel as one `size_t`, written and read in
 * the platform's native layout. Both peers run on the same machine, so any fixed layout agrees;
 * the model uses little-endian, the layout of the 64-bit platforms the program is built for.
 */
module Wire {

  type byte = b: int | 0 <= b < 256

  /** sizeof(size_t) and sizeof(capnp::word): 8 bytes. */
  const WordSize: nat := 8

  function Pow256(k: nat): (p: nat)
    ensures p >= 1
  {
    if k == 0 then 1 else 256 * Pow256(k - 1)
  }

  /** Every value of a `size_t` is below this bound. */
  const WordLimit: nat := Pow256(WordSize)

  function Zeros(k: nat): (z: seq<byte>)
    ensures |z| == k
    ensures forall i | 0 <= i < k :: z[i] == 0
  {
    seq(k, _ => 0)
  }

  /** The unsigned integer a little-endian byte string holds. */
  function Decode(b: seq<byte>): (v: nat)
    ensures v < Pow256(|b|)
  {
    if b == [] then 0 else b[0] + 256 * Decode(b[1..])
  }

  /** The `k` little-endian bytes of `v` (taken modulo 256^k). */
  function Encode(v: nat, k: nat): (b: seq<byte>)
    ensures |b| == k
  {
    if k == 0 then [] else [v % 256] + Encode(v / 256, k - 1)
  }

  /** A value that fits in `k` bytes survives encoding and decoding. */
  lemma {:induction false} DecodeEncode(v: nat, k: nat)
    requires v < Pow256(k)
    ensures Decode(Encode(v, k)) == v
  {
    if k > 0 {
      assert v / 256 < Pow256(k - 1);
      DecodeEncode(v / 256, k - 1);
      assert Encode(v, k)[1..] == Encode(v / 256, k - 1);
    }
  }

  /** Encoding is the inverse of decoding: the bytes are recovered from their value. */
  lemma {:induction false} EncodeDecode(b: seq<byte>)
    ensures Encode(Decode(b), |b|) == b
  {
    if b != [] {
      EncodeDecode(b[1..]);
      assert Decode(b) % 256 == b[0];
      assert Decode(b) / 256 == Decode(b[1..]);
      assert b == [b[0]] + b[1..];
    }
  }

  /**
   * `dst` with `src` written over it from offset `at`: what a receive does to the memory of the
   * buffer it was given.
   */
  function Overwrite(dst: seq<byte>, at: nat, src: seq<byte>): (r: seq<byte>)
    requires at + |src| <= |dst|
    ensures |r| == |dst|
    ensures r[..at] == dst[..at]
    ensures r[at..at + |src|] == src
    ensures r[at + |src|..] == dst[at + |src|..]
  {
    dst[..at] + src + dst[at + |src|..]
  }

  /** The concatenation of a list of byte strings. */
  function Flatten(xs: seq<seq<byte>>): (r: seq<byte>)
  {
    if xs == [] then [] else xs[0] + Flatten(xs[1..])
  }

  /**
   * A byte buffer seen as an array of 8-byte words, as `reinterpret_cast<const word*>` with a
   * length of `size / sizeof(word)` sees it: the trailing partial word, if any, is not part of it.
   */
  function Chunks(b: seq<byte>): (ws: seq<seq<byte>>)
    ensures |ws| == |b| / WordSize
    ensures forall i | 0 <= i < |ws| :: |ws[i]| == WordSize
    ensures Flatten(ws) == b[..|ws| * WordSize]
    decreases |b|
  {
    if |b| < WordSize then []
    else
      var rest := Chunks(b[WordSize..]);
      assert b[..WordSize] + b[WordSize..][..|rest| * WordSize] == b[..WordSize + |rest| * WordSize];
      [b[..WordSize]] + rest
  }
}
