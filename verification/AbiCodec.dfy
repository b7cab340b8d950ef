/** The parts of the "Formal Specification of the Encoding" of the Solidity Contract ABI Specification
    that data-bus messages use: static words and dynamic byte strings. */
module AbiCodec {
  import opened Bytes
  import opened Messages
  import opened Utf8
  import opened Wrappers

  /** One 32-byte word. */
  type Word32 = w: seq<byte> | |w| == 32
    witness Zeros(32)

  /** Words one after another. */
  function Flat(ws: seq<Word32>): seq<byte> {
    if ws == [] then [] else ws[0] + Flat(ws[1..])
  }

  /** The 32 bytes at a position; None is InsufficientDataBytes. */
  function ReadAt(b: seq<byte>, pos: nat): (r: Option<Word32>)
    ensures r.Some? <==> pos + 32 <= |b|
  {
    if pos + 32 <= |b| then Some(b[pos..pos + 32]) else None
  }

  lemma {:induction false} FlatLength(ws: seq<Word32>)
    ensures |Flat(ws)| == 32 * |ws|
  {
    if ws != [] {
      FlatLength(ws[1..]);
    }
  }

  lemma FlatCons(w: Word32, ws: seq<Word32>)
    ensures Flat([w] + ws) == w + Flat(ws)
  {
    assert ([w] + ws)[1..] == ws;
  }

  lemma {:induction false} FlatSplit(ws: seq<Word32>, k: nat)
    requires k <= |ws|
    ensures Flat(ws) == Flat(ws[..k]) + Flat(ws[k..])
    decreases k
  {
    if k > 0 {
      FlatSplit(ws[1..], k - 1);
      assert ws[1..][..k - 1] == ws[..k][1..] && ws[1..][k - 1..] == ws[k..];
    } else {
      assert ws[..k] == [] && ws[k..] == ws && [] + Flat(ws) == Flat(ws);
    }
  }

  /** Word i of a flat encoding reads back, whatever stands before and after it. */
  lemma {:induction false} ReadFlat(pre: seq<byte>, ws: seq<Word32>, post: seq<byte>, i: nat)
    requires i < |ws|
    ensures ReadAt(pre + Flat(ws) + post, |pre| + 32 * i) == Some(ws[i])
    decreases i
  {
    var b, rest := pre + Flat(ws) + post, ws[1..];
    if i > 0 {
      assert b == (pre + ws[0]) + Flat(rest) + post;
      ReadFlat(pre + ws[0], rest, post, i - 1);
    } else {
      assert b[|pre|..|pre| + 32] == ws[0];
    }
  }

  /** `ceil32`. */
  function Ceil32(n: nat): (c: nat)
    ensures n <= c < n + 32
  {
    (n + 31) / 32 * 32
  }

  /** A byte string: its length, its bytes, and zero bytes up to a whole number of words. */
  function EncodeBytes(x: seq<byte>): (b: seq<byte>)
    requires |x| < WORD_LIMIT
    ensures |b| == 32 + Ceil32(|x|)
  {
    Word(|x|) + x + Zeros(Ceil32(|x|) - |x|)
  }

  /** The strict decoder: insufficient data and non-zero padding are errors. */
  function ReadBytes(b: seq<byte>, pos: nat): Option<seq<byte>> {
    match ReadAt(b, pos)
    case None => None
    case Some(w) =>
      var n := FromBytes(w);
      var start := pos + 32;
      if start + Ceil32(n) > |b| then None
      else if b[start + n..start + Ceil32(n)] != Zeros(Ceil32(n) - n) then None
      else Some(b[start..start + n])
  }

  lemma SliceMiddle(a: seq<byte>, x: seq<byte>, c: seq<byte>, b: seq<byte>)
    requires b == a + x + c
    ensures b[|a|..|a| + |x|] == x
  {
  }

  lemma Regroup(a: seq<byte>, w: seq<byte>, x: seq<byte>, z: seq<byte>, c: seq<byte>)
    ensures a + (w + x + z) + c == a + w + (x + z + c)
    ensures a + (w + x + z) + c == (a + w) + x + (z + c)
    ensures a + (w + x + z) + c == (a + w + x) + z + c
  {
  }

  lemma ReadEncodedBytes(pre: seq<byte>, x: seq<byte>, post: seq<byte>)
    requires |x| < WORD_LIMIT
    ensures ReadBytes(pre + EncodeBytes(x) + post, |pre|) == Some(x)
  {
    var n, w := |x|, Word(|x|);
    var padding := Zeros(Ceil32(n) - n);
    var b := pre + EncodeBytes(x) + post;
    WordValueOf(n);
    Regroup(pre, w, x, padding, post);
    SliceMiddle(pre, w, x + padding + post, b);
    SliceMiddle(pre + w, x, padding + post, b);
    SliceMiddle(pre + w + x, padding, post, b);
  }

  /** Exactly what was encoded at a position is read back from it: the decoder is strict. */
  lemma ReadBytesIff(b: seq<byte>, pos: nat, x: seq<byte>)
    requires |x| < WORD_LIMIT
    ensures ReadBytes(b, pos) == Some(x)
            <==> pos + |EncodeBytes(x)| <= |b| && b[pos..pos + |EncodeBytes(x)|] == EncodeBytes(x)
  {
    var n := |EncodeBytes(x)|;
    if pos + n <= |b| && b[pos..pos + n] == EncodeBytes(x) {
      assert b == b[..pos] + EncodeBytes(x) + b[pos + n..];
      ReadEncodedBytes(b[..pos], x, b[pos + n..]);
    } else if ReadBytes(b, pos) == Some(x) {
      ReadIsEncoded(b, pos, x);
    }
  }

  lemma ReadIsEncoded(b: seq<byte>, pos: nat, x: seq<byte>)
    requires |x| < WORD_LIMIT && ReadBytes(b, pos) == Some(x)
    ensures pos + |EncodeBytes(x)| <= |b| && b[pos..pos + |EncodeBytes(x)|] == EncodeBytes(x)
  {
    var w, start, m := ReadAt(b, pos).value, pos + 32, Ceil32(|x|);
    ToBytesFromBytes(w);
    assert FromBytes(w) == |x| && w == Word(|x|);
    assert b[pos..start + m] == b[pos..start] + b[start..start + |x|] + b[start + |x|..start + m];
  }
}
