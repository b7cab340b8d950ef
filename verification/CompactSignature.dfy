/** The compact signature codec of src/cryptography/verify_signature.py,
    in the form of the "Specification" section of EIP-2098. */
module CompactSignature {
  import opened Bytes
  import opened Wrappers

  datatype CodecError = InvalidV | InvalidHex | EmptyS

  const V_OFFSET := 27
  const S_MASK: nat := 0x7FFFFFFFFFFFFFFFFFFFFFFFFFFFFFFFFFFFFFFFFFFFFFFFFFFFFFFFFFFFFFFF

  /** Two to the 255, and the weight 2 to the 248 of a word's leading byte. */
  const TOP_BIT: nat := 0x8000000000000000000000000000000000000000000000000000000000000000
  const LEAD_UNIT: nat := 0x100000000000000000000000000000000000000000000000000000000000000

  /** `recover_vs`: the pair (v, s) packed in the text `vs`. */
  function RecoverVs(vs: string): Result<(int, nat), CodecError> {
    match FromHex(Drop2(vs))
    case None => Err(InvalidHex)
    case Some(b) => Ok(SplitVs(FromBytes(b)))
  }

  function SplitVs(n: nat): (int, nat) {
    (ShiftRight(n, 255) + V_OFFSET, BitAnd(n, S_MASK))
  }

  predicate ValidV(v: int) {
    v >= V_OFFSET || v == 0 || v == 1
  }

  /** The v in {27, 28} that a stored or offset v stands for. */
  function CanonicalV(v: int): (c: int)
    ensures c == 27 || c == 28
  {
    if (if v < V_OFFSET then v + V_OFFSET else v) % 2 == 0 then 28 else 27
  }

  /** The integer meaning of packing: the parity of v goes to bit 255. */
  function WithParity(v: int, s: seq<byte>): seq<byte>
    requires s != []
  {
    if CanonicalV(v) == 28 && s[0] < 128 then s[0 := s[0] + 128] else s
  }

  /** What `compute_vs` returns or raises, for every v and every text s. */
  function PackVs(v: int, s: string): Result<string, CodecError> {
    if !ValidV(v) then Err(InvalidV)
    else
      match FromHex(Drop2(s))
      case None => Err(InvalidHex)
      case Some(b) =>
        if b != [] then Ok(BytesToHexString(WithParity(v, b)))
        else if CanonicalV(v) == 28 then Err(EmptyS)
        else Ok("0x")
  }

  /** `compute_vs`: the byte array is updated in place by one OR. */
  method ComputeVs(v: int, s: string) returns (r: Result<string, CodecError>)
    ensures r == PackVs(v, s)
  {
    if v < V_OFFSET && v != 0 && v != 1 {
      return Err(InvalidV);
    }
    var v' := v;
    if v' < V_OFFSET {
      v' := v' + V_OFFSET;
    }
    var parsed := FromHex(Drop2(s));
    if parsed.None? {
      return Err(InvalidHex);
    }
    var bytes := parsed.value;
    var vs := new byte[|bytes|](i requires 0 <= i < |bytes| => bytes[i]);
    assert vs[..] == bytes;
    if v' % 2 == 0 {
      if vs.Length == 0 {
        return Err(EmptyS);
      }
      OrSetsBit(vs[0], 7);
      assert Pow2(7) == 128 && Pow2(8) == 256;
      vs[0] := BitOr(vs[0], 0x80);
      assert vs[..] == WithParity(v, bytes);
    }
    assert vs[..] == if bytes == [] then [] else WithParity(v, bytes);
    var text := ToHex(vs[..]);
    assert bytes == [] ==> "0x" + text == "0x";
    r := Ok("0x" + text);
  }

  // ------------------------------------------------------------------
  // Arithmetic of the two packed halves
  // ------------------------------------------------------------------

  lemma PowerProduct(m: nat, n: nat, k: nat, p: nat, q: nat)
    requires Pow2(m) == p && Pow2(n) == q && k == m + n
    ensures Pow2(k) == p * q
  {
    Pow2Add(m, n);
  }

  lemma Pow32()
    ensures Pow2(24) == 0x1000000 && Pow2(32) == 0x100000000
  {
    assert Pow2(8) == 0x100;
    PowerProduct(8, 8, 16, 0x100, 0x100);
    PowerProduct(8, 16, 24, 0x100, 0x10000);
    PowerProduct(16, 16, 32, 0x10000, 0x10000);
  }

  lemma Pow56()
    ensures Pow2(56) == 0x100000000000000
  {
    Pow32();
    PowerProduct(24, 32, 56, 0x1000000, 0x100000000);
  }

  lemma Pow64()
    ensures Pow2(64) == 0x10000000000000000
  {
    Pow32();
    PowerProduct(32, 32, 64, 0x100000000, 0x100000000);
  }

  lemma Pow120()
    ensures Pow2(120) == 0x1000000000000000000000000000000
  {
    Pow56();
    Pow64();
    PowerProduct(56, 64, 120, 0x100000000000000, 0x10000000000000000);
  }

  lemma Pow128()
    ensures Pow2(128) == 0x100000000000000000000000000000000
  {
    Pow64();
    PowerProduct(64, 64, 128, 0x10000000000000000, 0x10000000000000000);
  }

  lemma PowLead()
    ensures Pow2(248) == LEAD_UNIT
  {
    Pow120();
    Pow128();
    PowerProduct(120, 128, 248, 0x1000000000000000000000000000000, 0x100000000000000000000000000000000);
  }

  lemma WordConstants(top: nat, lead: nat, all: nat)
    requires top == 255 && lead == 248 && all == 256
    ensures Pow2(top) == TOP_BIT
    ensures Pow2(lead) == LEAD_UNIT
    ensures Pow2(all) == 2 * TOP_BIT
  {
    PowLead();
    assert Pow2(7) == 0x80;
    PowerProduct(7, lead, top, 0x80, LEAD_UNIT);
    assert Pow2(all) == 2 * Pow2(top);
  }

  /** The mask and the shift as a remainder and a quotient. */
  lemma SplitIsDivMod(n: nat)
    ensures SplitVs(n) == (n / TOP_BIT + V_OFFSET, n % TOP_BIT)
  {
    var k: nat := 255;
    WordConstants(k, 248, 256);
    MaskIsRemainder(n, k);
    ShiftIsQuotient(n, k);
  }

  /** A 32-byte word as its leading byte and the remaining 248 bits. */
  lemma WordValue(b: seq<byte>)
    requires |b| == 32
    ensures FromBytes(b[1..]) < LEAD_UNIT
    ensures FromBytes(b) == b[0] * LEAD_UNIT + FromBytes(b[1..])
  {
    WordConstants(255, 248, 256);
    FromBytesHead(b);
    FromBytesBound(b[1..]);
  }

  /** For a 32-byte word the mask is its low 255 bits and the shift its top bit. */
  lemma SplitWord(b: seq<byte>)
    requires |b| == 32
    ensures FromBytes(b) < 2 * TOP_BIT
    ensures b[0] >= 128 <==> FromBytes(b) >= TOP_BIT
    ensures SplitVs(FromBytes(b)) == if b[0] < 128 then (27, FromBytes(b)) else (28, FromBytes(b) - TOP_BIT)
  {
    WordValue(b);
    SplitIsDivMod(FromBytes(b));
  }

  /** Setting the top bit of a word adds two to the 255. */
  lemma ParityValue(v: int, s: seq<byte>)
    requires |s| == 32
    ensures FromBytes(WithParity(v, s)) ==
            FromBytes(s) + if CanonicalV(v) == 28 && s[0] < 128 then TOP_BIT else 0
  {
    var t := WithParity(v, s);
    WordValue(s);
    WordValue(t);
    assert t[1..] == s[1..];
  }

  /** Printing a word and cutting the 0x off leaves its digits. */
  lemma ReadPrinted(b: seq<byte>)
    ensures FromHex(Drop2(BytesToHexString(b))) == Some(b)
  {
    assert Drop2(BytesToHexString(b)) == ToHex(b);
    FromHexToHex(b);
  }

  // ------------------------------------------------------------------
  // Round trips
  // ------------------------------------------------------------------

  /** Unpacking a packed pair gives the pair back exactly when s leaves bit 255 free. */
  lemma RecoverComputeIff(v: int, s: string)
    requires ValidV(v)
    requires FromHex(Drop2(s)).Some? && |FromHex(Drop2(s)).value| == 32
    ensures PackVs(v, s).Ok?
    ensures RecoverVs(PackVs(v, s).value) == Ok((CanonicalV(v), FromBytes(FromHex(Drop2(s)).value)))
            <==> FromBytes(FromHex(Drop2(s)).value) < TOP_BIT
  {
    var b := FromHex(Drop2(s)).value;
    var w := WithParity(v, b);
    ReadPrinted(w);
    ParityValue(v, b);
    SplitWord(b);
    SplitWord(w);
  }

  /** Equal value and equal length make equal bytes. */
  lemma SameWord(a: seq<byte>, b: seq<byte>)
    requires |a| == |b| && FromBytes(a) == FromBytes(b)
    ensures a == b
  {
    ToBytesFromBytes(a);
    ToBytesFromBytes(b);
  }

  lemma WordFromBytes(n: nat)
    requires n < 2 * TOP_BIT
    ensures FromBytes(ToBytes(n, 32)) == n
  {
    WordConstants(255, 248, 256);
    FromBytesToBytes(n, 32);
  }

  /** Packing the two halves of a word rebuilds the word. */
  lemma PackSplit(b: seq<byte>)
    requires |b| == 32
    ensures var (v, s) := SplitVs(FromBytes(b));
            ValidV(v) && WithParity(v, ToBytes(s, 32)) == b
  {
    SplitWord(b);
    var (v, s) := SplitVs(FromBytes(b));
    var w := ToBytes(s, 32);
    WordFromBytes(s);
    SplitWord(w);
    ParityValue(v, w);
    SameWord(WithParity(v, w), b);
  }

  /** Packing what was unpacked from any 32-byte text gives the same bytes back,
      and the same text when it was written in lower case after 0x. */
  lemma ComputeRecover(vs: string)
    requires FromHex(Drop2(vs)).Some? && |FromHex(Drop2(vs)).value| == 32
    ensures RecoverVs(vs).Ok?
    ensures var (v, s) := RecoverVs(vs).value;
            PackVs(v, BytesToHexString(ToBytes(s, 32))) == Ok(BytesToHexString(FromHex(Drop2(vs)).value))
    ensures "0x" <= vs && IsLowerHex(vs[2..]) ==>
              BytesToHexString(FromHex(Drop2(vs)).value) == vs
  {
    var b := FromHex(Drop2(vs)).value;
    PackSplit(b);
    ReadPrinted(ToBytes(RecoverVs(vs).value.1, 32));
    if "0x" <= vs && IsLowerHex(vs[2..]) {
      ToHexFromHex(vs[2..]);
      assert vs == "0x" + vs[2..];
    }
  }
}
