/** Two guardians who can sign one piece of data each: the setting of the witnesses. */
module WitnessSetting {
  import opened Bytes
  import opened CompactSignature
  import opened Messages
  import opened MessageStorage
  import opened Wrappers

  /** Two guardians, their signatures, and what they vote on. */
  datatype Setting = Setting(one: Address, two: Address, rOne: string, rTwo: string, vs: string,
                             prefix: seq<byte>, hash: seq<byte>, root: seq<byte>, moduleId: int, addressBytes: nat)

  predicate Fits(s: Setting) {
    && s.one != s.two && s.rOne != s.rTwo && RecoverVs(s.vs).Ok? && s.addressBytes == 20
    && |s.prefix| == |s.hash| == |s.root| == 32 && IsUint256(s.moduleId)
  }

  /** The signatures are written as the schemas demand. */
  predicate Written(s: Setting) {
    MatchesPattern(s.rOne, 64) && MatchesPattern(s.rTwo, 64) && MatchesPattern(s.vs, 64)
  }

  /** There are such settings. */
  lemma SomeSetting(a: seq<byte>, b: seq<byte>) returns (s: Setting)
    requires |a| == |b| == 32 && a != b
    ensures Fits(s) && Written(s)
  {
    ReadPrinted(a);
    ReadPrinted(b);
    PrintedMatches(a);
    PrintedMatches(b);
    s := Setting(1, 2, BytesToHexString(a), BytesToHexString(b), BytesToHexString(a), a, a, a, 1, 20);
  }

  /** An address in lower case. */
  function Text(s: Setting, n: Address): string {
    BytesToHexString(ToBytes(n, s.addressBytes))
  }

  lemma TextDenotes(s: Setting, n: Address)
    requires Fits(s)
    ensures IsAddressText(Text(s, n)) && AddressValue(Text(s, n)) == n
  {
    var len: nat := s.addressBytes;
    var b := ToBytes(n, len);
    ReadPrinted(b);
    PrintedIsHexText(b);
    AddressPower(8 * len);
    FromBytesToBytes(n, len);
  }

  lemma AddressPower(bits: nat)
    requires bits == 160
    ensures Pow2(bits) == ADDRESS_LIMIT
  {
    Pow128();
    Pow32();
    PowerProduct(32, 128, bits, 0x100000000, 0x100000000000000000000000000000000);
  }

  /** Cryptography in which the first guardian can sign the data a, the second one the data b, and no other
      signature recovers to anyone. */
  function TwoSigners(s: Setting, a: seq<byte>, b: seq<byte>): Crypto {
    Crypto((data: seq<byte>) => FromBytes(data), Recovering(s, FromBytes(a), FromBytes(b)), (n: Address) => Text(s, n))
  }

  function Recovering(s: Setting, a: nat, b: nat): (nat, int, string, nat) -> Option<Address> {
    (h: nat, v: int, r: string, t: nat) =>
      if h == a && r == s.rOne then Some(s.one) else if h == b && r == s.rTwo then Some(s.two) else None
  }

  lemma TwoSignersPrint(s: Setting, a: seq<byte>, b: seq<byte>)
    requires Fits(s)
    ensures PrintsAddresses(TwoSigners(s, a, b))
  {
    forall n: Address
      ensures IsAddressText(TwoSigners(s, a, b).checksum(n)) && AddressValue(TwoSigners(s, a, b).checksum(n)) == n
    {
      TextDenotes(s, n);
    }
  }

  lemma {:induction false} KeptAll(act: Message -> Verdict, ms: seq<Message>)
    requires forall m :: m in ms ==> act(m).Keep?
    ensures Actualize(act, ms) == Some(ms)
  {
    if ms != [] {
      assert ms[0] in ms && forall m :: m in ms[1..] ==> m in ms;
      KeptAll(act, ms[1..]);
      assert ms == [ms[0]] + ms[1..];
    }
  }
}
