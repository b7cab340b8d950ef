/** Strict UTF-8, as `bytes.decode('utf-8')` accepts it. */
module Utf8 {
  import opened Bytes
  import opened Wrappers

  /** The shortest form of one character. */
  function EncodeChar(c: char): (b: seq<byte>)
    ensures 1 <= |b| <= 4
  {
    var u := c as int;
    if u < 0x80 then [u]
    else if u < 0x800 then [0xC0 + u / 64, 0x80 + u % 64]
    else if u < 0x10000 then [0xE0 + u / 4096, 0x80 + u / 64 % 64, 0x80 + u % 64]
    else [0xF0 + u / 262144, 0x80 + u / 4096 % 64, 0x80 + u / 64 % 64, 0x80 + u % 64]
  }

  function Encode(s: string): seq<byte> {
    if s == "" then [] else EncodeChar(s[0]) + Encode(s[1..])
  }

  predicate IsContinuation(b: byte) {
    0x80 <= b < 0xC0
  }

  /** What a byte carries above its marker bits. */
  function Payload(b: byte, marker: int): int {
    var v: int := b;
    v - marker
  }

  /** A code point that is a character: no surrogate and not above the last plane. */
  predicate IsScalar(u: int) {
    0 <= u < 0xD800 || 0xE000 <= u < 0x110000
  }

  /** The first character and its length in bytes; overlong forms and surrogates are errors. */
  function DecodeChar(b: seq<byte>): (r: Option<(char, nat)>)
    ensures r.Some? ==> 1 <= r.value.1 <= |b|
  {
    if b == [] then None
    else if b[0] < 0x80 then Some((b[0] as char, 1))
    else if b[0] < 0xE0 then
      if b[0] >= 0xC2 && |b| >= 2 && IsContinuation(b[1])
      then Some(((Payload(b[0], 0xC0) * 64 + Payload(b[1], 0x80)) as char, 2)) else None
    else if b[0] < 0xF0 then
      if |b| >= 3 && IsContinuation(b[1]) && IsContinuation(b[2]) then
        var u := Payload(b[0], 0xE0) * 4096 + Payload(b[1], 0x80) * 64 + Payload(b[2], 0x80);
        if u >= 0x800 && IsScalar(u) then Some((u as char, 3)) else None
      else None
    else if b[0] < 0xF5 && |b| >= 4 && IsContinuation(b[1]) && IsContinuation(b[2]) && IsContinuation(b[3]) then
      var u := Payload(b[0], 0xF0) * 262144 + Payload(b[1], 0x80) * 4096
               + Payload(b[2], 0x80) * 64 + Payload(b[3], 0x80);
      if u >= 0x10000 && IsScalar(u) then Some((u as char, 4)) else None
    else None
  }

  function Decode(b: seq<byte>): Option<string> {
    if b == [] then Some("")
    else
      match DecodeChar(b)
      case None => None
      case Some((c, n)) =>
        match Decode(b[n..])
        case None => None
        case Some(rest) => Some([c] + rest)
  }

  /** A code point from its base-64 digits. */
  lemma Recompose(u: nat)
    ensures u == u / 64 * 64 + u % 64
    ensures u == u / 4096 * 4096 + u / 64 % 64 * 64 + u % 64
    ensures u == u / 262144 * 262144 + u / 4096 % 64 * 4096 + u / 64 % 64 * 64 + u % 64
  {
    var a, b := u / 64, u / 4096;
    assert u / 4096 == a / 64 && u / 262144 == b / 64;
    assert a == a / 64 * 64 + a % 64 && b == b / 64 * 64 + b % 64;
  }

  lemma DecodeEncodedChar(c: char, rest: seq<byte>)
    ensures DecodeChar(EncodeChar(c) + rest) == Some((c, |EncodeChar(c)|))
  {
    Recompose(c as int);
    var b, e := EncodeChar(c) + rest, EncodeChar(c);
    assert forall i :: 0 <= i < |e| ==> b[i] == e[i];
  }

  lemma {:induction false} DecodeEncode(s: string)
    ensures Decode(Encode(s)) == Some(s)
  {
    if s != "" {
      DecodeEncode(s[1..]);
      DecodeEncodedChar(s[0], Encode(s[1..]));
      assert Encode(s)[|EncodeChar(s[0])|..] == Encode(s[1..]);
      assert s == [s[0]] + s[1..];
    }
  }

  lemma TwoDigits(a: nat, b: nat)
    requires b < 64
    ensures (a * 64 + b) / 64 == a && (a * 64 + b) % 64 == b
  {
  }

  lemma ThreeDigits(a: nat, b: nat, c: nat)
    requires b < 64 && c < 64
    ensures var u := a * 4096 + b * 64 + c; u / 4096 == a && u / 64 % 64 == b && u % 64 == c
  {
    TwoDigits(a * 64 + b, c);
    TwoDigits(a, b);
  }

  lemma FourDigits(a: nat, b: nat, c: nat, d: nat)
    requires b < 64 && c < 64 && d < 64
    ensures var u := a * 262144 + b * 4096 + c * 64 + d;
            u / 262144 == a && u / 4096 % 64 == b && u / 64 % 64 == c && u % 64 == d
  {
    ThreeDigits(a * 64 + b, c, d);
    TwoDigits(a, b);
  }

  lemma EncodeDecodedChar(b: seq<byte>)
    requires DecodeChar(b).Some?
    ensures var (c, n) := DecodeChar(b).value; EncodeChar(c) == b[..n]
  {
    var (c, n) := DecodeChar(b).value;
    if n == 2 {
      TwoDigits(Payload(b[0], 0xC0), Payload(b[1], 0x80));
    } else if n == 3 {
      ThreeDigits(Payload(b[0], 0xE0), Payload(b[1], 0x80), Payload(b[2], 0x80));
    } else if n == 4 {
      FourDigits(Payload(b[0], 0xF0), Payload(b[1], 0x80), Payload(b[2], 0x80), Payload(b[3], 0x80));
    }
  }

  /** Strictness: exactly the encodings decode. */
  lemma {:induction false} DecodesIff(b: seq<byte>, s: string)
    ensures Decode(b) == Some(s) <==> b == Encode(s)
    decreases |b|
  {
    DecodeEncode(s);
    if Decode(b) == Some(s) && b != [] {
      EncodeDecodedChar(b);
      var (c, n) := DecodeChar(b).value;
      DecodesIff(b[n..], s[1..]);
      assert b == b[..n] + b[n..];
      assert s[1..] == Decode(b[n..]).value;
    }
  }

  // ------------------------------------------------------------------
  // Version fields
  // ------------------------------------------------------------------

  /** `s.rstrip('\0')`. */
  function StripNul(s: string): (t: string)
    ensures |t| <= |s| && t == s[..|t|]
    decreases |s|
  {
    if s != "" && s[|s| - 1] == '\0' then StripNul(s[..|s| - 1]) else s
  }

  /** `_decode_version`: None is a UnicodeDecodeError. */
  function DecodeVersion(version: seq<byte>): Option<string> {
    match Decode(version)
    case Some(s) => Some(StripNul(s))
    case None => None
  }

  function Zeros(n: nat): (z: seq<byte>)
    ensures |z| == n
    ensures forall i :: 0 <= i < n ==> z[i] == 0
  {
    if n == 0 then [] else [0] + Zeros(n - 1)
  }

  function Nuls(n: nat): string {
    if n == 0 then "" else Nuls(n - 1) + ['\0']
  }

  lemma {:induction false} EncodeConcat(s: string, t: string)
    ensures Encode(s + t) == Encode(s) + Encode(t)
  {
    if s == "" {
      assert s + t == t;
    } else {
      EncodeConcat(s[1..], t);
      assert (s + t)[1..] == s[1..] + t && (s + t)[0] == s[0];
      ConcatBytes(EncodeChar(s[0]), Encode(s[1..]), Encode(t));
    }
  }

  lemma ConcatBytes(a: seq<byte>, b: seq<byte>, c: seq<byte>)
    ensures a + (b + c) == (a + b) + c
  {
  }

  lemma {:induction false} EncodeNuls(n: nat)
    ensures Encode(Nuls(n)) == Zeros(n)
  {
    if n > 0 {
      EncodeNuls(n - 1);
      EncodeConcat(Nuls(n - 1), ['\0']);
      assert Encode(['\0']) == [0] by {
        assert ['\0'][1..] == "";
      }
    }
  }

  lemma {:induction false} StripPadding(s: string, n: nat)
    ensures StripNul(s + Nuls(n)) == StripNul(s)
  {
    if n > 0 {
      assert (s + Nuls(n))[..|s + Nuls(n)| - 1] == s + Nuls(n - 1);
      StripPadding(s, n - 1);
    } else {
      assert s + "" == s;
    }
  }

  /** A version padded with zero bytes comes back exactly when it does not itself end in NUL. */
  lemma PaddedVersionIff(s: string, n: nat)
    ensures DecodeVersion(Encode(s) + Zeros(n)) == Some(s) <==> (s == "" || s[|s| - 1] != '\0')
  {
    EncodeNuls(n);
    EncodeConcat(s, Nuls(n));
    DecodeEncode(s + Nuls(n));
    StripPadding(s, n);
  }
}
