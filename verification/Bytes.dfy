/** Byte strings, their hexadecimal text, and their big-endian integer value. */
module Bytes {
  import opened Wrappers

  type byte = b: int | 0 <= b < 256

  // ------------------------------------------------------------------
  // Hexadecimal text
  // ------------------------------------------------------------------

  function HexDigit(d: int): (c: char)
    requires 0 <= d < 16
    ensures '0' <= c <= '9' || 'a' <= c <= 'f'
  {
    if d < 10 then ('0' as int + d) as char else ('a' as int + d - 10) as char
  }

  function DigitValue(c: char): (v: Option<int>)
    ensures v.Some? ==> 0 <= v.value < 16
  {
    if '0' <= c <= '9' then Some(c as int - '0' as int)
    else if 'a' <= c <= 'f' then Some(c as int - 'a' as int + 10)
    else if 'A' <= c <= 'F' then Some(c as int - 'A' as int + 10)
    else None
  }

  /** The sixteen digits, in either case, and no other character. */
  lemma DigitMeaning(c: char, v: int)
    ensures DigitValue(c) == Some(v)
            <==> 0 <= v < 16 && (c == "0123456789abcdef"[v] || c == "0123456789ABCDEF"[v])
  {
    assert DigitValue(c).Some? ==> c == "0123456789abcdef"[DigitValue(c).value]
                                   || c == "0123456789ABCDEF"[DigitValue(c).value];
  }

  /** `b.hex()`: two lower-case digits a byte. */
  function ToHex(b: seq<byte>): (s: string)
    ensures |s| == 2 * |b|
  {
    if b == [] then "" else [HexDigit(b[0] / 16), HexDigit(b[0] % 16)] + ToHex(b[1..])
  }

  predicate IsAsciiSpace(c: char) {
    c == ' ' || 9 <= c as int <= 13
  }

  /** `bytes.fromhex(s)`: None is its ValueError; blanks between bytes are skipped. */
  function FromHex(s: string): Option<seq<byte>> {
    if s == "" then Some([])
    else if IsAsciiSpace(s[0]) then FromHex(s[1..])
    else if |s| == 1 then None
    else
      match (DigitValue(s[0]), DigitValue(s[1]), FromHex(s[2..]))
      case (Some(hi), Some(lo), Some(rest)) => Some([16 * hi + lo] + rest)
      case _ => None
  }

  /** 0x or 0X. */
  predicate HasHexPrefix(s: string) {
    |s| >= 2 && s[0] == '0' && (s[1] == 'x' || s[1] == 'X')
  }

  /** A prefix in either case and n digits: what the Ethereum libraries read. */
  predicate IsHexText(s: string, n: nat) {
    |s| == n + 2 && HasHexPrefix(s) && forall i :: 2 <= i < n + 2 ==> DigitValue(s[i]).Some?
  }

  /** `s[2:]`, which is empty for a shorter string. */
  function Drop2(s: string): string {
    if |s| < 2 then "" else s[2..]
  }

  function BytesToHexString(b: seq<byte>): string {
    "0x" + ToHex(b)
  }

  function FromHexStringToBytes(s: string): Option<seq<byte>> {
    if "0x" <= s then FromHex(s[2..]) else FromHex(s)
  }

  /** Python strips no 0X, so a text that starts with it cannot be decoded. */
  lemma UpperPrefixFails(s: string)
    requires HasHexPrefix(s) && !("0x" <= s)
    ensures FromHexStringToBytes(s).None?
  {
    assert s[1] == 'X' && DigitValue(s[1]).None?;
  }

  /** The text `ToHex` prints: lower-case digits only. */
  predicate IsLowerHex(s: string) {
    forall i :: 0 <= i < |s| ==> '0' <= s[i] <= '9' || 'a' <= s[i] <= 'f'
  }

  lemma DigitRoundTrip(d: int, c: char)
    requires 0 <= d < 16
    ensures DigitValue(HexDigit(d)) == Some(d)
    ensures ('0' <= c <= '9' || 'a' <= c <= 'f') ==>
              DigitValue(c).Some? && HexDigit(DigitValue(c).value) == c
  {
  }

  /** One step of the decoder on a pair of digits. */
  lemma FromHexPair(hi: int, lo: int, rest: string)
    requires 0 <= hi < 16 && 0 <= lo < 16 && FromHex(rest).Some?
    ensures FromHex([HexDigit(hi), HexDigit(lo)] + rest) == Some([16 * hi + lo] + FromHex(rest).value)
  {
    var s := [HexDigit(hi), HexDigit(lo)] + rest;
    assert s[2..] == rest;
    DigitRoundTrip(hi, '0');
    DigitRoundTrip(lo, '0');
  }

  lemma {:induction false} ToHexIsLower(b: seq<byte>)
    ensures IsLowerHex(ToHex(b))
  {
    if b != [] {
      ToHexIsLower(b[1..]);
    }
  }

  lemma {:induction false} FromHexOfToHex(b: seq<byte>)
    ensures FromHex(ToHex(b)) == Some(b)
  {
    if b != [] {
      FromHexOfToHex(b[1..]);
      FromHexPair(b[0] / 16, b[0] % 16, ToHex(b[1..]));
      assert b == [b[0]] + b[1..];
    }
  }

  lemma FromHexToHex(b: seq<byte>)
    ensures FromHex(ToHex(b)) == Some(b)
    ensures IsLowerHex(ToHex(b))
  {
    FromHexOfToHex(b);
    ToHexIsLower(b);
  }

  /** The two conversions of src/utils/bytes.py undo each other on every byte string. */
  lemma HexStringRoundTrip(b: seq<byte>)
    ensures FromHexStringToBytes(BytesToHexString(b)) == Some(b)
  {
    FromHexToHex(b);
    assert BytesToHexString(b)[2..] == ToHex(b);
  }

  lemma PrintedIsHexText(b: seq<byte>)
    ensures IsHexText(BytesToHexString(b), 2 * |b|)
  {
    var s := BytesToHexString(b);
    FromHexToHex(b);
    forall i | 2 <= i < |s|
      ensures DigitValue(s[i]).Some?
    {
      assert s[i] == ToHex(b)[i - 2];
    }
  }

  /** What one successful step of the decoder on digits has read. */
  lemma FromHexUnpair(s: string)
    requires |s| >= 1 && !IsAsciiSpace(s[0]) && FromHex(s).Some?
    ensures |s| >= 2 && DigitValue(s[0]).Some? && DigitValue(s[1]).Some? && FromHex(s[2..]).Some?
    ensures FromHex(s).value == [16 * DigitValue(s[0]).value + DigitValue(s[1]).value] + FromHex(s[2..]).value
  {
  }

  /** Lower-case text is determined by the bytes it denotes. */
  lemma {:induction false} ToHexFromHex(s: string)
    requires IsLowerHex(s) && FromHex(s).Some?
    ensures ToHex(FromHex(s).value) == s
    decreases |s|
  {
    if s != "" {
      FromHexUnpair(s);
      ToHexFromHex(s[2..]);
      DigitRoundTrip(0, s[0]);
      DigitRoundTrip(0, s[1]);
      ToHexCons(DigitValue(s[0]).value, DigitValue(s[1]).value, FromHex(s[2..]).value);
      assert s == [s[0], s[1]] + s[2..];
    }
  }

  /** From a text that decodes behind its 0x, the two conversions lead back to the text exactly when it is
      made of lower-case digits alone: no capitals and no blanks. */
  lemma HexTextRoundTripIff(s: string)
    requires "0x" <= s && FromHex(s[2..]).Some?
    ensures FromHexStringToBytes(s).Some?
    ensures BytesToHexString(FromHexStringToBytes(s).value) == s <==> IsLowerHex(s[2..])
  {
    var b := FromHex(s[2..]).value;
    FromHexToHex(b);
    assert s == "0x" + s[2..];
    assert BytesToHexString(b)[2..] == ToHex(b);
    if IsLowerHex(s[2..]) {
      ToHexFromHex(s[2..]);
    }
  }

  /** Text made of digits alone decodes, two digits a byte. */
  lemma {:induction false} FromHexDigits(s: string, n: nat)
    requires |s| == 2 * n && forall i :: 0 <= i < |s| ==> DigitValue(s[i]).Some?
    ensures FromHex(s).Some? && |FromHex(s).value| == n
    decreases n
  {
    if n > 0 {
      assert forall i :: 0 <= i < |s[2..]| ==> s[2..][i] == s[i + 2];
      FromHexDigits(s[2..], n - 1);
      assert DigitValue(s[0]).Some? && DigitValue(s[1]).Some?;
    }
  }

  /** With or without a line feed behind, digits decode exactly when they pair up. */
  lemma {:induction false} FromHexPairsUp(s: string, n: nat)
    requires |s| == n || (|s| == n + 1 && s[n] == '\n')
    requires forall i :: 0 <= i < n ==> DigitValue(s[i]).Some?
    ensures FromHex(s).Some? <==> n % 2 == 0
    decreases n
  {
    if n > 1 {
      assert forall i :: 0 <= i < |s[2..]| ==> s[2..][i] == s[i + 2];
      FromHexPairsUp(s[2..], n - 2);
      assert DigitValue(s[0]).Some? && DigitValue(s[1]).Some?;
    } else if n == 1 {
      assert DigitValue(s[0]).Some?;
    } else if s != "" {
      assert s[1..] == "";
    }
  }

  /** Text that decodes is made of digits and blanks. */
  lemma {:induction false} FromHexReads(s: string, i: nat)
    requires FromHex(s).Some? && i < |s|
    ensures IsAsciiSpace(s[i]) || DigitValue(s[i]).Some?
    decreases |s|
  {
    if IsAsciiSpace(s[0]) {
      if i > 0 {
        FromHexReads(s[1..], i - 1);
      }
    } else {
      FromHexUnpair(s);
      if i > 1 {
        FromHexReads(s[2..], i - 2);
      }
    }
  }

  lemma ToHexCons(hi: int, lo: int, rest: seq<byte>)
    requires 0 <= hi < 16 && 0 <= lo < 16
    ensures ToHex([16 * hi + lo] + rest) == [HexDigit(hi), HexDigit(lo)] + ToHex(rest)
  {
    var b: seq<byte> := [16 * hi + lo] + rest;
    assert b[0] / 16 == hi && b[0] % 16 == lo;
    assert b[1..] == rest;
  }

  // ------------------------------------------------------------------
  // Powers of two and bit operations on natural numbers
  // ------------------------------------------------------------------

  function Pow2(n: nat): (p: nat)
    ensures p >= 1
  {
    if n == 0 then 1 else 2 * Pow2(n - 1)
  }

  lemma {:induction false} Pow2Add(m: nat, n: nat)
    ensures Pow2(m + n) == Pow2(m) * Pow2(n)
  {
    if m > 0 {
      Pow2Add(m - 1, n);
      assert Pow2(m + n) == 2 * Pow2(m - 1 + n);
    }
  }

  /** `a & b`, bit by bit. */
  function BitAnd(a: nat, b: nat): nat {
    if a == 0 || b == 0 then 0 else (a % 2) * (b % 2) + 2 * BitAnd(a / 2, b / 2)
  }

  /** `a | b`, bit by bit. */
  function BitOr(a: nat, b: nat): nat {
    if a == 0 then b
    else if b == 0 then a
    else (if a % 2 == 1 || b % 2 == 1 then 1 else 0) + 2 * BitOr(a / 2, b / 2)
  }

  /** `a >> k`, one bit at a time. */
  function ShiftRight(a: nat, k: nat): nat
    decreases a, k
  {
    if k == 0 then a else ShiftRight(a / 2, k - 1)
  }

  /** Masking with k one-bits keeps the remainder modulo two to the k. */
  lemma {:induction false} MaskIsRemainder(a: nat, k: nat)
    ensures BitAnd(a, Pow2(k) - 1) == a % Pow2(k)
    decreases k
  {
    if k > 0 {
      var p := Pow2(k - 1);
      MaskIsRemainder(a / 2, k - 1);
      assert (2 * p - 1) / 2 == p - 1 && (2 * p - 1) % 2 == 1;
      SplitRemainder(a, p);
    }
  }

  lemma SplitRemainder(a: nat, p: nat)
    requires p >= 1
    ensures a % (2 * p) == a % 2 + 2 * ((a / 2) % p)
    ensures a / (2 * p) == (a / 2) / p
  {
    var h, r := a / 2, a % 2;
    var q, m := h / p, h % p;
    assert a == 2 * (p * q + m) + r == (2 * p) * q + (2 * m + r);
    DivModUnique(a, 2 * p, q, 2 * m + r);
  }

  lemma DivModUnique(a: int, d: int, q: int, r: int)
    requires d > 0 && a == d * q + r && 0 <= r < d
    ensures a / d == q && a % d == r
  {
    SameQuotient(d, a / d, a % d, q, r);
  }

  lemma SameQuotient(d: int, q: int, r: int, q': int, r': int)
    requires 0 <= r < d && 0 <= r' < d && d * q + r == d * q' + r'
    ensures q == q' && r == r'
  {
    var k := q - q';
    assert d * k == r' - r;
    if k >= 1 {
      MulGrows(d, k);
    } else if k <= -1 {
      MulGrows(d, -k);
    }
  }

  lemma MulGrows(d: int, k: int)
    requires d > 0 && k >= 1
    ensures d * k >= d
  {
  }

  lemma {:induction false} ShiftIsQuotient(a: nat, k: nat)
    ensures ShiftRight(a, k) == a / Pow2(k)
    decreases k
  {
    if k > 0 {
      ShiftIsQuotient(a / 2, k - 1);
      SplitRemainder(a, Pow2(k - 1));
    }
  }

  /** Or-ing one bit sets it: adds it when clear, changes nothing when set. */
  lemma {:induction false} OrSetsBit(a: nat, k: nat)
    requires a < Pow2(k + 1)
    ensures BitOr(a, Pow2(k)) == if a < Pow2(k) then a + Pow2(k) else a
    decreases k
  {
    if k > 0 && a > 0 {
      OrSetsBit(a / 2, k - 1);
      assert Pow2(k) % 2 == 0 && Pow2(k) / 2 == Pow2(k - 1);
    }
  }

  // ------------------------------------------------------------------
  // Big-endian integers
  // ------------------------------------------------------------------

  /** `int.from_bytes(b)`, whose default byte order is big-endian. */
  function FromBytes(b: seq<byte>): nat {
    if b == [] then 0 else 256 * FromBytes(b[..|b| - 1]) + b[|b| - 1]
  }

  /** `n.to_bytes(len)`, defined for n below 256 to the len. */
  function ToBytes(n: nat, len: nat): (b: seq<byte>)
    ensures |b| == len
  {
    seq(len, i requires 0 <= i < len => n / Pow2(8 * (len - 1 - i)) % 256)
  }

  lemma Pow256(len: nat)
    ensures Pow2(8 * (len + 1)) == 256 * Pow2(8 * len)
  {
    Pow2Add(8, 8 * len);
    assert Pow2(8) == 256;
  }

  lemma DivDiv(n: nat, p: nat)
    requires p > 0
    ensures n / (256 * p) == (n / 256) / p
  {
    var h, r := n / 256, n % 256;
    var q, m := h / p, h % p;
    assert n == 256 * (p * q + m) + r == (256 * p) * q + (256 * m + r);
    DivModUnique(n, 256 * p, q, 256 * m + r);
  }

  /** The last byte is the remainder, the bytes before it are those of the quotient. */
  lemma ToBytesSnoc(n: nat, len: nat)
    requires len > 0
    ensures ToBytes(n, len) == ToBytes(n / 256, len - 1) + [n % 256]
  {
    var b := ToBytes(n / 256, len - 1) + [n % 256];
    forall i | 0 <= i < len
      ensures ToBytes(n, len)[i] == b[i]
    {
      if i < len - 1 {
        var k := len - 2 - i;
        Pow256(k);
        DivDiv(n, Pow2(8 * k));
        assert len - 1 - i == k + 1 && (len - 1) - 1 - i == k;
      } else {
        assert 8 * (len - 1 - i) == 0 && n / Pow2(0) == n;
      }
    }
  }

  lemma {:induction false} FromBytesBound(b: seq<byte>)
    ensures FromBytes(b) < Pow2(8 * |b|)
    decreases |b|
  {
    if b != [] {
      FromBytesBound(b[..|b| - 1]);
      Pow256(|b| - 1);
    }
  }

  lemma {:induction false} FromBytesToBytes(n: nat, len: nat)
    requires n < Pow2(8 * len)
    ensures FromBytes(ToBytes(n, len)) == n
    decreases len
  {
    if len > 0 {
      Pow256(len - 1);
      FromBytesToBytes(n / 256, len - 1);
      ToBytesSnoc(n, len);
      assert ToBytes(n, len)[..len - 1] == ToBytes(n / 256, len - 1);
    }
  }

  lemma {:induction false} ToBytesFromBytes(b: seq<byte>)
    ensures ToBytes(FromBytes(b), |b|) == b
    decreases |b|
  {
    if b != [] {
      ToBytesFromBytes(b[..|b| - 1]);
      ToBytesSnoc(FromBytes(b), |b|);
      assert FromBytes(b) / 256 == FromBytes(b[..|b| - 1]);
      assert b == b[..|b| - 1] + [b[|b| - 1]];
    }
  }

  /** The leading byte is the most significant one. */
  lemma {:induction false} FromBytesHead(b: seq<byte>)
    requires b != []
    ensures FromBytes(b) == b[0] * Pow2(8 * (|b| - 1)) + FromBytes(b[1..])
    decreases |b|
  {
    var n, init, last := |b| - 1, b[..|b| - 1], b[|b| - 1];
    if n > 0 {
      FromBytesHead(init);
      Pow256(n - 1);
      assert init[1..] == b[1..][..n - 1];
      assert b[1..][n - 1] == last;
      ScaleHead(b[0], Pow2(8 * (n - 1)), FromBytes(init[1..]), last);
    } else {
      assert b[..0] == [] && b[1..] == [];
    }
  }

  lemma ScaleHead(h: nat, p: nat, t: nat, last: nat)
    ensures 256 * (h * p + t) + last == h * (256 * p) + (256 * t + last)
  {
  }
}
