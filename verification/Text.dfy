/** Python string operations: split, join, strip and the decimal text of a number. */
module Text {

  /** `s.split(sep)` for a one-character separator: always at least one part. */
  function Split(s: string, sep: char): (parts: seq<string>)
    ensures parts != []
    ensures forall p :: p in parts ==> sep !in p
  {
    if s == "" then [""] else Attach(s[0], Split(s[1..], sep), sep)
  }

  /** The parts of a text with one more character in front. */
  function Attach(c: char, parts: seq<string>, sep: char): (r: seq<string>)
    requires parts != []
    ensures r != []
    ensures (forall p :: p in parts ==> sep !in p) ==> forall p :: p in r ==> sep !in p
  {
    if c == sep then [""] + parts else [[c] + parts[0]] + parts[1..]
  }

  lemma AttachConcat(c: char, a: seq<string>, b: seq<string>, sep: char)
    requires a != []
    ensures Attach(c, a + b, sep) == Attach(c, a, sep) + b
  {
  }

  /** `sep.join(parts)`. */
  function Join(parts: seq<string>, sep: char): string {
    if parts == [] then ""
    else if |parts| == 1 then parts[0]
    else parts[0] + [sep] + Join(parts[1..], sep)
  }

  /** Splitting distributes over a separator. */
  lemma {:induction false} SplitAppend(x: string, y: string, sep: char)
    ensures Split(x + [sep] + y, sep) == Split(x, sep) + Split(y, sep)
  {
    var t := x + [sep] + y;
    if x == "" {
      assert t[1..] == y;
    } else {
      SplitAppend(x[1..], y, sep);
      assert t[1..] == x[1..] + [sep] + y;
      assert t[0] == x[0];
      AttachConcat(x[0], Split(x[1..], sep), Split(y, sep), sep);
    }
  }

  lemma {:induction false} SplitNone(p: string, sep: char)
    requires sep !in p
    ensures Split(p, sep) == [p]
  {
    if p != "" {
      assert forall c :: c in p[1..] ==> c in p;
      SplitNone(p[1..], sep);
      assert p == [p[0]] + p[1..];
      assert p[0] in p;
    }
  }

  /** Text before the first separator becomes the first part. */
  lemma SplitCons(p: string, s: string, sep: char)
    requires sep !in p
    ensures Split(p + [sep] + s, sep) == [p] + Split(s, sep)
  {
    SplitAppend(p, s, sep);
    SplitNone(p, sep);
  }

  lemma JoinCons(p: string, rest: seq<string>, sep: char)
    requires rest != []
    ensures Join([p] + rest, sep) == p + [sep] + Join(rest, sep)
  {
    assert ([p] + rest)[1..] == rest;
  }

  /** Splitting joined parts gives the parts back, the last of them split further. */
  lemma {:induction false} SplitJoin(parts: seq<string>, last: string, sep: char)
    requires forall i :: 0 <= i < |parts| ==> sep !in parts[i]
    ensures Split(Join(parts + [last], sep), sep) == parts + Split(last, sep)
    decreases |parts|
  {
    if parts == [] {
      assert parts + [last] == [last];
    } else {
      var p, rest := parts[0], parts[1..];
      SplitJoin(rest, last, sep);
      JoinCons(p, rest + [last], sep);
      SplitCons(p, Join(rest + [last], sep), sep);
      assert parts + [last] == [p] + (rest + [last]);
      assert parts + Split(last, sep) == [p] + (rest + Split(last, sep));
    }
  }

  /** Joining a last part that is itself joined text. */
  lemma {:induction false} JoinJoin(a: seq<string>, b: seq<string>, sep: char)
    requires b != []
    ensures Join(a + [Join(b, sep)], sep) == Join(a + b, sep)
    decreases |a|
  {
    if a == [] {
      assert a + [Join(b, sep)] == [Join(b, sep)] && a + b == b;
    } else {
      var x, y := a + [Join(b, sep)], a + b;
      assert x[1..] == a[1..] + [Join(b, sep)] && y[1..] == a[1..] + b;
      JoinJoin(a[1..], b, sep);
    }
  }

  /** Appending text to joined parts appends it to the last part. */
  lemma {:induction false} JoinAppend(a: seq<string>, last: string, tail: string, sep: char)
    ensures Join(a + [last], sep) + tail == Join(a + [last + tail], sep)
    decreases |a|
  {
    var x, y := a + [last], a + [last + tail];
    if a == [] {
      assert x == [last] && y == [last + tail];
    } else {
      assert x[1..] == a[1..] + [last] && y[1..] == a[1..] + [last + tail];
      JoinAppend(a[1..], last, tail, sep);
      assert a[0] + [sep] + Join(x[1..], sep) + tail == a[0] + [sep] + (Join(x[1..], sep) + tail);
    }
  }

  /** The characters Python's `str.strip` removes. */
  predicate IsSpace(c: char) {
    var u := c as int;
    9 <= u <= 13 || 0x1c <= u <= 0x20 || u == 0x85 || u == 0xa0 || u == 0x1680 || 0x2000 <= u <= 0x200a ||
    u == 0x2028 || u == 0x2029 || u == 0x202f || u == 0x205f || u == 0x3000
  }

  /** `s.strip()`. */
  function Strip(s: string): (t: string)
    ensures IsStripped(t)
    ensures IsStripped(s) <==> t == s
    ensures forall c :: c in t ==> c in s
    decreases |s|
  {
    if s == "" then s
    else if IsSpace(s[0]) then Strip(s[1..])
    else if IsSpace(s[|s| - 1]) then Strip(s[..|s| - 1])
    else s
  }

  /** Only spaces stand before position i and from position j on. */
  ghost predicate Surrounds(s: string, i: nat, j: nat) {
    && i <= j <= |s|
    && (forall k :: 0 <= k < i ==> IsSpace(s[k]))
    && (forall k :: j <= k < |s| ==> IsSpace(s[k]))
  }

  lemma SurroundsCons(s: string, i: nat, j: nat)
    requires s != "" && IsSpace(s[0]) && Surrounds(s[1..], i, j)
    ensures Surrounds(s, i + 1, j + 1) && s[i + 1..j + 1] == s[1..][i..j]
  {
    assert forall k :: 1 <= k < |s| ==> s[k] == s[1..][k - 1];
  }

  /** What `strip` cuts off at either end are spaces, and it cuts off nothing else. */
  lemma {:induction false} StripMeaning(s: string) returns (i: nat, j: nat)
    ensures Surrounds(s, i, j) && Strip(s) == s[i..j]
    decreases |s|
  {
    var n := |s| - 1;
    if s != "" && IsSpace(s[0]) {
      i, j := StripMeaning(s[1..]);
      SurroundsCons(s, i, j);
      i, j := i + 1, j + 1;
    } else if s != "" && IsSpace(s[n]) {
      i, j := StripMeaning(s[..n]);
      assert s[..n][i..j] == s[i..j];
    } else {
      i, j := 0, |s|;
    }
  }

  predicate IsStripped(s: string) {
    s != "" ==> !IsSpace(s[0]) && !IsSpace(s[|s| - 1])
  }

  function Digit(d: int): char
    requires 0 <= d < 10
  {
    ('0' as int + d) as char
  }

  /** `str(n)`. */
  function Decimal(n: nat): (s: string)
    ensures s != ""
    ensures forall c :: c in s ==> '0' <= c <= '9'
  {
    if n < 10 then [Digit(n)] else Decimal(n / 10) + [Digit(n % 10)]
  }

  /** The number these digits stand for. */
  function NumberOf(s: string): int {
    if s == "" then 0 else 10 * NumberOf(s[..|s| - 1]) + (s[|s| - 1] as int - '0' as int)
  }

  /** The digits stand for the number, and the first one is no zero that could be left out. */
  lemma {:induction false} DecimalReads(n: nat)
    ensures NumberOf(Decimal(n)) == n
    ensures Decimal(n)[0] == '0' <==> n == 0
    ensures |Decimal(n)| == 1 <==> n < 10
  {
    var s := Decimal(n);
    if n >= 10 {
      DecimalReads(n / 10);
      assert s[..|s| - 1] == Decimal(n / 10) && s[|s| - 1] == Digit(n % 10);
    } else {
      assert s[..0] == "";
    }
  }

  /** Different numbers print differently. */
  lemma {:induction false} DecimalInjective(m: nat, n: nat)
    requires Decimal(m) == Decimal(n)
    ensures m == n
    decreases m
  {
    var s, t := Decimal(m), Decimal(n);
    assert s[|s| - 1] == Digit(m % 10) && t[|t| - 1] == Digit(n % 10);
    assert (m >= 10 <==> |s| > 1) && (n >= 10 <==> |t| > 1);
    if m >= 10 {
      assert Decimal(m / 10) == s[..|s| - 1] && Decimal(n / 10) == t[..|t| - 1];
      DecimalInjective(m / 10, n / 10);
    }
  }
}
