/** Printing and parsing STOMP frames, src/transport/msg_providers/stomp/frame.py. */
module StompFrame {
  import opened OrderedDict
  import opened Text
  import opened Wrappers

  const LF := '\n'
  const NULL := '\0'
  const CONTENT_LENGTH := "content-length"

  datatype ParseError = IndexError | ValueError

  /** The body is already "" where the constructor was given None. */
  datatype Frame = Frame(command: string, headers: Dict<string, string>, body: string)

  // ------------------------------------------------------------------
  // Printing
  // ------------------------------------------------------------------

  function HeaderLine(h: (string, string)): string {
    h.0 + ":" + h.1
  }

  function HeaderLines(headers: Dict<string, string>): (lines: seq<string>)
    ensures |lines| == |headers|
    ensures forall i :: 0 <= i < |headers| ==> lines[i] == HeaderLine(headers[i])
  {
    seq(|headers|, i requires 0 <= i < |headers| => HeaderLine(headers[i]))
  }

  /** The headers that are printed: content-length is added to a non-empty body that lacks it. */
  function SentHeaders(f: Frame): Dict<string, string> {
    if f.body != "" && !Has(f.headers, CONTENT_LENGTH)
    then f.headers + [(CONTENT_LENGTH, Decimal(|f.body|))]
    else f.headers
  }

  /** `str(frame)` as text. */
  function Printed(f: Frame): string {
    Join([f.command] + HeaderLines(SentHeaders(f)) + [[LF] + f.body], LF)
  }

  /** `__str__`: the lines are collected one by one and joined. */
  method Str(f: Frame) returns (text: string)
    ensures text == Printed(f)
  {
    var lines := [f.command];
    var skipContentLength := Has(f.headers, CONTENT_LENGTH);
    for i := 0 to |f.headers|
      invariant lines == [f.command] + HeaderLines(f.headers)[..i]
    {
      lines := lines + [f.headers[i].0 + ":" + f.headers[i].1];
    }
    if f.body != "" && !skipContentLength {
      lines := lines + ["content-length:" + Decimal(|f.body|)];
      assert HeaderLine((CONTENT_LENGTH, Decimal(|f.body|))) == "content-length:" + Decimal(|f.body|);
    }
    assert lines == [f.command] + HeaderLines(SentHeaders(f));
    lines := lines + [[LF] + f.body];
    text := Join(lines, LF);
  }

  /** `Frame.marshall`. */
  function Marshall(f: Frame): string {
    Printed(f) + [NULL]
  }

  // ------------------------------------------------------------------
  // Parsing
  // ------------------------------------------------------------------

  /** The header loop from line i on: the headers and the index of the blank line. */
  function ScanHeaders(lines: seq<string>, i: nat, headers: Dict<string, string>)
    : Result<(Dict<string, string>, nat), ParseError>
    decreases |lines| - i
  {
    if i >= |lines| then Err(IndexError)
    else if lines[i] == "" then Ok((headers, i))
    else
      var kv := Split(lines[i], ':');
      if |kv| != 2 then Err(ValueError)
      else ScanHeaders(lines, i + 1, Put(headers, kv[0], kv[1]))
  }

  /** The body held by the line after the blank one, its last character cut off. */
  function BodyOf(line: string): string {
    if line == [NULL] || line == "" then "" else line[..|line| - 1]
  }

  /** What `unmarshall_single` returns or raises; no frame for a lone line feed. */
  function Parsed(data: string): Result<Option<Frame>, ParseError> {
    if data == [LF] then Ok(None)
    else
      var lines := Split(data, LF);
      match ScanHeaders(lines, 1, [])
      case Err(e) => Err(e)
      case Ok((headers, i)) =>
        if i + 1 >= |lines| then Err(IndexError)
        else Ok(Some(Frame(Strip(lines[0]), headers, BodyOf(lines[i + 1]))))
  }

  /** `unmarshall_single`. */
  method UnmarshallSingle(data: string) returns (r: Result<Option<Frame>, ParseError>)
    ensures r == Parsed(data)
  {
    if data == "\n" {
      return Ok(None);
    }
    var lines := Split(data, LF);
    var command := Strip(lines[0]);
    var headers: Dict<string, string> := [];
    var i := 1;
    while i < |lines| && lines[i] != ""
      invariant 1 <= i <= |lines|
      invariant ScanHeaders(lines, i, headers) == ScanHeaders(lines, 1, [])
    {
      var kv := Split(lines[i], ':');
      if |kv| != 2 {
        return Err(ValueError);
      }
      headers := Put(headers, kv[0], kv[1]);
      i := i + 1;
    }
    if i + 1 >= |lines| {
      return Err(IndexError);
    }
    var line := lines[i + 1];
    var body := if line == [NULL] then "" else if line == "" then "" else line[..|line| - 1];
    r := Ok(Some(Frame(command, headers, body)));
  }

  // ------------------------------------------------------------------
  // Round trip
  // ------------------------------------------------------------------

  predicate CleanHeader(h: (string, string)) {
    ':' !in h.0 && LF !in h.0 && ':' !in h.1 && LF !in h.1
  }

  /** The frames that survive the wire. */
  predicate Clean(f: Frame) {
    && LF !in f.command && IsStripped(f.command)
    && (forall i :: 0 <= i < |f.headers| ==> CleanHeader(f.headers[i]))
    && LF !in f.body
  }

  /** The text on the wire, with the blank line and the final NUL as lines of their own. */
  lemma WireLines(f: Frame)
    ensures Marshall(f) == Join(([f.command] + HeaderLines(SentHeaders(f))) + [""] + [f.body + [NULL]], LF)
  {
    var head := [f.command] + HeaderLines(SentHeaders(f));
    assert Join(["", f.body], LF) == [LF] + f.body by {
      assert ["", f.body][1..] == [f.body];
    }
    JoinJoin(head, ["", f.body], LF);
    assert head + ["", f.body] == (head + [""]) + [f.body];
    JoinAppend(head + [""], f.body, [NULL], LF);
  }

  /** Each of these followed by a line feed. */
  function Terminated(lines: seq<string>): string {
    if lines == [] then "" else lines[0] + "\n" + Terminated(lines[1..])
  }

  lemma {:induction false} JoinTerminated(lines: seq<string>, last: string)
    ensures Join(lines + [last], LF) == Terminated(lines) + last
  {
    if lines == [] {
      assert lines + [last] == [last];
    } else {
      JoinTerminated(lines[1..], last);
      JoinCons(lines[0], lines[1..] + [last], LF);
      assert lines + [last] == [lines[0]] + (lines[1..] + [last]);
    }
  }

  /** What STOMP 1.1 calls a frame: the command, the header lines and a blank line, each with a line feed, then the
      body and a NUL. */
  lemma WireFormat(f: Frame) returns (lines: seq<string>)
    ensures |lines| == |SentHeaders(f)|
    ensures forall i :: 0 <= i < |lines| ==> lines[i] == SentHeaders(f)[i].0 + ":" + SentHeaders(f)[i].1
    ensures Marshall(f) == Terminated([f.command] + lines + [""]) + f.body + "\0"
  {
    lines := HeaderLines(SentHeaders(f));
    WireLines(f);
    JoinTerminated([f.command] + lines + [""], f.body + "\0");
  }

  lemma SplitHeaderLine(h: (string, string))
    requires CleanHeader(h)
    ensures Split(HeaderLine(h), ':') == [h.0, h.1]
    ensures HeaderLine(h) != "" && LF !in HeaderLine(h)
  {
    SplitCons(h.0, h.1, ':');
    SplitNone(h.1, ':');
    assert HeaderLine(h) == h.0 + [':'] + h.1;
  }

  /** The dictionary that header lines leave, one written after the other. */
  function DictOf(hs: seq<(string, string)>): Dict<string, string>
    decreases |hs|
  {
    if hs == [] then [] else Put(DictOf(hs[..|hs| - 1]), hs[|hs| - 1].0, hs[|hs| - 1].1)
  }

  /** The value in the last line of this name. */
  function LastValue(hs: seq<(string, string)>, k: string): Option<string>
    decreases |hs|
  {
    if hs == [] then None
    else if hs[|hs| - 1].0 == k then Some(hs[|hs| - 1].1)
    else LastValue(hs[..|hs| - 1], k)
  }

  /** Of repeated header lines the last one counts. */
  lemma {:induction false} LastLineCounts(hs: seq<(string, string)>, k: string)
    ensures Lookup(DictOf(hs), k) == LastValue(hs, k) && WellFormed(DictOf(hs))
    decreases |hs|
  {
    if hs != [] {
      var init, h := hs[..|hs| - 1], hs[|hs| - 1];
      LastLineCounts(init, k);
      LookupPut(DictOf(init), h.0, h.1, k);
      PutKeys(DictOf(init), h.0, h.1);
    }
  }

  /** Lines without repeated names are the dictionary. */
  lemma {:induction false} DictOfDict(hs: Dict<string, string>)
    requires WellFormed(hs)
    ensures DictOf(hs) == hs
    decreases |hs|
  {
    if hs != [] {
      var n := |hs| - 1;
      assert hs[..n + 1] == hs;
      DictOfDict(hs[..n]);
      PutNext(hs, n);
    }
  }

  /** Scanning header lines reads them all and stops at the blank line. */
  lemma {:induction false} ScanPrinted(lines: seq<string>, hs: seq<(string, string)>, i: nat)
    requires forall j :: 0 <= j < |hs| ==> CleanHeader(hs[j])
    requires i <= |hs| && |lines| > |hs| + 1
    requires forall j :: 0 <= j < |hs| ==> lines[j + 1] == HeaderLine(hs[j])
    requires lines[|hs| + 1] == ""
    ensures ScanHeaders(lines, i + 1, DictOf(hs[..i])) == Ok((DictOf(hs), |hs| + 1))
    decreases |hs| - i
  {
    if i == |hs| {
      assert hs[..i] == hs;
    } else {
      assert lines[i + 1] == HeaderLine(hs[i]) && CleanHeader(hs[i]);
      ScanStep(lines, i + 1, DictOf(hs[..i]), hs[i]);
      assert hs[..i + 1][..i] == hs[..i];
      ScanPrinted(lines, hs, i + 1);
    }
  }

  lemma ScanStep(lines: seq<string>, i: nat, before: Dict<string, string>, h: (string, string))
    requires i < |lines| && lines[i] == HeaderLine(h) && CleanHeader(h)
    ensures ScanHeaders(lines, i, before) == ScanHeaders(lines, i + 1, Put(before, h.0, h.1))
  {
    SplitHeaderLine(h);
  }

  lemma PutNext(headers: Dict<string, string>, i: nat)
    requires WellFormed(headers) && i < |headers|
    ensures Put(headers[..i], headers[i].0, headers[i].1) == headers[..i + 1]
  {
    assert !Has(headers[..i], headers[i].0);
  }

  lemma SentIsClean(f: Frame)
    requires Clean(f)
    ensures WellFormed(f.headers) ==> WellFormed(SentHeaders(f))
    ensures forall i :: 0 <= i < |SentHeaders(f)| ==> CleanHeader(SentHeaders(f)[i])
  {
    var n, sent := |f.headers|, SentHeaders(f);
    assert forall i :: 0 <= i < n ==> sent[i] == f.headers[i] && sent[i].0 in Keys(f.headers);
  }

  /** The lines the parser sees when a clean frame was printed. */
  lemma WireSplits(f: Frame)
    requires Clean(f)
    ensures var lines, sent := Split(Marshall(f), LF), SentHeaders(f);
            && |lines| == |sent| + 3
            && lines[0] == f.command
            && (forall j :: 0 <= j < |sent| ==> lines[j + 1] == HeaderLine(sent[j]))
            && lines[|sent| + 1] == "" && lines[|sent| + 2] == f.body + [NULL]
  {
    var sent := SentHeaders(f);
    var parts := [f.command] + HeaderLines(sent) + [""];
    SentIsClean(f);
    WireLines(f);
    forall i | 0 <= i < |parts|
      ensures LF !in parts[i]
    {
      if 0 < i <= |sent| {
        SplitHeaderLine(sent[i - 1]);
      }
    }
    SplitJoin(parts, f.body + [NULL], LF);
    SplitNone(f.body + [NULL], LF);
  }

  /** Whatever header lines a clean frame has, repeated ones included, it is parsed with its command, its body and the
      dictionary they leave. */
  lemma ParsesLines(f: Frame)
    requires Clean(f)
    ensures Parsed(Marshall(f)) == Ok(Some(f.(headers := DictOf(SentHeaders(f)))))
  {
    var sent := SentHeaders(f);
    SentIsClean(f);
    WireSplits(f);
    NotHeartbeat(Printed(f));
    ScannedWhole(Marshall(f), Split(Marshall(f), LF), sent);
    CutNull(f.body);
  }

  lemma ScannedWhole(data: string, lines: seq<string>, hs: seq<(string, string)>)
    requires data != [LF] && lines == Split(data, LF) && |lines| == |hs| + 3 && lines[|hs| + 1] == ""
    requires forall j :: 0 <= j < |hs| ==> lines[j + 1] == HeaderLine(hs[j]) && CleanHeader(hs[j])
    ensures Parsed(data) == Ok(Some(Frame(Strip(lines[0]), DictOf(hs), BodyOf(lines[|hs| + 2]))))
  {
    ScanPrinted(lines, hs, 0);
    assert hs[..0] == [];
    ParsedLines(data, lines, DictOf(hs), |hs| + 1);
  }

  /** A clean frame comes back with its command and body, and the headers that were sent. */
  lemma RoundTrip(f: Frame)
    requires Clean(f) && WellFormed(f.headers)
    ensures Parsed(Marshall(f)) == Ok(Some(f.(headers := SentHeaders(f))))
  {
    SentIsClean(f);
    ParsesLines(f);
    DictOfDict(SentHeaders(f));
  }

  lemma ParsedLines(data: string, lines: seq<string>, headers: Dict<string, string>, i: nat)
    requires data != [LF] && lines == Split(data, LF) && ScanHeaders(lines, 1, []) == Ok((headers, i))
    requires i + 1 < |lines|
    ensures Parsed(data) == Ok(Some(Frame(Strip(lines[0]), headers, BodyOf(lines[i + 1]))))
  {
  }

  lemma NotHeartbeat(text: string)
    ensures text + [NULL] != [LF]
  {
    assert (text + [NULL])[|text|] == NULL;
  }

  lemma CutNull(body: string)
    ensures BodyOf(body + [NULL]) == body
  {
    assert body != "" ==> |body + [NULL]| > |[NULL]|;
  }

  /** Whatever the parser accepts is clean and has no repeated header. */
  lemma ParsedIsClean(data: string)
    ensures var r := Parsed(data);
            r.Ok? && r.value.Some? ==> Clean(r.value.value) && WellFormed(r.value.value.headers)
  {
    var lines := Split(data, LF);
    ScanIsClean(lines, 1, []);
    if ScanHeaders(lines, 1, []).Ok? {
      var i := ScanHeaders(lines, 1, []).value.1;
      if i + 1 < |lines| {
        var line := lines[i + 1];
        assert LF !in line;
        assert forall c :: c in BodyOf(line) ==> c in line;
      }
    }
  }

  lemma PutClean(headers: Dict<string, string>, k: string, v: string)
    requires WellFormed(headers) && forall j :: 0 <= j < |headers| ==> CleanHeader(headers[j])
    requires CleanHeader((k, v))
    ensures WellFormed(Put(headers, k, v))
    ensures forall j :: 0 <= j < |Put(headers, k, v)| ==> CleanHeader(Put(headers, k, v)[j])
  {
    PutKeys(headers, k, v);
  }

  lemma {:induction false} ScanIsClean(lines: seq<string>, i: nat, headers: Dict<string, string>)
    requires forall l :: l in lines ==> LF !in l
    requires WellFormed(headers) && forall j :: 0 <= j < |headers| ==> CleanHeader(headers[j])
    ensures ScanHeaders(lines, i, headers).Ok? ==>
              var out := ScanHeaders(lines, i, headers).value.0;
              WellFormed(out) && forall j :: 0 <= j < |out| ==> CleanHeader(out[j])
    decreases |lines| - i
  {
    if i < |lines| && lines[i] != "" {
      var kv := Split(lines[i], ':');
      if |kv| == 2 {
        PartsOfLine(lines[i], kv);
        PutClean(headers, kv[0], kv[1]);
        ScanIsClean(lines, i + 1, Put(headers, kv[0], kv[1]));
      }
    }
  }

  lemma PartsOfLine(line: string, kv: seq<string>)
    requires LF !in line && kv == Split(line, ':') && |kv| == 2
    ensures CleanHeader((kv[0], kv[1]))
  {
    PartsWithin(line, ':');
    assert kv[0] in kv && kv[1] in kv;
  }

  lemma {:induction false} PartsWithin(s: string, sep: char)
    ensures forall p, c :: p in Split(s, sep) && c in p ==> c in s
  {
    if s != "" {
      PartsWithin(s[1..], sep);
      var rest := Split(s[1..], sep);
      forall p, c | p in Split(s, sep) && c in p
        ensures c in s
      {
        assert rest[0] in rest;
        assert c == s[0] || c in s[1..];
      }
    }
  }

  /** The exact condition of the round trip, over all frames a dictionary can hold. */
  lemma RoundTripIff(f: Frame)
    requires WellFormed(f.headers)
    ensures Parsed(Marshall(f)) == Ok(Some(f.(headers := SentHeaders(f)))) <==> Clean(f)
  {
    assert forall i :: 0 <= i < |f.headers| ==> SentHeaders(f)[i] == f.headers[i];
    ParsedIsClean(Marshall(f));
    if Clean(f) {
      RoundTrip(f);
    }
  }

  /** Printing what was parsed gives the identical text. */
  lemma PrintParsed(f: Frame)
    requires Clean(f) && WellFormed(f.headers)
    ensures var r := Parsed(Marshall(f));
            r.Ok? && r.value.Some? && Marshall(r.value.value) == Marshall(f)
  {
    RoundTrip(f);
    var g := f.(headers := SentHeaders(f));
    if f.body != "" && !Has(f.headers, CONTENT_LENGTH) {
      assert g.headers[|f.headers|].0 == CONTENT_LENGTH;
      assert CONTENT_LENGTH in Keys(g.headers);
    }
    assert SentHeaders(g) == g.headers;
  }

  /** The scan of any printed frame, clean or not, stops inside the text: it meets the blank line
      with a line after it, unless a header line of the wrong shape comes first. */
  lemma PrintedFrameEnds(f: Frame)
    ensures Parsed(Marshall(f)) != Err(IndexError)
  {
    var head, tail := [f.command] + HeaderLines(SentHeaders(f)), f.body + [NULL];
    WireLines(f);
    assert (head + [""]) + [tail] == head + ["", tail];
    assert Join(["", tail], LF) == [LF] + tail by {
      assert ["", tail][1..] == [tail];
    }
    JoinJoin(head, ["", tail], LF);
    JoinLast(head, [LF] + tail, LF);
    var before := Join(head, LF);
    assert Marshall(f) == before + [LF] + ("" + [LF] + tail);
    SplitAppend(before, "" + [LF] + tail, LF);
    SplitAppend("", tail, LF);
    ScanStops(Split(Marshall(f), LF), 1, [], |Split(before, LF)|);
  }

  lemma {:induction false} JoinLast(a: seq<string>, last: string, sep: char)
    requires a != []
    ensures Join(a + [last], sep) == Join(a, sep) + [sep] + last
    decreases |a|
  {
    if |a| > 1 {
      JoinLast(a[1..], last, sep);
      JoinCons(a[0], a[1..], sep);
      JoinCons(a[0], a[1..] + [last], sep);
      assert [a[0]] + a[1..] == a;
      assert [a[0]] + (a[1..] + [last]) == a + [last];
    } else {
      JoinCons(a[0], [last], sep);
      assert a == [a[0]];
    }
  }

  lemma {:induction false} ScanStops(lines: seq<string>, i: nat, headers: Dict<string, string>, blank: nat)
    requires i <= blank < |lines| && lines[blank] == ""
    ensures var r := ScanHeaders(lines, i, headers);
            if r.Ok? then r.value.1 <= blank else r.error == ValueError
    decreases blank - i
  {
    if lines[i] != "" {
      var kv := Split(lines[i], ':');
      if |kv| == 2 {
        ScanStops(lines, i + 1, Put(headers, kv[0], kv[1]), blank);
      }
    }
  }
}
