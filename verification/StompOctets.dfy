/** The content-length of printed frames: src/transport/msg_providers/stomp/frame.py counts characters,
    the server octets. */
module StompOctets {
  import opened OrderedDict
  import opened StompFrame
  import opened Text
  import opened Utf8
  import opened Wrappers

  predicate IsAscii(s: string) {
    forall i :: 0 <= i < |s| ==> s[i] as int < 0x80
  }

  /** A text has as many octets as characters exactly when it is ASCII, and never fewer. */
  lemma {:induction false} OctetsIff(s: string)
    ensures |Encode(s)| >= |s|
    ensures |Encode(s)| == |s| <==> IsAscii(s)
  {
    if s != "" {
      OctetsIff(s[1..]);
      assert forall i :: 0 <= i < |s[1..]| ==> s[1..][i] == s[i + 1];
      assert IsAscii(s) <==> s[0] as int < 0x80 && IsAscii(s[1..]);
    }
  }

  /** The content-length sent is the caller's own or, for a body and no such header, the number of its characters. */
  lemma LengthSent(f: Frame)
    ensures Lookup(SentHeaders(f), "content-length")
            == if Has(f.headers, "content-length") then Lookup(f.headers, "content-length")
               else if f.body == "" then None
               else Some(Decimal(|f.body|))
  {
    var n, sent := |f.headers|, SentHeaders(f);
    if f.body != "" && !Has(f.headers, "content-length") {
      assert sent[n] == ("content-length", Decimal(|f.body|));
      forall j | 0 <= j < n
        ensures sent[j].0 != "content-length"
      {
        assert Keys(f.headers)[j] == sent[j].0;
      }
      assert IndexOf(sent, "content-length") == n;
    }
  }

  /** The one that is added is the number of octets of the body, as STOMP 1.1 asks for in its description of that
      header, exactly when the body is ASCII. */
  lemma ContentLengthIff(f: Frame)
    requires f.body != "" && !Has(f.headers, "content-length")
    ensures Lookup(SentHeaders(f), "content-length") == Some(Decimal(|Encode(f.body)|)) <==> IsAscii(f.body)
  {
    LengthSent(f);
    OctetsIff(f.body);
    if Decimal(|Encode(f.body)|) == Decimal(|f.body|) {
      DecimalInjective(|Encode(f.body)|, |f.body|);
    }
  }

  /** One accented letter is announced as one octet but sent as two. */
  lemma ContentLengthTooSmall()
    ensures var f := Frame("SEND", [], "\U{00e9}");
            && Lookup(SentHeaders(f), "content-length") == Some(Decimal(1)) && |Encode(f.body)| == 2
  {
    var body := "\U{00e9}";
    assert body[1..] == "" && EncodeChar(body[0]) == [0xC3, 0xA9];
    assert SentHeaders(Frame("SEND", [], body)) == [("content-length", Decimal(1))];
  }
}
