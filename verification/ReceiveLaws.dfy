/** Frames and HTTP responses as they lie on the stream: what is received of them, and when. */
module ReceiveLaws {
  import opened Wrappers
  import opened Words
  import opened Transport
  import opened Sessions
  import HttpResponse

  /** A stream with these bytes in front. */
  function Ahead(data: Bytes, rest: Wire): Wire {
    rest.(items := Items(data) + rest.items)
  }

  lemma AheadJoins(a: Bytes, b: Bytes, rest: Wire)
    ensures Ahead(a + b, rest) == Ahead(a, Ahead(b, rest))
  {
    assert Items(a + b) == Items(a) + Items(b);
    assert Items(a) + (Items(b) + rest.items) == Items(a) + Items(b) + rest.items;
  }

  /** As many bytes as are in front are read exactly, and nothing else is taken. */
  lemma ReadsAhead(data: Bytes, rest: Wire)
    ensures ReadExact(Ahead(data, rest), |data|) == Ok(Taken(data, rest))
  {
    RunAppend(data, rest.items);
    assert (data + Run(rest.items))[..|data|] == data;
    assert (Items(data) + rest.items)[|data|..] == rest.items;
  }

  /**
   * A frame on the stream, the length before the body: it is received, body and length, if the length
   * is within the bounds, and refused as an invalid response if not.
   */
  lemma FrameReceived(body: Bytes, length: u64, kind: NumberKind, min: nat, max: nat, rest: Wire)
    requires |body| == Length(length) && Kept(length, kind) == length
    ensures ReceiveFrame(Ahead(PackNum(length, kind) + body, rest), kind, min, max) ==
            if min <= |body| <= max then Ok(Frame(body, length, rest)) else Err(InvalidResponse)
  {
    hide ReadExact, PackNum, ReadNumber, Kept, Length, NumberKind.Size, Ahead;
    AheadJoins(PackNum(length, kind), body, rest);
    ReadsAhead(PackNum(length, kind), Ahead(body, rest));
    ReadsAhead(body, rest);
    PackTruncates(length, kind);
  }

  /** A header block that ends in its first blank line. */
  predicate OneBlock(header: Bytes) {
    EndsWith(header, BLANK_LINE) && forall m :: 0 <= m < |header| ==> !EndsWith(header[..m], BLANK_LINE)
  }

  lemma ReadsBlock(header: Bytes, max: nat, rest: Wire)
    requires OneBlock(header) && |header| <= max
    ensures ReadUntil(Ahead(header, rest), BLANK_LINE, max) == Ok(Taken(header, rest))
  {
    var w := Ahead(header, rest);
    RunAppend(header, rest.items);
    var run := Run(w.items);
    RunFits(w.items);
    assert run[..|header|] == header;
    forall m | 0 < m < |header|
      ensures !EndsWith(run[..m], BLANK_LINE)
    {
      assert run[..m] == header[..m];
    }
    FirstEndIs(run, BLANK_LINE, Min(max, |run|), Some(|header|));
    assert w.items[|header|..] == rest.items;
  }

  /**
   * A response on the stream: a header block that is not accepted is an invalid response. Otherwise
   * the body follows: none if only headers are wanted or the length is zero, `length` bytes if a
   * length is given, and else what arrives up to the limit, which must be something.
   */
  lemma HttpReceived(header: Bytes, body: Bytes, rest: Wire, maxHeader: nat, maxBody: nat, headersOnly: bool)
    requires OneBlock(header) && |header| <= maxHeader
    ensures var w := Ahead(header, Ahead(body, rest));
            var r := HttpResponse.ParseHeader(header, maxBody);
            var got := ReceiveHttp(w, maxHeader, maxBody, headersOnly);
            && (r.Err? ==> got == Err(InvalidResponse))
            && (r.Ok? && (headersOnly || r.value.contentLength == Some(0)) ==>
                  got == Ok(HttpReply(header, [], r.value, Ahead(body, rest))))
            && (r.Ok? && !headersOnly && r.value.contentLength == Some(|body|) && body != [] ==>
                  got == Ok(HttpReply(header, body, r.value, rest)))
            && (r.Ok? && !headersOnly && r.value.contentLength.None? && maxBody == 0 ==>
                  got == Ok(HttpReply(header, [], r.value, Ahead(body, rest))))
            && (r.Ok? && !headersOnly && r.value.contentLength.None? && 0 < |body| == maxBody ==>
                  got == Ok(HttpReply(header, body, r.value, rest)))
            && (r.Ok? && !headersOnly && r.value.contentLength.None? && 0 < |body| < maxBody &&
                rest.items == [] && rest.ending.Closed? ==>
                  got == Ok(HttpReply(header, body, r.value, rest)))
            && (r.Ok? && !headersOnly && r.value.contentLength.None? && maxBody > 0 && body == [] &&
                rest.items == [] && rest.ending.Closed? ==>
                  got == Err(ReadTimeout))
  {
    ReadsBlock(header, maxHeader, Ahead(body, rest));
    ReadsAhead(body, rest);
    ReadsAll(body, rest, maxBody);
    BlockFails(header, maxBody);
    hide ReadUntil, ReadExact, ReadUpTo, HttpResponse.ParseHeader, Ahead, OneBlock;
  }

  lemma BlockFails(header: Bytes, maxBody: nat)
    ensures HttpResponse.ParseHeader(header, maxBody).Err? ==>
              HttpResponse.ParseHeader(header, maxBody) == Err(InvalidResponse)
  {
    var r: Result<HttpResponse.Response, Failure> := HttpResponse.ParseHeader(header, maxBody);
    match r
    case Err(e) => assert r == Err(e) && e == InvalidResponse;
    case Ok(_) =>
  }

  lemma ReadsAll(body: Bytes, rest: Wire, max: nat)
    ensures 0 < |body| == max ==> ReadUpTo(Ahead(body, rest), 1, max) == Ok(Taken(body, rest))
    ensures 0 < |body| < max && rest.items == [] && rest.ending.Closed? ==>
              ReadUpTo(Ahead(body, rest), 1, max) == Ok(Taken(body, rest))
    ensures body == [] && max > 0 && rest.items == [] && rest.ending.Closed? ==>
              ReadUpTo(Ahead(body, rest), 1, max) == Err(ReadTimeout)
  {
    RunAppend(body, rest.items);
    assert (Items(body) + rest.items)[|body|..] == rest.items;
    assert (body + Run(rest.items))[..|body|] == body;
    if rest.items == [] {
      assert Run(rest.items) == [] && body + [] == body;
      assert Ahead(body, rest).items == Items(body);
    }
  }

  // ----- connections

  /** A new connection is the next one of the network; the report so far is kept, and nothing else of the old one. */
  lemma RedialsNext(s: Session)
    ensures s.dials == [] ==> Redial(s) == Err(ConnectTimeout)
    ensures s.dials != [] && s.dials[0].Unreachable? ==> Redial(s) == Err(s.dials[0].failure)
    ensures s.dials != [] && s.dials[0].Connected? ==>
              Redial(s) == Ok(s.(conn := s.dials[0].conn, dials := s.dials[1..]))
  {}

  /** Sends succeed until the first that fails, and what succeeded is what was sent, in order. */
  lemma SendsInOrder(s: Session, one: Bytes, other: Bytes)
    requires s.conn.sendFaults == [None, None]
    ensures SendAll(s, one).Ok? && SendAll(SendAll(s, one).value, other).Ok?
    ensures SendAll(SendAll(s, one).value, other).value ==
            s.(conn := s.conn.(sendFaults := []), sent := s.sent + [one] + [other])
  {
    assert s.conn.sendFaults[1..] == [None] && s.conn.sendFaults[1..][1..] == [];
  }
}
