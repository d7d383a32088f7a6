/** Messages fed to the parser object in any cutting: it takes them, and its callbacks receive exactly their
    parts.  Only the header bytes must stay under the header limit; bodies may have any length. */
module HttpFed {
  import opened Lists
  import opened HttpMachine
  import opened HttpParser
  import opened HttpCount
  import opened HttpInvariant
  import opened HttpExecute
  import opened HttpCuts
  import opened HttpLimit
  import opened HttpChunked
  import opened HttpUrls
  import opened HttpMessages
  import opened HttpHeaders
  import opened HttpRequests

  /* ---- Header bytes of the parts of a message ---- */

  lemma {:induction false} CountAtMost(p: Ps, c: nat, data: seq<Byte>, hc: Settings)
    ensures Counted(p, c, data, hc) <= c + |data|
    decreases |data|
  {
    hide Run, Resets;
    if data != [] { CountAtMost(p, c, data[..|data| - 1], hc); }
  }

  /** Any input is within its own length. */
  lemma BoundedAny(p: Ps, c: nat, data: seq<Byte>, pieces: nat, hc: Settings)
    requires Room(c + |data|, pieces)
    ensures Bounded(p, c, data, pieces, hc)
  {
    hide Counted;
    forall k: nat | k <= |data| ensures Room(Counted(p, c, data[..k], hc), pieces) { CountAtMost(p, c, data[..k], hc); }
  }

  /** Nothing of a body is counted. */
  lemma {:induction false} BodyCounts(p: Ps, d: seq<Byte>, hc: Settings)
    requires (p.st.BodyIdentity? || p.st.ChunkData?) && |d| < p.length
    ensures Run(p, d, hc).Going? && Run(p, d, hc).ps == p.(length := p.length - |d|) && Counted(p, 0, d, hc) == 0
    decreases |d|
  {
    hide Step, Resets;
    if d != [] {
      var e := d[..|d| - 1];
      BodyCounts(p, e, hc);
      BodyByte(p.(length := p.length - |e|), d[|d| - 1], hc);
    }
  }

  lemma BodyBounded(p: Ps, d: seq<Byte>, pieces: nat, hc: Settings)
    requires (p.st.BodyIdentity? || p.st.ChunkData?) && |d| == p.length > 0
    ensures Bounded(p, 0, d, pieces, hc) && Counted(p, 0, d, hc) == 0
  {
    hide Run, Resets;
    var e := d[..|d| - 1];
    BodyCounts(p, e, hc);
    assert Counted(p, 0, d, hc) == 0;
    hide Counted;
    forall k: nat | k <= |d| ensures Room(Counted(p, 0, d[..k], hc), pieces) {
      if k < |d| { BodyCounts(p, d[..k], hc); } else { assert d[..k] == d; }
    }
  }

  /** 16 to the k. */
  function Pow16(k: nat): nat { if k == 0 then 1 else 16 * Pow16(k - 1) }

  lemma {:induction false} HexLength(n: nat, k: nat)
    requires k > 0 && n < Pow16(k)
    ensures |Hex(n)| <= k
  {
    if n >= 16 {
      assert k > 1;
      HexLength(n / 16, k - 1);
    }
  }

  lemma SizeLength(n: nat)
    requires n <= MAX_CHUNK
    ensures |Hex(n)| <= 16
  {
    hide Hex;
    assert Pow16(4) == 0x1_0000;
    assert Pow16(8) == 0x1_0000_0000;
    assert Pow16(12) == 0x1_0000_0000_0000;
    assert Pow16(16) == 0x1_0000_0000_0000_0000;
    HexLength(n, 16);
  }

  lemma FrameResets(p: Ps, ch: Byte, hc: Settings)
    requires ResetsCount(p.st)
    ensures Resets(p, ch, hc)
  {
    hide Pass;
  }

  /** The size line of a chunk counts at most 18 bytes, and then the count starts anew. */
  lemma SizeBounded(p: Ps, n: nat, pieces: nat, hc: Settings)
    requires AtChunk(p) && 0 < n <= MAX_CHUNK
    ensures Bounded(p, 0, Hex(n) + [CR, LF], pieces, hc) && Counted(p, 0, Hex(n) + [CR, LF], hc) == 0
  {
    hide Run, Step, Counted, Resets, Hex;
    var q := p.(st := ChunkSize, length := n);
    var t := q.(st := ChunkSizeAlmostDone);
    SizeLength(n);
    BoundedAny(p, 0, Hex(n) + [CR, LF], pieces, hc);
    SizeRun(p, n, hc);
    SizeEnd(q, CR, hc);
    RunOne(q, CR, hc);
    RunTwo(p, Hex(n), [CR], hc, q, []);
    FrameResets(t, LF, hc);
    LastResets(p, 0, Hex(n) + [CR], t, [] + [], LF, hc);
    assert Hex(n) + [CR] + [LF] == Hex(n) + [CR, LF];
  }

  /** The data of a chunk and its line end. */
  lemma DataBounded(p: Ps, d: seq<Byte>, pieces: nat, hc: Settings)
    requires p.st.ChunkData? && p.length == |d| > 0
    ensures Bounded(p, 0, d + [CR, LF], pieces, hc) && Counted(p, 0, d + [CR, LF], hc) == 0
  {
    hide Run, Step, Counted, Resets;
    var q := p.(st := ChunkDataAlmostDone, length := 0);
    var t := q.(st := ChunkDataDone);
    BodyBounded(p, d, pieces, hc);
    DataRun(p, d, hc);
    BoundedAny(q, 0, [CR, LF], pieces, hc);
    BoundedJoin(p, 0, d, [CR, LF], pieces, hc);
    DataEnd(q, CR, hc);
    RunOne(q, CR, hc);
    RunTwo(p, d, [CR], hc, q, Datas(Body, d));
    FrameResets(t, LF, hc);
    LastResets(p, 0, d + [CR], t, Datas(Body, d) + [], LF, hc);
    assert d + [CR] + [LF] == d + [CR, LF];
  }

  lemma ChunkBounded(p: Ps, d: seq<Byte>, pieces: nat, hc: Settings)
    requires AtChunk(p) && 0 < |d| <= MAX_CHUNK
    ensures Bounded(p, 0, Chunk(d), pieces, hc) && Counted(p, 0, Chunk(d), hc) == 0
  {
    hide Run, Step, Counted, Hex;
    var q := p.(st := ChunkData, length := |d|);
    SizeBounded(p, |d|, pieces, hc);
    ChunkHead(p, |d|, hc);
    DataBounded(q, d, pieces, hc);
    BoundedJoin(p, 0, Hex(|d|) + [CR, LF], d + [CR, LF], pieces, hc);
    CountConcat(p, 0, Hex(|d|) + [CR, LF], d + [CR, LF], hc);
  }

  /** A chunked body of any size stays under the header limit in any cutting. */
  lemma {:induction false} EncodeBounded(p: Ps, ds: seq<seq<Byte>>, pieces: nat, hc: Settings)
    requires AtChunk(p) && forall i :: 0 <= i < |ds| ==> 0 < |ds[i]| <= MAX_CHUNK
    ensures Bounded(p, 0, Encode(ds), pieces, hc)
    decreases |ds|
  {
    hide Run, Counted, Chunk, ChunkEvents;
    if ds == [] {
      BoundedAny(p, 0, Encode(ds), pieces, hc);
    } else {
      var q := p.(length := 0);
      ChunkBounded(p, ds[0], pieces, hc);
      ChunkRun(p, ds[0], hc);
      EncodeBounded(q, ds[1..], pieces, hc);
      BoundedJoin(p, 0, Chunk(ds[0]), Encode(ds[1..]), pieces, hc);
    }
  }

  /* ---- Bodies ---- */

  /** Chunked round trip: a parser that waits for a chunk size is fed the encoding of any non-empty pieces of
      data, in any cutting.  It takes all of it, the body callback receives exactly the data, one message is
      completed, and the parser is ready for the next. */
  method RoundTrip(parser: Parser, ds: seq<seq<Byte>>, xs: seq<seq<Byte>>) returns (st: Status)
    requires parser.Valid() && AtChunk(parser.ps) && !parser.ps.upgrade && NoEmpty(xs) && Join(xs) == Encode(ds)
    requires forall i :: 0 <= i < |ds| ==> 0 < |ds[i]| <= MAX_CHUNK
    modifies parser
    ensures st == Parsed && parser.Valid() && parser.ps == Finished(old(parser.ps))
    ensures parser.out == old(parser.out) + Events(ds) && BodyOf(Events(ds)) == Join(ds) && Messages(Events(ds)) == 1
  {
    hide Run, Encode, Events, Bounded, BodyOf, Messages;
    EncodeRun(parser.ps, ds, parser.hc);
    EncodeBounded(parser.ps, ds, |xs|, parser.hc);
    EventsBody(ds);
    st := FeedAll(parser, xs, Finished(parser.ps), Events(ds));
  }

  /* ---- Requests ---- */

  /** The parser waits for a request, the pieces are not empty, and the header bytes leave room for them. */
  ghost predicate Ready(parser: Parser, r: Message, xs: seq<seq<Byte>>)
    reads parser
  {
    parser.Valid() && Waits(parser.ps, parser.hc) && r.Ok() && NoEmpty(xs) && Room(parser.nread + |r.Text()|, |xs|)
  }

  lemma HeadBounded(p: Ps, c: nat, head: seq<Byte>, d: Ps, o: seq<Event>, rest: seq<Byte>, pieces: nat, hc: Settings)
    requires TakesHead(p, head, d, o, hc) && Room(c + |head|, pieces) && Bounded(d, 0, rest, pieces, hc)
    ensures Bounded(p, c, head + rest, pieces, hc)
  {
    hide Run, Counted, Bounded, Room;
    BoundedAny(p, c, head, pieces, hc);
    BoundedJoin(p, c, head, rest, pieces, hc);
  }

  /** The head of a request and what follows it. */
  method FeedHead(parser: Parser, r: Message, rest: seq<Byte>, xs: seq<seq<Byte>>, ghost d: Ps, ghost o: seq<Event>, ghost z: Ps, ghost o2: seq<Event>)
    returns (st: Status)
    requires Ready(parser, r, xs) && Join(xs) == r.Text() + rest && TakesHead(parser.ps, r.Text(), d, o, parser.hc)
    requires Run(d, rest, parser.hc) == Going(z, o2) && Bounded(d, 0, rest, |xs|, parser.hc)
    modifies parser
    ensures st == Parsed && parser.Valid() && parser.ps == z && parser.out == old(parser.out) + (o + o2)
  {
    hide Run, Counted, Bounded, Room, Waits, Message.Text;
    HeadBounded(parser.ps, parser.nread, r.Text(), d, o, rest, |xs|, parser.hc);
    RunTwo(parser.ps, r.Text(), rest, parser.hc, d, o);
    st := FeedAll(parser, xs, z, o + o2);
  }

  lemma NothingMore(d: Ps, pieces: nat, hc: Settings)
    ensures Run(d, [], hc) == Going(d, []) && Bounded(d, 0, [], pieces, hc)
  {
    RunEmpty(d, hc);
    BoundedAny(d, 0, [], pieces, hc);
  }

  /** A request that ends with its headers. */
  method FeedShort(parser: Parser, r: Message, xs: seq<seq<Byte>>, ghost z: Ps, ghost o: seq<Event>) returns (st: Status)
    requires Ready(parser, r, xs) && Join(xs) == r.Text() && TakesHead(parser.ps, r.Text(), z, o, parser.hc)
    modifies parser
    ensures st == Parsed && parser.Valid() && parser.ps == z && parser.out == old(parser.out) + o
  {
    hide Run, Bounded, Room, Waits, Message.Text, TakesHead;
    NothingMore(z, |xs|, parser.hc);
    assert r.Text() + [] == r.Text() && o + [] == o;
    st := FeedHead(parser, r, [], xs, z, o, z, []);
  }

  const COMPLETE: seq<Event> := [Notify(HeadersComplete), Notify(MessageComplete)]

  /** A request without a body, in any cutting: the callbacks receive exactly its URL, header names and values,
      and the message is complete. */
  method PlainRequest(parser: Parser, r: Message, xs: seq<seq<Byte>>) returns (st: Status)
    requires Ready(parser, r, xs) && AllPlain(r.hs) && Join(xs) == r.Text()
    modifies parser
    ensures st == Parsed && parser.Valid() && Over(old(parser.ps), r, parser.ps)
    ensures parser.out == old(parser.out) + (r.Events() + COMPLETE)
  {
    hide TakesHead, AllPlain, Message.Text, Message.Events, Over, Room;
    var z := PlainTaken(parser.ps, r, parser.hc);
    st := FeedShort(parser, r, xs, z, r.Events() + COMPLETE);
  }

  /** A request that says how the connection goes on: after it the parser waits for another request unless the
      header says close. */
  method ConnectionRequest(parser: Parser, r: Message, a: seq<Header>, h: Header, b: seq<Header>, xs: seq<seq<Byte>>) returns (st: Status)
    requires Ready(parser, r, xs) && Around(r.hs, a, h, b) && Join(xs) == r.Text()
    requires ConnectionHeader(h, "close") || ConnectionHeader(h, "keep-alive")
    modifies parser
    ensures st == Parsed && parser.Valid() && parser.ps.st == if Spells("close", h.value) then Dead else StartReq
    ensures parser.out == old(parser.out) + (r.Events() + COMPLETE)
  {
    hide TakesHead, AllPlain, Message.Text, Message.Events, Around, Room, Spells;
    var z := ConnectionTaken(parser.ps, r, a, h, b, parser.hc);
    st := FeedShort(parser, r, xs, z, r.Events() + COMPLETE);
  }

  /** A request with a Content-Length header at any place among others, and its body of any length. */
  method SizedRequest(parser: Parser, r: Message, a: seq<Header>, h: Header, b: seq<Header>, body: seq<Byte>, xs: seq<seq<Byte>>) returns (st: Status)
    requires Ready(parser, r, xs) && Around(r.hs, a, h, b) && Join(xs) == r.Text() + body
    requires Sized(h) && Dec(h.value) == |body| <= MAX_LENGTH
    modifies parser
    ensures st == Parsed && parser.Valid() && Over(old(parser.ps), r, parser.ps)
    ensures parser.out == old(parser.out) + (r.Events() + [Notify(HeadersComplete)] + (Datas(Body, body) + [Notify(MessageComplete)]))
  {
    hide TakesHead, AllPlain, Message.Text, Message.Events, Around, Room, Over, Run, Bounded, NewMessage, Sized;
    var d := SizedTaken(parser.ps, r, a, h, b, |body|, parser.hc);
    var o := r.Events() + [Notify(HeadersComplete)];
    if body == [] {
      assert r.Text() + body == r.Text() && Datas(Body, body) + [Notify(MessageComplete)] == [Notify(MessageComplete)];
      assert r.Events() + COMPLETE == o + [Notify(MessageComplete)];
      st := FeedShort(parser, r, xs, d, r.Events() + COMPLETE);
    } else {
      var e := d.(st := MessageDone, length := 0);
      IdentityRun(d, body, parser.hc);
      BodyBounded(d, body, |xs|, parser.hc);
      OverLength(parser.ps, r, d, e.(st := NewMessage(e)));
      st := FeedHead(parser, r, body, xs, d, o, e.(st := NewMessage(e)), Datas(Body, body) + [Notify(MessageComplete)]);
    }
  }

  lemma OverLength(p: Ps, r: Message, d: Ps, z: Ps)
    requires r.Ok() && z == d.(st := z.st, length := 0) && Over(p, r, d.(st := z.st))
    ensures Over(p, r, z)
  {
  }

  /** A request with Transfer-Encoding: chunked at any place among other headers, and a chunked body of any
      length. */
  method ChunkedRequest(parser: Parser, r: Message, a: seq<Header>, h: Header, b: seq<Header>, ds: seq<seq<Byte>>, xs: seq<seq<Byte>>) returns (st: Status)
    requires Ready(parser, r, xs) && Around(r.hs, a, h, b) && ChunkedHeader(h) && Join(xs) == r.Text() + Encode(ds)
    requires forall i :: 0 <= i < |ds| ==> 0 < |ds[i]| <= MAX_CHUNK
    modifies parser
    ensures st == Parsed && parser.Valid() && Over(old(parser.ps), r, parser.ps)
    ensures parser.out == old(parser.out) + (r.Events() + [Notify(HeadersComplete)] + Events(ds))
    ensures BodyOf(Events(ds)) == Join(ds) && Messages(Events(ds)) == 1
  {
    hide TakesHead, AllPlain, Message.Text, Message.Events, Around, Room, Over, Run, Bounded, Encode, Events, BodyOf, Messages, ChunkedHeader;
    var d := ChunkedTaken(parser.ps, r, a, h, b, parser.hc);
    EncodeRun(d, ds, parser.hc);
    EncodeBounded(d, ds, |xs|, parser.hc);
    EventsBody(ds);
    st := FeedHead(parser, r, Encode(ds), xs, d, r.Events() + [Notify(HeadersComplete)], Finished(d), Events(ds));
  }

  /* ---- The limit and the cuts ---- */

  /** "GET / HTTP/1.1" and the first letter of a header name. */
  function Opening(): seq<Byte> { RequestLine(1, [47], [49], [49], CrLf) + [97] }

  lemma OpeningTaken(p: Ps, hc: Settings) returns (q: Ps, o: seq<Event>)
    requires p.st.StartReq?
    ensures Takes(p, Opening(), q, o, hc) && q.st.HeaderField? && q.hs.General? && |Opening()| == 17
  {
    hide Run, Step, Takes, MethodName;
    OneOne();
    var l := Lined(p, Message(1, [47], [49], [49], CrLf, [], CrLf));
    RequestLineTaken(p, 1, [47], [49], [49], CrLf, hc);
    NameFirst(l, 97, hc);
    q, o := StartField(l, 97), [Notify(MessageBegin)] + Datas(Url, [47]) + [Data(Field, 97)];
    TakesOne(l, 97, q, [Data(Field, 97)], hc);
    TakesBoth(p, RequestLine(1, [47], [49], [49], CrLf), l, [Notify(MessageBegin)] + Datas(Url, [47]), [97], q, [Data(Field, 97)], hc);
  }

  /** The same with ": " and the first letter of the value. */
  function ValueOpening(): seq<Byte> { Opening() + [58, SP, 97] }

  lemma ValueOpeningTaken(p: Ps, hc: Settings) returns (q: Ps, o: seq<Event>)
    requires p.st.StartReq?
    ensures Takes(p, ValueOpening(), q, o, hc) && q.st.HeaderValue? && q.hs.General? && |ValueOpening()| == 20
  {
    hide Run, Step, Takes, Opening, ActValueStart;
    var n, o1 := OpeningTaken(p, hc);
    var w := n.(st := ValueDiscardWs);
    LineByte(n, 58, hc);
    LineByte(w, SP, hc);
    PlainStart(w);
    ValueFirst(w, 97, hc);
    q := ActValueStart(w, 97).ps;
    TakesOne(w, 97, q, [Data(Value, 97)], hc);
    TakesQuiet(w, SP, w, [97], q, [Data(Value, 97)], hc);
    TakesQuiet(n, 58, w, [SP] + [97], q, [Data(Value, 97)], hc);
    assert [58] + ([SP] + [97]) == [58, SP, 97];
    o := o1 + [Data(Value, 97)];
    TakesBoth(p, Opening(), n, o1, [58, SP, 97], q, [Data(Value, 97)], hc);
  }

  lemma PlainStart(w: Ps)
    requires w.hs.General?
    ensures var a := ActValueStart(w, 97); !a.next.Fail? && a.ps.st.HeaderValue? && a.ps.hs.General?
  {
  }

  lemma TakesIs(p: Ps, data: seq<Byte>, q: Ps, o: seq<Event>, hc: Settings)
    requires Takes(p, data, q, o, hc)
    ensures Run(p, data, hc) == Going(q, o)
  {
  }

  lemma OneOne()
    ensures IsNumber([49]) && Dec([49]) == 1 && IsUrl(1, [47]) && |RequestLine(1, [47], [49], [49], CrLf)| == 16
  {
    assert [49][..0] == [] && Dec([49][..0]) == 0;
  }

  /** An input that is taken in two pieces and refused when the second comes byte by byte. */
  ghost predicate CutDependent(op: seq<Byte>, rest: seq<Byte>, xs: seq<seq<Byte>>, ys: seq<seq<Byte>>) {
    xs == [op, rest] && ys == [op] + Singles(rest) && Join(xs) == Join(ys) == op + rest
  }

  /** The header limit depends on the cuts: a request line and a header name of 50000 bytes. */
  method CutMatters(hc: Settings) returns (a: Parser, b: Parser, sa: Status, sb: Status, ghost xs: seq<seq<Byte>>, ghost ys: seq<seq<Byte>>)
    ensures fresh(a) && fresh(b) && sa == Parsed && sb == Overflow
    ensures CutDependent(Opening(), seq(49999, _ => 97), xs, ys)
  {
    hide Run, Opening;
    ghost var q, o := OpeningTaken(Fresh(Request), hc);
    a, b, sa, sb, xs, ys := FeedTwoWays(Opening(), q, o, hc);
  }

  /** Likewise for a header value of 50000 bytes. */
  method ValueCutMatters(hc: Settings) returns (a: Parser, b: Parser, sa: Status, sb: Status, ghost xs: seq<seq<Byte>>, ghost ys: seq<seq<Byte>>)
    ensures fresh(a) && fresh(b) && sa == Parsed && sb == Overflow
    ensures CutDependent(ValueOpening(), seq(49999, _ => 97), xs, ys)
  {
    hide Run, ValueOpening;
    ghost var q, o := ValueOpeningTaken(Fresh(Request), hc);
    a, b, sa, sb, xs, ys := FeedTwoWays(ValueOpening(), q, o, hc);
  }

  method FeedTwoWays(op: seq<Byte>, ghost q: Ps, ghost o: seq<Event>, hc: Settings)
    returns (a: Parser, b: Parser, sa: Status, sb: Status, ghost xs: seq<seq<Byte>>, ghost ys: seq<seq<Byte>>)
    requires 0 < |op| <= 20 && Takes(Fresh(Request), op, q, o, hc) && (q.st.HeaderField? || q.st.HeaderValue?) && q.hs.General?
    ensures fresh(a) && fresh(b) && sa == Parsed && sb == Overflow && CutDependent(op, seq(49999, _ => 97), xs, ys)
  {
    hide Run, FedHits, FedCount, Hit, After;
    var rest: seq<Byte> := seq(49999, _ => 97);
    xs, ys := [op, rest], [op] + Singles(rest);
    Pieces(op, rest);
    TakesIs(Fresh(Request), op, q, o, hc);
    TwoWays(Fresh(Request), q, o, op, rest, hc);
    a := new Parser(Request, hc);
    b := new Parser(Request, hc);
    FreshFormed();
    sa := Feed(a, [op, rest]);
    sb := Feed(b, [op] + Singles(rest));
  }

  lemma Pieces(op: seq<Byte>, rest: seq<Byte>)
    requires op != []
    ensures Join([op, rest]) == op + rest == Join([op] + Singles(rest)) && NoEmpty([op] + Singles(rest))
  {
    JoinSingles(rest);
    assert [op, rest][1..] == [rest] && [rest][1..] == [] && ([op] + Singles(rest))[1..] == Singles(rest);
    assert Join([rest]) == rest + [] == rest;
  }

  lemma TwoWays(p: Ps, q: Ps, o: seq<Event>, op: seq<Byte>, rest: seq<Byte>, hc: Settings)
    requires Run(p, op, hc) == Going(q, o) && |op| <= 20 && |rest| == 49999 && Scans(q, rest)
    ensures !FedHits(p, 0, [op, rest], hc) && FedHits(p, 0, [op] + Singles(rest), hc)
    ensures Run(p, op + rest, hc).Going?
  {
    hide Run, Hit, Counted;
    BoundedAny(p, 0, op, 2, hc);
    NoHit(p, 0, 0, op, 2, hc);
    var n := After(p, 0, op, hc);
    AfterGap(p, 0, 0, op, hc);
    CountAtMost(p, 0, op, hc);
    ScanCuts(q, n, rest, hc);
    ScanCounts(q, n, rest, hc);
    RunConcat(p, op, rest, hc);
    assert [op, rest][1..] == [rest] && ([op] + Singles(rest))[1..] == Singles(rest);
  }

  lemma FreshFormed()
    ensures WellFormed(Fresh(Request))
  {
  }
}
