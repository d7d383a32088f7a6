/** Chunked transfer coding (section 4.1 of RFC 7230): encoding and then parsing gives the data back. */
module HttpChunked {
  import opened Lists
  import opened HttpMachine
  import opened HttpParser
  import opened HttpCuts

  function HexDigit(d: nat): Byte
    requires d < 16
  {
    if d < 10 then d + 48 else d + 87
  }

  /** A size in hexadecimal. */
  function Hex(n: nat): (h: seq<Byte>)
    ensures |h| > 0
  {
    if n < 16 then [HexDigit(n)] else Hex(n / 16) + [HexDigit(n % 16)]
  }

  /** One chunk, and the whole body: the chunks, the last chunk, no trailer. */
  function Chunk(d: seq<Byte>): seq<Byte> { Hex(|d|) + [CR, LF] + (d + [CR, LF]) }

  function Encode(ds: seq<seq<Byte>>): seq<Byte> {
    if ds == [] then [48, CR, LF, CR, LF] else Chunk(ds[0]) + Encode(ds[1..])
  }

  /** The largest size the overflow check lets through. */
  const MAX_CHUNK: nat := MAX64 - 16

  /** The parser waits for a chunk size. */
  predicate AtChunk(p: Ps) { p.st.ChunkSizeStart? && p.flags.chunked && !p.flags.trailing }

  /* ---- Single bytes ---- */

  lemma UnhexDigit(d: nat)
    requires d < 16
    ensures Unhex(HexDigit(d)) == d && HexDigit(d) != CR
  {
  }

  lemma SizeByte(p: Ps, d: nat, hc: Settings)
    requires d < 16 && (p.st.ChunkSizeStart? || (p.st.ChunkSize? && p.length <= (MAX64 - 16) / 16))
    ensures var n := if p.st.ChunkSizeStart? then d else p.length * 16 + d;
      Step(p, HexDigit(d), hc) == Going(p.(st := ChunkSize, length := n), [])
  {
    hide Pass, Unhex, HexDigit, ActHeader, ActRequest, ActResponse, ActUrl, NewMessage;
    UnhexDigit(d);
    PassOf(p, HexDigit(d), hc);
  }

  lemma TooLarge(p: Ps, d: nat, hc: Settings)
    requires d < 16 && p.st.ChunkSize? && p.length > (MAX64 - 16) / 16
    ensures Step(p, HexDigit(d), hc) == Failed(InvalidContentLength, 0)
  {
    hide Pass, Unhex, HexDigit;
    UnhexDigit(d);
    PassOf(p, HexDigit(d), hc);
  }

  /** The framing bytes. */
  lemma SizeEnd(p: Ps, ch: Byte, hc: Settings)
    ensures p.st.ChunkSize? && ch == CR ==> Step(p, ch, hc) == Going(p.(st := ChunkSizeAlmostDone), [])
    ensures p.st.ChunkSizeAlmostDone? && ch == LF && p.length > 0 ==>
      Step(p, ch, hc) == Going(p.(st := ChunkData), [Notify(ChunkHeader(p.length))])
    ensures p.st.ChunkSizeAlmostDone? && ch == LF && p.length == 0 ==>
      Step(p, ch, hc) == Going(p.(st := HeaderFieldStart, flags := p.flags.(trailing := true)), [Notify(ChunkHeader(0))])
  {
    hide Pass, Unhex, ActHeader, ActRequest, ActResponse, ActUrl, NewMessage;
    PassOf(p, ch, hc);
  }

  lemma DataEnd(p: Ps, ch: Byte, hc: Settings)
    ensures p.st.ChunkDataAlmostDone? && ch == CR ==> Step(p, ch, hc) == Going(p.(st := ChunkDataDone), [])
    ensures p.st.ChunkDataDone? && ch == LF ==> Step(p, ch, hc) == Going(p.(st := ChunkSizeStart), [Notify(ChunkComplete)])
  {
    hide Pass, Unhex, ActHeader, ActRequest, ActResponse, ActUrl, NewMessage;
    PassOf(p, ch, hc);
  }

  /* ---- Runs ---- */

  lemma RunOne(p: Ps, ch: Byte, hc: Settings)
    ensures Run(p, [ch], hc) == Step(p, ch, hc)
  {
    hide Step;
    assert [ch][..0] == [];
    var r := Step(p, ch, hc);
    if r.Going? { assert [] + r.out == r.out; }
    if r.Exited? { assert [] + r.out == r.out; }
  }

  lemma RunTwo(p: Ps, a: seq<Byte>, b: seq<Byte>, hc: Settings, q: Ps, o: seq<Event>)
    requires Run(p, a, hc) == Going(q, o)
    ensures Run(p, a + b, hc) == Prefix(o, |a|, Run(q, b, hc))
  {
    RunConcat(p, a, b, hc);
  }

  /** The accumulated size is the hexadecimal value. */
  lemma {:induction false} SizeRun(p: Ps, n: nat, hc: Settings)
    requires p.st.ChunkSizeStart? && n <= MAX_CHUNK
    ensures Run(p, Hex(n), hc) == Going(p.(st := ChunkSize, length := n), [])
  {
    hide Run, Step;
    if n < 16 {
      RunOne(p, HexDigit(n), hc);
      SizeByte(p, n, hc);
    } else {
      var q := p.(st := ChunkSize, length := n / 16);
      SizeRun(p, n / 16, hc);
      RunTwo(p, Hex(n / 16), [HexDigit(n % 16)], hc, q, []);
      RunOne(q, HexDigit(n % 16), hc);
      SizeByte(q, n % 16, hc);
      assert (n / 16) * 16 + n % 16 == n;
    }
  }

  /** Sizes above the limit are refused: the check is exact. */
  lemma {:induction false} SizeRefused(p: Ps, n: nat, hc: Settings)
    requires p.st.ChunkSizeStart? && n > MAX_CHUNK
    ensures Run(p, Hex(n), hc).Failed?
  {
    hide Run, Step;
    var m := n / 16;
    if m > MAX_CHUNK {
      SizeRefused(p, m, hc);
      RunConcat(p, Hex(m), [HexDigit(n % 16)], hc);
    } else {
      var q := p.(st := ChunkSize, length := m);
      SizeRun(p, m, hc);
      RunTwo(p, Hex(m), [HexDigit(n % 16)], hc, q, []);
      RunOne(q, HexDigit(n % 16), hc);
      TooLarge(q, n % 16, hc);
    }
  }

  lemma DatasCons(d: seq<Byte>, t: seq<Event>)
    requires d != []
    ensures Datas(Body, d) == [Data(Body, d[0])] + Datas(Body, d[1..])
    ensures Datas(Body, d) + t == [Data(Body, d[0])] + (Datas(Body, d[1..]) + t)
  {
  }

  lemma {:induction false} DataRun(p: Ps, d: seq<Byte>, hc: Settings)
    requires p.st.ChunkData? && |d| == p.length > 0
    ensures Run(p, d, hc) == Going(p.(st := ChunkDataAlmostDone, length := 0), Datas(Body, d))
    decreases |d|
  {
    hide Run, Step;
    assert d == [d[0]] + d[1..];
    RunOne(p, d[0], hc);
    if |d| == 1 {
      assert d == [d[0]];
      LastChunkByte(p, d[0], hc);
      assert Datas(Body, d) == [Data(Body, d[0])];
    } else {
      var q := p.(length := p.length - 1);
      BodyByte(p, d[0], hc);
      RunTwo(p, [d[0]], d[1..], hc, q, [Data(Body, d[0])]);
      DataRun(q, d[1..], hc);
      DatasCons(d, []);
    }
  }

  /** Two framing bytes in a row. */
  lemma PairRun(p: Ps, a: Byte, b: Byte, hc: Settings, q: Ps, o: seq<Event>)
    requires Step(p, a, hc) == Going(q, o)
    ensures Run(p, [a, b], hc) == Prefix(o, 1, Step(q, b, hc))
  {
    hide Run, Step;
    RunOne(p, a, hc);
    RunOne(q, b, hc);
    RunTwo(p, [a], [b], hc, q, o);
    assert [a] + [b] == [a, b];
  }

  function ChunkEvents(d: seq<Byte>): seq<Event> {
    [Notify(ChunkHeader(|d|))] + Datas(Body, d) + [Notify(ChunkComplete)]
  }

  lemma ChunkHead(p: Ps, n: nat, hc: Settings)
    requires AtChunk(p) && 0 < n <= MAX_CHUNK
    ensures Run(p, Hex(n) + [CR, LF], hc) == Going(p.(st := ChunkData, length := n), [Notify(ChunkHeader(n))])
  {
    hide Run, Step;
    var q := p.(st := ChunkSize, length := n);
    SizeRun(p, n, hc);
    SizeEnd(q, CR, hc);
    SizeEnd(q.(st := ChunkSizeAlmostDone), LF, hc);
    PairRun(q, CR, LF, hc, q.(st := ChunkSizeAlmostDone), []);
    RunTwo(p, Hex(n), [CR, LF], hc, q, []);
  }

  lemma ChunkTail(p: Ps, d: seq<Byte>, hc: Settings)
    requires p.st.ChunkData? && p.length == |d| > 0
    ensures Run(p, d + [CR, LF], hc) == Going(p.(st := ChunkSizeStart, length := 0), Datas(Body, d) + [Notify(ChunkComplete)])
  {
    hide Run, Step;
    var q := p.(st := ChunkDataAlmostDone, length := 0);
    DataRun(p, d, hc);
    DataEnd(q, CR, hc);
    DataEnd(q.(st := ChunkDataDone), LF, hc);
    PairRun(q, CR, LF, hc, q.(st := ChunkDataDone), []);
    RunTwo(p, d, [CR, LF], hc, q, Datas(Body, d));
  }

  /** One chunk. */
  lemma ChunkRun(p: Ps, d: seq<Byte>, hc: Settings)
    requires AtChunk(p) && 0 < |d| <= MAX_CHUNK
    ensures Run(p, Chunk(d), hc) == Going(p.(length := 0), ChunkEvents(d))
  {
    hide Run, Step, Hex;
    ChunkHead(p, |d|, hc);
    ChunkTail(p.(st := ChunkData, length := |d|), d, hc);
    RunTwo(p, Hex(|d|) + [CR, LF], d + [CR, LF], hc, p.(st := ChunkData, length := |d|), [Notify(ChunkHeader(|d|))]);
    assert [Notify(ChunkHeader(|d|))] + (Datas(Body, d) + [Notify(ChunkComplete)]) == ChunkEvents(d);
  }

  lemma TrailerCr(p: Ps, hc: Settings)
    requires p.st.HeaderFieldStart?
    ensures Step(p, CR, hc) == Going(p.(st := HeadersAlmostDone), [])
  {
    hide Pass;
    PassOf(p, CR, hc);
  }

  lemma DoneByte(p: Ps, ch: Byte, hc: Settings)
    requires p.st.MessageDone? && !p.upgrade
    ensures Step(p, ch, hc) == Going(p.(st := NewMessage(p)), [Notify(MessageComplete)])
  {
    hide Pass;
    PassOf(p, ch, hc);
    NewMessageKind(p);
  }

  lemma NewMessageKind(p: Ps)
    ensures KindOf(NewMessage(p)).None?
  {
    hide ShouldKeepAlive;
  }

  lemma TrailerPass(p: Ps, hc: Settings)
    requires p.flags.trailing && p.st.HeadersAlmostDone?
    ensures Pass(p, LF, hc) == Act(p.(st := MessageDone), None, Quiet, Some(ChunkComplete), Again)
  {
    hide Pass;
    PassOf(p, LF, hc);
  }

  /** The end of the trailer completes the message. */
  lemma TrailerLf(p: Ps, hc: Settings)
    requires p.flags.trailing && p.st.HeadersAlmostDone? && !p.upgrade
    ensures var q := p.(st := MessageDone);
      Step(p, LF, hc) == Going(q.(st := NewMessage(q)), [Notify(ChunkComplete), Notify(MessageComplete)])
  {
    hide Pass, NewMessage;
    var q := p.(st := MessageDone);
    TrailerPass(p, hc);
    hide ActHeader;
    DoneByte(q, LF, hc);
    assert [Notify(ChunkComplete)] + [Notify(MessageComplete)] == [Notify(ChunkComplete), Notify(MessageComplete)];
  }

  /** The parser after the last chunk. */
  function Finished(p: Ps): Ps {
    var q := p.(st := MessageDone, length := 0, flags := p.flags.(trailing := true));
    q.(st := NewMessage(q))
  }

  const LAST_EVENTS: seq<Event> := [Notify(ChunkHeader(0)), Notify(ChunkComplete), Notify(MessageComplete)]

  lemma LastRun(p: Ps, hc: Settings)
    requires AtChunk(p) && !p.upgrade
    ensures Run(p, [48, CR, LF, CR, LF], hc) == Going(Finished(p), LAST_EVENTS)
  {
    hide Run, Step, NewMessage;
    var q := p.(st := ChunkSize, length := 0);
    var t := q.(st := HeaderFieldStart, flags := q.flags.(trailing := true));
    SizeByte(p, 0, hc);
    RunOne(p, 48, hc);
    SizeEnd(q, CR, hc);
    SizeEnd(q.(st := ChunkSizeAlmostDone), LF, hc);
    PairRun(q, CR, LF, hc, q.(st := ChunkSizeAlmostDone), []);
    TrailerCr(t, hc);
    TrailerLf(t.(st := HeadersAlmostDone), hc);
    PairRun(t, CR, LF, hc, t.(st := HeadersAlmostDone), []);
    RunTwo(q, [CR, LF], [CR, LF], hc, t, [Notify(ChunkHeader(0))]);
    RunTwo(p, [48], [CR, LF] + [CR, LF], hc, q, []);
    assert [48] + ([CR, LF] + [CR, LF]) == [48, CR, LF, CR, LF];
    assert [Notify(ChunkHeader(0))] + [Notify(ChunkComplete), Notify(MessageComplete)] == LAST_EVENTS;
  }

  function Events(ds: seq<seq<Byte>>): seq<Event> {
    if ds == [] then LAST_EVENTS else ChunkEvents(ds[0]) + Events(ds[1..])
  }

  lemma {:induction false} EncodeRun(p: Ps, ds: seq<seq<Byte>>, hc: Settings)
    requires AtChunk(p) && !p.upgrade && forall i :: 0 <= i < |ds| ==> 0 < |ds[i]| <= MAX_CHUNK
    ensures Run(p, Encode(ds), hc) == Going(Finished(p), Events(ds))
    decreases |ds|
  {
    hide Run, Chunk, ChunkEvents, NewMessage;
    if ds == [] {
      LastRun(p, hc);
    } else {
      var q := p.(length := 0);
      ChunkRun(p, ds[0], hc);
      EncodeRun(q, ds[1..], hc);
      RunTwo(p, Chunk(ds[0]), Encode(ds[1..]), hc, q, ChunkEvents(ds[0]));
    }
  }

  /* ---- The round trip ---- */

  /** All bytes the body callback receives, and the number of completed messages. */
  function BodyOf(out: seq<Event>): seq<Byte> {
    if out == [] then [] else BodyOf(out[..|out| - 1]) + if out[|out| - 1].Data? && out[|out| - 1].kind == Body then [out[|out| - 1].b] else []
  }

  function Messages(out: seq<Event>): nat {
    if out == [] then 0 else Messages(out[..|out| - 1]) + if out[|out| - 1] == Notify(MessageComplete) then 1 else 0
  }

  lemma {:induction false} Appended(a: seq<Event>, b: seq<Event>)
    ensures BodyOf(a + b) == BodyOf(a) + BodyOf(b) && Messages(a + b) == Messages(a) + Messages(b)
    decreases |b|
  {
    if b == [] {
      assert a + b == a;
    } else {
      assert (a + b)[..|a + b| - 1] == a + b[..|b| - 1];
      Appended(a, b[..|b| - 1]);
    }
  }

  lemma {:induction false} BodyOfDatas(d: seq<Byte>)
    ensures BodyOf(Datas(Body, d)) == d && Messages(Datas(Body, d)) == 0
    decreases |d|
  {
    if d != [] {
      BodyOfDatas(d[..|d| - 1]);
      assert Datas(Body, d)[..|d| - 1] == Datas(Body, d[..|d| - 1]);
    }
  }

  lemma Single(n: Note)
    ensures BodyOf([Notify(n)]) == [] && Messages([Notify(n)]) == if n == MessageComplete then 1 else 0
  {
    assert [Notify(n)][..0] == [];
  }

  lemma ChunkBody(d: seq<Byte>)
    ensures BodyOf(ChunkEvents(d)) == d && Messages(ChunkEvents(d)) == 0
  {
    var h, t := [Notify(ChunkHeader(|d|))], [Notify(ChunkComplete)];
    BodyOfDatas(d);
    Appended(h, Datas(Body, d));
    Appended(h + Datas(Body, d), t);
    assert h[..0] == [] && t[..0] == [];
  }

  lemma LastBody()
    ensures BodyOf(LAST_EVENTS) == [] && Messages(LAST_EVENTS) == 1
  {
    hide BodyOf, Messages;
    var (a, b, c) := (ChunkHeader(0), ChunkComplete, MessageComplete);
    Single(a);
    Single(b);
    Single(c);
    Appended([Notify(a)], [Notify(b)]);
    Appended([Notify(a)] + [Notify(b)], [Notify(c)]);
    assert LAST_EVENTS == [Notify(a)] + [Notify(b)] + [Notify(c)];
  }

  lemma {:induction false} EventsBody(ds: seq<seq<Byte>>)
    ensures BodyOf(Events(ds)) == Join(ds) && Messages(Events(ds)) == 1
    decreases |ds|
  {
    if ds == [] {
      LastBody();
    } else {
      hide ChunkEvents;
      ChunkBody(ds[0]);
      EventsBody(ds[1..]);
      Appended(ChunkEvents(ds[0]), Events(ds[1..]));
    }
  }

  /** A body of known length: the callback receives exactly its bytes, then the message is complete. */
  lemma {:induction false} IdentityRun(p: Ps, d: seq<Byte>, hc: Settings)
    requires p.st.BodyIdentity? && |d| == p.length > 0 && !p.upgrade
    ensures var q := p.(st := MessageDone, length := 0);
      Run(p, d, hc) == Going(q.(st := NewMessage(q)), Datas(Body, d) + [Notify(MessageComplete)])
    decreases |d|
  {
    hide Run, Step, NewMessage, Datas;
    assert d == [d[0]] + d[1..];
    RunOne(p, d[0], hc);
    if |d| == 1 {
      assert d == [d[0]];
      LastByte(p, d[0], hc);
      DatasCons(d, []);
      assert Datas(Body, d[1..]) == [];
    } else {
      var q := p.(length := p.length - 1);
      BodyByte(p, d[0], hc);
      RunTwo(p, [d[0]], d[1..], hc, q, [Data(Body, d[0])]);
      IdentityRun(q, d[1..], hc);
      DatasCons(d, [Notify(MessageComplete)]);
    }
  }

  lemma LastByte(p: Ps, ch: Byte, hc: Settings)
    requires p.st.BodyIdentity? && p.length == 1 && !p.upgrade
    ensures var q := p.(st := MessageDone, length := 0);
      Step(p, ch, hc) == Going(q.(st := NewMessage(q)), [Data(Body, ch)] + [Notify(MessageComplete)])
  {
    hide Pass, NewMessage;
    LastIdentityByte(p, ch, hc);
    DoneByte(p.(st := MessageDone, length := 0), ch, hc);
  }

  /** A byte is taken for a hexadecimal digit exactly when it is one or is not ASCII: the table of digit
      values is written out for 128 characters only. */
  lemma DigitsExactly(b: Byte)
    ensures Unhex(b) != -1 <==> (exists d: nat :: d < 16 && (b == HexDigit(d) || (d >= 10 && b == d + 55))) || b >= 128
  {
    if Unhex(b) != -1 && b < 128 {
      var d: nat := Unhex(b);
      assert d < 16 && (b == HexDigit(d) || (d >= 10 && b == d + 55));
    }
  }

  /** So a chunk size line that is no number is accepted as a zero size. */
  lemma NotAscii(p: Ps, hc: Settings)
    requires AtChunk(p)
    ensures Run(p, [200], hc) == Going(p.(st := ChunkSize, length := 0), [])
  {
    hide Pass, Run, ActHeader, ActRequest, ActResponse, ActUrl, NewMessage;
    RunOne(p, 200, hc);
    PassOf(p, 200, hc);
  }
}
