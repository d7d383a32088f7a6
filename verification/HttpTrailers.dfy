/** Chunked bodies in full: sizes in any digits, chunk extensions and trailers (section 4.1 of RFC 7230). */
module HttpTrailers {
  import opened Lists
  import opened Arith
  import opened HttpMachine
  import opened HttpParser
  import opened HttpCuts
  import opened HttpChunked
  import opened HttpMessages
  import opened HttpHeaders
  import opened HttpRequests
  import opened HttpGrammar

  /* ---- Sizes ---- */

  predicate IsHex(b: Byte) { 48 <= b <= 57 || 65 <= b <= 70 || 97 <= b <= 102 }

  function HexOf(b: Byte): nat
    requires IsHex(b)
  {
    if b <= 57 then b - 48 else if b <= 70 then b - 55 else b - 87
  }

  /** Hexadecimal value. */
  function HexVal(d: seq<Byte>): nat
    requires forall i :: 0 <= i < |d| ==> IsHex(d[i])
  {
    if d == [] then 0 else
      assert IsHex(d[|d| - 1]);
      HexVal(d[..|d| - 1]) * 16 + HexOf(d[|d| - 1])
  }

  predicate IsSize(d: seq<Byte>) { d != [] && forall i :: 0 <= i < |d| ==> IsHex(d[i]) }

  lemma HexByte(p: Ps, ch: Byte, hc: Settings)
    requires IsHex(ch)
    ensures p.st.ChunkSizeStart? ==> Step(p, ch, hc) == Going(p.(st := ChunkSize, length := HexOf(ch)), [])
    ensures p.st.ChunkSize? && p.length <= (MAX64 - 16) / 16 ==> Step(p, ch, hc) == Going(p.(length := p.length * 16 + HexOf(ch)), [])
    ensures p.st.ChunkSize? && p.length > (MAX64 - 16) / 16 ==> Step(p, ch, hc).Failed?
  {
    hide Pass, ActHeader, ActRequest, ActResponse, ActUrl, NewMessage;
    PassOf(p, ch, hc);
  }

  /** A size in any digits, with any zeros before it, is taken as its value, or refused exactly above the limit. */
  lemma {:induction false} SizeTaken(p: Ps, d: seq<Byte>, hc: Settings)
    requires p.st.ChunkSizeStart? && IsSize(d)
    ensures if HexVal(d) <= MAX_CHUNK then Run(p, d, hc) == Going(p.(st := ChunkSize, length := HexVal(d)), []) else Run(p, d, hc).Failed?
    decreases |d|
  {
    hide Run, Step, HexOf, IsHex, HexVal;
    var (e, ch) := (d[..|d| - 1], d[|d| - 1]);
    assert d == e + [ch];
    HexByte(p, ch, hc);
    HexLess(ch);
    HexMore(e, ch);
    if e == [] {
      RunOne(p, ch, hc);
      assert d == [ch];
    } else {
      SizeTaken(p, e, hc);
      RunConcat(p, e, [ch], hc);
      LimitMore(HexVal(e), HexOf(ch));
      if HexVal(e) <= MAX_CHUNK {
        var q := p.(st := ChunkSize, length := HexVal(e));
        RunOne(q, ch, hc);
        HexByte(q, ch, hc);
      }
    }
  }

  lemma LimitMore(v: nat, x: nat)
    requires x < 16
    ensures v * 16 + x <= MAX_CHUNK <==> v <= (MAX64 - 16) / 16
    ensures v <= (MAX64 - 16) / 16 ==> v <= MAX_CHUNK
  {
  }

  lemma HexMore(e: seq<Byte>, ch: Byte)
    requires IsHex(ch) && forall i :: 0 <= i < |e| ==> IsHex(e[i])
    ensures (forall i :: 0 <= i < |e + [ch]| ==> IsHex((e + [ch])[i])) && HexVal(e + [ch]) == HexVal(e) * 16 + HexOf(ch) && HexVal([]) == 0
  {
    assert (e + [ch])[..|e|] == e;
  }

  lemma HexLess(ch: Byte)
    requires IsHex(ch)
    ensures HexOf(ch) < 16
  {
  }

  /* ---- Extensions ---- */

  /** Nothing, or a semicolon or a space and anything but CR. */
  predicate IsExt(x: seq<Byte>) { x != [] ==> (x[0] == 59 || x[0] == SP) && CR !in x }

  lemma ExtByte(p: Ps, ch: Byte, hc: Settings)
    ensures p.st.ChunkSize? && (ch == 59 || ch == SP) ==> Step(p, ch, hc) == Going(p.(st := ChunkParameters), [])
    ensures p.st.ChunkParameters? ==> Step(p, ch, hc) == Going(if ch == CR then p.(st := ChunkSizeAlmostDone) else p, [])
  {
    hide Pass, ActHeader, ActRequest, ActResponse, ActUrl, NewMessage;
    PassOf(p, ch, hc);
  }

  lemma {:induction false} ParametersRun(p: Ps, x: seq<Byte>, hc: Settings)
    requires p.st.ChunkParameters? && CR !in x
    ensures Takes(p, x, p, [], hc)
    decreases |x|
  {
    hide Takes, Step;
    if x == [] {
      TakesNone(p, hc);
    } else {
      ExtByte(p, x[0], hc);
      ParametersRun(p, x[1..], hc);
      TakesQuiet(p, x[0], p, x[1..], p, [], hc);
      assert [x[0]] + x[1..] == x;
    }
  }

  /** Extensions are skipped. */
  lemma ExtRun(p: Ps, x: seq<Byte>, hc: Settings)
    requires p.st.ChunkSize? && IsExt(x)
    ensures Takes(p, x + [CR], p.(st := ChunkSizeAlmostDone), [], hc)
  {
    hide Takes, Step;
    var z := p.(st := ChunkSizeAlmostDone);
    if x == [] {
      SizeEnd(p, CR, hc);
      TakesOne(p, CR, z, [], hc);
      assert x + [CR] == [CR];
    } else {
      var q := p.(st := ChunkParameters);
      ExtByte(p, x[0], hc);
      ParametersRun(q, x[1..], hc);
      TakesQuiet(p, x[0], q, x[1..], q, [], hc);
      assert [x[0]] + x[1..] == x;
      ExtByte(q, CR, hc);
      TakesOne(q, CR, z, [], hc);
      TakesAfter(p, x, q, [CR], z, [], hc);
    }
  }

  /** A size line: digits, extensions, CR LF. */
  function SizeLine(d: seq<Byte>, x: seq<Byte>): seq<Byte> { d + (x + [CR]) + [LF] }

  lemma SizeLineTaken(p: Ps, d: seq<Byte>, x: seq<Byte>, hc: Settings)
    requires AtChunk(p) && IsSize(d) && HexVal(d) <= MAX_CHUNK && IsExt(x)
    ensures var n := HexVal(d);
      if n > 0 then Takes(p, SizeLine(d, x), p.(st := ChunkData, length := n), [Notify(ChunkHeader(n))], hc)
      else Takes(p, SizeLine(d, x), p.(st := HeaderFieldStart, length := 0, flags := p.flags.(trailing := true)), [Notify(ChunkHeader(0))], hc)
  {
    hide Step, Run, HexVal, IsExt;
    var (n, q) := (HexVal(d), p.(st := ChunkSize, length := HexVal(d)));
    var t := q.(st := ChunkSizeAlmostDone);
    SizeTaken(p, d, hc);
    ExtRun(q, x, hc);
    TakesAfter(p, d, q, x + [CR], t, [], hc);
    SizeEnd(t, LF, hc);
    var (z, o) := (if n > 0 then t.(st := ChunkData) else t.(st := HeaderFieldStart, flags := t.flags.(trailing := true)), [Notify(ChunkHeader(n))]);
    TakesOne(t, LF, z, o, hc);
    TakesAfter(p, d + (x + [CR]), t, [LF], z, o, hc);
  }

  /* ---- Chunks ---- */

  datatype Piece = Piece(size: seq<Byte>, ext: seq<Byte>, data: seq<Byte>) {
    predicate Ok() { IsSize(size) && IsExt(ext) && HexVal(size) == |data| && 0 < |data| <= MAX_CHUNK }
    function Text(): seq<Byte> { SizeLine(size, ext) + (data + [CR, LF]) }
  }

  /** A whole body: pieces, a last size of zero, a trailer. */
  datatype Body = Whole(pieces: seq<Piece>, size: seq<Byte>, ext: seq<Byte>, trailer: seq<Header>) {
    ghost predicate Ok() {
      (forall i :: 0 <= i < |pieces| ==> pieces[i].Ok()) && IsSize(size) && HexVal(size) == 0 && IsExt(ext) && AllPlain(trailer)
    }
    function Text(): seq<Byte>
      decreases |pieces|
    {
      if pieces == [] then SizeLine(size, ext) + (Texts(trailer) + [CR, LF]) else pieces[0].Text() + this.(pieces := pieces[1..]).Text()
    }
    function Data(): seq<Byte>
      decreases |pieces|
    {
      if pieces == [] then [] else pieces[0].data + this.(pieces := pieces[1..]).Data()
    }
    function Told(): seq<Event>
      decreases |pieces|
    {
      if pieces == [] then [Notify(ChunkHeader(0))] + (HeaderEvents(trailer) + [Notify(ChunkComplete), Notify(MessageComplete)])
      else ChunkEvents(pieces[0].data) + this.(pieces := pieces[1..]).Told()
    }
  }

  lemma PieceTaken(p: Ps, c: Piece, hc: Settings)
    requires AtChunk(p) && c.Ok()
    ensures Takes(p, c.Text(), p.(length := 0), ChunkEvents(c.data), hc)
  {
    hide Run, Step, HexVal, IsExt, SizeLine;
    var q := p.(st := ChunkData, length := |c.data|);
    SizeLineTaken(p, c.size, c.ext, hc);
    ChunkTail(q, c.data, hc);
    TakesBoth(p, SizeLine(c.size, c.ext), q, [Notify(ChunkHeader(|c.data|))], c.data + [CR, LF], p.(length := 0), Datas(HttpMachine.Kind.Body, c.data) + [Notify(ChunkComplete)], hc);
    assert [Notify(ChunkHeader(|c.data|))] + (Datas(HttpMachine.Kind.Body, c.data) + [Notify(ChunkComplete)]) == ChunkEvents(c.data);
  }

  /** The trailer: its headers are delivered, then the message is complete. */
  lemma TrailerTaken(p: Ps, hs: seq<Header>, hc: Settings) returns (z: Ps)
    requires p.st.HeaderFieldStart? && p.flags.trailing && !p.upgrade && AllPlain(hs)
    ensures Takes(p, Texts(hs) + [CR, LF], z, HeaderEvents(hs) + [Notify(ChunkComplete), Notify(MessageComplete)], hc)
    ensures z == p.(st := NewMessage(p), hs := z.hs, index := z.index)
  {
    hide Takes, Step, NewMessage, SetFlag;
    var q := PlainHeaders(p, hs, hc);
    var t := Settled(q).(st := HeadersAlmostDone);
    z := t.(st := NewMessage(t.(st := MessageDone)));
    CrTaken(q, hc);
    TrailerLf(t, hc);
    TakesOne(t, LF, z, [Notify(ChunkComplete), Notify(MessageComplete)], hc);
    TakesBoth(q, [CR], t, [], [LF], z, [Notify(ChunkComplete), Notify(MessageComplete)], hc);
    assert [] + [Notify(ChunkComplete), Notify(MessageComplete)] == [Notify(ChunkComplete), Notify(MessageComplete)] && [CR] + [LF] == [CR, LF];
    TakesBoth(p, Texts(hs), q, HeaderEvents(hs), [CR, LF], z, [Notify(ChunkComplete), Notify(MessageComplete)], hc);
    SameNext(t.(st := MessageDone), p);
  }

  lemma SameNext(p: Ps, q: Ps)
    requires p.kind == q.kind && p.flags == q.flags && p.length == q.length && p.status == q.status && p.major == q.major && p.minor == q.minor
    ensures NewMessage(p) == NewMessage(q)
  {
  }

  /** Any chunked body: the parser delivers its trailer and completes one message. */
  lemma {:induction false} BodyTaken(p: Ps, b: Body, hc: Settings) returns (z: Ps)
    requires AtChunk(p) && !p.upgrade && b.Ok()
    ensures Takes(p, b.Text(), z, b.Told(), hc)
    ensures z == Finished(p).(hs := z.hs, index := z.index)
    decreases |b.pieces|
  {
    hide Takes, NewMessage, Piece.Text, SizeLine, ChunkEvents, HexVal, IsExt, Plain;
    if b.pieces == [] {
      var q := p.(st := HeaderFieldStart, length := 0, flags := p.flags.(trailing := true));
      SizeLineTaken(p, b.size, b.ext, hc);
      z := TrailerTaken(q, b.trailer, hc);
      SameNext(q, q.(st := MessageDone));
      TakesBoth(p, SizeLine(b.size, b.ext), q, [Notify(ChunkHeader(0))], Texts(b.trailer) + [CR, LF], z,
                HeaderEvents(b.trailer) + [Notify(ChunkComplete), Notify(MessageComplete)], hc);
    } else {
      var (q, c) := (p.(length := 0), b.(pieces := b.pieces[1..]));
      PieceTaken(p, b.pieces[0], hc);
      z := BodyTaken(q, c, hc);
      TakesBoth(p, b.pieces[0].Text(), q, ChunkEvents(b.pieces[0].data), c.Text(), z, c.Told(), hc);
    }
  }

  /** What the body callback receives of it is exactly its data. */
  lemma {:induction false} ToldIsData(b: Body)
    ensures BodyOf(b.Told()) == b.Data() && Messages(b.Told()) == 1
    decreases |b.pieces|
  {
    hide BodyOf, Messages, ChunkEvents;
    if b.pieces == [] {
      var (o, e) := (HeaderEvents(b.trailer), [Notify(ChunkComplete), Notify(MessageComplete)]);
      NoBodyIn(b.trailer);
      Single(ChunkHeader(0));
      Single(ChunkComplete);
      Single(MessageComplete);
      Appended([Notify(ChunkComplete)], [Notify(MessageComplete)]);
      assert e == [Notify(ChunkComplete)] + [Notify(MessageComplete)];
      Appended(o, e);
      Appended([Notify(ChunkHeader(0))], o + e);
    } else {
      var c := b.(pieces := b.pieces[1..]);
      ChunkBody(b.pieces[0].data);
      ToldIsData(c);
      Appended(ChunkEvents(b.pieces[0].data), c.Told());
    }
  }

  lemma {:induction false} NoBodyIn(hs: seq<Header>)
    ensures BodyOf(HeaderEvents(hs)) == [] && Messages(HeaderEvents(hs)) == 0
    decreases |hs|
  {
    if hs != [] {
      hide Header.Events;
      NoBodyIn(hs[1..]);
      NoBodyInHeader(hs[0]);
      Appended(hs[0].Events(), HeaderEvents(hs[1..]));
    }
  }

  lemma NoBodyInHeader(h: Header)
    ensures BodyOf(h.Events()) == [] && Messages(h.Events()) == 0
  {
    hide BodyOf, Messages;
    NotBody(Field, h.name);
    NotBody(Value, h.value);
    Appended(Datas(Field, h.name), Datas(Value, h.value));
  }

  lemma {:induction false} NotBody(k: Kind, d: seq<Byte>)
    requires k == Field || k == Value
    ensures BodyOf(Datas(k, d)) == [] && Messages(Datas(k, d)) == 0
    decreases |d|
  {
    if d != [] {
      NotBody(k, d[..|d| - 1]);
      assert Datas(k, d)[..|d| - 1] == Datas(k, d[..|d| - 1]);
    }
  }
}
