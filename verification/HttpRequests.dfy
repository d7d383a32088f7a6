/** Whole requests: what the framing headers mean, and what the parser makes of a request with any
    headers and with no body, a body of known length or a chunked body. */
module HttpRequests {
  import opened Lists
  import opened Arith
  import opened HttpMachine
  import opened HttpParser
  import opened HttpCount
  import opened HttpCuts
  import opened HttpChunked
  import opened HttpUrls
  import opened HttpMessages
  import opened HttpHeaders

  /* ---- Header values ---- */

  /** The value is the word, whatever its case. */
  predicate Spells(w: string, v: seq<Byte>) {
    |v| == |w| && forall i :: 0 <= i < |v| ==> Lower(v[i]) == w[i] as int
  }

  /** The word a matching state compares with, and the state after a match. */
  function WordOf(h: Hs): string {
    match h
    case MatchChunked => "chunked"
    case MatchKeepAlive => "keep-alive"
    case MatchClose => "close"
    case _ => "upgrade"
  }

  function FullOf(h: Hs): Hs {
    match h
    case MatchChunked => Chunked
    case MatchKeepAlive => KeepAlive
    case MatchClose => Close
    case _ => ConnUpgrade
  }

  predicate Matching(h: Hs) { h.MatchChunked? || h.MatchKeepAlive? || h.MatchClose? || h.MatchConnUpgrade? }

  lemma WordByte(p: Ps, ch: Byte)
    requires Matching(p.hs) && p.index + 1 < |WordOf(p.hs)| && Lower(ch) == WordOf(p.hs)[p.index + 1] as int
    ensures ValueChar(p, ch) ==
      Some(p.(index := p.index + 1, hs := if p.index + 2 == |WordOf(p.hs)| then FullOf(p.hs) else p.hs))
  {
    hide Lower;
  }

  lemma {:induction false} WordRun(p: Ps, v: seq<Byte>, k: nat)
    requires v != [] && !ActValueStart(p, v[0]).next.Fail? && Matching(ActValueStart(p, v[0]).ps.hs)
    requires Spells(WordOf(ActValueStart(p, v[0]).ps.hs), v) && 0 < k <= |v|
    ensures var a := ActValueStart(p, v[0]).ps;
      ValueFold(p, v[..k]) == Some(a.(index := k - 1, hs := if k == |v| && k > 1 then FullOf(a.hs) else a.hs))
    decreases k
  {
    hide ActValueStart, Lower, ValueChar;
    var a := ActValueStart(p, v[0]).ps;
    if k == 1 {
      assert v[..1] == [v[0]];
      StartIndex(p, v[0]);
    } else {
      WordRun(p, v, k - 1);
      assert v[..k][..k - 1] == v[..k - 1] && v[..k][k - 1] == v[k - 1];
      WordByte(a.(index := k - 2), v[k - 1]);
    }
  }

  lemma StartIndex(p: Ps, ch: Byte)
    ensures ActValueStart(p, ch).ps.index == 0
  {
  }

  /** "chunked", "close", "keep-alive" and "upgrade" are recognised. */
  lemma WordRecognised(p: Ps, v: seq<Byte>)
    requires (p.hs.Encoding? && Spells("chunked", v)) || (p.hs.Connection? && (Spells("close", v) || Spells("keep-alive", v) || Spells("upgrade", v)))
    ensures var h := if p.hs.Encoding? then Chunked else if Spells("close", v) then Close else if Spells("keep-alive", v) then KeepAlive else ConnUpgrade;
      ValueFold(p, v) == Some(p.(st := HeaderValue, index := |v| - 1, hs := h))
  {
    hide ValueFold;
    var a := ActValueStart(p, v[0]).ps;
    assert Matching(a.hs) && Spells(WordOf(a.hs), v) by { FirstLetters(p, v); }
    FirstLetters(p, v);
    WordRun(p, v, |v|);
    assert v[..|v|] == v;
  }

  lemma FirstLetters(p: Ps, v: seq<Byte>)
    requires (p.hs.Encoding? && Spells("chunked", v)) || (p.hs.Connection? && (Spells("close", v) || Spells("keep-alive", v) || Spells("upgrade", v)))
    ensures !ActValueStart(p, v[0]).next.Fail? && Matching(ActValueStart(p, v[0]).ps.hs)
    ensures Spells(WordOf(ActValueStart(p, v[0]).ps.hs), v) && |v| > 1
    ensures ActValueStart(p, v[0]).ps == p.(st := HeaderValue, index := 0, hs := ActValueStart(p, v[0]).ps.hs)
    ensures FullOf(ActValueStart(p, v[0]).ps.hs) == if p.hs.Encoding? then Chunked else if Spells("close", v) then Close else if Spells("keep-alive", v) then KeepAlive else ConnUpgrade
  {
    hide Lower;
  }

  /** The largest Content-Length the overflow check lets through. */
  const MAX_LENGTH: nat := MAX64 - 6

  lemma LengthChar(p: Ps, ch: Byte)
    requires p.hs.Length? && IsNum(ch)
    ensures ValueChar(p, ch) ==
      if p.length * 10 + (ch as int - 48) <= MAX_LENGTH then Some(p.(length := p.length * 10 + (ch as int - 48))) else None
  {
    hide Lower;
  }

  /** Content-Length: the number is taken exactly, or refused above the limit. */
  lemma {:induction false} LengthRun(p: Ps, d: seq<Byte>)
    requires p.hs.Length? && d != [] && forall i :: 0 <= i < |d| ==> IsNum(d[i])
    ensures ValueFold(p, d) ==
      if Dec(d) <= MAX_LENGTH then Some(p.(st := HeaderValue, index := 0, length := Dec(d))) else None
    decreases |d|
  {
    hide Lower, ValueChar;
    var e := d[..|d| - 1];
    if |d| == 1 {
      assert Dec(e) == 0;
    } else {
      LengthRun(p, e);
      if ValueFold(p, e).Some? { LengthChar(ValueFold(p, e).value, d[|d| - 1]); }
    }
  }

  /** A header with any other name does not touch the framing. */
  lemma {:induction false} PlainRun(p: Ps, v: seq<Byte>)
    requires v != [] && !(p.hs.Connection? || p.hs.Length? || p.hs.Encoding? || p.hs.UpgradeField? || p.hs.TokenStart?)
    ensures ValueFold(p, v) == Some(p.(st := HeaderValue, index := 0, hs := General))
    decreases |v|
  {
    hide Lower;
    if |v| > 1 { PlainRun(p, v[..|v| - 1]); }
  }

  /* ---- Lists of headers ---- */

  /** A name the parser does not look at. */
  predicate Plain(h: Header) {
    h.Ok() && var L := Lowered(h.name);
      !Equals(CONNECTION, L) && !Equals(PROXY, L) && !Equals(LENGTH, L) && !Equals(ENCODING, L) && !Equals(UPGRADE, L)
  }

  function Texts(hs: seq<Header>): seq<Byte> {
    if hs == [] then [] else hs[0].Text() + Texts(hs[1..])
  }

  function HeaderEvents(hs: seq<Header>): seq<Event> {
    if hs == [] then [] else hs[0].Events() + HeaderEvents(hs[1..])
  }

  /** The parser at the start of a line, up to how far the last name was matched. */
  function Norm(p: Ps): Ps { Settled(p).(hs := General, index := 0) }

  predicate SameFrame(p: Ps, q: Ps) { AtLine(p) && AtLine(q) && Norm(q) == Norm(p) }

  lemma NameStates(p: Ps, name: seq<Byte>)
    requires name != []
    ensures !NameFold(p, name).hs.TokenStart? && forall f :: SetFlag(f, NameFold(p, name).hs) == f
  {
    hide NameFold, Begins;
    NameTracks(p, name);
  }

  /** A plain header changes nothing that matters. */
  lemma PlainEffect(p: Ps, h: Header)
    requires AtLine(p) && Plain(h)
    ensures Effect(p, h).Some? && SameFrame(p, Effect(p, h).value)
  {
    hide NameFold, ValueFold, Equals, SetFlag;
    var n := NameFold(Settled(p), h.name);
    NameRecognised(Settled(p), h.name);
    NameStates(Settled(p), h.name);
    if h.value != [] { PlainRun(n.(st := ValueDiscardWs), h.value); }
    SetNothing(Settled(p).flags);
  }

  lemma SetNothing(f: Flags)
    ensures SetFlag(f, General) == f && SetFlag(f, Length) == f
  {
  }

  /** Any number of plain headers is taken as names and values, and leaves the framing alone. */
  lemma {:induction false} PlainHeaders(p: Ps, hs: seq<Header>, hc: Settings) returns (q: Ps)
    requires AtLine(p) && forall i :: 0 <= i < |hs| ==> Plain(hs[i])
    ensures SameFrame(p, q) && Takes(p, Texts(hs), q, HeaderEvents(hs), hc)
    decreases |hs|
  {
    hide Takes, Effect, SetFlag, Equals;
    if hs == [] {
      q := p;
      TakesNone(p, hc);
    } else {
      PlainEffect(p, hs[0]);
      var r := Effect(p, hs[0]).value;
      HeaderTaken(p, hs[0], hc);
      q := PlainHeaders(r, hs[1..], hc);
      TakesBoth(p, hs[0].Text(), r, hs[0].Events(), Texts(hs[1..]), q, HeaderEvents(hs[1..]), hc);
    }
  }

  lemma TakesNone(p: Ps, hc: Settings)
    ensures Takes(p, [], p, [], hc)
  {
    RunEmpty(p, hc);
  }

  /** A framing header: Content-Length with a number, or Transfer-Encoding: chunked. */
  predicate Sized(h: Header) {
    h.Ok() && h.value != [] && Equals(LENGTH, Lowered(h.name)) && forall i :: 0 <= i < |h.value| ==> IsNum(h.value[i])
  }

  predicate ChunkedHeader(h: Header) {
    h.Ok() && Equals(ENCODING, Lowered(h.name)) && Spells("chunked", h.value)
  }

  lemma SizedEffect(p: Ps, h: Header)
    requires AtLine(p) && Sized(h) && Dec(h.value) <= MAX_LENGTH
    ensures Effect(p, h).Some? && AtLine(Effect(p, h).value) && Norm(Effect(p, h).value) == Norm(p).(length := Dec(h.value))
  {
    hide NameFold, ValueFold, Equals, SetFlag;
    var n := NameFold(Settled(p), h.name);
    NameRecognised(Settled(p), h.name);
    LengthRun(n.(st := ValueDiscardWs), h.value);
    SetNothing(Settled(p).flags);
  }

  lemma ChunkedEffect(p: Ps, h: Header)
    requires AtLine(p) && ChunkedHeader(h)
    ensures Effect(p, h).Some? && AtLine(Effect(p, h).value)
    ensures Norm(Effect(p, h).value) == Norm(p).(flags := Norm(p).flags.(chunked := true))
  {
    hide NameFold, ValueFold, Equals;
    var n := NameFold(Settled(p), h.name);
    NameRecognised(Settled(p), h.name);
    WordRecognised(n.(st := ValueDiscardWs), h.value);
  }

  /* ---- The end of the headers ---- */

  /** No upgrade is asked for, the message is not in its trailer, and headers_complete skips no body. */
  ghost predicate Ordinary(p: Ps, hc: Settings) {
    !(p.flags.upgrade && p.flags.connUpgrade) && p.meth != 5 && !p.flags.trailing && !p.flags.skipBody && forall s :: !hc(s)
  }

  /** The parser when the headers are complete, and where it goes from there. */
  function Complete(p: Ps): Ps { p.(st := HeadersDone, upgrade := false) }

  function Framed(p: Ps): (Ps, seq<Event>) {
    var d := Complete(p);
    if d.flags.chunked then (d.(st := ChunkSizeStart), [Notify(HeadersComplete)])
    else if 0 < d.length < MAX64 then (d.(st := BodyIdentity), [Notify(HeadersComplete)])
    else (d.(st := NewMessage(d)), [Notify(HeadersComplete), Notify(MessageComplete)])
  }

  lemma DoneStep(p: Ps, hc: Settings)
    requires p.st.HeadersDone? && !p.upgrade && !p.flags.skipBody && p.kind.Request? && p.length <= MAX64
    ensures Step(p, LF, hc) ==
      if p.flags.chunked then Going(p.(st := ChunkSizeStart), [])
      else if 0 < p.length < MAX64 then Going(p.(st := BodyIdentity), [])
      else Going(p.(st := NewMessage(p)), [Notify(MessageComplete)])
  {
    hide Pass, NewMessage;
    DonePass(p, hc);
    NewMessageKind(p);
  }

  lemma DonePass(p: Ps, hc: Settings)
    requires p.st.HeadersDone? && !p.upgrade && !p.flags.skipBody && p.kind.Request? && p.length <= MAX64
    ensures Pass(p, LF, hc) ==
      if p.flags.chunked then To(p, ChunkSizeStart)
      else if 0 < p.length < MAX64 then To(p, BodyIdentity)
      else Act(p.(st := NewMessage(p)), None, Quiet, Some(MessageComplete), Advance)
  {
    hide Pass, NewMessage, NeedsEof;
    PassOf(p, LF, hc);
  }

  lemma AlmostStep(p: Ps, hc: Settings)
    requires p.st.HeadersAlmostDone? && Ordinary(p, hc) && p.kind.Request? && p.length <= MAX64
    ensures Step(p, LF, hc) == Going(Framed(p).0, Framed(p).1)
  {
    hide Pass, NewMessage;
    var d := Complete(p);
    PassOf(p, LF, hc);
    assert Pass(p, LF, hc) == Act(d, None, Quiet, Some(HeadersComplete), Again);
    hide ActHeader;
    DoneStep(d, hc);
    assert [Notify(HeadersComplete)] + [] == [Notify(HeadersComplete)];
    assert [Notify(HeadersComplete)] + [Notify(MessageComplete)] == [Notify(HeadersComplete), Notify(MessageComplete)];
  }

  /** The empty line: CR settles the last header, LF completes the headers and starts a new count. */
  lemma CrTaken(p: Ps, hc: Settings)
    requires AtLine(p)
    ensures Takes(p, [CR], Settled(p).(st := HeadersAlmostDone), [], hc)
  {
    hide Step, Takes, SetFlag;
    var q := Settled(p);
    TrailerCr(q, hc);
    TakesOne(q, CR, q.(st := HeadersAlmostDone), [], hc);
    SettleTakes(p, [CR], q.(st := HeadersAlmostDone), [], hc);
  }

  lemma LfTaken(p: Ps, hc: Settings)
    requires p.st.HeadersAlmostDone? && Ordinary(p, hc) && p.kind.Request? && p.length <= MAX64
    ensures Takes(p, [LF], Framed(p).0, Framed(p).1, hc) && Resets(p, LF, hc)
  {
    hide Step, Takes, Framed;
    AlmostStep(p, hc);
    TakesOne(p, LF, Framed(p).0, Framed(p).1, hc);
    AlmostResets(p, hc);
  }

  /** LF alone on a line does both. */
  lemma OnlyLfTaken(p: Ps, hc: Settings)
    requires AtLine(p) && Ordinary(Settled(p), hc) && p.kind.Request? && p.length <= MAX64
    ensures Takes(p, [LF], Framed(Settled(p)).0, Framed(Settled(p)).1, hc) && Resets(p, LF, hc)
  {
    hide Step, Takes, Framed, SetFlag, Resets, Pass;
    var q := Settled(p);
    var t := q.(st := HeadersAlmostDone);
    LfPass(q, hc);
    LfTaken(t, hc);
    FramedAny(q);
    StepAgain(q, LF, t, hc);
    AlmostStep(t, hc);
    TakesOne(q, LF, Framed(q).0, Framed(q).1, hc);
    SettleTakes(p, [LF], Framed(q).0, Framed(q).1, hc);
    ResetsAgain(q, LF, hc);
    if !p.st.HeaderFieldStart? {
      SettlePass(p, LF, hc);
      ResetsAgain(p, LF, hc);
    }
  }

  lemma LfPass(q: Ps, hc: Settings)
    requires q.st.HeaderFieldStart?
    ensures Pass(q, LF, hc) == Retry(q.(st := HeadersAlmostDone))
  {
    hide Pass, TokenOf;
    PassOf(q, LF, hc);
  }

  lemma StepAgain(q: Ps, ch: Byte, t: Ps, hc: Settings)
    requires Pass(q, ch, hc) == Retry(t) && !InBody(q.st)
    ensures Step(q, ch, hc) == Step(t, ch, hc)
  {
    hide Pass;
    PassRank(q, ch, hc);
    PrefixEmpty(Step(t, ch, hc));
  }

  lemma ResetsAgain(q: Ps, ch: Byte, hc: Settings)
    requires Pass(q, ch, hc).next == Again && Resets(Pass(q, ch, hc).ps, ch, hc)
    ensures Resets(q, ch, hc)
  {
    hide Pass;
  }

  lemma AlmostResets(p: Ps, hc: Settings)
    requires p.st.HeadersAlmostDone? && !p.flags.trailing
    ensures Resets(p, LF, hc)
  {
    hide Pass;
    PassOf(p, LF, hc);
  }

  /* ---- Whole requests ---- */

  /** Method, URL, the two numbers of the version, headers, and the ends of the request line and the empty line. */
  datatype Message = Message(m: nat, url: seq<Byte>, a: seq<Byte>, b: seq<Byte>, eol: Eol, hs: seq<Header>, last: Eol) {
    ghost predicate Ok() { m < 27 && m != 5 && IsUrl(m, url) && IsNumber(a) && a[0] != 48 && IsNumber(b) }
    function Text(): seq<Byte> { RequestLine(m, url, a, b, eol) + (Texts(hs) + if last.CrLf? then [CR] else []) + [LF] }
    function Events(): seq<Event> { [Notify(MessageBegin)] + Datas(Url, url) + HeaderEvents(hs) }
  }

  /** The parser behind the request line. */
  function Lined(p: Ps, r: Message): Ps
    requires r.Ok()
  {
    AfterMethod(p, r.m).(st := HeaderFieldStart, major := Dec(r.a), minor := Dec(r.b))
  }

  /** The bytes take p to q and are events o; behind them the header count is 0. */
  ghost predicate TakesHead(p: Ps, data: seq<Byte>, q: Ps, o: seq<Event>, hc: Settings) {
    Takes(p, data, q, o, hc) && forall c: nat :: Counted(p, c, data, hc) == 0
  }

  /** The request line and the headers, without the empty line. */
  lemma LinesTaken(p: Ps, r: Message, q: Ps, hc: Settings)
    requires p.st.StartReq? && r.Ok() && Takes(Lined(p, r), Texts(r.hs), q, HeaderEvents(r.hs), hc) && AtLine(q)
    ensures Takes(p, RequestLine(r.m, r.url, r.a, r.b, r.eol) + (Texts(r.hs) + [CR]), Settled(q).(st := HeadersAlmostDone), r.Events(), hc)
    ensures Takes(p, RequestLine(r.m, r.url, r.a, r.b, r.eol) + (Texts(r.hs) + []), q, r.Events(), hc)
  {
    hide Takes, Settled, HeaderEvents, Texts, RequestLine, AfterMethod, IsUrl, IsNumber, Dec;
    var t := Settled(q).(st := HeadersAlmostDone);
    var (l, o) := (RequestLine(r.m, r.url, r.a, r.b, r.eol), [Notify(MessageBegin)] + Datas(Url, r.url));
    RequestLineTaken(p, r.m, r.url, r.a, r.b, r.eol, hc);
    CrTaken(q, hc);
    TakesBoth(Lined(p, r), Texts(r.hs), q, HeaderEvents(r.hs), [CR], t, [], hc);
    assert HeaderEvents(r.hs) + [] == HeaderEvents(r.hs) && Texts(r.hs) + [] == Texts(r.hs);
    TakesBoth(p, l, Lined(p, r), o, Texts(r.hs) + [CR], t, HeaderEvents(r.hs), hc);
    TakesBoth(p, l, Lined(p, r), o, Texts(r.hs), q, HeaderEvents(r.hs), hc);
  }

  lemma HeadTaken(p: Ps, r: Message, q: Ps, hc: Settings)
    requires p.st.StartReq? && r.Ok() && Takes(Lined(p, r), Texts(r.hs), q, HeaderEvents(r.hs), hc)
    requires AtLine(q) && Ordinary(Settled(q), hc) && q.kind.Request? && q.length <= MAX64
    ensures TakesHead(p, r.Text(), Framed(Settled(q)).0, r.Events() + Framed(Settled(q)).1, hc)
  {
    hide Takes, Framed, Settled, HeaderEvents, Texts, RequestLine, AfterMethod, IsUrl, IsNumber, Dec, Counted, Resets;
    var front := RequestLine(r.m, r.url, r.a, r.b, r.eol) + (Texts(r.hs) + if r.last.CrLf? then [CR] else []);
    var t := if r.last.CrLf? then Settled(q).(st := HeadersAlmostDone) else q;
    SettledFacts(q, hc);
    LinesTaken(p, r, q, hc);
    FramedAny(Settled(q));
    if r.last.CrLf? { LfTaken(t, hc); } else { OnlyLfTaken(q, hc); }
    TakesBoth(p, front, t, r.Events(), [LF], Framed(Settled(q)).0, Framed(Settled(q)).1, hc);
    forall c: nat ensures Counted(p, c, r.Text(), hc) == 0 { LastResets(p, c, front, t, r.Events(), LF, hc); }
  }

  lemma SettledFacts(q: Ps, hc: Settings)
    requires AtLine(q) && Ordinary(Settled(q), hc)
    ensures Ordinary(Settled(q).(st := HeadersAlmostDone), hc) && Settled(q).kind == q.kind && Settled(q).length == q.length
  {
    hide SetFlag;
  }

  lemma FramedAny(p: Ps)
    ensures Framed(p.(st := HeadersAlmostDone)) == Framed(p)
  {
  }

  /** A last byte that starts a new count. */
  lemma LastResets(p: Ps, c: nat, a: seq<Byte>, t: Ps, o: seq<Event>, ch: Byte, hc: Settings)
    requires Takes(p, a, t, o, hc) && Resets(t, ch, hc)
    ensures Counted(p, c, a + [ch], hc) == 0
  {
    hide Run, Resets;
    assert (a + [ch])[..|a|] == a;
  }

  /** Where a request ends: ready for the next one, or, before HTTP/1.1 without keep-alive, done. */
  predicate Over(p: Ps, r: Message, z: Ps)
    requires r.Ok()
  {
    && z.meth == r.m && z.major == Dec(r.a) && z.minor == Dec(r.b) && z.kind == p.kind
    && z.st == if Dec(r.b) > 0 then StartReq else Dead
  }

  /** The parser before a request: it waits for one, and the callbacks skip no body. */
  ghost predicate Waits(p: Ps, hc: Settings) { p.st.StartReq? && p.kind.Request? && forall s :: !hc(s) }

  ghost predicate AllPlain(hs: seq<Header>) { forall i :: 0 <= i < |hs| ==> Plain(hs[i]) }

  /** The major number is not 0. */
  lemma {:induction false} MajorPositive(a: seq<Byte>)
    requires IsNumber(a) && a[0] != 48
    ensures Dec(a) > 0
    decreases |a|
  {
    if |a| == 1 { OneDigit(a); } else { NumberPrefix(a); MajorPositive(a[..|a| - 1]); }
  }

  /** A request without a body: any method but CONNECT, any URL the parser accepts, any headers it does
      not look at. */
  lemma PlainTaken(p: Ps, r: Message, hc: Settings) returns (z: Ps)
    requires Waits(p, hc) && r.Ok() && AllPlain(r.hs)
    ensures TakesHead(p, r.Text(), z, r.Events() + [Notify(HeadersComplete), Notify(MessageComplete)], hc)
    ensures Over(p, r, z)
  {
    hide TakesHead, Texts, HeaderEvents, RequestLine, IsUrl, SetFlag, MethodName, IsNumber, Dec;
    var q := PlainHeaders(Lined(p, r), r.hs, hc);
    HeadTaken(p, r, q, hc);
    z := Framed(Settled(q)).0;
    MajorPositive(r.a);
  }

  lemma TwoParts(a: seq<Header>, h: Header, b: seq<Header>)
    ensures Texts(a + [h] + b) == Texts(a) + (h.Text() + Texts(b))
    ensures HeaderEvents(a + [h] + b) == HeaderEvents(a) + (h.Events() + HeaderEvents(b))
  {
    assert a + [h] + b == a + ([h] + b) && ([h] + b)[1..] == b;
    TextsApp(a, [h] + b);
  }

  lemma Regroup<T>(x: seq<T>, y: seq<T>, z: seq<T>)
    ensures x + (y + z) == (x + y) + z
  {
  }

  lemma {:induction false} TextsApp(a: seq<Header>, b: seq<Header>)
    ensures Texts(a + b) == Texts(a) + Texts(b) && HeaderEvents(a + b) == HeaderEvents(a) + HeaderEvents(b)
    decreases |a|
  {
    hide Header.Text, Header.Events;
    if a == [] {
      assert a + b == b;
    } else {
      TextsApp(a[1..], b);
      assert (a + b)[1..] == a[1..] + b && (a + b)[0] == a[0];
      Regroup(a[0].Text(), Texts(a[1..]), Texts(b));
      Regroup(a[0].Events(), HeaderEvents(a[1..]), HeaderEvents(b));
    }
  }

  /** Plain headers around one framing header; g is the parser it makes. */
  lemma AroundOne(p: Ps, a: seq<Header>, h: Header, b: seq<Header>, g: Ps, hc: Settings) returns (q: Ps)
    requires AtLine(p) && h.Ok() && (forall i :: 0 <= i < |a| ==> Plain(a[i])) && (forall i :: 0 <= i < |b| ==> Plain(b[i]))
    requires forall x :: SameFrame(p, x) ==> Effect(x, h).Some? && AtLine(Effect(x, h).value) && Norm(Effect(x, h).value) == g
    ensures AtLine(q) && Norm(q) == g && Takes(p, Texts(a + [h] + b), q, HeaderEvents(a + [h] + b), hc)
  {
    hide Takes, Effect, SetFlag, Equals, Texts, HeaderEvents, Plain;
    var x := PlainHeaders(p, a, hc);
    HeaderTaken(x, h, hc);
    var y := Effect(x, h).value;
    q := PlainHeaders(y, b, hc);
    TakesBoth(x, h.Text(), y, h.Events(), Texts(b), q, HeaderEvents(b), hc);
    TakesBoth(p, Texts(a), x, HeaderEvents(a), h.Text() + Texts(b), q, h.Events() + HeaderEvents(b), hc);
    TwoParts(a, h, b);
  }

  /** Plain headers around one other. */
  ghost predicate Around(hs: seq<Header>, a: seq<Header>, h: Header, b: seq<Header>) {
    hs == a + [h] + b && AllPlain(a) && AllPlain(b)
  }

  /** The head of a request with a Content-Length header at any place among others. */
  lemma SizedTaken(p: Ps, r: Message, a: seq<Header>, h: Header, b: seq<Header>, n: nat, hc: Settings) returns (d: Ps)
    requires Waits(p, hc) && r.Ok() && Around(r.hs, a, h, b) && Sized(h) && Dec(h.value) == n <= MAX_LENGTH
    ensures n > 0 ==> TakesHead(p, r.Text(), d, r.Events() + [Notify(HeadersComplete)], hc) && d.st.BodyIdentity? && d.length == n && !d.upgrade
    ensures n > 0 ==> Over(p, r, d.(st := NewMessage(d.(st := MessageDone, length := 0))))
    ensures n == 0 ==> TakesHead(p, r.Text(), d, r.Events() + [Notify(HeadersComplete), Notify(MessageComplete)], hc) && Over(p, r, d)
  {
    hide TakesHead, Texts, HeaderEvents, RequestLine, IsUrl, SetFlag, MethodName, Effect, Plain, Equals, IsNumber, Dec;
    var l := Lined(p, r);
    forall x | SameFrame(l, x) ensures Effect(x, h).Some? && AtLine(Effect(x, h).value) && Norm(Effect(x, h).value) == Norm(l).(length := n) {
      SizedEffect(x, h);
    }
    var q := AroundOne(l, a, h, b, Norm(l).(length := n), hc);
    HeadTaken(p, r, q, hc);
    d := Framed(Settled(q)).0;
    MajorPositive(r.a);
  }

  /** The head of a request with Transfer-Encoding: chunked at any place among other headers. */
  lemma ChunkedTaken(p: Ps, r: Message, a: seq<Header>, h: Header, b: seq<Header>, hc: Settings) returns (d: Ps)
    requires Waits(p, hc) && r.Ok() && Around(r.hs, a, h, b) && ChunkedHeader(h)
    ensures TakesHead(p, r.Text(), d, r.Events() + [Notify(HeadersComplete)], hc) && AtChunk(d) && !d.upgrade && Over(p, r, Finished(d))
  {
    hide TakesHead, Texts, HeaderEvents, RequestLine, IsUrl, SetFlag, MethodName, Effect, Plain, Equals, Spells, IsNumber, Dec;
    var l := Lined(p, r);
    var g := Norm(l).(flags := Norm(l).flags.(chunked := true));
    forall x | SameFrame(l, x) ensures Effect(x, h).Some? && AtLine(Effect(x, h).value) && Norm(Effect(x, h).value) == g {
      ChunkedEffect(x, h);
    }
    var q := AroundOne(l, a, h, b, g, hc);
    HeadTaken(p, r, q, hc);
    d := Framed(Settled(q)).0;
    MajorPositive(r.a);
  }

  /** Connection: close or keep-alive. */
  predicate ConnectionHeader(h: Header, w: string) {
    h.Ok() && (Equals(CONNECTION, Lowered(h.name)) || Equals(PROXY, Lowered(h.name))) && Spells(w, h.value)
  }

  lemma ConnectionEffect(p: Ps, h: Header)
    requires AtLine(p) && (ConnectionHeader(h, "close") || ConnectionHeader(h, "keep-alive"))
    ensures Effect(p, h).Some? && AtLine(Effect(p, h).value)
    ensures var f := Norm(p).flags;
      Norm(Effect(p, h).value) == Norm(p).(flags := if Spells("close", h.value) then f.(close := true) else f.(keepAlive := true))
  {
    hide NameFold, ValueFold, Equals;
    var n := NameFold(Settled(p), h.name);
    NameRecognised(Settled(p), h.name);
    WordRecognised(n.(st := ValueDiscardWs), h.value);
  }

  /** A request that says how the connection goes on: after it the parser waits for another request
      exactly if the version's default, as changed by the header, keeps the connection. */
  lemma ConnectionTaken(p: Ps, r: Message, a: seq<Header>, h: Header, b: seq<Header>, hc: Settings) returns (z: Ps)
    requires Waits(p, hc) && r.Ok() && Around(r.hs, a, h, b)
    requires ConnectionHeader(h, "close") || ConnectionHeader(h, "keep-alive")
    ensures TakesHead(p, r.Text(), z, r.Events() + [Notify(HeadersComplete), Notify(MessageComplete)], hc)
    ensures z.st == if Spells("close", h.value) then Dead else StartReq
  {
    hide TakesHead, Texts, HeaderEvents, RequestLine, IsUrl, SetFlag, MethodName, Effect, Plain, Equals, IsNumber, Dec;
    var l := Lined(p, r);
    var f := Norm(l).flags;
    var g := Norm(l).(flags := if Spells("close", h.value) then f.(close := true) else f.(keepAlive := true));
    forall x | SameFrame(l, x) ensures Effect(x, h).Some? && AtLine(Effect(x, h).value) && Norm(Effect(x, h).value) == g {
      ConnectionEffect(x, h);
    }
    var q := AroundOne(l, a, h, b, g, hc);
    HeadTaken(p, r, q, hc);
    z := Framed(Settled(q)).0;
    MajorPositive(r.a);
  }
}
