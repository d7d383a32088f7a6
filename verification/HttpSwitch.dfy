/** Requests behind which the connection speaks another protocol, and requests without a version. */
module HttpSwitch {
  import opened Lists
  import opened Arith
  import opened HttpMachine
  import opened HttpParser
  import opened HttpCuts
  import opened HttpChunked
  import opened HttpUrls
  import opened HttpMessages
  import opened HttpHeaders
  import opened HttpRequests
  import opened HttpFraming
  import opened HttpOptions
  import HttpGrammar

  /** The bytes of a request line and headers, up to the CR of the empty line. */
  function Front(line: seq<Byte>, hs: seq<Header>): seq<Byte> { line + (Texts(hs) + [CR]) }

  lemma FrontTaken(p: Ps, line: seq<Byte>, l: Ps, o: seq<Event>, hs: seq<Header>, q: Ps, hc: Settings)
    requires Takes(p, line, l, o, hc) && Takes(l, Texts(hs), q, HeaderEvents(hs), hc) && AtLine(q)
    ensures Takes(p, Front(line, hs), Settled(q).(st := HeadersAlmostDone), o + HeaderEvents(hs), hc)
  {
    hide Takes, Settled, Texts, HeaderEvents;
    var t := Settled(q).(st := HeadersAlmostDone);
    CrTaken(q, hc);
    TakesBoth(l, Texts(hs), q, HeaderEvents(hs), [CR], t, [], hc);
    assert HeaderEvents(hs) + [] == HeaderEvents(hs);
    TakesBoth(p, line, l, o, Texts(hs) + [CR], t, HeaderEvents(hs), hc);
  }

  /** The LF of the empty line, when an upgrade is asked for and no body announced: the parser stops. */
  lemma StopsHere(p: Ps, front: seq<Byte>, t: Ps, o: seq<Event>, hc: Settings)
    requires Takes(p, front, t, o, hc) && t.st.HeadersAlmostDone? && !t.flags.trailing && t.length <= MAX64
    requires t.meth == 5 || (t.flags.upgrade && t.flags.connUpgrade && !Declared(t))
    ensures var r := Run(p, front + [LF], hc);
      r.Exited? && r.out == o + [Notify(HeadersComplete), Notify(MessageComplete)] && r.at == |front| && r.ps.upgrade
  {
    hide Run, Step, NewMessage;
    var d := Informed(t, hc);
    HeadersEnd(t, hc);
    assert d == t.(st := HeadersDone, upgrade := d.upgrade, flags := t.flags.(skipBody := d.flags.skipBody));
    UpgradeExactly(d, hc);
    assert [Notify(HeadersComplete)] + [Notify(MessageComplete)] == [Notify(HeadersComplete), Notify(MessageComplete)];
    RunTwo(p, front, [LF], hc, t, o);
    RunOne(t, LF, hc);
  }

  /** CONNECT: whatever its headers say, the message is complete behind them, and the parser stops there. */
  lemma ConnectStops(p: Ps, url: seq<Byte>, a: seq<Byte>, b: seq<Byte>, e: Eol, hs: seq<Header>, hc: Settings)
    requires p.st.StartReq? && IsUrl(5, url) && IsNumber(a) && a[0] != 48 && IsNumber(b) && AllPlain(hs)
    ensures var (line, front) := (RequestLine(5, url, a, b, e), Front(RequestLine(5, url, a, b, e), hs));
      var r := Run(p, front + [LF], hc);
      && r.Exited? && r.at == |front| && r.ps.upgrade
      && r.out == [Notify(MessageBegin)] + Datas(Url, url) + HeaderEvents(hs) + [Notify(HeadersComplete), Notify(MessageComplete)]
  {
    hide Run, Texts, HeaderEvents, RequestLine, IsUrl, SetFlag, MethodName, Dec, Plain;
    var line := RequestLine(5, url, a, b, e);
    var l := AfterMethod(p, 5).(st := HeaderFieldStart, major := Dec(a), minor := Dec(b));
    RequestLineTaken(p, 5, url, a, b, e, hc);
    var q := PlainHeaders(l, hs, hc);
    var o := [Notify(MessageBegin)] + Datas(Url, url);
    FrontTaken(p, line, l, o, hs, q, hc);
    StopsHere(p, Front(line, hs), Settled(q).(st := HeadersAlmostDone), o + HeaderEvents(hs), hc);
  }

  /** An Upgrade header, and "Connection: upgrade". */
  predicate UpgradeHeader(h: Header) { h.Ok() && Equals(UPGRADE, Lowered(h.name)) && h.value != [] }

  lemma UpgradeEffect(p: Ps, h: Header)
    requires AtLine(p) && UpgradeHeader(h)
    ensures Effect(p, h).Some? && AtLine(Effect(p, h).value)
    ensures Norm(Effect(p, h).value) == Norm(p).(flags := Norm(p).flags.(upgrade := true))
  {
    hide NameFold, ValueFold, Equals;
    var n := NameFold(Settled(p), h.name);
    NameRecognised(Settled(p), h.name);
    UpgradeRead(n.(st := ValueDiscardWs), h.value);
    SetNothing(n.flags.(upgrade := true));
  }

  lemma ConnUpgradeEffect(p: Ps, h: Header)
    requires AtLine(p) && ConnectionHeader(h, "upgrade")
    ensures Effect(p, h).Some? && AtLine(Effect(p, h).value)
    ensures Norm(Effect(p, h).value) == Norm(p).(flags := Norm(p).flags.(connUpgrade := true))
  {
    hide NameFold, ValueFold, Equals, Spells;
    var n := NameFold(Settled(p), h.name);
    NameRecognised(Settled(p), h.name);
    assert h.value != [] && !Spells("close", h.value) && !Spells("keep-alive", h.value) by { OnlyUpgrade(h.value); }
    WordRecognised(n.(st := ValueDiscardWs), h.value);
  }

  lemma OnlyUpgrade(v: seq<Byte>)
    requires Spells("upgrade", v)
    ensures v != [] && !Spells("close", v) && !Spells("keep-alive", v)
  {
  }

  /** Plain headers around the two that ask for an upgrade. */
  lemma AroundTwo(l: Ps, a: seq<Header>, u: Header, b: seq<Header>, c: Header, d: seq<Header>, hc: Settings) returns (q: Ps)
    requires AtLine(l) && AllPlain(a) && AllPlain(b) && AllPlain(d) && UpgradeHeader(u) && ConnectionHeader(c, "upgrade")
    ensures AtLine(q) && Norm(q) == Norm(l).(flags := Norm(l).flags.(upgrade := true, connUpgrade := true))
    ensures Takes(l, Texts((a + [u] + b) + ([] + [c] + d)), q, HeaderEvents((a + [u] + b) + ([] + [c] + d)), hc)
  {
    hide Takes, Effect, SetFlag, Equals, Texts, HeaderEvents, Plain, Spells, Settled;
    var g := Norm(l).(flags := Norm(l).flags.(upgrade := true));
    forall x | SameFrame(l, x) ensures Effect(x, u).Some? && AtLine(Effect(x, u).value) && Norm(Effect(x, u).value) == g { UpgradeEffect(x, u); }
    var m := AroundOne(l, a, u, b, g, hc);
    var z := g.(flags := g.flags.(connUpgrade := true));
    forall x | SameFrame(m, x) ensures Effect(x, c).Some? && AtLine(Effect(x, c).value) && Norm(Effect(x, c).value) == z { ConnUpgradeEffect(x, c); }
    q := AroundOne(m, [], c, d, z, hc);
    TextsApp(a + [u] + b, [] + [c] + d);
    TakesBoth(l, Texts(a + [u] + b), m, HeaderEvents(a + [u] + b), Texts([] + [c] + d), q, HeaderEvents([] + [c] + d), hc);
  }

  /** A request with both headers and no body: it is complete behind its headers, and the parser stops there. */
  lemma UpgradeStops(p: Ps, r: Message, a: seq<Header>, u: Header, b: seq<Header>, c: Header, d: seq<Header>, hc: Settings)
    requires p.st.StartReq? && r.Ok() && r.hs == (a + [u] + b) + ([] + [c] + d)
    requires AllPlain(a) && AllPlain(b) && AllPlain(d) && UpgradeHeader(u) && ConnectionHeader(c, "upgrade")
    ensures var front := Front(RequestLine(r.m, r.url, r.a, r.b, r.eol), r.hs);
      var x := Run(p, front + [LF], hc);
      x.Exited? && x.at == |front| && x.ps.upgrade && x.out == r.Events() + [Notify(HeadersComplete), Notify(MessageComplete)]
  {
    hide Run, Texts, HeaderEvents, RequestLine, IsUrl, SetFlag, MethodName, IsNumber, Dec, Plain, Equals, Spells;
    var line := RequestLine(r.m, r.url, r.a, r.b, r.eol);
    var l := Lined(p, r);
    RequestLineTaken(p, r.m, r.url, r.a, r.b, r.eol, hc);
    var q := AroundTwo(l, a, u, b, c, d, hc);
    var o := [Notify(MessageBegin)] + Datas(Url, r.url);
    FrontTaken(p, line, l, o, r.hs, q, hc);
    NormFacts(q, l);
    StopsHere(p, Front(line, r.hs), Settled(q).(st := HeadersAlmostDone), o + HeaderEvents(r.hs), hc);
  }

  lemma NormFacts(q: Ps, l: Ps)
    requires Norm(q) == Norm(l).(flags := Norm(l).flags.(upgrade := true, connUpgrade := true))
    requires l.st.HeaderFieldStart? && l.flags == NO_FLAGS && l.length == MAX64
    ensures var t := Settled(q); t.flags.upgrade && t.flags.connUpgrade && !t.flags.trailing && t.length == MAX64 && !Declared(t)
  {
    hide SetFlag;
  }

  /** A request line without a version is one of HTTP/0.9. */
  lemma SimpleRequest(p: Ps, url: seq<Byte>, e: Eol, hc: Settings)
    requires p.st.ReqSpaces? && IsUrl(p.meth, url)
    ensures Takes(p, url + e.Text(), p.(st := HeaderFieldStart, major := 0, minor := 9), Datas(Url, url), hc)
  {
    hide Takes, Step, UrlFold, InUrl, Whole, IsUrl;
    var q := p.(st := UrlFold(if p.meth == 5 then ReqServerStart else ReqSpaces, url));
    var z := q.(st := HeaderFieldStart, major := 0, minor := 9);
    UrlExactly(p.meth, url);
    HttpGrammar.GoodAlive(q.st);
    UrlRun(p, url, hc);
    UrlEnds(q, CR, hc);
    UrlEnds(q, LF, hc);
    if e.CrLf? {
      var t := z.(st := ReqLineAlmostDone);
      NumberByte(t, LF, hc);
      TakesOne(t, LF, z, [], hc);
      TakesQuiet(q, CR, t, [LF], z, [], hc);
      assert [CR] + [LF] == [CR, LF];
    } else {
      TakesOne(q, LF, z, [], hc);
    }
    TakesBoth(p, url, q, Datas(Url, url), e.Text(), z, [], hc);
    assert Datas(Url, url) + [] == Datas(Url, url);
  }

  lemma UrlEnds(q: Ps, ch: Byte, hc: Settings)
    requires Whole(q.st) && (ch == CR || ch == LF)
    ensures Step(q, ch, hc) == Going(q.(major := 0, minor := 9, st := if ch == CR then ReqLineAlmostDone else HeaderFieldStart), [])
  {
    hide Pass, UrlChar;
    PassOf(q, ch, hc);
  }
}
