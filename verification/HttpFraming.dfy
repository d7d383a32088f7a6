/** Where a message ends and whether another one may follow: the rules of RFC 7230, and where the parser
    departs from them. */
module HttpFraming {
  import opened Lists
  import opened HttpMachine
  import opened HttpParser
  import opened HttpCuts
  import opened HttpChunked
  import opened HttpMessages
  import opened HttpHeaders
  import opened HttpRequests
  import HttpResponses

  /* ---- The body ---- */

  datatype Frame = NoBody | Chunks | Bytes(n: nat) | ToTheEnd

  /** Responses that have no body, whatever their headers say. */
  predicate Bodyless(p: Ps) { p.kind != Request && (100 <= p.status <= 199 || p.status == 204 || p.status == 304) }

  /** The headers say that there is a body. */
  predicate Declared(p: Ps) { p.flags.chunked || 0 < p.length < MAX64 }

  /** Section 3.3.3 of RFC 7230; skipBody stands for responses to HEAD. */
  function RfcFrame(p: Ps): Frame {
    if p.flags.skipBody || Bodyless(p) then NoBody
    else if p.flags.chunked then Chunks
    else if p.length < MAX64 then (if p.length > 0 then Bytes(p.length) else NoBody)
    else if p.kind == Request then NoBody
    else ToTheEnd
  }

  /** What the parser does behind the headers for a message framed like that. */
  ghost predicate Follows(p: Ps, r: Result, f: Frame) {
    r.Going? && match f
    case NoBody => r.out == [Notify(MessageComplete)] && r.ps == p.(st := r.ps.st) && (r.ps.st.StartReq? || r.ps.st.StartRes? || r.ps.st.Dead?)
    case Chunks => r.out == [] && r.ps == p.(st := ChunkSizeStart)
    case Bytes(n) => r.out == [] && r.ps == p.(st := BodyIdentity) && r.ps.length == n
    case ToTheEnd => r.out == [] && r.ps == p.(st := BodyIdentityEof)
  }

  lemma DoneByteStep(p: Ps, hc: Settings)
    requires p.st.HeadersDone?
    ensures Pass(p, LF, hc) == ActHeadersDone(p, LF)
    ensures Step(p, LF, hc) == match ActHeadersDone(p, LF).next
      case Exit => Exited(ActHeadersDone(p, LF).ps, PassEvents(p.st, ActHeadersDone(p, LF), LF), 0)
      case _ => Going(ActHeadersDone(p, LF).ps, PassEvents(p.st, ActHeadersDone(p, LF), LF))
  {
    hide Pass, NeedsEof, NewMessage;
    PassOf(p, LF, hc);
  }

  /** The parser frames a message as the RFC says exactly when it is not one of the bodyless responses with
      headers that announce a body, which it then expects. */
  lemma FrameExactly(p: Ps, hc: Settings)
    requires p.st.HeadersDone? && p.length <= MAX64 && !p.upgrade
    ensures Follows(p, Step(p, LF, hc), RfcFrame(p)) <==> !(Bodyless(p) && !p.flags.skipBody && Declared(p))
    ensures !Bodyless(p) || p.flags.skipBody || !Declared(p) || Follows(p, Step(p, LF, hc), if p.flags.chunked then Chunks else Bytes(p.length))
  {
    hide Step, Pass, NewMessage, KindOf;
    DoneByteStep(p, hc);
    NewMessageKind(p);
    NewMessageStates(p);
    NoKinds();
  }

  lemma NoKinds()
    ensures KindOf(ChunkSizeStart).None? && KindOf(BodyIdentity).None? && KindOf(BodyIdentityEof).None?
  {
  }

  lemma NewMessageStates(p: Ps)
    ensures NewMessage(p).StartReq? || NewMessage(p).StartRes? || NewMessage(p).Dead?
  {
  }

  /** A "304 Not Modified" that repeats the Content-Length of the document makes the parser wait for a body. */
  lemma NotModified(p: Ps, hc: Settings)
    requires p.st.HeadersDone? && p.kind == Response && p.status == 304 && p.length == 5 && !p.upgrade && !p.flags.skipBody && !p.flags.chunked
    ensures RfcFrame(p) == NoBody && Step(p, LF, hc) == Going(p.(st := BodyIdentity), [])
  {
    hide Step, Follows;
    FrameExactly(p, hc);
    FollowsBytes(p, Step(p, LF, hc));
  }

  lemma FollowsBytes(p: Ps, r: Result)
    requires Follows(p, r, Bytes(p.length))
    ensures r == Going(p.(st := BodyIdentity), [])
  {
  }

  /** A message that asks to change the protocol ends with its headers, and the parser stops, exactly when it is
      a CONNECT or has no body; otherwise its body comes first. */
  lemma UpgradeExactly(p: Ps, hc: Settings)
    requires p.st.HeadersDone? && p.length <= MAX64 && p.upgrade
    ensures Step(p, LF, hc).Exited? <==> p.meth == 5 || p.flags.skipBody || !Declared(p)
    ensures Step(p, LF, hc).Exited? ==> Step(p, LF, hc) == Exited(p.(st := NewMessage(p)), [Notify(MessageComplete)], 0)
    ensures !Step(p, LF, hc).Exited? ==> Follows(p, Step(p, LF, hc), if p.flags.chunked then Chunks else Bytes(p.length))
  {
    hide Step, Pass, NewMessage, KindOf;
    DoneByteStep(p, hc);
    NewMessageKind(p);
    NoKinds();
  }

  /** The parser as headers_complete sees it, and after it. */
  ghost function Informed(p: Ps, hc: Settings): (d: Ps)
    ensures d.upgrade <==> p.meth == 5 || (p.flags.upgrade && p.flags.connUpgrade)
    ensures d.flags.skipBody <==> p.flags.skipBody || hc(d.(flags := p.flags))
  {
    var q := p.(st := HeadersDone, upgrade := p.meth == 5 || (p.flags.upgrade && p.flags.connUpgrade));
    q.(flags := q.flags.(skipBody := p.flags.skipBody || hc(q)))
  }

  /** The end of the headers: the callback is told, and the body is framed by what the headers and the callback
      said. */
  lemma HeadersEnd(p: Ps, hc: Settings)
    requires p.st.HeadersAlmostDone? && !p.flags.trailing
    ensures Step(p, LF, hc) == Prefix([Notify(HeadersComplete)], 0, Step(Informed(p, hc), LF, hc))
  {
    hide Pass, ActHeadersDone;
    AlmostPass(p, hc);
  }

  lemma AlmostPass(p: Ps, hc: Settings)
    requires p.st.HeadersAlmostDone? && !p.flags.trailing
    ensures Pass(p, LF, hc) == Act(Informed(p, hc), None, Quiet, Some(HeadersComplete), Again)
  {
    hide Pass, ActHeadersDone;
    PassOf(p, LF, hc);
  }

  lemma UpgradeDone(p: Ps, ch: Byte, hc: Settings)
    requires p.st.MessageDone? && p.upgrade
    ensures Step(p, ch, hc) == Exited(p.(st := NewMessage(p)), [Notify(MessageComplete)], 0)
  {
    hide Pass, NewMessage;
    PassOf(p, ch, hc);
    NewMessageKind(p);
  }

  lemma LastThenStops(p: Ps, ch: Byte, hc: Settings)
    requires p.st.BodyIdentity? && p.length == 1 && p.upgrade
    ensures var r := Step(p, ch, hc); r.Exited? && r.at == 0 && r.out == [Data(Body, ch), Notify(MessageComplete)] && r.ps.upgrade
  {
    hide Pass, NewMessage;
    LastIdentityByte(p, ch, hc);
    UpgradeDone(p.(st := MessageDone, length := 0), ch, hc);
    assert [Data(Body, ch)] + [Notify(MessageComplete)] == [Data(Body, ch), Notify(MessageComplete)];
  }

  /** A body before the change of protocol is delivered, and the parser stops at its last byte. */
  lemma {:induction false} BodyThenStops(p: Ps, d: seq<Byte>, hc: Settings)
    requires p.st.BodyIdentity? && |d| == p.length > 0 && p.upgrade
    ensures var r := Run(p, d, hc); r.Exited? && r.at == |d| - 1 && r.out == Datas(Body, d) + [Notify(MessageComplete)] && r.ps.upgrade
    decreases |d|
  {
    hide Run, Step, NewMessage, Datas;
    assert d == [d[0]] + d[1..];
    RunOne(p, d[0], hc);
    if |d| == 1 {
      assert d == [d[0]];
      LastThenStops(p, d[0], hc);
      DatasCons(d, [Notify(MessageComplete)]);
      assert Datas(Body, d[1..]) == [];
    } else {
      var q := p.(length := p.length - 1);
      BodyByte(p, d[0], hc);
      RunTwo(p, [d[0]], d[1..], hc, q, [Data(Body, d[0])]);
      BodyThenStops(q, d[1..], hc);
      DatasCons(d, [Notify(MessageComplete)]);
    }
  }

  /** Behind the CR of a line end, and behind the data of a chunk, no other byte is taken. */
  lemma StrictEnds(p: Ps, ch: Byte, hc: Settings)
    requires p.st.ReqLineAlmostDone? || p.st.ResLineAlmostDone? || p.st.HeaderAlmostDone? || p.st.ValueDiscardWsAlmostDone? || p.st.HeadersAlmostDone?
      || p.st.ChunkSizeAlmostDone? || p.st.ChunkDataDone? || p.st.ChunkDataAlmostDone?
    requires ch != if p.st.ChunkDataAlmostDone? then CR else LF
    ensures Step(p, ch, hc).Failed?
  {
    hide Pass, NewMessage, ActHeadersDone, Digit, MethodChar, FirstMethod;
    PassOf(p, ch, hc);
  }

  /** A chunk size begins with a digit; behind it come digits, the line end, or a semicolon or space. */
  lemma SizeBytes(p: Ps, ch: Byte, hc: Settings)
    requires p.st.ChunkSizeStart? || p.st.ChunkSize?
    ensures Unhex(ch) == -1 && !(p.st.ChunkSize? && (ch == CR || ch == 59 || ch == SP)) ==> Step(p, ch, hc).Failed?
  {
    hide Pass, NewMessage, Unhex;
    PassOf(p, ch, hc);
  }

  /* ---- The connection ---- */

  /** Section 6.3 of RFC 7230: the connection persists unless the close option is present; by default from HTTP/1.1
      on, before with the keep-alive option; and only behind a message whose end is known. */
  predicate RfcPersists(p: Ps) {
    && !p.flags.close && !(RfcFrame(p) == ToTheEnd)
    && (p.major > 1 || (p.major == 1 && p.minor >= 1) || p.flags.keepAlive)
  }

  /** The parser decides like that exactly when the end is not that of the connection and it is neither misled by
      both options before HTTP/1.1 nor by a version such as 2.0, which it takes for an old one. */
  lemma PersistsExactly(p: Ps)
    requires p.length <= MAX64
    ensures (NewMessage(p) != Dead <==> RfcPersists(p)) <==>
      || RfcFrame(p) == ToTheEnd
      || (if p.major > 1 && p.minor == 0 then p.flags.keepAlive != p.flags.close
          else (p.major > 0 && p.minor > 0) || !(p.flags.keepAlive && p.flags.close))
    ensures NewMessage(p) == if NewMessage(p) == Dead then Dead else if p.kind == Request then StartReq else StartRes
  {
  }

  /** An HTTP/1.0 request with both options is taken to keep the connection. */
  lemma BothOptions(p: Ps)
    requires p.kind == Request && p.major == 1 && p.minor == 0 && p.flags.keepAlive && p.flags.close
    ensures NewMessage(p) == StartReq && !RfcPersists(p)
  {
  }

  /* ---- Outside messages ---- */

  predicate LineEnds(d: seq<Byte>) { forall i :: 0 <= i < |d| ==> d[i] == CR || d[i] == LF }

  lemma DeadStep(p: Ps, ch: Byte, hc: Settings)
    requires p.st.Dead?
    ensures Step(p, ch, hc) == if ch == CR || ch == LF then Going(p, []) else Failed(ClosedConnection, 0)
  {
    hide Pass;
    PassOf(p, ch, hc);
  }

  /** Behind a message that closes the connection only line ends are taken. */
  lemma {:induction false} DeadExactly(p: Ps, d: seq<Byte>, hc: Settings)
    requires p.st.Dead?
    ensures if LineEnds(d) then Run(p, d, hc) == Going(p, []) else Run(p, d, hc).Failed? && Run(p, d, hc).err == ClosedConnection
    decreases |d|
  {
    hide Run, Step;
    if d == [] {
      RunEmpty(p, hc);
    } else {
      var (e, ch) := (d[..|d| - 1], d[|d| - 1]);
      assert d == e + [ch];
      DeadExactly(p, e, hc);
      DeadStep(p, ch, hc);
      RunConcat(p, e, [ch], hc);
      RunOne(p, ch, hc);
    }
  }

  /** Line ends before a request are skipped. */
  lemma {:induction false} BlankBefore(p: Ps, d: seq<Byte>, hc: Settings)
    requires p.st.StartReq? && LineEnds(d)
    ensures Takes(p, d, p, [], hc)
    decreases |d|
  {
    hide Takes, Step;
    if d == [] {
      TakesNone(p, hc);
    } else {
      BlankStep(p, d[0], hc);
      BlankBefore(p, d[1..], hc);
      TakesQuiet(p, d[0], p, d[1..], p, [], hc);
      assert [d[0]] + d[1..] == d;
    }
  }

  lemma BlankStep(p: Ps, ch: Byte, hc: Settings)
    requires ch == CR || ch == LF
    ensures p.st.StartReq? || p.st.StartReqOrRes? ==> Step(p, ch, hc) == Going(p, [])
    ensures p.st.StartRes? ==> Step(p, ch, hc) == Going(p.(flags := NO_FLAGS, length := MAX64), [Notify(MessageBegin)])
  {
    hide Pass;
    PassOf(p, ch, hc);
  }

  /** Before a response each of them announces a message: an empty line and a status line are three beginnings. */
  lemma BegunThrice(p: Ps, hc: Settings)
    requires p.st.StartRes?
    ensures Run(p, [CR, LF, 72], hc).Going? && Run(p, [CR, LF, 72], hc).out == [Notify(MessageBegin), Notify(MessageBegin), Notify(MessageBegin)]
  {
    hide Step, Takes;
    var q := p.(flags := NO_FLAGS, length := MAX64);
    var b := [Notify(MessageBegin)];
    BlankStep(p, CR, hc);
    BlankStep(q, LF, hc);
    HttpResponses.FirstByte(q, hc);
    TakesOne(q, 72, q.(st := ResH), b, hc);
    TakesFirst(q, LF, q, b, [72], q.(st := ResH), b, hc);
    TakesFirst(p, CR, q, b, [LF] + [72], q.(st := ResH), b + b, hc);
    assert [CR] + ([LF] + [72]) == [CR, LF, 72];
    TakesRun(p, [CR, LF, 72], q.(st := ResH), b + (b + b), hc);
  }

  lemma TakesRun(p: Ps, d: seq<Byte>, q: Ps, o: seq<Event>, hc: Settings)
    requires Takes(p, d, q, o, hc)
    ensures Run(p, d, hc) == Going(q, o)
  {
  }

  /** A body that lasts until the connection ends: every byte is delivered, and no message completes. */
  lemma {:induction false} EndlessBody(p: Ps, d: seq<Byte>, hc: Settings)
    requires p.st.BodyIdentityEof?
    ensures Takes(p, d, p, Datas(Body, d), hc)
    decreases |d|
  {
    hide Takes, Step;
    if d == [] {
      TakesNone(p, hc);
    } else {
      EndlessStep(p, d[0], hc);
      EndlessBody(p, d[1..], hc);
      TakesFirst(p, d[0], p, [Data(Body, d[0])], d[1..], p, Datas(Body, d[1..]), hc);
      assert [d[0]] + d[1..] == d;
      DatasCons(d, []);
    }
  }

  lemma EndlessStep(p: Ps, ch: Byte, hc: Settings)
    requires p.st.BodyIdentityEof?
    ensures Step(p, ch, hc) == Going(p, [Data(Body, ch)])
  {
    hide Pass;
    PassOf(p, ch, hc);
  }

  /* ---- Requests or responses ---- */

  lemma EitherStep(p: Ps, ch: Byte, hc: Settings)
    requires p.st.StartReqOrRes? && ch != CR && ch != LF && ch != 72
    ensures Step(p, ch, hc) == Step(p.(kind := Request, st := StartReq), ch, hc)
  {
    hide Pass, MethodName, FirstMethod;
    var q := p.(flags := NO_FLAGS, length := MAX64, kind := Request, st := StartReq);
    PassOf(p, ch, hc);
    PassOf(q, ch, hc);
    PassOf(p.(kind := Request, st := StartReq), ch, hc);
    StepAgain(p, ch, q, hc);
  }

  lemma SameFirst(p: Ps, q: Ps, ch: Byte, rest: seq<Byte>, hc: Settings)
    requires Step(p, ch, hc) == Step(q, ch, hc)
    ensures Run(p, [ch] + rest, hc) == Run(q, [ch] + rest, hc)
  {
    hide Run, Step;
    RunOne(p, ch, hc);
    RunOne(q, ch, hc);
    RunConcat(p, [ch], rest, hc);
    RunConcat(q, [ch], rest, hc);
  }

  /** The second byte behind an H, in the state for both kinds and in those for one. */
  lemma SecondStep(p: Ps, ch: Byte, hc: Settings)
    ensures p.st.ResOrRespH? && ch == 84 ==> Step(p, ch, hc) == Going(p.(kind := Response, st := ResHT), [])
    ensures p.st.ResOrRespH? && ch == 69 ==> Step(p, ch, hc) == Going(p.(kind := Request, meth := 2, index := 2, st := ReqMethod), [])
    ensures p.st.ResOrRespH? && ch != 84 && ch != 69 ==> Step(p, ch, hc).Failed?
    ensures p.st.ReqMethod? && p.meth == 2 && p.index == 1 && ch == 69 ==> Step(p, ch, hc) == Going(p.(index := 2), [])
  {
    hide Pass, FirstMethod;
    PassOf(p, ch, hc);
  }

  lemma HStep(p: Ps, hc: Settings)
    requires p.st.StartReqOrRes?
    ensures Step(p, 72, hc) == Going(p.(flags := NO_FLAGS, length := MAX64, st := ResOrRespH), [Notify(MessageBegin)])
  {
    hide Pass;
    PassOf(p, 72, hc);
  }

  /** A parser for both kinds tells them apart by the first two bytes and then behaves as one for that kind. */
  lemma EitherKind(p: Ps, a: Byte, b: Byte, rest: seq<Byte>, hc: Settings)
    requires p.st.StartReqOrRes? && a != CR && a != LF
    ensures var r := Run(p, [a, b] + rest, hc);
      if a != 72 || b == 69 then r == Run(p.(kind := Request, st := StartReq), [a, b] + rest, hc)
      else if b == 84 then r == Run(p.(kind := Response, st := StartRes), [a, b] + rest, hc)
      else r.Failed?
  {
    hide Run, Step, FirstMethod;
    assert [a, b] + rest == [a] + ([b] + rest);
    var (s, t) := (p.(kind := Request, st := StartReq), p.(kind := Response, st := StartRes));
    if a != 72 {
      EitherStep(p, a, hc);
      SameFirst(p, s, a, [b] + rest, hc);
    } else {
      var q := p.(flags := NO_FLAGS, length := MAX64, st := ResOrRespH);
      HStep(p, hc);
      HFirst();
      HttpMessages.FirstByte(s, 72, hc);
      HttpResponses.FirstByte(t, hc);
      HttpResponses.NameByte(t.(flags := NO_FLAGS, length := MAX64, st := ResH), 84, hc);
      SecondStep(q, b, hc);
      SecondStep(s.(flags := NO_FLAGS, length := MAX64, meth := 2, index := 1, st := ReqMethod), b, hc);
      TwoBytes(p, 72, q, [Notify(MessageBegin)], b, rest, hc);
      TwoBytes(s, 72, s.(flags := NO_FLAGS, length := MAX64, meth := 2, index := 1, st := ReqMethod), [Notify(MessageBegin)], b, rest, hc);
      TwoBytes(t, 72, t.(flags := NO_FLAGS, length := MAX64, st := ResH), [Notify(MessageBegin)], b, rest, hc);
    }
  }

  lemma HFirst()
    ensures FirstMethod(72) == Some(2)
  {
  }

  lemma TwoBytes(p: Ps, a: Byte, q: Ps, o: seq<Event>, b: Byte, rest: seq<Byte>, hc: Settings)
    requires Step(p, a, hc) == Going(q, o)
    ensures var r := Step(q, b, hc);
      Run(p, [a] + ([b] + rest), hc) == Prefix(o, 1, if r.Going? then Prefix(r.out, 1, Run(r.ps, rest, hc)) else r)
  {
    hide Run, Step;
    RunOne(p, a, hc);
    RunTwo(p, [a], [b] + rest, hc, q, o);
    RunOne(q, b, hc);
    RunConcat(q, [b], rest, hc);
  }
}
