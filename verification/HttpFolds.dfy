/** Header values that go on in the next line (section 3.2.4 of RFC 7230). */
module HttpFolds {
  import opened Lists
  import opened Arith
  import opened HttpMachine
  import opened HttpParser
  import opened HttpCuts
  import opened HttpChunked
  import opened HttpMessages
  import opened HttpHeaders
  import opened HttpRequests

  /** A line that continues a value: it begins with a space or a tab. */
  datatype More = More(text: seq<Byte>, eol: Eol) {
    predicate Ok() { text != [] && (text[0] == SP || text[0] == TAB) && forall i :: 0 <= i < |text| ==> text[i] != CR && text[i] != LF }
    function Line(): seq<Byte> { text + eol.Text() }
  }

  function Lines(ms: seq<More>): seq<Byte> {
    if ms == [] then [] else ms[0].Line() + Lines(ms[1..])
  }

  function MoreText(ms: seq<More>): seq<Byte> {
    if ms == [] then [] else ms[0].text + MoreText(ms[1..])
  }

  /** The first byte of such a line goes on with the value; what the value was taken for is forgotten. */
  lemma MoreStart(p: Ps, ch: Byte, hc: Settings)
    requires p.st.HeaderValueLws? && (ch == SP || ch == TAB)
    ensures p.hs.Length? ==> Step(p, ch, hc) == Failed(InvalidContentLength, 0)
    ensures p.hs.General? || p.hs.Close? || p.hs.KeepAlive? || p.hs.Chunked? ==>
      Step(p, ch, hc) == Going(p.(st := HeaderValue, index := 0, hs := General), [Data(Value, ch)])
  {
    hide Pass, ActValueStart;
    var q := p.(st := HeaderValueStart);
    LwsPass(p, ch, hc);
    StepAgain(p, ch, q, hc);
    StartPass(q, ch, hc);
    StartFails(q, ch);
  }

  lemma LwsPass(p: Ps, ch: Byte, hc: Settings)
    requires p.st.HeaderValueLws? && (ch == SP || ch == TAB)
    ensures Pass(p, ch, hc) == Retry(p.(st := HeaderValueStart))
  {
    hide Pass, ActValueStart;
    PassOf(p, ch, hc);
  }

  lemma StartPass(q: Ps, ch: Byte, hc: Settings)
    requires q.st.HeaderValueStart?
    ensures Pass(q, ch, hc) == ActValueStart(q, ch)
  {
    hide Pass, ActValueStart;
    PassOf(q, ch, hc);
  }

  lemma StartFails(q: Ps, ch: Byte)
    requires ch == SP || ch == TAB
    ensures q.hs.Length? ==> ActValueStart(q, ch).next == Fail(InvalidContentLength)
    ensures q.hs.General? || q.hs.Close? || q.hs.KeepAlive? || q.hs.Chunked? ==>
      ActValueStart(q, ch) == Act(q.(st := HeaderValue, index := 0, hs := General), Some(Value), Quiet, None, Advance)
  {
  }

  lemma {:induction false} GeneralRun(p: Ps, t: seq<Byte>, hc: Settings)
    requires p.st.HeaderValue? && p.hs.General? && forall i :: 0 <= i < |t| ==> t[i] != CR && t[i] != LF
    ensures Takes(p, t, p, Datas(Value, t), hc)
    decreases |t|
  {
    hide Takes, Step, ValueChar, Datas;
    if t == [] {
      TakesNone(p, hc);
      assert Datas(Value, t) == [];
    } else {
      ValueByte(p, t[0], hc);
      GeneralRun(p, t[1..], hc);
      TakesFirst(p, t[0], p, [Data(Value, t[0])], t[1..], p, Datas(Value, t[1..]), hc);
      FirstOf(t);
    }
  }

  lemma FirstOf(t: seq<Byte>)
    requires t != []
    ensures [t[0]] + t[1..] == t && [Data(Value, t[0])] + Datas(Value, t[1..]) == Datas(Value, t)
  {
  }

  /** One such line is delivered, with its white space, as more of the value. */
  lemma MoreTaken(p: Ps, m: More, hc: Settings)
    requires p.st.HeaderValueLws? && (p.hs.General? || p.hs.Close? || p.hs.KeepAlive? || p.hs.Chunked?) && m.Ok()
    ensures Takes(p, m.Line(), p.(index := 0, hs := General), Datas(Value, m.text), hc)
  {
    hide Takes, Step, Datas;
    var (q, t) := (p.(st := HeaderValue, index := 0, hs := General), m.text[1..]);
    FirstOf(m.text);
    MoreStart(p, m.text[0], hc);
    GeneralRun(q, t, hc);
    TakesFirst(p, m.text[0], q, [Data(Value, m.text[0])], t, q, Datas(Value, t), hc);
    ValueEndTaken(q, m.eol, hc);
    TakesBoth(p, m.text, q, Datas(Value, m.text), m.eol.Text(), q.(st := HeaderValueLws), [], hc);
    assert Datas(Value, m.text) + [] == Datas(Value, m.text);
  }

  lemma {:induction false} LinesTaken(p: Ps, ms: seq<More>, hc: Settings)
    requires p.st.HeaderValueLws? && p.hs.General? && p.index == 0 && forall i :: 0 <= i < |ms| ==> ms[i].Ok()
    ensures Takes(p, Lines(ms), p, Datas(Value, MoreText(ms)), hc)
    decreases |ms|
  {
    hide Takes, More.Line;
    if ms == [] {
      TakesNone(p, hc);
      assert Datas(Value, MoreText(ms)) == [];
    } else {
      MoreTaken(p, ms[0], hc);
      LinesTaken(p, ms[1..], hc);
      TakesBoth(p, ms[0].Line(), p, Datas(Value, ms[0].text), Lines(ms[1..]), p, Datas(Value, MoreText(ms[1..])), hc);
      assert Datas(Value, MoreText(ms)) == Datas(Value, ms[0].text) + Datas(Value, MoreText(ms[1..]));
    }
  }

  /** A header the parser does not look at, with a value over any number of lines: all of it is delivered, and the
      framing is left alone. */
  lemma FoldedTaken(p: Ps, h: Header, ms: seq<More>, hc: Settings) returns (q: Ps)
    requires AtLine(p) && Plain(h) && h.value != [] && forall i :: 0 <= i < |ms| ==> ms[i].Ok()
    ensures SameFrame(p, q) && Takes(p, h.Text() + Lines(ms), q, Datas(Field, h.name) + Datas(Value, h.value + MoreText(ms)), hc)
  {
    hide Takes, NameFold, ValueFold, SetFlag, Header.Text, Plain;
    PlainEffect(p, h);
    OfPlain(p, h);
    HeaderTaken(p, h, hc);
    q := Effect(p, h).value;
    LinesTaken(q, ms, hc);
    TakesBoth(p, h.Text(), q, h.Events(), Lines(ms), q, Datas(Value, MoreText(ms)), hc);
    assert h.Events() + Datas(Value, MoreText(ms)) == Datas(Field, h.name) + Datas(Value, h.value + MoreText(ms));
  }

  lemma OfPlain(p: Ps, h: Header)
    requires AtLine(p) && Plain(h) && h.value != []
    ensures h.Ok() && Effect(p, h).Some? && Effect(p, h).value.st.HeaderValueLws? && Effect(p, h).value.hs.General? && Effect(p, h).value.index == 0
  {
    hide NameFold, SetFlag, Lowered, Equals;
    var n := NameFold(Settled(p), h.name);
    NameRecognised(Settled(p), h.name);
    NameStates(Settled(p), h.name);
    PlainRun(n.(st := ValueDiscardWs), h.value);
  }

  /** White space before a value may go over line ends, too. */
  lemma SkippedFold(p: Ps, e: Eol, ch: Byte, hc: Settings)
    requires p.st.ValueDiscardWs? && (ch == SP || ch == TAB)
    ensures Takes(p, e.Text() + [ch], p, [], hc)
  {
    hide Takes, Step;
    var q := p.(st := ValueDiscardLws);
    EmptyEnd(p, e, hc);
    LwsByte(q, ch, hc);
    TakesOne(q, ch, p, [], hc);
    TakesAfter(p, e.Text(), q, [ch], p, [], hc);
  }

  lemma LwsByte(q: Ps, ch: Byte, hc: Settings)
    requires q.st.ValueDiscardLws? && (ch == SP || ch == TAB)
    ensures Step(q, ch, hc) == Going(q.(st := ValueDiscardWs), [])
  {
    hide Pass, ActValueStart;
    PassOf(q, ch, hc);
  }

  /** A value that is looked at loses its meaning when it goes on in the next line: "Connection: close" does not
      close, and a length is refused. */
  lemma FoldForgets(p: Ps, m: More, hc: Settings)
    requires p.st.HeaderValueLws? && (p.hs.Close? || p.hs.Length?) && m.Ok()
    ensures p.hs.Close? ==> Takes(p, m.Line(), p.(index := 0, hs := General), Datas(Value, m.text), hc)
    ensures p.hs.Close? ==> Settled(p).flags.close && Settled(p.(index := 0, hs := General)).flags == p.flags
    ensures p.hs.Length? ==> Run(p, m.Line(), hc).Failed?
  {
    hide Run, Step;
    if p.hs.Close? {
      MoreTaken(p, m, hc);
    } else {
      MoreStart(p, m.text[0], hc);
      RunOne(p, m.text[0], hc);
      assert m.Line() == [m.text[0]] + (m.text[1..] + m.eol.Text());
      RunConcat(p, [m.text[0]], m.text[1..] + m.eol.Text(), hc);
    }
  }
}
