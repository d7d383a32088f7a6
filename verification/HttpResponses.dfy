/** Status lines of responses. */
module HttpResponses {
  import opened Lists
  import opened HttpMachine
  import opened HttpParser
  import opened HttpCuts
  import opened HttpChunked
  import opened HttpMessages

  lemma NameByte(p: Ps, ch: Byte, hc: Settings)
    requires OfResponse(p.st)
    ensures p.st.ResH? && ch == 84 ==> Step(p, ch, hc) == Going(p.(st := ResHT), [])
    ensures p.st.ResHT? && ch == 84 ==> Step(p, ch, hc) == Going(p.(st := ResHTT), [])
    ensures p.st.ResHTT? && ch == 80 ==> Step(p, ch, hc) == Going(p.(st := ResHTTP), [])
    ensures p.st.ResHTTP? && ch == 47 ==> Step(p, ch, hc) == Going(p.(st := ResFirstMajor), [])
    ensures p.st.ResMajor? && ch == 46 ==> Step(p, ch, hc) == Going(p.(st := ResFirstMinor), [])
    ensures p.st.ResMinor? && ch == SP ==> Step(p, ch, hc) == Going(p.(st := ResFirstStatus), [])
  {
    hide Pass, Digit, Step;
    PassOf(p, ch, hc);
    var a := Pass(p, ch, hc);
    if a.next == Advance && a.note.None? && KindOf(a.ps.st).None? { QuietPass(p, ch, hc); }
  }

  lemma EndByte(p: Ps, ch: Byte, hc: Settings)
    requires OfResponse(p.st)
    ensures p.st.ResStatusCode? && ch == SP ==> Step(p, ch, hc) == Going(p.(st := ResStatusStart), [])
    ensures (p.st.ResStatusCode? || p.st.ResStatusStart? || p.st.ResStatus?) && ch == CR ==> Step(p, ch, hc) == Going(p.(st := ResLineAlmostDone), [])
    ensures (p.st.ResStatusCode? || p.st.ResStatusStart? || p.st.ResStatus?) && ch == LF ==> Step(p, ch, hc) == Going(p.(st := HeaderFieldStart), [])
    ensures p.st.ResLineAlmostDone? && ch == LF ==> Step(p, ch, hc) == Going(p.(st := HeaderFieldStart), [])
  {
    hide Pass, Digit, Step;
    PassOf(p, ch, hc);
    var a := Pass(p, ch, hc);
    if a.next == Advance && a.note.None? && KindOf(a.ps.st).None? { QuietPass(p, ch, hc); }
  }

  lemma FirstByte(p: Ps, hc: Settings)
    requires p.st.StartRes?
    ensures Step(p, 72, hc) == Going(p.(flags := NO_FLAGS, length := MAX64, st := ResH), [Notify(MessageBegin)])
  {
    hide Pass;
    PassOf(p, 72, hc);
  }

  /* ---- Numbers: major, minor and status code ---- */

  /** The state before the first digit of a number, the one behind it, and the parser with the number n. */
  predicate BeforeNumber(s: St) { s.ResFirstMajor? || s.ResFirstMinor? || s.ResFirstStatus? }

  function WithNumber(p: Ps, s: St, n: nat): Ps
    requires BeforeNumber(s)
  {
    if s.ResFirstMajor? then p.(st := ResMajor, major := n)
    else if s.ResFirstMinor? then p.(st := ResMinor, minor := n)
    else p.(st := ResStatusCode, status := n)
  }

  lemma NumberFirst(p: Ps, ch: Byte, hc: Settings)
    requires BeforeNumber(p.st) && IsNum(ch)
    ensures Step(p, ch, hc) == Going(WithNumber(p, p.st, ch - 48), [])
  {
    hide Pass;
    PassOf(p, ch, hc);
  }

  lemma NumberNext(p: Ps, s: St, n: nat, ch: Byte, hc: Settings)
    requires BeforeNumber(s) && IsNum(ch) && n * 10 + (ch - 48) <= 999
    ensures Step(WithNumber(p, s, n), ch, hc) == Going(WithNumber(p, s, n * 10 + (ch - 48)), [])
  {
    hide Pass;
    PassOf(WithNumber(p, s, n), ch, hc);
  }

  lemma {:induction false} NumberRun(p: Ps, d: seq<Byte>, hc: Settings)
    requires BeforeNumber(p.st) && IsNumber(d)
    ensures Takes(p, d, WithNumber(p, p.st, Dec(d)), [], hc)
    decreases |d|
  {
    hide Step, Takes, WithNumber;
    if |d| == 1 {
      OneDigit(d);
      NumberFirst(p, d[0], hc);
      TakesOne(p, d[0], WithNumber(p, p.st, Dec(d)), [], hc);
    } else {
      var (e, ch) := (d[..|d| - 1], d[|d| - 1]);
      NumberPrefix(d);
      NumberRun(p, e, hc);
      NumberNext(p, p.st, Dec(e), ch, hc);
      TakesOne(WithNumber(p, p.st, Dec(e)), ch, WithNumber(p, p.st, Dec(d)), [], hc);
      TakesAfter(p, e, WithNumber(p, p.st, Dec(e)), [ch], WithNumber(p, p.st, Dec(d)), [], hc);
      assert d == e + [ch];
    }
  }

  /* ---- The reason ---- */

  lemma ReasonByte(p: Ps, ch: Byte, hc: Settings)
    requires (p.st.ResStatusStart? || p.st.ResStatus?) && ch != CR && ch != LF
    ensures Step(p, ch, hc) == Going(if p.st.ResStatus? then p else p.(st := ResStatus, index := 0), [Data(Status, ch)])
  {
    hide Pass;
    PassOf(p, ch, hc);
  }

  lemma {:induction false} ReasonRun(p: Ps, t: seq<Byte>, hc: Settings)
    requires p.st.ResStatusStart? && t != [] && forall i :: 0 <= i < |t| ==> t[i] != CR && t[i] != LF
    ensures Takes(p, t, p.(st := ResStatus, index := 0), Datas(Status, t), hc)
    decreases |t|
  {
    hide Step, Takes;
    var (d, ch, q) := (t[..|t| - 1], t[|t| - 1], p.(st := ResStatus, index := 0));
    if |t| == 1 {
      assert t == [ch] && Datas(Status, t) == [Data(Status, ch)];
      ReasonByte(p, ch, hc);
      TakesOne(p, ch, q, [Data(Status, ch)], hc);
    } else {
      ReasonRun(p, d, hc);
      ReasonByte(q, ch, hc);
      TakesOne(q, ch, q, [Data(Status, ch)], hc);
      TakesBoth(p, d, q, Datas(Status, d), [ch], q, [Data(Status, ch)], hc);
      assert t == d + [ch] && Datas(Status, t) == Datas(Status, d) + [Data(Status, ch)];
    }
  }

  lemma EndRun(p: Ps, e: Eol, hc: Settings)
    requires p.st.ResStatusCode? || p.st.ResStatusStart? || p.st.ResStatus?
    ensures Takes(p, e.Text(), p.(st := HeaderFieldStart), [], hc)
  {
    hide Step, Takes;
    var (q, z) := (p.(st := ResLineAlmostDone), p.(st := HeaderFieldStart));
    EndByte(p, CR, hc);
    EndByte(p, LF, hc);
    EndByte(q, LF, hc);
    if e.CrLf? {
      TakesOne(q, LF, z, [], hc);
      TakesQuiet(p, CR, q, [LF], z, [], hc);
      assert [CR] + [LF] == [CR, LF];
    } else {
      TakesOne(p, LF, z, [], hc);
    }
  }

  /** Nothing, or a space and a reason, which may be empty. */
  predicate IsReason(t: seq<Byte>) { forall i :: 0 <= i < |t| ==> t[i] != CR && t[i] != LF }

  function ReasonText(r: Option<seq<Byte>>, e: Eol): seq<Byte> { if r.None? then e.Text() else [SP] + (r.value + e.Text()) }

  function ReasonOf(r: Option<seq<Byte>>): seq<Byte> { if r.None? then [] else r.value }

  lemma ReasonTaken(p: Ps, r: Option<seq<Byte>>, e: Eol, hc: Settings)
    requires p.st.ResStatusCode? && IsReason(ReasonOf(r))
    ensures Takes(p, ReasonText(r, e), p.(st := HeaderFieldStart, index := if ReasonOf(r) == [] then p.index else 0), Datas(Status, ReasonOf(r)), hc)
  {
    hide Step, Takes;
    var t := ReasonOf(r);
    if r.None? {
      EndRun(p, e, hc);
      assert Datas(Status, t) == [];
    } else {
      var q := p.(st := ResStatusStart);
      EndByte(p, SP, hc);
      if t == [] {
        EndRun(q, e, hc);
        assert t + e.Text() == e.Text() && Datas(Status, t) == [];
        TakesQuiet(p, SP, q, t + e.Text(), p.(st := HeaderFieldStart), [], hc);
      } else {
        var z := q.(st := ResStatus, index := 0);
        ReasonRun(q, t, hc);
        EndRun(z, e, hc);
        TakesBoth(q, t, z, Datas(Status, t), e.Text(), z.(st := HeaderFieldStart), [], hc);
        assert Datas(Status, t) + [] == Datas(Status, t);
        TakesQuiet(p, SP, q, t + e.Text(), z.(st := HeaderFieldStart), Datas(Status, t), hc);
      }
    }
  }

  /* ---- The line ---- */

  /** "HTTP/a.b code", a reason or none, and the line end. */
  function StatusLine(a: seq<Byte>, b: seq<Byte>, code: seq<Byte>, r: Option<seq<Byte>>, e: Eol): seq<Byte> {
    [72, 84, 84, 80, 47] + (a + ([46] + (b + ([SP] + (code + ReasonText(r, e))))))
  }

  /** From the version on. */
  lemma NumbersTaken(p: Ps, a: seq<Byte>, b: seq<Byte>, code: seq<Byte>, t: seq<Byte>, q: Ps, o: seq<Event>, hc: Settings)
    requires p.st.ResFirstMajor? && IsNumber(a) && IsNumber(b) && IsNumber(code)
    requires Takes(p.(st := ResStatusCode, major := Dec(a), minor := Dec(b), status := Dec(code)), t, q, o, hc)
    ensures Takes(p, a + ([46] + (b + ([SP] + (code + t)))), q, o, hc)
  {
    hide Step, Takes, Dec;
    var p1 := p.(st := ResMajor, major := Dec(a));
    var p2 := p1.(st := ResFirstMinor);
    var p3 := p2.(st := ResMinor, minor := Dec(b));
    var p4 := p3.(st := ResFirstStatus);
    var p5 := p4.(st := ResStatusCode, status := Dec(code));
    NumberRun(p, a, hc);
    NameByte(p1, 46, hc);
    NumberRun(p2, b, hc);
    NameByte(p3, SP, hc);
    NumberRun(p4, code, hc);
    TakesAfter(p4, code, p5, t, q, o, hc);
    TakesQuiet(p3, SP, p4, code + t, q, o, hc);
    TakesAfter(p2, b, p3, [SP] + (code + t), q, o, hc);
    TakesQuiet(p1, 46, p2, b + ([SP] + (code + t)), q, o, hc);
    TakesAfter(p, a, p1, [46] + (b + ([SP] + (code + t))), q, o, hc);
  }

  lemma NameTaken(p: Ps, t: seq<Byte>, q: Ps, o: seq<Event>, hc: Settings)
    requires p.st.StartRes? && Takes(p.(flags := NO_FLAGS, length := MAX64, st := ResFirstMajor), t, q, o, hc)
    ensures Takes(p, [72, 84, 84, 80, 47] + t, q, [Notify(MessageBegin)] + o, hc)
  {
    hide Step, Takes;
    var p1 := p.(flags := NO_FLAGS, length := MAX64, st := ResH);
    var (p2, p3, p4, p5) := (p1.(st := ResHT), p1.(st := ResHTT), p1.(st := ResHTTP), p1.(st := ResFirstMajor));
    FirstByte(p, hc);
    NameByte(p1, 84, hc);
    NameByte(p2, 84, hc);
    NameByte(p3, 80, hc);
    NameByte(p4, 47, hc);
    TakesQuiet(p4, 47, p5, t, q, o, hc);
    TakesQuiet(p3, 80, p4, [47] + t, q, o, hc);
    TakesQuiet(p2, 84, p3, [80] + ([47] + t), q, o, hc);
    TakesQuiet(p1, 84, p2, [84] + ([80] + ([47] + t)), q, o, hc);
    var r := [84] + ([84] + ([80] + ([47] + t)));
    TakesFirst(p, 72, p1, [Notify(MessageBegin)], r, q, o, hc);
    assert [72] + r == [72, 84, 84, 80, 47] + t;
  }

  /** A status line: the parser learns exactly the version, the code and, byte by byte, the reason. */
  lemma StatusLineTaken(p: Ps, a: seq<Byte>, b: seq<Byte>, code: seq<Byte>, r: Option<seq<Byte>>, e: Eol, hc: Settings)
    requires p.st.StartRes? && IsNumber(a) && IsNumber(b) && IsNumber(code) && IsReason(ReasonOf(r))
    ensures Takes(p, StatusLine(a, b, code, r, e),
                  p.(flags := NO_FLAGS, length := MAX64, major := Dec(a), minor := Dec(b), status := Dec(code),
                     index := if ReasonOf(r) == [] then p.index else 0, st := HeaderFieldStart),
                  [Notify(MessageBegin)] + Datas(Status, ReasonOf(r)), hc)
  {
    hide Takes, Dec, ReasonText;
    var p1 := p.(flags := NO_FLAGS, length := MAX64, st := ResFirstMajor);
    var p2 := p1.(st := ResStatusCode, major := Dec(a), minor := Dec(b), status := Dec(code));
    var q := p2.(st := HeaderFieldStart, index := if ReasonOf(r) == [] then p.index else 0);
    ReasonTaken(p2, r, e, hc);
    NumbersTaken(p1, a, b, code, ReasonText(r, e), q, Datas(Status, ReasonOf(r)), hc);
    NameTaken(p, a + ([46] + (b + ([SP] + (code + ReasonText(r, e))))), q, Datas(Status, ReasonOf(r)), hc);
  }
}
