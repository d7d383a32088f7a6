/** The language of status lines: exactly which ones the parser takes. */
module HttpStatus {
  import opened Lists
  import opened HttpMachine
  import opened HttpParser
  import opened HttpCuts
  import opened HttpChunked
  import opened HttpMessages
  import opened HttpResponses
  import opened HttpGrammar

  /** "HTTP/", a number, a dot at k, a number, a space at j, more spaces, a number from i on that ends at e, and
      nothing or a space and any text. */
  predicate StatusAt(w: seq<Byte>, k: nat, j: nat, i: nat, e: nat) {
    && 5 < k < j < i < e <= |w| && w[..5] == HTTP && IsNumber(w[5..k]) && w[k] == 46 && IsNumber(w[k + 1..j])
    && w[j] == SP && Blank(w[j + 1..i]) && IsNumber(w[i..e]) && (e < |w| ==> w[e] == SP)
  }

  ghost predicate IsStatusLine(w: seq<Byte>) { exists k: nat, j: nat, i: nat, e: nat :: StatusAt(w, k, j, i, e) }

  predicate InLine(s: St) {
    || s.ResH? || s.ResHT? || s.ResHTT? || s.ResHTTP? || s.ResFirstMajor? || s.ResMajor? || s.ResFirstMinor? || s.ResMinor?
    || s.ResFirstStatus? || s.ResStatusCode? || s.ResStatusStart? || s.ResStatus?
  }

  /** Where the parts of the line begin and end. */
  datatype Cuts = Cuts(k: nat, j: nat, i: nat, e: nat)

  /** What the parser knows after w. */
  predicate Reading(q: Ps, w: seq<Byte>, c: Cuts) {
    match q.st
    case ResH => w == HTTP[..1]
    case ResHT => w == HTTP[..2]
    case ResHTT => w == HTTP[..3]
    case ResHTTP => w == HTTP[..4]
    case ResFirstMajor => w == HTTP
    case ResMajor => Major(w, |w|) && q.major == Dec(w[5..|w|])
    case ResFirstMinor => |w| == c.k + 1 && Dotted(w, c.k)
    case ResMinor => Minor(w, c.k, |w|) && q.minor == Dec(w[c.k + 1..|w|])
    case ResFirstStatus => Spaced(w, c.k, c.j, |w|)
    case ResStatusCode => Spaced(w, c.k, c.j, c.i) && c.i < |w| && IsNumber(w[c.i..]) && q.status == Dec(w[c.i..])
    case _ => c.e < |w| && StatusAt(w, c.k, c.j, c.i, c.e)
  }

  predicate Major(w: seq<Byte>, k: nat) { 5 < k <= |w| && w[..5] == HTTP && IsNumber(w[5..k]) }

  predicate Dotted(w: seq<Byte>, k: nat) { k < |w| && Major(w, k) && w[k] == 46 }

  predicate Minor(w: seq<Byte>, k: nat, j: nat) { k < j <= |w| && Dotted(w, k) && IsNumber(w[k + 1..j]) }

  predicate Spaced(w: seq<Byte>, k: nat, j: nat, i: nat) { j < i <= |w| && Minor(w, k, j) && w[j] == SP && Blank(w[j + 1..i]) }

  lemma StatusParts(w: seq<Byte>, k: nat, j: nat, i: nat, e: nat)
    ensures StatusAt(w, k, j, i, e) <==> Spaced(w, k, j, i) && i < e <= |w| && IsNumber(w[i..e]) && (e < |w| ==> w[e] == SP)
  {
    hide IsNumber, Blank;
  }

  /** More bytes behind w change nothing of what was read. */
  lemma PartsKept(w: seq<Byte>, ch: Byte, k: nat, j: nat, i: nat)
    ensures Major(w, k) ==> Major(w + [ch], k)
    ensures Dotted(w, k) ==> Dotted(w + [ch], k)
    ensures Minor(w, k, j) ==> Minor(w + [ch], k, j)
    ensures Spaced(w, k, j, i) ==> Spaced(w + [ch], k, j, i)
  {
    hide IsNumber, Blank;
    var v := w + [ch];
    if 5 <= |w| { assert v[..5] == w[..5]; }
    if 5 < k <= |w| { assert v[5..k] == w[5..k]; }
    if k < j <= |w| { assert v[k + 1..j] == w[k + 1..j]; }
    if j < i <= |w| { assert v[j + 1..i] == w[j + 1..i]; }
  }

  /** Which bytes the states take. */
  lemma LetterStep(q: Ps, ch: Byte, hc: Settings)
    requires (q.st.ResH? || q.st.ResHT? || q.st.ResHTT? || q.st.ResHTTP?) && Step(q, ch, hc).Going?
    ensures var z := Step(q, ch, hc).ps;
      || (q.st.ResH? && ch == 84 && z == q.(st := ResHT)) || (q.st.ResHT? && ch == 84 && z == q.(st := ResHTT))
      || (q.st.ResHTT? && ch == 80 && z == q.(st := ResHTTP)) || (q.st.ResHTTP? && ch == 47 && z == q.(st := ResFirstMajor))
  {
    hide Pass, Digit, Step;
    PassOf(q, ch, hc);
    StepPass(q, ch, hc);
  }

  lemma NumberStep(q: Ps, ch: Byte, hc: Settings)
    requires (q.st.ResFirstMajor? || q.st.ResMajor? || q.st.ResFirstMinor? || q.st.ResMinor?) && Step(q, ch, hc).Going?
    ensures var z := Step(q, ch, hc).ps;
      || (q.st.ResMajor? && ch == 46 && z == q.(st := ResFirstMinor)) || (q.st.ResMinor? && ch == SP && z == q.(st := ResFirstStatus))
      || (IsNum(ch) && (
           || (q.st.ResFirstMajor? && z == q.(st := ResMajor, major := ch - 48))
           || (q.st.ResMajor? && q.major * 10 + (ch - 48) <= 999 && z == q.(major := q.major * 10 + (ch - 48)))
           || (q.st.ResFirstMinor? && z == q.(st := ResMinor, minor := ch - 48))
           || (q.st.ResMinor? && q.minor * 10 + (ch - 48) <= 999 && z == q.(minor := q.minor * 10 + (ch - 48)))))
  {
    hide Pass, Step;
    PassOf(q, ch, hc);
    StepPass(q, ch, hc);
  }

  lemma CodeStep(q: Ps, ch: Byte, hc: Settings)
    requires (q.st.ResFirstStatus? || q.st.ResStatusCode? || q.st.ResStatusStart? || q.st.ResStatus?) && ch != CR && ch != LF && Step(q, ch, hc).Going?
    ensures var z := Step(q, ch, hc).ps;
      || (q.st.ResFirstStatus? && ch == SP && z == q) || (q.st.ResStatusCode? && ch == SP && z == q.(st := ResStatusStart))
      || ((q.st.ResStatusStart? || q.st.ResStatus?) && z.st.ResStatus?)
      || (IsNum(ch) && (
           || (q.st.ResFirstStatus? && z == q.(st := ResStatusCode, status := ch - 48))
           || (q.st.ResStatusCode? && q.status * 10 + (ch - 48) <= 999 && z == q.(status := q.status * 10 + (ch - 48)))))
  {
    hide Pass, Step;
    PassOf(q, ch, hc);
    StepPass(q, ch, hc);
  }

  lemma LettersRead(q: Ps, w: seq<Byte>, c: Cuts, ch: Byte, hc: Settings)
    requires (q.st.ResH? || q.st.ResHT? || q.st.ResHTT? || q.st.ResHTTP?) && Reading(q, w, c) && Step(q, ch, hc).Going?
    ensures InLine(Step(q, ch, hc).ps.st) && Reading(Step(q, ch, hc).ps, w + [ch], c)
  {
    hide Step, IsNumber, Dec;
    LetterStep(q, ch, hc);
  }

  lemma NumbersRead(q: Ps, w: seq<Byte>, c: Cuts, ch: Byte, hc: Settings) returns (d: Cuts)
    requires (q.st.ResFirstMajor? || q.st.ResMajor? || q.st.ResFirstMinor? || q.st.ResMinor?) && Reading(q, w, c) && Step(q, ch, hc).Going?
    ensures InLine(Step(q, ch, hc).ps.st) && Reading(Step(q, ch, hc).ps, w + [ch], d)
  {
    hide Step, IsNumber, Dec;
    NumberStep(q, ch, hc);
    var (v, k) := (w + [ch], c.k);
    d := c;
    assert v[|w|] == ch && v[..|w|] == w;
    if q.st.ResFirstMajor? {
      NumberMore([], ch);
      assert v[5..|v|] == [ch] && v[..5] == w;
    } else if q.st.ResMajor? {
      PartsKept(w, ch, |w|, 0, 0);
      if ch == 46 { d := c.(k := |w|); } else { NumberMore(w[5..|w|], ch); assert v[5..|v|] == w[5..|w|] + [ch] && v[..5] == w[..5]; }
    } else if q.st.ResFirstMinor? {
      PartsKept(w, ch, k, 0, 0);
      NumberMore([], ch);
      assert v[k + 1..|v|] == [ch];
    } else {
      PartsKept(w, ch, k, |w|, 0);
      if ch == SP {
        d := c.(j := |w|);
        assert v[|w| + 1..|v|] == [];
      } else {
        PartsKept(w, ch, k, 0, 0);
        NumberMore(w[k + 1..|w|], ch);
        assert v[k + 1..|v|] == w[k + 1..|w|] + [ch];
      }
    }
  }

  lemma CodeRead(q: Ps, w: seq<Byte>, c: Cuts, ch: Byte, hc: Settings) returns (d: Cuts)
    requires (q.st.ResFirstStatus? || q.st.ResStatusCode? || q.st.ResStatusStart? || q.st.ResStatus?) && ch != CR && ch != LF
    requires Reading(q, w, c) && Step(q, ch, hc).Going?
    ensures InLine(Step(q, ch, hc).ps.st) && Reading(Step(q, ch, hc).ps, w + [ch], d)
  {
    hide Step, IsNumber, Dec, Minor, StatusAt;
    CodeStep(q, ch, hc);
    var (v, i, j) := (w + [ch], c.i, c.j);
    d := c;
    assert v[|w|] == ch && v[..|w|] == w;
    if q.st.ResFirstStatus? {
      PartsKept(w, ch, c.k, j, |w|);
      if ch == SP {
        assert v[j + 1..] == w[j + 1..] + [SP];
      } else {
        d := c.(i := |w|);
        NumberMore([], ch);
        assert v[|w|..] == [ch];
      }
    } else if q.st.ResStatusCode? {
      PartsKept(w, ch, c.k, j, i);
      if ch == SP {
        d := c.(e := |w|);
        assert v[i..|w|] == w[i..];
        StatusParts(v, c.k, j, i, |w|);
      } else {
        NumberMore(w[i..], ch);
        assert v[i..] == w[i..] + [ch];
      }
    } else {
      PartsKept(w, ch, c.k, j, i);
      StatusParts(w, c.k, j, i, c.e);
      StatusParts(v, c.k, j, i, c.e);
      assert v[i..c.e] == w[i..c.e];
    }
  }

  lemma {:induction false} LineRead(p: Ps, w: seq<Byte>, hc: Settings) returns (c: Cuts)
    requires p.st.StartRes? && w != [] && CR !in w && LF !in w && Run(p, w, hc).Going?
    ensures InLine(Run(p, w, hc).ps.st) && Reading(Run(p, w, hc).ps, w, c)
    decreases |w|
  {
    hide Run, Step, Reading;
    var (d, ch) := (w[..|w| - 1], w[|w| - 1]);
    assert w == d + [ch];
    TakenBefore(p, d, ch, hc);
    if d == [] {
      RunEmpty(p, hc);
      StartStepRes(p, ch, hc);
      c := Cuts(0, 0, 0, 0);
      FirstRead(Run(p, w, hc).ps, w, c);
    } else {
      c := LineRead(p, d, hc);
      var q := Run(p, d, hc).ps;
      if q.st.ResH? || q.st.ResHT? || q.st.ResHTT? || q.st.ResHTTP? { LettersRead(q, d, c, ch, hc); }
      else if q.st.ResFirstMajor? || q.st.ResMajor? || q.st.ResFirstMinor? || q.st.ResMinor? { c := NumbersRead(q, d, c, ch, hc); }
      else { c := CodeRead(q, d, c, ch, hc); }
    }
  }

  lemma StartStepRes(p: Ps, ch: Byte, hc: Settings)
    requires p.st.StartRes? && ch != CR && ch != LF && Step(p, ch, hc).Going?
    ensures ch == 72 && Step(p, ch, hc).ps.st.ResH?
  {
    hide Pass, Step;
    PassOf(p, ch, hc);
    StepPass(p, ch, hc);
  }

  lemma FirstRead(q: Ps, w: seq<Byte>, c: Cuts)
    requires q.st.ResH? && w == [72]
    ensures Reading(q, w, c)
  {
  }

  lemma EndStep(q: Ps, ch: Byte, hc: Settings)
    requires InLine(q.st) && (ch == CR || ch == LF) && Step(q, ch, hc).Going?
    ensures q.st.ResStatusCode? || q.st.ResStatusStart? || q.st.ResStatus?
  {
    hide Pass, Step;
    PassOf(q, ch, hc);
    StepPass(q, ch, hc);
  }

  lemma Complete(q: Ps, w: seq<Byte>, c: Cuts)
    requires (q.st.ResStatusCode? || q.st.ResStatusStart? || q.st.ResStatus?) && Reading(q, w, c)
    ensures IsStatusLine(w)
  {
    hide IsNumber, Dec, StatusAt;
    if q.st.ResStatusCode? {
      StatusParts(w, c.k, c.j, c.i, |w|);
      assert w[c.i..|w|] == w[c.i..];
      assert StatusAt(w, c.k, c.j, c.i, |w|);
    } else {
      assert StatusAt(w, c.k, c.j, c.i, c.e);
    }
  }

  /** Spaces before the code are skipped. */
  lemma {:induction false} SpacesSkipped(p: Ps, w: seq<Byte>, t: seq<Byte>, q: Ps, o: seq<Event>, hc: Settings)
    requires p.st.ResFirstStatus? && Blank(w) && Takes(p, t, q, o, hc)
    ensures Takes(p, w + t, q, o, hc)
    decreases |w|
  {
    hide Takes, Step;
    if w == [] {
      assert w + t == t;
    } else {
      SpacesSkipped(p, w[1..], t, q, o, hc);
      SpaceStep(p, hc);
      TakesQuiet(p, SP, p, w[1..] + t, q, o, hc);
      assert [SP] + (w[1..] + t) == w + t;
    }
  }

  lemma SpaceStep(p: Ps, hc: Settings)
    requires p.st.ResFirstStatus?
    ensures Step(p, SP, hc) == Going(p, [])
  {
    hide Pass;
    PassOf(p, SP, hc);
  }

  lemma LineAccepted(p: Ps, w: seq<Byte>, c: Cuts, e: Eol, hc: Settings)
    requires p.st.StartRes? && CR !in w && LF !in w && StatusAt(w, c.k, c.j, c.i, c.e)
    ensures Run(p, w + e.Text(), hc).Going?
  {
    hide Step, Takes, Dec, ReasonText;
    var (a, b, s, code) := (w[5..c.k], w[c.k + 1..c.j], w[c.j + 1..c.i], w[c.i..c.e]);
    var r := if c.e == |w| then None else Some(w[c.e + 1..]);
    var p1 := p.(flags := NO_FLAGS, length := MAX64, st := ResFirstMajor);
    var p2 := p1.(st := ResMajor, major := Dec(a));
    var p3 := p2.(st := ResFirstMinor);
    var p4 := p3.(st := ResMinor, minor := Dec(b));
    var p5 := p4.(st := ResFirstStatus);
    var p6 := p5.(st := ResStatusCode, status := Dec(code));
    var (t, o) := (ReasonText(r, e), Datas(Status, ReasonOf(r)));
    var z := p6.(st := HeaderFieldStart, index := if ReasonOf(r) == [] then p.index else 0);
    ReasonTaken(p6, r, e, hc);
    NumberRun(p5, code, hc);
    TakesAfter(p5, code, p6, t, z, o, hc);
    SpacesSkipped(p5, s, code + t, z, o, hc);
    NameByte(p4, SP, hc);
    TakesQuiet(p4, SP, p5, s + (code + t), z, o, hc);
    NumberRun(p3, b, hc);
    TakesAfter(p3, b, p4, [SP] + (s + (code + t)), z, o, hc);
    NameByte(p2, 46, hc);
    TakesQuiet(p2, 46, p3, b + ([SP] + (s + (code + t))), z, o, hc);
    NumberRun(p1, a, hc);
    TakesAfter(p1, a, p2, [46] + (b + ([SP] + (s + (code + t)))), z, o, hc);
    NameTaken(p, a + ([46] + (b + ([SP] + (s + (code + t))))), z, o, hc);
    LineSplit(w, c, e);
    TakesGoing(p, w + e.Text(), z, [Notify(MessageBegin)] + o, hc);
  }

  lemma TakesGoing(p: Ps, d: seq<Byte>, q: Ps, o: seq<Event>, hc: Settings)
    requires Takes(p, d, q, o, hc)
    ensures Run(p, d, hc).Going?
  {
  }

  lemma LineSplit(w: seq<Byte>, c: Cuts, e: Eol)
    requires StatusAt(w, c.k, c.j, c.i, c.e)
    ensures var (a, b, s, code) := (w[5..c.k], w[c.k + 1..c.j], w[c.j + 1..c.i], w[c.i..c.e]);
      var r := if c.e == |w| then None else Some(w[c.e + 1..]);
      w + e.Text() == HTTP + (a + ([46] + (b + ([SP] + (s + (code + ReasonText(r, e)))))))
  {
    hide IsNumber, Blank;
    Slices(w, c.k, c.j, c.i, c.e);
    Nest(HTTP, w[5..c.k], [46], w[c.k + 1..c.j], [SP], w[c.j + 1..c.i], w[c.i..c.e], w[c.e..], e.Text());
    ReasonSplit(w, c, e);
  }

  lemma ReasonSplit(w: seq<Byte>, c: Cuts, e: Eol)
    requires StatusAt(w, c.k, c.j, c.i, c.e)
    ensures w[c.e..] + e.Text() == ReasonText(if c.e == |w| then None else Some(w[c.e + 1..]), e)
  {
    hide IsNumber, Blank;
    if c.e < |w| {
      assert w[c.e..] == [SP] + w[c.e + 1..];
      Assoc([SP], w[c.e + 1..], e.Text());
    } else {
      assert w[c.e..] + e.Text() == e.Text();
    }
  }

  lemma Slices(w: seq<Byte>, k: nat, j: nat, i: nat, e: nat)
    requires 5 < k < j < i < e <= |w| && w[..5] == HTTP && w[k] == 46 && w[j] == SP
    ensures w == HTTP + (w[5..k] + ([46] + (w[k + 1..j] + ([SP] + (w[j + 1..i] + (w[i..e] + w[e..]))))))
  {
    FrontSlices(w, k, j);
    BackSlices(w, j, i, e);
    Join(w, w[5..k], w[k + 1..j], w[j..], w[j + 1..i] + (w[i..e] + w[e..]));
  }

  lemma Join(w: seq<Byte>, a: seq<Byte>, b: seq<Byte>, rest: seq<Byte>, t: seq<Byte>)
    requires w == HTTP + (a + ([46] + (b + rest))) && rest == [SP] + t
    ensures w == HTTP + (a + ([46] + (b + ([SP] + t))))
  {
  }

  lemma FrontSlices(w: seq<Byte>, k: nat, j: nat)
    requires 5 < k < j <= |w| && w[..5] == HTTP && w[k] == 46
    ensures w == HTTP + (w[5..k] + ([46] + (w[k + 1..j] + w[j..])))
  {
    Halves(w);
    Cut(w, 5, k);
    Cut(w, k, k + 1);
    Cut(w, k + 1, j);
    assert w[k..k + 1] == [46];
    Chained(w, HTTP, w[5..], w[5..k], w[k..], [46], w[k + 1..], w[k + 1..j], w[j..]);
  }

  lemma BackSlices(w: seq<Byte>, j: nat, i: nat, e: nat)
    requires j < i <= e <= |w| && w[j] == SP
    ensures w[j..] == [SP] + (w[j + 1..i] + (w[i..e] + w[e..]))
  {
    Cut(w, j, j + 1);
    Cut(w, j + 1, i);
    Cut(w, i, e);
    assert w[j..j + 1] == [SP];
    Chained(w[j..], [SP], w[j + 1..], w[j + 1..i], w[i..], w[i..e], w[e..], [], w[e..]);
  }

  lemma Halves(w: seq<Byte>)
    requires |w| >= 5
    ensures w == w[..5] + w[5..]
  {
  }

  lemma Chained(w: seq<Byte>, a: seq<Byte>, w1: seq<Byte>, b: seq<Byte>, w2: seq<Byte>, c: seq<Byte>, w3: seq<Byte>, d: seq<Byte>, w4: seq<Byte>)
    requires w == a + w1 && w1 == b + w2 && w2 == c + w3 && w3 == d + w4
    ensures w == a + (b + (c + (d + w4))) && (d == [] ==> w == a + (b + (c + w4)))
  {
    if d == [] { assert d + w4 == w4; }
  }

  lemma Nest(h: seq<Byte>, a: seq<Byte>, d: seq<Byte>, b: seq<Byte>, x: seq<Byte>, s: seq<Byte>, code: seq<Byte>, r: seq<Byte>, t: seq<Byte>)
    ensures (h + (a + (d + (b + (x + (s + (code + r))))))) + t == h + (a + (d + (b + (x + (s + (code + (r + t)))))))
  {
    Assoc(code, r, t);
    Assoc(s, code + r, t);
    Assoc(x, s + (code + r), t);
    Assoc(b, x + (s + (code + r)), t);
    Assoc(d, b + (x + (s + (code + r))), t);
    Assoc(a, d + (b + (x + (s + (code + r)))), t);
    Assoc(h, a + (d + (b + (x + (s + (code + r))))), t);
  }

  lemma Cut(w: seq<Byte>, i: nat, j: nat)
    requires i <= j <= |w|
    ensures w[i..] == w[i..j] + w[j..]
  {
  }

  lemma Assoc(x: seq<Byte>, y: seq<Byte>, z: seq<Byte>)
    ensures (x + y) + z == x + (y + z)
  {
  }

  /** A status line is taken exactly when it is one of these. */
  lemma StatusLineExactly(p: Ps, w: seq<Byte>, e: Eol, hc: Settings)
    requires p.st.StartRes? && w != [] && CR !in w && LF !in w
    ensures Run(p, w + e.Text(), hc).Going? <==> IsStatusLine(w)
  {
    hide Run, Step, StatusAt, Reading;
    if Run(p, w + e.Text(), hc).Going? {
      var ch := e.Text()[0];
      RunConcat(p, w + [ch], e.Text()[1..], hc);
      assert (w + [ch]) + e.Text()[1..] == w + e.Text();
      TakenBefore(p, w, ch, hc);
      var c := LineRead(p, w, hc);
      EndStep(Run(p, w, hc).ps, ch, hc);
      Complete(Run(p, w, hc).ps, w, c);
    }
    if k: nat, j: nat, i: nat, x: nat :| StatusAt(w, k, j, i, x) { LineAccepted(p, w, Cuts(k, j, i, x), e, hc); }
  }
}
