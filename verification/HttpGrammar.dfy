/** The language of request lines: exactly which methods, URLs and versions the parser takes. */
module HttpGrammar {
  import opened Lists
  import opened HttpMachine
  import opened HttpParser
  import opened HttpCuts
  import opened HttpChunked
  import opened HttpUrls
  import opened HttpMessages

  /* ---- Methods ---- */

  /** The characters read so far begin the name of the method the parser has in mind. */
  ghost predicate Naming(q: Ps, w: seq<Byte>) {
    && q.st.ReqMethod? && q.meth < 27 && q.index == |w| > 0 && |w| <= |MethodName(q.meth)|
    && forall j :: 0 <= j < |w| ==> MethodName(q.meth)[j] as int == w[j]
  }

  /** A correction of the guess never contradicts what was read before it. */
  lemma CharSound(m: nat, i: nat, ch: Byte)
    requires m < 27 && 0 < i <= |MethodName(m)| && MethodChar(m, i, ch).Some?
    ensures var k := MethodChar(m, i, ch).value;
      k < 27 && i < |MethodName(k)| && MethodName(k)[i] as int == ch && forall j :: 0 <= j < i ==> MethodName(k)[j] == MethodName(m)[j]
  {
    if i < |MethodName(m)| && MethodName(m)[i] as int == ch {
    } else if m == 5 || m == 10 {
      ManyGuesses(m, i, ch);
    } else {
      FewGuesses(m, i, ch);
    }
  }

  lemma ManyGuesses(m: nat, i: nat, ch: Byte)
    requires (m == 5 || m == 10) && 0 < i <= |MethodName(m)| && MethodChar(m, i, ch).Some?
    ensures var k := MethodChar(m, i, ch).value;
      k < 27 && i < |MethodName(k)| && MethodName(k)[i] as int == ch && forall j :: 0 <= j < i ==> MethodName(k)[j] == MethodName(m)[j]
  {
  }

  lemma FewGuesses(m: nat, i: nat, ch: Byte)
    requires m < 27 && m != 5 && m != 10 && 0 < i <= |MethodName(m)| && MethodChar(m, i, ch).Some?
    requires !(i < |MethodName(m)| && MethodName(m)[i] as int == ch)
    ensures var k := MethodChar(m, i, ch).value;
      k < 27 && i < |MethodName(k)| && MethodName(k)[i] as int == ch && forall j :: 0 <= j < i ==> MethodName(k)[j] == MethodName(m)[j]
  {
  }

  lemma FirstSound(ch: Byte)
    requires FirstMethod(ch).Some?
    ensures FirstMethod(ch).value < 27 && MethodName(FirstMethod(ch).value)[0] as int == ch
  {
  }

  /** A byte read in front of a taken input was taken. */
  lemma TakenBefore(p: Ps, d: seq<Byte>, ch: Byte, hc: Settings)
    requires Run(p, d + [ch], hc).Going?
    ensures Run(p, d, hc).Going? && Step(Run(p, d, hc).ps, ch, hc).Going?
    ensures Run(p, d + [ch], hc).ps == Step(Run(p, d, hc).ps, ch, hc).ps
  {
    hide Step;
    RunConcat(p, d, [ch], hc);
    RunOne(Run(p, d, hc).ps, ch, hc);
  }

  lemma MethodStep(q: Ps, ch: Byte, hc: Settings)
    requires q.st.ReqMethod? && Step(q, ch, hc).Going?
    ensures if ch == SP && q.index == |MethodName(q.meth)| then Step(q, ch, hc).ps == q.(index := q.index + 1, st := ReqSpaces)
      else MethodChar(q.meth, q.index, ch).Some? && Step(q, ch, hc).ps == q.(meth := MethodChar(q.meth, q.index, ch).value, index := q.index + 1)
  {
    hide Pass, MethodChar, MethodName;
    PassOf(q, ch, hc);
  }

  lemma StartStep(p: Ps, ch: Byte, hc: Settings)
    requires p.st.StartReq? && ch != CR && ch != LF && Step(p, ch, hc).Going?
    ensures FirstMethod(ch).Some?
    ensures Step(p, ch, hc).ps == p.(flags := NO_FLAGS, length := MAX64, meth := FirstMethod(ch).value, index := 1, st := ReqMethod)
  {
    hide Pass;
    PassOf(p, ch, hc);
  }

  /** Up to the space the parser only takes beginnings of method names. */
  lemma {:induction false} MethodRead(p: Ps, w: seq<Byte>, hc: Settings)
    requires p.st.StartReq? && w != [] && w[0] != CR && w[0] != LF && SP !in w && Run(p, w, hc).Going?
    ensures Naming(Run(p, w, hc).ps, w)
    decreases |w|
  {
    hide Run, Step, MethodName, MethodChar, FirstMethod;
    var (d, ch) := (w[..|w| - 1], w[|w| - 1]);
    assert w == d + [ch];
    TakenBefore(p, d, ch, hc);
    if d == [] {
      RunEmpty(p, hc);
      StartStep(p, ch, hc);
      FirstSound(ch);
    } else {
      MethodRead(p, d, hc);
      var q := Run(p, d, hc).ps;
      MethodStep(q, ch, hc);
      CharSound(q.meth, q.index, ch);
    }
  }

  /** A method is taken exactly when it is one of the table. */
  lemma MethodExactly(p: Ps, w: seq<Byte>, hc: Settings)
    requires p.st.StartReq? && SP !in w && (w != [] ==> w[0] != CR && w[0] != LF)
    ensures Run(p, w + [SP], hc).Going? <==> exists m :: 0 <= m < 27 && w == Ascii(MethodName(m))
  {
    hide Run, Step, MethodName, MethodChar, FirstMethod;
    if Run(p, w + [SP], hc).Going? {
      TakenBefore(p, w, SP, hc);
      if w == [] {
        RunEmpty(p, hc);
        StartStep(p, SP, hc);
        NoSpaceFirst();
      } else {
        MethodRead(p, w, hc);
        var q := Run(p, w, hc).ps;
        MethodStep(q, SP, hc);
        if q.index == |MethodName(q.meth)| {
          assert w == Ascii(MethodName(q.meth));
        } else {
          CharSound(q.meth, q.index, SP);
        }
      }
    }
    if m :| 0 <= m < 27 && w == Ascii(MethodName(m)) { MethodTaken(p, m, hc); }
  }

  lemma NoSpaceFirst()
    ensures FirstMethod(SP).None?
  {
  }

  /* ---- URLs on the line ---- */

  lemma UrlStart(q: Ps, ch: Byte, hc: Settings)
    requires q.st.ReqSpaces? && ch != SP && Step(q, ch, hc).Going?
    ensures UrlChar(if q.meth == 5 then ReqServerStart else ReqSpaces, ch) != Dead
  {
    hide Pass, UrlChar;
    PassOf(q, ch, hc);
  }

  lemma UrlNext(q: Ps, ch: Byte, hc: Settings)
    requires InUrl(q.st) && Step(q, ch, hc).Going?
    ensures ((ch == SP || ch == CR || ch == LF) && Whole(q.st)) || UrlChar(q.st, ch) != Dead
  {
    hide Pass, UrlChar;
    PassOf(q, ch, hc);
  }

  lemma {:induction false} UrlRead(p: Ps, url: seq<Byte>, hc: Settings)
    requires p.st.ReqSpaces? && url != [] && SP !in url && CR !in url && LF !in url && Run(p, url, hc).Going?
    ensures UrlFold(if p.meth == 5 then ReqServerStart else ReqSpaces, url) != Dead
    decreases |url|
  {
    hide Run, Step, UrlChar, UrlFold, InUrl;
    var (d, ch, s0) := (url[..|url| - 1], url[|url| - 1], if p.meth == 5 then ReqServerStart else ReqSpaces);
    assert url == d + [ch];
    TakenBefore(p, d, ch, hc);
    FoldBack(s0, d, ch);
    if d == [] {
      RunEmpty(p, hc);
      FoldEmpty(s0);
      UrlStart(p, ch, hc);
    } else {
      UrlRead(p, d, hc);
      UrlRun(p, d, hc);
      UrlNext(p.(st := UrlFold(s0, d)), ch, hc);
    }
  }

  /** On the line, a URL and the space behind it are taken exactly when it is one of the grammar. */
  lemma UrlOnLine(p: Ps, url: seq<Byte>, hc: Settings)
    requires p.st.ReqSpaces? && url != [] && SP !in url && CR !in url && LF !in url
    ensures Run(p, url + [SP], hc).Going? <==> IsUrl(p.meth, url)
  {
    hide Run, Step, UrlChar, UrlFold, InUrl, IsUrl, Whole;
    var s0 := if p.meth == 5 then ReqServerStart else ReqSpaces;
    UrlExactly(p.meth, url);
    if Run(p, url + [SP], hc).Going? {
      TakenBefore(p, url, SP, hc);
      UrlRead(p, url, hc);
      UrlRun(p, url, hc);
      UrlNext(p.(st := UrlFold(s0, url)), SP, hc);
      UrlNoSpace(UrlFold(s0, url), SP);
    }
    if GoodUrl(p.meth, url) {
      GoodAlive(UrlFold(s0, url));
      UrlRun(p, url, hc);
      var q := p.(st := UrlFold(s0, url));
      SpaceByte(q, hc);
      TakesOne(q, SP, q.(st := ReqHttpStart), [], hc);
      TakesBoth(p, url, q, Datas(Url, url), [SP], q.(st := ReqHttpStart), [], hc);
    }
  }

  lemma GoodAlive(s: St)
    requires Whole(s)
    ensures s != Dead
  {
  }

  /** More spaces before a URL are skipped. */
  lemma {:induction false} SpacesBefore(p: Ps, w: seq<Byte>, hc: Settings)
    requires p.st.ReqSpaces? && forall i :: 0 <= i < |w| ==> w[i] == SP
    ensures Takes(p, w, p, [], hc)
    decreases |w|
  {
    hide Takes, Step;
    if w == [] {
      TakesEmpty(p, hc);
    } else {
      SpacesBefore(p, w[1..], hc);
      SpaceBeforeByte(p, hc);
      TakesQuiet(p, SP, p, w[1..], p, [], hc);
      assert [SP] + w[1..] == w;
    }
  }

  lemma SpaceBeforeByte(p: Ps, hc: Settings)
    requires p.st.ReqSpaces?
    ensures Step(p, SP, hc) == Going(p, [])
  {
    hide Pass, UrlChar;
    PassOf(p, SP, hc);
  }

  /* ---- Versions ---- */

  const HTTP: seq<Byte> := [72, 84, 84, 80, 47]

  predicate Blank(t: seq<Byte>) { forall i :: 0 <= i < |t| ==> t[i] == SP }

  /** "HTTP/", a number that does not begin with 0, a dot at k, and another number; each up to 999. */
  predicate VersionAt(w: seq<Byte>, k: nat) {
    5 < k < |w| && w[..5] == HTTP && IsNumber(w[5..k]) && w[5] != 48 && w[k] == 46 && IsNumber(w[k + 1..])
  }

  /** n spaces and a version. */
  ghost predicate IsVersion(v: seq<Byte>) { exists n: nat, k: nat :: n <= |v| && Blank(v[..n]) && VersionAt(v[n..], k) }

  predicate OfVersion(s: St) {
    || s.ReqHttpStart? || s.ReqHttpH? || s.ReqHttpHT? || s.ReqHttpHTT? || s.ReqHttpHTTP? || s.ReqFirstMajor? || s.ReqMajor?
    || s.ReqFirstMinor? || s.ReqMinor?
  }

  /** What the parser knows after w, the part behind the spaces; k is where the dot is. */
  predicate Knowing(q: Ps, w: seq<Byte>, k: nat) {
    match q.st
    case ReqHttpStart => w == []
    case ReqHttpH => w == HTTP[..1]
    case ReqHttpHT => w == HTTP[..2]
    case ReqHttpHTT => w == HTTP[..3]
    case ReqHttpHTTP => w == HTTP[..4]
    case ReqFirstMajor => w == HTTP
    case ReqMajor => |w| > 5 && w[..5] == HTTP && IsNumber(w[5..]) && w[5] != 48 && q.major == Dec(w[5..])
    case ReqFirstMinor => 5 < k && |w| == k + 1 && w[..5] == HTTP && IsNumber(w[5..k]) && w[5] != 48 && w[k] == 46
    case ReqMinor => VersionAt(w, k) && q.minor == Dec(w[k + 1..])
    case _ => false
  }

  /** The letters of "HTTP/", and the spaces before them. */
  predicate Letters(q: Ps, ch: Byte, z: Ps) {
    || (q.st.ReqHttpStart? && ch == SP && z == q) || (q.st.ReqHttpStart? && ch == 72 && z == q.(st := ReqHttpH))
    || (q.st.ReqHttpH? && ch == 84 && z == q.(st := ReqHttpHT)) || (q.st.ReqHttpHT? && ch == 84 && z == q.(st := ReqHttpHTT))
    || (q.st.ReqHttpHTT? && ch == 80 && z == q.(st := ReqHttpHTTP)) || (q.st.ReqHttpHTTP? && ch == 47 && z == q.(st := ReqFirstMajor))
  }

  /** The digits and the dot. */
  predicate Digits(q: Ps, ch: Byte, z: Ps) {
    || (q.st.ReqMajor? && ch == 46 && z == q.(st := ReqFirstMinor))
    || (IsNum(ch) && (
         || (q.st.ReqFirstMajor? && ch != 48 && z == q.(st := ReqMajor, major := ch - 48))
         || (q.st.ReqMajor? && q.major * 10 + (ch - 48) <= 999 && z == q.(major := q.major * 10 + (ch - 48)))
         || (q.st.ReqFirstMinor? && z == q.(st := ReqMinor, minor := ch - 48))
         || (q.st.ReqMinor? && q.minor * 10 + (ch - 48) <= 999 && z == q.(minor := q.minor * 10 + (ch - 48)))))
  }

  /** Which bytes the states of a version take, and what they do. */
  lemma VersionStep(q: Ps, ch: Byte, hc: Settings)
    requires OfVersion(q.st) && ch != CR && ch != LF && Step(q, ch, hc).Going?
    ensures Letters(q, ch, Step(q, ch, hc).ps) || Digits(q, ch, Step(q, ch, hc).ps)
  {
    hide Pass, MethodChar, FirstMethod, MethodName, Step;
    PassOf(q, ch, hc);
    StepPass(q, ch, hc);
  }

  lemma StepPass(q: Ps, ch: Byte, hc: Settings)
    requires Step(q, ch, hc).Going?
    ensures Pass(q, ch, hc).next == Advance || Pass(q, ch, hc).next == Again
    ensures Pass(q, ch, hc).next == Advance ==> Step(q, ch, hc).ps == Pass(q, ch, hc).ps
  {
    hide Pass;
  }

  lemma NumberMore(d: seq<Byte>, ch: Byte)
    requires IsNum(ch)
    ensures d == [] ==> IsNumber([ch]) && Dec([ch]) == ch - 48
    ensures IsNumber(d) && Dec(d) * 10 + (ch - 48) <= 999 ==> IsNumber(d + [ch]) && Dec(d + [ch]) == Dec(d) * 10 + (ch - 48)
  {
    assert [ch][..0] == [] && Dec([ch][..0]) == 0;
    assert (d + [ch])[..|d|] == d;
  }

  lemma LettersMore(q: Ps, w: seq<Byte>, k: nat, ch: Byte, z: Ps)
    requires Knowing(q, w, k) && Letters(q, ch, z) && !(q.st.ReqHttpStart? && ch == SP)
    ensures OfVersion(z.st) && Knowing(z, w + [ch], k)
  {
    hide IsNumber, Dec;
  }

  lemma DigitsMore(q: Ps, w: seq<Byte>, k: nat, ch: Byte, z: Ps) returns (k': nat)
    requires Knowing(q, w, k) && Digits(q, ch, z)
    ensures OfVersion(z.st) && Knowing(z, w + [ch], k')
  {
    hide IsNumber, Dec;
    var v := w + [ch];
    assert v[..5] == w[..5];
    if ch == 46 {
      assert v[5..|w|] == w[5..];
      return |w|;
    }
    k' := k;
    if q.st.ReqFirstMajor? {
      NumberMore([], ch);
      assert v[5..] == [ch];
    } else if q.st.ReqMajor? {
      NumberMore(w[5..], ch);
      assert v[5..] == w[5..] + [ch];
    } else if q.st.ReqFirstMinor? {
      NumberMore([], ch);
      assert v[k + 1..] == [ch] && v[5..k] == w[5..k];
    } else {
      NumberMore(w[k + 1..], ch);
      assert v[k + 1..] == w[k + 1..] + [ch] && v[5..k] == w[5..k];
    }
  }

  lemma {:induction false} VersionRead(p: Ps, v: seq<Byte>, hc: Settings) returns (n: nat, k: nat)
    requires p.st.ReqHttpStart? && CR !in v && LF !in v && Run(p, v, hc).Going?
    ensures n <= |v| && Blank(v[..n]) && OfVersion(Run(p, v, hc).ps.st) && Knowing(Run(p, v, hc).ps, v[n..], k)
    decreases |v|
  {
    hide Run, Step, Knowing;
    if v == [] {
      RunEmpty(p, hc);
      StartKnowing(p);
      return 0, 0;
    }
    var (d, ch) := (v[..|v| - 1], v[|v| - 1]);
    assert v == d + [ch];
    TakenBefore(p, d, ch, hc);
    n, k := VersionRead(p, d, hc);
    var q := Run(p, d, hc).ps;
    VersionStep(q, ch, hc);
    if q.st.ReqHttpStart? && ch == SP {
      SpacesOnly(q, d[n..], k);
      assert d[..n] == d && v[..|v|] == v && v[|v|..] == [];
      StartKnowing(q);
      n := |v|;
    } else {
      assert v[..n] == d[..n] && v[n..] == d[n..] + [ch];
      if Letters(q, ch, Run(p, v, hc).ps) {
        LettersMore(q, d[n..], k, ch, Run(p, v, hc).ps);
      } else {
        k := DigitsMore(q, d[n..], k, ch, Run(p, v, hc).ps);
      }
    }
  }

  lemma StartKnowing(p: Ps)
    requires p.st.ReqHttpStart?
    ensures forall k: nat :: Knowing(p, [], k)
  {
  }

  lemma SpacesOnly(q: Ps, w: seq<Byte>, k: nat)
    requires q.st.ReqHttpStart? && Knowing(q, w, k)
    ensures w == []
  {
  }

  lemma VersionNeeded(p: Ps, v: seq<Byte>, e: Eol, hc: Settings)
    requires p.st.ReqHttpStart? && CR !in v && LF !in v && Run(p, v + e.Text(), hc).Going?
    ensures IsVersion(v)
  {
    hide Run, Step, VersionAt;
    var ch := e.Text()[0];
    RunConcat(p, v + [ch], e.Text()[1..], hc);
    assert (v + [ch]) + e.Text()[1..] == v + e.Text();
    TakenBefore(p, v, ch, hc);
    var n, k := VersionRead(p, v, hc);
    LineEndStep(Run(p, v, hc).ps, ch, hc);
    assert VersionAt(v[n..], k);
  }

  lemma VersionEnough(p: Ps, v: seq<Byte>, n: nat, k: nat, e: Eol, hc: Settings)
    requires p.st.ReqHttpStart? && n <= |v| && Blank(v[..n]) && VersionAt(v[n..], k)
    ensures Run(p, v + e.Text(), hc).Going?
  {
    hide Run, Step, VersionAt, Blank;
    BlankTaken(p, v[..n], hc);
    VersionTextGoes(p, v[n..], k, e, hc);
    RunConcat(p, v[..n], v[n..] + e.Text(), hc);
    assert v[..n] + (v[n..] + e.Text()) == v + e.Text();
  }

  lemma VersionTextGoes(p: Ps, w: seq<Byte>, k: nat, e: Eol, hc: Settings)
    requires p.st.ReqHttpStart? && VersionAt(w, k)
    ensures Run(p, w + e.Text(), hc).Going?
  {
    VersionTextTaken(p, w, k, e, hc);
  }

  /** The rest of the request line is taken exactly when it is a version behind any number of spaces. */
  lemma VersionExactly(p: Ps, v: seq<Byte>, e: Eol, hc: Settings)
    requires p.st.ReqHttpStart? && CR !in v && LF !in v
    ensures Run(p, v + e.Text(), hc).Going? <==> IsVersion(v)
  {
    hide Run, VersionAt, Blank;
    if Run(p, v + e.Text(), hc).Going? { VersionNeeded(p, v, e, hc); }
    if n: nat, k: nat :| n <= |v| && Blank(v[..n]) && VersionAt(v[n..], k) { VersionEnough(p, v, n, k, e, hc); }
  }

  /** A line may only end behind the second number. */
  lemma LineEndStep(q: Ps, ch: Byte, hc: Settings)
    requires OfVersion(q.st) && (ch == CR || ch == LF) && Step(q, ch, hc).Going?
    ensures q.st.ReqMinor?
  {
    hide Pass, MethodChar, FirstMethod, MethodName, Digit;
    PassOf(q, ch, hc);
    DigitsOnly(q.major, ch);
  }

  lemma DigitsOnly(n: nat, ch: Byte)
    ensures Digit(n, ch).Some? ==> IsNum(ch)
  {
  }

  lemma {:induction false} BlankTaken(p: Ps, w: seq<Byte>, hc: Settings)
    requires p.st.ReqHttpStart? && Blank(w)
    ensures Takes(p, w, p, [], hc)
    decreases |w|
  {
    hide Takes, Step;
    if w == [] {
      TakesEmpty(p, hc);
    } else {
      BlankTaken(p, w[1..], hc);
      BlankByte(p, hc);
      TakesQuiet(p, SP, p, w[1..], p, [], hc);
      assert [SP] + w[1..] == w;
    }
  }

  lemma TakesEmpty(p: Ps, hc: Settings)
    ensures Takes(p, [], p, [], hc)
  {
    RunEmpty(p, hc);
  }

  lemma BlankByte(p: Ps, hc: Settings)
    requires p.st.ReqHttpStart?
    ensures Step(p, SP, hc) == Going(p, [])
  {
    hide Pass;
    PassOf(p, SP, hc);
  }

  /** The version as it follows a space of the URL. */
  lemma VersionTextTaken(p: Ps, w: seq<Byte>, k: nat, e: Eol, hc: Settings)
    requires p.st.ReqHttpStart? && VersionAt(w, k)
    ensures Takes(p, w + e.Text(), p.(st := HeaderFieldStart, major := Dec(w[5..k]), minor := Dec(w[k + 1..])), [], hc)
  {
    hide Step, Takes, Dec;
    var (a, b, t) := (w[5..k], w[k + 1..], p.(st := ReqPath));
    VersionTaken(t, a, b, e, hc);
    assert w == HTTP + (a + ([46] + b)) by { assert w[..5] == HTTP; }
    assert [SP] + (w + e.Text()) == VersionText(a, b, e);
    AfterSpace(t, p, w + e.Text(), p.(st := HeaderFieldStart, major := Dec(a), minor := Dec(b)), hc);
  }

  lemma AfterSpace(t: Ps, p: Ps, rest: seq<Byte>, z: Ps, hc: Settings)
    requires Whole(t.st) && p == t.(st := ReqHttpStart) && Takes(t, [SP] + rest, z, [], hc)
    ensures Takes(p, rest, z, [], hc)
  {
    hide Step;
    SpaceByte(t, hc);
    RunOne(t, SP, hc);
    RunConcat(t, [SP], rest, hc);
  }

  /* ---- The request line ---- */

  lemma SpaceAfterUrl(p: Ps, url: seq<Byte>, hc: Settings)
    requires p.st.ReqSpaces? && GoodUrl(p.meth, url)
    ensures Takes(p, url + [SP], p.(st := ReqHttpStart), Datas(Url, url), hc)
  {
    hide Run, Step, UrlChar, UrlFold, InUrl, Whole;
    var q := p.(st := UrlFold(if p.meth == 5 then ReqServerStart else ReqSpaces, url));
    GoodAlive(q.st);
    UrlRun(p, url, hc);
    SpaceByte(q, hc);
    TakesOne(q, SP, q.(st := ReqHttpStart), [], hc);
    TakesBoth(p, url, q, Datas(Url, url), [SP], q.(st := ReqHttpStart), [], hc);
    assert Datas(Url, url) + [] == Datas(Url, url);
  }

  /** A request line of three words is taken exactly when the first is a method of the table, the second a URL
      for it and the third a version. */
  lemma RequestLineExactly(p: Ps, w: seq<Byte>, url: seq<Byte>, v: seq<Byte>, e: Eol, hc: Settings)
    requires p.st.StartReq? && SP !in w && (w != [] ==> w[0] != CR && w[0] != LF)
    requires url != [] && SP !in url && CR !in url && LF !in url && CR !in v && LF !in v
    ensures Run(p, (w + [SP]) + ((url + [SP]) + (v + e.Text())), hc).Going? <==>
      exists m :: 0 <= m < 27 && w == Ascii(MethodName(m)) && IsUrl(m, url) && IsVersion(v)
  {
    hide Run, Step, MethodName, IsUrl, IsVersion, GoodUrl;
    var (x, y, z) := (w + [SP], url + [SP], v + e.Text());
    RunConcat(p, x, y + z, hc);
    MethodExactly(p, w, hc);
    if m :| 0 <= m < 27 && w == Ascii(MethodName(m)) {
      LineFrom(p, m, url, v, e, hc);
    }
    if m :| 0 <= m < 27 && w == Ascii(MethodName(m)) && IsUrl(m, url) && IsVersion(v) {
      LineFrom(p, m, url, v, e, hc);
    }
  }

  lemma LineFrom(p: Ps, m: nat, url: seq<Byte>, v: seq<Byte>, e: Eol, hc: Settings)
    requires p.st.StartReq? && m < 27 && url != [] && SP !in url && CR !in url && LF !in url && CR !in v && LF !in v
    ensures Run(p, (Ascii(MethodName(m)) + [SP]) + ((url + [SP]) + (v + e.Text())), hc).Going? <==> IsUrl(m, url) && IsVersion(v)
  {
    hide Run, Step, MethodName, IsUrl, IsVersion, GoodUrl;
    var (q, y, z) := (AfterMethod(p, m), url + [SP], v + e.Text());
    MethodTaken(p, m, hc);
    RunTwo(p, Ascii(MethodName(m)) + [SP], y + z, hc, q, [Notify(MessageBegin)]);
    RunConcat(q, y, z, hc);
    UrlOnLine(q, url, hc);
    UrlExactly(m, url);
    if IsUrl(m, url) {
      SpaceAfterUrl(q, url, hc);
      VersionExactly(q.(st := ReqHttpStart), v, e, hc);
    }
  }
}
