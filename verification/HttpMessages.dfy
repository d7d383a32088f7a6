/** Whole messages: what the parser makes of a request or status line and of header lines. */
module HttpMessages {
  import opened Lists
  import opened HttpMachine
  import opened HttpParser
  import opened HttpCuts
  import opened HttpChunked
  import opened HttpUrls

  function Ascii(s: string): (b: seq<Byte>)
    requires forall i :: 0 <= i < |s| ==> (s[i] as int) < 128
    ensures |b| == |s| && forall i :: 0 <= i < |s| ==> b[i] == s[i] as int
  {
    seq(|s|, i requires 0 <= i < |s| => s[i] as int)
  }

  /** The bytes take p to q and are events o, without an error. */
  ghost predicate Takes(p: Ps, data: seq<Byte>, q: Ps, o: seq<Event>, hc: Settings) {
    Run(p, data, hc) == Going(q, o)
  }

  lemma TakesOne(p: Ps, ch: Byte, q: Ps, o: seq<Event>, hc: Settings)
    requires Step(p, ch, hc) == Going(q, o)
    ensures Takes(p, [ch], q, o, hc)
  {
    hide Run, Step;
    RunOne(p, ch, hc);
  }

  lemma TakesBoth(p: Ps, a: seq<Byte>, q: Ps, o: seq<Event>, b: seq<Byte>, r: Ps, o2: seq<Event>, hc: Settings)
    requires Takes(p, a, q, o, hc) && Takes(q, b, r, o2, hc)
    ensures Takes(p, a + b, r, o + o2, hc)
  {
    hide Run;
    RunTwo(p, a, b, hc, q, o);
  }

  /** One more byte in front. */
  lemma TakesFirst(p: Ps, ch: Byte, q: Ps, o: seq<Event>, b: seq<Byte>, r: Ps, o2: seq<Event>, hc: Settings)
    requires Step(p, ch, hc) == Going(q, o) && Takes(q, b, r, o2, hc)
    ensures Takes(p, [ch] + b, r, o + o2, hc)
  {
    hide Run, Step;
    TakesOne(p, ch, q, o, hc);
    TakesBoth(p, [ch], q, o, b, r, o2, hc);
  }

  /** A byte without an event in front. */
  lemma TakesQuiet(p: Ps, ch: Byte, q: Ps, b: seq<Byte>, r: Ps, o: seq<Event>, hc: Settings)
    requires Step(p, ch, hc) == Going(q, []) && Takes(q, b, r, o, hc)
    ensures Takes(p, [ch] + b, r, o, hc)
  {
    hide Run, Step;
    TakesFirst(p, ch, q, [], b, r, o, hc);
    assert [] + o == o;
  }

  /** Bytes without an event in front. */
  lemma TakesAfter(p: Ps, a: seq<Byte>, q: Ps, b: seq<Byte>, r: Ps, o: seq<Event>, hc: Settings)
    requires Takes(p, a, q, [], hc) && Takes(q, b, r, o, hc)
    ensures Takes(p, a + b, r, o, hc)
  {
    hide Run;
    TakesBoth(p, a, q, [], b, r, o, hc);
    assert [] + o == o;
  }

  /** A pass that only moves to a state that is not data. */
  lemma QuietPass(p: Ps, ch: Byte, hc: Settings)
    requires var a := Pass(p, ch, hc); a.next == Advance && a.note.None? && KindOf(a.ps.st).None? && !InBody(p.st)
    ensures Step(p, ch, hc) == Going(Pass(p, ch, hc).ps, [])
  {
    hide Pass;
  }

  /* ---- The request line ---- */

  /** Following a method name from index i on, from the first guess m. */
  function Follow(name: string, i: nat, m: nat): Option<nat>
    requires i <= |name| && forall j :: 0 <= j < |name| ==> (name[j] as int) < 128
    decreases |name| - i
  {
    if i == |name| then Some(m)
    else match MethodChar(m, i, name[i] as int) case None => None case Some(m') => Follow(name, i + 1, m')
  }

  /** The guesses by the first letter and their corrections reach every method of the table. */
  predicate Reached(m: nat) {
    var f := FirstMethod(MethodName(m)[0] as int);
    f.Some? && Follow(MethodName(m), 1, f.value) == Some(m)
  }

  /** Once the guess is right it stays. */
  lemma {:induction false} FollowSelf(m: nat, i: nat)
    requires 0 < i <= |MethodName(m)|
    ensures Follow(MethodName(m), i, m) == Some(m)
    decreases |MethodName(m)| - i
  {
    hide MethodName;
    if i < |MethodName(m)| { FollowSelf(m, i + 1); }
  }

  /** The guess g is corrected to m at index i. */
  lemma Corrected(m: nat, g: nat, i: nat)
    requires 0 < i < |MethodName(m)| && MethodChar(g, i, MethodName(m)[i] as int) == Some(m)
    ensures Follow(MethodName(m), i, g) == Some(m)
  {
    hide MethodName, MethodChar;
    FollowSelf(m, i + 1);
  }

  lemma DirectMethods(m: nat)
    requires m in {0, 1, 2, 3, 5, 6, 7, 9, 10, 15, 16, 21, 22}
    ensures Reached(m)
  {
    FollowSelf(m, 1);
    hide Follow;
  }

  lemma SecondLetter(m: nat)
    requires m in {4, 11, 12, 14, 18, 19, 20, 24}
    ensures Reached(m)
  {
    Corrected(m, FirstMethod(MethodName(m)[0] as int).value, 1);
    hide Follow;
  }

  lemma ThirdLetter(m: nat)
    requires m in {8, 17, 23, 25}
    ensures Reached(m)
  {
    var f := FirstMethod(MethodName(m)[0] as int).value;
    var g := MethodChar(f, 1, MethodName(m)[1] as int).value;
    Corrected(m, g, 2);
  }

  lemma Proppatch()
    ensures Reached(13)
  {
    Corrected(13, 12, 4);
    assert Follow(MethodName(13), 3, 12) == Some(13);
    assert Follow(MethodName(13), 2, 12) == Some(13);
  }

  lemma Mkcalendar()
    ensures Reached(26)
  {
    Corrected(26, 10, 3);
    assert Follow(MethodName(26), 2, 10) == Some(26);
  }

  lemma AllReached(m: nat)
    requires m < 27
    ensures Reached(m)
  {
    hide Reached;
    if m in {0, 1, 2, 3, 5, 6, 7, 9, 10, 15, 16, 21, 22} { DirectMethods(m); }
    else if m in {4, 11, 12, 14, 18, 19, 20, 24} { SecondLetter(m); }
    else if m in {8, 17, 23, 25} { ThirdLetter(m); }
    else if m == 13 { Proppatch(); }
    else { Mkcalendar(); }
  }

  lemma MethodByte(p: Ps, ch: Byte, hc: Settings)
    requires p.st.ReqMethod?
    ensures MethodChar(p.meth, p.index, ch).Some? && ch != SP ==>
      Step(p, ch, hc) == Going(p.(meth := MethodChar(p.meth, p.index, ch).value, index := p.index + 1), [])
    ensures p.index == |MethodName(p.meth)| ==> Step(p, SP, hc) == Going(p.(index := p.index + 1, st := ReqSpaces), [])
  {
    hide Pass, MethodChar, MethodName;
    PassOf(p, ch, hc);
    PassOf(p, SP, hc);
  }

  lemma {:induction false} MethodRun(p: Ps, name: string, i: nat, m: nat, hc: Settings)
    requires p.st.ReqMethod? && i <= |name| && p.index == i && (forall j :: 0 <= j < |name| ==> 32 < name[j] as int < 128)
    requires Follow(name, i, p.meth) == Some(m)
    ensures Takes(p, Ascii(name)[i..], p.(meth := m, index := |name|), [], hc)
    decreases |name| - i
  {
    hide Step, Run, MethodChar;
    if i < |name| {
      var ch := name[i] as int;
      var q := p.(meth := MethodChar(p.meth, i, ch).value, index := i + 1);
      MethodByte(p, ch, hc);
      MethodRun(q, name, i + 1, m, hc);
      TakesFirst(p, ch, q, [], Ascii(name)[i + 1..], p.(meth := m, index := |name|), [], hc);
      assert [ch] + Ascii(name)[i + 1..] == Ascii(name)[i..];
    } else {
      assert Ascii(name)[i..] == [];
      RunEmpty(p, hc);
    }
  }

  lemma FirstByte(p: Ps, ch: Byte, hc: Settings)
    requires p.st.StartReq? && FirstMethod(ch).Some?
    ensures Step(p, ch, hc) ==
      Going(p.(flags := NO_FLAGS, length := MAX64, meth := FirstMethod(ch).value, index := 1, st := ReqMethod), [Notify(MessageBegin)])
  {
    hide Pass;
    PassOf(p, ch, hc);
  }

  /** The parser after the method and the space behind it. */
  function AfterMethod(p: Ps, m: nat): Ps {
    p.(flags := NO_FLAGS, length := MAX64, meth := m, index := |MethodName(m)| + 1, st := ReqSpaces)
  }

  lemma MethodTaken(p: Ps, m: nat, hc: Settings)
    requires p.st.StartReq? && m < 27
    ensures Takes(p, Ascii(MethodName(m)) + [SP], AfterMethod(p, m), [Notify(MessageBegin)], hc)
  {
    hide Step, Run, MethodChar, FirstMethod;
    var name := MethodName(m);
    hide MethodName;
    AllReached(m);
    var ch := name[0] as int;
    var q := p.(flags := NO_FLAGS, length := MAX64, meth := FirstMethod(ch).value, index := 1, st := ReqMethod);
    var r := q.(meth := m, index := |name|);
    FirstByte(p, ch, hc);
    MethodRun(q, name, 1, m, hc);
    TakesFirst(p, ch, q, [Notify(MessageBegin)], Ascii(name)[1..], r, [], hc);
    assert [ch] + Ascii(name)[1..] == Ascii(name);
    MethodByte(r, SP, hc);
    TakesOne(r, SP, AfterMethod(p, m), [], hc);
    TakesBoth(p, Ascii(name), r, [Notify(MessageBegin)] + [], [SP], AfterMethod(p, m), [], hc);
  }

  lemma UrlFirst(p: Ps, ch: Byte, hc: Settings)
    requires p.st.ReqSpaces? && ch != SP && UrlChar(if p.meth == 5 then ReqServerStart else ReqSpaces, ch) != Dead
    ensures Step(p, ch, hc) == Going(p.(st := UrlChar(if p.meth == 5 then ReqServerStart else ReqSpaces, ch)), [Data(Url, ch)])
  {
    hide Pass, UrlChar;
    PassOf(p, ch, hc);
    UrlCharIn(if p.meth == 5 then ReqServerStart else ReqSpaces, ch);
  }

  lemma UrlByte(p: Ps, ch: Byte, hc: Settings)
    requires InUrl(p.st) && UrlChar(p.st, ch) != Dead
    ensures Step(p, ch, hc) == Going(p.(st := UrlChar(p.st, ch)), [Data(Url, ch)])
  {
    hide Pass, UrlChar;
    PassOf(p, ch, hc);
    UrlNoSpace(p.st, ch);
    UrlCharIn(p.st, ch);
  }

  lemma UrlNoSpace(s: St, ch: Byte)
    ensures UrlChar(s, ch) != Dead ==> ch != SP && ch != CR && ch != LF
  {
  }

  lemma {:induction false} UrlRun(p: Ps, url: seq<Byte>, hc: Settings)
    requires p.st.ReqSpaces? && url != [] && url[0] != SP
    requires UrlFold(if p.meth == 5 then ReqServerStart else ReqSpaces, url) != Dead
    ensures var s := UrlFold(if p.meth == 5 then ReqServerStart else ReqSpaces, url);
      InUrl(s) && Takes(p, url, p.(st := s), Datas(Url, url), hc)
    decreases |url|
  {
    hide Step, Run, UrlChar, InUrl;
    var (d, ch, s0) := (url[..|url| - 1], url[|url| - 1], if p.meth == 5 then ReqServerStart else ReqSpaces);
    assert url == d + [ch] && Datas(Url, url) == Datas(Url, d) + [Data(Url, ch)];
    UrlCharIn(UrlFold(s0, d), ch);
    if d == [] {
      UrlFirst(p, ch, hc);
      TakesOne(p, ch, p.(st := UrlFold(s0, url)), [Data(Url, ch)], hc);
      assert url == [ch] && Datas(Url, d) == [];
    } else {
      UrlRun(p, d, hc);
      var q := p.(st := UrlFold(s0, d));
      UrlByte(q, ch, hc);
      TakesOne(q, ch, p.(st := UrlFold(s0, url)), [Data(Url, ch)], hc);
      TakesBoth(p, d, q, Datas(Url, d), [ch], p.(st := UrlFold(s0, url)), [Data(Url, ch)], hc);
    }
  }

  lemma UrlCharIn(s: St, ch: Byte)
    ensures UrlChar(s, ch) != Dead ==> InUrl(UrlChar(s, ch))
  {
  }

  /** Decimal value. */
  function Dec(d: seq<Byte>): nat
    requires forall i :: 0 <= i < |d| ==> IsNum(d[i])
  {
    if d == [] then 0
    else
      assert IsNum(d[|d| - 1]);
      Dec(d[..|d| - 1]) * 10 + (d[|d| - 1] as int - 48)
  }

  /** A number of a version or a status code: the parser takes up to 999. */
  predicate IsNumber(d: seq<Byte>) { d != [] && (forall i :: 0 <= i < |d| ==> IsNum(d[i])) && Dec(d) <= 999 }

  lemma NumberPrefix(d: seq<Byte>)
    requires IsNumber(d) && |d| > 1
    ensures var e := d[..|d| - 1]; IsNumber(e) && IsNum(d[|d| - 1]) && Dec(d) == Dec(e) * 10 + (d[|d| - 1] - 48)
  {
  }

  lemma OneDigit(d: seq<Byte>)
    requires IsNumber(d) && |d| == 1
    ensures IsNum(d[0]) && Dec(d) == d[0] - 48 && d == [d[0]]
  {
    assert d[..0] == [] && Dec(d[..0]) == 0;
  }

  /** A line ends in CR LF or in LF alone. */
  datatype Eol = CrLf | OnlyLf {
    function Text(): seq<Byte> { if CrLf? then [CR, LF] else [LF] }
  }

  /** " HTTP/a.b" and the line end. */
  function VersionText(a: seq<Byte>, b: seq<Byte>, e: Eol): seq<Byte> {
    [SP, 72, 84, 84, 80, 47] + (a + ([46] + (b + e.Text())))
  }

  lemma SpaceByte(p: Ps, hc: Settings)
    requires Whole(p.st)
    ensures Step(p, SP, hc) == Going(p.(st := ReqHttpStart), [])
  {
    hide Pass, UrlChar;
    PassOf(p, SP, hc);
  }

  lemma VersionByte(p: Ps, ch: Byte, hc: Settings)
    requires OfRequest(p.st)
    ensures p.st.ReqHttpStart? && ch == 72 ==> Step(p, ch, hc) == Going(p.(st := ReqHttpH), [])
    ensures p.st.ReqHttpH? && ch == 84 ==> Step(p, ch, hc) == Going(p.(st := ReqHttpHT), [])
    ensures p.st.ReqHttpHT? && ch == 84 ==> Step(p, ch, hc) == Going(p.(st := ReqHttpHTT), [])
    ensures p.st.ReqHttpHTT? && ch == 80 ==> Step(p, ch, hc) == Going(p.(st := ReqHttpHTTP), [])
    ensures p.st.ReqHttpHTTP? && ch == 47 ==> Step(p, ch, hc) == Going(p.(st := ReqFirstMajor), [])
  {
    hide Pass, Digit, MethodChar, FirstMethod, Step;
    PassOf(p, ch, hc);
    var a := Pass(p, ch, hc);
    if a.next == Advance && a.note.None? && KindOf(a.ps.st).None? { QuietPass(p, ch, hc); }
  }

  lemma NumberByte(p: Ps, ch: Byte, hc: Settings)
    requires OfRequest(p.st)
    ensures p.st.ReqFirstMajor? && 49 <= ch <= 57 ==> Step(p, ch, hc) == Going(p.(st := ReqMajor, major := ch - 48), [])
    ensures p.st.ReqMajor? && ch == 46 ==> Step(p, ch, hc) == Going(p.(st := ReqFirstMinor), [])
    ensures p.st.ReqFirstMinor? && IsNum(ch) ==> Step(p, ch, hc) == Going(p.(st := ReqMinor, minor := ch - 48), [])
    ensures p.st.ReqMinor? && ch == CR ==> Step(p, ch, hc) == Going(p.(st := ReqLineAlmostDone), [])
    ensures p.st.ReqMinor? && ch == LF ==> Step(p, ch, hc) == Going(p.(st := HeaderFieldStart), [])
    ensures p.st.ReqLineAlmostDone? && ch == LF ==> Step(p, ch, hc) == Going(p.(st := HeaderFieldStart), [])
  {
    hide Pass, Digit, MethodChar, FirstMethod, Step;
    PassOf(p, ch, hc);
    var a := Pass(p, ch, hc);
    if a.next == Advance && a.note.None? && KindOf(a.ps.st).None? { QuietPass(p, ch, hc); }
  }

  /** Another digit of a version number. */
  lemma DigitByte(p: Ps, ch: Byte, hc: Settings)
    requires IsNum(ch)
    ensures p.st.ReqMajor? && p.major * 10 + (ch - 48) <= 999 ==> Step(p, ch, hc) == Going(p.(major := p.major * 10 + (ch - 48)), [])
    ensures p.st.ReqMinor? && p.minor * 10 + (ch - 48) <= 999 ==> Step(p, ch, hc) == Going(p.(minor := p.minor * 10 + (ch - 48)), [])
  {
    hide Pass, MethodChar, FirstMethod, MethodName;
    PassOf(p, ch, hc);
  }

  lemma {:induction false} MajorRun(p: Ps, a: seq<Byte>, hc: Settings)
    requires p.st.ReqFirstMajor? && IsNumber(a) && a[0] != 48
    ensures Takes(p, a, p.(st := ReqMajor, major := Dec(a)), [], hc)
    decreases |a|
  {
    hide Step, Takes;
    if |a| == 1 {
      OneDigit(a);
      NumberByte(p, a[0], hc);
      TakesOne(p, a[0], p.(st := ReqMajor, major := Dec(a)), [], hc);
    } else {
      var (e, ch) := (a[..|a| - 1], a[|a| - 1]);
      NumberPrefix(a);
      MajorRun(p, e, hc);
      var q := p.(st := ReqMajor, major := Dec(e));
      DigitByte(q, ch, hc);
      TakesOne(q, ch, q.(major := Dec(a)), [], hc);
      TakesAfter(p, e, q, [ch], q.(major := Dec(a)), [], hc);
      assert a == e + [ch];
    }
  }

  lemma {:induction false} MinorRun(p: Ps, b: seq<Byte>, hc: Settings)
    requires p.st.ReqFirstMinor? && IsNumber(b)
    ensures Takes(p, b, p.(st := ReqMinor, minor := Dec(b)), [], hc)
    decreases |b|
  {
    hide Step, Takes;
    if |b| == 1 {
      OneDigit(b);
      NumberByte(p, b[0], hc);
      TakesOne(p, b[0], p.(st := ReqMinor, minor := Dec(b)), [], hc);
    } else {
      var (e, ch) := (b[..|b| - 1], b[|b| - 1]);
      NumberPrefix(b);
      MinorRun(p, e, hc);
      var q := p.(st := ReqMinor, minor := Dec(e));
      DigitByte(q, ch, hc);
      TakesOne(q, ch, q.(minor := Dec(b)), [], hc);
      TakesAfter(p, e, q, [ch], q.(minor := Dec(b)), [], hc);
      assert b == e + [ch];
    }
  }

  lemma LineTaken(p: Ps, e: Eol, hc: Settings)
    requires p.st.ReqMinor?
    ensures Takes(p, e.Text(), p.(st := HeaderFieldStart), [], hc)
  {
    hide Step, Takes;
    var (q, z) := (p.(st := ReqLineAlmostDone), p.(st := HeaderFieldStart));
    NumberByte(p, CR, hc);
    NumberByte(p, LF, hc);
    NumberByte(q, LF, hc);
    if e.CrLf? {
      TakesOne(q, LF, z, [], hc);
      TakesQuiet(p, CR, q, [LF], z, [], hc);
      assert [CR] + [LF] == [CR, LF];
    } else {
      TakesOne(p, LF, z, [], hc);
    }
  }

  lemma NumbersTaken(p: Ps, a: seq<Byte>, b: seq<Byte>, e: Eol, hc: Settings)
    requires p.st.ReqFirstMajor? && IsNumber(a) && a[0] != 48 && IsNumber(b)
    ensures Takes(p, a + ([46] + (b + e.Text())), p.(st := HeaderFieldStart, major := Dec(a), minor := Dec(b)), [], hc)
  {
    hide Step, Takes, Dec;
    var p1 := p.(st := ReqMajor, major := Dec(a));
    var p2 := p1.(st := ReqFirstMinor);
    var p3 := p2.(st := ReqMinor, minor := Dec(b));
    var p4 := p3.(st := HeaderFieldStart);
    MajorRun(p, a, hc);
    NumberByte(p1, 46, hc);
    MinorRun(p2, b, hc);
    LineTaken(p3, e, hc);
    TakesAfter(p2, b, p3, e.Text(), p4, [], hc);
    TakesQuiet(p1, 46, p2, b + e.Text(), p4, [], hc);
    TakesAfter(p, a, p1, [46] + (b + e.Text()), p4, [], hc);
  }

  lemma VersionTaken(p: Ps, a: seq<Byte>, b: seq<Byte>, e: Eol, hc: Settings)
    requires Whole(p.st) && IsNumber(a) && a[0] != 48 && IsNumber(b)
    ensures Takes(p, VersionText(a, b, e), p.(st := HeaderFieldStart, major := Dec(a), minor := Dec(b)), [], hc)
  {
    hide Step, Takes, Whole, Dec;
    var (p1, p2, p3) := (p.(st := ReqHttpStart), p.(st := ReqHttpH), p.(st := ReqHttpHT));
    var (p4, p5, p6) := (p.(st := ReqHttpHTT), p.(st := ReqHttpHTTP), p.(st := ReqFirstMajor));
    var (q, n) := (p.(st := HeaderFieldStart, major := Dec(a), minor := Dec(b)), a + ([46] + (b + e.Text())));
    SpaceByte(p, hc);
    VersionByte(p1, 72, hc);
    VersionByte(p2, 84, hc);
    VersionByte(p3, 84, hc);
    VersionByte(p4, 80, hc);
    VersionByte(p5, 47, hc);
    NumbersTaken(p6, a, b, e, hc);
    TakesQuiet(p5, 47, p6, n, q, [], hc);
    TakesQuiet(p4, 80, p5, [47] + n, q, [], hc);
    TakesQuiet(p3, 84, p4, [80] + ([47] + n), q, [], hc);
    TakesQuiet(p2, 84, p3, [84] + ([80] + ([47] + n)), q, [], hc);
    TakesQuiet(p1, 72, p2, [84] + ([84] + ([80] + ([47] + n))), q, [], hc);
    TakesQuiet(p, SP, p1, [72] + ([84] + ([84] + ([80] + ([47] + n)))), q, [], hc);
    assert [SP] + ([72] + ([84] + ([84] + ([80] + ([47] + n))))) == VersionText(a, b, e);
  }

  function RequestLine(m: nat, url: seq<Byte>, a: seq<Byte>, b: seq<Byte>, e: Eol): seq<Byte> {
    Ascii(MethodName(m)) + [SP] + (url + VersionText(a, b, e))
  }

  /** A request line: the parser learns exactly the method, the version and, byte by byte, the URL, for
      every method of the table. */
  lemma RequestLineTaken(p: Ps, m: nat, url: seq<Byte>, a: seq<Byte>, b: seq<Byte>, e: Eol, hc: Settings)
    requires p.st.StartReq? && m < 27 && IsUrl(m, url) && IsNumber(a) && a[0] != 48 && IsNumber(b)
    ensures Takes(p, RequestLine(m, url, a, b, e), AfterMethod(p, m).(st := HeaderFieldStart, major := Dec(a), minor := Dec(b)),
                  [Notify(MessageBegin)] + Datas(Url, url), hc)
  {
    UrlExactly(m, url);
    assert UrlFold(if m == 5 then ReqServerStart else ReqSpaces, url) != Dead;
    hide IsUrl, Takes, UrlFold, MethodName, VersionText, InUrl, Dec;
    var q := AfterMethod(p, m);
    var r := q.(st := UrlFold(if m == 5 then ReqServerStart else ReqSpaces, url));
    var z := r.(st := HeaderFieldStart, major := Dec(a), minor := Dec(b));
    MethodTaken(p, m, hc);
    UrlRun(q, url, hc);
    VersionTaken(r, a, b, e, hc);
    TakesBoth(q, url, r, Datas(Url, url), VersionText(a, b, e), z, [], hc);
    TakesBoth(p, Ascii(MethodName(m)) + [SP], q, [Notify(MessageBegin)], url + VersionText(a, b, e), z, Datas(Url, url) + [], hc);
    assert [Notify(MessageBegin)] + (Datas(Url, url) + []) == [Notify(MessageBegin)] + Datas(Url, url);
  }
}
