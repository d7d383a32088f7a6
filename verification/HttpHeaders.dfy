/** Header lines: which names the parser recognises, and what their values do. */
module HttpHeaders {
  import opened Lists
  import opened HttpMachine
  import opened HttpParser
  import opened HttpCuts
  import opened HttpChunked
  import opened HttpMessages

  /* ---- Names ---- */

  const CONNECTION: string := "connection"
  const PROXY: string := "proxy-connection"
  const LENGTH: string := "content-length"
  const ENCODING: string := "transfer-encoding"
  const UPGRADE: string := "upgrade"

  /** The name in lower case. */
  function Lowered(name: seq<Byte>): (r: seq<Byte>)
    ensures |r| == |name| && forall i :: 0 <= i < |r| ==> r[i] == TokenOf(name[i])
  {
    seq(|name|, i requires 0 <= i < |name| => TokenOf(name[i]))
  }

  predicate IsName(name: seq<Byte>) { name != [] && forall i :: 0 <= i < |name| ==> TokenOf(name[i]) != 0 }

  /** The parser after the characters of a name, from the start of a line. */
  function NameFold(p: Ps, name: seq<Byte>): (r: Ps)
    requires name != []
    ensures r == p.(st := r.st, hs := r.hs, index := r.index) && r.st.HeaderField?
    decreases |name|
  {
    if |name| == 1 then StartField(p, TokenOf(name[0]))
    else FieldChar(NameFold(p, name[..|name| - 1]), TokenOf(name[|name| - 1]))
  }

  /** L is the word up to some point. */
  predicate Begins(w: string, L: seq<Byte>) {
    |L| <= |w| && forall i :: 0 <= i < |L| ==> L[i] == w[i] as int
  }

  predicate Equals(w: string, L: seq<Byte>) { |L| == |w| && Begins(w, L) }

  /** What header_state says about the name read so far. */
  predicate Knows(h: Hs, L: seq<Byte>) {
    match h
    case C => |L| == 1 && Begins(CONNECTION, L)
    case CO => |L| == 2 && Begins(CONNECTION, L)
    case CON => |L| == 3 && Begins(CONNECTION, L)
    case MatchConnection => 4 <= |L| < |CONNECTION| && Begins(CONNECTION, L)
    case MatchProxy => |L| < |PROXY| && Begins(PROXY, L)
    case MatchLength => 4 <= |L| < |LENGTH| && Begins(LENGTH, L)
    case MatchEncoding => |L| < |ENCODING| && Begins(ENCODING, L)
    case MatchUpgrade => |L| < |UPGRADE| && Begins(UPGRADE, L)
    case Connection => Equals(CONNECTION, L) || Equals(PROXY, L)
    case Length => Equals(LENGTH, L)
    case Encoding => Equals(ENCODING, L)
    case UpgradeField => Equals(UPGRADE, L)
    case General => Unknown(L)
    case _ => false
  }

  predicate Unknown(L: seq<Byte>) {
    !Begins(CONNECTION, L) && !Begins(PROXY, L) && !Begins(LENGTH, L) && !Begins(ENCODING, L) && !Begins(UPGRADE, L)
  }

  lemma BeginsMore(w: string, L: seq<Byte>, c: Byte)
    ensures Begins(w, L + [c]) <==> Begins(w, L) && |L| < |w| && c == w[|L|] as int
  {
    var M := L + [c];
    if Begins(w, M) { assert forall i :: 0 <= i < |L| ==> M[i] == L[i]; assert M[|L|] == c; }
  }

  /** The first letters tell the words apart. */
  lemma WordsApart(L: seq<Byte>)
    requires |L| > 0
    ensures Begins(CONNECTION, L) ==> L[0] == 99
    ensures Begins(LENGTH, L) ==> L[0] == 99
    ensures Begins(PROXY, L) ==> L[0] == 112
    ensures Begins(ENCODING, L) ==> L[0] == 116
    ensures Begins(UPGRADE, L) ==> L[0] == 117
    ensures |L| >= 4 ==> !(Begins(CONNECTION, L) && Begins(LENGTH, L))
    ensures |L| <= 3 ==> (Begins(CONNECTION, L) <==> Begins(LENGTH, L))
  {
    assert CONNECTION[3] != LENGTH[3];
    assert CONNECTION[0] == LENGTH[0] && CONNECTION[1] == LENGTH[1] && CONNECTION[2] == LENGTH[2];
  }

  /** One more character of a word that is being matched. */
  lemma MatchKnows(p: Ps, L: seq<Byte>, c: Byte, w: string, full: Hs)
    requires |L| > 0 && p.index == |L| - 1 && Begins(w, L) && |L| < |w|
    ensures var q := MatchField(p, c, w, full);
      q.index == |L| && q.hs == if !Begins(w, L + [c]) then General else if |L| + 1 == |w| then full else p.hs
  {
    BeginsMore(w, L, c);
  }

  ghost predicate Tracks(p: Ps, L: seq<Byte>) {
    |L| > 0 && Knows(p.hs, L)
    && (p.hs.General? || p.hs.Connection? || p.hs.Length? || p.hs.Encoding? || p.hs.UpgradeField? || p.index == |L| - 1)
  }

  lemma StartTracks(p: Ps, c: Byte)
    ensures Tracks(StartField(p, c), [c])
  {
    WordsApart([c]);
  }

  lemma AllMore(L: seq<Byte>, c: Byte)
    ensures Begins(CONNECTION, L + [c]) <==> Begins(CONNECTION, L) && |L| < 10 && c == CONNECTION[|L|] as int
    ensures Begins(PROXY, L + [c]) <==> Begins(PROXY, L) && |L| < 16 && c == PROXY[|L|] as int
    ensures Begins(LENGTH, L + [c]) <==> Begins(LENGTH, L) && |L| < 14 && c == LENGTH[|L|] as int
    ensures Begins(ENCODING, L + [c]) <==> Begins(ENCODING, L) && |L| < 17 && c == ENCODING[|L|] as int
    ensures Begins(UPGRADE, L + [c]) <==> Begins(UPGRADE, L) && |L| < 7 && c == UPGRADE[|L|] as int
  {
    hide Begins;
    BeginsMore(CONNECTION, L, c);
    BeginsMore(PROXY, L, c);
    BeginsMore(LENGTH, L, c);
    BeginsMore(ENCODING, L, c);
    BeginsMore(UPGRADE, L, c);
  }

  lemma EarlyTracks(p: Ps, L: seq<Byte>, c: Byte)
    requires Tracks(p, L) && (p.hs.C? || p.hs.CO? || p.hs.CON?)
    ensures Tracks(FieldChar(p, c), L + [c])
  {
    hide Begins;
    WordsApart(L);
    WordsApart(L + [c]);
    AllMore(L, c);
  }

  /** A name that is none of the words and does not begin one stays so. */
  lemma UnknownMore(L: seq<Byte>, c: Byte)
    requires Unknown(L)
    ensures Unknown(L + [c])
  {
    hide Begins;
    AllMore(L, c);
  }

  lemma DoneTracks(p: Ps, L: seq<Byte>, c: Byte)
    requires Tracks(p, L) && (p.hs.General? || p.hs.Connection? || p.hs.Length? || p.hs.Encoding? || p.hs.UpgradeField?)
    ensures Tracks(FieldChar(p, c), L + [c])
  {
    hide Begins;
    WordsApart(L);
    AllMore(L, c);
    if p.hs.General? { UnknownMore(L, c); }
  }

  lemma MatchTracks(p: Ps, L: seq<Byte>, c: Byte)
    requires Tracks(p, L)
    requires p.hs.MatchConnection? || p.hs.MatchProxy? || p.hs.MatchLength? || p.hs.MatchEncoding? || p.hs.MatchUpgrade?
    ensures Tracks(FieldChar(p, c), L + [c])
  {
    hide Begins, MatchField;
    WordsApart(L);
    WordsApart(L + [c]);
    AllMore(L, c);
    match p.hs
    case MatchConnection => MatchKnows(p, L, c, CONNECTION, Connection);
    case MatchProxy => MatchKnows(p, L, c, PROXY, Connection);
    case MatchLength => MatchKnows(p, L, c, LENGTH, Length);
    case MatchEncoding => MatchKnows(p, L, c, ENCODING, Encoding);
    case MatchUpgrade => MatchKnows(p, L, c, UPGRADE, UpgradeField);
  }

  lemma {:induction false} NameTracks(p: Ps, name: seq<Byte>)
    requires name != []
    ensures Tracks(NameFold(p, name), Lowered(name))
    decreases |name|
  {
    hide Tracks, FieldChar, StartField;
    if |name| == 1 {
      StartTracks(p, TokenOf(name[0]));
      assert Lowered(name) == [TokenOf(name[0])];
    } else {
      var d := name[..|name| - 1];
      var (q, L, c) := (NameFold(p, d), Lowered(d), TokenOf(name[|name| - 1]));
      NameTracks(p, d);
      FieldTracks(q, L, c);
      assert Lowered(name) == L + [c];
    }
  }

  lemma FieldTracks(p: Ps, L: seq<Byte>, c: Byte)
    requires Tracks(p, L)
    ensures Tracks(FieldChar(p, c), L + [c])
  {
    if p.hs.C? || p.hs.CO? || p.hs.CON? {
      EarlyTracks(p, L, c);
    } else if p.hs.General? || p.hs.Connection? || p.hs.Length? || p.hs.Encoding? || p.hs.UpgradeField? {
      DoneTracks(p, L, c);
    } else {
      MatchTracks(p, L, c);
    }
  }

  /** A name is recognised, whatever its case, exactly when it is the word. */
  lemma NameRecognised(p: Ps, name: seq<Byte>)
    requires name != []
    ensures var (h, L) := (NameFold(p, name).hs, Lowered(name));
      && (h.Connection? <==> Equals(CONNECTION, L) || Equals(PROXY, L)) && (h.Length? <==> Equals(LENGTH, L))
      && (h.Encoding? <==> Equals(ENCODING, L)) && (h.UpgradeField? <==> Equals(UPGRADE, L))
  {
    hide NameFold, Begins;
    NameTracks(p, name);
    WordsApart(Lowered(name));
  }

  /* ---- One header line ---- */

  /** Where a header line, or the empty line, may begin; a header just read is not settled yet. */
  predicate AtLine(p: Ps) { p.st.HeaderFieldStart? || p.st.HeaderValueLws? || p.st.ValueDiscardLws? }

  function Settled(p: Ps): Ps {
    if p.st.HeaderFieldStart? then p else p.(flags := SetFlag(p.flags, p.hs), st := HeaderFieldStart)
  }

  lemma PrefixEmpty(r: Result)
    ensures Prefix([], 0, r) == r
  {
    match r
    case Going(p, o) => assert [] + o == o;
    case Failed(e, k) =>
    case Exited(p, o, k) => assert [] + o == o;
  }

  lemma SettleStep(p: Ps, ch: Byte, hc: Settings)
    requires AtLine(p) && ch != SP && ch != TAB
    ensures Step(p, ch, hc) == Step(Settled(p), ch, hc)
  {
    if !p.st.HeaderFieldStart? {
      hide Pass, SetFlag;
      SettlePass(p, ch, hc);
      PrefixEmpty(Step(Settled(p), ch, hc));
    }
  }

  lemma SettlePass(p: Ps, ch: Byte, hc: Settings)
    requires AtLine(p) && !p.st.HeaderFieldStart? && ch != SP && ch != TAB
    ensures var a := Pass(p, ch, hc); a.ps == Settled(p) && a.next == Again && a.note.None?
  {
    hide Pass, SetFlag;
    PassOf(p, ch, hc);
  }

  lemma NameFirst(p: Ps, ch: Byte, hc: Settings)
    requires p.st.HeaderFieldStart? && TokenOf(ch) != 0
    ensures Step(p, ch, hc) == Going(StartField(p, TokenOf(ch)), [Data(Field, ch)])
  {
    hide Pass;
    PassOf(p, ch, hc);
  }

  lemma {:induction false} NameRun(p: Ps, name: seq<Byte>, hc: Settings)
    requires p.st.HeaderFieldStart? && IsName(name)
    ensures Takes(p, name, NameFold(p, name), Datas(Field, name), hc)
    decreases |name|
  {
    hide Step, Takes, FieldChar, StartField, TokenOf;
    var (d, ch) := (name[..|name| - 1], name[|name| - 1]);
    if |name| == 1 {
      assert name == [ch] && Datas(Field, name) == [Data(Field, ch)];
      NameFirst(p, ch, hc);
      TakesOne(p, ch, NameFold(p, name), [Data(Field, ch)], hc);
    } else {
      NameRun(p, d, hc);
      FieldByte(NameFold(p, d), ch, hc);
      TakesOne(NameFold(p, d), ch, NameFold(p, name), [Data(Field, ch)], hc);
      TakesBoth(p, d, NameFold(p, d), Datas(Field, d), [ch], NameFold(p, name), [Data(Field, ch)], hc);
      assert name == d + [ch] && Datas(Field, name) == Datas(Field, d) + [Data(Field, ch)];
    }
  }

  /** A value, which may be empty, and the white space before it. */
  predicate IsValue(v: seq<Byte>) {
    (v != [] ==> v[0] != SP && v[0] != TAB) && forall i :: 0 <= i < |v| ==> v[i] != CR && v[i] != LF
  }

  predicate IsSpace(w: seq<Byte>) { forall i :: 0 <= i < |w| ==> w[i] == SP || w[i] == TAB }

  /** The parser after the characters of a value; None is a malformed Content-Length. */
  function ValueFold(p: Ps, v: seq<Byte>): (r: Option<Ps>)
    requires v != []
    ensures r.Some? ==> r.value.st.HeaderValue?
    decreases |v|
  {
    if |v| == 1 then (if ActValueStart(p, v[0]).next.Fail? then None else Some(ActValueStart(p, v[0]).ps))
    else
      var r := ValueFold(p, v[..|v| - 1]);
      if r.None? then None else ValueChar(r.value, v[|v| - 1])
  }

  lemma ValueFirst(p: Ps, ch: Byte, hc: Settings)
    requires p.st.ValueDiscardWs? && ch != SP && ch != TAB && ch != CR && ch != LF && !ActValueStart(p, ch).next.Fail?
    ensures Step(p, ch, hc) == Going(ActValueStart(p, ch).ps, [Data(Value, ch)])
  {
    hide Pass;
    PassOf(p, ch, hc);
    assert ActValueStart(p, ch).ps.st.HeaderValue?;
  }

  lemma {:induction false} ValueRun(p: Ps, v: seq<Byte>, hc: Settings)
    requires p.st.ValueDiscardWs? && v != [] && IsValue(v) && ValueFold(p, v).Some?
    ensures Takes(p, v, ValueFold(p, v).value, Datas(Value, v), hc)
    decreases |v|
  {
    hide Step, Takes, ValueChar, ActValueStart;
    var (d, ch) := (v[..|v| - 1], v[|v| - 1]);
    if |v| == 1 {
      assert v == [ch] && Datas(Value, v) == [Data(Value, ch)];
      ValueFirst(p, ch, hc);
      TakesOne(p, ch, ValueFold(p, v).value, [Data(Value, ch)], hc);
    } else {
      var q := ValueFold(p, d).value;
      ValueRun(p, d, hc);
      ValueByte(q, ch, hc);
      TakesOne(q, ch, ValueFold(p, v).value, [Data(Value, ch)], hc);
      TakesBoth(p, d, q, Datas(Value, d), [ch], ValueFold(p, v).value, [Data(Value, ch)], hc);
      assert v == d + [ch] && Datas(Value, v) == Datas(Value, d) + [Data(Value, ch)];
    }
  }

  lemma LineByte(p: Ps, ch: Byte, hc: Settings)
    requires OfHeader(p.st)
    ensures p.st.HeaderField? && ch == 58 ==> Step(p, ch, hc) == Going(p.(st := ValueDiscardWs), [])
    ensures p.st.ValueDiscardWs? && (ch == SP || ch == TAB) ==> Step(p, ch, hc) == Going(p, [])
    ensures p.st.ValueDiscardWs? && ch == CR ==> Step(p, ch, hc) == Going(p.(st := ValueDiscardWsAlmostDone), [])
    ensures p.st.ValueDiscardWs? && ch == LF ==> Step(p, ch, hc) == Going(p.(st := ValueDiscardLws), [])
    ensures p.st.ValueDiscardWsAlmostDone? && ch == LF ==> Step(p, ch, hc) == Going(p.(st := ValueDiscardLws), [])
    ensures p.st.HeaderValue? && ch == CR ==> Step(p, ch, hc) == Going(p.(st := HeaderAlmostDone), [])
    ensures p.st.HeaderAlmostDone? && ch == LF ==> Step(p, ch, hc) == Going(p.(st := HeaderValueLws), [])
  {
    hide Pass, Step, FieldChar, ValueChar, ActValueStart, SetFlag;
    PassOf(p, ch, hc);
    var a := Pass(p, ch, hc);
    if a.next == Advance && a.note.None? && KindOf(a.ps.st).None? { QuietPass(p, ch, hc); }
  }

  /** A header as it is sent: name, colon, white space, value, line end. */
  datatype Header = Header(name: seq<Byte>, space: seq<Byte>, value: seq<Byte>, eol: Eol) {
    function Text(): seq<Byte> { name + ([58] + (space + (value + eol.Text()))) }
    predicate Ok() { IsName(name) && IsSpace(space) && IsValue(value) }
    function Events(): seq<Event> { Datas(Field, name) + Datas(Value, value) }
  }

  /** What a value and its line end do to the parser. */
  function ValueEffect(p: Ps, v: seq<Byte>): Option<Ps> {
    if v == [] then Some(p.(st := ValueDiscardLws))
    else match ValueFold(p, v) case None => None case Some(r) => Some(r.(st := HeaderValueLws))
  }

  /** What a header line does to the parser. */
  function Effect(p: Ps, h: Header): Option<Ps>
    requires h.Ok()
  {
    ValueEffect(NameFold(Settled(p), h.name).(st := ValueDiscardWs), h.value)
  }

  lemma EmptyEnd(p: Ps, e: Eol, hc: Settings)
    requires p.st.ValueDiscardWs?
    ensures Takes(p, e.Text(), p.(st := ValueDiscardLws), [], hc)
  {
    hide Step, Takes;
    var (q, z) := (p.(st := ValueDiscardWsAlmostDone), p.(st := ValueDiscardLws));
    LineByte(p, CR, hc);
    LineByte(p, LF, hc);
    LineByte(q, LF, hc);
    if e.CrLf? {
      TakesOne(q, LF, z, [], hc);
      TakesQuiet(p, CR, q, [LF], z, [], hc);
      assert [CR] + [LF] == [CR, LF];
    } else {
      TakesOne(p, LF, z, [], hc);
    }
  }

  /** LF right behind a value ends it as CR LF does. */
  lemma ValueLf(p: Ps, hc: Settings)
    requires p.st.HeaderValue?
    ensures Step(p, LF, hc) == Going(p.(st := HeaderValueLws), [])
  {
    hide Pass;
    var q := p.(st := HeaderAlmostDone);
    ValueLfPass(p, hc);
    LineByte(q, LF, hc);
    PrefixEmpty(Step(q, LF, hc));
  }

  lemma ValueLfPass(p: Ps, hc: Settings)
    requires p.st.HeaderValue?
    ensures Pass(p, LF, hc) == Act(p.(st := HeaderAlmostDone), None, Before(Value), None, Again)
  {
    hide Pass, ValueChar;
    PassOf(p, LF, hc);
  }

  lemma ValueEndTaken(q: Ps, e: Eol, hc: Settings)
    requires q.st.HeaderValue?
    ensures Takes(q, e.Text(), q.(st := HeaderValueLws), [], hc)
  {
    hide Step, Takes;
    var (t, z) := (q.(st := HeaderAlmostDone), q.(st := HeaderValueLws));
    LineByte(q, CR, hc);
    LineByte(t, LF, hc);
    ValueLf(q, hc);
    if e.CrLf? {
      TakesOne(t, LF, z, [], hc);
      TakesQuiet(q, CR, t, [LF], z, [], hc);
      assert [CR] + [LF] == [CR, LF];
    } else {
      TakesOne(q, LF, z, [], hc);
    }
  }

  lemma LineEnd(p: Ps, v: seq<Byte>, e: Eol, hc: Settings)
    requires p.st.ValueDiscardWs? && IsValue(v) && ValueEffect(p, v).Some?
    ensures Takes(p, v + e.Text(), ValueEffect(p, v).value, Datas(Value, v), hc)
  {
    hide Step, Takes, ValueFold;
    if v == [] {
      EmptyEnd(p, e, hc);
      assert v + e.Text() == e.Text() && Datas(Value, v) == [];
    } else {
      var q := ValueFold(p, v).value;
      ValueRun(p, v, hc);
      ValueEndTaken(q, e, hc);
      TakesBoth(p, v, q, Datas(Value, v), e.Text(), q.(st := HeaderValueLws), [], hc);
      assert Datas(Value, v) + [] == Datas(Value, v);
    }
  }

  lemma {:induction false} SpaceRun(p: Ps, w: seq<Byte>, rest: seq<Byte>, z: Ps, o: seq<Event>, hc: Settings)
    requires p.st.ValueDiscardWs? && IsSpace(w) && Takes(p, rest, z, o, hc)
    ensures Takes(p, w + rest, z, o, hc)
    decreases |w|
  {
    hide Step, Takes;
    if w == [] {
      assert w + rest == rest;
    } else {
      SpaceRun(p, w[1..], rest, z, o, hc);
      LineByte(p, w[0], hc);
      TakesQuiet(p, w[0], p, w[1..] + rest, z, o, hc);
      assert [w[0]] + (w[1..] + rest) == w + rest;
    }
  }

  /** A header line is taken as its name and its value, byte for byte. */
  lemma HeaderTaken(p: Ps, h: Header, hc: Settings)
    requires AtLine(p) && h.Ok() && Effect(p, h).Some?
    ensures Takes(p, h.Text(), Effect(p, h).value, h.Events(), hc)
  {
    hide Step, Takes, NameFold, ValueEffect, IsValue, SetFlag;
    var q := Settled(p);
    var n := NameFold(q, h.name);
    var (w, z, rest) := (n.(st := ValueDiscardWs), Effect(p, h).value, h.value + h.eol.Text());
    NameRun(q, h.name, hc);
    LineByte(n, 58, hc);
    LineEnd(w, h.value, h.eol, hc);
    SpaceRun(w, h.space, rest, z, Datas(Value, h.value), hc);
    TakesQuiet(n, 58, w, h.space + rest, z, Datas(Value, h.value), hc);
    TakesBoth(q, h.name, n, Datas(Field, h.name), [58] + (h.space + rest), z, Datas(Value, h.value), hc);
    NameNoSpace(h.name);
    SettleTakes(p, h.Text(), z, h.Events(), hc);
  }

  lemma NameNoSpace(name: seq<Byte>)
    requires IsName(name)
    ensures name[0] != SP && name[0] != TAB
  {
  }

  /** The byte that begins a line settles the header before it. */
  lemma SettleTakes(p: Ps, data: seq<Byte>, z: Ps, o: seq<Event>, hc: Settings)
    requires AtLine(p) && data != [] && data[0] != SP && data[0] != TAB && Takes(Settled(p), data, z, o, hc)
    ensures Takes(p, data, z, o, hc)
  {
    hide Step, SetFlag;
    var (q, rest) := (Settled(p), data[1..]);
    assert data == [data[0]] + rest;
    SettleStep(p, data[0], hc);
    RunOne(p, data[0], hc);
    RunOne(q, data[0], hc);
    RunConcat(p, [data[0]], rest, hc);
    RunConcat(q, [data[0]], rest, hc);
  }
}
