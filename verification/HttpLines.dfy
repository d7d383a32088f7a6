/** The language of header lines: exactly which names and values the parser takes. */
module HttpLines {
  import opened Lists
  import opened Arith
  import opened HttpMachine
  import opened HttpParser
  import opened HttpCuts
  import opened HttpChunked
  import opened HttpMessages
  import opened HttpHeaders
  import opened HttpRequests
  import opened HttpGrammar

  /* ---- Names ---- */

  /** The characters of a token, section 3.2.6 of RFC 7230. */
  predicate TokenChar(b: Byte) {
    || 48 <= b <= 57 || 65 <= b <= 90 || 97 <= b <= 122 || b == 33 || 35 <= b <= 39 || b == 42 || b == 43 || b == 45 || b == 46
    || 94 <= b <= 96 || b == 124 || b == 126
  }

  /** The table of the parser holds exactly these, capital letters as small ones. */
  lemma TokensExactly(b: Byte)
    ensures TokenOf(b) == if !TokenChar(b) then 0 else if 65 <= b <= 90 then b + 32 else b
  {
  }

  predicate IsToken(name: seq<Byte>) { name != [] && forall i :: 0 <= i < |name| ==> TokenChar(name[i]) }

  lemma NamesAreTokens(name: seq<Byte>)
    ensures IsName(name) <==> IsToken(name)
  {
    hide TokenOf, TokenChar;
    forall i | 0 <= i < |name| ensures TokenOf(name[i]) != 0 <==> TokenChar(name[i]) { TokensExactly(name[i]); TokenNotZero(name[i]); }
  }

  lemma TokenNotZero(b: Byte)
    ensures TokenChar(b) ==> b != 0
  {
  }

  lemma FieldStep(q: Ps, ch: Byte, hc: Settings)
    requires (q.st.HeaderField? || q.st.HeaderFieldStart?) && ch != 58 && ch != CR && ch != LF && Step(q, ch, hc).Going?
    ensures TokenOf(ch) != 0
  {
    hide Pass, TokenOf, FieldChar, StartField;
    PassOf(q, ch, hc);
  }

  /** Up to the colon the parser only takes tokens. */
  lemma {:induction false} NameRead(p: Ps, name: seq<Byte>, hc: Settings)
    requires p.st.HeaderFieldStart? && name != [] && 58 !in name && CR !in name && LF !in name && Run(p, name, hc).Going?
    ensures IsName(name)
    decreases |name|
  {
    hide Run, Step, TokenOf;
    var (d, ch) := (name[..|name| - 1], name[|name| - 1]);
    assert name == d + [ch];
    TakenBefore(p, d, ch, hc);
    if d == [] {
      RunEmpty(p, hc);
      FieldStep(p, ch, hc);
    } else {
      NameRead(p, d, hc);
      NameRun(p, d, hc);
      FieldStep(NameFold(p, d), ch, hc);
    }
  }

  /* ---- Values ---- */

  /** The value without the white space before it. */
  function Stripped(v: seq<Byte>): (r: seq<Byte>)
    ensures |r| <= |v| && r == v[|v| - |r|..] && (r != [] ==> r[0] != SP && r[0] != TAB) && IsSpace(v[..|v| - |r|])
  {
    if v == [] || (v[0] != SP && v[0] != TAB) then v else Stripped(v[1..])
  }

  /** The digits of a length, without the spaces among them. */
  function Digits(u: seq<Byte>): (d: seq<Byte>)
    ensures forall i :: 0 <= i < |d| ==> d[i] != SP && d[i] in u
  {
    if u == [] then [] else Digits(u[..|u| - 1]) + if u[|u| - 1] == SP then [] else [u[|u| - 1]]
  }

  /** Digits and spaces only, beginning with a digit. */
  predicate Spelt(u: seq<Byte>) { u != [] && 48 <= u[0] <= 57 && forall i :: 0 <= i < |u| ==> 48 <= u[i] <= 57 || u[i] == SP }

  /** A length: it begins with a digit, holds digits and spaces only, and is not above the limit. */
  predicate IsLength(u: seq<Byte>) {
    Spelt(u) && Dec(Digits(u)) <= MAX_LENGTH
  }

  lemma DigitsMore(e: seq<Byte>, ch: Byte)
    ensures Digits(e + [ch]) == Digits(e) + if ch == SP then [] else [ch]
  {
    assert (e + [ch])[..|e|] == e;
  }

  lemma LengthStep(q: Ps, ch: Byte)
    requires q.hs.Length?
    ensures ValueChar(q, ch) ==
      if ch == SP then Some(q) else if !IsNum(ch) || q.length * 10 + (ch as int - 48) > MAX_LENGTH then None
      else Some(q.(length := q.length * 10 + (ch as int - 48)))
  {
  }

  lemma DecMore(d: seq<Byte>, ch: Byte)
    requires IsNum(ch) && forall i :: 0 <= i < |d| ==> IsNum(d[i])
    ensures (forall i :: 0 <= i < |d + [ch]| ==> IsNum((d + [ch])[i])) && Dec(d + [ch]) == Dec(d) * 10 + (ch as int - 48)
  {
    assert (d + [ch])[..|d|] == d;
  }

  lemma SpeltMore(e: seq<Byte>, ch: Byte)
    requires e != []
    ensures Spelt(e + [ch]) <==> Spelt(e) && (IsNum(ch) || ch == SP)
  {
    var u := e + [ch];
    assert u[|e|] == ch && forall i :: 0 <= i < |e| ==> u[i] == e[i];
  }

  lemma SpeltDigits(u: seq<Byte>)
    requires Spelt(u)
    ensures forall i :: 0 <= i < |Digits(u)| ==> IsNum(Digits(u)[i])
  {
  }

  lemma LengthMore(e: seq<Byte>, ch: Byte)
    requires e != []
    ensures IsLength(e + [ch]) ==> IsLength(e) && (IsNum(ch) || ch == SP)
    ensures IsLength(e) && ch == SP ==> IsLength(e + [ch]) && Digits(e + [ch]) == Digits(e)
    ensures IsLength(e) && IsNum(ch) ==>
      && (forall i :: 0 <= i < |Digits(e + [ch])| ==> IsNum(Digits(e + [ch])[i]))
      && Dec(Digits(e + [ch])) == Dec(Digits(e)) * 10 + (ch as int - 48)
      && (IsLength(e + [ch]) <==> Dec(Digits(e + [ch])) <= MAX_LENGTH)
  {
    hide Digits, Dec, Spelt;
    SpeltMore(e, ch);
    DigitsMore(e, ch);
    if Spelt(e) && (IsNum(ch) || ch == SP) {
      SpeltDigits(e);
      SpeltDigits(e + [ch]);
      if ch == SP { assert Digits(e) + [] == Digits(e); } else { DecMore(Digits(e), ch); }
    }
  }

  /** A Content-Length is taken exactly when it is a length, as the number its digits form: spaces among them
      are skipped. */
  lemma {:induction false} LengthExactly(p: Ps, u: seq<Byte>)
    requires p.hs.Length? && u != []
    ensures if IsLength(u) then ValueFold(p, u) == Some(p.(st := HeaderValue, index := 0, length := Dec(Digits(u)))) else ValueFold(p, u) == None
    decreases |u|
  {
    hide Dec, Digits, ValueChar;
    var (e, ch) := (u[..|u| - 1], u[|u| - 1]);
    assert u == e + [ch];
    if e == [] {
      OneLength(p, ch);
      assert u == [ch];
    } else {
      LengthExactly(p, e);
      LengthMore(e, ch);
      if IsLength(e) {
        LengthStep(ValueFold(p, e).value, ch);
        if !IsNum(ch) && ch != SP { assert u[|e|] == ch; }
      }
    }
  }

  lemma OneLength(p: Ps, ch: Byte)
    requires p.hs.Length?
    ensures if IsNum(ch) then IsLength([ch]) && ValueFold(p, [ch]) == Some(p.(st := HeaderValue, index := 0, length := Dec(Digits([ch]))))
      else !IsLength([ch]) && ValueFold(p, [ch]) == None
  {
    hide ValueChar, Dec, Digits;
    DigitAlone(ch);
    assert ValueFold(p, [ch]) == if ActValueStart(p, ch).next.Fail? then None else Some(ActValueStart(p, ch).ps);
  }

  lemma DigitAlone(ch: Byte)
    ensures IsNum(ch) ==> Digits([ch]) == [ch] && Dec([ch]) == ch as int - 48
  {
    assert [ch][..0] == [] && Digits([]) == [];
    if IsNum(ch) {
      DecMore([], ch);
      assert [] + [ch] == [ch];
    }
  }

  /** "4 2" is taken as 42. */
  lemma SpacedLength(p: Ps)
    requires p.hs.Length?
    ensures ValueFold(p, [52, SP, 50]) == Some(p.(st := HeaderValue, index := 0, length := 42))
  {
    hide Dec, Digits, ValueChar;
    OneLength(p, 52);
    var q := ValueFold(p, [52]).value;
    DigitAlone(52);
    LengthStep(q, SP);
    assert [52, SP][..1] == [52] && [52, SP, 50][..2] == [52, SP];
    assert ValueFold(p, [52, SP]) == Some(q);
    LengthStep(q, 50);
  }

  /** No other value is refused. */
  lemma {:induction false} OtherValue(p: Ps, u: seq<Byte>)
    requires !p.hs.Length? && u != []
    ensures ValueFold(p, u).Some? && !ValueFold(p, u).value.hs.Length?
    decreases |u|
  {
    hide ValueChar, ActValueStart;
    var (e, ch) := (u[..|u| - 1], u[|u| - 1]);
    if e == [] {
      OtherStart(p, ch);
    } else {
      OtherValue(p, e);
      OtherChar(ValueFold(p, e).value, ch);
    }
  }

  lemma OtherStart(p: Ps, ch: Byte)
    requires !p.hs.Length?
    ensures !ActValueStart(p, ch).next.Fail? && !ActValueStart(p, ch).ps.hs.Length?
  {
  }

  lemma OtherChar(q: Ps, ch: Byte)
    requires !q.hs.Length?
    ensures ValueChar(q, ch).Some? && !ValueChar(q, ch).value.hs.Length?
  {
  }

  lemma ValueStep(q: Ps, ch: Byte, hc: Settings)
    requires ch != CR && ch != LF && Step(q, ch, hc).Going?
    ensures q.st.ValueDiscardWs? && ch != SP && ch != TAB ==> !ActValueStart(q, ch).next.Fail?
    ensures q.st.HeaderValue? ==> ValueChar(q, ch).Some?
  {
    hide Pass, ActValueStart, ValueChar;
    PassOf(q, ch, hc);
  }

  lemma {:induction false} ValueRead(p: Ps, u: seq<Byte>, hc: Settings)
    requires p.st.ValueDiscardWs? && u != [] && IsValue(u) && Run(p, u, hc).Going?
    ensures ValueFold(p, u).Some?
    decreases |u|
  {
    hide Run, Step, ActValueStart, ValueChar;
    var (e, ch) := (u[..|u| - 1], u[|u| - 1]);
    assert u == e + [ch];
    TakenBefore(p, e, ch, hc);
    if e == [] {
      RunEmpty(p, hc);
      ValueStep(p, ch, hc);
    } else {
      ValueRead(p, e, hc);
      ValueRun(p, e, hc);
      ValueStep(ValueFold(p, e).value, ch, hc);
    }
  }

  /* ---- Lines ---- */

  /** What the value must be: a length, if it is one of Content-Length and not empty. */
  predicate ValueFine(name: seq<Byte>, v: seq<Byte>) {
    Equals(LENGTH, Lowered(name)) && Stripped(v) != [] ==> IsLength(Stripped(v))
  }

  lemma FineExactly(p: Ps, name: seq<Byte>, u: seq<Byte>)
    requires name != []
    ensures ValueEffect(NameFold(p, name).(st := ValueDiscardWs), u).Some? <==> (Equals(LENGTH, Lowered(name)) && u != [] ==> IsLength(u))
  {
    hide NameFold, ValueFold, Equals, IsLength;
    NameRecognised(p, name);
    var n := NameFold(p, name).(st := ValueDiscardWs);
    if u != [] {
      if n.hs.Length? { LengthExactly(n, u); } else { OtherValue(n, u); }
    }
  }

  /** The line as a header. */
  function LineOf(name: seq<Byte>, v: seq<Byte>, e: Eol): Header { Header(name, v[..|v| - |Stripped(v)|], Stripped(v), e) }

  lemma LineText(name: seq<Byte>, v: seq<Byte>, e: Eol)
    requires CR !in v && LF !in v
    ensures LineOf(name, v, e).Text() == name + ([58] + (v + e.Text()))
    ensures IsSpace(LineOf(name, v, e).space) && IsValue(Stripped(v)) && v == LineOf(name, v, e).space + Stripped(v)
  {
    hide Stripped, IsSpace;
    var u := Stripped(v);
    var w := v[..|v| - |u|];
    Halves(v, |v| - |u|);
    Regroup(w, u, e.Text());
    SuffixValue(v, u);
  }

  lemma Halves(v: seq<Byte>, k: nat)
    requires k <= |v|
    ensures v[..k] + v[k..] == v
  {
  }

  lemma SuffixValue(v: seq<Byte>, u: seq<Byte>)
    requires CR !in v && LF !in v && |u| <= |v| && u == v[|v| - |u|..] && (u != [] ==> u[0] != SP && u[0] != TAB)
    ensures IsValue(u)
  {
    forall i | 0 <= i < |u| ensures u[i] != CR && u[i] != LF { assert u[i] == v[|v| - |u| + i]; }
  }

  lemma LineRead(p: Ps, name: seq<Byte>, w: seq<Byte>, u: seq<Byte>, e: Eol, hc: Settings)
    requires p.st.HeaderFieldStart? && 58 !in name && CR !in name && LF !in name && IsSpace(w) && IsValue(u)
    requires Run(p, name + ([58] + ((w + u) + e.Text())), hc).Going?
    ensures IsName(name) && (Equals(LENGTH, Lowered(name)) && u != [] ==> IsLength(u))
  {
    hide Run, Step, NameFold, ValueEffect, Equals, IsLength, IsValue, TokenOf;
    RunConcat(p, name, [58] + ((w + u) + e.Text()), hc);
    if name == [] {
      RunEmpty(p, hc);
      RunConcat(p, [58], (w + u) + e.Text(), hc);
      RunOne(p, 58, hc);
      NoName(p, hc);
    } else {
      NameRead(p, name, hc);
      FineExactly(p, name, u);
      NameRun(p, name, hc);
      AfterName(NameFold(p, name), w, u, e, hc);
    }
  }

  /** A header line is taken exactly when its name is a token and its value fine. */
  lemma HeaderLineExactly(p: Ps, name: seq<Byte>, v: seq<Byte>, e: Eol, hc: Settings)
    requires p.st.HeaderFieldStart? && 58 !in name && CR !in name && LF !in name && CR !in v && LF !in v
    ensures Run(p, name + ([58] + (v + e.Text())), hc).Going? <==> IsToken(name) && ValueFine(name, v)
  {
    hide Run, Step, NameFold, ValueEffect, IsToken, IsName, IsValue, IsSpace, Equals, IsLength, Stripped, Header.Text;
    var h := LineOf(name, v, e);
    LineText(name, v, e);
    NamesAreTokens(name);
    if Run(p, h.Text(), hc).Going? { LineRead(p, name, h.space, Stripped(v), e, hc); }
    if IsToken(name) && ValueFine(name, v) {
      NameNotEmpty(name);
      FineExactly(p, name, Stripped(v));
      HeaderTaken(p, h, hc);
      TakenGoing(p, h.Text(), Effect(p, h).value, h.Events(), hc);
    }
  }

  lemma TakenGoing(p: Ps, d: seq<Byte>, q: Ps, o: seq<Event>, hc: Settings)
    requires Takes(p, d, q, o, hc)
    ensures Run(p, d, hc).Going?
  {
  }

  lemma NameNotEmpty(name: seq<Byte>)
    requires IsName(name)
    ensures name != []
  {
  }

  lemma NoName(p: Ps, hc: Settings)
    requires p.st.HeaderFieldStart?
    ensures Step(p, 58, hc).Failed?
  {
    hide Pass;
    PassOf(p, 58, hc);
  }

  lemma AfterName(n: Ps, w: seq<Byte>, u: seq<Byte>, e: Eol, hc: Settings)
    requires n.st.HeaderField? && IsSpace(w) && IsValue(u) && Run(n, [58] + ((w + u) + e.Text()), hc).Going?
    ensures ValueEffect(n.(st := ValueDiscardWs), u).Some?
  {
    hide Run, Step, ValueFold;
    var q := n.(st := ValueDiscardWs);
    LineByte(n, 58, hc);
    RunOne(n, 58, hc);
    RunTwo(n, [58], (w + u) + e.Text(), hc, q, []);
    assert (w + u) + e.Text() == w + (u + e.Text());
    TakesNone(q, hc);
    SpaceRun(q, w, [], q, [], hc);
    assert w + [] == w;
    RunTwo(q, w, u + e.Text(), hc, q, []);
    RunConcat(q, u, e.Text(), hc);
    if u != [] { ValueRead(q, u, hc); }
  }

  /** A line without a colon is no header line. */
  lemma NoColon(p: Ps, line: seq<Byte>, e: Eol, hc: Settings)
    requires p.st.HeaderFieldStart? && line != [] && 58 !in line && CR !in line && LF !in line
    ensures !Run(p, line + e.Text(), hc).Going?
  {
    hide Run, Step, NameFold, TokenOf;
    if Run(p, line + e.Text(), hc).Going? {
      var ch := e.Text()[0];
      assert line + e.Text() == (line + [ch]) + e.Text()[1..];
      RunConcat(p, line + [ch], e.Text()[1..], hc);
      TakenBefore(p, line, ch, hc);
      NameRead(p, line, hc);
      NameRun(p, line, hc);
      NoEnd(NameFold(p, line), ch, hc);
      assert false;
    }
  }

  lemma NoEnd(q: Ps, ch: Byte, hc: Settings)
    requires q.st.HeaderField? && (ch == CR || ch == LF)
    ensures Step(q, ch, hc).Failed?
  {
    hide Pass;
    PassOf(q, ch, hc);
  }
}
