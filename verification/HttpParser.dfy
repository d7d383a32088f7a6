/** http_parser_execute as it works on a buffer: marks into the buffer, scanning loops for header
    fields and values, block reads of bodies, and the limit on the header size.  It is proved to do
    what the byte machine does. */
module HttpParser {
  import opened Lists
  import opened HttpMachine

  const MAX_HEADER: nat := 80 * 1024

  /** The five mark variables; the proofs show that at most one is ever set. */
  datatype Mark = Unset | At(k: Kind, m: nat)

  function Datas(k: Kind, bytes: seq<Byte>): (r: seq<Event>)
    ensures |r| == |bytes| && forall i :: 0 <= i < |r| ==> r[i] == Data(k, bytes[i])
  {
    seq(|bytes|, i requires 0 <= i < |bytes| => Data(k, bytes[i]))
  }

  /** Marked bytes of the buffer that no callback has received yet. */
  function Pend(mark: Mark, data: seq<Byte>, p: nat): seq<Event>
    requires p <= |data| && (mark.At? ==> mark.m <= p)
  {
    if mark.At? then Datas(mark.k, data[mark.m..p]) else []
  }

  /** Which mark goes with which state. */
  predicate MarkOk(s: St, mark: Mark) {
    if KindOf(s).Some? then mark.At? && mark.k == KindOf(s).value
    else mark.At? ==> mark.k == Body && (InBody(s) || s.ChunkDataAlmostDone?)
  }

  /** What a pass may ask for, by the state it starts from: data states run their callback exactly when
      they are left, other states set a mark exactly when a data state is entered. */
  predicate Shape(s: St, a: Act) {
    var k := KindOf(s);
    if k.Some? then
      && a.mark.None? && a.note.None? && a.next != Exit
      && (if a.next == Advance && KindOf(a.ps.st) == k then a.cb == Quiet
          else a.cb == Before(k.value) && KindOf(a.ps.st).None? && !InBody(a.ps.st))
    else if InBody(s) then
      && a.mark == Some(Body) && a.note.None? && KindOf(a.ps.st).None?
      && (if a.next == Advance then a.cb == Quiet && (InBody(a.ps.st) || a.ps.st.ChunkDataAlmostDone?)
          else a.next == Again && a.cb == Including(Body))
    else if s.ChunkDataAlmostDone? then
      a.mark.None? && a.cb == Before(Body) && a.note.None? && a.next == Advance && a.ps.st.ChunkDataDone?
    else if KindOf(a.ps.st).Some? then
      a.mark == KindOf(a.ps.st) && a.cb == Quiet && a.note.None? && a.next == Advance
    else (a.mark.None? && a.cb == Quiet) || (a.mark == Some(Value) && a.cb == Before(Value))
  }

  lemma ResponseShape(p: Ps, ch: Byte)
    requires OfResponse(p.st) && !ActResponse(p, ch).next.Fail?
    ensures Shape(p.st, ActResponse(p, ch))
  {
    hide Digit;
  }

  lemma RequestShape(p: Ps, ch: Byte)
    requires OfRequest(p.st) && !ActRequest(p, ch).next.Fail?
    ensures Shape(p.st, ActRequest(p, ch))
  {
    hide MethodChar, FirstMethod, MethodName;
  }

  lemma UrlShape(p: Ps, ch: Byte)
    requires OfUrl(p.st) && !ActUrl(p, ch).next.Fail?
    ensures Shape(p.st, ActUrl(p, ch))
  {
    hide UrlChar;
  }

  lemma HeaderShape(p: Ps, ch: Byte, hc: Settings)
    requires OfHeader(p.st) && !ActHeader(p, ch, hc).next.Fail?
    ensures Shape(p.st, ActHeader(p, ch, hc))
  {
    hide ValueChar, FieldChar, SetFlag, ConnToken, TokenOf;
  }

  lemma BodyShape(p: Ps, ch: Byte)
    requires OfBody(p.st) && !ActBody(p, ch).next.Fail?
    ensures Shape(p.st, ActBody(p, ch))
  {
  }

  lemma PassShape(p: Ps, ch: Byte, hc: Settings)
    requires !Pass(p, ch, hc).next.Fail?
    ensures Shape(p.st, Pass(p, ch, hc))
  {
    hide ActResponse, ActRequest, ActUrl, ActHeader, ActBody, Shape;
    if OfResponse(p.st) { ResponseShape(p, ch); }
    else if OfRequest(p.st) { RequestShape(p, ch); }
    else if OfUrl(p.st) { UrlShape(p, ch); }
    else if OfHeader(p.st) { HeaderShape(p, ch, hc); }
    else { BodyShape(p, ch); }
  }

  /* ---- The actions of a pass, on the buffer ---- */

  function SetMark(mark: Mark, a: Act, p: nat): Mark {
    if mark.Unset? && a.mark.Some? then At(a.mark.value, p) else mark
  }

  /** Bytes the data callback of the pass receives. */
  function Handed(mark: Mark, a: Act, data: seq<Byte>, p: nat): seq<Event>
    requires p < |data| && (mark.At? ==> mark.m <= p)
  {
    if mark.At? && a.cb == Before(mark.k) then Datas(mark.k, data[mark.m..p])
    else if mark.At? && a.cb == Including(mark.k) then Datas(mark.k, data[mark.m..p + 1])
    else []
  }

  function ClearMark(mark: Mark, a: Act): Mark {
    if mark.At? && (a.cb == Before(mark.k) || a.cb == Including(mark.k)) then Unset else mark
  }

  predicate Placed(mark: Mark, p: nat) { mark.At? ==> mark.m <= p }

  /** Marks, callbacks and notifications of a pass add up to its events. */
  ghost predicate Balanced(s: St, a: Act, mark: Mark, data: seq<Byte>, p: nat)
    requires p < |data| && Placed(mark, p)
  {
    var m1 := SetMark(mark, a, p);
    var m2 := ClearMark(m1, a);
    && MarkOk(a.ps.st, m2) && (a.next != Advance ==> m2.Unset?)
    && Pend(mark, data, p) + PassData(s, a, data[p]) == Handed(m1, a, data, p) + Pend(m2, data, if a.next == Again then p else p + 1)
    && (a.note.Some? ==> m2.Unset?)
  }

  lemma PendNext(mark: Mark, data: seq<Byte>, p: nat)
    requires p < |data| && mark.At? && mark.m <= p
    ensures Pend(mark, data, p + 1) == Pend(mark, data, p) + [Data(mark.k, data[p])]
  {
    assert data[mark.m..p + 1] == data[mark.m..p] + [data[p]];
  }

  lemma DataPass(s: St, a: Act, mark: Mark, data: seq<Byte>, p: nat)
    requires Shape(s, a) && !a.next.Fail? && MarkOk(s, mark) && p < |data| && Placed(mark, p) && KindOf(s).Some?
    ensures Balanced(s, a, mark, data, p)
  {
    hide KindOf, InBody;
    KindNotBody(s);
    PendNext(mark, data, p);
  }

  lemma KindNotBody(s: St)
    ensures KindOf(s).Some? ==> !InBody(s) && !s.ChunkDataAlmostDone?
  {
  }

  lemma BodyPass(s: St, a: Act, mark: Mark, data: seq<Byte>, p: nat)
    requires Shape(s, a) && !a.next.Fail? && MarkOk(s, mark) && p < |data| && Placed(mark, p)
    requires InBody(s) || s.ChunkDataAlmostDone?
    ensures Balanced(s, a, mark, data, p)
  {
    var m1 := SetMark(mark, a, p);
    if m1.At? { PendNext(m1, data, p); }
  }

  lemma OtherPass(s: St, a: Act, mark: Mark, data: seq<Byte>, p: nat)
    requires Shape(s, a) && !a.next.Fail? && MarkOk(s, mark) && p < |data| && Placed(mark, p)
    requires KindOf(s).None? && !InBody(s) && !s.ChunkDataAlmostDone?
    ensures Balanced(s, a, mark, data, p)
  {
    var m1 := SetMark(mark, a, p);
    if m1.At? { PendNext(m1, data, p); }
  }

  lemma PassBalanced(p0: Ps, hc: Settings, mark: Mark, data: seq<Byte>, p: nat)
    requires p < |data| && Placed(mark, p) && MarkOk(p0.st, mark) && !Pass(p0, data[p], hc).next.Fail?
    ensures Balanced(p0.st, Pass(p0, data[p], hc), mark, data, p)
  {
    hide Pass, Balanced, Shape;
    var (s, a) := (p0.st, Pass(p0, data[p], hc));
    PassShape(p0, data[p], hc);
    if KindOf(s).Some? { DataPass(s, a, mark, data, p); }
    else if InBody(s) || s.ChunkDataAlmostDone? { BodyPass(s, a, mark, data, p); }
    else { OtherPass(s, a, mark, data, p); }
  }

  datatype Status = Parsed | Overflow | Bad(err: Error) | Upgraded

  /** After p bytes of data, the parser and what it handed out agree with the byte machine. */
  ghost predicate Sync(p0: Ps, data: seq<Byte>, p: nat, ps: Ps, sent: seq<Event>, mark: Mark, hc: Settings) {
    && p <= |data| && Placed(mark, p) && MarkOk(ps.st, mark)
    && var r := Run(p0, data[..p], hc);
       r.Going? && r.ps == ps && sent + Pend(mark, data, p) == r.out
  }

  lemma RunNext(p0: Ps, data: seq<Byte>, p: nat, hc: Settings)
    requires p < |data| && Run(p0, data[..p], hc).Going?
    ensures var r := Run(p0, data[..p], hc); Run(p0, data[..p + 1], hc) == Prefix(r.out, p, Step(r.ps, data[p], hc))
  {
    assert data[..p + 1][..p] == data[..p];
  }

  /** An input that ends the machine early ends it at the same byte with more input behind. */
  lemma {:induction false} RunStops(p0: Ps, data: seq<Byte>, p: nat, hc: Settings)
    requires p <= |data| && !Run(p0, data[..p], hc).Going?
    ensures Run(p0, data, hc) == Run(p0, data[..p], hc)
    decreases |data| - p
  {
    if p < |data| {
      assert data[..p + 1][..p] == data[..p];
      RunStops(p0, data, p + 1, hc);
    } else {
      assert data[..p] == data;
    }
  }

  /** In the middle of byte p: passes so far made ps of what the parser was before the byte.  A byte that is
      going to be refused has caused no event. */
  ghost predicate Mid(p0: Ps, data: seq<Byte>, p: nat, ps: Ps, sent: seq<Event>, mark: Mark, hc: Settings) {
    && p < |data| && Placed(mark, p) && MarkOk(ps.st, mark)
    && var r := Run(p0, data[..p], hc);
       && r.Going? && Run(p0, data[..p + 1], hc) == Prefix(sent + Pend(mark, data, p), p, Step(ps, data[p], hc))
       && (Step(ps, data[p], hc).Failed? ==> sent + Pend(mark, data, p) == r.out)
  }

  /** The callbacks received what the byte machine makes of the first p bytes, up to the bytes that are still
      marked. */
  ghost predicate Stopped(p0: Ps, data: seq<Byte>, p: nat, sent: seq<Event>, hc: Settings) {
    && p <= |data| && Run(p0, data[..p], hc).Going?
    && exists mark: Mark :: Placed(mark, p) && sent + Pend(mark, data, p) == Run(p0, data[..p], hc).out
  }

  lemma SyncStopped(p0: Ps, data: seq<Byte>, p: nat, ps: Ps, sent: seq<Event>, mark: Mark, hc: Settings)
    requires Sync(p0, data, p, ps, sent, mark, hc)
    ensures Stopped(p0, data, p, sent, hc)
  {
    hide Run;
  }

  lemma MidStart(p0: Ps, data: seq<Byte>, p: nat, ps: Ps, sent: seq<Event>, mark: Mark, hc: Settings)
    requires p < |data| && Sync(p0, data, p, ps, sent, mark, hc)
    ensures Mid(p0, data, p, ps, sent, mark, hc)
  {
    hide Step, Run;
    RunNext(p0, data, p, hc);
  }

  /* A pass after which the byte is refused makes no event. */

  lemma HeaderQuiet(p: Ps, ch: Byte, hc: Settings)
    requires OfHeader(p.st) && ActHeader(p, ch, hc).next == Again && PassEvents(p.st, ActHeader(p, ch, hc), ch) != []
    ensures ch == LF && (ActHeader(p, ch, hc).ps.st.MessageDone? || ActHeader(p, ch, hc).ps.st.HeadersDone?)
  {
    hide SetFlag, ValueChar, FieldChar, TokenOf, ActValueStart, NewMessage;
    StartNotAgain(p, ch);
  }

  lemma StartNotAgain(p: Ps, ch: Byte)
    ensures ActValueStart(p, ch).next != Again
  {
  }

  lemma DoneTakes(p: Ps, ch: Byte, hc: Settings)
    requires p.st.MessageDone? || (p.st.HeadersDone? && ch == LF)
    ensures !Step(p, ch, hc).Failed?
  {
    hide Pass, NewMessage, NeedsEof;
    PassOf(p, ch, hc);
  }

  lemma OtherQuiet(p: Ps, ch: Byte, hc: Settings)
    requires !OfHeader(p.st) && Pass(p, ch, hc).next == Again && PassEvents(p.st, Pass(p, ch, hc), ch) != []
    ensures Pass(p, ch, hc).ps.st.MessageDone?
  {
    hide Pass, FirstMethod, MethodChar, MethodName, Digit, Unhex, UrlChar, NewMessage;
    PassOf(p, ch, hc);
  }

  lemma RefusedQuiet(p: Ps, ch: Byte, hc: Settings)
    requires Pass(p, ch, hc).next == Again && Step(Pass(p, ch, hc).ps, ch, hc).Failed?
    ensures PassEvents(p.st, Pass(p, ch, hc), ch) == []
  {
    hide Pass, Step, PassEvents;
    var a := Pass(p, ch, hc);
    if PassEvents(p.st, a, ch) != [] {
      PassOf(p, ch, hc);
      if OfHeader(p.st) { HeaderQuiet(p, ch, hc); } else { OtherQuiet(p, ch, hc); }
      DoneTakes(a.ps, ch, hc);
    }
  }

  lemma PrefixTwice(a: seq<Event>, b: seq<Event>, n: nat, r: Result)
    ensures Prefix(a, n, Prefix(b, 0, r)) == Prefix(a + b, n, r)
  {
    match r
    case Going(p, o) => assert a + (b + o) == a + b + o;
    case Failed(e, k) =>
    case Exited(p, o, k) => assert a + (b + o) == a + b + o;
  }

  /** One pass with its actions carried out. */
  lemma MidPass(p0: Ps, data: seq<Byte>, p: nat, ps: Ps, sent: seq<Event>, mark: Mark, hc: Settings)
    requires Mid(p0, data, p, ps, sent, mark, hc) && !Pass(ps, data[p], hc).next.Fail?
    ensures var a := Pass(ps, data[p], hc);
      var m1 := SetMark(mark, a, p);
      var (m2, s2) := (ClearMark(m1, a), sent + Handed(m1, a, data, p) + Told(a));
      && (a.next == Again ==> Mid(p0, data, p, a.ps, s2, m2, hc) && Rank(a.ps.st) < Rank(ps.st))
      && (a.next == Advance ==> Sync(p0, data, p + 1, a.ps, s2, m2, hc))
      && (a.next == Exit ==> Run(p0, data[..p + 1], hc) == Exited(a.ps, s2, p))
  {
    hide Pass, Run;
    var a := Pass(ps, data[p], hc);
    PassBalanced(ps, hc, mark, data, p);
    PassRank(ps, data[p], hc);
    var m1 := SetMark(mark, a, p);
    var m2 := ClearMark(m1, a);
    var q := if a.next == Again then p else p + 1;
    Sums(sent, Pend(mark, data, p), PassData(ps.st, a, data[p]), Told(a), Handed(m1, a, data, p), Pend(m2, data, q));
    if a.next == Again {
      PrefixTwice(sent + Pend(mark, data, p), PassEvents(ps.st, a, data[p]), p, Step(a.ps, data[p], hc));
      if Step(a.ps, data[p], hc).Failed? { RefusedQuiet(ps, data[p], hc); }
    }
  }

  lemma MidFacts(p0: Ps, data: seq<Byte>, p: nat, ps: Ps, sent: seq<Event>, mark: Mark, hc: Settings)
    requires Mid(p0, data, p, ps, sent, mark, hc)
    ensures p < |data| && Placed(mark, p) && forall a :: Placed(SetMark(mark, a, p), p)
  {
    hide Step, Run;
  }

  lemma MidFail(p0: Ps, data: seq<Byte>, p: nat, ps: Ps, sent: seq<Event>, mark: Mark, hc: Settings)
    requires Mid(p0, data, p, ps, sent, mark, hc) && Pass(ps, data[p], hc).next.Fail?
    ensures Run(p0, data[..p + 1], hc) == Failed(Pass(ps, data[p], hc).next.err, p) && Stopped(p0, data, p, sent, hc)
  {
    hide Pass, Run;
  }

  lemma Sums(sent: seq<Event>, pend: seq<Event>, d: seq<Event>, t: seq<Event>, h: seq<Event>, pend2: seq<Event>)
    requires pend + d == h + pend2 && (t != [] ==> pend2 == [])
    ensures (sent + pend) + (d + t) == (sent + h + t) + pend2
  {
    assert (sent + pend) + (d + t) == sent + (pend + d) + t;
    if t == [] { assert sent + (h + pend2) + t == (sent + h + t) + pend2; }
    else { assert sent + (h + pend2) + t == (sent + h + t) + pend2; }
  }

  /* ---- Runs of data bytes ---- */

  /** A byte that is data of the marked kind only moves the machine. */
  lemma SyncByte(p0: Ps, data: seq<Byte>, p: nat, ps: Ps, sent: seq<Event>, mark: Mark, hc: Settings, ps': Ps)
    requires p < |data| && Sync(p0, data, p, ps, sent, mark, hc) && mark.At?
    requires Step(ps, data[p], hc) == Going(ps', [Data(mark.k, data[p])]) && MarkOk(ps'.st, mark)
    ensures Sync(p0, data, p + 1, ps', sent, mark, hc)
  {
    hide Step, Run, MarkOk;
    RunNext(p0, data, p, hc);
    PendNext(mark, data, p);
    assert sent + (Pend(mark, data, p) + [Data(mark.k, data[p])]) == (sent + Pend(mark, data, p)) + [Data(mark.k, data[p])];
  }

  lemma FieldByte(ps: Ps, ch: Byte, hc: Settings)
    requires ps.st.HeaderField? && TokenOf(ch) != 0
    ensures Step(ps, ch, hc) == Going(FieldChar(ps, TokenOf(ch)), [Data(Field, ch)])
  {
    hide Pass, FieldChar, TokenOf;
    PassOf(ps, ch, hc);
  }

  lemma ValueByte(ps: Ps, ch: Byte, hc: Settings)
    requires ps.st.HeaderValue? && ch != CR && ch != LF
    ensures Step(ps, ch, hc) ==
      match ValueChar(ps, ch) case None => Failed(InvalidContentLength, 0) case Some(q) => Going(q, [Data(Value, ch)])
  {
    hide Pass, ValueChar;
    PassOf(ps, ch, hc);
  }

  /** Bytes of a value whose header is not looked at change nothing, up to the next CR or LF: what
      the memchr skip of the h_general case relies on. */
  lemma {:induction false} ValueSkip(p0: Ps, data: seq<Byte>, p: nat, q: nat, ps: Ps, sent: seq<Event>, mark: Mark, hc: Settings)
    requires p <= q <= |data| && Sync(p0, data, p, ps, sent, mark, hc) && ps.st.HeaderValue? && ps.hs.General?
    requires forall i :: p <= i < q ==> data[i] != CR && data[i] != LF
    ensures Sync(p0, data, q, ps, sent, mark, hc)
    decreases q - p
  {
    if p < q {
      ValueByte(ps, data[p], hc);
      SyncByte(p0, data, p, ps, sent, mark, hc, ps);
      ValueSkip(p0, data, p + 1, q, ps, sent, mark, hc);
    }
  }

  lemma BodyByte(ps: Ps, ch: Byte, hc: Settings)
    requires InBody(ps.st) && (!ps.st.BodyIdentityEof? ==> ps.length > 1)
    ensures Step(ps, ch, hc) == Going(if ps.st.BodyIdentityEof? then ps else ps.(length := ps.length - 1), [Data(Body, ch)])
  {
    hide Pass;
    PassOf(ps, ch, hc);
  }

  lemma LastChunkByte(ps: Ps, ch: Byte, hc: Settings)
    requires ps.st.ChunkData? && ps.length == 1
    ensures Step(ps, ch, hc) == Going(ps.(length := 0, st := ChunkDataAlmostDone), [Data(Body, ch)])
  {
    hide Pass;
    PassOf(ps, ch, hc);
  }

  lemma LastIdentityByte(ps: Ps, ch: Byte, hc: Settings)
    requires ps.st.BodyIdentity? && ps.length == 1
    ensures Pass(ps, ch, hc) == Act(ps.(length := 0, st := MessageDone), Some(Body), Including(Body), None, Again)
  {
    hide Pass;
    PassOf(ps, ch, hc);
  }

  /** The block reads of the body states. */
  lemma {:induction false} BodyBlock(p0: Ps, data: seq<Byte>, p: nat, n: nat, ps: Ps, sent: seq<Event>, mark: Mark, hc: Settings)
    requires p + n <= |data| && Sync(p0, data, p, ps, sent, mark, hc) && InBody(ps.st) && mark.At? && mark.k == Body
    requires !ps.st.BodyIdentityEof? ==> n < ps.length
    ensures Sync(p0, data, p + n, if ps.st.BodyIdentityEof? then ps else ps.(length := ps.length - n), sent, mark, hc)
    decreases n
  {
    hide Step, Sync;
    if n > 0 {
      var ps' := if ps.st.BodyIdentityEof? then ps else ps.(length := ps.length - 1);
      BodyByte(ps, data[p], hc);
      SyncByte(p0, data, p, ps, sent, mark, hc, ps');
      BodyBlock(p0, data, p + 1, n - 1, ps', sent, mark, hc);
    }
  }

  /** A mark set at the current byte has nothing pending. */
  lemma SyncMark(p0: Ps, data: seq<Byte>, p: nat, ps: Ps, sent: seq<Event>, hc: Settings)
    requires p < |data| && Sync(p0, data, p, ps, sent, Unset, hc) && InBody(ps.st)
    ensures Sync(p0, data, p, ps, sent, At(Body, p), hc)
  {
    hide Run;
  }

  /** PARSING_HEADER */
  predicate ParsingHeader(s: St) {
    !(s.ChunkData? || s.ChunkDataAlmostDone? || s.ChunkDataDone? || s.BodyIdentity? || s.BodyIdentityEof? || s.MessageDone?)
  }

  /** The states that start a new count of header bytes. */
  predicate ResetsCount(s: St) { s.HeadersDone? || s.ChunkSizeAlmostDone? || s.ChunkDataDone? }

  lemma BodyInto(p: Ps, ch: Byte)
    requires OfBody(p.st) && !ActBody(p, ch).next.Fail? && ActBody(p, ch).ps.st.ChunkSizeStart?
    ensures ResetsCount(p.st)
  {
    hide Unhex, ShouldKeepAlive;
  }

  lemma HeaderInto(p: Ps, ch: Byte, hc: Settings)
    requires OfHeader(p.st) && !ActHeader(p, ch, hc).next.Fail? && ActHeader(p, ch, hc).ps.st.ChunkSizeStart?
    ensures ResetsCount(p.st)
  {
    hide SetFlag, ValueChar, FieldChar, ShouldKeepAlive, TokenOf, ConnToken;
    FieldKeeps(p, ch);
  }

  lemma LineInto(p: Ps, ch: Byte)
    ensures OfResponse(p.st) && !ActResponse(p, ch).next.Fail? ==> !ActResponse(p, ch).ps.st.ChunkSizeStart?
    ensures OfRequest(p.st) && !ActRequest(p, ch).next.Fail? ==> !ActRequest(p, ch).ps.st.ChunkSizeStart?
  {
    hide MethodChar, FirstMethod, MethodName, Digit;
  }

  /** A chunk size is only waited for after a state that restarted the count: the assert on nread. */
  lemma IntoChunkSize(p: Ps, ch: Byte, hc: Settings)
    requires Pass(p, ch, hc).ps.st.ChunkSizeStart? && !Pass(p, ch, hc).next.Fail?
    ensures ResetsCount(p.st)
  {
    hide ActResponse, ActRequest, ActUrl, ActHeader, ActBody;
    LineInto(p, ch);
    UrlKinds(p, ch);
    if OfHeader(p.st) { HeaderInto(p, ch, hc); }
    if OfBody(p.st) { BodyInto(p, ch); }
  }

  lemma FieldKeeps(p: Ps, ch: Byte)
    ensures FieldChar(p, TokenOf(ch)).st == p.st && (ValueChar(p, ch).Some? ==> ValueChar(p, ch).value.st == p.st)
  {
  }

  lemma UrlKinds(p: Ps, ch: Byte)
    ensures OfUrl(p.st) && !ActUrl(p, ch).next.Fail? ==> !ActUrl(p, ch).ps.st.ChunkSizeStart?
  {
    hide UrlChar;
  }
}
