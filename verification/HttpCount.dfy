/** The count of header bytes behind the header limit (nread): what it is for an input as the byte machine
    reads it, and by how much the count of the real parser exceeds it, which depends on the cuts. */
module HttpCount {
  import opened Lists
  import opened HttpMachine
  import opened HttpParser

  /** Reading the byte passes through a state that starts a new count. */
  function Resets(p: Ps, ch: Byte, hc: Settings): bool
    decreases Rank(p.st)
  {
    PassRank(p, ch, hc);
    var a := Pass(p, ch, hc);
    ResetsCount(p.st) || (a.next == Again && Resets(a.ps, ch, hc))
  }

  function CountByte(p: Ps, c: nat, ch: Byte, hc: Settings): nat {
    if Resets(p, ch, hc) then 0 else if ParsingHeader(p.st) then c + 1 else c
  }

  /** The header bytes since the last such state, after data; c is the count before. */
  function Counted(p: Ps, c: nat, data: seq<Byte>, hc: Settings): nat
    decreases |data|
  {
    if data == [] then c
    else
      var d := data[..|data| - 1];
      var r := Run(p, d, hc);
      if r.Going? then CountByte(r.ps, Counted(p, c, d, hc), data[|data| - 1], hc) else Counted(p, c, d, hc)
  }

  /** The input ends inside a header name or value, after at least one byte that was read there: the scanning
      loop counts its bytes, and the loop around it had counted one already. */
  predicate Scanning(p: Ps, data: seq<Byte>, hc: Settings) {
    && data != []
    && var (r, z) := (Run(p, data[..|data| - 1], hc), Run(p, data, hc));
       r.Going? && z.Going? && (r.ps.st.HeaderField? || r.ps.st.HeaderValue?) && z.ps.st == r.ps.st
  }

  /** nread after a piece of input. */
  function After(p: Ps, c: nat, data: seq<Byte>, hc: Settings): nat {
    Counted(p, c, data, hc) + if Scanning(p, data, hc) then 1 else 0
  }

  /** The count reaches the limit at byte k. */
  predicate FullAt(p: Ps, c: nat, data: seq<Byte>, hc: Settings, k: nat) {
    k <= |data| && Counted(p, c, data[..k], hc) >= MAX_HEADER
  }

  /** The piece is refused: the limit is reached and another header byte follows, or the piece ends in a scan. */
  ghost predicate Hit(p: Ps, c: nat, data: seq<Byte>, hc: Settings) {
    || (exists k: nat :: k < |data| && Run(p, data[..k], hc).Going? && FullAt(p, c, data, hc, k))
    || (Scanning(p, data, hc) && FullAt(p, c, data, hc, |data|))
  }

  lemma CountNext(p: Ps, c: nat, data: seq<Byte>, k: nat, hc: Settings)
    requires k < |data| && Run(p, data[..k], hc).Going?
    ensures Counted(p, c, data[..k + 1], hc) == CountByte(Run(p, data[..k], hc).ps, Counted(p, c, data[..k], hc), data[k], hc)
  {
    hide CountByte, Run;
    assert data[..k + 1][..k] == data[..k];
  }

  /** A byte read inside a name or value is counted, and starts no new count. */
  lemma ScanByte(p: Ps, c: nat, ch: Byte, hc: Settings)
    requires (p.st.HeaderField? && TokenOf(ch) != 0) || (p.st.HeaderValue? && ch != CR && ch != LF)
    ensures CountByte(p, c, ch, hc) == c + 1
  {
    hide Pass, FieldChar, ValueChar, TokenOf;
    PassOf(p, ch, hc);
  }

  /* ---- States without a count ---- */

  lemma BodyFrom(p: Ps, ch: Byte)
    requires OfBody(p.st) && !ActBody(p, ch).next.Fail? && !ParsingHeader(ActBody(p, ch).ps.st)
    ensures ResetsCount(p.st) || (!ParsingHeader(p.st) && !p.st.MessageDone?)
  {
    hide Unhex, ShouldKeepAlive;
  }

  lemma HeaderFrom(p: Ps, ch: Byte, hc: Settings)
    requires OfHeader(p.st) && !ActHeader(p, ch, hc).next.Fail? && !ParsingHeader(ActHeader(p, ch, hc).ps.st)
    ensures ResetsCount(p.st) || ActHeader(p, ch, hc).ps.st.MessageDone?
  {
    hide SetFlag, ValueChar, FieldChar, ShouldKeepAlive, TokenOf, ConnToken;
    FieldKeeps(p, ch);
  }

  lemma LineFrom(p: Ps, ch: Byte)
    ensures OfResponse(p.st) && !ActResponse(p, ch).next.Fail? ==> ParsingHeader(ActResponse(p, ch).ps.st)
    ensures OfRequest(p.st) && !ActRequest(p, ch).next.Fail? ==> ParsingHeader(ActRequest(p, ch).ps.st)
  {
    hide MethodChar, FirstMethod, MethodName, Digit;
  }

  lemma UrlFrom(p: Ps, ch: Byte)
    ensures OfUrl(p.st) && !ActUrl(p, ch).next.Fail? ==> ParsingHeader(ActUrl(p, ch).ps.st)
  {
    hide UrlChar;
  }

  /** A body state is entered from a state that starts a new count, from another body state, or at the end of
      a trailer, only to be left at once. */
  lemma IntoBody(p: Ps, ch: Byte, hc: Settings)
    requires !Pass(p, ch, hc).next.Fail? && !ParsingHeader(Pass(p, ch, hc).ps.st)
    ensures ResetsCount(p.st) || (!ParsingHeader(p.st) && !p.st.MessageDone?) || Pass(p, ch, hc).ps.st.MessageDone?
  {
    hide ActResponse, ActRequest, ActUrl, ActHeader, ActBody, ParsingHeader, ResetsCount;
    LineFrom(p, ch);
    UrlFrom(p, ch);
    if OfHeader(p.st) { HeaderFrom(p, ch, hc); }
    if OfBody(p.st) { BodyFrom(p, ch); }
  }

  lemma NotDone(p: Ps, ch: Byte, hc: Settings)
    ensures Pass(p, ch, hc).ps.st.MessageDone? ==> Pass(p, ch, hc).next == Again || Pass(p, ch, hc).next.Fail?
  {
    hide ActResponse, ActRequest, ActUrl;
    LineNotDone(p, ch);
    if OfHeader(p.st) { HeaderNotDone(p, ch, hc); }
    if OfBody(p.st) { BodyNotDone(p, ch); }
  }

  lemma LineNotDone(p: Ps, ch: Byte)
    ensures OfResponse(p.st) ==> !ActResponse(p, ch).ps.st.MessageDone?
    ensures OfRequest(p.st) ==> !ActRequest(p, ch).ps.st.MessageDone?
    ensures OfUrl(p.st) ==> !ActUrl(p, ch).ps.st.MessageDone?
  {
    hide MethodChar, FirstMethod, MethodName, Digit, UrlChar;
  }

  lemma HeaderNotDone(p: Ps, ch: Byte, hc: Settings)
    requires OfHeader(p.st)
    ensures ActHeader(p, ch, hc).ps.st.MessageDone? ==> ActHeader(p, ch, hc).next == Again
  {
    hide SetFlag, ValueChar, FieldChar, TokenOf, ActValueStart, ActHeadersDone;
    FieldKeeps(p, ch);
    ValueNotDone(p, ch);
  }

  lemma ValueNotDone(p: Ps, ch: Byte)
    requires OfHeader(p.st)
    ensures !ActValueStart(p, ch).ps.st.MessageDone? && (p.st.HeadersDone? ==> !ActHeadersDone(p, ch).ps.st.MessageDone?)
  {
    hide Lower, ConnToken, ShouldKeepAlive, NeedsEof;
  }

  lemma BodyNotDone(p: Ps, ch: Byte)
    requires OfBody(p.st)
    ensures ActBody(p, ch).ps.st.MessageDone? ==> ActBody(p, ch).next == Again || ActBody(p, ch).next.Fail?
  {
    hide Unhex, ShouldKeepAlive;
  }

  /* ---- The count of a piece, while it is read ---- */

  /** nread after n bytes of the piece, none of which was refused. */
  ghost predicate Ticks(p0: Ps, c0: nat, data: seq<Byte>, n: nat, nread: nat, hc: Settings) {
    && n <= |data| && nread == Counted(p0, c0, data[..n], hc) + (if n == |data| && Scanning(p0, data, hc) then 1 else 0)
    && (forall k: nat :: k < n ==> !FullAt(p0, c0, data, hc, k))
    && (n == |data| && Scanning(p0, data, hc) ==> !FullAt(p0, c0, data, hc, n))
  }

  /** The count before any byte. */
  lemma TicksStart(p0: Ps, c0: nat, data: seq<Byte>, hc: Settings)
    requires data != []
    ensures Ticks(p0, c0, data, 0, c0, hc)
  {
    assert data[..0] == [];
  }

  /** At the end of the piece. */
  lemma TicksEnd(p0: Ps, c0: nat, data: seq<Byte>, nread: nat, hc: Settings)
    requires Ticks(p0, c0, data, |data|, nread, hc)
    ensures nread == After(p0, c0, data, hc) && !Hit(p0, c0, data, hc)
  {
    hide Counted, Scanning, FullAt;
    assert data[..|data|] == data;
  }

  /** One more byte, outside the scanning loops. */
  lemma TicksByte(p0: Ps, c0: nat, data: seq<Byte>, p: nat, ps: Ps, n: nat, hc: Settings)
    requires p < |data| && Ticks(p0, c0, data, p, n, hc) && n < MAX_HEADER
    requires Run(p0, data[..p], hc).Going? && Run(p0, data[..p], hc).ps == ps
    requires p + 1 == |data| ==> !Scanning(p0, data, hc)
    ensures Ticks(p0, c0, data, p + 1, CountByte(ps, n, data[p], hc), hc)
  {
    hide Run, Scanning, CountByte, Counted;
    CountNext(p0, c0, data, p, hc);
  }

  /** The limit is reached at byte p, and another byte is counted. */
  lemma TicksFull(p0: Ps, c0: nat, data: seq<Byte>, p: nat, n: nat, hc: Settings)
    requires p < |data| && Ticks(p0, c0, data, p, n, hc) && n >= MAX_HEADER && Run(p0, data[..p], hc).Going?
    ensures Hit(p0, c0, data, hc)
  {
    hide Run, Scanning, Counted;
    assert FullAt(p0, c0, data, hc, p);
  }

  /** Every byte from p to q was counted. */
  ghost predicate Climbs(p0: Ps, c0: nat, data: seq<Byte>, p: nat, q: nat, n: nat, hc: Settings) {
    p <= q <= |data| && forall k: nat :: p <= k <= q ==> Counted(p0, c0, data[..k], hc) == n + (k - p)
  }

  lemma ClimbsStart(p0: Ps, c0: nat, data: seq<Byte>, p: nat, n: nat, hc: Settings)
    requires p < |data| && Ticks(p0, c0, data, p, n, hc)
    ensures Climbs(p0, c0, data, p, p, n, hc)
  {
    hide Counted, Scanning;
  }

  /** The byte is read inside a name or value, as s says. */
  predicate InScan(s: St, ch: Byte) {
    (s.HeaderField? && TokenOf(ch) != 0) || (s.HeaderValue? && ch != CR && ch != LF)
  }

  lemma ClimbsByte(p0: Ps, c0: nat, data: seq<Byte>, p: nat, q: nat, n: nat, ps: Ps, hc: Settings)
    requires Climbs(p0, c0, data, p, q, n, hc) && q < |data|
    requires Run(p0, data[..q], hc).Going? && Run(p0, data[..q], hc).ps == ps && InScan(ps.st, data[q])
    ensures Climbs(p0, c0, data, p, q + 1, n, hc)
  {
    hide Counted, Run, CountByte;
    CountNext(p0, c0, data, q, hc);
    ScanByte(ps, Counted(p0, c0, data[..q], hc), data[q], hc);
  }

  /** Before the last byte of a scan the parser was in the scanned state already. */
  ghost predicate Scanned(p0: Ps, data: seq<Byte>, p: nat, q: nat, s: St, hc: Settings) {
    p < q <= |data| ==> Run(p0, data[..q - 1], hc).Going? && Run(p0, data[..q - 1], hc).ps.st == s
  }

  /** The scan reached the end of the piece. */
  lemma ScanTicks(p0: Ps, c0: nat, data: seq<Byte>, p: nat, n: nat, z: Ps, hc: Settings)
    requires p < |data| && Ticks(p0, c0, data, p, n, hc) && Climbs(p0, c0, data, p, |data|, n, hc)
    requires Run(p0, data, hc).Going? && Run(p0, data, hc).ps == z && (z.st.HeaderField? || z.st.HeaderValue?)
    requires Scanned(p0, data, p, |data|, z.st, hc)
    ensures Scanning(p0, data, hc)
    ensures n + 1 + (|data| - p) <= MAX_HEADER ==> Ticks(p0, c0, data, |data|, n + 1 + (|data| - p), hc)
    ensures n + 1 + (|data| - p) > MAX_HEADER ==> Hit(p0, c0, data, hc)
  {
    hide Counted, Run;
    assert FullAt(p0, c0, data, hc, |data|) <==> n + (|data| - p) >= MAX_HEADER;
  }

  /** The scan ended before byte q. */
  lemma ScanEnds(p0: Ps, c0: nat, data: seq<Byte>, p: nat, q: nat, n: nat, ps: Ps, hc: Settings)
    requires p <= q < |data| && Ticks(p0, c0, data, p, n, hc) && Climbs(p0, c0, data, p, q, n, hc)
    requires Run(p0, data[..q], hc).Going?
    ensures n + 1 + (q - p) <= MAX_HEADER ==> Ticks(p0, c0, data, q, n + (q - p), hc)
    ensures n + 1 + (q - p) > MAX_HEADER ==> Hit(p0, c0, data, hc)
  {
    hide Counted, Run, Scanning;
    assert n + (q - p) >= MAX_HEADER ==> FullAt(p0, c0, data, hc, q);
  }

  /** Skipping to a line end in a value that is not looked at counts every byte. */
  lemma {:induction false} SkipClimbs(p0: Ps, c0: nat, data: seq<Byte>, p: nat, q: nat, r: nat, n: nat, ps: Ps, sent: seq<Event>, mark: Mark, hc: Settings)
    requires Climbs(p0, c0, data, p, q, n, hc) && q <= r <= |data| && Sync(p0, data, q, ps, sent, mark, hc) && ps.st.HeaderValue? && ps.hs.General?
    requires forall i :: q <= i < r ==> data[i] != CR && data[i] != LF
    ensures Climbs(p0, c0, data, p, r, n, hc) && Sync(p0, data, r, ps, sent, mark, hc)
    ensures q < r ==> Run(p0, data[..r - 1], hc).Going? && Run(p0, data[..r - 1], hc).ps.st.HeaderValue?
    decreases r - q
  {
    hide Run, Counted, ValueChar, Climbs;
    if q < r {
      ClimbsByte(p0, c0, data, p, q, n, ps, hc);
      ValueSkip(p0, data, q, q + 1, ps, sent, mark, hc);
      SkipClimbs(p0, c0, data, p, q + 1, r, n, ps, sent, mark, hc);
    }
  }

  /** So a value without a line end within the limit is refused. */
  lemma SkipHits(p0: Ps, c0: nat, data: seq<Byte>, p: nat, q: nat, n: nat, ps: Ps, sent: seq<Event>, mark: Mark, hc: Settings)
    requires Climbs(p0, c0, data, p, q, n, hc) && q + MAX_HEADER < |data| && Sync(p0, data, q, ps, sent, mark, hc) && ps.st.HeaderValue? && ps.hs.General?
    requires forall i :: q <= i < q + MAX_HEADER ==> data[i] != CR && data[i] != LF
    ensures Hit(p0, c0, data, hc)
  {
    hide Run, Counted, Scanning, ValueChar;
    SkipClimbs(p0, c0, data, p, q, q + MAX_HEADER, n, ps, sent, mark, hc);
    assert FullAt(p0, c0, data, hc, q + MAX_HEADER);
  }

  /** The blocks of a body are not counted. */
  lemma {:induction false} BodyTicks(p0: Ps, c0: nat, data: seq<Byte>, p: nat, k: nat, ps: Ps, sent: seq<Event>, mark: Mark, hc: Settings)
    requires p + k <= |data| && Sync(p0, data, p, ps, sent, mark, hc) && InBody(ps.st) && mark.At? && mark.k == Body
    requires !ps.st.BodyIdentityEof? ==> k < ps.length
    requires Ticks(p0, c0, data, p, 0, hc)
    ensures Ticks(p0, c0, data, p + k, 0, hc)
    decreases k
  {
    hide Step, Ticks;
    if k > 0 {
      var ps' := if ps.st.BodyIdentityEof? then ps else ps.(length := ps.length - 1);
      BodyTick(p0, c0, data, p, ps, sent, mark, hc);
      BodyByte(ps, data[p], hc);
      SyncByte(p0, data, p, ps, sent, mark, hc, ps');
      BodyTicks(p0, c0, data, p + 1, k - 1, ps', sent, mark, hc);
    }
  }

  /** One byte from a body state. */
  lemma BodyTick(p0: Ps, c0: nat, data: seq<Byte>, p: nat, ps: Ps, sent: seq<Event>, mark: Mark, hc: Settings)
    requires p < |data| && Sync(p0, data, p, ps, sent, mark, hc) && !ParsingHeader(ps.st) && Ticks(p0, c0, data, p, 0, hc)
    ensures Ticks(p0, c0, data, p + 1, 0, hc)
  {
    hide Run, Ticks, Resets;
    if p + 1 == |data| { NoScan(p0, data, ps, hc); }
    TicksByte(p0, c0, data, p, ps, 0, hc);
  }

  lemma NoScan(p0: Ps, data: seq<Byte>, ps: Ps, hc: Settings)
    requires data != [] && Run(p0, data[..|data| - 1], hc).Going? && Run(p0, data[..|data| - 1], hc).ps == ps
    requires !(ps.st.HeaderField? || ps.st.HeaderValue?) || (Run(p0, data, hc).Going? && Run(p0, data, hc).ps.st != ps.st)
    ensures !Scanning(p0, data, hc)
  {
  }
}
