/** http_parser_execute: the loop over one piece of input. */
module HttpExecute {
  import opened Lists
  import opened HttpMachine
  import opened HttpParser
  import opened HttpInvariant
  import opened HttpCount

  class Parser {
    const hc: Settings
    var ps: Ps
    var nread: nat
    var out: seq<Event>  // everything the callbacks received

    constructor (kind: Type, settings: Settings)
      ensures ps == Fresh(kind) && hc == settings && nread == 0 && out == []
    {
      hc, nread, out := settings, 0, [];
      ps := Fresh(kind);
    }

    /** COUNT_HEADER_SIZE */
    method Count(n: nat) returns (ok: bool)
      modifies this`nread
      ensures nread == old(nread) + n && (ok <==> nread <= MAX_HEADER)
    {
      nread := nread + n;
      ok := nread <= MAX_HEADER;
    }

    /** The passes through the switch for byte p, until it advances. */
    method Passes(data: seq<Byte>, p: nat, mark0: Mark, ghost p0: Ps, ghost sent0: seq<Event>, ghost base: seq<Event>)
      returns (mark: Mark, st: Status, ghost sent: seq<Event>)
      requires Mid(p0, data, p, ps, sent0, mark0, hc) && out == base + sent0
      requires ps.st.ChunkSizeStart? ==> nread == 1
      requires !ParsingHeader(ps.st) ==> nread == 0
      modifies this
      ensures out == base + sent && st != Overflow
      ensures st == Parsed ==> Sync(p0, data, p + 1, ps, sent, mark, hc) && Zeroed(ps, nread)
      ensures st == Parsed ==> nread == if Resets(old(ps), data[p], hc) then 0 else old(nread)
      ensures st.Bad? ==> Run(p0, data[..p + 1], hc) == Failed(st.err, p) && Stopped(p0, data, p, sent, hc)
      ensures st == Upgraded ==> Run(p0, data[..p + 1], hc) == Exited(ps, sent, p)
    {
      hide Pass, Step, Run, Mid, Sync, Stopped;
      mark, sent, st := mark0, sent0, Parsed;
      MidFacts(p0, data, p, ps, sent0, mark0, hc);
      var again := true;
      ghost var reset := false;
      while again
        invariant out == base + sent && st != Overflow && p < |data|
        invariant again ==> Mid(p0, data, p, ps, sent, mark, hc) && (!ParsingHeader(ps.st) && !ps.st.MessageDone? ==> nread == 0)
        invariant again ==> (Resets(old(ps), data[p], hc) <==> reset || Resets(ps, data[p], hc))
        invariant !again && st == Parsed ==> (Resets(old(ps), data[p], hc) <==> reset)
        invariant st == Parsed ==> nread == if reset then 0 else old(nread)
        invariant again ==> st == Parsed
        invariant !again && st == Parsed ==> Sync(p0, data, p + 1, ps, sent, mark, hc) && Zeroed(ps, nread)
        invariant !again && st.Bad? ==> Run(p0, data[..p + 1], hc) == Failed(st.err, p) && Stopped(p0, data, p, sent, hc)
        invariant !again && st == Upgraded ==> Run(p0, data[..p + 1], hc) == Exited(ps, sent, p)
        decreases again, Rank(ps.st)
      {
        ghost var q := ps;
        again, mark, st, sent := OnePass(data, p, mark, p0, sent, base);
        if st == Parsed { reset := reset || ResetsCount(q.st); }
      }
    }

    /** One pass: the switch, and the mark, callback and notification it asks for. */
    method OnePass(data: seq<Byte>, p: nat, mark0: Mark, ghost p0: Ps, ghost sent0: seq<Event>, ghost base: seq<Event>)
      returns (again: bool, mark: Mark, st: Status, ghost sent: seq<Event>)
      requires Mid(p0, data, p, ps, sent0, mark0, hc) && out == base + sent0
      requires !ParsingHeader(ps.st) && !ps.st.MessageDone? ==> nread == 0
      modifies this
      ensures out == base + sent && st != Overflow && p < |data|
      ensures again ==> Mid(p0, data, p, ps, sent, mark, hc) && Rank(ps.st) < Rank(old(ps.st))
      ensures again ==> st == Parsed && (!ParsingHeader(ps.st) && !ps.st.MessageDone? ==> nread == 0)
      ensures st == Parsed ==> nread == if ResetsCount(old(ps).st) then 0 else old(nread)
      ensures st == Parsed ==> (Resets(old(ps), data[p], hc) <==> ResetsCount(old(ps).st) || (again && Resets(ps, data[p], hc)))
      ensures !again && st == Parsed ==> Sync(p0, data, p + 1, ps, sent, mark, hc) && Zeroed(ps, nread)
      ensures !again && st.Bad? ==> Run(p0, data[..p + 1], hc) == Failed(st.err, p) && Stopped(p0, data, p, sent, hc)
      ensures !again && st == Upgraded ==> Run(p0, data[..p + 1], hc) == Exited(ps, sent, p)
    {
      hide Pass, Run, Step, Mid, Sync, Stopped, SetMark, ClearMark, Handed, Told, Rank;
      MidFacts(p0, data, p, ps, sent0, mark0, hc);
      var a := Pass(ps, data[p], hc);
      if a.next.Fail? {
        MidFail(p0, data, p, ps, sent0, mark0, hc);
        ps := a.ps;
        return false, mark0, Bad(a.next.err), sent0;
      }
      MidPass(p0, data, p, ps, sent0, mark0, hc);
      if a.ps.st.ChunkSizeStart? { IntoChunkSize(ps, data[p], hc); }
      if !ParsingHeader(a.ps.st) { IntoBody(ps, data[p], hc); NotDone(ps, data[p], hc); }
      var m1 := SetMark(mark0, a, p);
      out := out + Handed(m1, a, data, p) + Told(a);
      sent := sent0 + Handed(m1, a, data, p) + Told(a);
      assert out == base + sent;
      if ResetsCount(ps.st) { nread := 0; }
      mark := ClearMark(m1, a);
      ps := a.ps;
      again := a.next == Again;
      st := if a.next == Exit then Upgraded else Parsed;
    }

    /** The inner loop of s_header_field. */
    method ScanField(data: seq<Byte>, p: nat, mark: Mark, ghost p0: Ps, ghost c0: nat, ghost c: nat, ghost sent: seq<Event>) returns (q: nat)
      requires p < |data| && Sync(p0, data, p, ps, sent, mark, hc) && ps.st.HeaderField? && Climbs(p0, c0, data, p, p, c, hc)
      modifies this`ps
      ensures p <= q <= |data| && Sync(p0, data, q, ps, sent, mark, hc) && ps.st.HeaderField?
      ensures q < |data| ==> TokenOf(data[q]) == 0
      ensures Climbs(p0, c0, data, p, q, c, hc) && Scanned(p0, data, p, q, HeaderField, hc)
    {
      hide Step, Run, FieldChar, TokenOf, Climbs;
      q := p;
      while q < |data| && TokenOf(data[q]) != 0
        invariant p <= q <= |data| && Sync(p0, data, q, ps, sent, mark, hc) && ps.st.HeaderField?
        invariant Climbs(p0, c0, data, p, q, c, hc) && Scanned(p0, data, p, q, HeaderField, hc)
      {
        ClimbsByte(p0, c0, data, p, q, c, ps, hc);
        FieldByte(ps, data[q], hc);
        SyncByte(p0, data, q, ps, sent, mark, hc, FieldChar(ps, TokenOf(data[q])));
        ps := FieldChar(ps, TokenOf(data[q]));
        q := q + 1;
      }
    }

    /** The inner loop of s_header_value, up to the CR or LF that ends the value. */
    method ScanValue(data: seq<Byte>, p: nat, mark: Mark, ghost p0: Ps, ghost c0: nat, ghost c: nat, ghost sent: seq<Event>) returns (q: nat, err: bool)
      requires p < |data| && Sync(p0, data, p, ps, sent, mark, hc) && ps.st.HeaderValue? && Climbs(p0, c0, data, p, p, c, hc)
      modifies this`ps
      ensures p <= q <= |data| && ps.st.HeaderValue?
      ensures err ==> q < |data| && Run(p0, data[..q + 1], hc) == Failed(InvalidContentLength, q) && Stopped(p0, data, q, sent, hc)
      ensures !err ==> InStep(data, p, q, mark, p0, c0, c, sent) || (q == |data| && q - p > MAX_HEADER && Hit(p0, c0, data, hc))
      ensures !err && q < |data| ==> data[q] == CR || data[q] == LF
    {
      hide Step, Run, ValueChar, Climbs, Sync, Hit, Stopped;
      q, err := p, false;
      while q < |data| && data[q] != CR && data[q] != LF
        invariant p <= q <= |data| && ps.st.HeaderValue?
        invariant InStep(data, p, q, mark, p0, c0, c, sent) || (q == |data| && q - p > MAX_HEADER && Hit(p0, c0, data, hc))
        decreases |data| - q
      {
        if ps.hs.General? {
          q := SkipLine(data, p, q, mark, p0, c0, c, sent);
        } else {
          ValueByte(ps, data[q], hc);
          var v := ValueChar(ps, data[q]);
          SyncGoing(p0, data, q, ps, sent, mark, hc);
          if v.None? {
            RunNext(p0, data, q, hc);
            SyncStopped(p0, data, q, ps, sent, mark, hc);
            err := true;
            return;
          }
          ClimbsByte(p0, c0, data, p, q, c, ps, hc);
          ValueKeeps(ps, data[q]);
          SyncMarked(p0, data, q, ps, sent, mark, hc);
          SyncByte(p0, data, q, ps, sent, mark, hc, v.value);
          ps := v.value;
          q := q + 1;
        }
      }
    }

    /** The scan of a value is in step with the byte machine and the count. */
    ghost predicate InStep(data: seq<Byte>, p: nat, q: nat, mark: Mark, p0: Ps, c0: nat, c: nat, sent: seq<Event>)
      reads this
    {
      Sync(p0, data, q, ps, sent, mark, hc) && Climbs(p0, c0, data, p, q, c, hc) && Scanned(p0, data, p, q, HeaderValue, hc)
    }

    /** The h_general case: on to the next line end. */
    method SkipLine(data: seq<Byte>, p: nat, q: nat, mark: Mark, ghost p0: Ps, ghost c0: nat, ghost c: nat, ghost sent: seq<Event>) returns (r: nat)
      requires p <= q < |data| && data[q] != CR && data[q] != LF && InStep(data, p, q, mark, p0, c0, c, sent)
      requires ps.st.HeaderValue? && ps.hs.General?
      ensures q < r <= |data|
      ensures InStep(data, p, r, mark, p0, c0, c, sent) || (r == |data| && r - p > MAX_HEADER && Hit(p0, c0, data, hc))
    {
      hide Step, Run, ValueChar, Climbs, Sync, Hit;
      r := NextLineEnd(data, q);
      if r - q <= MAX_HEADER || forall i :: q <= i < r ==> data[i] != CR && data[i] != LF {
        SkipClimbs(p0, c0, data, p, q, r, c, ps, sent, mark, hc);
      } else {
        SkipHits(p0, c0, data, p, q, c, ps, sent, mark, hc);
      }
    }

    static method Memchr(data: seq<Byte>, p: nat, c: Byte, limit: nat) returns (r: Option<nat>)
      requires p + limit <= |data|
      ensures r.None? ==> forall i :: p <= i < p + limit ==> data[i] != c
      ensures r.Some? ==> p <= r.value < p + limit && data[r.value] == c && forall i :: p <= i < r.value ==> data[i] != c
    {
      for j := p to p + limit
        invariant forall i :: p <= i < j ==> data[i] != c
      {
        if data[j] == c { return Some(j); }
      }
      return None;
    }

    /** Where the h_general case jumps to: the first CR or LF, found with two bounded searches, or the
        end of the buffer when neither finds one. */
    static method NextLineEnd(data: seq<Byte>, p: nat) returns (q: nat)
      requires p < |data| && data[p] != CR && data[p] != LF
      ensures p < q <= |data|
      ensures (forall i :: p <= i < q ==> data[i] != CR && data[i] != LF)
        || (q == |data| && q - p > MAX_HEADER && forall i :: p <= i < p + MAX_HEADER ==> data[i] != CR && data[i] != LF)
    {
      var limit := if |data| - p < MAX_HEADER then |data| - p else MAX_HEADER;
      var cr := Memchr(data, p, CR, limit);
      var lf := Memchr(data, p, LF, limit);
      if cr.Some? {
        q := if lf.Some? && cr.value >= lf.value then lf.value else cr.value;
      } else {
        q := if lf.Some? then lf.value else |data|;
      }
    }

    /** The body states: as much of the body as the buffer holds is read in one step. */
    method ReadBody(data: seq<Byte>, p: nat, mark0: Mark, ghost p0: Ps, ghost c0: nat, ghost sent0: seq<Event>, ghost base: seq<Event>)
      returns (q: nat, mark: Mark, st: Status, ghost sent: seq<Event>)
      requires p < |data| && Sync(p0, data, p, ps, sent0, mark0, hc) && InBody(ps.st) && out == base + sent0
      requires !ps.st.BodyIdentityEof? ==> ps.length > 0
      requires nread == 0 && Ticks(p0, c0, data, p, 0, hc)
      modifies this
      ensures p < q <= |data| && out == base + sent && st != Overflow
      ensures st == Parsed ==> Sync(p0, data, q, ps, sent, mark, hc) && nread == 0 && Ticks(p0, c0, data, q, 0, hc)
      ensures st.Bad? ==> Run(p0, data[..q], hc) == Failed(st.err, q - 1) && Stopped(p0, data, q - 1, sent, hc)
      ensures st == Upgraded ==> Run(p0, data[..q], hc) == Exited(ps, sent, q - 1)
    {
      hide Step, Run, Sync, Pass, Ticks, Stopped;
      mark, st, sent := if mark0.Unset? then At(Body, p) else mark0, Parsed, sent0;
      MarkBody(p0, data, p, ps, sent0, mark0, hc);
      var left := |data| - p;
      if ps.st.BodyIdentityEof? {
        BodyBlock(p0, data, p, left, ps, sent, mark, hc);
        BodyTicks(p0, c0, data, p, left, ps, sent, mark, hc);
        q := |data|;
        return;
      }
      var n := if ps.length < left then ps.length else left;
      q := p + n;
      if n < ps.length {
        BodyBlock(p0, data, p, n, ps, sent, mark, hc);
        BodyTicks(p0, c0, data, p, n, ps, sent, mark, hc);
        ps := ps.(length := ps.length - n);
      } else {
        BodyBlock(p0, data, p, n - 1, ps, sent, mark, hc);
        BodyTicks(p0, c0, data, p, n - 1, ps, sent, mark, hc);
        ghost var ps1 := ps.(length := 1);
        BodyTick(p0, c0, data, q - 1, ps1, sent, mark, hc);
        if ps.st.ChunkData? {
          LastChunkByte(ps1, data[q - 1], hc);
          SyncByte(p0, data, q - 1, ps1, sent, mark, hc, ps1.(length := 0, st := ChunkDataAlmostDone));
          ps := ps.(length := 0, st := ChunkDataAlmostDone);
        } else {
          mark, st, sent := EndBody(data, q - 1, mark, p0, sent, base);
        }
      }
    }

    /** The last byte of a body of known length. */
    method EndBody(data: seq<Byte>, p: nat, mark0: Mark, ghost p0: Ps, ghost sent0: seq<Event>, ghost base: seq<Event>)
      returns (mark: Mark, st: Status, ghost sent: seq<Event>)
      requires p < |data| && Sync(p0, data, p, ps.(length := 1), sent0, mark0, hc) && out == base + sent0 && nread == 0
      requires ps.st.BodyIdentity? && mark0.At? && mark0.k == Body && mark0.m <= p
      modifies this
      ensures out == base + sent && st != Overflow
      ensures st == Parsed ==> Sync(p0, data, p + 1, ps, sent, mark, hc) && nread == 0
      ensures st.Bad? ==> Run(p0, data[..p + 1], hc) == Failed(st.err, p) && Stopped(p0, data, p, sent, hc)
      ensures st == Upgraded ==> Run(p0, data[..p + 1], hc) == Exited(ps, sent, p)
    {
      hide Run, Sync, Mid, Stopped;
      BodyEnd(p0, data, p, ps.(length := 1), sent0, mark0, hc);
      var body := Datas(Body, data[mark0.m..p + 1]);
      assert out + body == base + (sent0 + body);
      out := out + body;
      ps := ps.(length := 0, st := MessageDone);
      mark, st, sent := Passes(data, p, Unset, p0, sent0 + body, base);
    }

    /** The asserts on nread and on the parser; nothing is counted in the body. */
    predicate Valid()
      reads this
    {
      WellFormed(ps) && Zeroed(ps, nread)
    }

    /** One turn of the loop: at least one byte of the buffer. */
    method Turn(data: seq<Byte>, p: nat, mark0: Mark, ghost p0: Ps, ghost c0: nat, ghost sent0: seq<Event>, ghost base: seq<Event>)
      returns (q: nat, mark: Mark, st: Status, ghost sent: seq<Event>)
      requires p < |data| && Sync(p0, data, p, ps, sent0, mark0, hc) && out == base + sent0 && Valid() && Ticks(p0, c0, data, p, nread, hc)
      modifies this
      ensures p < q <= |data| && out == base + sent
      ensures st == Parsed ==> Sync(p0, data, q, ps, sent, mark, hc) && Zeroed(ps, nread) && Ticks(p0, c0, data, q, nread, hc)
      ensures st.Bad? ==> Run(p0, data[..q], hc) == Failed(st.err, q - 1) && Stopped(p0, data, q - 1, sent, hc)
      ensures st == Upgraded ==> Run(p0, data[..q], hc) == Exited(ps, sent, q - 1)
      ensures st == Overflow ==> nread > MAX_HEADER && Hit(p0, c0, data, hc) && StoppedSome(p0, data, sent, hc)
    {
      hide Sync, Mid, Run, WellFormed, Ticks, Hit, Resets, Stopped;
      ghost var c := nread;
      mark, sent := mark0, sent0;
      SyncGoing(p0, data, p, ps, sent, mark, hc);
      if ParsingHeader(ps.st) {
        var ok := Count(1);
        if !ok {
          TicksFull(p0, c0, data, p, c, hc);
          SyncStopped(p0, data, p, ps, sent, mark, hc);
          return p + 1, mark0, Overflow, sent0;
        }
      }
      if ps.st.HeaderField? {
        q, mark, st, sent := FieldTurn(data, p, mark0, p0, c0, c, sent0, base);
      } else if ps.st.HeaderValue? {
        q, mark, st, sent := ValueTurn(data, p, mark0, p0, c0, c, sent0, base);
      } else if InBody(ps.st) {
        assert !ps.st.BodyIdentityEof? ==> ps.length > 0 by { BodyLeft(ps); }
        q, mark, st, sent := ReadBody(data, p, mark0, p0, c0, sent0, base);
      } else {
        ghost var ps1 := ps;
        MidStart(p0, data, p, ps, sent0, mark0, hc);
        mark, st, sent := Passes(data, p, mark0, p0, sent0, base);
        q := p + 1;
        if st == Parsed { PlainTick(p0, c0, data, p, ps1, c, nread, hc); }
      }
    }

    method FieldTurn(data: seq<Byte>, p: nat, mark0: Mark, ghost p0: Ps, ghost c0: nat, ghost c: nat, ghost sent0: seq<Event>, ghost base: seq<Event>)
      returns (q: nat, mark: Mark, st: Status, ghost sent: seq<Event>)
      requires p < |data| && Sync(p0, data, p, ps, sent0, mark0, hc) && out == base + sent0 && ps.st.HeaderField?
      requires Ticks(p0, c0, data, p, c, hc) && nread == c + 1
      modifies this
      ensures p < q <= |data| && out == base + sent
      ensures st == Parsed ==> Sync(p0, data, q, ps, sent, mark, hc) && Zeroed(ps, nread) && Ticks(p0, c0, data, q, nread, hc)
      ensures st.Bad? ==> Run(p0, data[..q], hc) == Failed(st.err, q - 1) && Stopped(p0, data, q - 1, sent, hc)
      ensures st == Upgraded ==> Run(p0, data[..q], hc) == Exited(ps, sent, q - 1)
      ensures st == Overflow ==> nread > MAX_HEADER && Hit(p0, c0, data, hc) && StoppedSome(p0, data, sent, hc)
    {
      hide Sync, Mid, Run, Ticks, Hit, Climbs, Scanned, Resets, Stopped;
      mark, st, sent := mark0, Parsed, sent0;
      ClimbsStart(p0, c0, data, p, c, hc);
      q := ScanField(data, p, mark, p0, c0, c, sent);
      var ok := Count(q - p);
      SyncGoing(p0, data, q, ps, sent, mark, hc);
      SyncStopped(p0, data, q, ps, sent, mark, hc);
      if q == |data| {
        assert data[..q] == data;
        ScanTicks(p0, c0, data, p, c, ps, hc);
        if !ok { st := Overflow; }
        return;
      }
      ScanEnds(p0, c0, data, p, q, c, ps, hc);
      if !ok { return q + 1, mark, Overflow, sent; }
      ghost var (ps1, sent1, mark1) := (ps, sent, mark);
      MidStart(p0, data, q, ps, sent, mark, hc);
      mark, st, sent := Passes(data, q, mark, p0, sent, base);
      q := q + 1;
      if st == Parsed {
        FieldEnds(p0, data, q - 1, ps1, sent1, mark1, ps, sent, mark, hc);
        EndTick(p0, c0, data, q - 1, ps1, c + (q - 1 - p), ps, sent, mark, nread, hc);
      }
    }

    method ValueTurn(data: seq<Byte>, p: nat, mark0: Mark, ghost p0: Ps, ghost c0: nat, ghost c: nat, ghost sent0: seq<Event>, ghost base: seq<Event>)
      returns (q: nat, mark: Mark, st: Status, ghost sent: seq<Event>)
      requires p < |data| && Sync(p0, data, p, ps, sent0, mark0, hc) && out == base + sent0 && ps.st.HeaderValue?
      requires Ticks(p0, c0, data, p, c, hc) && nread == c + 1
      modifies this
      ensures p < q <= |data| && out == base + sent
      ensures st == Parsed ==> Sync(p0, data, q, ps, sent, mark, hc) && Zeroed(ps, nread) && Ticks(p0, c0, data, q, nread, hc)
      ensures st.Bad? ==> Run(p0, data[..q], hc) == Failed(st.err, q - 1) && Stopped(p0, data, q - 1, sent, hc)
      ensures st == Upgraded ==> Run(p0, data[..q], hc) == Exited(ps, sent, q - 1)
      ensures st == Overflow ==> nread > MAX_HEADER && Hit(p0, c0, data, hc) && StoppedSome(p0, data, sent, hc)
    {
      hide Sync, Mid, Run, Ticks, Hit, Climbs, Scanned, Stopped;
      var err;
      mark, st, sent := mark0, Parsed, sent0;
      ClimbsStart(p0, c0, data, p, c, hc);
      SyncStopped(p0, data, p, ps, sent, mark, hc);
      q, err := ScanValue(data, p, mark, p0, c0, c, sent);
      if err { return q + 1, mark, Bad(InvalidContentLength), sent; }
      if q == |data| {
        var ok := Count(q - p);
        if !ok {
          st := Overflow;
          if InStep(data, p, q, mark, p0, c0, c, sent) { ValueScanned(data, p, mark, p0, c0, c, sent); }
          return;
        }
        ValueScanned(data, p, mark, p0, c0, c, sent);
        return;
      }
      SyncGoing(p0, data, q, ps, sent, mark, hc);
      ScanEnds(p0, c0, data, p, q, c, ps, hc);
      mark, st, sent := EndValue(data, p, q, mark, p0, c0, c, sent, base);
      q := q + 1;
    }

    /** The scan of a value that ends with the buffer. */
    lemma ValueScanned(data: seq<Byte>, p: nat, mark: Mark, p0: Ps, c0: nat, c: nat, sent: seq<Event>)
      requires p < |data| && InStep(data, p, |data|, mark, p0, c0, c, sent) && Ticks(p0, c0, data, p, c, hc) && ps.st.HeaderValue?
      ensures var n := c + 1 + (|data| - p);
        if n <= MAX_HEADER then Ticks(p0, c0, data, |data|, n, hc) else Hit(p0, c0, data, hc)
    {
      hide Run, Ticks, Hit, Climbs;
      assert data[..|data|] == data;
      ScanTicks(p0, c0, data, p, c, ps, hc);
    }

    /** The CR or LF that ends a value: with LF the bytes of the value are counted first, with CR afterwards. */
    method EndValue(data: seq<Byte>, p: nat, q: nat, mark0: Mark, ghost p0: Ps, ghost c0: nat, ghost c: nat, ghost sent0: seq<Event>, ghost base: seq<Event>)
      returns (mark: Mark, st: Status, ghost sent: seq<Event>)
      requires p <= q < |data| && (data[q] == CR || data[q] == LF) && Sync(p0, data, q, ps, sent0, mark0, hc) && ps.st.HeaderValue?
      requires out == base + sent0 && nread == c + 1
      requires if c + 1 + (q - p) <= MAX_HEADER then Ticks(p0, c0, data, q, c + (q - p), hc) else Hit(p0, c0, data, hc)
      modifies this
      ensures out == base + sent
      ensures st == Parsed ==> Sync(p0, data, q + 1, ps, sent, mark, hc) && Zeroed(ps, nread) && Ticks(p0, c0, data, q + 1, nread, hc)
      ensures st.Bad? ==> Run(p0, data[..q + 1], hc) == Failed(st.err, q) && Stopped(p0, data, q, sent, hc)
      ensures st == Upgraded ==> Run(p0, data[..q + 1], hc) == Exited(ps, sent, q)
      ensures st == Overflow ==> nread > MAX_HEADER && Hit(p0, c0, data, hc) && StoppedSome(p0, data, sent, hc)
    {
      hide Sync, Mid, Run, Ticks, Hit, Resets, Stopped;
      ghost var ps1 := ps;
      SyncStopped(p0, data, q, ps, sent0, mark0, hc);
      if data[q] == LF {
        var ok := Count(q - p);
        if !ok { return mark0, Overflow, sent0; }
      }
      MidStart(p0, data, q, ps, sent0, mark0, hc);
      mark, st, sent := Passes(data, q, mark0, p0, sent0, base);
      if st != Parsed { return; }
      ValueEnds(p0, data, q, ps1, sent0, mark0, ps, sent, mark, hc);
      if data[q] == CR {
        var ok := Count(q - p);
        if !ok {
          SyncStopped(p0, data, q + 1, ps, sent, mark, hc);
          return mark, Overflow, sent;
        }
      }
      SyncGoing(p0, data, q, ps1, sent0, mark0, hc);
      EndTick(p0, c0, data, q, ps1, c + (q - p), ps, sent, mark, nread, hc);
    }

    /** http_parser_execute on a piece of input that is not empty.  Unless the header limit is hit, the
        piece is parsed exactly as by the byte machine: same state, same events in the same order, same
        error at the same byte.  Before an error the callbacks have received the events of the bytes before the
        refused one, up to those still marked.  The limit is hit only where the count of header bytes reaches it, and a piece
        that the byte machine takes is refused exactly then. */
    method Execute(data: seq<Byte>) returns (st: Status, n: nat)
      requires Valid() && data != []
      modifies this
      ensures old(out) <= out
      ensures st == Parsed ==> Valid() && n == |data| && Run(old(ps), data, hc) == Going(ps, out[|old(out)|..])
      ensures st == Parsed ==> nread == After(old(ps), old(nread), data, hc) && !Hit(old(ps), old(nread), data, hc)
      ensures st.Bad? ==> Run(old(ps), data, hc) == Failed(st.err, n) && Stopped(old(ps), data, n, out[|old(out)|..], hc)
      ensures st == Upgraded ==> n > 0 && Run(old(ps), data, hc) == Exited(ps, out[|old(out)|..], n - 1)
      ensures st == Overflow ==> nread > MAX_HEADER && Hit(old(ps), old(nread), data, hc) && StoppedSome(old(ps), data, out[|old(out)|..], hc)
    {
      hide Sync, Mid, Run, WellFormed, KindOf, Ticks, Hit, After, Stopped;
      ghost var (p0, c0, base, sent) := (ps, nread, out, []);
      var mark := if KindOf(ps.st).Some? then At(KindOf(ps.st).value, 0) else Unset;
      SyncStart(p0, data, hc);
      TicksStart(p0, c0, data, hc);
      n, st := 0, Parsed;
      while n < |data| && st == Parsed
        invariant n <= |data| && out == base + sent
        invariant st == Parsed ==> Sync(p0, data, n, ps, sent, mark, hc) && Valid() && Ticks(p0, c0, data, n, nread, hc)
        invariant st.Bad? ==> n > 0 && Run(p0, data[..n], hc) == Failed(st.err, n - 1) && Stopped(p0, data, n - 1, sent, hc)
        invariant st == Upgraded ==> n > 0 && Run(p0, data[..n], hc) == Exited(ps, sent, n - 1)
        invariant st == Overflow ==> nread > MAX_HEADER && Hit(p0, c0, data, hc) && StoppedSome(p0, data, sent, hc)
        decreases |data| - n
      {
        n, mark, st, sent := Turn(data, n, mark, p0, c0, sent, base);
        if st == Parsed { SyncWellFormed(p0, data, n, ps, sent, mark, hc); }
      }
      if st == Parsed {
        SyncEnd(p0, data, ps, sent, mark, hc);
        TicksEnd(p0, c0, data, nread, hc);
        out := out + Pend(mark, data, n);
        assert out[|base|..] == sent + Pend(mark, data, n);
      } else if st.Bad? {
        RunStops(p0, data, n, hc);
        assert out[|base|..] == sent;
        n := n - 1;
      } else if st == Upgraded {
        RunStops(p0, data, n, hc);
        assert out[|base|..] == sent;
      } else {
        assert out[|base|..] == sent;
      }
    }
  }

  /** The callbacks received the events of some number of bytes, up to those still marked. */
  ghost predicate StoppedSome(p0: Ps, data: seq<Byte>, sent: seq<Event>, hc: Settings) {
    exists k: nat :: Stopped(p0, data, k, sent, hc)
  }

  /** No header byte is counted when a chunk size is awaited or a body is read. */
  predicate Zeroed(p: Ps, nread: nat) { p.st.ChunkSizeStart? || !ParsingHeader(p.st) ==> nread == 0 }

  lemma SyncGoing(p0: Ps, data: seq<Byte>, p: nat, ps: Ps, sent: seq<Event>, mark: Mark, hc: Settings)
    requires Sync(p0, data, p, ps, sent, mark, hc)
    ensures p <= |data| && Run(p0, data[..p], hc).Going? && Run(p0, data[..p], hc).ps == ps
  {
    hide Run;
  }

  lemma SyncMarked(p0: Ps, data: seq<Byte>, p: nat, ps: Ps, sent: seq<Event>, mark: Mark, hc: Settings)
    requires Sync(p0, data, p, ps, sent, mark, hc) && ps.st.HeaderValue?
    ensures mark.At? && mark.k == Value && forall q: Ps :: q.st.HeaderValue? ==> MarkOk(q.st, mark)
  {
    hide Run;
  }

  /** A byte outside the scanning loops and the body. */
  lemma PlainTick(p0: Ps, c0: nat, data: seq<Byte>, p: nat, ps: Ps, c: nat, nread: nat, hc: Settings)
    requires p < |data| && Ticks(p0, c0, data, p, c, hc) && Run(p0, data[..p], hc).Going? && Run(p0, data[..p], hc).ps == ps
    requires !(ps.st.HeaderField? || ps.st.HeaderValue?) && (if ParsingHeader(ps.st) then c + 1 <= MAX_HEADER else c == 0)
    requires nread == if Resets(ps, data[p], hc) then 0 else if ParsingHeader(ps.st) then c + 1 else c
    ensures Ticks(p0, c0, data, p + 1, nread, hc)
  {
    hide Run, Ticks, Resets;
    if p + 1 == |data| { NoScan(p0, data, ps, hc); }
    TicksByte(p0, c0, data, p, ps, c, hc);
  }

  /** The byte that ends a name or a value. */
  lemma EndTick(p0: Ps, c0: nat, data: seq<Byte>, p: nat, ps: Ps, c: nat, ps': Ps, sent: seq<Event>, mark: Mark, nread: nat, hc: Settings)
    requires p < |data| && Ticks(p0, c0, data, p, c, hc) && Run(p0, data[..p], hc).Going? && Run(p0, data[..p], hc).ps == ps
    requires (ps.st.HeaderField? || ps.st.HeaderValue?) && c + 1 <= MAX_HEADER && !Resets(ps, data[p], hc) && nread == c + 1
    requires Sync(p0, data, p + 1, ps', sent, mark, hc) && ps'.st != ps.st
    ensures Ticks(p0, c0, data, p + 1, nread, hc)
  {
    hide Run, Ticks, Resets;
    if p + 1 == |data| {
      assert data[..p + 1] == data;
      NoScan(p0, data, ps, hc);
    }
    TicksByte(p0, c0, data, p, ps, c, hc);
  }

  lemma FieldEnds(p0: Ps, data: seq<Byte>, p: nat, ps: Ps, sent: seq<Event>, mark: Mark,
                  ps': Ps, sent': seq<Event>, mark': Mark, hc: Settings)
    requires p < |data| && Sync(p0, data, p, ps, sent, mark, hc) && ps.st.HeaderField? && TokenOf(data[p]) == 0
    requires Sync(p0, data, p + 1, ps', sent', mark', hc)
    ensures ps'.st.ValueDiscardWs? && !Resets(ps, data[p], hc)
  {
    hide Run;
    RunNext(p0, data, p, hc);
    FieldEnd(ps, data[p], hc);
  }

  lemma FieldEnd(ps: Ps, ch: Byte, hc: Settings)
    requires ps.st.HeaderField? && TokenOf(ch) == 0
    ensures !Resets(ps, ch, hc) && var r := Step(ps, ch, hc); r.Going? ==> r.ps.st.ValueDiscardWs?
  {
    hide Pass, FieldChar, TokenOf;
    PassOf(ps, ch, hc);
  }

  lemma ValueEnds(p0: Ps, data: seq<Byte>, p: nat, ps: Ps, sent: seq<Event>, mark: Mark,
                  ps': Ps, sent': seq<Event>, mark': Mark, hc: Settings)
    requires p < |data| && Sync(p0, data, p, ps, sent, mark, hc) && ps.st.HeaderValue? && (data[p] == CR || data[p] == LF)
    requires Sync(p0, data, p + 1, ps', sent', mark', hc)
    ensures (ps'.st.HeaderAlmostDone? || ps'.st.HeaderValueLws?) && !Resets(ps, data[p], hc)
  {
    hide Run;
    RunNext(p0, data, p, hc);
    ValueEnd(ps, data[p], hc);
  }

  lemma ValueEnd(ps: Ps, ch: Byte, hc: Settings)
    requires ps.st.HeaderValue? && (ch == CR || ch == LF)
    ensures !Resets(ps, ch, hc) && var r := Step(ps, ch, hc); r.Going? && (r.ps.st.HeaderAlmostDone? || r.ps.st.HeaderValueLws?)
  {
    hide Pass, ValueChar, FieldChar, ActValueStart, ActHeadersDone, ActHeadersAlmostDone, SetFlag, ActBody, ActRequest, ActResponse, ActUrl, TokenOf;
    PassOf(ps, ch, hc);
    PassOf(ps.(st := HeaderAlmostDone), ch, hc);
  }

  lemma BodyLeft(ps: Ps)
    requires WellFormed(ps) && InBody(ps.st)
    ensures !ps.st.BodyIdentityEof? ==> ps.length > 0
  {
  }

  /** The marks set at the start of a piece fit the state. */
  lemma SyncStart(p0: Ps, data: seq<Byte>, hc: Settings)
    ensures Sync(p0, data, 0, p0, [], if KindOf(p0.st).Some? then At(KindOf(p0.st).value, 0) else Unset, hc)
  {
    hide Step;
    assert data[..0] == [];
  }

  lemma SyncWellFormed(p0: Ps, data: seq<Byte>, p: nat, ps: Ps, sent: seq<Event>, mark: Mark, hc: Settings)
    requires WellFormed(p0) && Sync(p0, data, p, ps, sent, mark, hc)
    ensures WellFormed(ps)
  {
    hide Run, WellFormed;
    RunKeeps(p0, data[..p], hc);
  }

  lemma SyncEnd(p0: Ps, data: seq<Byte>, ps: Ps, sent: seq<Event>, mark: Mark, hc: Settings)
    requires Sync(p0, data, |data|, ps, sent, mark, hc)
    ensures Placed(mark, |data|) && Run(p0, data, hc) == Going(ps, sent + Pend(mark, data, |data|))
  {
    hide Run;
    assert data[..|data|] == data;
  }

  lemma MarkBody(p0: Ps, data: seq<Byte>, p: nat, ps: Ps, sent: seq<Event>, mark: Mark, hc: Settings)
    requires p < |data| && Sync(p0, data, p, ps, sent, mark, hc) && InBody(ps.st)
    ensures var m := if mark.Unset? then At(Body, p) else mark;
      m.m <= p && m.k == Body && Sync(p0, data, p, ps, sent, m, hc)
  {
    hide Run;
    if mark.Unset? { SyncMark(p0, data, p, ps, sent, hc); }
  }

  /** The last byte of a body of known length: the callback gets it, and the message is done. */
  lemma BodyEnd(p0: Ps, data: seq<Byte>, p: nat, ps: Ps, sent: seq<Event>, mark: Mark, hc: Settings)
    requires p < |data| && Sync(p0, data, p, ps, sent, mark, hc) && ps.st.BodyIdentity? && ps.length == 1
    requires mark.At? && mark.k == Body && mark.m <= p
    ensures Mid(p0, data, p, ps.(length := 0, st := MessageDone), sent + Datas(Body, data[mark.m..p + 1]), Unset, hc)
  {
    hide Step, Run, Sync, Mid, Pass;
    MidStart(p0, data, p, ps, sent, mark, hc);
    LastIdentityByte(ps, data[p], hc);
    MidPass(p0, data, p, ps, sent, mark, hc);
    assert sent + Datas(Body, data[mark.m..p + 1]) + [] == sent + Datas(Body, data[mark.m..p + 1]);
  }

  lemma ValueKeeps(p: Ps, ch: Byte)
    ensures ValueChar(p, ch).Some? ==> ValueChar(p, ch).value.st == p.st
  {
  }

  /** http_parser_init */
  function Fresh(kind: Type): Ps {
    Ps(if kind == Request then StartReq else if kind == Response then StartRes else StartReqOrRes,
       General, 0, NO_FLAGS, 0, kind, 0, 0, 0, 0, false)
  }
}
