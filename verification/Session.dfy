/** Handing bytes to TCP: httpsess_write (http.c), the resumable header writer (http_hdr.h) and the
    phases of a response (httpsess_respond).  TCP is a sink that takes all of a write or nothing,
    and may refuse at any time. */
module Session {
  import opened Lists

  datatype Err = Fine | Mem | Fatal

  /** One tcp_write: its size, the answer, and whether the send queue was full then. */
  datatype Try = Try(size: nat, err: Err, full: bool)

  function Min(a: nat, b: nat): nat { if a < b then a else b }

  /** The lines one after the other. */
  function Flat(lines: seq<seq<Byte>>): (r: seq<Byte>)
    decreases |lines|
  {
    if lines == [] then [] else Flat(lines[..|lines| - 1]) + lines[|lines| - 1]
  }

  lemma FlatStep(lines: seq<seq<Byte>>, l: nat)
    requires l < |lines|
    ensures Flat(lines[..l + 1]) == Flat(lines[..l]) + lines[l]
  {
    assert lines[..l + 1][..l] == lines[..l];
  }

  lemma {:induction false} FlatPrefix(lines: seq<seq<Byte>>, l: nat)
    requires l <= |lines|
    ensures |Flat(lines[..l])| <= |Flat(lines)| && Flat(lines)[..|Flat(lines[..l])|] == Flat(lines[..l])
    decreases |lines| - l
  {
    if l < |lines| {
      FlatPrefix(lines, l + 1);
      FlatStep(lines, l);
    } else {
      assert lines[..l] == lines;
    }
  }

  lemma SliceMid(p: seq<Byte>, m: seq<Byte>, q: seq<Byte>, a: nat, b: nat)
    requires a <= b <= |m|
    ensures (p + m + q)[|p| + a..|p| + b] == m[a..b]
  {
  }

  lemma LineEmits(lines: seq<seq<Byte>>, l: nat, a: nat, b: nat, o: seq<Byte>, o': seq<Byte>)
    requires l < |lines| && Emits(o, lines[l], a, b, o')
    ensures var n := |Flat(lines[..l])|; Emits(o, Flat(lines), n + a, n + b, o')
  {
    FlatStep(lines, l);
    FlatPrefix(lines, l + 1);
    var n := |Flat(lines[..l + 1])|;
    EmitsPart(o, Flat(lines[..l]), lines[l], Flat(lines)[n..], a, b, o');
    assert Flat(lines) == Flat(lines)[..n] + Flat(lines)[n..];
  }

  /** o' is o followed by bytes [a, b) of m. */
  ghost predicate Emits(o: seq<Byte>, m: seq<Byte>, a: nat, b: nat, o': seq<Byte>) {
    a <= b <= |m| && o' == o + m[a..b]
  }

  lemma EmitsJoin(o: seq<Byte>, m: seq<Byte>, a: nat, b: nat, c: nat, o1: seq<Byte>, o2: seq<Byte>)
    requires Emits(o, m, a, b, o1) && Emits(o1, m, b, c, o2)
    ensures Emits(o, m, a, c, o2)
  {
    assert m[a..c] == m[a..b] + m[b..c];
  }

  /** Bytes [a, b) of a part m are the bytes of the whole at the part's place. */
  lemma EmitsPart(o: seq<Byte>, p: seq<Byte>, m: seq<Byte>, q: seq<Byte>, a: nat, b: nat, o': seq<Byte>)
    requires Emits(o, m, a, b, o')
    ensures Emits(o, p + m + q, |p| + a, |p| + b, o')
  {
    SliceMid(p, m, q, a, b);
  }

  lemma EmitsPrefix(o: seq<Byte>, m: seq<Byte>, a: nat, b: nat, o0: seq<Byte>, o': seq<Byte>)
    requires Emits(o0, m, 0, a, o) && Emits(o, m, a, b, o')
    ensures Emits(o0, m, 0, b, o') && o <= o'
  {
    EmitsJoin(o0, m, 0, a, b, o, o');
  }

  /** The writes of the try_again loop: each half as long as the one before, as long as TCP lacks memory for a
      longer one and its queue is not full. */
  ghost predicate Halving(ts: seq<Try>, want: nat, slen: nat, err: Err) {
    && ts != [] && ts[0].size == want
    && (forall i :: 0 <= i < |ts| - 1 ==> ts[i].err == Mem && !ts[i].full && ts[i].size > 1 && ts[i + 1].size == ts[i].size / 2)
    && var l := ts[|ts| - 1]; l.size == slen && l.err == err && (err == Mem ==> slen == 1 || l.full)
  }

  /** One connection: what TCP accepted, its free send space, and bytes sent but not acknowledged; tried is what
      was asked of it. */
  class Conn {
    var out: seq<Byte>
    var sndbuf: nat
    var infly: nat
    ghost var tried: seq<Try>

    constructor (space: nat)
      ensures out == [] && sndbuf == space && infly == 0 && tried == []
    {
      out, sndbuf, infly, tried := [], space, 0, [];
    }

    /** An error is what TCP answered since the first n tries, when it would not go on: it failed, or had no memory
        for a single byte or for the queue. */
    ghost predicate Answered(n: nat, err: Err)
      reads this
    {
      && n <= |tried|
      && (err != Fine ==> n < |tried| && var l := tried[|tried| - 1]; l.err == err && (err == Mem ==> l.size == 1 || l.full))
    }

    lemma NothingAsked()
      ensures Answered(|tried|, Fine)
    {
    }

    /** tcp_write */
    method TcpWrite(data: seq<Byte>) returns (err: Err, full: bool)
      requires |data| <= sndbuf
      modifies this`out, this`sndbuf, this`tried
      ensures err == Fine ==> out == old(out) + data && sndbuf == old(sndbuf) - |data|
      ensures err != Fine ==> out == old(out) && sndbuf == old(sndbuf)
      ensures tried == old(tried) + [Try(|data|, err, full)]
    {
      full := *;
      if * {
        err := Mem;
      } else if * {
        err := Fatal;
      } else {
        err, out, sndbuf := Fine, out + data, sndbuf - |data|;
      }
      tried := tried + [Try(|data|, err, full)];
    }

    /** The try_again loop of httpsess_write: halve the size until TCP takes it. */
    method WriteSome(buf: seq<Byte>, want: nat) returns (err: Err, slen: nat)
      requires 0 < want <= |buf| && want <= sndbuf
      modifies this`out, this`sndbuf, this`tried
      ensures 0 < slen <= want
      ensures err == Fine ==> out == old(out) + buf[..slen] && sndbuf == old(sndbuf) - slen
      ensures err != Fine ==> out == old(out) && sndbuf == old(sndbuf)
      ensures old(tried) <= tried && Halving(tried[|old(tried)|..], want, slen, err)
    {
      var full;
      slen := want;
      err, full := TcpWrite(buf[..slen]);
      ghost var ts := [Try(slen, err, full)];
      while err == Mem && slen > 1 && !full
        invariant 0 < slen <= want
        invariant err == Fine ==> out == old(out) + buf[..slen] && sndbuf == old(sndbuf) - slen
        invariant err != Fine ==> out == old(out) && sndbuf == old(sndbuf)
        invariant tried == old(tried) + ts && ts != [] && ts[0].size == want && ts[|ts| - 1] == Try(slen, err, full)
        invariant forall i :: 0 <= i < |ts| - 1 ==> ts[i].err == Mem && !ts[i].full && ts[i].size > 1 && ts[i + 1].size == ts[i].size / 2
        decreases slen
      {
        slen := slen / 2;
        err, full := TcpWrite(buf[..slen]);
        ts := ts + [Try(slen, err, full)];
      }
      assert tried[|old(tried)|..] == ts;
    }

    /** httpsess_write: hands out exactly the first s bytes, and without an error stops short only
        when the send buffer is full. */
    method Write(buf: seq<Byte>) returns (err: Err, s: nat)
      modifies this
      ensures Emits(old(out), buf, 0, s, out)
      ensures infly == old(infly) + s && sndbuf == old(sndbuf) - s
      ensures err == Fine && s < |buf| ==> sndbuf == 0
      ensures err != Fine ==> s < |buf|
      ensures Answered(old(|tried|), err)
    {
      err, s := Fine, 0;
      while s < |buf| && sndbuf > 0
        invariant s <= |buf| && out == old(out) + buf[..s] && sndbuf == old(sndbuf) - s && old(|tried|) <= |tried|
        invariant err == Fine && infly == old(infly)
      {
        var e, slen := WriteSome(buf[s..], Min(Min(|buf| - s, sndbuf), 0xFFFF));
        if e != Fine {
          err := e;
          break;
        }
        assert buf[..s + slen] == buf[..s] + buf[s..][..slen];
        s := s + slen;
      }
      infly := infly + s;
    }

    /** One of the two line loops of http_sendhdr_write: pos bytes of the lines are out already. */
    method WriteLines(lines: seq<seq<Byte>>, pos: nat) returns (err: Err, apos: nat, stop: bool)
      requires pos <= |Flat(lines)|
      modifies this
      ensures Emits(old(out), Flat(lines), pos, apos, out)
      ensures infly == old(infly) + (apos - pos) && sndbuf == old(sndbuf) - (apos - pos)
      ensures !stop ==> err == Fine && apos == |Flat(lines)|
      ensures stop && err == Fine ==> sndbuf == 0 && apos < |Flat(lines)|
      ensures Answered(old(|tried|), err)
    {
      err, apos, stop := Fine, pos, false;
      var next := 0;
      for l := 0 to |lines|
        invariant next == |Flat(lines[..l])| && pos <= apos <= |Flat(lines)|
        invariant next <= apos
        invariant err == Fine && !stop && old(|tried|) <= |tried|
        invariant Emits(old(out), Flat(lines), pos, apos, out)
        invariant infly == old(infly) + (apos - pos) && sndbuf == old(sndbuf) - (apos - pos)
      {
        var cur := next;
        FlatStep(lines, l);
        FlatPrefix(lines, l + 1);
        next := next + |lines[l]|;
        if cur <= apos < next {
          ghost var (mid, o) := (apos, out);
          var e, lpos := WriteBuf(lines[l], apos - cur);
          apos, err := cur + lpos, e;
          LineEmits(lines, l, mid - cur, lpos, o, out);
          EmitsJoin(old(out), Flat(lines), pos, mid, apos, o, out);
          if e != Fine || apos < next {
            stop := true;
            return;
          }
        }
      }
      assert lines[..|lines|] == lines;
    }

    /** http_sendhdr_calc_totallen without the separator: the sizes the writer resumes by. */
    static method TotalLen(lines: seq<seq<Byte>>) returns (n: nat)
      ensures n == |Flat(lines)|
    {
      n := 0;
      for l := 0 to |lines|
        invariant n == |Flat(lines[..l])|
      {
        FlatStep(lines, l);
        n := n + |lines[l]|;
      }
      assert lines[..|lines|] == lines;
    }

    /** The static lines, the dynamic lines and the separator of a header h, each resumed at pos. */
    method WriteStatic(h: Hdr, pos: nat) returns (err: Err, apos: nat, stop: bool)
      requires pos <= |Flat(h.slines)|
      modifies this
      ensures Emits(old(out), h.Bytes(), pos, apos, out) && apos <= |Flat(h.slines)|
      ensures infly == old(infly) + (apos - pos) && sndbuf == old(sndbuf) - (apos - pos)
      ensures !stop ==> err == Fine && apos == |Flat(h.slines)|
      ensures stop && err == Fine ==> sndbuf == 0 && apos < |Flat(h.slines)|
      ensures Answered(old(|tried|), err)
    {
      err, apos, stop := WriteLines(h.slines, pos);
      EmitsPart(old(out), [], Flat(h.slines), Flat(h.dlines) + h.sep, pos, apos, out);
      assert h.Bytes() == [] + Flat(h.slines) + (Flat(h.dlines) + h.sep);
    }

    method WriteDynamic(h: Hdr, pos: nat) returns (err: Err, apos: nat, stop: bool)
      requires |Flat(h.slines)| <= pos <= |Flat(h.slines)| + |Flat(h.dlines)|
      modifies this
      ensures Emits(old(out), h.Bytes(), pos, apos, out) && apos <= |Flat(h.slines)| + |Flat(h.dlines)|
      ensures infly == old(infly) + (apos - pos) && sndbuf == old(sndbuf) - (apos - pos)
      ensures !stop ==> err == Fine && apos == |Flat(h.slines)| + |Flat(h.dlines)|
      ensures stop && err == Fine ==> sndbuf == 0 && apos < |Flat(h.slines)| + |Flat(h.dlines)|
      ensures Answered(old(|tried|), err)
    {
      var d: nat;
      var n := |Flat(h.slines)|;
      err, d, stop := WriteLines(h.dlines, pos - n);
      apos := n + d;
      EmitsPart(old(out), Flat(h.slines), Flat(h.dlines), h.sep, pos - n, d, out);
    }

    method WriteSep(h: Hdr, pos: nat) returns (err: Err, apos: nat)
      requires |h.Bytes()| - |h.sep| <= pos <= |h.Bytes()|
      modifies this
      ensures Emits(old(out), h.Bytes(), pos, apos, out)
      ensures infly == old(infly) + (apos - pos) && sndbuf == old(sndbuf) - (apos - pos)
      ensures err == Fine && apos < |h.Bytes()| ==> sndbuf == 0
      ensures Answered(old(|tried|), err)
    {
      var n := |Flat(h.slines)| + |Flat(h.dlines)|;
      var slen: nat;
      err, slen := WriteBuf(h.sep, pos - n);
      apos := n + slen;
      EmitsPart(old(out), Flat(h.slines) + Flat(h.dlines), h.sep, [], pos - n, slen, out);
      assert h.Bytes() == Flat(h.slines) + Flat(h.dlines) + h.sep + [];
    }

    /** http_sendhdr_write: whatever was sent before, the call emits the next bytes of the header in
        order, and without an error stops short only when the send buffer is full. */
    method WriteHdr(h: Hdr, sent: nat) returns (err: Err, apos: nat)
      requires sent <= |h.Bytes()|
      modifies this
      ensures Emits(old(out), h.Bytes(), sent, apos, out)
      ensures infly == old(infly) + (apos - sent) && sndbuf == old(sndbuf) - (apos - sent)
      ensures err == Fine && apos < |h.Bytes()| ==> sndbuf == 0
      ensures Answered(old(|tried|), err)
    {
      var stop: bool;
      err, apos := Fine, sent;
      if apos < |Flat(h.slines)| {
        err, apos, stop := WriteStatic(h, apos);
        if stop { return; }
      }
      if apos < |Flat(h.slines)| + |Flat(h.dlines)| {
        ghost var (mid, o) := (apos, out);
        err, apos, stop := WriteDynamic(h, apos);
        EmitsJoin(old(out), h.Bytes(), sent, mid, apos, o, out);
        if stop { return; }
      }
      ghost var (mid, o) := (apos, out);
      err, apos := WriteSep(h, apos);
      EmitsJoin(old(out), h.Bytes(), sent, mid, apos, o, out);
    }

    /** httpsess_write_sbuf */
    method WriteBuf(buf: seq<Byte>, sent: nat) returns (err: Err, pos: nat)
      requires sent <= |buf|
      modifies this
      ensures Emits(old(out), buf, sent, pos, out)
      ensures infly == old(infly) + (pos - sent) && sndbuf == old(sndbuf) - (pos - sent)
      ensures err == Fine && pos < |buf| ==> sndbuf == 0
      ensures Answered(old(|tried|), err)
    {
      var slen: nat;
      err, slen := Write(buf[sent..]);
      pos := sent + slen;
      assert buf[sent..][..slen] == buf[sent..pos];
    }
  }

  /** struct http_send_hdr */
  datatype Hdr = Hdr(slines: seq<seq<Byte>>, dlines: seq<seq<Byte>>, sep: seq<Byte>) {
    function Bytes(): seq<Byte> { Flat(slines) + Flat(dlines) + sep }
  }

  /** A request that is being answered; body is empty for HRT_NOMSG. */
  datatype Reply = Reply(hdr: Hdr, nomsg: bool, body: seq<Byte>) {
    function Message(ftr: seq<Byte>): seq<Byte> { hdr.Bytes() + Body() + ftr }
    function Body(): seq<Byte> { if nomsg then [] else body }
  }

  datatype Phase = RespondingHdr | RespondingMsg | RespondingEom

  /** All bytes of the replies, in order. */
  function Stream(rs: seq<Reply>, ftr: seq<Byte>): seq<Byte> {
    if rs == [] then [] else Stream(rs[..|rs| - 1], ftr) + rs[|rs| - 1].Message(ftr)
  }

  lemma StreamAppend(rs: seq<Reply>, r: Reply, ftr: seq<Byte>, o: seq<Byte>)
    requires Emits(Stream(rs, ftr), r.Message(ftr), 0, |r.Message(ftr)|, o)
    ensures o == Stream(rs + [r], ftr)
  {
    assert (rs + [r])[..|rs|] == rs;
  }

  lemma Requeued(a: seq<Reply>, q: seq<Reply>)
    requires q != []
    ensures (a + [q[0]]) + q[1..] == a + q
  {
  }

  /** How many bytes of the current reply went out when sent bytes of the phase did. */
  function Progress(r: Reply, phase: Phase, sent: nat): nat {
    match phase
    case RespondingHdr => sent
    case RespondingMsg => |r.hdr.Bytes()| + sent
    case RespondingEom => |r.hdr.Bytes() + r.Body()| + sent
  }

  predicate InPhase(r: Reply, phase: Phase, sent: nat, ftr: seq<Byte>) {
    match phase
    case RespondingHdr => sent <= |r.hdr.Bytes()|
    case RespondingMsg => !r.nomsg && sent <= |r.body|
    case RespondingEom => sent <= |ftr|
  }

  /** The bytes of a phase. */
  function Part(r: Reply, phase: Phase, ftr: seq<Byte>): seq<Byte> {
    match phase
    case RespondingHdr => r.hdr.Bytes()
    case RespondingMsg => r.body
    case RespondingEom => ftr
  }

  lemma PhaseEmits(r: Reply, phase: Phase, a: nat, b: nat, ftr: seq<Byte>, o: seq<Byte>, o': seq<Byte>)
    requires Emits(o, Part(r, phase, ftr), a, b, o') && (phase == RespondingMsg ==> !r.nomsg)
    ensures Emits(o, r.Message(ftr), Progress(r, phase, a), Progress(r, phase, b), o')
  {
    var H := r.hdr.Bytes();
    match phase
    case RespondingHdr =>
      EmitsPart(o, [], H, r.Body() + ftr, a, b, o');
      assert r.Message(ftr) == [] + H + (r.Body() + ftr);
    case RespondingMsg => EmitsPart(o, H, r.body, ftr, a, b, o');
    case RespondingEom =>
      EmitsPart(o, H + r.Body(), ftr, [], a, b, o');
      assert r.Message(ftr) == H + r.Body() + ftr + [];
  }

  /** The session's request queue and the phase of its head. */
  class Responder {
    const conn: Conn
    const ftr: seq<Byte>
    var queue: seq<Reply>
    var phase: Phase
    var sent: nat
    ghost var served: seq<Reply>

    /** Everything TCP took is the served replies and then a prefix of the current one. */
    ghost predicate Valid()
      reads this, conn
    {
      if queue == [] then conn.out == Stream(served, ftr)
      else
        && InPhase(queue[0], phase, sent, ftr)
        && Emits(Stream(served, ftr), queue[0].Message(ftr), 0, Progress(queue[0], phase, sent), conn.out)
    }

    constructor (c: Conn, footer: seq<Byte>)
      requires c.out == []
      ensures Valid() && conn == c && ftr == footer && queue == [] && served == []
    {
      conn, ftr, queue, phase, sent, served := c, footer, [], RespondingHdr, 0, [];
    }

    /** A parsed request joins the queue (its header prepared). */
    method Enqueue(r: Reply)
      requires Valid()
      modifies this
      ensures Valid() && queue == old(queue) + [r] && served == old(served)
    {
      if queue == [] { phase, sent := RespondingHdr, 0; }
      queue := queue + [r];
    }

    /** The header; without a message body (HRT_NOMSG) the footer is next. */
    method HdrPhase() returns (err: Err, more: bool)
      requires Valid() && queue != [] && phase == RespondingHdr
      modifies this, conn
      ensures Valid() && served + queue == old(served + queue) && old(conn.out) <= conn.out
      ensures more ==> queue != [] && queue == old(queue) && phase != RespondingHdr
      ensures !more && err == Fine && queue != [] ==> conn.sndbuf == 0
      ensures conn.Answered(old(|conn.tried|), err)
    {
      var r, n := queue[0], sent;
      more := false;
      err, sent := conn.WriteHdr(r.hdr, sent);
      PhaseEmits(r, RespondingHdr, n, sent, ftr, old(conn.out), conn.out);
      EmitsPrefix(old(conn.out), r.Message(ftr), Progress(r, phase, n), Progress(r, phase, sent), Stream(served, ftr), conn.out);
      if err != Fatal && sent == |r.hdr.Bytes()| {
        phase, sent, more := if r.nomsg then RespondingEom else RespondingMsg, 0, true;
      }
    }

    /** The message body. */
    method MsgPhase() returns (err: Err, more: bool)
      requires Valid() && queue != [] && phase == RespondingMsg
      modifies this, conn
      ensures Valid() && served + queue == old(served + queue) && old(conn.out) <= conn.out
      ensures more ==> queue != [] && queue == old(queue) && phase == RespondingEom
      ensures !more && err == Fine && queue != [] ==> conn.sndbuf == 0
      ensures conn.Answered(old(|conn.tried|), err)
    {
      var r, n := queue[0], sent;
      more := false;
      err, sent := conn.WriteBuf(r.body, sent);
      PhaseEmits(r, RespondingMsg, n, sent, ftr, old(conn.out), conn.out);
      EmitsPrefix(old(conn.out), r.Message(ftr), Progress(r, phase, n), Progress(r, phase, sent), Stream(served, ftr), conn.out);
      if err != Fatal && sent == |r.body| {
        phase, sent, more := RespondingEom, 0, true;
      }
    }

    /** httpsess_eor: the head of the queue is served; is there another request? */
    method Eor() returns (more: bool)
      requires Valid() && queue != [] && phase == RespondingEom && sent == |ftr|
      modifies this
      ensures Valid() && served + queue == old(served + queue) && |queue| < old(|queue|)
      ensures more == (queue != [])
    {
      Requeued(served, queue);
      StreamAppend(served, queue[0], ftr, conn.out);
      served, queue := served + [queue[0]], queue[1..];
      phase, sent, more := RespondingHdr, 0, queue != [];
    }

    /** The footer; then httpsess_eor turns to the next request. */
    method EomPhase() returns (err: Err, more: bool)
      requires Valid() && queue != [] && phase == RespondingEom
      modifies this, conn
      ensures Valid() && served + queue == old(served + queue) && old(conn.out) <= conn.out
      ensures more ==> queue != [] && |queue| < old(|queue|)
      ensures !more && err == Fine && queue != [] ==> conn.sndbuf == 0
      ensures conn.Answered(old(|conn.tried|), err)
    {
      var r, n := queue[0], sent;
      more := false;
      err, sent := conn.WriteBuf(ftr, sent);
      PhaseEmits(r, RespondingEom, n, sent, ftr, old(conn.out), conn.out);
      EmitsPrefix(old(conn.out), r.Message(ftr), Progress(r, phase, n), Progress(r, phase, sent), Stream(served, ftr), conn.out);
      if err != Fatal && sent == |ftr| {
        more := Eor();
      }
    }

    /** httpsess_respond: goes through the phases of as many queued requests as TCP has room for.
        At every return what went out is the served replies and a prefix of the current one, and
        without an error it stops early only when the send buffer is full. */
    method Respond() returns (err: Err)
      requires Valid() && queue != []
      modifies this, conn
      ensures Valid() && served + queue == old(served + queue) && old(conn.out) <= conn.out
      ensures err == Fine && queue != [] ==> conn.sndbuf == 0
      ensures conn.Answered(old(|conn.tried|), err)
    {
      var more := true;
      err := Fine;
      while more
        invariant Valid() && served + queue == old(served + queue) && old(conn.out) <= conn.out
        invariant more ==> queue != []
        invariant !more && err == Fine && queue != [] ==> conn.sndbuf == 0
        invariant conn.Answered(old(|conn.tried|), err)
        decreases more, |queue|, Rank(phase)
      {
        match phase
        case RespondingHdr => err, more := HdrPhase();
        case RespondingMsg => err, more := MsgPhase();
        case RespondingEom => err, more := EomPhase();
      }
    }
  }

  function Rank(p: Phase): nat {
    match p case RespondingHdr => 2 case RespondingMsg => 1 case RespondingEom => 0
  }
}
