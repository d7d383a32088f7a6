/** Acknowledgement accounting (http.c): acked bytes are credited to the requests of a keep-alive
    session in the order they were sent, and within a request to header, body and footer. */
module Ack {
  import opened Lists

  const FTR: nat := 2

  /** What struct http_req keeps about a response that is not a stream. */
  datatype Acct = Acct(hdr: nat, body: nat, hdrAcked: nat, bodyAcked: nat, ftrAcked: nat) {
    function Credited(): nat { hdrAcked + bodyAcked + ftrAcked }
    function Total(): nat { hdr + body + FTR }

    /** No counter above its total, and no part credited before the one in front of it is full. */
    predicate InOrder() {
      && hdrAcked <= hdr && bodyAcked <= body && ftrAcked <= FTR
      && (bodyAcked > 0 || ftrAcked > 0 ==> hdrAcked == hdr)
      && (ftrAcked > 0 ==> bodyAcked == body)
    }

    function Open(): nat
      requires InOrder()
    {
      Total() - Credited()
    }
  }

  /** httpreq_acknowledge for a request that is not a stream. */
  method AckReq(a: Acct, len: nat, keepalive: bool) returns (r: Acct, rest: nat, done: bool)
    requires a.InOrder()
    ensures r.InOrder() && r.hdr == a.hdr && r.body == a.body
    ensures a.hdrAcked <= r.hdrAcked && a.bodyAcked <= r.bodyAcked && a.ftrAcked <= r.ftrAcked
    ensures r.Credited() + rest == a.Credited() + len
    ensures keepalive ==> (done <==> r.Credited() == r.Total()) && (rest > 0 ==> done)
    ensures !keepalive ==> done && r.ftrAcked == a.ftrAcked && (rest > 0 ==> r.hdrAcked + r.bodyAcked == r.hdr + r.body)
  {
    var acked := len;
    r := a;
    var hdrInfly := a.hdr - a.hdrAcked;
    if hdrInfly > 0 {
      if hdrInfly > acked {
        r := r.(hdrAcked := r.hdrAcked + acked);
        acked := 0;
      } else {
        r := r.(hdrAcked := r.hdrAcked + hdrInfly);
        acked := acked - hdrInfly;
      }
    }
    var msgInfly := r.body - r.bodyAcked;
    if msgInfly > 0 {
      if msgInfly > acked {
        r := r.(bodyAcked := r.bodyAcked + acked);
        acked := 0;
      } else {
        r := r.(bodyAcked := r.bodyAcked + msgInfly);
        acked := acked - msgInfly;
      }
    }
    if keepalive {
      var ftrInfly := FTR - r.ftrAcked;
      if ftrInfly > acked {
        return r.(ftrAcked := r.ftrAcked + acked), 0, false;
      }
      r := r.(ftrAcked := r.ftrAcked + ftrInfly);
      acked := acked - ftrInfly;
    }
    return r, acked, true;
  }

  /* ---- The session's queue ---- */

  ghost predicate AllInOrder(q: seq<Acct>) {
    forall i :: 0 <= i < |q| ==> q[i].InOrder()
  }

  /** Bytes of the queued requests that are not credited yet. */
  function OpenSum(q: seq<Acct>): nat
    requires AllInOrder(q)
  {
    if q == [] then 0 else q[0].Open() + OpenSum(q[1..])
  }

  lemma {:induction false} OpenSumAppend(q: seq<Acct>, a: Acct)
    requires AllInOrder(q) && a.InOrder()
    ensures AllInOrder(q + [a]) && OpenSum(q + [a]) == OpenSum(q) + a.Open()
  {
    if q == [] {
      assert [] + [a] == [a];
    } else {
      OpenSumAppend(q[1..], a);
      assert (q + [a])[1..] == q[1..] + [a];
    }
  }

  /** The session as far as acknowledgements see it: the requests that are sent completely, the one
      being sent with the bytes handed out so far, and what is in flight according to TCP. */
  datatype Sess = Sess(aqueue: seq<Acct>, cur: Option<Acct>, curSent: nat, infly: nat)

  ghost predicate Sane(s: Sess) {
    && AllInOrder(s.aqueue)
    && (s.cur.Some? ==> s.cur.value.InOrder() && s.cur.value.Credited() <= s.curSent <= s.cur.value.Total())
    && (s.cur.None? ==> s.curSent == 0)
  }

  /** Bytes sent that the requests of the session still expect to be acknowledged. */
  function Expected(s: Sess): nat
    requires Sane(s)
  {
    OpenSum(s.aqueue) + if s.cur.Some? then s.curSent - s.cur.value.Credited() else 0
  }

  /** Every byte in flight is still expected by exactly one request. */
  ghost predicate Balanced(s: Sess) {
    Sane(s) && s.infly == Expected(s)
  }

  /** The account with its first k bytes credited. */
  function At(a: Acct, k: nat): (r: Acct)
    requires k <= a.Total()
    ensures r.InOrder() && r.Credited() == k && r.hdr == a.hdr && r.body == a.body
  {
    if k <= a.hdr then a.(hdrAcked := k, bodyAcked := 0, ftrAcked := 0)
    else if k <= a.hdr + a.body then a.(hdrAcked := a.hdr, bodyAcked := k - a.hdr, ftrAcked := 0)
    else a.(hdrAcked := a.hdr, bodyAcked := a.body, ftrAcked := k - a.hdr - a.body)
  }

  /** The order leaves only one way to credit k bytes. */
  lemma AtUnique(a: Acct)
    requires a.InOrder()
    ensures a.Credited() <= a.Total() && At(a, a.Credited()) == a
  {
  }

  /** The queue after n more bytes are acknowledged: requests at the front whose last byte is covered
      are gone, the next one is credited the remainder, the others are as before. */
  function Drain(q: seq<Acct>, n: nat): (r: seq<Acct>)
    requires AllInOrder(q) && n <= OpenSum(q)
    ensures AllInOrder(r) && OpenSum(r) == OpenSum(q) - n
    decreases q
  {
    if n == 0 then q
    else if n < q[0].Open() then [At(q[0], q[0].Credited() + n)] + q[1..]
    else Drain(q[1..], n - q[0].Open())
  }

  /** The session after n bytes are credited. */
  function Credit(s: Sess, n: nat): (r: Sess)
    requires Sane(s) && n <= Expected(s)
    ensures Sane(r) && Expected(r) == Expected(s) - n && r.infly == s.infly && r.curSent == s.curSent
  {
    var m := OpenSum(s.aqueue);
    if n <= m then s.(aqueue := Drain(s.aqueue, n))
    else s.(aqueue := [], cur := Some(At(s.cur.value, s.cur.value.Credited() + n - m)))
  }

  lemma CreditNone(s: Sess)
    requires Sane(s)
    ensures Credit(s, 0) == s
  {
  }

  lemma DrainHead(q: seq<Acct>, n: nat, a: Acct, rest: nat)
    requires AllInOrder(q) && q != [] && 0 < n
    requires a.InOrder() && a.hdr == q[0].hdr && a.body == q[0].body
    requires a.Credited() + rest == q[0].Credited() + n && (rest > 0 ==> a.Open() == 0)
    ensures var q' := if a.Open() == 0 then q[1..] else [a] + q[1..];
      && AllInOrder(q') && OpenSum(q') - rest == OpenSum(q) - n
      && (n <= OpenSum(q) ==> Drain(q, n) == Drain(q', rest))
  {
    AtUnique(a);
  }

  /** Crediting the head of the queue first changes nothing. */
  lemma CreditHead(s: Sess, n: nat, a: Acct, rest: nat)
    requires Sane(s) && s.aqueue != [] && 0 < n <= Expected(s)
    requires a.InOrder() && a.hdr == s.aqueue[0].hdr && a.body == s.aqueue[0].body
    requires a.Credited() + rest == s.aqueue[0].Credited() + n && (rest > 0 ==> a.Open() == 0)
    ensures var s' := s.(aqueue := if a.Open() == 0 then s.aqueue[1..] else [a] + s.aqueue[1..]);
      Sane(s') && rest <= Expected(s') && Credit(s, n) == Credit(s', rest)
  {
    hide Drain, OpenSum;
    DrainHead(s.aqueue, n, a, rest);
  }

  class Session {
    var s: Sess

    constructor ()
      ensures s == Sess([], None, 0, 0) && Balanced(s)
    {
      s := Sess([], None, 0, 0);
    }

    /** httpsess_sent in the established state. */
    method Sent(n: nat)
      requires Balanced(s) && n <= s.infly
      modifies this
      ensures s == Credit(old(s), n).(infly := old(s).infly - n) && Balanced(s)
    {
      Acknowledge(n);
      s := s.(infly := s.infly - n);
    }

    /** httpsess_acknowledge on a keep-alive session: when the requests expect at least n bytes, the
        loop ends, neither of its BUG_ON checks can fire, and the bytes are credited in the order
        they were sent. */
    method Acknowledge(n: nat)
      requires Sane(s) && n <= Expected(s)
      modifies this
      ensures s == Credit(old(s), n)
    {
      hide Drain;
      var len: nat := n;
      while len > 0
        invariant Sane(s) && len <= Expected(s) && Credit(old(s), n) == Credit(s, len)
        decreases len, |s.aqueue|
      {
        if s.aqueue != [] {
          len := AckHead(len);
        } else {
          assert s.cur.Some?;  // BUG_ON(!hreq)
          var a, rest, done := AckReq(s.cur.value, len, true);
          AtUnique(a);
          s := s.(cur := Some(a));
          assert rest == 0;    // BUG_ON(len > 0)
          len := rest;
          CreditNone(s);
        }
      }
      CreditNone(s);
    }

    /** One round of the loop on the head of the queue. */
    method AckHead(len: nat) returns (rest: nat)
      requires Sane(s) && s.aqueue != [] && 0 < len <= Expected(s)
      modifies this
      ensures Sane(s) && rest <= Expected(s) && Credit(old(s), len) == Credit(s, rest)
      ensures rest < len || (rest == len && |s.aqueue| < old(|s.aqueue|))
    {
      hide Credit;
      var a, done;
      a, rest, done := AckReq(s.aqueue[0], len, true);
      CreditHead(s, len, a, rest);
      if done {
        s := s.(aqueue := s.aqueue[1..]);
      } else {
        s := s.(aqueue := [a] + s.aqueue[1..]);
      }
    }
  }

  /* ---- Whole sessions ---- */

  datatype Event = Begin(hdr: nat, body: nat) | SentMore(n: nat) | Acked(n: nat) | Finish

  predicate Allowed(s: Sess, e: Event) {
    match e
    case Begin(_, _) => s.cur.None?
    case SentMore(n) => s.cur.Some? && s.curSent + n <= s.cur.value.Total()
    case Acked(n) => n <= s.infly
    case Finish => s.cur.Some? && s.curSent == s.cur.value.Total()
  }

  /** httpreq_finalize: a request with nothing in flight by httpreq_infly, which leaves the footer
      out of the length, is closed at once; the others wait on the queue. */
  function Finalize(s: Sess): Sess
    requires s.cur.Some?
  {
    var a := s.cur.value;
    s.(cur := None, curSent := 0, aqueue := if a.hdr + a.body == a.Credited() then s.aqueue else s.aqueue + [a])
  }

  function Next(s: Sess, e: Event): Sess
    requires Balanced(s) && Allowed(s, e)
  {
    match e
    case Begin(hdr, body) => s.(cur := Some(Acct(hdr, body, 0, 0, 0)), curSent := 0)
    case SentMore(n) => s.(curSent := s.curSent + n, infly := s.infly + n)
    case Acked(n) => Credit(s, n).(infly := s.infly - n)
    case Finish => Finalize(s)
  }

  /** The request must not be closed with its footer in flight. */
  predicate Covered(s: Sess, e: Event) {
    e.Finish? && s.cur.Some? ==> s.cur.value.Credited() != s.cur.value.hdr + s.cur.value.body
  }

  /** Finishing a request keeps the books balanced exactly when not just header and body, but no
      byte of the footer, are acknowledged at that moment. */
  lemma FinishExact(s: Sess)
    requires Balanced(s) && Allowed(s, Finish)
    ensures Balanced(Finalize(s)) <==> Covered(s, Finish)
  {
    OpenSumAppend(s.aqueue, s.cur.value);
  }

  lemma EventBalanced(s: Sess, e: Event)
    requires Balanced(s) && Allowed(s, e) && Covered(s, e)
    ensures Balanced(Next(s, e))
  {
    match e
    case Finish => FinishExact(s);
    case _ =>
  }

  /** A run of events, each allowed and each finish covered. */
  ghost predicate SessRun(s: Sess, es: seq<Event>, s': Sess)
    requires Balanced(s)
    decreases |es|
  {
    if es == [] then s' == s
    else
      && Allowed(s, es[0]) && Covered(s, es[0])
      && (EventBalanced(s, es[0]); SessRun(Next(s, es[0]), es[1..], s'))
  }

  /** In every such run each byte in flight is expected by exactly one request, so that every
      acknowledgement finds its requests. */
  lemma {:induction false} SessionBalanced(s: Sess, es: seq<Event>, s': Sess)
    requires Balanced(s) && SessRun(s, es, s')
    ensures Balanced(s')
    decreases |es|
  {
    if es != [] {
      EventBalanced(s, es[0]);
      SessionBalanced(Next(s, es[0]), es[1..], s');
    }
  }

  /** Without that: a request whose header and body are acknowledged before its footer is sent is
      closed, and the footer's acknowledgement then finds no request (the BUG_ON fires), whatever the
      lengths of header and body. */
  lemma FooterLost(hdr: nat, body: nat) returns (s: Sess)
    ensures SessRun(Sess([], None, 0, 0), [Begin(hdr, body), SentMore(hdr + body)] + [Acked(hdr + body), SentMore(FTR)], s)
    ensures Allowed(s, Finish) && Finalize(s).infly == FTR && Finalize(s).aqueue == [] && Finalize(s).cur.None?
  {
    hide SessRun;
    s := AckedBeforeFooter(hdr, body);
    SentFirst(hdr, body, [Acked(hdr + body), SentMore(FTR)], s);
  }

  lemma SentFirst(hdr: nat, body: nat, es: seq<Event>, s: Sess)
    requires var s2 := Sess([], Some(Acct(hdr, body, 0, 0, 0)), hdr + body, hdr + body); Balanced(s2) && SessRun(s2, es, s)
    ensures SessRun(Sess([], None, 0, 0), [Begin(hdr, body), SentMore(hdr + body)] + es, s)
  {
    hide SessRun, Next, Balanced, Allowed, Covered;
    HeadSent(hdr, body);
    RunStep(Sess([], Some(Acct(hdr, body, 0, 0, 0)), 0, 0), SentMore(hdr + body), es, s);
    RunStep(Sess([], None, 0, 0), Begin(hdr, body), [SentMore(hdr + body)] + es, s);
    assert [Begin(hdr, body)] + ([SentMore(hdr + body)] + es) == [Begin(hdr, body), SentMore(hdr + body)] + es;
  }

  lemma HeadSent(hdr: nat, body: nat)
    ensures var (s, e) := (Sess([], None, 0, 0), Begin(hdr, body));
      Balanced(s) && Allowed(s, e) && Covered(s, e) && Next(s, e) == Sess([], Some(Acct(hdr, body, 0, 0, 0)), 0, 0)
    ensures var (s, e) := (Sess([], Some(Acct(hdr, body, 0, 0, 0)), 0, 0), SentMore(hdr + body));
      Balanced(s) && Allowed(s, e) && Covered(s, e) && Next(s, e) == Sess([], Some(Acct(hdr, body, 0, 0, 0)), hdr + body, hdr + body)
  {
    hide Credit;
  }

  lemma AckedBeforeFooter(hdr: nat, body: nat) returns (s: Sess)
    ensures s == Sess([], Some(Acct(hdr, body, hdr, body, 0)), hdr + body + FTR, FTR)
    ensures Balanced(Sess([], Some(Acct(hdr, body, 0, 0, 0)), hdr + body, hdr + body))
    ensures SessRun(Sess([], Some(Acct(hdr, body, 0, 0, 0)), hdr + body, hdr + body), [Acked(hdr + body), SentMore(FTR)], s)
  {
    hide SessRun, Next, Balanced, Allowed, Covered;
    var n := hdr + body;
    s := Sess([], Some(Acct(hdr, body, hdr, body, 0)), n + FTR, FTR);
    var s2 := Sess([], Some(Acct(hdr, body, 0, 0, 0)), n, n);
    var s3 := Sess([], Some(Acct(hdr, body, hdr, body, 0)), n, 0);
    AckAll(hdr, body);
    FooterSent(hdr, body);
    RunNone(s);
    RunStep(s3, SentMore(FTR), [], s);
    RunStep(s2, Acked(n), [SentMore(FTR)] + [], s);
    assert [Acked(n)] + ([SentMore(FTR)] + []) == [Acked(n), SentMore(FTR)];
  }

  lemma AckAll(hdr: nat, body: nat)
    ensures var (s, e) := (Sess([], Some(Acct(hdr, body, 0, 0, 0)), hdr + body, hdr + body), Acked(hdr + body));
      Balanced(s) && Allowed(s, e) && Covered(s, e) && Next(s, e) == Sess([], Some(Acct(hdr, body, hdr, body, 0)), hdr + body, 0)
  {
    CreditAll(hdr, body);
    hide Credit;
  }

  lemma FooterSent(hdr: nat, body: nat)
    ensures var (s, e) := (Sess([], Some(Acct(hdr, body, hdr, body, 0)), hdr + body, 0), SentMore(FTR));
      && Balanced(s) && Allowed(s, e) && Covered(s, e)
      && Next(s, e) == Sess([], Some(Acct(hdr, body, hdr, body, 0)), hdr + body + FTR, FTR) && Balanced(Next(s, e))
  {
    hide Credit;
  }

  lemma CreditAll(hdr: nat, body: nat)
    ensures var s := Sess([], Some(Acct(hdr, body, 0, 0, 0)), hdr + body, hdr + body);
      Sane(s) && Expected(s) == hdr + body && Credit(s, hdr + body) == s.(cur := Some(Acct(hdr, body, hdr, body, 0)))
  {
  }

  lemma RunNone(s: Sess)
    requires Balanced(s)
    ensures SessRun(s, [], s)
  {
  }

  lemma RunStep(s: Sess, e: Event, es: seq<Event>, s': Sess)
    requires Balanced(s) && Allowed(s, e) && Covered(s, e) && Balanced(Next(s, e)) && SessRun(Next(s, e), es, s')
    ensures SessRun(s, [e] + es, s')
  {
    assert ([e] + es)[1..] == es;
  }

  /** On a session without keep-alive every acknowledgement of a queued request reports it done; it
      is fully credited exactly when the acknowledgement reaches to the end of the body. */
  method AckWithoutKeepalive(a: Acct, n: nat) returns (r: Acct, done: bool)
    requires a.InOrder() && a.ftrAcked == 0
    ensures done && (r.hdrAcked + r.bodyAcked == r.hdr + r.body <==> a.Credited() + n >= a.hdr + a.body)
  {
    var rest;
    r, rest, done := AckReq(a, n, false);
  }

  /** A response of 200 bytes of header and 1000 bytes of body: the acknowledgement of one byte reports it
      done. */
  method DoneAfterOneByte() returns (r: Acct, done: bool)
    ensures done && r.Credited() == 1 && r.Total() > 1200
  {
    var rest;
    r, rest, done := AckReq(Acct(200, 1000, 0, 0, 0), 1, false);
  }
}
