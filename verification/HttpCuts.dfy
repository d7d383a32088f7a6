/** Input cut into pieces: the result does not depend on the cuts, as long as the header limit, whose count
    does, is not hit. */
module HttpCuts {
  import opened Lists
  import opened HttpMachine
  import opened HttpParser
  import opened HttpInvariant
  import opened HttpExecute
  import opened HttpCount

  /** Feeding b after a is feeding a + b. */
  lemma {:induction false} RunConcat(p: Ps, a: seq<Byte>, b: seq<Byte>, hc: Settings)
    ensures var r := Run(p, a, hc);
      Run(p, a + b, hc) == if r.Going? then Prefix(r.out, |a|, Run(r.ps, b, hc)) else r
    decreases |b|
  {
    hide Step;
    var r := Run(p, a, hc);
    if b == [] {
      assert a + b == a;
      if r.Going? { assert r.out + [] == r.out; }
    } else {
      var b', c := b[..|b| - 1], b[|b| - 1];
      assert (a + b)[..|a + b| - 1] == a + b';
      RunConcat(p, a, b', hc);
      if r.Going? {
        var r' := Run(r.ps, b', hc);
        if r'.Going? { PrefixShift(r.out, |a|, r'.out, |b'|, Step(r'.ps, c, hc)); }
      }
    }
  }

  lemma PrefixShift(a: seq<Event>, m: nat, b: seq<Event>, n: nat, r: Result)
    ensures Prefix(a, m, Prefix(b, n, r)) == Prefix(a + b, m + n, r)
  {
    match r
    case Going(p, o) => assert a + (b + o) == a + b + o;
    case Failed(e, k) =>
    case Exited(p, o, k) => assert a + (b + o) == a + b + o;
  }

  function Join(xs: seq<seq<Byte>>): seq<Byte> {
    if xs == [] then [] else xs[0] + Join(xs[1..])
  }

  /* ---- The count over several pieces ---- */

  /** The count goes on from one piece to the next. */
  lemma {:induction false} CountConcat(p: Ps, c: nat, a: seq<Byte>, b: seq<Byte>, hc: Settings)
    ensures var r := Run(p, a, hc);
      Counted(p, c, a + b, hc) == if r.Going? then Counted(r.ps, Counted(p, c, a, hc), b, hc) else Counted(p, c, a, hc)
    decreases |b|
  {
    hide Run, CountByte;
    if b == [] {
      assert a + b == a;
    } else {
      var b' := b[..|b| - 1];
      assert (a + b)[..|a + b| - 1] == a + b';
      CountConcat(p, c, a, b', hc);
      RunConcat(p, a, b', hc);
    }
  }

  /** A byte after which a scan goes on is read inside it. */
  lemma StaysInScan(p: Ps, ch: Byte, hc: Settings)
    requires (p.st.HeaderField? || p.st.HeaderValue?) && Step(p, ch, hc).Going? && Step(p, ch, hc).ps.st == p.st
    ensures InScan(p.st, ch)
  {
    hide Pass, ValueChar, FieldChar, TokenOf;
    PassOf(p, ch, hc);
    if p.st.HeaderValue? && (ch == CR || ch == LF) { ValueEnd(p, ch, hc); }
  }

  lemma ScanningCounts(p: Ps, c: nat, data: seq<Byte>, hc: Settings)
    requires Scanning(p, data, hc)
    ensures data != [] && Counted(p, c, data, hc) == Counted(p, c, data[..|data| - 1], hc) + 1
  {
    hide Step, CountByte;
    var r := Run(p, data[..|data| - 1], hc);
    StaysInScan(r.ps, data[|data| - 1], hc);
    ScanByte(r.ps, Counted(p, c, data[..|data| - 1], hc), data[|data| - 1], hc);
  }

  /** A count n that starts above c stays above by no more, and by no more than a factor of two. */
  lemma {:induction false} CountGap(p: Ps, c: nat, n: nat, data: seq<Byte>, hc: Settings)
    requires c <= n
    ensures Counted(p, c, data, hc) <= Counted(p, n, data, hc) <= Counted(p, c, data, hc) + (n - c)
    ensures n <= 2 * c ==> Counted(p, n, data, hc) <= 2 * Counted(p, c, data, hc)
    decreases |data|
  {
    hide Run, Resets;
    if data != [] { CountGap(p, c, n, data[..|data| - 1], hc); }
  }

  /** nread exceeds the count by one for each piece that ends in a scan, and never by more than a factor of two. */
  lemma AfterGap(p: Ps, c: nat, n: nat, data: seq<Byte>, hc: Settings)
    requires c <= n <= 2 * c
    ensures Counted(p, c, data, hc) <= After(p, n, data, hc) <= 2 * Counted(p, c, data, hc)
    ensures After(p, n, data, hc) <= Counted(p, c, data, hc) + (n - c) + 1
  {
    hide Run, Counted, Scanning;
    CountGap(p, c, n, data, hc);
    if Scanning(p, data, hc) {
      ScanningCounts(p, c, data, hc);
      ScanningCounts(p, n, data, hc);
      CountGap(p, c, n, data[..|data| - 1], hc);
    }
  }

  /** nread after all pieces. */
  function FedCount(p: Ps, c: nat, xs: seq<seq<Byte>>, hc: Settings): nat
    decreases |xs|
  {
    if xs == [] then c
    else
      var (r, n) := (Run(p, xs[0], hc), After(p, c, xs[0], hc));
      if r.Going? then FedCount(r.ps, n, xs[1..], hc) else n
  }

  /** Some piece is refused for the header limit. */
  ghost predicate FedHits(p: Ps, c: nat, xs: seq<seq<Byte>>, hc: Settings)
    decreases |xs|
  {
    xs != [] && (Hit(p, c, xs[0], hc) || (Run(p, xs[0], hc).Going? && FedHits(Run(p, xs[0], hc).ps, After(p, c, xs[0], hc), xs[1..], hc)))
  }

  /** Twice the count stays under the limit, or the count and the number of pieces together do. */
  predicate Room(n: nat, pieces: nat) { 2 * n < MAX_HEADER || n + pieces < MAX_HEADER }

  /** At every byte of the input the header bytes counted so far leave room for that number of pieces. */
  ghost predicate Bounded(p: Ps, c: nat, data: seq<Byte>, pieces: nat, hc: Settings) {
    forall k: nat :: k <= |data| ==> Room(Counted(p, c, data[..k], hc), pieces)
  }

  lemma BoundedSplit(p: Ps, c: nat, a: seq<Byte>, b: seq<Byte>, pieces: nat, hc: Settings)
    requires Bounded(p, c, a + b, pieces, hc)
    ensures Bounded(p, c, a, pieces, hc)
    ensures Run(p, a, hc).Going? ==> Bounded(Run(p, a, hc).ps, Counted(p, c, a, hc), b, pieces, hc)
  {
    hide Run, Counted, Room;
    forall k: nat | k <= |a| ensures Room(Counted(p, c, a[..k], hc), pieces) { assert (a + b)[..k] == a[..k]; }
    if Run(p, a, hc).Going? {
      forall k: nat | k <= |b| ensures Room(Counted(Run(p, a, hc).ps, Counted(p, c, a, hc), b[..k], hc), pieces) {
        assert (a + b)[..|a| + k] == a + b[..k];
        CountConcat(p, c, a, b[..k], hc);
      }
    }
  }

  lemma {:induction false} BoundedJoin(p: Ps, c: nat, a: seq<Byte>, b: seq<Byte>, pieces: nat, hc: Settings)
    requires Run(p, a, hc).Going? && Bounded(p, c, a, pieces, hc)
    requires Bounded(Run(p, a, hc).ps, Counted(p, c, a, hc), b, pieces, hc)
    ensures Bounded(p, c, a + b, pieces, hc)
  {
    hide Run, Counted, Room;
    forall k: nat | k <= |a + b| ensures Room(Counted(p, c, (a + b)[..k], hc), pieces) {
      if k <= |a| {
        assert (a + b)[..k] == a[..k];
      } else {
        assert (a + b)[..k] == a + b[..k - |a|];
        CountConcat(p, c, a, b[..k - |a|], hc);
      }
    }
  }

  lemma NoHit(p: Ps, c: nat, n: nat, x: seq<Byte>, pieces: nat, hc: Settings)
    requires c <= n <= 2 * c && n - c < pieces && Bounded(p, c, x, pieces, hc)
    ensures !Hit(p, n, x, hc)
  {
    hide Run, Counted, Scanning;
    forall k: nat | k <= |x| ensures !FullAt(p, n, x, hc, k) {
      CountGap(p, c, n, x[..k], hc);
      assert Room(Counted(p, c, x[..k], hc), pieces);
    }
  }

  /** While the header bytes leave room, no piece is refused, whatever the cuts. */
  lemma {:induction false} BoundedFits(p: Ps, c: nat, n: nat, xs: seq<seq<Byte>>, pieces: nat, hc: Settings)
    requires c <= n <= 2 * c && n - c + |xs| <= pieces && Bounded(p, c, Join(xs), pieces, hc)
    ensures !FedHits(p, n, xs, hc)
    decreases |xs|
  {
    hide Run, Counted, Hit, Bounded, After;
    if xs != [] {
      var (x, rest) := (xs[0], Join(xs[1..]));
      BoundedSplit(p, c, x, rest, pieces, hc);
      NoHit(p, c, n, x, pieces, hc);
      AfterGap(p, c, n, x, hc);
      if Run(p, x, hc).Going? {
        BoundedFits(Run(p, x, hc).ps, Counted(p, c, x, hc), After(p, n, x, hc), xs[1..], pieces, hc);
      }
    }
  }

  /* ---- The parser, fed piece by piece ---- */

  /** Feeding the parser piece by piece gives what the byte machine makes of the joined input, unless a piece is
      refused for the header limit; an input the byte machine takes is refused exactly then. */
  method Feed(parser: Parser, xs: seq<seq<Byte>>) returns (st: Status)
    requires parser.Valid() && forall i :: 0 <= i < |xs| ==> xs[i] != []
    modifies parser
    ensures old(parser.out) <= parser.out
    ensures st == Parsed ==> parser.Valid()
    ensures st == Parsed ==> Run(old(parser.ps), Join(xs), parser.hc) == Going(parser.ps, parser.out[|old(parser.out)|..])
    ensures st.Bad? ==> Run(old(parser.ps), Join(xs), parser.hc).Failed? && Run(old(parser.ps), Join(xs), parser.hc).err == st.err
    ensures st == Upgraded ==> var r := Run(old(parser.ps), Join(xs), parser.hc);
      r.Exited? && r.ps == parser.ps && r.out == parser.out[|old(parser.out)|..]
    ensures st == Parsed ==> parser.nread == FedCount(old(parser.ps), old(parser.nread), xs, parser.hc)
    ensures st == Parsed ==> !FedHits(old(parser.ps), old(parser.nread), xs, parser.hc)
    ensures st == Overflow ==> FedHits(old(parser.ps), old(parser.nread), xs, parser.hc)
  {
    hide Run, WellFormed, Hit, After;
    ghost var (p0, c0, base, done) := (parser.ps, parser.nread, parser.out, []);
    st := Parsed;
    RunEmpty(p0, parser.hc);
    assert xs[0..] == xs;
    for i := 0 to |xs|
      invariant old(parser.out) <= parser.out && done + Join(xs[i..]) == Join(xs)
      invariant st == Parsed && parser.Valid()
      invariant Run(p0, done, parser.hc) == Going(parser.ps, parser.out[|base|..])
      invariant FedHits(p0, c0, xs, parser.hc) == FedHits(parser.ps, parser.nread, xs[i..], parser.hc)
      invariant FedCount(p0, c0, xs, parser.hc) == FedCount(parser.ps, parser.nread, xs[i..], parser.hc)
    {
      ghost var (ps1, out1) := (parser.ps, parser.out);
      assert xs[i..][0] == xs[i] && xs[i..][1..] == xs[i + 1..];
      var n;
      st, n := parser.Execute(xs[i]);
      FeedTurn(p0, done, xs[i], Join(xs[i + 1..]), parser.hc);
      if st == Upgraded { assert parser.out[|base|..] == out1[|base|..] + parser.out[|out1|..]; }
      if st != Parsed { return; }
      assert parser.out[|base|..] == out1[|base|..] + parser.out[|out1|..];
      done := done + xs[i];
    }
    assert done + Join(xs[|xs|..]) == done;
  }

  lemma FeedTurn(p: Ps, done: seq<Byte>, x: seq<Byte>, rest: seq<Byte>, hc: Settings)
    requires Run(p, done, hc).Going?
    ensures var r := Run(p, done, hc);
      && done + (x + rest) == (done + x) + rest
      && Run(p, done + x, hc) == Prefix(r.out, |done|, Run(r.ps, x, hc))
      && (!Run(p, done + x, hc).Going? ==> Run(p, (done + x) + rest, hc) == Run(p, done + x, hc))
  {
    hide Run;
    RunConcat(p, done, x, hc);
    RunConcat(p, done + x, rest, hc);
    assert done + (x + rest) == (done + x) + rest;
  }

  /** Feeding an input that the byte machine takes and that leaves room. */
  method FeedAll(parser: Parser, xs: seq<seq<Byte>>, ghost z: Ps, ghost o: seq<Event>) returns (st: Status)
    requires parser.Valid() && forall i :: 0 <= i < |xs| ==> xs[i] != []
    requires Run(parser.ps, Join(xs), parser.hc) == Going(z, o) && Bounded(parser.ps, parser.nread, Join(xs), |xs|, parser.hc)
    modifies parser
    ensures st == Parsed && parser.Valid() && parser.ps == z && parser.out == old(parser.out) + o
  {
    hide Run, WellFormed, FedHits, FedCount, Bounded;
    BoundedFits(parser.ps, parser.nread, parser.nread, xs, |xs|, parser.hc);
    st := Feed(parser, xs);
    assert parser.out == parser.out[..|old(parser.out)|] + parser.out[|old(parser.out)|..];
  }

  lemma RunEmpty(p: Ps, hc: Settings)
    ensures Run(p, [], hc) == Going(p, [])
  {
  }
}
