/** The header limit over all cuttings of an input: the whole input is the hardest to refuse, byte by byte the
    easiest, and exactly when these two agree does the limit not depend on the cuts. */
module HttpLimit {
  import opened Lists
  import opened HttpMachine
  import opened HttpParser
  import opened HttpInvariant
  import opened HttpCount
  import opened HttpExecute
  import opened HttpCuts

  function Singles(d: seq<Byte>): (xs: seq<seq<Byte>>)
    ensures |xs| == |d| && forall i :: 0 <= i < |d| ==> xs[i] == [d[i]]
  {
    seq(|d|, i requires 0 <= i < |d| => [d[i]])
  }

  lemma {:induction false} JoinSingles(d: seq<Byte>)
    ensures Join(Singles(d)) == d
    decreases |d|
  {
    if d != [] {
      JoinSingles(d[1..]);
      assert Singles(d)[1..] == Singles(d[1..]);
    }
  }

  predicate NoEmpty(xs: seq<seq<Byte>>) { forall i :: 0 <= i < |xs| ==> xs[i] != [] }

  /* ---- Higher counts, more pieces ---- */

  /** A higher count is refused earlier, if at all. */
  lemma HitMonotone(p: Ps, c: nat, n: nat, x: seq<Byte>, hc: Settings)
    requires c <= n
    ensures Hit(p, c, x, hc) ==> Hit(p, n, x, hc)
    ensures After(p, c, x, hc) <= After(p, n, x, hc)
  {
    hide Run, Counted, Scanning;
    forall k: nat | k <= |x| ensures FullAt(p, c, x, hc, k) ==> FullAt(p, n, x, hc, k) { CountGap(p, c, n, x[..k], hc); }
    CountGap(p, c, n, x, hc);
  }

  lemma {:induction false} FedMonotone(p: Ps, c: nat, n: nat, xs: seq<seq<Byte>>, hc: Settings)
    requires c <= n && FedHits(p, c, xs, hc)
    ensures FedHits(p, n, xs, hc)
    decreases |xs|
  {
    hide Run, Hit, After;
    HitMonotone(p, c, n, xs[0], hc);
    if !Hit(p, c, xs[0], hc) { FedMonotone(Run(p, xs[0], hc).ps, After(p, c, xs[0], hc), After(p, n, xs[0], hc), xs[1..], hc); }
  }

  /** The second part of a piece ends in a scan exactly when the piece does. */
  lemma ScanningSplit(p: Ps, a: seq<Byte>, b: seq<Byte>, hc: Settings)
    requires Run(p, a, hc).Going? && b != []
    ensures Scanning(p, a + b, hc) <==> Scanning(Run(p, a, hc).ps, b, hc)
  {
    hide Run;
    RunConcat(p, a, b, hc);
    RunConcat(p, a, b[..|b| - 1], hc);
    assert (a + b)[..|a + b| - 1] == a + b[..|b| - 1];
  }

  /** What goes on beyond a prefix has read the prefix. */
  lemma PrefixGoes(p: Ps, a: seq<Byte>, b: seq<Byte>, hc: Settings)
    requires Run(p, a + b, hc).Going?
    ensures Run(p, a, hc).Going?
  {
    RunConcat(p, a, b, hc);
  }

  /** A piece that reaches the limit at byte k does so as well when it is cut in two. */
  lemma SplitFull(p: Ps, c: nat, n: nat, a: seq<Byte>, b: seq<Byte>, k: nat, hc: Settings)
    requires c <= n && k <= |a + b| && FullAt(p, c, a + b, hc, k)
    ensures k <= |a| ==> FullAt(p, n, a, hc, k)
    ensures k >= |a| && Run(p, a, hc).Going? ==> FullAt(Run(p, a, hc).ps, After(p, n, a, hc), b, hc, k - |a|)
  {
    hide Run, Counted, Scanning;
    if k <= |a| {
      assert (a + b)[..k] == a[..k];
      CountGap(p, c, n, a[..k], hc);
    }
    if k >= |a| && Run(p, a, hc).Going? {
      assert (a + b)[..k] == a + b[..k - |a|];
      CountConcat(p, c, a, b[..k - |a|], hc);
      CountGap(p, c, n, a, hc);
      CountGap(Run(p, a, hc).ps, Counted(p, c, a, hc), After(p, n, a, hc), b[..k - |a|], hc);
    }
  }

  lemma SplitHit(p: Ps, c: nat, n: nat, a: seq<Byte>, b: seq<Byte>, hc: Settings)
    requires c <= n && b != [] && Hit(p, c, a + b, hc)
    ensures Hit(p, n, a, hc) || (Run(p, a, hc).Going? && Hit(Run(p, a, hc).ps, After(p, n, a, hc), b, hc))
  {
    hide Run, Counted, Scanning, FullAt, After;
    if k: nat :| k < |a + b| && Run(p, (a + b)[..k], hc).Going? && FullAt(p, c, a + b, hc, k) {
      SplitFull(p, c, n, a, b, k, hc);
      if k < |a| {
        assert (a + b)[..k] == a[..k];
      } else {
        assert (a + b)[..k] == a + b[..k - |a|];
        PrefixGoes(p, a, b[..k - |a|], hc);
        RunConcat(p, a, b[..k - |a|], hc);
      }
    } else {
      ScanGoes(p, a + b, hc);
      PrefixGoes(p, a, b, hc);
      ScanningSplit(p, a, b, hc);
      SplitFull(p, c, n, a, b, |a + b|, hc);
    }
  }

  lemma ScanGoes(p: Ps, d: seq<Byte>, hc: Settings)
    requires Scanning(p, d, hc)
    ensures Run(p, d, hc).Going?
  {
  }

  /** nread after a piece is no lower when the piece is cut in two. */
  lemma SplitAfter(p: Ps, c: nat, n: nat, a: seq<Byte>, b: seq<Byte>, hc: Settings)
    requires c <= n && b != [] && Run(p, a + b, hc).Going?
    ensures Run(p, a, hc).Going? && Run(Run(p, a, hc).ps, b, hc).Going? && Run(Run(p, a, hc).ps, b, hc).ps == Run(p, a + b, hc).ps
    ensures After(p, c, a + b, hc) <= After(Run(p, a, hc).ps, After(p, n, a, hc), b, hc)
  {
    hide Run, Counted, Scanning;
    PrefixGoes(p, a, b, hc);
    RunConcat(p, a, b, hc);
    ScanningSplit(p, a, b, hc);
    CountConcat(p, c, a, b, hc);
    CountGap(p, c, n, a, hc);
    CountGap(Run(p, a, hc).ps, Counted(p, c, a, hc), After(p, n, a, hc), b, hc);
  }

  /** Cutting a piece in two never helps. */
  lemma SplitWorse(p: Ps, c: nat, n: nat, a: seq<Byte>, b: seq<Byte>, ys: seq<seq<Byte>>, hc: Settings)
    requires c <= n && b != [] && FedHits(p, c, [a + b] + ys, hc)
    ensures Hit(p, n, a, hc) || (Run(p, a, hc).Going? && FedHits(Run(p, a, hc).ps, After(p, n, a, hc), [b] + ys, hc))
  {
    hide Run, Hit, After;
    assert ([a + b] + ys)[1..] == ys && ([b] + ys)[1..] == ys;
    if Hit(p, c, a + b, hc) {
      SplitHit(p, c, n, a, b, hc);
    } else {
      SplitAfter(p, c, n, a, b, hc);
      var q := Run(p, a, hc).ps;
      FedMonotone(Run(p, a + b, hc).ps, After(p, c, a + b, hc), After(q, After(p, n, a, hc), b, hc), ys, hc);
    }
  }

  /* ---- The two extremes ---- */

  /** What is refused in some cutting is refused byte by byte. */
  lemma {:induction false} SinglesWorst(p: Ps, c: nat, n: nat, xs: seq<seq<Byte>>, hc: Settings)
    requires c <= n && NoEmpty(xs) && FedHits(p, c, xs, hc)
    ensures FedHits(p, n, Singles(Join(xs)), hc)
    decreases |Join(xs)|
  {
    hide Run, Hit, After;
    var (x, ys) := (xs[0], xs[1..]);
    var d := Join(xs);
    var (a, b) := ([x[0]], x[1..]);
    assert d == a + d[1..] && Singles(d)[0] == a && Singles(d)[1..] == Singles(d[1..]);
    if b == [] {
      assert x == a && d[1..] == Join(ys);
      HitMonotone(p, c, n, x, hc);
      if !Hit(p, c, x, hc) { SinglesWorst(Run(p, a, hc).ps, After(p, c, a, hc), After(p, n, a, hc), ys, hc); }
    } else {
      assert x == a + b && xs == [a + b] + ys;
      SplitWorse(p, c, n, a, b, ys, hc);
      assert ([b] + ys)[1..] == ys && d[1..] == Join([b] + ys);
      if !Hit(p, n, a, hc) { SinglesWorst(Run(p, a, hc).ps, After(p, n, a, hc), After(p, n, a, hc), [b] + ys, hc); }
    }
  }

  /** What is refused whole is refused in every cutting. */
  lemma {:induction false} WholeBest(p: Ps, c: nat, n: nat, xs: seq<seq<Byte>>, hc: Settings)
    requires c <= n && NoEmpty(xs) && xs != [] && FedHits(p, c, [Join(xs)], hc)
    ensures FedHits(p, n, xs, hc)
    decreases |xs|
  {
    hide Run, Hit, After;
    var (a, b) := (xs[0], Join(xs[1..]));
    if |xs| == 1 {
      assert xs == [a] && b == [] && Join(xs) == a;
      FedMonotone(p, c, n, xs, hc);
    } else {
      assert b != [] by { assert b == xs[1] + Join(xs[1..][1..]); }
      assert [a + b] + [] == [Join(xs)] && [b] + [] == [b];
      SplitWorse(p, c, n, a, b, [], hc);
      if !Hit(p, n, a, hc) { WholeBest(Run(p, a, hc).ps, After(p, n, a, hc), After(p, n, a, hc), xs[1..], hc); }
    }
  }

  predicate Cutting(xs: seq<seq<Byte>>, d: seq<Byte>) { NoEmpty(xs) && Join(xs) == d }

  /** All cuttings of d are refused, or none is. */
  ghost predicate Agreed(p: Ps, c: nat, d: seq<Byte>, hc: Settings) {
    forall xs, ys :: Cutting(xs, d) && Cutting(ys, d) ==> (FedHits(p, c, xs, hc) <==> FedHits(p, c, ys, hc))
  }

  /** The header limit does not depend on the cuts exactly when the input is refused whole or not refused byte by
      byte. */
  lemma CutsAgree(p: Ps, c: nat, d: seq<Byte>, hc: Settings)
    requires d != []
    ensures Agreed(p, c, d, hc) <==> (FedHits(p, c, [d], hc) <==> FedHits(p, c, Singles(d), hc))
  {
    hide FedHits;
    WholeCutting(d);
    JoinSingles(d);
    assert Cutting(Singles(d), d);
    if FedHits(p, c, [d], hc) <==> FedHits(p, c, Singles(d), hc) {
      forall xs | Cutting(xs, d) ensures FedHits(p, c, xs, hc) <==> FedHits(p, c, [d], hc) { Between(p, c, xs, hc); }
    }
  }

  lemma WholeCutting(d: seq<Byte>)
    requires d != []
    ensures Cutting([d], d)
  {
    assert [d][1..] == [] && d + [] == d;
  }

  /** Every cutting lies between the two. */
  lemma Between(p: Ps, c: nat, xs: seq<seq<Byte>>, hc: Settings)
    requires NoEmpty(xs) && Join(xs) != []
    ensures FedHits(p, c, [Join(xs)], hc) ==> FedHits(p, c, xs, hc)
    ensures FedHits(p, c, xs, hc) ==> FedHits(p, c, Singles(Join(xs)), hc)
  {
    if FedHits(p, c, [Join(xs)], hc) { WholeBest(p, c, c, xs, hc); }
    if FedHits(p, c, xs, hc) { SinglesWorst(p, c, c, xs, hc); }
  }

  /* ---- Two parsers ---- */

  /** Cut-independence: two parsers in the same state that are fed the same input in different cuts end with the
      same status, in the same state and after the same callbacks, unless one of them is refused for the header
      limit.  A parser is not when the input is not refused byte by byte, or when the header bytes leave room; and
      it is when the byte machine takes the input and it is refused whole. */
  method FeedBoth(a: Parser, b: Parser, xs: seq<seq<Byte>>, ys: seq<seq<Byte>>) returns (sa: Status, sb: Status)
    requires a != b && a.Valid() && b.Valid() && a.ps == b.ps && a.hc == b.hc
    requires NoEmpty(xs) && NoEmpty(ys) && Join(xs) == Join(ys)
    modifies a, b
    ensures old(a.out) <= a.out && old(b.out) <= b.out
    ensures (sa == Overflow ==> old(FedHits(a.ps, a.nread, xs, a.hc))) && (sb == Overflow ==> old(FedHits(b.ps, b.nread, ys, b.hc)))
    ensures sa != Overflow && sb != Overflow ==> sa == sb
    ensures sa == sb && (sa == Parsed || sa == Upgraded) ==> a.ps == b.ps && a.out[|old(a.out)|..] == b.out[|old(b.out)|..]
    ensures old(Safe(a, xs)) ==> sa != Overflow
    ensures old(Safe(b, ys)) ==> sb != Overflow
    ensures old(Run(a.ps, Join(xs), a.hc).Going? && FedHits(a.ps, a.nread, [Join(xs)], a.hc)) ==> sa == Overflow
    ensures old(Run(b.ps, Join(ys), b.hc).Going? && FedHits(b.ps, b.nread, [Join(ys)], b.hc)) ==> sb == Overflow
  {
    hide Run, WellFormed, FedHits, FedCount, Bounded;
    Extremes(a.ps, a.nread, xs, a.hc);
    Extremes(b.ps, b.nread, ys, b.hc);
    sa := Feed(a, xs);
    sb := Feed(b, ys);
  }

  /** The input is not refused byte by byte, or the header bytes leave room for its pieces. */
  ghost predicate Safe(a: Parser, xs: seq<seq<Byte>>)
    reads a
  {
    !FedHits(a.ps, a.nread, Singles(Join(xs)), a.hc) || Bounded(a.ps, a.nread, Join(xs), |xs|, a.hc)
  }

  lemma Extremes(p: Ps, c: nat, xs: seq<seq<Byte>>, hc: Settings)
    requires NoEmpty(xs)
    ensures FedHits(p, c, [Join(xs)], hc) ==> FedHits(p, c, xs, hc)
    ensures FedHits(p, c, xs, hc) ==> FedHits(p, c, Singles(Join(xs)), hc) && !Bounded(p, c, Join(xs), |xs|, hc)
  {
    hide FedHits, Bounded;
    if Join(xs) != [] { Between(p, c, xs, hc); } else { NoPieces(p, c, xs, hc); }
    if Bounded(p, c, Join(xs), |xs|, hc) { BoundedFits(p, c, c, xs, |xs|, hc); }
  }

  lemma NoPieces(p: Ps, c: nat, xs: seq<seq<Byte>>, hc: Settings)
    requires NoEmpty(xs) && Join(xs) == []
    ensures xs == [] && !FedHits(p, c, xs, hc) && !FedHits(p, c, [Join(xs)], hc)
  {
    hide Run;
    assert [Join(xs)][1..] == [];
  }

  /* ---- Names and values ---- */

  /** The input is the rest of a header name, or of a value that is not looked at. */
  predicate Scans(p: Ps, d: seq<Byte>) {
    (p.st.HeaderField? || (p.st.HeaderValue? && p.hs.General?)) && forall i :: 0 <= i < |d| ==> InScan(p.st, d[i])
  }

  /** Inside a name or value every byte is counted once. */
  lemma {:induction false} ScanCounts(p: Ps, c: nat, d: seq<Byte>, hc: Settings)
    requires Scans(p, d)
    ensures var r := Run(p, d, hc); r.Going? && r.ps.st == p.st && (p.st.HeaderValue? ==> r.ps.hs.General?)
    ensures Counted(p, c, d, hc) == c + |d|
    decreases |d|
  {
    hide Step, TokenOf, FieldChar, CountByte;
    if d != [] {
      var e := d[..|d| - 1];
      ScanCounts(p, c, e, hc);
      var q := Run(p, e, hc).ps;
      if p.st.HeaderField? { FieldByte(q, d[|d| - 1], hc); } else { ValueByte(q, d[|d| - 1], hc); }
      ScanByte(q, c + |e|, d[|d| - 1], hc);
    }
  }

  lemma ScanHit(p: Ps, c: nat, d: seq<Byte>, hc: Settings)
    requires Scans(p, d) && d != []
    ensures Scanning(p, d, hc) && After(p, c, d, hc) == c + |d| + 1
    ensures Hit(p, c, d, hc) <==> c + |d| >= MAX_HEADER
  {
    hide Run, Counted, TokenOf;
    forall k: nat | k <= |d| ensures Run(p, d[..k], hc).Going? && (FullAt(p, c, d, hc, k) <==> c + k >= MAX_HEADER) {
      ScanCounts(p, c, d[..k], hc);
    }
    assert d[..|d|] == d;
    ScanCounts(p, c, d, hc);
    ScanCounts(p, c, d[..|d| - 1], hc);
  }

  /** The rest of a header name or value: fed whole it is refused exactly when its bytes reach the limit, fed byte
      by byte exactly when twice its bytes exceed it. */
  lemma {:induction false} ScanCuts(p: Ps, c: nat, d: seq<Byte>, hc: Settings)
    requires Scans(p, d) && d != []
    ensures FedHits(p, c, [d], hc) <==> c + |d| >= MAX_HEADER
    ensures FedHits(p, c, Singles(d), hc) <==> c + 2 * |d| > MAX_HEADER
    decreases |d|
  {
    hide Run, Counted, Hit, After, TokenOf;
    ScanHit(p, c, d, hc);
    assert [d][1..] == [];
    var x := [d[0]];
    ScanHit(p, c, x, hc);
    ScanCounts(p, c, x, hc);
    assert Singles(d)[0] == x;
    if |d| == 1 {
      assert Singles(d)[1..] == [];
    } else {
      assert Singles(d)[1..] == Singles(d[1..]);
      ScanCuts(Run(p, x, hc).ps, c + 2, d[1..], hc);
    }
  }
}
