/** The language of URLs: exactly which ones the URL states of the parser take. */
module HttpUrls {
  import opened Lists
  import opened HttpMachine

  /* ---- The states ---- */

  /** The state parse_url_char is in after the characters, Dead at the first one it refuses. */
  function UrlFold(s: St, url: seq<Byte>): St
    decreases |url|
  {
    if url == [] then s
    else
      var t := UrlFold(s, url[..|url| - 1]);
      if t == Dead then Dead else UrlChar(t, url[|url| - 1])
  }

  /** A URL may end here. */
  predicate Whole(s: St) {
    InUrl(s) && !(s.ReqSchema? || s.ReqSchemaSlash? || s.ReqSchemaSlashSlash? || s.ReqServerStart?)
  }

  /** The states of the parser take the URL for the method. */
  predicate GoodUrl(m: nat, url: seq<Byte>) {
    url != [] && url[0] != SP && Whole(UrlFold(if m == 5 then ReqServerStart else ReqSpaces, url))
  }

  /* ---- The grammar ---- */

  /** Visible ASCII characters. */
  predicate Visible(t: seq<Byte>) { forall i :: 0 <= i < |t| ==> 33 <= t[i] <= 126 }

  predicate Letter(b: Byte) { 65 <= b <= 90 || 97 <= b <= 122 }

  /** Letters, digits and ! $ % & ' ( ) * + , - . : ; = @ [ ] _ ~ */
  predicate ServerByte(b: Byte) {
    Letter(b) || 48 <= b <= 57 || b == 33 || 36 <= b <= 46 || b == 58 || b == 59 || b == 61 || b == 64 || b == 91 || b == 93 || b == 95 || b == 126
  }

  /** A server of k characters without "@@", then nothing or "/" or "?" and any visible characters. */
  predicate TargetAt(t: seq<Byte>, k: nat) {
    && k <= |t| && (forall i :: 0 <= i < k ==> ServerByte(t[i]))
    && (forall i :: 0 < i < k ==> !(t[i - 1] == 64 && t[i] == 64))
    && (k < |t| ==> (t[k] == 47 || t[k] == 63) && Visible(t[k..]))
  }

  ghost predicate Target(t: seq<Byte>) { t != [] && exists k: nat :: TargetAt(t, k) }

  /** A scheme of i letters, "://" and a target. */
  ghost predicate SchemeAt(t: seq<Byte>, i: nat) {
    i + 3 <= |t| && (forall j :: 0 <= j < i ==> Letter(t[j])) && t[i] == 58 && t[i + 1] == 47 && t[i + 2] == 47 && Target(t[i + 3..])
  }

  /** The URLs of requests: for CONNECT a target; otherwise "/" or "*" and any visible characters, where "?" and
      "#" begin the query and the fragment, or a scheme with a target. */
  ghost predicate IsUrl(m: nat, url: seq<Byte>) {
    if m == 5 then Target(url)
    else url != [] && (((url[0] == 47 || url[0] == 42) && Visible(url)) || exists i: nat :: i > 0 && SchemeAt(url, i))
  }

  lemma FoldBack(s: St, d: seq<Byte>, b: Byte)
    ensures UrlFold(s, d + [b]) == if UrlFold(s, d) == Dead then Dead else UrlChar(UrlFold(s, d), b)
  {
    hide UrlChar;
    assert (d + [b])[..|d|] == d;
  }

  lemma {:induction false} FoldFront(s: St, c: Byte, t: seq<Byte>)
    requires s != Dead
    ensures UrlFold(s, [c] + t) == UrlFold(UrlChar(s, c), t)
    decreases |t|
  {
    hide UrlChar, UrlFold;
    FoldEmpty(s);
    if t == [] {
      FoldBack(s, [], c);
      FoldEmpty(UrlChar(s, c));
      assert [c] + t == [] + [c];
    } else {
      var (d, b) := (t[..|t| - 1], t[|t| - 1]);
      assert t == d + [b] && [c] + t == ([c] + d) + [b];
      FoldFront(s, c, d);
      FoldBack(s, [c] + d, b);
      FoldBack(UrlChar(s, c), d, b);
    }
  }

  lemma {:induction false} FoldDead(t: seq<Byte>)
    ensures UrlFold(Dead, t) == Dead
    decreases |t|
  {
    if t != [] { FoldDead(t[..|t| - 1]); }
  }

  lemma FoldFirst(s: St, t: seq<Byte>)
    requires s != Dead && t != []
    ensures UrlFold(s, t) == UrlFold(UrlChar(s, t[0]), t[1..])
  {
    assert t == [t[0]] + t[1..];
    FoldFront(s, t[0], t[1..]);
  }

  predicate InTail(s: St) { s.ReqPath? || s.ReqQueryStart? || s.ReqQuery? || s.ReqFragmentStart? || s.ReqFragment? }

  lemma TailByte(s: St, c: Byte)
    requires InTail(s)
    ensures if 33 <= c <= 126 then InTail(UrlChar(s, c)) else UrlChar(s, c) == Dead
  {
  }

  /** From the path on every visible character is taken. */
  lemma {:induction false} TailExactly(s: St, t: seq<Byte>)
    requires InTail(s)
    ensures if Visible(t) then InTail(UrlFold(s, t)) else UrlFold(s, t) == Dead
    decreases |t|
  {
    hide UrlChar, UrlFold;
    if t == [] {
      FoldEmpty(s);
    } else {
      var (c, r) := (t[0], t[1..]);
      FoldFirst(s, t);
      TailByte(s, c);
      assert Visible(t) <==> 33 <= c <= 126 && Visible(r) by { assert t == [c] + r; }
      if 33 <= c <= 126 { TailExactly(UrlChar(s, c), r); } else { FoldDead(r); }
    }
  }

  lemma FoldEmpty(s: St)
    ensures UrlFold(s, []) == s
  {
  }

  predicate InServer(s: St) { s.ReqServerStart? || s.ReqServer? || s.ReqServerWithAt? }

  lemma ServerStep(s: St, c: Byte)
    requires InServer(s)
    ensures UrlChar(s, c) ==
      if c == 47 then ReqPath else if c == 63 then ReqQueryStart
      else if !ServerByte(c) || (c == 64 && s.ReqServerWithAt?) then Dead
      else if c == 64 then ReqServerWithAt else ReqServer
  {
  }

  /** The rest of a target in state s; behind an "@" it does not begin with another. */
  ghost predicate TargetFrom(s: St, t: seq<Byte>, k: nat) {
    TargetAt(t, k) && !(s.ReqServerWithAt? && k > 0 && t[0] == 64)
  }

  lemma TargetShift(s: St, t: seq<Byte>, k: nat)
    requires InServer(s) && t != [] && k > 0
    ensures TargetFrom(s, t, k) <==> InServer(UrlChar(s, t[0])) && TargetFrom(UrlChar(s, t[0]), t[1..], k - 1)
  {
    hide UrlChar;
    ServerStep(s, t[0]);
    var r := t[1..];
    if TargetFrom(s, t, k) {
      assert ServerByte(t[0]);
      assert k < |t| ==> r[k - 1..] == t[k..];
      assert k > 1 ==> !(t[0] == 64 && t[1] == 64);
      forall i | 0 < i < k - 1 ensures !(r[i - 1] == 64 && r[i] == 64) { assert !(t[i] == 64 && t[i + 1] == 64); }
    }
    if InServer(UrlChar(s, t[0])) && TargetFrom(UrlChar(s, t[0]), r, k - 1) {
      assert k < |t| ==> r[k - 1..] == t[k..];
      forall i | 0 <= i < k ensures ServerByte(t[i]) { if i > 0 { assert t[i] == r[i - 1]; } }
      forall i | 0 < i < k ensures !(t[i - 1] == 64 && t[i] == 64) {
        if i > 1 { assert t[i - 1] == r[i - 2] && t[i] == r[i - 1]; }
      }
    }
  }

  ghost predicate RestFrom(s: St, t: seq<Byte>) { exists k: nat :: TargetFrom(s, t, k) }

  /** What is taken from a server state on. */
  lemma {:induction false} ServerExactly(s: St, t: seq<Byte>)
    requires InServer(s)
    ensures Whole(UrlFold(s, t)) <==> (t != [] || !s.ReqServerStart?) && RestFrom(s, t)
    decreases |t|
  {
    hide UrlChar, UrlFold, TargetAt, RestFrom;
    if t == [] {
      FoldEmpty(s);
      EmptyRest(s);
    } else {
      var (c, r) := (t[0], t[1..]);
      var z := UrlChar(s, c);
      FoldFirst(s, t);
      ServerStep(s, c);
      if c == 47 || c == 63 {
        TailExactly(z, r);
        TailRest(s, t);
      } else {
        ServerRest(s, t);
        if InServer(z) { ServerExactly(z, r); } else { FoldDead(r); }
      }
    }
  }

  lemma EmptyRest(s: St)
    ensures RestFrom(s, [])
  {
    EmptyTarget();
    assert TargetFrom(s, [], 0);
  }

  lemma TailRest(s: St, t: seq<Byte>)
    requires t != [] && (t[0] == 47 || t[0] == 63)
    ensures RestFrom(s, t) <==> Visible(t[1..])
  {
    hide TargetAt;
    TailTarget(t);
    assert TargetFrom(s, t, 0) <==> TargetAt(t, 0);
  }

  /** A server character goes on to the next state with the rest. */
  lemma ServerRest(s: St, t: seq<Byte>)
    requires InServer(s) && t != [] && t[0] != 47 && t[0] != 63
    ensures RestFrom(s, t) <==> InServer(UrlChar(s, t[0])) && RestFrom(UrlChar(s, t[0]), t[1..])
  {
    hide UrlChar, TargetFrom;
    var (z, r) := (UrlChar(s, t[0]), t[1..]);
    if k: nat :| TargetFrom(s, t, k) {
      FirstNotTail(s, t, k);
      TargetShift(s, t, k);
      assert TargetFrom(z, r, k - 1);
    }
    if InServer(z) && RestFrom(z, r) {
      var k: nat :| TargetFrom(z, r, k);
      TargetShift(s, t, k + 1);
      assert TargetFrom(s, t, k + 1);
    }
  }

  lemma FirstNotTail(s: St, t: seq<Byte>, k: nat)
    requires t != [] && t[0] != 47 && t[0] != 63 && TargetFrom(s, t, k)
    ensures k > 0
  {
    hide TargetAt;
    NoTail(t);
  }

  lemma EmptyTarget()
    ensures TargetAt([], 0)
  {
  }

  lemma NoTail(t: seq<Byte>)
    requires t != [] && t[0] != 47 && t[0] != 63
    ensures !TargetAt(t, 0)
  {
  }

  lemma TailTarget(t: seq<Byte>)
    requires t != [] && (t[0] == 47 || t[0] == 63)
    ensures forall k: nat :: TargetAt(t, k) <==> k == 0 && Visible(t[1..])
  {
    forall k: nat ensures TargetAt(t, k) <==> k == 0 && Visible(t[1..]) {
      assert t[0..] == [t[0]] + t[1..] && !ServerByte(t[0]);
    }
  }

  lemma SchemeStep(s: St, c: Byte)
    ensures s.ReqSchema? ==> UrlChar(s, c) == if Letter(c) then ReqSchema else if c == 58 then ReqSchemaSlash else Dead
    ensures s.ReqSchemaSlash? ==> UrlChar(s, c) == if c == 47 then ReqSchemaSlashSlash else Dead
    ensures s.ReqSchemaSlashSlash? ==> UrlChar(s, c) == if c == 47 then ReqServerStart else Dead
    ensures s.ReqSpaces? ==> UrlChar(s, c) == if c == 47 || c == 42 then ReqPath else if Letter(c) then ReqSchema else Dead
  {
  }

  lemma TargetWhole(t: seq<Byte>)
    ensures Whole(UrlFold(ReqServerStart, t)) <==> Target(t)
  {
    hide UrlFold, TargetAt;
    ServerExactly(ReqServerStart, t);
    if RestFrom(ReqServerStart, t) { var k: nat :| TargetFrom(ReqServerStart, t, k); assert TargetAt(t, k); }
    if k: nat :| TargetAt(t, k) { assert TargetFrom(ReqServerStart, t, k); }
  }

  /** The two slashes. */
  lemma SlashesExactly(t: seq<Byte>)
    ensures Whole(UrlFold(ReqSchemaSlash, t)) <==> |t| >= 2 && t[0] == 47 && t[1] == 47 && Target(t[2..])
  {
    hide UrlChar, UrlFold, Target;
    FoldEmpty(ReqSchemaSlash);
    FoldEmpty(ReqSchemaSlashSlash);
    if t != [] {
      var r := t[1..];
      FoldFirst(ReqSchemaSlash, t);
      SchemeStep(ReqSchemaSlash, t[0]);
      FoldDead(r);
      if t[0] == 47 && r != [] {
        FoldFirst(ReqSchemaSlashSlash, r);
        SchemeStep(ReqSchemaSlashSlash, r[0]);
        assert r[1..] == t[2..];
        FoldDead(r[1..]);
        TargetWhole(t[2..]);
      }
    }
  }

  lemma SchemeShift(t: seq<Byte>, i: nat)
    requires t != [] && i > 0
    ensures SchemeAt(t, i) <==> Letter(t[0]) && SchemeAt(t[1..], i - 1)
  {
    hide Target;
    var r := t[1..];
    if i + 3 <= |t| { assert r[i - 1 + 3..] == t[i + 3..]; }
    if Letter(t[0]) && SchemeAt(r, i - 1) {
      forall j | 0 <= j < i ensures Letter(t[j]) { if j > 0 { assert t[j] == r[j - 1]; } }
    }
  }

  /** What is taken inside a scheme. */
  lemma {:induction false} SchemeExactly(t: seq<Byte>)
    ensures Whole(UrlFold(ReqSchema, t)) <==> exists i: nat :: SchemeAt(t, i)
    decreases |t|
  {
    hide UrlChar, UrlFold, Target, SchemeAt;
    if t == [] {
      FoldEmpty(ReqSchema);
      NoScheme(t);
    } else {
      var (c, r) := (t[0], t[1..]);
      FoldFirst(ReqSchema, t);
      SchemeStep(ReqSchema, c);
      forall i: nat ensures i > 0 ==> (SchemeAt(t, i) <==> Letter(c) && SchemeAt(r, i - 1)) { if i > 0 { SchemeShift(t, i); } }
      if Letter(c) {
        SchemeExactly(r);
        NoScheme(t);
        if i: nat :| SchemeAt(r, i) { assert SchemeAt(t, i + 1) <==> Letter(c) && SchemeAt(r, i + 1 - 1); }
        if i: nat :| SchemeAt(t, i) { assert SchemeAt(r, i - 1); }
      } else if c == 58 {
        SlashesExactly(r);
        ColonScheme(t);
      } else {
        FoldDead(r);
        NoScheme(t);
      }
    }
  }

  lemma NoScheme(t: seq<Byte>)
    requires t == [] || t[0] != 58
    ensures !SchemeAt(t, 0) && (t == [] ==> forall i: nat :: !SchemeAt(t, i))
  {
  }

  lemma ColonScheme(t: seq<Byte>)
    requires t != [] && t[0] == 58
    ensures SchemeAt(t, 0) <==> var r := t[1..]; |r| >= 2 && r[0] == 47 && r[1] == 47 && Target(r[2..])
  {
    if |t| >= 3 { assert t[1..][2..] == t[3..]; }
  }

  /** The URL states accept exactly these URLs. */
  lemma UrlExactly(m: nat, url: seq<Byte>)
    ensures GoodUrl(m, url) <==> IsUrl(m, url)
  {
    hide UrlChar, UrlFold, TargetAt, Target, SchemeAt, Visible;
    if m == 5 {
      TargetWhole(url);
      if Target(url) { TargetFirst(url); }
    } else if url != [] {
      var (c, r) := (url[0], url[1..]);
      FoldFirst(ReqSpaces, url);
      SchemeStep(ReqSpaces, c);
      forall i: nat ensures i > 0 ==> (SchemeAt(url, i) <==> Letter(c) && SchemeAt(r, i - 1)) { if i > 0 { SchemeShift(url, i); } }
      if c == 47 || c == 42 {
        TailExactly(ReqPath, r);
        VisibleFirst(url);
      } else if Letter(c) {
        SchemeExactly(r);
        if i: nat :| SchemeAt(r, i) { assert SchemeAt(url, i + 1) <==> Letter(c) && SchemeAt(r, i + 1 - 1); }
      } else {
        FoldDead(r);
      }
    }
  }

  lemma VisibleFirst(t: seq<Byte>)
    requires t != []
    ensures Visible(t) <==> 33 <= t[0] <= 126 && Visible(t[1..])
  {
    assert t == [t[0]] + t[1..];
  }

  lemma TargetFirst(t: seq<Byte>)
    requires Target(t)
    ensures t != [] && t[0] != SP
  {
    var k: nat :| TargetAt(t, k);
    if k > 0 { assert ServerByte(t[0]); }
  }

  /** The origin form: "/" and any path, query and fragment of visible characters. */
  lemma OriginForm(m: nat, url: seq<Byte>)
    requires m != 5 && url != [] && url[0] == 47
    ensures GoodUrl(m, url) <==> forall i :: 0 <= i < |url| ==> 33 <= url[i] <= 126
  {
    hide Target;
    UrlExactly(m, url);
    assert !Letter(url[0]);
  }
}
