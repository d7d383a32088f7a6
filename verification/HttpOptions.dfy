/** Lists of connection options: which of them the parser sees. */
module HttpOptions {
  import opened Lists
  import opened Arith
  import opened HttpMachine
  import opened HttpParser
  import opened HttpCuts
  import opened HttpChunked
  import opened HttpMessages
  import opened HttpHeaders
  import opened HttpRequests
  import opened HttpLines

  /** The parser after more characters of a value that is no length. */
  function Chars(q: Ps, b: seq<Byte>): (r: Ps)
    requires !q.hs.Length?
    ensures !r.hs.Length?
    decreases |b|
  {
    if b == [] then q else OtherChar(q, b[0]); Chars(ValueChar(q, b[0]).value, b[1..])
  }

  lemma {:induction false} CharsJoin(q: Ps, a: seq<Byte>, b: seq<Byte>)
    requires !q.hs.Length?
    ensures Chars(q, a + b) == Chars(Chars(q, a), b)
    decreases |a|
  {
    hide ValueChar;
    if a == [] {
      assert a + b == b;
    } else {
      OtherChar(q, a[0]);
      CharsJoin(ValueChar(q, a[0]).value, a[1..], b);
      assert (a + b)[0] == a[0] && (a + b)[1..] == a[1..] + b;
    }
  }

  lemma CharsOne(q: Ps, ch: Byte)
    requires !q.hs.Length?
    ensures ValueChar(q, ch).Some? && Chars(q, [ch]) == ValueChar(q, ch).value
  {
    hide ValueChar;
    OtherChar(q, ch);
    assert [ch][1..] == [];
  }

  lemma {:induction false} FoldChars(p: Ps, c: Byte, b: seq<Byte>)
    requires !p.hs.Length?
    ensures !ActValueStart(p, c).ps.hs.Length? && ValueFold(p, [c] + b) == Some(Chars(ActValueStart(p, c).ps, b))
    decreases |b|
  {
    hide ValueChar, ActValueStart;
    OtherStart(p, c);
    if b == [] {
      assert [c] + b == [c];
    } else {
      var (d, ch) := (b[..|b| - 1], b[|b| - 1]);
      assert b == d + [ch] && ([c] + b)[..|b|] == [c] + d && ([c] + b)[|b|] == ch;
      FoldChars(p, c, d);
      CharsJoin(ActValueStart(p, c).ps, d, [ch]);
      CharsOne(Chars(ActValueStart(p, c).ps, d), ch);
    }
  }

  /* ---- Options ---- */

  /** The word begins with this, whatever its case, and is longer. */
  predicate Starts(w: string, u: seq<Byte>) {
    |u| < |w| && forall i :: 0 <= i < |u| ==> Lower(u[i]) == w[i] as int
  }

  predicate Partial(u: seq<Byte>) { Starts("keep-alive", u) || Starts("close", u) || Starts("upgrade", u) }

  predicate Known(u: seq<Byte>) { Spells("keep-alive", u) || Spells("close", u) || Spells("upgrade", u) }

  /** What the option says. */
  function Named(f: Flags, u: seq<Byte>): Flags {
    if Spells("keep-alive", u) then f.(keepAlive := true) else if Spells("close", u) then f.(close := true)
    else if Spells("upgrade", u) then f.(connUpgrade := true) else f
  }

  /** What header_state says about the option read so far. */
  predicate Says(h: Hs, index: nat, u: seq<Byte>) {
    match h
    case MatchKeepAlive => Starts("keep-alive", u) && index + 1 == |u|
    case MatchClose => Starts("close", u) && index + 1 == |u|
    case MatchConnUpgrade => Starts("upgrade", u) && index + 1 == |u|
    case KeepAlive => Spells("keep-alive", u)
    case Close => Spells("close", u)
    case ConnUpgrade => Spells("upgrade", u)
    case Token => !Partial(u) && !Known(u)
    case _ => false
  }

  lemma StartsMore(w: string, u: seq<Byte>, ch: Byte)
    ensures Starts(w, u + [ch]) <==> Starts(w, u) && |u| + 1 < |w| && Lower(ch) == w[|u|] as int
    ensures Spells(w, u + [ch]) <==> Starts(w, u) && |u| + 1 == |w| && Lower(ch) == w[|u|] as int
  {
    var v := u + [ch];
    assert forall i :: 0 <= i < |u| ==> v[i] == u[i];
    assert v[|u|] == ch;
  }

  lemma AllStarts(u: seq<Byte>, ch: Byte)
    ensures Starts("keep-alive", u + [ch]) <==> Starts("keep-alive", u) && |u| + 1 < 10 && Lower(ch) == "keep-alive"[|u|] as int
    ensures Spells("keep-alive", u + [ch]) <==> Starts("keep-alive", u) && |u| + 1 == 10 && Lower(ch) == "keep-alive"[|u|] as int
    ensures Starts("close", u + [ch]) <==> Starts("close", u) && |u| + 1 < 5 && Lower(ch) == "close"[|u|] as int
    ensures Spells("close", u + [ch]) <==> Starts("close", u) && |u| + 1 == 5 && Lower(ch) == "close"[|u|] as int
    ensures Starts("upgrade", u + [ch]) <==> Starts("upgrade", u) && |u| + 1 < 7 && Lower(ch) == "upgrade"[|u|] as int
    ensures Spells("upgrade", u + [ch]) <==> Starts("upgrade", u) && |u| + 1 == 7 && Lower(ch) == "upgrade"[|u|] as int
  {
    hide Starts, Spells, Lower;
    StartsMore("keep-alive", u, ch);
    StartsMore("close", u, ch);
    StartsMore("upgrade", u, ch);
  }

  /** The first letters tell the options apart. */
  lemma OneOption(u: seq<Byte>)
    requires u != []
    ensures Starts("keep-alive", u) || Spells("keep-alive", u) ==> Lower(u[0]) == 107
    ensures Starts("close", u) || Spells("close", u) ==> Lower(u[0]) == 99
    ensures Starts("upgrade", u) || Spells("upgrade", u) ==> Lower(u[0]) == 117
    ensures !(Starts("keep-alive", u) && Spells("keep-alive", u)) && !(Starts("close", u) && Spells("close", u)) && !(Starts("upgrade", u) && Spells("upgrade", u))
  {
  }

  /** One more character of an option, which is no comma and no space. */
  lemma SaysMore(q: Ps, u: seq<Byte>, ch: Byte)
    requires u != [] && Says(q.hs, q.index, u) && ch != 44 && ch != SP
    ensures var r := ValueChar(q, ch).value;
      ValueChar(q, ch).Some? && r == q.(hs := r.hs, index := r.index) && Says(r.hs, r.index, u + [ch])
  {
    hide Starts, Spells, Lower;
    AllStarts(u, ch);
    OneOption(u);
    OneOption(u + [ch]);
  }

  lemma SaysFirst(q: Ps, ch: Byte)
    requires q.hs.TokenStart? && q.index == 0 && TokenChar(ch) && ch != 95
    ensures var r := ValueChar(q, ch).value;
      ValueChar(q, ch).Some? && r == q.(hs := r.hs) && r.hs == ConnToken(Lower(ch)) && Says(r.hs, 0, [ch])
  {
    hide Starts, Spells;
    FirstSays(ch);
    LowerToken(ch);
  }

  lemma FirstSays(ch: Byte)
    requires TokenChar(ch)
    ensures Says(ConnToken(Lower(ch)), 0, [ch])
  {
    hide Lower;
    var u := [ch];
    assert u[0] == ch;
    assert Starts("keep-alive", u) <==> Lower(ch) == 107;
    assert Starts("close", u) <==> Lower(ch) == 99;
    assert Starts("upgrade", u) <==> Lower(ch) == 117;
  }

  lemma LowerToken(ch: Byte)
    requires TokenChar(ch) && ch != 95
    ensures TokenOf(Lower(ch)) != 0
  {
  }

  /* ---- Lists ---- */

  /** One option of a list, with the white space before it and the spaces behind it. */
  datatype Item = Item(blank: seq<Byte>, word: seq<Byte>, trail: seq<Byte>) {
    predicate Ok() { IsSpace(blank) && IsToken(word) && forall i :: 0 <= i < |trail| ==> trail[i] == SP }
    function Text(): seq<Byte> { blank + (word + trail) }
  }

  function ListText(items: seq<Item>): seq<Byte>
    requires items != []
  {
    if |items| == 1 then items[0].Text() else items[0].Text() + ([44] + ListText(items[1..]))
  }

  /** How the parser meets an option: it reads it; it skips it; it looks at no option any more. */
  datatype Mode = Awake | Skips | Deaf

  /** A tab before an option, or a "_" at its beginning, makes the parser look at no option any more, unless it is
      the first. */
  function Meets(m: Mode, it: Item, first: bool): Mode
    requires it.Ok()
  {
    if m == Awake && !first && (TAB in it.blank || it.word[0] == 95) then Deaf else m
  }

  /** An option that is the beginning of a known one, with the comma right behind it, makes it skip the next one. */
  function NextMode(m: Mode, it: Item): Mode
    requires it.Ok()
  {
    if m == Deaf then Deaf else if m == Awake && it.trail == [] && Partial(it.word) then Skips else Awake
  }

  /** What the parser makes of the options. */
  function SeenBy(f: Flags, items: seq<Item>, m: Mode, first: bool): Flags
    requires forall i :: 0 <= i < |items| ==> items[i].Ok()
    decreases |items|
  {
    if items == [] then f
    else
      var n := Meets(m, items[0], first);
      SeenBy(if n == Awake then Named(f, items[0].word) else f, items[1..], NextMode(n, items[0]), false)
  }

  /** What they say, section 6.1 of RFC 7230. */
  function Said(f: Flags, items: seq<Item>): Flags
    decreases |items|
  {
    if items == [] then f else Said(Named(f, items[0].word), items[1..])
  }

  /** The parser before an option, in each of the modes. */
  predicate At(q: Ps, m: Mode) {
    match m
    case Awake => q.hs.TokenStart? && q.index == 0
    case Skips => q.hs.Token?
    case Deaf => q.hs.General?
  }

  lemma {:induction false} Unchanged(q: Ps, b: seq<Byte>)
    requires forall i :: 0 <= i < |b| ==> b[i] != 44
    requires q.hs.General? || q.hs.Token? || (q.hs.TokenStart? && forall i :: 0 <= i < |b| ==> b[i] == SP) || ((q.hs.KeepAlive? || q.hs.Close? || q.hs.ConnUpgrade?) && forall i :: 0 <= i < |b| ==> b[i] == SP)
    ensures Chars(q, b) == q
    decreases |b|
  {
    hide Lower;
    if b != [] {
      SpaceStays(q, b[0]);
      Unchanged(q, b[1..]);
    }
  }

  lemma SpaceStays(q: Ps, ch: Byte)
    requires ch != 44
    requires q.hs.General? || q.hs.Token? || (q.hs.TokenStart? && ch == SP) || ((q.hs.KeepAlive? || q.hs.Close? || q.hs.ConnUpgrade?) && ch == SP)
    ensures ValueChar(q, ch) == Some(q)
  {
  }

  lemma {:induction false} WordRead(q: Ps, word: seq<Byte>, k: nat)
    requires IsToken(word) && 0 < k <= |word| && !q.hs.Length? && Says(q.hs, q.index, [word[0]])
    ensures var r := Chars(q, word[1..k]); r == q.(hs := r.hs, index := r.index) && Says(r.hs, r.index, word[..k])
    decreases k
  {
    hide ValueChar, Says;
    if k == 1 {
      assert word[1..1] == [] && word[..1] == [word[0]];
    } else {
      var ch := word[k - 1];
      WordRead(q, word, k - 1);
      assert word[1..k] == word[1..k - 1] + [ch] && word[..k] == word[..k - 1] + [ch];
      CharsJoin(q, word[1..k - 1], [ch]);
      CharsOne(Chars(q, word[1..k - 1]), ch);
      TokenPlain(ch);
      SaysMore(Chars(q, word[1..k - 1]), word[..k - 1], ch);
    }
  }

  lemma TokenPlain(ch: Byte)
    requires TokenChar(ch)
    ensures ch != 44 && ch != SP && ch != TAB
  {
  }

  /** Spaces behind an option: a known one stays known, a beginning of one is none any more. */
  lemma {:induction false} TrailRead(q: Ps, u: seq<Byte>, trail: seq<Byte>)
    requires u != [] && Says(q.hs, q.index, u) && !q.hs.Length? && forall i :: 0 <= i < |trail| ==> trail[i] == SP
    ensures var r := Chars(q, trail);
      && r == q.(hs := r.hs, index := r.index)
      && (trail == [] ==> r == q) && (trail != [] ==> r.hs == if Known(u) then q.hs else Token)
  {
    if trail != [] {
      OneOption(u);
      hide Starts, Spells;
      SpaceAfter(q, u);
      var r := ValueChar(q, SP).value;
      assert forall i :: 0 <= i < |trail[1..]| ==> trail[1..][i] == trail[i + 1];
      Unchanged(r, trail[1..]);
    }
  }

  lemma SpaceAfter(q: Ps, u: seq<Byte>)
    requires u != [] && Says(q.hs, q.index, u)
    ensures var r := ValueChar(q, SP).value;
      ValueChar(q, SP).Some? && r == q.(hs := r.hs, index := r.index) && r.hs == (if Known(u) then q.hs else Token)
      && (Known(u) ==> q.hs.KeepAlive? || q.hs.Close? || q.hs.ConnUpgrade?) && (!Known(u) ==> r.hs.Token?)
  {
    OneOption(u);
  }

  /** The characters before a tab, and those behind it, of white space. */
  lemma {:induction false} TabDeafens(q: Ps, blank: seq<Byte>)
    requires At(q, Awake) && IsSpace(blank)
    ensures var r := Chars(q, blank); r == if TAB in blank then q.(hs := General) else q
    decreases |blank|
  {
    hide ValueChar;
    if blank != [] {
      var rest := blank[1..];
      assert blank == [blank[0]] + rest;
      BlankStarts(q, blank[0]);
      assert IsSpace(rest) by { assert forall i :: 0 <= i < |rest| ==> rest[i] == blank[i + 1]; }
      if blank[0] == TAB { Unchanged(q.(hs := General), rest); } else { TabDeafens(q, rest); }
    }
  }

  lemma BlankStarts(q: Ps, ch: Byte)
    requires q.hs.TokenStart? && (ch == SP || ch == TAB)
    ensures ValueChar(q, ch) == Some(if ch == TAB then q.(hs := General) else q)
  {
  }

  lemma UnderscoreDeafens(q: Ps)
    requires q.hs.TokenStart?
    ensures ValueChar(q, 95) == Some(q.(hs := General))
  {
  }

  /** What the parser knows behind an option it met in mode n. */
  predicate Behind(r: Ps, it: Item, n: Mode)
    requires it.Ok()
  {
    match n
    case Awake => if it.trail == [] then Says(r.hs, r.index, it.word) else if Known(it.word) then Says(r.hs, r.index, it.word) else r.hs.Token?
    case Skips => r.hs.Token?
    case Deaf => r.hs.General?
  }

  lemma KnownIndex(h: Hs, i: nat, j: nat, u: seq<Byte>)
    requires Says(h, i, u) && Known(u) && u != []
    ensures Says(h, j, u)
  {
    OneOption(u);
  }

  /** From the first character of an option that is read on. */
  lemma RestRead(q: Ps, it: Item)
    requires it.Ok() && !q.hs.Length? && Says(q.hs, q.index, [it.word[0]])
    ensures var r := Chars(q, it.word[1..] + it.trail); r == q.(hs := r.hs, index := r.index) && Behind(r, it, Awake)
  {
    hide ValueChar, Says, Known;
    var (word, k) := (it.word, |it.word|);
    WordRead(q, word, k);
    assert word[1..k] == word[1..] && word[..k] == word;
    var w := Chars(q, word[1..]);
    CharsJoin(q, word[1..], it.trail);
    TrailRead(w, word, it.trail);
    if Known(word) { KnownIndex(w.hs, w.index, Chars(w, it.trail).index, word); }
  }

  lemma NoComma(it: Item)
    requires it.Ok()
    ensures forall i :: 0 <= i < |it.Text()| ==> it.Text()[i] != 44
  {
    hide TokenChar;
    forall i | 0 <= i < |it.word| ensures it.word[i] != 44 { TokenPlain(it.word[i]); }
  }

  /** One option, met in any mode but as the first. */
  lemma ItemRead(q: Ps, it: Item, m: Mode)
    requires it.Ok() && At(q, m)
    ensures var r := Chars(q, it.Text()); r == q.(hs := r.hs, index := r.index) && Behind(r, it, Meets(m, it, false))
  {
    hide ValueChar, Says, Known, TokenChar;
    NoComma(it);
    if m != Awake {
      Unchanged(q, it.Text());
    } else {
      var rest := it.word + it.trail;
      var (ch, t) := (it.word[0], it.word[1..] + it.trail);
      assert rest == [ch] + t;
      assert forall i :: 0 <= i < |rest| ==> rest[i] == it.Text()[|it.blank| + i];
      CharsJoin(q, it.blank, rest);
      TabDeafens(q, it.blank);
      CharsJoin(q, [ch], t);
      CharsOne(q, ch);
      assert forall i :: 0 <= i < |t| ==> t[i] == rest[i + 1];
      if TAB in it.blank {
        Unchanged(q.(hs := General), rest);
      } else if ch == 95 {
        UnderscoreDeafens(q);
        Unchanged(q.(hs := General), t);
      } else {
        SaysFirst(q, ch);
        RestRead(ValueChar(q, ch).value, it);
      }
    }
  }

  lemma NamedBy(f: Flags, h: Hs, i: nat, u: seq<Byte>)
    requires u != [] && Says(h, i, u)
    ensures SetFlag(f, h) == Named(f, u)
  {
    OneOption(u);
  }

  /** The end of the list settles the last option. */
  lemma LastSettles(r: Ps, it: Item, n: Mode)
    requires it.Ok() && Behind(r, it, n)
    ensures SetFlag(r.flags, r.hs) == if n == Awake then Named(r.flags, it.word) else r.flags
  {
    hide Says, Spells;
    if n == Awake && (it.trail == [] || Known(it.word)) { NamedBy(r.flags, r.hs, r.index, it.word); }
  }

  /** A comma settles the option before it. */
  lemma CommaRead(r: Ps, it: Item, n: Mode)
    requires it.Ok() && Behind(r, it, n) && !r.hs.Length?
    ensures var z := Chars(r, [44]);
      z == r.(hs := z.hs, index := z.index, flags := if n == Awake then Named(r.flags, it.word) else r.flags) && At(z, NextMode(n, it))
  {
    OneOption(it.word);
    CharsOne(r, 44);
    LastSettles(r, it, n);
    if n == Awake && (it.trail == [] || Known(it.word)) { CommaAfter(r, it.word); }
  }

  lemma CommaAfter(q: Ps, u: seq<Byte>)
    requires u != [] && Says(q.hs, q.index, u)
    ensures var z := ValueChar(q, 44).value;
      && ValueChar(q, 44).Some? && z == q.(hs := z.hs, index := z.index, flags := SetFlag(q.flags, q.hs))
      && (if Partial(u) then z.hs.Token? else z.hs.TokenStart? && z.index == 0)
  {
    OneOption(u);
  }

  ghost predicate AllOk(items: seq<Item>) { forall i :: 0 <= i < |items| ==> items[i].Ok() }

  /** The rest of a list from a comma on. */
  lemma {:induction false} ListRead(q: Ps, items: seq<Item>, m: Mode)
    requires items != [] && AllOk(items) && At(q, m)
    ensures var r := Chars(q, ListText(items));
      && r == q.(hs := r.hs, index := r.index, flags := r.flags)
      && SetFlag(r.flags, r.hs) == SeenBy(q.flags, items, m, false)
    decreases |items|, 1
  {
    hide ValueChar, Behind, SetFlag, Named, At, Item.Text;
    var (it, n) := (items[0], Meets(m, items[0], false));
    NotLength(q, m);
    ItemRead(q, it, m);
    var r := Chars(q, it.Text());
    if |items| == 1 {
      LastSettles(r, it, n);
      assert items[1..] == [];
    } else {
      ListMore(q, items, r, n);
    }
  }

  lemma NotLength(q: Ps, m: Mode)
    requires At(q, m)
    ensures !q.hs.Length?
  {
  }

  /** Behind an option that is not the last. */
  lemma {:induction false} ListMore(q: Ps, items: seq<Item>, r: Ps, n: Mode)
    requires |items| > 1 && AllOk(items) && !q.hs.Length? && r == Chars(q, items[0].Text()) && r == q.(hs := r.hs, index := r.index) && Behind(r, items[0], n)
    ensures var z := Chars(q, ListText(items));
      && z == q.(hs := z.hs, index := z.index, flags := z.flags)
      && SetFlag(z.flags, z.hs) == SeenBy(if n == Awake then Named(q.flags, items[0].word) else q.flags, items[1..], NextMode(n, items[0]), false)
    decreases |items|, 0
  {
    hide ValueChar, Behind, SetFlag, Named, At, Item.Text;
    var (it, rest) := (items[0], ListText(items[1..]));
    CharsJoin(q, it.Text(), [44] + rest);
    CharsJoin(r, [44], rest);
    CommaRead(r, it, n);
    ListRead(Chars(r, [44]), items[1..], NextMode(n, it));
  }

  /** A Connection header with any list of options: what the parser makes of it is what it sees in the modes it
      goes through. */
  lemma OptionsRead(p: Ps, items: seq<Item>)
    requires p.hs.Connection? && items != [] && AllOk(items) && items[0].blank == []
    ensures var r := ValueFold(p, ListText(items));
      && r.Some? && r.value == p.(st := HeaderValue, hs := r.value.hs, index := r.value.index, flags := r.value.flags)
      && SetFlag(r.value.flags, r.value.hs) == SeenBy(p.flags, items, Awake, true)
  {
    hide ValueChar, ValueFold, Behind, SetFlag, Named, Says, TokenChar;
    var (it, ch) := (items[0], items[0].word[0]);
    var t := it.word[1..] + it.trail;
    var a := ActValueStart(p, ch).ps;
    OptionStart(p, ch);
    FirstSays(ch);
    RestRead(a, it);
    var r := Chars(a, t);
    assert it.Text() == [ch] + t;
    if |items| == 1 {
      FoldChars(p, ch, t);
      LastSettles(r, it, Awake);
      assert items[1..] == [];
    } else {
      FirstMore(p, items, a, r);
    }
  }

  lemma OptionStart(p: Ps, ch: Byte)
    requires p.hs.Connection?
    ensures ActValueStart(p, ch).ps == p.(st := HeaderValue, index := 0, hs := ConnToken(Lower(ch))) && !ConnToken(Lower(ch)).Length?
  {
  }

  lemma FirstMore(p: Ps, items: seq<Item>, a: Ps, r: Ps)
    requires p.hs.Connection? && |items| > 1 && AllOk(items) && items[0].blank == []
    requires a == ActValueStart(p, items[0].word[0]).ps && !a.hs.Length? && a == p.(st := HeaderValue, index := 0, hs := a.hs)
    requires r == Chars(a, items[0].word[1..] + items[0].trail) && r == a.(hs := r.hs, index := r.index) && Behind(r, items[0], Awake)
    ensures var z := ValueFold(p, ListText(items));
      && z.Some? && z.value == p.(st := HeaderValue, hs := z.value.hs, index := z.value.index, flags := z.value.flags)
      && SetFlag(z.value.flags, z.value.hs) == SeenBy(p.flags, items, Awake, true)
  {
    hide ValueChar, ValueFold, Behind, SetFlag, Named, At, ActValueStart, TokenChar;
    var (it, rest, ch) := (items[0], ListText(items[1..]), items[0].word[0]);
    var t := it.word[1..] + it.trail;
    FirstText(items);
    hide ListText, Item.Text, SeenBy;
    FoldChars(p, ch, t + ([44] + rest));
    CharsJoin(a, t, [44] + rest);
    CharsJoin(r, [44], rest);
    CommaRead(r, it, Awake);
    ListRead(Chars(r, [44]), items[1..], NextMode(Awake, it));
    SeenFirst(p.flags, items);
  }

  lemma FirstText(items: seq<Item>)
    requires |items| > 1 && items[0].blank == [] && items[0].word != []
    ensures ListText(items) == [items[0].word[0]] + ((items[0].word[1..] + items[0].trail) + ([44] + ListText(items[1..])))
  {
    var it := items[0];
    assert it.Text() == [it.word[0]] + (it.word[1..] + it.trail);
    Regroup([it.word[0]], it.word[1..] + it.trail, [44] + ListText(items[1..]));
  }

  lemma SeenFirst(f: Flags, items: seq<Item>)
    requires items != [] && AllOk(items)
    ensures SeenBy(f, items, Awake, true) == SeenBy(Named(f, items[0].word), items[1..], NextMode(Awake, items[0]), false)
  {
    hide Named, Partial, TokenChar;
  }

  /* ---- When all options are seen ---- */

  /** No option but the last is the bare beginning of a known one, and none but the first has a tab before it or
      begins with "_". */
  ghost predicate Plainly(items: seq<Item>, first: bool) {
    && AllOk(items)
    && (forall i :: 0 <= i < |items| - 1 ==> !(items[i].trail == [] && Partial(items[i].word)))
    && (forall i :: (if first then 1 else 0) <= i < |items| ==> TAB !in items[i].blank && items[i].word[0] != 95)
  }

  /** Then the parser does what the list says. */
  lemma {:induction false} AllSeen(f: Flags, items: seq<Item>, first: bool)
    requires Plainly(items, first)
    ensures SeenBy(f, items, Awake, first) == Said(f, items)
    decreases |items|
  {
    hide Named, Partial, TokenChar;
    if items != [] {
      var rest := items[1..];
      assert forall i :: 0 <= i < |rest| ==> rest[i] == items[i + 1];
      if rest == [] {
        assert SeenBy(Named(f, items[0].word), [], NextMode(Awake, items[0]), false) == Named(f, items[0].word);
      } else {
        AllSeen(Named(f, items[0].word), rest, false);
      }
    }
  }

  lemma SeenOne(f: Flags, y: Item, m: Mode)
    requires y.Ok()
    ensures SeenBy(f, [y], m, false) == if Meets(m, y, false) == Awake then Named(f, y.word) else f
    ensures Said(f, [y]) == Named(f, y.word)
  {
    hide Named, TokenChar;
    assert [y][1..] == [];
  }

  /** A list of two options: the second is seen exactly when the first is not the bare beginning of a known one
      and it has no tab before it and does not begin with "_". */
  lemma SecondSeen(f: Flags, x: Item, y: Item)
    requires x.Ok() && y.Ok()
    ensures SeenBy(f, [x, y], Awake, true) ==
      if (x.trail == [] && Partial(x.word)) || TAB in y.blank || y.word[0] == 95 then Named(f, x.word) else Named(Named(f, x.word), y.word)
    ensures Said(f, [x, y]) == Named(Named(f, x.word), y.word)
  {
    hide Partial, TokenChar, Named;
    assert [x, y][1..] == [y];
    SeenOne(Named(f, x.word), y, NextMode(Awake, x));
  }

  /** "Connection: c, close" does not close the connection. */
  lemma CloseMissed(f: Flags)
    requires !f.close
    ensures var (x, y) := (Item([], [99], []), Item([SP], [99, 108, 111, 115, 101], []));
      && x.Ok() && y.Ok() && ListText([x, y]) == [99, 44, SP, 99, 108, 111, 115, 101]
      && !SeenBy(f, [x, y], Awake, true).close && Said(f, [x, y]).close
  {
    hide SeenBy, Said, ListText, Item.Ok, Starts, Spells;
    var (x, y) := (Item([], [99], []), Item([SP], [99, 108, 111, 115, 101], []));
    MissedItems();
    SecondSeen(f, x, y);
    OneOption(x.word);
    OneOption(y.word);
  }

  lemma MissedItems()
    ensures var (x, y) := (Item([], [99], []), Item([SP], [99, 108, 111, 115, 101], []));
      && x.Ok() && y.Ok() && ListText([x, y]) == [99, 44, SP, 99, 108, 111, 115, 101]
      && Starts("close", x.word) && Spells("close", y.word) && !Known(x.word)
  {
    var (x, y) := (Item([], [99], []), Item([SP], [99, 108, 111, 115, 101], []));
    assert [x, y][1..] == [y];
  }

  /* ---- Transfer codings and upgrades ---- */

  /** "chunked" and spaces. */
  predicate ChunkedText(u: seq<Byte>) {
    |u| >= 7 && Spells("chunked", u[..7]) && forall i :: 7 <= i < |u| ==> u[i] == SP
  }

  predicate CodingSays(h: Hs, index: nat, u: seq<Byte>) {
    match h
    case MatchChunked => Starts("chunked", u) && index + 1 == |u|
    case Chunked => ChunkedText(u)
    case General => !Starts("chunked", u) && !ChunkedText(u)
    case _ => false
  }

  lemma ChunkedMore(u: seq<Byte>, ch: Byte)
    ensures ChunkedText(u + [ch]) <==> Spells("chunked", u + [ch]) || (ChunkedText(u) && ch == SP)
    ensures Spells("chunked", u) ==> ChunkedText(u)
    ensures !(Starts("chunked", u) && ChunkedText(u))
  {
    var v := u + [ch];
    if |u| >= 7 {
      assert v[..7] == u[..7];
      assert forall i :: 7 <= i < |u| ==> v[i] == u[i];
      assert v[|u|] == ch;
    } else if |u| == 6 {
      assert v[..7] == v;
    }
    if |u| == 7 { assert u[..7] == u; }
  }

  lemma CodingMore(q: Ps, u: seq<Byte>, ch: Byte)
    requires u != [] && CodingSays(q.hs, q.index, u)
    ensures var r := ValueChar(q, ch).value;
      ValueChar(q, ch).Some? && r == q.(hs := r.hs, index := r.index) && CodingSays(r.hs, r.index, u + [ch])
  {
    hide Starts, Spells, Lower, ChunkedText;
    StartsMore("chunked", u, ch);
    ChunkedMore(u, ch);
    ChunkedMore(u + [ch], ch);
  }

  lemma CodingFirst(p: Ps, ch: Byte)
    requires p.hs.Encoding?
    ensures var a := ActValueStart(p, ch);
      !a.next.Fail? && a.ps == p.(st := HeaderValue, index := 0, hs := a.ps.hs) && CodingSays(a.ps.hs, 0, [ch])
  {
    hide Lower;
    var u := [ch];
    assert u[0] == ch;
    assert Starts("chunked", u) <==> Lower(ch) == 99;
  }

  lemma {:induction false} CodingRead(p: Ps, u: seq<Byte>)
    requires p.hs.Encoding? && u != []
    ensures var r := ValueFold(p, u);
      r.Some? && r.value == p.(st := HeaderValue, hs := r.value.hs, index := r.value.index) && CodingSays(r.value.hs, r.value.index, u)
    decreases |u|
  {
    hide ValueChar, ActValueStart, CodingSays;
    var (d, ch) := (u[..|u| - 1], u[|u| - 1]);
    assert u == d + [ch];
    if d == [] {
      CodingFirst(p, ch);
      assert u == [ch];
    } else {
      CodingRead(p, d);
      CodingMore(ValueFold(p, d).value, d, ch);
    }
  }

  /** A body is taken for chunked exactly when the value is "chunked" alone, in any case, with any spaces behind
      it: a list of codings that ends in it is not. */
  lemma CodingExactly(p: Ps, u: seq<Byte>)
    requires p.hs.Encoding? && u != []
    ensures ValueFold(p, u).Some? && SetFlag(p.flags, ValueFold(p, u).value.hs) == if ChunkedText(u) then p.flags.(chunked := true) else p.flags
  {
    hide ValueFold, ChunkedText, Starts;
    CodingRead(p, u);
    ChunkedMore(u, 0);
  }

  /** An Upgrade header asks for an upgrade, whatever its value. */
  lemma {:induction false} UpgradeRead(p: Ps, u: seq<Byte>)
    requires p.hs.UpgradeField? && u != []
    ensures ValueFold(p, u) == Some(p.(st := HeaderValue, index := 0, hs := General, flags := p.flags.(upgrade := true)))
    decreases |u|
  {
    if |u| > 1 { UpgradeRead(p, u[..|u| - 1]); }
  }
}
