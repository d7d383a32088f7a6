/** Any number of file requests on one cache: the moves of one request are steps that leave the buffers and
    tokens of the others alone, so what is proved of one request among arbitrary clients holds of all of them
    together. */
module Sharing {
  import opened Lists
  import opened CacheModel
  import opened CacheProofs
  import opened CacheRuns
  import opened Fio
  import opened FioRuns
  import F = FileRequest

  /** A request, its file and the body bytes TCP got. */
  datatype Client = Client(r: Req, f: File, wire: seq<Byte>)

  datatype Many = Many(c: Sys, cs: seq<Client>)

  function WorldOf(c: Sys, k: Client): World { World(c, k.r, k.wire) }

  /** How many of the first n slots hold the buffer. */
  function Slots(cce: seq<Option<BufId>>, n: nat, id: BufId): nat
    requires n <= |cce|
  {
    if n == 0 then 0 else Slots(cce, n - 1, id) + Is(cce[n - 1], id)
  }

  function Is(x: Option<BufId>, id: BufId): nat { if x == Some(id) then 1 else 0 }

  function Refs(k: Client, id: BufId): nat { Slots(k.r.cce, |k.r.cce|, id) }

  /** The references of all requests to a buffer. */
  function Owned(cs: seq<Client>, id: BufId): nat {
    if cs == [] then 0 else Refs(cs[0], id) + Owned(cs[1..], id)
  }

  ghost predicate Backed(c: Sys, cs: seq<Client>) { forall id: BufId :: Owned(cs, id) <= c.held[id] }

  ghost predicate AllSound(c: Sys, cs: seq<Client>, disk: Disk) {
    forall i :: 0 <= i < |cs| ==> Sound(WorldOf(c, cs[i]), cs[i].f, disk)
  }

  ghost predicate NoToken(cs: seq<Client>, tok: Option<Tok>) {
    tok.Some? ==> forall i :: 0 <= i < |cs| ==> cs[i].r.t != tok
  }

  ghost predicate TokensApart(cs: seq<Client>) {
    forall i, j :: 0 <= i < |cs| && 0 <= j < |cs| && i != j && cs[i].r.t.Some? ==> cs[i].r.t != cs[j].r.t
  }

  /** Every request is sound, together they own no more references than clients hold, and no two of them wait
      with the same token. */
  ghost predicate Shared(m: Many, disk: Disk) {
    Inv(m.c, disk) && AllSound(m.c, m.cs, disk) && Backed(m.c, m.cs) && TokensApart(m.cs)
  }

  datatype Joint =
    | Of(i: nat, m: Move)                              // a move of one request
    | Ext(p: Step)                                     // the device, and clients that are no file requests
    | Begin(f: File, first: nat, len: nat, n: nat)     // a new request with n slots
    | Retire(i: nat)                                   // its references are its closer's from now on

  /** A client that is no request gives back only what is not the requests', and gets no token of theirs. */
  ghost predicate Foreign(m: Many, p: Step) {
    match p
    case DoRelease(id) => m.c.held[id] > Owned(m.cs, id)
    case DoAbort(id, tok) => m.c.held[id] > Owned(m.cs, id) && NoToken(m.cs, tok)
    case DoAread(_, _, ct) => NoToken(m.cs, ct)
    case _ => true
  }

  ghost predicate EnabledJ(m: Many, j: Joint, disk: Disk) {
    match j
    case Of(i, v) =>
      && i < |m.cs| && !v.Other? && m.cs[i].f.chunksize > 0 && EnabledM(WorldOf(m.c, m.cs[i]), v, m.cs[i].f, disk)
      && (v.Ask? ==> NoToken(m.cs, v.ct))
    case Ext(p) => Enabled(m.c, p, disk) && Foreign(m, p)
    case Begin(f, _, len, n) => Volume(f, disk) && len > 0 && n >= 2
    case Retire(i) => i < |m.cs|
  }

  function Fresh(c: Sys, f: File, first: nat, len: nat, n: nat): Client
    requires n > 0
  {
    Client(Start(c, first, len, n).r, f, [])
  }

  ghost function ApplyJ(m: Many, j: Joint, disk: Disk): Many
    requires Shared(m, disk) && EnabledJ(m, j, disk)
  {
    match j
    case Of(i, v) =>
      var k := m.cs[i];
      MoveReady(WorldOf(m.c, k), v, k.f, disk);
      var w := ApplyM(WorldOf(m.c, k), v, k.f, disk);
      Many(w.c, m.cs[i := Client(w.r, k.f, w.wire)])
    case Ext(p) => m.(c := Apply(m.c, p, disk))
    case Begin(f, first, len, n) => m.(cs := m.cs + [Fresh(m.c, f, first, len, n)])
    case Retire(i) => m.(cs := m.cs[..i] + m.cs[i + 1..])
  }

  /* ---- Sums of references ---- */

  lemma {:induction false} OwnedSplit(a: seq<Client>, b: seq<Client>, id: BufId)
    ensures Owned(a + b, id) == Owned(a, id) + Owned(b, id)
    decreases |a|
  {
    hide Refs;
    if a == [] {
      assert a + b == b;
    } else {
      OwnedSplit(a[1..], b, id);
      assert (a + b)[1..] == a[1..] + b;
    }
  }

  /** One request, whichever it is, and the others. */
  lemma OwnedAt(cs: seq<Client>, i: nat, k: Client, id: BufId)
    requires i < |cs|
    ensures Owned(cs[i := k], id) == Owned(cs[..i] + cs[i + 1..], id) + Refs(k, id)
  {
    hide Refs;
    assert cs[i := k] == (cs[..i] + [k]) + cs[i + 1..];
    OwnedSplit(cs[..i] + [k], cs[i + 1..], id);
    OwnedSplit(cs[..i], [k], id);
    assert [k][1..] == [];
    OwnedSplit(cs[..i], cs[i + 1..], id);
  }

  lemma OwnedNow(cs: seq<Client>, i: nat, id: BufId)
    requires i < |cs|
    ensures Owned(cs, id) == Owned(cs[..i] + cs[i + 1..], id) + Refs(cs[i], id)
  {
    hide Refs;
    assert cs[i := cs[i]] == cs;
    OwnedAt(cs, i, cs[i], id);
  }

  lemma {:induction false} SlotsAt(cce: seq<Option<BufId>>, n: nat, j: nat)
    requires j < n <= |cce| && cce[j].Some?
    ensures Slots(cce, n, cce[j].value) > 0
    decreases n
  {
    if j < n - 1 { SlotsAt(cce, n - 1, j); }
  }

  /** Filling or clearing a slot adds or takes one reference. */
  lemma {:induction false} SlotsSet(cce: seq<Option<BufId>>, n: nat, j: nat, x: Option<BufId>, id: BufId)
    requires n <= |cce| && j < |cce|
    ensures j >= n ==> Slots(cce[j := x], n, id) == Slots(cce, n, id)
    ensures j < n ==> Slots(cce[j := x], n, id) + Is(cce[j], id) == Slots(cce, n, id) + Is(x, id)
    decreases n
  {
    if n > 0 { SlotsSet(cce, n - 1, j, x, id); }
  }

  lemma {:induction false} NoSlots(cce: seq<Option<BufId>>, n: nat, id: BufId)
    requires n <= |cce| && forall i :: 0 <= i < |cce| ==> cce[i].None?
    ensures Slots(cce, n, id) == 0
    decreases n
  {
    if n > 0 { NoSlots(cce, n - 1, id); }
  }

  /** The requests stay backed when the references of one of them change as the references in the cache do. */
  lemma BackedAt(c: Sys, c': Sys, cs: seq<Client>, i: nat, k: Client)
    requires i < |cs| && Backed(c, cs)
    requires forall id: BufId :: Refs(k, id) + c.held[id] <= Refs(cs[i], id) + c'.held[id]
    ensures Backed(c', cs[i := k])
  {
    hide Refs;
    forall id: BufId ensures Owned(cs[i := k], id) <= c'.held[id] {
      OwnedAt(cs, i, k, id);
      OwnedNow(cs, i, id);
      assert Refs(k, id) + c.held[id] <= Refs(cs[i], id) + c'.held[id];
    }
  }

  /* ---- Nobody takes what another holds ---- */

  /** A release of a buffer with more than n references besides the waiting ones spares whoever holds n. */
  lemma Spared(m: Many, p: Step, k: nat, disk: Disk)
    requires Shared(m, disk) && k < |m.cs| && Enabled(m.c, p, disk) && m.cs[k].r.idx < |m.cs[k].r.cce|
    requires (p.DoRelease? || (p.DoAbort? && p.tok.None?)) ==> m.c.held[p.id] > Refs(m.cs[k], p.id)
    requires p.DoAbort? && p.tok.Some? ==> m.cs[k].r.t != p.tok
    requires p.DoAread? && p.ct.Some? ==> m.cs[k].r.t != p.ct
    ensures SparesUs(WorldOf(m.c, m.cs[k]), p)
  {
    var r := m.cs[k].r;
    forall j | 0 <= j < |r.cce| && r.cce[j].Some? && r.cce[j].value < |m.c.ent| ensures Spares(m.c, p, r.cce[j].value) {
      SlotsAt(r.cce, |r.cce|, j);
      if (p.DoRelease? && p.id == r.cce[j].value) || (p.DoAbort? && p.id == r.cce[j].value && p.tok.None?) {
        MayRelease(m.c, p.id, None, disk);
        MineLoaded(m.c, p.id, disk);
      }
    }
  }

  lemma RangeOf(m: Many, k: nat, disk: Disk)
    requires Shared(m, disk) && k < |m.cs|
    ensures InRange(m.cs[k].r) && m.cs[k].r.idx < |m.cs[k].r.cce| && m.cs[k].f.chunksize > 0
  {
    assert Look(0);
  }

  /** A request stays sound through a step that spares it. */
  lemma StaysSound(m: Many, p: Step, k: nat, disk: Disk)
    requires Shared(m, disk) && k < |m.cs| && Enabled(m.c, p, disk) && SparesUs(WorldOf(m.c, m.cs[k]), p)
    ensures Sound(WorldOf(Apply(m.c, p, disk), m.cs[k]), m.cs[k].f, disk)
  {
    RangeOf(m, k, disk);
    OtherSound(WorldOf(m.c, m.cs[k]), Other(p), m.cs[k].f, disk);
  }

  /* ---- Every joint move keeps everyone sound ---- */

  lemma ExtKeeps(m: Many, p: Step, disk: Disk)
    requires Shared(m, disk) && EnabledJ(m, Ext(p), disk)
    ensures Shared(m.(c := Apply(m.c, p, disk)), disk)
  {
    hide InvX, Sound, Apply, SparesUs, Owned, Refs;
    StepKeeps(m.c, p, disk);
    forall k | 0 <= k < |m.cs| ensures Sound(WorldOf(Apply(m.c, p, disk), m.cs[k]), m.cs[k].f, disk) {
      RangeOf(m, k, disk);
      if p.DoRelease? || p.DoAbort? { OwnedNow(m.cs, k, p.id); }
      Spared(m, p, k, disk);
      StaysSound(m, p, k, disk);
    }
    StepHeld(m.c, p, disk);
  }

  /** A change of one request, with the others still sound, its references backed and its token its own. */
  lemma OneChanged(m: Many, c': Sys, i: nat, k: Client, disk: Disk)
    requires Shared(m, disk) && i < |m.cs| && Inv(c', disk) && Sound(WorldOf(c', k), k.f, disk)
    requires forall q :: 0 <= q < |m.cs| && q != i ==> Sound(WorldOf(c', m.cs[q]), m.cs[q].f, disk)
    requires forall id: BufId :: Refs(k, id) + m.c.held[id] <= Refs(m.cs[i], id) + c'.held[id]
    requires k.r.t.Some? ==> k.r.t == m.cs[i].r.t || NoToken(m.cs, k.r.t)
    ensures Shared(Many(c', m.cs[i := k]), disk)
  {
    hide Sound, InvX, Refs, Owned;
    BackedAt(m.c, c', m.cs, i, k);
  }

  /** Moves of a request that leave the cache alone: a callback, a write, an acknowledgement. */
  lemma QuietShape(w: World, v: Move, f: File, disk: Disk)
    requires Sound(w, f, disk) && EnabledM(w, v, f, disk) && (v.Callback? || v.Send? || v.Ack?) && (v.Send? ==> SendReady(w, f))
    ensures var w' := ApplyM(w, v, f, disk); w'.c == w.c && w'.r.cce == w.r.cce && (w'.r.t == w.r.t || w'.r.t.None?)
  {
  }

  lemma QuietKeeps(m: Many, i: nat, v: Move, disk: Disk)
    requires Shared(m, disk) && EnabledJ(m, Of(i, v), disk) && (v.Callback? || v.Send? || v.Ack?)
    ensures Shared(ApplyJ(m, Of(i, v), disk), disk)
  {
    hide InvX, Sound, EnabledM, ApplyM, Owned, Backed, TokensApart;
    var k := m.cs[i];
    var w := WorldOf(m.c, k);
    MoveReady(w, v, k.f, disk);
    MoveKeeps(w, v, k.f, disk);
    QuietShape(w, v, k.f, disk);
    var w' := ApplyM(w, v, k.f, disk);
    OneChanged(m, w'.c, i, Client(w'.r, k.f, w'.wire), disk);
  }

  lemma AskShape(w: World, v: Move, f: File, disk: Disk) returns (x: Option<BufId>)
    requires Sound(w, f, disk) && EnabledM(w, v, f, disk) && v.Ask?
    ensures var (p, w') := (DoAread(VolChk(f, w.r.rfirst + w.r.sent), v.dts, v.ct), ApplyM(w, v, f, disk));
      && Enabled(w.c, p, disk) && w'.c == Apply(w.c, p, disk) && w.r.idx < |w.r.cce| && w.r.cce[w.r.idx].None?
      && w'.r.cce == w.r.cce[w.r.idx := x] && forall id: BufId :: w'.c.held[id] == w.c.held[id] + Is(x, id)
    ensures ApplyM(w, v, f, disk).r.t.Some? ==> ApplyM(w, v, f, disk).r.t == v.ct
  {
    hide Aread;
    F.AskFacts(w, v, f, disk);
    var addr := VolChk(f, w.r.rfirst + w.r.sent);
    AreadEffect(w.c, addr, v.dts, v.ct, disk);
    var res := Aread(w.c, addr, v.dts, v.ct).1;
    x := if res.Fail? then None else Some(res.id);
    assert w.r.cce[w.r.idx := None] == w.r.cce;
    assert ApplyM(w, v, f, disk).r.cce == w.r.cce[w.r.idx := x];
  }

  lemma AskShared(m: Many, i: nat, v: Move, disk: Disk)
    requires Shared(m, disk) && EnabledJ(m, Of(i, v), disk) && v.Ask?
    ensures Shared(ApplyJ(m, Of(i, v), disk), disk)
  {
    hide InvX, Sound, Owned, Apply, ApplyM, EnabledM, Enabled, Backed, TokensApart;
    var k := m.cs[i];
    var w := WorldOf(m.c, k);
    MoveReady(w, v, k.f, disk);
    var x := AskShape(w, v, k.f, disk);
    MoveKeeps(w, v, k.f, disk);
    var w' := ApplyM(w, v, k.f, disk);
    OthersSound(m, DoAread(VolChk(k.f, k.r.rfirst + k.r.sent), v.dts, v.ct), i, disk);
    forall id: BufId ensures Refs(Client(w'.r, k.f, w'.wire), id) + m.c.held[id] <= Refs(k, id) + w'.c.held[id] {
      SlotsSet(k.r.cce, |k.r.cce|, k.r.idx, x, id);
    }
    OneChanged(m, w'.c, i, Client(w'.r, k.f, w'.wire), disk);
  }

  /** A step that spares every other request. */
  lemma OthersSound(m: Many, p: Step, i: nat, disk: Disk)
    requires Shared(m, disk) && Enabled(m.c, p, disk) && i < |m.cs|
    requires p.DoRelease? ==> forall k :: 0 <= k < |m.cs| && k != i ==> m.c.held[p.id] > Refs(m.cs[k], p.id)
    requires p.DoRelease? || (p.DoAread? && NoToken(m.cs, p.ct))
    ensures Inv(Apply(m.c, p, disk), disk)
    ensures forall k :: 0 <= k < |m.cs| && k != i ==> Sound(WorldOf(Apply(m.c, p, disk), m.cs[k]), m.cs[k].f, disk)
  {
    hide InvX, Sound, Apply, SparesUs, Refs;
    StepKeeps(m.c, p, disk);
    forall k | 0 <= k < |m.cs| && k != i ensures Sound(WorldOf(Apply(m.c, p, disk), m.cs[k]), m.cs[k].f, disk) {
      RangeOf(m, k, disk);
      Spared(m, p, k, disk);
      StaysSound(m, p, k, disk);
    }
  }

  lemma FreeShape(w: World, f: File, disk: Disk)
    requires Sound(w, f, disk) && EnabledM(w, Free, f, disk)
    ensures FreeReady(w) && 0 < |w.r.cce|
    ensures var j := (w.r.idxAck + 1) % |w.r.cce|;
      && w.r.cce[j].Some? && Enabled(w.c, DoRelease(w.r.cce[j].value), disk)
      && var w' := ApplyM(w, Free, f, disk);
         && w'.c == Apply(w.c, DoRelease(w.r.cce[j].value), disk) && w'.c.held == w.c.held - multiset{w.r.cce[j].value}
         && w'.r.cce == w.r.cce[j := None] && w'.r.t == w.r.t && w'.wire == w.wire
  {
    F.FreeIs(w, f, disk);
  }

  /** A buffer in a slot of request i is held once more than request k holds it. */
  lemma HeldTwice(m: Many, i: nat, j: nat, k: nat, disk: Disk)
    requires Shared(m, disk) && i < |m.cs| && k < |m.cs| && i != k && j < |m.cs[i].r.cce| && m.cs[i].r.cce[j].Some?
    ensures m.c.held[m.cs[i].r.cce[j].value] > Refs(m.cs[k], m.cs[i].r.cce[j].value)
  {
    var id := m.cs[i].r.cce[j].value;
    SlotsAt(m.cs[i].r.cce, |m.cs[i].r.cce|, j);
    OwnedNow(m.cs, i, id);
    var rest := m.cs[..i] + m.cs[i + 1..];
    var k' := if k < i then k else k - 1;
    assert rest[k'] == m.cs[k];
    OwnedNow(rest, k', id);
    assert Owned(m.cs, id) <= m.c.held[id];
  }

  lemma FreeShared(m: Many, i: nat, disk: Disk)
    requires Shared(m, disk) && EnabledJ(m, Of(i, Free), disk)
    ensures Shared(ApplyJ(m, Of(i, Free), disk), disk)
  {
    hide InvX, Sound, Owned, Apply, ApplyM, EnabledM, Enabled, Backed, TokensApart;
    var k := m.cs[i];
    var w := WorldOf(m.c, k);
    FreeShape(w, k.f, disk);
    MoveKeeps(w, Free, k.f, disk);
    var j := (k.r.idxAck + 1) % |k.r.cce|;
    var p := DoRelease(k.r.cce[j].value);
    forall q | 0 <= q < |m.cs| && q != i ensures m.c.held[p.id] > Refs(m.cs[q], p.id) { HeldTwice(m, i, j, q, disk); }
    OthersSound(m, p, i, disk);
    var w' := ApplyM(w, Free, k.f, disk);
    forall id: BufId ensures Refs(Client(w'.r, k.f, w'.wire), id) + m.c.held[id] <= Refs(k, id) + w'.c.held[id] {
      SlotsSet(k.r.cce, |k.r.cce|, j, None, id);
    }
    OneChanged(m, w'.c, i, Client(w'.r, k.f, w'.wire), disk);
  }

  lemma BeginKeeps(m: Many, f: File, first: nat, len: nat, n: nat, disk: Disk)
    requires Shared(m, disk) && EnabledJ(m, Begin(f, first, len, n), disk)
    ensures Shared(m.(cs := m.cs + [Fresh(m.c, f, first, len, n)]), disk)
  {
    hide Sound, InvX;
    var k := Fresh(m.c, f, first, len, n);
    StartInv(m.c, first, len, n, f, disk);
    forall id: BufId ensures Owned(m.cs + [k], id) == Owned(m.cs, id) {
      OwnedSplit(m.cs, [k], id);
      assert [k][1..] == [];
      NoSlots(k.r.cce, n, id);
    }
  }

  lemma RetireKeeps(m: Many, i: nat, disk: Disk)
    requires Shared(m, disk) && i < |m.cs|
    ensures Shared(m.(cs := m.cs[..i] + m.cs[i + 1..]), disk)
  {
    hide Sound, InvX, Owned, Refs;
    forall id: BufId ensures Owned(m.cs[..i] + m.cs[i + 1..], id) <= Owned(m.cs, id) { OwnedNow(m.cs, i, id); }
  }

  /** Every move, of any request, of the device or of anybody else, keeps all requests sound. */
  lemma JointKeeps(m: Many, j: Joint, disk: Disk)
    requires Shared(m, disk) && EnabledJ(m, j, disk)
    ensures Shared(ApplyJ(m, j, disk), disk)
  {
    hide Shared, Foreign, EnabledM;
    match j
    case Of(i, v) =>
      MoveKinds(m, j, disk);
      if v.Ask? { AskShared(m, i, v, disk); } else if v.Free? { FreeShared(m, i, disk); } else { QuietKeeps(m, i, v, disk); }
    case Ext(p) => ExtKeeps(m, p, disk);
    case Begin(f, first, len, n) => BeginKeeps(m, f, first, len, n, disk);
    case Retire(i) => RetireKeeps(m, i, disk);
  }

  lemma MoveKinds(m: Many, j: Joint, disk: Disk)
    requires EnabledJ(m, j, disk) && j.Of?
    ensures j.m.Ask? || j.m.Callback? || j.m.Send? || j.m.Ack? || j.m.Free?
  {
  }

  ghost predicate RunsJ(m: Many, js: seq<Joint>, m': Many, disk: Disk)
    requires Shared(m, disk)
    decreases |js|
  {
    if js == [] then m' == m
    else EnabledJ(m, js[0], disk) && (JointKeeps(m, js[0], disk); RunsJ(ApplyJ(m, js[0], disk), js[1..], m', disk))
  }

  lemma {:induction false} RunKeepsJ(m: Many, js: seq<Joint>, m': Many, disk: Disk)
    requires Shared(m, disk) && RunsJ(m, js, m', disk)
    ensures Shared(m', disk)
    decreases |js|
  {
    hide Shared, EnabledJ, ApplyJ;
    if js != [] {
      JointKeeps(m, js[0], disk);
      RunKeepsJ(ApplyJ(m, js[0], disk), js[1..], m', disk);
    }
  }

  lemma NobodyYet(n: nat, htlen: nat, volsize: Chk, readahead: nat, disk: Disk)
    requires htlen > 0
    ensures Shared(Many(Init(n, htlen, volsize, readahead), []), disk)
  {
    InitInv(n, htlen, volsize, readahead, disk);
  }

  /** What sharing means for each request: the bytes TCP got of it are a prefix of its part of its file, and every
      byte of it that is not acknowledged lies unchanged in a buffer the request holds. */
  ghost predicate Exact(c: Sys, k: Client, x: nat, disk: Disk) {
    && Volume(k.f, disk) && k.r.sent <= k.r.rlen && k.wire == Content(k.f, disk, k.r.rfirst, k.r.sent) && |k.r.cce| > 0
    && (k.r.alen <= x < k.r.sent ==>
          var s := k.r.cce[SlotOf(WorldOf(c, k), k.f, x)];
          && s.Some? && s.value < |c.ent| && c.held[s.value] > 0 && c.ent[s.value].addr == VolChk(k.f, k.r.rfirst + x)
          && |c.ent[s.value].buf| == k.f.chunksize && k.wire[x] == c.ent[s.value].buf[VolOff(k.f, k.r.rfirst + x)])
  }

  lemma SoundExact(c: Sys, k: Client, x: nat, disk: Disk)
    requires Sound(WorldOf(c, k), k.f, disk)
    ensures Exact(c, k, x, disk)
  {
    assert Look(0);
    if k.r.alen <= x < k.r.sent { WindowSafe(WorldOf(c, k), x, k.f, disk); }
  }

  /** From an empty cache on, with any number of requests coming and going in any interleaving, every request is
      served exactly. */
  lemma ManyServed(n: nat, htlen: nat, volsize: Chk, readahead: nat, js: seq<Joint>, m: Many, i: nat, x: nat, disk: Disk)
    requires htlen > 0 && (NobodyYet(n, htlen, volsize, readahead, disk); RunsJ(Many(Init(n, htlen, volsize, readahead), []), js, m, disk)) && i < |m.cs|
    ensures Exact(m.c, m.cs[i], x, disk)
  {
    hide Sound, InvX, RunsJ, Init, Exact, Owned;
    NobodyYet(n, htlen, volsize, readahead, disk);
    RunKeepsJ(Many(Init(n, htlen, volsize, readahead), []), js, m, disk);
    SoundExact(m.c, m.cs[i], x, disk);
  }

  /* ---- Runs of one request ---- */

  /** Every token a request has is waiting. */
  ghost predicate Settled(m: Many) {
    forall i :: 0 <= i < |m.cs| && m.cs[i].r.t.Some? ==> m.cs[i].r.t.value in m.c.waits
  }

  /** Tokens that wait go on waiting, and a new one waits. */
  ghost predicate WaitsOn(w: World, w': World) {
    && (forall t :: t in w.c.waits ==> t in w'.c.waits)
    && (w'.r.t.Some? && w'.r.t != w.r.t ==> w'.r.t.value in w'.c.waits)
  }

  lemma AskWaits(w: World, v: Move, f: File, disk: Disk)
    requires Sound(w, f, disk) && EnabledM(w, v, f, disk) && v.Ask?
    ensures WaitsOn(w, ApplyM(w, v, f, disk)) && (v.ct.Some? ==> v.ct.value !in w.c.waits) && w.r.t.None?
  {
    hide Aread;
    F.AskFacts(w, v, f, disk);
    AreadEffect(w.c, VolChk(f, w.r.rfirst + w.r.sent), v.dts, v.ct, disk);
  }

  lemma FreeWaits(w: World, f: File, disk: Disk)
    requires Sound(w, f, disk) && EnabledM(w, Free, f, disk) && FreeReady(w)
    ensures WaitsOn(w, ApplyM(w, Free, f, disk))
  {
    hide InvX, InvM, ApplyM, EnabledM, Apply, Enabled;
    FreeShape(w, f, disk);
    F.ReleaseWaits(w.c, w.r.cce[(w.r.idxAck + 1) % |w.r.cce|].value, disk);
  }

  lemma OwnWaits(w: World, v: Move, f: File, disk: Disk)
    requires Sound(w, f, disk) && EnabledM(w, v, f, disk) && F.OwnMove(v) && (v.Free? ==> FreeReady(w)) && (v.Send? ==> SendReady(w, f))
    ensures WaitsOn(w, ApplyM(w, v, f, disk)) && (v.Ask? && v.ct.Some? ==> v.ct.value !in w.c.waits && w.r.t.None?)
  {
    hide InvX, InvM, ApplyM, EnabledM;
    if v.Ask? { AskWaits(w, v, f, disk); } else if v.Free? { FreeWaits(w, f, disk); } else { QuietShape(w, v, f, disk); }
  }

  /** A move of one request among settled others is a joint move, and leaves all settled. */
  lemma OwnKeeps(m: Many, i: nat, v: Move, disk: Disk)
    requires Shared(m, disk) && Settled(m) && i < |m.cs| && F.OwnMove(v)
    requires m.cs[i].f.chunksize > 0 && EnabledM(WorldOf(m.c, m.cs[i]), v, m.cs[i].f, disk)
    ensures EnabledJ(m, Of(i, v), disk) && Shared(ApplyJ(m, Of(i, v), disk), disk) && Settled(ApplyJ(m, Of(i, v), disk))
  {
    hide Sound, InvX, EnabledM, ApplyM, Backed, TokensApart;
    var k := m.cs[i];
    MoveReady(WorldOf(m.c, k), v, k.f, disk);
    OwnWaits(WorldOf(m.c, k), v, k.f, disk);
    JointKeeps(m, Of(i, v), disk);
  }

  /** A run of one request, as its methods perform it, keeps all the others sound. */
  lemma {:induction false} OwnRun(m: Many, i: nat, ms: seq<Move>, w': World, disk: Disk)
    requires Shared(m, disk) && Settled(m) && i < |m.cs| && F.OwnMoves(ms)
    requires Sound(WorldOf(m.c, m.cs[i]), m.cs[i].f, disk) && RunsM(WorldOf(m.c, m.cs[i]), ms, w', m.cs[i].f, disk)
    ensures var m' := Many(w'.c, m.cs[i := Client(w'.r, m.cs[i].f, w'.wire)]); Shared(m', disk) && Settled(m')
    decreases |ms|
  {
    hide Shared, Settled, EnabledM, ApplyM, EnabledJ, InvM, InvX;
    if ms == [] {
      assert m.cs[i := m.cs[i]] == m.cs;
    } else {
      var k := m.cs[i];
      MoveReady(WorldOf(m.c, k), ms[0], k.f, disk);
      MoveKeeps(WorldOf(m.c, k), ms[0], k.f, disk);
      OwnKeeps(m, i, ms[0], disk);
      var m1 := ApplyJ(m, Of(i, ms[0]), disk);
      OwnRun(m1, i, ms[1..], w', disk);
      assert m1.cs[i := Client(w'.r, k.f, w'.wire)] == m.cs[i := Client(w'.r, k.f, w'.wire)];
    }
  }
}
