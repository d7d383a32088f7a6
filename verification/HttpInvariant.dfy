/** What is true of the parser between any two bytes: every assert in http_parser.c holds. */
module HttpInvariant {
  import opened Lists
  import opened HttpMachine

  predicate OfChunk(s: St) {
    || s.ChunkSizeStart? || s.ChunkSize? || s.ChunkParameters? || s.ChunkSizeAlmostDone?
    || s.ChunkData? || s.ChunkDataAlmostDone? || s.ChunkDataDone?
  }

  /** header_state while a field name is read. */
  predicate FieldHs(h: Hs) {
    || h.General? || h.C? || h.CO? || h.CON? || h.MatchConnection? || h.MatchProxy? || h.MatchLength? || h.MatchEncoding?
    || h.MatchUpgrade? || h.Connection? || h.Length? || h.Encoding? || h.UpgradeField?
  }

  /** header_state while a value is read: never h_connection or h_transfer_encoding. */
  predicate ValueHs(h: Hs) {
    || h.General? || h.Length? || h.MatchChunked? || h.TokenStart? || h.MatchKeepAlive? || h.MatchClose?
    || h.MatchConnUpgrade? || h.Token? || h.Chunked? || h.KeepAlive? || h.Close? || h.ConnUpgrade?
  }

  /** A chunk size or Content-Length that was read never reaches the "no length" value ULLONG_MAX, a
      body is only read with bytes left, and chunk states occur only in chunked messages. */
  predicate WellFormed(p: Ps) {
    && p.length <= MAX64
    && (p.st.BodyIdentity? || p.st.ChunkData? ==> 0 < p.length < MAX64)
    && (p.st.ChunkDataAlmostDone? ==> p.length == 0)
    && (OfChunk(p.st) ==> p.flags.chunked && (!p.st.ChunkSizeStart? ==> p.length < MAX64))
    && (p.flags.trailing ==> p.flags.chunked)
    && (p.st.HeaderField? ==> FieldHs(p.hs))
    && (p.st.HeaderValue? ==> ValueHs(p.hs) && (p.hs.Length? ==> p.length < MAX64))
  }

  lemma ResponseKeeps(p: Ps, ch: Byte)
    requires WellFormed(p) && OfResponse(p.st) && !ActResponse(p, ch).next.Fail?
    ensures WellFormed(ActResponse(p, ch).ps)
  {
    hide Digit;
  }

  lemma RequestKeeps(p: Ps, ch: Byte)
    requires WellFormed(p) && OfRequest(p.st) && !ActRequest(p, ch).next.Fail?
    ensures WellFormed(ActRequest(p, ch).ps)
  {
    hide Digit, MethodChar, FirstMethod, MethodName;
  }

  lemma UrlKeeps(p: Ps, ch: Byte)
    requires WellFormed(p) && OfUrl(p.st) && !ActUrl(p, ch).next.Fail?
    ensures WellFormed(ActUrl(p, ch).ps)
  {
    hide UrlChar;
  }

  lemma FieldCharKeeps(p: Ps, c: Byte)
    requires WellFormed(p) && p.st.HeaderField?
    ensures WellFormed(FieldChar(p, c))
  {
  }

  lemma SetFlagKeeps(f: Flags, h: Hs)
    ensures var g := SetFlag(f, h); g.trailing == f.trailing && (f.chunked ==> g.chunked)
  {
  }

  /** Another digit never wraps and never reaches ULLONG_MAX. */
  lemma LengthDigit(n: nat, d: nat)
    requires n <= (MAX64 - 10) / 10 && d <= 9
    ensures n * 10 + d < MAX64
  {
  }

  lemma ValueCharKeeps(p: Ps, ch: Byte)
    requires WellFormed(p) && p.st.HeaderValue? && ValueChar(p, ch).Some?
    ensures WellFormed(ValueChar(p, ch).value)
  {
    hide SetFlag;
    SetFlagKeeps(p.flags, p.hs);
    if p.hs.Length? && p.length <= (MAX64 - 10) / 10 && IsNum(ch) { LengthDigit(p.length, ch - 48); }
  }

  lemma ValueStartKeeps(p: Ps, ch: Byte)
    requires WellFormed(p) && OfHeader(p.st) && !ActValueStart(p, ch).next.Fail?
    ensures WellFormed(ActValueStart(p, ch).ps)
  {
    hide Lower;
  }

  lemma HeadersEndKeeps(p: Ps, ch: Byte, hc: Settings)
    requires WellFormed(p)
    ensures p.st.HeadersAlmostDone? ==> WellFormed(ActHeadersAlmostDone(p, ch, hc).ps)
    ensures p.st.HeadersDone? ==> WellFormed(ActHeadersDone(p, ch).ps)
  {
    hide ShouldKeepAlive, NeedsEof;
  }

  lemma FieldStatesKeep(p: Ps, ch: Byte, hc: Settings)
    requires WellFormed(p) && (p.st.HeaderFieldStart? || p.st.HeaderField?) && !ActHeader(p, ch, hc).next.Fail?
    ensures WellFormed(ActHeader(p, ch, hc).ps)
  {
    hide FieldChar, TokenOf;
    if p.st.HeaderField? { FieldCharKeeps(p, TokenOf(ch)); }
  }

  lemma ValueStatesKeep(p: Ps, ch: Byte, hc: Settings)
    requires WellFormed(p) && (p.st.HeaderValue? || p.st.HeaderValueStart? || p.st.ValueDiscardWs?) && !ActHeader(p, ch, hc).next.Fail?
    ensures WellFormed(ActHeader(p, ch, hc).ps)
  {
    hide ValueChar, ActValueStart;
    if p.st.HeaderValue? && ValueChar(p, ch).Some? { ValueCharKeeps(p, ch); }
    if !ActValueStart(p, ch).next.Fail? { ValueStartKeeps(p, ch); }
  }

  lemma HeaderKeeps(p: Ps, ch: Byte, hc: Settings)
    requires WellFormed(p) && OfHeader(p.st) && !ActHeader(p, ch, hc).next.Fail?
    ensures WellFormed(ActHeader(p, ch, hc).ps)
  {
    if p.st.HeaderFieldStart? || p.st.HeaderField? {
      FieldStatesKeep(p, ch, hc);
    } else if p.st.HeaderValue? || p.st.HeaderValueStart? || p.st.ValueDiscardWs? {
      ValueStatesKeep(p, ch, hc);
    } else {
      hide SetFlag, ActHeadersAlmostDone, ActHeadersDone;
      SetFlagKeeps(p.flags, p.hs);
      HeadersEndKeeps(p, ch, hc);
    }
  }

  lemma BodyKeeps(p: Ps, ch: Byte)
    requires WellFormed(p) && OfBody(p.st) && !ActBody(p, ch).next.Fail?
    ensures WellFormed(ActBody(p, ch).ps)
  {
    hide Unhex, ShouldKeepAlive;
    assert p.length <= (MAX64 - 16) / 16 ==> p.length * 16 + 15 < MAX64;
  }

  lemma PassKeeps(p: Ps, ch: Byte, hc: Settings)
    requires WellFormed(p) && !Pass(p, ch, hc).next.Fail?
    ensures WellFormed(Pass(p, ch, hc).ps)
  {
    hide ActResponse, ActRequest, ActUrl, ActHeader, ActBody, WellFormed;
    if OfResponse(p.st) { ResponseKeeps(p, ch); }
    else if OfRequest(p.st) { RequestKeeps(p, ch); }
    else if OfUrl(p.st) { UrlKeeps(p, ch); }
    else if OfHeader(p.st) { HeaderKeeps(p, ch, hc); }
    else { BodyKeeps(p, ch); }
  }

  lemma {:induction false} StepKeeps(p: Ps, ch: Byte, hc: Settings)
    requires WellFormed(p)
    ensures var r := Step(p, ch, hc); !r.Failed? ==> WellFormed(r.ps)
    decreases Rank(p.st)
  {
    hide Pass, WellFormed;
    var a := Pass(p, ch, hc);
    if !a.next.Fail? {
      PassKeeps(p, ch, hc);
      PassRank(p, ch, hc);
      if a.next == Again { StepKeeps(a.ps, ch, hc); }
    }
  }

  /** After any input that is not refused, the parser is well-formed. */
  lemma {:induction false} RunKeeps(p: Ps, data: seq<Byte>, hc: Settings)
    requires WellFormed(p)
    ensures var r := Run(p, data, hc); !r.Failed? ==> WellFormed(r.ps)
    decreases |data|
  {
    hide Step, WellFormed;
    if data != [] {
      var d := data[..|data| - 1];
      RunKeeps(p, d, hc);
      var r := Run(p, d, hc);
      if r.Going? { StepKeeps(r.ps, data[|data| - 1], hc); }
    }
  }
}
