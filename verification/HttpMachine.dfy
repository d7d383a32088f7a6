/** http_parser.c in strict mode as a machine that takes one byte at a time: no buffers, no marks.
    Bytes that belong to a header field, a header value, a URL, a status text or a body are events of
    their own, in order with the notifications. */
module HttpMachine {
  import opened Lists

  const MAX64: nat := 0xFFFF_FFFF_FFFF_FFFF
  const CR: Byte := 13
  const LF: Byte := 10
  const SP: Byte := 32
  const TAB: Byte := 9

  datatype St =
    | Dead | StartReqOrRes | ResOrRespH | StartRes | ResH | ResHT | ResHTT | ResHTTP | ResFirstMajor | ResMajor
    | ResFirstMinor | ResMinor | ResFirstStatus | ResStatusCode | ResStatusStart | ResStatus | ResLineAlmostDone
    | StartReq | ReqMethod | ReqSpaces | ReqSchema | ReqSchemaSlash | ReqSchemaSlashSlash | ReqServerStart
    | ReqServer | ReqServerWithAt | ReqPath | ReqQueryStart | ReqQuery | ReqFragmentStart | ReqFragment
    | ReqHttpStart | ReqHttpH | ReqHttpHT | ReqHttpHTT | ReqHttpHTTP | ReqFirstMajor | ReqMajor | ReqFirstMinor
    | ReqMinor | ReqLineAlmostDone
    | HeaderFieldStart | HeaderField | ValueDiscardWs | ValueDiscardWsAlmostDone | ValueDiscardLws
    | HeaderValueStart | HeaderValue | HeaderValueLws | HeaderAlmostDone
    | ChunkSizeStart | ChunkSize | ChunkParameters | ChunkSizeAlmostDone | HeadersAlmostDone | HeadersDone
    | ChunkData | ChunkDataAlmostDone | ChunkDataDone | BodyIdentity | BodyIdentityEof | MessageDone

  datatype Hs =
    | General | C | CO | CON | MatchConnection | MatchProxy | MatchLength | MatchEncoding | MatchUpgrade
    | Connection | Length | Encoding | UpgradeField | MatchChunked | TokenStart | MatchKeepAlive | MatchClose
    | MatchConnUpgrade | Token | Chunked | KeepAlive | Close | ConnUpgrade

  datatype Flags = Flags(chunked: bool, keepAlive: bool, close: bool, connUpgrade: bool, trailing: bool,
                         upgrade: bool, skipBody: bool)

  const NO_FLAGS: Flags := Flags(false, false, false, false, false, false, false)

  datatype Type = Request | Response | Both

  /** struct http_parser without nread, which depends on how the input is cut. */
  datatype Ps = Ps(st: St, hs: Hs, index: nat, flags: Flags, length: nat, kind: Type, meth: nat,
                   major: nat, minor: nat, status: nat, upgrade: bool)

  datatype Kind = Field | Value | Url | Body | Status

  datatype Note = MessageBegin | HeadersComplete | MessageComplete | ChunkHeader(size: nat) | ChunkComplete

  datatype Event = Data(kind: Kind, b: Byte) | Notify(note: Note)

  datatype Error =
    | ClosedConnection | InvalidVersion | InvalidStatus | InvalidMethod | InvalidUrl | LfExpected
    | InvalidHeaderToken | InvalidContentLength | InvalidChunkSize | InvalidConstant | Strict

  /** What one pass through the switch of http_parser_execute asks for: set a mark, run the data
      callback (with or without the current byte), notify; then go on. */
  datatype Next = Advance | Again | Fail(err: Error) | Exit
  datatype Cb = Quiet | Before(k: Kind) | Including(k: Kind)
  datatype Act = Act(ps: Ps, mark: Option<Kind>, cb: Cb, note: Option<Note>, next: Next)

  /** The answer of the on_headers_complete callback: skip the body? */
  type Settings = Ps -> bool

  /* ---- Characters ---- */

  function Lower(b: Byte): (r: Byte) { if (b / 32) % 2 == 1 then b else b + 32 }

  predicate IsNum(b: Byte) { 48 <= b <= 57 }

  predicate IsAlpha(b: Byte) { 97 <= Lower(b) <= 122 }

  /** tokens[]: the lower-cased character, 0 for a separator or control character. */
  function TokenOf(b: Byte): Byte {
    if 65 <= b <= 90 then b + 32
    else if IsNum(b) || 94 <= b <= 122 || b in {33, 35, 36, 37, 38, 39, 42, 43, 45, 46, 124, 126} then b
    else 0
  }

  /** unhex[]: only the first 128 entries are written out, so the others are 0, not -1. */
  function Unhex(b: Byte): (r: int)
    ensures -1 <= r < 16
  {
    if IsNum(b) then b - 48
    else if 65 <= b <= 70 then b - 55
    else if 97 <= b <= 102 then b - 87
    else if b >= 128 then 0
    else -1
  }

  predicate IsUrlChar(b: Byte) { 33 <= b <= 126 && b != 35 && b != 63 }

  predicate IsUserinfoChar(b: Byte) {
    IsAlpha(b) || IsNum(b) || b in {45, 95, 46, 33, 126, 42, 39, 40, 41, 37, 59, 58, 38, 61, 43, 36, 44}
  }

  function MethodName(m: nat): (s: string)
    ensures |s| > 0 && forall i :: 0 <= i < |s| ==> 32 < s[i] as int < 128
  {
    match m
    case 0 => "DELETE" case 1 => "GET" case 2 => "HEAD" case 3 => "POST" case 4 => "PUT"
    case 5 => "CONNECT" case 6 => "OPTIONS" case 7 => "TRACE" case 8 => "COPY" case 9 => "LOCK"
    case 10 => "MKCOL" case 11 => "MOVE" case 12 => "PROPFIND" case 13 => "PROPPATCH" case 14 => "SEARCH"
    case 15 => "UNLOCK" case 16 => "REPORT" case 17 => "MKACTIVITY" case 18 => "CHECKOUT" case 19 => "MERGE"
    case 20 => "M-SEARCH" case 21 => "NOTIFY" case 22 => "SUBSCRIBE" case 23 => "UNSUBSCRIBE" case 24 => "PATCH"
    case 25 => "PURGE" case _ => "MKCALENDAR"
  }

  /* ---- Pure helpers of the parser ---- */

  /** http_message_needs_eof */
  predicate NeedsEof(p: Ps) {
    && p.kind != Request
    && !(p.status / 100 == 1 || p.status == 204 || p.status == 304 || p.flags.skipBody)
    && !(p.flags.chunked || p.length != MAX64)
  }

  /** http_should_keep_alive */
  predicate ShouldKeepAlive(p: Ps) {
    && (if p.major > 0 && p.minor > 0 then !p.flags.close else p.flags.keepAlive)
    && !NeedsEof(p)
  }

  /** NEW_MESSAGE in strict mode. */
  function NewMessage(p: Ps): St {
    if ShouldKeepAlive(p) then (if p.kind == Request then StartReq else StartRes) else Dead
  }

  /** parse_url_char; Dead stands for an error. */
  function UrlChar(s: St, ch: Byte): (r: St)
    ensures r == Dead || InUrl(r)
  {
    if ch in {SP, CR, LF, TAB, 12} then Dead
    else match s
      case ReqSpaces => if ch in {47, 42} then ReqPath else if IsAlpha(ch) then ReqSchema else Dead
      case ReqSchema => if IsAlpha(ch) then s else if ch == 58 then ReqSchemaSlash else Dead
      case ReqSchemaSlash => if ch == 47 then ReqSchemaSlashSlash else Dead
      case ReqSchemaSlashSlash => if ch == 47 then ReqServerStart else Dead
      case ReqServerWithAt => if ch == 64 then Dead else ServerChar(ch)
      case ReqServerStart => ServerChar(ch)
      case ReqServer => ServerChar(ch)
      case ReqPath => if IsUrlChar(ch) then s else if ch == 63 then ReqQueryStart else if ch == 35 then ReqFragmentStart else Dead
      case ReqQueryStart => QueryChar(ch)
      case ReqQuery => QueryChar(ch)
      case ReqFragmentStart => if IsUrlChar(ch) || ch == 63 then ReqFragment else if ch == 35 then s else Dead
      case ReqFragment => if IsUrlChar(ch) || ch in {63, 35} then s else Dead
      case _ => Dead
  }

  function ServerChar(ch: Byte): St {
    if ch == 47 then ReqPath else if ch == 63 then ReqQueryStart else if ch == 64 then ReqServerWithAt
    else if IsUserinfoChar(ch) || ch in {91, 93} then ReqServer else Dead
  }

  function QueryChar(ch: Byte): St {
    if IsUrlChar(ch) || ch == 63 then ReqQuery else if ch == 35 then ReqFragmentStart else Dead
  }

  predicate InUrl(s: St) {
    || s.ReqSchema? || s.ReqSchemaSlash? || s.ReqSchemaSlashSlash? || s.ReqServerStart? || s.ReqServer?
    || s.ReqServerWithAt? || s.ReqPath? || s.ReqQueryStart? || s.ReqQuery? || s.ReqFragmentStart? || s.ReqFragment?
  }

  /** One more character of a method name; None is an invalid method. */
  function MethodChar(m: nat, index: nat, ch: Byte): Option<nat> {
    var name := MethodName(m);
    if index < |name| && name[index] as int == ch then Some(m)
    else if m == 5 then
      (if index == 1 && ch == 72 then Some(18) else if index == 2 && ch == 80 then Some(8) else None)
    else if m == 10 then
      (if index == 1 && ch == 79 then Some(11) else if index == 1 && ch == 69 then Some(19)
       else if index == 1 && ch == 45 then Some(20) else if index == 2 && ch == 65 then Some(17)
       else if index == 3 && ch == 65 then Some(26) else None)
    else if m == 22 then (if index == 1 && ch == 69 then Some(14) else None)
    else if index == 1 && m == 3 then
      (if ch == 82 then Some(12) else if ch == 85 then Some(4) else if ch == 65 then Some(24) else None)
    else if index == 2 then
      (if m == 4 && ch == 82 then Some(25) else if m == 15 && ch == 83 then Some(23) else None)
    else if index == 4 && m == 12 && ch == 80 then Some(13)
    else None
  }

  /** The first letter of a method. */
  function FirstMethod(ch: Byte): Option<nat> {
    match ch
    case 67 => Some(5) case 68 => Some(0) case 71 => Some(1) case 72 => Some(2) case 76 => Some(9)
    case 77 => Some(10) case 78 => Some(21) case 79 => Some(6) case 80 => Some(3) case 82 => Some(16)
    case 83 => Some(22) case 84 => Some(7) case 85 => Some(15) case _ => None
  }

  /** One more character of a header name that is being matched with word. */
  function MatchField(p: Ps, c: Byte, word: string, full: Hs): Ps {
    var i := p.index + 1;
    p.(index := i, hs := if i >= |word| || c != word[i] as int then General else if i == |word| - 1 then full else p.hs)
  }

  /** The inner loop of s_header_field, for the token character c. */
  function FieldChar(p: Ps, c: Byte): (r: Ps)
    ensures r == p.(hs := r.hs, index := r.index)
  {
    match p.hs
    case C => p.(index := p.index + 1, hs := if c == 111 then CO else General)
    case CO => p.(index := p.index + 1, hs := if c == 110 then CON else General)
    case CON => p.(index := p.index + 1, hs := if c == 110 then MatchConnection else if c == 116 then MatchLength else General)
    case MatchConnection => MatchField(p, c, "connection", Connection)
    case MatchProxy => MatchField(p, c, "proxy-connection", Connection)
    case MatchLength => MatchField(p, c, "content-length", Length)
    case MatchEncoding => MatchField(p, c, "transfer-encoding", Encoding)
    case MatchUpgrade => MatchField(p, c, "upgrade", UpgradeField)
    case Connection => p.(hs := General)
    case Length => p.(hs := General)
    case Encoding => p.(hs := General)
    case UpgradeField => p.(hs := General)
    case _ => p
  }

  function MatchValue(p: Ps, c: Byte, word: string, full: Hs, other: Hs): Ps {
    var i := p.index + 1;
    p.(index := i, hs := if i >= |word| || c != word[i] as int then other else if i == |word| - 1 then full else p.hs)
  }

  function ConnToken(c: Byte): Hs {
    if c == 107 then MatchKeepAlive else if c == 99 then MatchClose else if c == 117 then MatchConnUpgrade else Token
  }

  /** The inner loop of s_header_value, for a character that is not CR or LF; None is a malformed
      Content-Length. */
  function ValueChar(p: Ps, ch: Byte): (r: Option<Ps>)
    ensures r.Some? ==> r.value == p.(hs := r.value.hs, index := r.value.index, flags := r.value.flags, length := r.value.length)
    ensures p.hs == General ==> r == Some(p)
  {
    var c := Lower(ch);
    match p.hs
    case General => Some(p)
    case Length =>
      if ch == SP then Some(p)
      else if !IsNum(ch) || (MAX64 - 10) / 10 < p.length then None
      else Some(p.(length := p.length * 10 + (ch - 48)))
    case MatchChunked => Some(MatchValue(p, c, "chunked", Chunked, General))
    case TokenStart =>
      Some(p.(hs := if ConnToken(c) != Token then ConnToken(c) else if TokenOf(c) != 0 then Token
                    else if c == SP || c == TAB then TokenStart else General))
    case MatchKeepAlive => Some(MatchValue(p, c, "keep-alive", KeepAlive, Token))
    case MatchClose => Some(MatchValue(p, c, "close", Close, Token))
    case MatchConnUpgrade => Some(MatchValue(p, c, "upgrade", ConnUpgrade, Token))
    case Token => Some(if ch == 44 then p.(hs := TokenStart, index := 0) else p)
    case Chunked => Some(if ch != SP then p.(hs := General) else p)
    case KeepAlive => Some(ListItem(p, ch))
    case Close => Some(ListItem(p, ch))
    case ConnUpgrade => Some(ListItem(p, ch))
    case _ => Some(p.(hs := General))
  }

  /** The flag a matched header value stands for. */
  function SetFlag(f: Flags, hs: Hs): Flags {
    match hs
    case KeepAlive => f.(keepAlive := true)
    case Close => f.(close := true)
    case ConnUpgrade => f.(connUpgrade := true)
    case Chunked => f.(chunked := true)
    case _ => f
  }

  function ListItem(p: Ps, ch: Byte): Ps {
    if ch == 44 then p.(flags := SetFlag(p.flags, p.hs), hs := TokenStart, index := 0)
    else if ch != SP then p.(hs := Token) else p
  }

  /* ---- One pass through the switch ---- */

  function Go(p: Ps): Act { Act(p, None, Quiet, None, Advance) }

  function To(p: Ps, s: St): Act { Go(p.(st := s)) }

  function Err(p: Ps, e: Error): Act { Act(p, None, Quiet, None, Fail(e)) }

  function Retry(p: Ps): Act { Act(p, None, Quiet, None, Again) }

  function Say(p: Ps, n: Note): Act { Act(p, None, Quiet, Some(n), Advance) }

  function Expect(p: Ps, ok: bool, s: St, e: Error): Act { if ok then To(p, s) else Err(p, e) }

  /** Another digit of a version or status number. */
  function Digit(n: nat, ch: Byte): Option<nat> {
    if !IsNum(ch) || n * 10 + (ch - 48) > 999 then None else Some(n * 10 + (ch - 48))
  }

  /** The states of a status line. */
  function ActResponse(p: Ps, ch: Byte): Act {
    match p.st
    case StartRes =>
      var q := p.(flags := NO_FLAGS, length := MAX64);
      if ch == 72 then Say(q.(st := ResH), MessageBegin)
      else if ch == CR || ch == LF then Say(q, MessageBegin)
      else Err(q, InvalidConstant)
    case ResH => Expect(p, ch == 84, ResHT, Strict)
    case ResHT => Expect(p, ch == 84, ResHTT, Strict)
    case ResHTT => Expect(p, ch == 80, ResHTTP, Strict)
    case ResHTTP => Expect(p, ch == 47, ResFirstMajor, Strict)
    case ResFirstMajor => if IsNum(ch) then Go(p.(major := ch - 48, st := ResMajor)) else Err(p, InvalidVersion)
    case ResMajor => if ch == 46 then To(p, ResFirstMinor) else (match Digit(p.major, ch) case None => Err(p, InvalidVersion) case Some(n) => Go(p.(major := n)))
    case ResFirstMinor => if IsNum(ch) then Go(p.(minor := ch - 48, st := ResMinor)) else Err(p, InvalidVersion)
    case ResMinor => if ch == SP then To(p, ResFirstStatus) else (match Digit(p.minor, ch) case None => Err(p, InvalidVersion) case Some(n) => Go(p.(minor := n)))
    case ResFirstStatus =>
      if IsNum(ch) then Go(p.(status := ch - 48, st := ResStatusCode)) else if ch == SP then Go(p) else Err(p, InvalidStatus)
    case ResStatusCode =>
      if ch == SP then To(p, ResStatusStart)
      else if ch == CR then To(p, ResLineAlmostDone)
      else if ch == LF then To(p, HeaderFieldStart)
      else (match Digit(p.status, ch) case None => Err(p, InvalidStatus) case Some(n) => Go(p.(status := n)))
    case ResStatusStart =>
      if ch == CR then To(p, ResLineAlmostDone)
      else if ch == LF then To(p, HeaderFieldStart)
      else Act(p.(st := ResStatus, index := 0), Some(Status), Quiet, None, Advance)
    case ResStatus =>
      if ch == CR then Act(p.(st := ResLineAlmostDone), None, Before(Status), None, Advance)
      else if ch == LF then Act(p.(st := HeaderFieldStart), None, Before(Status), None, Advance)
      else Go(p)
    case _ => Expect(p, ch == LF, HeaderFieldStart, Strict)  // ResLineAlmostDone
  }

  predicate OfResponse(s: St) {
    || s.StartRes? || s.ResH? || s.ResHT? || s.ResHTT? || s.ResHTTP? || s.ResFirstMajor? || s.ResMajor?
    || s.ResFirstMinor? || s.ResMinor? || s.ResFirstStatus? || s.ResStatusCode? || s.ResStatusStart? || s.ResStatus?
    || s.ResLineAlmostDone?
  }

  /** The states of a request line. */
  function ActRequest(p: Ps, ch: Byte): Act {
    match p.st
    case StartReqOrRes =>
      if ch == CR || ch == LF then Go(p)
      else
        var q := p.(flags := NO_FLAGS, length := MAX64);
        if ch == 72 then Say(q.(st := ResOrRespH), MessageBegin) else Retry(q.(kind := Request, st := StartReq))
    case ResOrRespH =>
      if ch == 84 then Go(p.(kind := Response, st := ResHT))
      else if ch == 69 then Go(p.(kind := Request, meth := 2, index := 2, st := ReqMethod))
      else Err(p, InvalidConstant)
    case StartReq =>
      if ch == CR || ch == LF then Go(p)
      else
        var q := p.(flags := NO_FLAGS, length := MAX64);
        (match FirstMethod(ch)
         case None => Err(q, InvalidMethod)
         case Some(m) => Say(q.(meth := m, index := 1, st := ReqMethod), MessageBegin))
    case ReqMethod =>
      if ch == SP && p.index == |MethodName(p.meth)| then Go(p.(index := p.index + 1, st := ReqSpaces))
      else
        (match MethodChar(p.meth, p.index, ch)
         case None => Err(p, InvalidMethod)
         case Some(m) => Go(p.(meth := m, index := p.index + 1)))
    case ReqHttpStart => if ch == SP then Go(p) else Expect(p, ch == 72, ReqHttpH, InvalidConstant)
    case ReqHttpH => Expect(p, ch == 84, ReqHttpHT, Strict)
    case ReqHttpHT => Expect(p, ch == 84, ReqHttpHTT, Strict)
    case ReqHttpHTT => Expect(p, ch == 80, ReqHttpHTTP, Strict)
    case ReqHttpHTTP => Expect(p, ch == 47, ReqFirstMajor, Strict)
    case ReqFirstMajor => if 49 <= ch <= 57 then Go(p.(major := ch - 48, st := ReqMajor)) else Err(p, InvalidVersion)
    case ReqMajor => if ch == 46 then To(p, ReqFirstMinor) else (match Digit(p.major, ch) case None => Err(p, InvalidVersion) case Some(n) => Go(p.(major := n)))
    case ReqFirstMinor => if IsNum(ch) then Go(p.(minor := ch - 48, st := ReqMinor)) else Err(p, InvalidVersion)
    case ReqMinor =>
      if ch == CR then To(p, ReqLineAlmostDone)
      else if ch == LF then To(p, HeaderFieldStart)
      else (match Digit(p.minor, ch) case None => Err(p, InvalidVersion) case Some(n) => Go(p.(minor := n)))
    case ReqLineAlmostDone => Expect(p, ch == LF, HeaderFieldStart, LfExpected)
    case _ => if ch == CR || ch == LF then Go(p) else Err(p, ClosedConnection)  // Dead
  }

  predicate OfRequest(s: St) {
    || s.StartReqOrRes? || s.ResOrRespH? || s.StartReq? || s.ReqMethod? || s.ReqHttpStart? || s.ReqHttpH? || s.ReqHttpHT?
    || s.ReqHttpHTT? || s.ReqHttpHTTP? || s.ReqFirstMajor? || s.ReqMajor? || s.ReqFirstMinor? || s.ReqMinor?
    || s.ReqLineAlmostDone? || s.Dead?
  }

  /** The states of a URL. */
  function ActUrl(p: Ps, ch: Byte): Act {
    if p.st.ReqSpaces? then
      if ch == SP then Go(p)
      else
        var s := UrlChar(if p.meth == 5 then ReqServerStart else ReqSpaces, ch);
        if s == Dead then Err(p, InvalidUrl) else Act(p.(st := s), Some(Url), Quiet, None, Advance)
    else
      var whole := !(p.st.ReqSchema? || p.st.ReqSchemaSlash? || p.st.ReqSchemaSlashSlash? || p.st.ReqServerStart?);
      if ch == SP && whole then Act(p.(st := ReqHttpStart), None, Before(Url), None, Advance)
      else if (ch == CR || ch == LF) && whole then
        Act(p.(major := 0, minor := 9, st := if ch == CR then ReqLineAlmostDone else HeaderFieldStart), None, Before(Url), None, Advance)
      else
        var s := UrlChar(p.st, ch);
        if s == Dead then Err(p, InvalidUrl) else To(p, s)
  }

  /** The first character of a header name. */
  function StartField(p: Ps, c: Byte): Ps {
    p.(index := 0, st := HeaderField,
       hs := if c == 99 then C else if c == 112 then MatchProxy else if c == 116 then MatchEncoding
             else if c == 117 then MatchUpgrade else General)
  }

  /** The first character of a header value. */
  function ActValueStart(p: Ps, ch: Byte): Act {
    var c := Lower(ch);
    var q := p.(st := HeaderValue, index := 0);
    var r := match p.hs
      case UpgradeField => q.(flags := q.flags.(upgrade := true), hs := General)
      case Encoding => q.(hs := if c == 99 then MatchChunked else General)
      case Length => if IsNum(ch) then q.(length := ch - 48) else q
      case Connection => q.(hs := ConnToken(c))
      case TokenStart => q
      case _ => q.(hs := General);
    if p.hs == Length && !IsNum(ch) then Err(q, InvalidContentLength)
    else Act(r, Some(Value), Quiet, None, Advance)
  }

  /** The end of the header section: end of a chunked message's trailer, or of the headers. */
  function ActHeadersAlmostDone(p: Ps, ch: Byte, hc: Settings): Act {
    if ch != LF then Err(p, Strict)
    else if p.flags.trailing then Act(p.(st := MessageDone), None, Quiet, Some(ChunkComplete), Again)
    else
      var q := p.(st := HeadersDone, upgrade := (p.flags.upgrade && p.flags.connUpgrade) || p.meth == 5);
      var f := if hc(q) then q.flags.(skipBody := true) else q.flags;
      Act(q.(flags := f), None, Quiet, Some(HeadersComplete), Again)
  }

  /** How the body is framed. */
  function ActHeadersDone(p: Ps, ch: Byte): Act {
    var hasBody := p.flags.chunked || (p.length > 0 && p.length != MAX64);
    var over := Act(p.(st := NewMessage(p)), None, Quiet, Some(MessageComplete), Advance);
    if ch != LF then Err(p, Strict)
    else if p.upgrade && (p.meth == 5 || p.flags.skipBody || !hasBody) then over.(next := Exit)
    else if p.flags.skipBody then over
    else if p.flags.chunked then To(p, ChunkSizeStart)
    else if p.length == 0 then over
    else if p.length != MAX64 then To(p, BodyIdentity)
    else if p.kind == Request || !NeedsEof(p) then over
    else To(p, BodyIdentityEof)
  }

  /** The states of the header section. */
  function ActHeader(p: Ps, ch: Byte, hc: Settings): Act {
    match p.st
    case HeaderFieldStart =>
      if ch == CR then To(p, HeadersAlmostDone)
      else if ch == LF then Retry(p.(st := HeadersAlmostDone))
      else if TokenOf(ch) == 0 then Err(p, InvalidHeaderToken)
      else Act(StartField(p, TokenOf(ch)), Some(Field), Quiet, None, Advance)
    case HeaderField =>
      if TokenOf(ch) != 0 then Go(FieldChar(p, TokenOf(ch)))
      else if ch == 58 then Act(p.(st := ValueDiscardWs), None, Before(Field), None, Advance)
      else Err(p, InvalidHeaderToken)
    case ValueDiscardWs =>
      if ch == SP || ch == TAB then Go(p)
      else if ch == CR then To(p, ValueDiscardWsAlmostDone)
      else if ch == LF then To(p, ValueDiscardLws)
      else ActValueStart(p, ch)
    case HeaderValueStart => ActValueStart(p, ch)
    case HeaderValue =>
      if ch == CR then Act(p.(st := HeaderAlmostDone), None, Before(Value), None, Advance)
      else if ch == LF then Act(p.(st := HeaderAlmostDone), None, Before(Value), None, Again)
      else (match ValueChar(p, ch) case None => Err(p, InvalidContentLength) case Some(q) => Go(q))
    case HeaderAlmostDone => Expect(p, ch == LF, HeaderValueLws, Strict)
    case HeaderValueLws =>
      if ch == SP || ch == TAB then Retry(p.(st := HeaderValueStart))
      else Retry(p.(flags := SetFlag(p.flags, p.hs), st := HeaderFieldStart))
    case ValueDiscardWsAlmostDone => Expect(p, ch == LF, ValueDiscardLws, Strict)
    case ValueDiscardLws =>
      if ch == SP || ch == TAB then To(p, ValueDiscardWs)
      else Act(p.(flags := SetFlag(p.flags, p.hs), st := HeaderFieldStart), Some(Value), Before(Value), None, Again)
    case HeadersAlmostDone => ActHeadersAlmostDone(p, ch, hc)
    case _ => ActHeadersDone(p, ch)
  }

  predicate OfHeader(s: St) {
    || s.HeaderFieldStart? || s.HeaderField? || s.ValueDiscardWs? || s.ValueDiscardWsAlmostDone? || s.ValueDiscardLws?
    || s.HeaderValueStart? || s.HeaderValue? || s.HeaderValueLws? || s.HeaderAlmostDone? || s.HeadersAlmostDone? || s.HeadersDone?
  }

  /** The states of the body, as if one byte of it were read at a time. */
  function ActBody(p: Ps, ch: Byte): Act {
    match p.st
    case BodyIdentity =>
      var q := p.(length := if p.length > 0 then p.length - 1 else 0);
      if q.length == 0 then Act(q.(st := MessageDone), Some(Body), Including(Body), None, Again)
      else Act(q, Some(Body), Quiet, None, Advance)
    case BodyIdentityEof => Act(p, Some(Body), Quiet, None, Advance)
    case MessageDone =>
      Act(p.(st := NewMessage(p)), None, Quiet, Some(MessageComplete), if p.upgrade then Exit else Advance)
    case ChunkSizeStart =>
      if Unhex(ch) == -1 then Err(p, InvalidChunkSize) else Go(p.(length := Unhex(ch), st := ChunkSize))
    case ChunkSize =>
      if ch == CR then To(p, ChunkSizeAlmostDone)
      else if Unhex(ch) == -1 then Expect(p, ch == 59 || ch == SP, ChunkParameters, InvalidChunkSize)
      else if (MAX64 - 16) / 16 < p.length then Err(p, InvalidContentLength)
      else Go(p.(length := p.length * 16 + Unhex(ch)))
    case ChunkParameters => if ch == CR then To(p, ChunkSizeAlmostDone) else Go(p)
    case ChunkSizeAlmostDone =>
      if ch != LF then Err(p, Strict)
      else if p.length == 0 then Say(p.(flags := p.flags.(trailing := true), st := HeaderFieldStart), ChunkHeader(0))
      else Say(p.(st := ChunkData), ChunkHeader(p.length))
    case ChunkData =>
      var q := p.(length := if p.length > 0 then p.length - 1 else 0);
      Act(if q.length == 0 then q.(st := ChunkDataAlmostDone) else q, Some(Body), Quiet, None, Advance)
    case ChunkDataAlmostDone =>
      if ch == CR then Act(p.(st := ChunkDataDone), None, Before(Body), None, Advance) else Err(p, Strict)
    case _ =>  // ChunkDataDone
      if ch == LF then Say(p.(st := ChunkSizeStart), ChunkComplete) else Err(p, Strict)
  }

  function Pass(p: Ps, ch: Byte, hc: Settings): Act {
    if OfResponse(p.st) then ActResponse(p, ch)
    else if OfRequest(p.st) then ActRequest(p, ch)
    else if OfUrl(p.st) then ActUrl(p, ch)
    else if OfHeader(p.st) then ActHeader(p, ch, hc)
    else ActBody(p, ch)
  }

  /** How often the switch can still be entered again for one byte. */
  function Rank(s: St): nat {
    match s
    case HeaderValueLws => 4
    case ValueDiscardLws => 4
    case HeaderFieldStart => 3
    case HeadersAlmostDone => 2
    case HeaderValue => 1
    case StartReqOrRes => 1
    case BodyIdentity => 1
    case _ => 0
  }

  predicate OfUrl(s: St) { s.ReqSpaces? || InUrl(s) }

  predicate OfBody(s: St) { !OfResponse(s) && !OfRequest(s) && !OfUrl(s) && !OfHeader(s) }

  lemma RankResponse(p: Ps, ch: Byte)
    requires OfResponse(p.st)
    ensures ActResponse(p, ch).next == Again ==> Rank(ActResponse(p, ch).ps.st) < Rank(p.st)
  {
  }

  lemma RankRequest(p: Ps, ch: Byte)
    requires OfRequest(p.st)
    ensures ActRequest(p, ch).next == Again ==> Rank(ActRequest(p, ch).ps.st) < Rank(p.st)
  {
  }

  lemma RankUrl(p: Ps, ch: Byte)
    requires OfUrl(p.st)
    ensures ActUrl(p, ch).next == Again ==> Rank(ActUrl(p, ch).ps.st) < Rank(p.st)
  {
  }

  lemma RankHeader(p: Ps, ch: Byte, hc: Settings)
    requires OfHeader(p.st)
    ensures ActHeader(p, ch, hc).next == Again ==> Rank(ActHeader(p, ch, hc).ps.st) < Rank(p.st)
  {
  }

  lemma RankBody(p: Ps, ch: Byte)
    requires OfBody(p.st)
    ensures ActBody(p, ch).next == Again ==> Rank(ActBody(p, ch).ps.st) < Rank(p.st)
  {
  }

  lemma PassRank(p: Ps, ch: Byte, hc: Settings)
    ensures Pass(p, ch, hc).next == Again ==> Rank(Pass(p, ch, hc).ps.st) < Rank(p.st)
  {
    hide ActResponse, ActRequest, ActUrl, ActHeader, ActBody, Rank;
    if OfResponse(p.st) { RankResponse(p, ch); }
    else if OfRequest(p.st) { RankRequest(p, ch); }
    else if OfUrl(p.st) { RankUrl(p, ch); }
    else if OfHeader(p.st) { RankHeader(p, ch, hc); }
    else { RankBody(p, ch); }
  }

  /** Which part of the switch a state belongs to. */
  lemma PassOf(p: Ps, ch: Byte, hc: Settings)
    ensures OfBody(p.st) ==> Pass(p, ch, hc) == ActBody(p, ch)
    ensures OfHeader(p.st) ==> Pass(p, ch, hc) == ActHeader(p, ch, hc)
    ensures OfUrl(p.st) ==> Pass(p, ch, hc) == ActUrl(p, ch)
    ensures OfRequest(p.st) ==> Pass(p, ch, hc) == ActRequest(p, ch)
    ensures OfResponse(p.st) ==> Pass(p, ch, hc) == ActResponse(p, ch)
  {
    hide ActResponse, ActRequest, ActUrl, ActHeader, ActBody;
  }

  /* ---- One byte, and whole inputs ---- */

  datatype Result = Going(ps: Ps, out: seq<Event>) | Failed(err: Error, at: nat) | Exited(ps: Ps, out: seq<Event>, at: nat)

  /** The kind of data a byte is when the parser is in state s after it. */
  function KindOf(s: St): Option<Kind> {
    if s.HeaderField? then Some(Field)
    else if s.HeaderValue? then Some(Value)
    else if InUrl(s) then Some(Url)
    else if s.ResStatus? then Some(Status)
    else None
  }

  predicate InBody(s: St) { s.BodyIdentity? || s.BodyIdentityEof? || s.ChunkData? }

  /** The events of one pass from state s: the byte itself, if it is body (told from the state before)
      or other data (told from the state after), then the notification. */
  function PassEvents(s: St, a: Act, ch: Byte): seq<Event> {
    PassData(s, a, ch) + Told(a)
  }

  function PassData(s: St, a: Act, ch: Byte): seq<Event> {
    if InBody(s) then [Data(Body, ch)]
    else if a.next == Advance && KindOf(a.ps.st).Some? then [Data(KindOf(a.ps.st).value, ch)] else []
  }

  function Told(a: Act): seq<Event> { if a.note.Some? then [Notify(a.note.value)] else [] }

  function Prefix(out: seq<Event>, n: nat, r: Result): Result {
    match r
    case Going(p, o) => Going(p, out + o)
    case Failed(e, k) => Failed(e, n + k)
    case Exited(p, o, k) => Exited(p, out + o, n + k)
  }

  /** One byte. */
  function Step(p: Ps, ch: Byte, hc: Settings): Result
    decreases Rank(p.st)
  {
    PassRank(p, ch, hc);
    var a := Pass(p, ch, hc);
    match a.next
    case Advance => Going(a.ps, PassEvents(p.st, a, ch))
    case Fail(e) => Failed(e, 0)
    case Exit => Exited(a.ps, PassEvents(p.st, a, ch), 0)
    case Again => Prefix(PassEvents(p.st, a, ch), 0, Step(a.ps, ch, hc))
  }

  /** A whole input, byte by byte; an error or an upgrade ends it. */
  function Run(p: Ps, data: seq<Byte>, hc: Settings): Result
    decreases |data|
  {
    if data == [] then Going(p, [])
    else
      var r := Run(p, data[..|data| - 1], hc);
      if r.Going? then Prefix(r.out, |data| - 1, Step(r.ps, data[|data| - 1], hc)) else r
  }
}
