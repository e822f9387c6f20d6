/** The switch of `http_parser_execute`, one byte at a time, as a function of the parser's
    fields: the new fields, what to do with the marks and callbacks, and how to go on. */
module HttpSwitch {
  import opened Wrappers
  import opened HttpTypes

  /** Mark sets a mark, Flush makes the data callback for a marked string and clears the
      mark, Fire makes a notification callback. Byte says that the current byte belongs
      to the string marked for its part. */
  datatype Act = Mark(part: Part) | Byte(part: Part) | Flush(part: Part) | Fire(what: Notice)

  /** Advance takes the next byte, Again is `goto reexecute`, Leave is the exit to another
      protocol, Stop is `goto error`. */
  datatype Next = Advance | Again | Leave | Stop

  datatype Move = Move(p: Parser, acts: seq<Act>, next: Next)

  function To(p: Parser, s: State): Move { Move(p.(state := s), [], Advance) }

  function Stay(p: Parser): Move { Move(p, [], Advance) }

  function Fail(p: Parser, e: Errno): Move { Move(p.(errno := e), [], Stop) }

  /** STRICT_CHECK(ch != want), then the next state. */
  function Expect(p: Parser, ch: char, want: char, s: State): Move {
    if ch == want then To(p, s) else Fail(p, Strict)
  }

  /* ---- What the fields say about the message ---- */

  predicate NeedsEof(p: Parser) {
    !p.kind.Request? && p.status / 100 != 1 && p.status != 204 && p.status != 304
    && !p.flags.chunked && p.contentLength == NO_LENGTH
  }

  predicate ShouldKeepAlive(p: Parser) {
    (if p.major > 0 && p.minor > 0 then !p.flags.close else p.flags.keepAlive) && !NeedsEof(p)
  }

  /** NEW_MESSAGE() of strict mode. */
  function NewMessage(p: Parser): State {
    if !ShouldKeepAlive(p) then Dead else if p.kind.Request? then StartReq else StartRes
  }

  /* ---- URLs ---- */

  /** `parse_url_char`. */
  function ParseUrlChar(s: State, ch: char): State {
    if ch == ' ' || ch == CR || ch == LF || ch == '\t' || ch == '\U{C}' then Dead
    else match s
      case ReqSpacesBeforeUrl =>
        if ch == '/' || ch == '*' then ReqPath else if IsAlpha(ch) then ReqSchema else Dead
      case ReqSchema =>
        if IsAlpha(ch) then ReqSchema else if ch == ':' then ReqSchemaSlash else Dead
      case ReqSchemaSlash =>
        if ch == '/' then ReqSchemaSlashSlash else Dead
      case ReqSchemaSlashSlash =>
        if ch == '/' then ReqServerStart else Dead
      case ReqServerWithAt =>
        if ch == '@' then Dead else ParseServerChar(ch)
      case ReqServerStart => ParseServerChar(ch)
      case ReqServer => ParseServerChar(ch)
      case ReqPath =>
        if IsUrlChar(ch) then ReqPath
        else if ch == '?' then ReqQueryStringStart else if ch == '#' then ReqFragmentStart else Dead
      case ReqQueryStringStart => ParseQueryChar(ch)
      case ReqQueryString => ParseQueryChar(ch)
      case ReqFragmentStart =>
        if IsUrlChar(ch) || ch == '?' then ReqFragment else if ch == '#' then ReqFragmentStart else Dead
      case ReqFragment =>
        if IsUrlChar(ch) || ch == '?' || ch == '#' then ReqFragment else Dead
      case _ => Dead
  }

  function ParseServerChar(ch: char): State {
    if ch == '/' then ReqPath
    else if ch == '?' then ReqQueryStringStart
    else if ch == '@' then ReqServerWithAt
    else if IsUserinfoChar(ch) || ch == '[' || ch == ']' then ReqServer
    else Dead
  }

  function ParseQueryChar(ch: char): State {
    if IsUrlChar(ch) || ch == '?' then ReqQueryString else if ch == '#' then ReqFragmentStart else Dead
  }

  /** A URL byte: `UPDATE_STATE(parse_url_char(..))` and the check for `s_dead` after it. */
  function UrlMove(p: Parser, from: State, ch: char, acts: seq<Act>): Move {
    var s := ParseUrlChar(from, ch);
    if s.Dead? then Fail(p.(state := Dead), InvalidUrl) else Move(p.(state := s), acts, Advance)
  }

  /* ---- Request methods ---- */

  /** The method the first byte selects. */
  function FirstMethod(ch: char): Option<Method> {
    match ch
    case 'A' => Some(ACL)
    case 'B' => Some(BIND)
    case 'C' => Some(CONNECT)
    case 'D' => Some(DELETE)
    case 'G' => Some(GET)
    case 'H' => Some(HEAD)
    case 'L' => Some(LOCK)
    case 'M' => Some(MKCOL)
    case 'N' => Some(NOTIFY)
    case 'O' => Some(OPTIONS)
    case 'P' => Some(POST)
    case 'R' => Some(REPORT)
    case 'S' => Some(SUBSCRIBE)
    case 'T' => Some(TRACE)
    case 'U' => Some(UNLOCK)
    case _ => None
  }

  /** The method taken instead of `m` when byte number `index` differs from its name. */
  function OtherMethod(m: Method, index: nat, ch: char): Option<Method> {
    match m
    case CONNECT =>
      if index == 1 && ch == 'H' then Some(CHECKOUT)
      else if index == 2 && ch == 'P' then Some(COPY) else None
    case MKCOL =>
      if index == 1 && ch == 'O' then Some(MOVE)
      else if index == 1 && ch == 'E' then Some(MERGE)
      else if index == 1 && ch == '-' then Some(MSEARCH)
      else if index == 2 && ch == 'A' then Some(MKACTIVITY)
      else if index == 3 && ch == 'A' then Some(MKCALENDAR) else None
    case SUBSCRIBE => if index == 1 && ch == 'E' then Some(SEARCH) else None
    case REPORT => if index == 2 && ch == 'B' then Some(REBIND) else None
    case POST =>
      if index != 1 then None
      else if ch == 'R' then Some(PROPFIND)
      else if ch == 'U' then Some(PUT)
      else if ch == 'A' then Some(PATCH) else None
    case PUT => if index == 2 && ch == 'R' then Some(PURGE) else None
    case UNLOCK =>
      if index != 2 then None
      else if ch == 'S' then Some(UNSUBSCRIBE) else if ch == 'B' then Some(UNBIND) else None
    case PROPFIND => if index == 4 && ch == 'P' then Some(PROPPATCH) else None
    case _ => None
  }

  function MethodMove(p: Parser, ch: char): Move {
    var want := CharAt(MethodName(p.verb), p.index);
    if ch == '\0' then Fail(p, InvalidMethod)
    else if ch == ' ' && want == '\0' then To(p.(index := p.index + 1), ReqSpacesBeforeUrl)
    else if ch == want then Stay(p.(index := p.index + 1))
    else match OtherMethod(p.verb, p.index, ch)
      case Some(m) => Stay(p.(verb := m, index := p.index + 1))
      case None => Fail(p, InvalidMethod)
  }

  /* ---- Header names and values ---- */

  /** One byte of a keyword: `index` counts the bytes matched after the first. */
  function MatchWord(word: string, index: nat, c: char, busy: HeaderState, done: HeaderState, miss: HeaderState)
    : HeaderState
  {
    if index > |word| || c != CharAt(word, index) then miss
    else if index + 1 == |word| then done
    else busy
  }

  /** One byte of a header name: the new header_state and index. `c` is TOKEN(ch). */
  function FieldByte(h: HeaderState, index: nat, ch: char, c: char): (HeaderState, nat) {
    match h
    case C => (if c == 'o' then CO else General, index + 1)
    case CO => (if c == 'n' then CON else General, index + 1)
    case CON =>
      (if c == 'n' then MatchingConnection else if c == 't' then MatchingContentLength else General, index + 1)
    case MatchingConnection =>
      (MatchWord("connection", index + 1, c, h, Connection, General), index + 1)
    case MatchingProxyConnection =>
      (MatchWord("proxy-connection", index + 1, c, h, Connection, General), index + 1)
    case MatchingContentLength =>
      (MatchWord("content-length", index + 1, c, h, ContentLength, General), index + 1)
    case MatchingTransferEncoding =>
      (MatchWord("transfer-encoding", index + 1, c, h, TransferEncoding, General), index + 1)
    case MatchingUpgrade =>
      (MatchWord("upgrade", index + 1, c, h, Upgrade, General), index + 1)
    case Connection => (if ch != ' ' then General else h, index)
    case ContentLength => (if ch != ' ' then General else h, index)
    case TransferEncoding => (if ch != ' ' then General else h, index)
    case Upgrade => (if ch != ' ' then General else h, index)
    case _ => (h, index)
  }

  /** The header_state that the first byte of a header name selects. */
  function FieldStart(c: char): HeaderState {
    match c
    case 'c' => C
    case 'p' => MatchingProxyConnection
    case 't' => MatchingTransferEncoding
    case 'u' => MatchingUpgrade
    case _ => General
  }

  function FieldMove(p: Parser, ch: char): Move {
    var c := Token(ch);
    if c != '\0' then
      var (h, i) := FieldByte(p.header, p.index, ch, c);
      Move(p.(header := h, index := i), [Byte(Field)], Advance)
    else if ch == ':' then Move(p.(state := HeaderValueDiscardWs), [Flush(Field)], Advance)
    else Fail(p, InvalidHeaderToken)
  }

  function FieldStartMove(p: Parser, ch: char): Move {
    if ch == CR then To(p, HeadersAlmostDone)
    else if ch == LF then Move(p.(state := HeadersAlmostDone), [], Again)
    else if Token(ch) == '\0' then Fail(p, InvalidHeaderToken)
    else Move(p.(state := HeaderField, index := 0, header := FieldStart(Token(ch))), [Mark(Field), Byte(Field)], Advance)
  }

  /** The flag that a completed header value sets. */
  function ValueDone(f: Flags, h: HeaderState): Flags {
    match h
    case ConnKeepAlive => f.(keepAlive := true)
    case ConnClose => f.(close := true)
    case ConnUpgrade => f.(connUpgrade := true)
    case Chunked => f.(chunked := true)
    case _ => f
  }

  /** The first byte of a header value, or of its continuation on a new line. */
  function ValueStartMove(p: Parser, ch: char): Move {
    var c := Lower(ch);
    var q := p.(state := HeaderValue, index := 0);
    var acts := [Mark(Value), Byte(Value)];
    match p.header
    case Upgrade => Move(q.(flags := q.flags.(upgrade := true), header := General), acts, Advance)
    case TransferEncoding => Move(q.(header := if c == 'c' then MatchingChunked else General), acts, Advance)
    case ContentLength =>
      if IsNum(ch) then Move(q.(contentLength := ch as int - '0' as int), acts, Advance)
      else Fail(q, InvalidContentLength)
    case Connection => Move(q.(header := ConnectionToken(c)), acts, Advance)
    case MatchingTokenStart => Move(q, acts, Advance)
    case _ => Move(q.(header := General), acts, Advance)
  }

  function ConnectionToken(c: char): HeaderState {
    if c == 'k' then MatchingKeepAlive
    else if c == 'c' then MatchingClose
    else if c == 'u' then MatchingConnUpgrade
    else MatchingToken
  }

  /** One byte of a header value other than CR and LF, except for Content-Length: the new
      header_state, index and flags. */
  function ValueByte(h: HeaderState, index: nat, f: Flags, ch: char): (HeaderState, nat, Flags) {
    var c := Lower(ch);
    match h
    case Connection => (h, index, f)
    case TransferEncoding => (h, index, f)
    case MatchingChunked => (MatchWord("chunked", index + 1, c, h, Chunked, General), index + 1, f)
    case MatchingTokenStart =>
      (if c == 'k' || c == 'c' || c == 'u' || Token(c) != '\0' then ConnectionToken(c)
       else if c == ' ' || c == '\t' then h
       else General, index, f)
    case MatchingKeepAlive =>
      (MatchWord("keep-alive", index + 1, c, h, ConnKeepAlive, MatchingToken), index + 1, f)
    case MatchingClose =>
      (MatchWord("close", index + 1, c, h, ConnClose, MatchingToken), index + 1, f)
    case MatchingConnUpgrade =>
      (MatchWord("upgrade", index + 1, c, h, ConnUpgrade, MatchingToken), index + 1, f)
    case MatchingToken => if ch == ',' then (MatchingTokenStart, 0, f) else (h, index, f)
    case Chunked => (if ch != ' ' then General else h, index, f)
    case ConnKeepAlive => TokenEnd(h, index, f, ch)
    case ConnClose => TokenEnd(h, index, f, ch)
    case ConnUpgrade => TokenEnd(h, index, f, ch)
    case _ => (General, index, f)
  }

  /** The byte after a recognised token of a `Connection` value. */
  function TokenEnd(h: HeaderState, index: nat, f: Flags, ch: char): (HeaderState, nat, Flags) {
    if ch == ',' then (MatchingTokenStart, 0, ValueDone(f, h))
    else if ch != ' ' then (MatchingToken, index, f)
    else (h, index, f)
  }

  /** One byte of a Content-Length value: spaces are skipped, and the length so far is
      tested against a limit before the digit is added. */
  function LengthByte(length: nat, ch: char): Option<nat> {
    if ch == ' ' then Some(length)
    else if !IsNum(ch) || (NO_LENGTH - 10) / 10 < length then None
    else Some(length * 10 + (ch as int - '0' as int))
  }

  function ValueMove(p: Parser, ch: char): Move {
    if ch == CR then Move(p.(state := HeaderAlmostDone), [Flush(Value)], Advance)
    else if ch == LF then Move(p.(state := HeaderAlmostDone), [Flush(Value)], Again)
    else if p.header.ContentLength? then
      match LengthByte(p.contentLength, ch)
      case Some(n) => Move(p.(contentLength := n), [Byte(Value)], Advance)
      case None => Fail(p, InvalidContentLength)
    else
      var (h, i, f) := ValueByte(p.header, p.index, p.flags, ch);
      Move(p.(header := h, index := i, flags := f), [Byte(Value)], Advance)
  }

  /* ---- The end of the headers, and bodies ---- */

  function HeadersEndMove(p: Parser, ch: char): Move {
    if ch != LF then Fail(p, Strict)
    else if p.flags.trailing then Move(p.(state := MessageDone), [Fire(ChunkComplete)], Again)
    else Move(p.(state := HeadersDone, upgrade := (p.flags.upgrade && p.flags.connUpgrade) || p.verb.CONNECT?),
              [Fire(HeadersComplete)], Again)
  }

  /** How the body is delimited. */
  function HeadersDoneMove(p: Parser, ch: char): Move {
    var hasBody := p.flags.chunked || (p.contentLength > 0 && p.contentLength != NO_LENGTH);
    var complete := Move(p.(state := NewMessage(p)), [Fire(MessageComplete)], Advance);
    if ch != LF then Fail(p, Strict)
    else if p.upgrade && (p.verb.CONNECT? || !hasBody) then complete.(next := Leave)
    else if p.flags.chunked then To(p, ChunkSizeStart)
    else if p.contentLength == 0 then complete
    else if p.contentLength != NO_LENGTH then To(p, BodyIdentity)
    else if !NeedsEof(p) then complete
    else To(p, BodyIdentityEof)
  }

  /** One byte of a body of known length; the last one also ends the message. */
  function BodyMove(p: Parser): Move {
    if p.contentLength <= 1
    then Move(p.(contentLength := 0, state := MessageDone), [Byte(Body)], Again)
    else Move(p.(contentLength := p.contentLength - 1), [Byte(Body)], Advance)
  }

  function ChunkSizeMove(p: Parser, ch: char): Move {
    if ch == CR then To(p, ChunkSizeAlmostDone)
    else if Unhex(ch) == -1 then
      if ch == ';' || ch == ' ' then To(p, ChunkParameters) else Fail(p, InvalidChunkSize)
    else if (NO_LENGTH - 16) / 16 < p.contentLength then Fail(p, InvalidContentLength)
    else Stay(p.(contentLength := p.contentLength * 16 + Unhex(ch)))
  }

  function ChunkDataMove(p: Parser): Move {
    if p.contentLength <= 1
    then Move(p.(contentLength := 0, state := ChunkDataAlmostDone), [Byte(Body)], Advance)
    else Move(p.(contentLength := p.contentLength - 1), [Byte(Body)], Advance)
  }

  function ChunkSizeEndMove(p: Parser, ch: char): Move {
    var acts := [Fire(ChunkHeader(p.contentLength))];
    if ch != LF then Fail(p, Strict)
    else if p.contentLength == 0
    then Move(p.(flags := p.flags.(trailing := true), state := HeaderFieldStart), acts, Advance)
    else Move(p.(state := ChunkData), acts, Advance)
  }

  /* ---- Version and status numbers ---- */

  /** A further digit of a number that may not exceed 999. */
  function MoreDigits(n: nat, ch: char): nat
    requires IsNum(ch)
  {
    n * 10 + (ch as int - '0' as int)
  }

  function MajorMove(p: Parser, ch: char, afterDot: State): Move {
    if ch == '.' then To(p, afterDot)
    else if !IsNum(ch) then Fail(p, InvalidVersion)
    else
      var q := p.(major := MoreDigits(p.major, ch));
      if q.major > 999 then Fail(q, InvalidVersion) else Stay(q)
  }

  function MinorMove(p: Parser, ch: char): Move {
    if !IsNum(ch) then Fail(p, InvalidVersion)
    else
      var q := p.(minor := MoreDigits(p.minor, ch));
      if q.minor > 999 then Fail(q, InvalidVersion) else Stay(q)
  }

  function StatusMove(p: Parser, ch: char): Move {
    if !IsNum(ch) then
      if ch == ' ' then To(p, ResStatusStart)
      else if ch == CR then To(p, ResLineAlmostDone)
      else if ch == LF then To(p, HeaderFieldStart)
      else Fail(p, InvalidStatus)
    else
      var q := p.(status := MoreDigits(p.status, ch));
      if q.status > 999 then Fail(q, InvalidStatus) else Stay(q)
  }

  /* ---- The switch ---- */

  function Fresh(p: Parser): Parser { p.(flags := NO_FLAGS, contentLength := NO_LENGTH) }

  function StartReqMove(p: Parser, ch: char): Move {
    if ch == CR || ch == LF then Stay(p)
    else match FirstMethod(ch)
      case Some(m) => Move(Fresh(p).(verb := m, index := 1, state := ReqMethod), [Fire(MessageBegin)], Advance)
      case None =>
        Fail(if IsAlpha(ch) then Fresh(p).(verb := DELETE, index := 1) else Fresh(p), InvalidMethod)
  }

  function UrlEndMove(p: Parser, ch: char): Move {
    if ch == ' ' then Move(p.(state := ReqHttpStart), [Flush(Url)], Advance)
    else if ch == CR || ch == LF
    then Move(p.(major := 0, minor := 9, state := if ch == CR then ReqLineAlmostDone else HeaderFieldStart),
              [Flush(Url)], Advance)
    else UrlMove(p, p.state, ch, [Byte(Url)])
  }

  function UrlInnerMove(p: Parser, ch: char): Move {
    if ch == ' ' || ch == CR || ch == LF then Fail(p, InvalidUrl) else UrlMove(p, p.state, ch, [Byte(Url)])
  }

  function StartSwitch(p: Parser, ch: char): Move {
    match p.state
    case StartReqOrRes =>
      if ch == CR || ch == LF then Stay(p)
      else if ch == 'H' then Move(Fresh(p).(state := ResOrRespH), [Fire(MessageBegin)], Advance)
      else Move(Fresh(p).(kind := Request, state := StartReq), [], Again)
    case ResOrRespH =>
      if ch == 'T' then To(p.(kind := Response), ResHT)
      else if ch == 'E' then To(p.(kind := Request, verb := HEAD, index := 2), ReqMethod)
      else Fail(p, InvalidConstant)
    case StartRes =>
      if ch == 'H' then Move(Fresh(p).(state := ResH), [Fire(MessageBegin)], Advance)
      else if ch == CR || ch == LF then Move(Fresh(p), [Fire(MessageBegin)], Advance)
      else Fail(Fresh(p), InvalidConstant)
    case StartReq => StartReqMove(p, ch)
    case _ => if ch == CR || ch == LF then Stay(p) else Fail(p, ClosedConnection)
  }

  /** The constants of a start line. */
  function ConstantSwitch(p: Parser, ch: char): Move {
    match p.state
    case ResH => Expect(p, ch, 'T', ResHT)
    case ResHT => Expect(p, ch, 'T', ResHTT)
    case ResHTT => Expect(p, ch, 'P', ResHTTP)
    case ResHTTP => Expect(p, ch, '/', ResFirstHttpMajor)
    case ResLineAlmostDone => Expect(p, ch, LF, HeaderFieldStart)
    case ReqHttpStart =>
      if ch == 'H' then To(p, ReqHttpH) else if ch == ' ' then Stay(p) else Fail(p, InvalidConstant)
    case ReqHttpH => Expect(p, ch, 'T', ReqHttpHT)
    case ReqHttpHT => Expect(p, ch, 'T', ReqHttpHTT)
    case ReqHttpHTT => Expect(p, ch, 'P', ReqHttpHTTP)
    case ReqHttpHTTP => Expect(p, ch, '/', ReqFirstHttpMajor)
    case _ => if ch == LF then To(p, HeaderFieldStart) else Fail(p, LfExpected)
  }

  /** The numbers of a start line. */
  function NumberSwitch(p: Parser, ch: char): Move {
    match p.state
    case ResFirstHttpMajor =>
      if IsNum(ch) then To(p.(major := MoreDigits(0, ch)), ResHttpMajor) else Fail(p, InvalidVersion)
    case ResHttpMajor => MajorMove(p, ch, ResFirstHttpMinor)
    case ResFirstHttpMinor =>
      if IsNum(ch) then To(p.(minor := MoreDigits(0, ch)), ResHttpMinor) else Fail(p, InvalidVersion)
    case ResHttpMinor => if ch == ' ' then To(p, ResFirstStatusCode) else MinorMove(p, ch)
    case ReqFirstHttpMajor =>
      if '1' <= ch <= '9' then To(p.(major := MoreDigits(0, ch)), ReqHttpMajor) else Fail(p, InvalidVersion)
    case ReqHttpMajor => MajorMove(p, ch, ReqFirstHttpMinor)
    case ReqFirstHttpMinor =>
      if IsNum(ch) then To(p.(minor := MoreDigits(0, ch)), ReqHttpMinor) else Fail(p, InvalidVersion)
    case _ =>
      if ch == CR then To(p, ReqLineAlmostDone)
      else if ch == LF then To(p, HeaderFieldStart) else MinorMove(p, ch)
  }

  function StatusSwitch(p: Parser, ch: char): Move {
    match p.state
    case ResFirstStatusCode =>
      if IsNum(ch) then To(p.(status := MoreDigits(0, ch)), ResStatusCode)
      else if ch == ' ' then Stay(p) else Fail(p, InvalidStatus)
    case ResStatusCode => StatusMove(p, ch)
    case ResStatusStart =>
      if ch == CR then To(p, ResLineAlmostDone)
      else if ch == LF then To(p, HeaderFieldStart)
      else Move(p.(state := ResStatus, index := 0), [Mark(Part.Status), Byte(Part.Status)], Advance)
    case _ =>
      if ch == CR then Move(p.(state := ResLineAlmostDone), [Flush(Part.Status)], Advance)
      else if ch == LF then Move(p.(state := HeaderFieldStart), [Flush(Part.Status)], Advance)
      else Move(p, [Byte(Part.Status)], Advance)
  }

  function UrlSwitch(p: Parser, ch: char): Move {
    match p.state
    case ReqSpacesBeforeUrl =>
      if ch == ' ' then Stay(p)
      else UrlMove(p, if p.verb.CONNECT? then ReqServerStart else p.state, ch, [Mark(Url), Byte(Url)])
    case ReqSchema | ReqSchemaSlash | ReqSchemaSlashSlash | ReqServerStart => UrlInnerMove(p, ch)
    case _ => UrlEndMove(p, ch)
  }

  /** Between header names and header values. */
  function HeaderSwitch(p: Parser, ch: char): Move {
    match p.state
    case HeaderFieldStart => FieldStartMove(p, ch)
    case HeaderValueDiscardWs =>
      if ch == ' ' || ch == '\t' then Stay(p)
      else if ch == CR then To(p, HeaderValueDiscardWsAlmostDone)
      else if ch == LF then To(p, HeaderValueDiscardLws)
      else ValueStartMove(p, ch)
    case HeaderValueDiscardWsAlmostDone => Expect(p, ch, LF, HeaderValueDiscardLws)
    case HeaderValueDiscardLws =>
      if ch == ' ' || ch == '\t' then To(p, HeaderValueDiscardWs)
      else Move(p.(flags := ValueDone(p.flags, p.header), state := HeaderFieldStart),
                [Mark(Value), Flush(Value)], Again)
    case HeaderValueStart => ValueStartMove(p, ch)
    case HeaderAlmostDone => Expect(p, ch, LF, HeaderValueLws)
    case _ =>
      if ch == ' ' || ch == '\t' then Move(p.(state := HeaderValueStart), [], Again)
      else Move(p.(flags := ValueDone(p.flags, p.header), state := HeaderFieldStart), [], Again)
  }

  /** The end of the headers and the end of the message. */
  function EndSwitch(p: Parser, ch: char): Move {
    match p.state
    case HeadersAlmostDone => HeadersEndMove(p, ch)
    case HeadersDone => HeadersDoneMove(p, ch)
    case _ =>
      Move(p.(state := NewMessage(p)), [Fire(MessageComplete)], if p.upgrade then Leave else Advance)
  }

  /** The framing of chunks. */
  function ChunkSwitch(p: Parser, ch: char): Move {
    match p.state
    case ChunkSizeStart =>
      if Unhex(ch) == -1 then Fail(p, InvalidChunkSize) else To(p.(contentLength := Unhex(ch)), ChunkSize)
    case ChunkSize => ChunkSizeMove(p, ch)
    case ChunkParameters => if ch == CR then To(p, ChunkSizeAlmostDone) else Stay(p)
    case ChunkSizeAlmostDone => ChunkSizeEndMove(p, ch)
    case ChunkDataAlmostDone =>
      if ch == CR then Move(p.(state := ChunkDataDone), [Flush(Body)], Advance) else Fail(p, Strict)
    case _ =>
      if ch == LF then Move(p.(state := ChunkSizeStart), [Fire(ChunkComplete)], Advance) else Fail(p, Strict)
  }

  function Switch(p: Parser, ch: char): Move {
    match p.state
    case Dead | StartReqOrRes | ResOrRespH | StartRes | StartReq => StartSwitch(p, ch)
    case ResH | ResHT | ResHTT | ResHTTP | ResLineAlmostDone
      | ReqHttpStart | ReqHttpH | ReqHttpHT | ReqHttpHTT | ReqHttpHTTP | ReqLineAlmostDone => ConstantSwitch(p, ch)
    case ResFirstHttpMajor | ResHttpMajor | ResFirstHttpMinor | ResHttpMinor
      | ReqFirstHttpMajor | ReqHttpMajor | ReqFirstHttpMinor | ReqHttpMinor => NumberSwitch(p, ch)
    case ResFirstStatusCode | ResStatusCode | ResStatusStart | ResStatus => StatusSwitch(p, ch)
    case ReqMethod => MethodMove(p, ch)
    case ReqSpacesBeforeUrl | ReqSchema | ReqSchemaSlash | ReqSchemaSlashSlash | ReqServerStart | ReqServer
      | ReqServerWithAt | ReqPath | ReqQueryStringStart | ReqQueryString | ReqFragmentStart | ReqFragment =>
      UrlSwitch(p, ch)
    case HeaderField => FieldMove(p, ch)
    case HeaderValue => ValueMove(p, ch)
    case HeaderFieldStart | HeaderValueDiscardWs | HeaderValueDiscardWsAlmostDone | HeaderValueDiscardLws
      | HeaderValueStart | HeaderValueLws | HeaderAlmostDone => HeaderSwitch(p, ch)
    case HeadersAlmostDone | HeadersDone | MessageDone => EndSwitch(p, ch)
    case ChunkSizeStart | ChunkSize | ChunkParameters | ChunkSizeAlmostDone | ChunkDataAlmostDone
      | ChunkDataDone => ChunkSwitch(p, ch)
    case ChunkData => ChunkDataMove(p)
    case BodyIdentity => BodyMove(p)
    case BodyIdentityEof => Move(p, [Byte(Body)], Advance)
  }

  /** The order in which `goto reexecute` visits states for one byte. */
  function Rank(s: State): nat {
    match s
    case HeaderValueLws => 4
    case HeaderValueDiscardLws => 4
    case HeaderFieldStart => 3
    case HeadersAlmostDone => 2
    case BodyIdentity => 1
    case StartReqOrRes => 1
    case HeaderValue => 1
    case _ => 0
  }

  /* ---- The invariant ---- */

  /** The header states s_header_field knows. */
  predicate FieldHeaderState(h: HeaderState, index: nat) {
    match h
    case General => true
    case C => index == 0
    case CO => index == 1
    case CON => index == 2
    case MatchingConnection => 3 <= index < 9
    case MatchingProxyConnection => index < 15
    case MatchingContentLength => 3 <= index < 13
    case MatchingTransferEncoding => index < 16
    case MatchingUpgrade => index < 6
    case Connection => true
    case ContentLength => true
    case TransferEncoding => true
    case Upgrade => true
    case _ => false
  }

  /** The header states that can stand while a header value is read. */
  predicate ValueHeaderState(h: HeaderState, index: nat) {
    match h
    case General => true
    case ContentLength => true
    case MatchingChunked => index < 6
    case MatchingTokenStart => index == 0
    case MatchingKeepAlive => index < 9
    case MatchingClose => index < 4
    case MatchingConnUpgrade => index < 6
    case MatchingToken => true
    case Chunked => true
    case ConnKeepAlive => true
    case ConnClose => true
    case ConnUpgrade => true
    case _ => false
  }

  /** What holds of every reachable parser: the numbers fit their C types, and unless an
      error was found, each state's own conditions hold. */
  predicate Inv(p: Parser) {
    && p.index < 256
    && p.contentLength <= NO_LENGTH
    && p.major <= 9999 && p.minor <= 9999 && p.status <= 9999
    && (p.errno.OK? ==> p.major <= 999 && p.minor <= 999 && p.status <= 999 && StateInv(p))
  }

  predicate StateInv(p: Parser) {
    match p.state
    case ReqMethod => 1 <= p.index <= |MethodName(p.verb)|
    case HeaderField => FieldHeaderState(p.header, p.index)
    case HeaderValue =>
      ValueHeaderState(p.header, p.index) && (p.header.ContentLength? ==> p.contentLength < NO_LENGTH)
    case BodyIdentity => 0 < p.contentLength < NO_LENGTH
    case ChunkSizeStart => p.flags.chunked
    case ChunkSize | ChunkParameters | ChunkSizeAlmostDone => p.flags.chunked && p.contentLength < NO_LENGTH
    case ChunkData => p.flags.chunked && 0 < p.contentLength < NO_LENGTH
    case ChunkDataAlmostDone => p.flags.chunked && p.contentLength == 0
    case ChunkDataDone => p.flags.chunked
    case _ => true
  }

  predicate ReadingBody(s: State) { s.BodyIdentity? || s.BodyIdentityEof? || s.ChunkData? }

  /** The marks that a move touches: a string is marked when its state is entered, every
      byte up to its end belongs to it, and the callback is made when the state is left. */
  ghost predicate ActsFit(before: State, m: Move) {
    var after := OpenPart(m.p.state);
    if m.next.Stop? then m.acts == []
    else if ReadingBody(before) then after == None && m.acts == [Byte(Body)]
    else match OpenPart(before)
      case None =>
        if after == None
        then if before.ChunkDataAlmostDone? then m.acts == [Flush(Body)]
             else || m.acts == []
                  || (|m.acts| == 1 && m.acts[0].Fire?)
                  || m.acts == [Mark(Value), Flush(Value)]
        else !before.ChunkDataAlmostDone? && m.acts == [Mark(after.value), Byte(after.value)] && m.next.Advance?
      case Some(part) =>
        if after == None then m.acts == [Flush(part)]
        else after == Some(part) && m.acts == [Byte(part)] && m.next.Advance?
  }

  /** How a move goes on, and which callbacks it makes. `goto reexecute` cannot go round for
      ever: the rank falls. */
  ghost predicate Fits(before: State, m: Move) {
    && ActsFit(before, m)
    && (m.next.Again? ==> Rank(m.p.state) < Rank(before) && OpenPart(m.p.state) == None && !ReadingBody(m.p.state))
    && (m.next.Stop? <==> !m.p.errno.OK?) && !m.p.errno.HeaderOverflow?
    && (m.next.Leave? ==> m.p.state.Dead? || m.p.state.StartReq? || m.p.state.StartRes?)
    && (m.p.state.ChunkSizeStart? && !m.next.Stop? ==> m.next.Advance? && (before.HeadersDone? || before.ChunkDataDone?))
  }

  lemma StartKeepsInv(p: Parser, ch: char)
    requires Inv(p) && p.errno.OK?
    requires p.state.Dead? || p.state.StartReqOrRes? || p.state.ResOrRespH? || p.state.StartRes? || p.state.StartReq?
    ensures Inv(StartSwitch(p, ch).p)
  {
    hide FieldHeaderState, ValueHeaderState;
  }

  lemma StartFits(p: Parser, ch: char)
    requires p.errno.OK?
    requires p.state.Dead? || p.state.StartReqOrRes? || p.state.ResOrRespH? || p.state.StartRes? || p.state.StartReq?
    ensures Fits(p.state, StartSwitch(p, ch))
  {
  }

  lemma ResponseConstantKeepsInv(p: Parser, ch: char)
    requires Inv(p) && p.errno.OK?
    requires p.state.ResH? || p.state.ResHT? || p.state.ResHTT? || p.state.ResHTTP? || p.state.ResLineAlmostDone?
    ensures Inv(ConstantSwitch(p, ch).p)
  {
    hide MethodName, FieldHeaderState, ValueHeaderState;
  }

  lemma ResponseConstantFits(p: Parser, ch: char)
    requires p.errno.OK?
    requires p.state.ResH? || p.state.ResHT? || p.state.ResHTT? || p.state.ResHTTP? || p.state.ResLineAlmostDone?
    ensures Fits(p.state, ConstantSwitch(p, ch))
  {
  }

  lemma RequestConstantKeepsInv(p: Parser, ch: char)
    requires Inv(p) && p.errno.OK?
    requires p.state.ReqHttpStart? || p.state.ReqHttpH? || p.state.ReqHttpHT? || p.state.ReqHttpHTT? || p.state.ReqHttpHTTP? || p.state.ReqLineAlmostDone?
    ensures Inv(ConstantSwitch(p, ch).p)
  {
    hide MethodName, FieldHeaderState, ValueHeaderState;
  }

  lemma RequestConstantFits(p: Parser, ch: char)
    requires p.errno.OK?
    requires p.state.ReqHttpStart? || p.state.ReqHttpH? || p.state.ReqHttpHT? || p.state.ReqHttpHTT? || p.state.ReqHttpHTTP? || p.state.ReqLineAlmostDone?
    ensures Fits(p.state, ConstantSwitch(p, ch))
  {
  }

  lemma ResponseNumberKeepsInv(p: Parser, ch: char)
    requires Inv(p) && p.errno.OK?
    requires p.state.ResFirstHttpMajor? || p.state.ResHttpMajor? || p.state.ResFirstHttpMinor? || p.state.ResHttpMinor?
    ensures Inv(NumberSwitch(p, ch).p)
  {
    hide MethodName, FieldHeaderState, ValueHeaderState;
  }

  lemma ResponseNumberFits(p: Parser, ch: char)
    requires p.errno.OK?
    requires p.state.ResFirstHttpMajor? || p.state.ResHttpMajor? || p.state.ResFirstHttpMinor? || p.state.ResHttpMinor?
    ensures Fits(p.state, NumberSwitch(p, ch))
  {
  }

  lemma RequestNumberKeepsInv(p: Parser, ch: char)
    requires Inv(p) && p.errno.OK?
    requires p.state.ReqFirstHttpMajor? || p.state.ReqHttpMajor? || p.state.ReqFirstHttpMinor? || p.state.ReqHttpMinor?
    ensures Inv(NumberSwitch(p, ch).p)
  {
    hide MethodName, FieldHeaderState, ValueHeaderState;
  }

  lemma RequestNumberFits(p: Parser, ch: char)
    requires p.errno.OK?
    requires p.state.ReqFirstHttpMajor? || p.state.ReqHttpMajor? || p.state.ReqFirstHttpMinor? || p.state.ReqHttpMinor?
    ensures Fits(p.state, NumberSwitch(p, ch))
  {
  }

  lemma StatusKeepsInv(p: Parser, ch: char)
    requires Inv(p) && p.errno.OK?
    requires p.state.ResFirstStatusCode? || p.state.ResStatusCode? || p.state.ResStatusStart? || p.state.ResStatus?
    ensures Inv(StatusSwitch(p, ch).p)
  {
    hide MethodName, FieldHeaderState, ValueHeaderState;
  }

  lemma StatusFits(p: Parser, ch: char)
    requires p.errno.OK?
    requires p.state.ResFirstStatusCode? || p.state.ResStatusCode? || p.state.ResStatusStart? || p.state.ResStatus?
    ensures Fits(p.state, StatusSwitch(p, ch))
  {
  }

  lemma MethodKeepsInv(p: Parser, ch: char)
    requires Inv(p) && p.errno.OK?
    requires p.state.ReqMethod?
    ensures Inv(MethodMove(p, ch).p)
  {
    hide FieldHeaderState, ValueHeaderState;
  }

  lemma MethodFits(p: Parser, ch: char)
    requires p.errno.OK?
    requires p.state.ReqMethod?
    ensures Fits(p.state, MethodMove(p, ch))
  {
  }

  lemma UrlStartKeepsInv(p: Parser, ch: char)
    requires Inv(p) && p.errno.OK?
    requires p.state.ReqSpacesBeforeUrl?
    ensures Inv(UrlSwitch(p, ch).p)
  {
    hide MethodName, FieldHeaderState, ValueHeaderState;
  }

  lemma UrlStartFits(p: Parser, ch: char)
    requires p.errno.OK?
    requires p.state.ReqSpacesBeforeUrl?
    ensures Fits(p.state, UrlSwitch(p, ch))
  {
  }

  lemma UrlInnerKeepsInv(p: Parser, ch: char)
    requires Inv(p) && p.errno.OK?
    requires p.state.ReqSchema? || p.state.ReqSchemaSlash? || p.state.ReqSchemaSlashSlash? || p.state.ReqServerStart?
    ensures Inv(UrlInnerMove(p, ch).p)
  {
    hide MethodName, FieldHeaderState, ValueHeaderState;
  }

  lemma UrlInnerFits(p: Parser, ch: char)
    requires p.errno.OK?
    requires p.state.ReqSchema? || p.state.ReqSchemaSlash? || p.state.ReqSchemaSlashSlash? || p.state.ReqServerStart?
    ensures Fits(p.state, UrlInnerMove(p, ch))
  {
  }

  lemma UrlEndKeepsInv(p: Parser, ch: char)
    requires Inv(p) && p.errno.OK?
    requires p.state.ReqServer? || p.state.ReqServerWithAt? || p.state.ReqPath? || p.state.ReqQueryStringStart? || p.state.ReqQueryString? || p.state.ReqFragmentStart? || p.state.ReqFragment?
    ensures Inv(UrlEndMove(p, ch).p)
  {
    hide MethodName, FieldHeaderState, ValueHeaderState;
  }

  lemma UrlEndFits(p: Parser, ch: char)
    requires p.errno.OK?
    requires p.state.ReqServer? || p.state.ReqServerWithAt? || p.state.ReqPath? || p.state.ReqQueryStringStart? || p.state.ReqQueryString? || p.state.ReqFragmentStart? || p.state.ReqFragment?
    ensures Fits(p.state, UrlEndMove(p, ch))
  {
  }

  lemma FieldKeepsInv(p: Parser, ch: char)
    requires Inv(p) && p.errno.OK?
    requires p.state.HeaderField?
    ensures Inv(FieldMove(p, ch).p)
  {
    hide MethodName, ValueHeaderState;
  }

  lemma FieldFits(p: Parser, ch: char)
    requires p.errno.OK?
    requires p.state.HeaderField?
    ensures Fits(p.state, FieldMove(p, ch))
  {
  }

  lemma ValueKeepsInv(p: Parser, ch: char)
    requires Inv(p) && p.errno.OK?
    requires p.state.HeaderValue?
    ensures Inv(ValueMove(p, ch).p)
  {
    hide MethodName, FieldHeaderState;
  }

  lemma ValueFits(p: Parser, ch: char)
    requires p.errno.OK?
    requires p.state.HeaderValue?
    ensures Fits(p.state, ValueMove(p, ch))
  {
  }

  lemma FieldStartKeepsInv(p: Parser, ch: char)
    requires Inv(p) && p.errno.OK?
    requires p.state.HeaderFieldStart? || p.state.HeaderValueLws? || p.state.HeaderAlmostDone?
    ensures Inv(HeaderSwitch(p, ch).p)
  {
    hide MethodName, ValueHeaderState;
  }

  lemma FieldStartFits(p: Parser, ch: char)
    requires p.errno.OK?
    requires p.state.HeaderFieldStart? || p.state.HeaderValueLws? || p.state.HeaderAlmostDone?
    ensures Fits(p.state, HeaderSwitch(p, ch))
  {
  }

  lemma ValueStartKeepsInv(p: Parser, ch: char)
    requires Inv(p) && p.errno.OK?
    requires p.state.HeaderValueDiscardWs? || p.state.HeaderValueStart?
    ensures Inv(HeaderSwitch(p, ch).p)
  {
    hide MethodName, FieldHeaderState;
  }

  lemma ValueStartFits(p: Parser, ch: char)
    requires p.errno.OK?
    requires p.state.HeaderValueDiscardWs? || p.state.HeaderValueStart?
    ensures Fits(p.state, HeaderSwitch(p, ch))
  {
  }

  lemma NoValueKeepsInv(p: Parser, ch: char)
    requires Inv(p) && p.errno.OK?
    requires p.state.HeaderValueDiscardWsAlmostDone? || p.state.HeaderValueDiscardLws?
    ensures Inv(HeaderSwitch(p, ch).p)
  {
    hide MethodName, FieldHeaderState, ValueHeaderState;
  }

  lemma NoValueFits(p: Parser, ch: char)
    requires p.errno.OK?
    requires p.state.HeaderValueDiscardWsAlmostDone? || p.state.HeaderValueDiscardLws?
    ensures Fits(p.state, HeaderSwitch(p, ch))
  {
  }

  lemma EndKeepsInv(p: Parser, ch: char)
    requires Inv(p) && p.errno.OK?
    requires p.state.HeadersAlmostDone? || p.state.HeadersDone? || p.state.MessageDone?
    ensures Inv(EndSwitch(p, ch).p)
  {
    hide MethodName, FieldHeaderState, ValueHeaderState;
  }

  lemma EndFits(p: Parser, ch: char)
    requires p.errno.OK?
    requires p.state.HeadersAlmostDone? || p.state.HeadersDone? || p.state.MessageDone?
    ensures Fits(p.state, EndSwitch(p, ch))
  {
  }

  lemma ChunkSizeKeepsInv(p: Parser, ch: char)
    requires Inv(p) && p.errno.OK?
    requires p.state.ChunkSizeStart? || p.state.ChunkSize? || p.state.ChunkParameters?
    ensures Inv(ChunkSwitch(p, ch).p)
  {
    hide MethodName, FieldHeaderState, ValueHeaderState;
  }

  lemma ChunkSizeFits(p: Parser, ch: char)
    requires p.errno.OK?
    requires p.state.ChunkSizeStart? || p.state.ChunkSize? || p.state.ChunkParameters?
    ensures Fits(p.state, ChunkSwitch(p, ch))
  {
  }

  lemma ChunkEndKeepsInv(p: Parser, ch: char)
    requires Inv(p) && p.errno.OK?
    requires p.state.ChunkSizeAlmostDone? || p.state.ChunkDataAlmostDone? || p.state.ChunkDataDone?
    ensures Inv(ChunkSwitch(p, ch).p)
  {
    hide MethodName, FieldHeaderState, ValueHeaderState;
  }

  lemma ChunkEndFits(p: Parser, ch: char)
    requires p.errno.OK?
    requires p.state.ChunkSizeAlmostDone? || p.state.ChunkDataAlmostDone? || p.state.ChunkDataDone?
    ensures Fits(p.state, ChunkSwitch(p, ch))
  {
  }

  lemma BodyMoves(p: Parser, ch: char)
    requires Inv(p) && p.errno.OK? && ReadingBody(p.state)
    ensures Inv(Switch(p, ch).p) && Fits(p.state, Switch(p, ch))
  {
    hide StartSwitch, ConstantSwitch, NumberSwitch, StatusSwitch, MethodMove, UrlSwitch, FieldMove, ValueMove,
         HeaderSwitch, EndSwitch, ChunkSwitch;
  }

  lemma SwitchKeepsInv(p: Parser, ch: char)
    requires Inv(p) && p.errno.OK?
    ensures Inv(Switch(p, ch).p)
  {
    hide Inv, StartSwitch, ConstantSwitch, NumberSwitch, StatusSwitch, MethodMove, UrlInnerMove, UrlEndMove, FieldMove,
         ValueMove, HeaderSwitch, EndSwitch, ChunkSwitch, BodyMove, ChunkDataMove;
    match p.state
    case Dead | StartReqOrRes | ResOrRespH | StartRes | StartReq => StartKeepsInv(p, ch);
    case ResH | ResHT | ResHTT | ResHTTP | ResLineAlmostDone => ResponseConstantKeepsInv(p, ch);
    case ReqHttpStart | ReqHttpH | ReqHttpHT | ReqHttpHTT | ReqHttpHTTP | ReqLineAlmostDone => RequestConstantKeepsInv(p, ch);
    case ResFirstHttpMajor | ResHttpMajor | ResFirstHttpMinor | ResHttpMinor => ResponseNumberKeepsInv(p, ch);
    case ReqFirstHttpMajor | ReqHttpMajor | ReqFirstHttpMinor | ReqHttpMinor => RequestNumberKeepsInv(p, ch);
    case ResFirstStatusCode | ResStatusCode | ResStatusStart | ResStatus => StatusKeepsInv(p, ch);
    case ReqMethod => MethodKeepsInv(p, ch);
    case ReqSpacesBeforeUrl => UrlStartKeepsInv(p, ch);
    case ReqSchema | ReqSchemaSlash | ReqSchemaSlashSlash | ReqServerStart => UrlInnerKeepsInv(p, ch);
    case HeaderField => FieldKeepsInv(p, ch);
    case HeaderValue => ValueKeepsInv(p, ch);
    case HeaderFieldStart | HeaderValueLws | HeaderAlmostDone => FieldStartKeepsInv(p, ch);
    case HeaderValueDiscardWs | HeaderValueStart => ValueStartKeepsInv(p, ch);
    case HeaderValueDiscardWsAlmostDone | HeaderValueDiscardLws => NoValueKeepsInv(p, ch);
    case HeadersAlmostDone | HeadersDone | MessageDone => EndKeepsInv(p, ch);
    case ChunkSizeStart | ChunkSize | ChunkParameters => ChunkSizeKeepsInv(p, ch);
    case ChunkSizeAlmostDone | ChunkDataAlmostDone | ChunkDataDone => ChunkEndKeepsInv(p, ch);
    case ChunkData | BodyIdentity | BodyIdentityEof => BodyMoves(p, ch);
    case _ => UrlEndKeepsInv(p, ch);
  }

  lemma SwitchFits(p: Parser, ch: char)
    requires Inv(p) && p.errno.OK?
    ensures Fits(p.state, Switch(p, ch))
  {
    hide Inv, Fits, StartSwitch, ConstantSwitch, NumberSwitch, StatusSwitch, MethodMove, UrlInnerMove, UrlEndMove,
         FieldMove, ValueMove, HeaderSwitch, EndSwitch, ChunkSwitch, BodyMove, ChunkDataMove;
    match p.state
    case Dead | StartReqOrRes | ResOrRespH | StartRes | StartReq => StartFits(p, ch);
    case ResH | ResHT | ResHTT | ResHTTP | ResLineAlmostDone => ResponseConstantFits(p, ch);
    case ReqHttpStart | ReqHttpH | ReqHttpHT | ReqHttpHTT | ReqHttpHTTP | ReqLineAlmostDone => RequestConstantFits(p, ch);
    case ResFirstHttpMajor | ResHttpMajor | ResFirstHttpMinor | ResHttpMinor => ResponseNumberFits(p, ch);
    case ReqFirstHttpMajor | ReqHttpMajor | ReqFirstHttpMinor | ReqHttpMinor => RequestNumberFits(p, ch);
    case ResFirstStatusCode | ResStatusCode | ResStatusStart | ResStatus => StatusFits(p, ch);
    case ReqMethod => MethodFits(p, ch);
    case ReqSpacesBeforeUrl => UrlStartFits(p, ch);
    case ReqSchema | ReqSchemaSlash | ReqSchemaSlashSlash | ReqServerStart => UrlInnerFits(p, ch);
    case HeaderField => FieldFits(p, ch);
    case HeaderValue => ValueFits(p, ch);
    case HeaderFieldStart | HeaderValueLws | HeaderAlmostDone => FieldStartFits(p, ch);
    case HeaderValueDiscardWs | HeaderValueStart => ValueStartFits(p, ch);
    case HeaderValueDiscardWsAlmostDone | HeaderValueDiscardLws => NoValueFits(p, ch);
    case HeadersAlmostDone | HeadersDone | MessageDone => EndFits(p, ch);
    case ChunkSizeStart | ChunkSize | ChunkParameters => ChunkSizeFits(p, ch);
    case ChunkSizeAlmostDone | ChunkDataAlmostDone | ChunkDataDone => ChunkEndFits(p, ch);
    case ChunkData | BodyIdentity | BodyIdentityEof => BodyMoves(p, ch);
    case _ => UrlEndFits(p, ch);
  }
}
