/** The data of the HTTP parser: the states and fields of `struct http_parser`, the
    callbacks it makes, and the character classes of its strict mode. */
module HttpTypes {
  import opened Wrappers

  /** ULLONG_MAX: the value of `content_length` that stands for "no length given". */
  const NO_LENGTH: nat := 0xFFFF_FFFF_FFFF_FFFF

  const HTTP_MAX_HEADER_SIZE: nat := 80 * 1024

  const CR: char := '\r'
  const LF: char := '\n'

  datatype ParserKind = Request | Response | Both

  datatype State =
    | Dead
    | StartReqOrRes | ResOrRespH
    | StartRes | ResH | ResHT | ResHTT | ResHTTP
    | ResFirstHttpMajor | ResHttpMajor | ResFirstHttpMinor | ResHttpMinor
    | ResFirstStatusCode | ResStatusCode | ResStatusStart | ResStatus | ResLineAlmostDone
    | StartReq | ReqMethod | ReqSpacesBeforeUrl
    | ReqSchema | ReqSchemaSlash | ReqSchemaSlashSlash
    | ReqServerStart | ReqServer | ReqServerWithAt
    | ReqPath | ReqQueryStringStart | ReqQueryString | ReqFragmentStart | ReqFragment
    | ReqHttpStart | ReqHttpH | ReqHttpHT | ReqHttpHTT | ReqHttpHTTP
    | ReqFirstHttpMajor | ReqHttpMajor | ReqFirstHttpMinor | ReqHttpMinor | ReqLineAlmostDone
    | HeaderFieldStart | HeaderField
    | HeaderValueDiscardWs | HeaderValueDiscardWsAlmostDone | HeaderValueDiscardLws
    | HeaderValueStart | HeaderValue | HeaderValueLws | HeaderAlmostDone
    | ChunkSizeStart | ChunkSize | ChunkParameters | ChunkSizeAlmostDone
    | HeadersAlmostDone | HeadersDone
    | ChunkData | ChunkDataAlmostDone | ChunkDataDone
    | BodyIdentity | BodyIdentityEof
    | MessageDone

  /** The states whose bytes count against HTTP_MAX_HEADER_SIZE. */
  predicate ParsingHeader(s: State) {
    !(s.ChunkData? || s.ChunkDataAlmostDone? || s.ChunkDataDone? || s.BodyIdentity?
      || s.BodyIdentityEof? || s.MessageDone?)
  }

  predicate ReadingUrl(s: State) {
    s.ReqSchema? || s.ReqSchemaSlash? || s.ReqSchemaSlashSlash? || s.ReqServerStart? || s.ReqServer?
    || s.ReqServerWithAt? || s.ReqPath? || s.ReqQueryStringStart? || s.ReqQueryString?
    || s.ReqFragmentStart? || s.ReqFragment?
  }

  datatype HeaderState =
    | General | C | CO | CON
    | MatchingConnection | MatchingProxyConnection | MatchingContentLength
    | MatchingTransferEncoding | MatchingUpgrade
    | Connection | ContentLength | TransferEncoding | Upgrade
    | MatchingChunked | MatchingTokenStart | MatchingKeepAlive | MatchingClose
    | MatchingConnUpgrade | MatchingToken
    | Chunked | ConnKeepAlive | ConnClose | ConnUpgrade

  datatype Method =
    | DELETE | GET | HEAD | POST | PUT | CONNECT | OPTIONS | TRACE | COPY | LOCK | MKCOL | MOVE
    | PROPFIND | PROPPATCH | SEARCH | UNLOCK | BIND | REBIND | UNBIND | ACL | REPORT | MKACTIVITY
    | CHECKOUT | MERGE | MSEARCH | NOTIFY | SUBSCRIBE | UNSUBSCRIBE | PATCH | PURGE | MKCALENDAR

  function MethodName(m: Method): string {
    match m
    case DELETE => "DELETE"
    case GET => "GET"
    case HEAD => "HEAD"
    case POST => "POST"
    case PUT => "PUT"
    case CONNECT => "CONNECT"
    case OPTIONS => "OPTIONS"
    case TRACE => "TRACE"
    case COPY => "COPY"
    case LOCK => "LOCK"
    case MKCOL => "MKCOL"
    case MOVE => "MOVE"
    case PROPFIND => "PROPFIND"
    case PROPPATCH => "PROPPATCH"
    case SEARCH => "SEARCH"
    case UNLOCK => "UNLOCK"
    case BIND => "BIND"
    case REBIND => "REBIND"
    case UNBIND => "UNBIND"
    case ACL => "ACL"
    case REPORT => "REPORT"
    case MKACTIVITY => "MKACTIVITY"
    case CHECKOUT => "CHECKOUT"
    case MERGE => "MERGE"
    case MSEARCH => "M-SEARCH"
    case NOTIFY => "NOTIFY"
    case SUBSCRIBE => "SUBSCRIBE"
    case UNSUBSCRIBE => "UNSUBSCRIBE"
    case PATCH => "PATCH"
    case PURGE => "PURGE"
    case MKCALENDAR => "MKCALENDAR"
  }

  datatype Errno =
    | OK | HeaderOverflow | ClosedConnection | InvalidEofState | InvalidVersion | InvalidStatus
    | InvalidMethod | InvalidUrl | LfExpected | InvalidHeaderToken | InvalidContentLength
    | InvalidChunkSize | InvalidConstant | Strict

  /** The bits of `http_parser.flags`. F_SKIPBODY is absent: only a callback that answers 1 sets it. */
  datatype Flags = Flags(chunked: bool, keepAlive: bool, close: bool, connUpgrade: bool,
                         trailing: bool, upgrade: bool)

  const NO_FLAGS := Flags(false, false, false, false, false, false)

  /** `struct http_parser` without `nread`, which depends on how the input is cut up. */
  datatype Parser = Parser(
    kind: ParserKind,
    flags: Flags,
    state: State,
    header: HeaderState,
    index: nat,
    contentLength: nat,
    major: nat,
    minor: nat,
    status: nat,
    verb: Method,
    errno: Errno,
    upgrade: bool)

  /** The field values `http_parser_init` leaves: all zero except the type and the state. */
  function Init(kind: ParserKind): Parser {
    Parser(kind, NO_FLAGS,
           match kind case Request => StartReq case Response => StartRes case Both => StartReqOrRes,
           General, 0, 0, 0, 0, 0, DELETE, OK, false)
  }

  /** What the data callbacks deliver. */
  datatype Part = Url | Status | Field | Value | Body

  /** The notification callbacks; on_chunk_header can read the chunk's length. */
  datatype Notice = MessageBegin | HeadersComplete | ChunkHeader(length: nat) | ChunkComplete | MessageComplete

  datatype Event = Data(part: Part, text: string) | Note(what: Notice)

  /** The mark that is set for as long as a state lasts. (The body's mark is set only from
      the first body byte of a buffer on.) */
  function OpenPart(s: State): Option<Part> {
    if ReadingUrl(s) then Some(Url)
    else if s.ResStatus? then Some(Status)
    else if s.HeaderField? then Some(Field)
    else if s.HeaderValue? then Some(Value)
    else None
  }

  /* ---- The history of callbacks, with adjacent data of one part joined ---- */

  /** Append one callback to the history. Data callbacks may cut a string anywhere, so
      data of the part that came last is joined to it. */
  function Emit(log: seq<Event>, e: Event): seq<Event> {
    if e.Data? && |log| > 0 && log[|log| - 1].Data? && log[|log| - 1].part == e.part
    then log[..|log| - 1] + [Data(e.part, log[|log| - 1].text + e.text)]
    else log + [e]
  }

  /** Delivering a string in two pieces or in one gives the same history. */
  lemma EmitInPieces(log: seq<Event>, part: Part, a: string, b: string)
    ensures Emit(Emit(log, Data(part, a)), Data(part, b)) == Emit(log, Data(part, a + b))
  {
    var one := Emit(log, Data(part, a));
    var last := one[|one| - 1];
    assert last.Data? && last.part == part;
    if |log| > 0 && log[|log| - 1].Data? && log[|log| - 1].part == part {
      assert (log[|log| - 1].text + a) + b == log[|log| - 1].text + (a + b);
    }
  }

  predicate EndsIn(log: seq<Event>, part: Part) {
    |log| > 0 && log[|log| - 1].Data? && log[|log| - 1].part == part
  }

  /** An empty data callback changes nothing when its part came last. */
  lemma EmitNothing(log: seq<Event>, part: Part)
    requires EndsIn(log, part)
    ensures Emit(log, Data(part, "")) == log
  {
    var last := log[|log| - 1];
    assert last.text + "" == last.text;
    assert Data(part, last.text + "") == last;
  }

  /** The text of all data callbacks of one part, joined. */
  function TextOf(log: seq<Event>, part: Part): string {
    if |log| == 0 then ""
    else TextOf(log[..|log| - 1], part)
         + (if log[|log| - 1].Data? && log[|log| - 1].part == part then log[|log| - 1].text else "")
  }

  /* ---- Character classes (strict mode) ---- */

  predicate IsNum(ch: char) { '0' <= ch <= '9' }

  predicate IsAlpha(ch: char) { 'a' <= ch <= 'z' || 'A' <= ch <= 'Z' }

  predicate IsAlphaNum(ch: char) { IsAlpha(ch) || IsNum(ch) }

  predicate IsHex(ch: char) { IsNum(ch) || 'a' <= ch <= 'f' || 'A' <= ch <= 'F' }

  predicate IsMark(ch: char) {
    ch == '-' || ch == '_' || ch == '.' || ch == '!' || ch == '~' || ch == '*' || ch == '\'' || ch == '(' || ch == ')'
  }

  predicate IsUserinfoChar(ch: char) {
    IsAlphaNum(ch) || IsMark(ch) || ch == '%' || ch == ';' || ch == ':' || ch == '&' || ch == '=' || ch == '+'
    || ch == '$' || ch == ','
  }

  predicate IsHostChar(ch: char) { IsAlphaNum(ch) || ch == '.' || ch == '-' }

  /** The bitmap normal_url_char: the printable characters but `#` and `?`. */
  predicate IsUrlChar(ch: char) { '!' <= ch <= '~' && ch != '#' && ch != '?' }

  /** LOWER(c): sets bit 5 of a byte, whatever the byte is. Bytes from 128 on stay as
      they are: with or without bit 5 they equal no character they are compared with. */
  function Lower(ch: char): char {
    if ch < 128 as char && (ch as int / 32) % 2 == 0 then (ch as int + 32) as char else ch
  }

  /** The table `tokens`: a token character in lower case, or NUL. */
  function Token(ch: char): char {
    if 'A' <= ch <= 'Z' then (ch as int + 32) as char
    else if 'a' <= ch <= 'z' || IsNum(ch) || ch == '!' || ch == '#' || ch == '$' || ch == '%' || ch == '&'
            || ch == '\'' || ch == '*' || ch == '+' || ch == '-' || ch == '.' || ch == '^' || ch == '_' || ch == '`'
            || ch == '|' || ch == '~' then ch
    else '\0'
  }

  /** The table `unhex`: its initialiser stops after 128 entries, so every byte from
      128 on has the value 0 and not -1. */
  function Unhex(ch: char): int {
    if IsNum(ch) then ch as int - '0' as int
    else if 'a' <= ch <= 'f' then ch as int - 'a' as int + 10
    else if 'A' <= ch <= 'F' then ch as int - 'A' as int + 10
    else if ch as int >= 128 then 0
    else -1
  }

  /** Indexing a C string: its terminating NUL is readable. */
  function CharAt(s: string, i: nat): char {
    if i < |s| then s[i] else '\0'
  }
}
