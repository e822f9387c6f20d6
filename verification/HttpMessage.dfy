/** Round trip of whole messages: what is printed from a start line, headers and a body comes
    back from the parser as exactly its parts. */
module HttpMessage {
  import opened Wrappers
  import opened HttpTypes
  import opened HttpSwitch
  import opened HttpRun
  import opened HttpExecute
  import opened HttpSplit
  import opened HttpMethods
  import Headers = HttpHeaders
  import Chunked = HttpChunked
  import Lines = HttpHeaderLines
  import HttpConnections
  import opened HttpUrl
  import opened HttpStartLine
  import opened HttpFraming
  import UrlText = HttpUrlText

  const CRLF: string := Chunked.CRLF

  /* ---- Start lines ---- */

  datatype Start =
    | RequestLine(verb: Method, url: string, major: string, minor: string, end: string)
    | StatusLine(major: string, minor: string, spaces: string, code: string, reason: Option<string>, end: string)

  /** The states in which a URL may end. */
  predicate UrlMayEnd(s: State) {
    s.ReqServer? || s.ReqServerWithAt? || s.ReqPath? || s.ReqQueryStringStart? || s.ReqQueryString?
    || s.ReqFragmentStart? || s.ReqFragment?
  }

  predicate GoodUrl(verb: Method, url: string) { UrlMayEnd(Trace(url, StartOf(verb.CONNECT?), |url|)) }

  predicate SmallNumeral(s: string) { IsNumeral(s) && Decimal(s) <= 999 }

  predicate ProperStart(s: Start) {
    match s
    case RequestLine(verb, url, major, minor, end) =>
      GoodUrl(verb, url) && SmallNumeral(major) && major[0] != '0' && SmallNumeral(minor) && IsLineEnd(end)
    case StatusLine(major, minor, spaces, code, reason, end) =>
      && SmallNumeral(major) && SmallNumeral(minor) && AllSpaces(spaces) && SmallNumeral(code) && IsLineEnd(end)
      && (reason.Some? ==> CR !in reason.value && LF !in reason.value)
  }

  function PrintStart(s: Start): string {
    match s
    case RequestLine(verb, url, major, minor, end) =>
      (MethodName(verb) + " ") + (url + (" H" + ("TTP/" + (((major + ".") + minor) + end))))
    case StatusLine(major, minor, spaces, code, reason, end) =>
      "H" + ("TTP/" + (((((major + ".") + minor) + spaces) + code) + (ReasonText(reason) + end)))
  }

  function StartEvents(s: Start): seq<Event> {
    match s
    case RequestLine(_, url, _, _, _) => [Note(MessageBegin), Data(Url, url)]
    case StatusLine(_, _, _, _, reason, _) =>
      [Note(MessageBegin)] + (if reason.Some? && reason.value != "" then [Data(Part.Status, reason.value)] else [])
  }

  /** The parser can take a message that starts like this. */
  predicate Starting(p: Parser, s: Start) {
    match s
    case RequestLine(_, _, _, _, _) => p.state.StartReqOrRes? || (p.state.StartReq? && p.kind.Request?)
    case StatusLine(_, _, _, _, _, _) => (p.state.StartReqOrRes? || (p.state.StartRes? && p.kind.Response?)) && !p.verb.CONNECT?
  }

  /** The fields behind a start line, but for the index, which nothing looks at any more. */
  function AfterStart(p: Parser, s: Start, index: nat): Parser
    requires ProperStart(s)
  {
    var q := Fresh(p).(index := index, state := HeaderFieldStart, major := Decimal(s.major), minor := Decimal(s.minor));
    match s
    case RequestLine(verb, _, _, _, _) => q.(kind := Request, verb := verb)
    case StatusLine(_, _, _, code, _, _) => q.(kind := Response, status := Decimal(code))
  }

  lemma {:induction false} NoSpaces(url: string, start: State, k: nat)
    requires k <= |url| && !Trace(url, start, k).Dead?
    ensures forall i :: 0 <= i < k ==> url[i] != ' ' && url[i] != CR && url[i] != LF
  {
    hide ParseUrlChar;
    if k > 0 {
      var s := Trace(url, start, k - 1);
      DeadStays(url[k - 1]);
      SpacesKill(s, url[k - 1]);
      NoSpaces(url, start, k - 1);
    }
  }

  lemma SpacesKill(s: State, ch: char)
    ensures ch == ' ' || ch == CR || ch == LF ==> ParseUrlChar(s, ch).Dead?
  {
  }

  lemma UrlEndSwitch(p: Parser)
    requires UrlMayEnd(p.state)
    ensures Counting(p.state) && Switch(p, ' ') == Move(p.(state := ReqHttpStart), [Flush(Url)], Advance)
    ensures Switch(p.(state := ReqHttpStart), 'H') == Move(p.(state := ReqHttpH), [], Advance) && Counting(ReqHttpStart)
  {
  }

  lemma UrlEnd(c: Config)
    requires Valid(c) && c.live.Running? && UrlMayEnd(c.p.state)
    ensures Run(c, " H") == Config(c.p.(state := ReqHttpH), c.log, c.nread + 2, c.used + 2, Running)
  {
    hide Valid, Inv, Switch, UrlMayEnd, Step, Run;
    UrlEndSwitch(c.p);
    SpaceStep(c);
    QuietStep(Step(c, ' '), 'H', c.p.(state := ReqHttpH));
    Chunked.TwoBytes(c, ' ', 'H');
    assert " H" == [' ', 'H'];
  }

  lemma SpaceStep(c: Config)
    requires Valid(c) && c.live.Running? && UrlMayEnd(c.p.state)
    ensures Step(c, ' ') == Config(c.p.(state := ReqHttpStart), c.log, c.nread + 1, c.used + 1, Running)
  {
    hide Valid, Inv, Switch, UrlMayEnd;
    UrlEndSwitch(c.p);
    Chunked.OneTrip(c, ' ');
    TwoActs(c.log, Flush(Url), Flush(Url), ' ');
  }

  lemma UrlRun(c: Config, url: string)
    requires Valid(c) && c.live.Running? && c.p.state.ReqSpacesBeforeUrl? && GoodUrl(c.p.verb, url) && !EndsIn(c.log, Url)
    ensures
      var n := |url| + 2;
      Run(c, url + " H") == Config(c.p.(state := ReqHttpH), c.log + [Data(Url, url)], c.nread + n, c.used + n, Running)
  {
    hide Valid, Inv, Run, Trace, Emit, EndsIn;
    NoSpaces(url, StartOf(c.p.verb.CONNECT?), |url|);
    SomeUrl(c.p.verb, url);
    DeliveredUrl(c, url);
    Lines.EmitApart(c.log, Url, url);
    RunInTwo(c, url, " H");
    UrlEnd(Run(c, url));
  }

  lemma SomeUrl(verb: Method, url: string)
    requires GoodUrl(verb, url)
    ensures url != "" && !Trace(url, StartOf(verb.CONNECT?), |url|).Dead?
  {
  }

  /** A request line is delivered: the message begins, and the URL is the one that was sent. */
  lemma RequestStart(c: Config, s: Start)
    requires Valid(c) && c.live.Running? && s.RequestLine? && ProperStart(s) && Starting(c.p, s)
    ensures
      var n := |PrintStart(s)|;
      Run(c, PrintStart(s))
      == Config(AfterStart(c.p, s, |MethodName(s.verb)| + 1), c.log + StartEvents(s), c.nread + n, c.used + n, Running)
  {
    hide Valid, Inv, Run, MethodName, GoodUrl, Decimal, IsNumeral, IsLineEnd;
    var name := MethodName(s.verb) + " ";
    var line := "TTP/" + (((s.major + ".") + s.minor) + s.end);
    MethodRun(c, s.verb);
    var d := Run(c, name);
    RunInTwo(c, name, s.url + (" H" + line));
    UrlRun(d, s.url);
    RunInTwo(d, s.url + " H", line);
    assert (s.url + " H") + line == s.url + (" H" + line);
    RequestVersion(Run(d, s.url + " H"), s.major, s.minor, s.end);
    assert (c.log + [Note(MessageBegin)]) + [Data(Url, s.url)] == c.log + StartEvents(s);
  }

  /* ---- The start of a response ---- */

  lemma ResponseSwitch(p: Parser)
    requires p.state.StartRes? || p.state.StartReqOrRes?
    ensures Counting(p.state)
    ensures Switch(p, 'H') == Move(Fresh(p).(state := if p.state.StartRes? then ResH else ResOrRespH), [Fire(MessageBegin)], Advance)
  {
  }

  lemma ResponseBegins(c: Config)
    requires Valid(c) && c.live.Running? && (c.p.state.StartRes? || c.p.state.StartReqOrRes?)
    ensures Run(c, "H") == Begun(c, Fresh(c.p).(state := if c.p.state.StartRes? then ResH else ResOrRespH))
  {
    hide Valid, Inv, Switch, Counting;
    ResponseSwitch(c.p);
    Chunked.OneTrip(c, 'H');
    TwoActs(c.log, Fire(MessageBegin), Fire(MessageBegin), 'H');
    Headers.RunOne(c, 'H');
  }

  lemma TeeSwitch(p: Parser)
    requires p.state.ResOrRespH? || p.state.ResH?
    ensures Counting(p.state)
    ensures Switch(p, 'T') == Move(if p.state.ResH? then p.(state := ResHT) else p.(kind := Response, state := ResHT), [], Advance)
  {
  }

  /** From "H" on, a parser for both kinds goes on like one for responses. */
  lemma ResponseAgreed(c: Config, line: string)
    requires Valid(c) && c.live.Running? && c.p.state.ResOrRespH? && line != "" && line[0] == 'T'
    ensures
      var d := c.(p := c.p.(kind := Response, state := ResH));
      Valid(d) && Run(c, line) == Run(d, line)
  {
    hide Inv, Switch, Counting, Step, Upto;
    var d := c.(p := c.p.(kind := Response, state := ResH));
    assert Valid(d) by { SameButKind(c); }
    TeeSwitch(c.p);
    TeeSwitch(d.p);
    QuietByte(c, 'T', d.p.(state := ResHT));
    QuietByte(d, 'T', d.p.(state := ResHT));
    assert line == "T" + line[1..];
    RunInTwo(c, "T", line[1..]);
    RunInTwo(d, "T", line[1..]);
  }

  lemma SameButKind(c: Config)
    requires Valid(c) && c.live.Running? && c.p.state.ResOrRespH?
    ensures Valid(c.(p := c.p.(kind := Response, state := ResH)))
  {
  }

  /** A status line is delivered: the message begins, and the reason phrase is the one that was sent. */
  lemma ResponseStart(c: Config, s: Start) returns (index: nat)
    requires Valid(c) && c.live.Running? && s.StatusLine? && ProperStart(s) && Starting(c.p, s)
    ensures
      var n := |PrintStart(s)|;
      Run(c, PrintStart(s)) == Config(AfterStart(c.p, s, index), c.log + StartEvents(s), c.nread + n, c.used + n, Running)
  {
    hide Valid, Inv, Run, Decimal, IsNumeral, IsLineEnd, AllSpaces, Emit;
    var line := "TTP/" + (((((s.major + ".") + s.minor) + s.spaces) + s.code) + (ReasonText(s.reason) + s.end));
    ResponseBegins(c);
    RunInTwo(c, "H", line);
    var d := Run(c, "H");
    if c.p.state.StartReqOrRes? {
      ResponseAgreed(d, line);
      d := d.(p := d.p.(kind := Response, state := ResH));
    }
    HttpStartLine.StatusLine(d, s.major, s.minor, s.spaces, s.code, s.reason, s.end);
    if s.reason.Some? && s.reason.value != "" {
      NoStatusYet(c.log, s.reason.value);
    } else {
      assert c.log + [Note(MessageBegin)] == c.log + StartEvents(s);
    }
    index := Run(d, line).p.index;
  }

  lemma NoStatusYet(log: seq<Event>, reason: string)
    ensures Emit(log + [Note(MessageBegin)], Data(Part.Status, reason)) == log + ([Note(MessageBegin)] + [Data(Part.Status, reason)])
  {
  }

  lemma StartRun(c: Config, s: Start) returns (index: nat)
    requires Valid(c) && c.live.Running? && ProperStart(s) && Starting(c.p, s)
    ensures
      var n := |PrintStart(s)|;
      Run(c, PrintStart(s)) == Config(AfterStart(c.p, s, index), c.log + StartEvents(s), c.nread + n, c.used + n, Running)
  {
    hide Valid, Inv, Run, ProperStart, Starting, PrintStart, StartEvents, AfterStart, MethodName;
    if s.RequestLine? {
      RequestStart(c, s);
      index := |MethodName(s.verb)| + 1;
    } else {
      index := ResponseStart(c, s);
    }
  }

  lemma NoFieldYet(log: seq<Event>, s: Start)
    ensures !EndsIn(log + StartEvents(s), Field)
  {
  }

  /* ---- Messages ---- */

  /** The rest of a message: nothing, a body of a known length, chunks, or everything up to the
      end of the connection. */
  datatype Payload = Empty | Sized(body: string) | InChunks(chunks: seq<Chunked.Chunk>, last: string) | ToTheEnd(body: string)

  function PrintPayload(payload: Payload): string {
    match payload
    case Empty => ""
    case Sized(body) => body
    case InChunks(chunks, last) => Chunked.PrintAll(chunks, last)
    case ToTheEnd(body) => body
  }

  function PayloadEvents(payload: Payload): seq<Event> {
    match payload
    case Empty => [Note(MessageComplete)]
    case Sized(body) => [Data(Body, body), Note(MessageComplete)]
    case InChunks(chunks, last) => Chunked.AllEvents(chunks)
    case ToTheEnd(body) => if body == "" then [] else [Data(Body, body)]
  }

  predicate NoContent(s: Start)
    requires ProperStart(s)
  {
    s.StatusLine? && (Decimal(s.code) / 100 == 1 || Decimal(s.code) == 204 || Decimal(s.code) == 304)
  }

  predicate IsConnect(s: Start) { s.RequestLine? && s.verb.CONNECT? }

  /** The message asks for another protocol. */
  predicate Leaves(s: Start, hs: seq<Lines.Header>) {
    IsConnect(s) || (Lines.HasUpgrade(hs) && Lines.HasWord(hs, HttpConnections.UpgradeWord))
  }

  /** The connection stays open for another message: by default from version 1.1 on, and before
      that if it is asked for. (Both numbers are tested for being above 0, so that 2.0 counts as
      old.) */
  predicate KeepsAlive(s: Start, hs: seq<Lines.Header>)
    requires ProperStart(s)
  {
    if Decimal(s.major) > 0 && Decimal(s.minor) > 0 then !Lines.HasWord(hs, HttpConnections.CloseWord)
    else Lines.HasWord(hs, HttpConnections.KeepAliveWord)
  }

  /** The headers announce this body. Nothing follows a CONNECT request, whatever they say. */
  predicate Announced(s: Start, hs: seq<Lines.Header>, payload: Payload)
    requires ProperStart(s) && Lines.LengthsReadable(hs)
  {
    var length := Lines.LengthOf(hs, NO_LENGTH);
    if IsConnect(s) then payload.Empty?
    else match payload
      case InChunks(chunks, last) =>
        && Lines.HasChunked(hs) && (forall k <- chunks :: Chunked.Proper(k))
        && Chunked.SizeNumeral(last) && Chunked.HexValue(last) == 0
      case Sized(body) => !Lines.HasChunked(hs) && 0 < |body| == length < NO_LENGTH
      case Empty =>
        && !Lines.HasChunked(hs)
        && (length == 0 || (length == NO_LENGTH && (s.RequestLine? || NoContent(s) || Leaves(s, hs))))
      case ToTheEnd(_) =>
        !Lines.HasChunked(hs) && length == NO_LENGTH && s.StatusLine? && !NoContent(s) && !Leaves(s, hs)
  }

  function HeadText(s: Start, hs: seq<Lines.Header>): string { PrintStart(s) + Lines.PrintAll(hs) }

  function PrintMessage(s: Start, hs: seq<Lines.Header>, payload: Payload): string {
    HeadText(s, hs) + (CRLF + PrintPayload(payload))
  }

  function HeadEvents(s: Start, hs: seq<Lines.Header>): seq<Event> {
    (StartEvents(s) + Lines.Events(hs)) + [Note(HeadersComplete)]
  }

  function MessageEvents(s: Start, hs: seq<Lines.Header>, payload: Payload): seq<Event> {
    HeadEvents(s, hs) + PayloadEvents(payload)
  }

  /** The parser behind the header lines. */
  ghost predicate HeadTaken(c: Config, s: Start, hs: seq<Lines.Header>, d: Config)
    requires ProperStart(s) && Lines.LengthsReadable(hs)
  {
    var n := |HeadText(s, hs)|;
    d == Config(AfterStart(c.p, s, d.p.index).(flags := Lines.FlagsOf(NO_FLAGS, hs), header := d.p.header,
                                               contentLength := Lines.LengthOf(hs, NO_LENGTH)),
                c.log + (StartEvents(s) + Lines.Events(hs)), c.nread + n, c.used + n, Running)
  }

  /** The start line and the header lines, and what a further line finds. */
  lemma HeadRun(c: Config, s: Start, hs: seq<Lines.Header>, rest: string) returns (d: Config)
    requires Valid(c) && c.live.Running? && ProperStart(s) && Starting(c.p, s)
    requires (forall h <- hs :: Lines.Proper(h)) && Lines.LengthsReadable(hs)
    ensures Valid(d) && HeadTaken(c, s, hs, d) && Run(c, HeadText(s, hs) + (CRLF + rest)) == Run(d, CRLF + rest)
  {
    hide Valid, Inv, Run, ProperStart, Starting, PrintStart, StartEvents, Lines.Proper, Lines.LengthsReadable,
         Lines.FlagsOf, Lines.PrintAll, Lines.Events, Lines.Settle, EndsIn;
    var index := StartRun(c, s);
    var b := Run(c, PrintStart(s));
    NoFieldYet(c.log, s);
    Lines.HeaderLines(b, hs);
    var text := HeadText(s, hs);
    RunInTwo(c, PrintStart(s), Lines.PrintAll(hs));
    RunInTwo(c, text, CRLF + rest);
    Lines.SettledValid(Run(c, text));
    Lines.SettledRun(Run(c, text), CRLF + rest);
    d := Lines.Settle(Run(c, text));
    assert (c.log + StartEvents(s)) + Lines.Events(hs) == c.log + (StartEvents(s) + Lines.Events(hs));
  }

  /** The framing that the parser decides on. */
  function FramingFor(s: Start, hs: seq<Lines.Header>, payload: Payload): Framing {
    match payload
    case Empty => if Leaves(s, hs) then OtherProtocol else NoBody
    case Sized(body) => Length(|body|)
    case InChunks(_, _) => Chunks
    case ToTheEnd(_) => UntilClose
  }

  lemma FramingAnnounced(c: Config, s: Start, hs: seq<Lines.Header>, payload: Payload, d: Config)
    requires ProperStart(s) && Lines.LengthsReadable(hs) && Starting(c.p, s)
    requires HeadTaken(c, s, hs, d) && Announced(s, hs, payload)
    ensures FramingOf(d.p) == FramingFor(s, hs, payload) && Upgrading(d.p).upgrade == Leaves(s, hs) && !d.p.flags.trailing
  {
    hide Lines.HasUpgrade, Lines.HasChunked, Lines.HasWord, Lines.LengthOf, Lines.LengthsReadable, Decimal, IsNumeral, GoodUrl,
         AllSpaces, IsLineEnd;
  }

  /** Where the parser stands behind a message: before another one or at its end, or inside a
      body that only the end of the connection ends. */
  predicate StateBehind(s: Start, hs: seq<Lines.Header>, payload: Payload, state: State)
    requires ProperStart(s)
  {
    if payload.ToTheEnd? then state.BodyIdentityEof?
    else if Leaves(s, hs) then state.Dead? || state.StartReq? || state.StartRes?
    else state == if !KeepsAlive(s, hs) then Dead else if s.RequestLine? then StartReq else StartRes
  }

  /** Round trip: a printed message, taken from the start state of any parser, comes back as
      exactly its parts, in order, and its end is found where it was printed. */
  lemma MessageRoundTrip(c: Config, s: Start, hs: seq<Lines.Header>, payload: Payload)
    requires Valid(c) && c.live.Running? && ProperStart(s) && Starting(c.p, s)
    requires (forall h <- hs :: Lines.Proper(h)) && Lines.LengthsReadable(hs) && Announced(s, hs, payload)
    ensures
      var r := Run(c, PrintMessage(s, hs, payload));
      && r.log == c.log + MessageEvents(s, hs, payload) && r.used == c.used + |PrintMessage(s, hs, payload)|
      && (r.live == if Leaves(s, hs) then Upgraded else Running) && StateBehind(s, hs, payload, r.p.state)
      && r.p.kind == (if s.RequestLine? then Request else Response) && (s.StatusLine? ==> r.p.verb == c.p.verb)
  {
    hide Valid, Inv, Run, ProperStart, Starting, Lines.Proper, Lines.LengthsReadable, HeadText, StartEvents, Emit, Leaves,
         Lines.Events, NewMessage, FramingOf, Upgrading, Lines.FlagsOf, Lines.LengthOf, StateBehind, Announced;
    var d := HeadRun(c, s, hs, PrintPayload(payload));
    FramingAnnounced(c, s, hs, payload, d);
    PayloadRun(d, s, hs, payload);
    HeadFields(c, s, hs, payload, d);
    assert d.log + [Note(HeadersComplete)] == c.log + HeadEvents(s, hs);
    assert (c.log + HeadEvents(s, hs)) + PayloadEvents(payload) == c.log + MessageEvents(s, hs, payload);
  }

  /** The parser once a body of this kind is taken. */
  function AfterPayload(p: Parser, payload: Payload): Parser {
    match payload
    case Empty => Chunked.Completed(Upgrading(p))
    case Sized(_) => Chunked.Completed(Upgrading(p).(contentLength := 0))
    case InChunks(_, _) => Chunked.Completed(Upgrading(p).(contentLength := 0, flags := p.flags.(trailing := true)))
    case ToTheEnd(_) => Upgrading(p).(state := BodyIdentityEof)
  }

  lemma HeadFields(c: Config, s: Start, hs: seq<Lines.Header>, payload: Payload, d: Config)
    requires ProperStart(s) && Lines.LengthsReadable(hs) && Starting(c.p, s) && Announced(s, hs, payload)
    requires HeadTaken(c, s, hs, d)
    ensures
      var q := AfterPayload(d.p, payload);
      && q.kind == (if s.RequestLine? then Request else Response) && (s.StatusLine? ==> q.verb == c.p.verb)
      && StateBehind(s, hs, payload, q.state)
  {
    hide Lines.HasUpgrade, Lines.HasChunked, Lines.HasWord, Lines.LengthOf, Lines.LengthsReadable, Decimal, IsNumeral, GoodUrl,
         AllSpaces, IsLineEnd;
  }

  /** The empty line and the body. */
  lemma PayloadRun(d: Config, s: Start, hs: seq<Lines.Header>, payload: Payload)
    requires Valid(d) && d.live.Running? && d.p.state.HeaderFieldStart? && !d.p.flags.trailing
    requires ProperStart(s) && Lines.LengthsReadable(hs) && Announced(s, hs, payload)
    requires FramingOf(d.p) == FramingFor(s, hs, payload) && Upgrading(d.p).upgrade == Leaves(s, hs)
    ensures
      var r := Run(d, CRLF + PrintPayload(payload));
      && r.log == (d.log + [Note(HeadersComplete)]) + PayloadEvents(payload)
      && r.used == d.used + |CRLF + PrintPayload(payload)|
      && (r.live == if Leaves(s, hs) then Upgraded else Running)
      && r.p == AfterPayload(d.p, payload)
  {
    hide Valid, Inv, Run, ProperStart, Lines.LengthsReadable, NewMessage, FramingOf, Upgrading, Lines.HasChunked, Leaves,
         Lines.LengthOf, Emit, NoContent, Chunked.PrintAll, Chunked.AllEvents, Chunked.HexValue, Chunked.Completed;
    var log := d.log + [Note(HeadersComplete)];
    match payload {
      case Empty =>
        HeadersEnd(d);
        assert CRLF + "" == CRLF;
      case Sized(body) =>
        LengthDelivered(d, body);
        FirstOfBody(log, body);
      case InChunks(chunks, last) =>
        ChunksDelivered(d, chunks, last);
      case ToTheEnd(body) =>
        UntilCloseDelivered(d, body);
        if body == "" { assert log + [] == log; } else { FirstOfBody(log, body); }
    }
  }

  lemma FirstOfBody(log: seq<Event>, body: string)
    requires log != [] && log[|log| - 1].Note?
    ensures Emit(log, Data(Body, body)) == log + [Data(Body, body)]
    ensures (log + [Data(Body, body)]) + [Note(MessageComplete)] == log + [Data(Body, body), Note(MessageComplete)]
  {
  }

  /* ---- The RFC's framing of printed messages ---- */

  /** The value of the last Transfer-Encoding. */
  function EncodingOf(hs: seq<Lines.Header>): Option<string> {
    if hs == [] then None
    else if Lines.IsEncoding(hs[|hs| - 1]) then Some(hs[|hs| - 1].value) else EncodingOf(hs[..|hs| - 1])
  }

  function LengthGiven(hs: seq<Lines.Header>): Option<nat>
    requires Lines.LengthsReadable(hs)
  {
    var n := Lines.LengthOf(hs, NO_LENGTH);
    if n == NO_LENGTH then None else Some(n)
  }

  predicate OneEncoding(hs: seq<Lines.Header>) {
    forall i, j :: 0 <= i < j < |hs| ==> !(Lines.IsEncoding(hs[i]) && Lines.IsEncoding(hs[j]))
  }

  function MessageOf(s: Start, hs: seq<Lines.Header>): Message
    requires ProperStart(s) && Lines.LengthsReadable(hs)
  {
    var upgrade := Lines.HasUpgrade(hs) && Lines.HasWord(hs, HttpConnections.UpgradeWord);
    Message(s.RequestLine?, IsConnect(s), upgrade, if s.RequestLine? then 0 else Decimal(s.code), EncodingOf(hs), LengthGiven(hs))
  }

  lemma {:induction false} EncodingFound(hs: seq<Lines.Header>)
    requires OneEncoding(hs)
    ensures EncodingOf(hs).None? ==> forall h <- hs :: !Lines.IsEncoding(h)
    ensures Lines.HasChunked(hs) <==> EncodingOf(hs).Some? && Headers.SaysChunked(EncodingOf(hs).value)
    decreases |hs|
  {
    hide Lines.IsEncoding, Headers.SaysChunked;
    if hs != [] {
      var (most, h) := (hs[..|hs| - 1], hs[|hs| - 1]);
      EncodingFound(most);
      assert hs == most + [h];
      if Lines.IsEncoding(h) {
        forall x <- most ensures !Lines.IsEncoding(x) { var i :| 0 <= i < |most| && most[i] == x; assert hs[i] == x; }
        assert h in hs;
      }
    }
  }

  lemma {:induction false} LengthBounded(hs: seq<Lines.Header>)
    requires Lines.LengthsReadable(hs)
    ensures Lines.LengthOf(hs, NO_LENGTH) == NO_LENGTH || Lines.LengthOf(hs, NO_LENGTH) <= Headers.MAX_LENGTH
    decreases |hs|
  {
    hide Headers.DecimalValue, Lines.IsLength;
    if hs != [] {
      var (most, h) := (hs[..|hs| - 1], hs[|hs| - 1]);
      assert h in hs && forall x <- most :: x in hs;
      LengthBounded(most);
    }
  }

  /** The bodies of printed messages with one Transfer-Encoding at most: the parser delimits them
      as RFC 7230 says exactly in the cases that FollowsRfc tells. */
  lemma RfcFramingOfText(c: Config, s: Start, hs: seq<Lines.Header>) returns (d: Config)
    requires Valid(c) && c.live.Running? && ProperStart(s) && Starting(c.p, s)
    requires (forall h <- hs :: Lines.Proper(h)) && Lines.LengthsReadable(hs) && OneEncoding(hs)
    ensures Valid(d) && HeadTaken(c, s, hs, d)
    ensures Framed(d, Run(c, HeadText(s, hs) + CRLF), FramingByRfc(MessageOf(s, hs))) <==> FollowsRfc(MessageOf(s, hs))
  {
    hide Valid, Inv, Run, ProperStart, Lines.Proper, Lines.LengthsReadable, HeadText, StartEvents, FollowsRfc, FramingByRfc,
         Lines.Events, Lines.HasUpgrade, Lines.HasWord, Lines.HasChunked, Framed, EncodingOf, Headers.SaysChunked, OneEncoding,
         Lines.LengthOf;
    d := HeadRun(c, s, hs, "");
    assert CRLF + "" == CRLF;
    EncodingFound(hs);
    LengthBounded(hs);
    RfcFraming(d, MessageOf(s, hs));
  }

  /* ---- The header limit ---- */

  /** Room for `slack` more header bytes at each of the first `p` bytes. */
  ghost predicate RoomUpto(c: Config, data: string, p: nat, slack: nat)
    requires Valid(c) && p <= |data|
  {
    forall k: nat :: k < p ==> RoomAt(c, data, k, slack)
  }

  lemma HeadRoom(c: Config, head: string, slack: nat)
    requires Valid(c) && c.nread + |head| + slack <= HTTP_MAX_HEADER_SIZE
    ensures RoomUpto(c, head, |head|, slack)
  {
    hide Valid, Step;
    forall k: nat | k < |head|
      ensures RoomAt(c, head, k, slack)
    {
      CountFrom(c, head, 0, k);
    }
  }

  lemma BodyRoom(d: Config, body: string, slack: nat)
    requires Valid(d) && d.live.Running? && body != ""
    requires d.p.state.BodyIdentityEof? || (d.p.state.BodyIdentity? && d.p.contentLength == |body|)
    ensures RoomUpto(d, body, |body|, slack)
  {
    hide Valid, Inv, Upto;
    Chunked.AtStart(d, body);
    forall k: nat | k < |body|
      ensures RoomAt(d, body, k, slack)
    {
      BodyCounts(d, body, 0, k + 1);
    }
  }

  /** The sizes in front of the chunks are not absurdly long. */
  predicate ShortSizes(payload: Payload, slack: nat) {
    payload.InChunks? ==> |payload.last| + 4 + slack < HTTP_MAX_HEADER_SIZE
                          && forall k <- payload.chunks :: |k.size| + 4 + slack < HTTP_MAX_HEADER_SIZE
  }

  lemma ChunksRoom(d: Config, payload: Payload, slack: nat)
    requires Valid(d) && d.live.Running? && d.nread == 0 && d.p.state.ChunkSizeStart?
    requires payload.InChunks? && ShortSizes(payload, slack) && forall k <- payload.chunks :: Chunked.Proper(k)
    requires Chunked.SizeNumeral(payload.last) && Chunked.HexValue(payload.last) == 0
    ensures RoomUpto(d, PrintPayload(payload), |PrintPayload(payload)|, slack)
  {
    hide Valid, Inv, Upto, Chunked.Proper, Chunked.SizeNumeral, Chunked.HexValue, Chunked.PrintAll;
    var text := PrintPayload(payload);
    forall k: nat | k < |text|
      ensures RoomAt(d, text, k, slack)
    {
      Chunked.ChunksUncounted(d, payload.chunks, payload.last, k, HTTP_MAX_HEADER_SIZE - slack);
    }
  }

  /** Room in both parts is room in the whole. */
  lemma RoomBoth(c: Config, a: string, b: string, slack: nat)
    requires Valid(c) && RoomUpto(c, a, |a|, slack) && RoomUpto(Run(c, a), b, |b|, slack)
    ensures RoomUpto(c, a + b, |a + b|, slack)
  {
    hide Valid, Upto;
    forall k: nat | k < |a + b|
      ensures RoomAt(c, a + b, k, slack)
    {
      if k >= |a| {
        UptoSuffix(c, a, b, k - |a|);
        assert RoomAt(Run(c, a), b, k - |a|, slack);
      } else {
        UptoPrefix(c, a, b, k);
        assert RoomAt(c, a, k, slack);
      }
    }
  }

  lemma {:induction false} RoomLeft(c: Config, data: string, p: nat, slack: nat)
    requires Valid(c) && p <= |data| && c.nread + slack <= HTTP_MAX_HEADER_SIZE && RoomUpto(c, data, p, slack)
    ensures Upto(c, data, p).nread + slack <= HTTP_MAX_HEADER_SIZE
  {
    hide Valid, Inv, Step;
    if p > 0 {
      RoomLeft(c, data, p - 1, slack);
      assert RoomAt(c, data, p - 1, slack);
      var d := Upto(c, data, p - 1);
      if d.live.Running? { StepCounts(d, data[p - 1]); }
    }
  }

  lemma PayloadRoom(e: Config, payload: Payload, slack: nat)
    requires Valid(e) && e.live.Running? && e.nread == 0 && ShortSizes(payload, slack)
    requires
      match payload
      case Empty => true
      case Sized(body) => e.p.state.BodyIdentity? && body != "" && e.p.contentLength == |body|
      case InChunks(chunks, last) =>
        e.p.state.ChunkSizeStart? && (forall k <- chunks :: Chunked.Proper(k))
        && Chunked.SizeNumeral(last) && Chunked.HexValue(last) == 0
      case ToTheEnd(_) => e.p.state.BodyIdentityEof?
    ensures RoomUpto(e, PrintPayload(payload), |PrintPayload(payload)|, slack)
  {
    hide Valid, Inv, Upto, Chunked.Proper, Chunked.SizeNumeral, Chunked.HexValue, Chunked.PrintAll, RoomAt, ShortSizes;
    match payload {
      case Empty =>
      case Sized(body) => BodyRoom(e, body, slack);
      case InChunks(chunks, last) => ChunksRoom(e, payload, slack);
      case ToTheEnd(body) => if body != "" { BodyRoom(e, body, slack); }
    }
  }

  /** A message whose head leaves room for `slack` more header bytes leaves it everywhere. */
  lemma MessageRoom(c: Config, s: Start, hs: seq<Lines.Header>, payload: Payload, slack: nat)
    requires Valid(c) && c.live.Running? && ProperStart(s) && Starting(c.p, s)
    requires (forall h <- hs :: Lines.Proper(h)) && Lines.LengthsReadable(hs) && Announced(s, hs, payload)
    requires c.nread + |HeadText(s, hs)| + 2 + slack <= HTTP_MAX_HEADER_SIZE && ShortSizes(payload, slack)
    ensures Roomy(c, PrintMessage(s, hs, payload), slack)
  {
    hide Valid, Inv, Run, ProperStart, Starting, Lines.Proper, Lines.LengthsReadable, HeadText, StartEvents, Upto,
         Lines.Events, NewMessage, FramingOf, Upgrading, Lines.FlagsOf, Lines.HasChunked, Lines.LengthOf, RoomAt, NoContent, Leaves,
         Chunked.PrintAll, Chunked.HexValue, Chunked.Proper, Chunked.SizeNumeral, ShortSizes;
    var (head, rest) := (HeadText(s, hs) + CRLF, PrintPayload(payload));
    var text := head + rest;
    var d := HeadRun(c, s, hs, "");
    assert CRLF + "" == CRLF;
    FramingAnnounced(c, s, hs, payload, d);
    HeadersEnd(d);
    HeadRoom(c, head, slack);
    if rest == "" {
      assert text == head;
    } else {
      PayloadRoom(Run(c, head), payload, slack);
      RoomBoth(c, head, rest, slack);
    }
    assert text == PrintMessage(s, hs, payload);
    RoomyText(c, text, slack);
  }

  lemma RoomyText(c: Config, text: string, slack: nat)
    requires Valid(c) && RoomUpto(c, text, |text|, slack) && c.nread + slack <= HTTP_MAX_HEADER_SIZE
    ensures Roomy(c, text, slack)
  {
    hide Valid, Upto, RoomAt;
    RoomLeft(c, text, |text|, slack);
  }

  lemma NotExceeding(c: Config, data: string)
    requires Valid(c) && Roomy(c, data, 0)
    requires !Run(c, data).p.state.HeaderField? && !Run(c, data).p.state.HeaderValue?
    ensures !Exceeds(c, data)
  {
    hide Valid, Upto, OverCount;
    forall k: nat | k < |data|
      ensures !Crowded(c, data, k)
    {
      assert RoomAt(c, data, k, 0);
    }
    if OverCount(c, data, |data|) != 0 { OverInside(c, data, |data|); }
  }

  lemma NoStringOpen(s: Start, hs: seq<Lines.Header>, payload: Payload, state: State)
    requires ProperStart(s) && StateBehind(s, hs, payload, state)
    ensures !state.HeaderField? && !state.HeaderValue?
  {
  }

  /* ---- The round trip of http_parser_execute ---- */

  /** Round trip of `http_parser_execute`: a printed message whose head fits into the header
      limit is taken whole, without error, and every callback is one of its parts. */
  method Receive(parser: HttpParser, s: Start, hs: seq<Lines.Header>, payload: Payload) returns (taken: nat, upgraded: bool)
    requires parser.Ready() && parser.fields.errno.OK? && ProperStart(s) && Starting(parser.fields, s)
    requires (forall h <- hs :: Lines.Proper(h)) && Lines.LengthsReadable(hs) && Announced(s, hs, payload)
    requires parser.nread + |HeadText(s, hs)| + 2 <= HTTP_MAX_HEADER_SIZE && ShortSizes(payload, 0)
    modifies parser
    ensures parser.Ready() && parser.fields.errno.OK? && upgraded == Leaves(s, hs)
    ensures parser.log == old(parser.log) + MessageEvents(s, hs, payload)
    ensures taken == |PrintMessage(s, hs, payload)|
    ensures StateBehind(s, hs, payload, parser.fields.state)
  {
    hide Valid, Inv, Upto, CountFits, Emit, Exceeds, Roomy, ProperStart, Starting, Lines.Proper, Lines.LengthsReadable, Announced,
         HeadText, MessageEvents, ShortSizes, PrintPayload, StateBehind, Leaves;
    ghost var c := parser.Now();
    MessageRoundTrip(c, s, hs, payload);
    MessageRoom(c, s, hs, payload, 0);
    NoStringOpen(s, hs, payload, Run(c, PrintMessage(s, hs, payload)).p.state);
    NotExceeding(c, PrintMessage(s, hs, payload));
    taken, upgraded := parser.Execute(PrintMessage(s, hs, payload));
  }

  /** The same for a message that arrives in pieces, cut anywhere, if the head leaves room for
      one more header byte a piece. */
  method ReceivePieces(parser: HttpParser, s: Start, hs: seq<Lines.Header>, payload: Payload, pieces: seq<string>)
    returns (taken: nat, upgraded: bool)
    requires parser.Ready() && parser.fields.errno.OK? && ProperStart(s) && Starting(parser.fields, s)
    requires (forall h <- hs :: Lines.Proper(h)) && Lines.LengthsReadable(hs) && Announced(s, hs, payload)
    requires (forall piece <- pieces :: piece != "") && Join(pieces) == PrintMessage(s, hs, payload)
    requires parser.nread + |HeadText(s, hs)| + 2 + |pieces| <= HTTP_MAX_HEADER_SIZE && ShortSizes(payload, |pieces|)
    modifies parser
    ensures parser.Ready() && parser.fields.errno.OK? && upgraded == Leaves(s, hs)
    ensures parser.log == old(parser.log) + MessageEvents(s, hs, payload)
    ensures taken == |PrintMessage(s, hs, payload)|
    ensures StateBehind(s, hs, payload, parser.fields.state)
  {
    hide Valid, Inv, Upto, CountFits, Emit, Exceeds, Roomy, ProperStart, Starting, Lines.Proper, Lines.LengthsReadable, Announced,
         HeadText, MessageEvents, ShortSizes, PrintPayload, PrintMessage, Join, StateBehind, Leaves;
    ghost var c := parser.Now();
    MessageRoundTrip(c, s, hs, payload);
    MessageRoom(c, s, hs, payload, |pieces|);
    taken, upgraded := Feed(parser, pieces);
  }

  /** A response that only the end of the connection ends: the zero length that stands for it
      completes the message, and the parser stays where it was. */
  method ReceiveToTheEnd(parser: HttpParser, s: Start, hs: seq<Lines.Header>, payload: Payload)
    requires parser.Ready() && parser.fields.errno.OK? && ProperStart(s) && Starting(parser.fields, s)
    requires (forall h <- hs :: Lines.Proper(h)) && Lines.LengthsReadable(hs) && Announced(s, hs, payload)
    requires parser.nread + |HeadText(s, hs)| + 2 <= HTTP_MAX_HEADER_SIZE && payload.ToTheEnd?
    modifies parser
    ensures parser.Ready() && parser.fields.errno.OK? && parser.fields.state.BodyIdentityEof?
    ensures parser.log == old(parser.log) + MessageEvents(s, hs, payload) + [Note(MessageComplete)]
  {
    hide Valid, Inv, Upto, CountFits, Emit, Exceeds, ProperStart, Starting, Lines.Proper, Lines.LengthsReadable, Announced,
         HeadText, MessageEvents;
    var taken, upgraded := Receive(parser, s, hs, payload);
    taken, upgraded := parser.Execute("");
  }

  /* ---- Messages one after the other ---- */

  datatype Sent = Sent(start: Start, headers: seq<Lines.Header>, payload: Payload)

  predicate ProperSent(m: Sent) {
    && ProperStart(m.start) && (forall h <- m.headers :: Lines.Proper(h)) && Lines.LengthsReadable(m.headers)
    && Announced(m.start, m.headers, m.payload)
  }

  /** Another message may follow. */
  predicate GoesOn(m: Sent) {
    ProperStart(m.start) && !m.payload.ToTheEnd? && !Leaves(m.start, m.headers) && KeepsAlive(m.start, m.headers)
  }

  predicate Pipeline(ms: seq<Sent>) {
    && (forall m <- ms :: ProperSent(m))
    && (forall i :: 0 <= i < |ms| - 1 ==> GoesOn(ms[i]))
    && (forall i, j :: 0 <= i < j < |ms| ==> ms[i].start.RequestLine? == ms[j].start.RequestLine?)
  }

  function PrintSent(ms: seq<Sent>): string {
    if ms == [] then "" else PrintMessage(ms[0].start, ms[0].headers, ms[0].payload) + PrintSent(ms[1..])
  }

  function SentEvents(ms: seq<Sent>): seq<Event> {
    if ms == [] then [] else MessageEvents(ms[0].start, ms[0].headers, ms[0].payload) + SentEvents(ms[1..])
  }

  /** Messages that are sent one after the other over a connection that each but the last keeps
      alive: the parser finds every one of them, and nothing else. */
  lemma {:induction false} PipelineRoundTrip(c: Config, ms: seq<Sent>)
    requires Valid(c) && c.live.Running? && Pipeline(ms) && (ms != [] ==> Starting(c.p, ms[0].start))
    ensures
      var r := Run(c, PrintSent(ms));
      r.log == c.log + SentEvents(ms) && r.used == c.used + |PrintSent(ms)| && !r.live.Failed?
    decreases |ms|
  {
    hide Valid, Inv, Run, ProperSent, GoesOn, PrintMessage, MessageEvents;
    if ms == [] {
      NothingSent(c);
    } else {
      var (m, rest) := (ms[0], ms[1..]);
      var text := PrintMessage(m.start, m.headers, m.payload);
      OneSent(c, m);
      RunInTwo(c, text, PrintSent(rest));
      if rest == [] {
        assert text + "" == text;
        assert c.log + SentEvents(ms) == c.log + MessageEvents(m.start, m.headers, m.payload);
      } else {
        assert GoesOn(ms[0]) && ms[0].start.RequestLine? == ms[1].start.RequestLine?;
        PipelineRoundTrip(Run(c, text), rest);
        assert (c.log + MessageEvents(m.start, m.headers, m.payload)) + SentEvents(rest) == c.log + SentEvents(ms);
      }
    }
  }

  lemma NothingSent(c: Config)
    requires Valid(c) && c.live.Running?
    ensures Run(c, PrintSent([])) == c && c.log + SentEvents([]) == c.log
  {
  }

  lemma OneSent(c: Config, m: Sent)
    requires Valid(c) && c.live.Running? && ProperSent(m) && Starting(c.p, m.start)
    ensures
      var text := PrintMessage(m.start, m.headers, m.payload);
      var r := Run(c, text);
      && r.log == c.log + MessageEvents(m.start, m.headers, m.payload) && r.used == c.used + |text| && !r.live.Failed?
      && (GoesOn(m) ==> r.live.Running? && StartsAgain(r.p, m.start.RequestLine?))
  {
    hide Valid, Inv, Run, PrintMessage, MessageEvents, Announced, Lines.Proper, Lines.LengthsReadable, ProperStart, Leaves, KeepsAlive;
    MessageRoundTrip(c, m.start, m.headers, m.payload);
  }

  /** The start states of a parser that has taken a message. */
  predicate StartsAgain(p: Parser, request: bool) {
    if request then p.state.StartReq? && p.kind.Request? else p.state.StartRes? && p.kind.Response? && !p.verb.CONNECT?
  }

  /** `http_parser_execute` on such a run of messages, cut anywhere. */
  method ReceiveAll(parser: HttpParser, ms: seq<Sent>, pieces: seq<string>) returns (taken: nat, upgraded: bool)
    requires parser.Ready() && parser.fields.errno.OK? && Pipeline(ms) && (ms != [] ==> Starting(parser.fields, ms[0].start))
    requires (forall piece <- pieces :: piece != "") && Join(pieces) == PrintSent(ms)
    requires Roomy(parser.Now(), PrintSent(ms), |pieces|)
    modifies parser
    ensures parser.Ready() && parser.fields.errno.OK?
    ensures parser.log == old(parser.log) + SentEvents(ms) && taken == |PrintSent(ms)|
  {
    hide Valid, Inv, Upto, CountFits, Emit, Exceeds, Roomy, Pipeline, Starting, PrintSent, SentEvents, Join;
    PipelineRoundTrip(parser.Now(), ms);
    taken, upgraded := Feed(parser, pieces);
  }

  /** The URLs that are printed from parts may stand in a request line. */
  lemma PrintedUrl(u: UrlText.Parts, verb: Method)
    requires UrlText.Proper(u) && (u.target.Connect? <==> verb.CONNECT?)
    ensures GoodUrl(verb, UrlText.Print(u))
  {
    hide UrlText.Print, UrlText.Proper, Trace, HasAt, SpanUpto, UrlText.FragmentSpan;
    UrlText.AllFound(u);
  }

  /* ---- A cut that matters ---- */

  const SLASH: Start := RequestLine(GET, "/", "1", "1", CRLF)

  lemma SlashIsProper()
    ensures ProperStart(SLASH) && |PrintStart(SLASH)| == 16
  {
    assert Trace("/", ReqSpacesBeforeUrl, 1) == ReqPath;
    assert "1"[..0] == "";
    assert Decimal("1") == MoreDigits(Decimal(""), '1');
  }

  /** A parser comes to stand inside a header name with three bytes left of the header limit. */
  method AtTheEdge() returns (parser: HttpParser)
    ensures fresh(parser) && parser.Ready() && parser.fields.errno.OK?
    ensures parser.fields.state.HeaderField? && parser.nread == HTTP_MAX_HEADER_SIZE - 3
  {
    hide Valid, Inv, Upto, CountFits, Emit, ProperStart, PrintStart, Exceeds, OverCount, Decimal;
    parser := new HttpParser(Request);
    SlashIsProper();
    var name := seq(HTTP_MAX_HEADER_SIZE - 20, (i: int) => 'a');
    assert Headers.IsName(name);
    ghost var c := parser.Now();
    NameReached(c, name);
    var taken, upgraded := parser.Execute(PrintStart(SLASH) + name);
  }

  lemma NameReached(c: Config, name: string)
    requires Valid(c) && c.p == Init(Request) && c.nread == 0 && c.live.Running?
    requires Headers.IsName(name) && |name| == HTTP_MAX_HEADER_SIZE - 20
    ensures
      var text := PrintStart(SLASH) + name;
      && !Exceeds(c, text) && Run(c, text).live.Running? && Run(c, text).p.state.HeaderField?
      && Run(c, text).nread == HTTP_MAX_HEADER_SIZE - 4 && OverCount(c, text, |text|) == 1
  {
    hide Valid, Inv, Upto, Emit, ProperStart, PrintStart, OverCount, Headers.IsName, Headers.NameState, Headers.Tokens;
    SlashIsProper();
    var (start, n) := (PrintStart(SLASH), |name|);
    var text := start + name;
    var index := StartRun(c, SLASH);
    var d := Run(c, start);
    RunInTwo(c, start, name);
    Headers.NameUpto(d, name, n);
    Headers.NameUpto(d, name, n - 1);
    UptoSuffix(c, start, name, n - 1);
    UptoSuffix(c, start, name, n);
    StillInside(c, text, |text| - 1);
    HeadRoom(c, text, 1);
    RoomyText(c, text, 1);
    RoomyFits(c, text, 1);
  }

  lemma OneMoreByte(c: Config, ch: char)
    requires Valid(c) && c.live.Running? && c.p.state.HeaderField? && Token(ch) != '\0'
    ensures
      var d := Run(c, [ch]);
      d.live.Running? && d.p.state.HeaderField? && d.nread == c.nread + 1 && OverCount(c, [ch], 1) == 1
  {
    hide Valid, Inv, Step, FieldByte, Token, Emit;
    Headers.RunOne(c, ch);
    FieldStep(c, ch);
  }

  lemma TwoMoreBytes(c: Config, a: char, b: char)
    requires Valid(c) && c.live.Running? && c.p.state.HeaderField? && Token(a) != '\0' && Token(b) != '\0'
    requires c.nread == HTTP_MAX_HEADER_SIZE - 3
    ensures !Exceeds(c, [a, b]) && Run(c, [a, b]).live.Running?
    ensures !Exceeds(c, [a])
    ensures forall d: Config :: Valid(d) && d.p == Run(c, [a]).p && d.live.Running? && d.nread == HTTP_MAX_HEADER_SIZE - 1
              ==> Exceeds(d, [b]) && Run(d, [b]).live.Running?
  {
    hide Valid, Inv, Step, FieldByte, Token, Emit, OverCount;
    OneMoreByte(c, a);
    var m := Run(c, [a]);
    OneMoreByte(m, b);
    RunInTwo(c, [a], [b]);
    assert [a] + [b] == [a, b];
    assert Upto(c, [a, b], 0) == c && Upto(c, [a], 0) == c;
    UptoPrefix(c, [a], [b], 1);
    forall d: Config | Valid(d) && d.p == m.p && d.live.Running? && d.nread == HTTP_MAX_HEADER_SIZE - 1
      ensures Exceeds(d, [b]) && Run(d, [b]).live.Running?
    {
      OneMoreByte(d, b);
    }
  }

  /** The same two bytes in one buffer and in two, for two parsers that stand alike inside a
      header name with three bytes left: the one passes, the other ends in HPE_HEADER_OVERFLOW. */
  method OnlyTheCutOverflows(one: HttpParser, cut: HttpParser, a: char, b: char)
    requires one != cut && one.Ready() && cut.Ready() && one.fields == cut.fields && one.log == cut.log
    requires one.fields.errno.OK? && one.fields.state.HeaderField? && Token(a) != '\0' && Token(b) != '\0'
    requires one.nread == cut.nread == HTTP_MAX_HEADER_SIZE - 3
    modifies one, cut
    ensures one.fields.errno.OK? && cut.fields.errno.HeaderOverflow?
  {
    hide Valid, Inv, Upto, CountFits, Emit, Exceeds, OverCount, Token;
    ghost var c := one.Now();
    TwoMoreBytes(c, a, b);
    OneMoreByte(c, a);
    var taken, upgraded := one.Execute([a, b]);
    taken, upgraded := cut.Execute([a]);
    taken, upgraded := cut.Execute([b]);
  }
}
