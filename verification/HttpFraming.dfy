/** What follows the headers: the body that section 3.3.3 of RFC 7230 gives a message, where the
    parser follows it and where it does not, and the delivery of each kind of body. */
module HttpFraming {
  import opened Wrappers
  import opened HttpTypes
  import opened HttpSwitch
  import opened HttpRun
  import opened HttpExecute
  import opened HttpChunked
  import opened HttpHeaders

  /* ---- The rules of the RFC ---- */

  /** A message as its recipient knows it before the body: whether it is a request, a CONNECT
      request, one that asks for another protocol; the status of a response; and the values of
      Transfer-Encoding and Content-Length. */
  datatype Message = Message(request: bool, connect: bool, upgrade: bool, status: nat,
                             encoding: Option<string>, length: Option<nat>)

  /** How the rest of a message is delimited. */
  datatype Framing = OtherProtocol | Chunks | Length(n: nat) | NoBody | UntilClose | Refuse

  /** The last of the codings that a Transfer-Encoding lists is `chunked`, in any case. */
  predicate FinalChunked(v: string) { Lowers(TrimStart(LastItem(TrimEnd(v)))) == CHUNKED }

  predicate Bodiless(m: Message) { !m.request && (m.status / 100 == 1 || m.status == 204 || m.status == 304) }

  /** Section 3.3.3 of RFC 7230, but for the answers to HEAD and CONNECT, which only somebody
      who knows the request can tell. */
  function FramingByRfc(m: Message): Framing {
    if Bodiless(m) then NoBody
    else match m.encoding
      case Some(v) => if FinalChunked(v) then Chunks else if m.request then Refuse else UntilClose
      case None =>
        match m.length
        case Some(n) => if n == 0 then NoBody else Length(n)
        case None => if m.request then NoBody else UntilClose
  }

  /* ---- The parser's decision ---- */

  /** The parser's fields after the headers of a message. */
  ghost predicate Describes(p: Parser, m: Message) {
    && (p.kind.Request? <==> m.request) && (p.verb.CONNECT? <==> m.connect) && (m.connect ==> m.request)
    && (p.flags.upgrade && p.flags.connUpgrade <==> m.upgrade) && (!m.request ==> p.status == m.status)
    && (p.flags.chunked <==> m.encoding.Some? && SaysChunked(m.encoding.value))
    && p.contentLength == (if m.length.Some? then m.length.value else NO_LENGTH)
    && (m.length.Some? ==> m.length.value <= MAX_LENGTH)
  }

  /** The messages whose body the parser delimits as the RFC says. */
  predicate FollowsRfc(m: Message) {
    var empty := m.length.None? || m.length == Some(0);
    var exact := m.encoding.Some? && SaysChunked(m.encoding.value);
    if m.connect || (m.upgrade && !exact && empty)
    then Bodiless(m) || (m.encoding.None? && (m.length == Some(0) || (m.request && empty)))
    else if Bodiless(m) then !exact && empty
    else m.encoding.None? || exact || (!m.request && !FinalChunked(m.encoding.value) && m.length.None?)
  }

  function FramingOf(p: Parser): Framing {
    if p.verb.CONNECT? || (p.flags.upgrade && p.flags.connUpgrade && !HasBody(p)) then OtherProtocol
    else if p.flags.chunked then Chunks
    else if p.contentLength != NO_LENGTH then if p.contentLength == 0 then NoBody else Length(p.contentLength)
    else if NeedsEof(p) then UntilClose else NoBody
  }

  predicate HasBody(p: Parser) { p.flags.chunked || (p.contentLength != 0 && p.contentLength != NO_LENGTH) }

  /** The parser behind the headers. */
  function Upgrading(p: Parser): Parser {
    p.(upgrade := (p.flags.upgrade && p.flags.connUpgrade) || p.verb.CONNECT?)
  }

  /** Where the parser stands once the empty line after the headers is taken. */
  function Behind(c: Config, f: Framing): Config {
    var q := Upgrading(c.p);
    var log := c.log + [Note(HeadersComplete)];
    match f
    case OtherProtocol => Config(Completed(q), log + [Note(MessageComplete)], 0, c.used + 2, Upgraded)
    case Chunks => Config(q.(state := ChunkSizeStart), log, 0, c.used + 2, Running)
    case Length(n) => Config(q.(state := BodyIdentity, contentLength := n), log, 0, c.used + 2, Running)
    case NoBody => Config(Completed(q), log + [Note(MessageComplete)], 0, c.used + 2, Running)
    case UntilClose => Config(q.(state := BodyIdentityEof), log, 0, c.used + 2, Running)
    case Refuse => c.(live := Failed)
  }

  /** The parser has no framing that it refuses. */
  lemma NoneRefused(p: Parser)
    ensures !FramingOf(p).Refuse?
  {
  }

  /** The empty line after the headers leads to the state that the parser's decision calls for. */
  lemma HeadersEnd(c: Config)
    requires Valid(c) && c.live.Running? && c.p.state.HeaderFieldStart? && !c.p.flags.trailing
    ensures Run(c, CRLF) == Behind(c, FramingOf(c.p))
  {
    hide Valid, Inv, Step, Switch, NewMessage, FramingOf, Completed, Upgrading;
    TrailerEndStep(c);
    var d := Step(c, CR);
    HeadersAlmostDoneStep(d);
    TwoBytes(c, CR, LF);
    assert CRLF == [CR, LF];
    var e := Config(Upgrading(d.p).(state := HeadersDone), d.log + [Note(HeadersComplete)], d.nread + 1, d.used, Running);
    SameFraming(c.p, e.p);
    NoneRefused(c.p);
    HeadersDoneTrip(e);
  }

  lemma SameFraming(p: Parser, q: Parser)
    requires q == Upgrading(p.(state := HeadersAlmostDone)).(state := HeadersDone)
    ensures q == Upgrading(q) && FramingOf(p) == FramingOf(q) && Completed(q) == Completed(Upgrading(p))
    ensures q.(state := ChunkSizeStart) == Upgrading(p).(state := ChunkSizeStart)
    ensures q.(state := BodyIdentity) == Upgrading(p).(state := BodyIdentity)
    ensures q.(state := BodyIdentityEof) == Upgrading(p).(state := BodyIdentityEof)
    ensures FramingOf(p).Length?
            ==> q.(state := BodyIdentity) == Upgrading(p).(state := BodyIdentity, contentLength := FramingOf(p).n)
  {
    hide NewMessage;
  }

  lemma HeadersAlmostDoneStep(c: Config)
    requires Valid(c) && c.live.Running? && c.p.state.HeadersAlmostDone? && !c.p.flags.trailing
    ensures
      var e := Config(Upgrading(c.p).(state := HeadersDone), c.log + [Note(HeadersComplete)], c.nread + 1, c.used, Running);
      Valid(e) && Step(c, LF) == Dispatch(e, LF)
  {
    hide Valid, Inv, Emit, NewMessage, Dispatch;
    hide StartSwitch, ConstantSwitch, NumberSwitch, StatusSwitch, MethodMove, UrlSwitch, FieldMove, ValueMove, ChunkSwitch, HeaderSwitch;
    var b := c.(nread := c.nread + 1);
    CountedValid(c);
    TwoActs(c.log, Fire(HeadersComplete), Fire(HeadersComplete), LF);
    SwitchAgain(b, LF);
  }

  lemma HeadersDoneTrip(c: Config)
    requires Valid(c) && c.live.Running? && c.p.state.HeadersDone?
    requires c.p == Upgrading(c.p)
    ensures
      Dispatch(c, LF)
      == match FramingOf(c.p)
         case OtherProtocol => Config(Completed(c.p), c.log + [Note(MessageComplete)], 0, c.used + 1, Upgraded)
         case Chunks => Config(c.p.(state := ChunkSizeStart), c.log, 0, c.used + 1, Running)
         case Length(_) => Config(c.p.(state := BodyIdentity), c.log, 0, c.used + 1, Running)
         case UntilClose => Config(c.p.(state := BodyIdentityEof), c.log, 0, c.used + 1, Running)
         case _ => Config(Completed(c.p), c.log + [Note(MessageComplete)], 0, c.used + 1, Running)
  {
    hide Valid, Inv, Emit, Dispatch;
    hide StartSwitch, ConstantSwitch, NumberSwitch, StatusSwitch, MethodMove, UrlSwitch, FieldMove, ValueMove, ChunkSwitch, HeaderSwitch;
    SwitchEnds(c, LF);
    TwoActs(c.log, Fire(MessageComplete), Fire(MessageComplete), LF);
  }

  /* ---- Where the parser follows the RFC ---- */

  /** The word `chunked` alone, perhaps with spaces behind it, is a list that ends with it. */
  lemma {:induction false} SaysChunkedIsFinal(v: string)
    requires SaysChunked(v)
    ensures FinalChunked(v)
    decreases |v|
  {
    if |v| > 7 {
      assert v[..|v| - 1][..7] == v[..7];
      SaysChunkedIsFinal(v[..|v| - 1]);
    } else {
      assert v[..7] == v;
      ChunkedLetters(v);
      NoComma(v);
    }
  }

  lemma ChunkedLetters(v: string)
    requires Lowers(v) == CHUNKED
    ensures |v| == 7 && forall ch <- v :: !IsBlank(ch) && ch != ','
  {
    hide Lower, Lowers, IsBlank;
    forall i: nat | i < |v|
      ensures !IsBlank(v[i]) && v[i] != ','
    {
      LowersAt(v, i);
      assert CHUNKED[i] in CHUNKED;
      BlankLower(v[i]);
    }
  }

  lemma BlankLower(ch: char)
    ensures IsBlank(ch) || ch == ',' ==> Lower(ch) !in CHUNKED
  {
  }

  /** What a decision must be to agree with the RFC; leaving for another protocol with the
      headers agrees with a message that has no body. */
  predicate Agrees(ours: Framing, rfc: Framing) { ours == rfc || (ours.OtherProtocol? && rfc.NoBody?) }

  lemma DecisionFollowsRfc(p: Parser, m: Message)
    requires Describes(p, m)
    ensures Agrees(FramingOf(p), FramingByRfc(m)) <==> FollowsRfc(m)
  {
    hide SaysChunked, FinalChunked;
    if m.encoding.Some? && SaysChunked(m.encoding.value) { SaysChunkedIsFinal(m.encoding.value); }
  }

  /** After the headers, the machine is where the RFC's framing calls for. */
  ghost predicate Framed(c: Config, r: Config, f: Framing) {
    r == Behind(c, f) || (f.NoBody? && r == Behind(c, OtherProtocol))
  }

  /** The empty line after the headers leads to the body that RFC 7230 gives the message
      exactly if the message is one of those that the parser treats by the RFC: no encoding but
      `chunked` alone, or on a response an encoding that does not end with `chunked` and no
      length; and neither chunks nor a length on a 1xx, 204 or 304. */
  lemma RfcFraming(c: Config, m: Message)
    requires Valid(c) && c.live.Running? && c.p.state.HeaderFieldStart? && !c.p.flags.trailing
    requires Describes(c.p, m)
    ensures Framed(c, Run(c, CRLF), FramingByRfc(m)) <==> FollowsRfc(m)
  {
    hide Valid, Inv, Run, NewMessage, FollowsRfc, FramingByRfc, FramingOf, Describes, Behind;
    var ours, rfc := FramingOf(c.p), FramingByRfc(m);
    HeadersEnd(c);
    DecisionFollowsRfc(c.p, m);
    NoneRefused(c.p);
    if ours != rfc { Apart(c, ours, rfc); }
    if ours != OtherProtocol { Apart(c, ours, OtherProtocol); }
  }

  /** Different decisions lead to different states. */
  lemma Apart(c: Config, f: Framing, g: Framing)
    requires c.live.Running? && f != g && !f.Refuse?
    ensures Behind(c, f) != Behind(c, g)
  {
  }

  /** Failing inputs: a 204 with a Content-Length, a chunked 304, a request whose encoding only
      ends with `chunked`, and a response with a length beside another encoding. */
  lemma RfcNotFollowed(p: Parser, m: Message)
    requires Describes(p, m) && !m.connect && !m.upgrade
    ensures !m.request && m.status == 204 && m.encoding.None? && m.length == Some(5)
            ==> FramingOf(p) == Length(5) && FramingByRfc(m) == NoBody
    ensures !m.request && m.status == 304 && m.encoding == Some("chunked")
            ==> FramingOf(p) == Chunks && FramingByRfc(m) == NoBody
    ensures m.request && m.encoding == Some("gzip, chunked") && m.length.None?
            ==> FramingOf(p) == NoBody && FramingByRfc(m) == Chunks
    ensures !m.request && m.status == 200 && m.encoding == Some("gzip") && m.length == Some(5)
            ==> FramingOf(p) == Length(5) && FramingByRfc(m) == UntilClose
  {
    hide SaysChunked, FinalChunked;
    Codings();
  }

  lemma Codings()
    ensures SaysChunked("chunked") && !SaysChunked("gzip, chunked") && !SaysChunked("gzip")
    ensures FinalChunked("gzip, chunked") && !FinalChunked("gzip")
  {
    hide Lower, Lowers, TrimEnd, LastItem, TrimStart, IsBlank;
    AlreadyLower("chunked");
    AlreadyLower("gzip, c");
    assert "chunked"[..7] == "chunked" && "gzip, chunked"[..7] == "gzip, c";
    assert "gzip, chunked" == ("gzip" + ",") + " chunked";
    BehindComma("gzip", " chunked");
    NoComma("gzip");
    Trimmed();
  }

  lemma Trimmed()
    ensures TrimEnd("gzip, chunked") == "gzip, chunked" && TrimEnd("gzip") == "gzip"
    ensures TrimStart(" chunked") == "chunked" && TrimStart("gzip") == "gzip"
  {
    assert " chunked"[1..] == "chunked";
  }

  /* ---- The delivery of bodies ---- */

  /** A body of the announced length: after the headers, the body is delivered and the message
      is complete. */
  lemma LengthDelivered(c: Config, body: string)
    requires Valid(c) && c.live.Running? && c.p.state.HeaderFieldStart? && !c.p.flags.trailing
    requires FramingOf(c.p) == Length(|body|)
    ensures
      var r := Run(c, CRLF + body);
      && r.log == Emit(c.log + [Note(HeadersComplete)], Data(Body, body)) + [Note(MessageComplete)]
      && r.used == c.used + 2 + |body| && r.live == Ended(Upgrading(c.p))
      && r.p == Completed(Upgrading(c.p).(contentLength := 0))
  {
    hide Valid, Inv, Run, NewMessage, Emit, HasBody, NeedsEof;
    HeadersEnd(c);
    RunInTwo(c, CRLF, body);
    LengthBody(Run(c, CRLF), body);
    assert Upgrading(c.p).(contentLength := 0, state := MessageDone)
           == Run(c, CRLF).p.(contentLength := 0).(state := MessageDone);
  }

  /** A chunked body: after the headers, the chunks are delivered and the message is complete,
      whatever Content-Length said. */
  lemma ChunksDelivered(c: Config, chunks: seq<Chunk>, last: string)
    requires Valid(c) && c.live.Running? && c.p.state.HeaderFieldStart? && !c.p.flags.trailing
    requires FramingOf(c.p) == Chunks
    requires forall k <- chunks :: Proper(k)
    requires SizeNumeral(last) && HexValue(last) == 0
    ensures
      var r := Run(c, CRLF + PrintAll(chunks, last));
      && r.log == c.log + [Note(HeadersComplete)] + AllEvents(chunks)
      && r.used == c.used + 2 + |PrintAll(chunks, last)| && r.live == Ended(Upgrading(c.p))
      && r.p == Completed(Upgrading(c.p).(contentLength := 0, flags := c.p.flags.(trailing := true)))
  {
    hide Valid, Inv, Run, NewMessage, HasBody, NeedsEof, Unhex, HexValue, Proper, Print, SizeNumeral, PrintAll, AllEvents;
    HeadersEnd(c);
    RunInTwo(c, CRLF, PrintAll(chunks, last));
    ChunkedRoundTrip(Run(c, CRLF), chunks, last);
    assert Upgrading(c.p).(contentLength := 0, flags := c.p.flags.(trailing := true), state := MessageDone)
           == Run(c, CRLF).p.(contentLength := 0, flags := c.p.flags.(trailing := true)).(state := MessageDone);
  }

  /** A message whose end only the end of the connection shows: whatever bytes follow the
      headers are body, no byte is refused or ends the message, and the state stays. */
  lemma UntilCloseDelivered(c: Config, body: string)
    requires Valid(c) && c.live.Running? && c.p.state.HeaderFieldStart? && !c.p.flags.trailing
    requires FramingOf(c.p) == UntilClose
    ensures
      var log := c.log + [Note(HeadersComplete)];
      Run(c, CRLF + body)
      == Config(Upgrading(c.p).(state := BodyIdentityEof), if body == "" then log else Emit(log, Data(Body, body)),
                0, c.used + 2 + |body|, Running)
  {
    hide Valid, Inv, Upto, NewMessage, Emit, HasBody, NeedsEof, Upgrading;
    HeadersEnd(c);
    RunInTwo(c, CRLF, body);
    var d := Run(c, CRLF);
    AtStart(d, body);
    if body != "" {
      BodyEofStride(d, body, 0, |body|);
      assert body[0..0 + |body|] == body;
    }
  }
}
