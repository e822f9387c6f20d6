/** Whole header lines: every name and every value is delivered, and the parser's fields are
    afterwards what the headers say. */
module HttpHeaderLines {
  import opened Wrappers
  import opened HttpTypes
  import opened HttpSwitch
  import opened HttpRun
  import opened HttpExecute
  import opened HttpChunked
  import opened HttpHeaders
  import opened HttpConnections
  import opened HttpStartLine

  datatype Header = Header(name: string, value: string)

  predicate Proper(h: Header) { IsName(h.name) && OneLine(h.value) }

  function Print(h: Header): string { ((h.name + ":") + " ") + (h.value + CRLF) }

  function PrintAll(hs: seq<Header>): string {
    if hs == [] then "" else PrintAll(hs[..|hs| - 1]) + Print(hs[|hs| - 1])
  }

  function Events(hs: seq<Header>): seq<Event> {
    if hs == [] then []
    else
      var h := hs[|hs| - 1];
      Events(hs[..|hs| - 1]) + [Data(Field, h.name), Data(Value, h.value)]
  }

  /* ---- What the headers say ---- */

  predicate IsLength(h: Header) { Tokens(h.name) == CONTENT_LENGTH }

  predicate IsEncoding(h: Header) { Tokens(h.name) == TRANSFER_ENCODING }

  predicate IsUpgrade(h: Header) { Tokens(h.name) == UPGRADE }

  predicate IsConnection(h: Header) { Tokens(h.name) == CONNECTION || Tokens(h.name) == PROXY_CONNECTION }

  predicate LengthsReadable(hs: seq<Header>) { forall h <- hs :: IsLength(h) ==> Readable(h.value) }

  /** The length that the last Content-Length gives, if there is one. */
  function LengthOf(hs: seq<Header>, otherwise: nat): nat
    requires LengthsReadable(hs)
  {
    if hs == [] then otherwise
    else
      var h := hs[|hs| - 1];
      assert h in hs;
      if IsLength(h) then DecimalValue(h.value) else LengthOf(hs[..|hs| - 1], otherwise)
  }

  predicate HasChunked(hs: seq<Header>) { exists h <- hs :: IsEncoding(h) && SaysChunked(h.value) }

  predicate HasUpgrade(hs: seq<Header>) { exists h <- hs :: IsUpgrade(h) }

  /** One of the `Connection` headers has the word where it is heard. */
  predicate HasWord(hs: seq<Header>, w: Word) { exists h <- hs :: IsConnection(h) && Heard(h.value, w) }

  /** The flags after a header. */
  function FlagsAfter(f: Flags, h: Header): Flags {
    var g := if IsConnection(h) then HeardFlags(f, h.value) else f;
    g.(chunked := f.chunked || (IsEncoding(h) && SaysChunked(h.value)), upgrade := f.upgrade || IsUpgrade(h))
  }

  /** The flags that the headers set. */
  function FlagsOf(f: Flags, hs: seq<Header>): Flags {
    f.(chunked := f.chunked || HasChunked(hs), upgrade := f.upgrade || HasUpgrade(hs),
       keepAlive := f.keepAlive || HasWord(hs, KeepAliveWord), close := f.close || HasWord(hs, CloseWord),
       connUpgrade := f.connUpgrade || HasWord(hs, UpgradeWord))
  }

  /* ---- Values of other headers ---- */

  lemma OtherSwitch(p: Parser, ch: char)
    requires p.state.HeaderValueDiscardWs? && !IsBlankOrEnd(ch)
    requires !p.header.ContentLength? && !p.header.TransferEncoding? && !p.header.Connection? && !p.header.MatchingTokenStart?
    ensures Switch(p, ch) == Move(p.(state := HeaderValue, index := 0, header := General,
                                     flags := p.flags.(upgrade := p.flags.upgrade || p.header.Upgrade?)),
                                  [Mark(Value), Byte(Value)], Advance)
  {
    hide Lower;
  }

  predicate IsBlankOrEnd(ch: char) { ch == ' ' || ch == '\t' || ch == CR || ch == LF }

  lemma OtherStep(c: Config, ch: char)
    requires Valid(c) && c.live.Running? && c.p.state.HeaderValueDiscardWs? && !IsBlankOrEnd(ch)
    requires !c.p.header.ContentLength? && !c.p.header.TransferEncoding? && !c.p.header.Connection?
             && !c.p.header.MatchingTokenStart?
    ensures Step(c, ch) == Config(c.p.(state := HeaderValue, index := 0, header := General,
                                       flags := c.p.flags.(upgrade := c.p.flags.upgrade || c.p.header.Upgrade?)),
                                  Emit(c.log, Data(Value, [ch])), c.nread + 1, c.used + 1, Running)
  {
    hide Valid, Inv, Switch, Emit, IsBlankOrEnd;
    OtherSwitch(c.p, ch);
    OneTrip(c, ch);
    TwoActs(c.log, Mark(Value), Byte(Value), ch);
    EmitInPieces(c.log, Value, "", [ch]);
    assert "" + [ch] == [ch];
  }

  lemma {:induction false} OtherUpto(c: Config, v: string, k: nat)
    requires Valid(c) && c.live.Running? && c.p.state.HeaderValueDiscardWs? && OneLine(v) && 1 <= k <= |v|
    requires !c.p.header.ContentLength? && !c.p.header.TransferEncoding? && !c.p.header.Connection?
             && !c.p.header.MatchingTokenStart?
    ensures Upto(c, v, k)
            == Config(c.p.(state := HeaderValue, index := 0, header := General,
                           flags := c.p.flags.(upgrade := c.p.flags.upgrade || c.p.header.Upgrade?)),
                      Emit(c.log, Data(Value, v[..k])), c.nread + k, c.used + k, Running)
  {
    hide Valid, Inv, Step, Emit, IsBlankOrEnd;
    var ch := v[k - 1];
    assert ch in v;
    assert v[..k] == v[..k - 1] + [ch];
    if k == 1 {
      AtStart(c, v);
      FirstOfLine(v);
      OtherStep(c, ch);
      assert v[..1] == [ch];
    } else {
      OtherUpto(c, v, k - 1);
      GeneralByte(0, Upto(c, v, k - 1).p.flags, ch);
      ValueStep(Upto(c, v, k - 1), ch);
      EmitInPieces(c.log, Value, v[..k - 1], [ch]);
    }
  }

  lemma FirstOfLine(v: string)
    requires OneLine(v)
    ensures !IsBlankOrEnd(v[0])
  {
    assert v[0] in v;
  }

  /* ---- A value of any header ---- */

  /** The flags once the value of a header is complete. */
  function ValueFlags(p: Parser, v: string): Flags {
    match p.header
    case Connection => HeardFlags(p.flags, v)
    case TransferEncoding => p.flags.(chunked := p.flags.chunked || SaysChunked(v))
    case Upgrade => p.flags.(upgrade := true)
    case _ => p.flags
  }

  /** The parser after a value that is not refused. */
  ghost predicate ValueTaken(c: Config, v: string, d: Config) {
    && d == Config(d.p, Emit(c.log, Data(Value, v)), c.nread + |v|, c.used + |v|, Running)
    && d.p == c.p.(state := HeaderValue, header := d.p.header, index := d.p.index, flags := d.p.flags,
                   contentLength := d.p.contentLength)
    && (!c.p.header.ContentLength? ==> d.p.contentLength == c.p.contentLength)
    && ValueDone(d.p.flags, d.p.header) == ValueFlags(c.p, v)
  }

  lemma ValueRun(c: Config, v: string)
    requires Valid(c) && c.live.Running? && c.p.state.HeaderValueDiscardWs? && OneLine(v) && !c.p.header.MatchingTokenStart?
    ensures
      var d := Run(c, v);
      if c.p.header.ContentLength? && !Readable(v) then d.live.Failed?
      else ValueTaken(c, v, d) && (c.p.header.ContentLength? ==> d.p.contentLength == DecimalValue(v))
  {
    hide Valid, Inv, Upto, Emit, SaysChunked, OneLine, DecimalValue, LengthNumeral, HeardFlags;
    if c.p.header.ContentLength? {
      LengthRecogniser(c, v);
    } else if c.p.header.TransferEncoding? {
      EncodingRun(c, v);
    } else if c.p.header.Connection? {
      var d := ConnectionRecogniser(c, v);
    } else {
      SomeByte(v);
      OtherUpto(c, v, |v|);
      assert v[..|v|] == v;
    }
  }

  lemma EncodingRun(c: Config, v: string)
    requires Valid(c) && c.live.Running? && c.p.state.HeaderValueDiscardWs? && OneLine(v) && c.p.header.TransferEncoding?
    ensures ValueTaken(c, v, Run(c, v))
  {
    hide Valid, Inv, Upto, Emit, SaysChunked, OneLine, EncodingState;
    SomeByte(v);
    EncodingUpto(c, v, |v|);
    assert v[..|v|] == v;
    EncodingDone(Run(c, v).p, v);
  }

  lemma EncodingDone(p: Parser, v: string)
    requires EncodingState(p.header, p.index, v)
    ensures ValueDone(p.flags, p.header) == p.flags.(chunked := p.flags.chunked || SaysChunked(v))
  {
    EncodingNoLength(p.header, p.index, v);
    hide SaysChunked, Within, Lowers;
  }

  lemma SomeByte(v: string)
    requires OneLine(v)
    ensures v != ""
  {
  }

  /* ---- Line ends ---- */

  lemma ValueLineEnd(c: Config)
    requires Valid(c) && c.live.Running? && c.p.state.HeaderValue?
    ensures Quiet(c, CRLF, c.p.(state := HeaderValueLws))
  {
    hide Valid, Inv, Step, Switch, Counting;
    ValueCrStep(c);
    var d := Step(c, CR);
    AlmostDoneMove(d.p);
    QuietStep(d, LF, d.p.(state := HeaderValueLws));
    TwoBytes(c, CR, LF);
    assert CRLF == [CR, LF];
  }

  lemma AlmostDoneMove(p: Parser)
    requires p.state.HeaderAlmostDone?
    ensures Counting(p.state) && Switch(p, LF) == Move(p.(state := HeaderValueLws), [], Advance)
  {
  }

  lemma BlankMove(p: Parser)
    requires p.state.HeaderValueDiscardWs?
    ensures Counting(p.state) && Switch(p, ' ') == Move(p, [], Advance)
  {
  }

  /** What a line that does not start with a blank finds: the flag of the value before it is set. */
  function Settle(c: Config): Config {
    if c.p.state.HeaderValueLws?
    then c.(p := c.p.(flags := ValueDone(c.p.flags, c.p.header), state := HeaderFieldStart)) else c
  }

  lemma LwsSwitch(p: Parser, ch: char)
    requires p.state.HeaderValueLws? && ch != ' ' && ch != '\t'
    ensures Switch(p, ch) == Move(p.(flags := ValueDone(p.flags, p.header), state := HeaderFieldStart), [], Again)
  {
    hide ValueDone;
  }

  lemma SettledValid(c: Config)
    requires Valid(c)
    ensures Valid(Settle(c)) && Settle(c).live == c.live
  {
    hide FieldHeaderState, ValueHeaderState, MethodName, ValueDone;
  }

  lemma SettledStep(c: Config, ch: char)
    requires Valid(c) && c.live.Running? && ch != ' ' && ch != '\t'
    ensures Valid(Settle(c)) && Step(c, ch) == Step(Settle(c), ch)
  {
    hide Valid, Inv, Switch, Dispatch, ValueDone;
    SettledValid(c);
    if c.p.state.HeaderValueLws? {
      CountedValid(c);
      LwsSwitch(Counted(c).p, ch);
      SwitchAgain(Counted(c), ch);
    }
  }

  lemma SettledRun(c: Config, s: string)
    requires Valid(c) && c.live.Running? && s != "" && s[0] != ' ' && s[0] != '\t'
    ensures Valid(Settle(c)) && Run(c, s) == Run(Settle(c), s)
  {
    hide Valid, Inv, Step, Upto;
    SettledStep(c, s[0]);
    RunOne(c, s[0]);
    RunOne(Settle(c), s[0]);
    assert s == [s[0]] + s[1..];
    RunInTwo(c, [s[0]], s[1..]);
    RunInTwo(Settle(c), [s[0]], s[1..]);
  }

  /* ---- Header lines ---- */

  lemma EmitApart(log: seq<Event>, part: Part, text: string)
    requires !EndsIn(log, part)
    ensures Emit(log, Data(part, text)) == log + [Data(part, text)]
  {
  }

  /** What one header line makes of the parser. */
  ghost predicate LineTaken(c: Config, h: Header, r: Config) {
    var text := Print(h);
    && r == Config(c.p.(flags := FlagsAfter(c.p.flags, h), header := r.p.header, index := r.p.index,
                        contentLength := r.p.contentLength),
                   c.log + [Data(Field, h.name), Data(Value, h.value)], c.nread + |text|, c.used + |text|, Running)
    && (!IsLength(h) ==> r.p.contentLength == c.p.contentLength)
  }

  /** A header line is delivered and understood; only a Content-Length can be refused. */
  lemma HeaderLine(c: Config, h: Header)
    requires Valid(c) && c.live.Running? && c.p.state.HeaderFieldStart? && !EndsIn(c.log, Field) && Proper(h)
    ensures
      var d := Run(c, Print(h));
      if IsLength(h) && !Readable(h.value) then d.live.Failed?
      else LineTaken(c, h, Settle(d)) && (IsLength(h) ==> d.p.contentLength == DecimalValue(h.value))
  {
    hide Valid, Inv, Run, Emit, SaysChunked, OneLine, DecimalValue, Tokens, Switch, Counting, IsName, Readable, ValueDone,
         HeardFlags, FlagsAfter;
    var name := h.name + ":";
    NameRecogniser(c, h.name);
    EmitApart(c.log, Field, h.name);
    var d := Run(c, name);
    RunInTwo(c, name, " ");
    BlankMove(d.p);
    QuietByte(d, ' ', d.p);
    var e := Run(c, name + " ");
    RunInTwo(c, name + " ", h.value + CRLF);
    RunInTwo(e, h.value, CRLF);
    ValueRun(e, h.value);
    EmitApart(e.log, Value, h.value);
    var g := Run(e, h.value);
    if g.live.Failed? {
      StaysFailed(g, CRLF);
    } else {
      ValueLineEnd(g);
      SameHeader(e.p, h);
      assert (c.log + [Data(Field, h.name)]) + [Data(Value, h.value)] == c.log + [Data(Field, h.name), Data(Value, h.value)];
    }
  }

  /** The header_state behind a name is the header's own. */
  lemma SameHeader(p: Parser, h: Header)
    requires p.header.Connection? <==> IsConnection(h)
    requires (p.header.TransferEncoding? <==> IsEncoding(h)) && (p.header.Upgrade? <==> IsUpgrade(h))
    ensures ValueFlags(p, h.value) == FlagsAfter(p.flags, h)
  {
    hide SaysChunked, Heard, Tokens;
    KeywordsStart();
  }

  /** What the header lines make of the parser. */
  ghost predicate LinesTaken(c: Config, hs: seq<Header>, r: Config)
    requires LengthsReadable(hs)
  {
    var text := PrintAll(hs);
    r == Config(c.p.(flags := FlagsOf(c.p.flags, hs), header := r.p.header, index := r.p.index,
                     contentLength := LengthOf(hs, c.p.contentLength)),
                c.log + Events(hs), c.nread + |text|, c.used + |text|, Running)
  }

  lemma Shorter(hs: seq<Header>)
    requires hs != []
    ensures
      var (most, h) := (hs[..|hs| - 1], hs[|hs| - 1]);
      && (LengthsReadable(hs) <==> LengthsReadable(most) && (IsLength(h) ==> Readable(h.value)))
      && (forall f: Flags :: FlagsOf(f, hs) == FlagsAfter(FlagsOf(f, most), h))
      && (forall x <- most :: x in hs) && h in hs
  {
    hide IsLength, IsEncoding, IsUpgrade, IsConnection, Readable, SaysChunked, Heard;
    var (most, h) := (hs[..|hs| - 1], hs[|hs| - 1]);
    assert hs == most + [h];
    assert HasUpgrade(hs) <==> HasUpgrade(most) || IsUpgrade(h);
    assert HasChunked(hs) <==> HasChunked(most) || (IsEncoding(h) && SaysChunked(h.value));
    forall w: Word
      ensures HasWord(hs, w) <==> HasWord(most, w) || (IsConnection(h) && Heard(h.value, w))
    {
    }
  }

  lemma NotInField(log: seq<Event>, hs: seq<Header>)
    requires !EndsIn(log, Field)
    ensures !EndsIn(log + Events(hs), Field)
  {
  }

  lemma NameFirst(h: Header)
    requires Proper(h)
    ensures Print(h) != "" && Print(h)[0] != ' ' && Print(h)[0] != '\t'
  {
    assert h.name[0] in h.name;
    assert Print(h)[0] == h.name[0];
  }

  /** Header lines are delivered name by name and value by value, whatever headers they are; the
      length is the one that the last Content-Length spells, each flag is set exactly if one of
      its headers says so, and the message is refused exactly if a Content-Length is not a
      readable number. */
  lemma {:induction false} HeaderLines(c: Config, hs: seq<Header>)
    requires Valid(c) && c.live.Running? && c.p.state.HeaderFieldStart? && !EndsIn(c.log, Field)
    requires forall h <- hs :: Proper(h)
    ensures Valid(Settle(Run(c, PrintAll(hs))))
    ensures
      var r := Run(c, PrintAll(hs));
      if LengthsReadable(hs) then LinesTaken(c, hs, Settle(r)) else r.live.Failed?
    decreases |hs|
  {
    hide Valid, Inv, Upto, Run, LengthsReadable, FlagsOf, Proper, Print, IsLength, DecimalValue, EndsIn, Readable, Settle;
    if hs == [] {
      NoLines(c);
    } else {
      var (most, h) := (hs[..|hs| - 1], hs[|hs| - 1]);
      Shorter(hs);
      HeaderLines(c, most);
      var d := Run(c, PrintAll(most));
      RunInTwo(c, PrintAll(most), Print(h));
      SettledValid(d);
      SettledValid(Run(c, PrintAll(hs)));
      if d.live.Failed? {
        StaysFailed(d, Print(h));
      } else {
        NotInField(c.log, most);
        NameFirst(h);
        AnotherLine(c, hs, d);
      }
    }
  }

  lemma NoLines(c: Config)
    requires Valid(c) && c.live.Running? && c.p.state.HeaderFieldStart?
    ensures LengthsReadable([]) && LinesTaken(c, [], Settle(Run(c, PrintAll([])))) && Valid(Settle(Run(c, PrintAll([]))))
  {
  }

  lemma AnotherLine(c: Config, hs: seq<Header>, d: Config)
    requires hs != [] && forall h <- hs :: Proper(h)
    requires Valid(c) && c.live.Running? && c.p.state.HeaderFieldStart? && Valid(d) && d.live.Running? && Valid(Settle(d))
    requires LengthsReadable(hs[..|hs| - 1]) && LinesTaken(c, hs[..|hs| - 1], Settle(d))
    requires !EndsIn(Settle(d).log, Field)
    ensures
      var r := Run(d, Print(hs[|hs| - 1]));
      if LengthsReadable(hs) then LinesTaken(c, hs, Settle(r)) else r.live.Failed?
  {
    hide Valid, Inv, Upto, Run, LengthsReadable, FlagsOf, FlagsAfter, Proper, Print, IsLength, DecimalValue, EndsIn, Readable;
    var (most, h) := (hs[..|hs| - 1], hs[|hs| - 1]);
    Shorter(hs);
    NameFirst(h);
    SettledRun(d, Print(h));
    HeaderLine(Settle(d), h);
    assert (c.log + Events(most)) + [Data(Field, h.name), Data(Value, h.value)] == c.log + Events(hs);
  }
}
