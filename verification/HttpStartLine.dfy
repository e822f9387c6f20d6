/** The rest of a start line behind the method and the URL: the version and the status are the
    numerals that were sent, and the reason phrase is delivered whole. */
module HttpStartLine {
  import opened Wrappers
  import opened HttpTypes
  import opened HttpSwitch
  import opened HttpRun
  import opened HttpExecute
  import opened HttpChunked
  import opened HttpHeaders
  import opened HttpUrl

  /** The states in which a byte only adds to the count of header bytes. */
  predicate Counting(s: State) { ParsingHeader(s) && !s.HeadersDone? && !s.ChunkSizeAlmostDone? }

  /** A byte that changes the fields and nothing else. */
  lemma QuietStep(c: Config, ch: char, q: Parser)
    requires Valid(c) && c.live.Running? && Counting(c.p.state)
    requires Switch(c.p, ch) == Move(q, [], Advance)
    ensures Step(c, ch) == Config(q, c.log, c.nread + 1, c.used + 1, Running)
  {
    hide Valid, Inv, Switch;
    OneTrip(c, ch);
  }

  lemma FailingStep(c: Config, ch: char)
    requires Valid(c) && c.live.Running? && Switch(c.p, ch).next.Stop?
    ensures Step(c, ch).live.Failed?
  {
    hide Valid, Inv, Switch;
    OneTrip(c, ch);
  }

  /* ---- Numbers ---- */

  predicate IsNumeral(s: string) { s != "" && forall ch <- s :: IsNum(ch) }

  /** The states in front of a number, and those inside it. */
  predicate BeforeNumber(s: State) {
    s.ReqFirstHttpMajor? || s.ReqFirstHttpMinor? || s.ResFirstHttpMajor? || s.ResFirstHttpMinor? || s.ResFirstStatusCode?
  }

  function InNumber(s: State): State
    requires BeforeNumber(s)
  {
    match s
    case ReqFirstHttpMajor => ReqHttpMajor
    case ReqFirstHttpMinor => ReqHttpMinor
    case ResFirstHttpMajor => ResHttpMajor
    case ResFirstHttpMinor => ResHttpMinor
    case ResFirstStatusCode => ResStatusCode
  }

  /** The parser with a number in the field that its state is about. */
  function WithNumber(p: Parser, s: State, n: nat): Parser
    requires BeforeNumber(s)
  {
    match s
    case ReqFirstHttpMajor | ResFirstHttpMajor => p.(major := n, state := InNumber(s))
    case ReqFirstHttpMinor | ResFirstHttpMinor => p.(minor := n, state := InNumber(s))
    case ResFirstStatusCode => p.(status := n, state := InNumber(s))
  }

  lemma FirstDigit(p: Parser, ch: char)
    requires BeforeNumber(p.state) && IsNum(ch) && (p.state.ReqFirstHttpMajor? ==> ch != '0')
    ensures Switch(p, ch) == Move(WithNumber(p, p.state, MoreDigits(0, ch)), [], Advance) && Counting(p.state)
  {
  }

  lemma NextDigit(p: Parser, s: State, n: nat, ch: char)
    requires BeforeNumber(s) && IsNum(ch)
    ensures
      var q := WithNumber(p, s, n);
      var m := MoreDigits(n, ch);
      && Counting(q.state)
      && if m <= 999 then Switch(q, ch) == Move(WithNumber(p, s, m), [], Advance) else Switch(q, ch).next.Stop?
  {
    hide MoreDigits;
    if s.ResFirstStatusCode? { NextStatusDigit(p, n, ch); } else { NextVersionDigit(p, s, n, ch); }
  }

  lemma NextStatusDigit(p: Parser, n: nat, ch: char)
    requires IsNum(ch)
    ensures
      var q := WithNumber(p, ResFirstStatusCode, n);
      var m := MoreDigits(n, ch);
      if m <= 999 then Switch(q, ch) == Move(WithNumber(p, ResFirstStatusCode, m), [], Advance) else Switch(q, ch).next.Stop?
  {
    hide MoreDigits;
  }

  lemma NextVersionDigit(p: Parser, s: State, n: nat, ch: char)
    requires BeforeNumber(s) && !s.ResFirstStatusCode? && IsNum(ch)
    ensures
      var q := WithNumber(p, s, n);
      var m := MoreDigits(n, ch);
      if m <= 999 then Switch(q, ch) == Move(WithNumber(p, s, m), [], Advance) else Switch(q, ch).next.Stop?
  {
    hide MoreDigits;
  }

  lemma DecimalMore(s: string, k: nat)
    requires IsNumeral(s) && 1 <= k <= |s|
    ensures IsNum(s[k - 1]) && (forall ch <- s[..k - 1] :: IsNum(ch)) && (forall ch <- s[..k] :: IsNum(ch))
    ensures Decimal(s[..k]) == MoreDigits(Decimal(s[..k - 1]), s[k - 1]) >= Decimal(s[..k - 1])
  {
    assert s[k - 1] in s;
    forall ch <- s[..k] ensures IsNum(ch) { assert ch in s; }
    forall ch <- s[..k - 1] ensures IsNum(ch) { assert ch in s; }
    assert s[..k][..k - 1] == s[..k - 1];
  }

  /** A number is read as the numeral that was sent, or refused as soon as it passes 999. */
  lemma {:induction false} NumberUpto(c: Config, s: string, k: nat)
    requires Valid(c) && c.live.Running? && BeforeNumber(c.p.state)
    requires IsNumeral(s) && (c.p.state.ReqFirstHttpMajor? ==> s[0] != '0') && 1 <= k <= |s|
    ensures forall ch <- s[..k] :: IsNum(ch)
    ensures
      if Decimal(s[..k]) <= 999
      then Upto(c, s, k) == Config(WithNumber(c.p, c.p.state, Decimal(s[..k])), c.log, c.nread + k, c.used + k, Running)
      else Upto(c, s, k).live.Failed?
  {
    hide Valid, Inv, Step, Switch, WithNumber, MoreDigits, BeforeNumber, Counting;
    DecimalMore(s, k);
    if k == 1 {
      assert s[..0] == "" && s[..1] == [s[0]];
      AtStart(c, s);
      FirstDigit(c.p, s[0]);
      QuietStep(c, s[0], WithNumber(c.p, c.p.state, MoreDigits(0, s[0])));
      SmallDigit(s[0]);
    } else {
      NumberUpto(c, s, k - 1);
      var d := Upto(c, s, k - 1);
      if d.live.Running? {
        var n := Decimal(s[..k - 1]);
        NextDigit(c.p, c.p.state, n, s[k - 1]);
        if MoreDigits(n, s[k - 1]) <= 999 {
          QuietStep(d, s[k - 1], WithNumber(c.p, c.p.state, MoreDigits(n, s[k - 1])));
        } else {
          FailingStep(d, s[k - 1]);
        }
      }
    }
  }

  lemma SmallDigit(ch: char)
    requires IsNum(ch)
    ensures MoreDigits(0, ch) <= 9
  {
  }

  lemma NumberRun(c: Config, s: string) returns (ok: bool)
    requires Valid(c) && c.live.Running? && BeforeNumber(c.p.state)
    requires IsNumeral(s) && (c.p.state.ReqFirstHttpMajor? ==> s[0] != '0')
    ensures ok <==> Decimal(s) <= 999
    ensures if ok then Run(c, s) == Config(WithNumber(c.p, c.p.state, Decimal(s)), c.log, c.nread + |s|, c.used + |s|, Running)
            else Run(c, s).live.Failed?
  {
    hide Valid, Inv, Upto, WithNumber, BeforeNumber;
    NumberUpto(c, s, |s|);
    assert s[..|s|] == s;
    ok := Decimal(s) <= 999;
  }

  /** What a failed configuration is given makes no difference. */
  lemma StaysFailed(c: Config, s: string)
    requires Valid(c) && c.live.Failed?
    ensures Run(c, s) == c
  {
    hide Valid, Step;
    UptoStopped(c, s, |s|);
  }

  /** A string of quiet bytes leads to parser `q`. */
  predicate Quiet(c: Config, s: string, q: Parser)
    requires Valid(c)
  {
    Run(c, s) == Config(q, c.log, c.nread + |s|, c.used + |s|, Running)
  }

  lemma QuietByte(c: Config, ch: char, q: Parser)
    requires Valid(c) && c.live.Running? && Counting(c.p.state)
    requires Switch(c.p, ch) == Move(q, [], Advance)
    ensures Quiet(c, [ch], q)
  {
    hide Valid, Inv, Switch, Step, Run, Counting;
    QuietStep(c, ch, q);
    RunOne(c, ch);
  }

  /* ---- "HTTP/" ---- */

  /** The states that wait for a letter of "HTTP/", and the next ones. */
  function Letter(s: State): Option<(char, State)> {
    match s
    case ReqHttpStart => Some(('H', ReqHttpH))
    case ReqHttpH => Some(('T', ReqHttpHT))
    case ReqHttpHT => Some(('T', ReqHttpHTT))
    case ReqHttpHTT => Some(('P', ReqHttpHTTP))
    case ReqHttpHTTP => Some(('/', ReqFirstHttpMajor))
    case ResH => Some(('T', ResHT))
    case ResHT => Some(('T', ResHTT))
    case ResHTT => Some(('P', ResHTTP))
    case ResHTTP => Some(('/', ResFirstHttpMajor))
    case _ => None
  }

  lemma LetterMove(p: Parser)
    requires Letter(p.state).Some?
    ensures
      var (ch, s) := Letter(p.state).value;
      Counting(p.state) && Switch(p, ch) == Move(p.(state := s), [], Advance)
  {
  }

  lemma LetterStep(c: Config) returns (d: Config)
    requires Valid(c) && c.live.Running? && Letter(c.p.state).Some?
    ensures Valid(d) && d == Step(c, Letter(c.p.state).value.0)
    ensures d == Config(c.p.(state := Letter(c.p.state).value.1), c.log, c.nread + 1, c.used + 1, Running)
  {
    hide Valid, Inv, Switch, Letter, Counting;
    LetterMove(c.p);
    QuietStep(c, Letter(c.p.state).value.0, c.p.(state := Letter(c.p.state).value.1));
    d := Step(c, Letter(c.p.state).value.0);
  }

  lemma FourBytes(c: Config, s: string, d1: Config, d2: Config, d3: Config, d4: Config)
    requires Valid(c) && c.live.Running? && |s| == 4
    requires d1 == Step(c, s[0]) && d1.live.Running? && d2 == Step(d1, s[1]) && d2.live.Running?
    requires d3 == Step(d2, s[2]) && d3.live.Running? && d4 == Step(d3, s[3])
    ensures Run(c, s) == d4
  {
    hide Valid, Inv, Step;
    assert Upto(c, s, 1) == d1 by { AtStart(c, s); }
    assert Upto(c, s, 2) == d2;
    assert Upto(c, s, 3) == d3;
  }

  /** "TTP/", in a request and in a response. */
  lemma ProtocolName(c: Config)
    requires Valid(c) && c.live.Running? && (c.p.state.ReqHttpH? || c.p.state.ResH?)
    ensures Quiet(c, "TTP/", c.p.(state := if c.p.state.ReqHttpH? then ReqFirstHttpMajor else ResFirstHttpMajor))
  {
    hide Valid, Inv, Step, Upto;
    var d1 := LetterStep(c);
    var d2 := LetterStep(d1);
    var d3 := LetterStep(d2);
    var d4 := LetterStep(d3);
    FourBytes(c, "TTP/", d1, d2, d3, d4);
  }

  /* ---- Versions ---- */

  lemma DotMove(p: Parser)
    requires p.state.ReqHttpMajor? || p.state.ResHttpMajor?
    ensures Counting(p.state)
    ensures Switch(p, '.') == Move(p.(state := if p.state.ReqHttpMajor? then ReqFirstHttpMinor else ResFirstHttpMinor), [], Advance)
  {
  }

  /** The parser after a version. */
  function WithVersion(p: Parser, major: nat, minor: nat): Parser
    requires p.state.ReqFirstHttpMajor? || p.state.ResFirstHttpMajor?
  {
    p.(major := major, minor := minor, state := if p.state.ReqFirstHttpMajor? then ReqHttpMinor else ResHttpMinor)
  }

  /** `major "." minor` is read as the two numerals, exactly if neither passes 999. */
  lemma Version(c: Config, major: string, minor: string) returns (ok: bool)
    requires Valid(c) && c.live.Running? && (c.p.state.ReqFirstHttpMajor? || c.p.state.ResFirstHttpMajor?)
    requires IsNumeral(major) && IsNumeral(minor) && (c.p.state.ReqFirstHttpMajor? ==> major[0] != '0')
    ensures ok <==> Decimal(major) <= 999 && Decimal(minor) <= 999
    ensures if ok then Quiet(c, (major + ".") + minor, WithVersion(c.p, Decimal(major), Decimal(minor)))
            else Run(c, (major + ".") + minor).live.Failed?
  {
    hide Valid, Inv, Upto, Run, Decimal, IsNumeral, Switch, Counting;
    var first := NumberRun(c, major);
    RunInTwo(c, major, ".");
    RunInTwo(c, major + ".", minor);
    if first {
      var d := Run(c, major);
      DotMove(d.p);
      QuietByte(d, '.', d.p.(state := if d.p.state.ReqHttpMajor? then ReqFirstHttpMinor else ResFirstHttpMinor));
      var e := Run(c, major + ".");
      ok := NumberRun(e, minor);
    } else {
      StaysFailed(Run(c, major), ".");
      StaysFailed(Run(c, major + "."), minor);
      ok := false;
    }
  }

  /* ---- Line ends ---- */

  /** A line of a header may end with LF alone. */
  predicate IsLineEnd(end: string) { end == CRLF || end == "\n" }

  predicate MayEndLine(s: State) { s.ReqHttpMinor? || s.ResStatusCode? || s.ResStatusStart? || s.ResStatus? }

  function AlmostDone(s: State): State { if s.ReqHttpMinor? then ReqLineAlmostDone else ResLineAlmostDone }

  lemma LineEndMove(p: Parser)
    requires MayEndLine(p.state)
    ensures
      var acts := if p.state.ResStatus? then [Flush(Part.Status)] else [];
      && Counting(p.state) && Counting(AlmostDone(p.state))
      && Switch(p, CR) == Move(p.(state := AlmostDone(p.state)), acts, Advance)
      && Switch(p, LF) == Move(p.(state := HeaderFieldStart), acts, Advance)
      && Switch(p.(state := AlmostDone(p.state)), LF) == Move(p.(state := HeaderFieldStart), [], Advance)
  {
    LastOfLine(p.(state := AlmostDone(p.state)));
    hide ConstantSwitch;
  }

  lemma LastOfLine(p: Parser)
    requires p.state.ReqLineAlmostDone? || p.state.ResLineAlmostDone?
    ensures Switch(p, LF) == Move(p.(state := HeaderFieldStart), [], Advance)
  {
  }

  lemma LineEndStep(c: Config)
    requires Valid(c) && c.live.Running? && MayEndLine(c.p.state)
    ensures Step(c, CR) == Config(c.p.(state := AlmostDone(c.p.state)), c.log, c.nread + 1, c.used + 1, Running)
    ensures Step(c, LF) == Config(c.p.(state := HeaderFieldStart), c.log, c.nread + 1, c.used + 1, Running)
  {
    hide Valid, Inv, Switch, MayEndLine, AlmostDone;
    LineEndMove(c.p);
    OneTrip(c, CR);
    OneTrip(c, LF);
    TwoActs(c.log, Flush(Part.Status), Flush(Part.Status), CR);
    TwoActs(c.log, Flush(Part.Status), Flush(Part.Status), LF);
  }

  lemma LineEnd(c: Config, end: string)
    requires Valid(c) && c.live.Running? && MayEndLine(c.p.state) && IsLineEnd(end)
    ensures Quiet(c, end, c.p.(state := HeaderFieldStart))
  {
    hide Valid, Inv, Switch, Counting, Step, MayEndLine, AlmostDone, Upto;
    LineEndStep(c);
    if end == CRLF {
      LineEndMove(c.p);
      QuietStep(Step(c, CR), LF, c.p.(state := HeaderFieldStart));
      TwoBytes(c, CR, LF);
      assert CRLF == [CR, LF];
    } else {
      assert end == [LF];
      RunOne(c, LF);
    }
  }

  /* ---- Request lines ---- */

  lemma ZeroMajor(c: Config, major: string, rest: string)
    requires Valid(c) && c.live.Running? && c.p.state.ReqFirstHttpMajor? && major != "" && major[0] == '0'
    ensures Run(c, major + rest).live.Failed?
  {
    hide Valid, Inv, Step, Switch, Upto;
    ZeroMove(c.p);
    FailingStep(c, '0');
    RunOne(c, '0');
    RunInTwo(c, "0", major[1..] + rest);
    assert major + rest == "0" + (major[1..] + rest);
    StaysFailed(Run(c, "0"), major[1..] + rest);
  }

  lemma ZeroMove(p: Parser)
    requires p.state.ReqFirstHttpMajor?
    ensures Switch(p, '0').next.Stop?
  {
  }

  /** The end of a request line, from behind "H": the version is the one that was sent, exactly
      if neither number passes 999 and the first does not start with a zero. */
  lemma RequestVersion(c: Config, major: string, minor: string, end: string)
    requires Valid(c) && c.live.Running? && c.p.state.ReqHttpH?
    requires IsNumeral(major) && IsNumeral(minor) && IsLineEnd(end)
    ensures
      var line := "TTP/" + (((major + ".") + minor) + end);
      if major[0] != '0' && Decimal(major) <= 999 && Decimal(minor) <= 999
      then Quiet(c, line, c.p.(major := Decimal(major), minor := Decimal(minor), state := HeaderFieldStart))
      else Run(c, line).live.Failed?
  {
    hide Valid, Inv, Upto, Run, Decimal, IsLineEnd;
    ProtocolName(c);
    var d := Run(c, "TTP/");
    var version := (major + ".") + minor;
    RunInTwo(c, "TTP/", version + end);
    if major[0] == '0' {
      ZeroMajor(d, major, ("." + minor) + end);
      assert version + end == major + (("." + minor) + end);
    } else {
      var ok := Version(d, major, minor);
      RunInTwo(d, version, end);
      if ok {
        LineEnd(Run(d, version), end);
      } else {
        StaysFailed(Run(d, version), end);
      }
    }
  }

  /* ---- Status lines ---- */

  predicate AllSpaces(s: string) { s != "" && forall ch <- s :: ch == ' ' }

  lemma SpaceMove(p: Parser)
    requires p.state.ResHttpMinor? || p.state.ResFirstStatusCode? || p.state.ResStatusCode?
    ensures Counting(p.state)
    ensures Switch(p, ' ') == Move(p.(state := if p.state.ResStatusCode? then ResStatusStart else ResFirstStatusCode), [], Advance)
  {
  }

  lemma {:induction false} SpacesUpto(c: Config, spaces: string, k: nat)
    requires Valid(c) && c.live.Running? && c.p.state.ResHttpMinor? && AllSpaces(spaces) && 1 <= k <= |spaces|
    ensures Upto(c, spaces, k) == Config(c.p.(state := ResFirstStatusCode), c.log, c.nread + k, c.used + k, Running)
  {
    hide Valid, Inv, Step, Switch, Counting;
    assert spaces[k - 1] in spaces;
    if k == 1 {
      AtStart(c, spaces);
      SpaceMove(c.p);
      QuietStep(c, ' ', c.p.(state := ResFirstStatusCode));
    } else {
      SpacesUpto(c, spaces, k - 1);
      var d := Upto(c, spaces, k - 1);
      SpaceMove(d.p);
      QuietStep(d, ' ', d.p);
    }
  }

  lemma SpacesRun(c: Config, spaces: string)
    requires Valid(c) && c.live.Running? && c.p.state.ResHttpMinor? && AllSpaces(spaces)
    ensures Quiet(c, spaces, c.p.(state := ResFirstStatusCode))
  {
    hide Valid, Inv, Upto;
    SpacesUpto(c, spaces, |spaces|);
  }

  /** Version and status code are read as the numerals that were sent, exactly if none of the
      three passes 999. */
  lemma StatusNumbers(c: Config, major: string, minor: string, spaces: string, code: string) returns (ok: bool)
    requires Valid(c) && c.live.Running? && c.p.state.ResFirstHttpMajor?
    requires IsNumeral(major) && IsNumeral(minor) && AllSpaces(spaces) && IsNumeral(code)
    ensures ok <==> Decimal(major) <= 999 && Decimal(minor) <= 999 && Decimal(code) <= 999
    ensures
      var line := (((major + ".") + minor) + spaces) + code;
      if ok then Quiet(c, line, c.p.(major := Decimal(major), minor := Decimal(minor), status := Decimal(code), state := ResStatusCode))
      else Run(c, line).live.Failed?
  {
    hide Valid, Inv, Upto, Run, Decimal, IsNumeral, AllSpaces, Switch, Counting;
    var version := (major + ".") + minor;
    ok := Version(c, major, minor);
    RunInTwo(c, version, spaces);
    RunInTwo(c, version + spaces, code);
    if ok {
      SpacesRun(Run(c, version), spaces);
      ok := NumberRun(Run(c, version + spaces), code);
    } else {
      StaysFailed(Run(c, version), spaces);
      StaysFailed(Run(c, version + spaces), code);
    }
  }

  lemma ReasonMove(p: Parser, ch: char)
    requires (p.state.ResStatusStart? || p.state.ResStatus?) && ch != CR && ch != LF
    ensures Counting(p.state)
    ensures Switch(p, ch)
            == if p.state.ResStatus? then Move(p, [Byte(Part.Status)], Advance)
               else Move(p.(state := ResStatus, index := 0), [Mark(Part.Status), Byte(Part.Status)], Advance)
  {
  }

  lemma ReasonStep(c: Config, ch: char)
    requires Valid(c) && c.live.Running? && (c.p.state.ResStatusStart? || c.p.state.ResStatus?)
    requires ch != CR && ch != LF
    ensures Step(c, ch)
            == Config(if c.p.state.ResStatus? then c.p else c.p.(state := ResStatus, index := 0),
                      Emit(c.log, Data(Part.Status, [ch])), c.nread + 1, c.used + 1, Running)
  {
    hide Valid, Inv, Switch, Emit;
    ReasonMove(c.p, ch);
    OneTrip(c, ch);
    TwoActs(c.log, Byte(Part.Status), Byte(Part.Status), ch);
    TwoActs(c.log, Mark(Part.Status), Byte(Part.Status), ch);
    EmitInPieces(c.log, Part.Status, "", [ch]);
    assert "" + [ch] == [ch];
  }

  lemma {:induction false} ReasonUpto(c: Config, reason: string, k: nat)
    requires Valid(c) && c.live.Running? && c.p.state.ResStatusStart?
    requires CR !in reason && LF !in reason && 1 <= k <= |reason|
    ensures Upto(c, reason, k)
            == Config(c.p.(state := ResStatus, index := 0), Emit(c.log, Data(Part.Status, reason[..k])),
                      c.nread + k, c.used + k, Running)
  {
    hide Valid, Inv, Step, Emit;
    var ch := reason[k - 1];
    assert ch in reason;
    assert reason[..k] == reason[..k - 1] + [ch];
    if k == 1 {
      AtStart(c, reason);
      ReasonStep(c, ch);
      assert reason[..1] == [ch];
    } else {
      ReasonUpto(c, reason, k - 1);
      ReasonStep(Upto(c, reason, k - 1), ch);
      EmitInPieces(c.log, Part.Status, reason[..k - 1], [ch]);
    }
  }

  lemma ReasonRun(c: Config, reason: string)
    requires Valid(c) && c.live.Running? && c.p.state.ResStatusStart?
    requires CR !in reason && LF !in reason && reason != ""
    ensures Run(c, reason)
            == Config(c.p.(state := ResStatus, index := 0), Emit(c.log, Data(Part.Status, reason)),
                      c.nread + |reason|, c.used + |reason|, Running)
  {
    hide Valid, Inv, Upto, Emit;
    ReasonUpto(c, reason, |reason|);
    assert reason[..|reason|] == reason;
  }

  /** What may stand behind a status code: nothing, or a space and a reason phrase. */
  function ReasonText(reason: Option<string>): string {
    match reason
    case None => ""
    case Some(phrase) => " " + phrase
  }

  /** A reason phrase is delivered if it is there and not empty. */
  function WithReason(c: Config, reason: Option<string>): (Parser, seq<Event>) {
    if reason.Some? && reason.value != ""
    then (c.p.(index := 0, state := HeaderFieldStart), Emit(c.log, Data(Part.Status, reason.value)))
    else (c.p.(state := HeaderFieldStart), c.log)
  }

  lemma StatusLineEnd(c: Config, reason: Option<string>, end: string)
    requires Valid(c) && c.live.Running? && c.p.state.ResStatusCode? && IsLineEnd(end)
    requires reason.Some? ==> CR !in reason.value && LF !in reason.value
    ensures
      var rest := ReasonText(reason) + end;
      var (p, log) := WithReason(c, reason);
      Run(c, rest) == Config(p, log, c.nread + |rest|, c.used + |rest|, Running)
  {
    hide Valid, Inv, Upto, Run, Emit, IsLineEnd, Switch, Counting;
    if reason.None? {
      assert ReasonText(reason) + end == end;
      LineEnd(c, end);
    } else {
      var phrase := reason.value;
      assert ReasonText(reason) + end == " " + (phrase + end);
      RunInTwo(c, " ", phrase + end);
      SpaceMove(c.p);
      QuietByte(c, ' ', c.p.(state := ResStatusStart));
      var d := Run(c, " ");
      if phrase == "" {
        assert phrase + end == end;
        LineEnd(d, end);
      } else {
        RunInTwo(d, phrase, end);
        ReasonRun(d, phrase);
        LineEnd(Run(d, phrase), end);
      }
    }
  }

  /** A status line, from behind "H": the numbers are those that were sent, exactly if none
      passes 999, and the reason phrase, if there is one, is delivered whole. */
  lemma StatusLine(c: Config, major: string, minor: string, spaces: string, code: string, reason: Option<string>, end: string)
    requires Valid(c) && c.live.Running? && c.p.state.ResH?
    requires IsNumeral(major) && IsNumeral(minor) && AllSpaces(spaces) && IsNumeral(code) && IsLineEnd(end)
    requires reason.Some? ==> CR !in reason.value && LF !in reason.value
    ensures
      var line := "TTP/" + (((((major + ".") + minor) + spaces) + code) + (ReasonText(reason) + end));
      if Decimal(major) <= 999 && Decimal(minor) <= 999 && Decimal(code) <= 999
      then
        var (p, log) := WithReason(c, reason);
        Run(c, line) == Config(p.(major := Decimal(major), minor := Decimal(minor), status := Decimal(code)), log,
                               c.nread + |line|, c.used + |line|, Running)
      else Run(c, line).live.Failed?
  {
    hide Valid, Inv, Upto, Run, Decimal, IsNumeral, Emit, AllSpaces, ReasonText, IsLineEnd;
    var numbers := (((major + ".") + minor) + spaces) + code;
    var rest := ReasonText(reason) + end;
    ProtocolName(c);
    var d := Run(c, "TTP/");
    var ok := StatusNumbers(d, major, minor, spaces, code);
    RunInTwo(d, numbers, rest);
    RunInTwo(c, "TTP/", numbers + rest);
    if ok {
      StatusLineEnd(Run(d, numbers), reason, end);
    } else {
      StaysFailed(Run(d, numbers), rest);
    }
  }
}
