/** The recognisers of header names and values: what they accept, exactly. */
module HttpHeaders {
  import opened Wrappers
  import opened HttpTypes
  import opened HttpSwitch
  import opened HttpRun
  import opened HttpExecute
  import opened HttpChunked

  /* ---- Header names ---- */

  predicate IsName(w: string) { w != "" && forall ch <- w :: Token(ch) != '\0' }

  /** A name in lower case, as the table `tokens` gives it. */
  function Tokens(w: string): (r: string)
    ensures |r| == |w|
  {
    if w == "" then "" else Tokens(w[..|w| - 1]) + [Token(w[|w| - 1])]
  }

  const CONNECTION: string := "connection"
  const PROXY_CONNECTION: string := "proxy-connection"
  const CONTENT_LENGTH: string := "content-length"
  const TRANSFER_ENCODING: string := "transfer-encoding"
  const UPGRADE: string := "upgrade"

  /** The header_state that belongs to the (lower-case) bytes of a name read so far. */
  ghost predicate NameState(h: HeaderState, index: nat, w: string) {
    match h
    case C => w == "c" && index == 0
    case CO => w == "co" && index == 1
    case CON => w == "con" && index == 2
    case MatchingConnection => Within(w, CONNECTION, 4) && index == |w| - 1
    case MatchingContentLength => Within(w, CONTENT_LENGTH, 4) && index == |w| - 1
    case MatchingProxyConnection => Within(w, PROXY_CONNECTION, 1) && index == |w| - 1
    case MatchingTransferEncoding => Within(w, TRANSFER_ENCODING, 1) && index == |w| - 1
    case MatchingUpgrade => Within(w, UPGRADE, 1) && index == |w| - 1
    case Connection => w == CONNECTION || w == PROXY_CONNECTION
    case ContentLength => w == CONTENT_LENGTH
    case TransferEncoding => w == TRANSFER_ENCODING
    case Upgrade => w == UPGRADE
    case General => !StartsKeyword(w)
    case _ => false
  }

  /** `w` is a proper prefix of `word` of at least `least` bytes. */
  predicate Within(w: string, word: string, least: nat) {
    least <= |w| < |word| && w <= word
  }

  predicate StartsKeyword(w: string) {
    w <= CONNECTION || w <= PROXY_CONNECTION || w <= CONTENT_LENGTH || w <= TRANSFER_ENCODING || w <= UPGRADE
  }

  lemma PrefixMore(w: string, c: char, word: string)
    ensures w + [c] <= word <==> w <= word && |w| < |word| && word[|w|] == c
  {
    if w <= word && |w| < |word| && word[|w|] == c {
      assert word[..|w| + 1] == word[..|w|] + [word[|w|]];
    }
    if w + [c] <= word {
      assert word[|w|] == (w + [c])[|w|];
      assert forall i :: 0 <= i < |w| ==> word[i] == (w + [c])[i];
    }
  }

  lemma KeywordMore(w: string, c: char)
    ensures StartsKeyword(w + [c]) <==>
            || (w <= CONNECTION && |w| < |CONNECTION| && CONNECTION[|w|] == c)
            || (w <= PROXY_CONNECTION && |w| < |PROXY_CONNECTION| && PROXY_CONNECTION[|w|] == c)
            || (w <= CONTENT_LENGTH && |w| < |CONTENT_LENGTH| && CONTENT_LENGTH[|w|] == c)
            || (w <= TRANSFER_ENCODING && |w| < |TRANSFER_ENCODING| && TRANSFER_ENCODING[|w|] == c)
            || (w <= UPGRADE && |w| < |UPGRADE| && UPGRADE[|w|] == c)
  {
    PrefixMore(w, c, CONNECTION);
    PrefixMore(w, c, PROXY_CONNECTION);
    PrefixMore(w, c, CONTENT_LENGTH);
    PrefixMore(w, c, TRANSFER_ENCODING);
    PrefixMore(w, c, UPGRADE);
  }

  lemma NameStarts(c: char)
    requires c != '\0'
    ensures NameState(FieldStart(c), 0, [c])
  {
    KeywordMore("", c);
    assert "" + [c] == [c];
    PrefixMore("", c, PROXY_CONNECTION);
    PrefixMore("", c, TRANSFER_ENCODING);
    PrefixMore("", c, UPGRADE);
  }

  /** A string of four bytes or more starts at most one of the keywords, and so does any
      string that does not start with `c`. */
  lemma OneKeyword(w: string)
    requires |w| >= 4 || (|w| >= 1 && w[0] != 'c')
    ensures w <= CONNECTION ==> !(w <= PROXY_CONNECTION || w <= CONTENT_LENGTH || w <= TRANSFER_ENCODING || w <= UPGRADE)
    ensures w <= PROXY_CONNECTION ==> !(w <= CONTENT_LENGTH || w <= TRANSFER_ENCODING || w <= UPGRADE)
    ensures w <= CONTENT_LENGTH ==> !(w <= TRANSFER_ENCODING || w <= UPGRADE)
    ensures w <= TRANSFER_ENCODING ==> !(w <= UPGRADE)
  {
    if w <= CONNECTION { assert w[0] == 'c' && w[3] == 'n'; }
    if w <= CONTENT_LENGTH { assert w[0] == 'c' && w[3] == 't'; }
    if w <= PROXY_CONNECTION { assert w[0] == 'p'; }
    if w <= TRANSFER_ENCODING { assert w[0] == 't'; }
    if w <= UPGRADE { assert w[0] == 'u'; }
  }

  lemma WordContinues(w: string, c: char, word: string, least: nat)
    requires Within(w, word, least)
    ensures CharAt(word, |w|) == c <==> w + [c] <= word
    ensures CharAt(word, |w|) == c ==> if |w| + 1 == |word| then w + [c] == word else Within(w + [c], word, least)
  {
    PrefixMore(w, c, word);
  }

  lemma ShortContinues(h: HeaderState, index: nat, w: string, ch: char)
    requires NameState(h, index, w) && Token(ch) != '\0' && (h.C? || h.CO? || h.CON?)
    ensures NameState(FieldByte(h, index, ch, Token(ch)).0, FieldByte(h, index, ch, Token(ch)).1, w + [Token(ch)])
  {
    hide Token;
    KeywordMore(w, Token(ch));
    PrefixMore(w, Token(ch), CONNECTION);
    PrefixMore(w, Token(ch), CONTENT_LENGTH);
    assert w[0] == 'c';
    if w <= PROXY_CONNECTION || w <= TRANSFER_ENCODING || w <= UPGRADE { assert false; }
    assert |w| == 1 || w[1] == 'o';
    assert w == CONNECTION[..|w|] && w == CONTENT_LENGTH[..|w|];
  }

  lemma MatchingContinues(h: HeaderState, index: nat, w: string, ch: char)
    requires NameState(h, index, w) && Token(ch) != '\0'
    requires h.MatchingConnection? || h.MatchingContentLength? || h.MatchingProxyConnection?
             || h.MatchingTransferEncoding? || h.MatchingUpgrade?
    ensures NameState(FieldByte(h, index, ch, Token(ch)).0, FieldByte(h, index, ch, Token(ch)).1, w + [Token(ch)])
  {
    hide Token, CharAt;
    var c := Token(ch);
    var (word, least) :=
      match h
      case MatchingConnection => (CONNECTION, 4)
      case MatchingContentLength => (CONTENT_LENGTH, 4)
      case MatchingProxyConnection => (PROXY_CONNECTION, 1)
      case MatchingTransferEncoding => (TRANSFER_ENCODING, 1)
      case _ => (UPGRADE, 1);
    WordContinues(w, c, word, least);
    OneKeyword(w);
    KeywordMore(w, c);
    PrefixMore(w, c, word);
  }

  lemma DoneContinues(h: HeaderState, index: nat, w: string, ch: char)
    requires NameState(h, index, w) && Token(ch) != '\0'
    requires h.Connection? || h.ContentLength? || h.TransferEncoding? || h.Upgrade? || h.General?
    ensures NameState(FieldByte(h, index, ch, Token(ch)).0, FieldByte(h, index, ch, Token(ch)).1, w + [Token(ch)])
  {
    assert ch != ' ';
    hide Token;
    if !h.General? { OneKeyword(w); }
    KeywordMore(w, Token(ch));
  }

  lemma NameContinues(h: HeaderState, index: nat, w: string, ch: char)
    requires NameState(h, index, w) && Token(ch) != '\0'
    ensures NameState(FieldByte(h, index, ch, Token(ch)).0, FieldByte(h, index, ch, Token(ch)).1, w + [Token(ch)])
  {
    hide FieldByte, Token;
    if h.C? || h.CO? || h.CON? {
      ShortContinues(h, index, w, ch);
    } else if h.Connection? || h.ContentLength? || h.TransferEncoding? || h.Upgrade? || h.General? {
      DoneContinues(h, index, w, ch);
    } else {
      MatchingContinues(h, index, w, ch);
    }
  }

  lemma FieldStartSwitch(p: Parser, ch: char)
    requires Inv(p) && p.state.HeaderFieldStart? && Token(ch) != '\0'
    ensures Switch(p, ch) == Move(p.(state := HeaderField, index := 0, header := FieldStart(Token(ch))),
                                  [Mark(Field), Byte(Field)], Advance)
  {
    assert ch != CR && ch != LF;
    hide Token, FieldStart, Inv;
    hide StartSwitch, ConstantSwitch, NumberSwitch, StatusSwitch, MethodMove, UrlSwitch, FieldMove, ValueMove, ChunkSwitch, EndSwitch;
  }

  lemma FieldStartStep(c: Config, ch: char)
    requires Valid(c) && c.live.Running? && c.p.state.HeaderFieldStart? && Token(ch) != '\0'
    ensures Step(c, ch)
            == Config(c.p.(state := HeaderField, index := 0, header := FieldStart(Token(ch))),
                      Emit(c.log, Data(Field, [ch])), c.nread + 1, c.used + 1, Running)
  {
    hide Inv, Emit, Switch, Token, FieldStart;
    FieldStartSwitch(c.p, ch);
    OneTrip(c, ch);
    TwoActs(c.log, Mark(Field), Byte(Field), ch);
    EmitInPieces(c.log, Field, "", [ch]);
    assert "" + [ch] == [ch];
  }

  /** A header name is delivered byte by byte while its keyword is looked for. */
  lemma {:induction false} NameUpto(c: Config, w: string, k: nat)
    requires Valid(c) && c.live.Running? && c.p.state.HeaderFieldStart?
    requires IsName(w) && 1 <= k <= |w|
    ensures
      var d := Upto(c, w, k);
      && d == Config(c.p.(state := HeaderField, header := d.p.header, index := d.p.index),
                     Emit(c.log, Data(Field, w[..k])), c.nread + k, c.used + k, Running)
      && NameState(d.p.header, d.p.index, Tokens(w[..k]))
  {
    hide Valid, Inv, Step, Token, FieldByte, FieldStart, Emit, NameState;
    var ch := w[k - 1];
    assert Token(ch) != '\0' by { assert ch in w; }
    assert w[..k][..k - 1] == w[..k - 1] && w[..k] == w[..k - 1] + [ch];
    if k == 1 {
      AtStart(c, w);
      FieldStartStep(c, ch);
      NameStarts(Token(ch));
      assert w[..0] == "" && w[..1] == [ch] && Tokens(w[..1]) == [Token(ch)];
    } else {
      NameUpto(c, w, k - 1);
      var d := Upto(c, w, k - 1);
      FieldStep(d, ch);
      NameContinues(d.p.header, d.p.index, Tokens(w[..k - 1]), ch);
      EmitInPieces(c.log, Field, w[..k - 1], [ch]);
    }
  }

  /** A header name is delivered whole, and the parser knows afterwards which of the
      keywords it is: the letters in any case, nothing before and nothing after. */
  lemma NameRecogniser(c: Config, w: string)
    requires Valid(c) && c.live.Running? && c.p.state.HeaderFieldStart? && IsName(w)
    ensures
      var r := Run(c, w + ":");
      var lower := Tokens(w);
      && r == Config(c.p.(state := HeaderValueDiscardWs, header := r.p.header, index := r.p.index),
                     Emit(c.log, Data(Field, w)), c.nread + |w| + 1, c.used + |w| + 1, Running)
      && (r.p.header.Connection? <==> lower == CONNECTION || lower == PROXY_CONNECTION)
      && (r.p.header.ContentLength? <==> lower == CONTENT_LENGTH)
      && (r.p.header.TransferEncoding? <==> lower == TRANSFER_ENCODING)
      && (r.p.header.Upgrade? <==> lower == UPGRADE)
      && !r.p.header.MatchingTokenStart?
  {
    hide *;
    var d := NameRun(c, w);
    NameEnd(c, w, d);
    KeywordStates(d.p.header, d.p.index, Tokens(w));
  }

  lemma NameRun(c: Config, w: string) returns (d: Config)
    requires Valid(c) && c.live.Running? && c.p.state.HeaderFieldStart? && IsName(w)
    ensures d == Run(c, w)
    ensures d == Config(c.p.(state := HeaderField, header := d.p.header, index := d.p.index),
                        Emit(c.log, Data(Field, w)), c.nread + |w|, c.used + |w|, Running)
    ensures NameState(d.p.header, d.p.index, Tokens(w))
  {
    hide Valid, Inv, Step, Token, Emit, Upto, Tokens, NameState;
    NameUpto(c, w, |w|);
    assert w[..|w|] == w;
    d := Run(c, w);
  }

  lemma NameEnd(c: Config, w: string, d: Config)
    requires Valid(c) && d == Run(c, w) && d.live.Running? && d.p.state.HeaderField?
    ensures Run(c, w + ":") == Config(d.p.(state := HeaderValueDiscardWs), d.log, d.nread + 1, d.used + 1, Running)
  {
    hide Valid, Inv, Step, Token, Emit, Upto, Run;
    RunInTwo(c, w, ":");
    RunOne(d, ':');
    ColonIsNoToken();
    FieldEndStep(d, ':');
  }

  lemma KeywordStates(h: HeaderState, index: nat, w: string)
    requires NameState(h, index, w)
    ensures h.Connection? <==> w == CONNECTION || w == PROXY_CONNECTION
    ensures h.ContentLength? <==> w == CONTENT_LENGTH
    ensures h.TransferEncoding? <==> w == TRANSFER_ENCODING
    ensures h.Upgrade? <==> w == UPGRADE
    ensures !h.MatchingTokenStart?
  {
    KeywordsStart();
    if |w| >= 4 { OneKeyword(w); }
  }

  lemma ColonIsNoToken()
    ensures Token(':') == '\0'
  {
  }

  lemma RunOne(c: Config, ch: char)
    requires Valid(c) && c.live.Running?
    ensures Run(c, [ch]) == Step(c, ch)
  {
    hide Valid, Inv, Step;
    AtStart(c, [ch]);
  }

  /** The keywords are told apart by their states. */
  lemma KeywordsStart()
    ensures StartsKeyword(CONNECTION) && StartsKeyword(PROXY_CONNECTION) && StartsKeyword(CONTENT_LENGTH)
            && StartsKeyword(TRANSFER_ENCODING) && StartsKeyword(UPGRADE)
    ensures CONNECTION != PROXY_CONNECTION && CONNECTION != CONTENT_LENGTH && CONNECTION != TRANSFER_ENCODING
            && CONNECTION != UPGRADE && PROXY_CONNECTION != CONTENT_LENGTH && PROXY_CONNECTION != TRANSFER_ENCODING
            && PROXY_CONNECTION != UPGRADE && CONTENT_LENGTH != TRANSFER_ENCODING && CONTENT_LENGTH != UPGRADE
            && TRANSFER_ENCODING != UPGRADE
  {
    assert CONNECTION[3] == 'n' && CONTENT_LENGTH[3] == 't' && PROXY_CONNECTION[0] == 'p'
           && TRANSFER_ENCODING[0] == 't' && UPGRADE[0] == 'u' && CONNECTION[0] == 'c' && CONTENT_LENGTH[0] == 'c';
  }

  /* ---- Content-Length ---- */

  /** A value that is read as a length: a digit, then digits and spaces. */
  predicate LengthNumeral(v: string) {
    v != "" && IsNum(v[0]) && forall ch <- v :: IsNum(ch) || ch == ' '
  }

  /** The value of the digits; spaces between them are skipped. */
  function DecimalValue(v: string): nat
    requires forall ch <- v :: IsNum(ch) || ch == ' '
  {
    if v == "" then 0
    else
      var ch := v[|v| - 1];
      assert ch in v && (IsNum(ch) || ch == ' ');
      var before := DecimalValue(v[..|v| - 1]);
      if ch == ' ' then before else before * 10 + (ch as int - '0' as int)
  }

  /** The largest length that passes the parser's test for overflow. */
  const MAX_LENGTH: nat := (NO_LENGTH - 10) / 10 * 10 + 9

  /** What the parser takes for a length. */
  predicate Readable(v: string) { LengthNumeral(v) && DecimalValue(v) <= MAX_LENGTH }

  lemma ReadableMore(v: string, ch: char)
    requires v != ""
    ensures Readable(v + [ch])
            <==> Readable(v) && (ch == ' ' || (IsNum(ch) && DecimalValue(v) <= (NO_LENGTH - 10) / 10))
    ensures Readable(v + [ch]) && Readable(v)
            ==> DecimalValue(v + [ch])
                == if ch == ' ' then DecimalValue(v) else DecimalValue(v) * 10 + (ch as int - '0' as int)
  {
    var w := v + [ch];
    assert w[..|v|] == v && w[|v|] == ch && w[0] == v[0];
    assert forall x <- v :: x in w;
    assert ch in w;
  }

  lemma ReadableOne(ch: char)
    ensures Readable([ch]) <==> IsNum(ch)
    ensures IsNum(ch) ==> DecimalValue([ch]) == ch as int - '0' as int
  {
    assert [ch][..0] == "";
    if IsNum(ch) { assert DecimalValue([ch]) == DecimalValue("") * 10 + (ch as int - '0' as int); }
  }

  lemma LengthStartStep(c: Config, ch: char)
    requires Valid(c) && c.live.Running? && c.p.state.HeaderValueDiscardWs? && c.p.header.ContentLength?
    requires ch != ' ' && ch != '\t' && ch != CR && ch != LF
    ensures
      if IsNum(ch)
      then Step(c, ch) == Config(c.p.(state := HeaderValue, index := 0, contentLength := ch as int - '0' as int),
                                 Emit(c.log, Data(Value, [ch])), c.nread + 1, c.used + 1, Running)
      else Step(c, ch).live.Failed?
  {
    hide Lower, Valid, Inv, Emit;
    hide StartSwitch, ConstantSwitch, NumberSwitch, StatusSwitch, MethodMove, UrlSwitch, FieldMove, ValueMove, ChunkSwitch, EndSwitch;
    OneTrip(c, ch);
    TwoActs(c.log, Mark(Value), Byte(Value), ch);
    EmitInPieces(c.log, Value, "", [ch]);
    assert "" + [ch] == [ch];
  }

  lemma LengthNextStep(c: Config, ch: char)
    requires Valid(c) && c.live.Running? && c.p.state.HeaderValue? && c.p.header.ContentLength?
    requires ch != CR && ch != LF
    ensures
      match LengthByte(c.p.contentLength, ch)
      case Some(n) => Step(c, ch) == Config(c.p.(contentLength := n), Emit(c.log, Data(Value, [ch])),
                                            c.nread + 1, c.used + 1, Running)
      case None => Step(c, ch).live.Failed?
  {
    hide Valid, Inv, Emit, Step, LengthByte;
    if LengthByte(c.p.contentLength, ch).Some? { ValueStep(c, ch); } else { ValueFailsStep(c, ch); }
  }

  predicate OneLine(v: string) { v != "" && v[0] != ' ' && v[0] != '\t' && forall ch <- v :: ch != CR && ch != LF }

  /** The length accumulator equals the numeral read so far, or the value is refused. */
  lemma {:induction false} LengthUpto(c: Config, v: string, k: nat)
    requires Valid(c) && c.live.Running? && c.p.state.HeaderValueDiscardWs? && c.p.header.ContentLength?
    requires OneLine(v) && 1 <= k <= |v|
    ensures
      if Readable(v[..k])
      then Upto(c, v, k) == Config(c.p.(state := HeaderValue, index := 0, contentLength := DecimalValue(v[..k])),
                                   Emit(c.log, Data(Value, v[..k])), c.nread + k, c.used + k, Running)
      else Upto(c, v, k).live.Failed?
  {
    hide Valid, Inv, Step, Emit, Readable, DecimalValue;
    var ch := v[k - 1];
    assert ch in v;
    assert v[..k] == v[..k - 1] + [ch];
    if k == 1 {
      AtStart(c, v);
      LengthStartStep(c, ch);
      assert v[..1] == [ch];
      ReadableOne(ch);
    } else {
      LengthUpto(c, v, k - 1);
      var d := Upto(c, v, k - 1);
      ReadableMore(v[..k - 1], ch);
      if d.live.Running? {
        LengthNextStep(d, ch);
        EmitInPieces(c.log, Value, v[..k - 1], [ch]);
      }
    }
  }

  /** A Content-Length value sets exactly the number it spells, which is never the value that
      stands for "no length"; the message is refused exactly when the value is not a numeral
      (spaces after its first digit are skipped) or the number is over MAX_LENGTH. */
  lemma LengthRecogniser(c: Config, v: string)
    requires Valid(c) && c.live.Running? && c.p.state.HeaderValueDiscardWs? && c.p.header.ContentLength?
    requires OneLine(v)
    ensures MAX_LENGTH < NO_LENGTH
    ensures
      if LengthNumeral(v) && DecimalValue(v) <= MAX_LENGTH
      then Run(c, v) == Config(c.p.(state := HeaderValue, index := 0, contentLength := DecimalValue(v)),
                               Emit(c.log, Data(Value, v)), c.nread + |v|, c.used + |v|, Running)
      else Run(c, v).live.Failed?
  {
    hide Valid, Inv, Upto, Emit, DecimalValue;
    LengthUpto(c, v, |v|);
    assert v[..|v|] == v;
  }

  /* ---- Transfer-Encoding: chunked ---- */

  function Lowers(v: string): (r: string)
    ensures |r| == |v|
  {
    if v == "" then "" else Lowers(v[..|v| - 1]) + [Lower(v[|v| - 1])]
  }

  const CHUNKED: string := "chunked"

  /** The word `chunked`, in any case, and then nothing but spaces. */
  predicate SaysChunked(v: string) {
    |v| >= 7 && Lowers(v[..7]) == CHUNKED && forall i :: 7 <= i < |v| ==> v[i] == ' '
  }

  ghost predicate EncodingState(h: HeaderState, index: nat, v: string) {
    match h
    case MatchingChunked => Within(Lowers(v), CHUNKED, 1) && index == |v| - 1
    case Chunked => SaysChunked(v)
    case General => !(Lowers(v) <= CHUNKED) && !SaysChunked(v)
    case _ => false
  }

  lemma EncodingStarts(ch: char)
    ensures EncodingState(if Lower(ch) == 'c' then MatchingChunked else General, 0, [ch])
  {
    hide Lower;
    assert [ch][..0] == "";
    assert Lowers([ch]) == [Lower(ch)];
    PrefixMore("", Lower(ch), CHUNKED);
    assert "" + [Lower(ch)] == [Lower(ch)];
  }

  lemma EncodingContinues(h: HeaderState, index: nat, f: Flags, v: string, ch: char)
    requires EncodingState(h, index, v)
    ensures
      var (h', i, f') := ValueByte(h, index, f, ch);
      EncodingState(h', i, v + [ch]) && f' == f && !h'.ContentLength?
  {
    hide Lower;
    var c := Lower(ch);
    var w := v + [ch];
    assert w[..|v|] == v;
    assert Lowers(w) == Lowers(v) + [c];
    PrefixMore(Lowers(v), c, CHUNKED);
    if h.MatchingChunked? {
      WordContinues(Lowers(v), c, CHUNKED, 1);
      if |w| == 7 { assert w[..7] == w; }
    } else if |v| >= 7 {
      assert w[..7] == v[..7];
    } else if |w| == 7 {
      assert w[..7] == w;
    }
  }

  lemma EncodingStartStep(c: Config, ch: char)
    requires Valid(c) && c.live.Running? && c.p.state.HeaderValueDiscardWs? && c.p.header.TransferEncoding?
    requires ch != ' ' && ch != '\t' && ch != CR && ch != LF
    ensures Step(c, ch)
            == Config(c.p.(state := HeaderValue, index := 0, header := if Lower(ch) == 'c' then MatchingChunked else General),
                      Emit(c.log, Data(Value, [ch])), c.nread + 1, c.used + 1, Running)
  {
    hide Lower, Valid, Inv, Emit;
    hide StartSwitch, ConstantSwitch, NumberSwitch, StatusSwitch, MethodMove, UrlSwitch, FieldMove, ValueMove, ChunkSwitch, EndSwitch;
    OneTrip(c, ch);
    TwoActs(c.log, Mark(Value), Byte(Value), ch);
    EmitInPieces(c.log, Value, "", [ch]);
    assert "" + [ch] == [ch];
  }

  lemma {:induction false} EncodingUpto(c: Config, v: string, k: nat)
    requires Valid(c) && c.live.Running? && c.p.state.HeaderValueDiscardWs? && c.p.header.TransferEncoding?
    requires OneLine(v) && 1 <= k <= |v|
    ensures
      var d := Upto(c, v, k);
      && d == Config(c.p.(state := HeaderValue, header := d.p.header, index := d.p.index),
                     Emit(c.log, Data(Value, v[..k])), c.nread + k, c.used + k, Running)
      && EncodingState(d.p.header, d.p.index, v[..k])
  {
    hide Valid, Inv, Step, Emit, EncodingState, ValueByte, Lower, LengthByte;
    var ch := v[k - 1];
    assert ch in v;
    assert v[..k] == v[..k - 1] + [ch];
    if k == 1 {
      AtStart(c, v);
      EncodingStartStep(c, ch);
      assert v[..1] == [ch];
      EncodingStarts(ch);
    } else {
      EncodingUpto(c, v, k - 1);
      var d := Upto(c, v, k - 1);
      EncodingContinues(d.p.header, d.p.index, d.p.flags, v[..k - 1], ch);
      EncodingNoLength(d.p.header, d.p.index, v[..k - 1]);
      ValueStep(d, ch);
      EmitInPieces(c.log, Value, v[..k - 1], [ch]);
    }
  }

  lemma EncodingNoLength(h: HeaderState, index: nat, v: string)
    requires EncodingState(h, index, v)
    ensures !h.ContentLength? && (h.Chunked? <==> SaysChunked(v))
  {
  }

  /** A Transfer-Encoding value is recognised exactly when it is the word `chunked` in any
      case, followed by nothing but spaces. The whole value is delivered. */
  lemma EncodingRecogniser(c: Config, v: string) returns (d: Config)
    requires Valid(c) && c.live.Running? && c.p.state.HeaderValueDiscardWs? && c.p.header.TransferEncoding?
    requires OneLine(v)
    ensures d == Run(c, v)
    ensures d == Config(c.p.(state := HeaderValue, header := d.p.header, index := d.p.index),
                        Emit(c.log, Data(Value, v)), c.nread + |v|, c.used + |v|, Running)
    ensures d.p.header.Chunked? <==> SaysChunked(v)
  {
    hide Valid, Inv, Upto, Emit, SaysChunked, EncodingState;
    EncodingUpto(c, v, |v|);
    assert v[..|v|] == v;
    d := Run(c, v);
    EncodingNoLength(d.p.header, d.p.index, v);
  }

  /* ---- Lists ---- */

  predicate IsBlank(ch: char) { ch == ' ' || ch == '\t' }

  /** A list without the empty elements and the blanks at its end. */
  function TrimEnd(v: string): string {
    if v != "" && (IsBlank(v[|v| - 1]) || v[|v| - 1] == ',') then TrimEnd(v[..|v| - 1]) else v
  }

  /** What stands behind the last comma. */
  function LastItem(v: string): string {
    if v == "" || v[|v| - 1] == ',' then "" else LastItem(v[..|v| - 1]) + [v[|v| - 1]]
  }

  function TrimStart(v: string): string {
    if v != "" && IsBlank(v[0]) then TrimStart(v[1..]) else v
  }

  lemma {:induction false} LowersAt(v: string, i: nat)
    requires i < |v|
    ensures Lowers(v)[i] == Lower(v[i])
  {
    if i < |v| - 1 { LowersAt(v[..|v| - 1], i); }
  }

  lemma {:induction false} NoComma(v: string)
    requires ',' !in v
    ensures LastItem(v) == v
  {
    if v != "" {
      NoComma(v[..|v| - 1]);
      assert v == v[..|v| - 1] + [v[|v| - 1]];
      assert v[|v| - 1] in v;
    }
  }

  lemma {:induction false} BehindComma(list: string, item: string)
    requires ',' !in item
    ensures LastItem((list + ",") + item) == item
    decreases |item|
  {
    var v := (list + ",") + item;
    if item != "" {
      var k := |item| - 1;
      BehindComma(list, item[..k]);
      assert v[..|v| - 1] == (list + ",") + item[..k];
      assert item == item[..k] + [item[k]];
      assert item[k] in item;
    }
  }

  lemma {:induction false} AlreadyLower(v: string)
    requires forall ch <- v :: 'a' <= ch <= 'z' || ch == ',' || ch == ' '
    ensures Lowers(v) == v
  {
    if v != "" {
      var k := |v| - 1;
      assert v == v[..k] + [v[k]];
      assert v[k] in v;
      assert forall ch <- v[..k] :: ch in v;
      AlreadyLower(v[..k]);
    }
  }
}
