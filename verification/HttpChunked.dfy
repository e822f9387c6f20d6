/** Bodies in chunks (section 4.1 of RFC 7230) and bodies of a given length. */
module HttpChunked {
  import opened Wrappers
  import opened HttpTypes
  import opened HttpSwitch
  import opened HttpRun
  import opened HttpExecute

  /* ---- Numerals ---- */

  /** The characters that `unhex` takes for a hexadecimal digit. */
  predicate IsSizeDigit(ch: char) { Unhex(ch) != -1 }

  /** These are the hexadecimal digits and, since the table's initialiser stops after 128
      entries, every byte from 128 on. */
  lemma SizeDigits(ch: char)
    ensures IsSizeDigit(ch) <==> IsHex(ch) || ch >= 128 as char
    ensures IsHex(ch) ==> 0 <= Unhex(ch) < 16
    ensures ch >= 128 as char ==> Unhex(ch) == 0
  {
  }

  predicate SizeNumeral(s: string) { s != "" && forall ch <- s :: IsSizeDigit(ch) }

  function HexValue(s: string): (n: nat)
    requires forall ch <- s :: IsSizeDigit(ch)
  {
    if s == "" then 0
    else
      assert IsSizeDigit(s[|s| - 1]);
      HexValue(s[..|s| - 1]) * 16 + Unhex(s[|s| - 1])
  }

  /** The largest chunk size that passes the parser's test for overflow. */
  const MAX_CHUNK: nat := NO_LENGTH - 16

  function HexDigit(n: nat): char
    requires n < 16
  {
    "0123456789abcdef"[n]
  }

  /** A number in hexadecimal, without leading zeros. */
  function Hex(n: nat): (s: string)
    ensures SizeNumeral(s) && HexValue(s) == n
  {
    assert forall d: nat | d < 16 :: Unhex(HexDigit(d)) == d;
    if n < 16 then [HexDigit(n)]
    else
      var s := Hex(n / 16) + [HexDigit(n % 16)];
      assert s[..|s| - 1] == Hex(n / 16);
      s
  }

  /* ---- The machine in the chunk states ---- */

  /** A byte that takes the switch once. */
  lemma OneTrip(c: Config, ch: char)
    requires Valid(c) && c.live.Running? && !Switch(Counted(c).p, ch).next.Again?
    ensures Step(c, ch) == After(Counted(c), Switch(Counted(c).p, ch), ch)
  {
    hide Switch, Valid, Inv, After, Dispatch;
    CountedValid(c);
    SwitchEnds(Counted(c), ch);
  }

  lemma SizeStartStep(c: Config, ch: char)
    requires Valid(c) && c.live.Running? && c.p.state.ChunkSizeStart? && IsSizeDigit(ch)
    ensures Step(c, ch) == Config(c.p.(contentLength := Unhex(ch), state := ChunkSize), c.log, c.nread + 1, c.used + 1, Running)
  {
    hide Unhex, Valid, Inv, Emit;
    hide StartSwitch, ConstantSwitch, NumberSwitch, StatusSwitch, MethodMove, UrlSwitch, FieldMove, ValueMove, HeaderSwitch, EndSwitch;
    OneTrip(c, ch);
  }

  lemma SizeStep(c: Config, ch: char)
    requires Valid(c) && c.live.Running? && c.p.state.ChunkSize?
    ensures
      var m := ChunkSizeMove(c.p, ch);
      Step(c, ch) == Config(m.p, c.log, c.nread + 1, if m.next.Stop? then c.used else c.used + 1,
                            if m.next.Stop? then Failed else Running)
  {
    hide Unhex, Valid, Inv, Emit;
    hide StartSwitch, ConstantSwitch, NumberSwitch, StatusSwitch, MethodMove, UrlSwitch, FieldMove, ValueMove, HeaderSwitch, EndSwitch;
    OneTrip(c, ch);
  }

  lemma SizeEndStep(c: Config)
    requires Valid(c) && c.live.Running? && c.p.state.ChunkSizeAlmostDone?
    ensures
      var log := c.log + [Note(ChunkHeader(c.p.contentLength))];
      Step(c, LF) == Config(if c.p.contentLength == 0
                            then c.p.(flags := c.p.flags.(trailing := true), state := HeaderFieldStart)
                            else c.p.(state := ChunkData), log, 0, c.used + 1, Running)
  {
    hide Valid, Inv, Emit;
    hide StartSwitch, ConstantSwitch, NumberSwitch, StatusSwitch, MethodMove, UrlSwitch, FieldMove, ValueMove, HeaderSwitch, EndSwitch;
    OneTrip(c, LF);
    TwoActs(c.log, Fire(ChunkHeader(c.p.contentLength)), Fire(ChunkComplete), LF);
  }

  lemma DataEndSteps(c: Config)
    requires Valid(c) && c.live.Running?
    requires c.p.state.ChunkDataAlmostDone? || c.p.state.ChunkDataDone?
    ensures c.p.state.ChunkDataAlmostDone?
            ==> Step(c, CR) == Config(c.p.(state := ChunkDataDone), c.log, c.nread, c.used + 1, Running)
    ensures c.p.state.ChunkDataDone?
            ==> Step(c, LF) == Config(c.p.(state := ChunkSizeStart), c.log + [Note(ChunkComplete)], 0, c.used + 1, Running)
  {
    hide Valid, Inv, Emit;
    hide StartSwitch, ConstantSwitch, NumberSwitch, StatusSwitch, MethodMove, UrlSwitch, FieldMove, ValueMove, HeaderSwitch, EndSwitch;
    if c.p.state.ChunkDataAlmostDone? {
      OneTrip(c, CR);
      TwoActs(c.log, Flush(Body), Flush(Body), CR);
    } else {
      OneTrip(c, LF);
      TwoActs(c.log, Fire(ChunkComplete), Fire(ChunkComplete), LF);
    }
  }

  /** The empty line after the last chunk. */
  lemma TrailerEndStep(c: Config)
    requires Valid(c) && c.live.Running? && c.p.state.HeaderFieldStart?
    ensures Step(c, CR) == Config(c.p.(state := HeadersAlmostDone), c.log, c.nread + 1, c.used + 1, Running)
  {
    hide Valid, Inv, Emit;
    hide StartSwitch, ConstantSwitch, NumberSwitch, StatusSwitch, MethodMove, UrlSwitch, FieldMove, ValueMove, ChunkSwitch, EndSwitch;
    OneTrip(c, CR);
  }

  /** How a message ends: with the exit if another protocol was agreed on. */
  function Completed(p: Parser): Parser { p.(state := NewMessage(p.(state := MessageDone))) }

  function Ended(p: Parser): Live { if p.upgrade then Upgraded else Running }

  lemma MessageDoneTrip(c: Config, ch: char)
    requires Valid(c) && c.live.Running? && c.p.state.MessageDone?
    ensures Dispatch(c, ch) == Config(Completed(c.p), c.log + [Note(MessageComplete)], c.nread, c.used + 1, Ended(c.p))
  {
    hide Valid, Inv, Emit, NewMessage, Dispatch;
    hide StartSwitch, ConstantSwitch, NumberSwitch, StatusSwitch, MethodMove, UrlSwitch, FieldMove, ValueMove, ChunkSwitch, HeaderSwitch;
    SwitchEnds(c, ch);
    TwoActs(c.log, Fire(MessageComplete), Fire(MessageComplete), ch);
    assert c.p.(state := MessageDone) == c.p;
  }

  lemma LastChunkStep(c: Config)
    requires Valid(c) && c.live.Running? && c.p.state.HeadersAlmostDone? && c.p.flags.trailing
    ensures Step(c, LF) == Config(Completed(c.p), c.log + [Note(ChunkComplete), Note(MessageComplete)],
                                  c.nread + 1, c.used + 1, Ended(c.p))
  {
    hide Valid, Inv, Emit, NewMessage, Dispatch;
    hide StartSwitch, ConstantSwitch, NumberSwitch, StatusSwitch, MethodMove, UrlSwitch, FieldMove, ValueMove, ChunkSwitch, HeaderSwitch;
    var b := c.(nread := c.nread + 1);
    CountedValid(c);
    TwoActs(c.log, Fire(ChunkComplete), Fire(ChunkComplete), LF);
    SwitchAgain(b, LF);
    var d := After(b, Switch(b.p, LF), LF);
    MessageDoneTrip(d, LF);
    assert d.p.(state := MessageDone) == c.p.(state := MessageDone);
  }

  /* ---- Chunk sizes ---- */

  /** The size accumulator equals the numeral read so far, or the test for overflow has
      failed: it never wraps and never takes the value that stands for "no length". */
  lemma {:induction false} SizeUpto(c: Config, s: string, k: nat)
    requires Valid(c) && c.live.Running? && c.p.state.ChunkSizeStart?
    requires SizeNumeral(s) && 1 <= k <= |s|
    ensures
      if HexValue(s[..k - 1]) <= (NO_LENGTH - 16) / 16
      then Upto(c, s, k) == Config(c.p.(contentLength := HexValue(s[..k]), state := ChunkSize), c.log,
                                   c.nread + k, c.used + k, Running)
      else Upto(c, s, k).live.Failed?
  {
    hide Valid, Inv, Step, Unhex;
    var ch := s[k - 1];
    assert ch in s;
    assert s[..k][..k - 1] == s[..k - 1] && s[..k][k - 1] == ch;
    if k == 1 {
      assert Upto(c, s, 0) == c && s[..0] == "";
      SizeStartStep(c, ch);
    } else {
      SizeUpto(c, s, k - 1);
      assert s[..k - 1][..k - 2] == s[..k - 2];
      SizeDigitStep(s[..k - 1]);
      if Upto(c, s, k - 1).live.Running? { SizeStep(Upto(c, s, k - 1), ch); }
      UnhexRange(ch);
    }
  }

  lemma UnhexRange(ch: char)
    ensures Unhex(ch) != -1 ==> 0 <= Unhex(ch) < 16 && ch != CR
  {
  }

  lemma SizeDigitStep(s: string)
    requires SizeNumeral(s)
    ensures HexValue(s[..|s| - 1]) <= HexValue(s) / 16 <= HexValue(s)
    ensures HexValue(s[..|s| - 1]) <= (NO_LENGTH - 16) / 16 <==> HexValue(s) <= MAX_CHUNK
  {
    hide Unhex;
    assert s[|s| - 1] in s;
    UnhexRange(s[|s| - 1]);
    OneHexDigit(HexValue(s[..|s| - 1]), Unhex(s[|s| - 1]), HexValue(s));
  }

  lemma OneHexDigit(h: nat, digit: nat, v: nat)
    requires v == h * 16 + digit && digit < 16
    ensures h == v / 16
    ensures h <= (NO_LENGTH - 16) / 16 <==> v <= MAX_CHUNK
  {
  }

  /** Any numeral of a size up to MAX_CHUNK is read as its value; any other is an error. */
  lemma SizeRun(c: Config, s: string)
    requires Valid(c) && c.live.Running? && c.p.state.ChunkSizeStart? && SizeNumeral(s)
    ensures
      if HexValue(s) <= MAX_CHUNK
      then Run(c, s) == Config(c.p.(contentLength := HexValue(s), state := ChunkSize), c.log,
                               c.nread + |s|, c.used + |s|, Running)
      else Run(c, s).live.Failed?
  {
    hide Valid, Inv, Upto, Unhex, HexValue;
    SizeUpto(c, s, |s|);
    SizeDigitStep(s);
    assert s[..|s|] == s;
  }

  /* ---- Chunks ---- */

  const CRLF: string := "\r\n"

  datatype Chunk = Chunk(size: string, data: string)

  predicate Proper(k: Chunk) {
    SizeNumeral(k.size) && HexValue(k.size) == |k.data| && 0 < |k.data| <= MAX_CHUNK
  }

  function Print(k: Chunk): string { (k.size + CRLF) + (k.data + CRLF) }

  function PrintAll(chunks: seq<Chunk>, last: string): string {
    if chunks == [] then (last + CRLF) + CRLF else Print(chunks[0]) + PrintAll(chunks[1..], last)
  }

  lemma TwoBytes(c: Config, a: char, b: char)
    requires Valid(c) && c.live.Running? && Step(c, a).live.Running?
    ensures Run(c, [a, b]) == Step(Step(c, a), b)
  {
    hide Valid, Inv, Step;
    assert Upto(c, [a, b], 0) == c;
    assert Upto(c, [a, b], 1) == Step(c, a);
  }

  /** A size line ends with the chunk's header callback. */
  lemma SizeLine(c: Config, size: string)
    requires Valid(c) && c.live.Running? && c.p.state.ChunkSizeStart?
    requires SizeNumeral(size) && HexValue(size) <= MAX_CHUNK
    ensures
      var n := HexValue(size);
      var p := c.p.(contentLength := n, state := ChunkSizeAlmostDone);
      Run(c, size + CRLF)
      == Config(if n == 0 then p.(flags := p.flags.(trailing := true), state := HeaderFieldStart)
                else p.(state := ChunkData),
                c.log + [Note(ChunkHeader(n))], 0, c.used + |size| + 2, Running)
  {
    hide Valid, Inv, Step, Upto, Run, Unhex, HexValue;
    SizeRun(c, size);
    var d := Run(c, size);
    RunInTwo(c, size, CRLF);
    SizeStep(d, CR);
    var e := Step(d, CR);
    assert e.p == d.p.(state := ChunkSizeAlmostDone);
    SizeEndStep(e);
    TwoBytes(d, CR, LF);
    assert CRLF == [CR, LF];
  }

  /** The data of a chunk is delivered, and the line after it ends the chunk. */
  lemma ChunkBody(c: Config, data: string)
    requires Valid(c) && c.live.Running? && c.p.state.ChunkData?
    requires data != "" && c.p.contentLength == |data|
    ensures Run(c, data + CRLF)
            == Config(c.p.(contentLength := 0, state := ChunkSizeStart), Emit(c.log, Data(Body, data)) + [Note(ChunkComplete)],
                      0, c.used + |data| + 2, Running)
  {
    hide Valid, Inv, Step, Upto, Emit;
    AtStart(c, data);
    var unused := LastBodyByte(c, data, 0, |data|);
    assert data[0..0 + |data|] == data;
    var d := Run(c, data);
    RunInTwo(c, data, CRLF);
    DataEndSteps(d);
    DataEndSteps(Step(d, CR));
    TwoBytes(d, CR, LF);
    assert CRLF == [CR, LF];
  }

  lemma AtStart(c: Config, data: string)
    requires Valid(c)
    ensures Upto(c, data, 0) == c
  {
  }

  /** One chunk from its size to the line after its data. */
  lemma ChunkRun(c: Config, k: Chunk)
    requires Valid(c) && c.live.Running? && c.p.state.ChunkSizeStart? && Proper(k)
    ensures Run(c, Print(k)) == Config(c.p.(contentLength := 0), c.log + ChunkEvents(k), 0, c.used + |Print(k)|, Running)
  {
    hide Valid, Inv, Step, Upto, Run, Unhex, HexValue;
    SizeLine(c, k.size);
    var d := Run(c, k.size + CRLF);
    RunInTwo(c, k.size + CRLF, k.data + CRLF);
    ChunkBody(d, k.data);
    assert Emit(d.log, Data(Body, k.data)) == d.log + [Data(Body, k.data)];
    assert c.log + [Note(ChunkHeader(|k.data|))] + [Data(Body, k.data)] + [Note(ChunkComplete)] == c.log + ChunkEvents(k);
  }

  function ChunkEvents(k: Chunk): seq<Event> {
    [Note(ChunkHeader(|k.data|)), Data(Body, k.data), Note(ChunkComplete)]
  }

  function AllEvents(chunks: seq<Chunk>): seq<Event> {
    if chunks == [] then [Note(ChunkHeader(0)), Note(ChunkComplete), Note(MessageComplete)]
    else ChunkEvents(chunks[0]) + AllEvents(chunks[1..])
  }

  /** The last chunk and the empty line after it. */
  lemma LastChunkRun(c: Config, last: string)
    requires Valid(c) && c.live.Running? && c.p.state.ChunkSizeStart?
    requires SizeNumeral(last) && HexValue(last) == 0
    ensures
      var r := Run(c, (last + CRLF) + CRLF);
      && r.log == c.log + [Note(ChunkHeader(0)), Note(ChunkComplete), Note(MessageComplete)]
      && r.live == Ended(c.p) && r.used == c.used + |last| + 4
      && r.p == Completed(c.p.(contentLength := 0, flags := c.p.flags.(trailing := true)))
  {
    hide Valid, Inv, Step, Upto, Run, Unhex, HexValue, NewMessage;
    SizeLine(c, last);
    var d := Run(c, last + CRLF);
    RunInTwo(c, last + CRLF, CRLF);
    TrailerEndStep(d);
    LastChunkStep(Step(d, CR));
    TwoBytes(d, CR, LF);
    assert CRLF == [CR, LF];
    assert c.log + [Note(ChunkHeader(0))] + [Note(ChunkComplete), Note(MessageComplete)]
           == c.log + [Note(ChunkHeader(0)), Note(ChunkComplete), Note(MessageComplete)];
    assert Step(d, CR).p.(state := MessageDone)
           == c.p.(contentLength := 0, flags := c.p.flags.(trailing := true)).(state := MessageDone);
  }

  /** Round trip: the printed chunks give back each chunk's length and data, and then
      exactly one end of message. */
  lemma {:induction false} ChunkedRoundTrip(c: Config, chunks: seq<Chunk>, last: string)
    requires Valid(c) && c.live.Running? && c.p.state.ChunkSizeStart?
    requires forall k <- chunks :: Proper(k)
    requires SizeNumeral(last) && HexValue(last) == 0
    ensures
      var r := Run(c, PrintAll(chunks, last));
      && r.log == c.log + AllEvents(chunks)
      && r.live == Ended(c.p) && r.used == c.used + |PrintAll(chunks, last)|
      && r.p == Completed(c.p.(contentLength := 0, flags := c.p.flags.(trailing := true)))
    decreases |chunks|
  {
    hide Valid, Inv, Step, Upto, Run, Unhex, HexValue, NewMessage, Proper, Print, ChunkEvents, SizeNumeral;
    if chunks == [] {
      LastChunkRun(c, last);
    } else {
      ChunkRun(c, chunks[0]);
      var d := Run(c, Print(chunks[0]));
      RunInTwo(c, Print(chunks[0]), PrintAll(chunks[1..], last));
      ChunkedRoundTrip(d, chunks[1..], last);
      assert (c.log + ChunkEvents(chunks[0])) + AllEvents(chunks[1..]) == c.log + AllEvents(chunks);
    }
  }

  /* ---- What the application gets ---- */

  function JoinData(chunks: seq<Chunk>): string {
    if chunks == [] then "" else chunks[0].data + JoinData(chunks[1..])
  }

  function Completions(log: seq<Event>): nat {
    if log == [] then 0
    else Completions(log[..|log| - 1]) + (if log[|log| - 1] == Note(MessageComplete) then 1 else 0)
  }

  lemma {:induction false} Appended(log: seq<Event>, more: seq<Event>)
    ensures TextOf(log + more, Body) == TextOf(log, Body) + TextOf(more, Body)
    ensures Completions(log + more) == Completions(log) + Completions(more)
    decreases |more|
  {
    if more == [] {
      assert log + more == log;
    } else {
      var n := |more| - 1;
      Appended(log, more[..n]);
      assert (log + more)[..|log + more| - 1] == log + more[..n];
    }
  }

  lemma ThreeEvents(a: Event, b: Event, c: Event)
    ensures TextOf([a, b, c], Body) == OneText(a) + OneText(b) + OneText(c)
    ensures Completions([a, b, c]) == OneCompletion(a) + OneCompletion(b) + OneCompletion(c)
  {
    OneEvent(a);
    OneEvent(b);
    OneEvent(c);
    Appended([a], [b]);
    Appended([a] + [b], [c]);
    assert [a] + [b] + [c] == [a, b, c];
  }

  function OneText(e: Event): string { if e.Data? && e.part == Body then e.text else "" }

  function OneCompletion(e: Event): nat { if e == Note(MessageComplete) then 1 else 0 }

  lemma OneEvent(e: Event)
    ensures TextOf([e], Body) == OneText(e) && Completions([e]) == OneCompletion(e)
  {
    assert [e][..0] == [];
  }

  lemma ChunkText(k: Chunk)
    ensures TextOf(ChunkEvents(k), Body) == k.data && Completions(ChunkEvents(k)) == 0
  {
    hide TextOf, Completions;
    ThreeEvents(Note(ChunkHeader(|k.data|)), Data(Body, k.data), Note(ChunkComplete));
  }

  lemma {:induction false} EventsText(chunks: seq<Chunk>)
    ensures TextOf(AllEvents(chunks), Body) == JoinData(chunks)
    ensures Completions(AllEvents(chunks)) == 1
    decreases |chunks|
  {
    hide TextOf, Completions, ChunkEvents;
    if chunks == [] {
      ThreeEvents(Note(ChunkHeader(0)), Note(ChunkComplete), Note(MessageComplete));
    } else {
      ChunkText(chunks[0]);
      EventsText(chunks[1..]);
      Appended(ChunkEvents(chunks[0]), AllEvents(chunks[1..]));
    }
  }

  /** The joined body callbacks are the joined chunks, and the message ends exactly once. */
  lemma ChunkedBody(c: Config, chunks: seq<Chunk>, last: string)
    requires Valid(c) && c.live.Running? && c.p.state.ChunkSizeStart?
    requires forall k <- chunks :: Proper(k)
    requires SizeNumeral(last) && HexValue(last) == 0
    ensures
      var r := Run(c, PrintAll(chunks, last));
      && !r.live.Failed?
      && TextOf(r.log, Body) == TextOf(c.log, Body) + JoinData(chunks)
      && Completions(r.log) == Completions(c.log) + 1
      && EndsWith(r.log, MessageComplete)
  {
    hide Valid, Inv, Step, Upto, Run, Unhex, HexValue, NewMessage, Proper, Print, SizeNumeral;
    ChunkedRoundTrip(c, chunks, last);
    EventsText(chunks);
    Appended(c.log, AllEvents(chunks));
    LastEvent(chunks);
  }

  predicate EndsWith(log: seq<Event>, what: Notice) { log != [] && log[|log| - 1] == Note(what) }

  lemma LastEvent(chunks: seq<Chunk>)
    ensures EndsWith(AllEvents(chunks), MessageComplete)
  {
  }

  /** A byte from 128 on is read as the digit 0: this one ends a body. */
  lemma HighByteEndsBody(c: Config)
    requires Valid(c) && c.live.Running? && c.p.state.ChunkSizeStart?
    ensures EndsWith(Run(c, ("\U{80}" + CRLF) + CRLF).log, MessageComplete)
  {
    hide Valid, Inv, Step, Upto, Run, NewMessage;
    assert "\U{80}"[..0] == "";
    assert HexValue("\U{80}") == HexValue("") * 16 + Unhex('\U{80}');
    LastChunkRun(c, "\U{80}");
  }

  /** A body of a given length is delivered whole, and its last byte ends the message. */
  lemma LengthBody(c: Config, data: string)
    requires Valid(c) && c.live.Running? && c.p.state.BodyIdentity?
    requires data != "" && c.p.contentLength == |data|
    ensures Run(c, data) == Config(Completed(c.p.(contentLength := 0)), Emit(c.log, Data(Body, data)) + [Note(MessageComplete)],
                                   c.nread, c.used + |data|, Ended(c.p))
  {
    hide Valid, Inv, Step, Upto, Emit, Dispatch, NewMessage;
    AtStart(c, data);
    var d := LastBodyByte(c, data, 0, |data|);
    assert data[0..0 + |data|] == data;
    MessageDoneTrip(d, data[|data| - 1]);
    assert d.p.(state := MessageDone) == c.p.(contentLength := 0).(state := MessageDone);
  }

  /* ---- The header limit is never met in a chunked body ---- */

  /** One byte of a chunk's data, or of the line after it, is no header byte. */
  lemma {:induction false} BodyUncounted(c: Config, data: string, j: nat)
    requires Valid(c) && c.live.Running? && c.p.state.ChunkData?
    requires data != "" && c.p.contentLength == |data| && j <= |data + CRLF|
    ensures Upto(c, data + CRLF, j).nread <= c.nread
  {
    hide Valid, Inv, Step, Upto, Emit;
    AtStart(c, data);
    AtStart(c, data + CRLF);
    if j < |data| {
      if j > 0 { BodyStride(c, data, 0, j); }
      UptoPrefix(c, data, CRLF, j);
    } else {
      var unused := LastBodyByte(c, data, 0, |data|);
      UptoSuffix(c, data, CRLF, j - |data|);
      var d := Run(c, data);
      DataEndSteps(d);
      DataEndSteps(Step(d, CR));
      EndOfChunkUncounted(d, j - |data|);
    }
  }

  lemma EndOfChunkUncounted(d: Config, j: nat)
    requires Valid(d) && d.live.Running? && d.p.state.ChunkDataAlmostDone? && j <= 2
    ensures Upto(d, CRLF, j).nread <= d.nread
  {
    hide Valid, Inv, Step, Emit;
    assert CRLF[0] == CR && CRLF[1] == LF && |CRLF| == 2;
    DataEndSteps(d);
    DataEndSteps(Step(d, CR));
    assert Upto(d, CRLF, 0) == d;
    assert Upto(d, CRLF, 1) == Step(d, CR);
  }

  /** Only the size lines of a chunked body count as header bytes, one at a time: no prefix
      comes near a limit that the size numerals keep. */
  lemma {:induction false} ChunksUncounted(c: Config, chunks: seq<Chunk>, last: string, j: nat, limit: nat)
    requires Valid(c) && c.live.Running? && c.p.state.ChunkSizeStart? && c.nread == 0
    requires forall k <- chunks :: Proper(k) && |k.size| + 4 < limit
    requires SizeNumeral(last) && HexValue(last) == 0 && |last| + 4 < limit
    requires j <= |PrintAll(chunks, last)|
    ensures Upto(c, PrintAll(chunks, last), j).nread < limit
    decreases |chunks|
  {
    hide Valid, Inv, Step, Upto, Unhex, HexValue, Emit, ChunkEvents;
    if chunks == [] {
      AtStart(c, PrintAll(chunks, last));
      CountFrom(c, PrintAll(chunks, last), 0, j);
    } else {
      var k := chunks[0];
      var size, body, rest := k.size + CRLF, k.data + CRLF, PrintAll(chunks[1..], last);
      SizeLine(c, k.size);
      if j <= |size| {
        AtStart(c, PrintAll(chunks, last));
        CountFrom(c, PrintAll(chunks, last), 0, j);
      } else if j <= |size + body| {
        UptoPrefix(c, size + body, rest, j);
        UptoSuffix(c, size, body, j - |size|);
        BodyUncounted(Run(c, size), k.data, j - |size|);
      } else {
        ChunkRun(c, k);
        UptoSuffix(c, size + body, rest, j - |size + body|);
        ChunksUncounted(Run(c, size + body), chunks[1..], last, j - |size + body|, limit);
      }
    }
  }

  /** `http_parser_execute` on a whole chunked body never reports an error and delivers it. */
  method ReceiveChunks(parser: HttpParser, chunks: seq<Chunk>, last: string) returns (taken: nat, upgraded: bool)
    requires parser.Ready() && parser.fields.errno.OK? && parser.fields.state.ChunkSizeStart?
    requires forall k <- chunks :: Proper(k) && |k.size| + 4 < HTTP_MAX_HEADER_SIZE
    requires SizeNumeral(last) && HexValue(last) == 0 && |last| + 4 < HTTP_MAX_HEADER_SIZE
    modifies parser
    ensures parser.Ready() && parser.fields.errno.OK?
    ensures parser.log == old(parser.log) + AllEvents(chunks)
    ensures taken == |PrintAll(chunks, last)| && upgraded == old(parser.fields.upgrade)
  {
    ghost var c := parser.Now();
    assert c.nread == 0;
    hide Valid, Inv, Upto, Unhex, HexValue, Emit, CountFits, NewMessage, Proper, SizeNumeral;
    var data := PrintAll(chunks, last);
    assert data != "" by { PrintedSomething(chunks, last); }
    ChunkedRoundTrip(c, chunks, last);
    forall j: nat | j <= |data|
      ensures Upto(c, data, j).nread < HTTP_MAX_HEADER_SIZE
    {
      ChunksUncounted(c, chunks, last, j, HTTP_MAX_HEADER_SIZE);
    }
    taken, upgraded := parser.Execute(data);
  }

  lemma PrintedSomething(chunks: seq<Chunk>, last: string)
    ensures |PrintAll(chunks, last)| > 0
  {
    if chunks != [] { assert |Print(chunks[0])| > 0; }
  }
}
