/** `http_parser_execute` itself: a buffer, five marks, the inner loops over header names
    and values, the memchr shortcut and bodies taken in one stride. It refines HttpRun. */
module HttpExecute {
  import opened Wrappers
  import opened HttpTypes
  import opened HttpSwitch
  import opened HttpRun

  /** A trip through the switch that does not end the byte. */
  lemma SwitchAgain(c: Config, ch: char)
    requires Valid(c) && c.live.Running? && Switch(c.p, ch).next.Again?
    ensures Valid(After(c, Switch(c.p, ch), ch))
    ensures Dispatch(c, ch) == Dispatch(After(c, Switch(c.p, ch), ch), ch)
    ensures Rank(Switch(c.p, ch).p.state) < Rank(c.p.state)
  {
    hide Switch, Inv, ActsFit, After, Rank;
    SwitchKeepsInv(c.p, ch);
    SwitchFits(c.p, ch);
    AfterValid(c, Switch(c.p, ch), ch);
  }

  lemma SwitchEnds(c: Config, ch: char)
    requires Valid(c) && c.live.Running? && !Switch(c.p, ch).next.Again?
    ensures Dispatch(c, ch) == After(c, Switch(c.p, ch), ch)
  {
    hide Switch, Inv, Fits, After, Valid;
  }

  lemma CountedValid(c: Config)
    requires Valid(c)
    ensures Valid(c.(nread := c.nread + 1))
  {
    hide Inv;
  }

  /** What a valid configuration that runs tells about its parser. */
  lemma RunningParser(c: Config)
    requires Valid(c) && c.live.Running?
    ensures c.p.errno.OK? && Inv(c.p)
    ensures c.p.state.HeaderValue? ==> !c.p.header.Connection? && !c.p.header.TransferEncoding?
    ensures c.p.state.ChunkSizeStart? ==> c.p.flags.chunked
    ensures c.p.state.BodyIdentity? || c.p.state.ChunkData? ==> 0 < c.p.contentLength < NO_LENGTH
  {
  }

  /* ---- Single bytes of the machine, for the states that the buffer loop takes in strides ---- */

  /** A byte of a header name. */
  lemma FieldStep(c: Config, ch: char)
    requires Valid(c) && c.live.Running? && c.p.state.HeaderField? && Token(ch) != '\0'
    ensures
      var (h, i) := FieldByte(c.p.header, c.p.index, ch, Token(ch));
      Step(c, ch) == Config(c.p.(header := h, index := i), Emit(c.log, Data(Field, [ch])),
                            c.nread + 1, c.used + 1, Running)
  {
    hide FieldByte, Token, Valid, Inv, CountFits, Rank, Fits, Emit;
    hide StartSwitch, ConstantSwitch, NumberSwitch, StatusSwitch, MethodMove, UrlSwitch, ValueMove, HeaderSwitch, EndSwitch, ChunkSwitch;
    TwoActs(c.log, Byte(Field), Byte(Field), ch);
  }

  /** A byte of a header value that neither ends it nor is refused. */
  lemma ValueStep(c: Config, ch: char)
    requires Valid(c) && c.live.Running? && c.p.state.HeaderValue? && ch != CR && ch != LF
    requires ValueMove(c.p, ch).next.Advance?
    ensures Step(c, ch) == Config(ValueMove(c.p, ch).p, Emit(c.log, Data(Value, [ch])),
                                  c.nread + 1, c.used + 1, Running)
  {
    hide ValueByte, LengthByte, Valid, Inv, CountFits, Rank, Fits, Emit;
    hide StartSwitch, ConstantSwitch, NumberSwitch, StatusSwitch, MethodMove, UrlSwitch, FieldMove, HeaderSwitch, EndSwitch, ChunkSwitch;
    TwoActs(c.log, Byte(Value), Byte(Value), ch);
  }

  /** A body byte that is not the last one. */
  lemma BodyStep(c: Config, ch: char)
    requires Valid(c) && c.live.Running?
    requires c.p.state.BodyIdentity? || c.p.state.ChunkData?
    requires c.p.contentLength > 1
    ensures Step(c, ch) == Config(c.p.(contentLength := c.p.contentLength - 1), Emit(c.log, Data(Body, [ch])),
                                  c.nread, c.used + 1, Running)
  {
    hide Valid, Inv, CountFits, Rank, Fits, Emit;
    hide StartSwitch, ConstantSwitch, NumberSwitch, StatusSwitch, MethodMove, UrlSwitch, FieldMove, ValueMove, HeaderSwitch, EndSwitch, ChunkSwitch;
    TwoActs(c.log, Byte(Body), Byte(Body), ch);
  }

  lemma BodyEofStep(c: Config, ch: char)
    requires Valid(c) && c.live.Running? && c.p.state.BodyIdentityEof?
    ensures Step(c, ch) == Config(c.p, Emit(c.log, Data(Body, [ch])), c.nread, c.used + 1, Running)
  {
    hide Valid, Inv, CountFits, Rank, Fits, Emit;
    hide StartSwitch, ConstantSwitch, NumberSwitch, StatusSwitch, MethodMove, UrlSwitch, FieldMove, ValueMove, HeaderSwitch, EndSwitch, ChunkSwitch;
    TwoActs(c.log, Byte(Body), Byte(Body), ch);
  }

  lemma LastChunkByteStep(c: Config, ch: char)
    requires Valid(c) && c.live.Running? && c.p.state.ChunkData? && c.p.contentLength == 1
    ensures Step(c, ch) == Config(c.p.(contentLength := 0, state := ChunkDataAlmostDone),
                                  Emit(c.log, Data(Body, [ch])), c.nread, c.used + 1, Running)
  {
    hide Valid, Inv, CountFits, Rank, Fits, Emit;
    hide StartSwitch, ConstantSwitch, NumberSwitch, StatusSwitch, MethodMove, UrlSwitch, FieldMove, ValueMove, HeaderSwitch, EndSwitch, ChunkSwitch;
    TwoActs(c.log, Byte(Body), Byte(Body), ch);
  }

  /** Ending a message does not look at the byte on hand. */
  lemma MessageDoneAnyByte(c: Config, ch: char, other: char)
    requires Valid(c) && c.live.Running? && c.p.state.MessageDone?
    ensures Dispatch(c, ch) == Dispatch(c, other)
  {
    hide Inv, CountFits, Rank, Fits, Emit, NewMessage, Switch, EndSwitch;
    SwitchAnyByte(c.p, ch, other);
    TwoActs(c.log, Fire(MessageComplete), Fire(MessageComplete), ch);
    TwoActs(c.log, Fire(MessageComplete), Fire(MessageComplete), other);
  }

  lemma SwitchAnyByte(p: Parser, ch: char, other: char)
    requires Inv(p) && p.state.MessageDone?
    ensures Switch(p, ch) == Switch(p, other) == EndSwitch(p, ch)
    ensures Switch(p, ch).next.Advance? || Switch(p, ch).next.Leave?
    ensures Switch(p, ch).acts == [Fire(MessageComplete)]
  {
    hide Inv, NewMessage;
    hide StartSwitch, ConstantSwitch, NumberSwitch, StatusSwitch, MethodMove, UrlSwitch, FieldMove, ValueMove, HeaderSwitch, ChunkSwitch;
  }

  /** The last byte of a body of known length takes the switch again. */
  lemma LastBodyByteStep(c: Config, ch: char)
    requires Valid(c) && c.live.Running? && c.p.state.BodyIdentity? && c.p.contentLength == 1
    ensures
      var d := Config(c.p.(contentLength := 0, state := MessageDone), Emit(c.log, Data(Body, [ch])),
                      c.nread, c.used, Running);
      Valid(d) && Step(c, ch) == Dispatch(d, ch)
  {
    hide Valid, Inv, CountFits, Rank, Fits, Emit, Dispatch;
    hide StartSwitch, ConstantSwitch, NumberSwitch, StatusSwitch, MethodMove, UrlSwitch, FieldMove, ValueMove, HeaderSwitch, EndSwitch, ChunkSwitch;
    SwitchAgain(c, ch);
    TwoActs(c.log, Byte(Body), Byte(Body), ch);
  }

  /** Taking `n` body bytes in one stride is taking them one by one. */
  lemma {:induction false} BodyStride(c: Config, data: string, p: nat, n: nat)
    requires Valid(c) && 0 < n && p + n <= |data|
    requires
      var d := Upto(c, data, p);
      d.live.Running? && (d.p.state.BodyIdentity? || d.p.state.ChunkData?) && n < d.p.contentLength
    ensures
      var d := Upto(c, data, p);
      Upto(c, data, p + n) == Config(d.p.(contentLength := d.p.contentLength - n), Emit(d.log, Data(Body, data[p..p + n])),
                                     d.nread, d.used + n, Running)
  {
    hide Valid, Step, Emit;
    var d := Upto(c, data, p);
    if n == 1 {
      BodyStep(d, data[p]);
      assert data[p..p + 1] == [data[p]];
    } else {
      BodyStride(c, data, p, n - 1);
      BodyStep(Upto(c, data, p + n - 1), data[p + n - 1]);
      EmitInPieces(d.log, Body, data[p..p + n - 1], [data[p + n - 1]]);
      assert data[p..p + n] == data[p..p + n - 1] + [data[p + n - 1]];
    }
  }

  lemma {:induction false} BodyEofStride(c: Config, data: string, p: nat, n: nat)
    requires Valid(c) && 0 < n && p + n <= |data|
    requires Upto(c, data, p).live.Running? && Upto(c, data, p).p.state.BodyIdentityEof?
    ensures
      var d := Upto(c, data, p);
      Upto(c, data, p + n) == Config(d.p, Emit(d.log, Data(Body, data[p..p + n])), d.nread, d.used + n, Running)
  {
    hide Valid, Step, Emit;
    var d := Upto(c, data, p);
    if n == 1 {
      BodyEofStep(d, data[p]);
      assert data[p..p + 1] == [data[p]];
    } else {
      BodyEofStride(c, data, p, n - 1);
      BodyEofStep(Upto(c, data, p + n - 1), data[p + n - 1]);
      EmitInPieces(d.log, Body, data[p..p + n - 1], [data[p + n - 1]]);
      assert data[p..p + n] == data[p..p + n - 1] + [data[p + n - 1]];
    }
  }

  /* ---- Marks ---- */

  /** The history once the marked string, if there is one, is delivered up to `p`. */
  ghost function Pending(log: seq<Event>, marks: map<Part, nat>, data: string, p: nat): seq<Event>
    requires p <= |data| && forall part <- marks :: marks[part] <= p
  {
    if marks == map[] then log
    else var part :| part in marks; Emit(log, Data(part, data[marks[part]..p]))
  }

  /** Which mark is set in which state: at most one. The body's mark outlives its state
      until the CR that ends a chunk. */
  ghost predicate MarksFit(s: State, marks: map<Part, nat>, p: nat) {
    match OpenPart(s)
    case Some(part) => marks.Keys == {part} && marks[part] <= p
    case None =>
      || marks == map[]
      || ((ReadingBody(s) || s.ChunkDataAlmostDone?) && marks.Keys == {Body} && marks[Body] <= p)
  }

  lemma PendingNone(log: seq<Event>, data: string, p: nat)
    requires p <= |data|
    ensures Pending(log, map[], data, p) == log
  {
  }

  /** No mark, or the body's. */
  lemma MarksOfBody(s: State, marks: map<Part, nat>, p: nat)
    requires ReadingBody(s) || s.ChunkDataAlmostDone? || s.Dead? || s.StartReq? || s.StartRes? || s.MessageDone?
    ensures MarksFit(s, marks, p)
            <==> marks == map[] || ((ReadingBody(s) || s.ChunkDataAlmostDone?) && marks.Keys == {Body} && marks[Body] <= p)
  {
  }

  lemma MarksAtMostOne(s: State, marks: map<Part, nat>, p: nat)
    requires MarksFit(s, marks, p)
    ensures forall part <- marks :: marks == map[part := marks[part]] && marks[part] <= p
    ensures |marks| <= 1
  {
    if marks != map[] {
      var part :| part in marks;
      assert marks == map[part := marks[part]];
    }
  }

  lemma MarksOf(s: State, marks: map<Part, nat>, p: nat)
    requires (s.HeaderField? || s.HeaderValue?) && MarksFit(s, marks, p)
    ensures var part := if s.HeaderField? then Field else Value;
            marks.Keys == {part} && marks[part] <= p && marks - {part} == map[]
  {
  }

  lemma PendingOne(log: seq<Event>, part: Part, start: nat, data: string, p: nat)
    requires start <= p <= |data|
    ensures Pending(log, map[part := start], data, p) == Emit(log, Data(part, data[start..p]))
  {
    var marks := map[part := start];
    assert part in marks && marks != map[];
    assert forall other <- marks :: other == part;
  }

  /** One more byte of a marked string. */
  lemma PendingMore(log: seq<Event>, part: Part, start: nat, data: string, p: nat)
    requires start <= p < |data|
    ensures Pending(log, map[part := start], data, p + 1)
            == Emit(Pending(log, map[part := start], data, p), Data(part, [data[p]]))
  {
    PendingOne(log, part, start, data, p);
    PendingOne(log, part, start, data, p + 1);
    EmitInPieces(log, part, data[start..p], [data[p]]);
    assert data[start..p + 1] == data[start..p] + [data[p]];
  }

  lemma PendingNew(log: seq<Event>, part: Part, data: string, p: nat)
    requires p < |data|
    ensures Pending(log, map[part := p], data, p + 1) == Emit(Emit(log, Data(part, "")), Data(part, [data[p]]))
  {
    PendingOne(log, part, p, data, p);
    PendingMore(log, part, p, data, p);
    assert data[p..p] == "";
  }

  /** What one action does to the history delivered so far and to the marks. */
  function Called(a: Act, data: string, p: nat, log: seq<Event>, marks: map<Part, nat>)
    : (r: (seq<Event>, map<Part, nat>))
    requires p <= |data| && forall part <- marks :: marks[part] <= p
    ensures forall part <- r.1 :: r.1[part] <= p
  {
    match a
    case Mark(part) => (log, if part in marks then marks else marks[part := p])
    case Byte(part) => (log, marks)
    case Flush(part) =>
      (if part in marks then Emit(log, Data(part, data[marks[part]..p])) else log, marks - {part})
    case Fire(what) => (log + [Note(what)], marks)
  }

  function CalledBoth(acts: seq<Act>, data: string, p: nat, log: seq<Event>, marks: map<Part, nat>)
    : (r: (seq<Event>, map<Part, nat>))
    requires p <= |data| && forall part <- marks :: marks[part] <= p
    ensures forall part <- r.1 :: r.1[part] <= p
  {
    var one := if |acts| > 0 then Called(acts[0], data, p, log, marks) else (log, marks);
    if |acts| > 1 then Called(acts[1], data, p, one.0, one.1) else one
  }

  /** The marks and callbacks of one move keep the delivered and the marked bytes together
      equal to the machine's history. */
  lemma CallbacksFit(before: State, m: Move, data: string, p: nat, log: seq<Event>, marks: map<Part, nat>)
    requires p < |data| && !m.next.Stop? && !ReadingBody(before)
    requires ActsFit(before, m) && (m.next.Again? ==> OpenPart(m.p.state) == None)
    requires MarksFit(before, marks, p)
    ensures |m.acts| <= 2 && forall part <- marks :: marks[part] <= p
    ensures var (log', marks') := CalledBoth(m.acts, data, p, log, marks);
            var end := if m.next.Again? then p else p + 1;
            && MarksFit(m.p.state, marks', end)
            && Pending(log', marks', data, end) == DoActs(Pending(log, marks, data, p), m.acts, data[p])
  {
    hide Emit;
    var ch := data[p];
    match OpenPart(before)
    case Some(part) =>
      assert marks == map[part := marks[part]];
      PendingOne(log, part, marks[part], data, p);
      TwoActs(Pending(log, marks, data, p), m.acts[0], m.acts[0], ch);
      if OpenPart(m.p.state) == Some(part) {
        PendingMore(log, part, marks[part], data, p);
      }
    case None =>
      if OpenPart(m.p.state).Some? {
        var part := OpenPart(m.p.state).value;
        PendingNew(log, part, data, p);
        TwoActs(log, Mark(part), Byte(part), ch);
      } else if before.ChunkDataAlmostDone? {
        if marks != map[] {
          assert marks == map[Body := marks[Body]];
          PendingOne(log, Body, marks[Body], data, p);
        }
        TwoActs(Pending(log, marks, data, p), Flush(Body), Flush(Body), ch);
      } else if |m.acts| == 1 {
        TwoActs(log, m.acts[0], m.acts[0], ch);
      } else if |m.acts| == 2 {
        assert data[p..p] == "";
        TwoActs(log, Mark(Value), Flush(Value), ch);
      }
  }

  /* ---- The header limit ---- */

  /** Byte `k` is a header byte, and as many as are allowed came before it. */
  ghost predicate Crowded(c: Config, data: string, k: nat)
    requires Valid(c) && k < |data|
  {
    var d := Upto(c, data, k);
    d.live.Running? && ParsingHeader(d.p.state) && d.nread >= HTTP_MAX_HEADER_SIZE
  }

  /** None of the first `p` bytes is a header byte too many. */
  ghost predicate WithinLimit(c: Config, data: string, p: nat)
    requires Valid(c) && p <= |data|
  {
    forall k: nat :: k < p ==> !Crowded(c, data, k)
  }

  /** Still inside the same header name, or inside the same header value. */
  predicate SameString(before: State, after: State) {
    (before.HeaderField? && after.HeaderField?) || (before.HeaderValue? && after.HeaderValue?)
  }

  /** The header bytes counted beyond the true number: one, exactly if the last byte of the
      buffer was taken inside a header name or value and leaves the parser inside it. */
  ghost function OverCount(c: Config, data: string, p: nat): (r: nat)
    requires Valid(c) && p <= |data|
    ensures r <= 1
  {
    if 0 < p == |data| && Upto(c, data, p).live.Running?
       && SameString(Upto(c, data, p - 1).p.state, Upto(c, data, p).p.state) then 1 else 0
  }

  /** A header byte too many, or a count at the end of the buffer that passes the limit. */
  ghost predicate Exceeds(c: Config, data: string)
    requires Valid(c)
  {
    !WithinLimit(c, data, |data|) || Run(c, data).nread + OverCount(c, data, |data|) > HTTP_MAX_HEADER_SIZE
  }

  lemma CrowdedExceeds(c: Config, data: string, k: nat)
    requires Valid(c) && k < |data| && Crowded(c, data, k)
    ensures Exceeds(c, data)
  {
    hide Valid, Crowded, Run, OverCount;
  }

  lemma OverExceeds(c: Config, data: string)
    requires Valid(c) && Upto(c, data, |data|).nread + OverCount(c, data, |data|) > HTTP_MAX_HEADER_SIZE
    ensures Exceeds(c, data)
  {
    hide Valid, WithinLimit, OverCount, Upto;
  }

  /** A machine that has stopped inside the buffer has not passed the limit later on. */
  lemma StoppedWithin(c: Config, data: string, p: nat)
    requires Valid(c) && c.nread <= HTTP_MAX_HEADER_SIZE && p <= |data|
    requires WithinLimit(c, data, p) && !Upto(c, data, p).live.Running?
    ensures !Exceeds(c, data) && OverCount(c, data, |data|) == 0
  {
    hide Valid, Inv, Upto, WithinLimit;
    UptoStays(c, data, p, |data|);
    WithinStays(c, data, p);
    LimitAt(c, data, |data|);
  }

  lemma NotExceeded(c: Config, data: string)
    requires Valid(c) && WithinLimit(c, data, |data|)
    requires Upto(c, data, |data|).nread + OverCount(c, data, |data|) <= HTTP_MAX_HEADER_SIZE
    ensures !Exceeds(c, data)
  {
    hide Valid, Upto, WithinLimit, OverCount;
  }

  lemma OverInside(c: Config, data: string, p: nat)
    requires Valid(c) && p <= |data| && OverCount(c, data, p) != 0
    ensures Upto(c, data, p).p.state.HeaderField? || Upto(c, data, p).p.state.HeaderValue?
  {
    hide Valid, Upto;
  }

  lemma NotInside(c: Config, data: string, p: nat)
    requires Valid(c) && p < |data|
    requires !SameString(Upto(c, data, p).p.state, Upto(c, data, p + 1).p.state)
    ensures OverCount(c, data, p + 1) == 0
  {
    hide Valid, Upto, SameString;
  }

  lemma StillInside(c: Config, data: string, p: nat)
    requires Valid(c) && p + 1 == |data| && Upto(c, data, p + 1).live.Running?
    requires SameString(Upto(c, data, p).p.state, Upto(c, data, p + 1).p.state)
    ensures OverCount(c, data, p + 1) == 1
  {
    hide Valid, Upto, SameString;
  }

  function Counted(c: Config): Config {
    if ParsingHeader(c.p.state) then c.(nread := c.nread + 1) else c
  }

  lemma {:induction false} DispatchCounts(c: Config, ch: char)
    requires Valid(c) && c.live.Running?
    ensures Dispatch(c, ch).nread <= c.nread
    decreases Rank(c.p.state)
  {
    hide Valid, Inv, Switch, Rank, Fits;
    if Switch(c.p, ch).next.Again? {
      SwitchAgain(c, ch);
      DispatchCounts(After(c, Switch(c.p, ch), ch), ch);
    } else {
      SwitchEnds(c, ch);
    }
  }

  lemma StepCounts(c: Config, ch: char)
    requires Valid(c) && c.live.Running?
    ensures Step(c, ch).nread <= if ParsingHeader(c.p.state) then c.nread + 1 else c.nread
  {
    hide Valid, Inv, Dispatch;
    CountedValid(c);
    DispatchCounts(Counted(c), ch);
  }

  lemma {:induction false} CountFrom(c: Config, data: string, j: nat, k: nat)
    requires Valid(c) && j <= k <= |data|
    ensures Upto(c, data, k).nread <= Upto(c, data, j).nread + (k - j)
    decreases k
  {
    hide Valid, Inv, Step;
    if j < k {
      CountFrom(c, data, j, k - 1);
      var d := Upto(c, data, k - 1);
      if d.live.Running? { StepCounts(d, data[k - 1]); }
    }
  }

  /** Bytes of a body are not counted. */
  lemma BodyCounts(c: Config, data: string, p: nat, n: nat)
    requires Valid(c) && 0 < n && p + n <= |data| && Upto(c, data, p).live.Running?
    requires
      var s := Upto(c, data, p).p;
      s.state.BodyIdentityEof? || ((s.state.BodyIdentity? || s.state.ChunkData?) && n <= s.contentLength)
    ensures Upto(c, data, p + n).nread <= Upto(c, data, p).nread
    ensures Upto(c, data, p + n - 1).p.state == Upto(c, data, p).p.state
  {
    hide Valid, Inv, Step, Emit;
    if n > 1 {
      if Upto(c, data, p).p.state.BodyIdentityEof? { BodyEofStride(c, data, p, n - 1); }
      else { BodyStride(c, data, p, n - 1); }
    }
    StepCounts(Upto(c, data, p + n - 1), data[p + n - 1]);
  }

  lemma WithinMore(c: Config, data: string, p: nat, q: nat)
    requires Valid(c) && p <= q <= |data| && WithinLimit(c, data, p)
    requires Upto(c, data, p).nread + (q - p) <= HTTP_MAX_HEADER_SIZE
    ensures WithinLimit(c, data, q)
  {
    hide Valid, Inv, Upto;
    forall k: nat | k < q
      ensures !Crowded(c, data, k)
    {
      if k >= p { CountFrom(c, data, p, k); }
    }
  }

  lemma WithinBody(c: Config, data: string, p: nat, n: nat)
    requires Valid(c) && 0 < n && p + n <= |data| && WithinLimit(c, data, p) && Upto(c, data, p).live.Running?
    requires
      var s := Upto(c, data, p).p;
      s.state.BodyIdentityEof? || ((s.state.BodyIdentity? || s.state.ChunkData?) && n <= s.contentLength)
    ensures WithinLimit(c, data, p + n)
  {
    hide Valid, Inv, Upto;
    forall k: nat | k < p + n
      ensures !Crowded(c, data, k)
    {
      if k >= p { BodyCounts(c, data, p, k - p + 1); }
    }
  }

  /** A single byte that is counted, or that does not count. */
  lemma WithinByte(c: Config, data: string, p: nat)
    requires Valid(c) && p < |data| && WithinLimit(c, data, p) && Upto(c, data, p).live.Running?
    requires ParsingHeader(Upto(c, data, p).p.state) ==> Upto(c, data, p).nread < HTTP_MAX_HEADER_SIZE
    ensures WithinLimit(c, data, p + 1)
  {
    hide Valid, Inv, Upto;
  }

  /** As long as no byte is one too many, the count stays within the limit. */
  lemma {:induction false} LimitAt(c: Config, data: string, p: nat)
    requires Valid(c) && c.nread <= HTTP_MAX_HEADER_SIZE && p <= |data| && WithinLimit(c, data, p)
    ensures Upto(c, data, p).nread <= HTTP_MAX_HEADER_SIZE
  {
    hide Valid, Inv, Step;
    if p > 0 {
      assert !Crowded(c, data, p - 1);
      LimitAt(c, data, p - 1);
      var d := Upto(c, data, p - 1);
      if d.live.Running? { StepCounts(d, data[p - 1]); }
    }
  }

  lemma WithinStays(c: Config, data: string, p: nat)
    requires Valid(c) && p <= |data| && WithinLimit(c, data, p) && !Upto(c, data, p).live.Running?
    ensures WithinLimit(c, data, |data|)
  {
    hide Valid, Inv, Upto;
    forall k: nat | k < |data|
      ensures !Crowded(c, data, k)
    {
      if k >= p { UptoStays(c, data, p, k); }
    }
  }

  /** One more byte of a header name. */
  lemma FieldNext(c: Config, data: string, p: nat, log: seq<Event>, marks: map<Part, nat>)
    requires Valid(c) && p < |data| && Token(data[p]) != '\0'
    requires Upto(c, data, p).live.Running? && Upto(c, data, p).p.state.HeaderField?
    requires MarksFit(HeaderField, marks, p) && Pending(log, marks, data, p) == Upto(c, data, p).log
    ensures MarksFit(HeaderField, marks, p + 1)
    ensures
      var d := Upto(c, data, p);
      var (h, i) := FieldByte(d.p.header, d.p.index, data[p], Token(data[p]));
      Upto(c, data, p + 1) == Config(d.p.(header := h, index := i), Pending(log, marks, data, p + 1),
                                     d.nread + 1, d.used + 1, Running)
  {
    hide Step, Valid, FieldByte, Token, Pending, Emit;
    FieldStep(Upto(c, data, p), data[p]);
    assert marks == map[Field := marks[Field]];
    PendingMore(log, Field, marks[Field], data, p);
  }

  /** The byte after a header name: a colon, or an error. */
  lemma FieldEnds(c: Config, data: string, p: nat, log: seq<Event>, marks: map<Part, nat>)
    requires Valid(c) && p < |data| && Token(data[p]) == '\0'
    requires Upto(c, data, p).live.Running? && Upto(c, data, p).p.state.HeaderField?
    requires MarksFit(HeaderField, marks, p) && Pending(log, marks, data, p) == Upto(c, data, p).log
    ensures
      var d := Upto(c, data, p);
      Upto(c, data, p + 1)
      == if data[p] == ':'
         then Config(d.p.(state := HeaderValueDiscardWs), d.log, d.nread + 1, d.used + 1, Running)
         else Config(d.p.(errno := InvalidHeaderToken), d.log, d.nread + 1, d.used, Failed)
    ensures marks.Keys == {Field} && marks[Field] <= p
    ensures marks - {Field} == map[] && MarksFit(HeaderValueDiscardWs, map[], p + 1)
    ensures Emit(log, Data(Field, data[marks[Field]..p])) == Upto(c, data, p).log
  {
    hide Step, Valid, Token, Emit, Pending;
    FieldEndStep(Upto(c, data, p), data[p]);
    assert marks == map[Field := marks[Field]];
    PendingOne(log, Field, marks[Field], data, p);
  }

  lemma FieldEndStep(c: Config, ch: char)
    requires Valid(c) && c.live.Running? && c.p.state.HeaderField? && Token(ch) == '\0'
    ensures
      Step(c, ch)
      == if ch == ':' then Config(c.p.(state := HeaderValueDiscardWs), c.log, c.nread + 1, c.used + 1, Running)
         else Config(c.p.(errno := InvalidHeaderToken), c.log, c.nread + 1, c.used, Failed)
  {
    hide FieldByte, Token, Valid, Inv, CountFits, Rank, Fits, Emit;
    hide StartSwitch, ConstantSwitch, NumberSwitch, StatusSwitch, MethodMove, UrlSwitch, ValueMove, HeaderSwitch, EndSwitch, ChunkSwitch;
    TwoActs(c.log, Flush(Field), Flush(Field), ch);
  }

  /** One more byte of a header value. */
  lemma ValueNext(c: Config, data: string, p: nat, log: seq<Event>, marks: map<Part, nat>)
    requires Valid(c) && p < |data| && data[p] != CR && data[p] != LF
    requires Upto(c, data, p).live.Running? && Upto(c, data, p).p.state.HeaderValue?
    requires ValueMove(Upto(c, data, p).p, data[p]).next.Advance?
    requires MarksFit(HeaderValue, marks, p) && Pending(log, marks, data, p) == Upto(c, data, p).log
    ensures MarksFit(HeaderValue, marks, p + 1)
    ensures
      var d := Upto(c, data, p);
      Upto(c, data, p + 1) == Config(ValueMove(d.p, data[p]).p, Pending(log, marks, data, p + 1),
                                     d.nread + 1, d.used + 1, Running)
  {
    hide Step, Valid, ValueMove, Pending, Emit;
    ValueStep(Upto(c, data, p), data[p]);
    assert marks == map[Value := marks[Value]];
    PendingMore(log, Value, marks[Value], data, p);
  }

  /** A stretch of bytes without CR and LF, in a value that no keyword is looked for in. */
  lemma {:induction false} GeneralStride(c: Config, data: string, p: nat, n: nat, log: seq<Event>, marks: map<Part, nat>)
    requires Valid(c) && p + n <= |data|
    requires forall k :: p <= k < p + n ==> data[k] != CR && data[k] != LF
    requires Upto(c, data, p).live.Running? && Upto(c, data, p).p.state.HeaderValue?
    requires Upto(c, data, p).p.header.General?
    requires MarksFit(HeaderValue, marks, p) && Pending(log, marks, data, p) == Upto(c, data, p).log
    ensures MarksFit(HeaderValue, marks, p + n)
    ensures
      var d := Upto(c, data, p);
      Upto(c, data, p + n) == Config(d.p, Pending(log, marks, data, p + n), d.nread + n, d.used + n, Running)
  {
    hide Upto, Step, Valid, Pending, Emit;
    if n > 0 {
      GeneralStride(c, data, p, n - 1, log, marks);
      ValueNext(c, data, p + n - 1, log, marks);
    }
  }

  /** The CR that ends a header value. */
  lemma ValueEnds(c: Config, data: string, p: nat, log: seq<Event>, marks: map<Part, nat>)
    requires Valid(c) && p < |data| && data[p] == CR
    requires Upto(c, data, p).live.Running? && Upto(c, data, p).p.state.HeaderValue?
    requires MarksFit(HeaderValue, marks, p) && Pending(log, marks, data, p) == Upto(c, data, p).log
    ensures
      var d := Upto(c, data, p);
      Upto(c, data, p + 1) == Config(d.p.(state := HeaderAlmostDone), d.log, d.nread + 1, d.used + 1, Running)
    ensures marks.Keys == {Value} && marks[Value] <= p
    ensures marks - {Value} == map[] && MarksFit(HeaderAlmostDone, map[], p + 1)
    ensures Emit(log, Data(Value, data[marks[Value]..p])) == Upto(c, data, p).log
  {
    hide Step, Valid, Emit, Pending;
    ValueCrStep(Upto(c, data, p));
    assert marks == map[Value := marks[Value]];
    PendingOne(log, Value, marks[Value], data, p);
  }

  lemma ValueCrStep(c: Config)
    requires Valid(c) && c.live.Running? && c.p.state.HeaderValue?
    ensures Step(c, CR) == Config(c.p.(state := HeaderAlmostDone), c.log, c.nread + 1, c.used + 1, Running)
  {
    hide ValueByte, LengthByte, Valid, Inv, CountFits, Rank, Fits, Emit;
    hide StartSwitch, ConstantSwitch, NumberSwitch, StatusSwitch, MethodMove, UrlSwitch, FieldMove, HeaderSwitch, EndSwitch, ChunkSwitch;
    TwoActs(c.log, Flush(Value), Flush(Value), CR);
  }

  /** The LF that ends a header value is looked at again as the end of the line. */
  lemma ValueEndsAgain(c: Config, data: string, p: nat, log: seq<Event>, marks: map<Part, nat>) returns (d: Config)
    requires Valid(c) && p < |data| && data[p] == LF
    requires Upto(c, data, p).live.Running? && Upto(c, data, p).p.state.HeaderValue?
    requires MarksFit(HeaderValue, marks, p) && Pending(log, marks, data, p) == Upto(c, data, p).log
    ensures
      var b := Upto(c, data, p);
      d == Config(b.p.(state := HeaderAlmostDone), b.log, b.nread + 1, b.used, Running)
    ensures Valid(d) && Dispatch(d, LF) == Upto(c, data, p + 1)
    ensures marks.Keys == {Value} && marks[Value] <= p
    ensures marks - {Value} == map[] && MarksFit(HeaderAlmostDone, map[], p)
    ensures Emit(log, Data(Value, data[marks[Value]..p])) == Upto(c, data, p).log
  {
    hide Step, Valid, Emit, Pending, Dispatch;
    d := ValueLfStep(Upto(c, data, p));
    assert marks == map[Value := marks[Value]];
    PendingOne(log, Value, marks[Value], data, p);
  }

  lemma ValueLfStep(c: Config) returns (d: Config)
    requires Valid(c) && c.live.Running? && c.p.state.HeaderValue?
    ensures d == Config(c.p.(state := HeaderAlmostDone), c.log, c.nread + 1, c.used, Running)
    ensures Valid(d) && Step(c, LF) == Dispatch(d, LF)
  {
    hide ValueByte, LengthByte, Valid, Inv, CountFits, Rank, Fits, Emit, Dispatch;
    hide StartSwitch, ConstantSwitch, NumberSwitch, StatusSwitch, MethodMove, UrlSwitch, FieldMove, HeaderSwitch, EndSwitch, ChunkSwitch;
    var b := c.(nread := c.nread + 1);
    CountedValid(c);
    SwitchAgain(b, LF);
    TwoActs(c.log, Flush(Value), Flush(Value), LF);
    d := After(b, Switch(b.p, LF), LF);
  }

  /** The LF that ends a header value leads out of it. */
  lemma LineFeedLeaves(c: Config, data: string, p: nat)
    requires Valid(c) && p < |data| && data[p] == LF
    requires Upto(c, data, p).live.Running? && Upto(c, data, p).p.state.HeaderValue?
    ensures OverCount(c, data, p + 1) == 0
  {
    hide Valid, Inv, Step, Emit, Dispatch, DoActs, Upto, OverCount;
    hide StartSwitch, ConstantSwitch, NumberSwitch, StatusSwitch, MethodMove, UrlSwitch, FieldMove, EndSwitch, ChunkSwitch;
    var d := ValueLfStep(Upto(c, data, p));
    SwitchEnds(d, LF);
    OneMore(c, data, p);
    NotInside(c, data, p);
  }

  lemma OneMore(c: Config, data: string, p: nat)
    requires Valid(c) && p < |data| && Upto(c, data, p).live.Running?
    ensures Upto(c, data, p + 1) == Step(Upto(c, data, p), data[p])
  {
    hide Valid, Step;
  }

  /** A byte that a Content-Length value may not hold. */
  lemma ValueFails(c: Config, data: string, p: nat)
    requires Valid(c) && p < |data| && data[p] != CR && data[p] != LF
    requires Upto(c, data, p).live.Running? && Upto(c, data, p).p.state.HeaderValue?
    requires Upto(c, data, p).p.header.ContentLength? && LengthByte(Upto(c, data, p).p.contentLength, data[p]).None?
    ensures
      var d := Upto(c, data, p);
      Upto(c, data, p + 1) == Config(d.p.(errno := InvalidContentLength), d.log, d.nread + 1, d.used, Failed)
  {
    hide Step, Valid, Emit, LengthByte;
    ValueFailsStep(Upto(c, data, p), data[p]);
  }

  lemma ValueFailsStep(c: Config, ch: char)
    requires Valid(c) && c.live.Running? && c.p.state.HeaderValue? && ch != CR && ch != LF
    requires c.p.header.ContentLength? && LengthByte(c.p.contentLength, ch).None?
    ensures Step(c, ch) == Config(c.p.(errno := InvalidContentLength), c.log, c.nread + 1, c.used, Failed)
  {
    hide ValueByte, LengthByte, Valid, Inv, CountFits, Rank, Fits, Emit;
    hide StartSwitch, ConstantSwitch, NumberSwitch, StatusSwitch, MethodMove, UrlSwitch, FieldMove, HeaderSwitch, EndSwitch, ChunkSwitch;
  }

  /** Marking body bytes and delivering them later is delivering them now. */
  lemma PendingBody(log: seq<Event>, marks: map<Part, nat>, data: string, p: nat, n: nat)
    requires p + n <= |data|
    requires marks == map[] || (marks.Keys == {Body} && marks[Body] <= p)
    ensures
      var marked := if Body in marks then marks else marks[Body := p];
      && marked.Keys == {Body} && marked[Body] <= p && marked - {Body} == map[]
      && Pending(log, marked, data, p + n) == Emit(Pending(log, marks, data, p), Data(Body, data[p..p + n]))
  {
    var marked := if Body in marks then marks else marks[Body := p];
    assert marked == map[Body := marked[Body]];
    PendingOne(log, Body, marked[Body], data, p + n);
    if Body in marks {
      PendingOne(log, Body, marked[Body], data, p);
      EmitInPieces(log, Body, data[marks[Body]..p], data[p..p + n]);
      assert data[marks[Body]..p + n] == data[marks[Body]..p] + data[p..p + n];
    }
  }

  /** All the bytes that a body or a chunk still lacks. The last byte of a body takes the
      switch again; the last byte of a chunk does not. */
  lemma LastBodyByte(c: Config, data: string, p: nat, n: nat) returns (d: Config)
    requires Valid(c) && 0 < n && p + n <= |data|
    requires
      var d := Upto(c, data, p);
      d.live.Running? && (d.p.state.BodyIdentity? || d.p.state.ChunkData?) && n == d.p.contentLength
    ensures
      var b := Upto(c, data, p);
      var log := Emit(b.log, Data(Body, data[p..p + n]));
      if b.p.state.ChunkData?
      then Upto(c, data, p + n) == Config(b.p.(contentLength := 0, state := ChunkDataAlmostDone), log, b.nread, b.used + n, Running)
      else
        && d == Config(b.p.(contentLength := 0, state := MessageDone), log, b.nread, b.used + n - 1, Running)
        && Valid(d) && Dispatch(d, data[p + n - 1]) == Upto(c, data, p + n)
  {
    hide Valid, Step, Emit, Dispatch;
    var b := Upto(c, data, p);
    var last := Upto(c, data, p + n - 1);
    if n > 1 {
      BodyStride(c, data, p, n - 1);
      EmitInPieces(b.log, Body, data[p..p + n - 1], [data[p + n - 1]]);
    }
    assert data[p..p + n] == data[p..p + n - 1] + [data[p + n - 1]];
    assert n == 1 ==> data[p..p + n] == [data[p]];
    if b.p.state.ChunkData? {
      LastChunkByteStep(last, data[p + n - 1]);
      d := c;
    } else {
      LastBodyByteStep(last, data[p + n - 1]);
      d := Config(last.p.(contentLength := 0, state := MessageDone), Emit(last.log, Data(Body, [data[p + n - 1]])),
                  last.nread, last.used, Running);
    }
  }

  /** What the machine still does for a byte, after counting it. */
  lemma FirstTrip(c: Config, data: string, p: nat) returns (d: Config)
    requires Valid(c) && CountFits(c) && p < |data| && Upto(c, data, p).live.Running?
    ensures
      var b := Upto(c, data, p);
      d == if ParsingHeader(b.p.state) then b.(nread := b.nread + 1) else b
    ensures Valid(d) && Dispatch(d, data[p]) == Upto(c, data, p + 1)
    ensures d.p.state.ChunkSizeStart? ==> d.nread == 1
  {
    hide Dispatch, Valid;
    var b := Upto(c, data, p);
    CountedValid(b);
    d := if ParsingHeader(b.p.state) then b.(nread := b.nread + 1) else b;
  }

  /** A buffer that starts inside a string starts with its mark set. */
  lemma OpeningMarks(c: Config, data: string, marks: map<Part, nat>)
    requires Valid(c) && c.live.Running? && c.used == 0
    requires marks == match OpenPart(c.p.state) case Some(part) => map[part := 0] case None => map[]
    ensures MarksFit(c.p.state, marks, 0) && Pending(c.log, marks, data, 0) == c.log && Upto(c, data, 0) == c
  {
    match OpenPart(c.p.state)
    case Some(part) =>
      PendingOne(c.log, part, 0, data, 0);
      EmitNothing(c.log, part);
      assert data[0..0] == "";
    case None =>
  }

  lemma OpenStates(s: State)
    ensures OpenPart(s) == None ==> !s.HeaderField? && !s.HeaderValue?
  {
  }

  /** A parser that has taken a buffer can take the next one. */
  lemma ReadyAgain(c: Config, nread: nat)
    requires Valid(c) && CountFits(c)
    requires c.live.Running? || (c.live.Upgraded? && (c.p.state.Dead? || c.p.state.StartReq? || c.p.state.StartRes?))
    requires nread == c.nread || c.p.state.HeaderField? || c.p.state.HeaderValue?
    ensures c.p.errno.OK?
    ensures Valid(Config(c.p, c.log, nread, 0, Running)) && CountFits(Config(c.p, c.log, nread, 0, Running))
  {
  }

  /* ---- memchr ---- */

  /** The C library's memchr, on `limit` bytes from `p` on. */
  function MemChr(data: string, p: nat, limit: nat, ch: char): (r: Option<nat>)
    requires p + limit <= |data|
    ensures r.Some? ==> p <= r.value < p + limit && data[r.value] == ch && forall k :: p <= k < r.value ==> data[k] != ch
    ensures r.None? ==> forall k :: p <= k < p + limit ==> data[k] != ch
    decreases limit
  {
    if limit == 0 then None
    else if data[p] == ch then Some(p)
    else MemChr(data, p + 1, limit - 1, ch)
  }

  /** The shortcut for header values of no interest: the first line end among the next
      HTTP_MAX_HEADER_SIZE bytes, or else the end of the buffer, however far away. */
  method FindLineEnd(data: string, p: nat) returns (q: nat)
    requires p < |data| && data[p] != CR && data[p] != LF
    ensures p < q <= |data|
    ensures forall k :: p <= k < q && k < p + HTTP_MAX_HEADER_SIZE ==> data[k] != CR && data[k] != LF
    ensures q < |data| ==> q < p + HTTP_MAX_HEADER_SIZE && (data[q] == CR || data[q] == LF)
  {
    var limit := |data| - p;
    if HTTP_MAX_HEADER_SIZE < limit { limit := HTTP_MAX_HEADER_SIZE; }
    var cr := MemChr(data, p, limit, CR);
    var lf := MemChr(data, p, limit, LF);
    if cr.Some? {
      q := if lf.Some? && cr.value >= lf.value then lf.value else cr.value;
    } else if lf.Some? {
      q := lf.value;
    } else {
      q := |data|;
    }
  }

  /* ---- The parser object ---- */

  /** `struct http_parser` with an application that joins the strings it is given. */
  class HttpParser {
    var fields: Parser
    var nread: nat
    var log: seq<Event>

    constructor (kind: ParserKind)
      ensures fields == Init(kind) && nread == 0 && log == [] && Ready()
    {
      fields := Init(kind);
      nread := 0;
      log := [];
      new;
      InitValid(kind);
    }

    ghost function Now(): Config
      reads this
    {
      Config(fields, log, nread, 0, if fields.errno.OK? then Running else Failed)
    }

    ghost predicate Ready()
      reads this
    {
      fields.errno.OK? ==> Valid(Now()) && CountFits(Now()) && nread <= HTTP_MAX_HEADER_SIZE
    }

    /** The loop stands before byte `p`: the fields, the marks and the callbacks made agree
        with the machine, and `extra` more header bytes are counted than there were. */
    ghost predicate At(c: Config, data: string, p: nat, marks: map<Part, nat>, extra: nat)
      requires Valid(c)
      reads this
    {
      && p <= |data|
      && Upto(c, data, p).live.Running? && Upto(c, data, p).used == p
      && fields == Upto(c, data, p).p
      && nread == Upto(c, data, p).nread + extra
      && MarksFit(fields.state, marks, p)
      && Pending(log, marks, data, p) == Upto(c, data, p).log
    }

    /** An inner loop stands before byte `p`; its bytes are not yet counted, and its
        header_state is kept in a local variable. */
    ghost predicate Reading(c: Config, data: string, start: nat, p: nat, marks: map<Part, nat>, h: HeaderState)
      requires Valid(c)
      reads this
    {
      && start <= p <= |data|
      && Upto(c, data, p).live.Running? && Upto(c, data, p).used == p
      && fields.(header := h) == Upto(c, data, p).p
      && Upto(c, data, p).nread == Upto(c, data, start).nread + (p - start)
      && MarksFit(fields.state, marks, p)
      && Pending(log, marks, data, p) == Upto(c, data, p).log
    }

    /** `goto reexecute` at byte `p`: what the machine still does for this byte starts at `d`. */
    ghost predicate Redo(c: Config, data: string, p: nat, marks: map<Part, nat>, d: Config)
      requires Valid(c)
      reads this
    {
      && p < |data|
      && Valid(d) && d.live.Running? && d.used == p
      && Dispatch(d, data[p]) == Upto(c, data, p + 1)
      && (d.p.state.ChunkSizeStart? ==> d.nread == 1)
      && fields == d.p && nread == d.nread
      && MarksFit(fields.state, marks, p)
      && Pending(log, marks, data, p) == d.log
    }

    /** The machine has left for another protocol with byte `p`. */
    ghost predicate Left(c: Config, data: string, p: nat)
      requires Valid(c)
      reads this
    {
      && p < |data|
      && Upto(c, data, p + 1).live.Upgraded? && Upto(c, data, p + 1).used == p + 1
      && fields == Upto(c, data, p + 1).p && nread == Upto(c, data, p + 1).nread
      && (fields.state.Dead? || fields.state.StartReq? || fields.state.StartRes?)
      && log == Upto(c, data, p + 1).log
    }

    /** The buffer is used up and every string is delivered. */
    ghost predicate Done(c: Config, data: string)
      requires Valid(c)
      reads this
    {
      var r := Upto(c, data, |data|);
      && r.live.Running? && r.used == |data|
      && fields == r.p && log == r.log
      && nread == r.nread + OverCount(c, data, |data|)
    }

    /** The loop has met an error at byte `p`, or has counted too many header bytes. Only a
        Content-Length is refused before the bytes read so far are counted. */
    ghost predicate Erred(c: Config, data: string, p: nat)
      requires Valid(c)
      reads this
    {
      && p < |data|
      && !fields.errno.OK?
      && if fields.errno.HeaderOverflow? then Exceeds(c, data)
         else
           && Upto(c, data, p + 1).live.Failed? && fields == Upto(c, data, p + 1).p && Upto(c, data, p + 1).used == p
           && (fields.errno.InvalidContentLength? || WithinLimit(c, data, p + 1))
    }

    /** COUNT_HEADER_SIZE(v) */
    method CountHeaderSize(v: nat) returns (ok: bool)
      modifies this`nread, this`fields
      ensures nread == old(nread) + v
      ensures ok <==> nread <= HTTP_MAX_HEADER_SIZE
      ensures fields == if ok then old(fields) else old(fields).(errno := HeaderOverflow)
    {
      nread := nread + v;
      ok := nread <= HTTP_MAX_HEADER_SIZE;
      if !ok { fields := fields.(errno := HeaderOverflow); }
    }

    /** MARK, CALLBACK_DATA and CALLBACK_NOTIFY. */
    method Call(a: Act, data: string, p: nat, marks: map<Part, nat>) returns (after: map<Part, nat>)
      requires p <= |data| && forall part <- marks :: marks[part] <= p
      modifies this`log
      ensures (log, after) == Called(a, data, p, old(log), marks)
    {
      after := marks;
      match a
      case Mark(part) => if part !in marks { after := marks[part := p]; }
      case Byte(part) =>
      case Flush(part) =>
        if part in marks { log := Emit(log, Data(part, data[marks[part]..p])); }
        after := marks - {part};
      case Fire(what) => log := log + [Note(what)];
    }

    /** The marks and callbacks of one trip through the switch. */
    method Callbacks(acts: seq<Act>, data: string, p: nat, marks: map<Part, nat>) returns (after: map<Part, nat>)
      requires |acts| <= 2 && p <= |data| && forall part <- marks :: marks[part] <= p
      modifies this`log
      ensures (log, after) == CalledBoth(acts, data, p, old(log), marks)
    {
      after := marks;
      if |acts| > 0 {
        after := Call(acts[0], data, p, after);
      }
      if |acts| > 1 {
        after := Call(acts[1], data, p, after);
      }
    }

    /** The byte that ends a header name: a colon, or an error. */
    method EndField(data: string, p: nat, marks: map<Part, nat>, ghost c: Config)
      returns (ok: bool, after: map<Part, nat>)
      requires Valid(c) && p < |data| && Token(data[p]) == '\0'
      requires Reading(c, data, p, p, marks, fields.header) && fields.state.HeaderField?
      requires nread == Upto(c, data, p).nread + 1 && WithinLimit(c, data, p + 1)
      modifies this`fields, this`log
      ensures !ok ==> Erred(c, data, p)
      ensures ok ==> At(c, data, p + 1, after, OverCount(c, data, p + 1))
    {
      hide Upto, Valid, MarksFit, Pending, FieldByte, Token, Emit, OpenPart, WithinLimit, Exceeds, OverCount;
      after := marks;
      MarksOf(HeaderField, marks, p);
      FieldEnds(c, data, p, log, marks);
      ok := data[p] == ':';
      if ok {
        fields := fields.(state := HeaderValueDiscardWs);
        after := Call(Flush(Field), data, p, after);
        PendingNone(log, data, p + 1);
        NotInside(c, data, p);
      } else {
        fields := fields.(errno := InvalidHeaderToken);
      }
    }

    /** The inner loop over a header name: it stops at the first byte that is no token
        character, or at the end of the buffer with `p` put back on the last byte. */
    method ReadField(data: string, start: nat, marks: map<Part, nat>, ghost c: Config)
      returns (p: nat, ok: bool, after: map<Part, nat>)
      requires Valid(c) && start < |data|
      requires At(c, data, start, marks, 1) && fields.state.HeaderField? && WithinLimit(c, data, start)
      modifies this
      ensures start <= p < |data|
      ensures !ok ==> Erred(c, data, p)
      ensures ok ==> At(c, data, p + 1, after, OverCount(c, data, p + 1))
      ensures ok ==> WithinLimit(c, data, p + 1) && nread <= HTTP_MAX_HEADER_SIZE
    {
      hide Upto, Valid, MarksFit, Pending, FieldByte, Token, Emit, OpenPart, WithinLimit, Exceeds, OverCount;
      p := start;
      after := marks;
      while p < |data| && Token(data[p]) != '\0'
        invariant start <= p <= |data|
        invariant nread == Upto(c, data, start).nread + 1
        invariant Reading(c, data, start, p, marks, fields.header) && fields.state.HeaderField?
        invariant p > start ==> Upto(c, data, p - 1).p.state.HeaderField?
      {
        FieldNext(c, data, p, log, marks);
        var (h, i) := FieldByte(fields.header, fields.index, data[p], Token(data[p]));
        fields := fields.(header := h, index := i);
        p := p + 1;
      }
      MarksOf(HeaderField, marks, p);
      ok := CountHeaderSize(p - start);
      if p == |data| {
        p := p - 1;
        StillInside(c, data, p);
        if ok { WithinMore(c, data, start, p + 1); } else { OverExceeds(c, data); }
      } else if ok {
        WithinMore(c, data, start, p + 1);
        ok, after := EndField(data, p, marks, c);
      } else {
        CrowdedExceeds(c, data, p);
      }
    }

    /** The switch over the local header_state, at a byte that is neither CR nor LF. The
        shortcut moves `p` to the last byte before the line end; `skipped` says that it has
        gone past bytes it did not look at, which the count will not allow. */
    method TakeValueByte(data: string, start: nat, p: nat, h: HeaderState, marks: map<Part, nat>, ghost c: Config)
      returns (q: nat, h': HeaderState, ok: bool, ghost skipped: bool)
      requires Valid(c) && p < |data| && data[p] != CR && data[p] != LF
      requires Reading(c, data, start, p, marks, h) && fields.state.HeaderValue?
      modifies this`fields
      ensures p <= q < |data|
      ensures !ok ==> q == p && Erred(c, data, p)
      ensures ok ==> fields.state.HeaderValue?
      ensures ok && skipped ==> q + 1 == |data| && q + 1 - start > HTTP_MAX_HEADER_SIZE && Exceeds(c, data)
      ensures ok && !skipped ==> Reading(c, data, start, q + 1, marks, h') && Upto(c, data, q).p.state.HeaderValue?
    {
      hide Upto, Valid, MarksFit, Pending, ValueByte, LengthByte, Emit, OpenPart, ValueHeaderState, Dispatch,
           WithinLimit, Exceeds, OverCount;
      q, h', ok, skipped := p, h, true, false;
      match h {
        case General =>
          var end := FindLineEnd(data, p);
          if end - p <= HTTP_MAX_HEADER_SIZE {
            GeneralStride(c, data, p, end - p - 1, log, marks);
            GeneralStride(c, data, p, end - p, log, marks);
          } else {
            skipped := true;
            GeneralStride(c, data, p, HTTP_MAX_HEADER_SIZE, log, marks);
            CrowdedExceeds(c, data, p + HTTP_MAX_HEADER_SIZE);
          }
          q := end - 1;
        case ContentLength =>
          match LengthByte(fields.contentLength, data[p]) {
            case Some(n) =>
              ValueNext(c, data, p, log, marks);
              fields := fields.(contentLength := n);
            case None =>
              ValueFails(c, data, p);
              fields := fields.(errno := InvalidContentLength, header := h);
              ok := false;
          }
        case Connection =>
          RunningParser(Upto(c, data, p));
          assert false;
        case TransferEncoding =>
          RunningParser(Upto(c, data, p));
          assert false;
        case _ =>
          ValueNext(c, data, p, log, marks);
          var (next, i, f) := ValueByte(h, fields.index, fields.flags, data[p]);
          h' := next;
          fields := fields.(index := i, flags := f);
      }
    }

    /** A header value that ends at CR. */
    method EndValueAtCr(data: string, start: nat, p: nat, h: HeaderState, marks: map<Part, nat>, ghost c: Config)
      returns (next: Next, after: map<Part, nat>)
      requires Valid(c) && p < |data| && data[p] == CR
      requires Reading(c, data, start, p, marks, h) && fields.state.HeaderValue?
      requires nread == Upto(c, data, start).nread + 1
      modifies this
      ensures next.Stop? || next.Advance?
      ensures next.Stop? ==> Erred(c, data, p)
      ensures next.Advance? ==> At(c, data, p + 1, after, OverCount(c, data, p + 1))
      ensures next.Advance? ==> Upto(c, data, start).nread + (p + 1 - start) == nread <= HTTP_MAX_HEADER_SIZE
    {
      hide Upto, Valid, MarksFit, Pending, ValueByte, LengthByte, Emit, OpenPart, ValueHeaderState, Dispatch,
           WithinLimit, Exceeds, OverCount;
      MarksOf(HeaderValue, marks, p);
      ValueEnds(c, data, p, log, marks);
      fields := fields.(state := HeaderAlmostDone, header := h);
      after := Call(Flush(Value), data, p, marks);
      PendingNone(log, data, p + 1);
      NotInside(c, data, p);
      var ok := CountHeaderSize(p - start);
      next := if ok then Advance else Stop;
      if !ok { CrowdedExceeds(c, data, p); }
    }

    /** A header value that ends at LF: the byte is counted and the switch takes it again. */
    method EndValueAtLf(data: string, start: nat, p: nat, h: HeaderState, marks: map<Part, nat>, ghost c: Config)
      returns (next: Next, after: map<Part, nat>, ghost d: Config)
      requires Valid(c) && p < |data| && data[p] == LF
      requires Reading(c, data, start, p, marks, h) && fields.state.HeaderValue?
      requires nread == Upto(c, data, start).nread + 1
      modifies this
      ensures next.Stop? || next.Again?
      ensures next.Stop? ==> Erred(c, data, p)
      ensures next.Again? ==> Redo(c, data, p, after, d) && fields.state.HeaderAlmostDone?
      ensures next.Again? ==> Upto(c, data, start).nread + (p + 1 - start) <= HTTP_MAX_HEADER_SIZE
      ensures next.Again? ==> OverCount(c, data, p + 1) == 0 && nread <= HTTP_MAX_HEADER_SIZE
    {
      hide Upto, Valid, MarksFit, Pending, ValueByte, LengthByte, Emit, OpenPart, ValueHeaderState, Dispatch,
           WithinLimit, Exceeds, OverCount;
      MarksOf(HeaderValue, marks, p);
      LineFeedLeaves(c, data, p);
      d := ValueEndsAgain(c, data, p, log, marks);
      fields := fields.(state := HeaderAlmostDone);
      var ok := CountHeaderSize(p - start);
      if !ok {
        CrowdedExceeds(c, data, p);
        return Stop, marks, d;
      }
      fields := fields.(header := h);
      after := Call(Flush(Value), data, p, marks);
      PendingNone(log, data, p);
      next := Again;
    }

    /** The inner loop over a header value. It ends at CR, at LF (which the switch then
        takes again), or at the end of the buffer with `p` put back on the last byte. */
    method ReadValue(data: string, start: nat, marks: map<Part, nat>, ghost c: Config)
      returns (p: nat, next: Next, after: map<Part, nat>, ghost d: Config)
      requires Valid(c) && start < |data|
      requires At(c, data, start, marks, 1) && fields.state.HeaderValue?
      modifies this
      ensures start <= p < |data|
      ensures next.Stop? || next.Again? || next.Advance?
      ensures next.Stop? ==> Erred(c, data, p)
      ensures next.Again? ==> Redo(c, data, p, after, d) && fields.state.HeaderAlmostDone?
      ensures next.Again? ==> OverCount(c, data, p + 1) == 0 && nread <= HTTP_MAX_HEADER_SIZE
      ensures next.Advance? ==> At(c, data, p + 1, after, OverCount(c, data, p + 1))
      ensures !next.Stop? ==> Upto(c, data, start).nread + (p + 1 - start) <= HTTP_MAX_HEADER_SIZE
      ensures next.Advance? ==> nread <= HTTP_MAX_HEADER_SIZE
    {
      hide Upto, Valid, MarksFit, Pending, ValueByte, LengthByte, Emit, OpenPart, ValueHeaderState, Dispatch,
           WithinLimit, Exceeds, OverCount;
      p := start;
      after := marks;
      d := c;
      RunningParser(Upto(c, data, p));
      var h := fields.header;
      ghost var skipped := false;
      while p < |data|
        invariant start <= p <= |data|
        invariant nread == Upto(c, data, start).nread + 1
        invariant fields.state.HeaderValue?
        invariant skipped ==> p == |data| && p - start > HTTP_MAX_HEADER_SIZE && Exceeds(c, data)
        invariant !skipped ==> Reading(c, data, start, p, marks, h)
        invariant !skipped && p > start ==> Upto(c, data, p - 1).p.state.HeaderValue?
        decreases |data| - p
      {
        var ch := data[p];
        MarksOf(HeaderValue, marks, p);
        if ch == CR {
          next, after := EndValueAtCr(data, start, p, h, marks, c);
          return;
        }
        if ch == LF {
          next, after, d := EndValueAtLf(data, start, p, h, marks, c);
          return;
        }
        var ok;
        p, h, ok, skipped := TakeValueByte(data, start, p, h, marks, c);
        if !ok {
          next := Stop;
          return;
        }
        p := p + 1;
      }
      fields := fields.(header := h);
      var ok := CountHeaderSize(p - start);
      next := if ok then Advance else Stop;
      p := p - 1;
      if !skipped {
        StillInside(c, data, p);
        if !ok { OverExceeds(c, data); }
      }
    }

    /** A body, or a part of it, in one stride. */
    method TakeBody(data: string, start: nat, marks: map<Part, nat>, ghost c: Config)
      returns (p: nat, next: Next, after: map<Part, nat>, ghost d: Config)
      requires Valid(c) && start < |data|
      requires At(c, data, start, marks, 0) && ReadingBody(fields.state)
      modifies this
      ensures start <= p < |data|
      ensures next.Again? || next.Advance?
      ensures next.Again? ==> Redo(c, data, p, after, d) && fields.state.MessageDone?
      ensures next.Advance? ==> At(c, data, p + 1, after, 0) && !fields.state.HeaderField? && !fields.state.HeaderValue?
      ensures old(fields.state).BodyIdentityEof? || p + 1 - start <= old(fields.contentLength)
      ensures nread == old(nread)
    {
      hide Upto, Valid, Pending, Emit, Dispatch, MarksFit, Inv;
      d := c;
      RunningParser(Upto(c, data, start));
      MarksOfBody(fields.state, marks, start);
      after := Call(Mark(Body), data, start, marks);
      if fields.state.BodyIdentityEof? {
        p := |data| - 1;
        next := Advance;
        BodyEofStride(c, data, start, |data| - start);
        PendingBody(log, marks, data, start, |data| - start);
        MarksOfBody(fields.state, after, p + 1);
        return;
      }
      assert fields.contentLength != 0 && fields.contentLength != NO_LENGTH;
      var toRead := if fields.contentLength < |data| - start then fields.contentLength else |data| - start;
      PendingBody(log, marks, data, start, toRead);
      if toRead < fields.contentLength {
        BodyStride(c, data, start, toRead);
      } else {
        d := LastBodyByte(c, data, start, toRead);
      }
      fields := fields.(contentLength := fields.contentLength - toRead);
      p := start + toRead - 1;
      next := Advance;
      if fields.contentLength == 0 {
        if fields.state.BodyIdentity? {
          fields := fields.(state := MessageDone);
          assert after == map[Body := after[Body]];
          PendingOne(log, Body, after[Body], data, p + 1);
          after := Call(Flush(Body), data, p + 1, after);
          PendingNone(log, data, p);
          next := Again;
        } else {
          fields := fields.(state := ChunkDataAlmostDone);
        }
      }
      MarksOfBody(fields.state, after, p + 1);
      MarksOfBody(fields.state, after, p);
    }

    /** One trip through the switch, in the states that look at one byte only. */
    method TakeSwitch(data: string, p: nat, marks: map<Part, nat>, ghost c: Config, ghost d: Config)
      returns (next: Next, after: map<Part, nat>, ghost d': Config)
      requires Valid(c) && Redo(c, data, p, marks, d) && WithinLimit(c, data, p + 1)
      requires !fields.state.HeaderField? && !fields.state.HeaderValue? && !ReadingBody(fields.state)
      modifies this
      ensures next.Stop? ==> Erred(c, data, p)
      ensures next.Leave? ==> Left(c, data, p)
      ensures next.Advance? ==> At(c, data, p + 1, after, 0)
      ensures next.Again? ==> Redo(c, data, p, after, d') && Rank(fields.state) < Rank(old(fields.state))
      ensures next.Again? ==> OpenPart(fields.state) == None && !ReadingBody(fields.state)
      ensures nread <= old(nread)
    {
      hide Upto, Valid, Pending, Emit, Switch, MarksFit, DoActs, CalledBoth, Inv, Rank, Dispatch, ActsFit,
           WithinLimit, Exceeds, OverCount;
      RunningParser(d);
      if fields.state.ChunkSizeStart? {
        assert nread == 1 && fields.flags.chunked;
      }
      var before := fields.state;
      var m := Switch(fields, data[p]);
      SwitchFits(fields, data[p]);
      fields := m.p;
      next := m.next;
      d' := After(d, m, data[p]);
      if ResetsCount(before, m) { nread := 0; }
      if next.Stop? {
        after := marks;
      } else {
        CallbacksFit(before, m, data, p, log, marks);
        after := Callbacks(m.acts, data, p, marks);
      }
      if next.Again? {
        SwitchAgain(d, data[p]);
      } else {
        SwitchEnds(d, data[p]);
        if next.Leave? {
          MarksOfBody(fields.state, after, p + 1);
          PendingNone(log, data, p + 1);
        }
      }
    }

    /** CALLBACK_DATA_NOADVANCE at the end of the buffer, for a mark that may be set. */
    method FlushMark(part: Part, data: string, marks: map<Part, nat>) returns (left: map<Part, nat>)
      requires forall other <- marks :: marks == map[other := marks[other]] && marks[other] <= |data|
      modifies this`log
      ensures if part in marks then left == map[] && log == Pending(old(log), marks, data, |data|)
              else left == marks && log == old(log)
    {
      if part in marks { PendingOne(log, part, marks[part], data, |data|); }
      left := Call(Flush(part), data, |data|, marks);
    }

    /** The callbacks for the marks left over at the end of a buffer. At most one is set. */
    method FlushMarks(data: string, marks: map<Part, nat>)
      requires MarksFit(fields.state, marks, |data|)
      modifies this`log
      ensures log == Pending(old(log), marks, data, |data|)
    {
      MarksAtMostOne(fields.state, marks, |data|);
      hide Pending, MarksFit;
      assert |marks| <= 1;
      if marks == map[] { PendingNone(log, data, |data|); }
      var left := FlushMark(Field, data, marks);
      left := FlushMark(Value, data, left);
      left := FlushMark(Url, data, left);
      left := FlushMark(Body, data, left);
      left := FlushMark(Part.Status, data, left);
    }

    /** What `http_parser_execute` comes to: the machine's result when there is no error,
        and the machine's error when there is one, unless the headers are too long. A run
        without an error of its own ends in HPE_HEADER_OVERFLOW exactly if it exceeds the limit.
        In a run with an error of its own the limit is met first, except that a Content-Length
        is refused before the bytes of its buffer are counted. */
    ghost predicate Outcome(c: Config, data: string, taken: nat, upgraded: bool)
      requires Valid(c)
      reads this
    {
      var r := Run(c, data);
      match fields.errno
      case OK =>
        && !r.live.Failed? && fields == r.p && log == r.log && taken == r.used
        && (upgraded <==> r.live.Upgraded?)
        && nread == r.nread + OverCount(c, data, |data|)
        && !Exceeds(c, data)
      case HeaderOverflow => !upgraded && Exceeds(c, data)
      case _ =>
        && !upgraded && r.live.Failed? && fields == r.p && taken == r.used
        && (Exceeds(c, data) ==> fields.errno.InvalidContentLength?)
    }

    /** The states with inner loops, up to the byte at which the switch goes on. */
    method TakeStretch(data: string, p: nat, marks: map<Part, nat>, ghost c: Config)
      returns (q: nat, next: Next, after: map<Part, nat>, ghost d: Config)
      requires Valid(c) && p < |data| && WithinLimit(c, data, p)
      requires fields.state.HeaderField? || fields.state.HeaderValue? || ReadingBody(fields.state)
      requires At(c, data, p, marks, if ReadingBody(fields.state) then 0 else 1)
      requires nread <= HTTP_MAX_HEADER_SIZE
      modifies this
      ensures p <= q < |data| && !next.Leave?
      ensures next.Stop? ==> Erred(c, data, q)
      ensures next.Advance? ==> At(c, data, q + 1, after, OverCount(c, data, q + 1)) && nread <= HTTP_MAX_HEADER_SIZE
      ensures next.Again? ==> Redo(c, data, q, after, d)
      ensures next.Again? ==> !fields.state.HeaderField? && !fields.state.HeaderValue? && !ReadingBody(fields.state)
      ensures next.Again? ==> OverCount(c, data, q + 1) == 0 && nread <= HTTP_MAX_HEADER_SIZE
      ensures !next.Stop? ==> WithinLimit(c, data, q + 1)
    {
      hide Upto, Valid, Dispatch, Emit, Inv, Pending, MarksFit, Rank, OpenPart, WithinLimit, Exceeds, OverCount;
      d := c;
      if fields.state.HeaderField? {
        var ok;
        q, ok, after := ReadField(data, p, marks, c);
        next := if ok then Advance else Stop;
      } else if fields.state.HeaderValue? {
        q, next, after, d := ReadValue(data, p, marks, c);
        if !next.Stop? { WithinMore(c, data, p, q + 1); }
      } else {
        q, next, after, d := TakeBody(data, p, marks, c);
        WithinBody(c, data, p, q + 1 - p);
        BodyCounts(c, data, p, q + 1 - p);
        NotInside(c, data, q);
      }
    }

    /** One round of the loop over the buffer: it ends at byte `q`. */
    method TakeByte(data: string, p: nat, marks: map<Part, nat>, ghost c: Config)
      returns (q: nat, next: Next, after: map<Part, nat>)
      requires Valid(c) && CountFits(c) && p < |data|
      requires At(c, data, p, marks, 0) && WithinLimit(c, data, p) && nread <= HTTP_MAX_HEADER_SIZE
      modifies this
      ensures p <= q < |data| && !next.Again?
      ensures next.Stop? ==> Erred(c, data, q)
      ensures next.Leave? ==> Left(c, data, q)
      ensures next.Advance? ==> At(c, data, q + 1, after, OverCount(c, data, q + 1))
      ensures !next.Stop? ==> WithinLimit(c, data, q + 1) && nread <= HTTP_MAX_HEADER_SIZE
    {
      hide Upto, Valid, Dispatch, Emit, Inv, Pending, MarksFit, CountFits, Rank, OpenPart, WithinLimit, Exceeds, OverCount;
      ghost var d := FirstTrip(c, data, p);
      RunningParser(Upto(c, data, p));
      q, after, next := p, marks, Again;
      if ParsingHeader(fields.state) {
        var ok := CountHeaderSize(1);
        if !ok {
          CrowdedExceeds(c, data, p);
          next := Stop;
          return;
        }
      }
      if fields.state.HeaderField? || fields.state.HeaderValue? || ReadingBody(fields.state) {
        q, next, after, d := TakeStretch(data, p, marks, c);
      } else {
        WithinByte(c, data, p);
        NotInside(c, data, p);
      }
      ghost var outside := next.Again?;
      while next.Again?
        invariant p <= q < |data|
        invariant next.Stop? ==> Erred(c, data, q)
        invariant next.Leave? ==> Left(c, data, q)
        invariant next.Advance? ==> At(c, data, q + 1, after, OverCount(c, data, q + 1))
        invariant next.Again? ==> Redo(c, data, q, after, d)
        invariant next.Again? ==> !fields.state.HeaderField? && !fields.state.HeaderValue? && !ReadingBody(fields.state)
        invariant !next.Stop? ==> WithinLimit(c, data, q + 1) && nread <= HTTP_MAX_HEADER_SIZE
        invariant outside ==> OverCount(c, data, q + 1) == 0
        invariant next.Again? ==> outside
        decreases next.Again?, Rank(fields.state)
      {
        next, after, d := TakeSwitch(data, q, after, c, d);
        OpenStates(fields.state);
      }
    }

    /** The loop over the buffer, and the callbacks for the string it ends in. */
    method RunBuffer(data: string, ghost c: Config) returns (last: nat, next: Next)
      requires fields.errno.OK? && c == Now() && Valid(c) && CountFits(c) && data != ""
      requires nread <= HTTP_MAX_HEADER_SIZE
      modifies this
      ensures next.Stop? ==> Erred(c, data, last)
      ensures next.Leave? ==> Left(c, data, last) && WithinLimit(c, data, last + 1)
      ensures next.Advance? ==> last + 1 == |data| && Done(c, data) && WithinLimit(c, data, |data|)
      ensures !next.Stop? ==> nread <= HTTP_MAX_HEADER_SIZE
      ensures !next.Again?
    {
      hide Valid, Dispatch, Emit, Inv, Pending, CountFits, Rank, MarksFit, OpenPart, Upto, Exceeds;
      var marks: map<Part, nat> := match OpenPart(fields.state) case Some(part) => map[part := 0] case None => map[];
      OpeningMarks(c, data, marks);
      var p := 0;
      while p < |data|
        invariant p <= |data| && At(c, data, p, marks, OverCount(c, data, p))
        invariant WithinLimit(c, data, p) && nread <= HTTP_MAX_HEADER_SIZE
        decreases |data| - p
      {
        var q, after;
        q, next, after := TakeByte(data, p, marks, c);
        if !next.Advance? { return q, next; }
        p, marks := q + 1, after;
      }
      FlushMarks(data, marks);
      return |data| - 1, Advance;
    }

    /** `http_parser_execute` with a length of zero: the end of the input. */
    method ExecuteEof() returns (taken: nat)
      requires Ready() && fields.errno.OK?
      modifies this
      ensures Ready()
      ensures nread == old(nread)
      ensures
        match old(fields.state)
        case BodyIdentityEof =>
          taken == 0 && fields == old(fields) && log == old(log) + [Note(MessageComplete)]
        case Dead | StartReqOrRes | StartRes | StartReq =>
          taken == 0 && fields == old(fields) && log == old(log)
        case _ => taken == 1 && fields == old(fields).(errno := InvalidEofState) && log == old(log)
    {
      match fields.state
      case BodyIdentityEof =>
        log := log + [Note(MessageComplete)];
        taken := 0;
      case Dead | StartReqOrRes | StartRes | StartReq =>
        taken := 0;
      case _ =>
        fields := fields.(errno := InvalidEofState);
        taken := 1;
    }

    /** `http_parser_execute`. `upgraded` tells that it returned through the exit to another
        protocol. A parser in error does nothing. */
    method Execute(data: string) returns (taken: nat, upgraded: bool)
      requires Ready()
      modifies this
      ensures Ready()
      ensures !old(fields.errno.OK?) ==> taken == 0 && !upgraded && unchanged(this)
      ensures old(fields.errno.OK?) && data != "" ==> Outcome(old(Now()), data, taken, upgraded)
      ensures old(fields.errno.OK?) && data == "" && fields.errno.OK?
              ==> !upgraded && taken == 0 && fields == old(fields) && nread == old(nread)
      ensures old(fields.errno.OK?) && data == "" && old(fields.state.BodyIdentityEof?)
              ==> fields.errno.OK? && log == old(log) + [Note(MessageComplete)]
      ensures old(fields.errno.OK?) && data == "" && !old(fields.state.BodyIdentityEof?) ==> log == old(log)
    {
      hide Valid, Emit, Inv, CountFits, Upto, WithinLimit, OverCount, Exceeds;
      if !fields.errno.OK? { return 0, false; }
      if data == "" {
        taken := ExecuteEof();
        upgraded := false;
        return;
      }
      ghost var c := Now();
      var last, next := RunBuffer(data, c);
      taken, upgraded := if next.Stop? then last else last + 1, next.Leave?;
      if !next.Stop? || !fields.errno.HeaderOverflow? { UptoStays(c, data, last + 1, |data|); }
      if next.Advance? {
        if nread != Run(c, data).nread { OverInside(c, data, |data|); }
        NotExceeded(c, data);
      } else if next.Leave? || (!fields.errno.HeaderOverflow? && !fields.errno.InvalidContentLength?) {
        StoppedWithin(c, data, last + 1);
      }
      if !next.Stop? { ReadyAgain(Upto(c, data, last + 1), nread); }
    }
  }
}
