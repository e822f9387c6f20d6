/** The parser as a machine that takes one byte at a time: no buffers, no marks, no loops
    over a stretch of bytes. `http_parser_execute` is proved to refine it. */
module HttpRun {
  import opened Wrappers
  import opened HttpTypes
  import opened HttpSwitch

  datatype Live = Running | Upgraded | Failed

  /** A parser, the joined history of its callbacks, the header bytes counted exactly, and
      the number of bytes taken. */
  datatype Config = Config(p: Parser, log: seq<Event>, nread: nat, used: nat, live: Live)

  function DoAct(log: seq<Event>, a: Act, ch: char): seq<Event> {
    match a
    case Mark(part) => Emit(log, Data(part, ""))
    case Byte(part) => Emit(log, Data(part, [ch]))
    case Flush(part) => log
    case Fire(what) => log + [Note(what)]
  }

  function DoActs(log: seq<Event>, acts: seq<Act>, ch: char): seq<Event>
    decreases |acts|
  {
    if acts == [] then log else DoActs(DoAct(log, acts[0], ch), acts[1..], ch)
  }

  /** `parser->nread = 0` */
  predicate ResetsCount(before: State, m: Move) {
    (before.HeadersDone? || before.ChunkSizeAlmostDone? || before.ChunkDataDone?) && !m.next.Stop?
  }

  /** The configuration after one trip through the switch. */
  function After(c: Config, m: Move, ch: char): Config {
    var nread := if ResetsCount(c.p.state, m) then 0 else c.nread;
    var log := DoActs(c.log, m.acts, ch);
    match m.next
    case Advance => Config(m.p, log, nread, c.used + 1, Running)
    case Again => Config(m.p, log, nread, c.used, Running)
    case Leave => Config(m.p, log, nread, c.used + 1, Upgraded)
    case Stop => Config(m.p, log, nread, c.used, Failed)
  }

  ghost predicate Valid(c: Config) {
    && Inv(c.p)
    && (c.live.Failed? <==> !c.p.errno.OK?)
    && (c.live.Running? && OpenPart(c.p.state).Some? ==> EndsIn(c.log, OpenPart(c.p.state).value))
  }

  lemma TwoActs(log: seq<Event>, a: Act, b: Act, ch: char)
    ensures DoActs(log, [a], ch) == DoAct(log, a, ch)
    ensures DoActs(log, [a, b], ch) == DoAct(DoAct(log, a, ch), b, ch)
  {
    assert [a, b][1..] == [b];
    assert [a][1..] == [] && [b][1..] == [];
    assert DoActs(DoAct(log, a, ch), [b], ch) == DoAct(DoAct(log, a, ch), b, ch);
  }

  lemma AfterValid(c: Config, m: Move, ch: char)
    requires Valid(c) && c.live.Running?
    requires Inv(m.p) && Fits(c.p.state, m)
    ensures Valid(After(c, m, ch))
  {
    hide Inv;
    match OpenPart(m.p.state)
    case Some(part) =>
      TwoActs(c.log, Byte(part), Byte(part), ch);
      TwoActs(c.log, Mark(part), Byte(part), ch);
    case None =>
  }

  /** One byte, with every `goto reexecute` it causes. */
  function Dispatch(c: Config, ch: char): (r: Config)
    requires Valid(c) && c.live.Running?
    ensures Valid(r)
    ensures CountFits(r)
    decreases Rank(c.p.state)
  {
    var m := Switch(c.p, ch);
    SwitchKeepsInv(c.p, ch);
    SwitchFits(c.p, ch);
    AfterValid(c, m, ch);
    if m.next.Again? then Dispatch(After(c, m, ch), ch) else After(c, m, ch)
  }

  /** `assert(parser->nread == 1)` at the start of a chunk size, before the byte is counted. */
  predicate CountFits(c: Config) { c.live.Running? && c.p.state.ChunkSizeStart? ==> c.nread == 0 }

  /** One byte of the loop, with COUNT_HEADER_SIZE(1). */
  function Step(c: Config, ch: char): (r: Config)
    requires Valid(c) && c.live.Running?
    ensures Valid(r) && CountFits(r)
  {
    Dispatch(if ParsingHeader(c.p.state) then c.(nread := c.nread + 1) else c, ch)
  }

  /** The first `k` bytes of a string, up to an error or the exit to another protocol. */
  function Upto(c: Config, data: string, k: nat): (r: Config)
    requires Valid(c) && k <= |data|
    ensures Valid(r)
    ensures CountFits(c) ==> CountFits(r)
  {
    if k == 0 then c
    else
      var d := Upto(c, data, k - 1);
      if d.live.Running? then Step(d, data[k - 1]) else d
  }

  function Run(c: Config, data: string): (r: Config)
    requires Valid(c)
    ensures Valid(r)
    ensures CountFits(c) ==> CountFits(r)
  {
    Upto(c, data, |data|)
  }

  lemma {:induction false} UptoPrefix(c: Config, a: string, b: string, k: nat)
    requires Valid(c) && k <= |a|
    ensures Upto(c, a + b, k) == Upto(c, a, k)
  {
    hide Valid, Step;
    if k > 0 { UptoPrefix(c, a, b, k - 1); }
  }

  lemma {:induction false} UptoSuffix(c: Config, a: string, b: string, k: nat)
    requires Valid(c) && k <= |b|
    ensures Upto(Run(c, a), b, k) == Upto(c, a + b, |a| + k)
  {
    hide Valid, Step;
    if k == 0 {
      UptoPrefix(c, a, b, |a|);
    } else {
      UptoSuffix(c, a, b, k - 1);
      assert (a + b)[|a| + k - 1] == b[k - 1];
    }
  }

  /** Cutting the bytes in two makes no difference. */
  lemma RunInTwo(c: Config, a: string, b: string)
    requires Valid(c)
    ensures Run(Run(c, a), b) == Run(c, a + b)
  {
    hide Valid, Upto;
    UptoSuffix(c, a, b, |b|);
  }

  lemma {:induction false} UptoStopped(c: Config, data: string, k: nat)
    requires Valid(c) && !c.live.Running? && k <= |data|
    ensures Upto(c, data, k) == c
  {
    hide Valid, Step;
    if k > 0 { UptoStopped(c, data, k - 1); }
  }

  /** Once stopped, a string stays stopped. */
  lemma {:induction false} UptoStays(c: Config, data: string, j: nat, k: nat)
    requires Valid(c) && j <= k <= |data| && (!Upto(c, data, j).live.Running? || j == k)
    ensures Upto(c, data, k) == Upto(c, data, j)
    decreases k
  {
    hide Valid, Step;
    if j < k { UptoStays(c, data, j, k - 1); }
  }

  /** The state `http_parser_init` leaves is valid, so every configuration reached from it is. */
  lemma InitValid(kind: ParserKind)
    ensures Valid(Config(Init(kind), [], 0, 0, Running))
  {
  }
}
