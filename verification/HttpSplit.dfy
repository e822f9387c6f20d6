/** The result of parsing does not depend on how the input is cut into buffers. */
module HttpSplit {
  import opened Wrappers
  import opened HttpTypes
  import opened HttpSwitch
  import opened HttpRun
  import opened HttpExecute

  function Join(pieces: seq<string>): string {
    if pieces == [] then "" else Join(pieces[..|pieces| - 1]) + pieces[|pieces| - 1]
  }

  /** Equal but for the count of header bytes, of which `d` has up to `slack` too many, and
      `shift` bytes further on. */
  ghost predicate Alike(c: Config, d: Config, shift: nat, slack: nat) {
    && c.p == d.p && c.log == d.log && c.live == d.live && c.used == d.used + shift
    && c.nread <= d.nread <= c.nread + slack
  }

  lemma {:induction false} DispatchAlike(c: Config, d: Config, shift: nat, slack: nat, ch: char)
    requires Valid(c) && Valid(d) && c.live.Running? && Alike(c, d, shift, slack)
    ensures Alike(Dispatch(c, ch), Dispatch(d, ch), shift, slack)
    decreases Rank(c.p.state)
  {
    hide Valid, Switch, Fits;
    var m := Switch(c.p, ch);
    if m.next.Again? {
      SwitchAgain(c, ch);
      SwitchAgain(d, ch);
      DispatchAlike(After(c, m, ch), After(d, m, ch), shift, slack, ch);
    } else {
      SwitchEnds(c, ch);
      SwitchEnds(d, ch);
    }
  }

  lemma {:induction false} UptoAlike(c: Config, d: Config, shift: nat, slack: nat, data: string, k: nat)
    requires Valid(c) && Valid(d) && Alike(c, d, shift, slack) && k <= |data|
    ensures Alike(Upto(c, data, k), Upto(d, data, k), shift, slack)
  {
    hide Valid, Dispatch;
    if k > 0 {
      UptoAlike(c, d, shift, slack, data, k - 1);
      var c', d' := Upto(c, data, k - 1), Upto(d, data, k - 1);
      if c'.live.Running? {
        CountedValid(c');
        CountedValid(d');
        DispatchAlike(Counted(c'), Counted(d'), shift, slack, data[k - 1]);
      }
    }
  }

  lemma {:induction false} JoinSplit(pieces: seq<string>, i: nat)
    requires i <= |pieces|
    ensures Join(pieces) == Join(pieces[..i]) + Join(pieces[i..])
  {
    if i == |pieces| {
      assert pieces[..i] == pieces;
    } else {
      var n := |pieces| - 1;
      JoinSplit(pieces[..n], i);
      assert pieces[..n][..i] == pieces[..i] && pieces[..n][i..] == pieces[i..][..n - i];
    }
  }

  /** What the machine makes of all the pieces, once it has taken the first `i` and then
      stopped in piece `i`. */
  lemma PieceTaken(c: Config, now: Config, shift: nat, slack: nat, pieces: seq<string>, i: nat)
    requires Valid(c) && Valid(now) && i < |pieces|
    requires Alike(Run(c, Join(pieces[..i])), now, shift, slack)
    ensures Alike(Run(c, Join(pieces[..i + 1])), Run(now, pieces[i]), shift, slack)
    ensures !Run(now, pieces[i]).live.Running? ==> Alike(Run(c, Join(pieces)), Run(now, pieces[i]), shift, slack)
  {
    hide Valid, Upto;
    assert pieces[..i + 1][..i] == pieces[..i];
    var before := Run(c, Join(pieces[..i]));
    RunInTwo(c, Join(pieces[..i]), pieces[i]);
    UptoAlike(before, now, shift, slack, pieces[i], |pieces[i]|);
    if !Run(now, pieces[i]).live.Running? {
      JoinSplit(pieces, i + 1);
      RunInTwo(c, Join(pieces[..i + 1]), Join(pieces[i + 1..]));
      UptoStopped(Run(c, Join(pieces[..i + 1])), Join(pieces[i + 1..]), |Join(pieces[i + 1..])|);
    }
  }

  /* ---- The header limit ---- */

  /** The machine at byte `k` of a piece, seen from the start of all the bytes. */
  lemma PieceAt(c: Config, now: Config, shift: nat, slack: nat, before: string, piece: string, k: nat)
    requires Valid(c) && Valid(now) && k <= |piece|
    requires Alike(Run(c, before), now, shift, slack)
    ensures Alike(Upto(c, before + piece, |before| + k), Upto(now, piece, k), shift, slack)
  {
    hide Valid, Upto;
    UptoSuffix(c, before, piece, k);
    UptoAlike(Run(c, before), now, shift, slack, piece, k);
  }

  lemma SameOverCount(c: Config, now: Config, shift: nat, slack: nat, before: string, piece: string)
    requires Valid(c) && Valid(now) && piece != ""
    requires Alike(Run(c, before), now, shift, slack)
    ensures OverCount(c, before + piece, |before + piece|) == OverCount(now, piece, |piece|)
  {
    hide Valid, Upto, SameString;
    PieceAt(c, now, shift, slack, before, piece, |piece| - 1);
    PieceAt(c, now, shift, slack, before, piece, |piece|);
  }

  lemma WithinPrefix(c: Config, a: string, b: string)
    requires Valid(c)
    ensures WithinLimit(c, a + b, |a|) <==> WithinLimit(c, a, |a|)
  {
    hide Valid, Upto;
    forall k: nat | k < |a|
      ensures Crowded(c, a + b, k) <==> Crowded(c, a, k)
    {
      UptoPrefix(c, a, b, k);
    }
    assert WithinLimit(c, a, |a|) ==> WithinLimit(c, a + b, |a|);
  }

  /** If no piece exceeds the limit, the bytes in one buffer do not: the count of a cut input
      is never behind. */
  lemma PieceFits(c: Config, now: Config, shift: nat, slack: nat, before: string, piece: string)
    requires Valid(c) && Valid(now) && piece != ""
    requires Alike(Run(c, before), now, shift, slack)
    requires !Exceeds(c, before) && !Exceeds(now, piece)
    ensures !Exceeds(c, before + piece)
  {
    hide Valid, Upto, OverCount;
    var data := before + piece;
    WithinPrefix(c, before, piece);
    forall k: nat | k < |data|
      ensures !Crowded(c, data, k)
    {
      if k >= |before| {
        PieceAt(c, now, shift, slack, before, piece, k - |before|);
        assert !Crowded(now, piece, k - |before|);
      } else {
        assert WithinLimit(c, data, |before|);
      }
    }
    SameOverCount(c, now, shift, slack, before, piece);
    PieceAt(c, now, shift, slack, before, piece, |piece|);
  }

  /** Room for `slack` more header bytes than there are, wherever the header limit is looked at. */
  ghost predicate Roomy(c: Config, data: string, slack: nat)
    requires Valid(c)
  {
    && (forall k: nat :: k < |data| ==> RoomAt(c, data, k, slack))
    && Run(c, data).nread + slack <= HTTP_MAX_HEADER_SIZE
  }

  ghost predicate RoomAt(c: Config, data: string, k: nat, slack: nat)
    requires Valid(c) && k < |data|
  {
    var d := Upto(c, data, k);
    d.live.Running? && ParsingHeader(d.p.state) ==> d.nread + slack < HTTP_MAX_HEADER_SIZE
  }

  /** Known before the call: an input so short that its bytes and pieces stay below the limit. */
  lemma ShortIsRoomy(c: Config, data: string, slack: nat)
    requires Valid(c) && c.nread + |data| + slack <= HTTP_MAX_HEADER_SIZE
    ensures Roomy(c, data, slack)
  {
    hide Valid, Step;
    forall k: nat | k <= |data|
      ensures Upto(c, data, k).nread <= c.nread + k
    {
      CountFrom(c, data, 0, k);
    }
  }

  /** With room for one more byte a piece, no piece exceeds the limit. */
  lemma PieceRoomy(c: Config, now: Config, shift: nat, slack: nat, before: string, piece: string, after: string)
    requires Valid(c) && Valid(now) && now.nread <= HTTP_MAX_HEADER_SIZE
    requires Alike(Run(c, before), now, shift, slack)
    requires Roomy(c, before + piece + after, slack + 1)
    ensures !Exceeds(now, piece)
  {
    hide Valid, Upto, OverCount;
    var data := before + piece + after;
    forall k: nat | k <= |piece|
      ensures Alike(Upto(c, data, |before| + k), Upto(now, piece, k), shift, slack)
    {
      PieceAt(c, now, shift, slack, before, piece, k);
      UptoPrefix(c, before + piece, after, |before| + k);
    }
    forall k: nat | k < |piece|
      ensures !Crowded(now, piece, k)
    {
      assert RoomAt(c, data, |before| + k, slack + 1);
    }
    LimitAt(now, piece, |piece|);
    if OverCount(now, piece, |piece|) != 0 {
      OverInside(now, piece, |piece|);
      OverRuns(now, piece);
      if |before + piece| < |data| { assert RoomAt(c, data, |before + piece|, slack + 1); }
    }
  }

  lemma OverRuns(c: Config, data: string)
    requires Valid(c) && OverCount(c, data, |data|) != 0
    ensures Upto(c, data, |data|).live.Running?
  {
    hide Valid, Upto;
  }

  /** Give the parser the pieces one by one, until it stops. */
  method Feed(parser: HttpParser, pieces: seq<string>) returns (taken: nat, upgraded: bool)
    requires parser.Ready() && parser.fields.errno.OK?
    requires forall piece <- pieces :: piece != ""
    modifies parser
    ensures parser.Ready()
    ensures
      var r := Run(old(parser.Now()), Join(pieces));
      match parser.fields.errno
      case OK =>
        && !r.live.Failed? && parser.fields == r.p && parser.log == r.log && taken == r.used
        && (upgraded <==> r.live.Upgraded?) && !Exceeds(old(parser.Now()), Join(pieces))
      case HeaderOverflow => !upgraded && !Roomy(old(parser.Now()), Join(pieces), |pieces|)
      case _ => r.live.Failed? && parser.fields == r.p && taken == r.used && !upgraded
  {
    hide Valid, Upto, Inv, CountFits, Exceeds, Roomy, Emit, OverCount;
    ghost var c := parser.Now();
    taken, upgraded := 0, false;
    FedNothing(c);
    for i := 0 to |pieces|
      invariant parser.Ready() && parser.fields.errno.OK? && !upgraded
      invariant Alike(Run(c, Join(pieces[..i])), parser.Now(), taken, i)
      invariant !Exceeds(c, Join(pieces[..i]))
    {
      ghost var now := parser.Now();
      PieceTaken(c, now, taken, i, pieces, i);
      assert pieces[i] in pieces;
      var n;
      n, upgraded := parser.Execute(pieces[i]);
      if parser.fields.errno.OK? {
        NextPiece(c, now, taken, pieces, i);
      } else if parser.fields.errno.HeaderOverflow? {
        NoRoom(c, now, taken, pieces, i);
      }
      taken := taken + n;
      if !parser.fields.errno.OK? || upgraded { return; }
    }
    assert pieces[..|pieces|] == pieces;
  }

  lemma FedNothing(c: Config)
    requires Valid(c) && c.nread <= HTTP_MAX_HEADER_SIZE
    ensures Run(c, "") == c && !Exceeds(c, "")
  {
  }

  /** After a piece that does not exceed the limit. */
  lemma NextPiece(c: Config, now: Config, shift: nat, pieces: seq<string>, i: nat)
    requires Valid(c) && Valid(now) && c.nread <= HTTP_MAX_HEADER_SIZE && i < |pieces| && pieces[i] != ""
    requires Alike(Run(c, Join(pieces[..i])), now, shift, i)
    requires !Exceeds(c, Join(pieces[..i])) && !Exceeds(now, pieces[i])
    ensures !Exceeds(c, Join(pieces[..i + 1]))
    ensures !Run(now, pieces[i]).live.Running? ==> !Exceeds(c, Join(pieces))
  {
    hide Valid, Upto, OverCount, WithinLimit;
    assert pieces[..i + 1][..i] == pieces[..i];
    PieceFits(c, now, shift, i, Join(pieces[..i]), pieces[i]);
    PieceTaken(c, now, shift, i, pieces, i);
    if !Run(now, pieces[i]).live.Running? {
      var head, tail := Join(pieces[..i + 1]), Join(pieces[i + 1..]);
      JoinSplit(pieces, i + 1);
      WithinPrefix(c, head, tail);
      UptoPrefix(c, head, tail, |head|);
      StoppedWithin(c, Join(pieces), |head|);
    }
  }

  lemma NoRoom(c: Config, now: Config, shift: nat, pieces: seq<string>, i: nat)
    requires Valid(c) && Valid(now) && now.nread <= HTTP_MAX_HEADER_SIZE && i < |pieces|
    requires Alike(Run(c, Join(pieces[..i])), now, shift, i) && Exceeds(now, pieces[i])
    ensures !Roomy(c, Join(pieces), |pieces|)
  {
    hide Valid, Upto, Exceeds;
    if Roomy(c, Join(pieces), |pieces|) {
      assert pieces[..i + 1][..i] == pieces[..i];
      JoinSplit(pieces, i + 1);
      LessRoom(c, Join(pieces), |pieces|, i + 1);
      PieceRoomy(c, now, shift, i, Join(pieces[..i]), pieces[i], Join(pieces[i + 1..]));
      assert false;
    }
  }

  lemma LessRoom(c: Config, data: string, slack: nat, less: nat)
    requires Valid(c) && Roomy(c, data, slack) && less <= slack
    ensures Roomy(c, data, less)
  {
    hide Valid, Upto;
    forall k: nat | k < |data|
      ensures RoomAt(c, data, k, less)
    {
      assert RoomAt(c, data, k, slack);
    }
  }

  lemma RoomyFits(c: Config, data: string, slack: nat)
    requires Valid(c) && Roomy(c, data, slack) && slack > 0
    ensures !Exceeds(c, data)
  {
    hide Valid, Upto, OverCount;
    forall k: nat | k < |data|
      ensures !Crowded(c, data, k)
    {
      assert RoomAt(c, data, k, slack);
    }
  }

  /** Split independence: the same bytes in one buffer and in any non-empty pieces. If both
      runs end without error, every field but `nread` is the same, and so are the bytes
      taken, the exit to another protocol and the joined history of callbacks. Cutting can only
      lengthen the count of header bytes: if the pieces pass, so does the whole, and if there is
      room for one byte a piece, neither overflows and the two agree on every error. */
  method SplitIndependence(one: HttpParser, many: HttpParser, pieces: seq<string>)
    returns (taken: nat, upgraded: bool, taken': nat, upgraded': bool)
    requires one != many && one.Ready() && many.Ready()
    requires one.fields.errno.OK? && one.fields == many.fields && one.log == many.log
    requires pieces != [] && forall piece <- pieces :: piece != ""
    modifies one, many
    ensures one.fields.errno.OK? && many.fields.errno.OK?
            ==> one.fields == many.fields && one.log == many.log && taken == taken' && upgraded == upgraded'
    ensures !one.fields.errno.OK? && !one.fields.errno.HeaderOverflow? && !many.fields.errno.HeaderOverflow?
            ==> one.fields == many.fields && taken == taken'
    ensures old(one.nread) == old(many.nread) && many.fields.errno.OK? ==> one.fields.errno.OK?
    ensures old(one.nread) == old(many.nread) && Roomy(old(one.Now()), Join(pieces), |pieces|)
            ==> && !one.fields.errno.HeaderOverflow? && one.fields == many.fields
                && taken == taken' && upgraded == upgraded' && (one.fields.errno.OK? ==> one.log == many.log)
  {
    hide Valid, Upto, Inv, CountFits, Exceeds, Roomy, Emit;
    ghost var c, d := one.Now(), many.Now();
    var data := Join(pieces);
    if c.nread <= d.nread {
      UptoAlike(c, d, 0, d.nread - c.nread, data, |data|);
    } else {
      UptoAlike(d, c, 0, c.nread - d.nread, data, |data|);
    }
    assert data != "" by { assert pieces[|pieces| - 1] in pieces; }
    if Roomy(c, data, |pieces|) { RoomyFits(c, data, |pieces|); }
    taken, upgraded := one.Execute(data);
    taken', upgraded' := Feed(many, pieces);
  }
}
