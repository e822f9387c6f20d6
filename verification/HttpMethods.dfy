/** The recogniser of request methods, which guesses a method from the first byte and
    changes its guess at the bytes where names part, accepts exactly the listed names. */
module HttpMethods {
  import opened Wrappers
  import opened HttpTypes
  import opened HttpSwitch
  import opened HttpRun
  import opened HttpExecute

  /** The guess after `k` bytes of the name of `m`. */
  function Guess(m: Method, k: nat): Method {
    match m
    case CHECKOUT => if k < 2 then CONNECT else m
    case COPY => if k < 3 then CONNECT else m
    case MOVE | MERGE | MSEARCH => if k < 2 then MKCOL else m
    case MKACTIVITY => if k < 3 then MKCOL else m
    case MKCALENDAR => if k < 4 then MKCOL else m
    case SEARCH => if k < 2 then SUBSCRIBE else m
    case REBIND => if k < 3 then REPORT else m
    case PROPFIND | PUT | PATCH => if k < 2 then POST else m
    case PROPPATCH => if k < 2 then POST else if k < 5 then PROPFIND else m
    case PURGE => if k < 2 then POST else if k < 3 then PUT else m
    case UNSUBSCRIBE | UNBIND => if k < 3 then UNLOCK else m
    case _ => m
  }

  /** Every name leads the guess to its own method. */
  lemma GuessFirst(m: Method)
    ensures FirstMethod(MethodName(m)[0]) == Some(Guess(m, 1)) && Guess(m, |MethodName(m)|) == m
  {
  }

  predicate Follows(m: Method, k: nat)
    requires 1 <= k < |MethodName(m)|
  {
    var ch := MethodName(m)[k];
    if ch == CharAt(MethodName(Guess(m, k)), k) then Guess(m, k + 1) == Guess(m, k)
    else OtherMethod(Guess(m, k), k, ch) == Some(Guess(m, k + 1))
  }

  lemma GuessSecond(m: Method)
    requires 1 < |MethodName(m)|
    ensures Follows(m, 1)
  {
  }

  lemma GuessLater(m: Method, k: nat)
    requires 2 <= k < |MethodName(m)|
    ensures Follows(m, k)
  {
  }

  lemma FirstLetters(m: Method, k: nat)
    requires k < |MethodName(m)| && k < 4
    ensures MethodName(m)[k] != '\0' && MethodName(m)[k] != ' '
  {
  }

  lemma LastLetters(m: Method, k: nat)
    requires 4 <= k < |MethodName(m)|
    ensures MethodName(m)[k] != '\0' && MethodName(m)[k] != ' '
  {
  }

  lemma NameLetters(m: Method, k: nat)
    requires k < |MethodName(m)|
    ensures MethodName(m)[k] != '\0' && MethodName(m)[k] != ' '
  {
    hide MethodName;
    if k < 4 { FirstLetters(m, k); } else { LastLetters(m, k); }
  }

  /** The guess follows the name, whichever way the recogniser gets there. */
  lemma GuessNext(m: Method, k: nat)
    requires 1 <= k < |MethodName(m)|
    ensures MethodName(m)[k] != '\0' && MethodName(m)[k] != ' '
    ensures Follows(m, k)
  {
    hide MethodName, Guess, OtherMethod, Follows;
    NameLetters(m, k);
    if k == 1 { GuessSecond(m); } else { GuessLater(m, k); }
  }

  /** A change of guess agrees with the bytes read so far. */
  lemma OtherAgrees(m: Method, k: nat, ch: char)
    requires k <= |MethodName(m)| && OtherMethod(m, k, ch).Some?
    ensures
      var other := MethodName(OtherMethod(m, k, ch).value);
      k < |other| && other[..k] == MethodName(m)[..k] && other[k] == ch
  {
  }

  /* ---- The machine in the states that read a method ---- */

  lemma MethodStep(c: Config, ch: char)
    requires Valid(c) && c.live.Running? && c.p.state.ReqMethod?
    ensures
      var m := MethodMove(c.p, ch);
      if m.next.Advance? then Step(c, ch) == Config(m.p, c.log, c.nread + 1, c.used + 1, Running)
      else Step(c, ch).live.Failed?
  {
    hide MethodName, OtherMethod, Valid, Inv, CountFits, Rank, Fits, Emit;
    hide StartSwitch, ConstantSwitch, NumberSwitch, StatusSwitch, UrlSwitch, FieldMove, ValueMove, HeaderSwitch, EndSwitch, ChunkSwitch;
    CountedValid(c);
  }

  /** The fields at the start of a request. */
  function ForRequest(p: Parser): Parser {
    if p.state.StartReqOrRes? then Fresh(p).(kind := Request) else Fresh(p)
  }

  /** After the first byte of a message. */
  function Begun(c: Config, p: Parser): Config {
    Config(p, c.log + [Note(MessageBegin)], c.nread + 1, c.used + 1, Running)
  }

  lemma StartStep(c: Config, ch: char)
    requires Valid(c) && c.live.Running? && (c.p.state.StartReq? || c.p.state.StartReqOrRes?)
    requires ch != CR && ch != LF
    ensures
      var d := Step(c, ch);
      if c.p.state.StartReqOrRes? && ch == 'H' then d == Begun(c, Fresh(c.p).(state := ResOrRespH))
      else match FirstMethod(ch)
        case Some(m) => d == Begun(c, ForRequest(c.p).(verb := m, index := 1, state := ReqMethod))
        case None => d.live.Failed?
  {
    hide FirstMethod, Valid, Inv, CountFits, Rank, Fits, Emit, Dispatch;
    hide ConstantSwitch, NumberSwitch, StatusSwitch, MethodMove, UrlSwitch, FieldMove, ValueMove, HeaderSwitch, EndSwitch, ChunkSwitch;
    var b := c.(nread := c.nread + 1);
    CountedValid(c);
    TwoActs(c.log, Fire(MessageBegin), Fire(MessageBegin), ch);
    if Switch(b.p, ch).next.Again? {
      SwitchAgain(b, ch);
      SwitchEnds(After(b, Switch(b.p, ch), ch), ch);
    } else {
      SwitchEnds(b, ch);
    }
  }

  /** The states of "HTTP/1.1" at the start of a response. */
  predicate InResponseVersion(s: State) {
    s.ResHT? || s.ResHTT? || s.ResHTTP? || s.ResFirstHttpMajor? || s.ResHttpMajor? || s.ResFirstHttpMinor? || s.ResHttpMinor?
  }

  lemma ResponseStep(c: Config, ch: char)
    requires Valid(c) && c.live.Running?
    requires c.p.state.ResOrRespH? || InResponseVersion(c.p.state)
    ensures
      var d := Step(c, ch);
      if c.p.state.ResOrRespH? && ch == 'E'
      then d == Config(c.p.(kind := Request, verb := HEAD, index := 2, state := ReqMethod), c.log, c.nread + 1, c.used + 1, Running)
      else d.live.Running? ==> if ch == ' ' then d.p.state.ResFirstStatusCode? else InResponseVersion(d.p.state)
  {
    hide Valid, Inv, CountFits, Rank, Fits, Emit, Dispatch;
    hide StatusSwitch, MethodMove, UrlSwitch, FieldMove, ValueMove, HeaderSwitch, EndSwitch, ChunkSwitch;
    var b := c.(nread := c.nread + 1);
    CountedValid(c);
    SwitchEnds(b, ch);
  }

  /** Where the machine can stand after `k` bytes of a word without spaces. */
  ghost predicate InWord(p: Parser, w: string, k: nat)
    requires 1 <= k <= |w|
  {
    || (p.state.ReqMethod? && p.index == k && k <= |MethodName(p.verb)| && MethodName(p.verb)[..k] == w[..k])
    || (p.state.ResOrRespH? && k == 1 && w[0] == 'H')
    || InResponseVersion(p.state)
  }

  predicate Word(w: string) { w != "" && w[0] != CR && w[0] != LF && ' ' !in w }

  lemma FirstGuess(ch: char)
    ensures FirstMethod(ch).Some? ==> MethodName(FirstMethod(ch).value)[0] == ch
  {
  }

  /** Soundness: the bytes read so far are the first bytes of the guessed method's name. */
  lemma {:induction false} BytesMatchGuess(c: Config, w: string, k: nat)
    requires Valid(c) && c.live.Running? && (c.p.state.StartReq? || c.p.state.StartReqOrRes?)
    requires Word(w) && 1 <= k <= |w|
    requires Upto(c, w + " ", k).live.Running?
    ensures InWord(Upto(c, w + " ", k).p, w, k)
  {
    hide MethodName, FirstMethod, OtherMethod, Valid, Step;
    var ch := (w + " ")[k - 1];
    assert ch == w[k - 1];
    if k == 1 {
      assert Upto(c, w + " ", 0) == c;
      StartStep(c, ch);
      FirstGuess(ch);
      if FirstMethod(ch).Some? { NameShape(FirstMethod(ch).value); }
    } else {
      BytesMatchGuess(c, w, k - 1);
      var d := Upto(c, w + " ", k - 1);
      if d.p.state.ReqMethod? {
        MethodStep(d, ch);
        if OtherMethod(d.p.verb, d.p.index, ch).Some? { OtherAgrees(d.p.verb, d.p.index, ch); }
        assert w[..k] == w[..k - 1] + [ch];
      } else {
        ResponseStep(d, ch);
        if d.p.state.ResOrRespH? && ch == 'E' { HeadPrefix(w); }
      }
    }
  }

  lemma HeadPrefix(w: string)
    requires |w| >= 2 && w[0] == 'H' && w[1] == 'E'
    ensures MethodName(HEAD)[..2] == w[..2] && |MethodName(HEAD)| == 4
  {
  }

  /** Completeness: a name is followed to its end. */
  lemma {:induction false} NameIsFollowed(c: Config, m: Method, k: nat)
    requires Valid(c) && c.live.Running? && (c.p.state.StartReq? || c.p.state.StartReqOrRes?)
    requires 1 <= k <= |MethodName(m)|
    ensures
      var p := if c.p.state.StartReqOrRes? && m.HEAD? && k == 1 then Fresh(c.p).(state := ResOrRespH)
               else ForRequest(c.p).(verb := Guess(m, k), index := k, state := ReqMethod);
      Upto(c, MethodName(m) + " ", k)
      == Config(p, c.log + [Note(MessageBegin)], c.nread + k, c.used + k, Running)
  {
    hide MethodName, FirstMethod, OtherMethod, Valid, Step, Guess;
    var w := MethodName(m);
    var ch := (w + " ")[k - 1];
    assert ch == w[k - 1];
    NameShape(m);
    if k == 1 {
      assert Upto(c, w + " ", 0) == c;
      GuessFirst(m);
      StartStep(c, ch);
    } else {
      NameIsFollowed(c, m, k - 1);
      var d := Upto(c, w + " ", k - 1);
      if d.p.state.ResOrRespH? {
        ResponseStep(d, ch);
      } else {
        GuessNext(m, k - 1);
        MethodStep(d, ch);
      }
    }
  }

  lemma NameShape(m: Method)
    ensures |MethodName(m)| >= 3
    ensures MethodName(m)[0] != CR && MethodName(m)[0] != LF
    ensures MethodName(m)[0] == 'H' <==> m.HEAD?
    ensures m.HEAD? ==> MethodName(m)[1] == 'E' && Guess(m, 2) == HEAD
  {
  }

  /** The URL is reached after exactly the listed method names followed by a space, with the
      method that was named; HTTP_BOTH parsers take "HE" through their own state. */
  lemma MethodRecogniser(c: Config, w: string)
    requires Valid(c) && c.live.Running? && (c.p.state.StartReq? || c.p.state.StartReqOrRes?)
    requires Word(w)
    ensures
      var r := Run(c, w + " ");
      && (r.live.Running? && r.p.state.ReqSpacesBeforeUrl? ==> MethodName(r.p.verb) == w)
      && (forall m: Method :: MethodName(m) == w ==> r.live.Running? && r.p.state.ReqSpacesBeforeUrl? && r.p.verb == m)
  {
    hide MethodName, OtherMethod, FirstMethod, Valid, Step, Guess;
    var n := |w|;
    var d := Upto(c, w + " ", n);
    assert (w + " ")[n] == ' ';
    if d.live.Running? {
      BytesMatchGuess(c, w, n);
      if d.p.state.ReqMethod? {
        MethodStep(d, ' ');
        SpaceAfter(d.p, w);
      } else {
        ResponseStep(d, ' ');
      }
    }
    forall m: Method | MethodName(m) == w
      ensures Run(c, w + " ").live.Running? && Run(c, w + " ").p.state.ReqSpacesBeforeUrl? && Run(c, w + " ").p.verb == m
    {
      NameShape(m);
      NameIsFollowed(c, m, n);
      GuessFirst(m);
    }
  }

  /** The name of a method and a space lead to the URL, with the method that was named. */
  lemma MethodRun(c: Config, m: Method)
    requires Valid(c) && c.live.Running? && (c.p.state.StartReq? || c.p.state.StartReqOrRes?)
    ensures
      var n := |MethodName(m)| + 1;
      Run(c, MethodName(m) + " ")
      == Config(ForRequest(c.p).(verb := m, index := n, state := ReqSpacesBeforeUrl),
                c.log + [Note(MessageBegin)], c.nread + n, c.used + n, Running)
  {
    hide MethodName, OtherMethod, FirstMethod, Valid, Step, Guess;
    var w := MethodName(m);
    assert (w + " ")[|w|] == ' ';
    NameShape(m);
    GuessFirst(m);
    NameIsFollowed(c, m, |w|);
    var d := Upto(c, w + " ", |w|);
    MethodStep(d, ' ');
    SpaceAfter(d.p, w);
  }

  /** A space is accepted only at the end of the guessed name. */
  lemma SpaceAfter(p: Parser, w: string)
    requires p.index == |w| <= |MethodName(p.verb)| && MethodName(p.verb)[..|w|] == w
    ensures
      var m := MethodMove(p, ' ');
      if MethodName(p.verb) == w then m == To(p.(index := p.index + 1), ReqSpacesBeforeUrl)
      else m.next.Stop? || m.p.state == p.state
  {
    hide OtherMethod, MethodName;
    if |w| < |MethodName(p.verb)| { NameLetters(p.verb, |w|); }
  }
}
