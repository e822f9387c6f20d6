/** The recogniser of `Connection` values: which of the listed words it takes notice of. */
module HttpConnections {
  import opened Wrappers
  import opened HttpTypes
  import opened HttpSwitch
  import opened HttpRun
  import opened HttpExecute
  import opened HttpChunked
  import opened HttpHeaders

  /* ---- The words ---- */

  datatype Word = KeepAliveWord | CloseWord | UpgradeWord

  function Text(w: Word): string {
    match w
    case KeepAliveWord => "keep-alive"
    case CloseWord => "close"
    case UpgradeWord => "upgrade"
  }

  function Matching(w: Word): HeaderState {
    match w
    case KeepAliveWord => MatchingKeepAlive
    case CloseWord => MatchingClose
    case UpgradeWord => MatchingConnUpgrade
  }

  function Done(w: Word): HeaderState {
    match w
    case KeepAliveWord => ConnKeepAlive
    case CloseWord => ConnClose
    case UpgradeWord => ConnUpgrade
  }

  predicate SetIn(f: Flags, w: Word) {
    match w
    case KeepAliveWord => f.keepAlive
    case CloseWord => f.close
    case UpgradeWord => f.connUpgrade
  }

  /** An element of the list so far: a part of a word, or the word, perhaps with spaces behind it. */
  predicate Partial(t: string, w: Word) { 0 < |t| < |Text(w)| && Lowers(t) <= Text(w) }

  predicate Whole(t: string, w: Word) {
    && |t| >= |Text(w)| && Lowers(t[..|Text(w)|]) == Text(w)
    && forall i :: |Text(w)| <= i < |t| ==> t[i] == ' '
  }

  predicate SomePartial(t: string) { exists w: Word :: Partial(t, w) }

  /** What is skipped before an element: spaces, and NUL, which `LOWER` makes a space; not a
      tab, which it makes a parenthesis. */
  predicate Skips(ch: char) { ch == ' ' || ch == '\0' }

  function Skipped(t: string): string { if t != "" && Skips(t[0]) then Skipped(t[1..]) else t }

  /** The element that the last byte of a list belongs to. */
  function Element(v: string): string { Skipped(LastItem(v)) }

  /* ---- How the parser listens ---- */

  /** It listens, or not before the next comma, or not any more. */
  datatype Hearing = Open | Shut | Deaf

  predicate StartsToken(ch: char) { Token(Lower(ch)) != '\0' }

  /** The comma that breaks off a part of a word is swallowed, and the element behind it goes
      unheard; after an element that is empty or does not start like a token, all do. */
  function Ear(v: string): Hearing {
    if v == "" then Open
    else
      var (w, ch) := (v[..|v| - 1], v[|v| - 1]);
      match Ear(w)
      case Deaf => Deaf
      case Shut => if ch == ',' then Open else Shut
      case Open =>
        if w == "" then if ch == ',' || ch == '\0' then Shut else Open
        else if ch == ',' then if Element(w) == "" then Deaf else if SomePartial(Element(w)) then Shut else Open
        else if Element(w) == "" && !Skips(ch) && !StartsToken(ch) then Deaf else Open
  }

  /** The words that were heard before the last comma. */
  predicate HeardBefore(v: string, word: Word) {
    v != ""
    && var (w, ch) := (v[..|v| - 1], v[|v| - 1]);
       HeardBefore(w, word) || (ch == ',' && Ear(w).Open? && Whole(Element(w), word))
  }

  predicate Heard(v: string, word: Word) { HeardBefore(v, word) || (Ear(v).Open? && Whole(Element(v), word)) }

  /* ---- What the list says ---- */

  function TrimBlanks(t: string): string {
    if t != "" && IsBlank(t[|t| - 1]) then TrimBlanks(t[..|t| - 1]) else TrimStart(t)
  }

  /** An element, without the blanks around it, is the word in any case. */
  predicate Names(item: string, word: Word) { Lowers(TrimBlanks(item)) == Text(word) }

  predicate SaidBefore(v: string, word: Word) {
    v != ""
    && var (w, ch) := (v[..|v| - 1], v[|v| - 1]);
       SaidBefore(w, word) || (ch == ',' && Names(LastItem(w), word))
  }

  /** One of the elements of the list is the word. */
  predicate Said(v: string, word: Word) { SaidBefore(v, word) || Names(LastItem(v), word) }

  /** A list without NUL and tabs, without empty elements, without elements that do not start
      like a token, and without elements before a comma that are only a part of a word. */
  predicate Clean(v: string) {
    && (v != "" ==> v[0] != ',') && '\0' !in v && '\t' !in v
    && forall k: nat :: 0 < k < |v| ==> CleanAt(v, k)
  }

  predicate CleanAt(v: string, k: nat)
    requires 0 < k < |v|
  {
    var t := Element(v[..k]);
    if v[k] == ',' then t != "" && !SomePartial(t) else t == "" && v[k] != ' ' ==> StartsToken(v[k])
  }

  lemma {:induction false} SpacesBehind(t: string, word: Word)
    requires Whole(t, word)
    ensures Lowers(TrimBlanks(t)) == Text(word)
    decreases |t|
  {
    TextStarts(word);
    if |t| > |Text(word)| {
      assert t[..|t| - 1][..|Text(word)|] == t[..|Text(word)|];
      SpacesBehind(t[..|t| - 1], word);
    } else {
      assert t[..|Text(word)|] == t;
      NoBlankEnds(t, word);
    }
  }

  lemma NoBlankEnds(t: string, word: Word)
    requires Lowers(t) == Text(word)
    ensures t != "" && !IsBlank(t[0]) && !IsBlank(t[|t| - 1])
  {
    TextStarts(word);
    LowersFirst(t);
    BlankLowers(t[0]);
    BlankLowers(t[|t| - 1]);
  }

  lemma BlankLowers(ch: char)
    ensures IsBlank(ch) ==> Lower(ch) == ' ' || Lower(ch) == ')'
  {
  }

  /** Spaces in front of an element make no difference to its name. */
  lemma {:induction false} SkippedNames(item: string, word: Word)
    requires '\0' !in item
    ensures Whole(Skipped(item), word) ==> Names(item, word)
    decreases |item|
  {
    if item != "" && Skips(item[0]) {
      assert item[0] in item && forall ch <- item[1..] :: ch in item;
      SkippedNames(item[1..], word);
      if Whole(Skipped(item), word) { BlankInFront(item); }
    } else if Whole(item, word) {
      SpacesBehind(item, word);
    }
  }

  lemma {:induction false} BlankInFront(t: string)
    requires t != "" && IsBlank(t[0])
    ensures TrimBlanks(t) == TrimBlanks(t[1..])
    decreases |t|
  {
    if |t| > 1 && IsBlank(t[|t| - 1]) {
      assert t[..|t| - 1][1..] == t[1..][..|t[1..]| - 1];
      BlankInFront(t[..|t| - 1]);
    }
  }

  lemma LastItemPart(v: string, ch: char)
    requires ch !in v
    ensures ch !in LastItem(v)
  {
  }

  /** Nothing is heard that was not said. */
  lemma {:induction false} HeardWasSaid(v: string, word: Word)
    requires '\0' !in v
    ensures HeardBefore(v, word) ==> SaidBefore(v, word)
    ensures Heard(v, word) ==> Said(v, word)
  {
    hide Ear, Whole, Skipped, LastItem, Names;
    LastItemPart(v, '\0');
    SkippedNames(LastItem(v), word);
    if v != "" {
      var w := v[..|v| - 1];
      assert forall ch <- w :: ch in v;
      LastItemPart(w, '\0');
      SkippedNames(LastItem(w), word);
      HeardWasSaid(w, word);
    }
  }

  lemma {:induction false} NamedWhole(t: string, word: Word)
    requires Names(t, word) && '\t' !in t && (t == "" || t[0] != ' ')
    ensures Whole(t, word)
    decreases |t|
  {
    TextStarts(word);
    if t == "" {
      assert false;
    } else if IsBlank(t[|t| - 1]) {
      var u := t[..|t| - 1];
      assert t[|t| - 1] in t && forall ch <- u :: ch in t;
      assert u == "" || u[0] == t[0];
      NamedWhole(u, word);
      assert t[..|Text(word)|] == u[..|Text(word)|];
    } else {
      assert t[0] in t;
      assert TrimBlanks(t) == t && t[..|Text(word)|] == t by { LowersSize(t, word); }
    }
  }

  lemma LowersSize(t: string, word: Word)
    requires t != "" && !IsBlank(t[0]) && !IsBlank(t[|t| - 1]) && Names(t, word)
    ensures |t| == |Text(word)|
  {
  }

  lemma {:induction false} SkippedNamesBack(item: string, word: Word)
    requires '\0' !in item && '\t' !in item && Names(item, word)
    ensures Whole(Skipped(item), word)
    decreases |item|
  {
    if item != "" && Skips(item[0]) {
      assert item[0] in item && forall ch <- item[1..] :: ch in item;
      BlankInFront(item);
      SkippedNamesBack(item[1..], word);
    } else {
      NamedWhole(item, word);
    }
  }

  lemma {:induction false} CleanOpens(v: string, k: nat)
    requires Clean(v) && k <= |v|
    ensures Ear(v[..k]).Open?
  {
    hide Element, SomePartial, StartsToken;
    if k > 0 {
      CleanOpens(v, k - 1);
      assert v[..k][..k - 1] == v[..k - 1] && v[..k][k - 1] == v[k - 1];
      assert v[k - 1] in v;
      if k > 1 { assert CleanAt(v, k - 1); }
    }
  }

  lemma CleanElement(v: string, k: nat, word: Word)
    requires '\0' !in v && '\t' !in v && k <= |v|
    ensures Whole(Element(v[..k]), word) <==> Names(LastItem(v[..k]), word)
  {
    hide Whole, Names, LastItem, Skipped;
    var item := LastItem(v[..k]);
    assert forall ch <- v[..k] :: ch in v;
    LastItemPart(v[..k], '\0');
    LastItemPart(v[..k], '\t');
    SkippedNames(item, word);
    if Names(item, word) { SkippedNamesBack(item, word); }
  }

  lemma {:induction false} CleanHears(v: string, k: nat, word: Word)
    requires Clean(v) && k <= |v|
    ensures HeardBefore(v[..k], word) <==> SaidBefore(v[..k], word)
  {
    hide Ear, Element, Whole, CleanAt, Names, LastItem;
    if k > 0 {
      CleanHears(v, k - 1, word);
      CleanOpens(v, k - 1);
      CleanElement(v, k - 1, word);
      assert v[..k][..k - 1] == v[..k - 1] && v[..k][k - 1] == v[k - 1];
    }
  }

  /** A clean list is heard as it was said. */
  lemma CleanIsHeard(v: string, word: Word)
    requires Clean(v)
    ensures Heard(v, word) <==> Said(v, word)
  {
    hide Ear, Element, Whole, HeardBefore, SaidBefore, Names, CleanAt, LastItem;
    assert v[..|v|] == v;
    CleanOpens(v, |v|);
    CleanHears(v, |v|, word);
    CleanElement(v, |v|, word);
  }

  /* ---- The recogniser ---- */

  /** The header_state that belongs to an element that is listened to. */
  ghost predicate Listens(h: HeaderState, index: nat, t: string) {
    && (h.MatchingTokenStart? || h.MatchingToken? || exists w: Word :: h == Matching(w) || h == Done(w))
    && (h.MatchingTokenStart? <==> t == "")
    && (t == "" ==> index == 0)
    && (forall w: Word :: (h == Matching(w) <==> Partial(t, w)) && (h == Done(w) <==> Whole(t, w)))
    && (forall w: Word :: Partial(t, w) ==> index == |t| - 1)
  }

  ghost predicate EarState(h: HeaderState, index: nat, v: string) {
    match Ear(v)
    case Open => Listens(h, index, Element(v))
    case Shut => h.MatchingToken?
    case Deaf => h.General?
  }

  ghost predicate FlagsHeard(f: Flags, g: Flags, v: string) {
    && f.chunked == g.chunked && f.upgrade == g.upgrade && f.trailing == g.trailing
    && forall w: Word :: SetIn(g, w) <==> SetIn(f, w) || HeardBefore(v, w)
  }

  /* ---- Elements, byte by byte ---- */

  lemma LowersMore(t: string, ch: char)
    ensures Lowers(t + [ch]) == Lowers(t) + [Lower(ch)]
  {
    assert (t + [ch])[..|t|] == t;
  }

  lemma TextStarts(w: Word)
    ensures |Text(w)| >= 5
    ensures Text(w)[0] == match w case KeepAliveWord => 'k' case CloseWord => 'c' case UpgradeWord => 'u'
    ensures forall i :: 0 <= i < |Text(w)| ==> Text(w)[i] != ',' && Text(w)[i] != ' '
  {
  }

  /** An element is part of one word at most. */
  lemma OneWord(t: string, w: Word, x: Word)
    requires t != "" && (Partial(t, w) || Whole(t, w)) && (Partial(t, x) || Whole(t, x))
    ensures w == x
  {
    FirstLetter(t, w);
    FirstLetter(t, x);
    TextStarts(w);
    TextStarts(x);
  }

  lemma FirstLetter(t: string, w: Word)
    requires t != "" && (Partial(t, w) || Whole(t, w))
    ensures Lower(t[0]) == Text(w)[0]
  {
    hide Lower;
    TextStarts(w);
    var u := if Partial(t, w) then t else t[..|Text(w)|];
    LowersFirst(u);
  }

  lemma {:induction false} LowersFirst(t: string)
    requires t != ""
    ensures Lowers(t)[0] == Lower(t[0])
  {
    if |t| > 1 { LowersFirst(t[..|t| - 1]); }
  }

  /** One more byte of an element: a part of a word goes on, is finished, or is no part any more. */
  lemma WordMore(t: string, ch: char, w: Word)
    requires t != ""
    ensures Partial(t + [ch], w) <==> Partial(t, w) && |t| + 1 < |Text(w)| && Lower(ch) == Text(w)[|t|]
    ensures Whole(t + [ch], w) <==> (Partial(t, w) && |t| + 1 == |Text(w)| && Lower(ch) == Text(w)[|t|]) || (Whole(t, w) && ch == ' ')
  {
    hide Lower, Text;
    var u := t + [ch];
    LowersMore(t, ch);
    if |u| <= |Text(w)| {
      PrefixMore(Lowers(t), Lower(ch), Text(w));
      assert |u| == |Text(w)| ==> u[..|Text(w)|] == u && (Lowers(u) <= Text(w) <==> Lowers(u) == Text(w));
    } else {
      assert u[..|Text(w)|] == t[..|Text(w)|];
      assert u[|t|] == ch;
      assert forall i :: |Text(w)| <= i < |t| ==> u[i] == t[i];
    }
  }

  lemma WordBegins(ch: char, w: Word)
    ensures Partial([ch], w) <==> Lower(ch) == Text(w)[0]
    ensures !Whole([ch], w)
  {
    TextStarts(w);
    hide Lower, Text;
    LowersMore("", ch);
    assert "" + [ch] == [ch] && Lowers("") == "";
    PrefixMore("", Lower(ch), Text(w));
    assert "" + [Lower(ch)] == [Lower(ch)];
  }

  lemma MatchingStates(h: HeaderState, w: Word, x: Word)
    ensures h == Matching(w) && h == Matching(x) ==> w == x
    ensures h == Done(w) && h == Done(x) ==> w == x
    ensures Matching(w) != Done(x)
    ensures !Matching(w).MatchingToken? && !Done(w).MatchingToken? && !Matching(w).MatchingTokenStart? && !Done(w).MatchingTokenStart?
  {
  }

  /** The switch at a part of a word. */
  lemma MatchingByte(w: Word, index: nat, f: Flags, ch: char)
    requires index + 1 < |Text(w)|
    ensures
      var c := Lower(ch);
      ValueByte(Matching(w), index, f, ch)
      == (if c != Text(w)[index + 1] then MatchingToken else if index + 2 == |Text(w)| then Done(w) else Matching(w), index + 1, f)
  {
    hide Lower;
  }

  lemma DoneByte(w: Word, index: nat, f: Flags, ch: char)
    ensures
      ValueByte(Done(w), index, f, ch)
      == if ch == ',' then (MatchingTokenStart, 0, ValueDone(f, Done(w)))
         else (if ch == ' ' then Done(w) else MatchingToken, index, f)
  {
    hide Lower;
  }

  lemma TokenByte(index: nat, f: Flags, ch: char)
    ensures ValueByte(MatchingToken, index, f, ch) == if ch == ',' then (MatchingTokenStart, 0, f) else (MatchingToken, index, f)
  {
    hide Lower;
  }

  lemma StartByte(index: nat, f: Flags, ch: char)
    ensures
      ValueByte(MatchingTokenStart, index, f, ch)
      == (if StartsToken(ch) then ConnectionToken(Lower(ch)) else if Skips(ch) then MatchingTokenStart else General, index, f)
  {
    Letters(ch);
    hide Lower, Token;
  }

  lemma Letters(ch: char)
    ensures Lower(ch) == 'k' || Lower(ch) == 'c' || Lower(ch) == 'u' ==> StartsToken(ch)
    ensures Lower(ch) != '\t' && (Lower(ch) == ' ' <==> Skips(ch))
    ensures Skips(ch) || ch == ',' ==> !StartsToken(ch)
  {
  }

  /** The first byte of an element. */
  lemma Begins(ch: char)
    requires !Skips(ch)
    ensures Listens(ConnectionToken(Lower(ch)), 0, [ch])
  {
    forall w: Word
      ensures Partial([ch], w) <==> Lower(ch) == Text(w)[0]
      ensures !Whole([ch], w)
    {
      WordBegins(ch, w);
    }
    TextStarts(KeepAliveWord);
    TextStarts(CloseWord);
    TextStarts(UpgradeWord);
    hide Lower, Partial, Whole, Text;
    assert Lower(ch) == 'k' ==> ConnectionToken(Lower(ch)) == Matching(KeepAliveWord);
    assert Lower(ch) == 'c' ==> ConnectionToken(Lower(ch)) == Matching(CloseWord);
    assert Lower(ch) == 'u' ==> ConnectionToken(Lower(ch)) == Matching(UpgradeWord);
  }

  /** A further byte of an element. */
  lemma GoesOn(h: HeaderState, index: nat, f: Flags, t: string, ch: char)
    requires t != "" && Listens(h, index, t) && ch != ','
    ensures
      var (h', i, f') := ValueByte(h, index, f, ch);
      Listens(h', i, t + [ch]) && f' == f
  {
    hide Lower, Partial, Whole, Text, ValueByte;
    forall w: Word
      ensures Partial(t + [ch], w) <==> Partial(t, w) && |t| + 1 < |Text(w)| && Lower(ch) == Text(w)[|t|]
      ensures Whole(t + [ch], w)
              <==> (Partial(t, w) && |t| + 1 == |Text(w)| && Lower(ch) == Text(w)[|t|]) || (Whole(t, w) && ch == ' ')
    {
      WordMore(t, ch, w);
    }
    if x: Word :| h == Matching(x) {
      OnlyWord(t, x);
      PartialSize(t, x);
      MatchingByte(x, index, f, ch);
    } else if x: Word :| h == Done(x) {
      OnlyWord(t, x);
      DoneByte(x, index, f, ch);
    } else {
      TokenByte(index, f, ch);
    }
  }

  lemma PartialSize(t: string, w: Word)
    requires Partial(t, w)
    ensures 0 < |t| < |Text(w)|
  {
  }

  lemma OnlyWord(t: string, x: Word)
    requires t != "" && (Partial(t, x) || Whole(t, x))
    ensures forall w: Word :: w != x ==> !Partial(t, w) && !Whole(t, w)
    ensures !(Partial(t, x) && Whole(t, x))
  {
    forall w: Word | w != x
      ensures !Partial(t, w) && !Whole(t, w)
    {
      if Partial(t, w) || Whole(t, w) { OneWord(t, w, x); }
    }
  }

  /** The comma behind an element. */
  lemma Ends(h: HeaderState, index: nat, f: Flags, t: string)
    requires Listens(h, index, t)
    ensures
      var (h', i, f') := ValueByte(h, index, f, ',');
      && (if t == "" then h'.General? else if SomePartial(t) then h'.MatchingToken? else Listens(h', i, ""))
      && f'.chunked == f.chunked && f'.upgrade == f.upgrade && f'.trailing == f.trailing
      && forall w: Word :: SetIn(f', w) <==> SetIn(f, w) || Whole(t, w)
  {
    NothingYet();
    hide Lower, Partial, Whole, Text, ValueByte;
    if t == "" {
      StartByte(index, f, ',');
      Letters(',');
    } else if x: Word :| h == Matching(x) {
      OnlyWord(t, x);
      PartialSize(t, x);
      NoCommaIn(x, |t|);
      MatchingByte(x, index, f, ',');
    } else if x: Word :| h == Done(x) {
      OnlyWord(t, x);
      DoneByte(x, index, f, ',');
      DoneSets(f, x);
    } else {
      TokenByte(index, f, ',');
    }
  }

  lemma DoneSets(f: Flags, x: Word)
    ensures
      var g := ValueDone(f, Done(x));
      && g.chunked == f.chunked && g.upgrade == f.upgrade && g.trailing == f.trailing
      && forall w: Word :: SetIn(g, w) <==> SetIn(f, w) || w == x
  {
  }

  lemma NoCommaIn(w: Word, i: nat)
    requires i < |Text(w)|
    ensures Text(w)[i] != Lower(',')
  {
    TextStarts(w);
  }

  lemma NothingYet()
    ensures forall w: Word :: !Partial("", w) && !Whole("", w)
  {
    forall w: Word ensures !Partial("", w) && !Whole("", w) { TextStarts(w); }
  }

  lemma {:induction false} SkippedMore(t: string, ch: char)
    ensures Skipped(t + [ch]) == if Skipped(t) == "" then if Skips(ch) then "" else [ch] else Skipped(t) + [ch]
    decreases |t|
  {
    if t != "" && Skips(t[0]) {
      assert (t + [ch])[1..] == t[1..] + [ch];
      SkippedMore(t[1..], ch);
    } else if t == "" {
      assert t + [ch] == [ch] && [ch][1..] == "";
    }
  }

  lemma ElementMore(v: string, ch: char)
    ensures ch == ',' ==> Element(v + [ch]) == ""
    ensures ch != ',' ==> Element(v + [ch]) == if Element(v) == "" then if Skips(ch) then "" else [ch] else Element(v) + [ch]
  {
    assert (v + [ch])[..|v|] == v;
    SkippedMore(LastItem(v), ch);
  }

  /** One more byte of the list. */
  lemma HearsMore(h: HeaderState, index: nat, f: Flags, g: Flags, v: string, ch: char)
    requires v != "" && EarState(h, index, v) && FlagsHeard(f, g, v)
    ensures
      var (h', i, g') := ValueByte(h, index, g, ch);
      EarState(h', i, v + [ch]) && FlagsHeard(f, g', v + [ch]) && !h.ContentLength?
  {
    hide Listens, Element, Whole, Partial, ValueByte, SetIn, StartsToken, Skips, SomePartial;
    var t := Element(v);
    assert (v + [ch])[..|v|] == v && (v + [ch])[|v|] == ch;
    ElementMore(v, ch);
    match Ear(v) {
      case Deaf => GeneralByte(index, g, ch);
      case Shut =>
        TokenByte(index, g, ch);
        NothingHeard();
      case Open =>
        ListensToNoLength(h, index, t);
        if ch == ',' {
          Ends(h, index, g, t);
        } else if t == "" {
          Empty(h, index);
          StartByte(index, g, ch);
          Letters(ch);
          if !Skips(ch) { Begins(ch); }
        } else {
          GoesOn(h, index, g, t, ch);
        }
    }
  }

  lemma GeneralByte(index: nat, f: Flags, ch: char)
    ensures ValueByte(General, index, f, ch) == (General, index, f)
  {
    hide Lower;
  }

  lemma NothingHeard()
    ensures Listens(MatchingTokenStart, 0, "")
  {
    NothingYet();
    hide Partial, Whole;
  }

  lemma Empty(h: HeaderState, index: nat)
    requires Listens(h, index, "")
    ensures h.MatchingTokenStart? && index == 0
  {
  }

  lemma ListensToNoLength(h: HeaderState, index: nat, t: string)
    requires Listens(h, index, t)
    ensures !h.ContentLength?
  {
    hide Partial, Whole;
  }

  /* ---- A swallowed comma ---- */

  lemma {:induction false} PartOf(part: string, word: Word, k: nat)
    requires Partial(part, word) && 1 <= k <= |part|
    ensures Partial(part[..k], word)
    decreases |part| - k
  {
    hide Partial, Whole, Text;
    if k == |part| {
      assert part[..k] == part;
    } else {
      PartOf(part, word, k + 1);
      assert part[..k + 1] == part[..k] + [part[k]];
      WordMore(part[..k], part[k], word);
    }
  }

  lemma {:induction false} EarOfPart(part: string, word: Word, k: nat)
    requires Partial(part, word) && 1 <= k <= |part|
    ensures Ear(part[..k]).Open? && Element(part[..k]) == part[..k]
  {
    hide Partial, Whole, Text, StartsToken, SomePartial, Skips;
    var (w, ch) := (part[..k - 1], part[k - 1]);
    assert part[..k] == w + [ch] && part[..k][..k - 1] == w;
    PartOf(part, word, k);
    ElementMore(w, ch);
    if k == 1 {
      assert w == "" && Element("") == "" && part[..1] == [ch];
      FirstLetter([ch], word);
      TextStarts(word);
      WordLetter(ch, word, 0);
      FirstEar(ch);
    } else {
      EarOfPart(part, word, k - 1);
      WordMore(w, ch, word);
      WordLetter(ch, word, k - 1);
    }
  }

  lemma WordLetter(ch: char, word: Word, i: nat)
    requires i < |Text(word)| && Lower(ch) == Text(word)[i]
    ensures ch != ',' && !Skips(ch) && ch != '\0'
  {
    TextStarts(word);
  }

  lemma {:induction false} ShutStays(v: string, item: string, w: Word)
    requires Ear(v).Shut? && ',' !in item
    ensures Ear(v + item).Shut? && (HeardBefore(v + item, w) <==> HeardBefore(v, w))
    decreases |item|
  {
    hide Element, Whole, StartsToken, SomePartial;
    if item == "" {
      assert v + item == v;
    } else {
      var k := |item| - 1;
      assert item[k] in item && forall ch <- item[..k] :: ch in item;
      ShutStays(v, item[..k], w);
      assert (v + item)[..|v + item| - 1] == v + item[..k];
    }
  }

  lemma {:induction false} NothingBeforeComma(v: string, w: Word)
    requires ',' !in v
    ensures !HeardBefore(v, w)
  {
    hide Ear, Element, Whole;
    if v != "" {
      assert v[|v| - 1] in v && forall ch <- v[..|v| - 1] :: ch in v;
      NothingBeforeComma(v[..|v| - 1], w);
    }
  }

  /** Behind an element that is only a part of a word, a list of two goes unheard. */
  lemma Swallowed(part: string, word: Word, item: string, w: Word)
    requires Partial(part, word) && ',' !in part && ',' !in item
    ensures !Heard((part + ",") + item, w)
  {
    hide Partial, Whole, Text, Element, StartsToken;
    var v := part + ",";
    assert part[..|part|] == part && v[..|v| - 1] == part;
    PartialSize(part, word);
    EarOfPart(part, word, |part|);
    NothingBeforeComma(part, w);
    OnlyWord(part, word);
    PartialIsNotWhole(part, word, w);
    ShutStays(v, item, w);
  }

  lemma PartialIsNotWhole(t: string, word: Word, w: Word)
    requires Partial(t, word) && t != ""
    ensures !Whole(t, w)
  {
    hide Partial, Whole, Text;
    OnlyWord(t, word);
  }

  /** "clo, close" says "close", and it is not heard. */
  lemma SwallowedExample()
    ensures Said("clo, close", CloseWord) && !Heard("clo, close", CloseWord)
  {
    var value := ("clo" + ",") + " close";
    AlreadyLower("clo");
    AlreadyLower("close");
    hide Lower, Lowers, LastItem, SaidBefore, Heard, TrimBlanks;
    assert "clo, close" == value;
    BehindComma("clo", " close");
    assert Partial("clo", CloseWord);
    Swallowed("clo", CloseWord, " close", CloseWord);
    SpaceTrimmed();
  }

  lemma SpaceTrimmed()
    ensures TrimBlanks(" close") == "close"
  {
    assert " close"[1..] == "close";
  }

  /* ---- The value in the machine ---- */

  lemma FirstSwitch(p: Parser, ch: char)
    requires p.state.HeaderValueDiscardWs? && p.header.Connection? && ch != ' ' && ch != '\t' && ch != CR && ch != LF
    ensures Switch(p, ch) == Move(p.(state := HeaderValue, index := 0, header := ConnectionToken(Lower(ch))), [Mark(Value), Byte(Value)], Advance)
  {
    hide Lower, ConnectionToken;
  }

  lemma FirstStep(c: Config, ch: char)
    requires Valid(c) && c.live.Running? && c.p.state.HeaderValueDiscardWs? && c.p.header.Connection?
    requires ch != ' ' && ch != '\t' && ch != CR && ch != LF
    ensures Step(c, ch) == Config(c.p.(state := HeaderValue, index := 0, header := ConnectionToken(Lower(ch))),
                                  Emit(c.log, Data(Value, [ch])), c.nread + 1, c.used + 1, Running)
  {
    hide Valid, Inv, Switch, Emit, Lower, ConnectionToken;
    FirstSwitch(c.p, ch);
    OneTrip(c, ch);
    TwoActs(c.log, Mark(Value), Byte(Value), ch);
    EmitInPieces(c.log, Value, "", [ch]);
    assert "" + [ch] == [ch];
  }

  lemma FirstHeard(f: Flags, ch: char)
    requires ch != ' '
    ensures EarState(ConnectionToken(Lower(ch)), 0, [ch]) && FlagsHeard(f, f, [ch])
  {
    FirstEar(ch);
    FirstNothing(ch);
    hide HeardBefore, Ear, Lower, ConnectionToken, Partial, Whole, Text;
    assert [ch][..0] == "";
    assert "" + [ch] == [ch];
    ElementMore("", ch);
    assert Element("") == "";
    NothingYet();
    if ch == ',' || ch == '\0' {
      OtherFirst(ch);
    } else {
      Begins(ch);
    }
  }

  lemma FirstEar(ch: char)
    ensures Ear([ch]) == if ch == ',' || ch == '\0' then Shut else Open
  {
    assert [ch][..0] == "";
    assert Ear("") == Open;
  }

  lemma FirstNothing(ch: char)
    ensures forall w: Word :: !HeardBefore([ch], w)
  {
    NothingYet();
    hide Partial, Whole, Ear;
    assert [ch][..0] == "" && Element("") == "";
    forall w: Word ensures !HeardBefore([ch], w) { assert !HeardBefore("", w) && !Whole("", w); }
  }

  lemma OtherFirst(ch: char)
    requires ch == ',' || ch == '\0'
    ensures ConnectionToken(Lower(ch)).MatchingToken?
  {
  }

  lemma {:induction false} ConnectionUpto(c: Config, v: string, k: nat)
    requires Valid(c) && c.live.Running? && c.p.state.HeaderValueDiscardWs? && c.p.header.Connection?
    requires OneLine(v) && 1 <= k <= |v|
    ensures
      var d := Upto(c, v, k);
      && d == Config(c.p.(state := HeaderValue, header := d.p.header, index := d.p.index, flags := d.p.flags),
                     Emit(c.log, Data(Value, v[..k])), c.nread + k, c.used + k, Running)
      && EarState(d.p.header, d.p.index, v[..k]) && FlagsHeard(c.p.flags, d.p.flags, v[..k])
  {
    hide Valid, Inv, Step, Emit, EarState, FlagsHeard, ValueByte, Lower, LengthByte, ConnectionToken;
    var ch := v[k - 1];
    assert ch in v;
    assert v[..k] == v[..k - 1] + [ch];
    if k == 1 {
      AtStart(c, v);
      FirstStep(c, ch);
      assert v[..1] == [ch];
      FirstHeard(c.p.flags, ch);
    } else {
      ConnectionUpto(c, v, k - 1);
      var d := Upto(c, v, k - 1);
      HearsMore(d.p.header, d.p.index, c.p.flags, d.p.flags, v[..k - 1], ch);
      ValueStep(d, ch);
      EmitInPieces(c.log, Value, v[..k - 1], [ch]);
    }
  }

  /** The flags once the words that are heard in a value are set. */
  function HeardFlags(f: Flags, v: string): Flags {
    f.(keepAlive := f.keepAlive || Heard(v, KeepAliveWord), close := f.close || Heard(v, CloseWord),
       connUpgrade := f.connUpgrade || Heard(v, UpgradeWord))
  }

  lemma LastWord(f: Flags, g: Flags, h: HeaderState, index: nat, v: string)
    requires EarState(h, index, v) && FlagsHeard(f, g, v)
    ensures ValueDone(g, h) == HeardFlags(f, v)
  {
    hide Partial, Whole, Element, Text, HeardBefore, Ear, SetIn, ValueDone, HeardFlags;
    var r := ValueDone(g, h);
    DoneWhole(h, index, v);
    if x: Word :| h == Done(x) {
      DoneSets(g, x);
      forall w: Word ensures h == Done(w) <==> w == x { MatchingStates(h, w, x); }
    } else {
      NoneDone(g, h, index, v);
    }
    HeardSets(f, v);
    assert forall w: Word :: SetIn(r, w) <==> SetIn(HeardFlags(f, v), w);
    SameFlags(r, HeardFlags(f, v));
  }

  lemma DoneWhole(h: HeaderState, index: nat, v: string)
    requires EarState(h, index, v)
    ensures forall w: Word :: h == Done(w) <==> Ear(v).Open? && Whole(Element(v), w)
  {
    hide Partial, Whole, Element, Text, Ear;
  }

  lemma NoneDone(g: Flags, h: HeaderState, index: nat, v: string)
    requires EarState(h, index, v) && forall x: Word :: h != Done(x)
    ensures ValueDone(g, h) == g
  {
    hide Partial, Whole, Element, Text, Ear;
    assert h != Done(KeepAliveWord) && h != Done(CloseWord) && h != Done(UpgradeWord);
  }

  lemma HeardSets(f: Flags, v: string)
    ensures
      var g := HeardFlags(f, v);
      && g.chunked == f.chunked && g.upgrade == f.upgrade && g.trailing == f.trailing
      && forall w: Word :: SetIn(g, w) <==> SetIn(f, w) || Heard(v, w)
  {
    hide Heard;
  }

  lemma SameFlags(f: Flags, g: Flags)
    requires f.chunked == g.chunked && f.upgrade == g.upgrade && f.trailing == g.trailing
    requires forall w: Word :: SetIn(f, w) <==> SetIn(g, w)
    ensures f == g
  {
    assert SetIn(f, KeepAliveWord) == SetIn(g, KeepAliveWord);
    assert SetIn(f, CloseWord) == SetIn(g, CloseWord);
    assert SetIn(f, UpgradeWord) == SetIn(g, UpgradeWord);
  }

  /** A `Connection` value is delivered whole, and sets the flags of exactly the words that are
      heard in it: each that is an element of the list, in any case, unless a part of a word
      stands before its comma, or an empty element or one that does not start like a token
      before that. */
  lemma ConnectionRecogniser(c: Config, v: string) returns (d: Config)
    requires Valid(c) && c.live.Running? && c.p.state.HeaderValueDiscardWs? && c.p.header.Connection?
    requires OneLine(v)
    ensures d == Run(c, v)
    ensures d == Config(c.p.(state := HeaderValue, header := d.p.header, index := d.p.index, flags := d.p.flags),
                        Emit(c.log, Data(Value, v)), c.nread + |v|, c.used + |v|, Running)
    ensures ValueDone(d.p.flags, d.p.header) == HeardFlags(c.p.flags, v)
    ensures d.p.flags.trailing == c.p.flags.trailing && d.p.flags.upgrade == c.p.flags.upgrade
  {
    hide Valid, Inv, Upto, Emit, EarState, ValueDone, HeardFlags;
    ConnectionUpto(c, v, |v|);
    assert v[..|v|] == v;
    d := Run(c, v);
    LastWord(c.p.flags, d.p.flags, d.p.header, d.p.index, v);
  }
}
