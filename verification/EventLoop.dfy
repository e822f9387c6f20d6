/** The hand-off between the event loop and the threads that give it work: two atomic flags,
    a list behind a mutex and an eventfd. Every atomic operation is a move of its own, and
    the moves of all threads interleave in any order. */
module EventLoops {
  type Proc = nat

  /** Where a thread stands in `pushAsyncProc` or `wakeup`. */
  datatype ProducerAt = Idle | Looking | Exchanging | Writing

  /** Where the loop thread stands in `loop`. `Woken` and `Handling` know whether the wake-up
      channel is among the events that still have to be handled. */
  datatype LoopAt =
    | AtWait | Woken(wake: bool) | Handling(wake: bool) | AtSetBlock | AtSwap
    | RunningAsync(next: nat) | AtSwapAfter | RunningAfter(next: nat) | AtTimers

  /** A list of procs, the copy the loop executes, and the histories of what was put into the
      list and of what was executed. */
  datatype Work = Work(list: seq<Proc>, copy: seq<Proc>, pushed: seq<Proc>, ran: seq<Proc>)

  const NO_WORK: Work := Work([], [], [], [])

  function Pushed(w: Work, more: seq<Proc>): Work { w.(list := w.list + more, pushed := w.pushed + more) }

  function Swapped(w: Work): Work { w.(list := w.copy, copy := w.list) }

  function Executed(w: Work, i: nat): Work
    requires i < |w.copy|
  {
    w.(ran := w.ran + [w.copy[i]])
  }

  /** What was put in is executed, in the copy from `i` on, or in the list; none twice, and in
      order. */
  predicate Conserved(w: Work, i: nat) {
    i <= |w.copy| && w.pushed == w.ran + w.copy[i..] + w.list
  }

  lemma WorkConserved(w: Work, i: nat, more: seq<Proc>)
    requires Conserved(w, i)
    ensures Conserved(Pushed(w, more), i)
    ensures i < |w.copy| ==> Conserved(Executed(w, i), i + 1)
    ensures w.copy == [] ==> Conserved(Swapped(w), 0)
    ensures i == |w.copy| ==> Conserved(w.(copy := []), 0)
    ensures Pushed(w, more).copy == w.copy && (i < |w.copy| ==> Executed(w, i).copy == w.copy)
    ensures Swapped(w).copy == w.list
  {
    assert w.pushed + more == w.ran + w.copy[i..] + (w.list + more);
    if i < |w.copy| { assert w.copy[i..] == [w.copy[i]] + w.copy[i + 1..]; }
    if w.copy == [] { assert w.list == w.list[0..]; }
  }

  /** `counter` is the eventfd's number, and `ready` says that epoll has it on its ready list. */
  datatype State = State(
    at: LoopAt, producers: seq<ProducerAt>,
    isInBlock: bool, isAlreadyPostWakeup: bool, counter: nat, ready: bool,
    async: Work, after: Work)

  /** One atomic operation. The loop thread's handlers, procs and timers may queue any
      after-loop procs, which is their argument. */
  datatype Move =
    | Push(t: nat, f: Proc) | CallWakeup(t: nat) | Look(t: nat) | Exchange(t: nat) | Write(t: nat)
    | Wait(took: bool) | ClearBlock | Handle(more: seq<Proc>) | ReadEventfd | ClearPosted | SetBlock | Swap
    | RunAsync(more: seq<Proc>) | EndAsync | SwapAfter | RunAfter(more: seq<Proc>) | EndAfter | Timers(more: seq<Proc>)

  function Start(threads: nat): State {
    State(AtWait, seq(threads, i => Idle), true, false, 0, false, NO_WORK, NO_WORK)
  }

  /** The next epoll_wait reports the wake-up channel. */
  predicate Signalled(s: State) { s.ready && s.counter > 0 }

  /** epoll_wait with an endless timeout has nothing of ours to return for. */
  predicate MayBlock(s: State) { s.at.AtWait? && !Signalled(s) && s.after.list == [] }

  predicate ProducerEnabled(s: State, m: Move) {
    match m
    case Push(t, _) => t < |s.producers| && s.producers[t].Idle?
    case CallWakeup(t) => t < |s.producers| && s.producers[t].Idle?
    case Look(t) => t < |s.producers| && s.producers[t].Looking?
    case Exchange(t) => t < |s.producers| && s.producers[t].Exchanging?
    case Write(t) => t < |s.producers| && s.producers[t].Writing?
    case _ => false
  }

  predicate LoopEnabled(s: State, m: Move) {
    match m
    case Wait(took) => s.at.AtWait? && (took ==> Signalled(s))
    case ClearBlock => s.at.Woken?
    case Handle(_) => s.at.Handling?
    case ReadEventfd => s.at.Handling? && s.at.wake
    case ClearPosted => s.at.Handling? && !s.at.wake
    case SetBlock => s.at.AtSetBlock?
    case Swap => s.at.AtSwap?
    case RunAsync(_) => s.at.RunningAsync? && s.at.next < |s.async.copy|
    case EndAsync => s.at.RunningAsync? && s.at.next >= |s.async.copy|
    case SwapAfter => s.at.AtSwapAfter?
    case RunAfter(_) => s.at.RunningAfter? && s.at.next < |s.after.copy|
    case EndAfter => s.at.RunningAfter? && s.at.next >= |s.after.copy|
    case Timers(_) => s.at.AtTimers?
    case _ => false
  }

  function Put(s: State, t: nat, at: ProducerAt): State
    requires t < |s.producers|
  {
    s.(producers := s.producers[t := at])
  }

  /** `pushAfterLoopProc`, called any number of times. */
  function Queue(s: State, more: seq<Proc>): State { s.(after := Pushed(s.after, more)) }

  function ProducerMove(s: State, m: Move): State
    requires ProducerEnabled(s, m)
  {
    match m
    case Push(t, f) => Put(s.(async := Pushed(s.async, [f])), t, Looking)
    case CallWakeup(t) => Put(s, t, Looking)
    case Look(t) => Put(s, t, if s.isInBlock then Exchanging else Idle)
    case Exchange(t) => Put(s.(isAlreadyPostWakeup := true), t, if s.isAlreadyPostWakeup then Idle else Writing)
    case Write(t) => Put(s.(counter := s.counter + 1, ready := true), t, Idle)
  }

  /** epoll drops from its ready list what it reports, and what it finds not readable. */
  function LoopMove(s: State, m: Move): State
    requires LoopEnabled(s, m)
  {
    match m
    case Wait(took) => s.(at := Woken(took), ready := !took && Signalled(s))
    case ClearBlock => s.(at := Handling(s.at.wake), isInBlock := false)
    case Handle(more) => Queue(s, more)
    case ReadEventfd => s.(at := Handling(false), counter := 0)
    case ClearPosted => s.(at := AtSetBlock, isAlreadyPostWakeup := false)
    case SetBlock => s.(at := AtSwap, isInBlock := true)
    case Swap => s.(at := RunningAsync(0), async := Swapped(s.async))
    case RunAsync(more) => Queue(s.(at := RunningAsync(s.at.next + 1), async := Executed(s.async, s.at.next)), more)
    case EndAsync => s.(at := AtSwapAfter, async := s.async.(copy := []))
    case SwapAfter => s.(at := RunningAfter(0), after := Swapped(s.after))
    case RunAfter(more) => Queue(s.(at := RunningAfter(s.at.next + 1), after := Executed(s.after, s.at.next)), more)
    case EndAfter => s.(at := AtTimers, after := s.after.(copy := []))
    case Timers(more) => Queue(s.(at := AtWait), more)
  }

  /** A thread that cannot move when its turn comes waits for another turn. */
  function Next(s: State, m: Move): State {
    if ProducerEnabled(s, m) then ProducerMove(s, m)
    else if LoopEnabled(s, m) then LoopMove(s, m)
    else s
  }

  function Run(s: State, moves: seq<Move>): State {
    if moves == [] then s else Next(Run(s, moves[..|moves| - 1]), moves[|moves| - 1])
  }

  /** The procs pushed by a run, in the order in which the mutex was taken. */
  function Pushes(s: State, moves: seq<Move>): seq<Proc> {
    if moves == [] then []
    else
      var before := Run(s, moves[..|moves| - 1]);
      var m := moves[|moves| - 1];
      Pushes(s, moves[..|moves| - 1]) + if m.Push? && ProducerEnabled(before, m) then [m.f] else []
  }

  /* ---- The invariant ---- */

  /** Some thread has pushed or called `wakeup`, and has not finished. */
  predicate Busy(s: State) { exists t :: 0 <= t < |s.producers| && !s.producers[t].Idle? }

  predicate Writer(s: State) { exists t :: 0 <= t < |s.producers| && s.producers[t].Writing? }

  /** The loop will take the list before it waits again. */
  predicate BeforeSwap(at: LoopAt) { at.Woken? || at.Handling? || at.AtSetBlock? || at.AtSwap? }

  /** How much of each copy is executed; the copies are empty at other times. */
  function DoneAsync(at: LoopAt): nat { if at.RunningAsync? then at.next else 0 }

  function DoneAfter(at: LoopAt): nat { if at.RunningAfter? then at.next else 0 }

  predicate WorkInv(s: State) {
    && Conserved(s.async, DoneAsync(s.at)) && Conserved(s.after, DoneAfter(s.at))
    && (!s.at.RunningAsync? ==> s.async.copy == [])
    && (!s.at.RunningAfter? ==> s.after.copy == [])
  }

  predicate WakeInv(s: State) {
    && (s.isInBlock <==> !s.at.Handling? && !s.at.AtSetBlock?)
    && (s.isAlreadyPostWakeup ==> Signalled(s) || Writer(s) || s.at.Woken? || s.at.Handling?)
    && (s.async.list != [] ==> Signalled(s) || Busy(s) || BeforeSwap(s.at))
  }

  predicate Inv(s: State) { WakeInv(s) && WorkInv(s) }

  lemma ProducerKeepsWakeInv(s: State, m: Move)
    requires WakeInv(s) && ProducerEnabled(s, m)
    ensures WakeInv(ProducerMove(s, m))
  {
    var r := ProducerMove(s, m);
    var t := m.t;
    assert r.producers[t] == Idle || Busy(r);
    if Writer(s) && !m.Write? {
      var u :| 0 <= u < |s.producers| && s.producers[u].Writing?;
      assert r.producers[u].Writing?;
    }
    if m.Exchange? && !s.isAlreadyPostWakeup { assert r.producers[t].Writing?; }
    if Writer(r) {
      var u :| 0 <= u < |r.producers| && r.producers[u].Writing?;
      assert !r.producers[u].Idle?;
    }
  }

  lemma LoopKeepsWakeInv(s: State, m: Move)
    requires WakeInv(s) && WorkInv(s) && LoopEnabled(s, m)
    ensures WakeInv(LoopMove(s, m))
  {
    var r := LoopMove(s, m);
    assert r.producers == s.producers;
    assert Busy(r) == Busy(s) && Writer(r) == Writer(s);
  }

  lemma ProducerKeepsWorkInv(s: State, m: Move)
    requires WorkInv(s) && ProducerEnabled(s, m)
    ensures WorkInv(ProducerMove(s, m))
  {
    hide Conserved, Pushed;
    if m.Push? { WorkConserved(s.async, DoneAsync(s.at), [m.f]); }
  }

  lemma ConservedBounds(w: Work, i: nat)
    requires Conserved(w, i)
    ensures i <= |w.copy|
  {
  }

  lemma LoopKeepsAsync(s: State, m: Move)
    requires WorkInv(s) && LoopEnabled(s, m)
    ensures
      var r := LoopMove(s, m);
      Conserved(r.async, DoneAsync(r.at)) && (!r.at.RunningAsync? ==> r.async.copy == [])
  {
    hide Conserved, Pushed, Swapped, Executed;
    var i := DoneAsync(s.at);
    ConservedBounds(s.async, i);
    WorkConserved(s.async, i, []);
  }

  lemma LoopKeepsAfter(s: State, m: Move)
    requires WorkInv(s) && LoopEnabled(s, m)
    ensures
      var r := LoopMove(s, m);
      Conserved(r.after, DoneAfter(r.at)) && (!r.at.RunningAfter? ==> r.after.copy == [])
  {
    hide Conserved, Pushed, Swapped, Executed;
    var j := DoneAfter(s.at);
    ConservedBounds(s.after, j);
    var more := if m.Handle? || m.RunAsync? || m.RunAfter? || m.Timers? then m.more else [];
    WorkConserved(s.after, j, more);
    if m.RunAfter? { WorkConserved(Executed(s.after, j), j + 1, more); }
  }

  /** Every move of every thread keeps the invariant. */
  lemma NextKeepsInv(s: State, m: Move)
    requires Inv(s)
    ensures Inv(Next(s, m))
  {
    hide WakeInv, Conserved, LoopMove, ProducerMove, LoopEnabled, ProducerEnabled;
    if ProducerEnabled(s, m) {
      ProducerKeepsWakeInv(s, m);
      ProducerKeepsWorkInv(s, m);
    } else if LoopEnabled(s, m) {
      LoopKeepsWakeInv(s, m);
      LoopKeepsAsync(s, m);
      LoopKeepsAfter(s, m);
    }
  }

  /** The invariant holds after every run of any number of threads. */
  lemma {:induction false} RunKeepsInv(threads: nat, moves: seq<Move>)
    ensures Inv(Run(Start(threads), moves)) && |Run(Start(threads), moves).producers| == threads
    decreases |moves|
  {
    hide Inv, Next;
    if moves == [] {
      StartInv(threads);
    } else {
      RunKeepsInv(threads, moves[..|moves| - 1]);
      var s := Run(Start(threads), moves[..|moves| - 1]);
      NextKeepsInv(s, moves[|moves| - 1]);
      NextThreads(s, moves[|moves| - 1]);
    }
  }

  lemma StartInv(threads: nat)
    ensures Inv(Start(threads))
  {
  }

  lemma NextThreads(s: State, m: Move)
    ensures |Next(s, m).producers| == |s.producers|
  {
  }

  /* ---- What the invariant is for ---- */

  /** No lost wake-up: in every interleaving, when the loop stands at its wait with procs to
      run, the eventfd is signalled or some thread has not yet finished waking it. Once no
      thread is busy, the wait cannot block. */
  lemma NoLostWakeup(threads: nat, moves: seq<Move>)
    ensures
      var s := Run(Start(threads), moves);
      && (s.at.AtWait? && s.async.list != [] ==> Signalled(s) || Busy(s))
      && (MayBlock(s) && !Busy(s) ==> s.async.ran == s.async.pushed && s.after.ran == s.after.pushed)
  {
    RunKeepsInv(threads, moves);
  }

  /** The moves that a thread still has before it. */
  function Left(at: ProducerAt): nat {
    match at
    case Idle => 0
    case Writing => 1
    case Exchanging => 2
    case Looking => 3
  }

  /** A thread's own next move. */
  function OwnMove(at: ProducerAt, t: nat): Move
    requires !at.Idle?
  {
    match at
    case Looking => Look(t)
    case Exchanging => Exchange(t)
    case Writing => Write(t)
  }

  predicate Begins(m: Move, t: nat) { (m.Push? || m.CallWakeup?) && m.t == t }

  /** How many of its own moves a thread makes in a run, after `pushAsyncProc` or `wakeup` was called. */
  function MovesMade(s: State, moves: seq<Move>, t: nat): nat {
    if moves == [] then 0
    else
      var before := Run(s, moves[..|moves| - 1]);
      var m := moves[|moves| - 1];
      var mine := t < |before.producers| && !before.producers[t].Idle? && m == OwnMove(before.producers[t], t);
      MovesMade(s, moves[..|moves| - 1], t) + if mine then 1 else 0
  }

  lemma {:induction false} RunThreads(s: State, moves: seq<Move>)
    ensures |Run(s, moves).producers| == |s.producers|
    decreases |moves|
  {
    hide Next;
    if moves != [] {
      RunThreads(s, moves[..|moves| - 1]);
      NextThreads(Run(s, moves[..|moves| - 1]), moves[|moves| - 1]);
    }
  }

  /** A busy thread never waits for another one: its own next move can be made at once and
      brings it nearer to its end, which no other move undoes. */
  lemma OneMoveNearer(s: State, m: Move, t: nat)
    requires t < |s.producers| && |Next(s, m).producers| == |s.producers| && !Begins(m, t)
    ensures !s.producers[t].Idle? ==> ProducerEnabled(s, OwnMove(s.producers[t], t))
    ensures !s.producers[t].Idle? && m == OwnMove(s.producers[t], t)
            ==> Left(Next(s, m).producers[t]) < Left(s.producers[t])
    ensures Left(Next(s, m).producers[t]) <= Left(s.producers[t])
  {
    hide Pushed, Swapped, Executed, Signalled;
  }

  /** A busy thread that is given three turns of its own finishes, whatever the loop and the
      other threads do in between. */
  lemma {:induction false} ThreadFinishes(s: State, moves: seq<Move>, t: nat)
    requires t < |s.producers| && forall m <- moves :: !Begins(m, t)
    ensures |Run(s, moves).producers| == |s.producers|
    ensures MovesMade(s, moves, t) + Left(Run(s, moves).producers[t]) <= Left(s.producers[t]) <= 3
    ensures MovesMade(s, moves, t) == 3 ==> Run(s, moves).producers[t].Idle?
    decreases |moves|
  {
    hide Next, ProducerEnabled, Begins;
    if moves != [] {
      var n := |moves| - 1;
      assert moves[n] in moves && forall m <- moves[..n] :: m in moves;
      ThreadFinishes(s, moves[..n], t);
      RunThreads(s, moves);
      OneMoveNearer(Run(s, moves[..n]), moves[n], t);
    }
  }

  /** Every proc of a foreign thread is executed exactly once, and in the order in which the
      threads took the mutex: what is executed is always the front part of what was pushed. */
  lemma {:induction false} ExactlyOnceInLockOrder(threads: nat, moves: seq<Move>)
    ensures
      var s := Run(Start(threads), moves);
      var (w, i) := (s.async, DoneAsync(s.at));
      && w.pushed == Pushes(Start(threads), moves)
      && i <= |w.copy| && Pushes(Start(threads), moves) == w.ran + w.copy[i..] + w.list
    decreases |moves|
  {
    hide Next, WakeInv;
    RunKeepsInv(threads, moves);
    if moves != [] {
      ExactlyOnceInLockOrder(threads, moves[..|moves| - 1]);
      OnlyPushesPush(Run(Start(threads), moves[..|moves| - 1]), moves[|moves| - 1]);
    }
  }

  lemma OnlyPushesPush(s: State, m: Move)
    ensures Next(s, m).async.pushed == s.async.pushed + if m.Push? && ProducerEnabled(s, m) then [m.f] else []
  {
  }

  /* ---- The loop object ---- */

  /** `EventLoop`, with the eventfd, the other threads' positions and the histories. */
  class EventLoop {
    var mIsInBlock: bool
    var mIsAlreadyPostWakeup: bool
    var mAsyncProcs: seq<Proc>
    var mCopyAsyncProcs: seq<Proc>
    var mAfterLoopProcs: seq<Proc>
    var mCopyAfterLoopProcs: seq<Proc>
    var counter: nat
    var ready: bool
    var producers: seq<ProducerAt>
    ghost var at: LoopAt
    ghost var pushed: seq<Proc>
    ghost var ran: seq<Proc>
    ghost var queued: seq<Proc>
    ghost var ranAfter: seq<Proc>
    ghost var moves: seq<Move>
    ghost const threads: nat

    ghost function View(): State
      reads this
    {
      State(at, producers, mIsInBlock, mIsAlreadyPostWakeup, counter, ready,
            Work(mAsyncProcs, mCopyAsyncProcs, pushed, ran),
            Work(mAfterLoopProcs, mCopyAfterLoopProcs, queued, ranAfter))
    }

    /** The object is where the moves made so far have brought the machine. */
    ghost predicate Valid()
      reads this
    {
      View() == Run(Start(threads), moves)
    }

    constructor (n: nat)
      ensures Valid() && threads == n && moves == []
    {
      mIsInBlock, mIsAlreadyPostWakeup := true, false;
      counter, ready := 0, false;
      mAsyncProcs, mCopyAsyncProcs, mAfterLoopProcs, mCopyAfterLoopProcs := [], [], [], [];
      producers := seq(n, i => Idle);
      at, pushed, ran, queued, ranAfter, moves := AtWait, [], [], [], [], [];
      threads := n;
    }

    /** The object has made one more move. */
    twostate predicate Moved(m: Move)
      reads this
    {
      && moves == old(moves) + [m]
      && if ProducerEnabled(old(View()), m) then View() == ProducerMove(old(View()), m)
         else LoopEnabled(old(View()), m) && View() == LoopMove(old(View()), m)
    }

    twostate lemma StillValid(m: Move)
      requires old(Valid()) && Moved(m)
      ensures Valid()
    {
      hide ProducerEnabled, ProducerMove, LoopEnabled, LoopMove;
      assert moves[..|moves| - 1] == old(moves);
    }

    /** The critical section of `pushAsyncProc`. */
    method PushLocked(t: nat, f: Proc)
      requires Valid() && t < |producers| && producers[t].Idle?
      modifies this
      ensures Valid() && Moved(Push(t, f))
    {
      hide Run, LoopEnabled, LoopMove;
      mAsyncProcs := mAsyncProcs + [f];
      pushed := pushed + [f];
      producers := producers[t := Looking];
      moves := moves + [Push(t, f)];
      StillValid(Push(t, f));
    }

    /** One atomic operation of `wakeup` in thread `t`. */
    method WakeupStep(t: nat) returns (ghost m: Move)
      requires Valid() && t < |producers|
      modifies this
      ensures Valid() && Moved(m) && ProducerEnabled(old(View()), m) && !m.Push?
    {
      hide Run, LoopEnabled, LoopMove;
      match producers[t] {
        case Idle =>
          m := CallWakeup(t);
          producers := producers[t := Looking];
        case Looking =>
          m := Look(t);
          producers := producers[t := if mIsInBlock then Exchanging else Idle];
        case Exchanging =>
          m := Exchange(t);
          var was := mIsAlreadyPostWakeup;
          mIsAlreadyPostWakeup := true;
          producers := producers[t := if was then Idle else Writing];
        case Writing =>
          m := Write(t);
          counter, ready := counter + 1, true;
          producers := producers[t := Idle];
      }
      moves := moves + [m];
      StillValid(m);
    }

    /** What the loop thread alone changes. */
    twostate predicate OnlyOthersMoved()
      reads this
    {
      && at == old(at) && mIsInBlock == old(mIsInBlock)
      && mCopyAsyncProcs == old(mCopyAsyncProcs)
      && mAfterLoopProcs == old(mAfterLoopProcs) && mCopyAfterLoopProcs == old(mCopyAfterLoopProcs)
      && ran == old(ran) && queued == old(queued) && ranAfter == old(ranAfter)
      && old(pushed) <= pushed && old(moves) <= moves
    }

    twostate lemma OneOtherMove(m: Move)
      requires Moved(m) && ProducerEnabled(old(View()), m)
      ensures OnlyOthersMoved() && |producers| == old(|producers|)
    {
    }

    /** The other threads take any number of moves. */
    method Others()
      requires Valid()
      modifies this
      ensures Valid() && OnlyOthersMoved()
    {
      hide Valid, View, Moved, ProducerEnabled, Run;
      var turns: nat := *;
      while turns > 0
        invariant Valid() && OnlyOthersMoved()
      {
        var t: nat, f: Proc := *, *;
        var push: bool := *;
        if t < |producers| { OneTurn(t, f, push); }
        turns := turns - 1;
      }
    }

    method OneTurn(t: nat, f: Proc, push: bool)
      requires Valid() && t < |producers|
      modifies this
      ensures Valid() && OnlyOthersMoved() && |producers| == old(|producers|)
    {
      hide Valid, Moved, LoopEnabled, Run, OnlyOthersMoved, ProducerMove;
      if push && producers[t].Idle? {
        PushLocked(t, f);
        OneOtherMove(Push(t, f));
      } else {
        var m := WakeupStep(t);
        OneOtherMove(m);
      }
    }

    /* The atomic operations of the loop thread. */

    /** epoll_wait: it may return at any time, for other channels or its timeout, and reports
        the wake-up channel only if that is signalled. */
    method EpollWait() returns (took: bool)
      requires Valid() && at.AtWait?
      modifies this`ready, this`at, this`moves
      ensures Valid() && at == Woken(took) && moves == old(moves) + [Wait(took)]
    {
      hide Run, ProducerMove;
      took := *;
      took := took && ready && counter > 0;
      ready := !took && ready && counter > 0;
      at, moves := Woken(took), moves + [Wait(took)];
      StillValid(Wait(took));
    }

    method LeaveBlock()
      requires Valid() && at.Woken?
      modifies this`mIsInBlock, this`at, this`moves
      ensures Valid() && at == Handling(old(at).wake) && moves == old(moves) + [ClearBlock]
    {
      hide Run, ProducerMove;
      mIsInBlock := false;
      at, moves := Handling(at.wake), moves + [ClearBlock];
      StillValid(ClearBlock);
    }

    /** `WakeupChannel::canRecv`: the first read empties the eventfd and is short. */
    method CanRecv()
      requires Valid() && at == Handling(true)
      modifies this`counter, this`at, this`moves
      ensures Valid() && at == Handling(false) && moves == old(moves) + [ReadEventfd]
    {
      hide Run, ProducerMove;
      counter := 0;
      at, moves := Handling(false), moves + [ReadEventfd];
      StillValid(ReadEventfd);
    }

    method ClearAlreadyPost()
      requires Valid() && at == Handling(false)
      modifies this`mIsAlreadyPostWakeup, this`at, this`moves
      ensures Valid() && at == AtSetBlock && moves == old(moves) + [ClearPosted]
    {
      hide Run, ProducerMove;
      mIsAlreadyPostWakeup := false;
      at, moves := AtSetBlock, moves + [ClearPosted];
      StillValid(ClearPosted);
    }

    method EnterBlock()
      requires Valid() && at == AtSetBlock
      modifies this`mIsInBlock, this`at, this`moves
      ensures Valid() && at == AtSwap && moves == old(moves) + [SetBlock]
    {
      hide Run, ProducerMove;
      mIsInBlock := true;
      at, moves := AtSwap, moves + [SetBlock];
      StillValid(SetBlock);
    }

    /** Code that runs in the loop thread: it may call `pushAfterLoopProc` any number of times. */
    method Perform() returns (more: seq<Proc>)
      modifies this`mAfterLoopProcs, this`queued
      ensures mAfterLoopProcs == old(mAfterLoopProcs) + more && queued == old(queued) + more
    {
      more := *;
      mAfterLoopProcs := mAfterLoopProcs + more;
      queued := queued + more;
    }

    /** The handlers of other channels, and the timers. */
    method HandleEvents()
      requires Valid() && at.Handling?
      modifies this`mAfterLoopProcs, this`queued, this`moves
      ensures Valid() && old(queued) <= queued && old(moves) <= moves
    {
      hide Run, ProducerMove;
      var more := Perform();
      moves := moves + [Handle(more)];
      StillValid(Handle(more));
    }

    method FireTimers()
      requires Valid() && at.AtTimers?
      modifies this`mAfterLoopProcs, this`queued, this`at, this`moves
      ensures Valid() && at == AtWait && old(queued) <= queued && old(moves) <= moves
    {
      hide Run, ProducerMove;
      var more := Perform();
      at, moves := AtWait, moves + [Timers(more)];
      StillValid(Timers(more));
    }

    /** The critical section of `processAsyncProcs`. */
    method SwapLocked()
      requires Valid() && at.AtSwap?
      modifies this`mAsyncProcs, this`mCopyAsyncProcs, this`at, this`moves
      ensures Valid() && at == RunningAsync(0) && moves == old(moves) + [Swap]
      ensures pushed == ran + mCopyAsyncProcs
    {
      hide Run, ProducerMove;
      assert mCopyAsyncProcs == [] && pushed == ran + mAsyncProcs by { RunKeepsInv(threads, moves); }
      mCopyAsyncProcs, mAsyncProcs := mAsyncProcs, mCopyAsyncProcs;
      at, moves := RunningAsync(0), moves + [Swap];
      StillValid(Swap);
    }

    method ExecuteAsync()
      requires Valid() && at.RunningAsync? && at.next < |mCopyAsyncProcs|
      modifies this`mAfterLoopProcs, this`queued, this`ran, this`at, this`moves
      ensures Valid() && at == RunningAsync(old(at).next + 1)
      ensures ran == old(ran) + [mCopyAsyncProcs[old(at).next]]
      ensures old(queued) <= queued && old(moves) <= moves
    {
      hide Run, ProducerMove;
      var more := Perform();
      ran := ran + [mCopyAsyncProcs[at.next]];
      at, moves := RunningAsync(at.next + 1), moves + [RunAsync(more)];
      StillValid(RunAsync(more));
    }

    method ClearCopyAsync()
      requires Valid() && at == RunningAsync(|mCopyAsyncProcs|)
      modifies this`mCopyAsyncProcs, this`at, this`moves
      ensures Valid() && at == AtSwapAfter && moves == old(moves) + [EndAsync]
    {
      hide Run, ProducerMove;
      mCopyAsyncProcs := [];
      at, moves := AtSwapAfter, moves + [EndAsync];
      StillValid(EndAsync);
    }

    method SwapAfterLoop()
      requires Valid() && at.AtSwapAfter?
      modifies this`mAfterLoopProcs, this`mCopyAfterLoopProcs, this`at, this`moves
      ensures Valid() && at == RunningAfter(0) && moves == old(moves) + [SwapAfter]
      ensures queued == ranAfter + mCopyAfterLoopProcs
    {
      hide Run, ProducerMove;
      assert mCopyAfterLoopProcs == [] && queued == ranAfter + mAfterLoopProcs by { RunKeepsInv(threads, moves); }
      mCopyAfterLoopProcs, mAfterLoopProcs := mAfterLoopProcs, mCopyAfterLoopProcs;
      at, moves := RunningAfter(0), moves + [SwapAfter];
      StillValid(SwapAfter);
    }

    method ExecuteAfter()
      requires Valid() && at.RunningAfter? && at.next < |mCopyAfterLoopProcs|
      modifies this`mAfterLoopProcs, this`queued, this`ranAfter, this`at, this`moves
      ensures Valid() && at == RunningAfter(old(at).next + 1)
      ensures ranAfter == old(ranAfter) + [mCopyAfterLoopProcs[old(at).next]]
      ensures old(queued) <= queued && old(moves) <= moves
    {
      hide Run, ProducerMove;
      var more := Perform();
      ranAfter := ranAfter + [mCopyAfterLoopProcs[at.next]];
      at, moves := RunningAfter(at.next + 1), moves + [RunAfter(more)];
      StillValid(RunAfter(more));
    }

    method ClearCopyAfter()
      requires Valid() && at == RunningAfter(|mCopyAfterLoopProcs|)
      modifies this`mCopyAfterLoopProcs, this`at, this`moves
      ensures Valid() && at == AtTimers && moves == old(moves) + [EndAfter]
    {
      hide Run, ProducerMove;
      mCopyAfterLoopProcs := [];
      at, moves := AtTimers, moves + [EndAfter];
      StillValid(EndAfter);
    }

    /** `processAsyncProcs` */
    method ProcessAsyncProcs()
      requires Valid() && at.AtSwap?
      modifies this
      ensures Valid() && at.AtSwapAfter?
      ensures old(pushed) <= ran && old(queued) <= queued && old(moves) <= moves
    {
      hide Valid, Run;
      SwapLocked();
      var i := 0;
      while i < |mCopyAsyncProcs|
        invariant Valid() && at == RunningAsync(i) && i <= |mCopyAsyncProcs|
        invariant old(pushed) == ran + mCopyAsyncProcs[i..]
        invariant old(queued) <= queued && old(moves) <= moves
      {
        Others();
        ExecuteAsync();
        i := i + 1;
      }
      Others();
      ClearCopyAsync();
    }

    /** `processAfterLoopProcs`: what the batch queues goes into the next batch. */
    method ProcessAfterLoopProcs()
      requires Valid() && at.AtSwapAfter?
      modifies this
      ensures Valid() && at.AtTimers?
      ensures old(queued) <= ranAfter && ran == old(ran) && old(moves) <= moves
    {
      hide Valid, Run;
      SwapAfterLoop();
      var i := 0;
      while i < |mCopyAfterLoopProcs|
        invariant Valid() && at == RunningAfter(i) && i <= |mCopyAfterLoopProcs|
        invariant old(queued) == ranAfter + mCopyAfterLoopProcs[i..]
        invariant ran == old(ran) && old(moves) <= moves
      {
        Others();
        ExecuteAfter();
        i := i + 1;
      }
      Others();
      ClearCopyAfter();
    }

    /** The wait, and the handlers of the events it returns. */
    method WaitAndHandle()
      requires Valid() && at.AtWait?
      modifies this
      ensures Valid() && at == Handling(false)
      ensures old(pushed) <= pushed && old(queued) <= queued && old(moves) <= moves
    {
      hide Valid, Run;
      Others();
      var took := EpollWait();
      Others();
      LeaveBlock();
      Others();
      if took { CanRecv(); }
      Others();
      HandleEvents();
    }

    /** The two flags, in this order. */
    method ResetFlags()
      requires Valid() && at == Handling(false)
      modifies this
      ensures Valid() && at == AtSwap
      ensures old(pushed) <= pushed && queued == old(queued) && old(moves) <= moves
    {
      hide Valid, Run;
      Others();
      ClearAlreadyPost();
      Others();
      EnterBlock();
      Others();
    }

    /** `loop`: whatever the other threads do between its operations, one call executes
        everything that was pushed or queued before it. */
    method Loop()
      requires Valid() && at.AtWait?
      modifies this
      ensures Valid() && at.AtWait?
      ensures old(pushed) <= ran && old(queued) <= ranAfter && old(moves) <= moves
    {
      hide Valid, Run;
      WaitAndHandle();
      ResetFlags();
      ProcessAsyncProcs();
      Others();
      ProcessAfterLoopProcs();
      Others();
      FireTimers();
    }
  }
}
