/** The asynchronous connector: a worker thread that starts connections, polls those that are
    under way and gives up on those that take too long. Every accepted request is answered by
    exactly one callback. */
module Connectors {
  import opened Wrappers
  import opened RingStack
  import opened FdSets

  const WRITE_CHECK: Events := Events(false, true, false)

  /** A connection under way, for request `id`. */
  datatype ConnectingInfo = ConnectingInfo(startConnectTime: int, timeout: int, id: nat)

  /** A call of one of a request's two callbacks. */
  datatype Call = SuccessCB(id: nat, fd: int) | FailedCB(id: nat)

  predicate Called(calls: seq<Call>, id: nat) { exists c <- calls :: c.id == id }

  predicate UnderWay(infos: map<int, ConnectingInfo>, id: nat) { exists fd <- infos :: infos[fd].id == id }

  predicate CalledOnce(calls: seq<Call>) { forall i, j :: 0 <= i < j < |calls| ==> calls[i].id != calls[j].id }

  /** Every request that was taken is either under way, once, or answered, once. */
  ghost predicate Recorded(taken: set<nat>, infos: map<int, ConnectingInfo>, calls: seq<Call>) {
    && CalledOnce(calls)
    && (forall fd, gd :: fd in infos && gd in infos && fd != gd ==> infos[fd].id != infos[gd].id)
    && (forall fd <- infos :: infos[fd].id in taken && !Called(calls, infos[fd].id))
    && (forall c <- calls :: c.id in taken)
    && (forall id <- taken :: Called(calls, id) || UnderWay(infos, id))
  }

  lemma CallsMore(calls: seq<Call>, c: Call)
    ensures forall id :: Called(calls + [c], id) <==> Called(calls, id) || id == c.id
  {
    forall id
      ensures Called(calls + [c], id) <==> Called(calls, id) || id == c.id
    {
      assert c in calls + [c] && forall d <- calls :: d in calls + [c];
    }
  }

  lemma CallsOnce(calls: seq<Call>, c: Call)
    requires CalledOnce(calls) && !Called(calls, c.id)
    ensures CalledOnce(calls + [c])
  {
    forall i | 0 <= i < |calls|
      ensures calls[i].id != c.id
    {
      assert calls[i] in calls;
    }
  }

  /** A request is answered at once. */
  lemma AnswersAtOnce(taken: set<nat>, infos: map<int, ConnectingInfo>, calls: seq<Call>, c: Call)
    requires Recorded(taken, infos, calls) && c.id !in taken
    ensures Recorded(taken + {c.id}, infos, calls + [c])
  {
    assert !Called(calls, c.id);
    CallsOnce(calls, c);
    CallsMore(calls, c);
  }

  /** A connection gets under way. */
  lemma Starts(taken: set<nat>, infos: map<int, ConnectingInfo>, calls: seq<Call>, fd: int, ci: ConnectingInfo)
    requires Recorded(taken, infos, calls) && ci.id !in taken && fd !in infos
    ensures Recorded(taken + {ci.id}, infos[fd := ci], calls)
  {
    hide CalledOnce;
    assert !Called(calls, ci.id);
    var more := infos[fd := ci];
    forall id <- taken + {ci.id}
      ensures Called(calls, id) || UnderWay(more, id)
    {
      if id == ci.id {
        assert fd in more && more[fd].id == id;
      } else if UnderWay(infos, id) {
        var gd :| gd in infos && infos[gd].id == id;
        assert gd in more && more[gd].id == id;
      }
    }
  }

  /** A connection under way is answered. */
  lemma Answers(taken: set<nat>, infos: map<int, ConnectingInfo>, calls: seq<Call>, fd: int, c: Call)
    requires Recorded(taken, infos, calls) && fd in infos && c.id == infos[fd].id
    ensures Recorded(taken, infos - {fd}, calls + [c])
  {
    CallsOnce(calls, c);
    CallsMore(calls, c);
    hide CalledOnce, Called;
    var less := infos - {fd};
    forall id <- taken
      ensures Called(calls + [c], id) || UnderWay(less, id)
    {
      if !Called(calls, id) {
        var gd :| gd in infos && infos[gd].id == id;
        if gd != fd { assert gd in less && less[gd].id == id; }
      }
    }
  }

  /** When nothing is under way, every request taken has its one callback, and there are no
      other callbacks. */
  lemma AllAnswered(taken: set<nat>, calls: seq<Call>)
    requires Recorded(taken, map[], calls)
    ensures forall id :: id in taken <==> Called(calls, id)
    ensures CalledOnce(calls)
  {
    forall id | id in taken
      ensures Called(calls, id)
    {
      assert !UnderWay(map[], id);
    }
  }

  /** The call that the answer to SO_ERROR leads to. */
  function CallFor(id: nat, fd: int, noError: bool): Call { if noError then SuccessCB(id, fd) else FailedCB(id) }

  function SetOf<T>(s: seq<T>): set<T> { set x | x in s }

  /** The calls since `was`: one for each of the connections `fds`, as their sockets' SO_ERROR
      says, and no other. */
  ghost predicate AnsweredEach(was: seq<Call>, calls: seq<Call>, infos: map<int, ConnectingInfo>, asked: map<int, bool>, fds: set<int>) {
    && fds <= infos.Keys && fds <= asked.Keys && was <= calls && |calls| == |was| + |fds|
    && SetOf(calls[|was|..]) == set fd <- fds :: CallFor(infos[fd].id, fd, asked[fd])
  }

  lemma AnsweredNone(calls: seq<Call>, infos: map<int, ConnectingInfo>, asked: map<int, bool>)
    ensures AnsweredEach(calls, calls, infos, asked, {})
  {
  }

  lemma AnsweredOneMore(was: seq<Call>, calls: seq<Call>, infos: map<int, ConnectingInfo>, asked: map<int, bool>, fds: set<int>, fd: int)
    requires AnsweredEach(was, calls, infos, asked, fds) && fd in infos && fd in asked && fd !in fds
    ensures AnsweredEach(was, calls + [CallFor(infos[fd].id, fd, asked[fd])], infos, asked, fds + {fd})
  {
    var (c, more) := (CallFor(infos[fd].id, fd, asked[fd]), fds + {fd});
    assert (calls + [c])[|was|..] == calls[|was|..] + [c];
    assert (set gd <- more :: CallFor(infos[gd].id, gd, asked[gd])) == (set gd <- fds :: CallFor(infos[gd].id, gd, asked[gd])) + {c};
  }

  lemma NoneYet(s: seq<int>)
    ensures s[0..] == s && SetOf(s[..0]) == {}
  {
  }

  lemma OneMoreOf(s: seq<int>, n: nat)
    requires n < |s| && Different(s)
    ensures s[n] !in SetOf(s[..n]) && SetOf(s[..n + 1]) == SetOf(s[..n]) + {s[n]} && s[n..] == [s[n]] + s[n + 1..]
  {
    assert s[..n + 1] == s[..n] + [s[n]];
  }

  /** An element of a set or a key of a map; which one comes first makes no difference. */
  method Pick<T>(s: set<T>) returns (x: T)
    requires s != {}
    ensures x in s
  {
    x :| x in s;
  }

  class ConnectorWorkInfo {
    var mConnectingInfos: map<int, ConnectingInfo>
    const mFDSet: FdSet
    const mPollResult: Stack
    var clock: int                // std::chrono::steady_clock
    ghost var taken: set<nat>
    ghost var calls: seq<Call>
    ghost var asked: map<int, bool>   // whether SO_ERROR was none when last asked for

    ghost function Footprint(): set<object>
      reads this, mFDSet, mPollResult
    {
      {this, mFDSet, mFDSet.pollFds, mPollResult, mPollResult.data}
    }

    ghost predicate Shape()
      reads mFDSet, mFDSet.pollFds, mPollResult, mPollResult.data
    {
      && mFDSet.Valid() && mPollResult.Valid() && mPollResult.data.Length > 0 && mPollResult.Contents() == []
    }

    /** The poll set holds exactly the descriptors that are under way. */
    ghost predicate Valid()
      reads `mConnectingInfos, `taken, `calls, mFDSet, mFDSet.pollFds, mPollResult, mPollResult.data
    {
      Shape() && mFDSet.Fds() == mConnectingInfos.Keys && Recorded(taken, mConnectingInfos, calls)
    }

    constructor ()
      ensures Valid() && fresh(Footprint()) && taken == {} && calls == [] && mConnectingInfos == map[]
    {
      mFDSet := new FdSet();
      mPollResult := new Stack(1024);
      mConnectingInfos, taken, calls, asked := map[], {}, [], map[];
    }

    /** What every operation keeps: nothing that was answered or taken is forgotten, and no
        connection gets under way but in `ProcessConnect`. */
    twostate predicate OnlyAnswers()
      reads this, mFDSet, mPollResult
    {
      && taken == old(taken) && old(calls) <= calls && old(clock) <= clock
      && (forall fd <- mConnectingInfos :: fd in old(mConnectingInfos) && mConnectingInfos[fd] == old(mConnectingInfos)[fd])
      && fresh(Footprint() - old(Footprint()))
    }

    method Now() returns (now: int)
      modifies this`clock
      ensures now == clock && old(clock) <= clock
    {
      var passed: int := *;
      if passed > 0 { clock := clock + passed; }
      now := clock;
    }

    /** A descriptor that the kernel hands out is not one that is still open. */
    method SocketCreate() returns (fd: Option<int>)
      ensures fd.Some? ==> fd.value !in mConnectingInfos
    {
      var n: int := *;
      fd := if n in mConnectingInfos then None else Some(n);
    }

    /** `processConnect` */
    method ProcessConnect(id: nat, timeout: int)
      requires Valid() && id !in taken
      modifies this, mFDSet, mFDSet.pollFds
      ensures Valid() && taken == old(taken) + {id} && fresh(Footprint() - old(Footprint()))
      ensures
        || (mConnectingInfos == old(mConnectingInfos)
            && (calls == old(calls) + [FailedCB(id)] || exists fd :: calls == old(calls) + [SuccessCB(id, fd)]))
        || (calls == old(calls)
            && exists fd :: fd !in old(mConnectingInfos)
                            && mConnectingInfos == old(mConnectingInfos)[fd := ConnectingInfo(clock, timeout, id)])
    {
      hide Recorded, DistinctFds;
      var clientfd := SocketCreate();
      var connected: bool, inProgress: bool := *, *;
      if clientfd.None? || (!connected && !inProgress) {
        AnswersAtOnce(taken, mConnectingInfos, calls, FailedCB(id));
        calls := calls + [FailedCB(id)];
      } else if connected {
        AnswersAtOnce(taken, mConnectingInfos, calls, SuccessCB(id, clientfd.value));
        calls := calls + [SuccessCB(id, clientfd.value)];
      } else {
        var now := Now();
        var ci := ConnectingInfo(now, timeout, id);
        Starts(taken, mConnectingInfos, calls, clientfd.value, ci);
        mConnectingInfos := mConnectingInfos[clientfd.value := ci];
        mFDSet.Add(clientfd.value, WRITE_CHECK);
      }
      taken := taken + {id};
    }

    /** One callback for a connection under way, which leaves the map. */
    method Answer(fd: int, c: Call)
      requires Recorded(taken, mConnectingInfos, calls) && fd in mConnectingInfos && c.id == mConnectingInfos[fd].id
      modifies this`mConnectingInfos, this`calls
      ensures Recorded(taken, mConnectingInfos, calls)
      ensures mConnectingInfos == old(mConnectingInfos) - {fd} && calls == old(calls) + [c]
    {
      Answers(taken, mConnectingInfos, calls, fd, c);
      calls := calls + [c];
      mConnectingInfos := mConnectingInfos - {fd};
    }

    /** The next descriptor from the stack. */
    method NextResult() returns (p: Option<int>)
      requires mFDSet.Valid() && mPollResult.Valid()
      requires forall fd <- mPollResult.Contents() :: fd in mFDSet.Fds()
      modifies mPollResult`num, mPollResult`front
      ensures mPollResult.Valid() && forall fd <- mPollResult.Contents() :: fd in mFDSet.Fds()
      ensures p.None? ==> old(mPollResult.Contents()) == mPollResult.Contents() == []
      ensures p.Some? ==> p.value in mFDSet.Fds() && old(mPollResult.Contents()) == [p.value] + mPollResult.Contents()
    {
      hide DistinctFds, Stack.Contents, FdSet.Fds;
      ghost var was, fds := mPollResult.Contents(), mFDSet.Fds();
      assert forall fd <- was :: fd in fds;
      p := mPollResult.PopFront();
      if p.Some? {
        assert was != [] && was[0] in was && forall fd <- was[1..] :: fd in was;
      }
    }

    method Collect()
      requires Shape()
      modifies mPollResult, mPollResult.data
      ensures mPollResult.Valid() && mPollResult.data.Length > 0
      ensures mPollResult.data == old(mPollResult.data) || fresh(mPollResult.data)
      ensures forall fd <- mPollResult.Contents() :: fd in mFDSet.Fds()
      ensures mPollResult.Contents() == Hits(mFDSet.Entries(), WRITE_CHECK)
    {
      hide DistinctFds, Stack.Contents;
      HitsAreMembers(mFDSet.Entries(), WRITE_CHECK);
      mFDSet.Visitor(WRITE_CHECK, mPollResult);
      assert [] + Hits(mFDSet.Entries(), WRITE_CHECK) == Hits(mFDSet.Entries(), WRITE_CHECK);
    }

    /** `isConnectSuccess`: what the kernel says to SO_ERROR. */
    method IsConnectSuccess(fd: int) returns (noError: bool)
      modifies this`asked
      ensures asked == old(asked)[fd := noError]
    {
      noError := *;
      asked := asked[fd := noError];
    }

    /** The descriptors that the poll reported as writable, and those without an error. */
    method Writable() returns (totalFds: set<int>, successFds: set<int>)
      requires Shape()
      modifies this`asked, mPollResult, mPollResult.data
      ensures Shape() && (mPollResult.data == old(mPollResult.data) || fresh(mPollResult.data))
      ensures successFds <= totalFds <= mFDSet.Fds() && totalFds == SetOf(Hits(mFDSet.Entries(), WRITE_CHECK))
      ensures forall fd <- totalFds :: fd in asked && (fd in successFds <==> asked[fd])
    {
      hide Stack.Contents, FdSet.Fds, Hits, DistinctFds, Different, SetOf;
      totalFds, successFds := {}, {};
      Collect();
      ghost var hits, n := mPollResult.Contents(), 0;
      HitsDiffer(mFDSet.Entries(), WRITE_CHECK);
      ghost var data := mPollResult.data;
      NoneYet(hits);
      while true
        invariant mFDSet.Valid() && mPollResult.Valid() && mPollResult.data.Length > 0
        invariant mPollResult.data == data
        invariant forall fd <- mPollResult.Contents() :: fd in mFDSet.Fds()
        invariant n <= |hits| && mPollResult.Contents() == hits[n..] && totalFds == SetOf(hits[..n])
        invariant successFds <= totalFds <= mFDSet.Fds()
        invariant forall fd <- totalFds :: fd in asked && (fd in successFds <==> asked[fd])
        decreases |mPollResult.Contents()|
      {
        var p := NextResult();
        if p.None? { break; }
        OneMoreOf(hits, n);
        totalFds := totalFds + {p.value};
        var noError := IsConnectSuccess(p.value);
        if noError { successFds := successFds + {p.value}; }
        n := n + 1;
      }
      assert n == |hits| && hits[..n] == hits;
    }

    method Drop(fd: int)
      requires Shape()
      modifies mFDSet`nfds, mFDSet.pollFds
      ensures mFDSet.Valid() && Shape() && mFDSet.Fds() == old(mFDSet.Fds()) - {fd} && Footprint() == old(Footprint())
    {
      hide DistinctFds, Stack.Contents, FdSet.Fds;
      mFDSet.Remove(fd);
    }

    /** A descriptor is taken out of the poll set and its connection answered. It has one:
        the search in the map cannot fail. */
    method Settle(fd: int, c: Call)
      requires Valid() && fd in mConnectingInfos && c.id == mConnectingInfos[fd].id
      modifies this`mConnectingInfos, this`calls, mFDSet`nfds, mFDSet.pollFds
      ensures Valid() && mConnectingInfos == old(mConnectingInfos) - {fd} && calls == old(calls) + [c]
      ensures Footprint() == old(Footprint())
    {
      hide Recorded, Shape, FdSet.Fds;
      Drop(fd);
      Answer(fd, c);
    }

    /** The descriptors that the last poll reported as writable. */
    ghost function Reported(): set<int>
      requires mFDSet.reports != []
      reads mFDSet
    {
      var r := mFDSet.reports[|mFDSet.reports| - 1];
      if r.ret > 0 then SetOf(Hits(r.entries, WRITE_CHECK)) else {}
    }

    /** `checkConnectStatus`: exactly the connections that the poll reported leave the map and the
        poll set, each with one call, which SO_ERROR decides. */
    method CheckConnectStatus()
      requires Valid()
      modifies this, mFDSet, mFDSet.pollFds, mPollResult, mPollResult.data
      ensures Valid() && OnlyAnswers()
      ensures |mFDSet.reports| == |old(mFDSet.reports)| + 1
      ensures mConnectingInfos == old(mConnectingInfos) - Reported() && mFDSet.Fds() == old(mFDSet.Fds()) - Reported()
      ensures AnsweredEach(old(calls), calls, old(mConnectingInfos), asked, Reported())
    {
      hide Recorded, DistinctFds, Stack.Contents, FdSet.Fds, Hits, AnsweredEach;
      var ret := mFDSet.Poll();
      AnsweredNone(calls, mConnectingInfos, asked);
      if ret <= 0 { return; }
      var totalFds, successFds := Writable();
      SettleAll(totalFds, successFds);
    }

    /** One of the reported connections, the others of which are `done`. */
    method SettleOne(fd: int, noError: bool, ghost was: seq<Call>, ghost infos: map<int, ConnectingInfo>, ghost done: set<int>)
      requires Valid() && fd in mConnectingInfos && fd in asked && noError == asked[fd]
      requires mConnectingInfos == infos - done && AnsweredEach(was, calls, infos, asked, done)
      modifies this`mConnectingInfos, this`calls, mFDSet`nfds, mFDSet.pollFds
      ensures Valid() && Footprint() == old(Footprint()) && old(calls) <= calls
      ensures mConnectingInfos == infos - (done + {fd}) && AnsweredEach(was, calls, infos, asked, done + {fd})
    {
      hide Recorded, DistinctFds, Stack.Contents, FdSet.Fds, Shape, AnsweredEach;
      AnsweredOneMore(was, calls, infos, asked, done, fd);
      var id := mConnectingInfos[fd].id;
      if noError { Settle(fd, SuccessCB(id, fd)); } else { Settle(fd, FailedCB(id)); }
    }

    method SettleAll(totalFds: set<int>, successFds: set<int>)
      requires Valid() && totalFds <= mFDSet.Fds()
      requires forall fd <- totalFds :: fd in asked && (fd in successFds <==> asked[fd])
      modifies this`mConnectingInfos, this`calls, mFDSet`nfds, mFDSet.pollFds
      ensures Valid() && OnlyAnswers() && Footprint() == old(Footprint())
      ensures mConnectingInfos == old(mConnectingInfos) - totalFds
      ensures AnsweredEach(old(calls), calls, old(mConnectingInfos), asked, totalFds)
    {
      hide Recorded, DistinctFds, Stack.Contents, FdSet.Fds, Shape, AnsweredEach;
      ghost var infos, was, done: set<int> := mConnectingInfos, calls, {};
      AnsweredNone(calls, infos, asked);
      var rest := totalFds;
      while rest != {}
        invariant Valid() && Footprint() == old(Footprint()) && was <= calls
        invariant rest !! done && rest + done == totalFds && mConnectingInfos == infos - done
        invariant AnsweredEach(was, calls, infos, asked, done)
        decreases |rest|
      {
        var fd := Pick(rest);
        rest := rest - {fd};
        SettleOne(fd, fd in successFds, was, infos, done);
        done := done + {fd};
      }
    }

    /** A connection that has taken as long as it may is given up. */
    predicate TimedOut(ci: ConnectingInfo, now: int) { !(now - ci.startConnectTime < ci.timeout) }

    /** `checkTimeout`: what has timed out before is failed, and nothing that has not timed out
        by the end. */
    method CheckTimeout()
      requires Valid()
      modifies this, mFDSet, mFDSet.pollFds
      ensures Valid() && OnlyAnswers() && Footprint() == old(Footprint())
      ensures forall fd <- mConnectingInfos :: !TimedOut(mConnectingInfos[fd], old(clock))
      ensures forall fd <- old(mConnectingInfos) :: fd in mConnectingInfos || TimedOut(old(mConnectingInfos)[fd], clock)
    {
      hide Recorded, DistinctFds, Stack.Contents, FdSet.Fds, Shape;
      var rest := mConnectingInfos.Keys;
      while rest != {}
        invariant Valid() && OnlyAnswers() && Footprint() == old(Footprint()) && rest <= mConnectingInfos.Keys
        invariant forall fd <- mConnectingInfos :: fd in rest || !TimedOut(mConnectingInfos[fd], old(clock))
        invariant forall fd <- old(mConnectingInfos) :: fd in mConnectingInfos || TimedOut(old(mConnectingInfos)[fd], clock)
        decreases |rest|
      {
        var fd := Pick(rest);
        rest := rest - {fd};
        var now := Now();
        if TimedOut(mConnectingInfos[fd], now) { Settle(fd, FailedCB(mConnectingInfos[fd].id)); }
      }
    }

    /** The loop over the copy of the map: its connections fail, one after the other. */
    method FailAll(copy: map<int, ConnectingInfo>)
      requires mFDSet.Valid() && Shape() && mFDSet.Fds() == copy.Keys && Recorded(taken, copy, calls)
      modifies this`calls, mFDSet, mFDSet.pollFds
      ensures mFDSet.Valid() && Shape() && mFDSet.Fds() == {} && Recorded(taken, map[], calls)
      ensures old(calls) <= calls && Footprint() == old(Footprint())
    {
      hide Recorded, Shape, FdSet.Fds, DistinctFds, Stack.Contents;
      var copyMap := copy;
      while copyMap != map[]
        invariant mFDSet.Valid() && Shape() && mFDSet.Fds() == copyMap.Keys && Recorded(taken, copyMap, calls)
        invariant old(calls) <= calls && Footprint() == old(Footprint())
        decreases |copyMap.Keys|
      {
        var fd := Pick(copyMap.Keys);
        Drop(fd);
        Answers(taken, copyMap, calls, fd, FailedCB(copyMap[fd].id));
        calls := calls + [FailedCB(copyMap[fd].id)];
        copyMap := copyMap - {fd};
      }
    }

    /** `causeAllFailed`: what is still under way fails, and nothing is left. */
    method CauseAllFailed()
      requires Valid()
      modifies this, mFDSet, mFDSet.pollFds
      ensures Valid() && OnlyAnswers() && mConnectingInfos == map[]
      ensures forall id :: id in taken <==> Called(calls, id)
    {
      hide Recorded, DistinctFds, Stack.Contents, FdSet.Fds;
      var copyMap := mConnectingInfos;
      mConnectingInfos := map[];
      FailAll(copyMap);
      AllAnswered(taken, calls);
    }
  }

  /* ---- The connector object ---- */

  /** What is pushed to the worker's event loop. */
  datatype Proc = Connect(id: nat, timeout: int) | Stop

  function Ids(procs: seq<Proc>): set<nat> { set p <- procs | p.Connect? :: p.id }

  /** The requests not yet taken: none twice, and nothing behind the order to stop. */
  predicate Queued(procs: seq<Proc>) {
    && (forall i, j :: 0 <= i < j < |procs| && procs[i].Connect? && procs[j].Connect? ==> procs[i].id != procs[j].id)
    && (forall i :: 0 <= i < |procs| - 1 ==> procs[i].Connect?)
  }

  /** The requests accepted so far are numbered; each is taken by the worker or still queued. */
  ghost predicate Accounted(accepted: nat, taken: set<nat>, procs: seq<Proc>) {
    Queued(procs) && taken !! Ids(procs) && forall id: nat :: id in taken || id in Ids(procs) <==> id < accepted
  }

  lemma QueuesOne(accepted: nat, taken: set<nat>, procs: seq<Proc>, timeout: int)
    requires Accounted(accepted, taken, procs) && Stop !in procs
    ensures Accounted(accepted + 1, taken, procs + [Connect(accepted, timeout)])
  {
    var p := Connect(accepted, timeout);
    var more := procs + [p];
    forall i | 0 <= i < |procs|
      ensures procs[i].Connect? && procs[i].id != accepted
    {
      assert procs[i] in procs;
      assert procs[i].id in Ids(procs);
    }
    assert Ids(more) == Ids(procs) + {accepted} by {
      assert p in more && forall q <- procs :: q in more;
    }
  }

  lemma QueuesStop(accepted: nat, taken: set<nat>, procs: seq<Proc>)
    requires Accounted(accepted, taken, procs) && Stop !in procs
    ensures Accounted(accepted, taken, procs + [Stop])
  {
    forall i | 0 <= i < |procs|
      ensures procs[i].Connect?
    {
      assert procs[i] in procs;
    }
    assert Ids(procs + [Stop]) == Ids(procs) by {
      assert forall q <- procs :: q in procs + [Stop];
    }
  }

  lemma TakesOne(accepted: nat, taken: set<nat>, procs: seq<Proc>)
    requires Accounted(accepted, taken, procs) && procs != []
    ensures procs[0].Connect? ==> procs[0].id !in taken && Accounted(accepted, taken + {procs[0].id}, procs[1..])
    ensures procs[0].Stop? ==> procs == [Stop] && Accounted(accepted, taken, procs[1..])
  {
    assert procs[0] in procs;
    if procs[0].Stop? { assert procs == [Stop]; }
    var rest := procs[1..];
    assert forall q <- rest :: q in procs;
    if procs[0].Connect? {
      forall id | id in Ids(procs) && id != procs[0].id
        ensures id in Ids(rest)
      {
        var i :| 0 <= i < |procs| && procs[i].Connect? && procs[i].id == id;
        assert rest[i - 1] in rest;
      }
      forall id | id in Ids(rest)
        ensures id in Ids(procs) && id != procs[0].id
      {
        var i :| 0 <= i < |rest| && rest[i].Connect? && rest[i].id == id;
        assert rest[i] == procs[i + 1];
      }
      assert Ids(procs) == Ids(rest) + {procs[0].id};
    }
  }

  /** `AsyncConnector` from `startWorkerThread` to `stopWorkerThread`, with the worker thread's
      steps. `procs` is what the event loop has still to execute, in the order of its mutex. */
  class AsyncConnector {
    var mIsRun: bool
    var procs: seq<Proc>
    var accepted: nat
    const mWorkInfo: ConnectorWorkInfo

    ghost predicate Valid()
      reads this, mWorkInfo, mWorkInfo.mFDSet, mWorkInfo.mFDSet.pollFds, mWorkInfo.mPollResult, mWorkInfo.mPollResult.data
    {
      mWorkInfo.Valid() && Accounted(accepted, mWorkInfo.taken, procs) && (!mIsRun ==> procs == [])
    }

    /** `startWorkerThread` */
    constructor ()
      ensures Valid() && mIsRun && procs == [] && accepted == 0
      ensures fresh(mWorkInfo.Footprint())
    {
      mIsRun, procs, accepted := true, [], 0;
      mWorkInfo := new ConnectorWorkInfo();
    }

    /** `asyncConnect`: it returns normally, and the request is accepted, exactly if both
        callbacks are given and the worker runs. */
    method AsyncConnect(timeout: int, hasSuccessCB: bool, hasFailedCB: bool) returns (thrown: bool)
      requires Valid() && Stop !in procs
      modifies this`procs, this`accepted
      ensures Valid() && Stop !in procs && thrown == !(hasSuccessCB && hasFailedCB && mIsRun)
      ensures accepted == if thrown then old(accepted) else old(accepted) + 1
      ensures procs == if thrown then old(procs) else old(procs) + [Connect(old(accepted), timeout)]
    {
      if !hasSuccessCB || !hasFailedCB { return true; }
      if !mIsRun { return true; }
      QueuesOne(accepted, mWorkInfo.taken, procs, timeout);
      procs := procs + [Connect(accepted, timeout)];
      accepted := accepted + 1;
      thrown := false;
    }

    twostate predicate Worked()
      reads this, mWorkInfo, mWorkInfo.mFDSet, mWorkInfo.mPollResult
    {
      accepted == old(accepted) && fresh(mWorkInfo.Footprint() - old(mWorkInfo.Footprint()))
    }

    /** The worker's event loop executes the next proc. */
    method Execute()
      requires Valid() && procs != []
      modifies this`procs, this`mIsRun, mWorkInfo, mWorkInfo.mFDSet, mWorkInfo.mFDSet.pollFds
      ensures Valid() && Worked() && procs == old(procs)[1..]
      ensures mIsRun == (old(mIsRun) && old(procs)[0] != Stop)
    {
      hide Recorded, Accounted, ConnectorWorkInfo.Shape, FdSet.Fds;
      TakesOne(accepted, mWorkInfo.taken, procs);
      var p := procs[0];
      procs := procs[1..];
      match p {
        case Connect(id, timeout) => mWorkInfo.ProcessConnect(id, timeout);
        case Stop => mIsRun := false;
      }
    }

    /** `runOnceCheckConnect`: one call of `EventLoop::loop` executes at least the procs that
        were queued before it. */
    method RunOnce()
      requires Valid()
      modifies this`procs, this`mIsRun, mWorkInfo, mWorkInfo.Footprint()
      ensures Valid() && Worked() && procs == []
      ensures mIsRun == (old(mIsRun) && Stop !in old(procs))
    {
      hide Recorded, Accounted, ConnectorWorkInfo.Shape, FdSet.Fds;
      while procs != []
        invariant Valid() && Worked()
        invariant mIsRun && Stop !in procs <==> old(mIsRun) && Stop !in old(procs)
        decreases |procs|
      {
        assert procs == [procs[0]] + procs[1..];
        Execute();
      }
      mWorkInfo.CheckConnectStatus();
      mWorkInfo.CheckTimeout();
    }

    /** `stopWorkerThread`: the order to stop is pushed and the thread joined. When it returns,
        every request that was ever accepted has had exactly one of its callbacks. */
    method StopWorkerThread()
      requires Valid() && mIsRun && Stop !in procs
      modifies this, mWorkInfo, mWorkInfo.Footprint()
      ensures Valid() && !mIsRun && accepted == old(accepted)
      ensures CalledOnce(mWorkInfo.calls)
      ensures forall id: nat :: Called(mWorkInfo.calls, id) <==> id < accepted
      ensures mWorkInfo.mConnectingInfos == map[] && mWorkInfo.mFDSet.Fds() == {}
    {
      hide Recorded, Accounted, ConnectorWorkInfo.Shape, FdSet.Fds;
      QueuesStop(accepted, mWorkInfo.taken, procs);
      procs := procs + [Stop];
      while mIsRun
        invariant Valid() && Worked() && (mIsRun ==> Stop in procs)
        decreases mIsRun
      {
        RunOnce();
      }
      mWorkInfo.CauseAllFailed();
      AllTaken(accepted, mWorkInfo.taken);
      assert CalledOnce(mWorkInfo.calls) by { AllAnswered(mWorkInfo.taken, mWorkInfo.calls); }
    }

    /** Requests and turns of the worker's loop in any order, and the stop. */
    method Lifetime()
      requires Valid() && mIsRun && Stop !in procs
      modifies this, mWorkInfo, mWorkInfo.Footprint()
      ensures CalledOnce(mWorkInfo.calls) && forall id: nat :: Called(mWorkInfo.calls, id) <==> id < accepted
    {
      hide Recorded, Accounted, ConnectorWorkInfo.Shape, FdSet.Fds;
      var steps: nat := *;
      while steps > 0
        invariant Valid() && mIsRun && Stop !in procs
        invariant fresh(mWorkInfo.Footprint() - old(mWorkInfo.Footprint()))
      {
        var ask: bool, timeout: int, hasSuccessCB: bool, hasFailedCB: bool := *, *, *, *;
        if ask {
          var thrown := AsyncConnect(timeout, hasSuccessCB, hasFailedCB);
        } else {
          RunOnce();
        }
        steps := steps - 1;
      }
      StopWorkerThread();
    }
  }

  lemma AllTaken(accepted: nat, taken: set<nat>)
    requires Accounted(accepted, taken, [])
    ensures forall id: nat :: id in taken <==> id < accepted
  {
    assert Ids([]) == {};
  }
}
