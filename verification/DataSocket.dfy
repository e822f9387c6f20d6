/** A connected socket inside its event loop: the send list and its two flush loops, the
    receive loop, and what it leaves for the end of the loop's turn. The kernel answers every
    call in any way its interface allows. */
module DataSockets {
  import opened RecvBuffer
  import opened SendLists

  const MAX_IOVEC := 1024
  const SENDBUF_SIZE := 32 * 1024
  const GROW_BUFFER_SIZE := 1024
  const INITIAL_SIZE := 16 * 1024 + GROW_BUFFER_SIZE
  const INT_MAX := 0x7FFF_FFFF

  /** Conversion to a C int of 32 bits. */
  function ToInt(n: int): int { (n + 0x8000_0000) % 0x1_0000_0000 - 0x8000_0000 }

  /** What the socket leaves to the event loop's after-loop queue. */
  datatype AfterLoopProc = FlushLater | ShutdownLater | DisconnectLater

  /** The bytes of a writev call. */
  function Joined(iov: seq<seq<Byte>>): seq<Byte> {
    if iov == [] then [] else Joined(iov[..|iov| - 1]) + iov[|iov| - 1]
  }

  lemma ToIntSmall()
    ensures ToInt(0) == 0
  {
  }

  lemma ToIntAdds(a: int, b: int)
    ensures ToInt(ToInt(a) + b) == ToInt(a + b)
  {
  }

  lemma JoinedNone()
    ensures Joined([]) == []
  {
  }

  lemma JoinedOne(iov: seq<seq<Byte>>, more: seq<Byte>)
    ensures Joined(iov + [more]) == Joined(iov) + more
  {
    assert (iov + [more])[..|iov|] == iov;
  }

  /** The packets of one gather are the front part of what is unsent. */
  lemma {:induction false} GatheredFront(list: seq<Packet>, n: nat)
    requires AllSane(list) && n <= |list|
    ensures AllSane(list[..n]) && Unsent(list[..n]) <= Unsent(list)
    ensures n == |list| ==> Unsent(list[..n]) == Unsent(list)
  {
    assert list == list[..n] + list[n..];
    UnsentOfBoth(list[..n], list[n..]);
  }

  lemma GatherOne(list: seq<Packet>, i: nat)
    requires AllSane(list) && i < |list|
    ensures AllSane(list[..i]) && AllSane(list[..i + 1]) && Sane(list[i])
    ensures Unsent(list[..i + 1]) == Unsent(list[..i]) + Rest(list[i])
    ensures |Rest(list[i])| == list[i].left
  {
    assert list[i] in list;
    assert list[..i + 1] == list[..i] + [list[i]];
    UnsentOfBoth(list[..i], [list[i]]);
    UnsentOfOne(list[i]);
  }

  /** The 32 KB gather comes out empty: nothing but empty packets, or empty packets before one
      that does not fit. */
  ghost predicate Stuck(list: seq<Packet>) { exists g :: StuckAt(list, g) }

  ghost predicate StuckAt(list: seq<Packet>, g: nat) {
    && 0 < g <= |list| && (forall i :: 0 <= i < g ==> list[i].left == 0)
    && (g < |list| ==> list[g].left > SENDBUF_SIZE)
  }

  /** Packets that are not empty never come out as an empty gather. */
  lemma NeverStuck(queued: seq<Packet>, list: seq<Packet>, sent: seq<Byte>, completed: seq<nat>)
    requires Conserved(queued, list, sent, completed, 0) && forall p <- queued :: p.data != []
    ensures !Stuck(list)
  {
    hide Unsent, Callbacks;
    if list != [] {
      assert list[0].data == queued[|queued| - |list|].data && queued[|queued| - |list|] in queued;
      assert list[0].left > 0;
    }
  }

  /** An empty packet in front of one of more than 32 KB: nothing of the two is ever gathered. */
  lemma StuckExample(big: seq<Byte>)
    requires |big| > SENDBUF_SIZE
    ensures
      var list := [Packet([], 0, []), Packet(big, |big|, [])];
      Conserved(list, list, [], [], 0) && Stuck(list)
  {
    var list := [Packet([], 0, []), Packet(big, |big|, [])];
    assert StuckAt(list, 1);
    RemainderSane(list, list);
    assert list[..0] == [];
  }

  /* ---- What the kernel was asked, and answered ---- */

  /** A call with so many bytes offered, or so much room; its answer; and what the error number
      says afterwards. */
  datatype Ask = Ask(offered: nat, answer: int, wouldBlock: bool)

  function Last(asks: seq<Ask>): Ask
    requires asks != []
  {
    asks[|asks| - 1]
  }

  /** The answer to a write says that the kernel takes no more for now: `expected` is the length
      it is compared with. */
  predicate Blocks(a: Ask, expected: int) { if a.answer <= 0 then a.wouldBlock else a.answer != expected }

  predicate Fails(a: Ask) { a.answer <= 0 && !a.wouldBlock }

  /** The answer to a read says that there is no more for now. */
  predicate Drained(a: Ask) { a.answer < a.offered && (a.answer <= 0 ==> a.answer != 0 && a.wouldBlock) }

  /** From `from` on, every call but the last was answered in full, so that another followed. */
  predicate FullButLast(asks: seq<Ask>, from: nat, wraps: bool) {
    forall i :: from <= i < |asks| - 1 ==>
      asks[i].answer > 0 && asks[i].answer == if wraps then ToInt(asks[i].offered) else asks[i].offered
  }

  /* ---- What is queued for the end of the turn ---- */

  function Count(queue: seq<AfterLoopProc>, what: AfterLoopProc): nat {
    if queue == [] then 0 else (if queue[0] == what then 1 else 0) + Count(queue[1..], what)
  }

  lemma {:induction false} CountBoth(a: seq<AfterLoopProc>, b: seq<AfterLoopProc>, what: AfterLoopProc)
    ensures Count(a + b, what) == Count(a, what) + Count(b, what)
  {
    if a == [] {
      assert a + b == b;
    } else {
      CountBoth(a[1..], b, what);
      assert (a + b)[1..] == a[1..] + b;
    }
  }

  /** Nothing of this socket stands behind its disconnect. */
  predicate DisconnectIsLast(queue: seq<AfterLoopProc>) {
    forall i :: 0 <= i < |queue| - 1 ==> queue[i] != DisconnectLater
  }

  /** The queue of a socket, its two flags, and how often its disconnect callback was made. */
  predicate QueueInv(queue: seq<AfterLoopProc>, isPostFlush: bool, isPostFinalClose: bool, disconnected: nat) {
    && Count(queue, FlushLater) == (if isPostFlush then 1 else 0)
    && Count(queue, DisconnectLater) + disconnected == (if isPostFinalClose then 1 else 0)
    && DisconnectIsLast(queue)
    && (disconnected > 0 ==> queue == [])
  }

  lemma {:induction false} NoneCounted(queue: seq<AfterLoopProc>, what: AfterLoopProc)
    requires Count(queue, what) == 0
    ensures what !in queue
  {
    if queue != [] { NoneCounted(queue[1..], what); }
  }

  lemma QueueAtBack(queue: seq<AfterLoopProc>, what: AfterLoopProc, isPostFlush: bool)
    requires QueueInv(queue, isPostFlush, false, 0) && (what.FlushLater? ==> !isPostFlush)
    ensures QueueInv(queue + [what], isPostFlush || what.FlushLater?, what.DisconnectLater?, 0)
  {
    CountBoth(queue, [what], FlushLater);
    CountBoth(queue, [what], DisconnectLater);
    NoneCounted(queue, DisconnectLater);
  }

  lemma TakeFromFront(queue: seq<AfterLoopProc>, isPostFlush: bool, isPostFinalClose: bool)
    requires QueueInv(queue, isPostFlush, isPostFinalClose, 0) && queue != []
    ensures QueueInv(queue[1..], isPostFlush && !queue[0].FlushLater?, isPostFinalClose,
                     if queue[0].DisconnectLater? then 1 else 0)
    ensures queue[0].FlushLater? ==> isPostFlush
  {
    if queue[0].DisconnectLater? { assert |queue| == 1; }
  }

  /** One call of the data callback: how much was consumed before it, and what it was shown. */
  datatype View = View(offset: nat, bytes: seq<Byte>)

  /** Every call was shown received bytes in their place. */
  predicate Shown(views: seq<View>, received: seq<Byte>) {
    forall v <- views :: v.offset + |v.bytes| <= |received| && v.bytes == received[v.offset..v.offset + |v.bytes|]
  }

  class DataSocket {
    var mSocket: bool             // mSocket != nullptr
    var mIsPostFinalClose: bool
    var mCanWrite: bool
    var mIsPostFlush: bool
    var mSendList: seq<Packet>
    var mRecvBuffer: Buffer
    var mDataCallback: bool       // mDataCallback != nullptr
    const mMaxRecvBufferSize: nat
    const usesNormalFlush: bool   // the form that `flush` was compiled to call

    // The event loop: the rest of the batch it executes, and its next batch.
    var copyAfterLoopProcs: seq<AfterLoopProc>
    var afterLoopProcs: seq<AfterLoopProc>
    var disconnected: nat         // calls of mDisConnectCallback

    // The kernel.
    var writeInterest: bool       // EPOLLOUT is asked for
    var shutDown: bool            // the sending side is shut down
    var incoming: seq<Byte>       // what the peer sends

    // Histories.
    ghost var queued: seq<Packet>
    ghost var sent: seq<Byte>
    ghost var completed: seq<nat>
    ghost var received: seq<Byte>
    ghost var consumed: seq<Byte>
    ghost var views: seq<View>
    ghost var sends: seq<Ask>     // written by KernelSend only
    ghost var recvs: seq<Ask>     // written by KernelRecv only

    ghost function Queue(): seq<AfterLoopProc>
      reads `copyAfterLoopProcs, `afterLoopProcs
    {
      copyAfterLoopProcs + afterLoopProcs
    }

    ghost predicate SendInv(owed: nat)
      reads `queued, `mSendList, `sent, `completed
    {
      Conserved(queued, mSendList, sent, completed, owed)
    }

    /** The queue agrees with the flags, and only `onClose` gives up the socket. */
    ghost predicate CloseInv()
      reads `copyAfterLoopProcs, `afterLoopProcs, `mIsPostFlush, `mIsPostFinalClose, `disconnected, `mSocket
    {
      QueueInv(Queue(), mIsPostFlush, mIsPostFinalClose, disconnected) && (mIsPostFinalClose <==> !mSocket)
    }

    /** An open socket that cannot write waits for the kernel to say when it can. */
    ghost predicate BlockedIsArmed()
      reads `mSocket, `shutDown, `mCanWrite, `writeInterest
    {
      mSocket && !shutDown && !mCanWrite ==> writeInterest
    }

    /** Unsent packets of an open socket have a flush queued, or the kernel's promise. The one
        exception is a list that `normalFlush` cannot gather. */
    ghost predicate Armed()
      reads `mSocket, `shutDown, `mCanWrite, `writeInterest, `mSendList, `mIsPostFlush
    {
      && BlockedIsArmed()
      && (mSocket && !shutDown && mSendList != []
          ==> mIsPostFlush || !mCanWrite || (usesNormalFlush && Stuck(mSendList)))
    }

    /** Packets whose length a C int can hold, where the length is passed as one. */
    ghost predicate Sized()
      reads `queued
    {
      usesNormalFlush ==> forall p <- queued :: |p.data| <= INT_MAX
    }

    ghost predicate RecvInv()
      reads `mRecvBuffer, `received, `consumed, `views, mRecvBuffer, mRecvBuffer.data
    {
      && mRecvBuffer.Valid()
      && received == consumed + mRecvBuffer.Readable()
      && INITIAL_SIZE <= mRecvBuffer.data.Length
      && (mRecvBuffer.data.Length <= mMaxRecvBufferSize || mRecvBuffer.data.Length == INITIAL_SIZE)
      && (mRecvBuffer.writePos == mRecvBuffer.data.Length ==> FullForGood())
      && Shown(views, received)
    }

    /** The buffer is full of unconsumed bytes and may not grow. */
    ghost predicate FullForGood()
      reads `mRecvBuffer, mRecvBuffer
    {
      mRecvBuffer.readPos == 0 && mRecvBuffer.writePos == mRecvBuffer.data.Length
      && mRecvBuffer.data.Length + GROW_BUFFER_SIZE > mMaxRecvBufferSize
    }

    ghost predicate Inv()
      reads this, mRecvBuffer, mRecvBuffer.data
    {
      SendInv(0) && Sized() && CloseInv() && Armed() && RecvInv()
    }

    twostate lemma SidesAgree()
      ensures Inv() && disconnected == 0 <==> SendSide() && RecvInv()
    {
    }

    /** A socket that has just entered its event loop. */
    constructor (maxRecvBufferSize: nat, normal: bool, stream: seq<Byte>)
      ensures Inv() && mSocket && disconnected == 0 && incoming == stream
      ensures mMaxRecvBufferSize == maxRecvBufferSize && usesNormalFlush == normal
      ensures fresh(mRecvBuffer) && fresh(mRecvBuffer.data)
    {
      mMaxRecvBufferSize, usesNormalFlush, sends, recvs := maxRecvBufferSize, normal, [], [];
      mIsPostFinalClose, mIsPostFlush, mSocket, mCanWrite, mDataCallback := false, false, true, true, false;
      mSendList, copyAfterLoopProcs, afterLoopProcs, disconnected := [], [], [], 0;
      writeInterest, shutDown, incoming := false, false, stream;
      queued, sent, completed, received, consumed, views := [], [], [], [], [], [];
      mRecvBuffer := new Buffer(INITIAL_SIZE);
      new;
      NothingQueued();
    }

    /* ---- Frames ---- */

    twostate predicate RecvSideUnchanged()
      reads this
    {
      && mRecvBuffer == old(mRecvBuffer) && incoming == old(incoming) && received == old(received)
      && consumed == old(consumed) && views == old(views) && mDataCallback == old(mDataCallback)
      && recvs == old(recvs)
    }

    twostate predicate SendListUnchanged()
      reads this
    {
      && mSendList == old(mSendList) && queued == old(queued) && sent == old(sent) && completed == old(completed)
      && sends == old(sends)
    }

    /* ---- Closing ---- */

    method PushAfterLoopProc(what: AfterLoopProc)
      modifies this`afterLoopProcs
      ensures afterLoopProcs == old(afterLoopProcs) + [what] && Queue() == old(Queue()) + [what]
    {
      afterLoopProcs := afterLoopProcs + [what];
      assert Queue() == old(Queue()) + [what];
    }

    method CloseSocket()
      modifies this`mSocket, this`mCanWrite
      ensures !mSocket && mCanWrite == (old(mCanWrite) && !old(mSocket))
    {
      if mSocket {
        mCanWrite := false;
        mSocket := false;
      }
    }

    /** `onClose`: the disconnect callback is left to the end of the turn, once. */
    method OnClose()
      requires CloseInv() && disconnected == 0
      modifies this`afterLoopProcs, this`mSocket, this`mCanWrite, this`mIsPostFinalClose
      ensures CloseInv() && !mSocket && disconnected == 0
      ensures Count(Queue(), DisconnectLater) == 1
    {
      if mIsPostFinalClose { return; }
      QueueAtBack(Queue(), DisconnectLater, mIsPostFlush);
      PushAfterLoopProc(DisconnectLater);
      CloseSocket();
      mIsPostFinalClose := true;
    }

    method ProcCloseInLoop()
      requires CloseInv() && disconnected == 0
      modifies this`afterLoopProcs, this`mSocket, this`mCanWrite, this`mIsPostFinalClose
      ensures CloseInv() && !mSocket && disconnected == 0
    {
      if !mSocket { return; }
      OnClose();
    }

    method ProcShutdownInLoop()
      modifies this`shutDown, this`mCanWrite
      ensures mSocket ==> shutDown && !mCanWrite
      ensures !mSocket ==> shutDown == old(shutDown) && mCanWrite == old(mCanWrite)
    {
      if mSocket {
        shutDown := true;
        mCanWrite := false;
      }
    }

    /** `postShutdown`, in the loop. */
    method PostShutdown()
      requires CloseInv() && disconnected == 0
      modifies this`afterLoopProcs
      ensures CloseInv()
    {
      if mSocket {
        QueueAtBack(Queue(), ShutdownLater, mIsPostFlush);
        PushAfterLoopProc(ShutdownLater);
      }
    }

    /* ---- Sending ---- */

    method RunAfterFlush()
      requires CloseInv() && BlockedIsArmed() && disconnected == 0
      modifies this`afterLoopProcs, this`mIsPostFlush
      ensures CloseInv() && Armed()
      ensures mSocket && mSendList != [] ==> mIsPostFlush
    {
      hide Stuck;
      if !mIsPostFlush && mSendList != [] && mSocket {
        QueueAtBack(Queue(), FlushLater, false);
        PushAfterLoopProc(FlushLater);
        mIsPostFlush := true;
      }
    }

    /** `send`, in the loop. */
    method Send(data: seq<Byte>, callback: seq<nat>)
      requires SendInv(0) && Sized() && CloseInv() && BlockedIsArmed() && disconnected == 0 && |callback| <= 1
      requires usesNormalFlush ==> |data| <= INT_MAX
      modifies this`mSendList, this`queued, this`afterLoopProcs, this`mIsPostFlush
      ensures SendInv(0) && Sized() && CloseInv() && Armed()
      ensures queued == old(queued) + [Packet(data, |data|, callback)]
      ensures mSocket ==> mIsPostFlush
    {
      hide Conserved, QueueInv, Stuck;
      var p := Packet(data, |data|, callback);
      QueueOne(queued, mSendList, sent, completed, p);
      mSendList := mSendList + [p];
      queued := queued + [p];
      RunAfterFlush();
    }

    /** `checkWrite`: EPOLLOUT is asked for; the answer is always true. */
    method CheckWrite() returns (ok: bool)
      modifies this`writeInterest
      ensures ok && writeInterest
    {
      writeInterest := true;
      ok := true;
    }

    /** writev and send: the kernel accepts some of the bytes it is given, at most INT_MAX, or
        reports an error. `wouldBlock` is what the error number says afterwards. */
    method KernelSend(bytes: seq<Byte>) returns (n: int, wouldBlock: bool)
      modifies this`sent, this`sends
      ensures -1 <= n <= |bytes| && n <= INT_MAX
      ensures sends == old(sends) + [Ask(|bytes|, n, wouldBlock)]
      ensures sent == if n > 0 then old(sent) + bytes[..n] else old(sent)
    {
      n, wouldBlock := *, *;
      if n < -1 || n > |bytes| || n > INT_MAX { n := -1; }
      if n > 0 { sent := sent + bytes[..n]; }
      sends := sends + [Ask(|bytes|, n, wouldBlock)];
    }

    /** The loop after a successful call: packets that are sent leave the list and their
        callbacks are made; the first that is not keeps what is left of it. */
    method Retire(n: nat)
      requires SendInv(n) && AllSane(mSendList)
      modifies this`mSendList, this`completed
      ensures SendInv(0) && AllSane(mSendList)
      ensures |Unsent(mSendList)| == |Unsent(old(mSendList))| - n
      ensures mSendList != [] ==> mSendList[0].left > 0
      ensures old(completed) <= completed
    {
      hide Conserved, Unsent, AllSane;
      var tmpLen: nat := n;
      OwedBounds(queued, mSendList, sent, completed, tmpLen);
      while mSendList != []
        invariant SendInv(tmpLen) && AllSane(mSendList)
        invariant |Unsent(mSendList)| - tmpLen == |Unsent(old(mSendList))| - n
        invariant mSendList == [] ==> tmpLen == 0
        invariant old(completed) <= completed
        decreases |mSendList|
      {
        var packet := mSendList[0];
        if packet.left > tmpLen {
          ShortenFirst(queued, mSendList, sent, completed, tmpLen);
          mSendList := mSendList[0 := packet.(left := packet.left - tmpLen)];
          OwedBounds(queued, mSendList, sent, completed, 0);
          return;
        }
        FinishFirst(queued, mSendList, sent, completed, tmpLen);
        tmpLen := tmpLen - packet.left;
        completed := completed + packet.callback;
        mSendList := mSendList[1..];
        OwedBounds(queued, mSendList, sent, completed, tmpLen);
      }
    }

    /** The iovec of `quickFlush`, and its length in a C int. */
    method GatherIov() returns (iov: seq<seq<Byte>>, readySendLen: int)
      requires AllSane(mSendList)
      ensures |iov| == if |mSendList| < MAX_IOVEC then |mSendList| else MAX_IOVEC
      ensures AllSane(mSendList[..|iov|]) && Joined(iov) == Unsent(mSendList[..|iov|])
      ensures readySendLen == ToInt(|Joined(iov)|)
    {
      hide AllSane, Unsent, Rest, Joined, ToInt;
      JoinedNone();
      ToIntSmall();
      iov, readySendLen := [], 0;
      GatheredFront(mSendList, 0);
      assert Unsent(mSendList[..0]) == [] by { NothingUnsent(mSendList[..0]); }
      var it := 0;
      while it < |mSendList| && |iov| < MAX_IOVEC
        invariant it == |iov| <= |mSendList| && |iov| <= MAX_IOVEC
        invariant AllSane(mSendList[..it]) && Joined(iov) == Unsent(mSendList[..it])
        invariant readySendLen == ToInt(|Joined(iov)|)
      {
        GatherOne(mSendList, it);
        JoinedOne(iov, Rest(mSendList[it]));
        ToIntAdds(|Joined(iov)|, mSendList[it].left);
        iov := iov + [Rest(mSendList[it])];
        readySendLen := ToInt(readySendLen + mSendList[it].left);
        it := it + 1;
      }
    }

    /** The kernel takes no more, or an error has come up. */
    method StopSending(wouldBlock: bool) returns (mustClose: bool)
      modifies this`mCanWrite, this`writeInterest
      ensures mustClose == !wouldBlock
      ensures wouldBlock ==> !mCanWrite && writeInterest
      ensures !wouldBlock ==> mCanWrite == old(mCanWrite) && writeInterest == old(writeInterest)
    {
      mustClose := !wouldBlock;
      if wouldBlock {
        mCanWrite := false;
        var ok := CheckWrite();
        mustClose := !ok;
      }
    }

    /** What the kernel has accepted comes off the list. */
    method Accepted(front: seq<Byte>, n: nat)
      requires AllSane(mSendList) && front <= Unsent(mSendList) && 0 < n <= |front|
      requires |sent| >= n && sent[|sent| - n..] == front[..n]
      requires Conserved(queued, mSendList, sent[..|sent| - n], completed, 0)
      modifies this`mSendList, this`completed
      ensures SendInv(0) && AllSane(mSendList)
      ensures |Unsent(mSendList)| == |Unsent(old(mSendList))| - n
      ensures old(completed) <= completed
      ensures mSendList != [] ==> mSendList[0].left > 0
    {
      hide Conserved, Unsent, AllSane;
      Accept(queued, mSendList, sent[..|sent| - n], completed, n);
      assert sent == sent[..|sent| - n] + Unsent(mSendList)[..n];
      Retire(n);
    }

    /** One call to the kernel with bytes from the front of the list: `expected` is the length
        its answer is compared with. */
    method SendOnce(front: seq<Byte>, expected: int) returns (stop: bool, mustClose: bool)
      requires SendInv(0) && AllSane(mSendList) && front <= Unsent(mSendList) && mSocket && mCanWrite
      modifies this`sent, this`sends, this`mSendList, this`completed, this`mCanWrite, this`writeInterest
      ensures SendInv(0) && AllSane(mSendList)
      ensures old(sent) <= sent && old(completed) <= completed
      ensures |sends| == |old(sends)| + 1 && sends[..|sends| - 1] == old(sends) && Last(sends).offered == |front|
      ensures mustClose <==> stop && Fails(Last(sends))
      ensures stop && !mustClose ==> Blocks(Last(sends), expected)
      ensures !stop ==> Last(sends).answer == expected > 0
      ensures !stop ==> mCanWrite && |Unsent(mSendList)| < |Unsent(old(mSendList))|
      ensures stop && !mustClose ==> !mCanWrite && writeInterest
      ensures mustClose ==> mCanWrite
    {
      hide Conserved, Unsent, AllSane;
      ghost var before := sent;
      var n, wouldBlock := KernelSend(front);
      if n <= 0 {
        mustClose := StopSending(wouldBlock);
        return true, mustClose;
      }
      assert sent[..|sent| - n] == before;
      Accepted(front, n);
      stop, mustClose := n != expected, false;
      if stop { mustClose := StopSending(true); }
    }

    /** What both forms of flush keep. */
    twostate predicate FlushKeeps()
      reads this
    {
      && RecvSideUnchanged() && queued == old(queued) && disconnected == old(disconnected)
      && mIsPostFlush == old(mIsPostFlush) && shutDown == old(shutDown)
      && copyAfterLoopProcs == old(copyAfterLoopProcs)
      && old(sent) <= sent && old(completed) <= completed && old(sends) <= sends
    }

    /** Why a flush has ended with the socket blocked or closed: the kernel's last answer said
        so, and every answer before it was a full one. */
    twostate predicate StoppedByKernel(wraps: bool)
      reads this
    {
      && FullButLast(sends, |old(sends)|, wraps)
      && (mSocket && !mCanWrite ==>
            writeInterest && |sends| > |old(sends)|
            && Blocks(Last(sends), if wraps then ToInt(Last(sends).offered) else Last(sends).offered))
      && (!mSocket ==> |sends| > |old(sends)| && Fails(Last(sends)))
    }

    /** The loop of `quickFlush`. */
    method QuickLoop() returns (mustClose: bool)
      requires SendInv(0) && mSocket && mCanWrite
      modifies this`sent, this`sends, this`mSendList, this`completed, this`mCanWrite, this`writeInterest
      ensures SendInv(0) && old(sent) <= sent && old(completed) <= completed && old(sends) <= sends
      ensures !mustClose && mCanWrite ==> mSendList == []
      ensures FullButLast(sends, |old(sends)|, true)
      ensures !mCanWrite ==> writeInterest && |sends| > |old(sends)| && Blocks(Last(sends), ToInt(Last(sends).offered))
      ensures mustClose ==> |sends| > |old(sends)| && Fails(Last(sends))
      ensures old(mSendList) != [] ==> |sends| > |old(sends)|
    {
      hide Conserved, Unsent, AllSane, Joined, ToInt, Blocks, Fails, AllFull, FullButLast;
      mustClose := false;
      OwedBounds(queued, mSendList, sent, completed, 0);
      NoneAsked(sends, true);
      while mSendList != []
        invariant old(sent) <= sent && old(completed) <= completed && old(sends) <= sends
        invariant SendInv(0) && AllSane(mSendList) && mCanWrite && !mustClose
        invariant AllFull(sends, |old(sends)|, true)
        invariant |sends| == |old(sends)| ==> mSendList == old(mSendList)
        decreases |Unsent(mSendList)|
      {
        var iov, readySendLen := GatherIov();
        if |iov| == 0 { break; }
        GatheredFront(mSendList, |iov|);
        ghost var before := sends;
        var stop;
        stop, mustClose := SendOnce(Joined(iov), readySendLen);
        OneMoreAsk(before, sends, |old(sends)|, true);
        if stop { return; }
      }
      AllFullButLast(sends, |old(sends)|, true);
    }

    /** `quickFlush`: one writev after the other over at most 1024 packets, until the list is
        empty, the kernel takes no more, or the socket is closed. The length it compares the
        kernel's answer with is a C int and may have wrapped. */
    method QuickFlush()
      requires SendInv(0) && CloseInv() && disconnected == 0 && mSocket && mCanWrite
      modifies this
      ensures FlushKeeps() && SendInv(0) && CloseInv()
      ensures mSocket && mCanWrite ==> mSendList == []
      ensures StoppedByKernel(true)
      ensures old(mSendList) != [] ==> |sends| > |old(sends)|
    {
      hide Conserved, QueueInv, ToInt, Blocks, Fails, FullButLast;
      var mustClose := QuickLoop();
      if mustClose { ProcCloseInLoop(); }
    }

    /** The 32 KB buffer of `normalFlush`; a first packet that does not fit is sent from where
        it is. */
    method GatherBuffer() returns (buffer: seq<Byte>)
      requires AllSane(mSendList) && mSendList != []
      requires forall p <- mSendList :: |p.data| <= INT_MAX
      ensures buffer <= Unsent(mSendList) && |buffer| <= INT_MAX
      ensures buffer == [] <==> Stuck(mSendList)
    {
      hide AllSane, Unsent, Rest;
      buffer := [];
      GatheredFront(mSendList, 0);
      NothingUnsent(mSendList[..0]);
      var it := 0;
      while it < |mSendList|
        invariant it <= |mSendList| && |buffer| <= SENDBUF_SIZE
        invariant AllSane(mSendList[..it]) && buffer == Unsent(mSendList[..it]) <= Unsent(mSendList)
        invariant buffer == [] <==> forall i :: 0 <= i < it ==> mSendList[i].left == 0
        invariant forall g :: StuckAt(mSendList, g) ==> it <= g
      {
        GatherOne(mSendList, it);
        GatheredFront(mSendList, it + 1);
        var left := mSendList[it].left;
        if |buffer| + left > SENDBUF_SIZE {
          if it == 0 {
            buffer := Rest(mSendList[0]);
            assert mSendList[0] in mSendList;
            SaneBound(mSendList[0]);
          }
          break;
        }
        buffer := buffer + Rest(mSendList[it]);
        assert |Rest(mSendList[it])| == left;
        it := it + 1;
      }
      assert buffer == [] ==> StuckAt(mSendList, it);
    }

    /** The loop of `normalFlush`. */
    method NormalLoop() returns (mustClose: bool)
      requires SendInv(0) && mSocket && mCanWrite
      requires forall p <- queued :: |p.data| <= INT_MAX
      modifies this`sent, this`sends, this`mSendList, this`completed, this`mCanWrite, this`writeInterest
      ensures SendInv(0) && old(sent) <= sent && old(completed) <= completed && old(sends) <= sends
      ensures !mustClose && mCanWrite ==> mSendList == [] || Stuck(mSendList)
      ensures FullButLast(sends, |old(sends)|, false)
      ensures !mCanWrite ==> writeInterest && |sends| > |old(sends)| && Blocks(Last(sends), Last(sends).offered)
      ensures mustClose ==> |sends| > |old(sends)| && Fails(Last(sends))
      ensures if old(mSendList) == [] || Stuck(old(mSendList))
              then !mustClose && mCanWrite && mSendList == old(mSendList) && sends == old(sends)
              else |sends| > |old(sends)|
    {
      hide Conserved, Unsent, AllSane, Stuck, Blocks, Fails, AllFull, FullButLast;
      mustClose := false;
      OwedBounds(queued, mSendList, sent, completed, 0);
      NoneAsked(sends, false);
      while mSendList != []
        invariant old(sent) <= sent && old(completed) <= completed && old(sends) <= sends
        invariant SendInv(0) && AllSane(mSendList) && mCanWrite && !mustClose
        invariant AllFull(sends, |old(sends)|, false)
        invariant if |sends| == |old(sends)| then mSendList == old(mSendList)
                  else !Stuck(old(mSendList)) && old(mSendList) != []
        decreases |Unsent(mSendList)|
      {
        SmallPackets(queued, mSendList, sent, completed);
        var buffer := GatherBuffer();
        if |buffer| <= 0 { break; }
        ghost var before := sends;
        var stop;
        stop, mustClose := SendOnce(buffer, |buffer|);
        OneMoreAsk(before, sends, |old(sends)|, false);
        if stop { return; }
      }
      AllFullButLast(sends, |old(sends)|, false);
    }

    /** `normalFlush`. A gather that comes out empty ends it too: that happens only if an empty
        packet stands in front of nothing, or of a packet of more than 32 KB. */
    method NormalFlush()
      requires SendInv(0) && CloseInv() && disconnected == 0 && mSocket && mCanWrite
      requires forall p <- queued :: |p.data| <= INT_MAX
      modifies this
      ensures FlushKeeps() && SendInv(0) && CloseInv()
      ensures mSocket && mCanWrite ==> mSendList == [] || Stuck(mSendList)
      ensures (forall p <- queued :: p.data != []) ==> !Stuck(mSendList)
      ensures StoppedByKernel(false)
      ensures if old(mSendList) == [] || Stuck(old(mSendList))
              then mSocket && mCanWrite && mSendList == old(mSendList) && sends == old(sends)
              else |sends| > |old(sends)|
    {
      hide Conserved, QueueInv, Stuck, Blocks, Fails, FullButLast;
      var mustClose := NormalLoop();
      if forall p <- queued :: p.data != [] { NeverStuck(queued, mSendList, sent, completed); }
      if mustClose { ProcCloseInLoop(); }
    }

    /** `flush`, in the form that was compiled. */
    method Flush()
      requires SendInv(0) && Sized() && CloseInv() && BlockedIsArmed() && disconnected == 0
      modifies this
      ensures FlushKeeps() && SendInv(0) && CloseInv() && Armed()
    {
      hide Conserved, QueueInv, Stuck, FullButLast, Blocks, Fails;
      if !mCanWrite || !mSocket { return; }
      if usesNormalFlush { NormalFlush(); } else { QuickFlush(); }
    }

    /** `canSend`: the kernel takes bytes again. */
    method CanSend()
      requires SendInv(0) && CloseInv() && disconnected == 0
      modifies this
      ensures SendInv(0) && CloseInv() && Armed() && disconnected == 0
      ensures mSocket && mSendList != [] ==> mIsPostFlush && mCanWrite
      ensures RecvSideUnchanged() && SendListUnchanged()
    {
      hide Conserved, QueueInv, Shown, Stuck;
      if mSocket { writeInterest := false; }
      mCanWrite := true;
      RunAfterFlush();
    }

    /* ---- Receiving ---- */

    /** `growRecvBuffer`, for a buffer that exists: 1024 more bytes, if the maximum allows it. */
    method GrowRecvBuffer()
      requires mRecvBuffer.Valid()
      modifies this`mRecvBuffer
      ensures mRecvBuffer.Valid() && mRecvBuffer.Readable() == old(mRecvBuffer.Readable())
      ensures
        if old(mRecvBuffer.data.Length) + GROW_BUFFER_SIZE <= mMaxRecvBufferSize
        then fresh(mRecvBuffer) && fresh(mRecvBuffer.data)
             && mRecvBuffer.data.Length == old(mRecvBuffer.data.Length) + GROW_BUFFER_SIZE
        else mRecvBuffer == old(mRecvBuffer)
    {
      if mRecvBuffer.data.Length + GROW_BUFFER_SIZE <= mMaxRecvBufferSize {
        var newBuffer := new Buffer(mRecvBuffer.data.Length + GROW_BUFFER_SIZE);
        var ok := newBuffer.Write(mRecvBuffer.data[mRecvBuffer.readPos..mRecvBuffer.writePos]);
        mRecvBuffer := newBuffer;
      }
    }

    /** The bytes received are consumed or readable, and the buffer has a size it may have. */
    ghost predicate Buffered()
      reads `mRecvBuffer, `received, `consumed, `views, mRecvBuffer, mRecvBuffer.data
    {
      && mRecvBuffer.Valid()
      && received == consumed + mRecvBuffer.Readable()
      && INITIAL_SIZE <= mRecvBuffer.data.Length
      && (mRecvBuffer.data.Length <= mMaxRecvBufferSize || mRecvBuffer.data.Length == INITIAL_SIZE)
      && (|mRecvBuffer.Readable()| == mRecvBuffer.data.Length
          ==> mRecvBuffer.data.Length + GROW_BUFFER_SIZE > mMaxRecvBufferSize)
      && Shown(views, received)
    }

    ghost predicate SendSide()
      reads `queued, `mSendList, `sent, `completed, `copyAfterLoopProcs, `afterLoopProcs, `mIsPostFlush
      reads `mIsPostFinalClose, `disconnected, `mSocket, `shutDown, `mCanWrite, `writeInterest
    {
      SendInv(0) && Sized() && CloseInv() && Armed() && disconnected == 0
    }

    twostate predicate SameOrNewBuffer()
      reads this, mRecvBuffer
    {
      mRecvBuffer == old(mRecvBuffer) || (fresh(mRecvBuffer) && fresh(mRecvBuffer.data))
    }

    /** recv: some of the bytes the peer sends, an end of the stream (`n` is 0), or an error. */
    method KernelRecv(room: nat) returns (n: int, bytes: seq<Byte>, wouldBlock: bool)
      requires room > 0
      modifies this`incoming, this`recvs
      ensures -1 <= n <= room && |bytes| == if n > 0 then n else 0
      ensures recvs == old(recvs) + [Ask(room, n, wouldBlock)]
      ensures old(incoming) == bytes + incoming
    {
      n, wouldBlock := *, *;
      if n < -1 || n > room || n > |incoming| { n := -1; }
      bytes := incoming[..if n > 0 then n else 0];
      incoming := incoming[|bytes|..];
      recvs := recvs + [Ask(room, n, wouldBlock)];
    }

    /** The bytes stand behind the write position, and a buffer that they have filled grows. */
    method Fill(bytes: seq<Byte>)
      requires RecvInv() && mRecvBuffer.writePos + |bytes| <= mRecvBuffer.data.Length
      modifies this`mRecvBuffer, this`received, mRecvBuffer, mRecvBuffer.data
      ensures Buffered() && received == old(received) + bytes && SameOrNewBuffer()
    {
      hide Conserved, QueueInv, Shown;
      label Before:
      mRecvBuffer.CopyIn(bytes);
      mRecvBuffer.AddWritePos(|bytes|);
      received := received + bytes;
      assert mRecvBuffer.Readable() == old@Before(mRecvBuffer.Readable()) + bytes by {
        var b := mRecvBuffer;
        assert b.data[..old@Before(b.writePos)][b.readPos..] == b.data[b.readPos..old@Before(b.writePos)];
      }
      ShownMore(views, old(received), bytes);
      var count := mRecvBuffer.ReadValidCount();
      if count == mRecvBuffer.data.Length { GrowRecvBuffer(); }
    }

    /** What code that runs in the loop may do with this socket: send, disconnect, shut down. */
    method UserCalls()
      requires SendSide()
      modifies this
      ensures SendSide() && RecvSideUnchanged()
      ensures sent == old(sent) && completed == old(completed) && sends == old(sends)
    {
      hide Conserved, QueueInv, Shown, Stuck;
      var calls: nat := *;
      while calls > 0
        invariant SendSide() && RecvSideUnchanged()
        invariant sent == old(sent) && completed == old(completed) && sends == old(sends)
      {
        var what: nat := *;
        match what {
          case 0 =>
            var data: seq<Byte>, callback: seq<nat> := *, *;
            if |callback| <= 1 && (usesNormalFlush ==> |data| <= INT_MAX) { Send(data, callback); }
          case 1 => ProcCloseInLoop();
          case _ => PostShutdown();
        }
        calls := calls - 1;
      }
    }

    /** The data callback: it is shown exactly what is received and not consumed, may use the
        socket, and says how much of it is consumed now. */
    method OnData(view: seq<Byte>) returns (proclen: nat)
      requires SendSide() && received == consumed + view
      modifies this
      ensures proclen <= |view| && SendSide()
      ensures mRecvBuffer == old(mRecvBuffer) && incoming == old(incoming) && received == old(received)
      ensures consumed == old(consumed) && mDataCallback == old(mDataCallback) && recvs == old(recvs)
      ensures views == old(views) + [View(|consumed|, view)]
      ensures sent == old(sent) && completed == old(completed) && sends == old(sends)
    {
      views := views + [View(|consumed|, view)];
      UserCalls();
      proclen := *;
      if proclen > |view| { proclen := |view|; }
    }

    method Consume(proclen: nat)
      requires Buffered() && proclen <= |mRecvBuffer.Readable()|
      modifies this`consumed, mRecvBuffer`readPos
      ensures Buffered() && old(consumed) <= consumed
    {
      hide Shown;
      ghost var view := mRecvBuffer.Readable();
      Reassociate(consumed, view, proclen);
      mRecvBuffer.AddReadPos(proclen);
      consumed := consumed + view[..proclen];
    }

    /** The readable bytes are offered to the data callback, if there is one. */
    method Offer()
      requires Buffered() && SendSide()
      modifies this, mRecvBuffer
      ensures Buffered() && SendSide() && mRecvBuffer == old(mRecvBuffer)
      ensures received == old(received) && incoming == old(incoming) && old(consumed) <= consumed
      ensures mDataCallback == old(mDataCallback) && recvs == old(recvs)
      ensures old(mDataCallback) ==> views == old(views) + [View(|old(consumed)|, old(mRecvBuffer.Readable()))]
      ensures sent == old(sent) && completed == old(completed) && sends == old(sends)
    {
      hide Shown, SendSide;
      if mDataCallback {
        var view := mRecvBuffer.data[mRecvBuffer.readPos..mRecvBuffer.writePos];
        ShownOne(views, received, consumed, view);
        var proclen := OnData(view);
        Consume(proclen);
      }
    }

    /** The loop goes round with room behind the write position, unless the buffer is full for
        good. */
    method MakeRoom()
      requires Buffered()
      modifies mRecvBuffer, mRecvBuffer.data
      ensures RecvInv()
    {
      var free := mRecvBuffer.WriteValidCount();
      var count := mRecvBuffer.ReadValidCount();
      if free == 0 || count == 0 { mRecvBuffer.AdjustToHead(); }
    }

    method TryRecvLen() returns (n: nat)
      requires RecvInv()
      ensures mRecvBuffer.Valid() && mRecvBuffer.writePos + n == mRecvBuffer.data.Length
      ensures n == 0 ==> FullForGood()
    {
      n := mRecvBuffer.WriteValidCount();
    }

    /** `recv`: until the kernel has nothing more, the socket is closed, or the buffer is full of
        unconsumed bytes and may not grow. It asks the kernel, first for all the room there is,
        and again exactly as long as the answers are full ones and there is room. */
    method Recv()
      requires Inv() && disconnected == 0
      modifies this, mRecvBuffer, mRecvBuffer.data
      ensures Inv() && disconnected == 0 && SameOrNewBuffer()
      ensures old(received) <= received && old(consumed) <= consumed
      ensures old(received) + old(incoming) == received + incoming
      ensures old(recvs) <= recvs && FullButLast(recvs, |old(recvs)|, false)
      ensures mSocket ==> FullForGood() || (|recvs| > |old(recvs)| && Drained(Last(recvs)))
      ensures old(mSocket) && old(mRecvBuffer.writePos < mRecvBuffer.data.Length)
              ==> |recvs| > |old(recvs)|
                  && recvs[|old(recvs)|].offered == old(mRecvBuffer.data.Length) - old(mRecvBuffer.writePos)
      ensures sent == old(sent) && completed == old(completed) && sends == old(sends)
    {
      hide Shown, SendSide, RecvInv, Buffered, Conserved, QueueInv, FullForGood;
      SidesAgree();
      var mustClose, stop := false, false;
      while mSocket
        invariant SendSide() && RecvInv() && SameOrNewBuffer() && !mustClose
        invariant old(received) <= received && old(consumed) <= consumed
        invariant old(received) + old(incoming) == received + incoming
        invariant AllFull(recvs, |old(recvs)|, false) && old(recvs) <= recvs
        invariant if |recvs| == |old(recvs)|
                  then mRecvBuffer == old(mRecvBuffer) && unchanged(mRecvBuffer) && mSocket == old(mSocket)
                  else recvs[|old(recvs)|].offered == old(mRecvBuffer.data.Length) - old(mRecvBuffer.writePos)
        invariant sent == old(sent) && completed == old(completed) && sends == old(sends)
        decreases |incoming|
      {
        ghost var before := recvs;
        stop, mustClose := RecvOnce();
        OneMoreAsk(before, recvs, |old(recvs)|, false);
        if stop { break; }
      }
      AllFullButLast(recvs, |old(recvs)|, false);
      SidesAgree();
      if mustClose { ProcCloseInLoop(); }
    }

    /** One trip of the loop in `recv`. */
    method RecvOnce() returns (stop: bool, mustClose: bool)
      requires SendSide() && RecvInv() && mSocket
      modifies this, mRecvBuffer, mRecvBuffer.data
      ensures SendSide() && RecvInv() && SameOrNewBuffer()
      ensures old(received) <= received && old(consumed) <= consumed
      ensures old(received) + old(incoming) == received + incoming
      ensures sent == old(sent) && completed == old(completed) && sends == old(sends)
      ensures
        var room := old(mRecvBuffer.data.Length) - old(mRecvBuffer.writePos);
        if room == 0
        then stop && !mustClose && FullForGood() && recvs == old(recvs)
        else && |recvs| == |old(recvs)| + 1 && recvs[..|old(recvs)|] == old(recvs) && Last(recvs).offered == room
             && (mustClose ==> stop)
             && (stop && !mustClose ==> Drained(Last(recvs)))
             && (!stop ==> Last(recvs).answer == room && |incoming| < |old(incoming)|)
    {
      hide Shown, SendSide, RecvInv, Buffered, FullForGood;
      var tryRecvLen := TryRecvLen();
      if tryRecvLen == 0 { return true, false; }
      var retlen, bytes, wouldBlock := KernelRecv(tryRecvLen);
      if retlen <= 0 { return true, retlen == 0 || !wouldBlock; }
      Fill(bytes);
      Offer();
      MakeRoom();
      stop, mustClose := retlen < tryRecvLen, false;
    }

    /* ---- Whole runs ---- */

    /** The histories only grow, and what the peer sends is received in order. */
    twostate predicate Progress()
      reads this
    {
      && old(received) <= received && old(consumed) <= consumed && old(sent) <= sent && old(completed) <= completed
      && old(received) + old(incoming) == received + incoming
      && old(sends) <= sends && old(recvs) <= recvs
    }

    /** The next entry of the batch. When it is the disconnect callback, which may delete the
        socket, nothing of this socket is left in the queue. */
    method RunAfterLoopProc()
      requires SendSide() && copyAfterLoopProcs != []
      modifies this
      ensures SendInv(0) && Sized() && CloseInv() && Armed() && RecvSideUnchanged()
      ensures disconnected > 0 ==> Queue() == [] && !mSocket
      ensures old(sent) <= sent && old(completed) <= completed && old(sends) <= sends
    {
      hide Conserved, Stuck;
      TakeFromFront(Queue(), mIsPostFlush, mIsPostFinalClose);
      var what := copyAfterLoopProcs[0];
      assert Queue()[1..] == copyAfterLoopProcs[1..] + afterLoopProcs;
      copyAfterLoopProcs := copyAfterLoopProcs[1..];
      match what {
        case FlushLater =>
          mIsPostFlush := false;
          Flush();
        case ShutdownLater =>
          ProcShutdownInLoop();
        case DisconnectLater =>
          disconnected := disconnected + 1;
      }
    }

    /** The next batch begins when the last one is executed. */
    method NextBatch()
      requires SendSide() && copyAfterLoopProcs == []
      modifies this`copyAfterLoopProcs, this`afterLoopProcs
      ensures SendSide()
    {
      hide Conserved, QueueInv;
      assert Queue() == afterLoopProcs + [];
      copyAfterLoopProcs, afterLoopProcs := afterLoopProcs, copyAfterLoopProcs;
    }

    /** EPOLLRDHUP: what is there is received, and the socket closed. */
    method HangUp()
      requires Inv() && disconnected == 0
      modifies this, mRecvBuffer, mRecvBuffer.data
      ensures Inv() && disconnected == 0 && SameOrNewBuffer() && !mSocket && Progress()
    {
      hide Conserved, QueueInv, Shown;
      Recv();
      OnClose();
    }

    /** One step of the event loop on this socket, whichever it is. */
    method Step()
      requires Inv() && disconnected == 0
      modifies this, mRecvBuffer, mRecvBuffer.data
      ensures Inv() && SameOrNewBuffer() && Progress()
      ensures disconnected > 0 ==> Queue() == [] && !mSocket
    {
      hide Conserved, QueueInv, Shown, RecvInv, Stuck;
      var what: nat := *;
      match what {
        case 0 => UserCalls();
        case 1 => mDataCallback := *;
        case 2 => Recv();
        case 3 => CanSend();
        case 4 => HangUp();
        case 5 => if copyAfterLoopProcs == [] { NextBatch(); }
        case _ => if copyAfterLoopProcs != [] { RunAfterLoopProc(); }
      }
    }

    /** Any number of steps, up to the disconnect callback. */
    method Steps()
      requires Inv() && disconnected == 0
      modifies this, mRecvBuffer, mRecvBuffer.data
      ensures Inv() && SameOrNewBuffer() && Progress()
      ensures disconnected > 0 ==> Queue() == [] && !mSocket
    {
      hide Conserved, QueueInv, Shown, RecvInv, Stuck;
      var turns: nat := *;
      while turns > 0 && disconnected == 0
        invariant Inv() && SameOrNewBuffer() && Progress()
        invariant disconnected > 0 ==> Queue() == [] && !mSocket
        decreases turns
      {
        Step();
        turns := turns - 1;
      }
    }
  }

  /** From `from` on, every call was answered in full. */
  predicate AllFull(asks: seq<Ask>, from: nat, wraps: bool) {
    forall i :: from <= i < |asks| ==>
      asks[i].answer > 0 && asks[i].answer == if wraps then ToInt(asks[i].offered) else asks[i].offered
  }

  lemma NoneAsked(asks: seq<Ask>, wraps: bool)
    ensures AllFull(asks, |asks|, wraps)
  {
  }

  lemma OneMoreAsk(before: seq<Ask>, asks: seq<Ask>, from: nat, wraps: bool)
    requires AllFull(before, from, wraps)
    requires asks == before || (|asks| == |before| + 1 && asks[..|before|] == before)
    ensures FullButLast(asks, from, wraps)
    ensures asks == before || (Last(asks).answer > 0
                               && Last(asks).answer == if wraps then ToInt(Last(asks).offered) else Last(asks).offered)
            ==> AllFull(asks, from, wraps)
  {
    hide ToInt;
  }

  lemma AllFullButLast(asks: seq<Ask>, from: nat, wraps: bool)
    ensures AllFull(asks, from, wraps) ==> FullButLast(asks, from, wraps)
  {
    hide ToInt;
  }

  lemma ShownMore(views: seq<View>, received: seq<Byte>, more: seq<Byte>)
    requires Shown(views, received)
    ensures Shown(views, received + more)
  {
    forall v <- views
      ensures v.bytes == (received + more)[v.offset..v.offset + |v.bytes|]
    {
    }
  }

  lemma Reassociate(consumed: seq<Byte>, view: seq<Byte>, n: nat)
    requires n <= |view|
    ensures consumed + view == (consumed + view[..n]) + view[n..]
  {
  }

  lemma ShownOne(views: seq<View>, received: seq<Byte>, consumed: seq<Byte>, view: seq<Byte>)
    requires Shown(views, received) && received == consumed + view
    ensures Shown(views + [View(|consumed|, view)], received)
  {
  }

  lemma OwedBounds(queued: seq<Packet>, list: seq<Packet>, sent: seq<Byte>, completed: seq<nat>, owed: nat)
    requires Conserved(queued, list, sent, completed, owed)
    ensures AllSane(list) && owed <= |Unsent(list)| && (list == [] ==> owed == 0)
  {
  }

  lemma SmallPackets(queued: seq<Packet>, list: seq<Packet>, sent: seq<Byte>, completed: seq<nat>)
    requires Conserved(queued, list, sent, completed, 0) && forall p <- queued :: |p.data| <= INT_MAX
    ensures forall p <- list :: |p.data| <= INT_MAX
  {
    hide Unsent, Callbacks;
    forall p <- list
      ensures |p.data| <= INT_MAX
    {
      var i :| 0 <= i < |list| && list[i] == p;
      assert queued[|queued| - |list| + i] in queued;
    }
  }

  lemma NothingUnsent(list: seq<Packet>)
    requires list == []
    ensures AllSane(list) && Unsent(list) == []
  {
  }

  lemma SaneBound(p: Packet)
    requires Sane(p)
    ensures |Rest(p)| <= |p.data|
  {
  }
}
