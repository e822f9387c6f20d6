/** The message queue between one writing and one reading thread: each has a list of its own,
    and a shared list behind a mutex hands items over. The emptiness of the shared list is
    also asked for without the mutex. */
module MsgQueues {
  import opened Wrappers

  class MsgQueue<T(==)> {
    var mWriteList: seq<T>
    var mSharedList: seq<T>
    var mReadList: seq<T>
    const exact: bool             // reads without the mutex give the true answer
    ghost var pushed: seq<T>
    ghost var popped: seq<T>

    /** First in, first out: what was popped, and then the three lists, are what was pushed. */
    ghost predicate Valid()
      reads this
    {
      pushed == popped + mReadList + mSharedList + mWriteList
    }

    constructor (exactReads: bool)
      ensures Valid() && pushed == popped == [] && exact == exactReads
    {
      mWriteList, mSharedList, mReadList, pushed, popped := [], [], [], [], [];
      exact := exactReads;
    }

    /* ---- What the threads do to each other ---- */

    twostate predicate ReaderMoved()
      reads this
    {
      && mWriteList == old(mWriteList) && pushed == old(pushed) && old(popped) <= popped
      && (old(mSharedList) == [] ==> mSharedList == [])
    }

    twostate predicate WriterMoved()
      reads this
    {
      mReadList == old(mReadList) && popped == old(popped) && old(pushed) <= pushed
    }

    /** The reader makes any number of its atomic steps. */
    method Reader()
      requires Valid()
      modifies this
      ensures Valid() && ReaderMoved()
    {
      var steps: nat := *;
      while steps > 0
        invariant Valid() && ReaderMoved()
      {
        var pop: bool := *;
        if pop { var x := PopFront(); } else { LockedRead(); }
        steps := steps - 1;
      }
    }

    /** The writer makes any number of its atomic steps. */
    method Writer()
      requires Valid()
      modifies this
      ensures Valid() && WriterMoved()
    {
      var steps: nat, items: seq<T> := *, *;
      while steps > 0
        invariant Valid() && WriterMoved()
      {
        var what: nat := *;
        if what == 0 && items != [] {
          Push(items[0]);
          items := items[1..];
        } else if what == 1 {
          LockedTry();
        } else {
          LockedForce();
        }
        steps := steps - 1;
      }
    }

    /** `mSharedList.empty()` without the mutex. */
    method SharedLooksEmpty() returns (answer: bool)
      ensures exact ==> (answer <==> mSharedList == [])
    {
      answer := *;
      if exact { answer := mSharedList == []; }
    }

    /* ---- The writer ---- */

    method Push(t: T)
      requires Valid()
      modifies this`mWriteList, this`pushed
      ensures Valid() && mWriteList == old(mWriteList) + [t] && pushed == old(pushed) + [t]
    {
      mWriteList := mWriteList + [t];
      pushed := pushed + [t];
    }

    /** The critical section of `trySyncWrite`. */
    method LockedTry()
      requires Valid()
      modifies this`mWriteList, this`mSharedList
      ensures Valid()
      ensures old(mSharedList) == [] ==> mWriteList == [] && mSharedList == old(mWriteList)
      ensures old(mSharedList) != [] ==> mWriteList == old(mWriteList) && mSharedList == old(mSharedList)
    {
      if mWriteList != [] && mSharedList == [] {
        mSharedList, mWriteList := mWriteList, mSharedList;
      }
    }

    /** `trySyncWrite`: what was written goes over as a whole or not at all, and never on top of
        items that the reader has not taken. */
    method TrySyncWrite()
      requires Valid()
      modifies this
      ensures Valid() && pushed == old(pushed) && old(popped) <= popped
      ensures mWriteList == old(mWriteList) || (mWriteList == [] && mSharedList == old(mWriteList))
      ensures exact && old(mSharedList) == [] ==> mWriteList == []
    {
      if mWriteList == [] { return; }
      var empty := SharedLooksEmpty();
      if !empty { return; }
      Reader();
      LockedTry();
    }

    /** The critical section of `forceSyncWrite`: the smaller list moves to the larger one. */
    method LockedForce()
      requires Valid()
      modifies this`mWriteList, this`mSharedList
      ensures Valid() && mWriteList == []
      ensures mSharedList == old(mSharedList) + old(mWriteList)
    {
      assert mSharedList + [] == mSharedList;
      if mWriteList == [] { return; }
      if |mWriteList| > |mSharedList| {
        var it := |mSharedList|;
        while it > 0
          invariant 0 <= it <= |mSharedList| && mSharedList == old(mSharedList)
          invariant mWriteList == mSharedList[it..] + old(mWriteList)
        {
          it := it - 1;
          mWriteList := [mSharedList[it]] + mWriteList;
        }
        mSharedList := [];
        mSharedList, mWriteList := mWriteList, mSharedList;
      } else {
        for i := 0 to |mWriteList|
          invariant mWriteList == old(mWriteList) && mSharedList == old(mSharedList) + mWriteList[..i]
        {
          mSharedList := mSharedList + [mWriteList[i]];
        }
        assert mWriteList[..|mWriteList|] == mWriteList;
        mWriteList := [];
      }
      assert popped + mReadList + (old(mSharedList) + old(mWriteList)) == popped + mReadList + old(mSharedList) + old(mWriteList);
    }

    /** `forceSyncWrite`: nothing is lost or moved out of order whatever the reads without the
        mutex answer; when they are exact, nothing stays in the write list. */
    method ForceSyncWrite()
      requires Valid()
      modifies this
      ensures Valid() && pushed == old(pushed) && old(popped) <= popped
      ensures mWriteList == old(mWriteList) || mWriteList == []
      ensures exact ==> mWriteList == []
    {
      if mWriteList == [] { return; }
      var empty := SharedLooksEmpty();
      if empty {
        Reader();
        TrySyncWrite();
        return;
      }
      Reader();
      LockedForce();
    }

    /* ---- The reader ---- */

    method PopFront() returns (data: Option<T>)
      requires Valid()
      modifies this`mReadList, this`popped
      ensures Valid()
      ensures
        if old(mReadList) == [] then data == None && mReadList == [] && popped == old(popped)
        else data == Some(old(mReadList)[0]) && mReadList == old(mReadList)[1..] && popped == old(popped) + [old(mReadList)[0]]
    {
      if mReadList == [] { return None; }
      data := Some(mReadList[0]);
      popped := popped + [mReadList[0]];
      mReadList := mReadList[1..];
      assert popped + mReadList == old(popped) + old(mReadList);
    }

    /** The critical section of `syncRead`. */
    method LockedRead()
      requires Valid()
      modifies this`mReadList, this`mSharedList
      ensures Valid()
      ensures
        if old(mReadList) == [] then mReadList == old(mSharedList) && mSharedList == []
        else mReadList == old(mReadList) && mSharedList == old(mSharedList)
    {
      if mReadList == [] && mSharedList != [] {
        mSharedList, mReadList := mReadList, mSharedList;
      }
    }

    /** `syncRead`, whether or not it waits, and whatever ends the wait: a reader without items
        takes over everything that the shared list holds when it has the mutex. */
    method SyncRead()
      requires Valid()
      modifies this
      ensures Valid() && popped == old(popped) && old(pushed) <= pushed
      ensures old(mReadList) != [] ==> mReadList == old(mReadList)
      ensures old(mReadList) == [] ==> mSharedList == []
    {
      if mReadList != [] { return; }
      Writer();
      LockedRead();
    }

    /* ---- Whole runs ---- */

    /** Every run of the two threads, cut at the mutex and at the reads without it: items come
        out in the order in which they went in, none lost and none twice. */
    method Run()
      requires Valid()
      modifies this
      ensures Valid() && old(pushed) <= pushed && old(popped) <= popped && popped <= pushed
    {
      var steps: nat := *;
      while steps > 0
        invariant Valid() && old(pushed) <= pushed && old(popped) <= popped
      {
        var writer: bool := *;
        if writer { Writer(); } else { Reader(); }
        steps := steps - 1;
      }
    }
  }
}
