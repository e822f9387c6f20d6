/** The coroutine scheduler: a table of coroutines, the ids that are not used yet, and the
    ring of the coroutines that want to run. A coroutine runs from the moment it is entered
    until it yields, blocks or ends. */
module Coroutines {
  import opened Wrappers
  import opened RingStack

  datatype CoState = Ready | Running | Suspended | Blocked

  const GROWTH := 1024

  predicate Waiting(co: Option<CoState>) { co == Some(Ready) || co == Some(Suspended) }

  predicate Distinct(s: seq<int>) { forall i, j :: 0 <= i < j < |s| ==> s[i] != s[j] }

  /** The ring holds the coroutines that are ready or suspended, each once, and no other; only
      the current one runs; the unused ids are unused. */
  ghost predicate Scheduled(cos: seq<Option<CoState>>, active: seq<int>, free: seq<int>, current: int) {
    && Distinct(active) && (forall id <- active :: 0 <= id < |cos| && Waiting(cos[id]))
    && (forall id :: 0 <= id < |cos| && Waiting(cos[id]) ==> id in active)
    && (current == -1 || 0 <= current < |cos|)
    && (forall id :: 0 <= id < |cos| ==> (cos[id] == Some(Running) <==> current == id))
    && Distinct(free) && (forall id <- free :: 0 <= id < |cos| && cos[id] == None)
  }

  /** A coroutine joins the ring: a new one, one that is resumed, or the one that yields. */
  lemma Joins(cos: seq<Option<CoState>>, active: seq<int>, free: seq<int>, current: int, id: int, co: CoState)
    requires Scheduled(cos, active, free, current)
    requires 0 <= id < |cos| && !Waiting(cos[id]) && Waiting(Some(co)) && id !in free
    ensures Scheduled(cos[id := Some(co)], active + [id], free, if current == id then -1 else current)
  {
    assert id !in active;
    var cos', active' := cos[id := Some(co)], active + [id];
    forall k | 0 <= k < |cos'| && Waiting(cos'[k])
      ensures k in active'
    {
      if k != id { assert Waiting(cos[k]); }
    }
  }

  /** The first of the ring is entered. */
  lemma Enters(cos: seq<Option<CoState>>, active: seq<int>, free: seq<int>)
    requires Scheduled(cos, active, free, -1) && active != []
    ensures 0 <= active[0] < |cos| && Waiting(cos[active[0]])
    ensures Scheduled(cos[active[0] := Some(Running)], active[1..], free, active[0])
  {
    var id := active[0];
    assert id in active;
    var cos' := cos[id := Some(Running)];
    forall k <- active[1..]
      ensures k in active && k != id
    {
      var i :| 0 <= i < |active[1..]| && active[1..][i] == k;
      assert active[i + 1] == k;
    }
    forall k | 0 <= k < |cos'| && Waiting(cos'[k])
      ensures k in active[1..]
    {
      assert k != id && k in active;
      var i :| 0 <= i < |active| && active[i] == k;
      assert active[1..][i - 1] == k;
    }
  }

  /** The running coroutine leaves: it blocks, or it is gone. */
  lemma Leaves(cos: seq<Option<CoState>>, active: seq<int>, free: seq<int>, current: int, co: Option<CoState>)
    requires Scheduled(cos, active, free, current) && current != -1
    requires co == None || co == Some(Blocked)
    ensures Scheduled(cos[current := co], active, free, -1)
  {
    assert cos[current] == Some(Running);
    var cos' := cos[current := co];
    forall k | 0 <= k < |cos'| && Waiting(cos'[k])
      ensures k in active
    {
      assert k != current && Waiting(cos[k]);
    }
  }

  lemma Claims(cos: seq<Option<CoState>>, active: seq<int>, free: seq<int>, current: int)
    requires Scheduled(cos, active, free, current) && free != []
    ensures
      var n := |free| - 1;
      && 0 <= free[n] < |cos| && cos[free[n]] == None && free[n] !in free[..n]
      && Scheduled(cos, active, free[..n], current)
  {
    assert free[|free| - 1] in free;
  }

  lemma FreeDiffer(cos: seq<Option<CoState>>, active: seq<int>, free: seq<int>, current: int)
    requires Scheduled(cos, active, free, current)
    ensures Distinct(free)
  {
  }

  lemma Grows(cos: seq<Option<CoState>>, active: seq<int>, free: seq<int>, current: int)
    requires Scheduled(cos, active, free, current)
    ensures Scheduled(cos + [None], active, free + [|cos|], current)
  {
    var cos' := cos + [None];
    assert forall i :: 0 <= i < |free| ==> free[i] in free;
    forall k | 0 <= k < |cos'| && Waiting(cos'[k])
      ensures k in active
    {
      assert k < |cos| && Waiting(cos[k]);
    }
  }

  /** Every id that was ever handed out lies in the table, and none of them is handed out again. */
  ghost predicate NotAgain(cos: seq<Option<CoState>>, free: seq<int>, used: set<int>) {
    (forall id <- used :: 0 <= id < |cos|) && forall id <- free :: id !in used
  }

  lemma UsesOne(cos: seq<Option<CoState>>, free: seq<int>, used: set<int>)
    requires NotAgain(cos, free, used) && free != [] && Distinct(free) && 0 <= free[|free| - 1] < |cos|
    ensures
      var id := free[|free| - 1];
      id !in used && NotAgain(cos, free[..|free| - 1], used + {id})
  {
    var n := |free| - 1;
    assert free[n] in free && forall k <- free[..n] :: k in free;
  }

  /** How the id at position `k` of a ring fares: it is entered by the (k+1)-th call that enters
      one, and until then it moves forward by one place with each call. */
  predicate InTurn(entered: seq<int>, active: seq<int>, entered': seq<int>, active': seq<int>, k: nat)
    requires |entered| <= |entered'| && k < |active|
  {
    var calls := |entered'| - |entered|;
    if calls > k then entered'[|entered| + k] == active[k]
    else k - calls < |active'| && active'[k - calls] == active[k]
  }

  /** A ring that is only taken from at its front and added to at its back keeps its turns. */
  lemma EnteredInTurn(activated: seq<int>, entered: seq<int>, active: seq<int>,
                      activated': seq<int>, entered': seq<int>, active': seq<int>, k: nat)
    requires activated == entered + active && activated' == entered' + active'
    requires activated <= activated' && entered <= entered' && k < |active|
    ensures InTurn(entered, active, entered', active', k)
  {
    assert activated'[|entered| + k] == activated[|entered| + k] == active[k];
  }

  class Schedule {
    var cos: seq<Option<CoState>>
    const freeIds: Stack
    const activeList: Stack
    var current: int
    ghost var activated: seq<int>     // every id that has joined the ring
    ghost var entered: seq<int>       // every id that was entered
    ghost var used: set<int>          // every id that `coroutine_new` has given out

    ghost predicate Shape()
      reads this, freeIds, activeList
    {
      && freeIds != activeList && freeIds.data != activeList.data
      && freeIds.Valid() && activeList.Valid() && freeIds.data.Length > 0 && activeList.data.Length > 0
    }

    ghost predicate Valid()
      reads this, freeIds, activeList, freeIds.data, activeList.data
    {
      && Shape()
      && Scheduled(cos, activeList.Contents(), freeIds.Contents(), current)
      && activated == entered + activeList.Contents()
      && NotAgain(cos, freeIds.Contents(), used)
    }

    twostate predicate Framed()
      reads this, freeIds, activeList
    {
      && (freeIds.data == old(freeIds.data) || fresh(freeIds.data))
      && (activeList.data == old(activeList.data) || fresh(activeList.data))
      && old(activated) <= activated && old(entered) <= entered && old(used) <= used
    }

    /** `coroutine_open` */
    constructor ()
      ensures Valid() && current == -1 && fresh(freeIds) && fresh(activeList)
      ensures fresh(freeIds.data) && fresh(activeList.data)
      ensures activeList.Contents() == [] && |cos| == GROWTH
    {
      activeList := new Stack(1024);
      freeIds := new Stack(GROWTH);
      cos, current, activated, entered, used := [], -1, [], [], {};
      new;
      IncreaseCoroutine(GROWTH);
    }

    /** `increase_coroutine` */
    method IncreaseCoroutine(n: nat)
      requires Valid()
      modifies this`cos, freeIds, freeIds.data
      ensures Valid() && Framed() && activeList.Contents() == old(activeList.Contents())
      ensures |cos| == |old(cos)| + n && old(cos) <= cos && |freeIds.Contents()| == |old(freeIds.Contents())| + n
    {
      hide Scheduled;
      var i := 0;
      while i < n
        invariant i <= n && Valid() && Framed()
        invariant activeList.Contents() == old(activeList.Contents())
        invariant |cos| == |old(cos)| + i && old(cos) <= cos
        invariant |freeIds.Contents()| == |old(freeIds.Contents())| + i
      {
        Grows(cos, activeList.Contents(), freeIds.Contents(), current);
        var ok := freeIds.Push(|cos|);
        cos := cos + [None];
        i := i + 1;
      }
    }

    /** `claim_coroutine_id` */
    method ClaimId() returns (id: int)
      requires Valid()
      modifies this`cos, this`used, freeIds, freeIds.data
      ensures Valid() && Framed() && activeList.Contents() == old(activeList.Contents())
      ensures 0 <= id < |cos| && cos[id] == None && id !in freeIds.Contents() && old(cos) <= cos
      ensures id !in old(used) && used == old(used) + {id}
    {
      hide Scheduled, NotAgain;
      if freeIds.num == 0 { IncreaseCoroutine(GROWTH); }
      Claims(cos, activeList.Contents(), freeIds.Contents(), current);
      FreeDiffer(cos, activeList.Contents(), freeIds.Contents(), current);
      UsesOne(cos, freeIds.Contents(), used);
      var top := freeIds.PopBack();
      id := top.value;
      used := used + {id};
    }

    /** A coroutine is put at the back of the ring. */
    method Activate(id: int, co: CoState)
      requires Valid() && 0 <= id < |cos| && !Waiting(cos[id]) && Waiting(Some(co)) && id !in freeIds.Contents()
      modifies this`cos, this`current, this`activated, activeList, activeList.data
      ensures Valid() && Framed() && cos == old(cos)[id := Some(co)]
      ensures activeList.Contents() == old(activeList.Contents()) + [id] && activated == old(activated) + [id]
      ensures freeIds.Contents() == old(freeIds.Contents())
      ensures current == if old(current) == id then -1 else old(current)
    {
      hide Scheduled, Waiting;
      Joins(cos, activeList.Contents(), freeIds.Contents(), current, id, co);
      cos := cos[id := Some(co)];
      var ok := activeList.Push(id);
      activated := activated + [id];
      if current == id { current := -1; }
    }

    /** `coroutine_new` */
    method New() returns (id: int)
      requires Valid()
      modifies this`cos, this`current, this`activated, this`used, freeIds, freeIds.data, activeList, activeList.data
      ensures Valid() && Framed() && 0 <= id < |cos| && cos[id] == Some(Ready)
      ensures id < |old(cos)| ==> old(cos)[id] == None
      ensures id !in old(used) && used == old(used) + {id}
      ensures activeList.Contents() == old(activeList.Contents()) + [id] && activated == old(activated) + [id]
      ensures current == old(current)
    {
      id := ClaimId();
      assert current != id by { hide Distinct; }
      Activate(id, Ready);
    }

    /** `coroutine_goto`: its assertion cannot fail for an id from the ring. */
    method Goto(id: int)
      requires Shape() && 0 <= id < |cos| && Waiting(cos[id])
      modifies this`cos, this`current
      ensures cos == old(cos)[id := Some(Running)] && current == id
    {
      var co := cos[id];
      assert co != None && (co == Some(Ready) || co == Some(Suspended));
      cos := cos[id := Some(Running)];
      current := id;
    }

    /** `coroutine_schedule`, called outside all coroutines: the first of the ring is entered. */
    method Schedule()
      requires Valid() && current == -1
      modifies this`cos, this`current, this`entered, activeList`num, activeList`front
      ensures Valid() && Framed() && activated == old(activated)
      ensures
        var was := old(activeList.Contents());
        if was == [] then current == -1 && activeList.Contents() == [] && entered == old(entered) && cos == old(cos)
        else current == was[0] && activeList.Contents() == was[1..] && entered == old(entered) + [was[0]]
             && 0 <= current < |old(cos)| && cos == old(cos)[current := Some(Running)]
    {
      hide Scheduled;
      if activeList.num > 0 {
        Enters(cos, activeList.Contents(), freeIds.Contents());
        var first := activeList.PopFront();
        Goto(first.value);
        entered := entered + [current];
      }
    }

    /** `coroutine_yield` */
    method Yield()
      requires Valid() && current != -1
      modifies this`cos, this`current, this`activated, activeList, activeList.data
      ensures Valid() && Framed() && current == -1
      ensures cos == old(cos)[old(current) := Some(Suspended)]
      ensures activeList.Contents() == old(activeList.Contents()) + [old(current)]
    {
      assert cos[current] == Some(Running) && current !in freeIds.Contents();
      Activate(current, Suspended);
    }

    /** `coroutine_block` */
    method Block()
      requires Valid() && current != -1
      modifies this`cos, this`current
      ensures Valid() && Framed() && current == -1
      ensures cos == old(cos)[old(current) := Some(Blocked)]
      ensures activeList.Contents() == old(activeList.Contents())
    {
      Leaves(cos, activeList.Contents(), freeIds.Contents(), current, Some(Blocked));
      assert 0 <= current < |cos|;
      hide Scheduled;
      cos := cos[current := Some(Blocked)];
      current := -1;
    }

    /** The end of `coroutine_main`. The id does not go back to the unused ones: it stays among
        those that `New` never gives out again. */
    method Finish()
      requires Valid() && current != -1
      modifies this`cos, this`current
      ensures Valid() && Framed() && current == -1 && used == old(used)
      ensures freeIds.Contents() == old(freeIds.Contents())
      ensures cos == old(cos)[old(current) := None]
      ensures activeList.Contents() == old(activeList.Contents())
    {
      Leaves(cos, activeList.Contents(), freeIds.Contents(), current, None);
      assert 0 <= current < |cos|;
      hide Scheduled;
      cos := cos[current := None];
      current := -1;
    }

    /** `coroutine_resume` */
    method Resume(id: int)
      requires Valid() && 0 <= id < |cos|
      modifies this`cos, this`current, this`activated, activeList, activeList.data
      ensures Valid() && Framed() && current == old(current)
      ensures cos == if old(cos)[id] == Some(Blocked) then old(cos)[id := Some(Suspended)] else old(cos)
      ensures activeList.Contents() == old(activeList.Contents()) + if old(cos)[id] == Some(Blocked) then [id] else []
    {
      if cos[id] == Some(Blocked) {
        assert current != id && id !in freeIds.Contents();
        Activate(id, Suspended);
      }
    }

    /** Any number of turns: coroutines are made, resumed and scheduled, and those that run
        yield, block or end, in any order the rules above allow. Scheduling is fair: whatever
        happens in these turns, each id that waits in the ring is entered in its turn. */
    method Turns()
      requires Valid()
      modifies this, freeIds, freeIds.data, activeList, activeList.data
      ensures Valid() && Framed()
      ensures
        var was := old(activeList.Contents());
        forall k: nat :: k < |was| ==> InTurn(old(entered), was, entered, activeList.Contents(), k)
    {
      hide Scheduled, Waiting, NotAgain;
      var turns: nat := *;
      while turns > 0
        invariant Valid() && Framed()
      {
        var what: nat, id: nat := *, *;
        if what == 0 {
          var made := New();
        } else if what == 1 {
          if id < |cos| { Resume(id); }
        } else if current == -1 {
          Schedule();
        } else if what == 2 {
          Yield();
        } else if what == 3 {
          Block();
        } else {
          Finish();
        }
        turns := turns - 1;
      }
      ghost var was := old(activeList.Contents());
      forall k: nat | k < |was|
        ensures InTurn(old(entered), was, entered, activeList.Contents(), k)
      {
        EnteredInTurn(old(activated), old(entered), was, activated, entered, activeList.Contents(), k);
      }
    }
  }
}
