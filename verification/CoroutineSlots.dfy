/** The table of coroutines in the ucontext branch, where the number of live coroutines says
    where the search for a free slot begins. */
module CoroutineSlots {
  import opened Wrappers
  import opened Coroutines
  import opened RingStack

  const DEFAULT_COROUTINE := 16

  function Live(cos: seq<Option<CoState>>): (n: nat)
    ensures n <= |cos|
  {
    if cos == [] then 0 else Live(cos[..|cos| - 1]) + if cos[|cos| - 1] == None then 0 else 1
  }

  lemma {:induction false} LiveChanges(cos: seq<Option<CoState>>, id: nat, co: Option<CoState>)
    requires id < |cos|
    ensures Live(cos[id := co]) == Live(cos) - (if cos[id] == None then 0 else 1) + (if co == None then 0 else 1)
  {
    var n := |cos| - 1;
    if id == n {
      assert cos[id := co][..n] == cos[..n];
    } else {
      LiveChanges(cos[..n], id, co);
      assert cos[id := co][..n] == cos[..n][id := co];
    }
  }

  lemma {:induction false} LiveOfBoth(a: seq<Option<CoState>>, b: seq<Option<CoState>>)
    ensures Live(a + b) == Live(a) + Live(b)
  {
    if b == [] {
      assert a + b == a;
    } else {
      var n := |b| - 1;
      LiveOfBoth(a, b[..n]);
      assert (a + b)[..|a + b| - 1] == a + b[..n];
    }
  }

  function Empty(n: nat): seq<Option<CoState>> { seq(n, i => None) }

  lemma {:induction false} NoneLive(n: nat)
    ensures Live(Empty(n)) == 0
  {
    if n > 0 {
      NoneLive(n - 1);
      assert Empty(n)[..n - 1] == Empty(n - 1);
    }
  }

  lemma {:induction false} AllLive(cos: seq<Option<CoState>>)
    requires forall k :: 0 <= k < |cos| ==> cos[k] != None
    ensures Live(cos) == |cos|
  {
    if cos != [] { AllLive(cos[..|cos| - 1]); }
  }

  /** The slot that the search looks at in its trip `i`. */
  function Searched(nco: nat, i: nat, cap: nat): (id: nat)
    requires cap > 0
    ensures id < cap
  {
    (i + nco) % cap
  }

  /** Every slot is looked at, wherever the search begins. */
  lemma SearchCovers(nco: nat, cap: nat, k: nat) returns (i: nat)
    requires nco < cap && k < cap
    ensures i < cap && Searched(nco, i, cap) == k
  {
    i := if k >= nco then k - nco else k + cap - nco;
    SlotIsRemainder(nco, i, cap);
  }

  lemma SearchInVain(cos: seq<Option<CoState>>, nco: nat)
    requires nco < |cos| && forall i :: 0 <= i < |cos| ==> cos[Searched(nco, i, |cos|)] != None
    ensures Live(cos) == |cos|
  {
    hide Live, Searched;
    forall k | 0 <= k < |cos|
      ensures cos[k] != None
    {
      var i := SearchCovers(nco, |cos|, k);
    }
    AllLive(cos);
  }

  lemma GrownLive(cos: seq<Option<CoState>>)
    requires cos != []
    ensures Live(cos + Empty(|cos|)[0 := Some(Ready)]) == Live(cos) + 1
  {
    NoneLive(|cos|);
    LiveChanges(Empty(|cos|), 0, Some(Ready));
    LiveOfBoth(cos, Empty(|cos|)[0 := Some(Ready)]);
  }

  class Slots {
    var cos: seq<Option<CoState>>
    var nco: nat

    ghost predicate Valid()
      reads this
    {
      |cos| > 0 && nco == Live(cos)
    }

    /** `coroutine_open` */
    constructor ()
      ensures Valid() && nco == 0 && |cos| == DEFAULT_COROUTINE
    {
      cos := Empty(DEFAULT_COROUTINE);
      nco := 0;
      new;
      NoneLive(DEFAULT_COROUTINE);
    }

    /** `coroutine_new`: it takes a slot that was free and leaves the others alone; the search
        never comes to the end without one. */
    method New() returns (id: nat)
      requires Valid()
      modifies this
      ensures Valid() && nco == old(nco) + 1
      ensures id < |cos| && cos[id] == Some(Ready) && (id < |old(cos)| ==> old(cos)[id] == None)
      ensures |old(cos)| <= |cos| && forall k :: 0 <= k < |old(cos)| && k != id ==> cos[k] == old(cos)[k]
      ensures |cos| == if old(nco) == |old(cos)| then 2 * |old(cos)| else |old(cos)|
    {
      hide Live, Searched;
      if nco >= |cos| {
        id := |cos|;
        GrownLive(cos);
        cos := cos + Empty(|cos|)[0 := Some(Ready)];
        nco := nco + 1;
        return;
      }
      for i := 0 to |cos|
        invariant Valid() && cos == old(cos) && nco == old(nco)
        invariant forall j :: 0 <= j < i ==> cos[Searched(nco, j, |cos|)] != None
      {
        id := Searched(nco, i, |cos|);
        if cos[id] == None {
          LiveChanges(cos, id, Some(Ready));
          cos := cos[id := Some(Ready)];
          nco := nco + 1;
          return;
        }
      }
      SearchInVain(cos, nco);
      assert false;
    }

    /** The end of `mainfunc`. */
    method Finish(id: nat)
      requires Valid() && id < |cos| && cos[id] != None
      modifies this
      ensures Valid() && cos == old(cos)[id := None] && nco == old(nco) - 1
    {
      LiveChanges(cos, id, None);
      cos := cos[id := None];
      nco := nco - 1;
    }
  }
}
