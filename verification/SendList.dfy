/** The list of packets that wait to be sent, and what it keeps while the kernel takes bytes
    from its front. */
module SendLists {
  import opened RecvBuffer

  /** A packet, how many of its bytes are not sent yet, and its completion callback, if it has
      one. */
  datatype Packet = Packet(data: seq<Byte>, left: nat, callback: seq<nat>)

  predicate Sane(p: Packet) { p.left <= |p.data| && |p.callback| <= 1 }

  /** A packet as it is queued. */
  predicate Whole(p: Packet) { p.left == |p.data| && |p.callback| <= 1 }

  function Rest(p: Packet): seq<Byte>
    requires Sane(p)
  {
    p.data[|p.data| - p.left..]
  }

  predicate AllSane(list: seq<Packet>) { forall p <- list :: Sane(p) }

  /** The unsent bytes. */
  function Unsent(list: seq<Packet>): seq<Byte>
    requires AllSane(list)
  {
    if list == [] then [] else Rest(list[0]) + Unsent(list[1..])
  }

  function Callbacks(list: seq<Packet>): seq<nat> {
    if list == [] then [] else list[0].callback + Callbacks(list[1..])
  }

  lemma FirstOf(list: seq<Packet>)
    requires AllSane(list) && list != []
    ensures |Rest(list[0])| == list[0].left && Unsent(list) == Rest(list[0]) + Unsent(list[1..])
  {
    assert list[0] in list;
  }

  lemma SaneBoth(a: seq<Packet>, b: seq<Packet>)
    requires AllSane(a) && AllSane(b)
    ensures AllSane(a + b) && (a != [] ==> AllSane(a[1..]))
  {
  }

  lemma Associate(x: seq<Byte>, y: seq<Byte>, z: seq<Byte>)
    ensures x + (y + z) == (x + y) + z
  {
  }

  lemma {:induction false} UnsentOfBoth(a: seq<Packet>, b: seq<Packet>)
    requires AllSane(a) && AllSane(b)
    ensures AllSane(a + b) && Unsent(a + b) == Unsent(a) + Unsent(b)
  {
    SaneBoth(a, b);
    if a == [] {
      assert a + b == b;
    } else {
      hide Rest, AllSane, Unsent;
      UnsentOfBoth(a[1..], b);
      assert (a + b)[1..] == a[1..] + b;
      FirstOf(a);
      FirstOf(a + b);
      Associate(Rest(a[0]), Unsent(a[1..]), Unsent(b));
    }
  }

  lemma {:induction false} CallbacksOfBoth(a: seq<Packet>, b: seq<Packet>)
    ensures Callbacks(a + b) == Callbacks(a) + Callbacks(b)
  {
    if a == [] {
      assert a + b == b;
    } else {
      CallbacksOfBoth(a[1..], b);
      assert (a + b)[1..] == a[1..] + b && (a + b)[0] == a[0];
    }
  }

  lemma UnsentOfOne(p: Packet)
    requires Sane(p)
    ensures Unsent([p]) == Rest(p) && Callbacks([p]) == p.callback
  {
    assert [p][1..] == [];
  }

  /** `list` is what is left of `queued`: the packets before it are finished, its first one
      may have been sent in part, and the others are untouched. */
  predicate Remainder(queued: seq<Packet>, list: seq<Packet>) {
    && |list| <= |queued|
    && (forall p <- queued :: Whole(p))
    && (forall i :: 0 <= i < |list| ==>
          list[i].data == queued[|queued| - |list| + i].data && list[i].callback == queued[|queued| - |list| + i].callback)
    && (forall i :: 0 < i < |list| ==> list[i].left == |list[i].data|)
    && (list != [] ==> list[0].left <= |list[0].data| && (list[0].left == 0 ==> list[0].data == []))
  }

  lemma RemainderSane(queued: seq<Packet>, list: seq<Packet>)
    requires Remainder(queued, list)
    ensures AllSane(list) && AllSane(queued)
    ensures AllSane(queued[..|queued| - |list|]) && AllSane(queued[|queued| - |list|..])
  {
    forall p <- list ensures Sane(p) {
      var i :| 0 <= i < |list| && list[i] == p;
      assert queued[|queued| - |list| + i] in queued;
    }
  }

  /** Conservation: what the kernel has accepted, and then the unsent bytes, are the queued
      packets in order; the callbacks made are those of the finished packets, in order. The
      list still has to give up `owed` bytes that are accepted already. */
  predicate Conserved(queued: seq<Packet>, list: seq<Packet>, sent: seq<Byte>, completed: seq<nat>, owed: nat) {
    && Remainder(queued, list)
    && AllSane(list) && AllSane(queued)
    && owed <= |Unsent(list)|
    && sent + Unsent(list)[owed..] == Unsent(queued)
    && completed == Callbacks(queued[..|queued| - |list|])
  }

  lemma NothingQueued()
    ensures Conserved([], [], [], [], 0)
  {
  }

  lemma RemainderMore(queued: seq<Packet>, list: seq<Packet>, p: Packet)
    requires Remainder(queued, list) && Whole(p)
    ensures Remainder(queued + [p], list + [p])
  {
  }

  lemma QueueOne(queued: seq<Packet>, list: seq<Packet>, sent: seq<Byte>, completed: seq<nat>, p: Packet)
    requires Conserved(queued, list, sent, completed, 0) && Whole(p)
    ensures Conserved(queued + [p], list + [p], sent, completed, 0)
  {
    hide Remainder, Unsent, Callbacks, Rest, Sane;
    RemainderMore(queued, list, p);
    RemainderSane(queued + [p], list + [p]);
    assert |list| <= |queued| by { RemainderSane(queued, list); }
    assert AllSane([p]) by { WholeIsSane(p); }
    UnsentOfBoth(queued, [p]);
    UnsentOfBoth(list, [p]);
    assert (queued + [p])[..|queued| - |list|] == queued[..|queued| - |list|];
    assert Unsent(list)[0..] == Unsent(list) && Unsent(list + [p])[0..] == Unsent(list + [p]);
  }

  lemma WholeIsSane(p: Packet)
    requires Whole(p)
    ensures AllSane([p])
  {
  }

  /** The kernel accepts bytes from the front. */
  lemma Accept(queued: seq<Packet>, list: seq<Packet>, sent: seq<Byte>, completed: seq<nat>, n: nat)
    requires Conserved(queued, list, sent, completed, 0) && n <= |Unsent(list)|
    ensures Conserved(queued, list, sent + Unsent(list)[..n], completed, n)
  {
    assert sent + Unsent(list)[..n] + Unsent(list)[n..] == sent + Unsent(list);
  }

  /** The first packet is finished. */
  lemma FinishFirst(queued: seq<Packet>, list: seq<Packet>, sent: seq<Byte>, completed: seq<nat>, owed: nat)
    requires Conserved(queued, list, sent, completed, owed) && list != [] && list[0].left <= owed
    ensures Conserved(queued, list[1..], sent, completed + list[0].callback, owed - list[0].left)
    ensures |Unsent(list[1..])| == |Unsent(list)| - list[0].left
  {
    hide Remainder, Unsent, Callbacks, Rest, Sane;
    WholeAgain(queued, list);
    FirstOf(list);
    CallbacksThrough(queued, list);
    assert AllSane(list[1..]) by { forall p <- list[1..] ensures Sane(p) { assert p in list; } }
    assert queued[..|queued| - |list[1..]|] == queued[..|queued| - |list| + 1];
    assert Unsent(list)[owed..] == Unsent(list[1..])[owed - list[0].left..];
  }

  lemma CallbacksThrough(queued: seq<Packet>, list: seq<Packet>)
    requires Remainder(queued, list) && list != []
    ensures
      var n := |queued| - |list|;
      |list| <= |queued| && Callbacks(queued[..n + 1]) == Callbacks(queued[..n]) + list[0].callback
  {
    var n := |queued| - |list|;
    RemainderSane(queued, list);
    assert queued[n] in queued;
    assert queued[..n + 1] == queued[..n] + [queued[n]];
    CallbacksOfBoth(queued[..n], [queued[n]]);
    UnsentOfOne(queued[n]);
  }

  lemma WholeAgain(queued: seq<Packet>, list: seq<Packet>)
    requires Remainder(queued, list) && list != []
    ensures Remainder(queued, list[1..])
  {
    var rest := list[1..];
    assert |queued| - |rest| == |queued| - |list| + 1;
    forall i | 0 <= i < |rest|
      ensures rest[i].data == queued[|queued| - |rest| + i].data && rest[i].callback == queued[|queued| - |rest| + i].callback
    {
      assert rest[i] == list[i + 1];
    }
  }

  /** The first packet is sent in part. */
  lemma ShortenFirst(queued: seq<Packet>, list: seq<Packet>, sent: seq<Byte>, completed: seq<nat>, owed: nat)
    requires Conserved(queued, list, sent, completed, owed) && list != [] && list[0].left > owed
    ensures
      var shorter := list[0 := list[0].(left := list[0].left - owed)];
      && Conserved(queued, shorter, sent, completed, 0)
      && |Unsent(shorter)| == |Unsent(list)| - owed
  {
    var shorter := list[0 := list[0].(left := list[0].left - owed)];
    assert shorter[1..] == list[1..];
    assert Sane(list[0]) by { assert list[0] in list; }
    assert Rest(shorter[0]) == Rest(list[0])[owed..];
    assert Unsent(shorter) == Unsent(list)[owed..];
    assert Remainder(queued, shorter);
    RemainderSane(queued, shorter);
  }

  lemma {:induction false} PrefixLength(list: seq<Packet>, j: nat, k: nat)
    requires AllSane(list) && j <= k <= |list|
    ensures AllSane(list[..j]) && AllSane(list[..k]) && |Unsent(list[..j])| <= |Unsent(list[..k])|
    ensures j < k && (forall p <- list :: p.left > 0) ==> |Unsent(list[..j])| < |Unsent(list[..k])|
    decreases k
  {
    if j < k {
      PrefixLength(list, j, k - 1);
      assert list[..k] == list[..k - 1] + [list[k - 1]];
      UnsentOfBoth(list[..k - 1], [list[k - 1]]);
      UnsentOfOne(list[k - 1]);
    }
  }

  /** The list lacks, of what was queued behind the finished packets, only what was sent of its
      first packet. */
  lemma RemainderLength(queued: seq<Packet>, list: seq<Packet>)
    requires Remainder(queued, list) && AllSane(list) && AllSane(queued)
    ensures
      var n := |queued| - |list|;
      && AllSane(queued[..n])
      && |Unsent(queued)| == |Unsent(queued[..n])| + |Unsent(list)| + if list == [] then 0 else |list[0].data| - list[0].left
  {
    var n := |queued| - |list|;
    assert queued == queued[..n] + queued[n..];
    UnsentOfBoth(queued[..n], queued[n..]);
    if list != [] {
      assert queued[n..][1..] == list[1..] by {
        forall i | 0 <= i < |list| - 1
          ensures queued[n..][1..][i] == list[1..][i]
        {
          assert list[1..][i] == list[i + 1] && queued[n..][1..][i] == queued[n + (i + 1)];
          assert Whole(queued[n + (i + 1)]) by { assert queued[n + (i + 1)] in queued; }
        }
      }
      assert Whole(queued[n]) by { assert queued[n] in queued; }
    }
  }

  /** A packet's callback has been made exactly if all its bytes have been accepted: packet `k`
      is finished exactly if that many bytes are sent. */
  lemma CompletedExactlyWhenSent(queued: seq<Packet>, list: seq<Packet>, sent: seq<Byte>, completed: seq<nat>, k: nat)
    requires Conserved(queued, list, sent, completed, 0) && k < |queued|
    requires forall p <- queued :: p.data != []
    ensures AllSane(queued[..k + 1])
    ensures k < |queued| - |list| <==> |Unsent(queued[..k + 1])| <= |sent|
    ensures completed == Callbacks(queued[..|queued| - |list|])
  {
    hide Unsent, Callbacks;
    var n := |queued| - |list|;
    forall p <- queued ensures p.left > 0 { }
    RemainderLength(queued, list);
    assert |sent| + |Unsent(list)| == |Unsent(queued)|;
    if k < n {
      PrefixLength(queued, k + 1, n);
    } else {
      PrefixLength(queued, n, k + 1);
      PrefixLength(queued, n + 1, k + 1);
      assert queued[..n + 1] == queued[..n] + [queued[n]];
      UnsentOfBoth(queued[..n], [queued[n]]);
      UnsentOfOne(queued[n]);
      assert queued[n] in queued;
      assert |Unsent(queued[..n + 1])| == |Unsent(queued[..n])| + |queued[n].data|;
      assert list[0].left > 0;
    }
  }
}
