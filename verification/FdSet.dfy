/** The poll set: an array of descriptors with the events asked for and those reported. */
module FdSets {
  import opened Wrappers
  import opened RingStack

  /** Kinds of events: of those asked for, and of those reported. */
  datatype Events = Events(read: bool, write: bool, error: bool)

  datatype PollFd = PollFd(fd: int, events: Events, revents: Events)

  const NO_EVENTS: Events := Events(false, false, false)

  /** What a call of poll reported: the entries with their events, and its answer. */
  datatype Report = Report(entries: seq<PollFd>, ret: int)

  function Minus(e: Events, t: Events): Events { Events(e.read && !t.read, e.write && !t.write, e.error && !t.error) }

  predicate DistinctFds(entries: seq<PollFd>) {
    forall i, j :: 0 <= i < j < |entries| ==> entries[i].fd != entries[j].fd
  }

  function FdsOf(entries: seq<PollFd>): set<int> { set e <- entries :: e.fd }

  /** `check_event` */
  predicate Hit(e: PollFd, t: Events) {
    (t.read && e.revents.read) || (t.write && e.revents.write) || (t.error && e.revents.error)
  }

  /** The descriptors that the visitor reports, in their order. */
  function Hits(entries: seq<PollFd>, t: Events): seq<int> {
    if entries == [] then []
    else Hits(entries[..|entries| - 1], t)
         + if Hit(entries[|entries| - 1], t) then [entries[|entries| - 1].fd] else []
  }

  lemma {:induction false} HitsAreMembers(entries: seq<PollFd>, t: Events)
    ensures forall fd <- Hits(entries, t) :: fd in FdsOf(entries)
  {
    if entries != [] {
      var n := |entries| - 1;
      HitsAreMembers(entries[..n], t);
      assert entries[n] in entries && forall e <- entries[..n] :: e in entries;
    }
  }

  predicate Different(s: seq<int>) { forall i, j :: 0 <= i < j < |s| ==> s[i] != s[j] }

  /** A descriptor is reported once. */
  lemma {:induction false} HitsDiffer(entries: seq<PollFd>, t: Events)
    requires DistinctFds(entries)
    ensures Different(Hits(entries, t))
  {
    if entries != [] {
      var n := |entries| - 1;
      HitsDiffer(entries[..n], t);
      HitsAreMembers(entries[..n], t);
      forall fd <- Hits(entries[..n], t)
        ensures fd != entries[n].fd
      {
        var i :| 0 <= i < n && entries[..n][i].fd == fd;
        assert entries[i].fd == fd;
      }
      var h := Hits(entries[..n], t);
      assert forall i :: 0 <= i < |h| ==> h[i] in h;
    }
  }

  /** An array without the element at `pos`. */
  function Without(entries: seq<PollFd>, pos: nat): seq<PollFd>
    requires pos < |entries|
  {
    entries[..pos] + entries[pos + 1..]
  }

  lemma WithoutFd(entries: seq<PollFd>, pos: nat)
    requires pos < |entries| && DistinctFds(entries)
    ensures DistinctFds(Without(entries, pos))
    ensures FdsOf(Without(entries, pos)) == FdsOf(entries) - {entries[pos].fd}
  {
    var less := Without(entries, pos);
    forall fd | fd in FdsOf(entries) && fd != entries[pos].fd
      ensures fd in FdsOf(less)
    {
      var i :| 0 <= i < |entries| && entries[i].fd == fd;
      assert less[if i < pos then i else i - 1] == entries[i];
    }
    forall fd | fd in FdsOf(less)
      ensures fd in FdsOf(entries) && fd != entries[pos].fd
    {
      var i :| 0 <= i < |less| && less[i].fd == fd;
      assert less[i] == entries[if i < pos then i else i + 1];
    }
  }

  lemma OneMoreFd(entries: seq<PollFd>, e: PollFd)
    requires DistinctFds(entries) && e.fd !in FdsOf(entries)
    ensures DistinctFds(entries + [e]) && FdsOf(entries + [e]) == FdsOf(entries) + {e.fd}
  {
    var more := entries + [e];
    forall i | 0 <= i < |entries|
      ensures entries[i].fd != e.fd
    {
      assert entries[i] in entries;
    }
    forall fd | fd in FdsOf(entries) + {e.fd}
      ensures fd in FdsOf(more)
    {
      if fd == e.fd {
        assert more[|entries|] == e;
      } else {
        var i :| 0 <= i < |entries| && entries[i].fd == fd;
        assert more[i] == entries[i];
      }
    }
  }

  lemma SameFds(a: seq<PollFd>, b: seq<PollFd>)
    requires |a| == |b| && forall i :: 0 <= i < |a| ==> a[i].fd == b[i].fd
    ensures FdsOf(a) == FdsOf(b) && (DistinctFds(a) ==> DistinctFds(b))
  {
    forall fd | fd in FdsOf(a)
      ensures fd in FdsOf(b)
    {
      var i :| 0 <= i < |a| && a[i].fd == fd;
      assert b[i] in b;
    }
    forall fd | fd in FdsOf(b)
      ensures fd in FdsOf(a)
    {
      var i :| 0 <= i < |b| && b[i].fd == fd;
      assert a[i] in a;
    }
  }

  /** An entry is replaced by another of the same descriptor. */
  lemma Replaced(entries: seq<PollFd>, p: nat, e: PollFd)
    requires p < |entries| && DistinctFds(entries) && e.fd == entries[p].fd
    ensures DistinctFds(entries[p := e]) && FdsOf(entries[p := e]) == FdsOf(entries)
    ensures forall x <- entries[p := e] :: if x.fd == e.fd then x == e else x in entries
  {
    SameFds(entries, entries[p := e]);
    forall x <- entries[p := e]
      ensures if x.fd == e.fd then x == e else x in entries
    {
      var i :| 0 <= i < |entries| && entries[p := e][i] == x;
      assert i != p ==> x == entries[i];
    }
  }

  class FdSet {
    var pollFds: array<PollFd>
    var nfds: nat
    ghost var reports: seq<Report>    // what each call of poll reported

    ghost predicate Valid()
      reads this, pollFds
    {
      nfds <= pollFds.Length && DistinctFds(pollFds[..nfds])
    }

    ghost function Entries(): seq<PollFd>
      requires nfds <= pollFds.Length
      reads this, pollFds
    {
      pollFds[..nfds]
    }

    ghost function Fds(): set<int>
      requires nfds <= pollFds.Length
      reads this, pollFds
    {
      FdsOf(Entries())
    }

    constructor ()
      ensures Valid() && fresh(pollFds) && Entries() == []
    {
      pollFds := new PollFd[1024](i => PollFd(0, NO_EVENTS, NO_EVENTS));
      nfds, reports := 0, [];
    }

    /** `upstepPollfd` */
    method Upstep(upSize: nat)
      requires Valid()
      modifies this`pollFds
      ensures Valid() && Entries() == old(Entries()) && nfds == old(nfds)
      ensures pollFds.Length == old(pollFds.Length) + upSize
      ensures fresh(pollFds) || pollFds == old(pollFds)
    {
      if upSize <= 0 { return; }
      var bigger := new PollFd[pollFds.Length + upSize](i => PollFd(0, NO_EVENTS, NO_EVENTS));
      forall i | 0 <= i < nfds { bigger[i] := pollFds[i]; }
      assert bigger[..nfds] == pollFds[..nfds];
      pollFds := bigger;
    }

    /** `findPollfd` */
    method Find(fd: int) returns (pos: Option<nat>)
      requires Valid()
      ensures pos.Some? ==> pos.value < nfds && pollFds[pos.value].fd == fd
      ensures pos.None? <==> fd !in Fds()
    {
      for i := 0 to nfds
        invariant forall j :: 0 <= j < i ==> pollFds[j].fd != fd
      {
        if pollFds[i].fd == fd {
          assert Entries()[i] in Entries();
          return Some(i);
        }
      }
      pos := None;
    }

    /** `ox_fdset_remove`: the descriptors behind it move forward by one. */
    method Remove(fd: int)
      requires Valid()
      modifies this`nfds, pollFds
      ensures Valid() && Fds() == old(Fds()) - {fd}
      ensures forall e <- Entries() :: e in old(Entries())
    {
      var pos := Find(fd);
      match pos {
        case None =>
        case Some(p) =>
          ghost var was := Entries();
          WithoutFd(was, p);
          forall i | p <= i < nfds - 1 { pollFds[i] := pollFds[i + 1]; }
          nfds := nfds - 1;
          assert Entries() == Without(was, p);
      }
    }

    /** The entry of a descriptor: the one it has, or a new one behind the others, whose
        reported events are not defined yet. */
    method Place(fd: int) returns (p: nat)
      requires Valid()
      modifies this`nfds, this`pollFds, pollFds
      ensures Valid() && Fds() == old(Fds()) + {fd} && (pollFds == old(pollFds) || fresh(pollFds))
      ensures p < nfds && pollFds[p].fd == fd
      ensures forall e <- Entries() :: e.fd != fd ==> e in old(Entries())
    {
      hide DistinctFds;
      if pollFds.Length == nfds { Upstep(128); }
      ghost var was := Entries();
      var pos := Find(fd);
      match pos {
        case None =>
          p := nfds;
          var revents: Events := *;
          pollFds[p] := PollFd(fd, NO_EVENTS, revents);
          nfds := nfds + 1;
          OneMoreFd(was, pollFds[p]);
          assert Entries() == was + [pollFds[p]];
        case Some(at) =>
          p := at;
          assert was[p] in was;
      }
    }

    /** `ox_fdset_add` */
    method Add(fd: int, t: Events)
      requires Valid()
      modifies this`nfds, this`pollFds, pollFds
      ensures Valid() && Fds() == old(Fds()) + {fd} && (pollFds == old(pollFds) || fresh(pollFds))
      ensures forall e <- Entries() :: if e.fd == fd then (t.read ==> e.events.read) && (t.write ==> e.events.write)
                                       else e in old(Entries())
    {
      var p := Place(fd);
      hide DistinctFds, FdsOf;
      ghost var before := Entries();
      var e := pollFds[p].events;
      pollFds[p] := pollFds[p].(events := e.(read := e.read || t.read, write := e.write || t.write));
      Replaced(before, p, pollFds[p]);
      assert Entries() == before[p := pollFds[p]];
    }

    /** `ox_fdset_del`: the events are no longer asked of the descriptor, and it leaves the set
        exactly if nothing is asked of it any more. */
    method Del(fd: int, t: Events)
      requires Valid()
      modifies this`nfds, pollFds
      ensures Valid() && old(Fds()) - {fd} <= Fds() <= old(Fds())
      ensures forall e <- old(Entries()) :: e.fd == fd ==> (fd in Fds() <==> Minus(e.events, t) != NO_EVENTS)
      ensures forall e <- Entries() :: e.fd != fd ==> e in old(Entries())
      ensures forall e <- Entries(), was <- old(Entries()) :: e.fd == was.fd == fd ==> e.events == Minus(was.events, t)
    {
      var pos := Find(fd);
      match pos {
        case None =>
        case Some(p) =>
          ghost var before := Entries();
          var e := Minus(pollFds[p].events, t);
          pollFds[p] := pollFds[p].(events := e);
          SameFds(before, Entries());
          assert forall i :: 0 <= i < nfds && i != p ==> Entries()[i] == before[i] && before[i].fd != fd;
          assert Entries()[p].fd == fd && Entries()[p] in Entries();
          if e == NO_EVENTS { Remove(fd); }
      }
    }

    /** poll: the kernel reports any events. */
    method Poll() returns (ret: int)
      requires Valid()
      modifies this`reports, pollFds
      ensures Valid() && Fds() == old(Fds())
      ensures reports == old(reports) + [Report(Entries(), ret)]
    {
      ghost var before := Entries();
      for i := 0 to nfds
        invariant forall j :: 0 <= j < nfds ==> pollFds[j].fd == before[j].fd
        invariant reports == old(reports)
      {
        var revents: Events := *;
        pollFds[i] := pollFds[i].(revents := revents);
      }
      ghost var now := Entries();
      SameFds(before, now);
      ret := *;
      reports := reports + [Report(now, ret)];
      assert Entries() == now;
    }

    /** `ox_fdset_visitor`: the descriptors with such events go onto the stack, in order. */
    method Visitor(t: Events, result: Stack)
      requires Valid() && result.Valid() && result.data.Length > 0
      modifies result, result.data
      ensures result.Valid() && (result.data == old(result.data) || fresh(result.data))
      ensures result.Contents() == old(result.Contents()) + Hits(Entries(), t)
      ensures old(result.data.Length) <= result.data.Length
    {
      for i := 0 to nfds
        invariant result.Valid() && (result.data == old(result.data) || fresh(result.data))
        invariant 0 < old(result.data.Length) <= result.data.Length
        invariant result.Contents() == old(result.Contents()) + Hits(Entries()[..i], t)
      {
        assert Entries()[..i + 1][..i] == Entries()[..i] && Entries()[..i + 1][i] == pollFds[i];
        if Hit(pollFds[i], t) { var ok := result.Push(pollFds[i].fd); }
      }
      assert Entries()[..nfds] == Entries();
    }
  }
}
