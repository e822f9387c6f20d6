/** `ox_stack`: a growable ring of numbers that is pushed at the back and popped at either end. */
module RingStack {
  import opened Wrappers

  /** Place `i` of a ring of `n` that begins at `front`. */
  function Slot(front: nat, i: nat, n: nat): (r: nat)
    requires front < n && i <= n
    ensures r < n && r == (front + i) % n
  {
    SlotIsRemainder(front, i, n);
    if front + i < n then front + i else front + i - n
  }

  lemma SlotIsRemainder(front: nat, i: nat, n: nat)
    requires front < n && i <= n
    ensures (front + i) % n == if front + i < n then front + i else front + i - n
  {
    var x := front + i;
    var q := if x < n then 0 else 1;
    var r := x - q * n;
    assert (x / n - q) * n == r - x % n;
  }

  class Stack {
    var data: array<int>
    var front: nat
    var num: nat

    ghost predicate Valid()
      reads this
    {
      num <= data.Length && (if data.Length == 0 then front == 0 else front < data.Length)
    }

    /** The elements from the front to the back. */
    ghost function Contents(): (s: seq<int>)
      requires Valid()
      reads this, data
      ensures |s| == num
    {
      seq(num, i requires 0 <= i < num && num <= data.Length && front < data.Length reads this, data =>
        data[Slot(front, i, data.Length)])
    }

    constructor (size: nat)
      ensures Valid() && fresh(data) && data.Length == size && Contents() == []
    {
      data := new int[size](i => 0);
      front, num := 0, 0;
    }

    /** `ox_stack_increase`: the elements move to the beginning of a larger array. */
    method Increase(more: nat)
      requires Valid()
      modifies this`data, this`front
      ensures Valid() && fresh(data) && Contents() == old(Contents())
      ensures data.Length == old(data.Length) + more
    {
      var tmp := new int[data.Length + more](i => 0);
      ghost var was := Contents();
      for i := 0 to num
        invariant data == old(data) && front == old(front) && fresh(tmp) && tmp.Length == data.Length + more
        invariant data[..] == old(data[..]) && Valid()
        invariant forall j :: 0 <= j < i ==> tmp[j] == was[j]
      {
        SlotIsRemainder(front, i, data.Length);
        tmp[i] := data[(front + i) % data.Length];
      }
      front := 0;
      data := tmp;
      assert Contents() == was;
    }

    /** `ox_stack_push`: a full ring doubles; only a ring of no size stays full. */
    method Push(x: int) returns (ok: bool)
      requires Valid()
      modifies this, data
      ensures Valid() && (data == old(data) || fresh(data))
      ensures ok <==> old(data.Length) > 0
      ensures Contents() == if ok then old(Contents()) + [x] else []
      ensures old(data.Length) <= data.Length
    {
      if num == data.Length { Increase(data.Length); }
      if num == data.Length { return false; }
      SlotIsRemainder(front, num, data.Length);
      ghost var was := Contents();
      data[(front + num) % data.Length] := x;
      num := num + 1;
      assert Contents() == was + [x];
      ok := true;
    }

    /** `ox_stack_popfront` */
    method PopFront() returns (x: Option<int>)
      requires Valid()
      modifies this`num, this`front
      ensures Valid()
      ensures
        if old(Contents()) == [] then x == None && Contents() == []
        else x == Some(old(Contents())[0]) && Contents() == old(Contents())[1..]
    {
      if num == 0 { return None; }
      x := Some(data[front]);
      ghost var was := Contents();
      assert was[0] == data[front];
      num := num - 1;
      SlotIsRemainder(front, 1, data.Length);
      front := (front + 1) % data.Length;
      assert Contents() == was[1..] by { NextFront(old(front), data.Length); }
    }

    lemma NextFront(f: nat, n: nat)
      requires f < n
      ensures forall i :: 0 <= i < n ==> Slot(Slot(f, 1, n), i, n) == Slot(f, i + 1, n)
    {
    }

    /** `ox_stack_popback` */
    method PopBack() returns (x: Option<int>)
      requires Valid()
      modifies this`num
      ensures Valid()
      ensures
        if old(Contents()) == [] then x == None && Contents() == []
        else x == Some(old(Contents())[|old(Contents())| - 1]) && Contents() == old(Contents())[..|old(Contents())| - 1]
    {
      if num == 0 { return None; }
      ghost var was := Contents();
      num := num - 1;
      SlotIsRemainder(front, num, data.Length);
      x := Some(data[(front + num) % data.Length]);
      assert Contents() == was[..num];
    }
  }
}
