/** The receive buffer: an array with a read and a write position. */
module RecvBuffer {
  type Byte = bv8

  class Buffer {
    const data: array<Byte>
    var writePos: nat
    var readPos: nat

    ghost predicate Valid()
      reads this
    {
      readPos <= writePos <= data.Length
    }

    /** The bytes received and not yet consumed. */
    ghost function Readable(): seq<Byte>
      requires Valid()
      reads this, data
    {
      data[readPos..writePos]
    }

    constructor (size: nat)
      ensures Valid() && fresh(data) && data.Length == size && Readable() == []
      ensures readPos == 0 && writePos == 0
    {
      data := new Byte[size];
      writePos, readPos := 0, 0;
    }

    method ReadValidCount() returns (n: nat)
      requires Valid()
      ensures n == |Readable()|
    {
      n := writePos - readPos;
    }

    method WriteValidCount() returns (n: nat)
      requires Valid()
      ensures writePos + n == data.Length
    {
      n := data.Length - writePos;
    }

    /** `ox_buffer_adjustto_head`: the readable bytes move to the front. */
    method AdjustToHead()
      requires Valid()
      modifies this, data
      ensures Valid() && Readable() == old(Readable()) && readPos == 0
    {
      if readPos <= 0 { return; }
      var len := ReadValidCount();
      if len > 0 {
        forall i | 0 <= i < len { data[i] := data[readPos + i]; }
      }
      readPos := 0;
      writePos := len;
      assert Readable() == old(Readable());
    }

    /** `ox_buffer_addwritepos`: a step beyond the end is not taken. */
    method AddWritePos(value: nat)
      requires Valid()
      modifies this`writePos
      ensures Valid()
      ensures writePos == if old(writePos) + value <= data.Length then old(writePos) + value else old(writePos)
    {
      var temp := writePos + value;
      if temp <= data.Length { writePos := temp; }
    }

    /** `ox_buffer_addreadpos`: a step beyond the end of the array is not taken. A step that
        stays within the readable bytes drops the first of them. */
    method AddReadPos(value: nat)
      requires Valid()
      modifies this`readPos
      ensures readPos == if old(readPos) + value <= data.Length then old(readPos) + value else old(readPos)
      ensures value <= |old(Readable())| <==> Valid() && (value > 0 ==> readPos > old(readPos))
      ensures value <= |old(Readable())| ==> Readable() == old(Readable())[value..]
    {
      var temp := readPos + value;
      if temp <= data.Length { readPos := temp; }
    }

    /** memcpy behind the last byte received. */
    method CopyIn(bytes: seq<Byte>)
      requires Valid() && writePos + |bytes| <= data.Length
      modifies data
      ensures data[..writePos] == old(data[..writePos]) && data[writePos..writePos + |bytes|] == bytes
    {
      forall i | 0 <= i < |bytes| { data[writePos + i] := bytes[i]; }
    }

    /** `ox_buffer_write`: it succeeds exactly if the bytes fit behind the unread ones, moving
        those to the front when it has to, and otherwise changes nothing. */
    method Write(bytes: seq<Byte>) returns (ok: bool)
      requires Valid()
      modifies this, data
      ensures Valid()
      ensures ok <==> |old(Readable())| + |bytes| <= data.Length
      ensures Readable() == if ok then old(Readable()) + bytes else old(Readable())
      ensures !ok ==> data[..] == old(data[..]) && readPos == old(readPos) && writePos == old(writePos)
      decreases readPos
    {
      ok := true;
      var free := WriteValidCount();
      if free >= |bytes| {
        CopyIn(bytes);
        AddWritePos(|bytes|);
        assert Readable() == data[readPos..old(writePos)] + bytes;
        assert data[readPos..old(writePos)] == data[..old(writePos)][readPos..];
      } else {
        var count := ReadValidCount();
        var leftLen := data.Length - count;
        if leftLen >= |bytes| {
          AdjustToHead();
          var again := Write(bytes);
        } else {
          ok := false;
        }
      }
    }
  }
}
