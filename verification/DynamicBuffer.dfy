/** The growable byte buffer: a vector with a read and a write index. */
module DynamicBuffers {
  import opened Arithmetic
  import opened Bytes

  class DynamicBuffer {
    var buffer: seq<byte>
    const initSize: nat
    const expandSize: nat
    var readIndex: nat
    var writeIndex: nat
    ghost var expansions: nat

    ghost predicate Valid()
      reads this
    {
      && readIndex <= writeIndex <= |buffer|
      && 0 < expandSize && |buffer| == initSize + expansions * expandSize
    }

    /** The bytes waiting to be read. */
    ghost function Contents(): seq<byte>
      requires Valid()
      reads this
    {
      buffer[readIndex..writeIndex]
    }

    /** Whatever lies behind them, up to the capacity. */
    ghost function Room(): seq<byte>
      requires Valid()
      reads this
    {
      buffer[writeIndex..]
    }

    constructor (initSize: nat, expandSize: nat)
      requires 0 < expandSize
      ensures Valid() && Contents() == [] && |buffer| == initSize
      ensures this.initSize == initSize && this.expandSize == expandSize
    {
      this.initSize, this.expandSize := initSize, expandSize;
      buffer := seq(initSize, _ => 0);
      readIndex, writeIndex, expansions := 0, 0, 0;
    }

    function ReadableBytes(): (n: nat)
      requires Valid()
      reads this
      ensures n == |Contents()|
    {
      writeIndex - readIndex
    }

    function WritableBytes(): (n: nat)
      requires Valid()
      reads this
      ensures n == |Room()|
    {
      |buffer| - writeIndex
    }

    /** Drop up to `size` bytes from the front; a buffer read to the end starts afresh. */
    method ReadBytes(size: nat)
      requires Valid()
      modifies `readIndex, `writeIndex
      ensures Valid()
      ensures Contents() == old(Contents())[Min(size, |old(Contents())|)..]
      ensures Room() == if Contents() == [] then buffer else old(Room())
    {
      readIndex := readIndex + Min(size, ReadableBytes());
      if readIndex == writeIndex {
        readIndex := 0;
        writeIndex := 0;
      }
    }

    /** Take what was written behind the contents into them. */
    method WrittenBytes(size: nat)
      requires Valid()
      modifies `writeIndex
      ensures Valid()
      ensures Contents() == old(Contents()) + old(Room())[..Min(size, |old(Room())|)]
      ensures Room() == old(Room())[Min(size, |old(Room())|)..]
    {
      writeIndex := writeIndex + Min(size, WritableBytes());
    }

    /** Write through the pointer WriteBegin() + offset. */
    method Poke(offset: nat, data: seq<byte>)
      requires Valid() && offset + |data| <= |Room()|
      modifies `buffer
      ensures Valid() && Contents() == old(Contents())
      ensures Room() == old(Room())[..offset] + data + old(Room())[offset + |data|..]
    {
      var at := writeIndex + offset;
      buffer := buffer[..at] + data + buffer[at + |data|..];
    }

    /** Make room for `size` more bytes: nothing moves if there is room, otherwise the
        contents go to a new vector, larger only if the freed front does not do. */
    method ReserveWritableBytes(size: nat)
      requires Valid()
      modifies this
      ensures Valid() && Contents() == old(Contents()) && size <= |Room()|
      ensures size <= |old(Room())| ==> Room() == old(Room())
      ensures |old(Room())| < size ==> |Contents()| + |Room()| == |buffer|
      ensures if |old(Contents())| + size <= |old(buffer)| then |buffer| == |old(buffer)|
              else |old(buffer)| < |buffer| && size < |Room()| <= size + expandSize
    {
      if size <= WritableBytes() {
        return;
      }
      var freeSize := readIndex + WritableBytes();
      var callocSize := |buffer|;
      var readable := buffer[readIndex..writeIndex];
      if freeSize < size {
        var n := (size - freeSize) / expandSize + 1;
        callocSize := callocSize + expandSize * n;
        Grown(|buffer|, initSize, expandSize, expansions, size - freeSize);
        expansions := expansions + n;
      }
      buffer := readable + seq(callocSize - |readable|, _ => 0);
      readIndex := 0;
      writeIndex := |readable|;
    }

    /** Add bytes at the end. */
    method Append(data: seq<byte>)
      requires Valid()
      modifies this
      ensures Valid() && Contents() == old(Contents()) + data
      ensures |data| <= |old(Room())| ==> |Room()| == |old(Room())| - |data|
    {
      ReserveWritableBytes(|data|);
      Poke(0, data);
      assert Room()[..|data|] == data;
      WrittenBytes(|data|);
    }

    /** Copy out up to `size` bytes; the buffer keeps them. */
    method Read(size: nat) returns (data: seq<byte>)
      requires Valid()
      ensures data == Contents()[..Min(size, |Contents()|)]
    {
      data := buffer[readIndex..readIndex + Min(size, ReadableBytes())];
    }
  }

  function Min(a: nat, b: nat): nat { if a < b then a else b }

  lemma Grown(length: nat, init: nat, expand: nat, expansions: nat, missing: nat)
    requires 0 < expand && length == init + expansions * expand
    ensures var n := missing / expand + 1;
      && length + expand * n == init + (expansions + n) * expand
      && missing < expand * n <= missing + expand
  {
    DivMod(missing, expand);
    Distribute(missing / expand, 1, expand);
    Distribute(expansions, missing / expand + 1, expand);
  }
}
