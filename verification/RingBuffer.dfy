/** Index arithmetic of the ring: indices carry one bit more than an address needs,
    so that a full ring and an empty ring have different index differences. */
module RingIndex {
  import opened Bits

  function ReadAvailable(writeIndex: int, readIndex: int, bigMask: int): int {
    And(writeIndex - readIndex, bigMask)
  }

  function WriteAvailable(bufferSize: int, writeIndex: int, readIndex: int, bigMask: int): int {
    bufferSize - ReadAvailable(writeIndex, readIndex, bigMask)
  }

  function Advance(index: int, numBytes: int, bigMask: int): int {
    And(index + numBytes, bigMask)
  }

  /** Address of the j-th byte of a transfer that starts at `index` and is split in two
      regions where it would run over the end of the storage. */
  function Slot(index: int, smallMask: int, bufferSize: int, j: int): int {
    var start := And(index, smallMask);
    if start + j < bufferSize then start + j else start + j - bufferSize
  }

  /** Address of the byte j places after `index`. */
  function Place(index: int, j: int, smallMask: int): int {
    And(index + j, smallMask)
  }

  lemma PlaceInRange(index: int, j: int, n: int)
    requires IsPow2(n)
    ensures 0 <= Place(index, j, n - 1) < n
  {
    MaskIsMod(index + j, n);
  }

  lemma PlacesDiffer(index: int, i: int, j: int, n: int)
    requires IsPow2(n) && i < j < i + n
    ensures Place(index, i, n - 1) != Place(index, j, n - 1)
  {
    MaskIsMod(index + i, n);
    MaskIsMod(index + j, n);
    ModApart(index + i, index + j, n);
  }

  /** The two-region rule addresses the storage modulo its size. */
  lemma SlotIsPlace(index: int, j: int, n: int)
    requires IsPow2(n) && 0 <= j < n
    ensures Slot(index, n - 1, n, j) == Place(index, j, n - 1)
    ensures 0 <= And(index, n - 1) < n
  {
    MaskIsMod(index, n);
    MaskIsMod(index + j, n);
    var start := index % n;
    ModAdd(index, j, n);
    ModUnique(start + j, n, if start + j < n then 0 else 1, if start + j < n then start + j else start + j - n);
  }

  /** An index may be masked with the big mask at any time without moving any address. */
  lemma PlaceOfMasked(index: int, j: int, n: int)
    requires IsPow2(n)
    ensures 0 <= And(index, 2 * n - 1) < 2 * n
    ensures Place(And(index, 2 * n - 1), j, n - 1) == Place(index, j, n - 1)
  {
    DoublePow2(n);
    MaskIsMod(index, 2 * n);
    var masked := And(index, 2 * n - 1);
    MaskIsMod(masked + j, n);
    MaskIsMod(index + j, n);
    ModOfDoubleSum(index, masked, j, n);
  }

  /** Twice a power of two is a power of two. */
  lemma DoublePow2(n: int)
    requires IsPow2(n)
    ensures IsPow2(2 * n) && n > 0
  {
    assert 2 * n / 2 == n;
  }

  lemma MaskedInRange(index: int, n: int)
    requires IsPow2(n) && 0 <= index < 2 * n
    ensures And(index, 2 * n - 1) == index
  {
    DoublePow2(n);
    MaskBelow(index, 2 * n);
  }

  /** With w and r the total counts of bytes written and read, the masked indices give
      back the exact fill, from empty (0) to full (n). */
  lemma FillOfTotals(w: int, r: int, n: int)
    requires IsPow2(n) && r <= w <= r + n
    ensures ReadAvailable(And(w, 2 * n - 1), And(r, 2 * n - 1), 2 * n - 1) == w - r
  {
    DoublePow2(n);
    MaskOfDifference(w, r, 2 * n);
  }

  /** One address serves both the oldest byte and the next free one exactly when the ring is
      empty or full, and the extra index bit tells the two apart. */
  lemma FullOrEmpty(w: int, r: int, n: int)
    requires IsPow2(n) && r <= w <= r + n
    ensures And(w, n - 1) == And(r, n - 1) <==> w == r || w == r + n
    ensures And(w, 2 * n - 1) == And(r, 2 * n - 1) <==> w == r
  {
    SamePlace(w, r, n);
    DoublePow2(n);
    SameMask(w, r, 2 * n);
    if w < r + n {
      SameMask(w, r, n);
    }
  }

  /** Totals less than m apart have one masked index only if they are the same. */
  lemma SameMask(w: int, r: int, m: int)
    requires IsPow2(m) && r <= w < r + m
    ensures And(w, m - 1) == And(r, m - 1) <==> w == r
  {
    MaskIsMod(w, m);
    MaskIsMod(r, m);
    if r < w {
      ModApart(r, w, m);
    }
  }

  lemma SamePlace(w: int, r: int, n: int)
    requires IsPow2(n)
    ensures w == r + n ==> And(w, n - 1) == And(r, n - 1)
  {
    if w == r + n {
      DoublePow2(n);
      MaskIsMod(w, n);
      MaskIsMod(r, n);
      ModAdd(n, r, n);
      ModUnique(n, n, 1, 0);
    }
  }

  /** Advancing a masked index is masking the advanced total. */
  lemma AdvanceOfTotal(a: int, k: int, n: int)
    requires IsPow2(n)
    ensures Advance(And(a, 2 * n - 1), k, 2 * n - 1) == And(a + k, 2 * n - 1)
  {
    DoublePow2(n);
    MaskOfSum(a, k, 2 * n);
  }

  lemma MaskBounds(x: int, m: int)
    requires IsPow2(m)
    ensures 0 <= And(x, m - 1) < m
  {
    MaskIsMod(x, m);
  }

  /** Advancing the write index by what fits raises the fill by as much. */
  lemma FillAfterWrite(w: int, r: int, k: int, m: int)
    requires IsPow2(m) && 0 <= k && 0 <= ReadAvailable(w, r, m - 1) < m - k
    ensures ReadAvailable(Advance(w, k, m - 1), r, m - 1) == ReadAvailable(w, r, m - 1) + k
  {
    var d := w - r + k;
    MaskOfPlus(-r, w + k, Advance(w, k, m - 1), d, m);
    MaskOfShift(w - r, k, d, m);
  }

  /** Advancing the read index by what is queued lowers the fill by as much. */
  lemma FillAfterRead(w: int, r: int, k: int, m: int)
    requires IsPow2(m) && 0 <= k <= ReadAvailable(w, r, m - 1) < m
    ensures ReadAvailable(w, Advance(r, k, m - 1), m - 1) == ReadAvailable(w, r, m - 1) - k
  {
    var d := w - r - k;
    MaskOfMinus(w, r + k, Advance(r, k, m - 1), d, m);
    MaskOfShift(w - r, -k, d, m);
  }
}

/** The byte FIFO of ringbuffer.c, over storage whose size is a power of two. */
module RingBuffers {
  import opened Bits
  import opened RingIndex

  newtype byte = x: int | 0 <= x < 256

  function Min(a: int, b: int): (m: int)
    ensures m <= a && m <= b && (m == a || m == b)
  {
    if a <= b then a else b
  }

  /** memcpy between two different arrays. */
  method MemCpy(dst: array<byte>, dstOff: nat, src: array<byte>, srcOff: nat, n: nat)
    requires dst != src && dstOff + n <= dst.Length && srcOff + n <= src.Length
    modifies dst
    ensures forall i | 0 <= i < dst.Length ::
              dst[i] == if dstOff <= i < dstOff + n then src[srcOff + (i - dstOff)] else old(dst[i])
  {
    forall i | 0 <= i < n {
      dst[dstOff + i] := src[srcOff + i];
    }
  }

  class RingBuffer {
    var bufferSize: int
    var writeIndex: int
    var readIndex: int
    var bigMask: int
    var smallMask: int
    var buffer: array<byte>

    ghost predicate Valid()
      reads this
    {
      && (bufferSize == 0 || IsPow2(bufferSize))
      && 0 <= bufferSize <= buffer.Length
      && bigMask == 2 * bufferSize - 1
      && smallMask == bufferSize - 1
      && (bufferSize == 0 ==> writeIndex == readIndex == 0)
      && (bufferSize > 0 ==> 0 <= writeIndex < 2 * bufferSize && 0 <= readIndex < 2 * bufferSize)
      && 0 <= Fill() <= bufferSize
    }

    ghost function Fill(): int
      reads this
    {
      And(writeIndex - readIndex, bigMask)
    }

    /** The byte j places after an index. */
    ghost function ByteAt(index: int, j: int): byte
      reads this, buffer
      requires IsPow2(bufferSize) && smallMask == bufferSize - 1 && bufferSize <= buffer.Length
    {
      PlaceInRange(index, j, bufferSize);
      buffer[Place(index, j, smallMask)]
    }

    /** The queued bytes, oldest first. */
    ghost function Contents(): (s: seq<byte>)
      reads this, buffer
      requires Valid()
      ensures |s| == Fill() <= bufferSize
      ensures forall i | 0 <= i < |s| :: s[i] == ByteAt(readIndex, i)
    {
      seq(Fill(), i requires 0 <= i < Fill() && Valid() reads this, buffer => ByteAt(readIndex, i))
    }

    /** A record not yet set up. */
    constructor ()
      ensures fresh(buffer)
    {
      buffer := new byte[0];
    }

    method Init(numBytes: int, dataPtr: array<byte>) returns (res: int)
      requires numBytes <= dataPtr.Length
      modifies this
      ensures res == if numBytes == 0 || IsPow2(numBytes) then 0 else -1
      ensures res == -1 ==> unchanged(this)
      ensures res == 0 ==> Valid() && buffer == dataPtr && bufferSize == numBytes && Contents() == []
    {
      PowerTest(numBytes);
      if And(numBytes - 1, numBytes) != 0 {
        return -1;
      }
      bufferSize := numBytes;
      buffer := dataPtr;
      Flush();
      bigMask := numBytes * 2 - 1;
      smallMask := numBytes - 1;
      return 0;
    }

    method Flush()
      modifies this`writeIndex, this`readIndex
      ensures writeIndex == readIndex == 0
      ensures old(Valid()) ==> Valid() && Contents() == []
    {
      writeIndex := 0;
      readIndex := 0;
    }

    function GetReadAvailable(): (available: int)
      reads this, buffer
      requires Valid()
      ensures available == |Contents()|
    {
      ReadAvailable(writeIndex, readIndex, bigMask)
    }

    function GetWriteAvailable(): (available: int)
      reads this, buffer
      requires Valid()
      ensures available == bufferSize - |Contents()|
    {
      WriteAvailable(bufferSize, writeIndex, readIndex, bigMask)
    }

    /** The regions of a transfer of `count` bytes from `index`: together they are the
        addresses of index, index + 1, ..., each once and in order. */
    ghost predicate Regions(index: int, count: int, data1: int, size1: int, data2: int, size2: int)
      reads this
    {
      && size1 >= 0 && size2 >= 0 && size1 + size2 == count
      && 0 <= data1 && data1 + size1 <= bufferSize
      && 0 <= data2 && data2 + size2 <= bufferSize
      && (size2 > 0 ==> data2 + size2 <= data1)
      && (bufferSize > 0 ==>
            forall j | 0 <= j < count ::
              Place(index, j, smallMask) == if j < size1 then data1 + j else data2 + (j - size1))
    }

    lemma SplitIsRegions(index: int, count: int)
      requires Valid() && 0 <= count <= bufferSize && 0 < bufferSize
      ensures var start := And(index, smallMask); var first := bufferSize - start;
        && 0 <= start < bufferSize
        && (start + count > bufferSize ==> Regions(index, count, start, first, 0, count - first))
        && (start + count <= bufferSize ==> Regions(index, count, start, count, 0, 0))
    {
      SlotIsPlace(index, 0, bufferSize);
      forall j | 0 <= j < count
        ensures Slot(index, smallMask, bufferSize, j) == Place(index, j, smallMask)
      {
        SlotIsPlace(index, j, bufferSize);
      }
    }

    method GetWriteRegions(numBytes: nat) returns (count: int, data1: int, size1: int, data2: int, size2: int)
      requires Valid()
      ensures count == Min(numBytes, bufferSize - |Contents()|)
      ensures Regions(writeIndex, count, data1, size1, data2, size2)
    {
      var available := GetWriteAvailable();
      count := if numBytes > available then available else numBytes;
      var index := And(writeIndex, smallMask);
      if bufferSize > 0 {
        SplitIsRegions(writeIndex, count);
      }
      if index + count > bufferSize {
        var firstHalf := bufferSize - index;
        data1, size1 := index, firstHalf;
        data2, size2 := 0, count - firstHalf;
      } else {
        data1, size1 := index, count;
        data2, size2 := 0, 0;
      }
    }

    method GetReadRegions(numBytes: nat) returns (count: int, data1: int, size1: int, data2: int, size2: int)
      requires Valid()
      ensures count == Min(numBytes, |Contents()|)
      ensures Regions(readIndex, count, data1, size1, data2, size2)
    {
      var available := GetReadAvailable();
      count := if numBytes > available then available else numBytes;
      var index := And(readIndex, smallMask);
      if bufferSize > 0 {
        SplitIsRegions(readIndex, count);
      }
      if index + count > bufferSize {
        var firstHalf := bufferSize - index;
        data1, size1 := index, firstHalf;
        data2, size2 := 0, count - firstHalf;
      } else {
        data1, size1 := index, count;
        data2, size2 := 0, 0;
      }
    }

    /** Publishes the bytes already copied behind the queue. */
    method AdvanceWriteIndex(numBytes: nat)
      requires Valid() && numBytes <= bufferSize - |Contents()|
      modifies this`writeIndex
      ensures Valid()
      ensures |Contents()| == |old(Contents())| + numBytes
      ensures forall i | 0 <= i < |Contents()| :: Contents()[i] == ByteAt(readIndex, i)
    {
      if bufferSize > 0 {
        WriteIndexMoves(numBytes);
      }
      writeIndex := Advance(writeIndex, numBytes, bigMask);
    }

    /** Frees the oldest bytes. */
    method AdvanceReadIndex(numBytes: nat)
      requires Valid() && numBytes <= |Contents()|
      modifies this`readIndex
      ensures Valid()
      ensures Contents() == old(Contents())[numBytes..]
    {
      ghost var before := Contents();
      if bufferSize > 0 {
        ReadIndexMoves(numBytes);
      }
      readIndex := Advance(readIndex, numBytes, bigMask);
      assert forall i | 0 <= i < |Contents()| :: Contents()[i] == before[numBytes + i];
    }

    lemma WriteIndexMoves(numBytes: nat)
      requires Valid() && bufferSize > 0 && Fill() + numBytes <= bufferSize
      ensures var next := Advance(writeIndex, numBytes, bigMask);
        && 0 <= next < 2 * bufferSize
        && And(next - readIndex, bigMask) == Fill() + numBytes
    {
      FillAfterWrite(writeIndex, readIndex, numBytes, 2 * bufferSize);
      MaskBounds(writeIndex + numBytes, 2 * bufferSize);
    }

    lemma ReadIndexMoves(numBytes: nat)
      requires Valid() && bufferSize > 0 && numBytes <= Fill()
      ensures var next := Advance(readIndex, numBytes, bigMask);
        && 0 <= next < 2 * bufferSize
        && And(writeIndex - next, bigMask) == Fill() - numBytes
        && forall i :: Place(next, i, smallMask) == Place(readIndex, numBytes + i, smallMask)
    {
      FillAfterRead(writeIndex, readIndex, numBytes, 2 * bufferSize);
      MaskBounds(readIndex + numBytes, 2 * bufferSize);
      forall i
        ensures Place(Advance(readIndex, numBytes, bigMask), i, smallMask) == Place(readIndex, numBytes + i, smallMask)
      {
        PlaceOfMasked(readIndex + numBytes, i, bufferSize);
      }
    }

    /** Seen from the read index, the write index is the fill further on. */
    lemma WriteIndexOfFill()
      requires Valid() && bufferSize > 0
      ensures writeIndex == And(readIndex + Fill(), bigMask)
    {
      AdvanceOfTotal(writeIndex - readIndex, readIndex, bufferSize);
      MaskedInRange(writeIndex, bufferSize);
    }

    /** The region to be written is the continuation of the queue and holds none of its bytes. */
    lemma WriteRegionIsFree(count: nat)
      requires Valid() && bufferSize > 0 && count <= bufferSize - Fill()
      ensures forall j | 0 <= j < count ::
                Place(writeIndex, j, smallMask) == Place(readIndex, Fill() + j, smallMask)
      ensures forall i, j | 0 <= i < Fill() && 0 <= j < count ::
                Place(readIndex, i, smallMask) != Place(writeIndex, j, smallMask)
    {
      WriteIndexOfFill();
      forall j | 0 <= j < count
        ensures Place(writeIndex, j, smallMask) == Place(readIndex, Fill() + j, smallMask)
      {
        PlaceOfMasked(readIndex + Fill(), j, bufferSize);
      }
      forall i, j | 0 <= i < Fill() && 0 <= j < count
        ensures Place(readIndex, i, smallMask) != Place(writeIndex, j, smallMask)
      {
        PlacesDiffer(readIndex, i, Fill() + j, bufferSize);
      }
    }

    /** Stores `count` bytes from the write index on and touches no queued byte. */
    method CopyIn(data: array<byte>, count: int, data1: int, size1: int, data2: int, size2: int)
      requires Valid() && data != buffer && 0 <= count <= data.Length && count <= bufferSize - Fill()
      requires Regions(writeIndex, count, data1, size1, data2, size2)
      modifies buffer
      ensures Contents() == old(Contents())
      ensures IsPow2(bufferSize) ==> forall j | 0 <= j < count :: ByteAt(readIndex, Fill() + j) == data[j]
    {
      if bufferSize > 0 {
        WriteRegionIsFree(count);
        forall i | 0 <= i < Fill()
          ensures var address := Place(readIndex, i, smallMask);
            && !(data1 <= address < data1 + size1) && !(data2 <= address < data2 + size2)
        {
          NotInRegions(writeIndex, count, data1, size1, data2, size2, Place(readIndex, i, smallMask));
        }
      }
      CopyToRegions(data, data1, size1, data2, size2);
      if bufferSize > 0 {
        forall i | 0 <= i < Fill()
          ensures ByteAt(readIndex, i) == old(Contents())[i]
        {
          PlaceInRange(readIndex, i, bufferSize);
        }
        assert Contents() == old(Contents());
        forall j | 0 <= j < count
          ensures ByteAt(readIndex, Fill() + j) == data[j]
        {
          assert Place(writeIndex, j, smallMask) == Place(readIndex, Fill() + j, smallMask);
          assert Place(writeIndex, j, smallMask) == if j < size1 then data1 + j else data2 + (j - size1);
        }
      }
    }

    /** Fills both regions and leaves the rest of the storage alone. */
    method CopyToRegions(data: array<byte>, data1: int, size1: int, data2: int, size2: int)
      requires data != buffer && size1 >= 0 && size2 >= 0 && size1 + size2 <= data.Length
      requires 0 <= data1 && data1 + size1 <= buffer.Length && 0 <= data2 && data2 + size2 <= buffer.Length
      requires size2 > 0 ==> data2 + size2 <= data1
      modifies buffer
      ensures forall a | data1 <= a < data1 + size1 :: buffer[a] == data[a - data1]
      ensures forall a | data2 <= a < data2 + size2 :: buffer[a] == data[size1 + (a - data2)]
      ensures forall a | 0 <= a < buffer.Length && !(data1 <= a < data1 + size1) && !(data2 <= a < data2 + size2) ::
                buffer[a] == old(buffer[a])
    {
      if size2 > 0 {
        MemCpy(buffer, data1, data, 0, size1);
        MemCpy(buffer, data2, data, size1, size2);
      } else {
        MemCpy(buffer, data1, data, 0, size1);
      }
    }

    /** Loads the oldest `count` bytes. */
    method CopyOut(data: array<byte>, count: int, data1: int, size1: int, data2: int, size2: int)
      requires Valid() && data != buffer && 0 <= count <= data.Length && count <= Fill()
      requires Regions(readIndex, count, data1, size1, data2, size2)
      modifies data
      ensures data[..] == Contents()[..count] + old(data[..])[count..]
    {
      ghost var before := data[..];
      if size2 > 0 {
        MemCpy(data, 0, buffer, data1, size1);
        MemCpy(data, size1, buffer, data2, size2);
      } else {
        MemCpy(data, 0, buffer, data1, size1);
      }
      forall j | 0 <= j < count
        ensures data[j] == Contents()[j]
      {
        assert Contents()[j] == buffer[Place(readIndex, j, smallMask)];
      }
      assert data[count..] == before[count..];
    }

    /** An address that no byte of a transfer uses lies outside both of its regions. */
    lemma NotInRegions(index: int, count: int, data1: int, size1: int, data2: int, size2: int, address: int)
      requires bufferSize > 0 && Regions(index, count, data1, size1, data2, size2)
      requires forall j | 0 <= j < count :: Place(index, j, smallMask) != address
      ensures !(data1 <= address < data1 + size1) && !(data2 <= address < data2 + size2)
    {
      if data1 <= address < data1 + size1 {
        var p := Place(index, address - data1, smallMask);
        assert false;
      }
      if data2 <= address < data2 + size2 {
        var p := Place(index, size1 + (address - data2), smallMask);
        assert false;
      }
    }

    /** Appends the longest prefix of the data that fits. */
    method Write(data: array<byte>, numBytes: nat) returns (numWritten: nat)
      requires Valid() && data != buffer && numBytes <= data.Length
      modifies this`writeIndex, buffer
      ensures Valid()
      ensures numWritten == Min(numBytes, bufferSize - |old(Contents())|)
      ensures Contents() == old(Contents()) + data[..numWritten]
    {
      var count, data1, size1, data2, size2 := GetWriteRegions(numBytes);
      CopyIn(data, count, data1, size1, data2, size2);
      AdvanceWriteIndex(count);
      return count;
    }

    /** Removes the longest prefix of the queue not longer than asked for. */
    method Read(data: array<byte>, numBytes: nat) returns (numRead: nat)
      requires Valid() && data != buffer && numBytes <= data.Length
      modifies this`readIndex, data
      ensures Valid()
      ensures numRead == Min(numBytes, |old(Contents())|)
      ensures data[..] == old(Contents())[..numRead] + old(data[..])[numRead..]
      ensures Contents() == old(Contents())[numRead..]
    {
      var count, data1, size1, data2, size2 := GetReadRegions(numBytes);
      CopyOut(data, count, data1, size1, data2, size2);
      AdvanceReadIndex(count);
      return count;
    }
  }
}
