/** The block-size adapter of BSizeAlign.cpp: collects small blocks until a large one is full,
    or hands a large block out in small pieces until it is used up. */
module Aligners {
  import opened Bits
  import opened RingBuffers

  const SIZEOF_FLOAT := 4

  function Max(a: int, b: int): (m: int)
    ensures m >= a && m >= b && (m == a || m == b)
  {
    if a >= b then a else b
  }

  /** A buffer whose first bytes have been replaced. */
  function Overlay(bytes: seq<byte>, before: seq<byte>): (after: seq<byte>)
    ensures bytes == [] ==> after == before
    ensures bytes <= after && (|bytes| <= |before| ==> |after| == |before| && after[|bytes|..] == before[|bytes|..])
  {
    if |bytes| <= |before| then bytes + before[|bytes|..] else bytes
  }

  /** What an aligner does, on values: sizes in bytes, the queued bytes, and the drain flag. */
  datatype Align = Align(inBytes: nat, outBytes: nat, queue: seq<byte>, canGet: bool) {
    predicate OutBig() {
      outBytes > inBytes
    }

    function Capacity(): nat {
      if OutBig() then outBytes else inBytes
    }

    predicate Valid() {
      |queue| <= Capacity()
    }

    predicate AddSucceeds() {
      |queue| + inBytes <= Capacity()
    }

    /** The aligner after being offered a block. */
    function Add(block: seq<byte>): (a: Align)
      requires Valid() && |block| == inBytes
      ensures a.Valid()
    {
      var q := queue + block[..Min(inBytes, Capacity() - |queue|)];
      this.(queue := q, canGet := canGet || if OutBig() then |q| == outBytes else |q| > outBytes)
    }

    predicate GetSucceeds() {
      canGet && |queue| >= outBytes
    }

    /** The bytes a request delivers. */
    function Delivered(): seq<byte> {
      if canGet then queue[..Min(outBytes, |queue|)] else []
    }

    /** The aligner after a request: collecting again at once if it builds large blocks,
        and only when empty if it splits them. */
    function Get(): (a: Align)
      requires Valid()
      ensures a.Valid()
      ensures Delivered() + a.queue == queue
    {
      if canGet then
        var q := queue[Min(outBytes, |queue|)..];
        this.(queue := q, canGet := !OutBig() && q != [])
      else
        this
    }
  }

  /** What adding a block does, in bytes: as much of it as fits in the larger of the two sizes is
      queued. An aligner that builds large blocks is ready when it is full, one that splits them
      when it holds more than a small one. */
  lemma AddInBytes(a: Align, block: seq<byte>)
    requires a.Valid() && |block| == a.inBytes
    ensures var room := if a.outBytes > a.inBytes then a.outBytes else a.inBytes;
      var offered := a.queue + block;
      var q := if |offered| <= room then offered else offered[..room];
      && a.AddSucceeds() == (|offered| <= room)
      && a.Add(block) == Align(a.inBytes, a.outBytes, q,
                               a.canGet || if a.outBytes > a.inBytes then |q| == a.outBytes else |q| > a.outBytes)
  {
    var room := if a.outBytes > a.inBytes then a.outBytes else a.inBytes;
    var offered := a.queue + block;
    if |offered| > room {
      assert offered[..room] == a.queue + block[..room - |a.queue|];
    } else {
      assert block[..|block|] == block;
    }
  }

  /** What taking a block does: nothing unless one is ready; then the front of the queue is handed
      out, and the aligner is ready again only if it splits blocks and has not run empty. */
  lemma GetInBytes(a: Align)
    requires a.Valid()
    ensures !a.canGet ==> a.Delivered() == [] && a.Get() == a && !a.GetSucceeds()
    ensures a.canGet ==>
      var n := if a.outBytes <= |a.queue| then a.outBytes else |a.queue|;
      && a.Delivered() == a.queue[..n] && a.GetSucceeds() == (n == a.outBytes)
      && a.Get() == Align(a.inBytes, a.outBytes, a.queue[n..], a.outBytes <= a.inBytes && n < |a.queue|)
  {}

  class BSizeAlign {
    const rb: RingBuffer
    const rbData: array<byte>
    const inFrames: nat
    const outFrames: nat
    const outBig: bool
    var ready: bool
    var canGet: bool

    /** The aligner as a value; every method keeps it up to date. */
    ghost var Model: Align

    ghost predicate Valid()
      reads this, rb, rbData
      ensures Valid() ==> Model.Valid() && Model.canGet == canGet
      ensures Valid() ==> Model.inBytes == SIZEOF_FLOAT * inFrames && Model.outBytes == SIZEOF_FLOAT * outFrames
    {
      && ready
      && rb.Valid()
      && rb.buffer == rbData
      && rb.bufferSize == SIZEOF_FLOAT * Max(inFrames, outFrames)
      && outBig == (outFrames > inFrames)
      && Model == Align(SIZEOF_FLOAT * inFrames, SIZEOF_FLOAT * outFrames, rb.Contents(), canGet)
    }

    constructor (inFrames: nat, outFrames: nat)
      ensures fresh(rb) && fresh(rbData)
      ensures this.inFrames == inFrames && this.outFrames == outFrames
      ensures ready <==> Max(inFrames, outFrames) == 0 || IsPow2(Max(inFrames, outFrames))
      ensures ready ==> Valid() && Model == Align(SIZEOF_FLOAT * inFrames, SIZEOF_FLOAT * outFrames, [], false)
    {
      this.inFrames := inFrames;
      this.outFrames := outFrames;
      canGet := false;
      outBig := outFrames > inFrames;
      ready := false;
      var size := SIZEOF_FLOAT * if outFrames > inFrames then outFrames else inFrames;
      rbData := new byte[size](_ => 0);
      rb := new RingBuffer();
      new;
      var res := rb.Init(size, rbData);
      ready := res != -1;
      Model := Align(SIZEOF_FLOAT * inFrames, SIZEOF_FLOAT * outFrames, [], false);
      assert size == 4 * Max(inFrames, outFrames);
      assert IsPow2(size) <==> IsPow2(size / 2) && size > 0;
    }

    /** Adds a block of inFrames frames; a missing buffer is refused. */
    method AddBuffer(buffer: array?<byte>) returns (ok: bool)
      requires Valid()
      requires buffer != null ==> buffer != rbData && SIZEOF_FLOAT * inFrames <= buffer.Length
      modifies this`canGet, this`Model, rb, rbData
      ensures Valid()
      ensures buffer == null ==> !ok && Model == old(Model)
      ensures buffer != null ==>
                && ok == old(Model).AddSucceeds()
                && Model == old(Model).Add(old(buffer[..SIZEOF_FLOAT * inFrames]))
    {
      if buffer == null {
        return false;
      }
      var size := SIZEOF_FLOAT * inFrames;
      Model := Model.Add(buffer[..size]);
      var res := rb.Write(buffer, size);
      assert rb.Contents() == Model.queue;
      var canRead := rb.GetReadAvailable();
      assert canRead == |Model.queue|;
      if (if outBig then canRead == SIZEOF_FLOAT * outFrames else canRead > SIZEOF_FLOAT * outFrames) {
        canGet := true;
      }
      return res == size;
    }

    /** Takes a block of outFrames frames, if the aligner is ready to give one. */
    method GetBuffer(buffer: array?<byte>) returns (ok: bool)
      requires Valid()
      requires buffer != null ==> buffer != rbData && SIZEOF_FLOAT * outFrames <= buffer.Length
      modifies this`canGet, this`Model, rb, buffer
      ensures Valid()
      ensures buffer == null ==> !ok && Model == old(Model)
      ensures buffer != null ==>
                && ok == old(Model).GetSucceeds()
                && Model == old(Model).Get()
                && buffer[..] == Overlay(old(Model).Delivered(), old(buffer[..]))
    {
      if buffer == null {
        return false;
      }
      if canGet {
        var size := SIZEOF_FLOAT * outFrames;
        var res := rb.Read(buffer, size);
        assert buffer[..] == Overlay(Model.Delivered(), old(buffer[..]));
        Model := Model.Get();
        assert rb.Contents() == Model.queue;
        if outBig {
          canGet := false;
        } else {
          var left := rb.GetReadAvailable();
          if left == 0 {
            canGet := false;
          }
        }
        return res == size;
      }
      return false;
    }
  }
}
