/** What one stereo side of JARInsert::Process does, on values, and what it does over a whole run. */
module InsertStreams {
  import opened Bits
  import opened RingBuffers
  import opened Aligners

  type Block = seq<byte>

  /** The aligner towards JACK and the aligner back to the host, for one channel. */
  datatype Channel = Channel(send: Align, ret: Align) {
    predicate Valid() {
      send.Valid() && ret.Valid()
    }

    predicate Fits(hostIn: Block, jackIn: Block) {
      |hostIn| == send.inBytes && |jackIn| == ret.inBytes
    }

    function Collected(hostIn: Block): Align
      requires send.Valid() && |hostIn| == send.inBytes
    {
      send.Add(hostIn)
    }

    function Refilled(jackIn: Block): Align
      requires ret.Valid() && |jackIn| == ret.inBytes
    {
      if ret.canGet then ret else ret.Add(jackIn)
    }

    function HostOut(jackIn: Block): Block
      requires ret.Valid() && |jackIn| == ret.inBytes
    {
      Refilled(jackIn).Delivered()
    }

    function JackOut(hostIn: Block): Block
      requires send.Valid() && |hostIn| == send.inBytes
    {
      Collected(hostIn).Delivered()
    }

    function Tick(hostIn: Block, jackIn: Block): (c: Channel)
      requires Valid() && Fits(hostIn, jackIn)
      ensures c.Valid()
    {
      Channel(Collected(hostIn).Get(), Refilled(jackIn).Get())
    }

    /** Every aligner call made in this tick moves a whole block. */
    predicate TickSucceeds(hostIn: Block, jackIn: Block)
      requires Valid() && Fits(hostIn, jackIn)
    {
      && send.AddSucceeds()
      && (!ret.canGet ==> ret.AddSucceeds())
      && (Refilled(jackIn).canGet ==> Refilled(jackIn).GetSucceeds())
      && (Collected(hostIn).canGet ==> Collected(hostIn).GetSucceeds())
    }
  }

  /** A channel just allocated, for blocks of h bytes on the host side and j on JACK's. */
  function Fresh(h: nat, j: nat): Channel {
    Channel(Align(h, j, [], false), Align(j, h, [], false))
  }

  /** A run so far: the channel, all bytes given to the host, the blocks given to JACK, and
      whether every aligner call moved a whole block. */
  datatype Trace = Trace(channel: Channel, hostOut: Block, jackOut: seq<Block>, ok: bool)

  predicate Sized(blocks: seq<Block>, size: nat) {
    forall i | 0 <= i < |blocks| :: |blocks[i]| == size
  }

  function Run(h: nat, j: nat, hostIn: seq<Block>, jackIn: seq<Block>): (t: Trace)
    requires |hostIn| == |jackIn| && Sized(hostIn, h) && Sized(jackIn, j)
    ensures t.channel.Valid()
    ensures t.channel.send.inBytes == t.channel.ret.outBytes == h
    ensures t.channel.send.outBytes == t.channel.ret.inBytes == j
  {
    if hostIn == [] then
      Trace(Fresh(h, j), [], [], true)
    else
      var n := |hostIn| - 1;
      Extend(Run(h, j, hostIn[..n], jackIn[..n]), hostIn[n], jackIn[n])
  }

  function Extend(t: Trace, hostIn: Block, jackIn: Block): (t': Trace)
    requires t.channel.Valid() && t.channel.Fits(hostIn, jackIn)
    ensures t'.channel.Valid()
  {
    var c := t.channel;
    Trace(c.Tick(hostIn, jackIn),
          t.hostOut + c.HostOut(jackIn),
          if c.Collected(hostIn).canGet then t.jackOut + [c.JackOut(hostIn)] else t.jackOut,
          t.ok && c.TickSucceeds(hostIn, jackIn))
  }

  function Flatten(blocks: seq<Block>): Block {
    if blocks == [] then [] else Flatten(blocks[..|blocks| - 1]) + blocks[|blocks| - 1]
  }

  /** Every q-th block, starting with the first. */
  function EveryNth(blocks: seq<Block>, q: nat): seq<Block>
    requires q > 0
  {
    if blocks == [] then []
    else
      var n := |blocks| - 1;
      EveryNth(blocks[..n], q) + if n % q == 0 then [blocks[n]] else []
  }

  /** Where the aligners stand after n calls: the phase n % q fixes both queue lengths. */
  predicate InPhase(c: Channel, h: nat, q: nat, n: nat)
    requires q > 0
  {
    var phase := n % q;
    && |c.send.queue| == phase * h
    && !c.send.canGet
    && |c.ret.queue| == (if phase == 0 then 0 else (q - phase) * h)
    && (c.ret.canGet <==> phase > 0)
  }

  lemma NextPhase(n: nat, q: nat, h: nat)
    requires q > 1
    ensures (n + 1) % q == if n % q + 1 == q then 0 else n % q + 1
    ensures (n + 1) / q == if n % q + 1 == q then n / q + 1 else n / q
    ensures (n % q + 1) * h == (n % q) * h + h
    ensures (q - n % q) * h - h == (q - (n % q + 1)) * h
  {
    var d, m := n / q, n % q;
    Distribute(d, 1, q);
    if m + 1 == q {
      ModUnique(n + 1, q, d + 1, 0);
    } else {
      ModUnique(n + 1, q, d, m + 1);
    }
    Distribute(m, 1, h);
    Distribute(q - m, 1, h);
  }

  lemma PhaseBounds(phase: nat, q: nat, h: nat)
    requires phase < q && h > 0
    ensures (phase + 1) * h <= q * h
    ensures (phase + 1) * h == q * h <==> phase + 1 == q
    ensures phase + 1 < q ==> (q - (phase + 1)) * h >= h
    ensures (q - phase) * h >= h
  {
    Distribute(q, phase + 1, h);
    MulBound(q - (phase + 1), h);
    MulBound(q - phase, h);
  }

  /** One call, in whatever phase: no aligner call fails, the next phase is reached, and each
      queue passes on exactly what it holds, oldest byte first. */
  lemma TickAdvances(c: Channel, h: nat, j: nat, q: nat, n: nat, hostIn: Block, jackIn: Block)
    requires 0 < h && 1 < q && j == q * h
    requires c.Valid() && c.Fits(hostIn, jackIn) && InPhase(c, h, q, n)
    requires c.send.inBytes == c.ret.outBytes == h && c.send.outBytes == c.ret.inBytes == j
    ensures c.TickSucceeds(hostIn, jackIn)
    ensures InPhase(c.Tick(hostIn, jackIn), h, q, n + 1)
    ensures |c.HostOut(jackIn)| == h
    ensures c.HostOut(jackIn) + c.Tick(hostIn, jackIn).ret.queue ==
            c.ret.queue + if n % q == 0 then jackIn else []
    ensures c.Collected(hostIn).canGet <==> (n + 1) % q == 0
    ensures (n + 1) % q == 0 ==> |c.JackOut(hostIn)| == j
    ensures c.JackOut(hostIn) + c.Tick(hostIn, jackIn).send.queue == c.send.queue + hostIn
  {
    var phase := n % q;
    NextPhase(n, q, h);
    PhaseBounds(phase, q, h);
    MulBound(q - 1, h);
    Distribute(q, 1, h);
    CollectAdvances(c.send, h, j, q, phase, hostIn);
    RefillAdvances(c.ret, h, j, q, phase, jackIn);
  }

  lemma CollectAdvances(a: Align, h: nat, j: nat, q: nat, phase: nat, block: Block)
    requires 0 < h < j && phase < q && j == q * h && a.Valid() && |block| == a.inBytes == h && a.outBytes == j
    requires |a.queue| == phase * h && !a.canGet
    ensures a.AddSucceeds()
    ensures a.Add(block).queue == a.queue + block
    ensures a.Add(block).canGet <==> phase + 1 == q
    ensures a.Add(block).canGet ==> a.Add(block).GetSucceeds() && a.Add(block).Get().queue == []
    ensures !a.Add(block).Get().canGet
    ensures |a.queue + block| == (phase + 1) * h
  {
    PhaseBounds(phase, q, h);
    Distribute(phase, 1, h);
  }

  lemma RefillAdvances(a: Align, h: nat, j: nat, q: nat, phase: nat, block: Block)
    requires 0 < h < j && phase < q && j == q * h && a.Valid() && |block| == a.inBytes == j && a.outBytes == h
    requires |a.queue| == (if phase == 0 then 0 else (q - phase) * h) && (a.canGet <==> phase > 0)
    ensures !a.canGet ==> a.AddSucceeds()
    ensures var b := if a.canGet then a else a.Add(block);
      && b.GetSucceeds()
      && b.queue == a.queue + (if phase == 0 then block else [])
      && |b.Delivered()| == h
      && |b.Get().queue| == (q - phase) * h - h
      && (b.Get().canGet <==> phase + 1 < q)
  {
    PhaseBounds(phase, q, h);
    Distribute(q - phase, 1, h);
  }

  /** The host has been given n blocks; with what is still queued for it they are every q-th
      JACK block laid end to end. */
  predicate HostSide(t: Trace, h: nat, q: nat, n: nat, jackIn: seq<Block>)
    requires q > 0
  {
    |t.hostOut| == n * h && t.hostOut + t.channel.ret.queue == Flatten(EveryNth(jackIn, q))
  }

  /** JACK has been given a block after every q-th call; with what is still collected they are
      the host's blocks laid end to end. */
  predicate JackSide(t: Trace, j: nat, q: nat, n: nat, hostIn: seq<Block>)
    requires q > 0
  {
    |t.jackOut| == n / q && Sized(t.jackOut, j) && Flatten(t.jackOut) + t.channel.send.queue == Flatten(hostIn)
  }

  lemma HostSideAdvances(t: Trace, h: nat, j: nat, q: nat, jackIn: seq<Block>, hostBlock: Block)
    requires 0 < h && 1 < q && j == q * h && |jackIn| > 0
    requires var n := |jackIn| - 1;
      && t.channel.Valid() && t.channel.Fits(hostBlock, jackIn[n]) && InPhase(t.channel, h, q, n)
      && t.channel.send.inBytes == t.channel.ret.outBytes == h && t.channel.send.outBytes == t.channel.ret.inBytes == j
      && HostSide(t, h, q, n, jackIn[..n])
    ensures HostSide(Extend(t, hostBlock, jackIn[|jackIn| - 1]), h, q, |jackIn|, jackIn)
  {
    var n := |jackIn| - 1;
    TickAdvances(t.channel, h, j, q, n, hostBlock, jackIn[n]);
    Distribute(n, 1, h);
    var t' := Extend(t, hostBlock, jackIn[n]);
    var taken := if n % q == 0 then jackIn[n] else [];
    assert t'.hostOut + t'.channel.ret.queue == t.hostOut + (t.channel.ret.queue + taken);
    assert t.hostOut + (t.channel.ret.queue + taken) == (t.hostOut + t.channel.ret.queue) + taken;
    FlattenEveryNth(jackIn, q);
  }

  lemma FlattenEveryNth(blocks: seq<Block>, q: nat)
    requires q > 0 && |blocks| > 0
    ensures var n := |blocks| - 1;
      Flatten(EveryNth(blocks, q)) == Flatten(EveryNth(blocks[..n], q)) + if n % q == 0 then blocks[n] else []
  {
    var n := |blocks| - 1;
    var e := EveryNth(blocks[..n], q);
    if n % q == 0 {
      assert (e + [blocks[n]])[..|e|] == e;
    } else {
      assert EveryNth(blocks, q) == e;
    }
  }

  lemma JackSideAdvances(t: Trace, h: nat, j: nat, q: nat, hostIn: seq<Block>, jackBlock: Block)
    requires 0 < h && 1 < q && j == q * h && |hostIn| > 0
    requires var n := |hostIn| - 1;
      && t.channel.Valid() && t.channel.Fits(hostIn[n], jackBlock) && InPhase(t.channel, h, q, n)
      && t.channel.send.inBytes == t.channel.ret.outBytes == h && t.channel.send.outBytes == t.channel.ret.inBytes == j
      && JackSide(t, j, q, n, hostIn[..n])
    ensures JackSide(Extend(t, hostIn[|hostIn| - 1], jackBlock), j, q, |hostIn|, hostIn)
  {
    var n := |hostIn| - 1;
    TickAdvances(t.channel, h, j, q, n, hostIn[n], jackBlock);
    NextPhase(n, q, h);
    JoinEmitted(t.jackOut, t.channel.send.queue, hostIn[n], t.channel.JackOut(hostIn[n]),
                t.channel.Tick(hostIn[n], jackBlock).send.queue);
  }

  /** Whether or not a block is emitted, nothing is lost and nothing moves. */
  lemma JoinEmitted(blocks: seq<Block>, queue: Block, block: Block, emitted: Block, queue': Block)
    requires emitted + queue' == queue + block
    ensures Flatten(blocks + [emitted]) + queue' == Flatten(blocks) + queue + block
    ensures emitted == [] ==> Flatten(blocks) + queue' == Flatten(blocks) + queue + block
  {
    assert (blocks + [emitted])[..|blocks|] == blocks;
    var sent := Flatten(blocks);
    assert sent + emitted + queue' == sent + (emitted + queue');
    assert sent + queue + block == sent + (queue + block);
  }

  /** Over any number of calls: no aligner call fails, the phase is the number of calls modulo q,
      and both streams are unbroken. */
  lemma {:induction false} Unbroken(h: nat, j: nat, q: nat, hostIn: seq<Block>, jackIn: seq<Block>)
    requires 0 < h && 1 < q && j == q * h
    requires |hostIn| == |jackIn| && Sized(hostIn, h) && Sized(jackIn, j)
    ensures var t := Run(h, j, hostIn, jackIn); var n := |hostIn|;
      && t.ok
      && InPhase(t.channel, h, q, n)
      && HostSide(t, h, q, n, jackIn)
      && JackSide(t, j, q, n, hostIn)
  {
    if hostIn != [] {
      var n := |hostIn| - 1;
      Unbroken(h, j, q, hostIn[..n], jackIn[..n]);
      var t := Run(h, j, hostIn[..n], jackIn[..n]);
      TickAdvances(t.channel, h, j, q, n, hostIn[n], jackIn[n]);
      HostSideAdvances(t, h, j, q, jackIn, hostIn[n]);
      JackSideAdvances(t, h, j, q, hostIn, jackIn[n]);
    }
  }

  /** The two queues of a channel hold 0 or j bytes together. */
  lemma FillsSumToZeroOrBlock(c: Channel, h: nat, q: nat, n: nat)
    requires 0 < h && 1 < q && InPhase(c, h, q, n)
    ensures |c.send.queue| + |c.ret.queue| == if n % q == 0 then 0 else q * h
  {
    Distribute(n % q, q - n % q, h);
  }

  /** Where byte m of block b is in a stream of blocks of one size. */
  function PlaceInStream(b: nat, size: nat, m: nat): nat {
    b * size + m
  }

  /** A stream cut into blocks of one size has each block's bytes in their places. */
  lemma {:induction false} BlockOfStream(blocks: seq<Block>, size: nat, b: nat, m: nat)
    requires Sized(blocks, size) && b < |blocks| && m < size
    ensures |Flatten(blocks)| == |blocks| * size
    ensures var i := PlaceInStream(b, size, m); i < |Flatten(blocks)| && Flatten(blocks)[i] == blocks[b][m]
  {
    var n := |blocks| - 1;
    Distribute(n, 1, size);
    if b < n {
      BlockOfStream(blocks[..n], size, b, m);
    } else if n > 0 {
      BlockOfStream(blocks[..n], size, 0, m);
    }
  }

  /** Of the blocks laid end to end in the host's stream, number i is the JACK block of call i * q. */
  lemma {:induction false} EveryNthAt(blocks: seq<Block>, q: nat, i: nat, c: nat)
    requires q > 0 && c == i * q && c < |blocks|
    ensures i < |EveryNth(blocks, q)| && EveryNth(blocks, q)[i] == blocks[c]
  {
    var n := |blocks| - 1;
    EveryNthSize(blocks[..n], q);
    if c < n {
      EveryNthAt(blocks[..n], q, i, c);
    } else {
      ModUnique(n, q, i, 0);
    }
  }

  /** So many are taken from n blocks: one for each q begun. */
  function Begun(n: nat, q: nat): nat
    requires q > 0
  {
    if n % q == 0 then n / q else n / q + 1
  }

  lemma {:induction false} EveryNthSize(blocks: seq<Block>, q: nat)
    requires q > 0
    ensures |EveryNth(blocks, q)| == Begun(|blocks|, q)
  {
    if blocks != [] {
      var n := |blocks| - 1;
      EveryNthSize(blocks[..n], q);
      OneMoreBegun(n, q);
    } else {
      ModUnique(0, q, 0, 0);
    }
  }

  lemma OneMoreBegun(n: nat, q: nat)
    requires q > 0
    ensures Begun(n + 1, q) == Begun(n, q) + if n % q == 0 then 1 else 0
  {
    var d, m := n / q, n % q;
    Distribute(d, 1, q);
    if m + 1 == q {
      ModUnique(n + 1, q, d + 1, 0);
    } else {
      ModUnique(n + 1, q, d, m + 1);
    }
  }

  lemma {:induction false} EveryNthSized(blocks: seq<Block>, q: nat, j: nat)
    requires q > 0 && Sized(blocks, j)
    ensures Sized(EveryNth(blocks, q), j)
  {
    if blocks != [] {
      EveryNthSized(blocks[..|blocks| - 1], q, j);
    }
  }

  /** The host's output in call c: part c % q of the JACK block that came with the call at which the
      current one was taken in, c - c % q. */
  lemma HostBlockIsJackStream(h: nat, j: nat, q: nat, hostIn: seq<Block>, jackIn: seq<Block>, c: nat, m: nat)
    requires 0 < h && 1 < q && j == q * h && m < h
    requires |hostIn| == |jackIn| && Sized(hostIn, h) && Sized(jackIn, j)
    requires c < |hostIn|
    ensures var t := Run(h, j, hostIn, jackIn);
      var from := PlaceInStream(c % q, h, m);
      && 0 <= c - c % q < |jackIn| && PlaceInStream(c, h, m) < |t.hostOut| && from < j
      && t.hostOut[PlaceInStream(c, h, m)] == jackIn[c - c % q][from]
  {
    var i, part := c / q, c % q;
    CallInStream(c, q, h, j, m, |hostIn|, i, part);
    HostByteAt(h, j, q, hostIn, jackIn, PlaceInStream(c, h, m), i, c - part, PlaceInStream(part, h, m));
  }

  lemma HostByteAt(h: nat, j: nat, q: nat, hostIn: seq<Block>, jackIn: seq<Block>, place: nat, i: nat, c: nat,
                   from: nat)
    requires 0 < h && 1 < q && j == q * h
    requires |hostIn| == |jackIn| && Sized(hostIn, h) && Sized(jackIn, j)
    requires c == i * q && c < |jackIn| && from < j
    requires place < |hostIn| * h && place == PlaceInStream(i, j, from)
    ensures var t := Run(h, j, hostIn, jackIn); place < |t.hostOut| && t.hostOut[place] == jackIn[c][from]
  {
    HostStream(h, j, q, hostIn, jackIn);
    TakenByte(jackIn, q, j, i, c, from);
  }

  lemma HostStream(h: nat, j: nat, q: nat, hostIn: seq<Block>, jackIn: seq<Block>)
    requires 0 < h && 1 < q && j == q * h
    requires |hostIn| == |jackIn| && Sized(hostIn, h) && Sized(jackIn, j)
    ensures var t := Run(h, j, hostIn, jackIn);
      |t.hostOut| == |hostIn| * h && t.hostOut <= Flatten(EveryNth(jackIn, q))
  {
    Unbroken(h, j, q, hostIn, jackIn);
  }

  /** Byte m of the i-th block taken in is in the stream of blocks taken in. */
  lemma TakenByte(blocks: seq<Block>, q: nat, j: nat, i: nat, c: nat, m: nat)
    requires q > 0 && c == i * q && c < |blocks| && Sized(blocks, j) && m < j
    ensures var stream := Flatten(EveryNth(blocks, q)); var place := PlaceInStream(i, j, m);
      place < |stream| && stream[place] == blocks[c][m]
  {
    EveryNthAt(blocks, q, i, c);
    EveryNthSized(blocks, q, j);
    BlockOfStream(EveryNth(blocks, q), j, i, m);
  }

  /** The place of a host byte in the host's stream is its place in the JACK blocks taken in. */
  lemma CallInStream(c: nat, q: nat, h: nat, j: nat, m: nat, calls: nat, i: nat, part: nat)
    requires q > 0 && j == q * h && m < h && c < calls && i == c / q && part == c % q
    ensures PlaceInStream(c, h, m) == PlaceInStream(i, j, PlaceInStream(part, h, m))
    ensures PlaceInStream(c, h, m) < calls * h && PlaceInStream(part, h, m) < j
    ensures c - part == i * q
  {
    assert c == i * q + part;
    Distribute(i * q, part, h);
    Regroup(i, q, h);
    BelowWhole(calls, c, h, m);
    BelowWhole(q, part, h, m);
  }

  lemma BelowWhole(whole: int, part: int, h: int, m: int)
    requires part < whole && 0 <= m < h
    ensures part * h + m < whole * h
  {
    Distribute(whole, part, h);
    MulBound(whole - part, h);
  }

  lemma Regroup(a: int, b: int, c: int)
    ensures a * b * c == a * (b * c)
  {}

  /** The block handed to JACK as number b is the host's stream from byte b * j on. */
  lemma JackBlockIsHostStream(h: nat, j: nat, q: nat, hostIn: seq<Block>, jackIn: seq<Block>, b: nat, m: nat)
    requires 0 < h && 1 < q && j == q * h && m < j
    requires |hostIn| == |jackIn| && Sized(hostIn, h) && Sized(jackIn, j)
    requires b < |hostIn| / q
    ensures var t := Run(h, j, hostIn, jackIn);
      && b < |t.jackOut| && |t.jackOut[b]| == j
      && PlaceInStream(b, j, m) < |Flatten(hostIn)|
      && t.jackOut[b][m] == Flatten(hostIn)[PlaceInStream(b, j, m)]
  {
    Unbroken(h, j, q, hostIn, jackIn);
    var t := Run(h, j, hostIn, jackIn);
    BlockOfStream(t.jackOut, j, b, m);
    var sent := Flatten(t.jackOut);
    assert sent <= Flatten(hostIn);
  }
}

/** The plug-in side of JARInsert.cpp: construction, buffer-size negotiation, processing, flush. */
module JarInserts {
  import opened Bits
  import opened RingBuffers
  import opened Aligners
  import opened InsertStreams
  import opened PlugInPorts

  /** The counters all instances share, and the router that owns the plug-in ports. */
  class PlugInHost {
    var instances: int
    var instancesCount: int
    var fPlugInPortsVST: map<int, array<byte>>
    var fPlugInPortsAU: map<int, array<byte>>

    constructor ()
      ensures TheWorld() == Start<array<byte>>().world
    {
      instances, instancesCount := 0, 0;
      fPlugInPortsVST, fPlugInPortsAU := map[], map[];
    }

    function TheWorld(): World<array<byte>>
      reads this
    {
      World(instances, instancesCount, fPlugInPortsVST, fPlugInPortsAU)
    }

    method AllocatePlugInPort(isVst: bool, num: int, bytes: nat) returns (port: array<byte>)
      modifies this`fPlugInPortsVST, this`fPlugInPortsAU
      ensures fresh(port) && port.Length == bytes && forall i | 0 <= i < bytes :: port[i] == 0
      ensures TheWorld() == old(TheWorld()).SetPorts(isVst, old(TheWorld()).Ports(isVst)[num := port])
    {
      port := new byte[bytes](_ => 0);
      if isVst {
        fPlugInPortsVST := fPlugInPortsVST[num := port];
      } else {
        fPlugInPortsAU := fPlugInPortsAU[num := port];
      }
    }

    /** The router asserts that the port it releases is in its map. */
    method ReleasePlugInPort(isVst: bool, num: int)
      requires num in TheWorld().Ports(isVst)
      modifies this`fPlugInPortsVST, this`fPlugInPortsAU
      ensures TheWorld() == old(TheWorld()).SetPorts(isVst, old(TheWorld()).Ports(isVst) - {num})
    {
      if isVst {
        fPlugInPortsVST := fPlugInPortsVST - {num};
      } else {
        fPlugInPortsAU := fPlugInPortsAU - {num};
      }
    }
  }

  datatype Error = NoErr | ErrInvalidBSize

  /** What the sizes allow: equal sizes without aligners, or a smaller host size with aligners
      whose rings can be built. */
  ghost predicate SizesFit(host: int, jack: int) {
    host == jack || (host < jack && (host == 0 || IsPow2(host)) && IsPow2(jack))
  }

  /** The power-of-two test lets a host size of zero pass. */
  lemma ZeroHostSizeFits(jack: int)
    requires jack > 0
    ensures SizesFit(0, jack) <==> IsPow2(jack)
  {}

  /** Aligners are only ever built when the host's blocks divide JACK's. */
  lemma HostDividesJack(host: int, jack: int)
    requires SizesFit(host, jack) && 0 < host < jack
    ensures jack % host == 0 && jack / host > 1
    ensures SIZEOF_FLOAT * jack == (jack / host) * (SIZEOF_FLOAT * host)
  {
    Pow2Divides(host, jack);
    var q := jack / host;
    assert jack == q * host;
    if q <= 1 {
      MulBound(1 - q, host);
      Distribute(1, q, host);
    }
  }

  /** Two aligners that share no storage. */
  ghost predicate Apart(a: BSizeAlign, b: BSizeAlign)
  {
    a != b && a.rb != b.rb && a.rbData != b.rbData
  }

  /** A buffer that is no aligner's storage. */
  ghost predicate Outside(x: array<byte>, a: BSizeAlign, b: BSizeAlign) {
    x != a.rbData && x != b.rbData
  }

  method AddBoth(a: BSizeAlign, b: BSizeAlign, x: array<byte>, y: array<byte>)
    requires a.Valid() && b.Valid() && Apart(a, b) && Outside(x, a, b) && Outside(y, a, b)
    requires SIZEOF_FLOAT * a.inFrames <= x.Length && SIZEOF_FLOAT * b.inFrames <= y.Length
    modifies a, a.rb, a.rbData, b, b.rb, b.rbData
    ensures a.Valid() && b.Valid()
    ensures a.Model == old(a.Model.Add(x[..SIZEOF_FLOAT * a.inFrames]))
    ensures b.Model == old(b.Model.Add(y[..SIZEOF_FLOAT * b.inFrames]))
  {
    var _ := a.AddBuffer(x);
    var _ := b.AddBuffer(y);
  }

  /** Adds a block to each of the two that is not handing one out. */
  method AddUnlessReady(a: BSizeAlign, b: BSizeAlign, x: array<byte>, y: array<byte>)
    requires a.Valid() && b.Valid() && Apart(a, b) && Outside(x, a, b) && Outside(y, a, b)
    requires SIZEOF_FLOAT * a.inFrames <= x.Length && SIZEOF_FLOAT * b.inFrames <= y.Length
    modifies a, a.rb, a.rbData, b, b.rb, b.rbData
    ensures a.Valid() && b.Valid()
    ensures a.Model == old(if a.canGet then a.Model else a.Model.Add(x[..SIZEOF_FLOAT * a.inFrames]))
    ensures b.Model == old(if b.canGet then b.Model else b.Model.Add(y[..SIZEOF_FLOAT * b.inFrames]))
  {
    if !a.canGet {
      var _ := a.AddBuffer(x);
    }
    if !b.canGet {
      var _ := b.AddBuffer(y);
    }
  }

  method GetOneIfReady(a: BSizeAlign, x: array<byte>)
    requires a.Valid() && x != a.rbData && SIZEOF_FLOAT * a.outFrames <= x.Length
    modifies a, a.rb, a.rbData, x
    ensures a.Valid() && a.Model == old(a.Model.Get())
    ensures x[..] == old(Overlay(a.Model.Delivered(), x[..]))
  {
    if a.canGet {
      var _ := a.GetBuffer(x);
    }
  }

  /** Takes a block from each of the two that has one ready. */
  method GetIfReady(a: BSizeAlign, b: BSizeAlign, x: array<byte>, y: array<byte>)
    requires a.Valid() && b.Valid() && Apart(a, b) && Outside(x, a, b) && Outside(y, a, b) && x != y
    requires SIZEOF_FLOAT * a.outFrames <= x.Length && SIZEOF_FLOAT * b.outFrames <= y.Length
    modifies a, a.rb, a.rbData, b, b.rb, b.rbData, x, y
    ensures a.Valid() && b.Valid()
    ensures a.Model == old(a.Model.Get()) && b.Model == old(b.Model.Get())
    ensures x[..] == old(Overlay(a.Model.Delivered(), x[..]))
    ensures y[..] == old(Overlay(b.Model.Delivered(), y[..]))
  {
    GetOneIfReady(a, x);
    GetOneIfReady(b, y);
  }

  ghost function AllCells(ai1: BSizeAlign, ai2: BSizeAlign, ao1: BSizeAlign, ao2: BSizeAlign): set<object> {
    {ai1, ai1.rb, ai1.rbData, ai2, ai2.rb, ai2.rbData, ao1, ao1.rb, ao1.rbData, ao2, ao2.rb, ao2.rbData}
  }

  /** The four aligners of one instance, for blocks of h and j frames. */
  ghost predicate Aligned(ai1: BSizeAlign, ai2: BSizeAlign, ao1: BSizeAlign, ao2: BSizeAlign, h: int, j: int)
    reads AllCells(ai1, ai2, ao1, ao2)
  {
    && ai1.Valid() && ai2.Valid() && ao1.Valid() && ao2.Valid()
    && Apart(ai1, ai2) && Apart(ai1, ao1) && Apart(ai1, ao2) && Apart(ai2, ao1) && Apart(ai2, ao2) && Apart(ao1, ao2)
    && ai1.inFrames == ai2.inFrames == ao1.outFrames == ao2.outFrames == h
    && ai1.outFrames == ai2.outFrames == ao1.inFrames == ao2.inFrames == j
  }

  ghost predicate OutsideAll(x: array<byte>, ai1: BSizeAlign, ai2: BSizeAlign, ao1: BSizeAlign, ao2: BSizeAlign) {
    Outside(x, ai1, ai2) && Outside(x, ao1, ao2)
  }

  /** The host's blocks go in, and a JACK block where the last one is used up. */
  method Feed(ai1: BSizeAlign, ai2: BSizeAlign, ao1: BSizeAlign, ao2: BSizeAlign, h: nat, j: nat,
              in1: array<byte>, in2: array<byte>, jack1: array<byte>, jack2: array<byte>)
    requires Aligned(ai1, ai2, ao1, ao2, h, j)
    requires OutsideAll(in1, ai1, ai2, ao1, ao2) && OutsideAll(in2, ai1, ai2, ao1, ao2)
    requires OutsideAll(jack1, ai1, ai2, ao1, ao2) && OutsideAll(jack2, ai1, ai2, ao1, ao2)
    requires SIZEOF_FLOAT * h <= in1.Length && SIZEOF_FLOAT * h <= in2.Length
    requires SIZEOF_FLOAT * j <= jack1.Length && SIZEOF_FLOAT * j <= jack2.Length
    modifies AllCells(ai1, ai2, ao1, ao2)
    ensures Aligned(ai1, ai2, ao1, ao2, h, j)
    ensures ai1.Model == old(ai1.Model.Add(in1[..SIZEOF_FLOAT * h]))
    ensures ai2.Model == old(ai2.Model.Add(in2[..SIZEOF_FLOAT * h]))
    ensures ao1.Model == old(if ao1.canGet then ao1.Model else ao1.Model.Add(jack1[..SIZEOF_FLOAT * j]))
    ensures ao2.Model == old(if ao2.canGet then ao2.Model else ao2.Model.Add(jack2[..SIZEOF_FLOAT * j]))
  {
    AddBoth(ai1, ai2, in1, in2);
    AddUnlessReady(ao1, ao2, jack1, jack2);
  }

  /** The host's blocks come out, and a full JACK block goes to the ports. */
  method Drain(ai1: BSizeAlign, ai2: BSizeAlign, ao1: BSizeAlign, ao2: BSizeAlign, h: nat, j: nat,
               out1: array<byte>, out2: array<byte>, port1: array<byte>, port2: array<byte>)
    requires Aligned(ai1, ai2, ao1, ao2, h, j)
    requires OutsideAll(out1, ai1, ai2, ao1, ao2) && OutsideAll(out2, ai1, ai2, ao1, ao2)
    requires OutsideAll(port1, ai1, ai2, ao1, ao2) && OutsideAll(port2, ai1, ai2, ao1, ao2)
    requires out1 != out2 && port1 != port2 && out1 != port1 && out1 != port2 && out2 != port1 && out2 != port2
    requires SIZEOF_FLOAT * h <= out1.Length && SIZEOF_FLOAT * h <= out2.Length
    requires SIZEOF_FLOAT * j <= port1.Length && SIZEOF_FLOAT * j <= port2.Length
    modifies AllCells(ai1, ai2, ao1, ao2), out1, out2, port1, port2
    ensures Aligned(ai1, ai2, ao1, ao2, h, j)
    ensures ai1.Model == old(ai1.Model.Get()) && ai2.Model == old(ai2.Model.Get())
    ensures ao1.Model == old(ao1.Model.Get()) && ao2.Model == old(ao2.Model.Get())
    ensures out1[..] == old(Overlay(ao1.Model.Delivered(), out1[..]))
    ensures out2[..] == old(Overlay(ao2.Model.Delivered(), out2[..]))
    ensures port1[..] == old(Overlay(ai1.Model.Delivered(), port1[..]))
    ensures port2[..] == old(Overlay(ai2.Model.Delivered(), port2[..]))
  {
    GetIfReady(ao1, ao2, out1, out2);
    GetIfReady(ai1, ai2, port1, port2);
  }

  method CopyFront(dst: array<byte>, src: array<byte>, bytes: nat)
    requires dst != src && bytes <= dst.Length && bytes <= src.Length
    modifies dst
    ensures dst[..] == Overlay(src[..bytes], old(dst[..]))
  {
    MemCpy(dst, 0, src, 0, bytes);
  }

  /** Equal block sizes: the host's blocks go straight to the ports and JACK's to the host. */
  method CopyThrough(in1: array<byte>, in2: array<byte>, out1: array<byte>, out2: array<byte>,
                     jack1: array<byte>, jack2: array<byte>, port1: array<byte>, port2: array<byte>, bytes: nat)
    requires out1 != out2 && port1 != port2 && out1 != port1 && out1 != port2 && out2 != port1 && out2 != port2
    requires in1 != port1 && in1 != port2 && in2 != port1 && in2 != port2
    requires jack1 != port1 && jack1 != port2 && jack2 != port1 && jack2 != port2
    requires jack1 != out1 && jack1 != out2 && jack2 != out1 && jack2 != out2
    requires bytes <= in1.Length && bytes <= in2.Length && bytes <= jack1.Length && bytes <= jack2.Length
    requires bytes <= out1.Length && bytes <= out2.Length && bytes == port1.Length == port2.Length
    modifies port1, port2, out1, out2
    ensures port1[..] == old(in1[..bytes]) && port2[..] == old(in2[..bytes])
    ensures out1[..] == old(Overlay(jack1[..bytes], out1[..]))
    ensures out2[..] == old(Overlay(jack2[..bytes], out2[..]))
  {
    CopyFront(port1, in1, bytes);
    CopyFront(port2, in2, bytes);
    CopyFront(out1, jack1, bytes);
    CopyFront(out2, jack2, bytes);
  }

  /** One tick of a channel on the front part of the buffers it was given, with what it leaves
      in the host's output and in the port. */
  ghost predicate Moved(before: Channel, after: Channel, hostIn: Block, jackIn: Block,
                        hostOut: Block, hostOut': Block, port: Block, port': Block)
  {
    && before.Valid() && |hostIn| >= before.send.inBytes && |jackIn| >= before.ret.inBytes
    && var host, jack := hostIn[..before.send.inBytes], jackIn[..before.ret.inBytes];
    && after == before.Tick(host, jack)
    && hostOut' == Overlay(before.HostOut(jack), hostOut)
    && port' == Overlay(before.JackOut(host), port)
  }

  class JARInsert {
    const host: PlugInHost
    const isVst: bool
    const instance: int
    const outPort1: array<byte>
    const outPort2: array<byte>
    const jBufferSize: nat
    var hBufferSize: int
    var canProcess: bool
    var rBufOn: bool
    var error: Error
    var bsAI1: BSizeAlign?
    var bsAI2: BSizeAlign?
    var bsAO1: BSizeAlign?
    var bsAO2: BSizeAlign?

    /** The aligners' objects, once there are aligners. */
    ghost var Repr: set<object>

    /** What holds of an instance whether or not its aligners are usable. */
    ghost predicate Settled()
      reads this`Repr
    {
      && jBufferSize > 0 && this !in Repr
      && outPort1 != outPort2
      && outPort1.Length == outPort2.Length == SIZEOF_FLOAT * jBufferSize
      && outPort1 !in Repr && outPort2 !in Repr
    }

    ghost predicate AlignersFit()
      reads this`hBufferSize, this`bsAI1, this`bsAI2, this`bsAO1, this`bsAO2, this`Repr, Repr
    {
      && bsAI1 != null && bsAI2 != null && bsAO1 != null && bsAO2 != null
      && AllCells(bsAI1, bsAI2, bsAO1, bsAO2) <= Repr
      && Aligned(bsAI1, bsAI2, bsAO1, bsAO2, hBufferSize, jBufferSize)
    }

    ghost predicate Valid()
      reads this`rBufOn, this`hBufferSize, this`bsAI1, this`bsAI2, this`bsAO1, this`bsAO2, this`Repr, Repr
    {
      Settled() && (rBufOn ==> AlignersFit())
    }

    /** Aligners are on, fresh, and made for blocks of this host size. */
    ghost predicate NewlyAligned(hostBufferSize: nat)
      reads this`rBufOn, this`hBufferSize, this`bsAI1, this`bsAI2, this`bsAO1, this`bsAO2, this`Repr, Repr
    {
      && Valid() && rBufOn && hBufferSize == hostBufferSize
      && Channel1() == Channel2() == Fresh(SIZEOF_FLOAT * hostBufferSize, SIZEOF_FLOAT * jBufferSize)
    }

    /** The router has both of the instance's ports. */
    ghost predicate HasPorts()
      reads host
    {
      instance in host.TheWorld().Ports(isVst) && instance + 1 in host.TheWorld().Ports(isVst)
    }

    ghost function Channel1(): (c: Channel)
      reads this`rBufOn, this`hBufferSize, this`bsAI1, this`bsAI2, this`bsAO1, this`bsAO2, this`Repr, Repr
      requires Valid() && rBufOn
      ensures c.Valid()
    {
      Channel(bsAI1.Model, bsAO1.Model)
    }

    ghost function Channel2(): (c: Channel)
      reads this`rBufOn, this`hBufferSize, this`bsAI1, this`bsAI2, this`bsAO1, this`bsAO2, this`Repr, Repr
      requires Valid() && rBufOn
      ensures c.Valid()
    {
      Channel(bsAI2.Model, bsAO2.Model)
    }

    /** The constructor that leaves the host's block size open. */
    constructor (host: PlugInHost, isVst: bool, jBufferSize: nat)
      requires jBufferSize > 0
      modifies host
      ensures Valid() && !canProcess && !rBufOn && error == NoErr
      ensures this.host == host && this.isVst == isVst && this.jBufferSize == jBufferSize
      ensures instance == old(host.instances) && fresh({outPort1, outPort2})
      ensures host.TheWorld() == old(host.TheWorld()).Allocate(isVst, outPort1, outPort2)
    {
      this.host, this.isVst, this.jBufferSize := host, isVst, jBufferSize;
      error, rBufOn, hBufferSize, canProcess := NoErr, false, 0, false;
      bsAI1, bsAI2, bsAO1, bsAO2 := null, null, null, null;
      Repr := {};
      instance := host.instances;
      var port := host.AllocatePlugInPort(isVst, host.instances, SIZEOF_FLOAT * jBufferSize);
      outPort1 := port;
      port := host.AllocatePlugInPort(isVst, host.instances + 1, SIZEOF_FLOAT * jBufferSize);
      outPort2 := port;
      host.instances := host.instances + PORTS_PER_INSTANCE;
      host.instancesCount := host.instancesCount + 1;
    }

    /** Deletes the aligners in use and gives back the two port numbers, unless the router has lost
        its client. */
    method Flush(clientOpen: bool)
      requires clientOpen ==> HasPorts()
      modifies this`bsAI1, this`bsAI2, this`bsAO1, this`bsAO2, host
      ensures if rBufOn then bsAI1 == bsAI2 == bsAO1 == bsAO2 == null
              else unchanged(this`bsAI1, this`bsAI2, this`bsAO1, this`bsAO2)
      ensures host.TheWorld() == old(host.TheWorld()).Release(isVst, instance, clientOpen)
    {
      if rBufOn {
        bsAO1, bsAO2, bsAI1, bsAI2 := null, null, null, null;
      }
      if !clientOpen {
        return;
      }
      ghost var ports := host.TheWorld().Ports(isVst);
      host.ReleasePlugInPort(isVst, instance);
      host.ReleasePlugInPort(isVst, instance + 1);
      assert ports - {instance} - {instance + 1} == ports - {instance, instance + 1};
      host.instancesCount := host.instancesCount - 1;
      if host.instancesCount == 0 {
        host.instances := 0;
      }
    }

    /** The destructor: an instance already flushed by a failed allocation is not flushed again. */
    method Destroy(clientOpen: bool)
      requires error == NoErr && clientOpen ==> HasPorts()
      modifies this`bsAI1, this`bsAI2, this`bsAO1, this`bsAO2, host
      ensures error == NoErr && rBufOn ==> bsAI1 == bsAI2 == bsAO1 == bsAO2 == null
      ensures host.TheWorld() ==
              if error == NoErr then old(host.TheWorld()).Release(isVst, instance, clientOpen) else old(host.TheWorld())
    {
      if error == NoErr {
        Flush(clientOpen);
      }
    }

    method NewAligners()
      requires 0 <= hBufferSize < jBufferSize
      modifies this`bsAI1, this`bsAI2, this`bsAO1, this`bsAO2
      ensures bsAI1 != null && bsAI2 != null && bsAO1 != null && bsAO2 != null
      ensures fresh(AllCells(bsAI1, bsAI2, bsAO1, bsAO2))
      ensures bsAI1.ready == bsAI2.ready == bsAO1.ready == bsAO2.ready == IsPow2(jBufferSize)
      ensures IsPow2(jBufferSize) ==>
        var h, j := SIZEOF_FLOAT * hBufferSize, SIZEOF_FLOAT * jBufferSize;
        && Aligned(bsAI1, bsAI2, bsAO1, bsAO2, hBufferSize, jBufferSize)
        && bsAI1.Model == bsAI2.Model == Align(h, j, [], false)
        && bsAO1.Model == bsAO2.Model == Align(j, h, [], false)
    {
      bsAI1 := new BSizeAlign(hBufferSize, jBufferSize);
      bsAI2 := new BSizeAlign(hBufferSize, jBufferSize);
      bsAO1 := new BSizeAlign(jBufferSize, hBufferSize);
      bsAO2 := new BSizeAlign(jBufferSize, hBufferSize);
    }

    /** Makes the four aligners and uses them if all their rings could be set up. */
    method TurnAlignersOn() returns (ready: bool)
      requires Settled() && 0 <= hBufferSize < jBufferSize
      modifies this`rBufOn, this`Repr, this`bsAI1, this`bsAI2, this`bsAO1, this`bsAO2
      ensures Settled() && fresh(Repr - old(Repr))
      ensures ready == IsPow2(jBufferSize) && rBufOn == (old(rBufOn) || ready)
      ensures ready ==> NewlyAligned(hBufferSize)
    {
      NewAligners();
      ready := bsAI1.ready && bsAI2.ready && bsAO1.ready && bsAO2.ready;
      if ready {
        rBufOn := true;
        Repr := AllCells(bsAI1, bsAI2, bsAO1, bsAO2);
      }
    }

    /** Records a bad block size and gives the ports back. */
    method Refuse(clientOpen: bool)
      requires Settled() && (clientOpen ==> HasPorts())
      modifies this`error, this`bsAI1, this`bsAI2, this`bsAO1, this`bsAO2, host
      ensures Settled() && error == ErrInvalidBSize
      ensures rBufOn ==> bsAI1 == bsAI2 == bsAO1 == bsAO2 == null
      ensures host.TheWorld() == old(host.TheWorld()).Release(isVst, instance, clientOpen)
    {
      error := ErrInvalidBSize;
      Flush(clientOpen);
    }

    method NotAPower(n: int) returns (bad: bool)
      ensures bad <==> n != 0 && !IsPow2(n)
    {
      PowerTest(n);
      bad := And(n - 1, n) != 0;
    }

    /** Fixes the host's block size. Succeeds exactly when the sizes fit, with new aligners exactly
        when they differ; a failure gives the instance's ports back and leaves an error. A second
        call is not refused: aligners once on stay on, deleted if it fails, and made for the old
        size if it sets equal sizes. */
    method AllocBSizeAlign(hostBufferSize: int, clientOpen: bool) returns (ok: bool)
      requires Valid()
      requires clientOpen && !SizesFit(hostBufferSize, jBufferSize) ==> HasPorts()
      modifies this`hBufferSize, this`canProcess, this`rBufOn, this`error, this`Repr
      modifies this`bsAI1, this`bsAI2, this`bsAO1, this`bsAO2, host
      ensures Settled() && fresh(Repr - old(Repr)) && hBufferSize == hostBufferSize
      ensures ok <==> SizesFit(hostBufferSize, jBufferSize)
      ensures ok <==> hostBufferSize == jBufferSize
                      || (hostBufferSize < jBufferSize && IsPow2(jBufferSize)
                          && (hostBufferSize == 0 || IsPow2(hostBufferSize)))
      ensures canProcess == (old(canProcess) || ok) && error == if ok then old(error) else ErrInvalidBSize
      ensures rBufOn <==> old(rBufOn) || (ok && hostBufferSize < jBufferSize)
      ensures ok && hostBufferSize < jBufferSize ==> NewlyAligned(hostBufferSize)
      ensures ok && hostBufferSize == jBufferSize ==>
                unchanged(this`bsAI1, this`bsAI2, this`bsAO1, this`bsAO2, this`Repr)
      ensures !ok && rBufOn ==> bsAI1 == bsAI2 == bsAO1 == bsAO2 == null
      ensures !old(rBufOn) ==> Valid()
      ensures host.TheWorld() ==
              if ok then old(host.TheWorld()) else old(host.TheWorld()).Release(isVst, instance, clientOpen)
    {
      ok := Prepare(hostBufferSize);
      if !ok {
        Refuse(clientOpen);
      }
    }

    /** The part of AllocBSizeAlign that succeeds or changes no one else's ports. */
    method Prepare(hostBufferSize: int) returns (ok: bool)
      requires Settled()
      modifies this`hBufferSize, this`canProcess, this`rBufOn, this`Repr
      modifies this`bsAI1, this`bsAI2, this`bsAO1, this`bsAO2
      ensures Settled() && fresh(Repr - old(Repr)) && hBufferSize == hostBufferSize
      ensures ok <==> SizesFit(hostBufferSize, jBufferSize)
      ensures canProcess == (old(canProcess) || ok)
      ensures rBufOn <==> old(rBufOn) || (ok && hostBufferSize < jBufferSize)
      ensures ok && hostBufferSize < jBufferSize ==> NewlyAligned(hostBufferSize)
      ensures hostBufferSize >= jBufferSize ==> unchanged(this`bsAI1, this`bsAI2, this`bsAO1, this`bsAO2, this`Repr)
    {
      ok := FitSizes(hostBufferSize);
      if ok {
        AllowProcessing(hostBufferSize);
      }
    }

    method AllowProcessing(ghost hostBufferSize: int)
      modifies this`canProcess
      ensures canProcess
      ensures Settled() == old(Settled()) && Valid() == old(Valid())
      ensures 0 <= hostBufferSize && old(NewlyAligned(hostBufferSize)) ==> NewlyAligned(hostBufferSize)
    {
      canProcess := true;
    }

    /** Makes aligners if they are needed. */
    method FitSizes(hostBufferSize: int) returns (ok: bool)
      requires Settled()
      modifies this`hBufferSize, this`rBufOn, this`Repr
      modifies this`bsAI1, this`bsAI2, this`bsAO1, this`bsAO2
      ensures Settled() && fresh(Repr - old(Repr)) && hBufferSize == hostBufferSize
      ensures ok <==> SizesFit(hostBufferSize, jBufferSize)
      ensures rBufOn <==> old(rBufOn) || (ok && hostBufferSize < jBufferSize)
      ensures ok && hostBufferSize < jBufferSize ==> NewlyAligned(hostBufferSize)
      ensures hostBufferSize >= jBufferSize ==> unchanged(this`bsAI1, this`bsAI2, this`bsAO1, this`bsAO2, this`Repr)
    {
      hBufferSize := hostBufferSize;
      if jBufferSize > hBufferSize {
        var bad := NotAPower(hostBufferSize);
        if bad {
          return false;
        }
        ok := TurnAlignersOn();
      } else {
        ok := jBufferSize == hBufferSize;
      }
    }

    /** A buffer that is neither a port nor part of a ring. */
    ghost predicate Foreign(x: array<byte>)
      reads this
    {
      x != outPort1 && x != outPort2 && x !in Repr
    }

    /** The buffers of one call may be shared between host input and host output, but the
        ports, JACK's inputs and the rings are storage of their own. */
    ghost predicate Buffers(in1: array<byte>, in2: array<byte>, out1: array<byte>, out2: array<byte>,
                            jack1: array<byte>, jack2: array<byte>, frames: int)
      reads this
    {
      && out1 != out2
      && Foreign(in1) && Foreign(in2) && Foreign(out1) && Foreign(out2) && Foreign(jack1) && Foreign(jack2)
      && jack1 != out1 && jack1 != out2 && jack2 != out1 && jack2 != out2
      && SIZEOF_FLOAT * frames <= in1.Length && SIZEOF_FLOAT * frames <= in2.Length
      && SIZEOF_FLOAT * frames <= out1.Length && SIZEOF_FLOAT * frames <= out2.Length
      && SIZEOF_FLOAT * jBufferSize <= jack1.Length && SIZEOF_FLOAT * jBufferSize <= jack2.Length
    }

    method ProcessAligned(in1: array<byte>, in2: array<byte>, out1: array<byte>, out2: array<byte>,
                          jack1: array<byte>, jack2: array<byte>)
      requires Valid() && rBufOn && Buffers(in1, in2, out1, out2, jack1, jack2, hBufferSize)
      modifies Repr, outPort1, outPort2, out1, out2
      ensures Valid()
      ensures
        && Moved(old(Channel1()), Channel1(), old(in1[..]), old(jack1[..]), old(out1[..]), out1[..],
                 old(outPort1[..]), outPort1[..])
        && Moved(old(Channel2()), Channel2(), old(in2[..]), old(jack2[..]), old(out2[..]), out2[..],
                 old(outPort2[..]), outPort2[..])
    {
      Feed(bsAI1, bsAI2, bsAO1, bsAO2, hBufferSize, jBufferSize, in1, in2, jack1, jack2);
      assert out1[..] == old(out1[..]) && out2[..] == old(out2[..]);
      assert outPort1[..] == old(outPort1[..]) && outPort2[..] == old(outPort2[..]);
      Drain(bsAI1, bsAI2, bsAO1, bsAO2, hBufferSize, jBufferSize, out1, out2, outPort1, outPort2);
    }

    /** One host callback. The JACK input buffers are what the JACK server hands out for it.
        A call with another block size than the one fixed, or without aligners where the sizes
        differ, is refused and changes nothing. */
    method Process(in1: array<byte>, in2: array<byte>, out1: array<byte>, out2: array<byte>, hostFrames: int,
                   jack1: array<byte>, jack2: array<byte>) returns (res: int)
      requires Valid()
      requires hBufferSize == hostFrames && (rBufOn || hostFrames == jBufferSize) ==>
                 Buffers(in1, in2, out1, out2, jack1, jack2, hostFrames)
      modifies Repr, outPort1, outPort2, out1, out2
      ensures Valid()
      ensures res == if hostFrames == hBufferSize && (rBufOn || hostFrames == jBufferSize) then 0 else 1
      ensures res == 1 ==> unchanged(Repr) && unchanged(outPort1, outPort2, out1, out2)
      ensures res == 0 && rBufOn ==>
        && Moved(old(Channel1()), Channel1(), old(in1[..]), old(jack1[..]), old(out1[..]), out1[..],
                 old(outPort1[..]), outPort1[..])
        && Moved(old(Channel2()), Channel2(), old(in2[..]), old(jack2[..]), old(out2[..]), out2[..],
                 old(outPort2[..]), outPort2[..])
      ensures res == 0 && !rBufOn ==>
        var j := SIZEOF_FLOAT * jBufferSize;
        && outPort1[..] == old(in1[..j]) && outPort2[..] == old(in2[..j])
        && out1[..] == old(Overlay(jack1[..j], out1[..])) && out2[..] == old(Overlay(jack2[..j], out2[..]))
    {
      if hBufferSize != hostFrames {
        return 1;
      }
      if rBufOn {
        ProcessAligned(in1, in2, out1, out2, jack1, jack2);
      } else {
        if jBufferSize != hostFrames {
          return 1;
        }
        CopyThrough(in1, in2, out1, out2, jack1, jack2, outPort1, outPort2, SIZEOF_FLOAT * jBufferSize);
      }
      return 0;
    }
  }

  /** Whatever unequal sizes AllocBSizeAlign accepts, every run of the channels it makes is an
      unbroken pair of streams. */
  lemma AcceptedSizesStreamUnbroken(host: int, jack: int, hostIn: seq<Block>, jackIn: seq<Block>)
    requires SizesFit(host, jack) && 0 < host < jack
    requires |hostIn| == |jackIn| && Sized(hostIn, SIZEOF_FLOAT * host) && Sized(jackIn, SIZEOF_FLOAT * jack)
    ensures jack % host == 0
    ensures var q := jack / host; var n := |hostIn|;
      var t := Run(SIZEOF_FLOAT * host, SIZEOF_FLOAT * jack, hostIn, jackIn);
      && q > 1 && t.ok
      && HostSide(t, SIZEOF_FLOAT * host, q, n, jackIn)
      && JackSide(t, SIZEOF_FLOAT * jack, q, n, hostIn)
      && |t.channel.send.queue| + |t.channel.ret.queue| == if n % q == 0 then 0 else SIZEOF_FLOAT * jack
  {
    HostDividesJack(host, jack);
    var h, q := SIZEOF_FLOAT * host, jack / host;
    Unbroken(h, SIZEOF_FLOAT * jack, q, hostIn, jackIn);
    FillsSumToZeroOrBlock(Run(h, SIZEOF_FLOAT * jack, hostIn, jackIn).channel, h, q, |hostIn|);
  }

  /** What one more call leaves in the buffers: the host finds the next block of its stream at
      the front of its output, and the port holds the next JACK block if one is ready and what
      it held before if not. */
  ghost predicate Extended(t: Trace, t': Trace, after: Channel, h: nat, ready: bool,
                           out: Block, out': Block, port: Block, port': Block)
  {
    && after == t'.channel
    && |out'| == |out| >= h && t'.hostOut == t.hostOut + out'[..h] && out'[h..] == out[h..]
    && if ready then t'.jackOut == t.jackOut + [port'] else t'.jackOut == t.jackOut && port' == port
  }

  /** A call of Process on an instance with aligners takes the run of each side one call further,
      a JACK block being ready after every q-th call. */
  lemma ProcessExtendsRun(host: int, jack: int, hostIn: seq<Block>, jackIn: seq<Block>, after: Channel,
                          x: Block, y: Block, out: Block, out': Block, port: Block, port': Block)
    requires SizesFit(host, jack) && 0 < host < jack
    requires |hostIn| == |jackIn| && Sized(hostIn, SIZEOF_FLOAT * host) && Sized(jackIn, SIZEOF_FLOAT * jack)
    requires Moved(Run(SIZEOF_FLOAT * host, SIZEOF_FLOAT * jack, hostIn, jackIn).channel, after, x, y, out, out',
                   port, port')
    requires |out| >= SIZEOF_FLOAT * host && |port| == SIZEOF_FLOAT * jack
    ensures var h, j := SIZEOF_FLOAT * host, SIZEOF_FLOAT * jack;
      && Sized(hostIn + [x[..h]], h) && Sized(jackIn + [y[..j]], j)
      && Extended(Run(h, j, hostIn, jackIn), Run(h, j, hostIn + [x[..h]], jackIn + [y[..j]]), after, h,
                  (|hostIn| + 1) % (jack / host) == 0, out, out', port, port')
  {
    HostDividesJack(host, jack);
    RunExtends(SIZEOF_FLOAT * host, SIZEOF_FLOAT * jack, jack / host, hostIn, jackIn, after, x, y, out, out', port,
               port');
  }

  lemma RunExtends(h: nat, j: nat, q: nat, hostIn: seq<Block>, jackIn: seq<Block>, after: Channel,
                   x: Block, y: Block, out: Block, out': Block, port: Block, port': Block)
    requires 0 < h && 1 < q && j == q * h
    requires |hostIn| == |jackIn| && Sized(hostIn, h) && Sized(jackIn, j)
    requires Moved(Run(h, j, hostIn, jackIn).channel, after, x, y, out, out', port, port')
    requires |out| >= h && |port| == j
    ensures Sized(hostIn + [x[..h]], h) && Sized(jackIn + [y[..j]], j)
    ensures Extended(Run(h, j, hostIn, jackIn), Run(h, j, hostIn + [x[..h]], jackIn + [y[..j]]), after, h,
                     (|hostIn| + 1) % q == 0, out, out', port, port')
  {
    var t := Run(h, j, hostIn, jackIn);
    Unbroken(h, j, q, hostIn, jackIn);
    TickAdvances(t.channel, h, j, q, |hostIn|, x[..h], y[..j]);
    MovedExtends(t, after, h, j, (|hostIn| + 1) % q == 0, x, y, out, out', port, port');
    OneCallMore(h, j, hostIn, jackIn, x[..h], y[..j]);
  }

  lemma MovedExtends(t: Trace, after: Channel, h: nat, j: nat, ready: bool,
                     x: Block, y: Block, out: Block, out': Block, port: Block, port': Block)
    requires t.channel.send.inBytes == h && t.channel.ret.inBytes == j
    requires Moved(t.channel, after, x, y, out, out', port, port') && |out| >= h && |port| == j
    requires |t.channel.HostOut(y[..j])| == h
    requires t.channel.Collected(x[..h]).canGet <==> ready
    requires ready ==> |t.channel.JackOut(x[..h])| == j
    ensures Extended(t, Extend(t, x[..h], y[..j]), after, h, ready, out, out', port, port')
  {
    var sent := t.channel.JackOut(x[..h]);
    assert sent + port[j..] == sent;
  }

  lemma OneCallMore(h: nat, j: nat, hostIn: seq<Block>, jackIn: seq<Block>, x: Block, y: Block)
    requires |hostIn| == |jackIn| && Sized(hostIn, h) && Sized(jackIn, j) && |x| == h && |y| == j
    ensures Sized(hostIn + [x], h) && Sized(jackIn + [y], j)
    ensures Run(h, j, hostIn + [x], jackIn + [y]) == Extend(Run(h, j, hostIn, jackIn), x, y)
  {
    assert (hostIn + [x])[..|hostIn|] == hostIn && (jackIn + [y])[..|jackIn|] == jackIn;
  }
}
