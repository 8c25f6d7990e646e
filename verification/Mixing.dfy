/** What one audio cycle should leave in the output ports. */
module MixSpec {
  import opened Options
  import opened IOMemory

  type Block = seq<real>

  /** An IOProc as the cycle sees it. Its callback gives sample t of output i from the input
      buffers and the output buffers it is handed; None stands for a buffer withheld. */
  datatype MixProc = MixProc(
    enabled: bool,
    inputUsage: seq<bool>,
    outputUsage: seq<bool>,
    callback: (seq<Option<Block>>, seq<Option<Block>>, nat, nat) -> real)
  {
    predicate UsageSpecified() {
      |inputUsage| > 0 || |outputUsage| > 0
    }

    predicate Feeds(i: nat) {
      enabled && Uses(outputUsage, i)
    }
  }

  function Zero(n: nat): (b: Block)
    ensures |b| == n && forall t | 0 <= t < n :: b[t] == 0.0
  {
    seq(n, _ => 0.0)
  }

  function Sum(a: Block, b: Block): (c: Block)
    requires |a| == |b|
    ensures |c| == |a| && forall t | 0 <= t < |a| :: c[t] == a[t] + b[t]
  {
    seq(|a|, t requires 0 <= t < |a| => a[t] + b[t])
  }

  lemma SumZero(b: Block)
    ensures Sum(Zero(|b|), b) == b
  {}

  function Rendered(p: MixProc, ins: seq<Option<Block>>, outs: seq<Option<Block>>, i: nat, n: nat): (b: Block)
    ensures |b| == n
  {
    seq(n, t requires 0 <= t < n => p.callback(ins, outs, i, t))
  }

  /** The inputs a proc is handed: those it uses that have a port. */
  function InputsFor(p: MixProc, ins: seq<Option<Block>>): (r: seq<Option<Block>>)
    ensures |r| == |ins|
  {
    seq(|ins|, i requires 0 <= i < |ins| => if Uses(p.inputUsage, i) then ins[i] else None)
  }

  function Silence(mask: seq<bool>, n: nat): (r: seq<Option<Block>>)
    ensures |r| == |mask|
  {
    seq(|mask|, i requires 0 <= i < |mask| => if mask[i] then Some(Zero(n)) else None)
  }

  /** The outputs a proc is handed scratch buffers for: the ones it uses, port or no port, or if
      it has not said what it uses, the ones that have a port. */
  function ScratchMask(p: MixProc, ports: seq<bool>): (mask: seq<bool>)
    ensures |mask| == |ports|
  {
    seq(|ports|, i requires 0 <= i < |ports| => if p.UsageSpecified() then Uses(p.outputUsage, i) else ports[i])
  }

  /** The outputs the only proc is handed port buffers for. */
  function DirectMask(p: MixProc, ports: seq<bool>): (mask: seq<bool>)
    ensures |mask| == |ports|
  {
    seq(|ports|, i requires 0 <= i < |ports| => Uses(p.outputUsage, i) && ports[i])
  }

  /** The contribution of one proc to one port. */
  function Contribution(p: MixProc, ins: seq<Option<Block>>, ports: seq<bool>, i: nat, n: nat): (b: Block)
    ensures |b| == n
  {
    Rendered(p, InputsFor(p, ins), Silence(ScratchMask(p, ports), n), i, n)
  }

  /** The list-order sum of the contributions of the enabled procs that use the stream. */
  function Mix(procs: seq<MixProc>, ins: seq<Option<Block>>, ports: seq<bool>, i: nat, n: nat): (b: Block)
    ensures |b| == n
  {
    if procs == [] then Zero(n)
    else
      var before := Mix(procs[..|procs| - 1], ins, ports, i, n);
      var p := procs[|procs| - 1];
      if p.Feeds(i) then Sum(before, Contribution(p, ins, ports, i, n)) else before
  }

  predicate AnyEnabled(procs: seq<MixProc>) {
    exists k :: 0 <= k < |procs| && procs[k].enabled
  }

  lemma {:induction false} NoneFeeds(procs: seq<MixProc>, ins: seq<Option<Block>>, ports: seq<bool>, i: nat, n: nat)
    requires forall k | 0 <= k < |procs| :: !procs[k].Feeds(i)
    ensures Mix(procs, ins, ports, i, n) == Zero(n)
  {
    if procs != [] {
      NoneFeeds(procs[..|procs| - 1], ins, ports, i, n);
    }
  }

  // ---------- sample by sample ----------

  /** Sample t of the mix, as a sum of numbers. */
  function Heard(procs: seq<MixProc>, ins: seq<Option<Block>>, ports: seq<bool>, i: nat, n: nat, t: nat): real
    requires t < n
  {
    if procs == [] then 0.0
    else
      var p := procs[|procs| - 1];
      Heard(procs[..|procs| - 1], ins, ports, i, n, t)
      + if p.Feeds(i) then Contribution(p, ins, ports, i, n)[t] else 0.0
  }

  lemma {:induction false} MixIsHeard(procs: seq<MixProc>, ins: seq<Option<Block>>, ports: seq<bool>, i: nat, n: nat,
                                      t: nat)
    requires t < n
    ensures Mix(procs, ins, ports, i, n)[t] == Heard(procs, ins, ports, i, n, t)
  {
    if procs != [] {
      MixIsHeard(procs[..|procs| - 1], ins, ports, i, n, t);
    }
  }

  /** What two groups of procs play together is the sum of what each plays. */
  lemma {:induction false} HeardTogether(a: seq<MixProc>, b: seq<MixProc>, ins: seq<Option<Block>>, ports: seq<bool>,
                                         i: nat, n: nat, t: nat)
    requires t < n
    ensures Heard(a + b, ins, ports, i, n, t) == Heard(a, ins, ports, i, n, t) + Heard(b, ins, ports, i, n, t)
  {
    if b == [] {
      assert a + b == a;
    } else {
      var k := |b| - 1;
      var ab := a + b;
      assert ab[..|ab| - 1] == a + b[..k] && ab[|ab| - 1] == b[k];
      HeardTogether(a, b[..k], ins, ports, i, n, t);
    }
  }

  /** One enabled proc that uses the stream is heard as its callback plays, given the inputs it
      uses that have a port, and a silent block for each output wanted: those it uses, or those
      with a port if it has not said which inputs or outputs it uses. */
  lemma OneProcIsHeard(p: MixProc, ins: seq<Option<Block>>, ports: seq<bool>, i: nat, n: nat, t: nat,
                       xs: seq<Option<Block>>, ys: seq<Option<Block>>)
    requires t < n && p.enabled && (i < |p.outputUsage| ==> p.outputUsage[i])
    requires |xs| == |ins| && |ys| == |ports|
    requires forall k | 0 <= k < |ins| :: xs[k] == if k < |p.inputUsage| && !p.inputUsage[k] then None else ins[k]
    requires forall k | 0 <= k < |ports| ::
               var wanted := if |p.inputUsage| > 0 || |p.outputUsage| > 0
                             then k < |p.outputUsage| ==> p.outputUsage[k]
                             else ports[k];
               && ys[k].Some? == wanted
               && (wanted ==> |ys[k].value| == n && forall u | 0 <= u < n :: ys[k].value[u] == 0.0)
    ensures Heard([p], ins, ports, i, n, t) == p.callback(xs, ys, i, t)
  {
    assert [p][..0] == [];
    assert xs == InputsFor(p, ins);
    var silence := Silence(ScratchMask(p, ports), n);
    forall k | 0 <= k < |ports|
      ensures ys[k] == silence[k]
    {
      assert ScratchMask(p, ports)[k] == if p.UsageSpecified() then Uses(p.outputUsage, k) else ports[k];
      if p.UsageSpecified() {
        assert ys[k].Some? == Uses(p.outputUsage, k);
      } else {
        assert |p.inputUsage| == 0 && |p.outputUsage| == 0;
        assert ys[k].Some? == ports[k];
      }
      if ys[k].Some? {
        assert ys[k].value == silence[k].value;
      }
    }
    assert ys == silence;
  }

  /** A proc that is not enabled, or has said that it does not use the stream, is not heard. */
  lemma OtherProcsAreNotHeard(p: MixProc, ins: seq<Option<Block>>, ports: seq<bool>, i: nat, n: nat, t: nat)
    requires t < n && (!p.enabled || (i < |p.outputUsage| && !p.outputUsage[i]))
    ensures Heard([p], ins, ports, i, n, t) == 0.0
  {
    assert [p][..0] == [];
  }

  lemma NoProcsAreSilent(ins: seq<Option<Block>>, ports: seq<bool>, i: nat, n: nat, t: nat)
    requires t < n
    ensures Heard([], ins, ports, i, n, t) == 0.0
  {}

  /** What the direct path leaves in port i when it is the only proc's turn. */
  function Direct(p: MixProc, ins: seq<Option<Block>>, ports: seq<bool>, i: nat, before: Block): (b: Block)
    ensures |b| == |before|
  {
    if Uses(p.outputUsage, i) then
      Rendered(p, InputsFor(p, ins), Silence(DirectMask(p, ports), |before|), i, |before|)
    else before
  }

  /** The direct path sample by sample: a port the proc uses holds what its callback plays, given
      a silent block for each output it uses that has a port, and any other keeps its contents. */
  lemma DirectIsHeard(p: MixProc, ins: seq<Option<Block>>, ports: seq<bool>, i: nat, before: Block, t: nat,
                      xs: seq<Option<Block>>, ys: seq<Option<Block>>)
    requires t < |before| && |xs| == |ins| && |ys| == |ports|
    requires forall k | 0 <= k < |ins| :: xs[k] == if k < |p.inputUsage| && !p.inputUsage[k] then None else ins[k]
    requires forall k | 0 <= k < |ports| ::
               var given := ports[k] && (k < |p.outputUsage| ==> p.outputUsage[k]);
               && ys[k].Some? == given
               && (given ==> |ys[k].value| == |before| && forall u | 0 <= u < |before| :: ys[k].value[u] == 0.0)
    ensures Direct(p, ins, ports, i, before)[t] ==
            if i < |p.outputUsage| && !p.outputUsage[i] then before[t] else p.callback(xs, ys, i, t)
  {
    assert xs == InputsFor(p, ins);
    var silence := Silence(DirectMask(p, ports), |before|);
    forall k | 0 <= k < |ports|
      ensures ys[k] == silence[k]
    {
      if ys[k].Some? {
        assert ys[k].value == silence[k].value;
      }
    }
    assert ys == silence;
  }

  /** Writing to the ports directly leaves in port i what mixing leaves there. */
  predicate Agrees(p: MixProc, ins: seq<Option<Block>>, ports: seq<bool>, i: nat, before: Block) {
    Direct(p, ins, ports, i, before) == Mix([p], ins, ports, i, |before|)
  }

  /** Every stream the proc uses has a port, as far as it has said what it uses. */
  predicate UsedHavePorts(p: MixProc, ports: seq<bool>) {
    p.UsageSpecified() ==> forall s | 0 <= s < |ports| && Uses(p.outputUsage, s) :: ports[s]
  }

  lemma MasksAgree(p: MixProc, ports: seq<bool>)
    ensures DirectMask(p, ports) == ScratchMask(p, ports) <==> UsedHavePorts(p, ports)
  {
    if p.UsageSpecified() && !UsedHavePorts(p, ports) {
      var s :| 0 <= s < |ports| && Uses(p.outputUsage, s) && !ports[s];
      assert DirectMask(p, ports)[s] != ScratchMask(p, ports)[s];
    }
  }

  lemma MixOfOne(p: MixProc, ins: seq<Option<Block>>, ports: seq<bool>, i: nat, n: nat)
    requires p.enabled
    ensures Mix([p], ins, ports, i, n) == if Uses(p.outputUsage, i) then Contribution(p, ins, ports, i, n) else Zero(n)
  {
    assert [p][..0] == [];
    SumZero(Contribution(p, ins, ports, i, n));
  }

  /** For a sole enabled proc the two paths agree on a stream it does not use exactly if the port
      happened to be silent, and on one it uses whenever all streams it uses have ports. */
  lemma DirectAgreesWithMix(p: MixProc, ins: seq<Option<Block>>, ports: seq<bool>, i: nat, before: Block)
    requires p.enabled
    ensures !Uses(p.outputUsage, i) ==> (Agrees(p, ins, ports, i, before) <==> before == Zero(|before|))
    ensures Uses(p.outputUsage, i) && UsedHavePorts(p, ports) ==> Agrees(p, ins, ports, i, before)
  {
    MixOfOne(p, ins, ports, i, |before|);
    MasksAgree(p, ports);
  }

  /** A callback that plays 1 if its output buffers are the ones given, and 0 if not. */
  function Telltale(outs: seq<Option<Block>>): (seq<Option<Block>>, seq<Option<Block>>, nat, nat) -> real {
    (ins, given, i, t) => if given == outs then 1.0 else 0.0
  }

  /** On a stream that the proc uses, the paths agree whatever the callback does exactly if every
      stream it uses has a port; otherwise a callback can tell them apart by the buffer it is not
      given. */
  lemma DirectAgreesForEveryCallback(p: MixProc, ins: seq<Option<Block>>, ports: seq<bool>, i: nat, before: Block)
    requires p.enabled && Uses(p.outputUsage, i) && before != []
    ensures (forall callback :: Agrees(p.(callback := callback), ins, ports, i, before)) <==> UsedHavePorts(p, ports)
  {
    var n := |before|;
    if UsedHavePorts(p, ports) {
      forall callback
        ensures Agrees(p.(callback := callback), ins, ports, i, before)
      {
        assert UsedHavePorts(p.(callback := callback), ports);
        DirectAgreesWithMix(p.(callback := callback), ins, ports, i, before);
      }
    } else {
      var direct, scratch := Silence(DirectMask(p, ports), n), Silence(ScratchMask(p, ports), n);
      var s :| 0 <= s < |ports| && Uses(p.outputUsage, s) && !ports[s];
      assert direct[s].None? && scratch[s].Some?;
      var q := p.(callback := Telltale(scratch));
      assert DirectMask(q, ports) == DirectMask(p, ports) && ScratchMask(q, ports) == ScratchMask(p, ports);
      MixOfOne(q, ins, ports, i, n);
      assert Direct(q, ins, ports, i, before)[0] == 0.0;
      assert Mix([q], ins, ports, i, n)[0] == 1.0;
      assert !Agrees(q, ins, ports, i, before);
    }
  }

  /** A proc that has set its input usage only, so that it uses every output, and that plays 1 if
      it is given a second buffer. */
  function SecondBufferProc(): MixProc {
    MixProc(true, [true], [],
            (ins: seq<Option<Block>>, outs: seq<Option<Block>>, i: nat, t: nat) =>
              if |outs| > 1 && outs[1].Some? then 1.0 else 0.0)
  }

  /** Where the second output has lost its port, the two paths differ in the first. */
  lemma MissingPortIsHeard(ins: seq<Option<Block>>)
    ensures Direct(SecondBufferProc(), ins, [true, false], 0, [0.0]) == [0.0]
    ensures Mix([SecondBufferProc()], ins, [true, false], 0, 1) == [1.0]
  {
    MixOfOne(SecondBufferProc(), ins, [true, false], 0, 1);
  }
}

/** The mixing part of JackRouterDevice::Process. */
module Mixing {
  import opened Options
  import opened IOMemory
  import opened MixSpec

  type Buffer = array?<real>

  function Contents(list: seq<Buffer>): (r: seq<Option<Block>>)
    reads list
    ensures |r| == |list|
    ensures forall i | 0 <= i < |list| :: r[i] == if list[i] == null then None else Some(list[i][..])
  {
    seq(|list|, i requires 0 <= i < |list| reads list => if list[i] == null then None else Some(list[i][..]))
  }

  function Present(list: seq<Buffer>): (r: seq<bool>)
    ensures |r| == |list| && forall i | 0 <= i < |list| :: r[i] <==> list[i] != null
  {
    seq(|list|, i requires 0 <= i < |list| => list[i] != null)
  }

  /** Different places of a list never hold the same buffer. */
  ghost predicate AllDifferent(list: seq<Buffer>) {
    forall i, j | 0 <= i < j < |list| && list[i] != null :: list[i] != list[j]
  }

  ghost predicate Disjoint(a: seq<Buffer>, b: seq<Buffer>) {
    forall i, j | 0 <= i < |a| && 0 <= j < |b| && a[i] != null :: a[i] != b[j]
  }

  ghost predicate Sized(list: seq<Buffer>, n: nat) {
    forall i | 0 <= i < |list| && list[i] != null :: list[i].Length == n
  }

  method SetZero(a: array<real>)
    modifies a
    ensures a[..] == Zero(a.Length)
  {
    forall t | 0 <= t < a.Length {
      a[t] := 0.0;
    }
  }

  method Copy(dst: array<real>, src: array<real>)
    requires dst.Length == src.Length
    modifies dst
    ensures dst[..] == old(src[..])
  {
    forall t | 0 <= t < dst.Length {
      dst[t] := src[t];
    }
  }

  /** vDSP_vsma with the accumulator as its own output. */
  method MultiplyAdd(src: array<real>, gain: real, dst: array<real>)
    requires dst != src && dst.Length == src.Length
    modifies dst
    ensures forall t | 0 <= t < dst.Length :: dst[t] == src[t] * gain + old(dst[t])
  {
    forall t | 0 <= t < dst.Length {
      dst[t] := src[t] * gain + dst[t];
    }
  }

  /** A plug-in's own buffer, and the buffer of the JACK port it sends to. */
  datatype PlugInPort = PlugInPort(buffer: array<real>, port: array<real>)

  function Sources(list: seq<PlugInPort>): (r: seq<Buffer>)
    ensures |r| == |list|
  {
    seq(|list|, k requires 0 <= k < |list| => list[k].buffer)
  }

  function Targets(list: seq<PlugInPort>): (r: seq<Buffer>)
    ensures |r| == |list|
  {
    seq(|list|, k requires 0 <= k < |list| => list[k].port)
  }

  /** Plug-in buffers and ports of one size, all different. */
  ghost predicate Separate(list: seq<PlugInPort>, n: nat) {
    && Sized(Sources(list), n) && Sized(Targets(list), n)
    && AllDifferent(Sources(list)) && AllDifferent(Targets(list)) && Disjoint(Sources(list), Targets(list))
  }

  ghost predicate Apart(list: seq<PlugInPort>, other: seq<Buffer>) {
    Disjoint(Sources(list), other) && Disjoint(Targets(list), other)
  }

  /** Every plug-in's buffer goes to its port and is cleared for the next cycle. */
  method CopyPlugInPorts(list: seq<PlugInPort>, ghost n: nat)
    requires Separate(list, n)
    modifies Sources(list), Targets(list)
    ensures Contents(Targets(list)) == old(Contents(Sources(list)))
    ensures forall k | 0 <= k < |list| :: Contents(Sources(list))[k] == Some(Zero(n))
  {
    var k := 0;
    while k < |list|
      invariant 0 <= k <= |list|
      invariant forall j | 0 <= j < k :: list[j].port[..] == old(list[j].buffer[..]) && list[j].buffer[..] == Zero(n)
      invariant forall j | k <= j < |list| :: list[j].buffer[..] == old(list[j].buffer[..])
    {
      assert list[k].buffer == Sources(list)[k] && list[k].port == Targets(list)[k];
      assert forall j | 0 <= j < |list| && j != k ::
          list[j].buffer == Sources(list)[j] && list[j].port == Targets(list)[j];
      Copy(list[k].port, list[k].buffer);
      SetZero(list[k].buffer);
      k := k + 1;
    }
  }

  class JackRouterDevice {
    const nframes: nat
    const fInputPortList: seq<Buffer>
    const fOutputPortList: seq<Buffer>
    const fOutputListTemp: seq<array<real>>
    var fInputList: seq<Buffer>
    var fOutputList: seq<Buffer>
    var fPlugInPortsVST: seq<PlugInPort>
    var fPlugInPortsAU: seq<PlugInPort>

    ghost predicate Valid()
      reads this
    {
      && |fInputList| == |fInputPortList|
      && |fOutputList| == |fOutputPortList| == |fOutputListTemp|
      && Sized(fInputPortList, nframes) && Sized(fOutputPortList, nframes) && Sized(fOutputListTemp, nframes)
      && AllDifferent(fOutputPortList) && AllDifferent(fOutputListTemp)
      && Disjoint(fOutputPortList, fOutputListTemp)
      && Disjoint(fInputPortList, fOutputPortList) && Disjoint(fInputPortList, fOutputListTemp)
    }

    /** Plug-in buffers and ports are storage of their own. */
    ghost predicate PlugInsApart()
      reads this
    {
      && Separate(fPlugInPortsVST, nframes) && Separate(fPlugInPortsAU, nframes)
      && Apart(fPlugInPortsVST, Sources(fPlugInPortsAU)) && Apart(fPlugInPortsVST, Targets(fPlugInPortsAU))
      && Apart(fPlugInPortsVST, fOutputPortList) && Apart(fPlugInPortsAU, fOutputPortList)
      && Apart(fPlugInPortsVST, fOutputListTemp) && Apart(fPlugInPortsAU, fOutputListTemp)
      && Apart(fPlugInPortsVST, fInputPortList) && Apart(fPlugInPortsAU, fInputPortList)
    }

    function Inputs(): seq<Option<Block>>
      reads fInputPortList
    {
      Contents(fInputPortList)
    }

    function Ports(): seq<bool> {
      Present(fOutputPortList)
    }

    /** Sets up the buffers the proc may read. */
    method PrepareInputs(p: MixProc)
      requires Valid()
      modifies this`fInputList
      ensures Valid()
      ensures Contents(fInputList) == InputsFor(p, Inputs())
      ensures forall i | 0 <= i < |fInputList| :: fInputList[i] == null || fInputList[i] == fInputPortList[i]
    {
      var i := 0;
      while i < |fInputPortList|
        invariant 0 <= i <= |fInputPortList| && Valid()
        invariant forall j | 0 <= j < i ::
                    fInputList[j] == if Uses(p.inputUsage, j) then fInputPortList[j] else null
      {
        if Uses(p.inputUsage, i) && fInputPortList[i] != null {
          fInputList := fInputList[i := fInputPortList[i]];
        } else {
          fInputList := fInputList[i := null];
        }
        i := i + 1;
      }
    }

    /** Hands the proc zeroed intermediate buffers. */
    method PrepareScratch(p: MixProc)
      requires Valid()
      modifies this`fOutputList, fOutputListTemp
      ensures Valid()
      ensures Contents(fOutputList) == Silence(ScratchMask(p, Ports()), nframes)
      ensures forall i | 0 <= i < |fOutputList| ::
                fOutputList[i] == if ScratchMask(p, Ports())[i] then fOutputListTemp[i] else null
    {
      var i := 0;
      while i < |fOutputPortList|
        invariant 0 <= i <= |fOutputPortList| && Valid()
        invariant forall j | 0 <= j < i ::
                    fOutputList[j] == if ScratchMask(p, Ports())[j] then fOutputListTemp[j] else null
        invariant forall j | 0 <= j < i && fOutputList[j] != null :: fOutputList[j][..] == Zero(nframes)
      {
        var wanted := if p.UsageSpecified() then Uses(p.outputUsage, i) else fOutputPortList[i] != null;
        if wanted {
          SetZero(fOutputListTemp[i]);
          fOutputList := fOutputList[i := fOutputListTemp[i]];
        } else {
          fOutputList := fOutputList[i := null];
        }
        i := i + 1;
      }
    }

    /** Hands the only proc the port buffers themselves, zeroed. */
    method PrepareDirect(p: MixProc)
      requires Valid()
      modifies this`fOutputList, fOutputPortList
      ensures Valid()
      ensures Contents(fOutputList) == Silence(DirectMask(p, Ports()), nframes)
      ensures forall i | 0 <= i < |fOutputList| ::
                fOutputList[i] == if Uses(p.outputUsage, i) then fOutputPortList[i] else null
      ensures forall i | 0 <= i < |fOutputPortList| && fOutputPortList[i] != null && !Uses(p.outputUsage, i) ::
                fOutputPortList[i][..] == old(fOutputPortList[i][..])
    {
      var i := 0;
      while i < |fOutputPortList|
        invariant 0 <= i <= |fOutputPortList| && Valid()
        invariant forall j | 0 <= j < i ::
                    fOutputList[j] == if Uses(p.outputUsage, j) then fOutputPortList[j] else null
        invariant forall j | 0 <= j < i && fOutputList[j] != null :: fOutputList[j][..] == Zero(nframes)
        invariant forall j | 0 <= j < |fOutputPortList| && fOutputPortList[j] != null && !Uses(p.outputUsage, j) ::
                    fOutputPortList[j][..] == old(fOutputPortList[j][..])
      {
        if Uses(p.outputUsage, i) && fOutputPortList[i] != null {
          var output := fOutputPortList[i];
          SetZero(output);
          fOutputList := fOutputList[i := output];
        } else {
          fOutputList := fOutputList[i := null];
        }
        i := i + 1;
      }
    }

    /** The client's callback fills the buffers it was handed. */
    method CallIOProc(p: MixProc)
      requires Valid() && AllDifferent(fOutputList) && Sized(fOutputList, nframes)
      modifies fOutputList
      ensures forall i | 0 <= i < |fOutputList| && fOutputList[i] != null ::
                fOutputList[i][..] == Rendered(p, old(Contents(fInputList)), old(Contents(fOutputList)), i, nframes)
    {
      var ins, outs := Contents(fInputList), Contents(fOutputList);
      var i := 0;
      while i < |fOutputList|
        invariant 0 <= i <= |fOutputList|
        invariant forall j | 0 <= j < i && fOutputList[j] != null ::
                    fOutputList[j][..] == Rendered(p, ins, outs, j, nframes)
      {
        if fOutputList[i] != null {
          var a := fOutputList[i];
          forall t | 0 <= t < nframes {
            a[t] := p.callback(ins, outs, i, t);
          }
          assert a[..] == Rendered(p, ins, outs, i, nframes);
        }
        i := i + 1;
      }
    }

    /** Clears every port. */
    method ClearOutputs()
      requires Valid()
      modifies fOutputPortList
      ensures forall i | 0 <= i < |fOutputPortList| && fOutputPortList[i] != null ::
                fOutputPortList[i][..] == Zero(nframes)
    {
      var i := 0;
      while i < |fOutputPortList|
        invariant 0 <= i <= |fOutputPortList|
        invariant forall j | 0 <= j < i && fOutputPortList[j] != null :: fOutputPortList[j][..] == Zero(nframes)
      {
        if fOutputPortList[i] != null {
          SetZero(fOutputPortList[i]);
        }
        i := i + 1;
      }
    }

    /** Before the first enabled proc no port has been touched; after it every port holds the
        mix of the procs so far. */
    ghost predicate Mixed(procs: seq<MixProc>, ins: seq<Option<Block>>, firstproc: bool, i: nat)
      requires i < |fOutputPortList|
      reads fOutputPortList[i]
    {
      fOutputPortList[i] != null ==>
        && (firstproc ==> !AnyEnabled(procs))
        && (!firstproc ==> fOutputPortList[i][..] == Mix(procs, ins, Ports(), i, nframes))
    }

    /** The proc has rendered into its scratch buffers. */
    ghost predicate Contributed(p: MixProc, ins: seq<Option<Block>>)
      reads this, fOutputListTemp
      requires Valid()
    {
      forall j | 0 <= j < |fOutputPortList| ::
        && fOutputList[j] == (if ScratchMask(p, Ports())[j] then fOutputListTemp[j] else null)
        && (ScratchMask(p, Ports())[j] ==> fOutputListTemp[j][..] == Contribution(p, ins, Ports(), j, nframes))
    }

    method RenderToScratch(p: MixProc)
      requires Valid()
      modifies this`fInputList, this`fOutputList, fOutputListTemp
      ensures Valid() && Inputs() == old(Inputs()) && Contributed(p, Inputs())
    {
      PrepareInputs(p);
      PrepareScratch(p);
      CallIOProc(p);
    }

    /** Copies or adds one proc's buffer into one port. */
    method MixOne(p: MixProc, ghost procs: seq<MixProc>, ghost ins: seq<Option<Block>>, first: bool, i: nat)
      returns (stillFirst: bool)
      requires Valid() && i < |fOutputPortList| && p.enabled
      requires Contributed(p, ins) && Mixed(procs, ins, first, i)
      modifies fOutputPortList[i]
      ensures Mixed(procs + [p], ins, stillFirst, i)
    {
      MixAdvances(p, procs, ins, i);
      stillFirst := first;
      var output := fOutputPortList[i];
      if output != null {
        if !p.UsageSpecified() || Uses(p.outputUsage, i) {
          var data := fOutputList[i];
          if first {
            Copy(output, data);
            stillFirst := false;
          } else {
            MultiplyAdd(data, 1.0, output);
            assert output[..] == Sum(old(output[..]), data[..]);
          }
        } else if first {
          SetZero(output);
          stillFirst := false;
        }
      }
    }

    /** One round of the loop over the procs. */
    method MixProcIn(p: MixProc, ghost procs: seq<MixProc>, firstproc: array<bool>)
      requires Valid() && p.enabled && firstproc.Length == |fOutputPortList|
      requires forall i | 0 <= i < |fOutputPortList| :: Mixed(procs, Inputs(), firstproc[i], i)
      modifies this`fInputList, this`fOutputList, fOutputListTemp, fOutputPortList, firstproc
      ensures Valid() && Inputs() == old(Inputs())
      ensures forall i | 0 <= i < |fOutputPortList| :: Mixed(procs + [p], Inputs(), firstproc[i], i)
    {
      ghost var ins := Inputs();
      RenderToScratch(p);
      var i := 0;
      while i < |fOutputPortList|
        invariant 0 <= i <= |fOutputPortList| && Valid() && Inputs() == ins && Contributed(p, ins)
        invariant forall j | 0 <= j < |fOutputPortList| ::
                    Mixed(if j < i then procs + [p] else procs, ins, firstproc[j], j)
      {
        firstproc[i] := MixOne(p, procs, ins, firstproc[i], i);
        i := i + 1;
      }
    }

    lemma MixAdvances(p: MixProc, procs: seq<MixProc>, ins: seq<Option<Block>>, i: nat)
      requires p.enabled
      ensures AnyEnabled(procs + [p])
      ensures Mix(procs + [p], ins, Ports(), i, nframes) ==
        if Uses(p.outputUsage, i)
        then Sum(Mix(procs, ins, Ports(), i, nframes), Contribution(p, ins, Ports(), i, nframes))
        else Mix(procs, ins, Ports(), i, nframes)
      ensures !AnyEnabled(procs) ==> Mix(procs, ins, Ports(), i, nframes) == Zero(nframes)
      ensures Sum(Zero(nframes), Contribution(p, ins, Ports(), i, nframes)) == Contribution(p, ins, Ports(), i, nframes)
    {
      assert (procs + [p])[..|procs|] == procs && (procs + [p])[|procs|] == p;
      SumZero(Contribution(p, ins, Ports(), i, nframes));
      if !AnyEnabled(procs) {
        NoneFeeds(procs, ins, Ports(), i, nframes);
      }
    }

    /** One cycle, with the lock held throughout: the IOProcs' outputs, and then what plug-ins
        have left in their buffers since the last cycle. */
    method Process(procs: seq<MixProc>)
      requires Valid() && PlugInsApart()
      modifies this`fInputList, this`fOutputList, fOutputListTemp, fOutputPortList
      modifies Sources(fPlugInPortsVST), Targets(fPlugInPortsVST), Sources(fPlugInPortsAU), Targets(fPlugInPortsAU)
      ensures Valid() && PlugInsApart() && Inputs() == old(Inputs())
      ensures |procs| == 1 && procs[0].enabled ==>
                forall i | 0 <= i < |fOutputPortList| && fOutputPortList[i] != null ::
                  fOutputPortList[i][..] == Direct(procs[0], Inputs(), Ports(), i, old(fOutputPortList[i][..]))
      ensures !(|procs| == 1 && procs[0].enabled) ==>
                forall i, t | 0 <= i < |fOutputPortList| && fOutputPortList[i] != null && 0 <= t < nframes ::
                  fOutputPortList[i][t] == Heard(procs, Inputs(), Ports(), i, nframes, t)
      ensures Contents(Targets(fPlugInPortsVST)) == old(Contents(Sources(fPlugInPortsVST)))
      ensures Contents(Targets(fPlugInPortsAU)) == old(Contents(Sources(fPlugInPortsAU)))
      ensures forall k | 0 <= k < |fPlugInPortsVST| :: Contents(Sources(fPlugInPortsVST))[k] == Some(Zero(nframes))
      ensures forall k | 0 <= k < |fPlugInPortsAU| :: Contents(Sources(fPlugInPortsAU))[k] == Some(Zero(nframes))
    {
      RunIOProcs(procs);
      SendPlugIns();
    }

    /** What plug-ins have left in their buffers goes out, and no output port is touched. */
    method SendPlugIns()
      requires Valid() && PlugInsApart()
      modifies Sources(fPlugInPortsVST), Targets(fPlugInPortsVST), Sources(fPlugInPortsAU), Targets(fPlugInPortsAU)
      ensures PlugInsApart() && Inputs() == old(Inputs())
      ensures forall i | 0 <= i < |fOutputPortList| && fOutputPortList[i] != null ::
                fOutputPortList[i][..] == old(fOutputPortList[i][..])
      ensures Contents(Targets(fPlugInPortsVST)) == old(Contents(Sources(fPlugInPortsVST)))
      ensures Contents(Targets(fPlugInPortsAU)) == old(Contents(Sources(fPlugInPortsAU)))
      ensures forall k | 0 <= k < |fPlugInPortsVST| :: Contents(Sources(fPlugInPortsVST))[k] == Some(Zero(nframes))
      ensures forall k | 0 <= k < |fPlugInPortsAU| :: Contents(Sources(fPlugInPortsAU))[k] == Some(Zero(nframes))
    {
      CopyPlugInPorts(fPlugInPortsVST, nframes);
      CopyPlugInPorts(fPlugInPortsAU, nframes);
    }

    /** Ports that hold the mix hold it sample by sample. */
    lemma HeardInPorts(procs: seq<MixProc>)
      requires Valid()
      ensures forall i, t | 0 <= i < |fOutputPortList| && fOutputPortList[i] != null && 0 <= t < nframes
                && fOutputPortList[i][..] == Mix(procs, Inputs(), Ports(), i, nframes) ::
                fOutputPortList[i][t] == Heard(procs, Inputs(), Ports(), i, nframes, t)
    {
      forall i, t | 0 <= i < |fOutputPortList| && fOutputPortList[i] != null && 0 <= t < nframes
                && fOutputPortList[i][..] == Mix(procs, Inputs(), Ports(), i, nframes)
        ensures fOutputPortList[i][t] == Heard(procs, Inputs(), Ports(), i, nframes, t)
      {
        MixIsHeard(procs, Inputs(), Ports(), i, nframes, t);
        assert fOutputPortList[i][t] == fOutputPortList[i][..][t];
      }
    }

    /** With several procs every port ends as the mix; with one enabled proc the ports it uses are
        written directly. */
    method RunIOProcs(procs: seq<MixProc>)
      requires Valid()
      modifies this`fInputList, this`fOutputList, fOutputListTemp, fOutputPortList
      ensures Valid() && Inputs() == old(Inputs())
      ensures |procs| == 1 && procs[0].enabled ==>
                forall i | 0 <= i < |fOutputPortList| && fOutputPortList[i] != null ::
                  fOutputPortList[i][..] == Direct(procs[0], Inputs(), Ports(), i, old(fOutputPortList[i][..]))
      ensures !(|procs| == 1 && procs[0].enabled) ==>
                forall i, t | 0 <= i < |fOutputPortList| && fOutputPortList[i] != null && 0 <= t < nframes ::
                  fOutputPortList[i][t] == Heard(procs, Inputs(), Ports(), i, nframes, t)
    {
      MixOrWrite(procs);
      HeardInPorts(procs);
    }

    method MixOrWrite(procs: seq<MixProc>)
      requires Valid()
      modifies this`fInputList, this`fOutputList, fOutputListTemp, fOutputPortList
      ensures Valid() && Inputs() == old(Inputs())
      ensures forall i | 0 <= i < |fOutputPortList| && fOutputPortList[i] != null ::
                fOutputPortList[i][..] ==
                if |procs| == 1 && procs[0].enabled
                then Direct(procs[0], Inputs(), Ports(), i, old(fOutputPortList[i][..]))
                else Mix(procs, Inputs(), Ports(), i, nframes)
    {
      ghost var ins := Inputs();
      if |procs| == 1 {
        var proc := procs[0];
        if proc.enabled {
          PrepareInputs(proc);
          PrepareDirect(proc);
          CallIOProc(proc);
        } else {
          ClearOutputs();
          forall i: nat { NoneFeeds(procs, ins, Ports(), i, nframes); }
        }
      } else if |procs| > 1 {
        var enabled := CountEnabledProcs(procs);
        if enabled == 0 {
          ClearOutputs();
          forall i: nat { NoneFeeds(procs, ins, Ports(), i, nframes); }
        } else {
          MixAll(procs);
        }
      } else {
        ClearOutputs();
      }
    }

    /** GetNumberEnabledIOProcs: the list's counter. */
    function CountEnabledProcs(procs: seq<MixProc>): (n: nat)
      ensures n == 0 <==> !AnyEnabled(procs)
    {
      if procs == [] then 0
      else
        var last := |procs| - 1;
        var before := CountEnabledProcs(procs[..last]);
        assert AnyEnabled(procs) <==> AnyEnabled(procs[..last]) || procs[last].enabled by {
          assert procs == procs[..last] + [procs[last]];
          if AnyEnabled(procs[..last]) {
            var k :| 0 <= k < last && procs[..last][k].enabled;
            assert procs[k].enabled;
          }
        }
        before + if procs[last].enabled then 1 else 0
    }

    method MixAll(procs: seq<MixProc>)
      requires Valid() && AnyEnabled(procs)
      modifies this`fInputList, this`fOutputList, fOutputListTemp, fOutputPortList
      ensures Valid() && Inputs() == old(Inputs())
      ensures forall i | 0 <= i < |fOutputPortList| && fOutputPortList[i] != null ::
                fOutputPortList[i][..] == Mix(procs, Inputs(), Ports(), i, nframes)
    {
      ghost var ins := Inputs();
      var firstproc := new bool[|fOutputPortList|](_ => true);
      var k := 0;
      while k < |procs|
        invariant 0 <= k <= |procs| && Valid() && Inputs() == ins
        invariant forall i | 0 <= i < |fOutputPortList| :: Mixed(procs[..k], ins, firstproc[i], i)
      {
        assert procs[..k + 1] == procs[..k] + [procs[k]];
        if procs[k].enabled {
          MixProcIn(procs[k], procs[..k], firstproc);
        } else {
          forall i | 0 <= i < |fOutputPortList|
            ensures Mixed(procs[..k + 1], ins, firstproc[i], i)
          {
            assert Mixed(procs[..k], ins, firstproc[i], i);
            DisabledAddsNothing(procs[..k], procs[k], ins, i);
          }
        }
        k := k + 1;
      }
      assert procs[..k] == procs;
      forall i | 0 <= i < |fOutputPortList| && fOutputPortList[i] != null
        ensures fOutputPortList[i][..] == Mix(procs, ins, Ports(), i, nframes)
      {
        assert Mixed(procs, ins, firstproc[i], i);
      }
    }

    lemma DisabledAddsNothing(procs: seq<MixProc>, p: MixProc, ins: seq<Option<Block>>, i: nat)
      requires !p.enabled
      ensures AnyEnabled(procs + [p]) <==> AnyEnabled(procs)
      ensures Mix(procs + [p], ins, Ports(), i, nframes) == Mix(procs, ins, Ports(), i, nframes)
    {
      assert (procs + [p])[..|procs|] == procs;
      if AnyEnabled(procs) {
        var k :| 0 <= k < |procs| && procs[k].enabled;
        assert (procs + [p])[k].enabled;
      }
    }
  }
}
