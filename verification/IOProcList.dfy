/** HP_IOProc, HP_IOProcList and the start/stop part of HP_Device. */
module IOProcLists {
  import opened Options
  import opened IOMemory
  import opened IOProcStates
  import opened DeviceStates

  /** The system's memory and the streams' registers of buffers. */
  class BufferMemory {
    var next: nat
    var live: set<nat>
    var registered: map<nat, Registration>

    constructor ()
      ensures Value() == Memory(0, {}, map[])
    {
      next, live, registered := 0, {}, map[];
    }

    function Value(): Memory
      reads this
    {
      Memory(next, live, registered)
    }

    /** vm_allocate followed by registration with the stream. */
    method Take(isInput: bool, stream: nat) returns (b: nat)
      modifies this
      ensures b == old(next) && Value() == old(Value()).Take(isInput, stream)
    {
      b := next;
      next := next + 1;
      live := live + {b};
      registered := registered[b := Registration(isInput, stream)];
    }

    /** The stream forgets the buffer if it knows it, and the memory is given back. */
    method Return(b: nat, isInput: bool, stream: nat)
      modifies this
      ensures Value() == old(Value()).Return(b, isInput, stream)
    {
      if b in registered && registered[b] == Registration(isInput, stream) {
        registered := registered - {b};
      }
      live := live - {b};
    }
  }

  method AllocateBufferList(memory: BufferMemory, isInput: bool, usage: seq<bool>, numberStreams: nat)
    returns (list: IOBufferList)
    modifies memory
    ensures (memory.Value(), list) == Allocate(old(memory.Value()), isInput, usage, numberStreams)
  {
    list := [];
    var stream := 0;
    while stream < numberStreams
      invariant 0 <= stream <= numberStreams
      invariant (memory.Value(), list) == Allocate(old(memory.Value()), isInput, usage, stream)
    {
      var shouldAllocate := true;
      if stream < |usage| {
        shouldAllocate := usage[stream];
      }
      if shouldAllocate {
        var b := memory.Take(isInput, stream);
        list := list + [Some(b)];
      } else {
        list := list + [None];
      }
      stream := stream + 1;
    }
  }

  method FreeBufferList(memory: BufferMemory, isInput: bool, list: IOBufferList)
    modifies memory
    ensures memory.Value() == Free(old(memory.Value()), isInput, list)
  {
    var stream := 0;
    while stream < |list|
      invariant 0 <= stream <= |list|
      invariant memory.Value() == Free(old(memory.Value()), isInput, list[..stream])
    {
      assert list[..stream + 1][..stream] == list[..stream];
      if list[stream].Some? {
        memory.Return(list[stream].value, isInput, stream);
      }
      stream := stream + 1;
    }
    assert list[..stream] == list;
  }

  class HP_IOProc {
    const func: nat
    const clientData: int
    const clientDataIsRelevant: bool
    var isEnabled: bool
    var startTime: StartTime
    var inputStreamUsage: seq<bool>
    var outputStreamUsage: seq<bool>
    var outputIOBufferList: IOBufferList

    function Value(): Proc<HP_IOProc>
      reads this
    {
      Proc(this, func, clientData, clientDataIsRelevant, isEnabled, startTime,
           inputStreamUsage, outputStreamUsage, outputIOBufferList)
    }

    constructor (func: nat, clientData: int, clientDataIsRelevant: bool)
      ensures Value() == Proc(this, func, clientData, clientDataIsRelevant, false, ZERO_START, [], [], [])
    {
      this.func, this.clientData, this.clientDataIsRelevant := func, clientData, clientDataIsRelevant;
      isEnabled, startTime := false, ZERO_START;
      inputStreamUsage, outputStreamUsage, outputIOBufferList := [], [], [];
    }

    method StartAtTime(start: StartTime)
      modifies this`isEnabled, this`startTime
      ensures Value() == old(Value()).(enabled := true, start := start)
    {
      isEnabled := true;
      startTime := start;
    }

    method Stop()
      modifies this`isEnabled
      ensures Value() == old(Value()).(enabled := false)
    {
      isEnabled := false;
    }

    method SetStreamUsage(isInput: bool, usage: seq<bool>, numberStreams: nat)
      modifies this`inputStreamUsage, this`outputStreamUsage
      ensures var u := usage[..if |usage| < numberStreams then |usage| else numberStreams];
        Value() == if isInput then old(Value()).(inputUsage := u) else old(Value()).(outputUsage := u)
    {
      var u := [];
      var stream := 0;
      while stream < numberStreams && stream < |usage|
        invariant 0 <= stream <= numberStreams && stream <= |usage|
        invariant u == usage[..stream]
      {
        u := u + [usage[stream]];
        stream := stream + 1;
      }
      if isInput {
        inputStreamUsage := u;
      } else {
        outputStreamUsage := u;
      }
    }

    method ReallocateBufferList(memory: BufferMemory, outputs: nat)
      modifies this`outputIOBufferList, memory
      ensures var m := Free(old(memory.Value()), false, old(outputIOBufferList));
        var (m', list) := if isEnabled then Allocate(m, false, outputStreamUsage, outputs) else (m, []);
        memory.Value() == m' && Value() == old(Value()).(outputBuffers := list)
    {
      FreeBufferList(memory, false, outputIOBufferList);
      outputIOBufferList := [];
      if isEnabled {
        outputIOBufferList := AllocateBufferList(memory, false, outputStreamUsage, outputs);
      }
    }
  }

  type ID = IOProcID<HP_IOProc>

  class HP_IOProcList {
    const memory: BufferMemory
    const inputs: nat
    const outputs: nat
    var mIOProcList: seq<HP_IOProc>
    var mNumberEnabledIOProcs: int
    var mNULLStarts: nat
    var mSharedInputIOBufferList: Option<IOBufferList>

    ghost predicate Valid()
      reads this
    {
      forall i, j | 0 <= i < j < |mIOProcList| :: mIOProcList[i] != mIOProcList[j]
    }

    function Values(): (procs: seq<Proc<HP_IOProc>>)
      reads this, mIOProcList
      ensures |procs| == |mIOProcList|
    {
      seq(|mIOProcList|, k requires 0 <= k < |mIOProcList| reads this, mIOProcList => mIOProcList[k].Value())
    }

    function State(): ListState<HP_IOProc>
      reads this, mIOProcList, memory
    {
      ListState(inputs, outputs, Values(), mNumberEnabledIOProcs, mNULLStarts, mSharedInputIOBufferList, memory.Value())
    }

    constructor (inputs: nat, outputs: nat)
      ensures Valid() && fresh(memory) && State() == Empty(inputs, outputs)
    {
      this.inputs, this.outputs := inputs, outputs;
      memory := new BufferMemory();
      mIOProcList, mNumberEnabledIOProcs, mNULLStarts, mSharedInputIOBufferList := [], 0, 0, None;
    }

    method GetIOProcByIOProcID(id: ID) returns (proc: HP_IOProc?, ghost index: nat)
      ensures proc == null <==> Find(Values(), id).None?
      ensures proc != null ==> Find(Values(), id) == Some(index) && proc == mIOProcList[index]
    {
      var k := 0;
      while k < |mIOProcList|
        invariant 0 <= k <= |mIOProcList|
        invariant forall j | 0 <= j < k :: !Matches(Values()[j], id)
      {
        var p := mIOProcList[k];
        if id == EntryID(p) || (id != EntryID(p) && id == FunctionID(p.func)) {
          assert Matches(Values()[k], id);
          return p, k;
        }
        k := k + 1;
      }
      return null, 0;
    }

    method HasIOProc(func: nat, clientData: int, relevant: bool) returns (found: bool)
      ensures found == IOProcStates.HasIOProc(Values(), func, clientData, relevant)
    {
      var k := 0;
      while k < |mIOProcList|
        invariant 0 <= k <= |mIOProcList|
        invariant forall j | 0 <= j < k :: !SameProc(Values()[j], func, clientData, relevant)
      {
        var p := mIOProcList[k];
        if p.clientDataIsRelevant && relevant {
          found := p.func == func && p.clientData == clientData;
        } else {
          found := p.func == func;
        }
        if found {
          assert SameProc(Values()[k], func, clientData, relevant);
          return;
        }
        k := k + 1;
      }
      return false;
    }

    /** Makes an entry and hands out its ID. */
    method AddIOProc(func: nat, clientData: int, relevant: bool) returns (id: ID, proc: HP_IOProc)
      requires Valid()
      modifies this`mIOProcList
      ensures Valid() && fresh(proc) && proc in mIOProcList
      ensures mIOProcList == old(mIOProcList) + [proc]
      ensures State() == old(State()).Add(proc, func, clientData, relevant)
      ensures id == proc.Value().ID()
    {
      proc := new HP_IOProc(func, clientData, relevant);
      ghost var before := Values();
      mIOProcList := mIOProcList + [proc];
      assert Values() == before + [proc.Value()];
      id := if relevant then EntryID(proc) else FunctionID(func);
    }

    /** Changing one entry changes one value. */
    twostate lemma OneChanged(k: nat)
      requires k < |mIOProcList| && Valid() && mIOProcList == old(mIOProcList)
      requires forall j | 0 <= j < |mIOProcList| && j != k :: unchanged(mIOProcList[j])
      ensures Values() == old(Values())[k := mIOProcList[k].Value()]
    {}

    method ReallocateIOProcBufferLists(proc: HP_IOProc, ghost k: nat)
      requires Valid() && k < |mIOProcList| && proc == mIOProcList[k]
      modifies proc`outputIOBufferList, memory
      ensures State() == old(State()).ReallocateProc(k)
    {
      proc.ReallocateBufferList(memory, outputs);
      OneChanged(k);
    }

    method GetIOProcStreamUsageUnion() returns (usage: seq<bool>)
      ensures usage == InputUsageUnion(Values(), inputs)
    {
      usage := [];
      var stream := 0;
      while stream < inputs
        invariant 0 <= stream <= inputs
        invariant usage == InputUsageUnion(Values(), stream)
      {
        var wasEnabled := false;
        var k := 0;
        while !wasEnabled && k < |mIOProcList|
          invariant 0 <= k <= |mIOProcList|
          invariant wasEnabled ==> AnyUsesInput(Values(), stream)
          invariant !wasEnabled ==> forall j | 0 <= j < k ::
                      !(Values()[j].enabled && Uses(Values()[j].inputUsage, stream))
        {
          var p := mIOProcList[k];
          if p.isEnabled {
            wasEnabled := Uses(p.inputStreamUsage, stream);
            assert wasEnabled ==> Values()[k].enabled && Uses(Values()[k].inputUsage, stream);
          }
          k := k + 1;
        }
        usage := usage + [wasEnabled];
        stream := stream + 1;
      }
    }

    method ReallocateSharedBufferLists()
      requires Valid()
      modifies this`mSharedInputIOBufferList, memory
      ensures State() == old(State()).ReallocateShared()
    {
      if mSharedInputIOBufferList.Some? {
        FreeBufferList(memory, true, mSharedInputIOBufferList.value);
        mSharedInputIOBufferList := None;
      }
      var usage := GetIOProcStreamUsageUnion();
      assert Values() == old(Values());
      var list := AllocateBufferList(memory, true, usage, inputs);
      mSharedInputIOBufferList := Some(list);
      assert Values() == old(Values());
    }

    /** Starting one entry, without the shared list. */
    method StartAlone(proc: HP_IOProc, ghost k: nat, start: StartTime)
      requires Valid() && k < |mIOProcList| && proc == mIOProcList[k]
      modifies this`mNumberEnabledIOProcs, proc, memory
      ensures State() == old(State()).Switch(k, true, start).ReallocateProc(k)
    {
      proc.StartAtTime(start);
      mNumberEnabledIOProcs := mNumberEnabledIOProcs + 1;
      OneChanged(k);
      assert State() == old(State()).Switch(k, true, start);
      ReallocateIOProcBufferLists(proc, k);
    }

    /** Stopping one entry, without the shared list. */
    method StopAlone(proc: HP_IOProc, ghost k: nat)
      requires Valid() && k < |mIOProcList| && proc == mIOProcList[k] && proc.isEnabled
      modifies this`mNumberEnabledIOProcs, proc, memory
      ensures State() == old(State()).StopAlone(k)
    {
      proc.Stop();
      mNumberEnabledIOProcs := mNumberEnabledIOProcs - 1;
      OneChanged(k);
      assert State() == old(State()).Switch(k, false, old(proc.startTime));
      ReallocateIOProcBufferLists(proc, k);
    }

    method StartIOProc(id: ID, start: StartTime)
      requires Valid()
      modifies this`mNumberEnabledIOProcs, this`mNULLStarts, this`mSharedInputIOBufferList, mIOProcList, memory
      ensures Valid() && State() == old(State()).StartIOProc(id, start)
    {
      if id != NullID {
        var proc, k := GetIOProcByIOProcID(id);
        if proc != null {
          if !proc.isEnabled {
            StartAlone(proc, k, start);
            ReallocateSharedBufferLists();
          }
        }
      } else {
        mNULLStarts := mNULLStarts + 1;
      }
    }

    method StopEntry(proc: HP_IOProc, ghost k: nat)
      requires Valid() && k < |mIOProcList| && proc == mIOProcList[k]
      modifies this`mNumberEnabledIOProcs, this`mSharedInputIOBufferList, proc, memory
      ensures Valid() && State() == old(State()).StopIOProcAt(k)
    {
      if proc.isEnabled {
        StopAlone(proc, k);
        ReallocateSharedBufferLists();
      }
    }

    method StopIOProc(id: ID)
      requires Valid()
      modifies this`mNumberEnabledIOProcs, this`mNULLStarts, this`mSharedInputIOBufferList, mIOProcList, memory
      ensures Valid() && State() == old(State()).StopIOProc(id)
    {
      if id != NullID {
        var proc, k := GetIOProcByIOProcID(id);
        if proc != null {
          StopEntry(proc, k);
        }
      } else if mNULLStarts > 0 {
        mNULLStarts := mNULLStarts - 1;
      }
    }

    method StopAllIOProcs()
      requires Valid()
      modifies this`mNumberEnabledIOProcs, this`mNULLStarts, this`mSharedInputIOBufferList, mIOProcList, memory
      ensures Valid() && State() == old(State()).StopAll()
    {
      var k := 0;
      while k < |mIOProcList|
        invariant 0 <= k <= |mIOProcList|
        invariant State() == old(State()).StopFirst(k)
      {
        var proc := mIOProcList[k];
        if proc.isEnabled {
          StopAlone(proc, k);
        }
        k := k + 1;
      }
      ReallocateSharedBufferLists();
      mNULLStarts := 0;
    }

    method RemoveIOProc(id: ID)
      requires Valid()
      modifies this`mNumberEnabledIOProcs, this`mSharedInputIOBufferList, this`mIOProcList, mIOProcList, memory
      ensures Valid() && State() == old(State()).RemoveIOProc(id)
    {
      var k := 0;
      while k < |mIOProcList|
        invariant 0 <= k <= |mIOProcList|
        invariant Valid() && mIOProcList == old(mIOProcList) && State() == old(State())
        invariant forall j | 0 <= j < k :: !Matches(Values()[j], id)
      {
        var proc := mIOProcList[k];
        if id == EntryID(proc) || (id != EntryID(proc) && id == FunctionID(proc.func)) {
          assert Matches(Values()[k], id);
          assert Find(Values(), id) == Some(k);
          StopEntry(proc, k);
          EraseAt(k);
          return;
        }
        k := k + 1;
      }
    }

    method EraseAt(k: nat)
      requires Valid() && k < |mIOProcList|
      modifies this`mIOProcList
      ensures Valid() && State() == old(State()).(procs := Erase(old(State()).procs, k))
    {
      ghost var before := Values();
      mIOProcList := mIOProcList[..k] + mIOProcList[k + 1..];
      assert Values() == Erase(before, k);
    }

    method SetIOProcStreamUsage(id: ID, isInput: bool, usage: seq<bool>)
      requires Valid()
      modifies this`mSharedInputIOBufferList, mIOProcList, memory
      ensures Valid() && State() == old(State()).SetUsage(id, isInput, usage)
    {
      var proc, k := GetIOProcByIOProcID(id);
      if proc != null {
        proc.SetStreamUsage(isInput, usage, if isInput then inputs else outputs);
        OneChanged(k);
        if proc.isEnabled {
          ReallocateIOProcBufferLists(proc, k);
          ReallocateSharedBufferLists();
        }
      }
    }
  }

  class HP_Device {
    const mIOProcList: HP_IOProcList
    var mIOEngineIsRunning: bool

    function State(): DeviceState<HP_IOProc>
      reads this, mIOProcList, mIOProcList.mIOProcList, mIOProcList.memory
    {
      DeviceState(mIOProcList.State(), mIOEngineIsRunning)
    }

    /** Buffers fit, the engine runs iff something is enabled, and entries are told apart. */
    ghost predicate Valid()
      reads this, mIOProcList, mIOProcList.mIOProcList, mIOProcList.memory
    {
      mIOProcList.Valid() && State().Inv()
    }

    lemma ValidAfter(d: DeviceState<HP_IOProc>, op: DeviceOp<HP_IOProc>)
      requires d.Inv() && Allowed(d, op)
      requires mIOProcList.Valid() && State() == DeviceNext(d, op)
      ensures Valid()
    {
      DeviceNextKeeps(d, op);
    }

    constructor (inputs: nat, outputs: nat)
      ensures Valid() && State() == DeviceState(Empty(inputs, outputs), false)
    {
      mIOProcList := new HP_IOProcList(inputs, outputs);
      mIOEngineIsRunning := false;
    }

    method StartIOEngine()
      modifies this
      ensures mIOEngineIsRunning
    {
      if !mIOEngineIsRunning {
        mIOEngineIsRunning := true;
      }
    }

    method StopIOEngine()
      modifies this
      ensures !mIOEngineIsRunning
    {
      if mIOEngineIsRunning {
        mIOEngineIsRunning := false;
      }
    }

    /** Registration of a function (relevant is false) or of a function with its client data. The
        ID handed out resolves to the new entry, and every earlier ID still to its own. */
    method Register(func: nat, clientData: int, relevant: bool) returns (r: Option<ID>, ghost proc: HP_IOProc?)
      requires Valid()
      modifies mIOProcList`mIOProcList
      ensures Valid()
      ensures r.None? <==> HasIOProc(old(State()).list.procs, func, clientData, relevant)
      ensures r.None? ==> State() == old(State())
      ensures r.Some? ==> proc != null && fresh(proc) && r.value == proc.Value().ID()
      ensures r.Some? ==> State() == old(State()).Register(proc, func, clientData, relevant)
      ensures r.Some? ==> Find(State().list.procs, r.value) == Some(|old(State()).list.procs|)
    {
      var has := mIOProcList.HasIOProc(func, clientData, relevant);
      if has {
        return None, null;
      }
      var id, p := mIOProcList.AddIOProc(func, clientData, relevant);
      ValidAfter(old(State()), DeviceOp.Register(p, func, clientData, relevant));
      IDResolves(State().list.procs, |old(State()).list.procs|);
      return Some(id), p;
    }

    method StartIOProc(id: ID)
      requires Valid()
      modifies this, mIOProcList, mIOProcList.mIOProcList, mIOProcList.memory
      ensures Valid() && State() == old(State()).StartIOProc(id)
    {
      mIOProcList.StartIOProc(id, ZERO_START);
      var n, s := mIOProcList.mNumberEnabledIOProcs, mIOProcList.mNULLStarts;
      if (n == 1 && s == 0) || (n == 0 && s == 1) {
        StartIOEngine();
      }
      ValidAfter(old(State()), DeviceOp.Start(id));
    }

    /** A timed start of no entry at all is the one operation that can leave the engine wrong. */
    method StartIOProcAtTime(id: ID, start: StartTime)
      requires Valid()
      modifies this, mIOProcList, mIOProcList.mIOProcList, mIOProcList.memory
      ensures mIOProcList.Valid() && State() == old(State()).StartIOProcAtTime(id, start)
      ensures Valid() <==> id != NullID || IsAnythingEnabled(old(State()).list)
    {
      mIOProcList.StartIOProc(id, start);
      if mIOProcList.mNumberEnabledIOProcs == 1 {
        StartIOEngine();
      }
      if id != NullID {
        ValidAfter(old(State()), DeviceOp.StartAtTime(id, start));
      } else {
        TimedNullStart(old(State()), start);
      }
    }

    method StopIOProc(id: ID)
      requires Valid()
      modifies this, mIOProcList, mIOProcList.mIOProcList, mIOProcList.memory
      ensures Valid() && State() == old(State()).StopIOProc(id)
      ensures mIOProcList.mIOProcList == old(mIOProcList.mIOProcList)
    {
      mIOProcList.StopIOProc(id);
      if mIOProcList.mNumberEnabledIOProcs == 0 && mIOProcList.mNULLStarts == 0 {
        StopIOEngine();
      }
      ValidAfter(old(State()), DeviceOp.Stop(id));
    }

    method RemoveIOProc(id: ID)
      requires Valid()
      modifies this, mIOProcList, mIOProcList.mIOProcList, mIOProcList.memory
      ensures Valid() && State() == old(State()).RemoveIOProc(id)
    {
      StopIOProc(id);
      mIOProcList.RemoveIOProc(id);
      ValidAfter(old(State()), DeviceOp.Remove(id));
    }

    method StopAllIOProcs()
      requires Valid()
      modifies this, mIOProcList, mIOProcList.mIOProcList, mIOProcList.memory
      ensures Valid() && State() == old(State()).StopAllIOProcs()
    {
      if mIOProcList.mNumberEnabledIOProcs > 0 || mIOProcList.mNULLStarts > 0 {
        mIOProcList.StopAllIOProcs();
        StopIOEngine();
      }
      ValidAfter(old(State()), DeviceOp.StopAll);
    }

    method SetIOProcStreamUsage(id: ID, isInput: bool, usage: seq<bool>)
      requires Valid()
      modifies mIOProcList, mIOProcList.mIOProcList, mIOProcList.memory
      ensures Valid() && State() == DeviceNext(old(State()), DeviceOp.SetUsage(id, isInput, usage))
    {
      mIOProcList.SetIOProcStreamUsage(id, isInput, usage);
      ValidAfter(old(State()), DeviceOp.SetUsage(id, isInput, usage));
    }
  }
}
