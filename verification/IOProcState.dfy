/** Optional values. */
module Options {
  datatype Option<+T> = None | Some(value: T)
}

/** IO buffers: memory taken from the system and registered with a stream. */
module IOMemory {
  import opened Options

  type IOBufferList = seq<Option<nat>>

  datatype Registration = Registration(isInput: bool, stream: nat)

  /** The buffers allocated so far and not freed, and those the streams know about. */
  datatype Memory = Memory(next: nat, live: set<nat>, registered: map<nat, Registration>) {
    ghost predicate Valid() {
      && registered.Keys == live
      && forall b | b in live :: b < next
    }

    function Take(isInput: bool, stream: nat): Memory {
      Memory(next + 1, live + {next}, registered[next := Registration(isInput, stream)])
    }

    /** The buffer is freed, and unregistered with the stream given if it is registered there. */
    function Return(b: nat, isInput: bool, stream: nat): Memory {
      var hit := b in registered && registered[b] == Registration(isInput, stream);
      Memory(next, live - {b}, if hit then registered - {b} else registered)
    }
  }

  /** A stream whose usage is not specified is used. */
  predicate Uses(usage: seq<bool>, stream: nat) {
    stream < |usage| ==> usage[stream]
  }

  /** A buffer for each of the first n streams that is used. */
  function Allocate(m: Memory, isInput: bool, usage: seq<bool>, n: nat): (r: (Memory, IOBufferList))
    ensures |r.1| == n
  {
    if n == 0 then (m, [])
    else
      var (m', list) := Allocate(m, isInput, usage, n - 1);
      if Uses(usage, n - 1) then (m'.Take(isInput, n - 1), list + [Some(m'.next)])
      else (m', list + [None])
  }

  /** Every buffer of a list is freed, and unregistered with the stream at its place. */
  function Free(m: Memory, isInput: bool, list: IOBufferList): Memory {
    if list == [] then m
    else
      var n := |list| - 1;
      var m' := Free(m, isInput, list[..n]);
      if list[n].Some? then m'.Return(list[n].value, isInput, n) else m'
  }

  /** The buffers in a list, with repetitions. */
  ghost function Handles(list: IOBufferList): multiset<nat> {
    if list == [] then multiset{}
    else
      var n := |list| - 1;
      Handles(list[..n]) + if list[n].Some? then multiset{list[n].value} else multiset{}
  }

  /** Each buffer of the list is registered with the stream at its place. */
  ghost predicate Registered(m: Memory, isInput: bool, list: IOBufferList) {
    forall i | 0 <= i < |list| && list[i].Some? ::
      list[i].value in m.registered && m.registered[list[i].value] == Registration(isInput, i)
  }

  /** The list has a buffer for exactly the streams in use, each registered with its stream. */
  ghost predicate Covers(m: Memory, isInput: bool, list: IOBufferList, usage: seq<bool>, n: nat) {
    && |list| == n
    && (forall i | 0 <= i < n :: list[i].Some? <==> Uses(usage, i))
    && Registered(m, isInput, list)
  }

  /** Everything another memory knew about its live buffers still holds. */
  ghost predicate Extends(m: Memory, m': Memory) {
    forall b | b in m.live && b in m.registered :: b in m'.registered && m'.registered[b] == m.registered[b]
  }

  lemma TakeWorks(m: Memory, isInput: bool, stream: nat)
    requires m.Valid()
    ensures var m' := m.Take(isInput, stream);
      && m'.Valid() && Extends(m, m')
      && multiset(m'.live) == multiset(m.live) + multiset{m.next}
      && m'.registered[m.next] == Registration(isInput, stream)
  {
    assert m.next !in m.live;
  }

  /** Freeing a buffer leaves the register in order exactly if it is unregistered with the stream
      it was registered with. */
  lemma ReturnWorks(m: Memory, b: nat, isInput: bool, stream: nat)
    requires m.Valid() && b in m.live
    ensures var m' := m.Return(b, isInput, stream);
      && (m'.Valid() <==> m.registered[b] == Registration(isInput, stream))
      && Extends(m', m)
      && multiset(m'.live) == multiset(m.live) - multiset{b}
  {
    assert b in m.registered;
  }

  lemma RegisteredLater(m: Memory, m': Memory, isInput: bool, list: IOBufferList)
    requires m.Valid() && Extends(m, m') && Registered(m, isInput, list)
    ensures Registered(m', isInput, list)
  {}

  /** What a list of buffers taken from one memory makes of it. */
  ghost predicate Allocated(m: Memory, m': Memory, isInput: bool, list: IOBufferList, usage: seq<bool>, n: nat) {
    && m'.Valid() && Extends(m, m')
    && multiset(m'.live) == multiset(m.live) + Handles(list)
    && Covers(m', isInput, list, usage, n)
  }

  lemma {:induction false} AllocateWorks(m: Memory, isInput: bool, usage: seq<bool>, n: nat)
    requires m.Valid()
    ensures var (m', list) := Allocate(m, isInput, usage, n); Allocated(m, m', isInput, list, usage, n)
  {
    if n > 0 {
      AllocateWorks(m, isInput, usage, n - 1);
      var (m1, list1) := Allocate(m, isInput, usage, n - 1);
      if Uses(usage, n - 1) {
        TakeWorks(m1, isInput, n - 1);
        ListGrows(m, m1, m1.Take(isInput, n - 1), isInput, list1, usage, Some(m1.next));
      } else {
        ListGrows(m, m1, m1, isInput, list1, usage, None);
      }
    }
  }

  /** A list with one place more, whose buffer is registered there. */
  lemma ListGrows(m: Memory, m1: Memory, m': Memory, isInput: bool, list: IOBufferList, usage: seq<bool>,
                  last: Option<nat>)
    requires m.Valid() && m1.Valid() && m'.Valid() && Allocated(m, m1, isInput, list, usage, |list|) && Extends(m1, m')
    requires last.Some? <==> Uses(usage, |list|)
    requires last.Some? ==> last.value in m'.registered && m'.registered[last.value] == Registration(isInput, |list|)
    requires multiset(m'.live) == multiset(m1.live) + if last.Some? then multiset{last.value} else multiset{}
    ensures Allocated(m, m', isInput, list + [last], usage, |list| + 1)
  {
    assert (list + [last])[..|list|] == list;
    RegisteredLater(m1, m', isInput, list);
  }

  /** Freeing a list whose buffers are registered at their places finds every registration. */
  lemma {:induction false} FreeWorks(m: Memory, isInput: bool, list: IOBufferList)
    requires m.Valid() && Handles(list) <= multiset(m.live) && Registered(m, isInput, list)
    ensures var m' := Free(m, isInput, list);
      && m'.Valid() && Extends(m', m)
      && multiset(m'.live) == multiset(m.live) - Handles(list)
  {
    if list != [] {
      var n := |list| - 1;
      FreeWorks(m, isInput, list[..n]);
      var m1 := Free(m, isInput, list[..n]);
      if list[n].Some? {
        var b := list[n].value;
        assert Handles(list) == Handles(list[..n]) + multiset{b};
        assert Handles(list)[b] <= multiset(m.live)[b] <= 1;
        assert multiset(m1.live)[b] == 1;
        ReturnWorks(m1, b, isInput, n);
      }
    }
  }
}

/** The IOProc list as a value: what every operation of HP_IOProcList makes of it. */
module IOProcStates {
  import opened Options
  import opened IOMemory

  /** An IOProc ID is the address of the entry if its client data matters, and the address of
      its function otherwise. Functions and entries never share an address. */
  datatype IOProcID<A> = NullID | FunctionID(func: nat) | EntryID(address: A)

  datatype StartTime = StartTime(sampleTime: real, flags: nat)

  const ZERO_START := StartTime(0.0, 0)

  /** An entry of the list, at address `self`. */
  datatype Proc<A> = Proc(
    self: A,
    func: nat,
    clientData: int,
    clientDataIsRelevant: bool,
    enabled: bool,
    start: StartTime,
    inputUsage: seq<bool>,
    outputUsage: seq<bool>,
    outputBuffers: IOBufferList)
  {
    /** The ID handed out for the entry. */
    function ID(): IOProcID<A> {
      if clientDataIsRelevant then EntryID(self) else FunctionID(func)
    }
  }

  ghost predicate Matches<A>(p: Proc<A>, id: IOProcID<A>) {
    id == EntryID(p.self) || id == FunctionID(p.func)
  }

  /** The first entry that an ID matches. */
  ghost function Find<A>(procs: seq<Proc<A>>, id: IOProcID<A>): (r: Option<nat>)
    ensures r.Some? ==> r.value < |procs| && Matches(procs[r.value], id)
    ensures r.Some? ==> forall k | 0 <= k < r.value :: !Matches(procs[k], id)
    ensures r.None? ==> forall k | 0 <= k < |procs| :: !Matches(procs[k], id)
  {
    if procs == [] then None
    else
      var n := |procs| - 1;
      var r := Find(procs[..n], id);
      if r.Some? then r else if Matches(procs[n], id) then Some(n) else None
  }

  /** Two requests name the same entry: client data counts only if it counts for both. */
  predicate SameProc<A>(p: Proc<A>, func: nat, clientData: int, relevant: bool) {
    p.func == func && (p.clientDataIsRelevant && relevant ==> p.clientData == clientData)
  }

  predicate HasIOProc<A>(procs: seq<Proc<A>>, func: nat, clientData: int, relevant: bool) {
    exists k :: 0 <= k < |procs| && SameProc(procs[k], func, clientData, relevant)
  }

  function CountEnabled<A>(procs: seq<Proc<A>>): nat {
    if procs == [] then 0
    else CountEnabled(procs[..|procs| - 1]) + if procs[|procs| - 1].enabled then 1 else 0
  }

  ghost function AllHandles<A>(procs: seq<Proc<A>>): multiset<nat> {
    if procs == [] then multiset{}
    else AllHandles(procs[..|procs| - 1]) + Handles(procs[|procs| - 1].outputBuffers)
  }

  /** Some enabled entry uses the input stream. */
  predicate AnyUsesInput<A>(procs: seq<Proc<A>>, stream: nat) {
    exists k :: 0 <= k < |procs| && procs[k].enabled && Uses(procs[k].inputUsage, stream)
  }

  function InputUsageUnion<A>(procs: seq<Proc<A>>, inputs: nat): (usage: seq<bool>)
    ensures |usage| == inputs
  {
    seq(inputs, i requires i >= 0 => AnyUsesInput(procs, i))
  }

  function Erase<T>(s: seq<T>, k: nat): seq<T>
    requires k < |s|
  {
    s[..k] + s[k + 1..]
  }

  datatype ListState<A> = ListState(
    inputs: nat,
    outputs: nat,
    procs: seq<Proc<A>>,
    numberEnabled: int,
    nullStarts: nat,
    shared: Option<IOBufferList>,
    memory: Memory)
  {
    function ReallocateProc(k: nat): (s: ListState<A>)
      requires k < |procs|
      ensures |s.procs| == |procs|
    {
      var p := procs[k];
      var m := Free(memory, false, p.outputBuffers);
      var (m', list) := if p.enabled then Allocate(m, false, p.outputUsage, outputs) else (m, []);
      this.(procs := procs[k := p.(outputBuffers := list)], memory := m')
    }

    function ReallocateShared(): ListState<A> {
      var m := if shared.Some? then Free(memory, true, shared.value) else memory;
      var (m', list) := Allocate(m, true, InputUsageUnion(procs, inputs), inputs);
      this.(shared := Some(list), memory := m')
    }

    function Switch(k: nat, on: bool, start: StartTime): (s: ListState<A>)
      requires k < |procs|
      ensures |s.procs| == |procs|
    {
      this.(procs := procs[k := procs[k].(enabled := on, start := start)],
            numberEnabled := if on then numberEnabled + 1 else numberEnabled - 1)
    }

    function Add(self: A, func: nat, clientData: int, relevant: bool): ListState<A> {
      this.(procs := procs + [Proc(self, func, clientData, relevant, false, ZERO_START, [], [], [])])
    }

    function StartIOProcAt(k: nat, start: StartTime): (s: ListState<A>)
      requires k < |procs|
      ensures |s.procs| == |procs|
    {
      if procs[k].enabled then this
      else Switch(k, true, start).ReallocateProc(k).ReallocateShared()
    }

    function StopIOProcAt(k: nat): (s: ListState<A>)
      requires k < |procs|
      ensures |s.procs| == |procs|
    {
      if !procs[k].enabled then this else StopAlone(k).ReallocateShared()
    }

    /** Stopping every entry before the k-th, without the shared list. */
    function StopFirst(k: nat): (s: ListState<A>)
      requires k <= |procs|
      ensures |s.procs| == |procs|
    {
      if k == 0 then this else StopFirst(k - 1).StopAlone(k - 1)
    }

    /** Stopping one entry, without the shared list. */
    function StopAlone(k: nat): (s: ListState<A>)
      requires k < |procs|
      ensures |s.procs| == |procs|
    {
      if procs[k].enabled then Switch(k, false, procs[k].start).ReallocateProc(k) else this
    }

    function StopAll(): ListState<A> {
      StopFirst(|procs|).ReallocateShared().(nullStarts := 0)
    }

    function RemoveAt(k: nat): ListState<A>
      requires k < |procs|
    {
      var s := StopIOProcAt(k);
      s.(procs := Erase(s.procs, k))
    }

    function SetUsageAt(k: nat, isInput: bool, usage: seq<bool>): ListState<A>
      requires k < |procs|
    {
      var n := if isInput then inputs else outputs;
      var u := usage[..if |usage| < n then |usage| else n];
      var p := if isInput then procs[k].(inputUsage := u) else procs[k].(outputUsage := u);
      var s := this.(procs := procs[k := p]);
      if p.enabled then s.ReallocateProc(k).ReallocateShared() else s
    }

    // Operations by ID. An ID that matches no entry makes the operation do nothing.

    ghost function StartIOProc(id: IOProcID<A>, start: StartTime): ListState<A> {
      if id.NullID? then this.(nullStarts := nullStarts + 1)
      else
        var r := Find(procs, id);
        if r.Some? then StartIOProcAt(r.value, start) else this
    }

    ghost function StopIOProc(id: IOProcID<A>): ListState<A> {
      if id.NullID? then (if nullStarts > 0 then this.(nullStarts := nullStarts - 1) else this)
      else
        var r := Find(procs, id);
        if r.Some? then StopIOProcAt(r.value) else this
    }

    ghost function RemoveIOProc(id: IOProcID<A>): ListState<A> {
      var r := Find(procs, id);
      if r.Some? then RemoveAt(r.value) else this
    }

    ghost function SetUsage(id: IOProcID<A>, isInput: bool, usage: seq<bool>): ListState<A> {
      var r := Find(procs, id);
      if r.Some? then SetUsageAt(r.value, isInput, usage) else this
    }

    // ---------- what every operation keeps ----------

    /** An entry has buffers exactly while enabled, and then for exactly the streams it uses. */
    ghost predicate BuffersFit(k: nat)
      requires k < |procs|
    {
      if procs[k].enabled then Covers(memory, false, procs[k].outputBuffers, procs[k].outputUsage, outputs)
      else procs[k].outputBuffers == []
    }

    ghost function SharedHandles(): multiset<nat> {
      if shared.Some? then Handles(shared.value) else multiset{}
    }

    /** Every buffer in a list is registered with the stream at its place. */
    ghost predicate AllRegistered() {
      && (forall k | 0 <= k < |procs| :: Registered(memory, false, procs[k].outputBuffers))
      && (shared.Some? ==> Registered(memory, true, shared.value))
    }

    /** The live buffers are those in the lists, each in one list, and all are registered. Every
        entry but the one excepted has the buffers it should have. */
    ghost predicate Sound(except: int) {
      && memory.Valid() && AllRegistered()
      && multiset(memory.live) == AllHandles(procs) + SharedHandles()
      && forall k: nat | k < |procs| && k != except :: BuffersFit(k)
    }

    /** The shared list, once there is one, has a buffer for exactly the inputs in use. */
    ghost predicate SharedFits() {
      shared.Some? ==> Covers(memory, true, shared.value, InputUsageUnion(procs, inputs), inputs)
    }

    ghost predicate Inv() {
      && Sound(-1)
      && SharedFits()
      && numberEnabled == CountEnabled(procs)
    }
  }

  lemma {:induction false} CountOfConcat<A>(a: seq<Proc<A>>, b: seq<Proc<A>>)
    ensures CountEnabled(a + b) == CountEnabled(a) + CountEnabled(b)
    ensures AllHandles(a + b) == AllHandles(a) + AllHandles(b)
  {
    if b == [] {
      assert a + b == a;
    } else {
      var n := |b| - 1;
      LastOfConcat(a, b);
      CountOfConcat(a, b[..n]);
    }
  }

  lemma LastOfConcat<A>(a: seq<Proc<A>>, b: seq<Proc<A>>)
    requires b != []
    ensures CountEnabled(a + b) == CountEnabled(a + b[..|b| - 1]) + if b[|b| - 1].enabled then 1 else 0
    ensures AllHandles(a + b) == AllHandles(a + b[..|b| - 1]) + Handles(b[|b| - 1].outputBuffers)
  {
    var ab := a + b;
    assert ab[..|ab| - 1] == a + b[..|b| - 1];
  }

  lemma CountOfOne<A>(p: Proc<A>)
    ensures CountEnabled([p]) == if p.enabled then 1 else 0
    ensures AllHandles([p]) == Handles(p.outputBuffers)
  {
    assert [p][..0] == [];
  }

  lemma SplitAt<T>(s: seq<T>, k: nat)
    requires k < |s|
    ensures s == s[..k] + [s[k]] + s[k + 1..]
  {}

  /** The totals over a list are those of one entry and of the rest. */
  lemma CountOfEntry<A>(procs: seq<Proc<A>>, k: nat)
    requires k < |procs|
    ensures CountEnabled(procs) == CountEnabled(Erase(procs, k)) + if procs[k].enabled then 1 else 0
    ensures AllHandles(procs) == AllHandles(Erase(procs, k)) + Handles(procs[k].outputBuffers)
  {
    var a, p, b := procs[..k], [procs[k]], procs[k + 1..];
    SplitAt(procs, k);
    CountOfOne(procs[k]);
    CountOfConcat(a, p);
    CountOfConcat(a + p, b);
    CountOfConcat(a, b);
  }

  lemma CountOfUpdate<A>(procs: seq<Proc<A>>, k: nat, p: Proc<A>)
    requires k < |procs|
    ensures CountEnabled(procs[k := p]) - (if p.enabled then 1 else 0) ==
              CountEnabled(procs) - (if procs[k].enabled then 1 else 0)
    ensures AllHandles(procs[k := p]) + Handles(procs[k].outputBuffers) == AllHandles(procs) + Handles(p.outputBuffers)
  {
    CountOfEntry(procs, k);
    CountOfEntry(procs[k := p], k);
    assert Erase(procs[k := p], k) == Erase(procs, k);
  }

  lemma {:induction false} InHandles(list: IOBufferList, i: nat)
    requires i < |list| && list[i].Some?
    ensures list[i].value in Handles(list)
  {
    var n := |list| - 1;
    if i < n {
      InHandles(list[..n], i);
    }
  }

  /** A list whose buffers stay live stays registered. */
  lemma RegisteredStill(m: Memory, m': Memory, isInput: bool, list: IOBufferList)
    requires Registered(m, isInput, list) && m.Valid() && m'.Valid() && (Extends(m, m') || Extends(m', m))
    requires Handles(list) <= multiset(m'.live)
    ensures Registered(m', isInput, list)
  {
    forall i | 0 <= i < |list| && list[i].Some?
      ensures list[i].value in m'.registered && m'.registered[list[i].value] == Registration(isInput, i)
    {
      InHandles(list, i);
      assert list[i].value in multiset(m'.live);
    }
  }

  /** The buffers of two entries are counted separately. */
  lemma HandlesOfTwo<A>(procs: seq<Proc<A>>, j: nat, k: nat)
    requires j < |procs| && k < |procs| && j != k
    ensures Handles(procs[j].outputBuffers) + Handles(procs[k].outputBuffers) <= AllHandles(procs)
  {
    var rest := Erase(procs, k);
    var j' := if j < k then j else j - 1;
    assert rest[j'] == procs[j];
    CountOfEntry(procs, k);
    CountOfEntry(rest, j');
    assert Handles(procs[j].outputBuffers) <= AllHandles(rest);
  }

  /** Freeing one entry's buffers keeps every other list registered, and so does allocating. */
  lemma OthersStayRegistered<A>(s: ListState<A>, k: nat)
    requires k < |s.procs| && s.Sound(k)
    ensures var s' := s.ReallocateProc(k); var mine := s.procs[k].outputBuffers;
      && s'.memory.Valid()
      && multiset(s'.memory.live) == multiset(s.memory.live) - Handles(mine) + Handles(s'.procs[k].outputBuffers)
      && (forall list, isInput |
            Registered(s.memory, isInput, list) && Handles(list) + Handles(mine) <= multiset(s.memory.live) ::
            Registered(s'.memory, isInput, list))
      && s'.BuffersFit(k)
  {
    var s' := s.ReallocateProc(k);
    var p := s.procs[k];
    CountOfEntry(s.procs, k);
    FreeWorks(s.memory, false, p.outputBuffers);
    var m := Free(s.memory, false, p.outputBuffers);
    AllocateWorks(m, false, p.outputUsage, s.outputs);
    forall list, isInput |
      Registered(s.memory, isInput, list) && Handles(list) + Handles(p.outputBuffers) <= multiset(s.memory.live)
      ensures Registered(s'.memory, isInput, list)
    {
      RegisteredStill(s.memory, m, isInput, list);
      RegisteredLater(m, s'.memory, isInput, list);
    }
  }

  lemma ReallocateProcTotals<A>(s: ListState<A>, k: nat)
    requires k < |s.procs| && s.Sound(k)
    ensures var s' := s.ReallocateProc(k);
      && CountEnabled(s'.procs) == CountEnabled(s.procs)
      && multiset(s'.memory.live) == AllHandles(s'.procs) + s'.SharedHandles()
  {
    var s' := s.ReallocateProc(k);
    OthersStayRegistered(s, k);
    CountOfEntry(s.procs, k);
    CountOfEntry(s'.procs, k);
    assert Erase(s'.procs, k) == Erase(s.procs, k);
  }

  lemma ReallocateProcFits<A>(s: ListState<A>, k: nat, j: nat)
    requires k < |s.procs| && j < |s.procs| && s.Sound(k)
    ensures var s' := s.ReallocateProc(k);
      s'.BuffersFit(j) && Registered(s'.memory, false, s'.procs[j].outputBuffers)
  {
    OthersStayRegistered(s, k);
    if j != k {
      assert s.BuffersFit(j);
      HandlesOfTwo(s.procs, j, k);
    }
  }

  lemma ReallocateProcWorks<A>(s: ListState<A>, k: nat)
    requires k < |s.procs| && s.Sound(k)
    ensures var s' := s.ReallocateProc(k);
      && s'.Sound(-1)
      && CountEnabled(s'.procs) == CountEnabled(s.procs)
      && (s.SharedFits() ==> s'.SharedFits())
  {
    ReallocateProcTotals(s, k);
    OthersStayRegistered(s, k);
    forall j: nat | j < |s.procs|
      ensures var s' := s.ReallocateProc(k);
        s'.BuffersFit(j) && Registered(s'.memory, false, s'.procs[j].outputBuffers)
    {
      ReallocateProcFits(s, k, j);
    }
    CountOfEntry(s.procs, k);
    SameUnion(s.procs, s.ReallocateProc(k).procs, k, s.inputs);
  }

  lemma SameUnion<A>(procs: seq<Proc<A>>, procs': seq<Proc<A>>, k: nat, inputs: nat)
    requires k < |procs| == |procs'| && procs' == procs[k := procs'[k]]
    requires procs'[k].enabled == procs[k].enabled
    requires procs[k].enabled ==> procs'[k].inputUsage == procs[k].inputUsage
    ensures InputUsageUnion(procs', inputs) == InputUsageUnion(procs, inputs)
  {
    forall i: nat | i < inputs
      ensures AnyUsesInput(procs', i) == AnyUsesInput(procs, i)
    {
      if AnyUsesInput(procs, i) {
        var j :| 0 <= j < |procs| && procs[j].enabled && Uses(procs[j].inputUsage, i);
        assert procs'[j].enabled && Uses(procs'[j].inputUsage, i);
      }
      if AnyUsesInput(procs', i) {
        var j :| 0 <= j < |procs'| && procs'[j].enabled && Uses(procs'[j].inputUsage, i);
        assert procs[j].enabled && Uses(procs[j].inputUsage, i);
      }
    }
  }

  lemma ReallocateSharedWorks<A>(s: ListState<A>)
    requires s.Sound(-1)
    ensures var s' := s.ReallocateShared(); s'.Sound(-1) && s'.SharedFits() && s'.procs == s.procs
  {
    var s' := s.ReallocateShared();
    var m := if s.shared.Some? then Free(s.memory, true, s.shared.value) else s.memory;
    if s.shared.Some? {
      FreeWorks(s.memory, true, s.shared.value);
    }
    AllocateWorks(m, true, InputUsageUnion(s.procs, s.inputs), s.inputs);
    forall j: nat | j < |s.procs|
      ensures s'.BuffersFit(j) && Registered(s'.memory, false, s.procs[j].outputBuffers)
    {
      assert s.BuffersFit(j);
      CountOfEntry(s.procs, j);
      RegisteredStill(s.memory, m, false, s.procs[j].outputBuffers);
      RegisteredLater(m, s'.memory, false, s.procs[j].outputBuffers);
    }
  }

  /** Changing the settings of one entry leaves everything sound but that entry's buffers. */
  lemma UpdateIsSound<A>(s: ListState<A>, k: nat, p: Proc<A>)
    requires k < |s.procs| && s.Sound(-1) && p.outputBuffers == s.procs[k].outputBuffers
    ensures s.(procs := s.procs[k := p]).Sound(k)
  {
    var s' := s.(procs := s.procs[k := p]);
    CountOfEntry(s.procs, k);
    CountOfEntry(s'.procs, k);
    assert Erase(s'.procs, k) == Erase(s.procs, k);
    forall j: nat | j < |s.procs| && j != k
      ensures s'.BuffersFit(j)
    {
      assert s.BuffersFit(j);
    }
  }

  // ---------- runs ----------

  datatype Op<A> =
    | Add(self: A, func: nat, clientData: int, relevant: bool)
    | Remove(id: IOProcID<A>)
    | Start(id: IOProcID<A>, start: StartTime)
    | Stop(id: IOProcID<A>)
    | StopAll
    | SetUsage(id: IOProcID<A>, isInput: bool, usage: seq<bool>)

  ghost function Next<A>(s: ListState<A>, op: Op<A>): ListState<A> {
    match op
    case Add(self, func, clientData, relevant) => s.Add(self, func, clientData, relevant)
    case Remove(id) => s.RemoveIOProc(id)
    case Start(id, start) => s.StartIOProc(id, start)
    case Stop(id) => s.StopIOProc(id)
    case StopAll => s.StopAll()
    case SetUsage(id, isInput, usage) => s.SetUsage(id, isInput, usage)
  }

  function Empty<A>(inputs: nat, outputs: nat): ListState<A> {
    ListState(inputs, outputs, [], 0, 0, None, Memory(0, {}, map[]))
  }

  ghost function After<A>(inputs: nat, outputs: nat, ops: seq<Op<A>>): ListState<A> {
    if ops == [] then Empty(inputs, outputs)
    else Next(After(inputs, outputs, ops[..|ops| - 1]), ops[|ops| - 1])
  }

  lemma SwitchKeeps<A>(s: ListState<A>, k: nat, on: bool, start: StartTime)
    requires k < |s.procs| && s.Sound(-1) && s.numberEnabled == CountEnabled(s.procs) && s.procs[k].enabled == !on
    ensures var s' := s.Switch(k, on, start).ReallocateProc(k);
      && s'.Sound(-1) && s'.numberEnabled == CountEnabled(s'.procs)
      && s'.procs[k].enabled == on
      && forall j | 0 <= j < |s.procs| && j != k :: s'.procs[j] == s.procs[j]
  {
    var p := s.procs[k].(enabled := on, start := start);
    CountOfUpdate(s.procs, k, p);
    UpdateIsSound(s, k, p);
    var t := s.Switch(k, on, start);
    SoundIgnoresCounters(s.(procs := s.procs[k := p]), t, k);
    ReallocateProcWorks(t, k);
  }

  lemma SoundIgnoresCounters<A>(s: ListState<A>, t: ListState<A>, except: int)
    requires s.Sound(except) && t == s.(numberEnabled := t.numberEnabled, nullStarts := t.nullStarts)
    ensures t.Sound(except)
  {
    forall k: nat | k < |t.procs| && k != except
      ensures t.BuffersFit(k)
    {
      assert s.BuffersFit(k);
    }
  }

  lemma StartStopKeeps<A>(s: ListState<A>, k: nat, start: StartTime)
    requires k < |s.procs| && s.Inv()
    ensures s.StartIOProcAt(k, start).Inv() && s.StopIOProcAt(k).Inv()
  {
    if s.procs[k].enabled {
      SwitchKeeps(s, k, false, s.procs[k].start);
      ReallocateSharedWorks(s.Switch(k, false, s.procs[k].start).ReallocateProc(k));
    } else {
      SwitchKeeps(s, k, true, start);
      ReallocateSharedWorks(s.Switch(k, true, start).ReallocateProc(k));
    }
  }

  lemma {:induction false} StopFirstKeeps<A>(s: ListState<A>, k: nat)
    requires k <= |s.procs| && s.Inv()
    ensures var t := s.StopFirst(k);
      && t.Sound(-1) && t.numberEnabled == CountEnabled(t.procs)
      && forall j | 0 <= j < k :: !t.procs[j].enabled
  {
    if k > 0 {
      StopFirstKeeps(s, k - 1);
      StopAloneKeeps(s.StopFirst(k - 1), k - 1);
    }
  }

  lemma StopAloneKeeps<A>(s: ListState<A>, k: nat)
    requires k < |s.procs| && s.Sound(-1) && s.numberEnabled == CountEnabled(s.procs)
    requires forall j | 0 <= j < k :: !s.procs[j].enabled
    ensures var t := s.StopAlone(k);
      && t.Sound(-1) && t.numberEnabled == CountEnabled(t.procs)
      && forall j | 0 <= j <= k :: !t.procs[j].enabled
  {
    if s.procs[k].enabled {
      SwitchKeeps(s, k, false, s.procs[k].start);
    }
  }

  lemma {:induction false} NoneEnabled<A>(procs: seq<Proc<A>>)
    requires forall j | 0 <= j < |procs| :: !procs[j].enabled
    ensures CountEnabled(procs) == 0
  {
    if procs != [] {
      NoneEnabled(procs[..|procs| - 1]);
    }
  }

  lemma StopAllKeeps<A>(s: ListState<A>)
    requires s.Inv()
    ensures s.StopAll().Inv() && s.StopAll().numberEnabled == 0 && s.StopAll().nullStarts == 0
  {
    StopFirstKeeps(s, |s.procs|);
    var t := s.StopFirst(|s.procs|);
    NoneEnabled(t.procs);
    ReallocateSharedWorks(t);
    SoundIgnoresCounters(t.ReallocateShared(), s.StopAll(), -1);
  }

  lemma AddKeeps<A>(s: ListState<A>, self: A, func: nat, clientData: int, relevant: bool)
    requires s.Inv()
    ensures s.Add(self, func, clientData, relevant).Inv()
  {
    var s' := s.Add(self, func, clientData, relevant);
    var p := s'.procs[|s.procs|];
    CountOfOne(p);
    CountOfConcat(s.procs, [p]);
    forall k: nat | k < |s'.procs|
      ensures s'.BuffersFit(k)
    {
      if k < |s.procs| {
        assert s.BuffersFit(k);
      }
    }
    DisabledDoesNotCount(s'.procs, |s.procs|, s.inputs);
    assert Erase(s'.procs, |s.procs|) == s.procs;
  }

  /** A disabled entry does not take part in the union of usages. */
  lemma DisabledDoesNotCount<A>(procs: seq<Proc<A>>, k: nat, inputs: nat)
    requires k < |procs| && !procs[k].enabled
    ensures InputUsageUnion(Erase(procs, k), inputs) == InputUsageUnion(procs, inputs)
  {
    var rest := Erase(procs, k);
    forall i: nat | i < inputs
      ensures AnyUsesInput(rest, i) == AnyUsesInput(procs, i)
    {
      if AnyUsesInput(procs, i) {
        var j :| 0 <= j < |procs| && procs[j].enabled && Uses(procs[j].inputUsage, i);
        assert rest[if j < k then j else j - 1] == procs[j];
      }
      if AnyUsesInput(rest, i) {
        var j :| 0 <= j < |rest| && rest[j].enabled && Uses(rest[j].inputUsage, i);
        assert rest[j] == procs[if j < k then j else j + 1];
      }
    }
  }

  lemma RemoveKeeps<A>(s: ListState<A>, k: nat)
    requires k < |s.procs| && s.Inv()
    ensures s.RemoveAt(k).Inv()
  {
    StartStopKeeps(s, k, ZERO_START);
    EraseKeeps(s.StopIOProcAt(k), k);
  }

  lemma EraseKeeps<A>(t: ListState<A>, k: nat)
    requires k < |t.procs| && t.Inv() && !t.procs[k].enabled
    ensures t.(procs := Erase(t.procs, k)).Inv()
  {
    var s' := t.(procs := Erase(t.procs, k));
    assert t.BuffersFit(k);
    CountOfEntry(t.procs, k);
    DisabledDoesNotCount(t.procs, k, t.inputs);
    forall j: nat | j < |s'.procs|
      ensures s'.BuffersFit(j)
    {
      assert t.BuffersFit(if j < k then j else j + 1);
    }
  }

  lemma SetUsageKeeps<A>(s: ListState<A>, k: nat, isInput: bool, usage: seq<bool>)
    requires k < |s.procs| && s.Inv()
    ensures s.SetUsageAt(k, isInput, usage).Inv()
  {
    var n := if isInput then s.inputs else s.outputs;
    var u := usage[..if |usage| < n then |usage| else n];
    var p := if isInput then s.procs[k].(inputUsage := u) else s.procs[k].(outputUsage := u);
    var t := s.(procs := s.procs[k := p]);
    CountOfUpdate(s.procs, k, p);
    UpdateIsSound(s, k, p);
    if p.enabled {
      ReallocateProcWorks(t, k);
      ReallocateSharedWorks(t.ReallocateProc(k));
    } else {
      assert s.BuffersFit(k);
      assert t.Sound(-1);
      SameUnion(s.procs, t.procs, k, s.inputs);
    }
  }

  lemma NextKeeps<A>(s: ListState<A>, op: Op<A>)
    requires s.Inv()
    ensures Next(s, op).Inv()
  {
    match op
    case Add(self, func, clientData, relevant) => AddKeeps(s, self, func, clientData, relevant);
    case Remove(id) =>
      var r := Find(s.procs, id);
      if r.Some? {
        RemoveKeeps(s, r.value);
      }
    case Start(id, start) =>
      var r := Find(s.procs, id);
      if id.NullID? {
        SoundIgnoresCounters(s, Next(s, op), -1);
      } else if r.Some? {
        StartStopKeeps(s, r.value, start);
      }
    case Stop(id) =>
      var r := Find(s.procs, id);
      if id.NullID? {
        SoundIgnoresCounters(s, Next(s, op), -1);
      } else if r.Some? {
        StartStopKeeps(s, r.value, ZERO_START);
      }
    case StopAll => StopAllKeeps(s);
    case SetUsage(id, isInput, usage) =>
      var r := Find(s.procs, id);
      if r.Some? {
        SetUsageKeeps(s, r.value, isInput, usage);
      }
  }

  /** After any sequence of operations: the count of enabled entries is right, each entry has
      buffers iff enabled and then for exactly the outputs it uses, the shared inputs are exactly
      those some enabled entry uses, and the registered buffers are the live ones, each in
      exactly one list. */
  lemma {:induction false} BuffersAlwaysFit<A>(inputs: nat, outputs: nat, ops: seq<Op<A>>)
    ensures After(inputs, outputs, ops).Inv()
  {
    if ops != [] {
      var n := |ops| - 1;
      BuffersAlwaysFit(inputs, outputs, ops[..n]);
      NextKeeps(After(inputs, outputs, ops[..n]), ops[n]);
    }
  }
}
