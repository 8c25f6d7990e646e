/** What starting, stopping, removing and registering do, in terms of the entries, the counters and
    the buffers themselves. An ID means the first entry at its address or with its function. */
module IOProcEffects {
  import opened Options
  import opened IOMemory
  import opened IOProcStates
  import opened DeviceStates

  /** The ID means entry k. */
  predicate Means<A(==)>(procs: seq<Proc<A>>, id: IOProcID<A>, k: nat) {
    && k < |procs|
    && (id == EntryID(procs[k].self) || id == FunctionID(procs[k].func))
    && forall j | 0 <= j < k :: id != EntryID(procs[j].self) && id != FunctionID(procs[j].func)
  }

  /** The ID means no entry. */
  predicate MeansNone<A(==)>(procs: seq<Proc<A>>, id: IOProcID<A>) {
    forall j | 0 <= j < |procs| :: id != EntryID(procs[j].self) && id != FunctionID(procs[j].func)
  }

  lemma FindMeans<A>(procs: seq<Proc<A>>, id: IOProcID<A>, k: nat)
    requires Means(procs, id, k)
    ensures Find(procs, id) == Some(k) && !id.NullID?
  {
    assert Matches(procs[k], id);
  }

  lemma FindMeansNone<A>(procs: seq<Proc<A>>, id: IOProcID<A>)
    requires MeansNone(procs, id)
    ensures Find(procs, id) == None
  {}

  /** The entry is enabled, with a live buffer registered with each output stream it has not said
      it does not use. */
  ghost predicate Runs<A>(s: ListState<A>, k: nat)
    requires k < |s.procs|
  {
    var p := s.procs[k];
    && p.enabled && |p.outputBuffers| == s.outputs
    && forall i | 0 <= i < s.outputs ::
         if i < |p.outputUsage| && !p.outputUsage[i] then p.outputBuffers[i] == None
         else p.outputBuffers[i].Some? && p.outputBuffers[i].value in s.memory.live
              && p.outputBuffers[i].value in s.memory.registered
              && s.memory.registered[p.outputBuffers[i].value] == Registration(false, i)
  }

  /** The shared list has a live buffer registered with each input stream that some enabled entry
      has not said it does not use. */
  ghost predicate SharesInputs<A>(s: ListState<A>) {
    s.shared.Some? && |s.shared.value| == s.inputs
    && forall i | 0 <= i < s.inputs ::
         var used := exists k :: 0 <= k < |s.procs| && s.procs[k].enabled
                                 && (i < |s.procs[k].inputUsage| ==> s.procs[k].inputUsage[i]);
         if !used then s.shared.value[i] == None
         else s.shared.value[i].Some? && s.shared.value[i].value in s.memory.live
              && s.shared.value[i].value in s.memory.registered
              && s.memory.registered[s.shared.value[i].value] == Registration(true, i)
  }

  lemma InvRuns<A>(s: ListState<A>, k: nat)
    requires s.Inv() && k < |s.procs| && s.procs[k].enabled
    ensures Runs(s, k)
  {
    assert s.BuffersFit(k);
  }

  lemma InvShares<A>(s: ListState<A>)
    requires s.Inv() && s.shared.Some?
    ensures SharesInputs(s)
  {
    forall i: nat | i < s.inputs
      ensures s.shared.value[i].Some? <==>
              exists k :: 0 <= k < |s.procs| && s.procs[k].enabled
                          && (i < |s.procs[k].inputUsage| ==> s.procs[k].inputUsage[i])
    {
      assert InputUsageUnion(s.procs, s.inputs)[i] == AnyUsesInput(s.procs, i);
      assert s.shared.value[i].Some? <==> Uses(InputUsageUnion(s.procs, s.inputs), i);
      if AnyUsesInput(s.procs, i) {
        var k :| 0 <= k < |s.procs| && s.procs[k].enabled && Uses(s.procs[k].inputUsage, i);
        assert s.procs[k].enabled && (i < |s.procs[k].inputUsage| ==> s.procs[k].inputUsage[i]);
      }
      if k :| 0 <= k < |s.procs| && s.procs[k].enabled && (i < |s.procs[k].inputUsage| ==> s.procs[k].inputUsage[i]) {
        assert Uses(s.procs[k].inputUsage, i);
      }
    }
  }

  /** All entries but one are just as before. */
  predicate OnlyEntry<A(==)>(s: ListState<A>, t: ListState<A>, k: nat) {
    && |t.procs| == |s.procs| && t.inputs == s.inputs && t.outputs == s.outputs
    && forall j | 0 <= j < |s.procs| && j != k :: t.procs[j] == s.procs[j]
  }

  // ---------- starting ----------

  /** Starting a stopped entry enables it with the start time given and nothing else: it counts as
      one more, has its buffers, and the shared inputs are in place. */
  lemma StartStarts<A>(s: ListState<A>, id: IOProcID<A>, start: StartTime, k: nat)
    requires s.Inv() && Means(s.procs, id, k) && !s.procs[k].enabled
    ensures var t := s.StartIOProc(id, start);
      && OnlyEntry(s, t, k)
      && t.procs[k].(outputBuffers := []) == s.procs[k].(enabled := true, start := start, outputBuffers := [])
      && t.numberEnabled == s.numberEnabled + 1 && t.nullStarts == s.nullStarts
      && Runs(t, k) && SharesInputs(t)
  {
    FindMeans(s.procs, id, k);
    IOProcStates.NextKeeps(s, Op.Start(id, start));
    var t := s.StartIOProc(id, start);
    InvRuns(t, k);
    InvShares(t);
  }

  /** A start that names a running entry or none at all changes nothing; a NULL start counts. */
  lemma OtherStarts<A>(s: ListState<A>, id: IOProcID<A>, start: StartTime)
    ensures forall k: nat | Means(s.procs, id, k) && s.procs[k].enabled :: s.StartIOProc(id, start) == s
    ensures !id.NullID? && MeansNone(s.procs, id) ==> s.StartIOProc(id, start) == s
    ensures s.StartIOProc(NullID, start) == s.(nullStarts := s.nullStarts + 1)
  {
    forall k: nat | Means(s.procs, id, k) && s.procs[k].enabled
      ensures s.StartIOProc(id, start) == s
    {
      FindMeans(s.procs, id, k);
    }
    if MeansNone(s.procs, id) {
      FindMeansNone(s.procs, id);
    }
  }

  // ---------- stopping ----------

  /** Stopping a running entry disables it and nothing else: it counts no more and its buffers are
      gone. */
  lemma StopStops<A>(s: ListState<A>, id: IOProcID<A>, k: nat)
    requires s.Inv() && Means(s.procs, id, k) && s.procs[k].enabled
    ensures var t := s.StopIOProc(id);
      && OnlyEntry(s, t, k)
      && t.procs[k] == s.procs[k].(enabled := false, outputBuffers := [])
      && t.numberEnabled == s.numberEnabled - 1 && t.nullStarts == s.nullStarts
      && SharesInputs(t)
  {
    FindMeans(s.procs, id, k);
    IOProcStates.NextKeeps(s, Op.Stop(id));
    var t := s.StopIOProc(id);
    assert t.BuffersFit(k);
    InvShares(t);
  }

  /** A stop that names a stopped entry or none at all changes nothing; a NULL stop takes one NULL
      start back if there is one. */
  lemma OtherStops<A>(s: ListState<A>, id: IOProcID<A>)
    ensures forall k: nat | Means(s.procs, id, k) && !s.procs[k].enabled :: s.StopIOProc(id) == s
    ensures !id.NullID? && MeansNone(s.procs, id) ==> s.StopIOProc(id) == s
    ensures s.StopIOProc(NullID) == s.(nullStarts := if s.nullStarts > 0 then s.nullStarts - 1 else 0)
  {
    forall k: nat | Means(s.procs, id, k) && !s.procs[k].enabled
      ensures s.StopIOProc(id) == s
    {
      FindMeans(s.procs, id, k);
    }
    if MeansNone(s.procs, id) {
      FindMeansNone(s.procs, id);
    }
  }

  lemma {:induction false} StopFirstSettings<A>(s: ListState<A>, k: nat, j: nat)
    requires k <= |s.procs| && j < |s.procs|
    ensures var t := s.StopFirst(k); var off := s.procs[j].enabled && j < k;
      && t.procs[j].(outputBuffers := []) ==
         s.procs[j].(outputBuffers := [], enabled := s.procs[j].enabled && j >= k)
      && t.inputs == s.inputs && t.outputs == s.outputs
  {
    if k > 0 {
      StopFirstSettings(s, k - 1, j);
    }
  }

  /** Stopping all leaves every entry's settings but disables it, with no buffers, no count and no
      NULL starts. */
  lemma StopAllStops<A>(s: ListState<A>)
    requires s.Inv()
    ensures var t := s.StopAll();
      && |t.procs| == |s.procs|
      && (forall j | 0 <= j < |s.procs| :: t.procs[j] == s.procs[j].(enabled := false, outputBuffers := []))
      && t.numberEnabled == 0 && t.nullStarts == 0 && SharesInputs(t)
  {
    StopAllKeeps(s);
    var t := s.StopAll();
    InvShares(t);
    forall j | 0 <= j < |s.procs|
      ensures t.procs[j] == s.procs[j].(enabled := false, outputBuffers := [])
    {
      StopFirstSettings(s, |s.procs|, j);
      assert t.BuffersFit(j);
    }
  }

  // ---------- removing, registering, usage ----------

  /** Removing an entry takes it out of the list and leaves the others in order, just as before. */
  lemma RemoveRemoves<A>(s: ListState<A>, id: IOProcID<A>, k: nat)
    requires s.Inv() && Means(s.procs, id, k)
    ensures var t := s.RemoveIOProc(id);
      && |t.procs| == |s.procs| - 1
      && (forall j | 0 <= j < k :: t.procs[j] == s.procs[j])
      && (forall j | k < j < |s.procs| :: t.procs[j - 1] == s.procs[j])
      && t.numberEnabled == s.numberEnabled - (if s.procs[k].enabled then 1 else 0)
      && t.nullStarts == s.nullStarts
  {
    FindMeans(s.procs, id, k);
  }

  lemma RemoveOfNone<A>(s: ListState<A>, id: IOProcID<A>)
    requires MeansNone(s.procs, id)
    ensures s.RemoveIOProc(id) == s
  {
    FindMeansNone(s.procs, id);
  }

  /** Setting usage sets the side named, up to the number of its streams, and nothing else; a
      running entry has buffers for exactly what it now uses. */
  lemma UsageIsSet<A>(s: ListState<A>, id: IOProcID<A>, isInput: bool, usage: seq<bool>, k: nat)
    requires s.Inv() && Means(s.procs, id, k)
    ensures var t := s.SetUsage(id, isInput, usage);
      var n := if isInput then s.inputs else s.outputs;
      var u := if |usage| < n then usage else usage[..n];
      && OnlyEntry(s, t, k)
      && t.procs[k].(outputBuffers := []) ==
         (if isInput then s.procs[k].(inputUsage := u, outputBuffers := [])
          else s.procs[k].(outputUsage := u, outputBuffers := []))
      && t.numberEnabled == s.numberEnabled && t.nullStarts == s.nullStarts
      && (s.procs[k].enabled ==> Runs(t, k) && SharesInputs(t))
  {
    FindMeans(s.procs, id, k);
    SetUsageKeeps(s, k, isInput, usage);
    var t := s.SetUsageAt(k, isInput, usage);
    UsageSettings(s, k, isInput, usage);
    if s.procs[k].enabled {
      InvRuns(t, k);
      InvShares(t);
    }
  }

  lemma UsageSettings<A>(s: ListState<A>, k: nat, isInput: bool, usage: seq<bool>)
    requires s.Inv() && k < |s.procs|
    ensures var t := s.SetUsageAt(k, isInput, usage);
      var n := if isInput then s.inputs else s.outputs;
      var u := if |usage| < n then usage else usage[..n];
      && OnlyEntry(s, t, k)
      && t.procs[k].(outputBuffers := []) ==
         (if isInput then s.procs[k].(inputUsage := u, outputBuffers := [])
          else s.procs[k].(outputUsage := u, outputBuffers := []))
      && t.numberEnabled == s.numberEnabled && t.nullStarts == s.nullStarts
      && (s.procs[k].enabled ==> t.procs[k].enabled && t.shared.Some?)
  {
    assert usage[..|usage|] == usage;
  }

  /** A stopped entry just registered. */
  predicate NewEntry<A(==)>(p: Proc<A>, self: A, func: nat, clientData: int, relevant: bool) {
    && p.self == self && p.func == func && p.clientData == clientData && p.clientDataIsRelevant == relevant
    && !p.enabled && p.inputUsage == [] && p.outputUsage == [] && p.outputBuffers == []
  }

  /** Registration adds a stopped entry with the function and client data given at the end, unless
      an entry has the function already and both leave client data out or agree on it. */
  lemma RegisterAdds<A>(d: DeviceState<A>, self: A, func: nat, clientData: int, relevant: bool)
    ensures var known := exists k :: 0 <= k < |d.list.procs| && d.list.procs[k].func == func
                           && (d.list.procs[k].clientDataIsRelevant && relevant ==>
                                 d.list.procs[k].clientData == clientData);
      var e := d.Register(self, func, clientData, relevant);
      && (known <==> HasIOProc(d.list.procs, func, clientData, relevant))
      && (known ==> e == d)
      && (!known ==>
            && |e.list.procs| == |d.list.procs| + 1
            && e.list.procs[..|d.list.procs|] == d.list.procs
            && NewEntry(e.list.procs[|d.list.procs|], self, func, clientData, relevant)
            && e == d.(list := d.list.(procs := e.list.procs)))
  {
    if HasIOProc(d.list.procs, func, clientData, relevant) {
      var k :| 0 <= k < |d.list.procs| && SameProc(d.list.procs[k], func, clientData, relevant);
      assert d.list.procs[k].func == func;
    }
    if k :| 0 <= k < |d.list.procs| && d.list.procs[k].func == func
            && (d.list.procs[k].clientDataIsRelevant && relevant ==> d.list.procs[k].clientData == clientData)
    {
      assert SameProc(d.list.procs[k], func, clientData, relevant);
    }
  }

  /** The ID handed out is the entry's own address if its client data counts, and its function's
      otherwise. */
  lemma IDIsAddressOrFunction<A>(p: Proc<A>)
    ensures p.clientDataIsRelevant ==> p.ID() == EntryID(p.self)
    ensures !p.clientDataIsRelevant ==> p.ID() == FunctionID(p.func)
  {}

  // ---------- the engine ----------

  /** A start that enables an entry, or a NULL start at once, leaves the engine running. */
  lemma StartRunsEngine<A>(d: DeviceState<A>, id: IOProcID<A>, start: StartTime, k: nat)
    requires d.Inv() && Means(d.list.procs, id, k) && !d.list.procs[k].enabled
    ensures d.StartIOProc(id).list == d.list.StartIOProc(id, StartTime(0.0, 0)) && d.StartIOProc(id).running
    ensures d.StartIOProcAtTime(id, start).list == d.list.StartIOProc(id, start)
    ensures d.StartIOProcAtTime(id, start).running
  {
    FindMeans(d.list.procs, id, k);
    StartKeepsEngine(d, id, start);
    StartStarts(d.list, id, start, k);
    StartStarts(d.list, id, ZERO_START, k);
    Totals(d.list, id, start);
    Totals(d.list, id, ZERO_START);
  }

  lemma NullStartRunsEngine<A>(d: DeviceState<A>)
    requires d.Inv()
    ensures d.StartIOProc(NullID).list == d.list.(nullStarts := d.list.nullStarts + 1) && d.StartIOProc(NullID).running
  {
    StartKeepsEngine(d, NullID, ZERO_START);
  }

  /** After a stop the engine runs exactly if something still is enabled. */
  lemma StopLeavesEngine<A>(d: DeviceState<A>, id: IOProcID<A>)
    requires d.Inv()
    ensures var e := d.StopIOProc(id);
      e.list == d.list.StopIOProc(id) && (e.running <==> e.list.numberEnabled + e.list.nullStarts > 0)
  {
    StopKeepsEngine(d, id);
  }

  /** Removing an entry from a device takes it out, enabled or not, leaves the others in order and
      just as before, and leaves the engine running exactly if something still is enabled. */
  lemma DeviceRemoveRemoves<A>(d: DeviceState<A>, id: IOProcID<A>, k: nat)
    requires d.Inv() && Means(d.list.procs, id, k)
    ensures var e := d.RemoveIOProc(id); var procs := d.list.procs;
      && |e.list.procs| == |procs| - 1
      && (forall j | 0 <= j < k :: e.list.procs[j] == procs[j])
      && (forall j | k < j < |procs| :: e.list.procs[j - 1] == procs[j])
      && e.list.numberEnabled == d.list.numberEnabled - (if procs[k].enabled then 1 else 0)
      && e.list.nullStarts == d.list.nullStarts
      && (e.running <==> e.list.numberEnabled + e.list.nullStarts > 0)
  {
    StopKeepsEngine(d, id);
    var t := d.list.StopIOProc(id);
    if d.list.procs[k].enabled {
      StopStops(d.list, id, k);
      assert t.procs[k].self == d.list.procs[k].self && t.procs[k].func == d.list.procs[k].func;
    } else {
      OtherStops(d.list, id);
    }
    assert Means(t.procs, id, k);
    RemoveRemoves(t, id, k);
  }

  /** A change of usage leaves the engine alone. */
  lemma UsageLeavesEngine<A>(d: DeviceState<A>, id: IOProcID<A>, isInput: bool, usage: seq<bool>)
    ensures DeviceNext(d, DeviceOp.SetUsage(id, isInput, usage)) == d.(list := d.list.SetUsage(id, isInput, usage))
  {}

  /** Stopping all stops the engine. */
  lemma StopAllStopsEngine<A>(d: DeviceState<A>)
    requires d.Inv()
    ensures var e := d.StopAllIOProcs();
      && !e.running && e.list.numberEnabled == 0 && e.list.nullStarts == 0 && |e.list.procs| == |d.list.procs|
      && forall j | 0 <= j < |d.list.procs| ::
           e.list.procs[j] == d.list.procs[j].(enabled := false, outputBuffers := [])
  {
    if IsAnythingEnabled(d.list) {
      StopAllStops(d.list);
    } else {
      forall j | 0 <= j < |d.list.procs|
        ensures d.list.procs[j] == d.list.procs[j].(enabled := false, outputBuffers := [])
      {
        CountOfEntry(d.list.procs, j);
        assert d.list.BuffersFit(j);
      }
    }
  }
}
