/** Starting and stopping the IO engine, and the guards on registration, as a value. */
module DeviceStates {
  import opened Options
  import opened IOMemory
  import opened IOProcStates

  predicate IsOnlyOneThingEnabled<A>(s: ListState<A>) {
    (s.numberEnabled == 1 && s.nullStarts == 0) || (s.numberEnabled == 0 && s.nullStarts == 1)
  }

  predicate IsAnythingEnabled<A>(s: ListState<A>) {
    s.numberEnabled > 0 || s.nullStarts > 0
  }

  predicate IsNothingEnabled<A>(s: ListState<A>) {
    s.numberEnabled == 0 && s.nullStarts == 0
  }

  datatype DeviceState<A> = DeviceState(list: ListState<A>, running: bool) {
    ghost function StartIOProc(id: IOProcID<A>): DeviceState<A> {
      var l := list.StartIOProc(id, ZERO_START);
      DeviceState(l, running || IsOnlyOneThingEnabled(l))
    }

    ghost function StartIOProcAtTime(id: IOProcID<A>, start: StartTime): DeviceState<A> {
      var l := list.StartIOProc(id, start);
      DeviceState(l, running || l.numberEnabled == 1)
    }

    ghost function StopIOProc(id: IOProcID<A>): DeviceState<A> {
      var l := list.StopIOProc(id);
      DeviceState(l, running && !IsNothingEnabled(l))
    }

    ghost function RemoveIOProc(id: IOProcID<A>): DeviceState<A> {
      var d := StopIOProc(id);
      d.(list := d.list.RemoveIOProc(id))
    }

    ghost function StopAllIOProcs(): DeviceState<A> {
      if IsAnythingEnabled(list) then DeviceState(list.StopAll(), false) else this
    }

    /** Registration is refused for a function, or function and client data, already known. */
    ghost function Register(self: A, func: nat, clientData: int, relevant: bool): DeviceState<A> {
      if HasIOProc(list.procs, func, clientData, relevant) then this
      else this.(list := list.Add(self, func, clientData, relevant))
    }

    ghost predicate EngineFits() {
      running <==> list.numberEnabled + list.nullStarts > 0
    }

    ghost predicate Inv() {
      list.Inv() && EngineFits() && Distinct(list.procs)
    }
  }

  datatype DeviceOp<A> =
    | Register(self: A, func: nat, clientData: int, relevant: bool)
    | Remove(id: IOProcID<A>)
    | Start(id: IOProcID<A>)
    | StartAtTime(id: IOProcID<A>, start: StartTime)
    | Stop(id: IOProcID<A>)
    | StopAll
    | SetUsage(id: IOProcID<A>, isInput: bool, usage: seq<bool>)

  /** A new entry lies at an address of its own, and a timed start names an entry. */
  ghost predicate Allowed<A>(d: DeviceState<A>, op: DeviceOp<A>) {
    && (op.Register? ==> forall k | 0 <= k < |d.list.procs| :: d.list.procs[k].self != op.self)
    && (op.StartAtTime? ==> !op.id.NullID?)
  }

  ghost function DeviceNext<A>(d: DeviceState<A>, op: DeviceOp<A>): DeviceState<A> {
    match op
    case Register(self, func, clientData, relevant) => d.Register(self, func, clientData, relevant)
    case Remove(id) => d.RemoveIOProc(id)
    case Start(id) => d.StartIOProc(id)
    case StartAtTime(id, start) => d.StartIOProcAtTime(id, start)
    case Stop(id) => d.StopIOProc(id)
    case StopAll => d.StopAllIOProcs()
    case SetUsage(id, isInput, usage) => d.(list := d.list.SetUsage(id, isInput, usage))
  }

  /** Operations not allowed are not performed. */
  ghost function DeviceAfter<A>(inputs: nat, outputs: nat, ops: seq<DeviceOp<A>>): DeviceState<A> {
    if ops == [] then DeviceState(Empty(inputs, outputs), false)
    else
      var d := DeviceAfter(inputs, outputs, ops[..|ops| - 1]);
      var op := ops[|ops| - 1];
      if Allowed(d, op) then DeviceNext(d, op) else d
  }

  // ---------- IDs ----------

  /** Entries have addresses of their own, and two with one function tell their data apart. */
  ghost predicate Distinct<A>(procs: seq<Proc<A>>) {
    forall i, j | 0 <= i < j < |procs| ::
      && procs[i].self != procs[j].self
      && !SameProc(procs[i], procs[j].func, procs[j].clientData, procs[j].clientDataIsRelevant)
  }

  /** The ID handed out for an entry finds that entry and no other. */
  lemma IDResolves<A>(procs: seq<Proc<A>>, k: nat)
    requires Distinct(procs) && k < |procs|
    ensures Find(procs, procs[k].ID()) == Some(k)
    ensures forall j | 0 <= j < |procs| && Matches(procs[j], procs[k].ID()) :: j == k
  {
    forall j | 0 <= j < |procs| && j != k
      ensures !Matches(procs[j], procs[k].ID())
    {
      if j < k {
        assert !SameProc(procs[j], procs[k].func, procs[k].clientData, procs[k].clientDataIsRelevant);
      } else {
        assert !SameProc(procs[k], procs[j].func, procs[j].clientData, procs[j].clientDataIsRelevant);
      }
    }
    assert Matches(procs[k], procs[k].ID());
  }

  /** Same entries, whatever their settings. */
  ghost predicate SameEntries<A>(a: seq<Proc<A>>, b: seq<Proc<A>>) {
    && |a| == |b|
    && forall k | 0 <= k < |a| ::
         && a[k].self == b[k].self && a[k].func == b[k].func
         && a[k].clientData == b[k].clientData && a[k].clientDataIsRelevant == b[k].clientDataIsRelevant
  }

  lemma {:induction false} StopFirstSameEntries<A>(s: ListState<A>, k: nat)
    requires k <= |s.procs|
    ensures SameEntries(s.procs, s.StopFirst(k).procs)
  {
    if k > 0 {
      StopFirstSameEntries(s, k - 1);
    }
  }

  lemma DistinctAfterErase<A>(procs: seq<Proc<A>>, k: nat)
    requires Distinct(procs) && k < |procs|
    ensures Distinct(Erase(procs, k))
  {
    var rest := Erase(procs, k);
    assert forall i | 0 <= i < |rest| :: rest[i] == procs[if i < k then i else i + 1];
  }

  // Starting, stopping and changing usage leave the entries themselves alone.

  lemma StartKeepsEntries<A>(s: ListState<A>, id: IOProcID<A>, start: StartTime)
    ensures SameEntries(s.procs, s.StartIOProc(id, start).procs)
  {}

  lemma StopKeepsEntries<A>(s: ListState<A>, id: IOProcID<A>)
    ensures SameEntries(s.procs, s.StopIOProc(id).procs)
  {}

  lemma UsageKeepsEntries<A>(s: ListState<A>, id: IOProcID<A>, isInput: bool, usage: seq<bool>)
    ensures SameEntries(s.procs, s.SetUsage(id, isInput, usage).procs)
  {}

  lemma DistinctCarries<A>(a: seq<Proc<A>>, b: seq<Proc<A>>)
    requires Distinct(a) && SameEntries(a, b)
    ensures Distinct(b)
  {
    forall i, j | 0 <= i < j < |b|
      ensures b[i].self != b[j].self && !SameProc(b[i], b[j].func, b[j].clientData, b[j].clientDataIsRelevant)
    {
      assert a[i].self != a[j].self && !SameProc(a[i], a[j].func, a[j].clientData, a[j].clientDataIsRelevant);
    }
  }

  lemma RemoveKeepsDistinct<A>(s: ListState<A>, id: IOProcID<A>)
    requires Distinct(s.procs)
    ensures Distinct(s.RemoveIOProc(id).procs)
  {
    var r := Find(s.procs, id);
    if r.Some? {
      var t := s.StopIOProcAt(r.value).procs;
      DistinctCarries(s.procs, t);
      DistinctAfterErase(t, r.value);
    }
  }

  lemma NextKeepsDistinct<A>(d: DeviceState<A>, op: DeviceOp<A>)
    requires Distinct(d.list.procs) && Allowed(d, op)
    ensures Distinct(DeviceNext(d, op).list.procs)
  {
    var s, next := d.list, DeviceNext(d, op).list.procs;
    match op
    case Register(self, func, clientData, relevant) =>
    case Remove(id) =>
      StopKeepsEntries(s, id);
      DistinctCarries(s.procs, s.StopIOProc(id).procs);
      RemoveKeepsDistinct(s.StopIOProc(id), id);
    case Start(id) => StartKeepsEntries(s, id, ZERO_START); DistinctCarries(s.procs, next);
    case StartAtTime(id, start) => StartKeepsEntries(s, id, start); DistinctCarries(s.procs, next);
    case Stop(id) => StopKeepsEntries(s, id); DistinctCarries(s.procs, next);
    case StopAll => StopFirstSameEntries(s, |s.procs|); DistinctCarries(s.procs, next);
    case SetUsage(id, isInput, usage) => UsageKeepsEntries(s, id, isInput, usage); DistinctCarries(s.procs, next);
  }

  // ---------- the engine ----------

  /** Starting adds at most one to what is enabled, and stopping takes at most one away. */
  lemma Totals<A>(s: ListState<A>, id: IOProcID<A>, start: StartTime)
    requires s.Inv()
    ensures var t := s.StartIOProc(id, start);
      var before, after := s.numberEnabled + s.nullStarts, t.numberEnabled + t.nullStarts;
      0 <= t.numberEnabled && before <= after <= before + 1
    ensures !id.NullID? ==> s.StartIOProc(id, start).nullStarts == s.nullStarts
    ensures var t := s.StopIOProc(id);
      0 <= t.numberEnabled && t.numberEnabled + t.nullStarts <= s.numberEnabled + s.nullStarts
  {
    IOProcStates.NextKeeps(s, Op.Start(id, start));
    IOProcStates.NextKeeps(s, Op.Stop(id));
  }

  /** Removing what a stop has just stopped leaves the counters alone. */
  lemma RemoveStopped<A>(s: ListState<A>, id: IOProcID<A>)
    ensures var t := s.StopIOProc(id); var u := t.RemoveIOProc(id);
      u.numberEnabled == t.numberEnabled && u.nullStarts == t.nullStarts
  {
    var t := s.StopIOProc(id);
    if !id.NullID? && Find(s.procs, id).Some? {
      FindAgain(s.procs, t.procs, id);
    }
  }

  lemma {:induction false} FindAgain<A>(a: seq<Proc<A>>, b: seq<Proc<A>>, id: IOProcID<A>)
    requires SameEntries(a, b)
    ensures Find(a, id) == Find(b, id)
  {
    if a != [] {
      FindAgain(a[..|a| - 1], b[..|a| - 1], id);
    }
  }

  lemma StartKeepsEngine<A>(d: DeviceState<A>, id: IOProcID<A>, start: StartTime)
    requires d.list.Inv() && d.EngineFits()
    ensures d.StartIOProc(id).list.Inv() && d.StartIOProc(id).EngineFits()
    ensures !id.NullID? ==> d.StartIOProcAtTime(id, start).list.Inv() && d.StartIOProcAtTime(id, start).EngineFits()
  {
    StartNowKeepsEngine(d, id);
    if !id.NullID? {
      StartLaterKeepsEngine(d, id, start);
    }
  }

  lemma StartNowKeepsEngine<A>(d: DeviceState<A>, id: IOProcID<A>)
    requires d.list.Inv() && d.EngineFits()
    ensures d.StartIOProc(id).list.Inv() && d.StartIOProc(id).EngineFits()
  {
    IOProcStates.NextKeeps(d.list, Op.Start(id, ZERO_START));
    Totals(d.list, id, ZERO_START);
  }

  lemma StartLaterKeepsEngine<A>(d: DeviceState<A>, id: IOProcID<A>, start: StartTime)
    requires d.list.Inv() && d.EngineFits() && !id.NullID?
    ensures d.StartIOProcAtTime(id, start).list.Inv() && d.StartIOProcAtTime(id, start).EngineFits()
  {
    IOProcStates.NextKeeps(d.list, Op.Start(id, start));
    Totals(d.list, id, start);
  }

  lemma StopKeepsEngine<A>(d: DeviceState<A>, id: IOProcID<A>)
    requires d.list.Inv() && d.EngineFits()
    ensures d.StopIOProc(id).list.Inv() && d.StopIOProc(id).EngineFits()
    ensures d.RemoveIOProc(id).list.Inv() && d.RemoveIOProc(id).EngineFits()
  {
    IOProcStates.NextKeeps(d.list, Op.Stop(id));
    IOProcStates.NextKeeps(d.list.StopIOProc(id), Op.Remove(id));
    Totals(d.list, id, ZERO_START);
    RemoveStopped(d.list, id);
  }

  lemma NextKeepsEngine<A>(d: DeviceState<A>, op: DeviceOp<A>)
    requires d.list.Inv() && d.EngineFits() && Allowed(d, op)
    ensures DeviceNext(d, op).list.Inv() && DeviceNext(d, op).EngineFits()
  {
    match op
    case Register(self, func, clientData, relevant) => AddKeeps(d.list, self, func, clientData, relevant);
    case Remove(id) => StopKeepsEngine(d, id);
    case Start(id) => StartKeepsEngine(d, id, ZERO_START);
    case StartAtTime(id, start) => StartKeepsEngine(d, id, start);
    case Stop(id) => StopKeepsEngine(d, id);
    case StopAll => StopAllKeeps(d.list);
    case SetUsage(id, isInput, usage) => UsageKeepsCounters(d.list, id, isInput, usage);
  }

  lemma UsageKeepsCounters<A>(s: ListState<A>, id: IOProcID<A>, isInput: bool, usage: seq<bool>)
    requires s.Inv()
    ensures var t := s.SetUsage(id, isInput, usage);
      t.Inv() && t.numberEnabled == s.numberEnabled && t.nullStarts == s.nullStarts
  {
    IOProcStates.NextKeeps(s, Op.SetUsage(id, isInput, usage));
  }

  lemma DeviceNextKeeps<A>(d: DeviceState<A>, op: DeviceOp<A>)
    requires d.Inv() && Allowed(d, op)
    ensures DeviceNext(d, op).Inv()
  {
    NextKeepsEngine(d, op);
    NextKeepsDistinct(d, op);
  }

  /** After any sequence of operations the engine runs iff something is enabled, the buffers fit,
      and every ID handed out and not removed resolves to exactly the entry it was issued for. */
  lemma {:induction false} EngineAndIDs<A>(inputs: nat, outputs: nat, ops: seq<DeviceOp<A>>)
    ensures var d := DeviceAfter(inputs, outputs, ops);
      && d.Inv()
      && forall k | 0 <= k < |d.list.procs| :: Find(d.list.procs, d.list.procs[k].ID()) == Some(k)
  {
    var d := DeviceAfter(inputs, outputs, ops);
    if ops != [] {
      var n := |ops| - 1;
      EngineAndIDs(inputs, outputs, ops[..n]);
      var before := DeviceAfter(inputs, outputs, ops[..n]);
      if Allowed(before, ops[n]) {
        DeviceNextKeeps(before, ops[n]);
      }
    }
    forall k | 0 <= k < |d.list.procs|
      ensures Find(d.list.procs, d.list.procs[k].ID()) == Some(k)
    {
      IDResolves(d.list.procs, k);
    }
  }

  /** A timed start of no entry at all keeps the engine right exactly if something was already
      enabled: it counts a start but looks only at the number of enabled entries. */
  lemma TimedNullStart<A>(d: DeviceState<A>, start: StartTime)
    requires d.Inv()
    ensures d.StartIOProcAtTime(NullID, start).EngineFits() <==> IsAnythingEnabled(d.list)
    ensures d.StartIOProcAtTime(NullID, start).Inv() <==> IsAnythingEnabled(d.list)
  {
    Totals(d.list, NullID, start);
    IOProcStates.NextKeeps(d.list, Op.Start(NullID, start));
  }

  /** On a fresh device such a start counts as a start and leaves the engine stopped. */
  lemma FirstTimedNullStartFails<A>(inputs: nat, outputs: nat, start: StartTime)
    ensures var d := DeviceAfter<A>(inputs, outputs, []).StartIOProcAtTime(NullID, start);
      d.list.nullStarts == 1 && !d.running && !d.EngineFits()
  {}
}
