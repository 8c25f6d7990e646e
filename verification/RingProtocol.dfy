/** The ring shared by one writing and one reading thread, as a state machine whose steps are
    single index loads, single byte copies and single index stores. */
module RingProtocol {
  import opened Bits
  import opened RingIndex
  import opened RingBuffers

  /** A thread inside RingBuffer_Write: `data` is what fits, `done` the bytes copied so far. */
  datatype Writer = WriterIdle | Writing(data: seq<byte>, done: set<nat>)

  /** A thread inside RingBuffer_Read of `len` bytes, with the bytes copied so far. */
  datatype Reader = ReaderIdle | Reading(len: nat, got: map<nat, byte>)

  /** The shared record, both threads, and the history: all bytes published by the writer and
      all bytes returned by the reader. */
  datatype State = State(
    size: nat,
    buffer: seq<byte>,
    writeIndex: int,
    readIndex: int,
    writer: Writer,
    reader: Reader,
    written: seq<byte>,
    consumed: seq<byte>)

  datatype Step =
    | WriterLoad(data: seq<byte>)
    | WriterCopy(j: nat)
    | WriterStore
    | ReaderLoad(numBytes: nat)
    | ReaderCopy(j: nat)
    | ReaderStore

  ghost predicate Initial(s: State) {
    && IsPow2(s.size) && |s.buffer| == s.size
    && s.writeIndex == s.readIndex == 0
    && s.writer == WriterIdle && s.reader == ReaderIdle
    && s.written == s.consumed == []
  }

  /** Where the j-th byte of the writer's transfer goes. */
  function WriteSlot(s: State, j: nat): int {
    Slot(s.writeIndex, s.size - 1, s.size, j)
  }

  function ReadSlot(s: State, j: nat): int {
    Slot(s.readIndex, s.size - 1, s.size, j)
  }

  function BytesToWrite(s: State, data: seq<byte>): int {
    Min(|data|, WriteAvailable(s.size, s.writeIndex, s.readIndex, 2 * s.size - 1))
  }

  function BytesToRead(s: State, numBytes: nat): int {
    Min(numBytes, ReadAvailable(s.writeIndex, s.readIndex, 2 * s.size - 1))
  }

  ghost predicate Enabled(s: State, step: Step) {
    match step
    case WriterLoad(data) => s.writer.WriterIdle?
    case WriterCopy(j) => s.writer.Writing? && j < |s.writer.data| && j !in s.writer.done
    case WriterStore => s.writer.Writing? && forall j: nat | j < |s.writer.data| :: j in s.writer.done
    case ReaderLoad(numBytes) => s.reader.ReaderIdle?
    case ReaderCopy(j) => s.reader.Reading? && j < s.reader.len && j !in s.reader.got
    case ReaderStore => s.reader.Reading? && forall j: nat | j < s.reader.len :: j in s.reader.got
  }

  /** No step of a consistent state reaches outside the storage or asks for a negative count. */
  ghost predicate Safe(s: State, step: Step) {
    match step
    case WriterLoad(data) => 0 <= BytesToWrite(s, data) <= |data|
    case WriterCopy(j) => 0 <= WriteSlot(s, j) < |s.buffer|
    case ReaderLoad(numBytes) => 0 <= BytesToRead(s, numBytes)
    case ReaderCopy(j) => 0 <= ReadSlot(s, j) < |s.buffer|
    case _ => true
  }

  ghost function Apply(s: State, step: Step): State
    requires Enabled(s, step) && Safe(s, step)
  {
    match step
    case WriterLoad(data) =>
      s.(writer := Writing(data[..BytesToWrite(s, data)], {}))
    case WriterCopy(j) =>
      s.(buffer := s.buffer[WriteSlot(s, j) := s.writer.data[j]],
         writer := Writing(s.writer.data, s.writer.done + {j}))
    case WriterStore =>
      s.(writeIndex := Advance(s.writeIndex, |s.writer.data|, 2 * s.size - 1),
         written := s.written + s.writer.data,
         writer := WriterIdle)
    case ReaderLoad(numBytes) =>
      s.(reader := Reading(BytesToRead(s, numBytes), map[]))
    case ReaderCopy(j) =>
      s.(reader := Reading(s.reader.len, s.reader.got[j := s.buffer[ReadSlot(s, j)]]))
    case ReaderStore =>
      var len := s.reader.len;
      s.(readIndex := Advance(s.readIndex, len, 2 * s.size - 1),
         consumed := s.consumed + seq(len, j requires 0 <= j < len && Enabled(s, step) => s.reader.got[j]),
         reader := ReaderIdle)
  }

  /** Address of the byte with position i in the whole stream. */
  function Address(s: State, i: int): int {
    Place(0, i, s.size - 1)
  }

  /** The address holds a published byte that the reader has not released. */
  ghost predicate Unread(s: State, address: int) {
    exists i :: |s.consumed| <= i < |s.written| && Address(s, i) == address
  }

  ghost predicate Inv(s: State) {
    IndicesFit(s) && QueueHeld(s) && WriterHeld(s) && ReaderHeld(s)
  }

  /** The indices are the totals written and read, masked; what was read is what was written. */
  ghost predicate IndicesFit(s: State) {
    var w, r, n := |s.written|, |s.consumed|, s.size;
    && IsPow2(n) && |s.buffer| == n
    && r <= w <= r + n
    && s.writeIndex == And(w, 2 * n - 1)
    && s.readIndex == And(r, 2 * n - 1)
    && s.consumed == s.written[..r]
  }

  ghost predicate QueueHeld(s: State) {
    forall i | |s.consumed| <= i < |s.written| :: Holds(s, i, s.written[i])
  }

  ghost predicate WriterHeld(s: State) {
    s.writer.Writing? ==>
      && |s.written| + |s.writer.data| <= |s.consumed| + s.size
      && forall j | j in s.writer.done :: j < |s.writer.data| && Holds(s, |s.written| + j, s.writer.data[j])
  }

  ghost predicate ReaderHeld(s: State) {
    s.reader.Reading? ==>
      && |s.consumed| + s.reader.len <= |s.written|
      && forall j | j in s.reader.got :: j < s.reader.len && s.reader.got[j] == s.written[|s.consumed| + j]
  }

  ghost predicate Holds(s: State, i: int, b: byte) {
    var address := Address(s, i);
    0 <= address < |s.buffer| && s.buffer[address] == b
  }

  /** The j-th byte moved after `total` bytes of the stream uses the address of byte total + j. */
  lemma SlotOfStream(total: int, j: nat, n: int)
    requires IsPow2(n) && j < n
    ensures Slot(And(total, 2 * n - 1), n - 1, n, j) == Place(0, total + j, n - 1)
    ensures 0 <= Place(0, total + j, n - 1) < n
  {
    SlotIsPlace(And(total, 2 * n - 1), j, n);
    PlaceOfMasked(total, j, n);
    PlaceInRange(total, j, n);
  }

  lemma AvailableInInv(s: State)
    requires Inv(s)
    ensures ReadAvailable(s.writeIndex, s.readIndex, 2 * s.size - 1) == |s.written| - |s.consumed|
    ensures WriteAvailable(s.size, s.writeIndex, s.readIndex, 2 * s.size - 1) == s.size - (|s.written| - |s.consumed|)
  {
    FillOfTotals(|s.written|, |s.consumed|, s.size);
  }

  /** Whatever the other thread has done since the index was loaded, a byte being written never
      lands on a published byte not yet read. */
  lemma WriteNeverHitsUnread(s: State, j: nat)
    requires Inv(s) && Enabled(s, WriterCopy(j))
    ensures !Unread(s, WriteSlot(s, j))
    ensures Safe(s, WriterCopy(j))
  {
    SlotOfStream(|s.written|, j, s.size);
    forall i | |s.consumed| <= i < |s.written|
      ensures Address(s, i) != WriteSlot(s, j)
    {
      PlacesDiffer(0, i, |s.written| + j, s.size);
    }
  }

  /** Copying byte j leaves every other byte of the stream in place. */
  lemma CopyHolds(s: State, j: nat, i: int, b: byte)
    requires Inv(s) && Enabled(s, WriterCopy(j)) && Safe(s, WriterCopy(j))
    requires |s.consumed| <= i < |s.written| + |s.writer.data| && i != |s.written| + j
    requires Holds(s, i, b)
    ensures Holds(Apply(s, WriterCopy(j)), i, b)
  {
    SlotOfStream(|s.written|, j, s.size);
    if i < |s.written| + j {
      PlacesDiffer(0, i, |s.written| + j, s.size);
    } else {
      PlacesDiffer(0, |s.written| + j, i, s.size);
    }
  }

  lemma WriterLoadKeeps(s: State, data: seq<byte>)
    requires Inv(s) && Enabled(s, WriterLoad(data))
    ensures Safe(s, WriterLoad(data)) && Inv(Apply(s, WriterLoad(data)))
  {
    AvailableInInv(s);
    StorageStays(s, Apply(s, WriterLoad(data)));
  }

  lemma ReaderLoadKeeps(s: State, numBytes: nat)
    requires Inv(s) && Enabled(s, ReaderLoad(numBytes))
    ensures Safe(s, ReaderLoad(numBytes)) && Inv(Apply(s, ReaderLoad(numBytes)))
  {
    AvailableInInv(s);
    StorageStays(s, Apply(s, ReaderLoad(numBytes)));
  }

  lemma HoldsThere(s: State, s': State, i: int, b: byte)
    requires s'.buffer == s.buffer && s'.size == s.size
    ensures Holds(s', i, b) <==> Holds(s, i, b)
  {}

  /** Steps that leave the storage alone leave every byte of the stream in place. */
  lemma StorageStays(s: State, s': State)
    requires s'.buffer == s.buffer && s'.size == s.size && s'.written == s.written && |s.consumed| <= |s'.consumed|
    ensures QueueHeld(s) ==> QueueHeld(s')
    ensures s'.writer == s.writer && WriterHeld(s) ==> WriterHeld(s')
  {
    forall i | QueueHeld(s) && |s'.consumed| <= i < |s.written|
      ensures Holds(s', i, s.written[i])
    {
      HoldsThere(s, s', i, s.written[i]);
    }
    forall j | s'.writer == s.writer && s.writer.Writing? && WriterHeld(s) && j in s.writer.done
      ensures Holds(s', |s.written| + j, s.writer.data[j])
    {
      HoldsThere(s, s', |s.written| + j, s.writer.data[j]);
    }
  }

  lemma CopyKeeps(s: State, j: nat)
    requires Inv(s) && Enabled(s, WriterCopy(j))
    ensures Safe(s, WriterCopy(j)) && Inv(Apply(s, WriterCopy(j)))
  {
    WriteNeverHitsUnread(s, j);
    var s' := Apply(s, WriterCopy(j));
    var w := |s.written|;
    forall i | |s.consumed| <= i < w
      ensures Holds(s', i, s.written[i])
    {
      CopyHolds(s, j, i, s.written[i]);
    }
    forall k | k in s'.writer.done
      ensures k < |s.writer.data| && Holds(s', w + k, s.writer.data[k])
    {
      if k == j {
        SlotOfStream(w, j, s.size);
      } else {
        CopyHolds(s, j, w + k, s.writer.data[k]);
      }
    }
  }

  lemma WriterStoreKeeps(s: State)
    requires Inv(s) && Enabled(s, WriterStore)
    ensures Inv(Apply(s, WriterStore))
  {
    WriterStoreIndices(s);
    WriterStoreQueue(s);
    assert ReaderHeld(Apply(s, WriterStore));
  }

  lemma WriterStoreIndices(s: State)
    requires IndicesFit(s) && WriterHeld(s) && Enabled(s, WriterStore)
    ensures IndicesFit(Apply(s, WriterStore))
  {
    AdvanceOfTotal(|s.written|, |s.writer.data|, s.size);
    assert Apply(s, WriterStore).written[..|s.consumed|] == s.written[..|s.consumed|];
  }

  /** The bytes just published are where they were copied to. */
  lemma WriterStoreQueue(s: State)
    requires QueueHeld(s) && WriterHeld(s) && Enabled(s, WriterStore)
    ensures QueueHeld(Apply(s, WriterStore))
  {
    var s' := Apply(s, WriterStore);
    forall i | |s'.consumed| <= i < |s'.written|
      ensures Holds(s', i, s'.written[i])
    {
      HoldsThere(s, s', i, s'.written[i]);
      if i >= |s.written| {
        var j: nat := i - |s.written|;
        assert j in s.writer.done && s'.written[i] == s.writer.data[j];
      }
    }
  }

  lemma ReaderCopyKeeps(s: State, j: nat)
    requires Inv(s) && Enabled(s, ReaderCopy(j))
    ensures Safe(s, ReaderCopy(j)) && Inv(Apply(s, ReaderCopy(j)))
  {
    ReadSlotHolds(s, j);
    StorageStays(s, Apply(s, ReaderCopy(j)));
  }

  lemma ReadSlotHolds(s: State, j: nat)
    requires Inv(s) && Enabled(s, ReaderCopy(j))
    ensures 0 <= ReadSlot(s, j) < |s.buffer| && s.buffer[ReadSlot(s, j)] == s.written[|s.consumed| + j]
  {
    var r := |s.consumed|;
    SlotOfStream(r, j, s.size);
    assert Holds(s, r + j, s.written[r + j]);
  }

  lemma ReaderStoreKeeps(s: State)
    requires Inv(s) && Enabled(s, ReaderStore)
    ensures Inv(Apply(s, ReaderStore))
  {
    var r, len := |s.consumed|, s.reader.len;
    var s' := Apply(s, ReaderStore);
    AdvanceOfTotal(r, len, s.size);
    assert s'.consumed == s.written[..r + len];
    StorageStays(s, s');
  }

  /** Every step of either thread, in any interleaving, is safe and keeps the invariant. */
  lemma StepKeeps(s: State, step: Step)
    requires Inv(s) && Enabled(s, step)
    ensures Safe(s, step) && Inv(Apply(s, step))
  {
    match step
    case WriterLoad(data) => WriterLoadKeeps(s, data);
    case WriterCopy(j) => CopyKeeps(s, j);
    case WriterStore => WriterStoreKeeps(s);
    case ReaderLoad(numBytes) => ReaderLoadKeeps(s, numBytes);
    case ReaderCopy(j) => ReaderCopyKeeps(s, j);
    case ReaderStore => ReaderStoreKeeps(s);
  }

  /** `trace` is a run: it starts in an initial state and each step leads to the next state. */
  ghost predicate IsRun(trace: seq<State>, steps: seq<Step>) {
    && |trace| == |steps| + 1
    && Initial(trace[0])
    && forall k | 0 <= k < |steps| ::
         && Enabled(trace[k], steps[k])
         && (Safe(trace[k], steps[k]) ==> trace[k + 1] == Apply(trace[k], steps[k]))
  }

  lemma {:induction false} RunKeeps(trace: seq<State>, steps: seq<Step>, k: nat)
    requires IsRun(trace, steps) && k <= |steps|
    ensures Inv(trace[k])
  {
    if k > 0 {
      RunKeeps(trace, steps, k - 1);
      StepKeeps(trace[k - 1], steps[k - 1]);
    } else {
      MaskedInRange(0, trace[0].size);
    }
  }

  /** In every interleaving: no step is unsafe, no write touches an unread byte, and the bytes
      read are, in order, a prefix of the bytes written. */
  lemma Linearizes(trace: seq<State>, steps: seq<Step>, k: nat)
    requires IsRun(trace, steps) && k <= |steps|
    ensures trace[k].consumed <= trace[k].written
    ensures |trace[k].written| - |trace[k].consumed| <= trace[k].size
    ensures k < |steps| ==> Safe(trace[k], steps[k])
    ensures k < |steps| && steps[k].WriterCopy? ==> !Unread(trace[k], WriteSlot(trace[k], steps[k].j))
  {
    RunKeeps(trace, steps, k);
    if k < |steps| {
      StepKeeps(trace[k], steps[k]);
      if steps[k].WriterCopy? {
        WriteNeverHitsUnread(trace[k], steps[k].j);
      }
    }
  }

  // ---------- how much a call moves ----------

  /** The writer takes the longest prefix of the data that fits beside what is unread when it
      loads the indices. */
  lemma WriterTakesWhatFits(s: State, data: seq<byte>)
    requires Inv(s) && Enabled(s, WriterLoad(data))
    ensures var room := s.size - (|s.written| - |s.consumed|);
      var k := if |data| <= room then |data| else room;
      0 <= k <= |data| && Safe(s, WriterLoad(data)) &&
      Apply(s, WriterLoad(data)) == s.(writer := Writing(data[..k], {}))
  {
    AvailableInInv(s);
  }

  /** The reader takes as many bytes as it asks for, or all that are unread when it loads. */
  lemma ReaderTakesWhatThereIs(s: State, numBytes: nat)
    requires Inv(s) && Enabled(s, ReaderLoad(numBytes))
    ensures var unread := |s.written| - |s.consumed|;
      var len := if numBytes <= unread then numBytes else unread;
      0 <= len && Safe(s, ReaderLoad(numBytes)) &&
      Apply(s, ReaderLoad(numBytes)) == s.(reader := Reading(len, map[]))
  {
    AvailableInInv(s);
  }

  /** Storing the index publishes exactly the bytes taken. */
  lemma WriterPublishes(s: State)
    requires Enabled(s, WriterStore)
    ensures var s' := Apply(s, WriterStore);
      s'.written == s.written + s.writer.data && s'.writer == WriterIdle
      && s'.consumed == s.consumed && s'.reader == s.reader
  {}

  /** Storing the index returns exactly the next bytes of the stream. */
  lemma ReaderReturns(s: State)
    requires Inv(s) && Enabled(s, ReaderStore)
    ensures var s' := Apply(s, ReaderStore); var r, len := |s.consumed|, s.reader.len;
      r + len <= |s.written| && s'.consumed == s.consumed + s.written[r..r + len] && s'.reader == ReaderIdle
      && s'.written == s.written && s'.writer == s.writer
  {
    var s' := Apply(s, ReaderStore);
    assert |s'.consumed| == |s.consumed| + s.reader.len;
    ReaderStoreKeeps(s);
  }

  /** No step of the other thread, and no byte copy, changes what a writer has taken or what is
      published; and the same for a reader. */
  lemma StepLeavesTransfers(s: State, step: Step)
    requires Enabled(s, step) && Safe(s, step)
    ensures var s' := Apply(s, step);
      && (!step.WriterLoad? && !step.WriterStore? ==>
            s'.written == s.written && s'.writer.Writing? == s.writer.Writing?
            && (s.writer.Writing? ==> s'.writer.data == s.writer.data))
      && (!step.ReaderLoad? && !step.ReaderStore? ==>
            s'.consumed == s.consumed && s'.reader.Reading? == s.reader.Reading?
            && (s.reader.Reading? ==> s'.reader.len == s.reader.len))
      && s'.size == s.size
  {}

  /** Between the load of step i and step k the writer has neither loaded again nor stored. */
  predicate WriterWithin(steps: seq<Step>, i: nat, k: nat) {
    forall j | i < j < k && j < |steps| :: !steps[j].WriterLoad? && !steps[j].WriterStore?
  }

  predicate ReaderWithin(steps: seq<Step>, i: nat, k: nat) {
    forall j | i < j < k && j < |steps| :: !steps[j].ReaderLoad? && !steps[j].ReaderStore?
  }

  lemma {:induction false} WriterHoldsOn(trace: seq<State>, steps: seq<Step>, i: nat, k: nat)
    requires IsRun(trace, steps) && i < k <= |steps| && steps[i].WriterLoad? && WriterWithin(steps, i, k)
    ensures trace[k].written == trace[i].written && trace[k].writer.Writing?
    ensures var room := trace[i].size - (|trace[i].written| - |trace[i].consumed|); var data := steps[i].data;
      room >= 0 && trace[k].writer.data == data[..if |data| <= room then |data| else room]
  {
    RunKeeps(trace, steps, k - 1);
    StepKeeps(trace[k - 1], steps[k - 1]);
    if k == i + 1 {
      WriterTakesWhatFits(trace[i], steps[i].data);
    } else {
      WriterHoldsOn(trace, steps, i, k - 1);
      StepLeavesTransfers(trace[k - 1], steps[k - 1]);
    }
  }

  lemma {:induction false} ReaderHoldsOn(trace: seq<State>, steps: seq<Step>, i: nat, k: nat)
    requires IsRun(trace, steps) && i < k <= |steps| && steps[i].ReaderLoad? && ReaderWithin(steps, i, k)
    ensures trace[k].consumed == trace[i].consumed && trace[k].reader.Reading?
    ensures var unread := |trace[i].written| - |trace[i].consumed|; var n := steps[i].numBytes;
      trace[k].reader.len == if n <= unread then n else unread
  {
    RunKeeps(trace, steps, k - 1);
    StepKeeps(trace[k - 1], steps[k - 1]);
    if k == i + 1 {
      ReaderTakesWhatThereIs(trace[i], steps[i].numBytes);
    } else {
      ReaderHoldsOn(trace, steps, i, k - 1);
      StepLeavesTransfers(trace[k - 1], steps[k - 1]);
    }
  }

  /** In every interleaving, a write that loads in step i and stores in step k appends the longest
      prefix of its data that fitted when it loaded. */
  lemma WriteAppends(trace: seq<State>, steps: seq<Step>, i: nat, k: nat)
    requires IsRun(trace, steps) && i < k < |steps| && steps[i].WriterLoad? && steps[k].WriterStore?
    requires WriterWithin(steps, i, k)
    ensures var room := trace[i].size - (|trace[i].written| - |trace[i].consumed|); var data := steps[i].data;
      room >= 0 &&
      trace[k + 1].written == trace[i].written + data[..if |data| <= room then |data| else room]
  {
    WriterHoldsOn(trace, steps, i, k);
    WriterPublishes(trace[k]);
  }

  /** And a read returns as many bytes as it asks for, or all that were unread when it loaded: the
      next ones of the stream. */
  lemma ReadConsumes(trace: seq<State>, steps: seq<Step>, i: nat, k: nat)
    requires IsRun(trace, steps) && i < k < |steps| && steps[i].ReaderLoad? && steps[k].ReaderStore?
    requires ReaderWithin(steps, i, k)
    ensures var r := |trace[i].consumed|; var unread := |trace[i].written| - r; var n := steps[i].numBytes;
      var len := if n <= unread then n else unread;
      0 <= len && r + len <= |trace[k].written| &&
      trace[k + 1].consumed == trace[i].consumed + trace[k].written[r..r + len]
  {
    ReaderHoldsOn(trace, steps, i, k);
    RunKeeps(trace, steps, k);
    RunKeeps(trace, steps, i);
    ReaderReturns(trace[k]);
  }

  // ---------- every call can be completed ----------

  /** Some steps of one thread lead from one state to another. */
  ghost predicate Leads(s: State, steps: seq<Step>, s': State)
    decreases |steps|
  {
    if steps == [] then s' == s
    else Enabled(s, steps[0]) && Safe(s, steps[0]) && Leads(Apply(s, steps[0]), steps[1..], s')
  }

  function CopyFrom(reading: bool, j: nat, k: nat): (steps: seq<Step>)
    requires j <= k
    decreases k - j
  {
    if j == k then [] else [if reading then ReaderCopy(j) else WriterCopy(j)] + CopyFrom(reading, j + 1, k)
  }

  lemma {:induction false} LeadsOn(a: State, first: seq<Step>, b: State, second: seq<Step>, c: State)
    requires Leads(a, first, b) && Leads(b, second, c)
    ensures Leads(a, first + second, c)
    decreases |first|
  {
    if first == [] {
      assert first + second == second;
    } else {
      LeadsOn(Apply(a, first[0]), first[1..], b, second, c);
      assert (first + second)[1..] == first[1..] + second;
    }
  }

  lemma {:induction false} WriterCopiesAll(s: State, j: nat) returns (s': State)
    requires Inv(s) && s.writer.Writing? && j <= |s.writer.data|
    requires forall i: nat :: i in s.writer.done <==> i < j
    ensures Inv(s') && Leads(s, CopyFrom(false, j, |s.writer.data|), s')
    ensures s'.writer.Writing? && s'.writer.data == s.writer.data && s'.written == s.written
    ensures forall i: nat | i < |s'.writer.data| :: i in s'.writer.done
    decreases |s.writer.data| - j
  {
    if j == |s.writer.data| {
      s' := s;
    } else {
      CopyKeeps(s, j);
      StepLeavesTransfers(s, WriterCopy(j));
      s' := WriterCopiesAll(Apply(s, WriterCopy(j)), j + 1);
    }
  }

  lemma {:induction false} ReaderCopiesAll(s: State, j: nat) returns (s': State)
    requires Inv(s) && s.reader.Reading? && j <= s.reader.len
    requires forall i: nat :: i in s.reader.got <==> i < j
    ensures Inv(s') && Leads(s, CopyFrom(true, j, s.reader.len), s')
    ensures s'.reader.Reading? && s'.reader.len == s.reader.len && s'.consumed == s.consumed && s'.written == s.written
    ensures forall i: nat | i < s'.reader.len :: i in s'.reader.got
    decreases s.reader.len - j
  {
    if j == s.reader.len {
      s' := s;
    } else {
      ReaderCopyKeeps(s, j);
      StepLeavesTransfers(s, ReaderCopy(j));
      s' := ReaderCopiesAll(Apply(s, ReaderCopy(j)), j + 1);
    }
  }

  /** From any consistent state an idle writer can write: load, copy byte by byte, store. */
  lemma WriteCompletes(s: State, data: seq<byte>) returns (steps: seq<Step>, s': State)
    requires Inv(s) && s.writer == WriterIdle
    ensures Leads(s, steps, s') && Inv(s')
    ensures var room := s.size - (|s.written| - |s.consumed|);
      room >= 0 && s'.written == s.written + data[..if |data| <= room then |data| else room]
  {
    WriterTakesWhatFits(s, data);
    StepKeeps(s, WriterLoad(data));
    var a := Apply(s, WriterLoad(data));
    var b := WriterCopiesAll(a, 0);
    StepKeeps(b, WriterStore);
    s' := Apply(b, WriterStore);
    WriterPublishes(b);
    var copies := CopyFrom(false, 0, |a.writer.data|);
    assert Leads(s', [], s');
    assert Leads(b, [WriterStore], s');
    LeadsOn(a, copies, b, [WriterStore], s');
    steps := [WriterLoad(data)] + (copies + [WriterStore]);
    assert steps[1..] == copies + [WriterStore];
  }

  /** And an idle reader can read. */
  lemma ReadCompletes(s: State, numBytes: nat) returns (steps: seq<Step>, s': State)
    requires Inv(s) && s.reader == ReaderIdle
    ensures Leads(s, steps, s') && Inv(s')
    ensures var r := |s.consumed|; var unread := |s.written| - r;
      var len := if numBytes <= unread then numBytes else unread;
      0 <= len && s'.consumed == s.consumed + s.written[r..r + len]
  {
    ReaderTakesWhatThereIs(s, numBytes);
    StepKeeps(s, ReaderLoad(numBytes));
    var a := Apply(s, ReaderLoad(numBytes));
    var b := ReaderCopiesAll(a, 0);
    StepKeeps(b, ReaderStore);
    s' := Apply(b, ReaderStore);
    ReaderReturns(b);
    var copies := CopyFrom(true, 0, a.reader.len);
    assert Leads(s', [], s');
    assert Leads(b, [ReaderStore], s');
    LeadsOn(a, copies, b, [ReaderStore], s');
    steps := [ReaderLoad(numBytes)] + (copies + [ReaderStore]);
    assert steps[1..] == copies + [ReaderStore];
  }
}
