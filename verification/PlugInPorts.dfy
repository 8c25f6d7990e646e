/** Numbering of plug-in instances and the router's maps from port number to port buffer. */
module PlugInPorts {

  const PORTS_PER_INSTANCE := 2

  /** The two static counters of JARInsert and the router's maps; B identifies a port's buffer. */
  datatype World<B> = World(instances: int, count: int, vst: map<int, B>, au: map<int, B>) {
    function Ports(isVst: bool): map<int, B> {
      if isVst then vst else au
    }

    function SetPorts(isVst: bool, ports: map<int, B>): World<B> {
      if isVst then this.(vst := ports) else this.(au := ports)
    }

    /** A new instance takes the next two numbers. */
    function Allocate(isVst: bool, left: B, right: B): World<B> {
      var w := SetPorts(isVst, Ports(isVst)[instances := left][instances + 1 := right]);
      w.(instances := instances + PORTS_PER_INSTANCE, count := count + 1)
    }

    /** The flush of the instance with the given number. While the router has no client the
        flush stops before it releases anything. */
    function Release(isVst: bool, number: int, clientOpen: bool): World<B> {
      if !clientOpen then this
      else
        var w := SetPorts(isVst, Ports(isVst) - {number, number + 1});
        w.(count := count - 1, instances := if count - 1 == 0 then 0 else instances)
    }
  }

  datatype Instance<B> = Instance(number: int, isVst: bool, left: B, right: B) {
    /** Both port numbers of the instance still map to its own buffers. */
    ghost predicate Owns(w: World<B>) {
      var ports := w.Ports(isVst);
      && number in ports && ports[number] == left
      && number + 1 in ports && ports[number + 1] == right
    }
  }

  datatype Event<B> = Created(isVst: bool, left: B, right: B) | Flushed(k: nat, clientOpen: bool)

  /** The world with the instances made and not yet flushed, oldest first. */
  datatype History<B> = History(world: World<B>, live: seq<Instance<B>>) {
    /** An event that names no live instance is no event. */
    function Next(e: Event<B>): History<B> {
      match e
      case Created(isVst, left, right) =>
        History(world.Allocate(isVst, left, right), live + [Instance(world.instances, isVst, left, right)])
      case Flushed(k, clientOpen) =>
        if k >= |live| then this else
        History(world.Release(live[k].isVst, live[k].number, clientOpen), live[..k] + live[k + 1..])
    }

    /** Live instances have pairwise disjoint pairs of numbers, all below the counter, and each
        owns its two map entries. */
    ghost predicate Inv() {
      && |live| <= world.count
      && (forall k | 0 <= k < |live| :: 0 <= live[k].number <= world.instances - 2 && live[k].Owns(world))
      && (forall k, l | 0 <= k < l < |live| :: live[k].number + 2 <= live[l].number)
      && 0 <= world.instances
    }
  }

  function Start<B>(): History<B> {
    History(World(0, 0, map[], map[]), [])
  }

  function After<B>(events: seq<Event<B>>): History<B> {
    if events == [] then Start() else After(events[..|events| - 1]).Next(events[|events| - 1])
  }

  lemma CreateKeeps<B>(h: History<B>, isVst: bool, left: B, right: B)
    requires h.Inv()
    ensures h.Next(Created(isVst, left, right)).Inv()
  {}

  lemma FlushKeeps<B>(h: History<B>, k: nat, clientOpen: bool)
    requires h.Inv() && k < |h.live|
    ensures h.Next(Flushed(k, clientOpen)).Inv()
  {
    var h' := h.Next(Flushed(k, clientOpen));
    forall i | 0 <= i < |h'.live|
      ensures 0 <= h'.live[i].number <= h'.world.instances - 2 && h'.live[i].Owns(h'.world)
    {
      var i0 := if i < k then i else i + 1;
      assert h'.live[i] == h.live[i0] && h.live[i0].Owns(h.world);
      if i < k {
        assert h.live[i0].number + 2 <= h.live[k].number;
      } else {
        assert h.live[k].number + 2 <= h.live[i0].number;
      }
    }
  }

  lemma NextKeeps<B>(h: History<B>, e: Event<B>)
    requires h.Inv()
    ensures h.Next(e).Inv()
  {
    match e
    case Created(isVst, left, right) => CreateKeeps(h, isVst, left, right);
    case Flushed(k, clientOpen) =>
      if k < |h.live| {
        FlushKeeps(h, k, clientOpen);
      }
  }

  /** After any history of creations and flushes, live instances own disjoint port numbers, so
      the flush of any of them finds its own two entries and no one else's. */
  lemma {:induction false} PortsStayDisjoint<B>(events: seq<Event<B>>)
    ensures After(events).Inv()
  {
    if events != [] {
      var n := |events| - 1;
      PortsStayDisjoint(events[..n]);
      NextKeeps(After(events[..n]), events[n]);
    }
  }

  /** Flushing one live instance removes its entries and leaves every other instance's in place. */
  lemma FlushReleasesOwn<B>(events: seq<Event<B>>, k: nat, other: nat)
    requires k < |After(events).live| && other < |After(events).live| && k != other
    ensures var h := After(events); var mine, yours := h.live[k], h.live[other];
      var w := h.world.Release(mine.isVst, mine.number, true);
      && mine.Owns(h.world)
      && {mine.number, mine.number + 1} !! {yours.number, yours.number + 1}
      && yours.Owns(w)
      && mine.number !in w.Ports(mine.isVst) && mine.number + 1 !in w.Ports(mine.isVst)
  {
    PortsStayDisjoint(events);
    var h := After(events);
    if k < other {
      assert h.live[k].number + 2 <= h.live[other].number;
    } else {
      assert h.live[other].number + 2 <= h.live[k].number;
    }
  }

  /** Why no instance may be flushed twice: after one such flush the counters restart under a
      live instance, and a later instance takes over its port numbers. */
  lemma SecondFlushBreaks<B>(a: B, b: B, c: B, d: B, e: B, f: B)
    requires c != e
    ensures var w0 := Start<B>().world.Allocate(true, a, b).Allocate(true, c, d);
      var w := w0.Release(true, 0, true).Release(true, 0, true).Allocate(true, a, b).Allocate(true, e, f);
      Instance(2, true, c, d).Owns(w0) && !Instance(2, true, c, d).Owns(w)
  {
    var w0 := Start<B>().world.Allocate(true, a, b).Allocate(true, c, d);
    var w1 := w0.Release(true, 0, true);
    var w2 := w1.Release(true, 0, true);
    assert w2.instances == 0 && w2.count == 0;
  }

  /** A new instance takes the next two numbers of its own kind and touches no other entry. */
  lemma AllocateTakesNextTwo<B>(w: World<B>, isVst: bool, left: B, right: B)
    ensures var v := w.Allocate(isVst, left, right);
      && v.instances == w.instances + 2 && v.count == w.count + 1
      && (if isVst then v.au == w.au else v.vst == w.vst)
      && var before, after := (if isVst then w.vst else w.au), if isVst then v.vst else v.au;
      && w.instances in after && after[w.instances] == left
      && w.instances + 1 in after && after[w.instances + 1] == right
      && forall k | k != w.instances && k != w.instances + 1 ::
           (k in after <==> k in before) && (k in after ==> after[k] == before[k])
  {}

  /** A release frees exactly its two numbers of its kind; the numbering restarts when the last
      instance goes, and a router without a client releases nothing. */
  lemma ReleaseFreesTwo<B>(w: World<B>, isVst: bool, number: int)
    ensures w.Release(isVst, number, false) == w
    ensures var v := w.Release(isVst, number, true);
      && v.count == w.count - 1 && v.instances == (if w.count == 1 then 0 else w.instances)
      && (if isVst then v.au == w.au else v.vst == w.vst)
      && var before, after := (if isVst then w.vst else w.au), if isVst then v.vst else v.au;
      && number !in after && number + 1 !in after
      && forall k | k != number && k != number + 1 ::
           (k in after <==> k in before) && (k in after ==> after[k] == before[k])
  {}
}
