/** The public face of the crate: `Sioctl`, which owns the device handle and
    reads the registry, and `Watcher`, the handle of the polling thread that
    `Sioctl::watch` starts. Opening the device, registering the C entry
    points, creating the pipe and spawning the thread are foreign calls;
    their results are parameters here. */
module Sioctl {
  import opened Wrappers
  import opened CTypes
  import opened Registry
  import opened EventBridge

  /** The registry events the burst of `ondesc` calls that registration
      triggers stands for; a null descriptor is skipped. */
  function BurstEvents(burst: seq<DescCall>): (es: seq<Event>)
    ensures |es| <= |burst|
    ensures forall i :: 0 <= i < |es| ==> es[i].Described?
    decreases |burst|
  {
    if burst == [] then [] else DescEvents(burst[0]) + BurstEvents(burst[1..])
  }

  /** How many calls of a burst carry a non-null descriptor. */
  function NonNullCount(burst: seq<DescCall>): nat
    decreases |burst|
  {
    if burst == [] then 0
    else (if burst[0].desc.Some? then 1 else 0) + NonNullCount(burst[1..])
  }

  /** One description event per non-null descriptor, in order: the call at
      index `i` with descriptor `d` and value `v` becomes event number
      `NonNullCount(burst[..i])`, and there are no other events. */
  lemma {:induction false} BurstEventsOrder(burst: seq<DescCall>)
    ensures |BurstEvents(burst)| == NonNullCount(burst)
    ensures forall i :: 0 <= i < |burst| && burst[i].desc.Some? ==>
      var k, d := NonNullCount(burst[..i]), burst[i].desc.value;
      k < |BurstEvents(burst)| &&
      BurstEvents(burst)[k] == Described(Address(d.addr), DescribedControl(d, burst[i].value))
    decreases |burst|
  {
    if burst != [] {
      var es, rest := BurstEvents(burst), BurstEvents(burst[1..]);
      var head := if burst[0].desc.Some? then 1 else 0;
      BurstEventsOrder(burst[1..]);
      assert es == (if head == 1 then [es[0]] else []) + rest;
      assert burst[..0] == [];
      forall i | 1 <= i < |burst| && burst[i].desc.Some?
        ensures NonNullCount(burst[..i]) == head + NonNullCount(burst[1..][..i - 1])
      {
        assert burst[..i][0] == burst[0];
        assert burst[..i][1..] == burst[1..][..i - 1];
      }
    }
  }

  lemma {:induction false} BurstEventsAppend(burst: seq<DescCall>, call: DescCall)
    ensures BurstEvents(burst + [call]) ==
      BurstEvents(burst) + BurstEvents([call])
    decreases |burst|
  {
    if burst == [] {
      assert burst + [call] == [call];
    } else {
      assert (burst + [call])[1..] == burst[1..] + [call];
      BurstEventsAppend(burst[1..], call);
    }
  }

  /** Identity of the polling thread, as `thread::spawn` returns it. */
  datatype JoinHandle = JoinHandle(id: nat)

  /** `struct Sioctl`. Once `watch` has run, the device handle belongs to the
      polling thread and the facade can no longer be used. */
  class Sioctl {
    const shared: Shared
    var watched: bool

    /** `Sioctl::new`: creates an empty registry and registers the entry
        points; the library then describes every control synchronously,
        which `burst` lists. */
    constructor New(burst: seq<DescCall>)
      ensures fresh(shared) && !watched
      ensures shared.State() == Replay(Empty, BurstEvents(burst))
    {
      watched := false;
      shared := new Shared();
      new;
      for j := 0 to |burst|
        invariant fresh(shared) && !watched
        invariant shared.State() == Replay(Empty, BurstEvents(burst[..j]))
      {
        OnDesc(shared, burst[j].desc, burst[j].value);
        assert burst[..j + 1] == burst[..j] + [burst[j]];
        BurstEventsAppend(burst[..j], burst[j]);
        assert [burst[j]][1..] == [];
        ReplayAppend(Empty, BurstEvents(burst[..j]), BurstEvents([burst[j]]));
      }
      assert burst[..|burst|] == burst;
    }

    /** `Sioctl::controls`: a copy of every control in the table, in the
        table's (unspecified) order. `order` lists the address of each
        element and is a permutation of the table's addresses. */
    method Controls() returns (r: seq<Control>, ghost order: seq<Address>)
      requires !watched
      ensures |r| == |shared.controls| && |order| == |r|
      ensures forall i :: 0 <= i < |order| ==> order[i] in shared.controls && r[i] == shared.controls[order[i]]
      ensures forall i, j :: 0 <= i < j < |order| ==> order[i] != order[j]
      ensures forall a :: a in shared.controls <==> a in order
      ensures forall c :: c in r <==> c in shared.controls.Values
    {
      var m := shared.controls;
      var rest := m.Keys;
      r, order := [], [];
      while rest != {}
        invariant rest <= m.Keys
        invariant |order| == |r| && |order| + |rest| == |m.Keys|
        invariant forall i :: 0 <= i < |order| ==> order[i] in m && order[i] !in rest && r[i] == m[order[i]]
        invariant forall i, j :: 0 <= i < j < |order| ==> order[i] != order[j]
        invariant forall a :: a in m ==> a in rest || a in order
        decreases |rest|
      {
        var a :| a in rest;
        r, order := r + [m[a]], order + [a];
        rest := rest - {a};
      }
      assert |m| == |m.Keys|;
      forall c | c in m.Values ensures c in r {
        var a :| a in m && m[a] == c;
        var i :| 0 <= i < |order| && order[i] == a;
        assert r[i] == c;
      }
    }

    /** `Sioctl::watch`: installs `callback` in place of any earlier one,
        hands the device to the polling thread and returns its `Watcher`.
        `closeTx` is the write end of the new pipe and `thread` the spawned
        thread. */
    method Watch(callback: Callback, closeTx: int, thread: JoinHandle) returns (w: Watcher)
      requires !watched
      modifies this, shared
      ensures watched
      ensures shared.State() == old(shared.State()).(callback := Some(callback))
      ensures fresh(w) && w.Valid() && w.shared == shared && w.closeTx == closeTx
      ensures w.threadHandle == Some(thread) && w.shutdowns == 0
    {
      shared.callback := Some(callback);
      watched := true;
      w := new Watcher(shared, closeTx, thread);
    }
  }

  /** `struct Watcher`: keeps the registry alive and owns the polling
      thread's handle. `shutdowns` counts how often the shutdown sequence
      (close the pipe's write end, join the thread) has run. */
  class Watcher {
    const shared: Shared
    const closeTx: int
    var threadHandle: Option<JoinHandle>
    ghost var pipeClosed: bool
    ghost var threadJoined: bool
    ghost var shutdowns: nat

    /** The handle is present exactly until the one shutdown has run. */
    ghost predicate Valid()
      reads this
    {
      && (threadHandle.Some? <==> shutdowns == 0)
      && shutdowns <= 1
      && pipeClosed == (shutdowns == 1)
      && threadJoined == (shutdowns == 1)
    }

    constructor (shared: Shared, closeTx: int, thread: JoinHandle)
      ensures Valid() && this.shared == shared && this.closeTx == closeTx
      ensures threadHandle == Some(thread) && shutdowns == 0
    {
      this.shared := shared;
      this.closeTx := closeTx;
      threadHandle := Some(thread);
      pipeClosed, threadJoined := false, false;
      shutdowns := 0;
    }

    /** `Watcher::join`: takes the handle out; only if there was one does it
        close the pipe and join the thread. */
    method Join()
      requires Valid()
      modifies this
      ensures Valid() && threadHandle.None? && pipeClosed && threadJoined
      ensures shutdowns == 1
      ensures shutdowns == old(shutdowns) + (if old(threadHandle).Some? then 1 else 0)
    {
      var taken := threadHandle;
      threadHandle := None;
      if taken.Some? {
        pipeClosed := true;
        threadJoined := true;
        shutdowns := shutdowns + 1;
      }
    }

    /** `Drop for Watcher`: joins, so the shutdown has run exactly once once
        the watcher is gone, whether or not `join` was called before. */
    method Drop()
      requires Valid()
      modifies this
      ensures Valid() && shutdowns == 1 && threadJoined
      ensures old(threadHandle).None? ==> shutdowns == old(shutdowns)
    {
      Join();
    }
  }
}
