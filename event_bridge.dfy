/** The two C entry points the sndio library calls, `onval` and `ondesc`:
    they decode their raw arguments and hand them to the registry that was
    registered as the context pointer. */
module EventBridge {
  import opened Wrappers
  import opened CTypes
  import opened Registry

  /** The arguments of one `onval` call: a control address and a raw value. */
  datatype RawValue = RawValue(addr: CUint, value: CUint)

  /** The fields of a `sioctl_desc` that `ondesc` reads. The strings are
      already decoded from their NUL-terminated buffers. */
  datatype SioctlDesc = SioctlDesc(addr: CUint, group: string, node0Name: string, func: string)

  /** The registry event an `onval` call stands for. */
  function ValueEvent(v: RawValue): Event {
    ValueChanged(Address(v.addr), AsU8(v.value))
  }

  /** The control an `ondesc` call builds: the name comes from `node0`, and
      the initial value is truncated to a byte. */
  function DescribedControl(desc: SioctlDesc, value: CInt): (c: Control)
    ensures c.group == desc.group && c.name == desc.node0Name && c.func == desc.func
    ensures (c.value - value) % 0x100 == 0
  {
    Control(desc.group, desc.node0Name, desc.func, AsU8(value))
  }

  /** One `ondesc` call: the descriptor (possibly null) and its initial
      value. */
  datatype DescCall = DescCall(desc: Option<SioctlDesc>, value: CInt)

  /** One call the library makes into an entry point: `onval`, or `ondesc`
      when a control is described, added or removed. */
  datatype LibCall = OnValCall(raw: RawValue) | OnDescCall(call: DescCall)

  /** The registry events one `ondesc` call stands for: none for a null
      descriptor, otherwise one description event. */
  function DescEvents(c: DescCall): seq<Event> {
    match c.desc
    case None => []
    case Some(d) => [Described(Address(d.addr), DescribedControl(d, c.value))]
  }

  /** The registry events one entry-point call stands for. */
  function CallEvents(c: LibCall): seq<Event> {
    match c
    case OnValCall(v) => [ValueEvent(v)]
    case OnDescCall(d) => DescEvents(d)
  }

  /** The registry events a sequence of entry-point calls stands for, in
      order. */
  function LibEvents(calls: seq<LibCall>): (es: seq<Event>)
    ensures |es| <= |calls|
    decreases |calls|
  {
    if calls == [] then [] else CallEvents(calls[0]) + LibEvents(calls[1..])
  }

  /** A run of `onval` calls gives one value event per call, for
      `Address(addr)` and with the value truncated modulo 256. */
  lemma {:induction false} LibEventsOfValues(calls: seq<LibCall>)
    requires forall i :: 0 <= i < |calls| ==> calls[i].OnValCall?
    ensures |LibEvents(calls)| == |calls|
    ensures forall i :: 0 <= i < |calls| ==>
      var e := LibEvents(calls)[i];
      e.ValueChanged? && e.address.raw == calls[i].raw.addr && (e.value - calls[i].raw.value) % 0x100 == 0
    decreases |calls|
  {
    if calls != [] {
      LibEventsOfValues(calls[1..]);
      assert LibEvents(calls) == [ValueEvent(calls[0].raw)] + LibEvents(calls[1..]);
    }
  }

  /** How many registry events a sequence of calls stands for. */
  function EventCount(calls: seq<LibCall>): nat
    decreases |calls|
  {
    if calls == [] then 0 else |CallEvents(calls[0])| + EventCount(calls[1..])
  }

  /** The events come in the order of the calls: a call that stands for an
      event contributes it at index `EventCount(calls[..i])`, and there are
      no other events. */
  lemma {:induction false} LibEventsOrder(calls: seq<LibCall>)
    ensures |LibEvents(calls)| == EventCount(calls)
    ensures forall i :: 0 <= i < |calls| && CallEvents(calls[i]) != [] ==>
      EventCount(calls[..i]) < |LibEvents(calls)| &&
      LibEvents(calls)[EventCount(calls[..i])] == CallEvents(calls[i])[0]
    decreases |calls|
  {
    if calls != [] {
      var es, rest := LibEvents(calls), LibEvents(calls[1..]);
      var head := |CallEvents(calls[0])|;
      LibEventsOrder(calls[1..]);
      assert es == CallEvents(calls[0]) + rest;
      assert calls[..0] == [];
      forall i | 1 <= i < |calls| && CallEvents(calls[i]) != []
        ensures EventCount(calls[..i]) == head + EventCount(calls[1..][..i - 1])
      {
        assert calls[..i][0] == calls[0];
        assert calls[..i][1..] == calls[1..][..i - 1];
      }
    }
  }

  lemma {:induction false} LibEventsAppend(calls: seq<LibCall>, c: LibCall)
    ensures LibEvents(calls + [c]) == LibEvents(calls) + CallEvents(c)
    decreases |calls|
  {
    if calls == [] {
      assert calls + [c] == [c];
      assert [c][1..] == [];
    } else {
      assert (calls + [c])[1..] == calls[1..] + [c];
      LibEventsAppend(calls[1..], c);
    }
  }

  /** `onval`: a null context pointer is ignored. */
  method OnVal(context: Shared?, addr: CUint, value: CUint)
    modifies context
    ensures context != null ==>
      context.State() == UpdateValue(old(context.State()), Address(addr), AsU8(value))
  {
    if context != null {
      var address := Address(addr);
      var value := AsU8(value);
      context.OnValue(address, value);
    }
  }

  /** `ondesc`: a null descriptor or a null context pointer is ignored. */
  method OnDesc(context: Shared?, desc: Option<SioctlDesc>, value: CInt)
    modifies context
    ensures context != null && desc.Some? ==>
      context.State() == Describe(old(context.State()), Address(desc.value.addr), DescribedControl(desc.value, value))
    ensures context != null && desc.None? ==> context.State() == old(context.State())
  {
    if desc.Some? {
      if context != null {
        var address := Address(desc.value.addr);
        var control := Control(desc.value.group, desc.value.node0Name, desc.value.func, AsU8(value));
        context.OnParameter(address, control);
      }
    }
  }
}
