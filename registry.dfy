/** The control registry shared between the facade, the C callbacks and the
    polling thread (`Shared` guarding `Inner` in src/lib.rs). Each locked
    section is one atomic step here. The user callback is not modelled; each
    call of it is recorded in a ghost log instead. */
module Registry {
  import opened Wrappers
  import opened CTypes

  /** Key of a control, assigned by the sndio library (`Address(c_uint)`). */
  datatype Address = Address(raw: CUint)

  /** One sndio control with its current value. */
  datatype Control = Control(group: string, name: string, func: string, value: U8)

  /** Identity of the closure installed by `watch`; its body is user code. */
  datatype Callback = Callback(id: nat)

  /** One invocation of the installed callback, with the control it was given. */
  datatype Call = Call(callback: Callback, control: Control)

  /** The contents of `Inner` together with the callback calls made so far. */
  datatype RegistryState = RegistryState(
    controls: map<Address, Control>,
    callback: Option<Callback>,
    log: seq<Call>)

  /** The registry as `Sioctl::new` creates it. */
  const Empty := RegistryState(map[], None, [])

  /** `on_parameter`: insert the control, or replace the one at that address. */
  function Describe(s: RegistryState, address: Address, control: Control): (r: RegistryState)
    ensures r.controls.Keys == s.controls.Keys + {address}
    ensures r.controls[address] == control
    ensures forall a :: a in s.controls && a != address ==> r.controls[a] == s.controls[a]
    ensures r.callback == s.callback && r.log == s.log
  {
    s.(controls := s.controls[address := control])
  }

  /** `on_value`: replace only the value of a known control and, still under
      the lock, call the installed callback once with the updated control.
      An unknown address changes nothing and calls nothing. */
  function UpdateValue(s: RegistryState, address: Address, value: U8): (r: RegistryState)
    ensures address !in s.controls ==> r == s
    ensures r.controls.Keys == s.controls.Keys && r.callback == s.callback
    ensures address in s.controls ==>
      var old_ := s.controls[address];
      r.controls[address] == Control(old_.group, old_.name, old_.func, value)
    ensures forall a :: a in s.controls && a != address ==> r.controls[a] == s.controls[a]
    ensures |r.log| == |s.log| + (if address in s.controls && s.callback.Some? then 1 else 0)
    ensures r.log[..|s.log|] == s.log
    ensures address in s.controls && s.callback.Some? ==>
      r.log[|s.log|] == Call(s.callback.value, r.controls[address])
  {
    var controls :=
      if address in s.controls then s.controls[address := s.controls[address].(value := value)]
      else s.controls;
    var log :=
      if address in controls && s.callback.Some? then s.log + [Call(s.callback.value, controls[address])]
      else s.log;
    s.(controls := controls, log := log)
  }

  /** What the sndio library reports through the two C entry points, after
      conversion: a description or a value change. */
  datatype Event =
    | Described(address: Address, control: Control)
    | ValueChanged(address: Address, value: U8)
  {
    /** The value this event gives its control. */
    function NewValue(): U8 {
      match this
      case Described(_, c) => c.value
      case ValueChanged(_, v) => v
    }
  }

  function Apply(s: RegistryState, e: Event): RegistryState {
    match e
    case Described(a, c) => Describe(s, a, c)
    case ValueChanged(a, v) => UpdateValue(s, a, v)
  }

  /** The registry after a sequence of events, handled one lock at a time. */
  function Replay(s: RegistryState, es: seq<Event>): RegistryState
    decreases |es|
  {
    if es == [] then s else Replay(Apply(s, es[0]), es[1..])
  }

  /** Addresses that some description event in `es` names. */
  function DescribedAddresses(es: seq<Event>): set<Address> {
    set i | 0 <= i < |es| && es[i].Described? :: es[i].address
  }

  /** Every value event names an address that is already known when it
      arrives: one of `keys`, or one described by an earlier event. */
  ghost predicate DescribedBeforeUpdated(keys: set<Address>, es: seq<Event>) {
    forall i :: 0 <= i < |es| && es[i].ValueChanged? ==>
      es[i].address in keys + DescribedAddresses(es[..i])
  }

  /** The value the last event about `a` in `es` carries, or `initial` when
      no event is about `a`; defined from the end of the sequence. */
  function LatestValue(es: seq<Event>, a: Address, initial: U8): U8
    decreases |es|
  {
    if es == [] then initial
    else if es[|es| - 1].address == a then es[|es| - 1].NewValue()
    else LatestValue(es[..|es| - 1], a, initial)
  }

  /** Handling two batches of events is handling them one after the other. */
  lemma {:induction false} ReplayAppend(s: RegistryState, xs: seq<Event>, ys: seq<Event>)
    ensures Replay(s, xs + ys) == Replay(Replay(s, xs), ys)
    decreases |xs|
  {
    if xs == [] {
      assert xs + ys == ys;
    } else {
      assert (xs + ys)[1..] == xs[1..] + ys;
      ReplayAppend(Apply(s, xs[0]), xs[1..], ys);
    }
  }

  /** The described addresses of a sequence: its first event's, if that is a
      description, and the rest's. */
  lemma DescribedAddressesCons(es: seq<Event>)
    requires es != []
    ensures DescribedAddresses(es) ==
      (if es[0].Described? then {es[0].address} else {}) + DescribedAddresses(es[1..])
  {
    var tail := DescribedAddresses(es[1..]);
    forall a | a in DescribedAddresses(es)
      ensures a in (if es[0].Described? then {es[0].address} else {}) + tail
    {
      var i :| 0 <= i < |es| && es[i].Described? && es[i].address == a;
      if i > 0 { assert es[1..][i - 1] == es[i]; }
    }
    forall a | a in tail ensures a in DescribedAddresses(es) {
      var i :| 0 <= i < |es[1..]| && es[1..][i].Described? && es[1..][i].address == a;
      assert es[i + 1] == es[1..][i];
    }
  }

  /** The registry's keys are the initial keys plus every described address;
      the installed callback never changes. */
  lemma {:induction false} ReplayKeys(s: RegistryState, es: seq<Event>)
    ensures Replay(s, es).controls.Keys == s.controls.Keys + DescribedAddresses(es)
    ensures Replay(s, es).callback == s.callback
    decreases |es|
  {
    if es != [] {
      ReplayKeys(Apply(s, es[0]), es[1..]);
      DescribedAddressesCons(es);
    }
  }

  /** What the hypotheses of `ReplayLatestValue` say about all events but
      the last. */
  lemma DescribedBeforeUpdatedPrefix(keys: set<Address>, es: seq<Event>)
    requires es != [] && DescribedBeforeUpdated(keys, es)
    ensures var init, last := es[..|es| - 1], es[|es| - 1];
      && DescribedBeforeUpdated(keys, init)
      && (last.ValueChanged? ==> last.address in keys + DescribedAddresses(init))
      && forall a :: a in DescribedAddresses(es) && a != last.address ==> a in DescribedAddresses(init)
  {
    var init, last := es[..|es| - 1], es[|es| - 1];
    forall i | 0 <= i < |init| && init[i].ValueChanged?
      ensures init[i].address in keys + DescribedAddresses(init[..i])
    {
      assert es[i] == init[i] && es[..i] == init[..i];
    }
    forall a | a in DescribedAddresses(es) && a != last.address
      ensures a in DescribedAddresses(init)
    {
      var i :| 0 <= i < |es| && es[i].Described? && es[i].address == a;
      assert i < |init| && init[i] == es[i];
    }
  }

  /** Describe-then-update: when every value event names a known control,
      each control's value after the events is the value carried by the last
      event about it. */
  lemma {:induction false} ReplayLatestValue(s: RegistryState, es: seq<Event>, a: Address, initial: U8)
    requires DescribedBeforeUpdated(s.controls.Keys, es)
    requires a in s.controls.Keys + DescribedAddresses(es)
    requires a in s.controls ==> s.controls[a].value == initial
    ensures a in Replay(s, es).controls
    ensures Replay(s, es).controls[a].value == LatestValue(es, a, initial)
    decreases |es|
  {
    ReplayKeys(s, es);
    if es != [] {
      var init, last := es[..|es| - 1], es[|es| - 1];
      assert es == init + [last];
      ReplayAppend(s, init, [last]);
      ReplayKeys(s, init);
      DescribedBeforeUpdatedPrefix(s.controls.Keys, es);
      if last.address != a {
        ReplayLatestValue(s, init, a, initial);
      }
    }
  }

  /** With a callback installed, value events for known controls call it
      once each, in order, every time with the fully updated control. */
  lemma {:induction false} ReplayCallsPerUpdate(s: RegistryState, es: seq<Event>)
    requires s.callback.Some?
    requires forall i :: 0 <= i < |es| ==> es[i].ValueChanged? && es[i].address in s.controls
    ensures |Replay(s, es).log| == |s.log| + |es|
    ensures Replay(s, es).log[..|s.log|] == s.log
    ensures forall i :: 0 <= i < |es| ==>
      var c := s.controls[es[i].address];
      Replay(s, es).log[|s.log| + i] == Call(s.callback.value, Control(c.group, c.name, c.func, es[i].value))
    decreases |es|
  {
    if es != [] {
      var s1 := Apply(s, es[0]);
      assert forall i :: 0 <= i < |es[1..]| ==> es[1..][i] == es[i + 1];
      ReplayCallsPerUpdate(s1, es[1..]);
      var r := Replay(s, es);
      assert r == Replay(s1, es[1..]);
      forall i | 0 <= i < |es|
        ensures var c := s.controls[es[i].address];
          r.log[|s.log| + i] == Call(s.callback.value, Control(c.group, c.name, c.func, es[i].value))
      {
        if i > 0 {
          assert es[1..][i - 1] == es[i];
          assert r.log[|s1.log| + (i - 1)] == r.log[|s.log| + i];
        } else {
          assert r.log[..|s1.log|][|s.log|] == s1.log[|s.log|];
        }
      }
      assert r.log[..|s.log|] == r.log[..|s1.log|][..|s.log|];
    }
  }

  /** Value events for addresses that were never described are ignored: the
      registry, its values and the callback log all stay as they were. */
  lemma {:induction false} ReplayIgnoresUnknown(s: RegistryState, es: seq<Event>)
    requires forall i :: 0 <= i < |es| ==> es[i].ValueChanged? && es[i].address !in s.controls
    ensures Replay(s, es) == s
    decreases |es|
  {
    if es != [] {
      assert forall i :: 0 <= i < |es[1..]| ==> es[1..][i] == es[i + 1];
      ReplayIgnoresUnknown(Apply(s, es[0]), es[1..]);
    }
  }

  /** Without a callback installed, no event makes a callback call. */
  lemma {:induction false} ReplayWithoutCallback(s: RegistryState, es: seq<Event>)
    requires s.callback.None?
    ensures Replay(s, es).log == s.log
    decreases |es|
  {
    if es != [] {
      ReplayWithoutCallback(Apply(s, es[0]), es[1..]);
    }
  }

  /** Two controls are described, a callback is installed and one value
      changes: the callback sees the updated control once, and the table
      holds the new value beside the untouched one. */
  lemma DescribeWatchUpdateScenario(cb: Callback)
    ensures var one, two := Address(1), Address(2);
      var described := Replay(Empty, [
        Described(one, Control("mixer", "vol", "level", 80)),
        Described(two, Control("mixer", "vol", "level", 64))]);
      var watched := described.(callback := Some(cb));
      var updated := UpdateValue(watched, one, 90);
      && described.controls.Keys == {one, two}
      && described.controls[one].value == 80 && described.controls[two].value == 64
      && updated.log == [Call(cb, Control("mixer", "vol", "level", 90))]
      && updated.controls[one].value == 90 && updated.controls[two].value == 64
  {
    var one, two := Address(1), Address(2);
    var c1, c2 := Control("mixer", "vol", "level", 80), Control("mixer", "vol", "level", 64);
    var es := [Described(one, c1), Described(two, c2)];
    var s2 := Describe(Describe(Empty, one, c1), two, c2);
    assert es[1..] == [Described(two, c2)] && es[1..][1..] == [];
    calc {
      Replay(Empty, es);
      Replay(Describe(Empty, one, c1), es[1..]);
      Replay(s2, es[1..][1..]);
      s2;
    }
    var watched := s2.(callback := Some(cb));
    assert one in watched.controls && watched.controls[one] == c1;
    assert UpdateValue(watched, one, 90).log == [Call(cb, c1.(value := 90))];
  }

  /** The registry object: the `controls` table and the `callback` slot of
      `Inner`, plus the ghost log of callback calls. */
  class Shared {
    var controls: map<Address, Control>
    var callback: Option<Callback>
    ghost var log: seq<Call>

    ghost function State(): RegistryState
      reads this
    {
      RegistryState(controls, callback, log)
    }

    constructor ()
      ensures State() == Empty
    {
      controls := map[];
      callback := None;
      log := [];
    }

    /** `Shared::on_parameter`. */
    method OnParameter(address: Address, control: Control)
      modifies this
      ensures State() == Describe(old(State()), address, control)
    {
      controls := controls[address := control];
    }

    /** `Shared::on_value`: the update and the callback call form one locked
        section. */
    method OnValue(address: Address, value: U8)
      modifies this
      ensures State() == UpdateValue(old(State()), address, value)
    {
      if address in controls {
        controls := controls[address := controls[address].(value := value)];
      }
      if address in controls {
        if callback.Some? {
          log := log + [Call(callback.value, controls[address])];
        }
      }
    }
  }
}
