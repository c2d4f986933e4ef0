/** The background loop `polling_thread`: the layout of its descriptor array
    and the rule that decides, after each wake, whether it stops. The system
    calls (`poll`, `sioctl_revents`, ...) are not modelled; what they return
    is an abstract input stream of `PollStep`s. */
module Polling {
  import opened Wrappers
  import opened Registry
  import opened EventBridge

  /** `EINTR`: the interrupted-system-call error number. */
  const EINTR: int := 4
  /** `POLLIN`: the readiness the loop asks `poll` for. */
  const POLLIN: bv16 := 0x0001
  /** `SIGHUP`: the constant every exit test masks with. */
  const SIGHUP: bv32 := 1

  /** A `struct pollfd`: descriptor, requested events, returned events. */
  datatype PollFd = PollFd(fd: int, events: bv16, revents: bv16)

  /** The descriptor array: the first `n` entries that `sioctl_pollfd`
      wrote into a buffer of `sioctl_nfds` entries, then the read end of the
      cancellation pipe. `closeNfd` indexes the pipe's entry and `nfds` is the
      count handed to `poll`; `sioctl_revents` only sees the first `closeNfd`. */
  method LayoutPollFds(buffer: seq<PollFd>, n: int, closeRx: int)
    returns (pollfds: seq<PollFd>, closeNfd: nat, nfds: nat)
    requires 0 <= n <= |buffer|
    ensures closeNfd == n && nfds == closeNfd + 1 && |pollfds| == nfds
    ensures pollfds[..closeNfd] == buffer[..n]
    ensures pollfds[closeNfd] == PollFd(closeRx, POLLIN, 0)
  {
    pollfds := buffer[..n];
    nfds := n;
    pollfds := pollfds + [PollFd(closeRx, POLLIN, 0)];
    closeNfd := nfds;
    nfds := nfds + 1;
  }

  /** `i32::from` on a `c_short`: sign extension to 32 bits. */
  function SignExtend(x: bv16): bv32 {
    if x & 0x8000 == 0 then x as bv32 else (x as bv32) | 0xFFFF_0000
  }

  /** `flags & mask > 0` on `i32`: the masked bits are not zero and the sign
      bit of the result is clear. */
  predicate MaskPositive(flags: bv32, mask: bv32) {
    flags & mask != 0 && flags & mask & 0x8000_0000 == 0
  }

  /** With the mask `SIGHUP`, both exit tests look at the lowest bit only. */
  lemma ExitTestsReadLowBit(closeRevents: bv16, flags: bv32)
    ensures MaskPositive(SignExtend(closeRevents), SIGHUP) <==> closeRevents & 1 == 1
    ensures MaskPositive(flags, SIGHUP) <==> flags & 1 == 1
  {
  }

  /** What `sioctl_revents` does on one call: the flags it returns and the
      calls the library makes from inside it, in order: `onval` for a value
      change, `ondesc` for a control described, added or removed. */
  datatype Revents = Revents(flags: bv32, delivered: seq<LibCall>)

  /** One call of `poll`: it fails with an error number, or it wakes with the
      `revents` of the cancellation entry filled in. `revents` is what
      `sioctl_revents` would do if the loop called it after this wake. */
  datatype PollStep =
    | PollFailed(errno: int)
    | PollReady(closeRevents: bv16, revents: Revents)

  datatype Decision = Retry | Fail(errno: int) | Cancel | HangUp | Continue

  /** The loop's rule for one `poll` result. */
  function Decide(step: PollStep): (d: Decision)
    ensures d.Retry? <==> step.PollFailed? && step.errno == EINTR
    ensures d.Fail? <==> step.PollFailed? && step.errno != EINTR
    ensures d.Fail? ==> d.errno == step.errno
    ensures d.Cancel? <==> step.PollReady? && MaskPositive(SignExtend(step.closeRevents), SIGHUP)
    ensures d.HangUp? <==> step.PollReady? && !d.Cancel? && MaskPositive(step.revents.flags, SIGHUP)
  {
    match step
    case PollFailed(e) => if e != EINTR then Fail(e) else Retry
    case PollReady(closeRevents, revents) =>
      if MaskPositive(SignExtend(closeRevents), SIGHUP) then Cancel
      else if MaskPositive(revents.flags, SIGHUP) then HangUp
      else Continue
  }

  predicate Stops(d: Decision) {
    d.Fail? || d.Cancel? || d.HangUp?
  }

  /** How the loop ended: `Running` when the input ran out first (the real
      loop would block in `poll` again). */
  datatype Exit = Running | Panicked(errno: int) | Cancelled | HungUp

  function ExitOf(d: Decision): Exit {
    match d
    case Fail(e) => Panicked(e)
    case Cancel => Cancelled
    case HangUp => HungUp
    case _ => Running
  }

  /** The loop's run over a stream of `poll` results: how it ended, how many
      results it consumed and the `sioctl_revents` calls it made, in order. */
  datatype Outcome = Outcome(exit: Exit, consumed: nat, calls: seq<Revents>)

  function Run(steps: seq<PollStep>): (r: Outcome)
    ensures r.consumed <= |steps| && |r.calls| <= r.consumed
    ensures r.exit.Running? ==> r.consumed == |steps|
    decreases |steps|
  {
    if steps == [] then Outcome(Running, 0, [])
    else
      match Decide(steps[0])
      case Fail(e) => Outcome(Panicked(e), 1, [])
      case Cancel => Outcome(Cancelled, 1, [])
      case HangUp => Outcome(HungUp, 1, [steps[0].revents])
      case Retry =>
        var r := Run(steps[1..]);
        r.(consumed := r.consumed + 1)
      case Continue =>
        var r := Run(steps[1..]);
        r.(consumed := r.consumed + 1, calls := [steps[0].revents] + r.calls)
  }

  /** The loop stops at the first result whose decision stops it, and only
      there; the exit names that decision. */
  lemma {:induction false} RunStopsAtFirstStop(steps: seq<PollStep>)
    ensures var r := Run(steps);
      && r.consumed <= |steps|
      && (r.exit.Running? <==> forall i :: 0 <= i < |steps| ==> !Stops(Decide(steps[i])))
      && (r.exit.Running? ==> r.consumed == |steps|)
      && (!r.exit.Running? ==>
            0 < r.consumed && r.exit == ExitOf(Decide(steps[r.consumed - 1])) &&
            forall i :: 0 <= i < r.consumed - 1 ==> !Stops(Decide(steps[i])))
    decreases |steps|
  {
    if steps != [] && !Stops(Decide(steps[0])) {
      RunStopsAtFirstStop(steps[1..]);
      assert forall i :: 0 < i < |steps| ==> steps[i] == steps[1..][i - 1];
    }
  }

  /** One round of the loop: how the run from result `i` on follows from the
      decision on result `i` and the run from result `i + 1` on. */
  lemma RunUnfold(steps: seq<PollStep>, i: nat)
    requires i < |steps|
    ensures var d, r, rest := Decide(steps[i]), Run(steps[i..]), Run(steps[i + 1..]);
      && (Stops(d) ==> r.exit == ExitOf(d) && r.calls == if d.HangUp? then [steps[i].revents] else [])
      && (d.Retry? ==> r.exit == rest.exit && r.calls == rest.calls)
      && (d.Continue? ==> r.exit == rest.exit && r.calls == [steps[i].revents] + rest.calls)
  {
    assert steps[i..][0] == steps[i] && steps[i..][1..] == steps[i + 1..];
  }

  /** One round of the outer loop, for a result that `poll`'s retry loop
      does not skip. */
  lemma RunRound(steps: seq<PollStep>, i: nat)
    requires i < |steps| && !Decide(steps[i]).Retry?
    ensures var d := Decide(steps[i]);
      && Run(steps[i..]).exit == (if Stops(d) then ExitOf(d) else Run(steps[i + 1..]).exit)
      && Run(steps[i..]).calls ==
           (if CallsRevents(steps[i]) then [steps[i].revents] else []) +
           (if Stops(d) then [] else Run(steps[i + 1..]).calls)
  {
    assert steps[i..][0] == steps[i] && steps[i..][1..] == steps[i + 1..];
  }

  /** Whether the loop calls `sioctl_revents` after this result. */
  predicate CallsRevents(step: PollStep) {
    Decide(step).HangUp? || Decide(step).Continue?
  }

  /** The `sioctl_revents` calls of the wakes in `steps`, skipping failed polls
      and cancellation wakes. */
  function ReventsCalls(steps: seq<PollStep>): seq<Revents>
    decreases |steps|
  {
    if steps == [] then []
    else (if CallsRevents(steps[0]) then [steps[0].revents] else []) + ReventsCalls(steps[1..])
  }

  /** Every wake up to the exit calls `sioctl_revents` exactly once, except a
      cancellation wake, which exits before calling it. */
  lemma {:induction false} RunCallsReventsPerWake(steps: seq<PollStep>)
    ensures Run(steps).consumed <= |steps|
    ensures Run(steps).calls == ReventsCalls(steps[..Run(steps).consumed])
    decreases |steps|
  {
    RunStopsAtFirstStop(steps);
    if steps != [] {
      var r := Run(steps);
      var d := Decide(steps[0]);
      if Stops(d) {
        assert steps[..r.consumed] == [steps[0]];
        assert [steps[0]][1..] == [];
      } else {
        RunCallsReventsPerWake(steps[1..]);
        RunStopsAtFirstStop(steps[1..]);
        var k := Run(steps[1..]).consumed;
        assert r.consumed == k + 1;
        assert steps[..r.consumed][0] == steps[0];
        assert steps[..r.consumed][1..] == steps[1..][..k];
      }
    }
  }

  /** Nothing after the exit is consumed: in particular no wake after a
      cancellation reaches `sioctl_revents`, so no callback follows it. */
  lemma {:induction false} RunIgnoresLaterResults(steps: seq<PollStep>, later: seq<PollStep>)
    requires !Run(steps).exit.Running?
    ensures Run(steps + later) == Run(steps)
    decreases |steps|
  {
    assert steps != [];
    assert (steps + later)[0] == steps[0];
    if !Stops(Decide(steps[0])) {
      assert (steps + later)[1..] == steps[1..] + later;
      RunIgnoresLaterResults(steps[1..], later);
    }
  }

  /** The registry events of a sequence of `sioctl_revents` calls, in order. */
  function Delivered(calls: seq<Revents>): seq<Event>
    decreases |calls|
  {
    if calls == [] then [] else LibEvents(calls[0].delivered) + Delivered(calls[1..])
  }

  lemma {:induction false} DeliveredAppend(calls: seq<Revents>, c: Revents)
    ensures Delivered(calls + [c]) == Delivered(calls) + LibEvents(c.delivered)
    decreases |calls|
  {
    if calls == [] {
      assert [c][1..] == [];
    } else {
      assert (calls + [c])[1..] == calls[1..] + [c];
      DeliveredAppend(calls[1..], c);
    }
  }

  /** A control added while the thread watches: one wake whose
      `sioctl_revents` describes a new control at address 5 and then changes
      its value to 300. The loop keeps running, and the registry, empty
      before, holds the new control with the value truncated to 44. */
  lemma WakeAddsControl()
    ensures var d := SioctlDesc(5, "output", "level", "level");
      var steps := [PollReady(0, Revents(0, [OnDescCall(DescCall(Some(d), 0)), OnValCall(RawValue(5, 300))]))];
      && Run(steps).exit == Running
      && Replay(Empty, Delivered(Run(steps).calls)).controls == map[Address(5) := Control("output", "level", "level", 44)]
  {
    var d := SioctlDesc(5, "output", "level", "level");
    var wake := Revents(0, [OnDescCall(DescCall(Some(d), 0)), OnValCall(RawValue(5, 300))]);
    var steps := [PollReady(0, wake)];
    assert Decide(steps[0]) == Continue;
    assert Run(steps).calls == [wake] by {
      assert steps[1..] == [];
    }
    var es := LibEvents(wake.delivered);
    assert es == [Described(Address(5), Control("output", "level", "level", 0)), ValueChanged(Address(5), 44)] by {
      var tail := wake.delivered[1..];
      assert tail == [OnValCall(RawValue(5, 300))] && tail[1..] == [];
      assert LibEvents(tail) == [ValueChanged(Address(5), 44)];
    }
    assert Delivered([wake]) == es by {
      assert [wake][1..] == [];
    }
    var s1 := Apply(Empty, es[0]);
    assert Replay(Empty, es) == Replay(Apply(s1, es[1]), []) by {
      assert es[1..][1..] == [];
    }
  }

  /** One call the library makes from inside `sioctl_revents`, sent to the
      entry point it names. */
  method DeliverCall(context: Shared?, call: LibCall)
    modifies context
    ensures context != null ==>
      context.State() == Replay(old(context.State()), CallEvents(call))
  {
    match call {
      case OnValCall(v) => OnVal(context, v.addr, v.value);
      case OnDescCall(c) => OnDesc(context, c.desc, c.value);
    }
  }

  /** Stands in for the calls that the library makes from inside
      `sioctl_revents`, in order, with the registered context pointer: each
      goes to `onval` or `ondesc`. */
  method DeliverCalls(context: Shared?, delivered: seq<LibCall>)
    modifies context
    ensures context != null ==>
      context.State() == Replay(old(context.State()), LibEvents(delivered))
  {
    for j := 0 to |delivered|
      invariant context != null ==>
        context.State() == Replay(old(context.State()), LibEvents(delivered[..j]))
    {
      DeliverCall(context, delivered[j]);
      if context != null {
        assert delivered[..j + 1] == delivered[..j] + [delivered[j]];
        LibEventsAppend(delivered[..j], delivered[j]);
        ReplayAppend(old(context.State()), LibEvents(delivered[..j]), CallEvents(delivered[j]));
      }
    }
    assert delivered[..|delivered|] == delivered;
  }

  /** The inner retry loop around `poll`: skips the results that failed with
      `EINTR` and stops at the first other result, without changing where the
      run goes. */
  method Poll(steps: seq<PollStep>, from: nat) returns (i: nat)
    requires from <= |steps|
    ensures from <= i <= |steps|
    ensures i < |steps| ==> !Decide(steps[i]).Retry?
    ensures forall k :: from <= k < i ==> Decide(steps[k]).Retry?
    ensures Run(steps[from..]).exit == Run(steps[i..]).exit
    ensures Run(steps[from..]).calls == Run(steps[i..]).calls
  {
    i := from;
    while i < |steps| && steps[i].PollFailed? && steps[i].errno == EINTR
      invariant from <= i <= |steps|
      invariant forall k :: from <= k < i ==> Decide(steps[k]).Retry?
      invariant Run(steps[from..]).exit == Run(steps[i..]).exit
      invariant Run(steps[from..]).calls == Run(steps[i..]).calls
    {
      RunUnfold(steps, i);
      i := i + 1;
    }
  }

  /** The body of one round after `poll` has woken: record the pipe entry's
      `revents`, exit if it has the tested bit, otherwise let
      `sioctl_revents` deliver its calls to the registry and exit if
      its flags have the tested bit. */
  method HandleWake(context: Shared?, step: PollStep, pollfds: seq<PollFd>, closeNfd: nat,
                    ghost start: RegistryState, ghost calls: seq<Revents>)
    returns (exit: Exit, pollfds': seq<PollFd>)
    requires step.PollReady? && closeNfd < |pollfds|
    requires context != null ==> context.State() == Replay(start, Delivered(calls))
    modifies context
    ensures exit == ExitOf(Decide(step)) && |pollfds'| == |pollfds|
    ensures context != null ==>
      context.State() == Replay(start, Delivered(calls + if CallsRevents(step) then [step.revents] else []))
  {
    pollfds' := pollfds[closeNfd := pollfds[closeNfd].(revents := step.closeRevents)];
    exit := Running;
    if MaskPositive(SignExtend(pollfds'[closeNfd].revents), SIGHUP) {
      exit := Cancelled;
      assert calls + [] == calls;
    } else {
      DeliverCalls(context, step.revents.delivered);
      if context != null {
        DeliveredAppend(calls, step.revents);
        ReplayAppend(start, Delivered(calls), LibEvents(step.revents.delivered));
      }
      if MaskPositive(step.revents.flags, SIGHUP) {
        exit := HungUp;
      }
    }
  }

  /** Where the loop stands after the results before `i`, with the
      `sioctl_revents` calls made so far: still running, with the rest of the
      run still ahead, or exited as the whole run does. */
  ghost predicate RunFrom(steps: seq<PollStep>, i: nat, exit: Exit, calls: seq<Revents>)
    requires i <= |steps|
  {
    if exit.Running? then
      Run(steps).exit == Run(steps[i..]).exit && Run(steps).calls == calls + Run(steps[i..]).calls
    else
      Run(steps).exit == exit && Run(steps).calls == calls
  }

  /** A round that runs as the results from `from` on say moves the loop
      from `from` to `i`, adding its calls to those made so far. */
  lemma RunFromRound(steps: seq<PollStep>, from: nat, i: nat, exit: Exit,
                     calls: seq<Revents>, called: seq<Revents>)
    requires from <= i <= |steps| && RunFrom(steps, from, Running, calls)
    requires exit.Running? ==>
      Run(steps[from..]).exit == Run(steps[i..]).exit && Run(steps[from..]).calls == called + Run(steps[i..]).calls
    requires !exit.Running? ==> Run(steps[from..]).exit == exit && Run(steps[from..]).calls == called
    ensures RunFrom(steps, i, exit, calls + called)
  {
    assert calls + called + Run(steps[i..]).calls == calls + (called + Run(steps[i..]).calls);
  }

  /** One round of the outer `loop`: poll (retrying on `EINTR`), then
      panic, or handle the wake. `called` lists the `sioctl_revents` calls
      the round made. When the results run out while polling, the round
      ends still running with nothing called. */
  method Round(context: Shared?, steps: seq<PollStep>, from: nat, pollfds: seq<PollFd>, closeNfd: nat,
               ghost start: RegistryState, ghost calls: seq<Revents>)
    returns (i: nat, exit: Exit, pollfds': seq<PollFd>, ghost called: seq<Revents>)
    requires from < |steps| && closeNfd < |pollfds|
    requires context != null ==> context.State() == Replay(start, Delivered(calls))
    requires RunFrom(steps, from, Running, calls)
    modifies context
    ensures from < i <= |steps| && |pollfds'| == |pollfds|
    ensures RunFrom(steps, i, exit, calls + called)
    ensures forall k :: from <= k < i - 1 ==> Decide(steps[k]).Retry?
    ensures Decide(steps[i - 1]).Retry? ==> i == |steps|
    ensures exit == ExitOf(Decide(steps[i - 1]))
    ensures called == if CallsRevents(steps[i - 1]) then [steps[i - 1].revents] else []
    ensures exit.Running? ==>
      Run(steps[from..]).exit == Run(steps[i..]).exit && Run(steps[from..]).calls == called + Run(steps[i..]).calls
    ensures !exit.Running? ==> Run(steps[from..]).exit == exit && Run(steps[from..]).calls == called
    ensures context != null ==> context.State() == Replay(start, Delivered(calls + called))
  {
    pollfds' := pollfds;
    exit := Running;
    i := Poll(steps, from);
    if i == |steps| {
      assert Decide(steps[i - 1]).Retry?;
      called := [];
      assert calls + called == calls;
      assert called + Run([]).calls == called;
      RunFromRound(steps, from, i, exit, calls, called);
      return;
    }
    var step := steps[i];
    RunRound(steps, i);
    i := i + 1;
    if step.PollFailed? {
      // any error other than EINTR: panic
      exit := Panicked(step.errno);
    } else {
      exit, pollfds' := HandleWake(context, step, pollfds, closeNfd, start, calls);
    }
    called := if CallsRevents(step) then [step.revents] else [];
    assert step.PollFailed? ==> calls + called == calls;
    RunFromRound(steps, from, i, exit, calls, called);
  }

  /** `polling_thread`: lay out the descriptors, then loop. Each round polls,
      retrying while `poll` fails with `EINTR` and panicking on any other
      error; exits if the cancellation entry reports the tested bit;
      otherwise lets `sioctl_revents` deliver its calls to the registry
      and exits if its flags report the tested bit. */
  method PollingThread(context: Shared?, buffer: seq<PollFd>, n: int, closeRx: int, steps: seq<PollStep>)
    returns (exit: Exit)
    requires 0 <= n <= |buffer|
    modifies context
    ensures exit == Run(steps).exit
    ensures context != null ==>
      context.State() == Replay(old(context.State()), Delivered(Run(steps).calls))
  {
    var pollfds, closeNfd, nfds := LayoutPollFds(buffer, n, closeRx);
    ghost var calls: seq<Revents> := [];
    ghost var start := if context != null then context.State() else Empty;
    var i := 0;
    exit := Running;
    assert steps[0..] == steps;
    while exit.Running? && i < |steps|
      invariant 0 <= i <= |steps|
      invariant |pollfds| == nfds && closeNfd < nfds
      invariant RunFrom(steps, i, exit, calls)
      invariant context != null ==> context.State() == Replay(start, Delivered(calls))
      decreases |steps| - i
    {
      ghost var called;
      i, exit, pollfds, called := Round(context, steps, i, pollfds, closeNfd, start, calls);
      calls := calls + called;
    }
    if exit.Running? {
      assert steps[i..] == [];
      assert calls + Run([]).calls == calls;
    }
  }
}
