# sioctl-rs, modelled in Dafny

`sioctl-rs` is a Rust crate that reads and watches the controls of an sndio
audio device through the `sioctl_*` C API (see sioctl_open(3)). Its
sequential core is what this model covers:

- the **control registry** (`Shared`/`Inner`). This is a table from control
  address to `Control`, plus an optional user callback. `on_parameter`
  inserts or replaces an entry. `on_value` changes only the value of a known
  entry. Then, still under the lock, it calls the callback once with the
  updated entry. An unknown address is ignored;
- the two **C entry points** `onval` and `ondesc`. They turn the library's
  raw arguments into registry calls, and they truncate values with `as u8`;
- the **facade** `Sioctl`. `new` fills the registry from the library's
  description burst. `controls` copies the table. `watch` installs the
  callback and returns a `Watcher`;
- the **`Watcher`**. `join` runs the shutdown (close the pipe, join the
  thread) only on its first call, and `Drop` calls `join`;
- the **polling loop** `polling_thread`. It lays out the descriptor array
  with the cancellation pipe last. Then it loops: retry `poll` on `EINTR`,
  panic on any other error, stop when the pipe's entry reports the tested
  bit, otherwise call `sioctl_revents` and stop when its flags report that
  bit.

Each locked section is one atomic step. The user callback is not run. Each
call of it is appended to a ghost log of `Call(callback, control)`, so the
callback contracts can be stated exactly. Foreign calls (`poll`,
`sioctl_revents`, `sioctl_pollfd`, `pipe`, `thread::spawn`) are not
modelled. Their results are parameters: the description burst, the
descriptor buffer and its count, the pipe's write end, the thread handle, and
a stream of `PollStep`s. A `PollStep` is either a failed `poll` with its error
number, or a wake with the pipe entry's `revents`. A wake also holds what
`sioctl_revents` would return and which `onval` and `ondesc` calls the library
would make from inside it. `ondesc` stays registered while the thread
watches, so a control added or re-described then is upserted into the table
just like one from the initial burst.

Files: `wrappers.dfy` (Option), `ctypes.dfy` (C integer types and `as u8`),
`registry.dfy`, `event_bridge.dfy`, `polling.dfy`, `sioctl.dfy`.

Two points where the code does something a reader might not expect:

- Value events are truncated to a byte (`value as u8` keeps the low eight
  bits), not clamped.
- Both exit tests mask with the constant `SIGHUP` (value 1), not `POLLHUP`.
  The model uses that literal constant. `ExitTestsReadLowBit` shows that the
  tests read only the lowest bit.
- `ondesc` does not read the descriptor's type, so every non-null descriptor
  is upserted, including one the library sends for a removed control.

## Model

| member | source | states |
|---|---|---|
| `CTypes.AsU8` | src/lib.rs:322 | `value as u8` gives the unique byte congruent to the value modulo 256: it truncates, it does not clamp |
| `CTypes.AsU8IgnoresSignedness` | src/lib.rs:337 | `as u8` on the `c_int` of `ondesc` gives the same byte as on the `c_uint` with the same bit pattern |
| `CTypes.AsU8Wraps` | src/lib.rs:322 | `as u8` wraps instead of clamping: adding 256 never changes the byte, 256 becomes 0, 511 becomes 255 and -1 becomes 255 |
| `Registry.Describe` | src/lib.rs:204-207 | `on_parameter` makes the entry at the address equal to the given control, whether or not the address was present, and adds exactly that key; every other entry, the callback and the callback log are unchanged |
| `Registry.UpdateValue` | src/lib.rs:209-223 | `on_value` on a known address replaces only `value` and keeps `group`, `name` and `func`. Other entries and the key set are unchanged. With a callback, exactly one call is appended, carrying the updated control; without one, the log is unchanged. An unknown address leaves the whole state unchanged |
| `Registry.ReplayKeys` | src/lib.rs:204-214 | over any event sequence, the keys are the initial keys plus the described addresses (value events never insert), and the callback is unchanged |
| `Registry.ReplayLatestValue` | src/lib.rs:204-214 | describe-then-update: when every value event names a known control, each control's value afterwards is the value of the last event about it |
| `Registry.ReplayCallsPerUpdate` | src/lib.rs:209-222 | with a callback installed, N value events for known controls make exactly N calls, in order, each with that control's fields and the new value |
| `Registry.ReplayIgnoresUnknown` | src/lib.rs:209-222 | value events for addresses never described leave the registry unchanged: same table, no callback call |
| `Registry.ReplayWithoutCallback` | src/lib.rs:216-222 | with no callback installed, no event adds to the callback log |
| `Registry.DescribeWatchUpdateScenario` | src/lib.rs:171-174 | two controls are described, a callback is installed and one value changes. The callback sees the updated control once, and the table holds 90 and 64 |
| `Registry.Shared.constructor` | src/lib.rs:121-124 | a new registry has an empty table, no callback and no calls |
| `Registry.Shared.OnParameter` | src/lib.rs:204-207 | the object's new state is `Describe` of its old state |
| `Registry.Shared.OnValue` | src/lib.rs:209-223 | the object's new state is `UpdateValue` of its old state: the update and the callback call happen in one locked step |
| `EventBridge.DescribedControl` | src/lib.rs:332-343 | `ondesc` builds the control from the descriptor's group, `node0` name and func, with the value truncated to a byte |
| `EventBridge.LibEventsOfValues` | src/lib.rs:318-323 | a run of `onval` calls becomes one value event per call, for `Address(addr)`, with its value truncated modulo 256 |
| `EventBridge.LibEventsOrder` | src/lib.rs:318-349 | the entry-point calls become registry events in call order: each `onval` call and each `ondesc` call with a non-null descriptor gives exactly one event, at index `EventCount(calls[..i])`, and there are no others |
| `EventBridge.OnVal` | src/lib.rs:318-326 | `onval` applies `UpdateValue` with `Address(addr)` and `value as u8`; a null context pointer changes nothing |
| `EventBridge.OnDesc` | src/lib.rs:328-349 | `ondesc` applies `Describe` with the built control; a null descriptor changes nothing |
| `Polling.LayoutPollFds` | src/lib.rs:281-294 | the first `n` entries come from `sioctl_pollfd`. The pipe's read end sits at index `closeNfd == n` with `POLLIN` and zero `revents`. The count passed to `poll` is `n + 1` |
| `Polling.ExitTestsReadLowBit` | src/lib.rs:305-313 | masking with `SIGHUP` and testing `> 0` on `i32` is true exactly when the lowest bit is set. This holds for the pipe entry's sign-extended `revents` and for the `sioctl_revents` flags |
| `Polling.Decide` | src/lib.rs:296-313 | `EINTR` means retry and any other failure means panic with that errno. A wake stops when the pipe entry has the tested bit, before `sioctl_revents`. Otherwise it hangs up when the revents flags have the bit, and continues if not |
| `Polling.Run` | src/lib.rs:296-314 | the loop's run over the `poll` results consumes at most all of them, makes at most one `sioctl_revents` call per result consumed, and consumes all of them when it is still running at the end |
| `Polling.RunStopsAtFirstStop` | src/lib.rs:296-314 | the loop runs while no result stops it. It ends at the first result that stops it, and its exit is that result's decision |
| `Polling.RunCallsReventsPerWake` | src/lib.rs:304-313 | the `sioctl_revents` calls are exactly those of the wakes up to the exit, minus the cancellation wake, which exits before calling it |
| `Polling.RunIgnoresLaterResults` | src/lib.rs:296-314 | once the loop has exited, later results change nothing, so no value change is delivered after a cancellation |
| `Polling.Poll` | src/lib.rs:297-302 | the retry loop skips exactly the `EINTR` failures and stops at the first other result, without changing how the run ends |
| `Polling.DeliverCall` | src/lib.rs:318-349 | one call made inside `sioctl_revents` reaches `onval` or `ondesc`, and the registry becomes the replay of that call's events |
| `Polling.DeliverCalls` | src/lib.rs:310 | the `onval` and `ondesc` calls made inside `sioctl_revents` replay their events on the registry, in order |
| `Polling.HandleWake` | src/lib.rs:304-313 | after a wake, the round's exit is that wake's decision. `sioctl_revents` is called, and the `onval` and `ondesc` calls it makes reach the registry, exactly when the pipe entry lacks the tested bit |
| `Polling.Round` | src/lib.rs:296-313 | one round consumes the skipped `EINTR` failures and exactly one more result, or runs out of results while retrying. Its exit is that result's decision, and it makes that result's `sioctl_revents` call, if any, and no other. What it leaves agrees with the run from that point |
| `Polling.PollingThread` | src/lib.rs:279-316 | the thread ends as `Run` says. The registry it leaves is the old one with the events (value changes and descriptions) of exactly the `sioctl_revents` calls of `Run` replayed |
| `Polling.WakeAddsControl` | src/lib.rs:304-313 | a wake whose `sioctl_revents` describes a new control and then changes its value keeps the loop running and leaves that control in an empty table, with the value truncated from 300 to 44 |
| `Sioctl.BurstEventsOrder` | src/lib.rs:328-349 | the description burst becomes one description event per non-null descriptor, in order: the call at index `i` gives event number `NonNullCount(burst[..i])`, built from its descriptor and truncated value, and there are exactly `NonNullCount(burst)` events |
| `Sioctl.Sioctl.New` | src/lib.rs:117-149 | `new` builds an empty registry and applies the description burst to it; the facade is not yet watched |
| `Sioctl.Sioctl.Controls` | src/lib.rs:152-155 | `controls` returns one copy per table entry. Its length is the table size, it lists each address once, and its elements are exactly the table's values |
| `Sioctl.Sioctl.Watch` | src/lib.rs:167-189 | `watch` replaces any callback with the new one and leaves the table and log unchanged. It consumes the facade and returns a fresh `Watcher` with the thread handle present and no shutdown run |
| `Sioctl.Watcher.constructor` | src/lib.rs:184-188 | a new watcher holds the thread handle and has run no shutdown |
| `Sioctl.Watcher.Join` | src/lib.rs:262-270 | the first `join` takes the handle, closes the pipe and joins the thread, once. Later calls do nothing. Shutdowns are never more than one |
| `Sioctl.Watcher.Drop` | src/lib.rs:273-277 | dropping joins: afterwards the shutdown has run exactly once, and a drop after `join` runs nothing more |

## Left out

- `sioctl_open` and its unchecked null result, `Handle`'s `sioctl_close` on drop, and the `sioctl_ondesc`/`sioctl_onval` registration calls are foreign calls. The burst of `ondesc` calls that registration triggers is an input to `Sioctl.New`.
- `sioctl_nfds`, `sioctl_pollfd`, `poll` and `sioctl_revents` are foreign calls. Their results are inputs: the buffer and its count, and the stream of `PollStep`s. `poll` fills only the pipe entry's `revents` in the model.
- Threads, `Mutex`, `Arc` and the raw pointer in `SharedPtr` are left out because they are concurrency and memory lifetime. A locked section is one atomic step. The panic of `lock().unwrap()` on a poisoned mutex is not modelled.
- Which file descriptors the pipe's `OwnedFd` values close, and when, is left out: the pipe is OS I/O. The model keeps only the effect of `join` on the watcher's state. The panics of `pipe().unwrap()`, `close(..).unwrap()` and `join().unwrap()` are left out too.
- `parse_string` reads a C buffer and panics on invalid UTF-8. Descriptor strings arrive already decoded.
- The user callback's own behaviour is left out. Each call is a log entry naming the installed callback.
- `Polling.PollingThread`: the stream of results is finite. When it runs out before any exit, the result is `Running`, where the real thread would block in `poll` again.
- `Sioctl.Sioctl.Controls` requires that `watch` has not run. In Rust `watch` takes `self` by value, so the facade cannot be used afterwards.
- Both `Sioctl.Sioctl.Watch` and the polling loop are modelled, but not as two concurrent threads. The link between them is the shared registry object that `PollingThread` updates.
