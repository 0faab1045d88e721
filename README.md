# learn-d3d12 "Hello Window Clear" core, modelled in Dafny

This project models the rendering bookkeeping of the `1_2_hello_window_clear` sample and
the small helpers it shares with `1_1_hello_window`:

- the command line: one flag, `-warp` or `/warp` in any ASCII letter case, that selects
  the WARP (software) adapter (`command_line.dfy`, module `CommandLineFlags`);
- adapter selection and device creation: the WARP adapter when asked for, otherwise the
  first enumerated adapter that is not a software adapter and passes a probe-only
  `D3D12CreateDevice` at feature level 11.0 (`device.dfy`, `DeviceSelection`);
- the `FRAME_COUNT = 2` back buffers and their render-target views, laid out at
  `heapStart + i * increment` in one descriptor heap (`render_targets.dfy`, `RenderTargets`);
- the transition-barrier record of `common/src/gfx.rs`, with the resource-state tracking
  that gives it meaning (`gfx.dfy`, `Gfx`);
- the per-frame recording: reset allocator, reset list, barrier PRESENT to RENDER_TARGET,
  set the render target, clear it, barrier back to PRESENT, close (`recording.dfy`,
  `CommandRecording`);
- the frame and fence state machine of `render` and `wait_for_previous_frame` on
  `GpuResources`, as a class whose methods are proved against pure step functions
  (`frame_sync.dfy`, `FrameSync`);
- the `AsCString` conversions of `common/src/util.rs` and their copy in
  `1_1_hello_window/src/main.rs`, over a model of Rust's `CString::new` (`cstrings.dfy`,
  `util.dfy`, `hello_window.dfy`).

Every Direct3D 12, DXGI and Win32 call is an oracle: its outcome (`Win.Status`,
`Win.Result`) is a parameter of the model operation that makes the call (`win.dfy`). The
fence is abstract: `GpuResources` keeps the value last signalled and the value the GPU has
completed as ghost fields; the value `GetCompletedValue` returns is an oracle bounded by
them (never behind the previous reading, never past the last successful signal), and a wait
that returns leaves the completed value equal to the value just signalled. The calls made on
the command list and on the queue are logged as sequences (`commandCalls`, `queueCalls`), so
the contracts can say exactly what was submitted, presented and signalled.

Behaviour the model makes explicit:

- `wait_for_previous_frame` increments `fence_value` even when `Signal` fails. A failed
  signal (or a failed `SetEventOnCompletion`) means the event is never set, so the
  `WaitForSingleObject(INFINITE)` that follows never returns; the model records this as the
  ghost flag `blocked` (`FrameSync.WaitBookkeeping`). This holds for a live device: a removed
  device reports a completed value of `UINT64_MAX`, so the program would not wait at all
  (see "## Left out").
- A skipped frame (failed recording or failed present) does not resynchronise anything: a
  failed present leaves a submitted command list with no fence signal after it, and the
  frame index and fence value as they were (`FrameSync.RenderSkips`).
- `main` in `1_2_hello_window_clear` drops `GpuResources` straight after the loop
  (`main.rs:314`), with no final signal-and-wait, so the GPU may still be working when its
  objects are released. The model follows the code: there is no teardown operation. After a
  successful tick the GPU has completed every submitted command list
  (`FrameSync.RenderSucceeds`); after a failed present the command list executed in that
  tick is not covered by any signal, so nothing tells the CPU when the GPU is done with it,
  even though the fence is still at the last value signalled.

## Model

| member | source | states |
|---|---|---|
| CommandLineFlags.BuildCommandLine | 01_getting_started/1_2_hello_window_clear/src/main.rs:45-55 | the flag is set exactly when some argument equals `-warp` or `/warp` ignoring ASCII case |
| CommandLineFlags.WarpFlagSpellings | 01_getting_started/1_2_hello_window_clear/src/main.rs:49 | the accepted arguments are exactly the five-character strings `-` or `/` followed by `warp` in any mix of letter cases |
| CommandLineFlags.OrderIrrelevant | 01_getting_started/1_2_hello_window_clear/src/main.rs:48-52 | any rearrangement of the arguments gives the same flag |
| CommandLineFlags.FlagNeverReset | 01_getting_started/1_2_hello_window_clear/src/main.rs:46-52 | later arguments never clear a flag already set |
| DeviceSelection.IsSoftware | 01_getting_started/1_2_hello_window_clear/src/main.rs:62-64 | an adapter is a software adapter exactly when bit 1 (`DXGI_ADAPTER_FLAG_SOFTWARE`) of its flags is set, whatever the other bits |
| DeviceSelection.Skipped | 01_getting_started/1_2_hello_window_clear/src/main.rs:60-81 | only an adapter whose description was read is skipped (a `GetDesc1` error ends the search), and a read adapter that is not skipped is a hardware adapter that passed the probe |
| DeviceSelection.HardwareSearch | 01_getting_started/1_2_hello_window_clear/src/main.rs:58-82 | a found index is at or after the starting index, in range, and picks an adapter whose description was read, that is not a software adapter and that passed the probe |
| DeviceSelection.GetHardwareAdapter | 01_getting_started/1_2_hello_window_clear/src/main.rs:57-85 | the loop returns what the search specification returns; a returned adapter is non-software and passed the probe; with every adapter skipped the enumeration error propagates; the `unreachable!()` is never reached |
| DeviceSelection.HardwareSearchAt | 01_getting_started/1_2_hello_window_clear/src/main.rs:58-82 | the search result is fixed by the first adapter not skipped: its index if its description was read, its description error otherwise, the enumeration error if there is none |
| DeviceSelection.HardwareSearchFound | 01_getting_started/1_2_hello_window_clear/src/main.rs:62-81 | a found adapter is not a software adapter, passed the probe, and is the first such in index order |
| DeviceSelection.HardwareSearchFailed | 01_getting_started/1_2_hello_window_clear/src/main.rs:58-60 | a failed search either skipped every adapter and returns the enumeration error, or returns the description error of the first adapter it could not read |
| DeviceSelection.SelectAdapter | 01_getting_started/1_2_hello_window_clear/src/main.rs:111-115 | with the warp flag the WARP adapter, or the `EnumWarpAdapter` error; without it a hardware adapter exactly when the hardware search finds one, that one, and the search error otherwise |
| DeviceSelection.CreateDevice | 01_getting_started/1_2_hello_window_clear/src/main.rs:109-119 | a factory failure is returned as is; a device is created exactly when the factory call, the adapter selection and `D3D12CreateDevice` all succeed, on the adapter the selection chose; a selection error, a failing `D3D12CreateDevice` and a device that is not returned each give their own error |
| DeviceSelection.WarpBypassesEnumeration | 01_getting_started/1_2_hello_window_clear/src/main.rs:111-115 | with the warp flag the outcome does not depend on the enumerated adapters and a created device is on the WARP adapter |
| DeviceSelection.HardwareDeviceAdapter | 01_getting_started/1_2_hello_window_clear/src/main.rs:111-118 | without the warp flag a created device is on the first non-software adapter that passed the probe |
| DeviceSelection.NoHardwareAdapter | 01_getting_started/1_2_hello_window_clear/src/main.rs:58-59 | without the warp flag and with every adapter skipped, `create_device` fails with the enumeration error |
| RenderTargets.RtvHandle | 01_getting_started/1_2_hello_window_clear/src/main.rs:268-270 | the view of buffer `index` is at `heapStart + index * increment`, and for a buffer index below `FRAME_COUNT` it lies inside the heap's descriptors; distinctness is `RtvHandlesDistinct` |
| RenderTargets.CreateFrom | 01_getting_started/1_2_hello_window_clear/src/main.rs:253-263 | views are created in index order, buffer `j` at `heapStart + j * increment`; the first failing `GetBuffer` ends creation with its error |
| RenderTargets.CreateRenderTargets | 01_getting_started/1_2_hello_window_clear/src/main.rs:253-274 | exactly two views exist when both buffers are obtained, view `i` for buffer `i` at `heapStart + i * increment`; otherwise the first failure is reported |
| RenderTargets.RtvTableLayout | 01_getting_started/1_2_hello_window_clear/src/main.rs:347-350 | the two views are distinct and one increment apart, and recording's handle for a frame index is the handle that buffer's view was created at |
| RenderTargets.RtvHandlesDistinct | 01_getting_started/1_2_hello_window_clear/src/main.rs:269 | different buffer indices give different handles when the increment is positive |
| Gfx.TransitionBarrier | common/src/gfx.rs:8-25 | a transition barrier with no flags, on the given resource, from the first state to the second, over all subresources |
| Gfx.SwappedStatesAreInverse | common/src/gfx.rs:19-20 | swapping the state arguments builds the inverse barrier |
| Gfx.TransitionBarrierInjective | common/src/gfx.rs:18-20 | the barrier determines its resource and its two states, in order |
| Gfx.InverseRestores | common/src/gfx.rs:17-22 | a barrier followed by its inverse leaves every tracked resource state unchanged |
| CommandRecording.FrameCommands | 01_getting_started/1_2_hello_window_clear/src/main.rs:337-371 | a full recording is seven calls, starting with the allocator and list resets and ending with the close |
| CommandRecording.PopulateCalls | 01_getting_started/1_2_hello_window_clear/src/main.rs:322-374 | the calls made are a non-empty prefix of the full recording: the allocator reset alone when it fails, both resets when the list reset fails, the full recording otherwise |
| CommandRecording.PopulateStatus | 01_getting_started/1_2_hello_window_clear/src/main.rs:322-374 | the recording succeeds exactly when both resets and the close succeed; otherwise it reports the error of the first call that failed |
| CommandRecording.PopulateOutcome | 01_getting_started/1_2_hello_window_clear/src/main.rs:322-335 | a failed allocator or list reset stops the recording before any barrier is recorded |
| CommandRecording.FrameBarriers | 01_getting_started/1_2_hello_window_clear/src/main.rs:337-371 | a recording holds exactly two barriers, PRESENT to RENDER_TARGET then back, on the same buffer; the second is the inverse of the first |
| CommandRecording.FrameRestoresPresent | 01_getting_started/1_2_hello_window_clear/src/main.rs:337-371 | the clear runs while the buffer is in RENDER_TARGET and the buffer ends in PRESENT with every other state untouched |
| FrameSync.CurrentTarget | 01_getting_started/1_2_hello_window_clear/src/main.rs:339 | the buffer a frame records into is one of the swap chain's buffers |
| FrameSync.CurrentRtv | 01_getting_started/1_2_hello_window_clear/src/main.rs:347-350 | the handle recording computes from the frame index lies inside the RTV heap |
| FrameSync.InitialState | 01_getting_started/1_2_hello_window_clear/src/main.rs:285-306 | the state after construction satisfies the invariant, is not blocked, has `fence_value` 1, no value signalled and nothing submitted |
| FrameSync.WaitStep | 01_getting_started/1_2_hello_window_clear/src/main.rs:376-404 | `fence_value` grows by exactly one and the old value is appended as a signal whether or not it succeeds; the signalled value moves only on success; a returning wait refreshes the frame index and leaves the GPU at least at the signalled value; a blocked wait leaves the index |
| FrameSync.RenderStep | 01_getting_started/1_2_hello_window_clear/src/main.rs:406-425 | a tick changes neither buffers nor heap layout, advances `fence_value` by one exactly when recording and present succeed and otherwise leaves index and fence alone; it only appends to the call logs |
| FrameSync.Run | 01_getting_started/1_2_hello_window_clear/src/main.rs:310-312 | a run of the main loop keeps the buffers, only appends to the queue log, and raises `fence_value` by at most one per tick |
| FrameSync.GpuResources.constructor | 01_getting_started/1_2_hello_window_clear/src/main.rs:285-306 | fence created at 0, `fence_value` 1, frame index from the swap chain, nothing recorded or submitted |
| FrameSync.GpuResources.PopulateCommandList | 01_getting_started/1_2_hello_window_clear/src/main.rs:322-374 | appends exactly the calls the recording specification gives for the current back buffer and its view, and returns its status |
| FrameSync.GpuResources.WaitForPreviousFrame | 01_getting_started/1_2_hello_window_clear/src/main.rs:376-404 | the new state is the wait step of the old one: signal, increment, wait only when behind, refresh the frame index |
| FrameSync.GpuResources.Render | 01_getting_started/1_2_hello_window_clear/src/main.rs:406-425 | the new state is the render step of the old one: record, then submit and present, then wait |
| FrameSync.WaitBookkeeping | 01_getting_started/1_2_hello_window_clear/src/main.rs:376-404 | the pre-increment value is signalled and `fence_value` grows by exactly one even if the signal fails; a returning wait leaves the GPU at the signalled value and the frame index refreshed; a failed signal blocks forever; no wait when already caught up |
| FrameSync.RenderSkips | 01_getting_started/1_2_hello_window_clear/src/main.rs:406-422 | a failed recording submits and presents nothing and changes no fence or index; a failed present submits and presents but leaves fence value, fence and index unchanged |
| FrameSync.RenderSucceeds | 01_getting_started/1_2_hello_window_clear/src/main.rs:406-425 | a successful tick records the whole frame, submits, presents, signals the old value, advances `fence_value` once and waits for the GPU |
| FrameSync.RenderPreservesInv | 01_getting_started/1_2_hello_window_clear/src/main.rs:406-425 | each tick keeps two buffers, a frame index below two, completed <= signalled < next value, and, unless the tick blocks, a GPU caught up with the last signal, which is one below `fence_value`; the fence counters never go back. The completed-value bounds rest on the oracle assumption that `GetCompletedValue` never goes back and never passes the last successful signal |
| FrameSync.RunMonotone | 01_getting_started/1_2_hello_window_clear/src/main.rs:310-312 | over any run of the main loop the fence's completed and signalled values never decrease and the invariant holds, under the same assumption on `GetCompletedValue` |
| FrameSync.RunFenceCount | 01_getting_started/1_2_hello_window_clear/src/main.rs:310-312 | over any run, with skipped ticks, `fence_value` grows by exactly the number of ticks that reached the wait |
| FrameSync.RenderKeepsSignalsOrdered | 01_getting_started/1_2_hello_window_clear/src/main.rs:376-425 | one tick keeps the values signalled on the queue strictly increasing and below `fence_value` |
| FrameSync.RunSignalsIncreasing | 01_getting_started/1_2_hello_window_clear/src/main.rs:310-312 | over any run, with skipped and blocked ticks, the values signalled on the queue strictly increase and stay below `fence_value` |
| FrameSync.SuccessfulRun | 01_getting_started/1_2_hello_window_clear/src/main.rs:310-312 | k successful ticks signal consecutive values, each once, advance `fence_value` by k and leave the GPU caught up |
| FrameSync.MixedRunFromStartup | 01_getting_started/1_2_hello_window_clear/src/main.rs:285-312 | from construction, over any run, the signals strictly increase, `fence_value` is one more than the number of ticks that reached the wait, and the invariant holds |
| FrameSync.FramesFromStartup | 01_getting_started/1_2_hello_window_clear/src/main.rs:285-287 | from fence 0 and `fence_value` 1, after k successful frames the last signalled value is k and the signals were 1, 2, ..., k |
| CStrings.New | common/src/util.rs:11 | `CString::new` accepts the bytes exactly when none is NUL, keeps them unchanged, and otherwise reports the first NUL's position |
| CStrings.OnlyTerminatorIsNul | common/src/util.rs:10-12 | the terminator is the only NUL among a C string's bytes |
| Util.StringAsCString | common/src/util.rs:9-13 | without a NUL the C string holds the input bytes; with one it is the empty C string |
| Util.StrAsCString | common/src/util.rs:15-19 | the `&str` conversion agrees with the `String` conversion |
| Util.NoInteriorNul | common/src/util.rs:9-13 | the converted bytes have no interior NUL and stand for the whole input exactly when the input has no NUL |
| HelloWindow.StringAsCString | 01_getting_started/1_1_hello_window/src/main.rs:17-21 | without a NUL the C string holds the input bytes; with one it is empty |
| HelloWindow.StrAsCString | 01_getting_started/1_1_hello_window/src/main.rs:23-27 | the `&str` conversion delegates to and agrees with the `String` conversion |
| HelloWindow.SameAsCommon | 01_getting_started/1_1_hello_window/src/main.rs:13-27 | this file's conversions equal the shared ones on every input |

## Left out

- `common/src/os.rs`: window-class registration, window creation, the message pump that calls `render` and the window procedure are OS plumbing; the main loop is modelled only as a sequence of `render` calls (`FrameSync.Run`).
- Debug builds: the debug layer, leak tracking, the info-queue break and deny-list filter (lines 90-101 and 121-148 of `1_2_hello_window_clear/src/main.rs`) and `report_live_objects` are diagnostic foreign calls; the model is a release build.
- Creation of the command queue, swap chain, descriptor heap, allocator, command list, fence and event in `main` are thin wrappers over foreign calls; only the constants, the RTV layout and the initial fence values are modelled.
- The window title suffix " (WARP)" in `main` is display text only.
- GPU execution and the blocking wait are concurrency; the wait is modelled by its effect on the completed value, and a wait that can never return by the `blocked` flag.
- The allocator reset outcome is an oracle; the model does not derive a reset failure from unfinished GPU work.
- Device removal: `GetCompletedValue` on a removed device returns `UINT64_MAX`; `FrameSync.WaitConsistent` excludes that value (the completed value never passes the last successful signal), so the blocking of a failed signal and the order completed <= signalled hold only for a live device.
- `GetCPUDescriptorHandleForHeapStart` is called once when the views are created and again on every recording; the model takes both calls to return the same handle (`rtvHeapStart`), which is what the API guarantees for one heap, and `RenderTargets.RtvTableLayout` rests on it.
- `GetCurrentBackBufferIndex` is an oracle in `[0, 2)`; how the swap chain rotates buffers is not modelled.
- The clear colour is an opaque constant; no floating-point arithmetic is modelled.
- `print_debug_string`, `OutputDebugStringA` and `MessageBoxA` are output side effects; the failure messages `render` logs are not modelled.
- RenderTargets.CreateRenderTargets: a failing `GetBuffer` panics in the source with a message naming the buffer index (`01_getting_started/1_2_hello_window_clear/src/main.rs:256-261`); the model returns that call's error as `Err` instead, so the panic message is not modelled.
- `command_list.cast().unwrap()` in `render` is taken to succeed (a graphics command list is always a command list).
- Reference counting: the barrier's resource pointer is copied without a reference-count change; the model keeps only the resource's identity.
- Integer widths: `fence_value` (u64), descriptor handles (usize) and `frame_index` (u32) are unbounded naturals; wrap-around or overflow panics are not modelled.
- Text encoding: a Rust string is modelled as its byte sequence for `as_c_string` and as a sequence of characters for the command line; UTF-8 validity and the panic of `std::env::args` on non-Unicode arguments are not modelled.
