/** The per-frame state machine of `01_getting_started/1_2_hello_window_clear/src/main.rs`:
    `populate_command_list`, `wait_for_previous_frame` and `render` acting on `GpuResources`.
    The fence is abstract: the value last signalled on the queue and the value the GPU has
    completed are ghost state, and every foreign call's outcome is an oracle value. */
module FrameSync {
  import opened Win
  import opened Gfx
  import opened RenderTargets
  import opened CommandRecording

  /** One call on the command queue or the swap chain, in issue order. */
  datatype QueueCall = ExecuteCommandList | Present(syncInterval: nat) | Signal(value: nat)

  /** Outcomes of the foreign calls of `wait_for_previous_frame`: `Signal`, the value
      `GetCompletedValue` reads, `SetEventOnCompletion`, and `GetCurrentBackBufferIndex`. */
  datatype WaitOracle = WaitOracle(signal: Status, completedValue: nat, setEvent: Status, backBufferIndex: nat)

  /** Outcomes of the foreign calls of one `render`. */
  datatype TickOracle = TickOracle(record: RecordOracle, present: Status, wait: WaitOracle)

  /** The state `render` works on: the `GpuResources` fields it reads or changes, the
      fence's two counters, whether the thread is blocked in the fence wait for good, and
      the calls issued so far on the command list and on the queue. */
  datatype FrameState = FrameState(
    renderTargets: seq<Resource>,
    rtvHeapStart: nat,
    rtvDescriptorSize: nat,
    frameIndex: nat,
    fenceValue: nat,
    signalled: nat,
    completed: nat,
    blocked: bool,
    commands: seq<Cmd>,
    queue: seq<QueueCall>)

  /** `FRAME_COUNT` back buffers, a valid frame index, the fence order
      completed <= last signalled < next value to signal, and, while the thread is not
      stuck in a wait, a GPU caught up with the last signal, which is the value just
      before `fence_value`. */
  predicate Inv(s: FrameState) {
    && |s.renderTargets| == FRAME_COUNT
    && s.frameIndex < FRAME_COUNT
    && s.completed <= s.signalled < s.fenceValue
    && (!s.blocked ==> s.completed == s.signalled && s.signalled + 1 == s.fenceValue)
  }

  /** The state `main` builds: a fence created at 0, `fence_value` 1, and the back-buffer
      index the swap chain reports. */
  function InitialState(renderTargets: seq<Resource>, rtvHeapStart: nat, rtvDescriptorSize: nat, frameIndex: nat): (s: FrameState)
    requires |renderTargets| == FRAME_COUNT && frameIndex < FRAME_COUNT
    ensures Inv(s) && !s.blocked && s.fenceValue == 1 && s.signalled == 0 && s.queue == []
  {
    FrameState(renderTargets, rtvHeapStart, rtvDescriptorSize, frameIndex, 1, 0, 0, false, [], [])
  }

  /** What the GPU can report: the completed value never goes back and never passes the
      last value signalled (counting the signal this wait issues, if it succeeds); the
      swap chain's index is one of its buffers. This is a live device: a removed device
      reports `UINT64_MAX`, which the upper bound excludes. */
  predicate WaitConsistent(s: FrameState, o: WaitOracle) {
    && o.backBufferIndex < FRAME_COUNT
    && s.completed <= o.completedValue <= (if o.signal.Success? then s.fenceValue else s.signalled)
  }

  /** `wait_for_previous_frame`. Signal the current `fence_value`, increment it whatever
      the signal's outcome, and wait only when the completed value is behind the value
      just signalled. The wait returns once the GPU reaches that value; when the signal or
      the registration of the event failed, the event is never set and the thread stays
      blocked, so the frame index is not refreshed. */
  function WaitStep(s: FrameState, o: WaitOracle): (t: FrameState)
    requires !s.blocked && WaitConsistent(s, o)
    ensures t.fenceValue == s.fenceValue + 1 && t.queue == s.queue + [Signal(s.fenceValue)]
    ensures t.renderTargets == s.renderTargets && t.commands == s.commands
    ensures t.signalled == (if o.signal.Success? then s.fenceValue else s.signalled)
    ensures !t.blocked ==> t.frameIndex == o.backBufferIndex && t.completed >= s.fenceValue
    ensures t.blocked ==> t.frameIndex == s.frameIndex
  {
    var current := s.fenceValue;
    var signalled := s.(
      fenceValue := current + 1,
      signalled := if o.signal.Success? then current else s.signalled,
      completed := o.completedValue,
      queue := s.queue + [Signal(current)]);
    if o.completedValue < current then
      if o.signal.Success? && o.setEvent.Success? then
        signalled.(completed := current, frameIndex := o.backBufferIndex)
      else
        signalled.(blocked := true)
    else
      signalled.(frameIndex := o.backBufferIndex)
  }

  /** `render_targets[frame_index]`: the back buffer the frame records into, one of the swap chain's buffers. */
  function CurrentTarget(s: FrameState): (r: Resource)
    requires s.frameIndex < |s.renderTargets|
    ensures r in s.renderTargets
  {
    s.renderTargets[s.frameIndex]
  }

  /** The handle recording computes from the heap start and the frame index; for a valid
      frame index it lies inside the RTV heap. */
  function CurrentRtv(s: FrameState): (h: nat)
    ensures s.frameIndex < FRAME_COUNT ==>
              s.rtvHeapStart <= h <= s.rtvHeapStart + (FRAME_COUNT - 1) * s.rtvDescriptorSize
  {
    RtvHandle(s.rtvHeapStart, s.frameIndex, s.rtvDescriptorSize)
  }

  /** `render`: record; on success submit and present with sync interval 1; on success
      wait for the frame. A failure of the recording or of the present skips the rest. */
  function RenderStep(s: FrameState, o: TickOracle): (t: FrameState)
    requires !s.blocked && s.frameIndex < |s.renderTargets| && WaitConsistent(s, o.wait)
    ensures t.renderTargets == s.renderTargets && t.rtvHeapStart == s.rtvHeapStart
    ensures t.rtvDescriptorSize == s.rtvDescriptorSize
    ensures t.fenceValue == if ReachesWait(o) then s.fenceValue + 1 else s.fenceValue
    ensures !ReachesWait(o) ==> t.frameIndex == s.frameIndex && t.signalled == s.signalled
                                && t.completed == s.completed && !t.blocked
    ensures s.queue <= t.queue && s.commands <= t.commands
  {
    var recorded := s.(commands := s.commands + PopulateCalls(CurrentTarget(s), CurrentRtv(s), o.record));
    if PopulateStatus(o.record).Failure? then recorded
    else
      var submitted := recorded.(queue := recorded.queue + [ExecuteCommandList, Present(1)]);
      if o.present.Failure? then submitted
      else WaitStep(submitted, o.wait)
  }

  /** The recording and the present of a tick succeed, so `render` goes on to the wait. */
  predicate ReachesWait(o: TickOracle) {
    PopulateStatus(o.record).Success? && o.present.Success?
  }

  /** Every foreign call of a tick succeeds. */
  predicate Successful(o: TickOracle) {
    && o.record.allocatorReset.Success? && o.record.listReset.Success? && o.record.close.Success?
    && o.present.Success? && o.wait.signal.Success? && o.wait.setEvent.Success?
  }

  /** The signal increments `fence_value` by exactly one whatever its outcome; a wait that
      returns has seen the GPU reach the value just signalled and refreshed the frame
      index; a failed signal leaves the thread blocked. */
  lemma WaitBookkeeping(s: FrameState, o: WaitOracle)
    requires Inv(s) && !s.blocked && WaitConsistent(s, o)
    ensures var t := WaitStep(s, o);
      && Inv(t)
      && t.fenceValue == s.fenceValue + 1
      && t.queue == s.queue + [Signal(s.fenceValue)]
      && t.signalled == (if o.signal.Success? then s.fenceValue else s.signalled)
      && t.completed >= s.completed
      && (!t.blocked ==> t.completed == s.fenceValue == t.signalled && t.frameIndex == o.backBufferIndex)
      && (t.blocked ==> t.frameIndex == s.frameIndex)
      && (o.signal.Failure? ==> t.blocked)
      && (o.completedValue >= s.fenceValue ==> !t.blocked)
  {
  }

  /** Skipped ticks. A failed recording submits nothing, presents nothing and leaves the
      fence and the frame index alone; a failed present follows a submission but still
      leaves the fence value, the fence and the frame index alone. */
  lemma RenderSkips(s: FrameState, o: TickOracle)
    requires Inv(s) && !s.blocked && WaitConsistent(s, o.wait)
    ensures var t := RenderStep(s, o);
      && (PopulateStatus(o.record).Failure? ==>
            t == s.(commands := s.commands + PopulateCalls(CurrentTarget(s), CurrentRtv(s), o.record)))
      && (PopulateStatus(o.record).Success? && o.present.Failure? ==>
            t == s.(commands := s.commands + FrameCommands(CurrentTarget(s), CurrentRtv(s)),
                    queue := s.queue + [ExecuteCommandList, Present(1)]))
  {
    PopulateOutcome(CurrentTarget(s), CurrentRtv(s), o.record);
  }

  /** A fully successful tick records the whole frame for the current back buffer, submits,
      presents, signals the old `fence_value`, advances it once and waits for the GPU. */
  lemma RenderSucceeds(s: FrameState, o: TickOracle)
    requires Inv(s) && !s.blocked && WaitConsistent(s, o.wait) && Successful(o)
    ensures var t := RenderStep(s, o);
      && Inv(t) && !t.blocked
      && t.commands == s.commands + FrameCommands(CurrentTarget(s), CurrentRtv(s))
      && t.queue == s.queue + [ExecuteCommandList, Present(1), Signal(s.fenceValue)]
      && t.fenceValue == s.fenceValue + 1
      && t.signalled == s.fenceValue == t.completed
      && t.frameIndex == o.wait.backBufferIndex
  {
    PopulateOutcome(CurrentTarget(s), CurrentRtv(s), o.record);
    var submitted := s.(commands := s.commands + FrameCommands(CurrentTarget(s), CurrentRtv(s)),
                        queue := s.queue + [ExecuteCommandList, Present(1)]);
    assert RenderStep(s, o) == WaitStep(submitted, o.wait);
    WaitBookkeeping(submitted, o.wait);
  }

  /** Every tick keeps the invariant, and the fence counters never go back. */
  lemma RenderPreservesInv(s: FrameState, o: TickOracle)
    requires Inv(s) && !s.blocked && WaitConsistent(s, o.wait)
    ensures var t := RenderStep(s, o);
      && Inv(t) && t.renderTargets == s.renderTargets
      && t.completed >= s.completed && t.signalled >= s.signalled && t.fenceValue >= s.fenceValue
  {
    if PopulateStatus(o.record).Success? && o.present.Success? {
      var submitted := s.(commands := s.commands + PopulateCalls(CurrentTarget(s), CurrentRtv(s), o.record),
                          queue := s.queue + [ExecuteCommandList, Present(1)]);
      WaitBookkeeping(submitted, o.wait);
    }
  }

  /** The oracles of `os` can drive `render` tick after tick from `s`. */
  ghost predicate Runnable(s: FrameState, os: seq<TickOracle>)
    decreases |os|
  {
    |os| == 0 ||
    (!s.blocked && s.frameIndex < |s.renderTargets| && WaitConsistent(s, os[0].wait)
     && Runnable(RenderStep(s, os[0]), os[1..]))
  }

  /** The main loop: one `render` per oracle. */
  ghost function Run(s: FrameState, os: seq<TickOracle>): (t: FrameState)
    requires Runnable(s, os)
    ensures t.renderTargets == s.renderTargets
    ensures s.fenceValue <= t.fenceValue <= s.fenceValue + |os|
    ensures s.queue <= t.queue
    decreases |os|
  {
    if |os| == 0 then s else Run(RenderStep(s, os[0]), os[1..])
  }

  /** The queue calls of `k` successful ticks that begin by signalling `v`. */
  function SuccessfulQueueCalls(v: nat, k: nat): seq<QueueCall>
    decreases k
  {
    if k == 0 then [] else [ExecuteCommandList, Present(1), Signal(v)] + SuccessfulQueueCalls(v + 1, k - 1)
  }

  /** Over any run the invariant holds and the fence's completed and signalled values never decrease. */
  lemma {:induction false} RunMonotone(s: FrameState, os: seq<TickOracle>)
    requires Inv(s) && Runnable(s, os)
    ensures var t := Run(s, os);
      Inv(t) && t.completed >= s.completed && t.signalled >= s.signalled && t.fenceValue >= s.fenceValue
    decreases |os|
  {
    if |os| > 0 {
      RenderPreservesInv(s, os[0]);
      RunMonotone(RenderStep(s, os[0]), os[1..]);
    }
  }

  /** `k` successful ticks from a drained, in-step state signal `fence_value`,
      `fence_value + 1`, ... in turn, each exactly once, and leave the GPU caught up with
      the last of them. */
  lemma {:induction false} SuccessfulRun(s: FrameState, os: seq<TickOracle>)
    requires Inv(s) && !s.blocked
    requires Runnable(s, os)
    requires forall i :: 0 <= i < |os| ==> Successful(os[i])
    ensures var t := Run(s, os);
      && Inv(t) && !t.blocked
      && t.fenceValue == s.fenceValue + |os|
      && t.signalled + 1 == t.fenceValue
      && (|os| > 0 ==> t.completed == t.signalled)
      && t.queue == s.queue + SuccessfulQueueCalls(s.fenceValue, |os|)
    decreases |os|
  {
    if |os| > 0 {
      var s1, rest := RenderStep(s, os[0]), os[1..];
      RenderSucceeds(s, os[0]);
      RunStep(s, os);
      forall i | 0 <= i < |rest| ensures Successful(rest[i]) {
        assert rest[i] == os[i + 1];
      }
      SuccessfulRun(s1, rest);
      SuccessfulQueueCallsStep(s.queue, s.fenceValue, |os|);
    }
  }

  /** One tick of a run, then the rest of it. */
  lemma RunStep(s: FrameState, os: seq<TickOracle>)
    requires |os| > 0 && Runnable(s, os)
    ensures Runnable(RenderStep(s, os[0]), os[1..]) && Run(s, os) == Run(RenderStep(s, os[0]), os[1..])
  {
  }

  lemma SuccessfulQueueCallsStep(q: seq<QueueCall>, v: nat, k: nat)
    requires k > 0
    ensures q + SuccessfulQueueCalls(v, k)
         == (q + [ExecuteCommandList, Present(1), Signal(v)]) + SuccessfulQueueCalls(v + 1, k - 1)
  {
  }

  /** How many ticks of `os` reach the wait of `wait_for_previous_frame`. */
  function WaitsReached(os: seq<TickOracle>): nat {
    if |os| == 0 then 0 else (if ReachesWait(os[0]) then 1 else 0) + WaitsReached(os[1..])
  }

  /** Over any run, skipped ticks included, `fence_value` grows by exactly the number of
      ticks that reach the wait: a skipped tick leaves it alone and a later tick picks up
      from there. */
  lemma {:induction false} RunFenceCount(s: FrameState, os: seq<TickOracle>)
    requires Inv(s) && Runnable(s, os)
    ensures Run(s, os).fenceValue == s.fenceValue + WaitsReached(os)
    decreases |os|
  {
    if |os| > 0 {
      RenderPreservesInv(s, os[0]);
      RunStep(s, os);
      RunFenceCount(RenderStep(s, os[0]), os[1..]);
    }
  }

  /** The values signalled in a queue log strictly increase, and all are below `bound`. */
  predicate SignalsOrdered(q: seq<QueueCall>, bound: nat) {
    && (forall i :: 0 <= i < |q| && q[i].Signal? ==> q[i].value < bound)
    && (forall i, j :: 0 <= i < j < |q| && q[i].Signal? && q[j].Signal? ==> q[i].value < q[j].value)
  }

  /** Appending calls whose only signal is the last one, at or above the old bound, keeps the signals ordered. */
  lemma AppendKeepsSignalsOrdered(q: seq<QueueCall>, bound: nat, tail: seq<QueueCall>, newBound: nat)
    requires SignalsOrdered(q, bound) && bound <= newBound
    requires forall i :: 0 <= i < |tail| && tail[i].Signal? ==> bound <= tail[i].value < newBound && i == |tail| - 1
    ensures SignalsOrdered(q + tail, newBound)
  {
    var r := q + tail;
    forall i, j | 0 <= i < j < |r| && r[i].Signal? && r[j].Signal? ensures r[i].value < r[j].value {
      if j < |q| {
        assert r[i] == q[i] && r[j] == q[j];
      } else {
        assert r[j] == tail[j - |q|];
        if i >= |q| {
          // only the last appended call is a signal, so i and j cannot both lie in `tail`
          assert false;
        } else {
          assert r[i] == q[i];
        }
      }
    }
    forall i | 0 <= i < |r| && r[i].Signal? ensures r[i].value < newBound {
      if i < |q| { assert r[i] == q[i]; } else { assert r[i] == tail[i - |q|]; }
    }
  }

  /** One tick keeps the signals in the queue log strictly increasing and below `fence_value`. */
  lemma RenderKeepsSignalsOrdered(s: FrameState, o: TickOracle)
    requires Inv(s) && !s.blocked && WaitConsistent(s, o.wait)
    requires SignalsOrdered(s.queue, s.fenceValue)
    ensures SignalsOrdered(RenderStep(s, o).queue, RenderStep(s, o).fenceValue)
  {
    var t := RenderStep(s, o);
    if !PopulateStatus(o.record).Success? {
      assert t.queue == s.queue + [];
      AppendKeepsSignalsOrdered(s.queue, s.fenceValue, [], t.fenceValue);
    } else if o.present.Failure? {
      assert t.queue == s.queue + [ExecuteCommandList, Present(1)];
      AppendKeepsSignalsOrdered(s.queue, s.fenceValue, [ExecuteCommandList, Present(1)], t.fenceValue);
    } else {
      var tail := [ExecuteCommandList, Present(1), Signal(s.fenceValue)];
      assert t.queue == s.queue + tail;
      AppendKeepsSignalsOrdered(s.queue, s.fenceValue, tail, t.fenceValue);
    }
  }

  /** Over any run, skipped and blocked ticks included, the submitted fence values strictly
      increase: every signal in the queue log is above the ones before it. */
  lemma {:induction false} RunSignalsIncreasing(s: FrameState, os: seq<TickOracle>)
    requires Inv(s) && Runnable(s, os)
    requires SignalsOrdered(s.queue, s.fenceValue)
    ensures SignalsOrdered(Run(s, os).queue, Run(s, os).fenceValue)
    decreases |os|
  {
    if |os| > 0 {
      RenderPreservesInv(s, os[0]);
      RenderKeepsSignalsOrdered(s, os[0]);
      RunStep(s, os);
      RunSignalsIncreasing(RenderStep(s, os[0]), os[1..]);
    }
  }

  /** From startup, after `k` successful frames the last value signalled is `k`, the next
      one is `k + 1`, and the GPU has completed frame `k`. */
  lemma FramesFromStartup(renderTargets: seq<Resource>, rtvHeapStart: nat, rtvDescriptorSize: nat,
                          frameIndex: nat, os: seq<TickOracle>)
    requires |renderTargets| == FRAME_COUNT && frameIndex < FRAME_COUNT
    requires Runnable(InitialState(renderTargets, rtvHeapStart, rtvDescriptorSize, frameIndex), os)
    requires forall i :: 0 <= i < |os| ==> Successful(os[i])
    ensures var t := Run(InitialState(renderTargets, rtvHeapStart, rtvDescriptorSize, frameIndex), os);
      && t.signalled == |os| && t.fenceValue == |os| + 1 && t.completed == |os|
      && t.queue == SuccessfulQueueCalls(1, |os|)
  {
    SuccessfulRun(InitialState(renderTargets, rtvHeapStart, rtvDescriptorSize, frameIndex), os);
  }

  /** From startup, over any run, the values signalled strictly increase and `fence_value`
      is one more than the number of ticks that reached the wait. */
  lemma MixedRunFromStartup(renderTargets: seq<Resource>, rtvHeapStart: nat, rtvDescriptorSize: nat,
                            frameIndex: nat, os: seq<TickOracle>)
    requires |renderTargets| == FRAME_COUNT && frameIndex < FRAME_COUNT
    requires Runnable(InitialState(renderTargets, rtvHeapStart, rtvDescriptorSize, frameIndex), os)
    ensures var t := Run(InitialState(renderTargets, rtvHeapStart, rtvDescriptorSize, frameIndex), os);
      && SignalsOrdered(t.queue, t.fenceValue)
      && t.fenceValue == 1 + WaitsReached(os)
      && Inv(t)
  {
    var s := InitialState(renderTargets, rtvHeapStart, rtvDescriptorSize, frameIndex);
    RunSignalsIncreasing(s, os);
    RunFenceCount(s, os);
    RunMonotone(s, os);
  }

  /** `GpuResources`, reduced to what recording and synchronisation touch. */
  class GpuResources {
    const renderTargets: seq<Resource>
    const rtvHeapStart: nat
    const rtvDescriptorSize: nat
    var frameIndex: nat
    var fenceValue: nat
    /** Calls issued on the command allocator and command list. */
    var commandCalls: seq<Cmd>
    /** Calls issued on the command queue and swap chain. */
    var queueCalls: seq<QueueCall>
    ghost var fenceSignalled: nat
    ghost var fenceCompleted: nat
    ghost var blocked: bool

    ghost function State(): FrameState
      reads this
    {
      FrameState(renderTargets, rtvHeapStart, rtvDescriptorSize, frameIndex, fenceValue,
                 fenceSignalled, fenceCompleted, blocked, commandCalls, queueCalls)
    }

    ghost predicate Valid()
      reads this
    {
      Inv(State())
    }

    /** The fields `main` fills in after creating the fence at 0: `fence_value` starts at 1. */
    constructor (renderTargets: seq<Resource>, rtvHeapStart: nat, rtvDescriptorSize: nat, frameIndex: nat)
      requires |renderTargets| == FRAME_COUNT && frameIndex < FRAME_COUNT
      ensures Valid()
      ensures State() == InitialState(renderTargets, rtvHeapStart, rtvDescriptorSize, frameIndex)
    {
      this.renderTargets := renderTargets;
      this.rtvHeapStart := rtvHeapStart;
      this.rtvDescriptorSize := rtvDescriptorSize;
      this.frameIndex := frameIndex;
      fenceValue := 1;
      commandCalls := [];
      queueCalls := [];
      fenceSignalled := 0;
      fenceCompleted := 0;
      blocked := false;
    }

    /** `populate_command_list`: records the frame for back buffer `frameIndex`, call by call. */
    method PopulateCommandList(o: RecordOracle) returns (status: Status)
      requires Valid()
      modifies this`commandCalls
      ensures Valid() && status == PopulateStatus(o)
      ensures State() == old(State()).(commands := old(commandCalls)
                           + PopulateCalls(CurrentTarget(old(State())), CurrentRtv(old(State())), o))
    {
      ghost var calls := FrameCommands(renderTargets[frameIndex], RtvHandle(rtvHeapStart, frameIndex, rtvDescriptorSize));
      commandCalls := commandCalls + [ResetAllocator];
      if o.allocatorReset.Failure? {
        assert calls[..1] == [ResetAllocator];
        return o.allocatorReset;
      }
      commandCalls := commandCalls + [ResetList];
      if o.listReset.Failure? {
        assert calls[..2] == [ResetAllocator, ResetList];
        return o.listReset;
      }
      var target := renderTargets[frameIndex];
      commandCalls := commandCalls + [Barrier(TransitionBarrier(target, RESOURCE_STATE_PRESENT, RESOURCE_STATE_RENDER_TARGET))];
      var rtv := rtvHeapStart + frameIndex * rtvDescriptorSize;
      commandCalls := commandCalls + [SetRenderTarget(rtv)];
      commandCalls := commandCalls + [ClearRenderTarget(rtv, CLEAR_COLOR)];
      commandCalls := commandCalls + [Barrier(TransitionBarrier(target, RESOURCE_STATE_RENDER_TARGET, RESOURCE_STATE_PRESENT))];
      commandCalls := commandCalls + [Close];
      status := o.close;
    }

    /** `wait_for_previous_frame`. */
    method WaitForPreviousFrame(o: WaitOracle)
      requires Valid() && !blocked && WaitConsistent(State(), o)
      modifies this
      ensures Valid()
      ensures State() == WaitStep(old(State()), o)
    {
      var currentFenceValue := fenceValue;
      queueCalls := queueCalls + [Signal(currentFenceValue)];
      if o.signal.Success? {
        fenceSignalled := currentFenceValue;
      }
      fenceValue := fenceValue + 1;
      fenceCompleted := o.completedValue;
      if o.completedValue < currentFenceValue {
        if o.signal.Failure? || o.setEvent.Failure? {
          // WaitForSingleObject(INFINITE) on an event that is never set.
          blocked := true;
          return;
        }
        fenceCompleted := currentFenceValue;
      }
      frameIndex := o.backBufferIndex;
    }

    /** `render`: one tick of the main loop. */
    method Render(o: TickOracle)
      requires Valid() && !blocked && WaitConsistent(State(), o.wait)
      modifies this
      ensures Valid()
      ensures State() == RenderStep(old(State()), o)
    {
      var populated := PopulateCommandList(o.record);
      if populated.Failure? {
        return;
      }
      queueCalls := queueCalls + [ExecuteCommandList];
      queueCalls := queueCalls + [Present(1)];
      if o.present.Failure? {
        return;
      }
      WaitForPreviousFrame(o.wait);
    }
  }
}
