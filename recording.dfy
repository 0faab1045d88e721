/** What `populate_command_list` in `01_getting_started/1_2_hello_window_clear/src/main.rs`
    records, as a sequence of abstract command-allocator and command-list calls, and what
    that sequence does to the tracked state of the back buffer. */
module CommandRecording {
  import opened Win
  import opened Gfx

  /** The clear colour [0.0, 0.2, 0.4, 1.0], kept as an opaque value: no arithmetic is done on it. */
  datatype Rgba = Rgba(r: real, g: real, b: real, a: real)
  const CLEAR_COLOR: Rgba := Rgba(0.0, 0.2, 0.4, 1.0)

  /** One call on the command allocator or the command list. */
  datatype Cmd =
    | ResetAllocator                     // ID3D12CommandAllocator::Reset
    | ResetList                          // ID3D12GraphicsCommandList::Reset, no pipeline state
    | Barrier(barrier: ResourceBarrier)  // ResourceBarrier with one barrier
    | SetRenderTarget(rtv: nat)          // OMSetRenderTargets with one RTV, no depth-stencil
    | ClearRenderTarget(rtv: nat, color: Rgba)
    | Close

  /** Outcomes of the three fallible calls of a recording. */
  datatype RecordOracle = RecordOracle(allocatorReset: Status, listReset: Status, close: Status)

  /** The full recording for back buffer `target`, whose view is at `rtv`. */
  function FrameCommands(target: Resource, rtv: nat): (r: seq<Cmd>)
    ensures |r| == 7 && r[0] == ResetAllocator && r[1] == ResetList && r[6] == Close
  {
    [ ResetAllocator,
      ResetList,
      Barrier(TransitionBarrier(target, RESOURCE_STATE_PRESENT, RESOURCE_STATE_RENDER_TARGET)),
      SetRenderTarget(rtv),
      ClearRenderTarget(rtv, CLEAR_COLOR),
      Barrier(TransitionBarrier(target, RESOURCE_STATE_RENDER_TARGET, RESOURCE_STATE_PRESENT)),
      Close ]
  }

  /** The calls a recording makes: it stops at a failed reset. */
  function PopulateCalls(target: Resource, rtv: nat, o: RecordOracle): (r: seq<Cmd>)
    ensures 1 <= |r| && r <= FrameCommands(target, rtv)
    ensures o.allocatorReset.Failure? ==> r == [ResetAllocator]
    ensures o.allocatorReset.Success? && o.listReset.Failure? ==> r == [ResetAllocator, ResetList]
    ensures o.allocatorReset.Success? && o.listReset.Success? ==> r == FrameCommands(target, rtv)
  {
    if o.allocatorReset.Failure? then FrameCommands(target, rtv)[..1]
    else if o.listReset.Failure? then FrameCommands(target, rtv)[..2]
    else FrameCommands(target, rtv)
  }

  /** The result of a recording: the first failing call's error, if any. */
  function PopulateStatus(o: RecordOracle): (r: Status)
    ensures r.Success? <==> o.allocatorReset.Success? && o.listReset.Success? && o.close.Success?
    ensures r.Failure? ==> r.error == (if o.allocatorReset.Failure? then o.allocatorReset.error
                                      else if o.listReset.Failure? then o.listReset.error
                                      else o.close.error)
  {
    if o.allocatorReset.Failure? then o.allocatorReset
    else if o.listReset.Failure? then o.listReset
    else o.close
  }

  /** The barriers among a sequence of calls, in order. */
  function Barriers(cmds: seq<Cmd>): seq<ResourceBarrier> {
    if cmds == [] then []
    else (if cmds[0].Barrier? then [cmds[0].barrier] else []) + Barriers(cmds[1..])
  }

  /** The tracked resource states after replaying the barriers of `cmds` in order, or None
      at the first barrier whose prior state does not match. */
  function Replay(states: StateTable, cmds: seq<Cmd>): Option<StateTable> {
    if cmds == [] then Some(states)
    else if cmds[0].Barrier? then
      match ApplyBarrier(states, cmds[0].barrier)
      case None => None
      case Some(next) => Replay(next, cmds[1..])
    else Replay(states, cmds[1..])
  }

  /** A recording whose allocator or list reset fails stops there, before any barrier is
      recorded, so no resource changes state. */
  lemma PopulateOutcome(target: Resource, rtv: nat, o: RecordOracle)
    ensures o.allocatorReset.Failure? || o.listReset.Failure? ==>
              Barriers(PopulateCalls(target, rtv, o)) == []
  {
    var c := FrameCommands(target, rtv);
    assert c[..1] == [ResetAllocator];
    assert c[..2] == [ResetAllocator, ResetList];
    assert Barriers(c[..2]) == Barriers([ResetList]);
  }

  /** A full recording holds exactly two barriers, PRESENT to RENDER_TARGET and back, on
      the same buffer; the second undoes the first and the two target different states. */
  lemma FrameBarriers(target: Resource, rtv: nat)
    ensures Barriers(FrameCommands(target, rtv)) ==
      [ TransitionBarrier(target, RESOURCE_STATE_PRESENT, RESOURCE_STATE_RENDER_TARGET),
        TransitionBarrier(target, RESOURCE_STATE_RENDER_TARGET, RESOURCE_STATE_PRESENT) ]
    ensures IsInverse(Barriers(FrameCommands(target, rtv))[0], Barriers(FrameCommands(target, rtv))[1])
    ensures Barriers(FrameCommands(target, rtv))[0].transition.stateAfter
            != Barriers(FrameCommands(target, rtv))[1].transition.stateAfter
  {
    var c := FrameCommands(target, rtv);
    var b1 := TransitionBarrier(target, RESOURCE_STATE_PRESENT, RESOURCE_STATE_RENDER_TARGET);
    var b2 := TransitionBarrier(target, RESOURCE_STATE_RENDER_TARGET, RESOURCE_STATE_PRESENT);
    assert Barriers(c[6..]) == [];
    assert Barriers(c[5..]) == [b2];
    assert Barriers(c[2..]) == [b1, b2] by {
      assert Barriers(c[4..]) == [b2];
      assert Barriers(c[3..]) == [b2];
    }
    assert Barriers(c[1..]) == [b1, b2];
  }

  /** Replaying a full recording from a state where the back buffer is in PRESENT: the
      clear happens while the buffer is in RENDER_TARGET, and the buffer ends back in
      PRESENT with every other tracked state untouched. */
  lemma FrameRestoresPresent(states: StateTable, target: Resource, rtv: nat)
    requires target in states && states[target] == RESOURCE_STATE_PRESENT
    ensures FrameCommands(target, rtv)[4] == ClearRenderTarget(rtv, CLEAR_COLOR)
    ensures Replay(states, FrameCommands(target, rtv)[..4]) == Some(states[target := RESOURCE_STATE_RENDER_TARGET])
    ensures Replay(states, FrameCommands(target, rtv)) == Some(states)
  {
    var c := FrameCommands(target, rtv);
    var mid := states[target := RESOURCE_STATE_RENDER_TARGET];
    assert mid[target := RESOURCE_STATE_PRESENT] == states;
    assert Replay(states, c[6..]) == Some(states);
    assert c[5..][1..] == c[6..];
    assert Replay(mid, c[5..]) == Some(states);
    assert Replay(mid, c[4..]) == Some(states);
    assert Replay(mid, c[3..]) == Some(states);
    assert Replay(states, c[2..]) == Some(states);
    assert Replay(states, c[1..]) == Some(states);
    var p := c[..4];
    assert Replay(mid, p[3..]) == Some(mid);
    assert p[2..][1..] == p[3..] && p[2] == c[2];
    assert Replay(states, p[2..]) == Some(mid);
    assert p[1..][1..] == p[2..];
    assert Replay(states, p[1..]) == Some(mid);
  }
}
