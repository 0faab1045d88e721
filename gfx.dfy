/** `common/src/gfx.rs`: construction of a D3D12 transition barrier, together with the
    resource-state bookkeeping that gives a barrier its meaning. */
module Gfx {
  import opened Win

  /** D3D12_RESOURCE_STATES, a set of state bits. */
  type ResourceStates = bv32

  /** D3D12_RESOURCE_STATE_PRESENT (the same bit pattern as D3D12_RESOURCE_STATE_COMMON). */
  const RESOURCE_STATE_PRESENT: ResourceStates := 0
  /** D3D12_RESOURCE_STATE_RENDER_TARGET. */
  const RESOURCE_STATE_RENDER_TARGET: ResourceStates := 4
  /** D3D12_RESOURCE_BARRIER_ALL_SUBRESOURCES. */
  const RESOURCE_BARRIER_ALL_SUBRESOURCES: bv32 := 0xFFFF_FFFF

  /** D3D12_RESOURCE_BARRIER_TYPE. */
  datatype BarrierType = Transition | Aliasing | Uav

  /** D3D12_RESOURCE_BARRIER_FLAGS. */
  datatype BarrierFlags = FlagNone | BeginOnly | EndOnly

  /** D3D12_RESOURCE_TRANSITION_BARRIER. */
  datatype TransitionDesc = TransitionDesc(
    resource: Resource,
    subresource: bv32,
    stateBefore: ResourceStates,
    stateAfter: ResourceStates)

  /** D3D12_RESOURCE_BARRIER holding its transition arm. */
  datatype ResourceBarrier = ResourceBarrier(kind: BarrierType, flags: BarrierFlags, transition: TransitionDesc)

  /** `transition_barrier`: a barrier that moves every subresource of `resource`
      from `stateBefore` to `stateAfter`. */
  function TransitionBarrier(resource: Resource, stateBefore: ResourceStates, stateAfter: ResourceStates): (b: ResourceBarrier)
    ensures b.kind == Transition && b.flags == FlagNone
    ensures b.transition.resource == resource
    ensures b.transition.stateBefore == stateBefore && b.transition.stateAfter == stateAfter
    ensures b.transition.subresource == RESOURCE_BARRIER_ALL_SUBRESOURCES
  {
    ResourceBarrier(Transition, FlagNone,
      TransitionDesc(resource, RESOURCE_BARRIER_ALL_SUBRESOURCES, stateBefore, stateAfter))
  }

  /** The state each tracked resource is in, as the D3D12 debug layer tracks it. */
  type StateTable = map<Resource, ResourceStates>

  /** Effect of one whole-resource transition barrier on the tracked states: the resource
      must be tracked and be in the barrier's prior state, and it ends in the target state.
      Any other barrier, or a mismatching prior state, is a usage error (None). */
  function ApplyBarrier(states: StateTable, b: ResourceBarrier): (r: Option<StateTable>)
    ensures r.Some? <==> (b.kind == Transition && b.flags == FlagNone
                          && b.transition.subresource == RESOURCE_BARRIER_ALL_SUBRESOURCES
                          && b.transition.resource in states
                          && states[b.transition.resource] == b.transition.stateBefore)
    ensures r.Some? ==> r.value == states[b.transition.resource := b.transition.stateAfter]
  {
    var t := b.transition;
    if b.kind == Transition && b.flags == FlagNone && t.subresource == RESOURCE_BARRIER_ALL_SUBRESOURCES
       && t.resource in states && states[t.resource] == t.stateBefore
    then Some(states[t.resource := t.stateAfter])
    else None
  }

  /** `b2` undoes `b1`: same kind, flags, resource and subresources, with prior and target states swapped. */
  predicate IsInverse(b1: ResourceBarrier, b2: ResourceBarrier) {
    && b1.kind == Transition && b2.kind == Transition
    && b1.flags == b2.flags
    && b1.transition.resource == b2.transition.resource
    && b1.transition.subresource == b2.transition.subresource
    && b1.transition.stateBefore == b2.transition.stateAfter
    && b1.transition.stateAfter == b2.transition.stateBefore
  }

  /** Swapping the two state arguments of `transition_barrier` builds the inverse barrier. */
  lemma SwappedStatesAreInverse(resource: Resource, s1: ResourceStates, s2: ResourceStates)
    ensures IsInverse(TransitionBarrier(resource, s1, s2), TransitionBarrier(resource, s2, s1))
  {
  }

  /** The barrier record determines its arguments: the two states are kept in order. */
  lemma TransitionBarrierInjective(r1: Resource, a1: ResourceStates, b1: ResourceStates,
                                   r2: Resource, a2: ResourceStates, b2: ResourceStates)
    requires TransitionBarrier(r1, a1, b1) == TransitionBarrier(r2, a2, b2)
    ensures r1 == r2 && a1 == a2 && b1 == b2
  {
  }

  /** A barrier followed by its inverse leaves every tracked state as it was. */
  lemma InverseRestores(states: StateTable, b1: ResourceBarrier, b2: ResourceBarrier)
    requires IsInverse(b1, b2)
    requires ApplyBarrier(states, b1).Some?
    ensures ApplyBarrier(ApplyBarrier(states, b1).value, b2) == Some(states)
  {
    var t := b1.transition;
    var mid := ApplyBarrier(states, b1).value;
    assert mid == states[t.resource := t.stateAfter];
    assert mid[t.resource := t.stateBefore] == states;
  }
}
