/** Back buffers and their render-target views in
    `01_getting_started/1_2_hello_window_clear/src/main.rs`: `FRAME_COUNT` buffers, one
    RTV descriptor each, laid out contiguously in one descriptor heap. */
module RenderTargets {
  import opened Win

  /** `FRAME_COUNT`: back buffers in the swap chain and descriptors in the RTV heap. */
  const FRAME_COUNT: nat := 2

  /** CPU descriptor handle of the RTV for back buffer `index`: `index` increments past the
      heap start. A buffer index below `FRAME_COUNT` lands inside the heap's `FRAME_COUNT`
      descriptors; distinct indices give distinct handles (`RtvHandlesDistinct`). */
  function RtvHandle(heapStart: nat, index: nat, increment: nat): (h: nat)
    ensures h == heapStart + index * increment
    ensures index < FRAME_COUNT ==> heapStart <= h <= heapStart + (FRAME_COUNT - 1) * increment
  {
    heapStart + index * increment
  }

  /** A back buffer and the handle its render-target view was created at. */
  datatype RenderTarget = RenderTarget(resource: Resource, rtv: nat)

  /** The views for buffers `i`, `i + 1`, ..., created in index order; the first
      `GetBuffer` failure ends creation. */
  function CreateFrom(buffers: seq<Result<Resource>>, heapStart: nat, increment: nat, i: nat): (r: Result<seq<RenderTarget>>)
    requires i <= |buffers|
    ensures r.Ok? <==> forall j :: i <= j < |buffers| ==> buffers[j].Ok?
    ensures r.Ok? ==> |r.value| == |buffers| - i
                      && forall j :: i <= j < |buffers| ==>
                           r.value[j - i] == RenderTarget(buffers[j].value, RtvHandle(heapStart, j, increment))
    ensures r.Err? ==> exists k :: i <= k < |buffers| && (forall j :: i <= j < k ==> buffers[j].Ok?)
                                   && buffers[k] == Err(r.error)
    decreases |buffers| - i
  {
    if i == |buffers| then Ok([])
    else match buffers[i]
      case Err(e) => Err(e)
      case Ok(resource) =>
        match CreateFrom(buffers, heapStart, increment, i + 1)
        case Err(e) => Err(e)
        case Ok(rest) => Ok([RenderTarget(resource, RtvHandle(heapStart, i, increment))] + rest)
  }

  /** The `core::array::from_fn` over `0..FRAME_COUNT` in `main`: fetch each back buffer
      (`buffers[i]` is the outcome of `GetBuffer(i)`) and create its view at
      `heapStart + i * increment`. A failed fetch panics, which ends the program; it is
      returned as the error here. */
  function CreateRenderTargets(buffers: seq<Result<Resource>>, heapStart: nat, increment: nat): (r: Result<seq<RenderTarget>>)
    requires |buffers| == FRAME_COUNT
    ensures r.Ok? <==> buffers[0].Ok? && buffers[1].Ok?
    ensures r.Ok? ==> |r.value| == FRAME_COUNT
                      && forall i :: 0 <= i < FRAME_COUNT ==>
                           r.value[i] == RenderTarget(buffers[i].value, heapStart + i * increment)
    ensures r.Err? ==> r.error == (if buffers[0].Err? then buffers[0].error else buffers[1].error)
  {
    CreateFrom(buffers, heapStart, increment, 0)
  }

  /** With a positive increment the views of the two buffers are distinct and exactly one
      increment apart, and the handle recording computes from a frame index is the one
      the view for that buffer was created at. */
  lemma RtvTableLayout(buffers: seq<Result<Resource>>, heapStart: nat, increment: nat, frameIndex: nat)
    requires |buffers| == FRAME_COUNT && increment > 0 && frameIndex < FRAME_COUNT
    requires CreateRenderTargets(buffers, heapStart, increment).Ok?
    ensures var t := CreateRenderTargets(buffers, heapStart, increment).value;
      && t[0].rtv == heapStart
      && t[1].rtv == t[0].rtv + increment
      && t[0].rtv != t[1].rtv
      && t[frameIndex].rtv == RtvHandle(heapStart, frameIndex, increment)
      && t[frameIndex].resource == buffers[frameIndex].value
  {
  }

  /** Different buffer indices give different handles whenever the increment is positive. */
  lemma RtvHandlesDistinct(heapStart: nat, increment: nat, i: nat, j: nat)
    requires increment > 0 && i != j
    ensures RtvHandle(heapStart, i, increment) != RtvHandle(heapStart, j, increment)
  {
    if i < j {
      assert j * increment == i * increment + (j - i) * increment;
    } else {
      assert i * increment == j * increment + (i - j) * increment;
    }
  }
}
