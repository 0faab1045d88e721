/** Adapter selection and device creation in `01_getting_started/1_2_hello_window_clear/src/main.rs`
    (`get_hardware_adapter` and `create_device`). The adapters the factory enumerates are
    given as a sequence of oracle records, one per index, followed by the error that
    enumeration returns at the first index past the last adapter. */
module DeviceSelection {
  import opened Win
  import opened CommandLineFlags

  /** DXGI_ADAPTER_FLAG_SOFTWARE. */
  const DXGI_ADAPTER_FLAG_SOFTWARE: bv32 := 2

  /** DXGI_ADAPTER_DESC1, reduced to its flags. */
  datatype AdapterDesc = AdapterDesc(flags: bv32)

  /** What the search learns about one enumerated adapter: the outcome of `GetDesc1`, and
      the outcome of the probe-only `D3D12CreateDevice` at feature level 11.0. */
  datatype EnumeratedAdapter = EnumeratedAdapter(desc: Result<AdapterDesc>, probe: Status)

  /** The flag test of the search: bit 1 of the description's flags, whatever the other bits. */
  function IsSoftware(d: AdapterDesc): (b: bool)
    ensures b <==> (d.flags >> 1) & 1 == 1
    ensures b <==> (d.flags | 0xFFFF_FFFD) == 0xFFFF_FFFF
  {
    d.flags & DXGI_ADAPTER_FLAG_SOFTWARE != 0
  }

  /** The search reads this adapter's description and moves on to the next index: only a
      readable adapter is skipped, and a readable one that is not skipped is a hardware
      adapter that passed the probe. */
  function Skipped(a: EnumeratedAdapter): (b: bool)
    ensures b ==> a.desc.Ok?
    ensures a.desc.Ok? && !b ==> !IsSoftware(a.desc.value) && a.probe.Success?
  {
    a.desc.Ok? && (IsSoftware(a.desc.value) || a.probe.Failure?)
  }

  /** The search loop of `get_hardware_adapter` from index `i`: the index of the chosen
      adapter, or the first error met. */
  function HardwareSearch(adapters: seq<EnumeratedAdapter>, enumEnd: HResult, i: nat): (r: Result<nat>)
    requires i <= |adapters|
    ensures r.Ok? ==> && i <= r.value < |adapters| && adapters[r.value].desc.Ok?
                      && !IsSoftware(adapters[r.value].desc.value) && adapters[r.value].probe.Success?
    decreases |adapters| - i
  {
    if i == |adapters| then Err(enumEnd)
    else match adapters[i].desc
      case Err(e) => Err(e)
      case Ok(d) =>
        if IsSoftware(d) || adapters[i].probe.Failure? then HardwareSearch(adapters, enumEnd, i + 1)
        else Ok(i)
  }

  /** The search result, given the first index `k` at or after `i` that is not skipped
      (or `k == |adapters|` when every adapter is skipped). */
  lemma {:induction false} HardwareSearchAt(adapters: seq<EnumeratedAdapter>, enumEnd: HResult, i: nat, k: nat)
    requires i <= k <= |adapters|
    requires forall j :: i <= j < k ==> Skipped(adapters[j])
    requires k < |adapters| ==> !Skipped(adapters[k])
    ensures HardwareSearch(adapters, enumEnd, i) ==
      if k == |adapters| then Err(enumEnd)
      else if adapters[k].desc.Err? then Err(adapters[k].desc.error)
      else Ok(k)
    decreases k - i
  {
    if i < k {
      assert Skipped(adapters[i]);
      HardwareSearchAt(adapters, enumEnd, i + 1, k);
    }
  }

  /** An adapter the search returns is a hardware adapter that passed the probe, and every
      adapter before it was read and skipped. */
  lemma {:induction false} HardwareSearchFound(adapters: seq<EnumeratedAdapter>, enumEnd: HResult, i: nat)
    requires i <= |adapters|
    requires HardwareSearch(adapters, enumEnd, i).Ok?
    ensures var k := HardwareSearch(adapters, enumEnd, i).value;
      && i <= k < |adapters|
      && adapters[k].desc.Ok? && !IsSoftware(adapters[k].desc.value) && adapters[k].probe.Success?
      && forall j :: i <= j < k ==> Skipped(adapters[j])
    decreases |adapters| - i
  {
    if adapters[i].desc.Ok? && (IsSoftware(adapters[i].desc.value) || adapters[i].probe.Failure?) {
      HardwareSearchFound(adapters, enumEnd, i + 1);
    }
  }

  /** A failed search either ran past the last adapter, with every adapter skipped and the
      enumeration error returned, or stopped at the first adapter whose description could
      not be read, with that error. */
  lemma {:induction false} HardwareSearchFailed(adapters: seq<EnumeratedAdapter>, enumEnd: HResult, i: nat)
    requires i <= |adapters|
    requires HardwareSearch(adapters, enumEnd, i).Err?
    ensures var e := HardwareSearch(adapters, enumEnd, i).error;
      || ((forall j :: i <= j < |adapters| ==> Skipped(adapters[j])) && e == enumEnd)
      || (exists k :: i <= k < |adapters| && (forall j :: i <= j < k ==> Skipped(adapters[j]))
                      && adapters[k].desc == Err(e))
    decreases |adapters| - i
  {
    if i < |adapters| && Skipped(adapters[i]) {
      HardwareSearchFailed(adapters, enumEnd, i + 1);
    }
  }

  /** `get_hardware_adapter`: walks the indices 0, 1, ... until an adapter qualifies or
      an enumeration or description error is propagated. */
  method GetHardwareAdapter(adapters: seq<EnumeratedAdapter>, enumEnd: HResult) returns (r: Result<nat>)
    ensures r == HardwareSearch(adapters, enumEnd, 0)
    ensures r.Ok? ==> r.value < |adapters| && adapters[r.value].desc.Ok?
                      && !IsSoftware(adapters[r.value].desc.value) && adapters[r.value].probe.Success?
    ensures (forall j :: 0 <= j < |adapters| ==> Skipped(adapters[j])) ==> r == Err(enumEnd)
  {
    var i := 0;
    while i <= |adapters|
      invariant i <= |adapters|
      invariant HardwareSearch(adapters, enumEnd, i) == HardwareSearch(adapters, enumEnd, 0)
      invariant forall j :: 0 <= j < i ==> Skipped(adapters[j])
      decreases |adapters| - i
    {
      // EnumAdapters1(i)?
      if i == |adapters| {
        return Err(enumEnd);
      }
      // GetDesc1()?
      var desc;
      match adapters[i].desc {
        case Err(e) => return Err(e);
        case Ok(d) => desc := d;
      }
      if IsSoftware(desc) {
        i := i + 1;
        continue;
      }
      if adapters[i].probe.Success? {
        return Ok(i);
      }
      i := i + 1;
    }
    // unreachable!()
    assert false;
  }

  /** The adapter a device is created from. */
  datatype Adapter = Warp | Hardware(index: nat)

  /** Outcome of the real `D3D12CreateDevice` call: the call fails, or it succeeds and
      returns a device, or it succeeds without filling in the device. */
  datatype DeviceCreation = Created | NotReturned | CreateFailed(error: HResult)

  /** `Box<dyn std::error::Error>` as `create_device` produces it. */
  datatype InitError = WinError(hr: HResult) | Message(text: string)

  datatype DeviceResult = DeviceOk(adapter: Adapter) | DeviceErr(error: InitError)

  /** The adapter selection expression of `create_device`: the WARP adapter when asked for,
      hardware enumeration otherwise. */
  function SelectAdapter(cl: CommandLine, warp: Status, adapters: seq<EnumeratedAdapter>, enumEnd: HResult): (r: Result<Adapter>)
    ensures cl.useWarpDevice ==> r == (if warp.Success? then Ok(Warp) else Err(warp.error))
    ensures !cl.useWarpDevice ==> (r.Ok? <==> HardwareSearch(adapters, enumEnd, 0).Ok?)
    ensures !cl.useWarpDevice && r.Ok? ==> r.value == Hardware(HardwareSearch(adapters, enumEnd, 0).value)
    ensures !cl.useWarpDevice && r.Err? ==> r.error == HardwareSearch(adapters, enumEnd, 0).error
  {
    if cl.useWarpDevice then
      (if warp.Success? then Ok(Warp) else Err(warp.error))
    else
      match HardwareSearch(adapters, enumEnd, 0)
      case Ok(k) => Ok(Hardware(k))
      case Err(e) => Err(e)
  }

  /** `create_device` in a release build: create the factory, select an adapter, create
      the device on that adapter. Each step's error is propagated and ends the operation. */
  function CreateDevice(cl: CommandLine, factory: Status, warp: Status, adapters: seq<EnumeratedAdapter>,
                        enumEnd: HResult, device: DeviceCreation): (r: DeviceResult)
    ensures factory.Failure? ==> r == DeviceErr(WinError(factory.error))
    ensures r.DeviceOk? <==> factory.Success? && SelectAdapter(cl, warp, adapters, enumEnd).Ok? && device.Created?
    ensures r.DeviceOk? ==> r.adapter == SelectAdapter(cl, warp, adapters, enumEnd).value
    ensures factory.Success? && SelectAdapter(cl, warp, adapters, enumEnd).Err? ==>
              r == DeviceErr(WinError(SelectAdapter(cl, warp, adapters, enumEnd).error))
    ensures factory.Success? && SelectAdapter(cl, warp, adapters, enumEnd).Ok? && device.CreateFailed? ==>
              r == DeviceErr(WinError(device.error))
    ensures factory.Success? && SelectAdapter(cl, warp, adapters, enumEnd).Ok? && device.NotReturned? ==>
              r == DeviceErr(Message("failed to create device"))
  {
    if factory.Failure? then DeviceErr(WinError(factory.error))
    else match SelectAdapter(cl, warp, adapters, enumEnd)
      case Err(e) => DeviceErr(WinError(e))
      case Ok(adapter) =>
        match device
        case CreateFailed(e) => DeviceErr(WinError(e))
        case NotReturned => DeviceErr(Message("failed to create device"))
        case Created => DeviceOk(adapter)
  }

  /** With the warp flag set, the WARP adapter is used and hardware enumeration is never
      consulted: its contents cannot change the outcome. */
  lemma WarpBypassesEnumeration(cl: CommandLine, factory: Status, warp: Status, device: DeviceCreation,
                                a1: seq<EnumeratedAdapter>, e1: HResult, a2: seq<EnumeratedAdapter>, e2: HResult)
    requires cl.useWarpDevice
    ensures CreateDevice(cl, factory, warp, a1, e1, device) == CreateDevice(cl, factory, warp, a2, e2, device)
    ensures CreateDevice(cl, factory, warp, a1, e1, device).DeviceOk? ==>
              CreateDevice(cl, factory, warp, a1, e1, device).adapter == Warp
  {
  }

  /** Without the warp flag, a created device sits on the first enumerated adapter that is
      not a software adapter and passes the feature-level probe. */
  lemma HardwareDeviceAdapter(cl: CommandLine, factory: Status, warp: Status, device: DeviceCreation,
                              adapters: seq<EnumeratedAdapter>, enumEnd: HResult)
    requires !cl.useWarpDevice
    requires CreateDevice(cl, factory, warp, adapters, enumEnd, device).DeviceOk?
    ensures var a := CreateDevice(cl, factory, warp, adapters, enumEnd, device).adapter;
      && a.Hardware? && a.index < |adapters|
      && adapters[a.index].desc.Ok? && !IsSoftware(adapters[a.index].desc.value)
      && adapters[a.index].probe.Success?
      && forall j :: 0 <= j < a.index ==> Skipped(adapters[j])
  {
    HardwareSearchFound(adapters, enumEnd, 0);
  }

  /** Without the warp flag, when every enumerated adapter is skipped, the enumeration
      error (DXGI_ERROR_NOT_FOUND past the last adapter) is what `create_device` returns. */
  lemma NoHardwareAdapter(cl: CommandLine, factory: Status, warp: Status, device: DeviceCreation,
                          adapters: seq<EnumeratedAdapter>, enumEnd: HResult)
    requires !cl.useWarpDevice && factory.Success?
    requires forall j :: 0 <= j < |adapters| ==> Skipped(adapters[j])
    ensures CreateDevice(cl, factory, warp, adapters, enumEnd, device) == DeviceErr(WinError(enumEnd))
  {
    HardwareSearchAt(adapters, enumEnd, 0, |adapters|);
  }
}
