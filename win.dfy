/** The slice of the Windows / Direct3D 12 / DXGI API surface that the core sees.
    None of these calls is modelled inside: each call's outcome is an oracle value
    that the caller of a model operation supplies. */
module Win {
  /** An HRESULT error code, as its 32-bit pattern. */
  datatype HResult = HResult(code: bv32)

  /** DXGI_ERROR_NOT_FOUND: what `IDXGIFactory1::EnumAdapters1` returns for an index past the last adapter. */
  const DXGI_ERROR_NOT_FOUND: HResult := HResult(0x887A_0002)

  /** `windows::core::Result<T>`. */
  datatype Result<T> = Ok(value: T) | Err(error: HResult)

  /** `windows::core::Result<()>`: the outcome of a call that returns nothing on success. */
  datatype Status = Success | Failure(error: HResult)

  datatype Option<T> = None | Some(value: T)

  /** The identity of a COM object (its interface pointer). */
  type Resource = nat
}
