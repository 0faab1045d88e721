/** The behaviour of Rust's `std::ffi::CString` that the core relies on:
    `CString::new`, `Result::unwrap_or_default` and the default (empty) C string. */
module CStrings {
  newtype byte = x: int | 0 <= x < 256

  /** The bytes of a C string before its terminator: never a NUL among them. */
  type CString = s: seq<byte> | 0 !in s witness []

  /** `CString::default()`: the empty C string. */
  const EMPTY: CString := []

  /** `std::ffi::NulError`: where the first NUL byte is, and the rejected bytes. */
  datatype NulError = NulError(position: nat, bytes: seq<byte>)

  datatype NewResult = Ok(value: CString) | Err(error: NulError) {
    /** `Result::unwrap_or_default`. */
    function UnwrapOrDefault(): CString {
      if Ok? then value else EMPTY
    }
  }

  /** Index of the first NUL byte. */
  function FirstNul(bytes: seq<byte>): (i: nat)
    requires 0 in bytes
    ensures i < |bytes| && bytes[i] == 0 && 0 !in bytes[..i]
  {
    if bytes[0] == 0 then 0
    else
      var i := 1 + FirstNul(bytes[1..]);
      assert bytes[..i] == [bytes[0]] + bytes[1..][..i - 1];
      i
  }

  /** `CString::new`: accepts the bytes exactly when none of them is NUL. */
  function New(bytes: seq<byte>): (r: NewResult)
    ensures r.Ok? <==> 0 !in bytes
    ensures r.Ok? ==> r.value == bytes
    ensures r.Err? ==> r.error.bytes == bytes && r.error.position < |bytes|
                       && bytes[r.error.position] == 0 && 0 !in bytes[..r.error.position]
  {
    if 0 in bytes then Err(NulError(FirstNul(bytes), bytes)) else Ok(bytes)
  }

  /** `String::clone` / `str::to_string`: an owned copy of the same bytes. */
  function ToOwned(s: seq<byte>): seq<byte> {
    s
  }

  /** `CString::as_bytes_with_nul`: the content followed by its terminator. */
  function BytesWithNul(c: CString): seq<byte> {
    c + [0]
  }

  /** The terminator is the one and only NUL of a C string's bytes. */
  lemma OnlyTerminatorIsNul(c: CString, i: nat)
    requires i < |BytesWithNul(c)|
    ensures BytesWithNul(c)[i] == 0 <==> i == |c|
  {
    if i < |c| {
      assert BytesWithNul(c)[i] == c[i];
    }
  }
}
