/** `common/src/util.rs`: the `AsCString` conversions used before handing text to Win32. */
module Util {
  import opened CStrings

  /** `impl AsCString for String`: the text itself, or the empty C string when the
      text holds a NUL byte. */
  function StringAsCString(s: seq<byte>): (c: CString)
    ensures 0 !in s ==> c == s
    ensures 0 in s ==> c == EMPTY
  {
    New(ToOwned(s)).UnwrapOrDefault()
  }

  /** `impl AsCString for &str`: converts to an owned string and delegates. */
  function StrAsCString(s: seq<byte>): (c: CString)
    ensures c == StringAsCString(s)
    ensures 0 !in s ==> c == s
    ensures 0 in s ==> c == EMPTY
  {
    StringAsCString(ToOwned(s))
  }

  /** The bytes handed to Win32 end at the first NUL, which is the terminator, and
      stand for the whole input exactly when the input held no NUL. */
  lemma NoInteriorNul(s: seq<byte>, i: nat)
    requires i < |BytesWithNul(StringAsCString(s))|
    ensures BytesWithNul(StringAsCString(s))[i] == 0 <==> i == |StringAsCString(s)|
    ensures BytesWithNul(StringAsCString(s))[..|StringAsCString(s)|] == s <==> 0 !in s
  {
    OnlyTerminatorIsNul(StringAsCString(s), i);
  }
}
