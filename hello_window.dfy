/** `01_getting_started/1_1_hello_window/src/main.rs`: its own copy of the `AsCString`
    conversions, written with the same expressions as the shared helper. */
module HelloWindow {
  import opened CStrings
  import Util

  /** `impl AsCString for String`. */
  function StringAsCString(s: seq<byte>): (c: CString)
    ensures 0 !in s ==> c == s
    ensures 0 in s ==> c == EMPTY
  {
    New(ToOwned(s)).UnwrapOrDefault()
  }

  /** `impl AsCString for &str`: delegates to the `String` implementation. */
  function StrAsCString(s: seq<byte>): (c: CString)
    ensures c == StringAsCString(s)
  {
    StringAsCString(ToOwned(s))
  }

  /** This file's conversions and the shared ones in `common` give the same C string on every input. */
  lemma SameAsCommon(s: seq<byte>)
    ensures StringAsCString(s) == Util.StringAsCString(s)
    ensures StrAsCString(s) == Util.StrAsCString(s)
  {
  }
}
