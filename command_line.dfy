/** `build_command_line` in `01_getting_started/1_2_hello_window_clear/src/main.rs`:
    the one recognised flag, `-warp` or `/warp` in any ASCII letter case. */
module CommandLineFlags {
  datatype CommandLine = CommandLine(useWarpDevice: bool)

  /** `char::to_ascii_lowercase`: maps 'A'..'Z' to 'a'..'z' and leaves every other character alone. */
  function AsciiLower(c: char): char {
    if 'A' <= c <= 'Z' then (c as int + 32) as char else c
  }

  /** `str::eq_ignore_ascii_case`. */
  predicate EqIgnoreAsciiCase(a: string, b: string) {
    |a| == |b| && forall i :: 0 <= i < |a| ==> AsciiLower(a[i]) == AsciiLower(b[i])
  }

  predicate IsWarpFlag(arg: string) {
    EqIgnoreAsciiCase(arg, "-warp") || EqIgnoreAsciiCase(arg, "/warp")
  }

  /** Some argument is the warp flag. */
  predicate HasWarpFlag(args: seq<string>) {
    exists i :: 0 <= i < |args| && IsWarpFlag(args[i])
  }

  /** `build_command_line`, over the process arguments (the program path included,
      as `std::env::args` yields it). */
  method BuildCommandLine(args: seq<string>) returns (cl: CommandLine)
    ensures cl.useWarpDevice <==> HasWarpFlag(args)
  {
    var useWarpDevice := false;
    for i := 0 to |args|
      invariant useWarpDevice <==> exists j :: 0 <= j < i && IsWarpFlag(args[j])
    {
      if EqIgnoreAsciiCase(args[i], "-warp") || EqIgnoreAsciiCase(args[i], "/warp") {
        useWarpDevice := true;
      }
    }
    cl := CommandLine(useWarpDevice);
  }

  /** The accepted spellings, letter by letter: five characters, a leading '-' or '/',
      then "warp" with each letter in either case. */
  lemma WarpFlagSpellings(arg: string)
    ensures IsWarpFlag(arg) <==>
      && |arg| == 5
      && (arg[0] == '-' || arg[0] == '/')
      && (arg[1] == 'w' || arg[1] == 'W')
      && (arg[2] == 'a' || arg[2] == 'A')
      && (arg[3] == 'r' || arg[3] == 'R')
      && (arg[4] == 'p' || arg[4] == 'P')
  {
    if |arg| == 5 {
      var w, v := "-warp", "/warp";
      assert AsciiLower(w[0]) == '-' && AsciiLower(v[0]) == '/';
      assert AsciiLower(w[1]) == 'w' && AsciiLower(w[2]) == 'a' && AsciiLower(w[3]) == 'r' && AsciiLower(w[4]) == 'p';
      assert AsciiLower(v[1]) == 'w' && AsciiLower(v[2]) == 'a' && AsciiLower(v[3]) == 'r' && AsciiLower(v[4]) == 'p';
    }
  }

  /** Argument order does not matter: any rearrangement of the arguments gives the same flag. */
  lemma OrderIrrelevant(a: seq<string>, b: seq<string>)
    requires multiset(a) == multiset(b)
    ensures HasWarpFlag(a) <==> HasWarpFlag(b)
  {
    if HasWarpFlag(a) {
      var i :| 0 <= i < |a| && IsWarpFlag(a[i]);
      assert a[i] in multiset(b);
      var j :| 0 <= j < |b| && b[j] == a[i];
    }
    if HasWarpFlag(b) {
      var j :| 0 <= j < |b| && IsWarpFlag(b[j]);
      assert b[j] in multiset(a);
      var i :| 0 <= i < |a| && a[i] == b[j];
    }
  }

  /** Once an argument has set the flag, no later argument clears it. */
  lemma FlagNeverReset(a: seq<string>, rest: seq<string>)
    requires HasWarpFlag(a)
    ensures HasWarpFlag(a + rest)
  {
    var i :| 0 <= i < |a| && IsWarpFlag(a[i]);
    assert (a + rest)[i] == a[i];
  }
}
