/** Observations on the argument vectors handed to the external tools. */
module Argv {
  import opened Results

  /** `cmd[i]` is the first occurrence of `flag` and has an argument after it. */
  predicate FirstOption(cmd: seq<string>, flag: string, i: int) {
    0 <= i < |cmd| - 1 && cmd[i] == flag && forall j | 0 <= j < i :: cmd[j] != flag
  }

  /** The argument that follows the first occurrence of `flag`, if `flag`
      occurs and is not the last argument. */
  function FlagValue(cmd: seq<string>, flag: string): (r: Option<string>)
    ensures r.Some? ==> exists i :: FirstOption(cmd, flag, i) && cmd[i + 1] == r.value
    ensures r.None? ==> forall i | 0 <= i < |cmd| - 1 :: cmd[i] != flag
  {
    if |cmd| < 2 then None
    else if cmd[0] == flag then
      assert FirstOption(cmd, flag, 0);
      Some(cmd[1])
    else
      var r := FlagValue(cmd[1..], flag);
      assert forall i | 1 <= i < |cmd| - 1 :: cmd[i] == cmd[1..][i - 1];
      assert r.Some? ==> exists i :: FirstOption(cmd, flag, i) && cmd[i + 1] == r.value by {
        if r.Some? {
          var i :| FirstOption(cmd[1..], flag, i) && cmd[1..][i + 1] == r.value;
          assert FirstOption(cmd, flag, i + 1);
        }
      }
      r
  }

  /** The value of the first occurrence of `flag`. */
  lemma FlagValueAt(cmd: seq<string>, flag: string, i: int)
    requires FirstOption(cmd, flag, i)
    ensures FlagValue(cmd, flag) == Some(cmd[i + 1])
  {
    var r := FlagValue(cmd, flag);
    assert r.Some?;
    var j :| FirstOption(cmd, flag, j) && cmd[j + 1] == r.value;
    assert !(j < i) && !(i < j);
  }

  /** Whether `arg` is passed as an option, i.e. anywhere before the last
      (positional) argument. */
  predicate HasOption(cmd: seq<string>, arg: string) {
    exists i | 0 <= i < |cmd| - 1 :: cmd[i] == arg
  }
}
