/** The decision logic of laa-tool's command line: what `--set`, `--unset`
    or neither do, given the current Large Address Awareness status.
 */
module Cli {
  import opened Codec
  import opened Files
  import opened Laa

  /** How a run ends: `sys.exit(code)`, or an exception nothing catches. */
  datatype Exit = Exited(code: int) | Raised(error: Error)

  /** The exit code, and whether the flag byte is toggled before exiting. */
  datatype Decision = Decision(code: int, toggle: bool)

  /** The branches on `args.set`, `args.unset` and the current status. */
  function Decide(wantSet: bool, wantUnset: bool, laaset: bool): (d: Decision)
    ensures wantSet && wantUnset ==> d == Decision(1, false)
    ensures !wantSet && !wantUnset ==> d == Decision(0, false)
    ensures wantSet != wantUnset ==> (d.toggle <==> laaset != wantSet)
    ensures wantSet != wantUnset ==> (d.code == 0 <==> d.toggle) && (d.code == 1 <==> !d.toggle)
    ensures d.toggle ==> wantSet != wantUnset && !laaset == wantSet
  {
    if wantSet && wantUnset then Decision(1, false)
    else if wantSet then
      if laaset then Decision(1, false) else Decision(0, true)
    else if wantUnset then
      if !laaset then Decision(1, false) else Decision(0, true)
    else Decision(0, false)
  }

  /** One run of the tool on a file holding `contents`, returning how it
      exits and what the file holds afterwards. Like the original, it
      opens the file once to read the status and again to toggle. */
  method RunTool(wantSet: bool, wantUnset: bool, contents: seq<byte>) returns (exit: Exit, after: seq<byte>)
    ensures wantSet && wantUnset ==> exit == Exited(1) && after == contents
    ensures !(wantSet && wantUnset) && FlagByte(contents).Err? ==>
              exit == Raised(FlagByte(contents).error) && after == contents
    ensures !(wantSet && wantUnset) && FlagByte(contents).Ok? ==>
              var d := Decide(wantSet, wantUnset, Status(contents).value);
              exit == Exited(d.code) && after == if d.toggle then Toggled(contents).value else contents
  {
    if wantSet && wantUnset {
      return Exited(1), contents;
    }

    var fd := new FileHandle(contents);
    var flagbyte := GetLAAFlagByte(fd);
    if flagbyte.Err? {
      return Raised(flagbyte.error), contents;
    }
    // cannot fail: it repeats the reads that getLAAFlagByte just made
    var laaset := GetLAAStatus(fd);
    var d := Decide(wantSet, wantUnset, laaset.value);

    after := contents;
    if d.toggle {
      var rw := new FileHandle(contents);
      var toggled := ToggleLAAStatus(rw);
      after := rw.data[..];
    }
    exit := Exited(d.code);
  }

  /** A run that toggles leaves the status the request asked for, unless
      the flag byte overlaps the PE header offset. */
  lemma ToggleMeetsRequest(wantSet: bool, wantUnset: bool, s: seq<byte>)
    requires Status(s).Ok? && Decide(wantSet, wantUnset, Status(s).value).toggle
    requires FlagOffset(s) != 0x3C && FlagOffset(s) != 0x3D
    ensures Status(Toggled(s).value) == Ok(wantSet)
  {
    ToggleNegatesStatus(s);
  }

  /** A run that does not toggle leaves the status as it was; with a
      request other than "inspect", that status already met the request
      or the request was contradictory, and the exit code is 1. */
  lemma NoToggleMeansNoChange(wantSet: bool, wantUnset: bool, s: seq<byte>)
    requires Status(s).Ok? && !Decide(wantSet, wantUnset, Status(s).value).toggle
    requires wantSet || wantUnset
    ensures Decide(wantSet, wantUnset, Status(s).value).code == 1
    ensures wantSet && !wantUnset ==> Status(s) == Ok(true)
    ensures wantUnset && !wantSet ==> Status(s) == Ok(false)
  {
  }
}
