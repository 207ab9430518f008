/** Concrete files: a minimal PE header, and files the locator rejects. */
module Scenarios {
  import opened Bits
  import opened Codec
  import opened Laa
  import opened Cli

  /** 0x98 bytes: "MZ" at 0, 0x0080 at 0x3C, "PE" at 0x80 and `flag` at
      0x96, the Characteristics byte; every other byte is zero. */
  function MinimalPE(flag: byte): (s: seq<byte>)
    ensures |s| == 0x98 && s[0x96] == flag
    ensures HasMZ(s) && PeOffset(s) == 0x80 && HasPE(s) && FlagOffset(s) == 0x96
  {
    seq(0x98, _ => 0)[0 := 0x4D][1 := 0x5A][0x3C := 0x80][0x80 := 0x50][0x81 := 0x45][0x96 := flag]
  }

  /** With the flag byte 0x00 the file is not Large Address Aware. */
  lemma MinimalPENotAware()
    ensures LAAPosition(MinimalPE(0x00)) == Ok(0x96)
    ensures FlagByte(MinimalPE(0x00)) == Ok(0x00)
    ensures Status(MinimalPE(0x00)) == Ok(false)
  {
    assert HasPE(MinimalPE(0x00)) && FlagOffset(MinimalPE(0x00)) == 0x96;
  }

  /** With the flag byte 0x20 the file is Large Address Aware. */
  lemma MinimalPEAware()
    ensures Status(MinimalPE(0x20)) == Ok(true)
  {
    assert HasPE(MinimalPE(0x20)) && FlagOffset(MinimalPE(0x20)) == 0x96;
  }

  /** `--set` on the unaware file toggles it and exits 0; the byte becomes 0x20. */
  lemma SetOnUnaware()
    ensures Decide(true, false, false) == Decision(0, true)
    ensures Toggled(MinimalPE(0x00)) == Ok(MinimalPE(0x20))
  {
    var s := MinimalPE(0x00);
    assert HasPE(s) && FlagOffset(s) == 0x96;
    ToggledIsOneUpdate(s);
    XorFlagValue(0);
    assert s[0x96 := 0x20] == MinimalPE(0x20);
  }

  /** `--set` on the aware file, and `--unset` on the unaware one, exit 1 without a write. */
  lemma RequestAlreadyMet()
    ensures Decide(true, false, true) == Decision(1, false)
    ensures Decide(false, true, false) == Decision(1, false)
  {
  }

  /** A file not starting with "MZ" is "not a valid executable", whatever follows. */
  lemma NoMZ()
    ensures LAAPosition(MinimalPE(0x00)[0 := 0x00]) == Err(NotExecutable(NotValidExecutable))
  {
  }

  /** A file with "MZ" but a wrong word at the PE header offset is "not a valid PE file". */
  lemma NoPE()
    ensures LAAPosition(MinimalPE(0x00)[0x80 := 0x00]) == Err(NotExecutable(NotValidPE))
  {
    var s := MinimalPE(0x00)[0x80 := 0x00];
    assert HasMZ(s) && PeOffset(s) == 0x80 && s[0x80] == 0;
  }

  /** A file cut off inside the PE signature fails with a short read. */
  lemma TruncatedPE()
    ensures LAAPosition(MinimalPE(0x00)[..0x81]) == Err(ChunkSize)
  {
    var s := MinimalPE(0x00)[..0x81];
    assert HasMZ(s) && PeOffset(s) == 0x80;
  }
}
