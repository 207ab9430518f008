/** The header locator and the flag accessor of laa-tool.

    Each operation appears twice: as a function of the file contents that
    says what the operation computes, and as a method that performs it
    step by step on a FileHandle (seek, read, seek, write), as the
    Python functions do on their file object. Every method is proved
    against its function; the lemmas at the end are about the functions.
 */
module Laa {
  import opened Bits
  import opened Codec
  import opened Files

  /** IMAGE_FILE_LARGE_ADDRESS_AWARE, the bit in the Characteristics byte. */
  const LAA: nat := 0x20
  /** "MZ" read as a little-endian word. */
  const MZ: int := 0x5A4D
  /** The low word of "PE\0\0" read as a little-endian word. */
  const PE: int := 0x4550
  /** Where the DOS stub keeps the offset of the PE signature. */
  const PE_POINTER_OFFSET: nat := 0x3C
  /** Distance from the PE signature to the Characteristics byte. */
  const LAA_FROM_PE: nat := 22

  // ---------------------------------------------------------------------
  // The header layout, byte by byte

  /** The file starts with the bytes 'M', 'Z'. */
  predicate HasMZ(s: seq<byte>) {
    |s| >= 2 && s[0] == 0x4D && s[1] == 0x5A
  }

  /** The 16-bit little-endian value at 0x3C..0x3D: the PE header offset. */
  function PeOffset(s: seq<byte>): nat
    requires |s| >= 0x3E
  {
    s[0x3C] as int + 256 * s[0x3D] as int
  }

  /** The file has the MZ signature and the bytes 'P', 'E' at the PE header offset. */
  predicate HasPE(s: seq<byte>) {
    HasMZ(s) && |s| >= 0x3E && PeOffset(s) + 2 <= |s| &&
    s[PeOffset(s)] == 0x50 && s[PeOffset(s) + 1] == 0x45
  }

  /** The position of the byte holding the Large Address Awareness bit. */
  function FlagOffset(s: seq<byte>): nat
    requires |s| >= 0x3E
  {
    PeOffset(s) + 22
  }

  // ---------------------------------------------------------------------
  // What the operations compute

  /** getLAAPosition on a file holding s. */
  function LAAPosition(s: seq<byte>): (r: Result<nat>)
    ensures r == Err(NotExecutable(NotValidExecutable)) <==> |s| >= 2 && !HasMZ(s)
    ensures r == Err(NotExecutable(NotValidPE)) <==>
              HasMZ(s) && |s| >= 0x3E && PeOffset(s) + 2 <= |s| && !HasPE(s)
    ensures r == Err(ChunkSize) <==>
              |s| < 2 || (HasMZ(s) && (|s| < 0x3E || PeOffset(s) + 2 > |s|))
    ensures r.Ok? <==> HasPE(s)
    ensures r.Ok? ==> r.value == FlagOffset(s)
  {
    var flag :- BytesToWord(ReadAt(s, 0, 2));
    if flag != MZ then Err(NotExecutable(NotValidExecutable))
    else
      var peoff :- BytesToWord(ReadAt(s, PE_POINTER_OFFSET, 2));
      var sig :- BytesToWord(ReadAt(s, peoff, 2));
      if sig != PE then Err(NotExecutable(NotValidPE))
      else Ok(peoff + LAA_FROM_PE)
  }

  /** Where getLAAPosition leaves the seek position: after the last read it made. */
  function LocateEndPos(s: seq<byte>): nat {
    if |s| < 2 then |s|
    else if !HasMZ(s) then 2
    else if |s| < 0x3E then PE_POINTER_OFFSET + |ReadAt(s, PE_POINTER_OFFSET, 2)|
    else PeOffset(s) + |ReadAt(s, PeOffset(s), 2)|
  }

  /** getLAAFlagByte on a file holding s. */
  function FlagByte(s: seq<byte>): (r: Result<int>)
    ensures r.Ok? <==> HasPE(s) && FlagOffset(s) < |s|
    ensures r.Ok? ==> r.value == s[FlagOffset(s)] as int
    ensures r.Err? ==> r.error == if HasPE(s) then ChunkSize else LAAPosition(s).error
  {
    var laapos :- LAAPosition(s);
    BytesToByte(ReadAt(s, laapos, 1))
  }

  /** Where getLAAFlagByte leaves the seek position. */
  function FlagReadEndPos(s: seq<byte>): nat {
    if HasPE(s) then FlagOffset(s) + |ReadAt(s, FlagOffset(s), 1)| else LocateEndPos(s)
  }

  /** The bit test `(flagbyte & LAA) == LAA`. */
  predicate IsLAA(flagbyte: nat): (r: bool)
    ensures r <==> Bit5(flagbyte)
  {
    AndFlag(flagbyte);
    And(flagbyte, LAA) == LAA
  }

  /** getLAAStatus on a file holding s. */
  function Status(s: seq<byte>): (r: Result<bool>)
    ensures r.Ok? <==> FlagByte(s).Ok?
    ensures r.Err? ==> r.error == FlagByte(s).error
    ensures r.Ok? ==> (r.value <==> Bit5(s[FlagOffset(s)]))
  {
    var flagbyte :- FlagByte(s);
    Ok(IsLAA(flagbyte))
  }

  /** The file contents after toggleLAAStatus on a file holding s. */
  function Toggled(s: seq<byte>): (r: Result<seq<byte>>)
    ensures r.Ok? <==> FlagByte(s).Ok?
    ensures r.Err? ==> r.error == FlagByte(s).error
    ensures r.Ok? ==> |r.value| == |s|
    ensures r.Ok? ==> Bit5(r.value[FlagOffset(s)]) != Bit5(s[FlagOffset(s)])
    ensures r.Ok? ==> r.value[FlagOffset(s)] % 32 == s[FlagOffset(s)] % 32
    ensures r.Ok? ==> r.value[FlagOffset(s)] / 64 == s[FlagOffset(s)] / 64
    ensures r.Ok? ==> forall i :: 0 <= i < |s| && i != FlagOffset(s) ==> r.value[i] == s[i]
  {
    var laapos :- LAAPosition(s);
    var orgbyte :- BytesToByte(ReadAt(s, laapos, 1));
    XorFlag(orgbyte);
    var modbyte := Xor(orgbyte, LAA);
    // cannot fail: flipping bit 5 of a byte gives a byte
    var wrbuf := ByteToBytes(modbyte).value;
    assert laapos == FlagOffset(s) < |s| && orgbyte == s[laapos];
    WriteOneByte(s, laapos, modbyte);
    Ok(WriteAt(s, laapos, wrbuf))
  }

  /** Where toggleLAAStatus leaves the seek position: after the byte it wrote. */
  function ToggleEndPos(s: seq<byte>): nat {
    if FlagByte(s).Ok? then FlagOffset(s) + 1 else FlagReadEndPos(s)
  }

  // ---------------------------------------------------------------------
  // The operations on an opened file

  /** getLAAPosition: read-only, it moves only the seek position. */
  method GetLAAPosition(f: FileHandle) returns (r: Result<nat>)
    modifies f`pos
    ensures f.data[..] == old(f.data[..])
    ensures r == LAAPosition(f.data[..])
    ensures f.pos == LocateEndPos(f.data[..])
  {
    f.Seek(0);
    var rdbuf := f.Read(2);
    var flag :- BytesToWord(rdbuf);
    if flag != MZ {
      return Err(NotExecutable(NotValidExecutable));
    }

    f.Seek(PE_POINTER_OFFSET);
    rdbuf := f.Read(2);
    var peoff :- BytesToWord(rdbuf);
    f.Seek(peoff);
    rdbuf := f.Read(2);
    flag :- BytesToWord(rdbuf);
    if flag != PE {
      return Err(NotExecutable(NotValidPE));
    }
    return Ok(peoff + LAA_FROM_PE);
  }

  /** getLAAFlagByte: read-only, it moves only the seek position. */
  method GetLAAFlagByte(f: FileHandle) returns (r: Result<int>)
    modifies f`pos
    ensures f.data[..] == old(f.data[..])
    ensures r == FlagByte(f.data[..])
    ensures f.pos == FlagReadEndPos(f.data[..])
  {
    var laapos :- GetLAAPosition(f);
    f.Seek(laapos);
    var rdbuf := f.Read(1);
    r := BytesToByte(rdbuf);
  }

  /** getLAAStatus: read-only, it moves only the seek position. */
  method GetLAAStatus(f: FileHandle) returns (r: Result<bool>)
    modifies f`pos
    ensures f.data[..] == old(f.data[..])
    ensures r == Status(f.data[..])
    ensures f.pos == FlagReadEndPos(f.data[..])
  {
    var flagbyte :- GetLAAFlagByte(f);
    return Ok(IsLAA(flagbyte));
  }

  /** toggleLAAStatus: flips the flag bit in place, or changes nothing on error. */
  method ToggleLAAStatus(f: FileHandle) returns (r: Result<()>)
    modifies f, f.data
    ensures f.data == old(f.data)
    ensures r.Ok? <==> Toggled(old(f.data[..])).Ok?
    ensures r.Ok? ==> f.data[..] == Toggled(old(f.data[..])).value
    ensures r.Err? ==> r.error == Toggled(old(f.data[..])).error && f.data[..] == old(f.data[..])
    ensures f.pos == ToggleEndPos(old(f.data[..]))
  {
    ghost var s := f.data[..];
    var laapos :- GetLAAPosition(f);
    f.Seek(laapos);
    var rdbuf := f.Read(1);
    var orgbyte :- BytesToByte(rdbuf);
    XorFlag(orgbyte);
    var modbyte := Xor(orgbyte, LAA);
    // cannot fail: flipping bit 5 of a byte gives a byte
    var wrbuf := ByteToBytes(modbyte).value;
    assert laapos == FlagOffset(s) < |s| && orgbyte == s[laapos];
    f.Seek(laapos);
    f.Write(wrbuf);
    ToggledIsOneUpdate(s);
    WriteOneByte(s, laapos, modbyte);
    return Ok(());
  }

  // ---------------------------------------------------------------------
  // Properties

  /** Writing one byte inside the file replaces that byte and nothing else. */
  lemma WriteOneByte(s: seq<byte>, k: nat, b: byte)
    requires k < |s|
    ensures WriteAt(s, k, [b]) == s[k := b]
  {
    var w := WriteAt(s, k, [b]);
    assert |w| == |s|;
    assert forall i | 0 <= i < |s| :: w[i] == s[k := b][i];
  }

  /** toggleLAAStatus is the update of one byte, the flag byte, to `flagbyte ^ LAA`. */
  lemma ToggledIsOneUpdate(s: seq<byte>)
    requires FlagByte(s).Ok?
    ensures Xor(s[FlagOffset(s)], LAA) < 256
    ensures Toggled(s) == Ok(s[FlagOffset(s) := Xor(s[FlagOffset(s)], LAA)])
  {
    var k := FlagOffset(s);
    XorFlag(s[k]);
    assert LAAPosition(s) == Ok(k) && BytesToByte(ReadAt(s, k, 1)) == Ok(s[k]);
    WriteOneByte(s, k, Xor(s[k], LAA));
  }

  /** Toggling touches neither signature nor the PE header offset, unless
      the flag byte is itself one of the two bytes of that offset. */
  lemma ToggleKeepsHeader(s: seq<byte>)
    requires FlagByte(s).Ok?
    requires FlagOffset(s) != 0x3C && FlagOffset(s) != 0x3D
    ensures HasPE(Toggled(s).value) && PeOffset(Toggled(s).value) == PeOffset(s)
  {
    var t := Toggled(s).value;
    var p := PeOffset(s);
    assert t[0] == s[0] && t[1] == s[1];
    assert t[0x3C] == s[0x3C] && t[0x3D] == s[0x3D];
    assert t[p] == s[p] && t[p + 1] == s[p + 1];
  }

  /** Toggling negates the status that getLAAStatus reports. */
  lemma ToggleNegatesStatus(s: seq<byte>)
    requires FlagByte(s).Ok?
    requires FlagOffset(s) != 0x3C && FlagOffset(s) != 0x3D
    ensures Status(Toggled(s).value) == Ok(!Status(s).value)
  {
    ToggleKeepsHeader(s);
  }

  /** Toggling twice gives back the original contents. */
  lemma ToggleTwiceRestores(s: seq<byte>)
    requires FlagByte(s).Ok?
    requires FlagOffset(s) != 0x3C && FlagOffset(s) != 0x3D
    ensures Toggled(Toggled(s).value) == Ok(s)
  {
    var t := Toggled(s).value;
    var k := FlagOffset(s);
    assert FlagOffset(t) == k && FlagByte(t).Ok? by {
      ToggleKeepsHeader(s);
    }
    var u := Toggled(t).value;
    assert |u| == |s| && u[k] == s[k] by {
      SameBits(u[k], s[k]);
    }
    assert forall i | 0 <= i < |s| && i != k :: u[i] == s[i] by {
      assert forall i | 0 <= i < |s| && i != k :: u[i] == t[i] && t[i] == s[i];
    }
    assert u == s;
  }

  /** A header whose PE offset is 38 passes both signature checks and puts
      the flag byte at 0x3C, the low byte of the PE offset itself. Toggling
      then changes the offset to 6, and the resulting file is rejected. */
  lemma SelfOverlappingHeader()
    ensures var s: seq<byte> := seq(62, i => if i == 0 then 0x4D else if i == 1 then 0x5A
                                  else if i == 38 then 0x50 else if i == 39 then 0x45
                                  else if i == 60 then 38 else 0);
            FlagByte(s) == Ok(38) && Status(s) == Ok(true) &&
            Toggled(s).Ok? && Status(Toggled(s).value) == Err(NotExecutable(NotValidPE)) &&
            Toggled(Toggled(s).value) == Err(NotExecutable(NotValidPE))
  {
    var s: seq<byte> := seq(62, i => if i == 0 then 0x4D else if i == 1 then 0x5A
                                    else if i == 38 then 0x50 else if i == 39 then 0x45
                                    else if i == 60 then 38 else 0);
    assert HasPE(s) && FlagOffset(s) == 60;
    var t := Toggled(s).value;
    SameBits(t[60], 6);
    assert t[60] == 6 && t[61] == 0;
    assert PeOffset(t) == 6 && t[6] == 0;
  }
}
