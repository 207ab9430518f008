# laa-tool in Dafny

laa-tool inspects and toggles the Large Address Awareness bit of a 32-bit
Windows PE executable: the flag `IMAGE_FILE_LARGE_ADDRESS_AWARE = 0x20` in
the Characteristics field of the COFF file header. It checks the `MZ` word
at offset 0 of the file, reads the offset of the PE signature from 0x3C,
checks the `PE` word there, and takes the byte 22 bytes after the signature.
That offset is 4 bytes of signature plus 18 bytes to Characteristics in
Microsoft's PE Format specification. It then reads that byte, tests the
bit, or XORs the bit and writes the byte back in place.

The model has six modules:

- `Codec` (codec.dfy): the errors `ChunkSize`, `Range` and
  `NotExecutable(kind)`, which stand for the exceptions `EChunkSize`,
  `ERange` and `ENotExecutable`. An operation returns them in a `Result`
  where the Python raises. The module also holds the four little-endian
  codec functions: `bytes2word`, `word2bytes`, `bytes2byte` and `byte2bytes`.
  A byte is an int in 0..255, as an element of a Python bytes object is.
- `Bits` (bits.dfy): Python's `^` and `&` on non-negative integers,
  defined bit by bit. The lemmas show what they do with the mask 0x20:
  `x ^ 0x20` flips bit 5 and keeps every other bit, and `x & 0x20` is 0x20
  exactly when bit 5 is set.
- `Files` (file_handle.dfy): the opened file, a class `FileHandle` with a
  byte array and a seek position. `Seek`, `Read` and `Write` behave as
  Python's unbuffered binary file does. A seek past the end is allowed. A
  read returns at most the bytes that are there. A write past the end grows
  the file and fills any gap with zeros. `ReadAt` and `WriteAt` state the
  same behaviour on sequences.
- `Laa` (laa.dfy): the header locator and the flag accessor, each in two
  forms. A function of the file contents says what the operation computes
  (`LAAPosition`, `FlagByte`, `Status`, `Toggled`). A method does it step
  by step on a `FileHandle`, as the Python does (`GetLAAPosition`,
  `GetLAAFlagByte`, `GetLAAStatus`, `ToggleLAAStatus`). Each method is
  proved equal to its function, including where it leaves the seek
  position and the fact that the read-only ones leave the bytes alone.
  `HasMZ`, `PeOffset`, `HasPE` and `FlagOffset` describe the header byte
  by byte, and the contracts of the functions are stated in those terms.
- `Cli` (cli.dfy): the decision made by the `__main__` block.
  `Decide` maps (`--set`, `--unset`, current status) to an exit code and
  whether to toggle. `RunTool` performs one whole run on a file's contents.
  Like the original, it opens one handle to read the status and a second
  one to toggle.
- `Scenarios` (scenarios.dfy): a minimal synthetic PE header, with "MZ"
  at 0, 0x0080 at 0x3C, "PE" at 0x80 and the flag byte at 0x96. It is
  used to prove concrete outcomes: the status, `--set` on it, and files
  that are rejected or truncated.

The model follows what the code does, also where the PE Format
specification says more:

- The code reads only 2 bytes at 0x3C (`peoff`), not the 4-byte
  `e_lfanew` field. It compares only the low word of the 4-byte `PE\0\0`
  signature.
- A short read near the end of the file is not a separate I/O failure. The
  read returns fewer bytes and the decoder raises `EChunkSize`.
  `LAAPosition` and `FlagByte` state exactly when this happens.

A header can hold its PE signature at offset 38 or 39. The flag byte is
then byte 0x3C or 0x3D, which is part of the PE offset itself. Toggling it
moves the header that every later call locates. A second toggle then need
not undo the first, and the status after a `--set` or `--unset` need not be
the one requested. In `Laa.SelfOverlappingHeader` the PE offset is 38, so
the flag byte 0x3C holds 0x26, whose bit 5 is set: an `--unset` run toggles
it, and the toggled file is rejected as "not a valid PE file". So
`ToggleNegatesStatus`, `ToggleTwiceRestores` and `ToggleMeetsRequest`
require that the flag byte is not one of those two bytes. A real
executable never has this overlap, and the Python code handles this input
as written. The model states the edge case and does not correct it.

## Model

| member | source | states |
|---|---|---|
| `Codec.BytesToWord` | laa-tool.py:67-70 | succeeds exactly on 2-byte buffers, else `ChunkSize`; the value is in 0..65535 with low byte `buf[0]` and high byte `buf[1]` |
| `Codec.WordToBytes` | laa-tool.py:73-80 | succeeds exactly for 0 <= v <= 65535, else `Range`; the result is 2 bytes |
| `Codec.BytesToByte` | laa-tool.py:83-86 | succeeds exactly on 1-byte buffers, else `ChunkSize`; the value is in 0..255 and is that byte |
| `Codec.ByteToBytes` | laa-tool.py:89-96 | succeeds exactly for 0 <= v <= 255, else `Range`; the result is 1 byte |
| `Codec.WordRoundTrip` | laa-tool.py:67-80 | decoding the encoding of any v in 0..65535 gives v |
| `Codec.WordBytesRoundTrip` | laa-tool.py:67-80 | encoding the decoded value of any 2-byte buffer gives the buffer |
| `Codec.ByteRoundTrip` | laa-tool.py:83-96 | decoding the encoding of any v in 0..255 gives v |
| `Codec.ByteBytesRoundTrip` | laa-tool.py:83-96 | encoding the decoded value of any 1-byte buffer gives the buffer |
| `Bits.Xor` | laa-tool.py:167 | Python's `a ^ b` on non-negative ints, bit by bit; the result is at most a + b |
| `Bits.And` | laa-tool.py:155 | Python's `a & b` on non-negative ints, bit by bit; the result is at most a and at most b |
| `Bits.XorFlagValue` | laa-tool.py:167 | `x ^ 0x20` is x - 32 when bit 5 of x is set and x + 32 otherwise |
| `Bits.XorFlag` | laa-tool.py:167 | `x ^ 0x20` has bit 5 flipped and all bits below and above bit 5 equal to x's |
| `Bits.AndFlag` | laa-tool.py:155 | `x & 0x20` is 0x20 when bit 5 of x is set, else 0 |
| `Bits.SameBits` | laa-tool.py:167 | two numbers agreeing below, at and above bit 5 are equal; with `XorFlag` this makes a double XOR the identity |
| `Files.ReadAt` | laa-tool.py:114 | `read(n)` at p yields min(n, len - p) bytes (none past the end), namely the file's bytes from p on |
| `Files.WriteAt` | laa-tool.py:171 | after `write(buf)` at p the file holds buf at p..p+len(buf), its old bytes elsewhere, zeros in a gap, and has length max(len, p + len(buf)) |
| `Files.FileHandle.constructor` | laa-tool.py:187 | an opened file holds the given bytes at position 0 |
| `Files.FileHandle.Seek` | laa-tool.py:113 | sets only the position, to any non-negative value |
| `Files.FileHandle.Read` | laa-tool.py:114 | returns `ReadAt` of the contents at the position and moves the position past the bytes returned |
| `Files.FileHandle.Write` | laa-tool.py:171 | the contents become `WriteAt` of the old contents; the position moves past buf; the array is kept when the write fits |
| `Laa.LAAPosition` | laa-tool.py:104-138 | `NotValidExecutable` iff the file has 2 bytes and they are not 'M','Z'; `NotValidPE` iff MZ holds, the offset at 0x3C and 2 bytes at it are present, and they are not 'P','E'; `ChunkSize` iff one of those reads is short; otherwise PE offset + 22 |
| `Laa.FlagByte` | laa-tool.py:141-149 | succeeds iff the header is valid and the flag offset is inside the file, returning the byte there; a short read is `ChunkSize`, otherwise the locator's error |
| `Laa.IsLAA` | laa-tool.py:155 | the test `(flagbyte & LAA) == LAA` holds iff bit 5 of the flag byte is set |
| `Laa.Status` | laa-tool.py:152-157 | fails exactly as `FlagByte` does; otherwise true iff bit 5 (mask 0x20) of the flag byte is set |
| `Laa.Toggled` | laa-tool.py:160-171 | fails exactly as `FlagByte` does; otherwise same length, bit 5 of the flag byte is flipped, and every other bit of that byte and every other byte is preserved |
| `Laa.ToggledIsOneUpdate` | laa-tool.py:163-171 | on success the new contents are the old ones with just the flag byte replaced by `flagbyte ^ LAA`, which is again a byte |
| `Laa.GetLAAPosition` | laa-tool.py:104-138 | returns `LAAPosition` of the contents, never changes them, and leaves the position after its last read |
| `Laa.GetLAAFlagByte` | laa-tool.py:141-149 | returns `FlagByte` of the contents, never changes them |
| `Laa.GetLAAStatus` | laa-tool.py:152-157 | returns `Status` of the contents, never changes them |
| `Laa.ToggleLAAStatus` | laa-tool.py:160-171 | on success the contents become `Toggled` of the old contents in the same array; on error nothing changes and the error is `Toggled`'s |
| `Laa.ToggleKeepsHeader` | laa-tool.py:125-138 | unless the flag byte is byte 0x3C or 0x3D, toggling keeps both signatures and the PE offset |
| `Laa.ToggleNegatesStatus` | laa-tool.py:152-171 | unless the flag byte is byte 0x3C or 0x3D, the status after a toggle is the negation of the status before |
| `Laa.ToggleTwiceRestores` | laa-tool.py:160-171 | unless the flag byte is byte 0x3C or 0x3D, toggling twice restores the original contents |
| `Laa.SelfOverlappingHeader` | laa-tool.py:125-138 | a valid header with PE offset 38 has its flag byte at 0x3C; after one toggle the file is "not a valid PE file" |
| `Cli.Decide` | laa-tool.py:183-214 | both flags: exit 1, no toggle; neither: exit 0, no toggle; one flag: toggle iff the status differs from the request, exit 0 iff it toggles, else 1; a toggle always moves the status to the request |
| `Cli.RunTool` | laa-tool.py:183-214 | both flags: exit 1 and the file untouched; an error reading the flag byte is raised with the file untouched; otherwise exits with `Decide`'s code, and the file is `Toggled` exactly when `Decide` toggles |
| `Cli.ToggleMeetsRequest` | laa-tool.py:192-210 | after the toggle of a `--set` (`--unset`) run the status is set (clear), if the flag byte is not byte 0x3C or 0x3D |
| `Cli.NoToggleMeansNoChange` | laa-tool.py:192-205 | a `--set` or `--unset` run that does not toggle exits 1, and its status already met the request |
| `Scenarios.MinimalPE` | laa-tool.py:105-109 | a 0x98-byte file with the MZ word, PE offset 0x80, the PE word there, and the given flag byte at 0x80 + 22 = 0x96 |
| `Scenarios.MinimalPENotAware` | laa-tool.py:104-157 | the minimal header with flag byte 0x00: flag offset 0x96, flag byte 0x00, not aware |
| `Scenarios.MinimalPEAware` | laa-tool.py:152-157 | the minimal header with flag byte 0x20 is aware |
| `Scenarios.SetOnUnaware` | laa-tool.py:192-200 | `--set` on the unaware header toggles and exits 0, making the flag byte 0x20 |
| `Scenarios.RequestAlreadyMet` | laa-tool.py:192-205 | `--set` when set and `--unset` when clear exit 1 without a toggle |
| `Scenarios.NoMZ` | laa-tool.py:113-121 | a file not starting with "MZ" is "not a valid executable" |
| `Scenarios.NoPE` | laa-tool.py:125-134 | "MZ" with a wrong word at the PE offset is "not a valid PE file" |
| `Scenarios.TruncatedPE` | laa-tool.py:128-130 | a file cut off inside the PE signature fails with `ChunkSize` |

## Left out

- Argument parsing, the printed messages and `sys.exit` (laa-tool.py:175-181 and the `print` calls). Exit codes are returned values. An uncaught exception is `Exit.Raised(error)` rather than Python's traceback and exit status 1.
- The flag byte value printed in the inspect-only message (laa-tool.py:212). `RunTool` does not return it.
- `dumpbin` (laa-tool.py:99-101): a debugging print loop.
- Opening by file name, the read-only and read-write modes, `buffering=0` and `close`. A run works on the file's bytes, and each `open` is a fresh `FileHandle` at position 0. Operating-system errors (missing file, no permission, writing to a read-only handle) are not modelled.
- The file name in the `ENotExecutable` messages. The model keeps only which of the two messages is raised.
- Non-integer arguments to the encoders (laa-tool.py:73-96); the model's encoders take ints only. In Python a bool is encoded as 0 or 1; a float out of range raises `ERange`, an in-range float fails in `to_bytes` with `AttributeError`, and a non-number fails in `abs` with `TypeError`. The tool itself only passes ints.
- Bits.Xor, Bits.And: their own contracts state only bounds on the result; what `^ 0x20` and `& 0x20` do, the only uses in the tool, is stated by `XorFlagValue`, `XorFlag` and `AndFlag`.
- Any PE parsing beyond the four fields above: the optional header, sections, the checksum, the 64-bit format, and the full 4-byte `e_lfanew` and signature.
