/** The error taxonomy of laa-tool and its little-endian fixed-width codec.

    The Python original raises EChunkSize, ERange and ENotExecutable; here
    each raise is an Err value of the Result type below. A Python bytes
    object is a sequence of ints in 0..255; decoded numbers are unbounded
    ints, as in Python.
 */
module Codec {

  /** An element of a Python bytes object. */
  type byte = x: int | 0 <= x < 256

  /** Which of the two signature checks of the header locator failed. */
  datatype NotExecutableKind =
    | NotValidExecutable   // the "MZ" word at offset 0 is missing
    | NotValidPE           // the "PE" word at the PE header offset is missing

  /** EChunkSize, ERange and ENotExecutable. */
  datatype Error =
    | ChunkSize
    | Range
    | NotExecutable(kind: NotExecutableKind)

  /** A value, or the exception that the Python code would have raised. */
  datatype Result<+T> = Ok(value: T) | Err(error: Error) {
    predicate IsFailure() {
      Err?
    }

    function PropagateFailure<U>(): Result<U>
      requires Err?
    {
      Err(error)
    }

    function Extract(): T
      requires Ok?
    {
      value
    }
  }

  /** Unsigned little-endian value of a buffer that must hold exactly 2 bytes. */
  function BytesToWord(buf: seq<byte>): (r: Result<int>)
    ensures r.Ok? <==> |buf| == 2
    ensures r.Err? ==> r.error == ChunkSize
    ensures r.Ok? ==> 0 <= r.value <= 65535
    ensures r.Ok? ==> r.value % 256 == buf[0] && r.value / 256 == buf[1]
  {
    if |buf| != 2 then Err(ChunkSize)
    else Ok(buf[0] as int + 256 * buf[1] as int)
  }

  /** The 2-byte little-endian encoding of a number in 0..65535. */
  function WordToBytes(v: int): (r: Result<seq<byte>>)
    ensures r.Ok? <==> 0 <= v <= 65535
    ensures r.Err? ==> r.error == Range
    ensures r.Ok? ==> |r.value| == 2
  {
    // `v != abs(v)` in the original holds exactly when v is negative
    if v < 0 then Err(Range)
    else if v > 65535 then Err(Range)
    else Ok([v % 256, v / 256])
  }

  /** The unsigned value of a buffer that must hold exactly 1 byte. */
  function BytesToByte(buf: seq<byte>): (r: Result<int>)
    ensures r.Ok? <==> |buf| == 1
    ensures r.Err? ==> r.error == ChunkSize
    ensures r.Ok? ==> 0 <= r.value <= 255 && [r.value] == buf
  {
    if |buf| != 1 then Err(ChunkSize)
    else Ok(buf[0])
  }

  /** The 1-byte encoding of a number in 0..255. */
  function ByteToBytes(v: int): (r: Result<seq<byte>>)
    ensures r.Ok? <==> 0 <= v <= 255
    ensures r.Err? ==> r.error == Range
    ensures r.Ok? ==> |r.value| == 1
  {
    if v < 0 then Err(Range)
    else if v > 255 then Err(Range)
    else Ok([v])
  }

  /** Decoding an encoded word gives the word back. */
  lemma WordRoundTrip(v: int)
    requires 0 <= v <= 65535
    ensures BytesToWord(WordToBytes(v).value) == Ok(v)
  {
  }

  /** Encoding a decoded 2-byte buffer gives the buffer back. */
  lemma WordBytesRoundTrip(buf: seq<byte>)
    requires |buf| == 2
    ensures WordToBytes(BytesToWord(buf).value) == Ok(buf)
  {
    assert buf == [buf[0], buf[1]];
  }

  /** Decoding an encoded byte gives the byte back. */
  lemma ByteRoundTrip(v: int)
    requires 0 <= v <= 255
    ensures BytesToByte(ByteToBytes(v).value) == Ok(v)
  {
  }

  /** Encoding a decoded 1-byte buffer gives the buffer back. */
  lemma ByteBytesRoundTrip(buf: seq<byte>)
    requires |buf| == 1
    ensures ByteToBytes(BytesToByte(buf).value) == Ok(buf)
  {
  }
}
