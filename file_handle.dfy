/** An in-memory stand-in for the unbuffered binary file object that
    laa-tool opens: the file's bytes and the current seek position.
 */
module Files {
  import opened Codec

  function Min(a: int, b: int): int { if a <= b then a else b }

  function Max(a: int, b: int): int { if a <= b then b else a }

  /** The bytes that `read(n)` returns at position p of a file holding s:
      at most n, fewer near the end of the file, none past it. */
  function ReadAt(s: seq<byte>, p: nat, n: nat): (r: seq<byte>)
    ensures |r| == if p >= |s| then 0 else Min(n, |s| - p)
    ensures forall i :: 0 <= i < |r| ==> r[i] == s[p + i]
  {
    s[Min(p, |s|)..Min(p + n, |s|)]
  }

  /** The file contents after `write(buf)` at position p of a file holding
      s: the bytes of buf replace those at p.., the file grows when the
      write runs past its end, and a gap before p is filled with zeros. */
  function WriteAt(s: seq<byte>, p: nat, buf: seq<byte>): (r: seq<byte>)
    ensures |r| == Max(|s|, p + |buf|)
    ensures forall i :: 0 <= i < |r| ==>
              r[i] == if p <= i < p + |buf| then buf[i - p]
                      else if i < |s| then s[i]
                      else 0
  {
    var padded := if p <= |s| then s else s + seq(p - |s|, _ => 0);
    padded[..p] + buf + padded[Min(p + |buf|, |padded|)..]
  }

  /** An opened file: its contents and its seek position. */
  class FileHandle {
    var data: array<byte>
    var pos: nat

    /** Opening a file holding `contents`; the position starts at 0. */
    constructor (contents: seq<byte>)
      ensures fresh(data) && data[..] == contents && pos == 0
    {
      data := new byte[|contents|](i requires 0 <= i < |contents| => contents[i]);
      pos := 0;
    }

    /** `seek(p, SEEK_SET)`: any non-negative position, also past the end. */
    method Seek(p: nat)
      modifies this`pos
      ensures pos == p
    {
      pos := p;
    }

    /** `read(n)`: the available bytes, moving the position past them. */
    method Read(n: nat) returns (r: seq<byte>)
      modifies this`pos
      ensures r == ReadAt(data[..], old(pos), n)
      ensures pos == old(pos) + |r|
    {
      var lo := Min(pos, data.Length);
      var hi := Min(pos + n, data.Length);
      r := data[lo..hi];
      pos := pos + |r|;
    }

    /** `write(buf)` at the current position. The array is replaced by a
        larger one only when the write runs past the end of the file. */
    method Write(buf: seq<byte>)
      modifies this, data
      ensures data[..] == WriteAt(old(data[..]), old(pos), buf)
      ensures pos == old(pos) + |buf|
      ensures old(pos) + |buf| <= old(data.Length) ==> data == old(data)
      ensures data == old(data) || fresh(data)
    {
      var end := pos + |buf|;
      if end > data.Length {
        var grown := new byte[end](_ => 0);
        forall i | 0 <= i < data.Length {
          grown[i] := data[i];
        }
        data := grown;
      }
      forall i | 0 <= i < |buf| {
        data[pos + i] := buf[i];
      }
      pos := end;
    }
  }
}
