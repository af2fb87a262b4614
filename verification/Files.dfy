/** Files as the writer and the readers see them; every transfer succeeds. */
module Files {
  import opened Bytes

  function Min(a: nat, b: nat): nat {
    if a < b then a else b
  }

  function Overwrite(data: seq<byte>, off: nat, bytes: seq<byte>): (after: seq<byte>)
    requires off <= |data|
    ensures off + |bytes| <= |after|
    ensures |data| <= |after|
    ensures after[..off] == data[..off]
    ensures after[off..off + |bytes|] == bytes
    ensures forall i :: off + |bytes| <= i < |data| ==> after[i] == data[i]
  {
    data[..off] + bytes + data[Min(off + |bytes|, |data|)..]
  }

  /** An open file: its bytes and the offset at which the next transfer starts. */
  class File {
    var data: seq<byte>
    var off: nat

    constructor (data: seq<byte>)
      ensures this.data == data && off == 0
    {
      this.data, off := data, 0;
    }

    method Seek(pos: nat)
      modifies this`off
      ensures off == pos
    {
      off := pos;
    }

    method Read(buf: array<byte>, n: nat) returns (r: nat)
      requires n <= buf.Length && off <= |data|
      modifies this`off, buf
      ensures r == Min(n, |data| - old(off)) && off == old(off) + r
      ensures buf[..r] == data[old(off)..off]
    {
      r := Min(n, |data| - off);
      forall i | 0 <= i < r {
        buf[i] := data[off + i];
      }
      off := off + r;
    }

    method Write(bytes: seq<byte>)
      requires off <= |data|
      modifies this
      ensures data == Overwrite(old(data), old(off), bytes) && off == old(off) + |bytes|
    {
      data := Overwrite(data, off, bytes);
      off := off + |bytes|;
    }
  }
}
