/** Byte-level helpers shared by the network programs: the big-endian header words of
    htonl/ntohl, files that may be read in arbitrarily short pieces, and bulk_read. */
module SopNet {

  type byte = x: int | 0 <= x < 256

  const TWO_31: int := 0x8000_0000
  const TWO_32: int := 0x1_0000_0000

  type int32 = x: int | -TWO_31 <= x < TWO_31

  function Min(a: nat, b: nat): nat {
    if a <= b then a else b
  }

  function Zeros(n: nat): (z: seq<byte>)
    ensures |z| == n && forall i :: 0 <= i < n ==> z[i] == 0
  {
    seq(n, _ => 0)
  }

  /** The four bytes that storing htonl(x) leaves in memory. */
  function Htonl(x: int32): (b: seq<byte>)
    ensures |b| == 4
  {
    var u := if x < 0 then x + TWO_32 else x;
    [u / 0x100_0000, u / 0x1_0000 % 256, u / 256 % 256, u % 256]
  }

  /** ntohl of four bytes, read as a signed 32-bit integer. */
  function Ntohl(b: seq<byte>): int32
    requires |b| == 4
  {
    var u: int := b[0] as int * 0x100_0000 + b[1] as int * 0x1_0000 + b[2] as int * 256 + b[3] as int;
    if u < TWO_31 then u else u - TWO_32
  }

  lemma NtohlHtonl(x: int32)
    ensures Ntohl(Htonl(x)) == x
  {
    var u := if x < 0 then x + TWO_32 else x;
    assert u / 256 == u / 0x1_0000 * 256 + u / 256 % 256;
    assert u / 0x1_0000 == u / 0x100_0000 * 256 + u / 0x1_0000 % 256;
  }

  /** The bytes are the two's complement number, most significant byte first. */
  lemma HtonlIsBigEndian(x: int32)
    ensures var b := Htonl(x);
            b[0] as int * 16777216 + b[1] as int * 65536 + b[2] as int * 256 + b[3] as int
            == if x < 0 then x + 4294967296 else x
  {
    var u := if x < 0 then x + TWO_32 else x;
    assert u / 256 == u / 0x1_0000 * 256 + u / 256 % 256;
    assert u / 0x1_0000 == u / 0x100_0000 * 256 + u / 0x1_0000 % 256;
  }

  /** `buf` with `data` written over it from index `start` on. */
  function Overlay(buf: seq<byte>, start: nat, data: seq<byte>): (r: seq<byte>)
    requires start + |data| <= |buf|
    ensures |r| == |buf|
  {
    buf[..start] + data + buf[start + |data|..]
  }

  lemma OverlayTwice(buf: seq<byte>, start: nat, x: seq<byte>, y: seq<byte>)
    requires start + |x| + |y| <= |buf|
    ensures Overlay(Overlay(buf, start, x), start + |x|, y) == Overlay(buf, start, x + y)
  {
  }

  /** An open file: its bytes and the read offset the kernel keeps. */
  class File {
    const data: seq<byte>
    var pos: nat
    /** A read of this file has returned an error. */
    ghost var failed: bool

    constructor (data: seq<byte>)
      ensures this.data == data && pos == 0 && !failed
    {
      this.data := data;
      pos := 0;
      failed := false;
    }

    ghost predicate Valid()
      reads this
    {
      pos <= |data|
    }

    /** read(2): any positive number of the bytes asked for, 0 exactly at end of file
        (or when nothing was asked for), or an error. */
    method Read(buf: array<byte>, off: nat, count: nat) returns (c: int)
      requires Valid() && off + count <= buf.Length
      modifies this, buf
      ensures Valid() && -1 <= c <= Min(count, |data| - old(pos))
      ensures c == 0 ==> count == 0 || old(pos) == |data|
      ensures failed == (old(failed) || c < 0)
      ensures c < 0 ==> pos == old(pos) && buf[..] == old(buf[..])
      ensures c >= 0 ==> pos == old(pos) + c
      ensures c >= 0 ==> buf[..] == Overlay(old(buf[..]), off, data[old(pos)..pos])
    {
      var m := Min(count, |data| - pos);
      if * {
        failed := true;
        return -1;
      }
      c := 0;
      if m > 0 {
        c :| 0 < c <= m;
      }
      forall i | 0 <= i < c {
        buf[off + i] := data[pos + i];
      }
      pos := pos + c;
    }
  }

  /** bulk_read: keeps reading until `count` bytes have arrived or the file ends.  Whatever
      short reads happen, a non-negative result means the longest available prefix of the
      rest of the file, placed contiguously from `start` on, and nothing else touched. */
  method BulkRead(f: File, buf: array<byte>, start: nat, count: nat) returns (len: int)
    requires f.Valid() && !f.failed && start + count <= buf.Length
    modifies f, buf
    ensures f.Valid() && (len == -1 <==> f.failed)
    ensures len == -1 || len == Min(count, |f.data| - old(f.pos))
    ensures len >= 0 ==> f.pos == old(f.pos) + len
    ensures len >= 0 ==> buf[..] == Overlay(old(buf[..]), start, f.data[old(f.pos)..f.pos])
  {
    len := 0;
    var off, left := start, count;
    while true
      invariant f.Valid() && !f.failed && 0 <= len && off == start + len && left == count - len
      invariant len <= Min(count, |f.data| - old(f.pos)) && f.pos == old(f.pos) + len
      invariant buf[..] == Overlay(old(buf[..]), start, f.data[old(f.pos)..f.pos])
      decreases left
    {
      ghost var p := f.pos;
      var c := f.Read(buf, off, left);
      if c < 0 {
        return c;
      }
      if c == 0 {
        return;
      }
      OverlayTwice(old(buf[..]), start, f.data[old(f.pos)..p], f.data[p..f.pos]);
      assert f.data[old(f.pos)..p] + f.data[p..f.pos] == f.data[old(f.pos)..f.pos];
      off := off + c;
      len := len + c;
      left := left - c;
      if left == 0 {
        return;
      }
    }
  }
}
