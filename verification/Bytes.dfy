/** Bytes, little-endian fields, and replacing part of a buffer. */
module Bytes {

  type byte = b: nat | b < 256

  type Buf = seq<byte>

  /** `buf` with the bytes from `off` on replaced by `part`. */
  function Splice(buf: Buf, off: nat, part: Buf): (r: Buf)
    requires off + |part| <= |buf|
    ensures |r| == |buf|
    ensures r[off..off + |part|] == part
    ensures r[..off] == buf[..off] && r[off + |part|..] == buf[off + |part|..]
  {
    buf[..off] + part + buf[off + |part|..]
  }

  function LE16(v: nat): (r: Buf)
    requires v < 0x1_0000
    ensures |r| == 2
  {
    [v % 256, v / 256]
  }

  function LE32(v: nat): (r: Buf)
    requires v < 0x1_0000_0000
    ensures |r| == 4
  {
    LE16(v % 0x1_0000) + LE16(v / 0x1_0000)
  }

  function LE64(v: nat): (r: Buf)
    requires v < 0x1_0000_0000_0000_0000
    ensures |r| == 8
  {
    LE32(v % 0x1_0000_0000) + LE32(v / 0x1_0000_0000)
  }

  function U16(b: Buf): (v: nat)
    requires |b| == 2
    ensures v < 0x1_0000
  {
    b[0] as nat + b[1] as nat * 256
  }

  function U32(b: Buf): (v: nat)
    requires |b| == 4
    ensures v < 0x1_0000_0000
  {
    U16(b[..2]) + U16(b[2..]) * 0x1_0000
  }

  function U64(b: Buf): (v: nat)
    requires |b| == 8
    ensures v < 0x1_0000_0000_0000_0000
  {
    U32(b[..4]) + U32(b[4..]) * 0x1_0000_0000
  }

  lemma {:induction false} LE16Back(v: nat)
    requires v < 0x1_0000
    ensures U16(LE16(v)) == v
  {
  }

  lemma {:induction false} LE32Back(v: nat)
    requires v < 0x1_0000_0000
    ensures U32(LE32(v)) == v
  {
    LE16Back(v % 0x1_0000);
    LE16Back(v / 0x1_0000);
    assert LE32(v)[..2] == LE16(v % 0x1_0000) && LE32(v)[2..] == LE16(v / 0x1_0000);
  }

  lemma {:induction false} LE64Back(v: nat)
    requires v < 0x1_0000_0000_0000_0000
    ensures U64(LE64(v)) == v
  {
    LE32Back(v % 0x1_0000_0000);
    LE32Back(v / 0x1_0000_0000);
    assert LE64(v)[..4] == LE32(v % 0x1_0000_0000) && LE64(v)[4..] == LE32(v / 0x1_0000_0000);
  }

  /** A field read out of a buffer; zero when the buffer is too short. */
  function Read16(buf: Buf, off: nat): (v: nat)
    ensures v < 0x1_0000
  {
    if |buf| < off + 2 then 0 else U16(buf[off..off + 2])
  }

  function Read32(buf: Buf, off: nat): (v: nat)
    ensures v < 0x1_0000_0000
  {
    if |buf| < off + 4 then 0 else U32(buf[off..off + 4])
  }

  function Read64(buf: Buf, off: nat): nat {
    if |buf| < off + 8 then 0 else U64(buf[off..off + 8])
  }

  function Write16(buf: Buf, off: nat, v: nat): Buf
    requires v < 0x1_0000 && off + 2 <= |buf|
  {
    Splice(buf, off, LE16(v))
  }

  function Write32(buf: Buf, off: nat, v: nat): Buf
    requires v < 0x1_0000_0000 && off + 4 <= |buf|
  {
    Splice(buf, off, LE32(v))
  }

  /** Bytes that a splice does not overlap keep their value. */
  lemma {:induction false} SpliceApart(buf: Buf, off: nat, part: Buf, lo: nat, hi: nat)
    requires off + |part| <= |buf| && lo <= hi <= |buf|
    requires hi <= off || off + |part| <= lo
    ensures Splice(buf, off, part)[lo..hi] == buf[lo..hi]
  {
    var r := Splice(buf, off, part);
    if hi <= off {
      assert r[lo..hi] == r[..off][lo..hi];
      assert buf[lo..hi] == buf[..off][lo..hi];
    } else {
      var e := off + |part|;
      assert r[lo..hi] == r[e..][lo - e..hi - e];
      assert buf[lo..hi] == buf[e..][lo - e..hi - e];
    }
  }

  lemma {:induction false} SpliceInside(buf: Buf, off: nat, part: Buf, lo: nat, hi: nat)
    requires off + |part| <= |buf| && off <= lo <= hi <= off + |part|
    ensures Splice(buf, off, part)[lo..hi] == part[lo - off..hi - off]
  {
    assert Splice(buf, off, part)[lo..hi] == Splice(buf, off, part)[off..off + |part|][lo - off..hi - off];
  }

  function Zeros(n: nat): (z: Buf)
    ensures |z| == n && forall i :: 0 <= i < n ==> z[i] == 0
  {
    seq(n, _ => 0)
  }
}
