/** The two `struct` formats the codec uses: `'!I'` (4-byte big-endian
    unsigned) and `'!Q'` (8-byte big-endian unsigned). Packing a value outside
    the format's range raises `struct.error`. */
module Struct {
  import opened Base

  const Two32: int := 0x1_0000_0000
  const Two64: int := 0x1_0000_0000_0000_0000

  predicate FitsU32(x: int) { 0 <= x < Two32 }
  predicate FitsU64(x: int) { 0 <= x < Two64 }

  /** The four bytes of `x`, most significant first. */
  function BE32(x: int): (r: seq<byte>)
    requires FitsU32(x)
    ensures |r| == 4
  {
    [x / 0x100_0000, x / 0x1_0000 % 0x100, x / 0x100 % 0x100, x % 0x100]
  }

  /** The eight bytes of `x`, most significant first. */
  function BE64(x: int): (r: seq<byte>)
    requires FitsU64(x)
    ensures |r| == 8
  {
    BE32(x / Two32) + BE32(x % Two32)
  }

  /** `struct.unpack('!I', s)[0]` for a 4-byte `s`. */
  function Unpack32(s: seq<byte>): (x: int)
    requires |s| == 4
    ensures FitsU32(x)
  {
    (s[0] as int) * 0x100_0000 + (s[1] as int) * 0x1_0000 + (s[2] as int) * 0x100 + (s[3] as int)
  }

  /** `struct.unpack('!Q', s)[0]` for an 8-byte `s`. */
  function Unpack64(s: seq<byte>): (x: int)
    requires |s| == 8
    ensures FitsU64(x)
  {
    Unpack32(s[..4]) * Two32 + Unpack32(s[4..])
  }

  /** `struct.pack('!I', x)`. */
  function Pack32(x: int): (r: Result<seq<byte>>)
    ensures r.Ok? <==> FitsU32(x)
    ensures r.Ok? ==> r.value == BE32(x) && |r.value| == 4 && Unpack32(r.value) == x
    ensures r.Err? ==> r.error == StructError
  {
    if FitsU32(x) then Unpack32BE32(x); Ok(BE32(x)) else Err(StructError)
  }

  /** `struct.pack('!Q', x)`. */
  function Pack64(x: int): (r: Result<seq<byte>>)
    ensures r.Ok? <==> FitsU64(x)
    ensures r.Ok? ==> r.value == BE64(x) && |r.value| == 8 && Unpack64(r.value) == x
    ensures r.Err? ==> r.error == StructError
  {
    if FitsU64(x) then Unpack64BE64(x); Ok(BE64(x)) else Err(StructError)
  }

  /** Dividing by 2^16 and then by 2^8 is dividing by 2^24, and likewise for
      2^8 then 2^8. */
  lemma DivShift(x: int)
    requires 0 <= x
    ensures x / 0x1_0000 / 0x100 == x / 0x100_0000
    ensures x / 0x100 / 0x100 == x / 0x1_0000
  {
    var y, q, z := x / 0x1_0000, x / 0x100_0000, x / 0x1_0000 / 0x100;
    assert 0x1_0000 * y <= x < 0x1_0000 * y + 0x1_0000;
    assert 0x100_0000 * q <= x < 0x100_0000 * q + 0x100_0000;
    assert 0x100 * z <= y < 0x100 * z + 0x100;
    var u, v := x / 0x100, x / 0x100 / 0x100;
    assert 0x100 * u <= x < 0x100 * u + 0x100;
    assert 0x100 * v <= u < 0x100 * v + 0x100;
  }

  lemma Unpack32BE32(x: int)
    requires FitsU32(x)
    ensures Unpack32(BE32(x)) == x
  {
    var a, b, c, d := x / 0x100_0000, x / 0x1_0000 % 0x100, x / 0x100 % 0x100, x % 0x100;
    DivShift(x);
    assert x / 0x1_0000 == a * 0x100 + b;
    assert x / 0x100 == (x / 0x1_0000) * 0x100 + c;
    assert x == (x / 0x100) * 0x100 + d;
    assert Unpack32(BE32(x)) == a * 0x100_0000 + b * 0x1_0000 + c * 0x100 + d;
  }

  lemma Unpack64BE64(x: int)
    requires FitsU64(x)
    ensures Unpack64(BE64(x)) == x
  {
    var s := BE64(x);
    assert s[..4] == BE32(x / Two32);
    assert s[4..] == BE32(x % Two32);
    Unpack32BE32(x / Two32);
    Unpack32BE32(x % Two32);
  }
}
