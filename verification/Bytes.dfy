/** Machine integers, little-endian fields and C strings, as the packet code sees memory. */
module Bytes {

  type byte = x: int | 0 <= x < 0x100
  type uint16 = x: int | 0 <= x < 0x1_0000
  type uint32 = x: int | 0 <= x < 0x1_0000_0000

  /** The two bytes `memcpy` moves for a 16-bit field on a little-endian machine. */
  function Bytes16(x: uint16): (b: seq<byte>)
    ensures |b| == 2
  {
    [x % 0x100, x / 0x100]
  }

  function Value16(b: seq<byte>): uint16
    requires |b| == 2
  {
    var lo: int, hi: int := b[0], b[1];
    lo + 0x100 * hi
  }

  /** The four bytes of a 32-bit field, least significant first. */
  function Bytes32(x: uint32): (b: seq<byte>)
    ensures |b| == 4
  {
    Bytes16(x % 0x1_0000) + Bytes16(x / 0x1_0000)
  }

  function Value32(b: seq<byte>): uint32
    requires |b| == 4
  {
    var lo: int, hi: int := Value16(b[..2]), Value16(b[2..]);
    lo + 0x1_0000 * hi
  }

  /** The least significant byte comes first. */
  lemma LittleEndian(x: uint32)
    ensures var b: seq<int> := Bytes32(x); b[0] + 0x100 * b[1] + 0x1_0000 * b[2] + 0x100_0000 * b[3] == x
  {
  }

  lemma Bytes16RoundTrip(x: uint16, b: seq<byte>)
    requires |b| == 2
    ensures Value16(Bytes16(x)) == x
    ensures Bytes16(Value16(b)) == b
  {
  }

  lemma Bytes32RoundTrip(x: uint32, b: seq<byte>)
    requires |b| == 4
    ensures Value32(Bytes32(x)) == x
    ensures Bytes32(Value32(b)) == b
  {
    var lo, hi := Bytes16(x % 0x1_0000), Bytes16(x / 0x1_0000);
    assert Bytes32(x)[..2] == lo && Bytes32(x)[2..] == hi;
    Bytes16RoundTrip(x % 0x1_0000, b[..2]);
    Bytes16RoundTrip(x / 0x1_0000, b[2..]);
    var v: int, w: int := Value16(b[..2]), Value16(b[2..]);
    assert (v + 0x1_0000 * w) % 0x1_0000 == v && (v + 0x1_0000 * w) / 0x1_0000 == w;
    assert b[..2] + b[2..] == b;
  }

  /** The C string held in a buffer: everything before the first NUL byte. */
  function CString(buffer: seq<byte>): (s: seq<byte>)
    ensures |s| <= |buffer| && s == buffer[..|s|] && 0 !in s
    ensures |s| < |buffer| ==> buffer[|s|] == 0
  {
    if buffer == [] || buffer[0] == 0 then [] else [buffer[0]] + CString(buffer[1..])
  }

  /** A terminator behind NUL-free text ends the string exactly there, whatever follows. */
  lemma {:induction false} CStringOfTerminated(text: seq<byte>, rest: seq<byte>)
    requires 0 !in text
    ensures CString(text + [0] + rest) == text
  {
    var all := text + [0] + rest;
    if text != [] {
      assert all[1..] == text[1..] + [0] + rest;
      CStringOfTerminated(text[1..], rest);
    }
  }

  /** `memcpy`: writes `src` into `dst` from index `at` on and nothing else. */
  method MemCopy(dst: array<byte>, at: nat, src: seq<byte>)
    requires at + |src| <= dst.Length
    modifies dst
    ensures dst[..] == old(dst[..at]) + src + old(dst[at + |src|..])
  {
    for i := 0 to |src|
      invariant dst[..at] == old(dst[..at]) && dst[at..at + i] == src[..i]
      invariant dst[at + i..] == old(dst[at + i..])
    {
      dst[at + i] := src[i];
      assert dst[at..at + i + 1] == dst[at..at + i] + [src[i]];
    }
    assert dst[..] == dst[..at] + dst[at..at + |src|] + dst[at + |src|..];
  }
}
