/** Machine integers and little-endian byte images shared by every other module. */
module Bytes {

  type byte = x: int | 0 <= x < 0x100
  type u16 = x: int | 0 <= x < 0x1_0000
  type u32 = x: int | 0 <= x < 0x1_0000_0000
  type u64 = x: int | 0 <= x < 0x1_0000_0000_0000_0000

  datatype Option<+T> = None | Some(value: T)

  function Le16(v: u16): (s: seq<byte>)
    ensures |s| == 2
  {
    [v % 256, v / 256]
  }

  function Le32(v: u32): (s: seq<byte>)
    ensures |s| == 4
  {
    Le16(v % 0x1_0000) + Le16(v / 0x1_0000)
  }

  function Le64(v: u64): (s: seq<byte>)
    ensures |s| == 8
  {
    Le32(v % 0x1_0000_0000) + Le32(v / 0x1_0000_0000)
  }

  function Get16(s: seq<byte>): u16
    requires |s| >= 2
  {
    var lo: int, hi: int := s[0], s[1];
    lo + 256 * hi
  }

  function Get32(s: seq<byte>): u32
    requires |s| >= 4
  {
    var lo: int, hi: int := Get16(s), Get16(s[2..]);
    lo + 0x1_0000 * hi
  }

  function Get64(s: seq<byte>): u64
    requires |s| >= 8
  {
    var lo: int, hi: int := Get32(s), Get32(s[4..]);
    lo + 0x1_0000_0000 * hi
  }

  lemma Get16Le16(v: u16, tail: seq<byte>)
    ensures Get16(Le16(v) + tail) == v
  {
  }

  lemma Get32Le32(v: u32, tail: seq<byte>)
    ensures Get32(Le32(v) + tail) == v
  {
    var lo, hi := v % 0x1_0000, v / 0x1_0000;
    assert Le32(v) + tail == Le16(lo) + (Le16(hi) + tail);
    assert (Le32(v) + tail)[2..] == Le16(hi) + tail;
    Get16Le16(lo, Le16(hi) + tail);
    Get16Le16(hi, tail);
  }

  lemma Get64Le64(v: u64, tail: seq<byte>)
    ensures Get64(Le64(v) + tail) == v
  {
    var lo, hi := v % 0x1_0000_0000, v / 0x1_0000_0000;
    assert Le64(v) + tail == Le32(lo) + (Le32(hi) + tail);
    assert (Le64(v) + tail)[4..] == Le32(hi) + tail;
    Get32Le32(lo, Le32(hi) + tail);
    Get32Le32(hi, tail);
  }

  /** C strings: the characters before the terminating NUL of a fixed char buffer. */
  ghost predicate IsText(s: string) {
    forall i :: 0 <= i < |s| ==> 0 < s[i] as int < 0x100
  }

  /** The stored bytes of a C string, and back. */
  function TextBytes(s: string): (b: seq<byte>)
    requires IsText(s)
    ensures |b| == |s|
  {
    if s == [] then [] else [s[0] as int] + TextBytes(s[1..])
  }

  lemma {:induction false} TextBytesAt(s: string)
    requires IsText(s)
    ensures forall i :: 0 <= i < |s| ==> TextBytes(s)[i] == s[i] as int
    decreases |s|
  {
    if s != [] {
      TextBytesAt(s[1..]);
      forall i | 0 < i < |s|
        ensures TextBytes(s)[i] == s[i] as int
      {
        assert TextBytes(s)[i] == TextBytes(s[1..])[i - 1];
      }
    }
  }

  function BytesText(b: seq<byte>): (s: string)
    ensures |s| == |b|
  {
    if b == [] then "" else [b[0] as char] + BytesText(b[1..])
  }

  lemma {:induction false} BytesTextInverse(s: string)
    requires IsText(s)
    ensures BytesText(TextBytes(s)) == s
    decreases |s|
  {
    if s != [] {
      BytesTextInverse(s[1..]);
    }
  }

  lemma Assoc<T>(a: seq<T>, b: seq<T>, c: seq<T>)
    ensures (a + b) + c == a + (b + c)
  {
  }

  /** A slice of a slice. */
  lemma SliceOfSlice<T>(s: seq<T>, lo: nat, hi: nat, i: nat, j: nat)
    requires lo <= hi <= |s| && i <= j <= hi - lo
    ensures s[lo..hi][i..j] == s[lo + i..lo + j]
  {
    forall k | 0 <= k < j - i
      ensures s[lo..hi][i..j][k] == s[lo + i..lo + j][k]
    {
    }
  }

  /** memcpy into a buffer, behind what is already there. */
  method CopyIn(a: array<byte>, at: nat, data: seq<byte>)
    requires at + |data| <= a.Length
    modifies a
    ensures a[..at + |data|] == old(a[..at]) + data
  {
    for i := 0 to |data|
      invariant a[..at] == old(a[..at])
      invariant a[at..at + i] == data[..i]
    {
      a[at + i] := data[i];
    }
  }
}
