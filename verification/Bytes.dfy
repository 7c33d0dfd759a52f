/** Bytes, big-endian numbers and the status word at the end of a response APDU. */
module Bytes {
  import opened Arithmetic

  type byte = x: int | 0 <= x < 256
  type bytes = seq<byte>

  datatype Option<+T> = None | Some(value: T) {
    function GetOr(default: T): T {
      if Some? then value else default
    }
  }

  /** The number a byte string denotes, most significant byte first. */
  function BigEndian(s: bytes): nat {
    if s == [] then 0 else BigEndian(s[..|s| - 1]) * 256 + s[|s| - 1]
  }

  lemma {:induction false} BigEndianBound(s: bytes)
    ensures BigEndian(s) < Pow(256, |s|)
  {
    if s != [] {
      BigEndianBound(s[..|s| - 1]);
    }
  }

  /** Four bytes shifted together, as the parsers do it for serial numbers and codes. */
  function Word32(a: int, b: int, c: int, d: int): int {
    ((a * 256 + b) * 256 + c) * 256 + d
  }

  lemma BigEndianFour(s: bytes)
    requires |s| == 4
    ensures BigEndian(s) == Word32(s[0], s[1], s[2], s[3]) < 0x1_0000_0000
  {
    assert s[..3][..2] == s[..2] && s[..2][..1] == s[..1] && s[..1][..0] == [];
    assert BigEndian(s[..1]) == s[0];
    assert BigEndian(s[..2]) == BigEndian(s[..1]) * 256 + s[1];
    assert BigEndian(s[..3]) == BigEndian(s[..2]) * 256 + s[2];
  }

  const SW_SUCCESS := 0x9000

  /** The last two bytes as a 16-bit number; 0 when there are fewer than two. */
  function StatusWord(response: bytes): nat {
    if |response| < 2 then 0 else BigEndian(response[|response| - 2..])
  }

  /** The response without its status word. */
  function Payload(response: bytes): bytes
    requires |response| >= 2
  {
    response[..|response| - 2]
  }

  lemma EndsWell(data: bytes)
    ensures StatusWord(data + [0x90, 0x00]) == SW_SUCCESS && Payload(data + [0x90, 0x00]) == data
  {
    var two: bytes := [0x90, 0x00];
    assert (data + two)[|data + two| - 2..] == two;
    assert two[..1][..0] == [] && two[..1] == [0x90];
    assert BigEndian(two[..1]) == 0x90;
  }
}
