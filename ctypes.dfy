/** The fixed-width integer types of the C source (iotbroker.h), nullable values,
    and the byte-string semantics of strlen/strncpy/strcmp on NUL-terminated strings. */
module CTypes {

  type uint8 = x: int | 0 <= x < 0x100
  type uint16 = x: int | 0 <= x < 0x1_0000
  type uint32 = x: int | 0 <= x < 0x1_0000_0000

  /** A pointer that may be NULL. */
  datatype Option<+T> = None | Some(value: T)
  {
    predicate IsFailure() { None? }

    function PropagateFailure<U>(): Option<U>
      requires None?
    {
      None
    }

    function Extract(): T
      requires Some?
    {
      value
    }
  }

  /** SUCESS and FAILED of iotbroker.h. */
  const SUCESS := 0
  const FAILED := 1

  const NUL: uint8 := 0x00
  const SLASH: uint8 := 0x2F  // '/'
  const PLUS: uint8 := 0x2B   // '+'
  const HASH: uint8 := 0x23   // '#'

  // the QoS levels of a PUBLISH and of a subscription
  const QOS0: uint8 := 0
  const QOS1: uint8 := 1
  const QOS2: uint8 := 2

  /** `x & mask != 0` on a byte. */
  function HasFlag(x: uint8, mask: uint8): bool
  {
    (x as bv8) & (mask as bv8) != 0
  }

  /** The UINT16 wrap-around of `v++`. */
  function Inc16(v: uint16): (r: uint16)
    ensures v < 0xFFFF ==> r == v + 1
    ensures v == 0xFFFF ==> r == 0
  {
    (v + 1) % 0x1_0000
  }

  /** The two bytes `v/256`, `v%256` that write_uint16 stores. */
  function U16Bytes(v: uint16): (r: seq<uint8>)
    ensures |r| == 2
  {
    [v / 256, v % 256]
  }

  /** The value read_uint16 assembles as `msb * 256 + lsb`. */
  function Be16(msb: uint8, lsb: uint8): uint16
  {
    msb * 256 + lsb
  }

  lemma Be16OfU16Bytes(v: uint16)
    ensures Be16(U16Bytes(v)[0], U16Bytes(v)[1]) == v
  {
  }

  /** The bytes of `s` that strncpy/strlen see: everything before the first NUL. */
  function CStr(s: seq<uint8>): (r: seq<uint8>)
    ensures |r| <= |s| && r == s[..|r|]
    ensures NUL !in r
    ensures |r| < |s| ==> s[|r|] == NUL
  {
    if s == [] || s[0] == NUL then [] else [s[0]] + CStr(s[1..])
  }

  /** The string ends at the first NUL, whatever follows it. */
  lemma {:induction false} CStrPrefix(s: seq<uint8>, rest: seq<uint8>)
    requires NUL !in s
    ensures CStr(s + [NUL] + rest) == s
    decreases |s|
  {
    if s != [] {
      assert (s + [NUL] + rest)[1..] == s[1..] + [NUL] + rest;
      CStrPrefix(s[1..], rest);
    }
  }

  lemma CStrOfNulFree(s: seq<uint8>)
    requires NUL !in s
    ensures CStr(s) == s
  {
  }
}
