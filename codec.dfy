/** The wire codec of the broker: the fixed-header byte, the base-128 remaining
    length (MQTT 3.1.1 section 2.2.3) as protocol.c encodes and decodes it, the
    encoded frame that write_packet assembles, and the Packet cursor with the
    field helpers of packet_handle.c (big-endian 16-bit fields and 16-bit
    length-prefixed strings, MQTT 3.1.1 section 1.5). */
module Codec {
  import opened CTypes

  // enum control_type (protocol.h)
  const MIN_CONTROL_TYPE := 0
  const CONNECT := 1
  const CONNACK := 2
  const PUBLISH := 3
  const PUBACK := 4
  const PUBREC := 5
  const PUBREL := 6
  const PUBCOMP := 7
  const SUBSCRIBE := 8
  const SUBACK := 9
  const UNSUBSCRIBE := 10
  const UNSUBACK := 11
  const PINGREQ := 12
  const PINGRESP := 13
  const DISCONNECT := 14
  const MAX_CONTROL_TYPE := 15

  // ---------------------------------------------------------------- header

  /** get_packet_type: the high nibble, accepted only strictly between
      MIN_CONTROL_TYPE and MAX_CONTROL_TYPE. */
  function GetPacketType(b: uint8): Option<int>
  {
    var t := b / 16;
    if t <= MIN_CONTROL_TYPE || t >= MAX_CONTROL_TYPE then None else Some(t)
  }

  /** get_packet_flag: the low nibble. */
  function GetPacketFlag(b: uint8): int
  {
    b % 16
  }

  predicate ValidHeader(t: int, f: int)
  {
    0 <= t < 16 && 0 <= f < 16
  }

  /** `type << 4 | flags`, the first byte write_packet emits. */
  function HeaderByte(t: int, f: int): uint8
    requires ValidHeader(t, f)
  {
    t * 16 + f
  }

  lemma HeaderRoundTrip(t: int, f: int)
    requires CONNECT <= t <= DISCONNECT && 0 <= f < 16
    ensures GetPacketType(HeaderByte(t, f)) == Some(t)
    ensures GetPacketFlag(HeaderByte(t, f)) == f
  {
  }

  lemma HeaderTypeRange(b: uint8)
    ensures GetPacketType(b).Some? <==> 1 <= b / 16 <= 14
    ensures GetPacketType(b).Some? ==> HeaderByte(GetPacketType(b).value, GetPacketFlag(b)) == b
    ensures GetPacketType(b).None? <==> (b < 16 || b >= 0xF0)
  {
  }

  // ------------------------------------------------------ remaining length

  function Pow128(k: nat): (r: nat)
    ensures r >= 1
  {
    if k == 0 then 1 else 128 * Pow128(k - 1)
  }

  /** The value a sequence of length bytes denotes: the sum of (b_i & 127) * 128^i. */
  function VarintValue(bs: seq<uint8>): nat
  {
    if bs == [] then 0 else bs[0] % 128 + 128 * VarintValue(bs[1..])
  }

  /** The bytes set_packet_remainlength emits for `n`: at least one byte, every
      byte but the last with bit 7 set, denoting `n`. */
  function Varint(n: nat): (r: seq<uint8>)
    ensures 1 <= |r|
    decreases n
  {
    if n < 128 then [n] else [n % 128 + 128] + Varint(n / 128)
  }

  /** Bit 7 marks every byte but the last. */
  lemma {:induction false} VarintMarks(n: nat)
    ensures forall i :: 0 <= i < |Varint(n)| - 1 ==> Varint(n)[i] >= 128
    ensures Varint(n)[|Varint(n)| - 1] < 128
    decreases n
  {
    if n >= 128 {
      VarintMarks(n / 128);
      var v := Varint(n);
      assert v == [n % 128 + 128] + Varint(n / 128);
    }
  }

  /** The bytes denote `n`. */
  lemma {:induction false} VarintDenotes(n: nat)
    ensures VarintValue(Varint(n)) == n
    decreases n
  {
    if n >= 128 {
      VarintDenotes(n / 128);
      var q, r := n / 128, n % 128;
      var v := Varint(n);
      assert v == [r + 128] + Varint(q);
      assert v[1..] == Varint(q);
      assert v[0] % 128 == r;
      assert VarintValue(v) == r + 128 * q;
    }
  }

  /** The first byte set_packet_remainlength emits for `n`, and what follows it. */
  lemma VarintStep(n: nat)
    ensures Varint(n)[0] == n % 128 + (if n / 128 > 0 then 128 else 0)
    ensures n / 128 > 0 ==> Varint(n)[1..] == Varint(n / 128)
    ensures n / 128 == 0 ==> |Varint(n)| == 1
  {
  }

  lemma DivFacts(n: nat)
    ensures n / 128 > 0 <==> n >= 128
    ensures n < 128 ==> n % 128 == n
  {
  }

  lemma DivBound(n: nat, p: nat)
    ensures n / 128 < p <==> n < 128 * p
  {
    var q, r := n / 128, n % 128;
    assert n == 128 * q + r;
    if q < p {
      assert 128 * q <= 128 * (p - 1);
    } else {
      assert 128 * q >= 128 * p;
    }
  }

  lemma {:induction false} VarintLength(n: nat, k: nat)
    requires 1 <= k
    ensures |Varint(n)| <= k <==> n < Pow128(k)
    decreases k
  {
    if k == 1 {
      assert Pow128(1) == 128;
    } else if n >= 128 {
      VarintLength(n / 128, k - 1);
      DivBound(n, Pow128(k - 1));
    } else {
      VarintLength(n, k - 1);
      assert Pow128(k) == 128 * Pow128(k - 1);
    }
  }

  /** The outcome of reading the remaining length from the stream. */
  datatype LengthResult =
    | LengthOk(value: nat, count: nat)  // the value and the number of length bytes
    | LengthClosed                      // the stream ended (read returned 0)
    | LengthTooLong                     // more length bytes than allowed were read

  /** The decode loop of iotbroker_read_packet, from the `i`-th length byte on,
      with `multiplier` = 128^i and `acc` the value accumulated so far. The
      loop fails once the multiplier, updated after each byte, exceeds
      128^maxBytes. */
  function DecodeLengthFrom(s: seq<uint8>, i: nat, multiplier: nat, acc: nat, maxBytes: nat): (r: LengthResult)
    requires 1 <= multiplier <= Pow128(maxBytes)
    ensures r.LengthOk? ==> i < r.count <= |s|
    decreases Pow128(maxBytes) - multiplier
  {
    if i >= |s| then LengthClosed
    else
      var acc' := acc + (s[i] % 128) * multiplier;
      if multiplier * 128 > Pow128(maxBytes) then LengthTooLong
      else if s[i] >= 128 then DecodeLengthFrom(s, i + 1, multiplier * 128, acc', maxBytes)
      else LengthOk(acc', i + 1)
  }

  /** The bound of the loop as written: `multiplier > 128*128*128`, which
      rejects a 4th length byte. */
  const WRITTEN_LENGTH_BYTES := 3

  /** MAX_REMAIN_BYTE_LEN of protocol.h: the loop is meant to accept up to
      four length bytes, as MQTT 3.1.1 section 2.2.3 allows. */
  const MAX_REMAIN_BYTE_LEN := 4

  /** The largest remaining length four bytes carry. */
  const MAX_REMAIN_LENGTH := 0x0FFF_FFFF

  /** The remaining length as the loop of iotbroker_read_packet is written. */
  function DecodeLengthAsWritten(s: seq<uint8>): LengthResult
  {
    Pow128Small();
    DecodeLengthFrom(s, 0, 1, 0, WRITTEN_LENGTH_BYTES)
  }

  /** The remaining length with the intended bound of four bytes. */
  function DecodeLength(s: seq<uint8>): LengthResult
  {
    Pow128Small();
    DecodeLengthFrom(s, 0, 1, 0, MAX_REMAIN_BYTE_LEN)
  }

  /** The do-while loop of iotbroker_read_packet over an in-memory stream,
      with the bound MAX_REMAIN_BYTE_LEN. */
  method ReadRemainLength(s: seq<uint8>) returns (r: LengthResult)
    ensures r == DecodeLength(s)
  {
    Pow128Small();
    var limit := 128 * 128 * 128 * 128;
    var multiplier: nat, value: nat, counter: nat := 1, 0, 0;
    while true
      invariant 1 <= multiplier <= limit
      invariant DecodeLengthFrom(s, counter, multiplier, value, MAX_REMAIN_BYTE_LEN) == DecodeLength(s)
      decreases limit - multiplier
    {
      if counter >= |s| {
        return LengthClosed;
      }
      var b := s[counter];
      counter := counter + 1;
      value := value + (b % 128) * multiplier;
      multiplier := multiplier * 128;
      if multiplier > limit {
        return LengthTooLong;
      }
      if b < 128 {
        return LengthOk(value, counter);
      }
    }
  }

  lemma MulStep(acc: nat, n: nat, m: nat)
    ensures acc + (n % 128) * m + (n / 128) * (m * 128) == acc + n * m
  {
    var q, r := n / 128, n % 128;
    assert n == r + 128 * q;
    assert q * (m * 128) == (128 * q) * m;
    assert r * m + (128 * q) * m == (r + 128 * q) * m;
  }

  lemma Pow128Small()
    ensures Pow128(1) == 128 && Pow128(2) == 128 * 128 && Pow128(3) == 128 * 128 * 128
    ensures Pow128(4) == 128 * 128 * 128 * 128 == MAX_REMAIN_LENGTH + 1
  {
  }

  lemma {:induction false} Pow128Grows(i: nat, k: nat)
    requires i <= k
    ensures Pow128(i) <= Pow128(k)
    decreases k - i
  {
    if i < k {
      Pow128Grows(i + 1, k);
    }
  }

  lemma {:induction false} DecodeVarintFrom(s: seq<uint8>, i: nat, acc: nat, n: nat, k: nat)
    requires i <= k
    requires i + |Varint(n)| <= |s| && s[i..i + |Varint(n)|] == Varint(n)
    ensures Pow128(i) <= Pow128(k)
    ensures DecodeLengthFrom(s, i, Pow128(i), acc, k) ==
      if i + |Varint(n)| <= k then LengthOk(acc + n * Pow128(i), i + |Varint(n)|)
      else LengthTooLong
    decreases n
  {
    Pow128Grows(i, k);
    var v := Varint(n);
    var m := Pow128(i);
    VarintStep(n);
    assert s[i] == v[0];
    if n < 128 {
      assert n % 128 == n;
      if i < k {
        Pow128Grows(i + 1, k);
      }
    } else if i == k {
      assert m * 128 == Pow128(k + 1);
    } else {
      var rest := Varint(n / 128);
      assert s[i + 1..i + 1 + |rest|] == rest by {
        assert s[i + 1..i + 1 + |rest|] == s[i..i + |v|][1..];
      }
      var acc' := acc + (n % 128) * m;
      assert Pow128(i + 1) == m * 128;
      DecodeVarintFrom(s, i + 1, acc', n / 128, k);
      MulStep(acc, n, m);
    }
  }

  /** With a bound of `k` length bytes the decoder reads back exactly the
      lengths below 128^k and rejects every longer one. */
  lemma DecodeVarint(n: nat, rest: seq<uint8>, k: nat)
    requires 1 <= k
    ensures n < Pow128(k) ==> DecodeLengthFrom(Varint(n) + rest, 0, 1, 0, k) == LengthOk(n, |Varint(n)|)
    ensures n >= Pow128(k) ==> DecodeLengthFrom(Varint(n) + rest, 0, 1, 0, k) == LengthTooLong
  {
    var s := Varint(n) + rest;
    assert s[0..|Varint(n)|] == Varint(n);
    DecodeVarintFrom(s, 0, 0, n, k);
    VarintLength(n, k);
  }

  /** Every remaining length MQTT allows takes at most four bytes. */
  lemma VarintFits(n: nat)
    requires n <= MAX_REMAIN_LENGTH
    ensures |Varint(n)| <= MAX_REMAIN_BYTE_LEN
  {
    Pow128Small();
    VarintLength(n, 4);
  }

  /** The value read never exceeds what `maxBytes` length bytes can carry. */
  lemma {:induction false} DecodeLengthBound(s: seq<uint8>, i: nat, multiplier: nat, acc: nat, maxBytes: nat)
    requires 1 <= multiplier <= Pow128(maxBytes) && acc < multiplier
    ensures var r := DecodeLengthFrom(s, i, multiplier, acc, maxBytes); r.LengthOk? ==> r.value < Pow128(maxBytes)
    decreases Pow128(maxBytes) - multiplier
  {
    if i < |s| && multiplier * 128 <= Pow128(maxBytes) {
      var acc' := acc + (s[i] % 128) * multiplier;
      AccumulateBound(acc, s[i] % 128, multiplier);
      if s[i] >= 128 {
        DecodeLengthBound(s, i + 1, multiplier * 128, acc', maxBytes);
      }
    }
  }

  lemma AccumulateBound(acc: nat, d: nat, m: nat)
    requires acc < m && d < 128
    ensures acc + d * m < m * 128
  {
    assert d * m <= 127 * m;
  }

  /** A length read from the stream is one MQTT allows. */
  lemma DecodedLengthFits(s: seq<uint8>)
    ensures DecodeLength(s).LengthOk? ==> DecodeLength(s).value <= MAX_REMAIN_LENGTH
  {
    Pow128Small();
    DecodeLengthBound(s, 0, 1, 0, MAX_REMAIN_BYTE_LEN);
  }

  /** decode(encode(n)) = n for every remaining length MQTT allows. */
  lemma LengthRoundTrip(n: nat, rest: seq<uint8>)
    requires n <= MAX_REMAIN_LENGTH
    ensures DecodeLength(Varint(n) + rest) == LengthOk(n, |Varint(n)|)
  {
    Pow128Small();
    DecodeVarint(n, rest, MAX_REMAIN_BYTE_LEN);
  }

  /** As written, the loop reads back only the lengths below 2^21: every
      length that needs a 4th byte is rejected, although the encoder emits it
      and MAX_REMAIN_BYTE_LEN allows it. 2^21 itself shows it. */
  lemma FourthLengthByteRejected(n: nat, rest: seq<uint8>)
    ensures n < 0x20_0000 ==> DecodeLengthAsWritten(Varint(n) + rest) == LengthOk(n, |Varint(n)|)
    ensures 0x20_0000 <= n <= MAX_REMAIN_LENGTH ==>
      DecodeLengthAsWritten(Varint(n) + rest) == LengthTooLong && DecodeLength(Varint(n) + rest) == LengthOk(n, 4)
    ensures Varint(0x20_0000) == [0x80, 0x80, 0x80, 0x01]
  {
    Pow128Small();
    DecodeVarint(n, rest, WRITTEN_LENGTH_BYTES);
    DecodeVarint(n, rest, MAX_REMAIN_BYTE_LEN);
    if 0x20_0000 <= n <= MAX_REMAIN_LENGTH {
      VarintLength(n, 3);
      VarintLength(n, 4);
    }
    assert Varint(0x20_0000) == [0x80] + Varint(0x4000);
    assert Varint(0x4000) == [0x80] + Varint(0x80);
    assert Varint(0x80) == [0x80] + Varint(1);
  }

  /** A non-minimal length encoding is accepted, so re-encoding a decoded frame
      need not give back the bytes that were read. */
  lemma NonMinimalLengthAccepted()
    ensures DecodeLength([0x80, 0x00]) == LengthOk(0, 2)
    ensures Varint(0) == [0x00]
  {
    Pow128Small();
  }

  // ----------------------------------------------------------------- frames

  /** What a Packet holds when it is written out: type, flags, the remaining
      length put into the header, and the `load_pos` bytes written to its load. */
  datatype Frame = Frame(ptype: int, flags: int, remainLen: nat, payload: seq<uint8>)

  predicate ValidFrame(f: Frame)
  {
    ValidHeader(f.ptype, f.flags)
  }

  /** The bytes write_packet produces: the header byte, the varint of
      `remain_len` and the first `load_pos` bytes of the load. */
  function EncodeFrame(f: Frame): (r: seq<uint8>)
    requires ValidFrame(f)
    ensures |r| == 1 + |Varint(f.remainLen)| + |f.payload|
    ensures r[0] == HeaderByte(f.ptype, f.flags)
    ensures r[1..1 + |Varint(f.remainLen)|] == Varint(f.remainLen)
    ensures r[1 + |Varint(f.remainLen)|..] == f.payload
  {
    [HeaderByte(f.ptype, f.flags)] + Varint(f.remainLen) + f.payload
  }

  // --------------------------------------------------- payload field reads

  /** read_uint8 at `pos`: the byte and the advanced cursor; None past the payload. */
  function ReadU8At(load: seq<uint8>, pos: nat): (r: Option<(uint8, nat)>)
    ensures r.Some? <==> pos < |load|
    ensures r.Some? ==> r.value == (load[pos], pos + 1)
  {
    if pos + 1 <= |load| then Some((load[pos], pos + 1)) else None
  }

  /** read_uint16 at `pos`: big-endian, the cursor advanced by exactly 2. */
  function ReadU16At(load: seq<uint8>, pos: nat): (r: Option<(uint16, nat)>)
    ensures r.Some? <==> pos + 2 <= |load|
    ensures r.Some? ==> r.value.1 == pos + 2
  {
    if pos + 2 <= |load| then Some((Be16(load[pos], load[pos + 1]), pos + 2)) else None
  }

  /** read_str at `pos`: a 16-bit length L, then L bytes; the string is what
      strncpy copies (up to the first NUL) and the cursor moves by 2 + L. */
  function ReadStrAt(load: seq<uint8>, pos: nat): (r: Option<(seq<uint8>, nat)>)
    ensures r.Some? ==> pos + 2 <= r.value.1 <= |load|
    ensures r.Some? ==> |r.value.0| <= r.value.1 - pos - 2 && NUL !in r.value.0
  {
    match ReadU16At(load, pos)
    case None => None
    case Some((len, p)) =>
      if p + len <= |load| then Some((CStr(load[p..p + len]), p + len)) else None
  }

  /** read_remain_str at `pos`: the rest of the payload, with the length taken
      as UINT16 (`remain_len - load_pos` truncated to 16 bits). */
  function ReadRemainStrAt(load: seq<uint8>, pos: nat): (r: Option<(seq<uint8>, nat)>)
    ensures r.Some? <==> pos <= |load|
    ensures r.Some? ==> pos <= r.value.1 <= |load| && |r.value.0| < 0x1_0000 && NUL !in r.value.0
  {
    if pos <= |load| then
      var len := (|load| - pos) % 0x1_0000;
      Some((CStr(load[pos..pos + len]), pos + len))
    else None
  }

  /** write_uint16 followed by read_uint16 at the same position gives the value back. */
  lemma U16RoundTrip(load: seq<uint8>, pos: nat, v: uint16)
    requires pos + 2 <= |load|
    ensures ReadU16At(load[pos := v / 256][pos + 1 := v % 256], pos) == Some((v, pos + 2))
  {
  }

  /** read_str consumes 2 + L bytes, where L is the big-endian prefix. */
  lemma ReadStrConsumes(load: seq<uint8>, pos: nat)
    requires ReadStrAt(load, pos).Some?
    ensures ReadStrAt(load, pos).value.1 == pos + 2 + Be16(load[pos], load[pos + 1])
    ensures |ReadStrAt(load, pos).value.0| <= Be16(load[pos], load[pos + 1])
  {
  }

  /** read_remain_str reaches the end of the payload exactly when fewer than
      65536 bytes remain; longer contents are cut to the remainder mod 65536. */
  lemma ReadRemainStrEnds(load: seq<uint8>, pos: nat)
    requires pos <= |load|
    ensures ReadRemainStrAt(load, pos).Some?
    ensures ReadRemainStrAt(load, pos).value.1 == |load| <==> |load| - pos < 0x1_0000
  {
  }

  /** The bytes write_str emits for `s`: its 16-bit length, then the bytes. */
  function Str(s: seq<uint8>): (r: seq<uint8>)
    requires |s| < 0x1_0000
    ensures |r| == 2 + |s|
  {
    U16Bytes(|s|) + s
  }

  /** A string written with write_str reads back with read_str, wherever it
      sits in the payload and whatever follows it. */
  lemma StrRoundTrip(pre: seq<uint8>, s: seq<uint8>, rest: seq<uint8>)
    requires NUL !in s && |s| < 0x1_0000
    ensures ReadStrAt(pre + Str(s) + rest, |pre|) == Some((s, |pre| + 2 + |s|))
  {
    var load := pre + Str(s) + rest;
    var p := |pre|;
    assert load[p] == U16Bytes(|s|)[0] && load[p + 1] == U16Bytes(|s|)[1];
    Be16OfU16Bytes(|s|);
    assert load[p + 2..p + 2 + |s|] == s;
    CStrOfNulFree(s);
  }

  // ------------------------------------------------------ the Packet cursor

  /** The Packet struct of protocol.h: the load is the payload buffer and
      `loadPos` the cursor every field helper advances. */
  class Packet {
    var ptype: int
    var flags: uint8
    var remainLen: int
    var load: array<uint8>
    var currentPos: nat
    var loadPos: nat

    /** A decoded inbound packet as iotbroker_read_packet fills it. */
    constructor Inbound(t: int, f: uint8, payload: seq<uint8>, headerLen: nat)
      ensures ptype == t && flags == f && remainLen == |payload|
      ensures fresh(load) && load[..] == payload
      ensures currentPos == headerLen && loadPos == 0
    {
      ptype, flags, remainLen := t, f, |payload|;
      load := new uint8[|payload|](i requires 0 <= i < |payload| => payload[i]);
      currentPos, loadPos := headerLen, 0;
    }

    /** An outbound packet as the send_* builders allocate it: zeroed, with a
        load of `capacity` bytes and the cursor at 0. */
    constructor Outbound(t: int, f: uint8, len: int, capacity: nat)
      ensures ptype == t && flags == f && remainLen == len
      ensures fresh(load) && load.Length == capacity
      ensures currentPos == 0 && loadPos == 0
    {
      ptype, flags, remainLen := t, f, len;
      load := new uint8[capacity];
      currentPos, loadPos := 0, 0;
    }

    /** The frame this packet will be written as. */
    function Abs(): Frame
      reads this, load
      requires loadPos <= load.Length && remainLen >= 0
    {
      Frame(ptype, flags, remainLen, load[..loadPos])
    }

    method ReadUint8() returns (r: Option<uint8>)
      modifies this`loadPos
      ensures r == (match ReadU8At(load[..], old(loadPos)) case None => None case Some(x) => Some(x.0))
      ensures loadPos == (match ReadU8At(load[..], old(loadPos)) case None => old(loadPos) case Some(x) => x.1)
    {
      if loadPos + 1 > load.Length {
        return None;
      }
      r := Some(load[loadPos]);
      loadPos := loadPos + 1;
    }

    method ReadUint16() returns (r: Option<uint16>)
      modifies this`loadPos
      ensures r == (match ReadU16At(load[..], old(loadPos)) case None => None case Some(x) => Some(x.0))
      ensures loadPos == (match ReadU16At(load[..], old(loadPos)) case None => old(loadPos) case Some(x) => x.1)
    {
      if loadPos + 2 > load.Length {
        return None;
      }
      var msb := load[loadPos];
      loadPos := loadPos + 1;
      var lsb := load[loadPos];
      loadPos := loadPos + 1;
      r := Some(Be16(msb, lsb));
    }

    method ReadStr() returns (r: Option<seq<uint8>>)
      modifies this`loadPos
      ensures r == (match ReadStrAt(load[..], old(loadPos)) case None => None case Some(x) => Some(x.0))
      ensures loadPos == (match ReadStrAt(load[..], old(loadPos)) case None => old(loadPos) case Some(x) => x.1)
    {
      var start := loadPos;
      var len := ReadUint16();
      if len.None? || loadPos + len.value > load.Length {
        loadPos := start;
        return None;
      }
      r := Some(CStr(load[loadPos..loadPos + len.value]));
      loadPos := loadPos + len.value;
    }

    method ReadRemainStr() returns (r: Option<seq<uint8>>)
      modifies this`loadPos
      ensures r == (match ReadRemainStrAt(load[..], old(loadPos)) case None => None case Some(x) => Some(x.0))
      ensures loadPos == (match ReadRemainStrAt(load[..], old(loadPos)) case None => old(loadPos) case Some(x) => x.1)
    {
      if loadPos > load.Length {
        return None;
      }
      var len := (load.Length - loadPos) % 0x1_0000;
      r := Some(CStr(load[loadPos..loadPos + len]));
      loadPos := loadPos + len;
    }

    method WriteUint8(v: uint8)
      requires loadPos + 1 <= load.Length
      modifies this`loadPos, load
      ensures load[..] == old(load[..])[old(loadPos) := v]
      ensures loadPos == old(loadPos) + 1
    {
      load[loadPos] := v;
      loadPos := loadPos + 1;
    }

    method WriteUint16(v: uint16)
      requires loadPos + 2 <= load.Length
      modifies this`loadPos, load
      ensures load[..] == old(load[..])[old(loadPos) := v / 256][old(loadPos) + 1 := v % 256]
      ensures loadPos == old(loadPos) + 2
    {
      load[loadPos] := v / 256;
      loadPos := loadPos + 1;
      load[loadPos] := v % 256;
      loadPos := loadPos + 1;
    }

    /** write_remain_str: the bytes of `s`, with no prefix. */
    method WriteRemainStr(s: seq<uint8>)
      requires loadPos + |s| <= load.Length
      modifies this`loadPos, load
      ensures loadPos == old(loadPos) + |s|
      ensures load[..old(loadPos)] == old(load[..loadPos])
      ensures load[old(loadPos)..loadPos] == s
    {
      var i := 0;
      while i < |s|
        invariant 0 <= i <= |s|
        invariant load[..old(loadPos)] == old(load[..loadPos])
        invariant load[old(loadPos)..old(loadPos) + i] == s[..i]
        invariant loadPos == old(loadPos) + i
      {
        load[loadPos] := s[i];
        loadPos := loadPos + 1;
        i := i + 1;
      }
    }

    /** write_str: the 16-bit length of `s`, then its bytes. */
    method WriteStr(s: seq<uint8>)
      requires |s| < 0x1_0000
      requires loadPos + 2 + |s| <= load.Length
      modifies this`loadPos, load
      ensures loadPos == old(loadPos) + 2 + |s|
      ensures load[..old(loadPos)] == old(load[..loadPos])
      ensures load[old(loadPos)..loadPos] == U16Bytes(|s|) + s
    {
      WriteUint16(|s|);
      WriteRemainStr(s);
    }

    /** set_packet_remainlength: the varint of `remainLen` into `buf` at `currentPos`. */
    method SetRemainLength(buf: array<uint8>)
      requires remainLen >= 0
      requires currentPos + |Varint(remainLen)| <= buf.Length
      modifies this`currentPos, buf
      ensures currentPos == old(currentPos) + |Varint(remainLen)|
      ensures buf[..] == old(buf[..])[..old(currentPos)] + Varint(remainLen) + old(buf[..])[currentPos..]
    {
      var n: nat := remainLen;
      var pos := currentPos;
      ghost var v := Varint(remainLen);
      ghost var start := pos;
      ghost var was := buf[..];
      while true
        invariant start <= pos && pos + |Varint(n)| <= buf.Length
        invariant pos - start + |Varint(n)| == |v| && v[pos - start..] == Varint(n)
        invariant forall k :: 0 <= k < buf.Length && !(start <= k < pos) ==> buf[k] == was[k]
        invariant forall k :: start <= k < pos ==> buf[k] == v[k - start]
        decreases n
      {
        VarintStep(n);
        var encoded := n % 128;
        n := n / 128;
        if n > 0 {
          encoded := encoded + 128;
        }
        buf[pos] := encoded;
        pos := pos + 1;
        if n == 0 {
          currentPos := pos;
          assert buf[..] == was[..start] + v + was[pos..];
          return;
        }
      }
    }
  }

  /** The memcpy of write_packet: `n` bytes of `src` into `buf` at `at`. */
  method CopyInto(buf: array<uint8>, at: nat, src: array<uint8>, n: nat)
    requires n <= src.Length && at + n <= buf.Length && buf != src
    modifies buf
    ensures buf[..at] == old(buf[..at]) && buf[at..at + n] == src[..n]
  {
    var i := 0;
    while i < n
      invariant 0 <= i <= n
      invariant buf[..at] == old(buf[..at])
      invariant buf[at..at + i] == src[..i]
    {
      buf[at + i] := src[i];
      i := i + 1;
    }
  }

  /** write_packet: the header byte, the remaining length and the `load_pos`
      bytes of the load, in a buffer of `5 + remain_len` bytes. */
  method WritePacket(p: Packet) returns (buf: array<uint8>, bufLen: nat)
    requires 0 <= p.remainLen <= MAX_REMAIN_LENGTH
    requires p.loadPos <= p.load.Length && p.loadPos <= p.remainLen
    requires ValidHeader(p.ptype, p.flags)
    modifies p`currentPos
    ensures fresh(buf) && bufLen <= buf.Length
    ensures buf[..bufLen] == EncodeFrame(p.Abs())
  {
    buf := new uint8[5 + p.remainLen];
    p.currentPos := 0;
    buf[p.currentPos] := HeaderByte(p.ptype, p.flags);
    p.currentPos := p.currentPos + 1;
    VarintFits(p.remainLen);
    p.SetRemainLength(buf);
    var h := p.currentPos;
    assert buf[..h] == [HeaderByte(p.ptype, p.flags)] + Varint(p.remainLen);
    bufLen := h + p.loadPos;
    CopyInto(buf, h, p.load, p.loadPos);
    assert buf[..bufLen] == buf[..h] + buf[h..bufLen];
  }
}
